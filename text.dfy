/**
 * Character and string routines of Python's `str` that the recommender, the
 * import command and the scraping scripts rely on: whitespace (`str.isspace`,
 * the regex class `\s`), ASCII case folding, `startswith`, `in`, `replace`,
 * `strip`, `split`, `str(int)`, `int(str)` and `float(str)`.
 */
module Text {
  import opened Wrappers

  /** The characters for which Python's `str.isspace()` holds; `\s` in a
      `str` regular expression and `str.strip()` without arguments use this set. */
  predicate IsSpace(c: char) {
    c == ' ' || ('\t' <= c <= '\r') || ('\U{1c}' <= c <= '\U{1f}')
    || c == '\U{85}' || c == '\U{a0}' || c == '\U{1680}'
    || ('\U{2000}' <= c <= '\U{200a}') || c == '\U{2028}' || c == '\U{2029}'
    || c == '\U{202f}' || c == '\U{205f}' || c == '\U{3000}'
  }

  predicate IsDigit(c: char) {
    '0' <= c <= '9'
  }

  predicate AllDigits(s: string) {
    forall i :: 0 <= i < |s| ==> IsDigit(s[i])
  }

  function LowerChar(c: char): (r: char)
    ensures 'A' <= c <= 'Z' ==> r as int == c as int + 32
    ensures !('A' <= c <= 'Z') ==> r == c
  {
    if 'A' <= c <= 'Z' then (c as int + 32) as char else c
  }

  /** `s.lower()` restricted to ASCII letters. */
  function Lower(s: string): (r: string)
    ensures |r| == |s|
    ensures forall i :: 0 <= i < |s| ==> r[i] == LowerChar(s[i])
  {
    seq(|s|, i requires 0 <= i < |s| => LowerChar(s[i]))
  }

  /** `s.startswith(p)`. */
  predicate StartsWith(s: string, p: string) {
    |p| <= |s| && s[..|p|] == p
  }

  /** `p in s` for strings: `p` occurs as a contiguous block of `s`. */
  predicate Contains(s: string, p: string)
    decreases |s|
  {
    StartsWith(s, p) || (|s| > 0 && Contains(s[1..], p))
  }

  /** A witness position makes `Contains` true. */
  lemma {:induction false} ContainsAt(s: string, p: string, k: nat)
    requires k + |p| <= |s| && s[k..k + |p|] == p
    ensures Contains(s, p)
    decreases k
  {
    if k > 0 {
      assert s[1..][k - 1..k - 1 + |p|] == p;
      ContainsAt(s[1..], p, k - 1);
    }
  }

  /** `s.replace(pat, rep)`: leftmost, non-overlapping occurrences are replaced. */
  function ReplaceAll(s: string, pat: string, rep: string): string
    requires |pat| > 0
    decreases |s|
  {
    if |s| < |pat| then s
    else if s[..|pat|] == pat then rep + ReplaceAll(s[|pat|..], pat, rep)
    else [s[0]] + ReplaceAll(s[1..], pat, rep)
  }

  /** `s.replace(c, "")` for one character: every other character keeps
      its multiplicity. */
  function RemoveChar(s: string, c: char): (r: string)
    ensures c !in r
    ensures |r| <= |s|
    ensures forall x :: x in r ==> x in s
    ensures multiset(r) == multiset(s)[c := 0]
  {
    if s == [] then []
    else
      assert s == [s[0]] + s[1..];
      if s[0] == c then RemoveChar(s[1..], c)
      else [s[0]] + RemoveChar(s[1..], c)
  }

  /** Removal works piece by piece, so the kept characters stay in order. */
  lemma {:induction false} RemoveCharAppend(a: string, b: string, c: char)
    ensures RemoveChar(a + b, c) == RemoveChar(a, c) + RemoveChar(b, c)
    decreases |a|
  {
    if a != [] {
      assert (a + b)[0] == a[0] && (a + b)[1..] == a[1..] + b;
      RemoveCharAppend(a[1..], b, c);
    } else {
      assert a + b == b;
    }
  }

  /** One character is removed when it is `c` and kept otherwise. */
  lemma RemoveCharOne(x: char, c: char)
    ensures RemoveChar([x], c) == if x == c then [] else [x]
  {
    assert [x][1..] == [];
  }

  /** `s.replace(a, b)` for single characters. */
  function ReplaceChar(s: string, a: char, b: char): (r: string)
    ensures |r| == |s|
    ensures forall i :: 0 <= i < |s| ==> r[i] == if s[i] == a then b else s[i]
  {
    seq(|s|, i requires 0 <= i < |s| => if s[i] == a then b else s[i])
  }

  /** Removing a character that does not occur changes nothing. */
  lemma {:induction false} RemoveAbsent(s: string, c: char)
    requires c !in s
    ensures RemoveChar(s, c) == s
  {
    if s != [] {
      assert c !in s[1..];
      RemoveAbsent(s[1..], c);
    }
  }

  /** Drops the longest prefix whose characters all satisfy `drop`. */
  function TrimLeft(s: string, drop: char -> bool): (r: string)
    ensures |r| <= |s| && r == s[|s| - |r|..]
    ensures r != [] ==> !drop(r[0])
    ensures forall i :: 0 <= i < |s| - |r| ==> drop(s[i])
  {
    if s != [] && drop(s[0]) then
      var r := TrimLeft(s[1..], drop);
      assert forall i :: 1 <= i < |s| - |r| ==> s[i] == s[1..][i - 1];
      r
    else s
  }

  /** Drops the longest suffix whose characters all satisfy `drop`. */
  function TrimRight(s: string, drop: char -> bool): (r: string)
    ensures |r| <= |s| && r == s[..|r|]
    ensures r != [] ==> !drop(r[|r| - 1])
    ensures forall i :: |r| <= i < |s| ==> drop(s[i])
  {
    if s != [] && drop(s[|s| - 1]) then TrimRight(s[..|s| - 1], drop) else s
  }

  /** `s.strip()`. */
  function StripSpace(s: string): string {
    TrimRight(TrimLeft(s, IsSpace), IsSpace)
  }

  /** `s.strip(c)` for one character. */
  function StripChar(s: string, c: char): (r: string)
    ensures r != [] ==> r[0] != c && r[|r| - 1] != c
  {
    TrimRight(TrimLeft(s, x => x == c), x => x == c)
  }

  /** The stripped text is a contiguous part of `s`, starting at `a`. */
  lemma StripCharInfix(s: string, c: char) returns (a: nat)
    ensures a + |StripChar(s, c)| <= |s| && StripChar(s, c) == s[a..a + |StripChar(s, c)|]
  {
    var left := TrimLeft(s, x => x == c);
    var r := StripChar(s, c);
    a := |s| - |left|;
    assert r == left[..|r|];
  }

  /** A prefix of a suffix is a slice. */
  lemma SliceOfSuffix(f: string, k: nat, n: nat)
    requires k + n <= |f|
    ensures f[k..][..n] == f[k..k + n]
  {
  }

  /** `s.strip()` leaves the slice starting at `k`, with only whitespace
      before and after it. */
  lemma StripSpaceInfix(f: string) returns (k: nat)
    ensures k + |StripSpace(f)| <= |f| && StripSpace(f) == f[k..k + |StripSpace(f)|]
    ensures forall i :: 0 <= i < k ==> IsSpace(f[i])
    ensures forall i :: k + |StripSpace(f)| <= i < |f| ==> IsSpace(f[i])
  {
    var left := TrimLeft(f, IsSpace);
    var n := |StripSpace(f)|;
    k := |f| - |left|;
    SliceOfSuffix(f, k, n);
    forall i | k + n <= i < |f| ensures IsSpace(f[i]) {
      assert f[i] == left[i - k];
    }
  }

  /** `s.strip()` adds no character. */
  lemma StripSpaceFrom(f: string)
    ensures forall c :: c in StripSpace(f) ==> c in f
  {
    var l := TrimLeft(f, IsSpace);
    var r := TrimRight(l, IsSpace);
    forall c | c in r ensures c in f {
      var i :| 0 <= i < |r| && r[i] == c;
      assert l[i] == c;
      assert f[|f| - |l| + i] == c;
    }
  }

  /** Number of occurrences of `c` in `s`. */
  function CountChar(s: string, c: char): nat {
    if s == [] then 0 else CountChar(s[..|s| - 1], c) + (if s[|s| - 1] == c then 1 else 0)
  }

  /** `s.split(sep)` for a one-character separator: one part more than
      there are separators, the last part being what follows the last one. */
  function Split(s: string, sep: char): (parts: seq<string>)
    ensures |parts| == CountChar(s, sep) + 1
    ensures forall i :: 0 <= i < |parts| ==> sep !in parts[i]
    decreases |s|
  {
    if s == [] then [""]
    else
      var init := Split(s[..|s| - 1], sep);
      if s[|s| - 1] == sep then init + [""]
      else init[..|init| - 1] + [init[|init| - 1] + [s[|s| - 1]]]
  }

  /** `sep.join(parts)`. */
  function Join(parts: seq<string>, sep: char): string {
    if parts == [] then ""
    else if |parts| == 1 then parts[0]
    else Join(parts[..|parts| - 1], sep) + [sep] + parts[|parts| - 1]
  }

  /** Joining the parts with the separator gives the text back. */
  lemma {:induction false} SplitJoin(s: string, sep: char)
    ensures Join(Split(s, sep), sep) == s
    decreases |s|
  {
    if s != [] {
      var u := s[..|s| - 1];
      var x := s[|s| - 1];
      var init := Split(u, sep);
      SplitJoin(u, sep);
      assert s == u + [x];
      if x == sep {
        assert Split(s, sep) == init + [""];
        assert (init + [""])[..|init|] == init;
      } else {
        var last := init[|init| - 1];
        var ps := init[..|init| - 1] + [last + [x]];
        assert Split(s, sep) == ps;
        if |init| == 1 {
          assert Join(init, sep) == last;
        } else {
          assert ps[..|ps| - 1] == init[..|init| - 1];
          assert Join(init, sep) == Join(init[..|init| - 1], sep) + [sep] + last;
        }
      }
    }
  }

  function DigitValue(c: char): nat
    requires IsDigit(c)
  {
    c as int - '0' as int
  }

  /** The number a string of decimal digits denotes. */
  function DigitsValue(s: string): nat
    requires AllDigits(s)
  {
    if s == [] then 0 else DigitsValue(s[..|s| - 1]) * 10 + DigitValue(s[|s| - 1])
  }

  function Pow10(k: nat): (r: nat)
    ensures r >= 1
  {
    if k == 0 then 1 else 10 * Pow10(k - 1)
  }

  /** `str(n)` for a natural number. */
  function NatToDecimal(n: nat): (r: string)
    ensures r != [] && AllDigits(r)
    ensures DigitsValue(r) == n
  {
    var d := ['0' + (n % 10) as char];
    if n < 10 then d else NatToDecimal(n / 10) + d
  }

  /** `str(i)` for an integer. */
  function IntToDecimal(i: int): string {
    if i < 0 then "-" + NatToDecimal(-i) else NatToDecimal(i)
  }

  /** A sign prefix and its effect on the value that follows. */
  function ParseSigned<T>(t: string, body: string -> Option<T>, negate: T -> T): Option<T> {
    if t != [] && (t[0] == '-' || t[0] == '+') then
      match body(t[1..])
      case Some(v) => Some(if t[0] == '-' then negate(v) else v)
      case None => None
    else body(t)
  }

  function NegInt(v: int): int { -v }

  function NegReal(v: real): real { -v }

  function ParseNat(t: string): Option<int> {
    if t != [] && AllDigits(t) then Some(DigitsValue(t)) else None
  }

  /** `int(s)` on a string: surrounding whitespace, an optional sign and
      decimal digits; `None` where Python raises `ValueError`. */
  function ParseInt(s: string): (r: Option<int>)
    ensures var t := StripSpace(s);
      r.Some? <==> (t != [] && AllDigits(t)) || (|t| >= 2 && (t[0] == '-' || t[0] == '+') && AllDigits(t[1..]))
    ensures r.Some? && StripSpace(s) != [] && StripSpace(s)[0] == '-' ==> r.value <= 0
    ensures r.Some? && StripSpace(s) != [] && StripSpace(s)[0] != '-' ==> r.value >= 0
  {
    SignedNat(StripSpace(s));
    ParseSigned(StripSpace(s), ParseNat, NegInt)
  }

  /** What an optional sign before decimal digits accepts, and the sign of its value. */
  lemma SignedNat(t: string)
    ensures var r := ParseSigned(t, ParseNat, NegInt);
      && (r.Some? <==> (t != [] && AllDigits(t)) || (|t| >= 2 && (t[0] == '-' || t[0] == '+') && AllDigits(t[1..])))
      && (r.Some? && t != [] && t[0] == '-' ==> r.value <= 0)
      && (r.Some? && t != [] && t[0] != '-' ==> r.value >= 0)
  {
    if t != [] && (t[0] == '-' || t[0] == '+') {
      assert !IsDigit(t[0]);
    }
  }

  /** Unsigned decimal literal: digits with at most one point, at least one digit. */
  function ParseUnsignedDecimal(t: string): (r: Option<real>)
    ensures r.Some? ==> t != [] && r.value >= 0.0
  {
    var parts := Split(t, '.');
    if |parts| == 1 && parts[0] != [] && AllDigits(parts[0]) then
      Some(DigitsValue(parts[0]) as real)
    else if |parts| == 2 && AllDigits(parts[0]) && AllDigits(parts[1]) && |parts[0]| + |parts[1]| > 0 then
      Some(DigitsValue(parts[0]) as real + DigitsValue(parts[1]) as real / Pow10(|parts[1]|) as real)
    else None
  }

  /** `float(s)` on a string: surrounding whitespace, an optional sign and a
      decimal literal; `None` where Python raises `ValueError`. */
  function ParseReal(s: string): (r: Option<real>)
    ensures r.Some? ==> StripSpace(s) != []
    ensures r.Some? && StripSpace(s)[0] == '-' ==> r.value <= 0.0
    ensures r.Some? && StripSpace(s)[0] != '-' ==> r.value >= 0.0
  {
    ParseSigned(StripSpace(s), ParseUnsignedDecimal, NegReal)
  }

  /** `float()` accepts every text `int()` accepts, with the same value. */
  lemma ParseRealOfInt(s: string)
    requires ParseInt(s).Some?
    ensures ParseReal(s) == Some(ParseInt(s).value as real)
  {
    var t := StripSpace(s);
    var u := if t[0] == '-' || t[0] == '+' then t[1..] else t;
    assert u != [] && AllDigits(u);
    DigitsDecimal(u);
  }

  /** A non-empty digit string is an unsigned decimal literal with its value. */
  lemma DigitsDecimal(u: string)
    requires u != [] && AllDigits(u)
    ensures ParseUnsignedDecimal(u) == Some(DigitsValue(u) as real)
  {
    assert '.' !in u by {
      forall i | 0 <= i < |u| ensures u[i] != '.' {
        assert IsDigit(u[i]);
      }
    }
    SplitWithoutSeparator(u, '.');
  }

  lemma TrimNothing(s: string, drop: char -> bool)
    requires forall i :: 0 <= i < |s| ==> !drop(s[i])
    ensures TrimLeft(s, drop) == s && TrimRight(s, drop) == s
  {
  }

  /** `int(str(i)) == i`: the decimal text of an identifier parses back to it. */
  lemma ParseIntOfDecimal(i: int)
    ensures ParseInt(IntToDecimal(i)) == Some(i)
  {
    var t := IntToDecimal(i);
    assert forall k :: 0 <= k < |t| ==> !IsSpace(t[k]);
    TrimNothing(t, IsSpace);
    assert StripSpace(t) == t;
    assert ParseInt(t) == ParseSigned(t, ParseNat, NegInt);
    if i < 0 {
      assert t[0] == '-' && t[1..] == NatToDecimal(-i);
      assert ParseNat(t[1..]) == Some(-i);
    } else {
      assert IsDigit(t[0]);
      assert ParseNat(t) == Some(i);
    }
  }

  /** A string without the separator splits into itself. */
  lemma {:induction false} SplitWithoutSeparator(s: string, sep: char)
    requires sep !in s
    ensures Split(s, sep) == [s]
  {
    if s != [] {
      assert sep !in s[..|s| - 1];
      SplitWithoutSeparator(s[..|s| - 1], sep);
      assert s[..|s| - 1] + [s[|s| - 1]] == s;
    }
  }

  /** `float(s)` of a plain digit string is the number it denotes. */
  lemma ParseRealOfDigits(s: string)
    requires s != [] && AllDigits(s)
    ensures ParseReal(s) == Some(DigitsValue(s) as real)
  {
    TrimNothing(s, IsSpace);
    DigitsDecimal(s);
    assert !(s[0] == '-' || s[0] == '+') by {
      assert IsDigit(s[0]);
    }
  }
}
