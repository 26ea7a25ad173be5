/**
 * The picture downloaders' file-name routines (data/download_all_gear_images.py,
 * data/gear_image_scraper.py, data/gear_list_image_scraper.py,
 * data/gear_all_images.py): `sanitize_filename`, the " Review" suffix
 * removal of the review-page downloader, and the three ways the scripts
 * pick an image extension from a URL.
 */
module Filenames {
  import opened Text

  /** The characters `[<>:"/\\|?*]` that Windows forbids in file names. */
  predicate Forbidden(c: char) {
    c == '<' || c == '>' || c == ':' || c == '"' || c == '/' || c == '\\' || c == '|' || c == '?' || c == '*'
  }

  /** The characters of the class `[\s_]`. */
  predicate RunChar(c: char) {
    IsSpace(c) || c == '_'
  }

  /** No two neighbouring underscores. */
  predicate NoDoubleUnderscore(s: string) {
    forall i :: 0 <= i < |s| - 1 ==> !(s[i] == '_' && s[i + 1] == '_')
  }

  /** What every sanitised name satisfies. */
  predicate Clean(s: string) {
    && (forall i :: 0 <= i < |s| ==> !Forbidden(s[i]) && !IsSpace(s[i]))
    && NoDoubleUnderscore(s)
  }

  /** `re.sub(r'[<>:"/\\|?*]', '_', name)`. */
  function ReplaceForbidden(s: string): (r: string)
    ensures |r| == |s|
    ensures forall i :: 0 <= i < |s| ==> r[i] == if Forbidden(s[i]) then '_' else s[i]
  {
    seq(|s|, i requires 0 <= i < |s| => if Forbidden(s[i]) then '_' else s[i])
  }

  /** Replaces every maximal run of characters satisfying `run` by one `_`. */
  function Collapse(s: string, run: char -> bool): (r: string)
    ensures r == [] <==> s == []
    ensures s != [] && run(s[0]) ==> r[0] == '_'
    ensures s != [] && !run(s[0]) ==> r[0] == s[0]
    decreases |s|
  {
    if s == [] then []
    else if run(s[0]) then ['_'] + Collapse(TrimLeft(s[1..], run), run)
    else [s[0]] + Collapse(s[1..], run)
  }

  /** `re.sub(r'[\s_]+', '_', name)`: every maximal run of whitespace and
      underscores becomes one underscore. */
  function CollapseRuns(s: string): (r: string)
    ensures r == [] <==> s == []
    ensures s != [] ==> (r[0] == '_' <==> RunChar(s[0]))
  {
    Collapse(s, RunChar)
  }

  /** The collapse keeps every character that is neither whitespace nor
      `_`, in order, and turns each maximal run into exactly one `_`. */
  lemma CollapseRunsContents(s: string)
    ensures Keep(CollapseRuns(s), RunChar) == Keep(s, RunChar)
    ensures multiset(CollapseRuns(s))['_'] == RunStarts(s, RunChar, false)
  {
    CollapseKeep(s, RunChar);
    CollapseCount(s, RunChar);
  }

  /** Every character of `r` is `_` or a character of `s` outside `run`. */
  predicate DrawnFrom(r: string, s: string, run: char -> bool) {
    forall i :: 0 <= i < |r| ==> r[i] == '_' || (r[i] in s && !run(r[i]))
  }

  /** The collapsed text adds no character but `_`, and keeps none of `run`. */
  lemma {:induction false} CollapseChars(s: string, run: char -> bool)
    ensures DrawnFrom(Collapse(s, run), s, run)
    decreases |s|
  {
    if s != [] {
      var r := Collapse(s, run);
      var tail := if run(s[0]) then TrimLeft(s[1..], run) else s[1..];
      CollapseChars(tail, run);
      var rest := Collapse(tail, run);
      assert r == [if run(s[0]) then '_' else s[0]] + rest;
      assert tail == s[|s| - |tail|..];
      forall i | 0 <= i < |r| && r[i] != '_' ensures r[i] in s && !run(r[i]) {
        if i > 0 {
          assert r[i] == rest[i - 1];
          var j :| 0 <= j < |tail| && tail[j] == rest[i - 1];
          assert s[|s| - |tail| + j] == tail[j];
        }
      }
    }
  }

  /** When `run` holds of `_`, the collapsed text has no two neighbouring
      underscores. */
  lemma {:induction false} CollapseSingleUnderscores(s: string, run: char -> bool)
    requires run('_')
    ensures NoDoubleUnderscore(Collapse(s, run))
    decreases |s|
  {
    if s != [] {
      var r := Collapse(s, run);
      var tail := if run(s[0]) then TrimLeft(s[1..], run) else s[1..];
      CollapseSingleUnderscores(tail, run);
      var rest := Collapse(tail, run);
      assert r == [if run(s[0]) then '_' else s[0]] + rest;
      forall i | 0 <= i < |r| - 1 ensures !(r[i] == '_' && r[i + 1] == '_') {
        if i == 0 {
          if !run(s[0]) {
            assert r[0] == s[0];
          }
        } else {
          assert r[i] == rest[i - 1] && r[i + 1] == rest[i];
        }
      }
    }
  }

  /** A text whose only `run` characters are single underscores has no run
      to collapse. */
  lemma {:induction false} CollapseNothing(s: string, run: char -> bool)
    requires forall i :: 0 <= i < |s| ==> run(s[i]) ==> s[i] == '_'
    requires NoDoubleUnderscore(s)
    ensures Collapse(s, run) == s
    decreases |s|
  {
    if s != [] {
      if run(s[0]) {
        assert TrimLeft(s[1..], run) == s[1..] by {
          if |s| > 1 {
            assert !run(s[1]);
          }
        }
      }
      CollapseNothing(s[1..], run);
    }
  }

  /** The characters of `s` outside `run`, in order. */
  function Keep(s: string, run: char -> bool): string
    decreases |s|
  {
    if s == [] then [] else (if run(s[0]) then [] else [s[0]]) + Keep(s[1..], run)
  }

  lemma {:induction false} KeepAppend(a: string, b: string, run: char -> bool)
    ensures Keep(a + b, run) == Keep(a, run) + Keep(b, run)
    decreases |a|
  {
    if a == [] {
      assert a + b == b;
    } else {
      assert (a + b)[0] == a[0] && (a + b)[1..] == a[1..] + b;
      KeepAppend(a[1..], b, run);
    }
  }

  /** A text made only of `run` characters keeps nothing. */
  lemma {:induction false} KeepNone(s: string, run: char -> bool)
    requires forall i :: 0 <= i < |s| ==> run(s[i])
    ensures Keep(s, run) == []
    decreases |s|
  {
    if s != [] {
      KeepNone(s[1..], run);
    }
  }

  /** Trimming only `run` characters off the front keeps the same characters. */
  lemma KeepTrimLeft(t: string, drop: char -> bool, run: char -> bool)
    requires forall i :: 0 <= i < |t| ==> drop(t[i]) ==> run(t[i])
    ensures Keep(TrimLeft(t, drop), run) == Keep(t, run)
  {
    var l := TrimLeft(t, drop);
    var k := |t| - |l|;
    var front := t[..k];
    assert t == front + l;
    assert forall i :: 0 <= i < |front| ==> run(front[i]) by {
      forall i | 0 <= i < |front| ensures run(front[i]) {
        assert front[i] == t[i];
      }
    }
    KeepNone(front, run);
    KeepAppend(front, l, run);
  }

  /** Trimming only `run` characters off the end keeps the same characters. */
  lemma {:induction false} KeepTrimRight(t: string, drop: char -> bool, run: char -> bool)
    requires forall i :: 0 <= i < |t| ==> drop(t[i]) ==> run(t[i])
    ensures Keep(TrimRight(t, drop), run) == Keep(t, run)
    decreases |t|
  {
    if t != [] && drop(t[|t| - 1]) {
      var init := t[..|t| - 1];
      KeepTrimRight(init, drop, run);
      assert t == init + [t[|t| - 1]];
      KeepAppend(init, [t[|t| - 1]], run);
    }
  }

  /** Collapsing keeps every character outside `run`, in order. */
  lemma {:induction false} CollapseKeep(s: string, run: char -> bool)
    requires run('_')
    ensures Keep(Collapse(s, run), run) == Keep(s, run)
    decreases |s|
  {
    if s != [] {
      var r := Collapse(s, run);
      if run(s[0]) {
        var tail := TrimLeft(s[1..], run);
        CollapseKeep(tail, run);
        assert r == ['_'] + Collapse(tail, run);
        assert r[1..] == Collapse(tail, run);
        KeepTrimLeft(s[1..], run, run);
      } else {
        CollapseKeep(s[1..], run);
        assert r[1..] == Collapse(s[1..], run);
      }
    }
  }

  /** Number of maximal runs of `run` characters in `s`: the positions where
      a run starts, `inRun` telling whether the character before `s` is one. */
  function RunStarts(s: string, run: char -> bool, inRun: bool): nat
    decreases |s|
  {
    if s == [] then 0
    else (if run(s[0]) && !inRun then 1 else 0) + RunStarts(s[1..], run, run(s[0]))
  }

  /** Inside a run, the count goes on from the end of that run. */
  lemma {:induction false} RunStartsTrim(t: string, run: char -> bool)
    ensures RunStarts(t, run, true) == RunStarts(TrimLeft(t, run), run, false)
    decreases |t|
  {
    if t != [] && run(t[0]) {
      RunStartsTrim(t[1..], run);
    }
  }

  /** Each maximal run becomes exactly one `_`: the result has as many
      underscores as `s` has runs. */
  lemma {:induction false} CollapseCount(s: string, run: char -> bool)
    requires run('_')
    ensures multiset(Collapse(s, run))['_'] == RunStarts(s, run, false)
    decreases |s|
  {
    if s != [] {
      var r := Collapse(s, run);
      if run(s[0]) {
        var tail := TrimLeft(s[1..], run);
        CollapseCount(tail, run);
        RunStartsTrim(s[1..], run);
        assert r == ['_'] + Collapse(tail, run);
      } else {
        CollapseCount(s[1..], run);
        assert r == [s[0]] + Collapse(s[1..], run);
        assert s[0] != '_';
      }
    }
  }

  /** `sanitize_filename` of data/download_all_gear_images.py,
      data/gear_list_image_scraper.py and data/gear_all_images.py. */
  function SanitizeFilename(name: string): (r: string)
    ensures r != [] ==> r[0] != '_' && r[|r| - 1] != '_'
    ensures Keep(r, RunChar) == Keep(ReplaceForbidden(name), RunChar)
  {
    SanitizeKeep(name);
    StripChar(CollapseRuns(ReplaceForbidden(name)), '_')
  }

  /** After the replacement and the collapse no forbidden character and no
      whitespace is left. */
  lemma CollapsedAllowed(f: string)
    requires forall i :: 0 <= i < |f| ==> !Forbidden(f[i])
    ensures forall i :: 0 <= i < |CollapseRuns(f)| ==> !Forbidden(CollapseRuns(f)[i]) && !IsSpace(CollapseRuns(f)[i])
  {
    var c := CollapseRuns(f);
    CollapseChars(f, RunChar);
    forall i | 0 <= i < |c| ensures !Forbidden(c[i]) && !IsSpace(c[i]) {
      if c[i] != '_' {
        assert DrawnFrom(c, f, RunChar);
        var j :| 0 <= j < |f| && f[j] == c[i];
      }
    }
  }

  /** A sanitised name has no forbidden character, no whitespace and no
      two neighbouring underscores. */
  lemma SanitizeClean(name: string)
    ensures Clean(SanitizeFilename(name))
  {
    var f := ReplaceForbidden(name);
    var c := CollapseRuns(f);
    CollapsedAllowed(f);
    CollapseSingleUnderscores(f, RunChar);
    var a := StripCharInfix(c, '_');
    CleanInfix(c, a, a + |StripChar(c, '_')|);
  }

  /** A contiguous part of a collapsed, forbidden-free name is clean. */
  lemma CleanInfix(c: string, a: int, b: int)
    requires forall i :: 0 <= i < |c| ==> !Forbidden(c[i]) && !IsSpace(c[i])
    requires NoDoubleUnderscore(c)
    requires 0 <= a <= b <= |c|
    ensures Clean(c[a..b])
  {
    var r := c[a..b];
    forall i | 0 <= i < |r| - 1 ensures !(r[i] == '_' && r[i + 1] == '_') {
      assert r[i] == c[a + i] && r[i + 1] == c[a + i + 1];
    }
    forall i | 0 <= i < |r| ensures !Forbidden(r[i]) && !IsSpace(r[i]) {
      assert r[i] == c[a + i];
    }
  }

  /** Sanitising keeps every character that is neither whitespace nor `_`,
      in order, forbidden ones having become `_`. */
  lemma SanitizeKeep(name: string)
    ensures Keep(StripChar(CollapseRuns(ReplaceForbidden(name)), '_'), RunChar) == Keep(ReplaceForbidden(name), RunChar)
  {
    var f := ReplaceForbidden(name);
    var c := CollapseRuns(f);
    CollapseRunsContents(f);
    KeepTrimLeft(c, x => x == '_', RunChar);
    KeepTrimRight(TrimLeft(c, x => x == '_'), x => x == '_', RunChar);
  }

  /** Nothing is kept exactly when every character belongs to `run`. */
  lemma {:induction false} KeepEmptyIff(s: string, run: char -> bool)
    ensures Keep(s, run) == [] <==> forall i :: 0 <= i < |s| ==> run(s[i])
    decreases |s|
  {
    if s != [] {
      KeepEmptyIff(s[1..], run);
      if forall i :: 0 <= i < |s[1..]| ==> run(s[1..][i]) {
        if run(s[0]) {
          forall i | 0 <= i < |s| ensures run(s[i]) {
            if i > 0 {
              assert s[i] == s[1..][i - 1];
            }
          }
        }
      } else {
        var i :| 0 <= i < |s[1..]| && !run(s[1..][i]);
        assert !run(s[i + 1]);
      }
    }
  }

  /** The last character of the collapsed text is `_` exactly when the text
      ends in a run. */
  lemma {:induction false} CollapseLast(s: string, run: char -> bool)
    requires run('_') && s != []
    ensures var r := Collapse(s, run); r[|r| - 1] == '_' <==> run(s[|s| - 1])
    decreases |s|
  {
    var r := Collapse(s, run);
    if run(s[0]) {
      var tail := TrimLeft(s[1..], run);
      assert r == ['_'] + Collapse(tail, run);
      if tail == [] {
        assert run(s[|s| - 1]) by {
          if |s| > 1 {
            assert s[|s| - 1] == s[1..][|s| - 2];
          }
        }
      } else {
        CollapseLast(tail, run);
        assert tail[|tail| - 1] == s[|s| - 1];
      }
    } else {
      assert r == [s[0]] + Collapse(s[1..], run);
      if |s| > 1 {
        CollapseLast(s[1..], run);
      }
    }
  }

  /** Without `__`, trimming `_` off the front drops at most one character. */
  lemma TrimLeftUnderscore(c: string)
    requires NoDoubleUnderscore(c)
    ensures TrimLeft(c, x => x == '_') == if c != [] && c[0] == '_' then c[1..] else c
  {
    if c != [] && c[0] == '_' && |c| >= 2 {
      assert c[1] != '_';
    }
  }

  /** Without `__`, trimming `_` off the end drops at most one character. */
  lemma TrimRightUnderscore(l: string)
    requires NoDoubleUnderscore(l)
    ensures TrimRight(l, x => x == '_') == if l != [] && l[|l| - 1] == '_' then l[..|l| - 1] else l
  {
    if l != [] && l[|l| - 1] == '_' && |l| >= 2 {
      assert l[|l| - 2] != '_';
    }
  }

  lemma NoDoubleSuffix(c: string, a: nat)
    requires NoDoubleUnderscore(c) && a <= |c|
    ensures NoDoubleUnderscore(c[a..])
  {
    var l := c[a..];
    forall i | 0 <= i < |l| - 1 ensures !(l[i] == '_' && l[i + 1] == '_') {
      assert l[i] == c[a + i] && l[i + 1] == c[a + i + 1];
    }
  }

  /** Without `__`, `lstrip('_')` drops at most one `_`. */
  lemma StripFrontCount(c: string)
    requires NoDoubleUnderscore(c)
    ensures var l := TrimLeft(c, x => x == '_');
      && NoDoubleUnderscore(l)
      && multiset(l)['_'] as int == multiset(c)['_'] as int - (if c != [] && c[0] == '_' then 1 else 0)
      && (|c| >= 2 ==> l != [] && l[|l| - 1] == c[|c| - 1])
  {
    TrimLeftUnderscore(c);
    if c != [] && c[0] == '_' {
      UnderscoresFirst(c);
      NoDoubleSuffix(c, 1);
    }
  }

  /** Without `__`, `rstrip('_')` drops at most one `_`. */
  lemma StripBackCount(l: string)
    requires NoDoubleUnderscore(l)
    ensures multiset(TrimRight(l, x => x == '_'))['_'] as int
      == multiset(l)['_'] as int - (if l != [] && l[|l| - 1] == '_' then 1 else 0)
  {
    TrimRightUnderscore(l);
    if l != [] && l[|l| - 1] == '_' {
      UnderscoresLast(l);
    }
  }

  /** `strip('_')` of a text without `__` drops at most one `_` at each end. */
  lemma StripUnderscoreCount(c: string)
    requires NoDoubleUnderscore(c)
    ensures multiset(StripChar(c, '_'))['_'] as int == multiset(c)['_'] as int
      - (if c != [] && c[0] == '_' then 1 else 0)
      - (if |c| >= 2 && c[|c| - 1] == '_' then 1 else 0)
  {
    var l := TrimLeft(c, x => x == '_');
    StripFrontCount(c);
    StripBackCount(l);
    if |c| == 1 && c[0] == '_' {
      TrimLeftUnderscore(c);
    }
  }

  lemma UnderscoresFirst(c: string)
    requires c != []
    ensures multiset(c)['_'] == multiset(c[1..])['_'] + (if c[0] == '_' then 1 else 0)
  {
    assert c == [c[0]] + c[1..];
  }

  lemma UnderscoresLast(c: string)
    requires c != []
    ensures multiset(c)['_'] == multiset(c[..|c| - 1])['_'] + (if c[|c| - 1] == '_' then 1 else 0)
  {
    assert c == c[..|c| - 1] + [c[|c| - 1]];
  }

  /** In the sanitised name every run of whitespace and underscores between
      two kept characters is one `_`; runs at either end leave nothing. */
  lemma SanitizeUnderscores(name: string)
    ensures var f := ReplaceForbidden(name);
      multiset(SanitizeFilename(name))['_'] as int == RunStarts(f, RunChar, false) as int
        - (if f != [] && RunChar(f[0]) then 1 else 0)
        - (if f != [] && RunChar(f[|f| - 1]) && Keep(f, RunChar) != [] then 1 else 0)
  {
    var f := ReplaceForbidden(name);
    var c := CollapseRuns(f);
    CollapseRunsContents(f);
    CollapseSingleUnderscores(f, RunChar);
    StripUnderscoreCount(c);
    if f != [] {
      CollapseLast(f, RunChar);
      KeepEmptyIff(c, RunChar);
      KeepEmptyIff(f, RunChar);
      if |c| >= 2 && c[|c| - 1] == '_' {
        CollapseChars(f, RunChar);
        assert c[|c| - 2] != '_';
        assert !RunChar(c[|c| - 2]);
      }
      if Keep(f, RunChar) != [] && c[|c| - 1] == '_' {
        var i :| 0 <= i < |c| && !RunChar(c[i]);
        assert i != |c| - 1;
      }
    }
  }

  /** Sanitising twice is sanitising once. */
  lemma SanitizeIdempotent(name: string)
    ensures SanitizeFilename(SanitizeFilename(name)) == SanitizeFilename(name)
  {
    var t := SanitizeFilename(name);
    SanitizeClean(name);
    assert ReplaceForbidden(t) == t;
    CollapseNothing(t, RunChar);
    assert TrimLeft(t, x => x == '_') == t;
    assert TrimRight(t, x => x == '_') == t;
  }

  /** ASCII-case-insensitive test that `s` spells "review". */
  predicate IsReview(s: string) {
    |s| == 6 && LowerChar(s[0]) == 'r' && LowerChar(s[1]) == 'e' && LowerChar(s[2]) == 'v'
    && LowerChar(s[3]) == 'i' && LowerChar(s[4]) == 'e' && LowerChar(s[5]) == 'w'
  }

  /** `re.sub(r'\s+Review\s*$', '', name, flags=re.IGNORECASE)`: when the name
      ends in whitespace, "Review" in any case and optional whitespace, that
      ending is cut off. */
  function StripReviewSuffix(name: string): (r: string)
    ensures StartsWith(name, r)
    ensures r != name ==> var t := TrimRight(name, IsSpace); |t| > 6 && IsReview(t[|t| - 6..]) && IsSpace(t[|t| - 7])
  {
    var t := TrimRight(name, IsSpace);
    if |t| >= 6 && IsReview(t[|t| - 6..]) && |t| > 6 && IsSpace(t[|t| - 7]) then
      TrimRight(t[..|t| - 6], IsSpace)
    else name
  }

  /** The suffix goes, whitespace before it included, whatever its case. */
  lemma StripReviewOf(base: string, ws: string, review: string, trailing: string)
    requires ws != [] && forall i :: 0 <= i < |ws| ==> IsSpace(ws[i])
    requires IsReview(review)
    requires forall i :: 0 <= i < |trailing| ==> IsSpace(trailing[i])
    ensures StripReviewSuffix(base + ws + review + trailing) == TrimRight(base + ws, IsSpace)
  {
    var s := base + ws + review + trailing;
    var t := TrimRight(s, IsSpace);
    assert !IsSpace(review[5]) by {
      assert LowerChar(review[5]) == 'w';
    }
    assert t == base + ws + review by {
      var k := base + ws + review;
      assert s == k + trailing;
      TrimRightSkips(k, trailing);
    }
    assert t[|t| - 6..] == review;
    assert t[..|t| - 6] == base + ws;
    assert t[|t| - 7] == ws[|ws| - 1];
  }

  /** Trimming trailing whitespace stops at the last character that is not. */
  lemma {:induction false} TrimRightSkips(k: string, trailing: string)
    requires k != [] && !IsSpace(k[|k| - 1])
    requires forall i :: 0 <= i < |trailing| ==> IsSpace(trailing[i])
    ensures TrimRight(k + trailing, IsSpace) == k
    decreases |trailing|
  {
    if trailing != [] {
      var s := k + trailing;
      assert s[..|s| - 1] == k + trailing[..|trailing| - 1];
      TrimRightSkips(k, trailing[..|trailing| - 1]);
    } else {
      assert k + trailing == k;
    }
  }

  /** `sanitize_filename` of data/gear_image_scraper.py: the review suffix
      goes first. */
  function SanitizeReviewFilename(name: string): (r: string)
    ensures Clean(r)
    ensures r != [] ==> r[0] != '_' && r[|r| - 1] != '_'
    ensures Keep(r, RunChar) == Keep(ReplaceForbidden(StripReviewSuffix(name)), RunChar)
  {
    SanitizeClean(StripReviewSuffix(name));
    SanitizeFilename(StripReviewSuffix(name))
  }

  /** data/download_all_gear_images.py: PNG when the URL mentions ".png", JPG otherwise. */
  function ExtPngOrJpg(url: string): (ext: string)
    ensures ext == ".png" <==> Contains(Lower(url), ".png")
    ensures ext == ".png" || ext == ".jpg"
  {
    if Contains(Lower(url), ".png") then ".png" else ".jpg"
  }

  /** data/gear_image_scraper.py and data/gear_list_image_scraper.py:
      ".png", then ".webp", then ".jpeg", with ".jpg" as the default. */
  function ExtByPriority(url: string): (ext: string)
    ensures ext in [".png", ".webp", ".jpeg", ".jpg"]
    ensures ext == ".png" <==> Contains(Lower(url), ".png")
    ensures ext == ".webp" <==> !Contains(Lower(url), ".png") && Contains(Lower(url), ".webp")
    ensures ext == ".jpeg" <==>
      !Contains(Lower(url), ".png") && !Contains(Lower(url), ".webp") && Contains(Lower(url), ".jpeg")
  {
    var u := Lower(url);
    if Contains(u, ".png") then ".png"
    else if Contains(u, ".webp") then ".webp"
    else if Contains(u, ".jpeg") then ".jpeg"
    else ".jpg"
  }

  /** data/gear_all_images.py: ".webp", then ".png", else ".jpg"; a ".jpeg"
      URL is saved as ".jpg". */
  function ExtWebpFirst(url: string): (ext: string)
    ensures ext in [".webp", ".png", ".jpg"]
    ensures ext == ".webp" <==> Contains(Lower(url), ".webp")
    ensures ext == ".png" <==> !Contains(Lower(url), ".webp") && Contains(Lower(url), ".png")
  {
    var u := Lower(url);
    if Contains(u, ".webp") then ".webp" else if Contains(u, ".png") then ".png" else ".jpg"
  }

  /** The three choosers agree on a URL that names one image type only, and
      differ only where a URL names several, or names ".jpeg". */
  lemma ChoosersAgree(url: string)
    ensures !Contains(Lower(url), ".webp") ==> ExtPngOrJpg(url) == ExtWebpFirst(url)
    ensures !Contains(Lower(url), ".webp") && !Contains(Lower(url), ".jpeg") ==>
      ExtByPriority(url) == ExtPngOrJpg(url)
    ensures !(Contains(Lower(url), ".png") && Contains(Lower(url), ".webp")) ==>
      (ExtByPriority(url) == ".jpeg" || ExtByPriority(url) == ExtWebpFirst(url))
  {
  }
}
