/**
 * The picture step of data/image_scraper.py: a player's picture URL is made
 * absolute, a file name is built from the player's name without the
 * characters Windows forbids and from the URL's extension (`.jpg` when the
 * URL has none or an implausibly long one), and the player links of a list
 * page are filtered before they are visited.
 */
module PlayerImages {
  import opened Wrappers
  import opened Text
  import Filenames

  const Origin: string := "https://prosettings.net"
  const PlayersIndex: string := "https://prosettings.net/players/"

  /** A protocol-relative URL gets the scheme, a root-relative one the site
      origin; any other URL is kept. */
  function AbsoluteUrl(url: string): (r: string)
    ensures StartsWith(url, "//") ==> r == "https:" + url
    ensures !StartsWith(url, "//") && StartsWith(url, "/") ==> r == Origin + url
    ensures !StartsWith(url, "/") ==> r == url
  {
    if StartsWith(url, "//") then "https:" + url
    else if StartsWith(url, "/") then Origin + url
    else url
  }

  /** A URL made absolute is left alone the second time. */
  lemma AbsoluteUrlIdempotent(url: string)
    ensures AbsoluteUrl(AbsoluteUrl(url)) == AbsoluteUrl(url)
  {
    var r := AbsoluteUrl(url);
    if StartsWith(url, "/") {
      assert r[0] == 'h';
    }
  }

  /** `re.sub(r'[<>:"/\\|?*]', '', name)`: the forbidden characters are deleted. */
  function RemoveForbidden(s: string): (r: string)
    ensures forall c :: c in r <==> c in s && !Filenames.Forbidden(c)
    ensures |r| <= |s|
  {
    if s == [] then []
    else
      var n := |s| - 1;
      assert s == s[..n] + [s[n]];
      RemoveForbidden(s[..n]) + (if Filenames.Forbidden(s[n]) then [] else [s[n]])
  }

  /** Deletion works piece by piece, so the kept characters stay in order. */
  lemma {:induction false} RemoveForbiddenAppend(a: string, b: string)
    ensures RemoveForbidden(a + b) == RemoveForbidden(a) + RemoveForbidden(b)
    decreases |b|
  {
    if b == [] {
      assert a + b == a;
    } else {
      var n := |b| - 1;
      assert (a + b)[..|a + b| - 1] == a + b[..n];
      assert (a + b)[|a + b| - 1] == b[n];
      RemoveForbiddenAppend(a, b[..n]);
    }
  }

  /** A forbidden character is deleted, any other is kept. */
  lemma RemoveForbiddenOne(x: char)
    ensures RemoveForbidden([x]) == if Filenames.Forbidden(x) then [] else [x]
  {
    assert [x][..0] == [];
  }

  /** The `safe_name` of a player: forbidden characters deleted, then the
      surrounding whitespace stripped. */
  function SafePlayerName(name: string): (r: string)
    ensures forall c :: c in r ==> c in name && !Filenames.Forbidden(c)
    ensures r != [] ==> !IsSpace(r[0]) && !IsSpace(r[|r| - 1])
  {
    StripSpaceFrom(RemoveForbidden(name));
    StripSpace(RemoveForbidden(name))
  }

  /** The safe name is what `strip()` leaves of the name with the forbidden
      characters deleted: it starts at `k`, and only whitespace lies
      before and after it. */
  lemma SafePlayerNameStrip(name: string) returns (k: nat)
    ensures var f := RemoveForbidden(name); var r := SafePlayerName(name);
      && k + |r| <= |f| && r == f[k..k + |r|]
      && (forall i :: 0 <= i < k ==> IsSpace(f[i]))
      && (forall i :: k + |r| <= i < |f| ==> IsSpace(f[i]))
  {
    k := StripSpaceInfix(RemoveForbidden(name));
  }

  /** Index of the last `c` in `s`, or -1 (`str.rfind`). */
  function RFind(s: string, c: char): (r: int)
    ensures -1 <= r < |s|
    ensures r >= 0 ==> s[r] == c
    ensures forall i :: r < i < |s| ==> s[i] != c
  {
    if s == [] then -1
    else if s[|s| - 1] == c then |s| - 1
    else RFind(s[..|s| - 1], c)
  }

  /** Some character of `s[lo..hi]` is not a dot. */
  predicate NotAllDots(s: string, lo: int, hi: int)
    requires 0 <= lo && hi <= |s|
  {
    exists i :: lo <= i < hi && s[i] != '.'
  }

  /** Index of the last path separator of `p`, or -1. The script writes to
      a Windows directory, where `os.path` is `ntpath`: both `\` and `/`
      separate path components. */
  function LastSep(p: string): (r: int)
    ensures -1 <= r < |p|
    ensures r >= 0 ==> p[r] == '/' || p[r] == '\\'
    ensures forall i :: r < i < |p| ==> p[i] != '/' && p[i] != '\\'
  {
    var slash := RFind(p, '/');
    var back := RFind(p, '\\');
    if slash >= back then slash else back
  }

  /** `os.path.splitext` of `ntpath`: the extension starts at the last dot of
      the last path component, unless everything before that dot in the
      component is dots. */
  function SplitExt(p: string): (r: (string, string))
    ensures r.0 + r.1 == p
    ensures r.1 != [] ==> r.1[0] == '.' && forall i :: 1 <= i < |r.1| ==> r.1[i] != '.' && r.1[i] != '/' && r.1[i] != '\\'
    ensures r.1 != [] ==> NotAllDots(p, LastSep(p) + 1, |r.0|)
  {
    var sep := LastSep(p);
    var dot := RFind(p, '.');
    if dot > sep && NotAllDots(p, sep + 1, dot) then
      assert p == p[..dot] + p[dot..];
      (p[..dot], p[dot..])
    else
      (p, "")
  }

  /** Characters other than `c` after a string do not move its last `c`. */
  lemma {:induction false} RFindSkips(s: string, t: string, c: char)
    requires c !in t
    ensures RFind(s + t, c) == RFind(s, c)
    decreases |t|
  {
    if t == [] {
      assert s + t == s;
    } else {
      var u := t[..|t| - 1];
      assert (s + t)[..|s + t| - 1] == s + u;
      assert (s + t)[|s + t| - 1] == t[|t| - 1];
      RFindSkips(s, u, c);
    }
  }

  /** In `base + "." + e` the last separator is that of `base` and the last
      dot is the one added. */
  lemma RFindOfName(base: string, e: string)
    requires '.' !in e && '/' !in e && '\\' !in e
    ensures LastSep(base + "." + e) == LastSep(base)
    ensures RFind(base + "." + e, '.') == |base|
  {
    RFindSkips(base + ".", e, '.');
    RFindSkips(base + ".", e, '/');
    RFindSkips(base, ".", '/');
    RFindSkips(base + ".", e, '\\');
    RFindSkips(base, ".", '\\');
    assert RFind(base + ".", '.') == |base|;
  }

  /** When the last dot follows the last separator and something other than
      dots precedes it in the component, the split is at that dot. */
  lemma SplitExtAt(p: string, k: int)
    requires 0 <= k < |p| && RFind(p, '.') == k && LastSep(p) < k
    requires NotAllDots(p, LastSep(p) + 1, k)
    ensures SplitExt(p) == (p[..k], p[k..])
  {
  }

  /** A separator after the last dot leaves no extension: `\` counts as a
      separator just as `/` does. */
  lemma NoExtAfterSeparator(p: string)
    requires LastSep(p) > RFind(p, '.')
    ensures SplitExt(p).1 == ""
  {
  }

  /** A URL whose last dot is followed by a backslash has no extension of
      its own, so the picture is saved as `.jpg`. */
  lemma BackslashUrlExt()
    ensures FileExt("https://x/a.b\\c") == ".jpg"
  {
    var p := "https://x/a.b\\c";
    assert p[..14][..13] == p[..13] && p[..13][..12] == p[..12];
    assert RFind(p[..12], '.') == 11;
    assert RFind(p, '.') == RFind(p[..14], '.') == RFind(p[..13], '.') == 11;
    assert RFind(p, '\\') == RFind(p[..14], '\\') == 13;
    NoExtAfterSeparator(p);
  }

  /** `base + "." + e` cut before the dot gives back both parts. */
  lemma DotJoinParts(base: string, e: string)
    ensures (base + "." + e)[..|base|] == base && (base + "." + e)[|base|..] == "." + e
  {
    assert base + "." + e == base + ("." + e);
  }

  /** Appending keeps a non-dot character of the last component. */
  lemma NotAllDotsOfName(base: string, e: string)
    requires NotAllDots(base, LastSep(base) + 1, |base|)
    ensures NotAllDots(base + "." + e, LastSep(base) + 1, |base|)
  {
    var w :| LastSep(base) + 1 <= w < |base| && base[w] != '.';
    assert (base + "." + e)[w] == base[w];
  }

  /** A name whose last component has a non-dot character, followed by a dot
      and an extension free of dots and separators, splits back into the
      two. */
  lemma SplitExtOfName(base: string, e: string)
    requires NotAllDots(base, LastSep(base) + 1, |base|)
    requires '.' !in e && '/' !in e && '\\' !in e
    ensures SplitExt(base + "." + e) == (base, "." + e)
  {
    RFindOfName(base, e);
    NotAllDotsOfName(base, e);
    DotJoinParts(base, e);
    SplitExtAt(base + "." + e, |base|);
  }

  /** The extension used for the picture file: the URL's own when it is
      non-empty and at most five characters long, `.jpg` otherwise. */
  function FileExt(url: string): (r: string)
    ensures 1 <= |r| <= 5 && r[0] == '.'
    ensures r == ".jpg" || r == SplitExt(url).1
    ensures var e := SplitExt(url).1; e != [] && |e| <= 5 ==> r == e
  {
    var e := SplitExt(url).1;
    if e == [] || |e| > 5 then ".jpg" else e
  }

  /** Where a player's picture is fetched from and the file it is saved to. */
  datatype PlayerImage = PlayerImage(url: string, filename: string)

  /** The picture step for one player: nothing without a picture URL;
      otherwise the absolute URL and the file name `safe_name + ext`, the
      name defaulting to "unknown". */
  function PlayerFile(imgUrl: string, playerName: Option<string>): (r: Option<PlayerImage>)
    ensures r.Some? <==> imgUrl != ""
    ensures r.Some? ==> r.value.url == AbsoluteUrl(imgUrl)
    ensures r.Some? ==> var ext := FileExt(r.value.url);
      && |ext| <= |r.value.filename|
      && r.value.filename[|r.value.filename| - |ext|..] == ext
      && r.value.filename[..|r.value.filename| - |ext|] == SafePlayerName(playerName.GetOr("unknown"))
  {
    if imgUrl == "" then None
    else
      var url := AbsoluteUrl(imgUrl);
      var name := SafePlayerName(playerName.GetOr("unknown"));
      var ext := FileExt(url);
      assert (name + ext)[..|name|] == name;
      Some(PlayerImage(url, name + ext))
  }

  /** A link is visited unless it is a pagination link or the players index. */
  predicate Kept(link: string) {
    !Contains(link, "/page/") && link != PlayersIndex
  }

  /** The link filter of `main`, in page order. */
  function KeepLinks(links: seq<string>): (r: seq<string>)
    ensures forall l :: l in r <==> l in links && Kept(l)
    ensures |r| <= |links|
  {
    if links == [] then []
    else
      var n := |links| - 1;
      assert links == links[..n] + [links[n]];
      KeepLinks(links[..n]) + (if Kept(links[n]) then [links[n]] else [])
  }

  /** The filter works piece by piece, so kept links stay in page order. */
  lemma {:induction false} KeepLinksAppend(a: seq<string>, b: seq<string>)
    ensures KeepLinks(a + b) == KeepLinks(a) + KeepLinks(b)
    decreases |b|
  {
    if b == [] {
      assert a + b == a;
    } else {
      var n := |b| - 1;
      assert (a + b)[..|a + b| - 1] == a + b[..n];
      assert (a + b)[|a + b| - 1] == b[n];
      KeepLinksAppend(a, b[..n]);
    }
  }

  /** One link is kept exactly when it passes the test. */
  lemma KeepLinksOne(l: string)
    ensures KeepLinks([l]) == if Kept(l) then [l] else []
  {
    assert [l][..0] == [];
  }
}
