/**
 * The gear collection step of data/gear_scraper.py: the gear entries of all
 * players are walked in order, every named gear is kept once (its first
 * entry deciding the category) together with a guessed review URL built
 * from a slug of its name, and the first hundred gears, in the order they
 * were first seen, are the ones whose review pages are visited.
 */
module GearScraper {
  import opened Text

  const ReviewsBase: string := "https://prosettings.net/reviews/"
  const ScrapeLimit: nat := 100

  /** One entry of a player's `gear` list: `name` and `category`, "" when absent. */
  datatype GearRef = GearRef(name: string, category: string)

  /** The value stored for a gear name. */
  datatype GearInfo = GearInfo(name: string, category: string, reviewUrl: string)

  /** The URL slug of a gear name: lower case, spaces to dashes, parentheses dropped. */
  function Slug(name: string): (r: string)
    ensures ' ' !in r && '(' !in r && ')' !in r
    ensures forall c :: c in r ==> !('A' <= c <= 'Z')
    ensures |r| <= |name|
  {
    var lowered := Lower(name);
    var dashed := ReplaceChar(lowered, ' ', '-');
    assert forall c :: c in dashed ==> !('A' <= c <= 'Z');
    RemoveChar(RemoveChar(dashed, '('), ')')
  }

  /** A slug is its own slug. */
  lemma SlugIdempotent(name: string)
    ensures Slug(Slug(name)) == Slug(name)
  {
    var s := Slug(name);
    forall i | 0 <= i < |s| ensures Lower(s)[i] == s[i] {
      assert s[i] in s;
    }
    assert Lower(s) == s;
    assert ReplaceChar(s, ' ', '-') == s;
    RemoveAbsent(s, '(');
    RemoveAbsent(s, ')');
  }

  /** The slug is built character by character, so every character of the
      name is kept, in order, unless it is a parenthesis. */
  lemma SlugAppend(a: string, b: string)
    ensures Slug(a + b) == Slug(a) + Slug(b)
  {
    var da := ReplaceChar(Lower(a), ' ', '-');
    var db := ReplaceChar(Lower(b), ' ', '-');
    assert ReplaceChar(Lower(a + b), ' ', '-') == da + db;
    RemoveCharAppend(da, db, '(');
    RemoveCharAppend(RemoveChar(da, '('), RemoveChar(db, '('), ')');
  }

  /** A parenthesis is dropped, a space becomes '-', any other character
      is lowered. */
  lemma SlugOne(x: char)
    ensures Slug([x]) == if x == '(' || x == ')' then [] else if x == ' ' then "-" else [LowerChar(x)]
  {
    var d := ReplaceChar(Lower([x]), ' ', '-');
    assert d == [if x == ' ' then '-' else LowerChar(x)];
    RemoveCharOne(d[0], '(');
    if d[0] != '(' {
      RemoveCharOne(d[0], ')');
    }
  }

  /** The guessed review page of a gear. */
  function ReviewUrl(name: string): (r: string)
    ensures |r| == |ReviewsBase| + |Slug(name)| + 1
    ensures StartsWith(r, ReviewsBase) && r[|r| - 1] == '/'
    ensures r[|ReviewsBase|..|r| - 1] == Slug(name)
  {
    ReviewsBase + Slug(name) + "/"
  }

  /** The value `main` stores for a gear: its name, category and guessed review page. */
  function Info(g: GearRef): GearInfo {
    GearInfo(g.name, g.category, ReviewUrl(g.name))
  }

  /** All gear entries, player after player. */
  function Flatten(players: seq<seq<GearRef>>): seq<GearRef> {
    if players == [] then [] else Flatten(players[..|players| - 1]) + players[|players| - 1]
  }

  /** The insertion-ordered dictionary `gear_items`: its keys in insertion
      order and its contents. */
  datatype GearTable = GearTable(order: seq<string>, items: map<string, GearInfo>)

  /** The dictionary after the entries `refs`: a non-empty name not yet
      present is inserted, anything else is skipped. */
  function Collect(refs: seq<GearRef>): GearTable {
    if refs == [] then GearTable([], map[])
    else
      var t := Collect(refs[..|refs| - 1]);
      var g := refs[|refs| - 1];
      if g.name != "" && g.name !in t.items then GearTable(t.order + [g.name], t.items[g.name := Info(g)])
      else t
  }

  /** The order lists every key once, and every key maps to its own entry. */
  ghost predicate WellFormed(t: GearTable) {
    && (forall i, j :: 0 <= i < j < |t.order| ==> t.order[i] != t.order[j])
    && (forall n :: n in t.order <==> n in t.items)
    && (forall n :: n in t.items ==> t.items[n].name == n && t.items[n].reviewUrl == ReviewUrl(n))
  }

  /** Index of the first entry named `n`. */
  function FirstNamed(refs: seq<GearRef>, n: string): (k: nat)
    requires exists i :: 0 <= i < |refs| && refs[i].name == n
    ensures k < |refs| && refs[k].name == n
    ensures forall i :: 0 <= i < k ==> refs[i].name != n
  {
    if refs[0].name == n then 0
    else
      assert exists i :: 0 <= i < |refs[1..]| && refs[1..][i].name == n by {
        var i :| 0 <= i < |refs| && refs[i].name == n;
        assert refs[1..][i - 1] == refs[i];
      }
      1 + FirstNamed(refs[1..], n)
  }

  /** The dictionary is well formed. */
  lemma {:induction false} CollectWellFormed(refs: seq<GearRef>)
    ensures WellFormed(Collect(refs))
    decreases |refs|
  {
    if refs != [] {
      var init := refs[..|refs| - 1];
      CollectWellFormed(init);
      var t := Collect(init);
      var g := refs[|refs| - 1];
      if g.name != "" && g.name !in t.items {
        var o := t.order + [g.name];
        forall i, j | 0 <= i < j < |o| ensures o[i] != o[j] {
          if j == |t.order| {
            assert o[i] in t.order;
          }
        }
      }
    }
  }

  /** The dictionary holds exactly the non-empty names met. */
  lemma {:induction false} CollectKeys(refs: seq<GearRef>)
    ensures forall n :: n in Collect(refs).items <==> n != "" && exists i :: 0 <= i < |refs| && refs[i].name == n
    decreases |refs|
  {
    if refs != [] {
      var init := refs[..|refs| - 1];
      CollectKeys(init);
      assert forall i :: 0 <= i < |init| ==> refs[i] == init[i];
    }
  }

  /** Each name keeps the category of its first entry. */
  lemma {:induction false} CollectFirst(refs: seq<GearRef>)
    ensures forall n :: n in Collect(refs).items ==>
      (exists i :: 0 <= i < |refs| && refs[i].name == n) && Collect(refs).items[n] == Info(refs[FirstNamed(refs, n)])
    decreases |refs|
  {
    if refs != [] {
      var init := refs[..|refs| - 1];
      var g := refs[|refs| - 1];
      CollectFirst(init);
      CollectKeys(init);
      CollectKeys(refs);
      forall n | n in Collect(refs).items ensures Collect(refs).items[n] == Info(refs[FirstNamed(refs, n)]) {
        CollectFirstOne(refs, n);
      }
    }
  }

  /** The step of `CollectFirst` for one name: an old name keeps its entry,
      a new one is the last entry, met for the first time. */
  lemma CollectFirstOne(refs: seq<GearRef>, n: string)
    requires refs != [] && n in Collect(refs).items
    requires exists i :: 0 <= i < |refs| && refs[i].name == n
    requires var init := refs[..|refs| - 1];
      n in Collect(init).items ==>
        (exists i :: 0 <= i < |init| && init[i].name == n) && Collect(init).items[n] == Info(init[FirstNamed(init, n)])
    requires var init := refs[..|refs| - 1];
      n !in Collect(init).items ==> forall i :: 0 <= i < |init| ==> init[i].name != n
    ensures Collect(refs).items[n] == Info(refs[FirstNamed(refs, n)])
  {
    var init := refs[..|refs| - 1];
    var t := Collect(init);
    var g := refs[|refs| - 1];
    var k := FirstNamed(refs, n);
    if n in t.items {
      assert Collect(refs).items[n] == t.items[n];
      FirstNamedPrefix(init, refs, n);
      assert refs[k] == init[k];
    } else {
      assert n == g.name && Collect(refs).items[n] == Info(g);
      forall i | 0 <= i < |init| ensures refs[i].name != n {
        assert refs[i] == init[i];
      }
      assert k == |refs| - 1;
    }
  }

  /** The first entry of a name met in a prefix is the first in the whole. */
  lemma FirstNamedPrefix(init: seq<GearRef>, refs: seq<GearRef>, n: string)
    requires |init| <= |refs| && init == refs[..|init|]
    requires exists i :: 0 <= i < |init| && init[i].name == n
    ensures FirstNamed(refs, n) == FirstNamed(init, n)
  {
    var k := FirstNamed(init, n);
    var m := FirstNamed(refs, n);
    assert refs[k] == init[k];
  }

  lemma TakeNext<T>(done: seq<T>, xs: seq<T>, j: int)
    requires 0 <= j < |xs|
    ensures done + xs[..j + 1] == (done + xs[..j]) + [xs[j]]
  {
    assert xs[..j + 1] == xs[..j] + [xs[j]];
  }

  /** One more entry, for a table held as its two parts. */
  lemma CollectSnoc(refs: seq<GearRef>, g: GearRef, order: seq<string>, items: map<string, GearInfo>)
    requires GearTable(order, items) == Collect(refs)
    ensures Collect(refs + [g]) ==
      if g.name != "" && g.name !in items then GearTable(order + [g.name], items[g.name := Info(g)])
      else GearTable(order, items)
  {
    assert (refs + [g])[..|refs|] == refs;
  }

  /** One more entry: `Collect` of the next prefix of `refs`. */
  lemma CollectNext(refs: seq<GearRef>, j: int)
    requires 0 <= j < |refs|
    ensures var t := Collect(refs[..j]); var g := refs[j];
      Collect(refs[..j + 1]) ==
        if g.name != "" && g.name !in t.items then GearTable(t.order + [g.name], t.items[g.name := Info(g)]) else t
  {
    assert refs[..j + 1][..j] == refs[..j];
  }

  /** One more player: the entries so far are followed by theirs. */
  lemma FlattenNext(players: seq<seq<GearRef>>, p: int)
    requires 0 <= p < |players|
    ensures Flatten(players[..p + 1]) == Flatten(players[..p]) + players[p]
  {
    assert players[..p + 1][..p] == players[..p];
  }

  /** The nested loops of `main` that fill `gear_items`. */
  method CollectGear(players: seq<seq<GearRef>>) returns (order: seq<string>, items: map<string, GearInfo>)
    ensures GearTable(order, items) == Collect(Flatten(players))
  {
    order, items := [], map[];
    var p := 0;
    while p < |players|
      invariant 0 <= p <= |players|
      invariant GearTable(order, items) == Collect(Flatten(players[..p]))
    {
      FlattenNext(players, p);
      order, items := CollectPlayer(Flatten(players[..p]), players[p], order, items);
      p := p + 1;
    }
    assert players[..p] == players;
  }

  /** The inner loop of `main`, over one player's gear: `done` is the
      gear met before this player. */
  method CollectPlayer(ghost done: seq<GearRef>, gears: seq<GearRef>, order0: seq<string>, items0: map<string, GearInfo>)
    returns (order: seq<string>, items: map<string, GearInfo>)
    requires GearTable(order0, items0) == Collect(done)
    ensures GearTable(order, items) == Collect(done + gears)
  {
    order, items := order0, items0;
    assert done + gears[..0] == done;
    var j := 0;
    while j < |gears|
      invariant 0 <= j <= |gears|
      invariant GearTable(order, items) == Collect(done + gears[..j])
    {
      var gear := gears[j];
      ghost var pre := done + gears[..j];
      CollectSnoc(pre, gear, order, items);
      TakeNext(done, gears, j);
      if gear.name != "" && gear.name !in items {
        items := items[gear.name := Info(gear)];
        order := order + [gear.name];
      }
      j := j + 1;
    }
    assert gears[..j] == gears;
  }

  /** The gears whose review pages are visited: the first hundred in
      insertion order (`list(gear_items.items())[:100]`). */
  function ToScrape(t: GearTable): (r: seq<GearInfo>)
    requires forall n :: n in t.order ==> n in t.items
    ensures |r| == if |t.order| < ScrapeLimit then |t.order| else ScrapeLimit
    ensures forall k :: 0 <= k < |r| ==> r[k] == t.items[t.order[k]]
  {
    var n := if |t.order| < ScrapeLimit then |t.order| else ScrapeLimit;
    seq(n, k requires 0 <= k < n => t.items[t.order[k]])
  }
}
