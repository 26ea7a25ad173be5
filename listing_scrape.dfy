/**
 * The category-list crawls of the picture downloaders
 * (data/download_all_gear_images.py, data/gear_list_image_scraper.py,
 * data/gear_all_images.py): page after page of (name, picture URL) rows is
 * merged into one list that keeps the first row of every name, until a page
 * fails to load, a page is empty, a page limit is reached or, for the first
 * script, the expected number of rows is collected. Loading a page is a
 * parameter: `load(n)` is the rows page `n` shows, or None when it fails.
 */
module ListingScrape {
  import opened Wrappers

  /** One row of a category table: the product name and its picture URL. */
  datatype ListItem = ListItem(name: string, imageUrl: string)

  function Names(s: seq<ListItem>): (r: seq<string>)
    ensures |r| == |s|
    ensures forall k :: 0 <= k < |s| ==> r[k] == s[k].name
  {
    seq(|s|, k requires 0 <= k < |s| => s[k].name)
  }

  /** No name occurs twice. */
  predicate DistinctNames(s: seq<ListItem>) {
    forall i, j :: 0 <= i < j < |s| ==> s[i].name != s[j].name
  }

  /** The merge loop: every row whose name is not yet in the list is appended. */
  function Merged(all: seq<ListItem>, items: seq<ListItem>): seq<ListItem>
    decreases |items|
  {
    if items == [] then all
    else
      var m := Merged(all, items[..|items| - 1]);
      var x := items[|items| - 1];
      if x.name in Names(m) then m else m + [x]
  }

  /** Row `k` of `items` is the first row of its name and its name was not
      collected before. */
  predicate IsFirst(all: seq<ListItem>, items: seq<ListItem>, k: int)
    requires 0 <= k < |items|
  {
    items[k].name !in Names(all) && items[k].name !in Names(items[..k])
  }

  /** Reference definition of what a merge appends: the rows that are the
      first of a new name, in page order. */
  function Firsts(all: seq<ListItem>, items: seq<ListItem>): (r: seq<ListItem>)
    ensures |r| <= |items|
    ensures forall x :: x in r ==> x in items
  {
    if items == [] then []
    else
      var n := |items| - 1;
      Firsts(all, items[..n]) + (if IsFirst(all, items, n) then [items[n]] else [])
  }

  /** The merged list holds the names collected before and the names of the page. */
  lemma {:induction false} MergedNames(all: seq<ListItem>, items: seq<ListItem>)
    ensures forall name :: name in Names(Merged(all, items)) <==> name in Names(all) || name in Names(items)
    decreases |items|
  {
    if items != [] {
      var init := items[..|items| - 1];
      MergedNames(all, init);
      assert Names(items) == Names(init) + [items[|items| - 1].name];
      var m := Merged(all, init);
      var x := items[|items| - 1];
      if x.name !in Names(m) {
        assert Names(m + [x]) == Names(m) + [x.name];
      }
    }
  }

  /** A merge keeps the list collected so far as its prefix and appends
      exactly the first row of every new name, in page order; `new_items` is
      the number of those rows. */
  lemma {:induction false} MergedIsFirsts(all: seq<ListItem>, items: seq<ListItem>)
    ensures Merged(all, items) == all + Firsts(all, items)
    decreases |items|
  {
    if items != [] {
      var n := |items| - 1;
      var init := items[..n];
      MergedIsFirsts(all, init);
      MergedNames(all, init);
      assert items[..n] == init;
      assert Firsts(all, init) == Firsts(all, items[..n]);
      var x := items[n];
      assert x.name in Names(Merged(all, init)) <==> !IsFirst(all, items, n);
    }
  }

  /** Merging into a list of distinct names gives a list of distinct names. */
  lemma {:induction false} MergedDistinct(all: seq<ListItem>, items: seq<ListItem>)
    requires DistinctNames(all)
    ensures DistinctNames(Merged(all, items))
    decreases |items|
  {
    if items != [] {
      var m := Merged(all, items[..|items| - 1]);
      MergedDistinct(all, items[..|items| - 1]);
      var x := items[|items| - 1];
      if x.name !in Names(m) {
        var r := m + [x];
        forall i, j | 0 <= i < j < |r| ensures r[i].name != r[j].name {
          if j == |m| {
            assert r[i].name == Names(m)[i];
          }
        }
      }
    }
  }

  /** The `any(g['name'] == item['name'] for g in all_gear)` test. */
  method AnyNamed(all: seq<ListItem>, name: string) returns (found: bool)
    ensures found <==> name in Names(all)
  {
    var k := 0;
    while k < |all|
      invariant 0 <= k <= |all|
      invariant name !in Names(all[..k])
    {
      if all[k].name == name {
        assert Names(all)[k] == name;
        return true;
      }
      assert Names(all[..k + 1]) == Names(all[..k]) + [all[k].name];
      k := k + 1;
    }
    assert all[..k] == all;
    return false;
  }

  /** The merge of one page, with the `new_items` counter of
      data/download_all_gear_images.py. */
  method MergePage(all: seq<ListItem>, items: seq<ListItem>) returns (merged: seq<ListItem>, newItems: nat)
    ensures merged == Merged(all, items)
    ensures newItems == |merged| - |all| == |Firsts(all, items)|
  {
    merged, newItems := all, 0;
    var i := 0;
    while i < |items|
      invariant 0 <= i <= |items|
      invariant merged == Merged(all, items[..i])
      invariant newItems == |merged| - |all|
    {
      assert items[..i + 1][..i] == items[..i];
      var seen := AnyNamed(merged, items[i].name);
      if !seen {
        merged := merged + [items[i]];
        newItems := newItems + 1;
      }
      i := i + 1;
    }
    assert items[..i] == items;
    MergedIsFirsts(all, items);
  }

  /** The crawl from page `page` on, with the rows collected so far in `all`:
      a failed or empty page ends it, and so does reaching `stopAt` rows or
      the page `lastPage`. */
  function Crawl(load: nat -> Option<seq<ListItem>>, page: nat, all: seq<ListItem>, stopAt: Option<nat>, lastPage: nat): seq<ListItem>
    decreases lastPage - page
  {
    match load(page)
    case None => all
    case Some(items) =>
      if items == [] then all
      else
        var m := Merged(all, items);
        if (stopAt.Some? && |m| >= stopAt.value) || page >= lastPage then m
        else Crawl(load, page + 1, m, stopAt, lastPage)
  }

  /** Row `x` is shown on page `p`. */
  predicate OnPage(load: nat -> Option<seq<ListItem>>, p: nat, x: ListItem) {
    load(p).Some? && x in load(p).value
  }

  /** Row `x` is shown on some page from `first` to `last`. */
  predicate OnSomePage(load: nat -> Option<seq<ListItem>>, first: nat, last: nat, x: ListItem) {
    exists p :: first <= p <= last && OnPage(load, p, x)
  }

  /** A crawl keeps what was collected, keeps names distinct, and adds only
      rows shown on a page it visited. */
  lemma {:induction false} CrawlProperties(load: nat -> Option<seq<ListItem>>, page: nat, all: seq<ListItem>, stopAt: Option<nat>, lastPage: nat)
    requires DistinctNames(all) && page <= lastPage
    ensures var r := Crawl(load, page, all, stopAt, lastPage);
      && |all| <= |r| && r[..|all|] == all
      && DistinctNames(r)
      && forall k :: |all| <= k < |r| ==> OnSomePage(load, page, lastPage, r[k])
    decreases lastPage - page
  {
    var r := Crawl(load, page, all, stopAt, lastPage);
    if load(page).Some? && load(page).value != [] {
      var items := load(page).value;
      var m := Merged(all, items);
      MergedIsFirsts(all, items);
      MergedDistinct(all, items);
      forall k | |all| <= k < |m| ensures OnPage(load, page, m[k]) {
        assert m[k] in Firsts(all, items);
      }
      if !((stopAt.Some? && |m| >= stopAt.value) || page >= lastPage) {
        CrawlProperties(load, page + 1, m, stopAt, lastPage);
        assert r[..|m|] == m;
        assert r[..|all|] == m[..|all|];
        forall k | |all| <= k < |r| ensures OnSomePage(load, page, lastPage, r[k]) {
          if k < |m| {
            assert r[k] == m[k];
            assert OnPage(load, page, r[k]);
          } else {
            assert OnSomePage(load, page + 1, lastPage, r[k]);
            var p :| page + 1 <= p <= lastPage && OnPage(load, p, r[k]);
            assert page <= p;
          }
        }
      } else {
        assert r == m;
        forall k | |all| <= k < |r| ensures OnSomePage(load, page, lastPage, r[k]) {
          assert OnPage(load, page, r[k]);
        }
      }
    }
  }

  /** A first page that fails to load or shows nothing gives an empty list. */
  lemma FirstPageFails(load: nat -> Option<seq<ListItem>>, stopAt: Option<nat>, lastPage: nat)
    requires load(1).None? || load(1).value == []
    ensures Crawl(load, 1, [], stopAt, lastPage) == []
  {
  }

  /** `scrape_all_gear` of data/download_all_gear_images.py: at most 100
      pages, ending early once `expected` rows are collected. */
  method ScrapeAllGear(load: nat -> Option<seq<ListItem>>, expected: nat) returns (all: seq<ListItem>)
    ensures all == Crawl(load, 1, [], Some(expected), 100)
  {
    all := [];
    var page := 1;
    while true
      invariant 1 <= page <= 100
      invariant Crawl(load, page, all, Some(expected), 100) == Crawl(load, 1, [], Some(expected), 100)
      decreases 100 - page
    {
      var loaded := load(page);
      if loaded.None? {
        if page == 1 {
          return [];
        }
        break;
      }
      var items := loaded.value;
      if |items| == 0 {
        break;
      }
      var newItems;
      all, newItems := MergePage(all, items);
      if |all| >= expected {
        break;
      }
      page := page + 1;
      if page > 100 {
        break;
      }
    }
  }

  /** `scrape_gear_images` of data/gear_list_image_scraper.py and of
      data/gear_all_images.py: at most 50 pages, no count limit. */
  method ScrapeGearImages(load: nat -> Option<seq<ListItem>>) returns (all: seq<ListItem>)
    ensures all == Crawl(load, 1, [], None, 50)
  {
    all := [];
    var page := 1;
    while page <= 50
      invariant 1 <= page <= 51
      invariant page <= 50 ==> Crawl(load, page, all, None, 50) == Crawl(load, 1, [], None, 50)
      invariant page == 51 ==> all == Crawl(load, 1, [], None, 50)
      decreases 51 - page
    {
      var loaded := load(page);
      if loaded.None? {
        if page == 1 {
          return [];
        }
        break;
      }
      if loaded.value == [] {
        break;
      }
      var newItems;
      all, newItems := MergePage(all, loaded.value);
      page := page + 1;
    }
  }

  /** A review entry of data/gear_image_scraper.py: its `name` and `url`,
      "" when absent. */
  datatype Review = Review(name: string, url: string)

  /** The reviews the download loop works on: those with a name and a URL. */
  function ToFetch(reviews: seq<Review>): (r: seq<Review>)
    ensures forall x :: x in r <==> x in reviews && x.name != "" && x.url != ""
    ensures |r| <= |reviews|
  {
    if reviews == [] then []
    else
      var n := |reviews| - 1;
      assert reviews == reviews[..n] + [reviews[n]];
      ToFetch(reviews[..n]) + (if reviews[n].name != "" && reviews[n].url != "" then [reviews[n]] else [])
  }

  /** The filter works piece by piece, so fetched reviews stay in file order. */
  lemma {:induction false} ToFetchAppend(a: seq<Review>, b: seq<Review>)
    ensures ToFetch(a + b) == ToFetch(a) + ToFetch(b)
    decreases |b|
  {
    if b == [] {
      assert a + b == a;
    } else {
      var n := |b| - 1;
      assert (a + b)[..|a + b| - 1] == a + b[..n];
      assert (a + b)[|a + b| - 1] == b[n];
      ToFetchAppend(a, b[..n]);
    }
  }

  /** One review is fetched exactly when it has a name and a URL. */
  lemma ToFetchOne(x: Review)
    ensures ToFetch([x]) == if x.name != "" && x.url != "" then [x] else []
  {
    assert [x][..0] == [];
  }
}
