/**
 * The hybrid recommender's ranking and composition (APP01/recommender_hybrid.py):
 * each category scorer ranks the catalog's gear of its type and keeps the
 * best five; `recommend_setup` takes the best of each; and
 * `recommend_variant_setups` assembles the Performance, Balanced and Pro
 * setups with their aggregate scores.
 */
module HybridRecommender {
  import opened Wrappers
  import opened HybridScoring
  import Sorting

  /** The five categories, in the order every setup lists them. */
  datatype Category = Mouse | Keyboard | Headset | Monitor | Chair {
    /** The gear `type` this category's scorer filters on. */
    function Name(): string {
      match this
      case Mouse => "Mouse"
      case Keyboard => "Keyboard"
      case Headset => "Headset"
      case Monitor => "Monitor"
      case Chair => "Chair"
    }

    /** The largest score this category's table can award. */
    function MaxScore(): real {
      match this
      case Mouse => 110.0
      case Keyboard => 55.0
      case Headset => 60.0
      case Monitor => 75.0
      case Chair => 75.0
    }
  }

  const Categories: seq<Category> := [Mouse, Keyboard, Headset, Monitor, Chair]

  /** The scorer of `cat` applied to one gear. */
  function Score(cat: Category, g: Gear, prefs: Prefs): (e: Entry)
    ensures e.gear == g && e.sentiment == RawSentiment(g.specs)
    ensures e.score <= cat.MaxScore()
  {
    match cat
    case Mouse => MouseEntry(g, prefs)
    case Keyboard => KeyboardEntry(g, prefs)
    case Headset => HeadsetEntry(g, prefs)
    case Monitor => MonitorEntry(g, prefs)
    case Chair => ChairEntry(g, prefs)
  }

  /** The entries `f` gives to the catalog's gear of type `kind`, in catalog order. */
  function ScoredBy(kind: string, catalog: seq<Gear>, f: Gear -> Entry): (r: seq<Entry>)
    ensures |r| <= |catalog|
  {
    if catalog == [] then []
    else
      var g := catalog[|catalog| - 1];
      ScoredBy(kind, catalog[..|catalog| - 1], f) + (if g.kind == kind then [f(g)] else [])
  }

  /** `ScoredBy` holds the entry of every catalog gear of the type and
      nothing else, so it is empty exactly when the catalog has no such gear. */
  lemma {:induction false} ScoredByContents(kind: string, catalog: seq<Gear>, f: Gear -> Entry)
    ensures var r := ScoredBy(kind, catalog, f);
      && (forall e :: e in r ==> exists g :: g in catalog && g.kind == kind && e == f(g))
      && (forall g :: g in catalog && g.kind == kind ==> f(g) in r)
      && (r == [] <==> forall g :: g in catalog ==> g.kind != kind)
    decreases |catalog|
  {
    if catalog != [] {
      var g := catalog[|catalog| - 1];
      var init := catalog[..|catalog| - 1];
      ScoredByContents(kind, init, f);
      assert forall h :: h in catalog ==> h in init || h == g;
      assert forall h :: h in init ==> h in catalog;
    }
  }

  /** The `scores` list of a scorer: one entry per catalog gear of the
      category's type, in catalog order. */
  function Scored(cat: Category, catalog: seq<Gear>, prefs: Prefs): (r: seq<Entry>)
    ensures |r| <= |catalog|
  {
    ScoredBy(cat.Name(), catalog, g => Score(cat, g, prefs))
  }

  /** The scored list holds the entry of every catalog gear of the type and
      nothing else, so it is empty exactly when the catalog has no such gear. */
  lemma ScoredContents(cat: Category, catalog: seq<Gear>, prefs: Prefs)
    ensures var r := Scored(cat, catalog, prefs);
      && (forall e :: e in r ==> e.gear in catalog && e.gear.kind == cat.Name() && e == Score(cat, e.gear, prefs))
      && (forall g :: g in catalog && g.kind == cat.Name() ==> Score(cat, g, prefs) in r)
      && (r == [] <==> forall g :: g in catalog ==> g.kind != cat.Name())
  {
    var f := g => Score(cat, g, prefs);
    ScoredByContents(cat.Name(), catalog, f);
    forall e | e in Scored(cat, catalog, prefs)
      ensures e.gear in catalog && e.gear.kind == cat.Name() && e == Score(cat, e.gear, prefs)
    {
      var g :| g in catalog && g.kind == cat.Name() && e == f(g);
    }
  }

  function EntryScore(e: Entry): real { e.score }

  /** A scorer's answer: the scored entries, stably sorted by descending score, first five. */
  function Ranked(cat: Category, catalog: seq<Gear>, prefs: Prefs): seq<Entry> {
    Sorting.Prefix(Sorting.SortDesc(Scored(cat, catalog, prefs), EntryScore), 5)
  }

  /** Every kept entry is the scorer's entry for a catalog gear of the right type. */
  lemma RankedMember(cat: Category, catalog: seq<Gear>, prefs: Prefs, e: Entry)
    requires e in Ranked(cat, catalog, prefs)
    ensures e.gear in catalog && e.gear.kind == cat.Name() && e == Score(cat, e.gear, prefs)
  {
    Sorting.PrefixOfSortFromInput(Scored(cat, catalog, prefs), EntryScore, 5, e);
    ScoredContents(cat, catalog, prefs);
  }

  /** At most five entries, sorted by descending score, none exactly when
      the catalog has no gear of the type. */
  lemma RankedShape(cat: Category, catalog: seq<Gear>, prefs: Prefs)
    ensures var r := Ranked(cat, catalog, prefs);
      && |r| <= 5
      && Sorting.SortedDesc(r, EntryScore)
      && (r == [] <==> forall g :: g in catalog ==> g.kind != cat.Name())
  {
    Sorting.TopSorted(Scored(cat, catalog, prefs), EntryScore, 5);
    ScoredContents(cat, catalog, prefs);
  }

  /** A gear left out scores no higher than any kept one, and is left out only
      when five are kept. */
  lemma RankedOmitted(cat: Category, catalog: seq<Gear>, prefs: Prefs, g: Gear)
    requires g in catalog && g.kind == cat.Name() && Score(cat, g, prefs) !in Ranked(cat, catalog, prefs)
    ensures var r := Ranked(cat, catalog, prefs);
      |r| == 5 && forall e :: e in r ==> e.score >= Score(cat, g, prefs).score
  {
    ScoredContents(cat, catalog, prefs);
    Sorting.TopIsBest(Scored(cat, catalog, prefs), EntryScore, 5, Score(cat, g, prefs));
  }

  /** Among equal scores the kept entries are the first ones in catalog order. */
  lemma RankedStable(cat: Category, catalog: seq<Gear>, prefs: Prefs, k: real)
    ensures Sorting.IsPrefix(Sorting.WithKey(Ranked(cat, catalog, prefs), EntryScore, k),
                             Sorting.WithKey(Scored(cat, catalog, prefs), EntryScore, k))
  {
    Sorting.TopIsStable(Scored(cat, catalog, prefs), EntryScore, 5, k);
  }

  /** `recommend_mouse`, `recommend_keyboard`, `recommend_headset`,
      `recommend_monitor`, `recommend_chair`: the scoring loop over the
      catalog's gear of the category's type, then the sort and the cut. */
  /** One more catalog gear adds its entry at the end when it has the type. */
  lemma ScoredStep(cat: Category, catalog: seq<Gear>, prefs: Prefs, i: nat)
    requires i < |catalog|
    ensures Scored(cat, catalog[..i + 1], prefs)
      == Scored(cat, catalog[..i], prefs) + (if catalog[i].kind == cat.Name() then [Score(cat, catalog[i], prefs)] else [])
  {
    assert catalog[..i + 1][..i] == catalog[..i];
  }

  /** The scoring loop: one entry per catalog gear of the category's type. */
  method ScoreAll(cat: Category, catalog: seq<Gear>, prefs: Prefs) returns (scores: seq<Entry>)
    ensures scores == Scored(cat, catalog, prefs)
  {
    scores := [];
    var i := 0;
    while i < |catalog|
      invariant 0 <= i <= |catalog|
      invariant scores == Scored(cat, catalog[..i], prefs)
    {
      var gear := catalog[i];
      if gear.kind == cat.Name() {
        var entry := Score(cat, gear, prefs);
        scores := scores + [entry];
      }
      ScoredStep(cat, catalog, prefs, i);
      i := i + 1;
    }
    assert catalog[..i] == catalog;
  }

  /** `recommend_mouse`, `recommend_keyboard`, `recommend_headset`,
      `recommend_monitor`, `recommend_chair`: the scoring loop over the
      catalog's gear of the category's type, then the sort and the cut. */
  method Recommend(cat: Category, catalog: seq<Gear>, prefs: Prefs) returns (top: seq<Entry>)
    ensures top == Ranked(cat, catalog, prefs)
  {
    var scores := ScoreAll(cat, catalog, prefs);
    top := Sorting.Prefix(Sorting.SortDesc(scores, EntryScore), 5);
  }

  // ---------------------------------------------------------------------
  // Slot selection

  /** `xs[0] if xs else None`. */
  function First(top: seq<Entry>): (r: Option<Entry>)
    ensures r.None? <==> top == []
    ensures r.Some? ==> r.value in top
    ensures Sorting.SortedDesc(top, EntryScore) && r.Some? ==> forall e :: e in top ==> r.value.score >= e.score
  {
    if |top| > 0 then Some(top[0]) else None
  }

  /** `xs[1] if len(xs) > 1 else (xs[0] if xs else None)`. */
  function SecondOrFirst(top: seq<Entry>): (r: Option<Entry>)
    ensures r.None? <==> top == []
    ensures |top| > 1 ==> r == Some(top[1])
    ensures |top| == 1 ==> r == Some(top[0])
  {
    if |top| > 1 then Some(top[1]) else First(top)
  }

  /** `recommend_setup`: the best entry of each category, in `Categories` order. */
  function SetupOf(rankings: seq<seq<Entry>>): (slots: seq<Option<Entry>>)
    requires |rankings| == |Categories|
    ensures |slots| == |Categories|
    ensures forall i :: 0 <= i < |slots| ==> slots[i] == First(rankings[i])
  {
    seq(|rankings|, i requires 0 <= i < |rankings| => First(rankings[i]))
  }

  /** The five rankings for the user's preferences. */
  function AllRanked(catalog: seq<Gear>, prefs: Prefs): (r: seq<seq<Entry>>)
    ensures |r| == |Categories|
    ensures forall i :: 0 <= i < |Categories| ==> r[i] == Ranked(Categories[i], catalog, prefs)
  {
    seq(|Categories|, i requires 0 <= i < |Categories| => Ranked(Categories[i], catalog, prefs))
  }

  /** The five scorer calls that open `recommend_setup` and
      `recommend_variant_setups`. */
  method RecommendAll(catalog: seq<Gear>, prefs: Prefs) returns (rankings: seq<seq<Entry>>)
    ensures rankings == AllRanked(catalog, prefs)
  {
    var mice := Recommend(Mouse, catalog, prefs);
    var keyboards := Recommend(Keyboard, catalog, prefs);
    var headsets := Recommend(Headset, catalog, prefs);
    var monitors := Recommend(Monitor, catalog, prefs);
    var chairs := Recommend(Chair, catalog, prefs);
    rankings := [mice, keyboards, headsets, monitors, chairs];
    AllRankedInOrder(catalog, prefs);
  }

  /** The rankings in `Categories` order, written out. */
  lemma AllRankedInOrder(catalog: seq<Gear>, prefs: Prefs)
    ensures AllRanked(catalog, prefs) == [Ranked(Mouse, catalog, prefs), Ranked(Keyboard, catalog, prefs),
      Ranked(Headset, catalog, prefs), Ranked(Monitor, catalog, prefs), Ranked(Chair, catalog, prefs)]
  {
    var r := AllRanked(catalog, prefs);
    assert Categories[0] == Mouse && Categories[1] == Keyboard && Categories[2] == Headset;
    assert Categories[3] == Monitor && Categories[4] == Chair;
    FiveInOrder(r, Ranked(Mouse, catalog, prefs), Ranked(Keyboard, catalog, prefs),
      Ranked(Headset, catalog, prefs), Ranked(Monitor, catalog, prefs), Ranked(Chair, catalog, prefs));
  }

  lemma FiveInOrder<T>(r: seq<T>, a: T, b: T, c: T, d: T, e: T)
    requires |r| == 5 && r[0] == a && r[1] == b && r[2] == c && r[3] == d && r[4] == e
    ensures r == [a, b, c, d, e]
  {
  }

  /** `recommend_setup`: each slot holds the top-scoring gear of its type, or
      nothing when the catalog has no gear of that type. */
  method RecommendSetup(catalog: seq<Gear>, prefs: Prefs) returns (setup: seq<Option<Entry>>)
    ensures setup == SetupOf(AllRanked(catalog, prefs))
    ensures forall i :: 0 <= i < |Categories| ==>
      (setup[i].None? <==> forall g :: g in catalog ==> g.kind != Categories[i].Name())
    ensures forall i, g :: 0 <= i < |Categories| && setup[i].Some? && g in catalog && g.kind == Categories[i].Name() ==>
      setup[i].value.score >= Score(Categories[i], g, prefs).score
  {
    var rankings := RecommendAll(catalog, prefs);
    setup := SetupOf(rankings);
    forall i | 0 <= i < |Categories| ensures BestOfCategory(Categories[i], catalog, prefs, setup[i]) {
      FirstIsBest(Categories[i], catalog, prefs);
    }
  }

  ghost predicate BestOfCategory(cat: Category, catalog: seq<Gear>, prefs: Prefs, slot: Option<Entry>) {
    && (slot.None? <==> forall g :: g in catalog ==> g.kind != cat.Name())
    && (forall g :: slot.Some? && g in catalog && g.kind == cat.Name() ==> slot.value.score >= Score(cat, g, prefs).score)
  }

  /** Rank 1 of a scorer scores at least as high as any gear of its type. */
  lemma FirstBeats(cat: Category, catalog: seq<Gear>, prefs: Prefs, g: Gear)
    requires g in catalog && g.kind == cat.Name()
    ensures Ranked(cat, catalog, prefs) != []
    ensures Ranked(cat, catalog, prefs)[0].score >= Score(cat, g, prefs).score
  {
    var r := Ranked(cat, catalog, prefs);
    RankedShape(cat, catalog, prefs);
    var e := Score(cat, g, prefs);
    if e !in r {
      RankedOmitted(cat, catalog, prefs, g);
      assert r[0] in r;
    } else {
      var j :| 0 <= j < |r| && r[j] == e;
      if j > 0 {
        assert EntryScore(r[0]) >= EntryScore(r[j]);
      }
    }
  }

  /** Rank 1 of a scorer is a best-scoring gear of its type. */
  lemma FirstIsBest(cat: Category, catalog: seq<Gear>, prefs: Prefs)
    ensures BestOfCategory(cat, catalog, prefs, First(Ranked(cat, catalog, prefs)))
  {
    RankedShape(cat, catalog, prefs);
    forall g | g in catalog && g.kind == cat.Name()
      ensures Ranked(cat, catalog, prefs)[0].score >= Score(cat, g, prefs).score
    {
      FirstBeats(cat, catalog, prefs, g);
    }
  }

  // ---------------------------------------------------------------------
  // Variants

  /** `_add_context`: a copy of the entry with exactly one reason appended. */
  function AddContext(entry: Option<Entry>, text: string): (r: Option<Entry>)
    ensures r.None? <==> entry.None?
    ensures entry.Some? ==>
      && |r.value.reasons| == |entry.value.reasons| + 1
      && r.value.reasons[..|entry.value.reasons|] == entry.value.reasons
      && r.value.reasons[|entry.value.reasons|] == Context(text)
      && r.value.gear == entry.value.gear && r.value.score == entry.value.score
      && r.value.sentiment == entry.value.sentiment
  {
    match entry
    case None => None
    case Some(e) => Some(e.(reasons := e.reasons + [Context(text)]))
  }

  /** Sum of the scores of the filled slots. */
  function SlotTotal(slots: seq<Option<Entry>>): real {
    if slots == [] then 0.0
    else SlotTotal(slots[..|slots| - 1]) + (match slots[|slots| - 1] case Some(e) => e.score case None => 0.0)
  }

  const MaxPossibleScore: real := 305.0

  /** The aggregate: the slot total as a percentage of 305, capped at 100. */
  function VariantScore(slots: seq<Option<Entry>>): real {
    Min(SlotTotal(slots) / MaxPossibleScore * 100.0, 100.0)
  }

  /** The aggregate never exceeds 100, reaches it exactly when the slots
      total at least 305, and has no lower floor. */
  lemma VariantScoreRange(slots: seq<Option<Entry>>)
    ensures VariantScore(slots) <= 100.0
    ensures VariantScore(slots) == 100.0 <==> SlotTotal(slots) >= MaxPossibleScore
    ensures SlotTotal(slots) < 0.0 ==> VariantScore(slots) < 0.0
  {
  }

  /** `calculate_variant_score`: the loop over the slots. */
  method CalculateVariantScore(slots: seq<Option<Entry>>) returns (score: real)
    ensures score == VariantScore(slots)
  {
    var total := 0.0;
    var i := 0;
    while i < |slots|
      invariant 0 <= i <= |slots|
      invariant total == SlotTotal(slots[..i])
    {
      if slots[i].Some? {
        total := total + slots[i].value.score;
      }
      assert slots[..i + 1][..i] == slots[..i];
      i := i + 1;
    }
    assert slots[..i] == slots;
    score := Min(total / MaxPossibleScore * 100.0, 100.0);
  }

  /** Number of pro-player gear links to `gearId` (the `p_count` annotation). */
  function UsageCount(proGear: seq<int>, gearId: int): nat {
    if proGear == [] then 0
    else UsageCount(proGear[..|proGear| - 1], gearId) + (if proGear[|proGear| - 1] == gearId then 1 else 0)
  }

  /** A gear of the category's type with the highest usage count, or `None`
      for a category without gear. */
  function MostUsed(cat: Category, catalog: seq<Gear>, proGear: seq<int>): (r: Option<Gear>)
    ensures r.None? <==> forall g :: g in catalog ==> g.kind != cat.Name()
    ensures r.Some? ==> r.value in catalog && r.value.kind == cat.Name()
    ensures r.Some? ==> forall g :: g in catalog && g.kind == cat.Name() ==>
      UsageCount(proGear, g.gearId) <= UsageCount(proGear, r.value.gearId)
  {
    if catalog == [] then None
    else
      var g := catalog[|catalog| - 1];
      var best := MostUsed(cat, catalog[..|catalog| - 1], proGear);
      assert forall h :: h in catalog ==> h in catalog[..|catalog| - 1] || h == g;
      if g.kind != cat.Name() then best
      else if best.Some? && UsageCount(proGear, best.value.gearId) >= UsageCount(proGear, g.gearId) then best
      else Some(g)
  }

  /** `get_pro_choice`: the most used gear with the fixed score 95. */
  function ProChoice(cat: Category, catalog: seq<Gear>, proGear: seq<int>): (r: Option<Entry>)
    ensures r.None? <==> forall g :: g in catalog ==> g.kind != cat.Name()
    ensures r.Some? ==> r.value.score == 95.0 && r.value.gear in catalog && r.value.gear.kind == cat.Name()
    ensures r.Some? ==> forall g :: g in catalog && g.kind == cat.Name() ==>
      UsageCount(proGear, g.gearId) <= UsageCount(proGear, r.value.gear.gearId)
    ensures r.Some? ==> var n := UsageCount(proGear, r.value.gear.gearId);
      r.value.reasons == [MostUsedAmongPros(cat.Name())] + (if n > 0 then [UsedByPros(n)] else [])
  {
    match MostUsed(cat, catalog, proGear)
    case None => None
    case Some(g) =>
      var n := UsageCount(proGear, g.gearId);
      Some(Entry(g, 95.0, [MostUsedAmongPros(cat.Name())] + (if n > 0 then [UsedByPros(n)] else []),
                 RawSentiment(g.specs)))
  }

  function ProChoices(catalog: seq<Gear>, proGear: seq<int>): (r: seq<Option<Entry>>)
    ensures |r| == |Categories|
    ensures forall i :: 0 <= i < |r| ==> r[i] == ProChoice(Categories[i], catalog, proGear)
  {
    seq(|Categories|, i requires 0 <= i < |Categories| => ProChoice(Categories[i], catalog, proGear))
  }

  /** Pro entries all score 95, so four filled categories already reach the cap. */
  lemma ProScoreFull(catalog: seq<Gear>, proGear: seq<int>)
    requires |set i | 0 <= i < |Categories| && ProChoices(catalog, proGear)[i].Some?| >= 4
    ensures VariantScore(ProChoices(catalog, proGear)) == 100.0
  {
    var slots := ProChoices(catalog, proGear);
    ProTotal(slots, |slots|);
    assert slots[..|slots|] == slots;
    var filled := set i | 0 <= i < |Categories| && slots[i].Some?;
    assert filled == FilledIndexes(slots, |slots|);
    assert SlotTotal(slots) >= 380.0;
  }

  function FilledIndexes(slots: seq<Option<Entry>>, n: nat): set<int>
    requires n <= |slots|
  {
    set i | 0 <= i < n && slots[i].Some?
  }

  lemma {:induction false} ProTotal(slots: seq<Option<Entry>>, n: nat)
    requires n <= |slots|
    requires forall i :: 0 <= i < |slots| && slots[i].Some? ==> slots[i].value.score == 95.0
    ensures SlotTotal(slots[..n]) == 95.0 * |FilledIndexes(slots, n)| as real
  {
    if n > 0 {
      assert slots[..n][..n - 1] == slots[..n - 1];
      ProTotal(slots, n - 1);
      if slots[n - 1].Some? {
        assert FilledIndexes(slots, n) == FilledIndexes(slots, n - 1) + {n - 1};
      } else {
        assert FilledIndexes(slots, n) == FilledIndexes(slots, n - 1);
      }
    } else {
      assert FilledIndexes(slots, 0) == {};
    }
  }

  datatype Variant = Variant(slots: seq<Option<Entry>>, desc: string, badge: string, score: real)

  datatype Variants = Variants(performance: Variant, balanced: Variant, pro: Variant)

  /** One variant: each chosen entry with its context reason, scored on the chosen entries. */
  function ComposeVariant(chosen: seq<Option<Entry>>, contexts: seq<string>, desc: string, badge: string): (v: Variant)
    requires |chosen| == |contexts|
    ensures |v.slots| == |chosen| && v.score == VariantScore(chosen)
    ensures forall i :: 0 <= i < |chosen| ==> v.slots[i] == AddContext(chosen[i], contexts[i])
  {
    Variant(seq(|chosen|, i requires 0 <= i < |chosen| => AddContext(chosen[i], contexts[i])), desc, badge,
            VariantScore(chosen))
  }

  /** `bal_gears_list`: rank 2 of each category, or rank 1 when it is alone. */
  function BalancedOf(rankings: seq<seq<Entry>>): (slots: seq<Option<Entry>>)
    requires |rankings| == |Categories|
    ensures |slots| == |Categories|
    ensures forall i :: 0 <= i < |slots| ==> (slots[i].None? <==> rankings[i] == [])
    ensures forall i :: 0 <= i < |slots| && |rankings[i]| > 1 ==> slots[i] == Some(rankings[i][1])
    ensures forall i :: 0 <= i < |slots| && |rankings[i]| == 1 ==> slots[i] == Some(rankings[i][0])
  {
    seq(|rankings|, i requires 0 <= i < |rankings| => SecondOrFirst(rankings[i]))
  }

  /** `recommend_variant_setups` once the five rankings and the usage links are known. */
  function VariantsOf(rankings: seq<seq<Entry>>, catalog: seq<Gear>, proGear: seq<int>, prefs: Prefs): (v: Variants)
    requires |rankings| == |Categories|
    ensures |v.performance.slots| == |v.balanced.slots| == |v.pro.slots| == |Categories|
    ensures forall i :: 0 <= i < |Categories| ==>
      && v.performance.slots[i] == AddContext(First(rankings[i]), PerformanceContexts(prefs)[i])
      && v.balanced.slots[i] == AddContext(SecondOrFirst(rankings[i]), BalancedContexts[i])
      && v.pro.slots[i] == AddContext(ProChoice(Categories[i], catalog, proGear), ProContexts[i])
    ensures v.performance.score == VariantScore(SetupOf(rankings))
    ensures v.balanced.score == VariantScore(BalancedOf(rankings))
    ensures v.pro.score == VariantScore(ProChoices(catalog, proGear))
  {
    var perf := SetupOf(rankings);
    var bal := BalancedOf(rankings);
    Variants(
      ComposeVariant(perf, PerformanceContexts(prefs), "Top-tier specs matched to your playstyle.", "Best Match"),
      ComposeVariant(bal, BalancedContexts, "Great performance with alternative features.", "Value Pick"),
      ComposeVariant(ProChoices(catalog, proGear), ProContexts, "Most used by Pros.", "Pro Choice"))
  }

  function PerformanceContexts(prefs: Prefs): (r: seq<string>)
    ensures |r| == |Categories|
  {
    ["Top Spec Match for " + Get(prefs, "genre", "Gaming"), "Max Performance Choice",
     "Best Audio Precision", "High Refresh Rate Focus", "Max Ergonomics"]
  }

  const BalancedContexts: seq<string> :=
    ["Best Value Alternative", "Balanced Feature Set", "Great Audio/Price Ratio",
     "Solid Performance Value", "Comfortable Value Choice"]

  const ProContexts: seq<string> :=
    ["Pro Usage Leader", "Most Popular Model", "Top Sound Choice",
     "Standard Issue Monitor", "Most Trusted Seat"]

  /** `recommend_variant_setups`: runs the five scorers, then composes. */
  method RecommendVariantSetups(catalog: seq<Gear>, prefs: Prefs, proGear: seq<int>) returns (v: Variants)
    ensures v == VariantsOf(AllRanked(catalog, prefs), catalog, proGear, prefs)
    ensures v.performance.score <= 100.0 && v.balanced.score <= 100.0 && v.pro.score <= 100.0
  {
    var rankings := RecommendAll(catalog, prefs);
    v := VariantsOf(rankings, catalog, proGear, prefs);
    VariantScoreRange(SetupOf(rankings));
    VariantScoreRange(seq(|rankings|, i requires 0 <= i < |rankings| => SecondOrFirst(rankings[i])));
    VariantScoreRange(ProChoices(catalog, proGear));
  }
}
