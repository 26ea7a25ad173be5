/**
 * Market-basket recommendations (APP01/association_rules.py).
 *
 * Each saved preset is a transaction of gear ids (as the text `str(gear_id)`).
 * Apriori and rule generation are library calls: their output reaches the
 * model as a value, and `TextbookRules` states what that output must be (the
 * textbook support / confidence / lift definitions). Everything the
 * repository does around those calls is modelled: dropping empty presets,
 * the lift filter, the confidence x lift score and the sort, the cache of
 * mined rules, and the query that turns rules into ranked recommendations.
 */
module AssociationRules {
  import opened Wrappers
  import opened Text
  import Sorting

  /** A preset as its `PresetGear` rows: the gear id of each row, `None` where the row has no gear. */
  type Preset = seq<Option<int>>

  /** A rule as the mining library reports it. `consequents` is the
      consequent itemset in the order Python iterates over it. */
  datatype RawRule = RawRule(antecedents: set<string>, consequents: seq<string>,
                             support: real, confidence: real, lift: real)

  /** A rule after post-processing: the library's columns plus `score`. */
  datatype Rule = Rule(antecedents: set<string>, consequents: seq<string>,
                       support: real, confidence: real, lift: real, score: real)

  /** The catalog record the query looks up for a consequent id. */
  datatype Gear = Gear(name: string, kind: string, brand: string)

  /** One recommendation, as the dict built in the query loop. */
  datatype Recommendation = Recommendation(gearId: int, gear: Gear, confidence: real, lift: real, score: real)

  // ---------------------------------------------------------------------
  // Transactions

  /** The gear ids of one preset, as text, skipping rows without gear. */
  function GearIds(p: Preset): (ids: seq<string>)
    ensures |ids| <= |p|
    ensures forall x :: x in ids <==> exists v :: Some(v) in p && x == IntToDecimal(v)
  {
    if p == [] then []
    else GearIds(p[..|p| - 1]) + (if p[|p| - 1].Some? then [IntToDecimal(p[|p| - 1].value)] else [])
  }

  /** The transaction list: one per preset that has at least one gear. */
  function Transactions(presets: seq<Preset>): seq<seq<string>> {
    if presets == [] then []
    else
      var ids := GearIds(presets[|presets| - 1]);
      Transactions(presets[..|presets| - 1]) + (if ids != [] then [ids] else [])
  }

  /** Only presets with at least one gear become transactions, and no more
      transactions than presets exist; no presets means no transactions. */
  lemma {:induction false} TransactionsNonEmpty(presets: seq<Preset>)
    ensures |Transactions(presets)| <= |presets|
    ensures forall t :: t in Transactions(presets) ==> t != []
    ensures forall t :: t in Transactions(presets) ==> exists q :: q in presets && t == GearIds(q)
    ensures forall q :: q in presets && GearIds(q) != [] ==> GearIds(q) in Transactions(presets)
  {
    if presets != [] {
      var init := presets[..|presets| - 1];
      var last := presets[|presets| - 1];
      TransactionsNonEmpty(init);
      assert presets == init + [last];
      forall t | t in Transactions(presets) ensures exists q :: q in presets && t == GearIds(q) {
        if t !in Transactions(init) {
          assert t == GearIds(last);
        }
      }
    }
  }

  /** `build_transaction_data`: the loop over presets that keeps the non-empty ones. */
  method BuildTransactionData(presets: seq<Preset>) returns (transactions: seq<seq<string>>)
    ensures transactions == Transactions(presets)
    ensures presets == [] ==> transactions == []
    ensures forall t :: t in transactions ==> t != []
  {
    transactions := [];
    var i := 0;
    while i < |presets|
      invariant 0 <= i <= |presets|
      invariant transactions == Transactions(presets[..i])
    {
      var ids := GearIds(presets[i]);
      if ids != [] {
        transactions := transactions + [ids];
      }
      assert presets[..i + 1][..i] == presets[..i];
      i := i + 1;
    }
    assert presets[..i] == presets;
    TransactionsNonEmpty(presets);
  }

  // ---------------------------------------------------------------------
  // What the mining library computes (the one-hot table makes each
  // transaction a set of items)

  function ItemSets(txs: seq<seq<string>>): seq<set<string>> {
    seq(|txs|, i requires 0 <= i < |txs| => set x | x in txs[i])
  }

  /** Number of transactions containing every item of `x`. */
  function Count(db: seq<set<string>>, x: set<string>): (n: nat)
    ensures n <= |db|
  {
    if db == [] then 0 else Count(db[..|db| - 1], x) + (if x <= db[|db| - 1] then 1 else 0)
  }

  /** Support: the fraction of transactions containing `x`; a probability,
      and positive exactly when some transaction contains `x`. */
  function Support(db: seq<set<string>>, x: set<string>): (s: real)
    requires db != []
    ensures 0.0 <= s <= 1.0
    ensures Count(db, x) > 0 ==> s > 0.0
  {
    Count(db, x) as real / |db| as real
  }

  /** Anti-monotonicity: a larger itemset is contained in no more transactions. */
  lemma {:induction false} CountAntiMonotone(db: seq<set<string>>, x: set<string>, y: set<string>)
    requires x <= y
    ensures Count(db, y) <= Count(db, x)
  {
    if db != [] {
      CountAntiMonotone(db[..|db| - 1], x, y);
    }
  }

  /** The consequent itemset. */
  function ConsequentSet(r: RawRule): set<string> {
    set x | x in r.consequents
  }

  /** One reported rule obeys the textbook definitions: antecedent and
      consequent are disjoint and non-empty, their union is frequent,
      confidence = supp(A u C) / supp(A) clears `minConfidence`, and
      lift = confidence / supp(C). */
  predicate TextbookRule(db: seq<set<string>>, r: RawRule, minSupport: real, minConfidence: real)
    requires db != []
  {
    var a := r.antecedents;
    var c := ConsequentSet(r);
    && a != {} && c != {} && a !! c
    && Count(db, a + c) > 0 && Count(db, a) > 0 && Count(db, c) > 0
    && r.support == Support(db, a + c)
    && r.support >= minSupport
    && r.confidence == Support(db, a + c) / Support(db, a)
    && r.confidence >= minConfidence
    && r.lift == r.confidence / Support(db, c)
  }

  /** The contract of the library output for the transactions of `presets`. */
  predicate TextbookRules(presets: seq<Preset>, raw: seq<RawRule>, minSupport: real, minConfidence: real) {
    var db := ItemSets(Transactions(presets));
    db != [] ==> forall r :: r in raw ==> TextbookRule(db, r, minSupport, minConfidence)
  }

  /** Two supports over the same transactions divide like their counts. */
  lemma RatioOfCounts(a: nat, b: nat, n: nat)
    requires 0 < b && a <= b && 0 < n
    ensures (a as real / n as real) / (b as real / n as real) == a as real / b as real
    ensures 0.0 <= a as real / b as real <= 1.0
  {
    var A, B, N := a as real, b as real, n as real;
    var x, y, q := A / N, B / N, A / B;
    assert x * N == A && y * N == B && q * B == A;
    assert q * y * N == x * N by {
      assert q * y * N == q * (y * N);
    }
    assert q * y == x;
  }

  /** Confidence is a conditional probability: at most 1; lift is not negative. */
  lemma TextbookRuleBounds(db: seq<set<string>>, r: RawRule, minSupport: real, minConfidence: real)
    requires db != [] && TextbookRule(db, r, minSupport, minConfidence)
    ensures minConfidence <= r.confidence <= 1.0
    ensures r.lift >= 0.0
  {
    var a := r.antecedents;
    var c := ConsequentSet(r);
    CountAntiMonotone(db, a, a + c);
    RatioOfCounts(Count(db, a + c), Count(db, a), |db|);
    assert 0.0 <= r.confidence;
    var sc := Support(db, c);
    assert sc > 0.0;
    assert r.lift == r.confidence / sc;
  }

  // ---------------------------------------------------------------------
  // Post-processing of the library output

  /** The ranking score of a rule: confidence times lift. */
  function ScoreOf(confidence: real, lift: real): real {
    confidence * lift
  }

  function WithScore(r: RawRule): Rule {
    Rule(r.antecedents, r.consequents, r.support, r.confidence, r.lift, ScoreOf(r.confidence, r.lift))
  }

  /** `rules[rules['lift'] >= min_lift]` followed by the `score` column. */
  function ScoreRules(raw: seq<RawRule>, minLift: real): (rules: seq<Rule>)
    ensures |rules| <= |raw|
    ensures forall x :: x in rules ==> exists r :: r in raw && r.lift >= minLift && x == WithScore(r)
    ensures forall r :: r in raw && r.lift >= minLift ==> WithScore(r) in rules
  {
    if raw == [] then []
    else (if raw[0].lift >= minLift then [WithScore(raw[0])] else []) + ScoreRules(raw[1..], minLift)
  }

  function RuleScore(r: Rule): real { r.score }

  /** `mine_association_rules`: `mined` is the library's rule list, `None`
      where the library raised. No transactions, no rules or an exception
      all give the empty list. */
  function MineAssociationRules(presets: seq<Preset>, mined: Option<seq<RawRule>>, minLift: real): seq<Rule> {
    if Transactions(presets) == [] then []
    else
      match mined
      case None => []
      case Some(raw) => Sorting.SortDesc(ScoreRules(raw, minLift), RuleScore)
  }

  /** A mined rule comes from a library rule that clears the lift threshold. */
  lemma MinedRuleOrigin(presets: seq<Preset>, mined: Option<seq<RawRule>>, minLift: real, x: Rule)
    requires x in MineAssociationRules(presets, mined, minLift)
    ensures Transactions(presets) != [] && mined.Some?
    ensures exists r :: r in mined.value && r.lift >= minLift && x == WithScore(r)
  {
    var scored := ScoreRules(mined.value, minLift);
    Sorting.SortDescSpec(scored, RuleScore);
    assert x in multiset(Sorting.SortDesc(scored, RuleScore));
    assert x in scored;
  }

  /** The score of a mined rule is its confidence times its lift. */
  lemma MinedRuleScore(presets: seq<Preset>, mined: Option<seq<RawRule>>, minLift: real, x: Rule)
    requires x in MineAssociationRules(presets, mined, minLift)
    ensures x.score == ScoreOf(x.confidence, x.lift)
  {
    MinedRuleOrigin(presets, mined, minLift, x);
    var r :| r in mined.value && r.lift >= minLift && x == WithScore(r);
  }

  /** Every mined rule has lift at least `minLift`, confidence between
      `minConfidence` and 1 and support at least `minSupport`. */
  lemma MinedRuleBounds(presets: seq<Preset>, mined: Option<seq<RawRule>>,
                        minSupport: real, minConfidence: real, minLift: real, x: Rule)
    requires mined.Some? ==> TextbookRules(presets, mined.value, minSupport, minConfidence)
    requires x in MineAssociationRules(presets, mined, minLift)
    ensures x.lift >= minLift
    ensures minConfidence <= x.confidence <= 1.0 && x.support >= minSupport
  {
    MinedRuleOrigin(presets, mined, minLift, x);
    var r :| r in mined.value && r.lift >= minLift && x == WithScore(r);
    var db := ItemSets(Transactions(presets));
    TextbookRuleOf(presets, mined.value, minSupport, minConfidence, r);
    TextbookRuleBounds(db, r, minSupport, minConfidence);
  }

  lemma TextbookRuleOf(presets: seq<Preset>, raw: seq<RawRule>, minSupport: real, minConfidence: real, r: RawRule)
    requires TextbookRules(presets, raw, minSupport, minConfidence)
    requires Transactions(presets) != [] && r in raw
    ensures ItemSets(Transactions(presets)) != []
    ensures TextbookRule(ItemSets(Transactions(presets)), r, minSupport, minConfidence)
  {
    assert |ItemSets(Transactions(presets))| == |Transactions(presets)|;
  }

  /** The mined list is sorted by descending score and keeps every library
      rule that clears the lift threshold. */
  lemma MinedRulesComplete(presets: seq<Preset>, mined: Option<seq<RawRule>>, minLift: real, r: RawRule)
    requires Transactions(presets) != [] && mined.Some?
    requires r in mined.value && r.lift >= minLift
    ensures WithScore(r) in MineAssociationRules(presets, mined, minLift)
    ensures Sorting.SortedDesc(MineAssociationRules(presets, mined, minLift), RuleScore)
  {
    var scored := ScoreRules(mined.value, minLift);
    Sorting.SortDescSpec(scored, RuleScore);
    assert WithScore(r) in multiset(scored);
  }

  // ---------------------------------------------------------------------
  // The recommendation query

  /** `set(str(gid) for gid in gear_ids)`. */
  function SelectedSet(gearIds: seq<int>): set<string> {
    set g | g in gearIds :: IntToDecimal(g)
  }

  /** What one consequent of a matching rule contributes: nothing when it is
      already selected, is not an integer, is not in the catalog, or has an
      excluded type. */
  function ConsequentCandidate(rule: Rule, c: string, selected: set<string>,
                               excludeTypes: seq<string>, catalog: map<int, Gear>): seq<Recommendation>
  {
    if c in selected then []
    else
      match ParseInt(c)
      case None => []
      case Some(id) =>
        if id !in catalog then []
        else if |excludeTypes| > 0 && catalog[id].kind in excludeTypes then []
        else [Recommendation(id, catalog[id], rule.confidence, rule.lift, rule.score)]
  }

  /** The candidates of one rule's first consequents, in iteration order. */
  function ConsequentCandidates(rule: Rule, cs: seq<string>, selected: set<string>,
                                excludeTypes: seq<string>, catalog: map<int, Gear>): seq<Recommendation>
  {
    if cs == [] then []
    else ConsequentCandidates(rule, cs[..|cs| - 1], selected, excludeTypes, catalog)
         + ConsequentCandidate(rule, cs[|cs| - 1], selected, excludeTypes, catalog)
  }

  /** The `recommendations` list: for each rule whose antecedents are all
      selected, the candidates of its consequents. */
  function Candidates(rules: seq<Rule>, selected: set<string>,
                      excludeTypes: seq<string>, catalog: map<int, Gear>): seq<Recommendation>
  {
    if rules == [] then []
    else
      var rule := rules[|rules| - 1];
      Candidates(rules[..|rules| - 1], selected, excludeTypes, catalog)
      + (if rule.antecedents <= selected
         then ConsequentCandidates(rule, rule.consequents, selected, excludeTypes, catalog) else [])
  }

  /** Where a candidate comes from: a rule whose antecedents are selected, one
      of its consequents that is not selected and names a catalog gear whose
      type is not excluded; the candidate carries that rule's metrics. */
  ghost predicate Justified(x: Recommendation, rules: seq<Rule>, selected: set<string>,
                            excludeTypes: seq<string>, catalog: map<int, Gear>)
  {
    && x.gearId in catalog && x.gear == catalog[x.gearId]
    && (|excludeTypes| > 0 ==> x.gear.kind !in excludeTypes)
    && exists rule, c :: rule in rules && c in rule.consequents
         && rule.antecedents <= selected && c !in selected && ParseInt(c) == Some(x.gearId)
         && x.score == rule.score && x.confidence == rule.confidence && x.lift == rule.lift
  }

  lemma {:induction false} ConsequentCandidatesJustified(rule: Rule, cs: seq<string>, rules: seq<Rule>,
      selected: set<string>, excludeTypes: seq<string>, catalog: map<int, Gear>)
    requires rule in rules && rule.antecedents <= selected
    requires forall c :: c in cs ==> c in rule.consequents
    ensures forall x :: x in ConsequentCandidates(rule, cs, selected, excludeTypes, catalog) ==>
      Justified(x, rules, selected, excludeTypes, catalog)
  {
    if cs != [] {
      ConsequentCandidatesJustified(rule, cs[..|cs| - 1], rules, selected, excludeTypes, catalog);
      var c := cs[|cs| - 1];
      forall x | x in ConsequentCandidate(rule, c, selected, excludeTypes, catalog)
        ensures Justified(x, rules, selected, excludeTypes, catalog)
      {
        assert c in rule.consequents;
      }
    }
  }

  lemma {:induction false} CandidatesJustified(rules: seq<Rule>, all: seq<Rule>, selected: set<string>,
      excludeTypes: seq<string>, catalog: map<int, Gear>)
    requires forall r :: r in rules ==> r in all
    ensures forall x :: x in Candidates(rules, selected, excludeTypes, catalog) ==>
      Justified(x, all, selected, excludeTypes, catalog)
  {
    if rules != [] {
      var rule := rules[|rules| - 1];
      CandidatesJustified(rules[..|rules| - 1], all, selected, excludeTypes, catalog);
      if rule.antecedents <= selected {
        ConsequentCandidatesJustified(rule, rule.consequents, all, selected, excludeTypes, catalog);
      }
    }
  }

  /** The `seen` dict after processing `cands`: its keys in insertion order
      and the entry kept for each. A later entry replaces the kept one only
      when its score is strictly greater. */
  datatype Seen = Seen(keys: seq<int>, best: map<int, Recommendation>)

  function Dedup(cands: seq<Recommendation>): Seen {
    if cands == [] then Seen([], map[])
    else
      var s := Dedup(cands[..|cands| - 1]);
      var x := cands[|cands| - 1];
      if x.gearId !in s.best then Seen(s.keys + [x.gearId], s.best[x.gearId := x])
      else if x.score > s.best[x.gearId].score then Seen(s.keys, s.best[x.gearId := x])
      else s
  }

  ghost predicate DistinctInts(s: seq<int>) {
    forall i, j :: 0 <= i < j < |s| ==> s[i] != s[j]
  }

  /** The `seen` dict holds each candidate id exactly once, in order of first
      appearance, and keeps under each id a candidate with that id. */
  lemma {:induction false} DedupShape(cands: seq<Recommendation>)
    ensures var s := Dedup(cands);
      && DistinctInts(s.keys)
      && (forall i :: 0 <= i < |s.keys| ==> s.keys[i] in s.best)
      && (forall k :: k in s.best ==> k in s.keys)
      && (forall x :: x in cands ==> x.gearId in s.best)
      && (forall k :: k in s.best ==> s.best[k].gearId == k && s.best[k] in cands)
  {
    if cands != [] {
      var prev := cands[..|cands| - 1];
      DedupShape(prev);
      assert cands == prev + [cands[|cands| - 1]];
    }
  }

  /** The kept entry for an id is the earliest candidate of maximal score with that id. */
  ghost predicate EarliestBest(cands: seq<Recommendation>, id: int, x: Recommendation) {
    exists i :: 0 <= i < |cands| && cands[i] == x && x.gearId == id
      && (forall j :: 0 <= j < i && cands[j].gearId == id ==> cands[j].score < x.score)
      && (forall j :: i < j < |cands| && cands[j].gearId == id ==> cands[j].score <= x.score)
  }

  lemma EarliestBestIsMax(cands: seq<Recommendation>, k: int, b: Recommendation)
    requires EarliestBest(cands, k, b)
    ensures forall j :: 0 <= j < |cands| && cands[j].gearId == k ==> cands[j].score <= b.score
  {
  }

  lemma EarliestKept(prev: seq<Recommendation>, x: Recommendation, k: int, b: Recommendation)
    requires EarliestBest(prev, k, b)
    requires x.gearId == k ==> x.score <= b.score
    ensures EarliestBest(prev + [x], k, b)
  {
    var i :| 0 <= i < |prev| && prev[i] == b && b.gearId == k
      && (forall j :: 0 <= j < i && prev[j].gearId == k ==> prev[j].score < b.score)
      && (forall j :: i < j < |prev| && prev[j].gearId == k ==> prev[j].score <= b.score);
    var c := prev + [x];
    assert c[i] == b;
    assert forall j :: 0 <= j < |prev| ==> c[j] == prev[j];
  }

  lemma EarliestNew(prev: seq<Recommendation>, x: Recommendation, k: int)
    requires x.gearId == k
    requires forall j :: 0 <= j < |prev| && prev[j].gearId == k ==> prev[j].score < x.score
    ensures EarliestBest(prev + [x], k, x)
  {
    var c := prev + [x];
    assert c[|prev|] == x;
    assert forall j :: 0 <= j < |prev| ==> c[j] == prev[j];
  }

  lemma {:induction false} DedupEarliest(cands: seq<Recommendation>, k: int)
    requires k in Dedup(cands).best
    ensures EarliestBest(cands, k, Dedup(cands).best[k])
  {
    var prev := cands[..|cands| - 1];
    var x := cands[|cands| - 1];
    assert cands == prev + [x];
    var p := Dedup(prev);
    DedupShape(prev);
    if k !in p.best {
      forall j | 0 <= j < |prev| ensures prev[j].gearId != k {
        assert prev[j] in prev;
      }
      EarliestNew(prev, x, k);
    } else {
      DedupEarliest(prev, k);
      if k == x.gearId && x.score > p.best[k].score {
        EarliestBestIsMax(prev, k, p.best[k]);
        EarliestNew(prev, x, k);
      } else {
        EarliestKept(prev, x, k, p.best[k]);
      }
    }
  }

  /** `seen.values()`: the kept entries in key insertion order. */
  function SeenValues(s: Seen): seq<Recommendation>
    requires forall i :: 0 <= i < |s.keys| ==> s.keys[i] in s.best
  {
    seq(|s.keys|, i requires 0 <= i < |s.keys| => s.best[s.keys[i]])
  }

  function RecScore(r: Recommendation): real { r.score }

  /** `get_recommendations` once rules are available: candidates, dedup by
      id, stable sort by descending score, first `topN`. */
  function Query(rules: seq<Rule>, gearIds: seq<int>, topN: int, excludeTypes: seq<string>,
                 catalog: map<int, Gear>): seq<Recommendation>
  {
    var cands := Candidates(rules, SelectedSet(gearIds), excludeTypes, catalog);
    DedupShape(cands);
    Sorting.Prefix(Sorting.SortDesc(SeenValues(Dedup(cands)), RecScore), topN)
  }

  ghost predicate DistinctIds(s: seq<Recommendation>) {
    forall i, j :: 0 <= i < j < |s| ==> s[i].gearId != s[j].gearId
  }

  lemma {:induction false} DistinctIdsCountOne(s: seq<Recommendation>, x: Recommendation)
    requires DistinctIds(s)
    ensures multiset(s)[x] <= 1
  {
    if s != [] {
      var init := s[..|s| - 1];
      assert s == init + [s[|s| - 1]];
      DistinctIdsCountOne(init, x);
      if s[|s| - 1] == x {
        forall j | 0 <= j < |init| ensures init[j] != x {
          assert s[j] == init[j];
        }
        assert multiset(init)[x] == 0;
      }
    }
  }

  lemma RepeatedCountTwo<T>(s: seq<T>, i: int, j: int)
    requires 0 <= i < j < |s| && s[i] == s[j]
    ensures multiset(s)[s[i]] >= 2
  {
    assert s == s[..j] + [s[j]] + s[j + 1..];
    assert s[i] in s[..j];
  }

  /** Reordering keeps the ids pairwise distinct. */
  lemma DistinctIdsPermutation(a: seq<Recommendation>, b: seq<Recommendation>)
    requires DistinctIds(a) && multiset(a) == multiset(b)
    ensures DistinctIds(b)
  {
    forall i, j | 0 <= i < j < |b| ensures b[i].gearId != b[j].gearId {
      if b[i] == b[j] {
        RepeatedCountTwo(b, i, j);
        DistinctIdsCountOne(a, b[i]);
      } else {
        assert b[i] in multiset(a) && b[j] in multiset(a);
        var p :| 0 <= p < |a| && a[p] == b[i];
        var q :| 0 <= q < |a| && a[q] == b[j];
        assert p != q;
      }
    }
  }

  /** A recommendation is a candidate that the `seen` dict kept. */
  lemma QueryMember(rules: seq<Rule>, gearIds: seq<int>, topN: int, excludeTypes: seq<string>,
                    catalog: map<int, Gear>, x: Recommendation)
    requires x in Query(rules, gearIds, topN, excludeTypes, catalog)
    ensures var cands := Candidates(rules, SelectedSet(gearIds), excludeTypes, catalog);
      x.gearId in Dedup(cands).best && x == Dedup(cands).best[x.gearId]
  {
    var cands := Candidates(rules, SelectedSet(gearIds), excludeTypes, catalog);
    DedupShape(cands);
    var values := SeenValues(Dedup(cands));
    Sorting.PrefixOfSortFromInput(values, RecScore, topN, x);
  }

  /** Every recommendation is justified by a rule and is, for its gear, the
      earliest candidate of maximal score. */
  lemma QueryJustified(rules: seq<Rule>, gearIds: seq<int>, topN: int, excludeTypes: seq<string>,
                       catalog: map<int, Gear>, x: Recommendation)
    requires x in Query(rules, gearIds, topN, excludeTypes, catalog)
    ensures Justified(x, rules, SelectedSet(gearIds), excludeTypes, catalog)
    ensures EarliestBest(Candidates(rules, SelectedSet(gearIds), excludeTypes, catalog), x.gearId, x)
  {
    var cands := Candidates(rules, SelectedSet(gearIds), excludeTypes, catalog);
    QueryMember(rules, gearIds, topN, excludeTypes, catalog, x);
    DedupShape(cands);
    DedupEarliest(cands, x.gearId);
    CandidatesJustified(rules, rules, SelectedSet(gearIds), excludeTypes, catalog);
  }

  /** At most `topN` recommendations (for `topN >= 0`), none for no rules,
      sorted by descending score, one per gear. */
  lemma QueryShape(rules: seq<Rule>, gearIds: seq<int>, topN: int, excludeTypes: seq<string>,
                   catalog: map<int, Gear>)
    ensures var recs := Query(rules, gearIds, topN, excludeTypes, catalog);
      && (rules == [] ==> recs == [])
      && (topN >= 0 ==> |recs| <= topN)
      && Sorting.SortedDesc(recs, RecScore)
      && DistinctIds(recs)
  {
    var cands := Candidates(rules, SelectedSet(gearIds), excludeTypes, catalog);
    DedupShape(cands);
    var s := Dedup(cands);
    var values := SeenValues(s);
    var sorted := Sorting.SortDesc(values, RecScore);
    Sorting.SortDescSpec(values, RecScore);
    var recs := Sorting.Prefix(sorted, topN);
    assert DistinctIds(values) by {
      forall i, j | 0 <= i < j < |values| ensures values[i].gearId != values[j].gearId {
        assert values[i].gearId == s.keys[i] && values[j].gearId == s.keys[j];
      }
    }
    DistinctIdsPermutation(values, sorted);
    assert recs == sorted[..|recs|];
  }

  /** The candidate that a consequent `c` of `rule` yields when it is not
      selected, parses to a catalog id and is not of an excluded type. */
  ghost predicate Eligible(c: string, selected: set<string>, excludeTypes: seq<string>, catalog: map<int, Gear>) {
    && c !in selected && ParseInt(c).Some? && ParseInt(c).value in catalog
    && !(|excludeTypes| > 0 && catalog[ParseInt(c).value].kind in excludeTypes)
  }

  function CandidateOf(rule: Rule, c: string, catalog: map<int, Gear>): Recommendation
    requires ParseInt(c).Some? && ParseInt(c).value in catalog
  {
    var id := ParseInt(c).value;
    Recommendation(id, catalog[id], rule.confidence, rule.lift, rule.score)
  }

  /** An eligible consequent among `cs` contributes its candidate. */
  lemma {:induction false} ConsequentCandidatesComplete(rule: Rule, cs: seq<string>, c: string,
      selected: set<string>, excludeTypes: seq<string>, catalog: map<int, Gear>)
    requires c in cs && Eligible(c, selected, excludeTypes, catalog)
    ensures CandidateOf(rule, c, catalog) in ConsequentCandidates(rule, cs, selected, excludeTypes, catalog)
    decreases |cs|
  {
    var init := cs[..|cs| - 1];
    if cs[|cs| - 1] != c {
      assert c in init by {
        assert cs == init + [cs[|cs| - 1]];
      }
      ConsequentCandidatesComplete(rule, init, c, selected, excludeTypes, catalog);
    }
  }

  /** A rule whose antecedents are all selected contributes the candidate of
      each of its eligible consequents. */
  lemma {:induction false} CandidatesComplete(rules: seq<Rule>, rule: Rule, c: string,
      selected: set<string>, excludeTypes: seq<string>, catalog: map<int, Gear>)
    requires rule in rules && rule.antecedents <= selected && c in rule.consequents
    requires Eligible(c, selected, excludeTypes, catalog)
    ensures CandidateOf(rule, c, catalog) in Candidates(rules, selected, excludeTypes, catalog)
    decreases |rules|
  {
    var init := rules[..|rules| - 1];
    if rules[|rules| - 1] == rule {
      ConsequentCandidatesComplete(rule, rule.consequents, c, selected, excludeTypes, catalog);
    } else {
      assert rule in init by {
        assert rules == init + [rules[|rules| - 1]];
      }
      CandidatesComplete(init, rule, c, selected, excludeTypes, catalog);
    }
  }

  /** No candidate is lost: its gear appears with a score at least as high,
      or all `topN` places hold entries scoring at least as high. */
  lemma QueryComplete(rules: seq<Rule>, gearIds: seq<int>, topN: nat, excludeTypes: seq<string>,
                      catalog: map<int, Gear>, x: Recommendation)
    requires x in Candidates(rules, SelectedSet(gearIds), excludeTypes, catalog)
    ensures var recs := Query(rules, gearIds, topN, excludeTypes, catalog);
      || (exists y :: y in recs && y.gearId == x.gearId && y.score >= x.score)
      || (|recs| == topN && forall y :: y in recs ==> y.score >= x.score)
  {
    var cands := Candidates(rules, SelectedSet(gearIds), excludeTypes, catalog);
    DedupShape(cands);
    var s := Dedup(cands);
    var b := s.best[x.gearId];
    DedupEarliest(cands, x.gearId);
    EarliestBestIsMax(cands, x.gearId, b);
    var j :| 0 <= j < |cands| && cands[j] == x;
    assert x.score <= b.score;
    var values := SeenValues(s);
    var i :| 0 <= i < |s.keys| && s.keys[i] == x.gearId;
    assert values[i] == b;
    Sorting.TopIsBest(values, RecScore, topN, b);
  }

  /** Every eligible consequent of a rule whose antecedents are all selected
      is recommended, or crowded out by `topN` entries scoring at least as
      high. */
  lemma QueryFindsEligible(rules: seq<Rule>, gearIds: seq<int>, topN: nat, excludeTypes: seq<string>,
                           catalog: map<int, Gear>, rule: Rule, c: string)
    requires rule in rules && rule.antecedents <= SelectedSet(gearIds) && c in rule.consequents
    requires Eligible(c, SelectedSet(gearIds), excludeTypes, catalog)
    ensures var recs := Query(rules, gearIds, topN, excludeTypes, catalog);
      || (exists y :: y in recs && y.gearId == ParseInt(c).value && y.score >= rule.score)
      || (|recs| == topN && forall y :: y in recs ==> y.score >= rule.score)
  {
    CandidatesComplete(rules, rule, c, SelectedSet(gearIds), excludeTypes, catalog);
    QueryComplete(rules, gearIds, topN, excludeTypes, catalog, CandidateOf(rule, c, catalog));
  }

  /** One more consequent: its candidates follow those of the earlier ones. */
  lemma ConsequentNext(rule: Rule, cs: seq<string>, j: int, selected: set<string>,
                       excludeTypes: seq<string>, catalog: map<int, Gear>)
    requires 0 <= j < |cs|
    ensures ConsequentCandidates(rule, cs[..j + 1], selected, excludeTypes, catalog)
      == ConsequentCandidates(rule, cs[..j], selected, excludeTypes, catalog)
         + ConsequentCandidate(rule, cs[j], selected, excludeTypes, catalog)
  {
    assert cs[..j + 1][..j] == cs[..j];
  }

  /** The consequent loop of one rule. */
  method RuleCandidates(rule: Rule, selected: set<string>, excludeTypes: seq<string>,
                        catalog: map<int, Gear>) returns (found: seq<Recommendation>)
    ensures found == ConsequentCandidates(rule, rule.consequents, selected, excludeTypes, catalog)
  {
    found := [];
    var j := 0;
    while j < |rule.consequents|
      invariant 0 <= j <= |rule.consequents|
      invariant found == ConsequentCandidates(rule, rule.consequents[..j], selected, excludeTypes, catalog)
    {
      ConsequentNext(rule, rule.consequents, j, selected, excludeTypes, catalog);
      found := found + ConsequentCandidate(rule, rule.consequents[j], selected, excludeTypes, catalog);
      j := j + 1;
    }
    assert rule.consequents[..j] == rule.consequents;
  }

  /** The rule loop: rules whose antecedents are all selected contribute
      their consequents' candidates. */
  method CollectCandidates(rules: seq<Rule>, selected: set<string>, excludeTypes: seq<string>,
                           catalog: map<int, Gear>) returns (recommendations: seq<Recommendation>)
    ensures recommendations == Candidates(rules, selected, excludeTypes, catalog)
  {
    recommendations := [];
    var i := 0;
    while i < |rules|
      invariant 0 <= i <= |rules|
      invariant recommendations == Candidates(rules[..i], selected, excludeTypes, catalog)
    {
      var rule := rules[i];
      assert rules[..i + 1][..i] == rules[..i];
      if rule.antecedents <= selected {
        var found := RuleCandidates(rule, selected, excludeTypes, catalog);
        recommendations := recommendations + found;
      }
      i := i + 1;
    }
    assert rules[..i] == rules;
  }

  /** The `seen` loop: keeps, per gear id, the first candidate of highest score. */
  method KeepBest(recommendations: seq<Recommendation>) returns (seen: Seen)
    ensures seen == Dedup(recommendations)
  {
    seen := Seen([], map[]);
    var k := 0;
    while k < |recommendations|
      invariant 0 <= k <= |recommendations|
      invariant seen == Dedup(recommendations[..k])
    {
      var rec := recommendations[k];
      var gid := rec.gearId;
      if gid !in seen.best {
        seen := Seen(seen.keys + [gid], seen.best[gid := rec]);
      } else if rec.score > seen.best[gid].score {
        seen := Seen(seen.keys, seen.best[gid := rec]);
      }
      assert recommendations[..k + 1][..k] == recommendations[..k];
      k := k + 1;
    }
    assert recommendations[..k] == recommendations;
  }

  /** The query as the source runs it: the early return for no rules, the
      candidate loops, the `seen` loop, then the sort and the slice. */
  method Recommend(rules: seq<Rule>, gearIds: seq<int>, topN: int, excludeTypes: seq<string>,
                   catalog: map<int, Gear>) returns (recs: seq<Recommendation>)
    ensures recs == Query(rules, gearIds, topN, excludeTypes, catalog)
    ensures rules == [] ==> recs == []
    ensures topN >= 0 ==> |recs| <= topN
    ensures Sorting.SortedDesc(recs, RecScore) && DistinctIds(recs)
    ensures forall x :: x in recs ==> Justified(x, rules, SelectedSet(gearIds), excludeTypes, catalog)
    ensures topN >= 0 ==> forall x :: x in Candidates(rules, SelectedSet(gearIds), excludeTypes, catalog) ==>
      || (exists y :: y in recs && y.gearId == x.gearId && y.score >= x.score)
      || (|recs| == topN && forall y :: y in recs ==> y.score >= x.score)
  {
    QueryShape(rules, gearIds, topN, excludeTypes, catalog);
    forall x | x in Query(rules, gearIds, topN, excludeTypes, catalog)
      ensures Justified(x, rules, SelectedSet(gearIds), excludeTypes, catalog)
    {
      QueryJustified(rules, gearIds, topN, excludeTypes, catalog, x);
    }
    if topN >= 0 {
      forall x | x in Candidates(rules, SelectedSet(gearIds), excludeTypes, catalog)
        ensures var q := Query(rules, gearIds, topN, excludeTypes, catalog);
          || (exists y :: y in q && y.gearId == x.gearId && y.score >= x.score)
          || (|q| == topN && forall y :: y in q ==> y.score >= x.score)
      {
        QueryComplete(rules, gearIds, topN, excludeTypes, catalog, x);
      }
    }
    if rules == [] {
      return [];
    }
    var recommendations := CollectCandidates(rules, SelectedSet(gearIds), excludeTypes, catalog);
    var seen := KeepBest(recommendations);
    DedupShape(recommendations);
    recs := Sorting.Prefix(Sorting.SortDesc(SeenValues(seen), RecScore), topN);
  }

  // ---------------------------------------------------------------------
  // The miner and its rule cache

  class AssociationRuleMiner {
    const minSupport: real
    const minConfidence: real
    const minLift: real
    /** The cache entry `association_rules_rules`; `None` when absent or expired. */
    var cache: Option<seq<Rule>>

    constructor (minSupport: real := 0.05, minConfidence: real := 0.3, minLift: real := 1.0)
      ensures this.minSupport == minSupport && this.minConfidence == minConfidence
      ensures this.minLift == minLift
      ensures cache == None
    {
      this.minSupport := minSupport;
      this.minConfidence := minConfidence;
      this.minLift := minLift;
      cache := None;
    }

    /** The cache entry's time-out: the entry disappears. */
    method Expire()
      modifies this
      ensures cache == None
    {
      cache := None;
    }

    /** `get_recommendations`: cached rules when present and non-empty,
        otherwise freshly mined ones, which are cached only when non-empty. */
    method GetRecommendations(gearIds: seq<int>, topN: int, excludeTypes: seq<string>,
                              presets: seq<Preset>, mined: Option<seq<RawRule>>,
                              catalog: map<int, Gear>) returns (recs: seq<Recommendation>)
      modifies this
      ensures var useCache := old(cache).Some? && old(cache).value != [];
        var rules := if useCache then old(cache).value else MineAssociationRules(presets, mined, minLift);
        && recs == Query(rules, gearIds, topN, excludeTypes, catalog)
        && cache == (if !useCache && rules != [] then Some(rules) else old(cache))
        && (rules == [] ==> recs == [])
      ensures cache.Some? && cache != old(cache) ==> cache.value != []
    {
      var rules: seq<Rule>;
      if cache.None? || cache.value == [] {
        rules := MineAssociationRules(presets, mined, minLift);
        if rules != [] {
          cache := Some(rules);
        }
      } else {
        rules := cache.value;
      }
      recs := Recommend(rules, gearIds, topN, excludeTypes, catalog);
    }

    /** `refresh_cache`: re-mines and overwrites the cache when mining gives
        rules; reports success exactly then. `cacheWriteFails` stands for the
        cache backend raising, which is reported as failure. */
    method RefreshCache(presets: seq<Preset>, mined: Option<seq<RawRule>>, cacheWriteFails: bool)
      returns (ok: bool)
      modifies this
      ensures var rules := MineAssociationRules(presets, mined, minLift);
        && ok == (rules != [] && !cacheWriteFails)
        && cache == (if ok then Some(rules) else old(cache))
    {
      var rules := MineAssociationRules(presets, mined, minLift);
      if rules != [] {
        if cacheWriteFails {
          return false;
        }
        cache := Some(rules);
        return true;
      }
      return false;
    }
  }

  /** The module-level `_miner_instance` slot. */
  class MinerRegistry {
    var instance: AssociationRuleMiner?

    constructor ()
      ensures instance == null
    {
      instance := null;
    }

    /** `get_miner`: creates the default miner on first use and returns the same one afterwards. */
    method GetMiner() returns (m: AssociationRuleMiner)
      modifies this
      ensures old(instance) != null ==> m == old(instance)
      ensures old(instance) == null ==>
        fresh(m) && m.minSupport == 0.05 && m.minConfidence == 0.3 && m.minLift == 1.0 && m.cache == None
      ensures instance == m
    {
      if instance == null {
        instance := new AssociationRuleMiner();
      }
      m := instance;
    }
  }
}
