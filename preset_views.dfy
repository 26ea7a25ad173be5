/**
 * The preset views of APP01/views.py: `edit_temp_preset`, which adds or
 * removes one gear id in the temporary preset kept in the session, and the
 * numbering loops of `save_preset` and `edit_preset`, which store a list of
 * gear ids as preset entries with orders 1..n; `edit_preset` takes the ids as
 * form strings and stops at the first one that is not an integer, names no
 * gear or is already stored for the preset.
 */
module PresetViews {
  import opened Wrappers
  import Text

  /** No id occurs twice. */
  predicate NoDuplicates(s: seq<int>) {
    forall i, j :: 0 <= i < j < |s| ==> s[i] != s[j]
  }

  /** Position of the first occurrence of `x`, which must occur. */
  function FirstIndex(s: seq<int>, x: int): (i: nat)
    requires x in s
    ensures i < |s| && s[i] == x && x !in s[..i]
  {
    if s[0] == x then 0 else 1 + FirstIndex(s[1..], x)
  }

  /** `list.remove(x)`: deletes the first occurrence. */
  function RemoveFirst(s: seq<int>, x: int): (r: seq<int>)
    requires x in s
    ensures var i := FirstIndex(s, x); r == s[..i] + s[i + 1..]
    ensures multiset(r) == multiset(s) - multiset{x}
  {
    var i := FirstIndex(s, x);
    assert s == s[..i] + [x] + s[i + 1..];
    s[..i] + s[i + 1..]
  }

  /** `a` is `b` with at most one element deleted, order kept. */
  predicate DeletesAtMostOne(a: seq<int>, b: seq<int>) {
    a == b || exists i :: 0 <= i < |b| && a == b[..i] + b[i + 1..]
  }

  /** The gear id of the request: the URL's `<int:gear_id>` when given and
      non-zero (`int(gear_id) if gear_id else None`, then the truth test). */
  function EffectiveId(gearId: Option<nat>): Option<int> {
    if gearId.Some? && gearId.value != 0 then Some(gearId.value as int) else None
  }

  /** The single update `edit_temp_preset` makes to the temporary preset. */
  function EditList(list: seq<int>, action: string, gearId: Option<nat>): (r: seq<int>)
    ensures (action != "add" && action != "remove") || EffectiveId(gearId).None? ==> r == list
    ensures action == "add" && EffectiveId(gearId).Some? ==>
      var id := EffectiveId(gearId).value; if id in list then r == list else r == list + [id]
    ensures action == "remove" && EffectiveId(gearId).Some? ==>
      multiset(r) == multiset(list) - multiset{EffectiveId(gearId).value}
    ensures action == "remove" ==> DeletesAtMostOne(r, list)
  {
    var id := EffectiveId(gearId);
    if action == "add" && id.Some? && id.value !in list then list + [id.value]
    else if action == "remove" && id.Some? && id.value in list then RemoveFirst(list, id.value)
    else list
  }

  /** Adding never creates a duplicate, and removing keeps the list free of them. */
  lemma EditKeepsNoDuplicates(list: seq<int>, action: string, gearId: Option<nat>)
    requires NoDuplicates(list)
    ensures NoDuplicates(EditList(list, action, gearId))
  {
    var r := EditList(list, action, gearId);
    var id := EffectiveId(gearId);
    if action == "add" && id.Some? && id.value !in list {
      forall i, j | 0 <= i < j < |r| ensures r[i] != r[j] {
        if j == |list| {
          assert r[i] == list[i];
        }
      }
    } else if action == "remove" && id.Some? && id.value in list {
      var k := FirstIndex(list, id.value);
      forall i, j | 0 <= i < j < |r| ensures r[i] != r[j] {
        var i' := if i < k then i else i + 1;
        var j' := if j < k then j else j + 1;
        assert r[i] == list[i'] && r[j] == list[j'];
      }
    }
  }

  /** After an add the id is present; after a remove from a duplicate-free
      list it is absent. */
  lemma EditMembership(list: seq<int>, action: string, gearId: Option<nat>)
    requires NoDuplicates(list) && EffectiveId(gearId).Some?
    ensures action == "add" ==> EffectiveId(gearId).value in EditList(list, action, gearId)
    ensures action == "remove" ==> EffectiveId(gearId).value !in EditList(list, action, gearId)
  {
    var id := EffectiveId(gearId).value;
    if action == "remove" && id in list {
      var k := FirstIndex(list, id);
      var r := RemoveFirst(list, id);
      forall i | 0 <= i < |r| ensures r[i] != id {
        var i' := if i < k then i else i + 1;
        assert r[i] == list[i'];
      }
    }
  }

  /** Removing what was just added gives back the original list. */
  lemma AddThenRemove(list: seq<int>, gearId: Option<nat>)
    requires EffectiveId(gearId).Some? && EffectiveId(gearId).value !in list
    ensures EditList(EditList(list, "add", gearId), "remove", gearId) == list
  {
    var id := EffectiveId(gearId).value;
    var added := list + [id];
    assert added[..|list|] == list;
    assert FirstIndex(added, id) == |list|;
  }

  /** The `match_result` entry of the session: the temporary preset list
      (absent until first set) and the other keys the matching page keeps. */
  datatype MatchResult = MatchResult(tempPresetGears: Option<seq<int>>, others: map<string, string>) {
    /** A dict is truthy when it has any key. */
    predicate Truthy() {
      tempPresetGears.Some? || others != map[]
    }

    function TempGears(): seq<int> {
      tempPresetGears.GetOr([])
    }
  }

  datatype Redirect = UploadImage | MatchingResult | ManagePresets | SavePresetForm | NotFound

  /** One stored preset entry. */
  datatype PresetGear = PresetGear(gearId: int, order: int)

  /** The entries for `ids`, numbered from 1 in list order. */
  function Numbered(ids: seq<int>): (r: seq<PresetGear>)
    ensures |r| == |ids|
    ensures forall k :: 0 <= k < |ids| ==> r[k] == PresetGear(ids[k], k + 1)
  {
    seq(|ids|, k requires 0 <= k < |ids| => PresetGear(ids[k], k + 1))
  }

  /** The index of the first id that names no gear, if any. */
  function FirstUnknown(ids: seq<int>, known: set<int>): (r: Option<nat>)
    ensures r.None? <==> forall k :: 0 <= k < |ids| ==> ids[k] in known
    ensures r.Some? ==>
      r.value < |ids| && ids[r.value] !in known && forall k :: 0 <= k < r.value ==> ids[k] in known
  {
    if ids == [] then None
    else if ids[0] !in known then Some(0)
    else
      var rest := FirstUnknown(ids[1..], known);
      assert forall k :: 1 <= k < |ids| ==> ids[k] == ids[1..][k - 1];
      if rest.None? then None else Some(rest.value + 1)
  }

  /** The numbering loop of `save_preset` and `edit_preset`: each id is looked
      up (`get_object_or_404`) and stored with the next order number; an
      unknown id ends the request with a 404, leaving the entries already
      created in place. */
  method NumberGears(ids: seq<int>, known: set<int>) returns (entries: seq<PresetGear>, notFound: bool)
    ensures notFound <==> FirstUnknown(ids, known).Some?
    ensures !notFound ==> entries == Numbered(ids)
    ensures notFound ==> entries == Numbered(ids[..FirstUnknown(ids, known).value])
  {
    entries := [];
    var order := 1;
    var i := 0;
    while i < |ids|
      invariant 0 <= i <= |ids| && order == i + 1
      invariant forall k :: 0 <= k < i ==> ids[k] in known
      invariant entries == Numbered(ids[..i])
    {
      if ids[i] !in known {
        return entries, true;
      }
      entries := entries + [PresetGear(ids[i], order)];
      order := order + 1;
      i := i + 1;
    }
    assert ids[..i] == ids;
    return entries, false;
  }

  /** The session of one user. */
  class Session {
    var matchResult: Option<MatchResult>

    constructor (matchResult: Option<MatchResult>)
      ensures this.matchResult == matchResult
    {
      this.matchResult := matchResult;
    }

    /** `edit_temp_preset`: without a truthy match result it redirects to the
        upload page; otherwise it applies the single edit and writes the list
        back into the session. */
    method EditTempPreset(action: string, gearId: Option<nat>) returns (next: Redirect)
      modifies this
      ensures old(matchResult).None? || !old(matchResult).value.Truthy() ==>
        next == UploadImage && matchResult == old(matchResult)
      ensures old(matchResult).Some? && old(matchResult).value.Truthy() ==>
        next == MatchingResult
        && matchResult == Some(old(matchResult).value.(tempPresetGears :=
             Some(EditList(old(matchResult).value.TempGears(), action, gearId))))
    {
      if matchResult.None? || !matchResult.value.Truthy() {
        return UploadImage;
      }
      var current := matchResult.value.TempGears();
      var id := EffectiveId(gearId);
      if action == "add" && id.Some? && id.value !in current {
        current := current + [id.value];
      } else if action == "remove" && id.Some? && id.value in current {
        current := RemoveFirst(current, id.value);
      }
      matchResult := Some(matchResult.value.(tempPresetGears := Some(current)));
      return MatchingResult;
    }

    /** `save_preset` on a POST: refuses without a non-empty temporary
        preset; with a valid name it stores the numbered entries and clears
        the match result; an unknown id ends in a 404 after the entries
        before it were stored. */
    method SavePreset(formValid: bool, known: set<int>) returns (next: Redirect, entries: seq<PresetGear>)
      modifies this
      ensures var m := old(matchResult);
        m.None? || !m.value.Truthy() || m.value.TempGears() == [] ==>
          next == UploadImage && entries == [] && matchResult == m
      ensures var m := old(matchResult);
        m.Some? && m.value.Truthy() && m.value.TempGears() != [] && !formValid ==>
          next == SavePresetForm && entries == [] && matchResult == m
      ensures var m := old(matchResult);
        m.Some? && m.value.Truthy() && m.value.TempGears() != [] && formValid ==>
          var ids := m.value.TempGears();
          match FirstUnknown(ids, known)
          case None => next == ManagePresets && entries == Numbered(ids) && matchResult.None?
          case Some(k) => next == NotFound && entries == Numbered(ids[..k]) && matchResult == m
    {
      if matchResult.None? || !matchResult.value.Truthy() || matchResult.value.TempGears() == [] {
        return UploadImage, [];
      }
      if !formValid {
        return SavePresetForm, [];
      }
      var notFound;
      entries, notFound := NumberGears(matchResult.value.TempGears(), known);
      if notFound {
        return NotFound, entries;
      }
      matchResult := None;
      return ManagePresets, entries;
    }
  }

  /** How the gear loop of `edit_preset` ends: every entry stored, a
      `selected_gears` value that is not an integer (the `ValueError` of the
      id lookup, a server error), an id naming no gear (the 404), or an id
      already stored for the preset (the `IntegrityError` of
      `unique_together = ('preset', 'gear')`). */
  datatype EditOutcome = Updated | BadId | GearNotFound | DuplicateGear

  /** The `int()` conversion of each selected value, `None` where it raises. */
  function Lookups(selected: seq<string>): (r: seq<Option<int>>)
    ensures |r| == |selected|
  {
    seq(|selected|, j requires 0 <= j < |selected| => Text.ParseInt(selected[j]))
  }

  /** Why the loop stops at position `k` of the converted values, or `None`
      when the entry there is stored. */
  function StepFailure(vals: seq<Option<int>>, k: int, known: set<int>): Option<EditOutcome>
    requires 0 <= k < |vals|
  {
    match vals[k]
    case None => Some(BadId)
    case Some(id) =>
      if id !in known then Some(GearNotFound)
      else if Some(id) in vals[..k] then Some(DuplicateGear)
      else None
  }

  /** The first position at or after `k` where the loop stops. */
  function FirstFailure(vals: seq<Option<int>>, known: set<int>, k: nat): (r: Option<nat>)
    requires k <= |vals|
    ensures r.None? <==> forall j :: k <= j < |vals| ==> StepFailure(vals, j, known).None?
    ensures r.Some? ==> (k <= r.value < |vals| && StepFailure(vals, r.value, known).Some?
      && forall j :: k <= j < r.value ==> StepFailure(vals, j, known).None?)
    decreases |vals| - k
  {
    if k == |vals| then None
    else if StepFailure(vals, k, known).Some? then Some(k)
    else FirstFailure(vals, known, k + 1)
  }

  /** How many entries the loop stores. */
  function StoredCount(vals: seq<Option<int>>, known: set<int>): (n: nat)
    ensures n <= |vals|
    ensures forall j :: 0 <= j < n ==> StepFailure(vals, j, known).None?
    ensures n < |vals| ==> StepFailure(vals, n, known).Some?
  {
    match FirstFailure(vals, known, 0)
    case None => |vals|
    case Some(k) => k
  }

  /** The ids of converted values that are all integers. */
  function ParsedIds(vals: seq<Option<int>>): (r: seq<int>)
    requires forall j :: 0 <= j < |vals| ==> vals[j].Some?
    ensures |r| == |vals|
    ensures forall j :: 0 <= j < |vals| ==> vals[j] == Some(r[j])
  {
    seq(|vals|, j requires 0 <= j < |vals| => vals[j].value)
  }

  /** The values before the first failure are integers naming known gears,
      pairwise distinct: what `unique_together` admits. */
  lemma StoredPrefix(vals: seq<Option<int>>, known: set<int>, n: nat)
    requires n <= |vals|
    requires forall j :: 0 <= j < n ==> StepFailure(vals, j, known).None?
    ensures forall j :: 0 <= j < n ==> vals[j].Some?
    ensures NoDuplicates(ParsedIds(vals[..n]))
    ensures forall x :: x in ParsedIds(vals[..n]) ==> x in known
  {
    assert forall j :: 0 <= j < n ==> StepFailure(vals, j, known).None? && vals[..n][j] == vals[j];
    var ids := ParsedIds(vals[..n]);
    forall i, j | 0 <= i < j < n ensures ids[i] != ids[j] {
      assert StepFailure(vals, j, known).None?;
      assert vals[..j][i] == vals[i];
    }
  }

  /** The edit stores every entry exactly when all values are integers
      naming known gears and no two are equal. */
  lemma UpdatedIff(vals: seq<Option<int>>, known: set<int>)
    ensures FirstFailure(vals, known, 0).None? <==>
      && (forall j :: 0 <= j < |vals| ==> vals[j].Some? && vals[j].value in known)
      && (forall i, j :: 0 <= i < j < |vals| ==> vals[i] != vals[j])
  {
    if FirstFailure(vals, known, 0).None? {
      StoredPrefix(vals, known, |vals|);
      assert vals[..|vals|] == vals;
      var ids := ParsedIds(vals);
      forall i, j | 0 <= i < j < |vals| ensures vals[i] != vals[j] {
        assert ids[i] != ids[j];
      }
    } else {
      var k := FirstFailure(vals, known, 0).value;
      if vals[k].Some? && vals[k].value in known {
        var i :| 0 <= i < k && vals[..k][i] == vals[k];
        assert vals[i] == vals[k];
      }
    }
  }

  /** The gear loop of `edit_preset` over the converted values: each is
      looked up and stored with the next order number, until the first one
      that is not an integer, names no gear or repeats a stored gear. */
  method StoreGears(vals: seq<Option<int>>, known: set<int>) returns (entries: seq<PresetGear>, outcome: EditOutcome)
    ensures var f := FirstFailure(vals, known, 0);
      && (f.None? <==> outcome == Updated)
      && (f.Some? ==> outcome == StepFailure(vals, f.value, known).value)
    ensures var n := StoredCount(vals, known);
      (forall j :: 0 <= j < n ==> vals[j].Some?) && entries == Numbered(ParsedIds(vals[..n]))
    ensures forall i, j :: 0 <= i < j < |entries| ==> entries[i].gearId != entries[j].gearId
    ensures forall e :: e in entries ==> e.gearId in known
  {
    entries := [];
    ghost var ids: seq<int> := [];
    var stored: set<int> := {};
    var i := 0;
    while i < |vals|
      invariant 0 <= i <= |vals|
      invariant FirstFailure(vals, known, 0) == FirstFailure(vals, known, i)
      invariant forall j :: 0 <= j < i ==> StepFailure(vals, j, known).None? && vals[j].Some?
      invariant ids == ParsedIds(vals[..i]) && entries == Numbered(ids)
      invariant forall x :: x in stored <==> Some(x) in vals[..i]
      invariant NoDuplicates(ids) && forall x :: x in ids ==> x in known
    {
      var id := vals[i];
      if id.None? {
        return entries, BadId;
      }
      if id.value !in known {
        return entries, GearNotFound;
      }
      if id.value in stored {
        return entries, DuplicateGear;
      }
      assert StepFailure(vals, i, known).None?;
      assert vals[..i + 1] == vals[..i] + [id];
      entries := entries + [PresetGear(id.value, i + 1)];
      ids := ids + [id.value];
      stored := stored + {id.value};
      i := i + 1;
    }
    outcome := Updated;
  }

  /** `edit_preset` on a valid POST: the old entries are deleted and the
      selected values are stored again, numbered from 1, as far as the gear
      loop gets. */
  method EditPreset(selected: seq<string>, known: set<int>) returns (entries: seq<PresetGear>, outcome: EditOutcome)
    ensures var vals := Lookups(selected); var f := FirstFailure(vals, known, 0);
      && (f.None? <==> outcome == Updated)
      && (f.Some? ==> outcome == StepFailure(vals, f.value, known).value)
    ensures var vals := Lookups(selected); var n := StoredCount(vals, known);
      (forall j :: 0 <= j < n ==> vals[j].Some?) && entries == Numbered(ParsedIds(vals[..n]))
    ensures forall i, j :: 0 <= i < j < |entries| ==> entries[i].gearId != entries[j].gearId
    ensures forall e :: e in entries ==> e.gearId in known
  {
    var vals := Lookups(selected);
    entries, outcome := StoreGears(vals, known);
  }
}
