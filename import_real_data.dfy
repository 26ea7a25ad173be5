/**
 * The gear part of the `import_real_data` management command
 * (APP01/management/commands/import_real_data.py): reading a scraped item's
 * name, guessing its brand, writing a description from its specs, creating
 * or completing the gear row, and finding its picture in a directory listing.
 */
module ImportRealData {
  import opened Wrappers
  import opened Text

  /** A scraped JSON item, its values already rendered as text. */
  type Item = map<string, string>

  /** `item.get(key, default)`. */
  function Field(item: Item, key: string, default: string): string {
    if key in item then item[key] else default
  }

  /** `item.get('Name') or item.get('name')`: the first non-empty of the two,
      `None` when both are missing or empty (the item is then skipped). */
  function ItemName(item: Item): (r: Option<string>)
    ensures r.Some? ==> r.value != ""
    ensures r.None? <==> Field(item, "Name", "") == "" && Field(item, "name", "") == ""
    ensures "Name" in item && item["Name"] != "" ==> r == Some(item["Name"])
  {
    if "Name" in item && item["Name"] != "" then Some(item["Name"])
    else if "name" in item && item["name"] != "" then Some(item["name"])
    else None
  }

  /** `name.split(' ')[0]`: the text before the first space, or the whole
      name when it has none. */
  function FirstWord(name: string): (r: string)
    ensures StartsWith(name, r) && ' ' !in r
    ensures |r| < |name| ==> name[|r|] == ' '
  {
    if name == [] || name[0] == ' ' then []
    else [name[0]] + FirstWord(name[1..])
  }

  /** The `safe_name`: spaces become `_`, double and single quotes are dropped. */
  function SafeName(name: string): (r: string)
    ensures ' ' !in r && '"' !in r && '\'' !in r
    ensures |r| <= |name|
  {
    RemoveChar(RemoveChar(ReplaceChar(name, ' ', '_'), '"'), '\'')
  }

  /** The safe name is built character by character, so every character
      other than a quote is kept, in order. */
  lemma SafeNameAppend(a: string, b: string)
    ensures SafeName(a + b) == SafeName(a) + SafeName(b)
  {
    var ra := ReplaceChar(a, ' ', '_');
    var rb := ReplaceChar(b, ' ', '_');
    assert ReplaceChar(a + b, ' ', '_') == ra + rb;
    RemoveCharAppend(ra, rb, '"');
    RemoveCharAppend(RemoveChar(ra, '"'), RemoveChar(rb, '"'), '\'');
  }

  /** A quote is dropped, a space becomes `_`, any other character stays. */
  lemma SafeNameOne(x: char)
    ensures SafeName([x]) == if x == '"' || x == '\'' then [] else if x == ' ' then "_" else [x]
  {
    var d := ReplaceChar([x], ' ', '_');
    assert d == [if x == ' ' then '_' else x];
    RemoveCharOne(d[0], '"');
    if d[0] != '"' {
      RemoveCharOne(d[0], '\'');
    }
  }

  /** A safe name is its own safe name. */
  lemma SafeNameIdempotent(name: string)
    ensures SafeName(SafeName(name)) == SafeName(name)
  {
    var s := SafeName(name);
    assert ReplaceChar(s, ' ', '_') == s;
    RemoveAbsent(s, '"');
    RemoveAbsent(s, '\'');
  }

  /** The file-name test of `find_image`, case-insensitive. */
  predicate Matches(file: string, name: string) {
    StartsWith(Lower(file), Lower(name)) || StartsWith(Lower(file), Lower(SafeName(name)))
  }

  /** The first listed file that matches; `None` for a missing directory or no match. */
  function FirstMatch(listing: Option<seq<string>>, name: string): (r: Option<string>)
    ensures listing.None? ==> r.None?
    ensures r.None? && listing.Some? ==> forall f :: f in listing.value ==> !Matches(f, name)
    ensures r.Some? ==> listing.Some? && r.value in listing.value && Matches(r.value, name)
    decreases if listing.Some? then |listing.value| else 0
  {
    match listing
    case None => None
    case Some(files) =>
      if files == [] then None
      else if Matches(files[0], name) then Some(files[0])
      else
        assert forall f :: f in files ==> f == files[0] || f in files[1..];
        FirstMatch(Some(files[1..]), name)
  }

  /** The file found is preceded in the listing only by files that do not match. */
  lemma {:induction false} FirstMatchIsFirst(files: seq<string>, name: string, i: nat)
    requires i < |files| && FirstMatch(Some(files), name) == Some(files[i])
    ensures exists k :: 0 <= k <= i && files[k] == files[i] && forall j :: 0 <= j < k ==> !Matches(files[j], name)
  {
    if !Matches(files[0], name) {
      assert files[0] != files[i];
      FirstMatchIsFirst(files[1..], name, i - 1);
      var k :| 0 <= k <= i - 1 && files[1..][k] == files[1..][i - 1]
        && forall j :: 0 <= j < k ==> !Matches(files[1..][j], name);
      forall j | 0 <= j < k + 1 ensures !Matches(files[j], name) {
        if j > 0 {
          assert files[j] == files[1..][j - 1];
        }
      }
      assert files[k + 1] == files[i];
    } else {
      assert files[0] == files[i];
    }
  }

  /** `find_image`: the loop over the directory listing with its early return. */
  method FindImage(listing: Option<seq<string>>, name: string) returns (r: Option<string>)
    ensures r == FirstMatch(listing, name)
    ensures r.Some? ==> Matches(r.value, name) && r.value in listing.value
    ensures r.None? ==> listing.None? || forall f :: f in listing.value ==> !Matches(f, name)
  {
    if listing.None? {
      return None;
    }
    var files := listing.value;
    var i := 0;
    while i < |files|
      invariant 0 <= i <= |files|
      invariant FirstMatch(listing, name) == FirstMatch(Some(files[i..]), name)
    {
      if Matches(files[i], name) {
        return Some(files[i]);
      }
      assert files[i..][1..] == files[i + 1..];
      i := i + 1;
    }
    return None;
  }

  /** A text placed between a prefix and a suffix occurs in the whole. */
  lemma ContainsMiddle(prefix: string, x: string, rest: string)
    ensures Contains(prefix + x + rest, x)
  {
    var r := prefix + x + rest;
    assert r[|prefix|..|prefix| + |x|] == x;
    ContainsAt(r, x, |prefix|);
  }

  function MouseDescription(item: Item): (r: string)
    ensures Contains(r, Field(item, "Sensor", "High-performance optical sensor"))
  {
    var sensor := Field(item, "Sensor", "High-performance optical sensor");
    var rest := " sensor with up to " + Field(item, "Max DPI", "20000") + " DPI. "
      + "Designed with a " + Lower(Field(item, "Shape", "ergonomic")) + " shape and weighing only "
      + Field(item, "Weight", "lightweight") + "g, "
      + "this mouse delivers precision and comfort for competitive gaming.";
    ContainsMiddle("Professional gaming mouse featuring ", sensor, rest);
    "Professional gaming mouse featuring " + sensor + rest
  }

  function KeyboardDescription(item: Item): (r: string)
    ensures Contains(r, Field(item, "Switches", "mechanical switches"))
  {
    var switches := Field(item, "Switches", "mechanical switches");
    var rest := ". Built for esports professionals, offering fast response times and durability for intense gaming sessions.";
    ContainsMiddle("High-performance gaming keyboard equipped with ", switches, rest);
    "High-performance gaming keyboard equipped with " + switches + rest
  }

  function HeadsetDescription(item: Item): (r: string)
    ensures Contains(r, Field(item, "Driver Size (mm)", "premium drivers"))
  {
    var driver := Field(item, "Driver Size (mm)", "premium drivers");
    var rest := "mm drivers delivering immersive audio. "
      + "Features " + Field(item, "Connection", "multi-platform") + " connectivity for versatile gaming setups.";
    ContainsMiddle("Premium gaming headset with ", driver, rest);
    "Premium gaming headset with " + driver + rest
  }

  function MonitorDescription(item: Item): (r: string)
    ensures Contains(r, Field(item, "Max Refresh Rate (Hz)", "high refresh rate"))
  {
    var refresh := Field(item, "Max Refresh Rate (Hz)", "high refresh rate");
    var rest := "Hz refresh rate and " + Field(item, "Resolution", "high resolution") + " "
      + Field(item, "Panel Type", "gaming-grade panel") + ". "
      + "Engineered for competitive gaming with fast response times and smooth visuals.";
    ContainsMiddle("Professional gaming monitor with ", refresh, rest);
    "Professional gaming monitor with " + refresh + rest
  }

  function MousepadDescription(item: Item): (r: string)
    ensures Contains(r, Lower(Field(item, "Surface", "optimized gaming surface")))
  {
    var surface := Lower(Field(item, "Surface", "optimized gaming surface"));
    var rest := ". " + Field(item, "Size", "large") + " size provides ample space for low-sensitivity gaming.";
    ContainsMiddle("Professional gaming mousepad with ", surface, rest);
    "Professional gaming mousepad with " + surface + rest
  }

  function ChairDescription(item: Item): (r: string)
    ensures Contains(r, Lower(Field(item, "Material", "premium materials")))
  {
    var material := Lower(Field(item, "Material", "premium materials"));
    var rest := ". Designed for extended gaming sessions with optimal support and comfort.";
    ContainsMiddle("Ergonomic gaming chair crafted with ", material, rest);
    "Ergonomic gaming chair crafted with " + material + rest
  }

  /** The template for any other category names it in lower case. */
  function GenericDescription(category: string): (r: string)
    ensures Contains(r, Lower(category))
  {
    var rest := " designed for competitive gaming. "
      + "Features high-quality components and construction for peak performance.";
    ContainsMiddle("Professional ", Lower(category), rest);
    "Professional " + Lower(category) + rest
  }

  /** The six categories with a dedicated description template. */
  const KnownCategories: set<string> := {"Mouse", "Keyboard", "Headset", "Monitor", "Mousepad", "Chair"}

  /** The spec value each template is built around: the mouse sensor, the
      keyboard switches, the headset driver size, the monitor refresh rate,
      the mousepad surface, the chair material, or the category itself. */
  function MentionedSpec(category: string, item: Item): string {
    if category == "Mouse" then Field(item, "Sensor", "High-performance optical sensor")
    else if category == "Keyboard" then Field(item, "Switches", "mechanical switches")
    else if category == "Headset" then Field(item, "Driver Size (mm)", "premium drivers")
    else if category == "Monitor" then Field(item, "Max Refresh Rate (Hz)", "high refresh rate")
    else if category == "Mousepad" then Lower(Field(item, "Surface", "optimized gaming surface"))
    else if category == "Chair" then Lower(Field(item, "Material", "premium materials"))
    else Lower(category)
  }

  /** `generate_description`: the category's template, filled with the item's
      spec values or the template's defaults; the generic template for any
      other category. */
  function GenerateDescription(category: string, item: Item): (r: string)
    ensures Contains(r, MentionedSpec(category, item))
    ensures category !in KnownCategories ==> r == GenericDescription(category)
  {
    if category == "Mouse" then MouseDescription(item)
    else if category == "Keyboard" then KeyboardDescription(item)
    else if category == "Headset" then HeadsetDescription(item)
    else if category == "Monitor" then MonitorDescription(item)
    else if category == "Mousepad" then MousepadDescription(item)
    else if category == "Chair" then ChairDescription(item)
    else GenericDescription(category)
  }

  /** A gear row as the import writes it; `image` is "" when no picture is attached. */
  datatype GearRow = GearRow(kind: string, brand: string, description: string, specs: Item, image: string)

  /** The row `get_or_create` returns for `name`, after the description fill
      and the picture step: a new row for a new name, otherwise the existing
      row with an empty description filled and a missing picture attached. */
  function UpsertRow(existing: Option<GearRow>, name: string, category: string, item: Item,
                     description: string, image: Option<string>): (row: GearRow)
    ensures existing.None? ==> row.kind == category && row.brand == FirstWord(name) && row.specs == item
    ensures existing.None? ==> row.description == description && row.image == image.GetOr("")
    ensures existing.Some? ==> row.kind == existing.value.kind && row.brand == existing.value.brand
    ensures existing.Some? && existing.value.description != "" ==> row.description == existing.value.description
    ensures existing.Some? && existing.value.description == "" ==> row.description == description
    ensures existing.Some? && existing.value.image != "" ==> row.image == existing.value.image
    ensures existing.Some? && existing.value.image == "" ==> row.image == image.GetOr("")
    ensures existing.Some? ==> row.specs == existing.value.specs
  {
    var row :=
      if existing.None? then GearRow(category, FirstWord(name), description, item, "")
      else if existing.value.description == "" then existing.value.(description := description)
      else existing.value;
    if image.Some? && (existing.None? || row.image == "") then row.(image := image.value) else row
  }

  /** One item of `import_gear`: skip it without a name; otherwise get or
      create the row by name and update it. */
  function ImportItem(rows: map<string, GearRow>, category: string, item: Item, listing: Option<seq<string>>)
    : (r: map<string, GearRow>)
    ensures ItemName(item).None? ==> r == rows
    ensures ItemName(item).Some? ==> r.Keys == rows.Keys + {ItemName(item).value}
    ensures forall n :: n in rows && Some(n) != ItemName(item) ==> r[n] == rows[n]
    ensures ItemName(item).Some? ==>
      var name := ItemName(item).value;
      r[name] == UpsertRow(if name in rows then Some(rows[name]) else None, name, category, item,
                           GenerateDescription(category, item), FirstMatch(listing, name))
    ensures forall n :: n in rows ==> r[n].kind == rows[n].kind && r[n].brand == rows[n].brand
    ensures forall n :: n in rows && rows[n].description != "" ==> r[n].description == rows[n].description
    ensures forall n :: n in r && n !in rows ==> r[n].kind == category && r[n].brand == FirstWord(n)
  {
    match ItemName(item)
    case None => rows
    case Some(name) =>
      var existing := if name in rows then Some(rows[name]) else None;
      var row := UpsertRow(existing, name, category, item, GenerateDescription(category, item),
                           FirstMatch(listing, name));
      assert name in rows ==>
        && row.kind == rows[name].kind && row.brand == rows[name].brand
        && (rows[name].description != "" ==> row.description == rows[name].description);
      rows[name := row]
  }

  /** The items of one category file, in file order. */
  function ImportItems(rows: map<string, GearRow>, category: string, items: seq<Item>, listing: Option<seq<string>>)
    : map<string, GearRow>
    decreases |items|
  {
    if items == [] then rows
    else ImportItems(ImportItem(rows, category, items[0], listing), category, items[1..], listing)
  }

  /** Rows that existed keep their type and brand, and a non-empty description;
      an empty description becomes non-empty only by being filled. Created
      rows carry the category and the guessed brand. */
  lemma {:induction false} ImportedRows(rows: map<string, GearRow>, category: string, items: seq<Item>,
                                         listing: Option<seq<string>>)
    ensures var r := ImportItems(rows, category, items, listing);
      && rows.Keys <= r.Keys
      && (forall n :: n in rows ==> r[n].kind == rows[n].kind && r[n].brand == rows[n].brand)
      && (forall n :: n in rows && rows[n].description != "" ==> r[n].description == rows[n].description)
      && (forall n :: n in r && n !in rows ==> r[n].kind == category && r[n].brand == FirstWord(n))
    decreases |items|
  {
    if items != [] {
      var next := ImportItem(rows, category, items[0], listing);
      ImportedRows(next, category, items[1..], listing);
      assert ImportItems(rows, category, items, listing) == ImportItems(next, category, items[1..], listing);
    }
  }

  /** The names of the items that have one. */
  function NamesOf(items: seq<Item>): (r: set<string>)
    ensures forall i :: 0 <= i < |items| && ItemName(items[i]).Some? ==> ItemName(items[i]).value in r
    ensures forall n :: n in r ==> exists i :: 0 <= i < |items| && ItemName(items[i]) == Some(n)
  {
    if items == [] then {}
    else
      var rest := NamesOf(items[1..]);
      assert forall i :: 1 <= i < |items| ==> items[i] == items[1..][i - 1];
      assert forall n :: n in rest ==> exists i :: 0 <= i < |items| && ItemName(items[i]) == Some(n) by {
        forall n | n in rest ensures exists i :: 0 <= i < |items| && ItemName(items[i]) == Some(n) {
          var i :| 0 <= i < |items[1..]| && ItemName(items[1..][i]) == Some(n);
          assert items[i + 1] == items[1..][i];
        }
      }
      (if ItemName(items[0]).Some? then {ItemName(items[0]).value} else {}) + rest
  }

  /** Exactly the named items end up as rows, next to the rows already there. */
  lemma {:induction false} ImportedNames(rows: map<string, GearRow>, category: string, items: seq<Item>,
                                         listing: Option<seq<string>>)
    ensures ImportItems(rows, category, items, listing).Keys == rows.Keys + NamesOf(items)
    decreases |items|
  {
    if items != [] {
      var next := ImportItem(rows, category, items[0], listing);
      ImportedNames(next, category, items[1..], listing);
    }
  }

  /** The gear table the command writes to, keyed by name (`get_or_create(name=...)`). */
  class GearTable {
    var rows: map<string, GearRow>

    constructor (rows: map<string, GearRow>)
      ensures this.rows == rows
    {
      this.rows := rows;
    }

    /** The loop of `import_gear` over one category file's items. */
    method ImportGear(category: string, items: seq<Item>, listing: Option<seq<string>>)
      modifies this
      ensures rows == ImportItems(old(rows), category, items, listing)
    {
      var i := 0;
      while i < |items|
        invariant 0 <= i <= |items|
        invariant ImportItems(rows, category, items[i..], listing) == ImportItems(old(rows), category, items, listing)
      {
        var item := items[i];
        var name := ItemName(item);
        if name.Some? {
          var description := GenerateDescription(category, item);
          var created := name.value !in rows;
          var row: GearRow;
          if created {
            row := GearRow(category, FirstWord(name.value), description, item, "");
          } else {
            row := rows[name.value];
            if row.description == "" {
              row := row.(description := description);
            }
          }
          var image := FindImage(listing, name.value);
          if image.Some? && (created || row.image == "") {
            row := row.(image := image.value);
          }
          rows := rows[name.value := row];
        }
        assert items[i..][1..] == items[i + 1..];
        i := i + 1;
      }
    }
  }
}
