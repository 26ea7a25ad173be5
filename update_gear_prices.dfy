/**
 * The `update_gear_prices` management command
 * (APP01/management/commands/update_gear_prices.py): a three-tier price
 * lookup (exact model override, then the (brand, type) default, then the
 * ("", type) default) and the loop that counts, and with `--apply` writes,
 * the prices it finds.
 */
module PriceUpdate {
  import opened Wrappers

  /** The two market-research tables: prices by model name, and defaults by
      (brand, type), where brand "" holds a type-wide default. */
  datatype PriceTables = PriceTables(overrides: map<string, real>, defaults: map<(string, string), real>)

  /** `_get_price`: the first of the three tiers that knows the gear. */
  function GetPrice(name: string, brand: string, kind: string, t: PriceTables): (r: Option<real>)
    ensures name in t.overrides ==> r == Some(t.overrides[name])
    ensures name !in t.overrides && (brand, kind) in t.defaults ==> r == Some(t.defaults[(brand, kind)])
    ensures name !in t.overrides && (brand, kind) !in t.defaults && ("", kind) in t.defaults ==>
      r == Some(t.defaults[("", kind)])
    ensures r.None? <==> name !in t.overrides && (brand, kind) !in t.defaults && ("", kind) !in t.defaults
  {
    if name in t.overrides then Some(t.overrides[name])
    else if (brand, kind) in t.defaults then Some(t.defaults[(brand, kind)])
    else if ("", kind) in t.defaults then Some(t.defaults[("", kind)])
    else None
  }

  /** A gear row: identity and catalog fields are fixed, the price is updated in place. */
  class GamingGear {
    const gearId: int
    const name: string
    const brand: string
    const kind: string
    var price: Option<real>

    constructor (gearId: int, name: string, brand: string, kind: string, price: Option<real>)
      ensures this.gearId == gearId && this.name == name && this.brand == brand && this.kind == kind
      ensures this.price == price
    {
      this.gearId := gearId;
      this.name := name;
      this.brand := brand;
      this.kind := kind;
      this.price := price;
    }
  }

  function Lookup(g: GamingGear, t: PriceTables): Option<real> {
    GetPrice(g.name, g.brand, g.kind, t)
  }

  /** The rows the command processes: all of them with `--overwrite`,
      otherwise those whose price is null, in table order. */
  function Processed(table: seq<GamingGear>, overwrite: bool): (r: seq<GamingGear>)
    reads set g | g in table
    ensures overwrite ==> r == table
    ensures !overwrite ==> forall g :: g in r ==> g in table && g.price.None?
    ensures !overwrite ==> forall g :: g in table && g.price.None? ==> g in r
    ensures |r| <= |table|
  {
    if table == [] then []
    else
      var g := table[|table| - 1];
      var init := Processed(table[..|table| - 1], overwrite);
      assert table == table[..|table| - 1] + [g];
      if overwrite || g.price.None? then init + [g] else init
  }

  /** The processed rows for which a price is found, in processing order. */
  function Priced(gears: seq<GamingGear>, t: PriceTables): seq<GamingGear> {
    if gears == [] then []
    else Priced(gears[..|gears| - 1], t) + (if Lookup(gears[|gears| - 1], t).Some? then [gears[|gears| - 1]] else [])
  }

  /** `missing_items`: the processed rows for which no tier has a price. */
  function Unpriced(gears: seq<GamingGear>, t: PriceTables): seq<GamingGear> {
    if gears == [] then []
    else Unpriced(gears[..|gears| - 1], t) + (if Lookup(gears[|gears| - 1], t).None? then [gears[|gears| - 1]] else [])
  }

  /** Every processed row is counted exactly once, as updated or as missing,
      and the missing ones are exactly those without a price. */
  lemma {:induction false} PricedUnpricedPartition(gears: seq<GamingGear>, t: PriceTables)
    ensures |Priced(gears, t)| + |Unpriced(gears, t)| == |gears|
    ensures forall g :: g in Unpriced(gears, t) <==> g in gears && Lookup(g, t).None?
    ensures forall g :: g in Priced(gears, t) <==> g in gears && Lookup(g, t).Some?
  {
    if gears != [] {
      var init := gears[..|gears| - 1];
      PricedUnpricedPartition(init, t);
      assert forall h :: h in gears <==> h in init || h == gears[|gears| - 1];
    }
  }

  /** The counting and writing loop of `handle` over the rows already selected. */
  method UpdateAll(gears: seq<GamingGear>, t: PriceTables, apply: bool)
      returns (updated: nat, missing: nat, missingItems: seq<GamingGear>)
    modifies set g | g in gears
    ensures updated == |Priced(gears, t)| && missingItems == Unpriced(gears, t) && missing == |missingItems|
    ensures forall g :: g in gears && apply && Lookup(g, t).Some? ==> g.price == Lookup(g, t)
    ensures forall g :: g in gears && !(apply && Lookup(g, t).Some?) ==> g.price == old(g.price)
  {
    updated, missing, missingItems := 0, 0, [];
    var i := 0;
    while i < |gears|
      invariant 0 <= i <= |gears|
      invariant updated == |Priced(gears[..i], t)| && missingItems == Unpriced(gears[..i], t)
      invariant missing == |missingItems|
      invariant forall g :: g in gears[..i] && apply && Lookup(g, t).Some? ==> g.price == Lookup(g, t)
      invariant forall g :: g in gears && (g !in gears[..i] || !(apply && Lookup(g, t).Some?)) ==> g.price == old(g.price)
    {
      var gear := gears[i];
      assert gears[..i + 1][..i] == gears[..i];
      assert forall h :: h in gears[..i + 1] <==> h in gears[..i] || h == gear;
      var price := GetPrice(gear.name, gear.brand, gear.kind, t);
      if price.Some? {
        if apply {
          gear.price := price;
        }
        updated := updated + 1;
      } else {
        missing := missing + 1;
        missingItems := missingItems + [gear];
      }
      i := i + 1;
    }
    assert gears[..i] == gears;
  }

  /** `handle`: selects the rows, then looks up and (with `apply`) writes
      their prices; returns the `total`, `updated`, `missing` counters and
      the `missing_items` list it reports. */
  method Handle(table: seq<GamingGear>, t: PriceTables, apply: bool, overwrite: bool)
      returns (total: nat, updated: nat, missing: nat, missingItems: seq<GamingGear>)
    modifies set g | g in table
    ensures var gears := old(Processed(table, overwrite));
      && total == |gears| && updated + missing == total
      && missingItems == Unpriced(gears, t) && missing == |missingItems|
      && (forall g :: g in gears && apply && Lookup(g, t).Some? ==> g.price == Lookup(g, t))
      && (forall g :: g in gears && !(apply && Lookup(g, t).Some?) ==> g.price == old(g.price))
    ensures forall g :: g in table && !overwrite && old(g.price).Some? ==> g.price == old(g.price)
    ensures !apply ==> forall g :: g in table ==> g.price == old(g.price)
  {
    var gears := Processed(table, overwrite);
    total := |gears|;
    updated, missing, missingItems := UpdateAll(gears, t, apply);
    PricedUnpricedPartition(gears, t);
  }
}
