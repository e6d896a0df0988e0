/**
 * The appliance registry: the ordered table of appliance names and their
 * rated wattage. Its order is the tie-break order of attribution.
 */
module Registry {
  import opened Wrappers
  import opened Seqs

  /** One table entry: an appliance name and its rated watts. */
  datatype Rating = Rating(name: string, watts: int)

  /** The `wattage` table, in declaration order. */
  const Wattage: seq<Rating> := [
    Rating("AC 1", 1850),
    Rating("AC 2", 1510),
    Rating("Fan 1", 65),
    Rating("Fan 2", 65),
    Rating("Fan 3", 65),
    Rating("Fan 4", 65),
    Rating("Exhaust 1", 50),
    Rating("Exhaust 2", 50),
    Rating("Blower 1", 200)
  ]

  /** The registered names, in table order. */
  function Names(): (names: seq<string>)
    ensures |names| == |Wattage|
    ensures forall i :: 0 <= i < |Wattage| ==> names[i] == Wattage[i].name
  {
    seq(|Wattage|, i requires 0 <= i < |Wattage| => Wattage[i].name)
  }

  predicate Registered(name: string) {
    name in Names()
  }

  /** The rating of `name` among the entries from position `k` on. */
  function LookupFrom(name: string, k: nat): (r: Option<int>)
    requires k <= |Wattage|
    decreases |Wattage| - k
    ensures r.None? <==> forall i :: k <= i < |Wattage| ==> Wattage[i].name != name
    ensures r.Some? ==> exists i :: k <= i < |Wattage| && Wattage[i] == Rating(name, r.value)
  {
    if k == |Wattage| then None
    else if Wattage[k].name == name then Some(Wattage[k].watts)
    else LookupFrom(name, k + 1)
  }

  /** `wattage[name]`: the rated watts of a registered name; None for any other name, where indexing would raise. */
  function Lookup(name: string): (r: Option<int>)
    ensures r.Some? <==> Registered(name)
    ensures r.Some? ==> Rating(name, r.value) in Wattage && r.value > 0
  {
    LookupFrom(name, 0)
  }

  /** `wattage[name]`, which the source only evaluates for registered names. */
  function Watts(name: string): (w: int)
    requires Registered(name)
    ensures w > 0 && Rating(name, w) in Wattage
  {
    Lookup(name).value
  }

  /** The table has nine entries with distinct names and positive ratings. */
  lemma WattageWellFormed()
    ensures |Wattage| == 9
    ensures Distinct(Names())
    ensures forall i :: 0 <= i < |Wattage| ==> Wattage[i].watts > 0
  {
    var names := Names();
    assert names == ["AC 1", "AC 2", "Fan 1", "Fan 2", "Fan 3", "Fan 4", "Exhaust 1", "Exhaust 2", "Blower 1"];
    forall i, j | 0 <= i < j < |names| ensures names[i] != names[j] {
      if |names[i]| == |names[j]| {
        var k := |names[i]| - 1;
        assert names[i][k] != names[j][k];
      }
    }
  }

  /** Looking up a table entry's name gives that entry's rating. */
  lemma LookupTable()
    ensures forall i :: 0 <= i < |Wattage| ==> Lookup(Wattage[i].name) == Some(Wattage[i].watts)
  {
    WattageWellFormed();
    var names := Names();
    forall i | 0 <= i < |Wattage| ensures Lookup(Wattage[i].name) == Some(Wattage[i].watts) {
      var r := Lookup(Wattage[i].name);
      assert names[i] == Wattage[i].name;
      var k :| 0 <= k < |Wattage| && Wattage[k] == Rating(Wattage[i].name, r.value);
      assert names[k] == names[i];
    }
  }
}
