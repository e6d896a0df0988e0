/**
 * Energy allocator: walks adjacent pairs of readings and splits each
 * interval's energy among the earlier reading's active appliances in
 * proportion to their rated wattage (left-endpoint rectangle rule).
 */
module Allocator {
  import opened Seqs
  import opened Registry
  import opened Annotator

  /** One key of `consumption` with its accumulated watt-hours. */
  datatype Share = Share(appliance: string, wh: real)

  // The insertion-ordered `defaultdict(float)` of totals.

  /** The keys, in insertion order. */
  function Keys(m: seq<Share>): (keys: seq<string>)
    ensures |keys| == |m|
    ensures forall i :: 0 <= i < |m| ==> keys[i] == m[i].appliance
  {
    if m == [] then [] else [m[0].appliance] + Keys(m[1..])
  }

  /** `consumption[a]`, which reads 0.0 for a missing key. */
  function Get(m: seq<Share>, a: string): real {
    if m == [] then 0.0
    else if m[0].appliance == a then m[0].wh
    else Get(m[1..], a)
  }

  /** The sum of all stored values. */
  function Total(m: seq<Share>): real {
    if m == [] then 0.0 else m[0].wh + Total(m[1..])
  }

  /** `consumption[a] += e`: a new key goes last, starting from 0.0. */
  function AddTo(m: seq<Share>, a: string, e: real): (r: seq<Share>)
    ensures Keys(r) == if a in Keys(m) then Keys(m) else Keys(m) + [a]
    ensures forall b :: Get(r, b) == if b == a then Get(m, b) + e else Get(m, b)
    ensures a in Keys(m) ==> Total(r) == Total(m) + e
  {
    if m == [] then [Share(a, 0.0 + e)]
    else if m[0].appliance == a then [Share(a, m[0].wh + e)] + m[1..]
    else
      var rest := AddTo(m[1..], a, e);
      assert ([m[0]] + rest)[1..] == rest;
      [m[0]] + rest
  }

  /** The sum of the stored values goes up by exactly what is added, even under a new key. */
  lemma {:induction false} AddToTotal(m: seq<Share>, a: string, e: real)
    ensures Total(AddTo(m, a, e)) == Total(m) + e
  {
    if m != [] && m[0].appliance != a {
      AddToTotal(m[1..], a, e);
    }
  }

  // One interval.

  /** Every name in the list has a rating, so `wattage[a]` is defined for each. */
  predicate AllRated(names: seq<string>) {
    forall a :: a in names ==> Registered(a)
  }

  /** `sum(wattage[a] for a in names)`. */
  function RatedSum(names: seq<string>): (w: int)
    requires AllRated(names)
    ensures names == [] ==> w == 0
    ensures names != [] ==> w > 0
  {
    if names == [] then 0 else RatedSum(names[..|names| - 1]) + Watts(names[|names| - 1])
  }

  /** The interval length in hours: `(t1 - t0).total_seconds() / 3600`. */
  function Hours(t0: int, t1: int): real {
    (t1 - t0) as real / 3600.0
  }

  /** `w / total_watts` in true division. */
  function Ratio(w: int, totalWatts: int): real
    requires totalWatts > 0
  {
    w as real / totalWatts as real
  }

  /** An active appliance's share of the interval: `wattage[a] / total_watts`. */
  function ShareOf(a: string, totalWatts: int): real
    requires Registered(a) && totalWatts > 0
  {
    Ratio(Watts(a), totalWatts)
  }

  /** What one active appliance receives: `share * power * duration`. */
  function Portion(share: real, power: real, hours: real): real {
    share * power * hours
  }

  /** The energy of a constant-power interval: power times hours. */
  function Energy(power: real, hours: real): real {
    power * hours
  }

  /** The effect of the inner `for appliance in t0["active"]` loop of app.py, over `names`. */
  function Credit(m: seq<Share>, names: seq<string>, totalWatts: int, power: real, hours: real): seq<Share>
    requires AllRated(names)
    requires totalWatts > 0
  {
    if names == [] then m
    else
      var a := names[|names| - 1];
      AddTo(Credit(m, names[..|names| - 1], totalWatts, power, hours), a, Portion(ShareOf(a, totalWatts), power, hours))
  }

  /** The effect of the pair (`t0`, `t1`) on the totals. */
  function Interval(m: seq<Share>, t0: Reading, t1: Reading): seq<Share>
    requires AllRated(t0.active)
  {
    if t0.active == [] then m
    else Credit(m, t0.active, RatedSum(t0.active), t0.power, Hours(t0.at, t1.at))
  }

  // The pairwise loop.

  /** Every reading but the last, whose list the loop never reads, names only registered appliances. */
  predicate Rated(rs: seq<Reading>) {
    forall i :: 0 <= i < |rs| - 1 ==> AllRated(rs[i].active)
  }

  lemma RatedPrefix(rs: seq<Reading>, k: nat)
    requires Rated(rs) && k <= |rs|
    ensures Rated(rs[..k])
  {
    assert forall i :: 0 <= i < k ==> rs[..k][i] == rs[i];
  }

  /** `consumption` after the whole sequence of readings. */
  function Allocation(rs: seq<Reading>): seq<Share>
    requires Rated(rs)
  {
    if |rs| < 2 then []
    else
      var p := rs[..|rs| - 1];
      assert forall i :: 0 <= i < |p| ==> p[i] == rs[i];
      Interval(Allocation(p), rs[|rs| - 2], rs[|rs| - 1])
  }

  /** The inner loop of app.py's step 5: credit each active appliance its share of the interval. */
  method CreditActive(consumption: seq<Share>, active: seq<string>, totalWatts: int, power: real, duration: real)
    returns (updated: seq<Share>)
    requires AllRated(active)
    requires totalWatts > 0
    ensures updated == Credit(consumption, active, totalWatts, power, duration)
  {
    updated := consumption;
    for j := 0 to |active|
      invariant updated == Credit(consumption, active[..j], totalWatts, power, duration)
    {
      assert active[..j + 1][..j] == active[..j];
      var appliance := active[j];
      var share := ShareOf(appliance, totalWatts);
      updated := AddTo(updated, appliance, Portion(share, power, duration));
    }
    assert active[..|active|] == active;
  }

  /** One pass of the pairwise loop: the prefix ending at reading `i` adds the interval (`i - 1`, `i`). */
  lemma AllocationStep(rs: seq<Reading>, i: int)
    requires Rated(rs) && 1 <= i < |rs|
    ensures Rated(rs[..i]) && Rated(rs[..i + 1])
    ensures AllRated(rs[i - 1].active)
    ensures Allocation(rs[..i + 1]) == Interval(Allocation(rs[..i]), rs[i - 1], rs[i])
  {
    RatedPrefix(rs, i);
    RatedPrefix(rs, i + 1);
    var prefix := rs[..i + 1];
    assert prefix[..i] == rs[..i];
    assert prefix[i - 1] == rs[i - 1] && prefix[i] == rs[i];
  }

  /** One pass of the pairwise loop of app.py's step 5, for one pair of consecutive readings. */
  method CreditInterval(consumption: seq<Share>, t0: Reading, t1: Reading) returns (updated: seq<Share>)
    requires AllRated(t0.active)
    ensures updated == Interval(consumption, t0, t1)
  {
    updated := consumption;
    var duration := Hours(t0.at, t1.at);
    if t0.active != [] {
      var totalWatts := RatedSum(t0.active);
      updated := CreditActive(consumption, t0.active, totalWatts, t0.power, duration);
    }
  }

  /** Step 5 of the handler: accumulate every interval's shares. */
  method Allocate(powerRecords: seq<Reading>) returns (consumption: seq<Share>)
    requires Rated(powerRecords)
    ensures consumption == Allocation(powerRecords)
  {
    consumption := [];
    var i := 1;
    if powerRecords != [] {
      RatedPrefix(powerRecords, 1);
    }
    while i < |powerRecords|
      invariant powerRecords == [] ==> consumption == []
      invariant powerRecords != [] ==> 1 <= i <= |powerRecords| && Rated(powerRecords[..i])
      invariant powerRecords != [] ==> consumption == Allocation(powerRecords[..i])
    {
      AllocationStep(powerRecords, i);
      consumption := CreditInterval(consumption, powerRecords[i - 1], powerRecords[i]);
      i := i + 1;
    }
    assert powerRecords != [] ==> powerRecords[..i] == powerRecords;
  }

  // Conservation.

  /** Crediting a list adds the list's summed rating over `totalWatts` as one share. */
  lemma {:induction false} CreditTotal(m: seq<Share>, names: seq<string>, totalWatts: int, power: real, hours: real)
    requires AllRated(names)
    requires totalWatts > 0
    ensures Total(Credit(m, names, totalWatts, power, hours))
      == Total(m) + Portion(Ratio(RatedSum(names), totalWatts), power, hours)
  {
    if names == [] {
      ZeroShare(totalWatts, power, hours);
    } else {
      var p, a := names[..|names| - 1], names[|names| - 1];
      var before := Credit(m, p, totalWatts, power, hours);
      var e := Portion(ShareOf(a, totalWatts), power, hours);
      CreditTotal(m, p, totalWatts, power, hours);
      AddToTotal(before, a, e);
      SharesAdd(RatedSum(p), Watts(a), RatedSum(names), totalWatts, power, hours);
    }
  }

  lemma ZeroShare(totalWatts: int, power: real, hours: real)
    requires totalWatts > 0
    ensures Portion(Ratio(0, totalWatts), power, hours) == 0.0
  {
  }

  lemma SharesAdd(s: int, w: int, sw: int, totalWatts: int, power: real, hours: real)
    requires totalWatts > 0 && sw == s + w
    ensures Portion(Ratio(s, totalWatts), power, hours) + Portion(Ratio(w, totalWatts), power, hours)
      == Portion(Ratio(sw, totalWatts), power, hours)
  {
    var T := totalWatts as real;
    assert s as real / T + w as real / T == sw as real / T;
  }

  lemma SharesOfAll(totalWatts: int, power: real, hours: real)
    requires totalWatts > 0
    ensures Portion(Ratio(totalWatts, totalWatts), power, hours) == Energy(power, hours)
  {
  }

  /**
   * Conservation per interval: when the earlier reading has an active
   * appliance the shares sum to 1, so the pair adds exactly
   * `t0.power * duration` over all appliances.
   */
  lemma IntervalConservation(m: seq<Share>, t0: Reading, t1: Reading)
    requires AllRated(t0.active)
    requires t0.active != []
    ensures Total(Interval(m, t0, t1)) == Total(m) + Energy(t0.power, Hours(t0.at, t1.at))
  {
    var T := RatedSum(t0.active);
    CreditTotal(m, t0.active, T, t0.power, Hours(t0.at, t1.at));
    SharesOfAll(T, t0.power, Hours(t0.at, t1.at));
  }

  /** The energy of the intervals whose earlier reading has an active appliance. */
  function Accounted(rs: seq<Reading>): real {
    if |rs| < 2 then 0.0
    else
      var t0, t1 := rs[|rs| - 2], rs[|rs| - 1];
      Accounted(rs[..|rs| - 1]) + (if t0.active == [] then 0.0 else Energy(t0.power, Hours(t0.at, t1.at)))
  }

  /** Over the whole run, the totals add up to the accounted energy; idle intervals go unaccounted. */
  lemma {:induction false} AllocationConservation(rs: seq<Reading>)
    requires Rated(rs)
    ensures Total(Allocation(rs)) == Accounted(rs)
  {
    if |rs| >= 2 {
      var p := rs[..|rs| - 1];
      assert forall i :: 0 <= i < |p| ==> p[i] == rs[i];
      AllocationConservation(p);
      if rs[|rs| - 2].active != [] {
        IntervalConservation(Allocation(p), rs[|rs| - 2], rs[|rs| - 1]);
      }
    }
  }

  // What each appliance receives.

  /** Crediting a list without repeats adds each listed appliance's portion once and leaves the rest. */
  lemma {:induction false} CreditGet(m: seq<Share>, names: seq<string>, totalWatts: int, power: real, hours: real, b: string)
    requires AllRated(names)
    requires totalWatts > 0
    requires Distinct(names)
    ensures b !in names ==> Get(Credit(m, names, totalWatts, power, hours), b) == Get(m, b)
    ensures b in names ==>
      Get(Credit(m, names, totalWatts, power, hours), b) == Get(m, b) + Portion(ShareOf(b, totalWatts), power, hours)
  {
    if names != [] {
      var p := names[..|names| - 1];
      assert Distinct(p);
      CreditGet(m, p, totalWatts, power, hours, b);
    }
  }

  /**
   * In a pair whose earlier reading has active appliances (listed without
   * repeats), each of them receives `wattage[a] / total_watts * power *
   * duration` and every other appliance keeps its total.
   */
  lemma IntervalShare(m: seq<Share>, t0: Reading, t1: Reading, b: string)
    requires AllRated(t0.active)
    requires Distinct(t0.active)
    ensures b !in t0.active ==> Get(Interval(m, t0, t1), b) == Get(m, b)
    ensures b in t0.active ==>
      Get(Interval(m, t0, t1), b) == Get(m, b) + Portion(ShareOf(b, RatedSum(t0.active)), t0.power, Hours(t0.at, t1.at))
  {
    if t0.active != [] {
      CreditGet(m, t0.active, RatedSum(t0.active), t0.power, Hours(t0.at, t1.at), b);
    }
  }

  /** Every reading but the last lists its active appliances without repeats. */
  predicate DistinctLists(rs: seq<Reading>) {
    forall i :: 0 <= i < |rs| - 1 ==> Distinct(rs[i].active)
  }

  /** Appliance `a`'s energy: the sum, over the pairs where `a` is active at the earlier reading, of its portion. */
  function EnergyOf(rs: seq<Reading>, a: string): real
    requires Rated(rs)
  {
    if |rs| < 2 then 0.0
    else
      var p, t0, t1 := rs[..|rs| - 1], rs[|rs| - 2], rs[|rs| - 1];
      RatedPrefix(rs, |rs| - 1);
      EnergyOf(p, a)
        + (if a in t0.active then Portion(ShareOf(a, RatedSum(t0.active)), t0.power, Hours(t0.at, t1.at)) else 0.0)
  }

  /** The accumulated total of every appliance is its energy summed interval by interval. */
  lemma {:induction false} AllocationPerAppliance(rs: seq<Reading>, a: string)
    requires Rated(rs) && DistinctLists(rs)
    ensures Get(Allocation(rs), a) == EnergyOf(rs, a)
  {
    if |rs| >= 2 {
      var p := rs[..|rs| - 1];
      assert forall i :: 0 <= i < |p| ==> p[i] == rs[i];
      RatedPrefix(rs, |rs| - 1);
      AllocationPerAppliance(p, a);
      IntervalShare(Allocation(p), rs[|rs| - 2], rs[|rs| - 1], a);
    }
  }

  // Keys of the result.

  /** The active lists of every reading but the last, concatenated in order. */
  function ActiveTrail(rs: seq<Reading>): seq<string> {
    if |rs| < 2 then [] else ActiveTrail(rs[..|rs| - 1]) + rs[|rs| - 2].active
  }

  /** Crediting extends the key order by the credited names, each where it first appears. */
  lemma {:induction false} CreditKeys(m: seq<Share>, names: seq<string>, totalWatts: int, power: real, hours: real, k: seq<string>)
    requires AllRated(names)
    requires totalWatts > 0
    requires Keys(m) == Dedup(k)
    ensures Keys(Credit(m, names, totalWatts, power, hours)) == Dedup(k + names)
  {
    if names == [] {
      assert k + names == k;
    } else {
      var q, a := names[..|names| - 1], names[|names| - 1];
      CreditKeys(m, q, totalWatts, power, hours, k);
      var before, e := Credit(m, q, totalWatts, power, hours), Portion(ShareOf(a, totalWatts), power, hours);
      assert Credit(m, names, totalWatts, power, hours) == AddTo(before, a, e);
      KeysAddTo(before, a, e, k + q);
      ConcatLast(k, names);
    }
  }

  /** Adding to a key extends a first-occurrence key order by that key. */
  lemma KeysAddTo(m: seq<Share>, a: string, e: real, k: seq<string>)
    requires Keys(m) == Dedup(k)
    ensures Keys(AddTo(m, a, e)) == Dedup(k + [a])
  {
    assert (k + [a])[..|k|] == k;
  }

  /** The result's keys are the appliances of the active trail, in order of first appearance. */
  lemma {:induction false} AllocationKeys(rs: seq<Reading>)
    requires Rated(rs)
    ensures Keys(Allocation(rs)) == Dedup(ActiveTrail(rs))
  {
    if |rs| >= 2 {
      var p, t0 := rs[..|rs| - 1], rs[|rs| - 2];
      RatedPrefix(rs, |rs| - 1);
      AllocationKeys(p);
      if t0.active == [] {
        assert ActiveTrail(rs) == ActiveTrail(p);
      } else {
        CreditKeys(Allocation(p), t0.active, RatedSum(t0.active), t0.power, Hours(t0.at, rs[|rs| - 1].at), ActiveTrail(p));
      }
    }
  }

  lemma {:induction false} ActiveTrailMembers(rs: seq<Reading>)
    ensures forall a :: a in ActiveTrail(rs) <==> exists i :: 0 <= i < |rs| - 1 && a in rs[i].active
  {
    if |rs| >= 2 {
      var p := rs[..|rs| - 1];
      assert forall i :: 0 <= i < |p| ==> p[i] == rs[i];
      ActiveTrailMembers(p);
    }
  }

  /**
   * The result lists each appliance once: exactly those active at some
   * reading other than the last, in the order they were first credited.
   */
  lemma ResultKeys(rs: seq<Reading>)
    requires Rated(rs)
    ensures Distinct(Keys(Allocation(rs)))
    ensures forall a :: a in Keys(Allocation(rs)) <==> exists i :: 0 <= i < |rs| - 1 && a in rs[i].active
    ensures forall a :: a in Keys(Allocation(rs)) <==> a in ActiveTrail(rs)
    ensures forall i, j :: 0 <= i < j < |Allocation(rs)| ==>
      FirstIndex(ActiveTrail(rs), Keys(Allocation(rs))[i]) < FirstIndex(ActiveTrail(rs), Keys(Allocation(rs))[j])
  {
    AllocationKeys(rs);
    DedupProperties(ActiveTrail(rs));
    ActiveTrailMembers(rs);
  }

  // The left-endpoint rule and the degenerate intervals.

  /** Only the timestamp of the last reading matters: its power and active list are never read. */
  lemma {:induction false} LastReadingOnlyTimestamp(rs: seq<Reading>, last: Reading)
    requires Rated(rs) && rs != []
    requires last.at == rs[|rs| - 1].at
    ensures Rated(rs[..|rs| - 1] + [last])
    ensures Allocation(rs[..|rs| - 1] + [last]) == Allocation(rs)
  {
    var rs' := rs[..|rs| - 1] + [last];
    assert forall i :: 0 <= i < |rs| - 1 ==> rs'[i] == rs[i];
    assert rs'[..|rs'| - 1] == rs[..|rs| - 1];
  }

  lemma {:induction false} CreditNothing(m: seq<Share>, names: seq<string>, totalWatts: int, power: real, b: string)
    requires AllRated(names)
    requires totalWatts > 0
    ensures Get(Credit(m, names, totalWatts, power, 0.0), b) == Get(m, b)
  {
    if names != [] {
      CreditNothing(m, names[..|names| - 1], totalWatts, power, b);
    }
  }

  lemma NegativeEnergy(power: real, hours: real)
    requires power > 0.0 && hours < 0.0
    ensures Energy(power, hours) < 0.0
  {
  }

  /**
   * A pair whose earlier reading has nothing active changes nothing; a
   * zero-length pair changes no appliance's total; a pair running
   * backwards in time with positive power lowers the sum of the totals.
   */
  lemma DegenerateIntervals(m: seq<Share>, t0: Reading, t1: Reading)
    requires AllRated(t0.active)
    ensures t0.active == [] ==> Interval(m, t0, t1) == m
    ensures t1.at == t0.at ==> forall b :: Get(Interval(m, t0, t1), b) == Get(m, b)
    ensures t0.active != [] && t1.at < t0.at && t0.power > 0.0 ==> Total(Interval(m, t0, t1)) < Total(m)
  {
    if t0.active != [] {
      var T := RatedSum(t0.active);
      if t1.at == t0.at {
        assert Hours(t0.at, t1.at) == 0.0;
        forall b | true ensures Get(Interval(m, t0, t1), b) == Get(m, b) {
          CreditNothing(m, t0.active, T, t0.power, b);
        }
      }
      if t1.at < t0.at && t0.power > 0.0 {
        IntervalConservation(m, t0, t1);
        NegativeEnergy(t0.power, Hours(t0.at, t1.at));
      }
    }
  }
}
