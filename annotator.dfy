/**
 * Power-interval annotator: each valid power record becomes a reading
 * carrying the list of appliances that are on at its timestamp.
 */
module Annotator {
  import opened Wrappers
  import opened Seqs
  import opened Registry
  import opened Timelines
  import opened Resolver

  /** One power-feed record; None stands for a field the record lacks. */
  datatype PowerRecord = PowerRecord(timestamp: Option<int>, consumption: Option<real>)

  /** One entry of `power_records`: timestamp, power in watts, active appliances. */
  datatype Reading = Reading(at: int, power: real, active: seq<string>)

  /** The appliances, in timeline order, whose state at `t` is On. */
  function ActiveAt(tl: seq<Timeline>, t: int): seq<string> {
    if tl == [] then []
    else
      var last := tl[|tl| - 1];
      ActiveAt(tl[..|tl| - 1], t) + (if StateAt(last.changes, t) == Some(On) then [last.appliance] else [])
  }

  /** The loop over `appliance_timelines` in app.py's step 4: resolve every timeline at `t`, keep those that are on. */
  method ActiveList(tl: seq<Timeline>, t: int) returns (active: seq<string>)
    ensures active == ActiveAt(tl, t)
  {
    active := [];
    for i := 0 to |tl|
      invariant active == ActiveAt(tl[..i], t)
    {
      assert tl[..i + 1][..i] == tl[..i];
      var currentState := ResolveState(tl[i].changes, t);
      if currentState == Some(On) {
        active := active + [tl[i].appliance];
      }
    }
    assert tl[..|tl|] == tl;
  }

  /** The active list holds exactly the appliances whose timeline resolves to On at `t`. */
  lemma {:induction false} ActiveMembers(tl: seq<Timeline>, t: int)
    ensures forall a :: a in ActiveAt(tl, t) <==>
      exists i :: 0 <= i < |tl| && tl[i].appliance == a && StateAt(tl[i].changes, t) == Some(On)
  {
    if tl != [] {
      var p := tl[..|tl| - 1];
      assert forall i :: 0 <= i < |p| ==> p[i] == tl[i];
      ActiveMembers(p, t);
    }
  }

  /** The active list follows the order of the timelines. */
  lemma {:induction false} ActiveOrdered(tl: seq<Timeline>, t: int)
    ensures IsSubsequence(ActiveAt(tl, t), Appliances(tl))
  {
    if tl != [] {
      var p, last := tl[..|tl| - 1], tl[|tl| - 1];
      ActiveOrdered(p, t);
      AppliancesInit(tl);
      SubsequenceSnoc(ActiveAt(p, t), Appliances(tl), StateAt(last.changes, t) == Some(On));
    }
  }

  /** Distinct timeline keys give an active list without repeats. */
  lemma {:induction false} ActiveDistinct(tl: seq<Timeline>, t: int)
    requires Distinct(Appliances(tl))
    ensures Distinct(ActiveAt(tl, t))
  {
    if tl != [] {
      var p, last := tl[..|tl| - 1], tl[|tl| - 1];
      var keys := Appliances(tl);
      assert keys[..|keys| - 1] == Appliances(p);
      ActiveDistinct(p, t);
      ActiveMembers(p, t);
      forall i | 0 <= i < |p| ensures p[i].appliance != last.appliance {
        assert keys[i] == p[i].appliance;
      }
      var before := ActiveAt(p, t);
      assert last.appliance !in before;
      var act := ActiveAt(tl, t);
      forall i, j | 0 <= i < j < |act| ensures act[i] != act[j] {
        if j == |before| {
          assert act[i] == before[i];
        } else {
          assert act[i] == before[i] && act[j] == before[j];
        }
      }
    }
  }

  /**
   * The active list holds exactly the appliances whose timeline resolves to
   * On at `t`, in the order of the timelines, so without repeats when the
   * timeline keys are distinct.
   */
  lemma ActiveShape(tl: seq<Timeline>, t: int)
    ensures forall a :: a in ActiveAt(tl, t) <==>
      exists i :: 0 <= i < |tl| && tl[i].appliance == a && StateAt(tl[i].changes, t) == Some(On)
    ensures IsSubsequence(ActiveAt(tl, t), Appliances(tl))
    ensures Distinct(Appliances(tl)) ==> Distinct(ActiveAt(tl, t))
  {
    ActiveMembers(tl, t);
    ActiveOrdered(tl, t);
    if Distinct(Appliances(tl)) {
      ActiveDistinct(tl, t);
    }
  }

  /** With distinct keys: `a` is active at `t` iff it has a timeline and that timeline resolves to On. */
  lemma ActiveIff(tl: seq<Timeline>, t: int, a: string)
    requires Distinct(Appliances(tl))
    ensures a in ActiveAt(tl, t) <==> a in Appliances(tl) && StateAt(ChangesOf(tl, a), t) == Some(On)
  {
    ActiveShape(tl, t);
    if a in Appliances(tl) {
      var i :| 0 <= i < |tl| && Appliances(tl)[i] == a;
      ChangesOfKey(tl, i);
      forall j | 0 <= j < |tl| && tl[j].appliance == a ensures j == i {
        assert Appliances(tl)[j] == Appliances(tl)[i];
      }
    }
  }

  /** A record that has both a timestamp and a consumption. */
  predicate IsValidRecord(r: PowerRecord) {
    r.timestamp.Some? && r.consumption.Some?
  }

  /** The valid records, in input order. */
  function ValidRecords(rs: seq<PowerRecord>): (v: seq<PowerRecord>)
    ensures forall k :: 0 <= k < |v| ==> IsValidRecord(v[k])
  {
    if rs == [] then []
    else ValidRecords(rs[..|rs| - 1]) + (if IsValidRecord(rs[|rs| - 1]) then [rs[|rs| - 1]] else [])
  }

  /** The filter keeps exactly the valid records of the feed. */
  lemma {:induction false} ValidRecordsExact(rs: seq<PowerRecord>)
    ensures forall r :: r in ValidRecords(rs) <==> r in rs && IsValidRecord(r)
  {
    if rs != [] {
      var p := rs[..|rs| - 1];
      assert rs == p + [rs[|rs| - 1]];
      ValidRecordsExact(p);
    }
  }

  /** The reading a valid record becomes. */
  function Annotated(tl: seq<Timeline>, r: PowerRecord): Reading
    requires IsValidRecord(r)
  {
    Reading(r.timestamp.value, r.consumption.value, ActiveAt(tl, r.timestamp.value))
  }

  /** `power_records` after the whole power feed. */
  function Annotation(tl: seq<Timeline>, rs: seq<PowerRecord>): seq<Reading> {
    if rs == [] then []
    else
      var r := rs[|rs| - 1];
      Annotation(tl, rs[..|rs| - 1]) + (if IsValidRecord(r) then [Annotated(tl, r)] else [])
  }

  /** Step 4 of the handler: annotate every valid power record with its active list. */
  method Annotate(tl: seq<Timeline>, powerData: seq<PowerRecord>) returns (records: seq<Reading>)
    ensures records == Annotation(tl, powerData)
  {
    records := [];
    for i := 0 to |powerData|
      invariant records == Annotation(tl, powerData[..i])
    {
      assert powerData[..i + 1][..i] == powerData[..i];
      var record := powerData[i];
      if record.timestamp.None? || record.consumption.None? {
        continue;
      }
      var ts, power := record.timestamp.value, record.consumption.value;
      var active := ActiveList(tl, ts);
      records := records + [Reading(ts, power, active)];
    }
    assert powerData[..|powerData|] == powerData;
  }

  /**
   * One reading per valid record, in input order: the k-th reading carries
   * the k-th valid record's timestamp and power and its active list.
   * Records lacking a field are thereby left out.
   */
  lemma {:induction false} AnnotationShape(tl: seq<Timeline>, rs: seq<PowerRecord>)
    ensures |Annotation(tl, rs)| == |ValidRecords(rs)|
    ensures forall k :: 0 <= k < |ValidRecords(rs)| ==>
      Annotation(tl, rs)[k] == Annotated(tl, ValidRecords(rs)[k])
  {
    if rs != [] {
      AnnotationShape(tl, rs[..|rs| - 1]);
    }
  }

  /** The valid records keep their relative input order. */
  lemma {:induction false} ValidRecordsOrdered(rs: seq<PowerRecord>)
    ensures IsSubsequence(ValidRecords(rs), rs)
  {
    if rs != [] {
      var p := rs[..|rs| - 1];
      ValidRecordsOrdered(p);
      var v := ValidRecords(rs);
      if IsValidRecord(rs[|rs| - 1]) {
        assert v[..|v| - 1] == ValidRecords(p);
      } else {
        assert v == ValidRecords(p);
        SubsequenceOfPrefix(v, rs);
      }
    }
  }

  /** A power record lacking a timestamp or a consumption has no effect: only the valid records matter. */
  lemma {:induction false} MalformedRecordsIgnored(tl: seq<Timeline>, rs: seq<PowerRecord>)
    ensures Annotation(tl, rs) == Annotation(tl, ValidRecords(rs))
  {
    if rs != [] {
      var p, r := rs[..|rs| - 1], rs[|rs| - 1];
      MalformedRecordsIgnored(tl, p);
      var v := ValidRecords(rs);
      if IsValidRecord(r) {
        assert v[..|v| - 1] == ValidRecords(p) && v[|v| - 1] == r;
      } else {
        assert v == ValidRecords(p);
      }
    }
  }

  /** Every appliance in an active list has a timeline. */
  lemma {:induction false} AnnotationActiveKeys(tl: seq<Timeline>, rs: seq<PowerRecord>)
    ensures forall k, a :: 0 <= k < |Annotation(tl, rs)| && a in Annotation(tl, rs)[k].active ==> a in Appliances(tl)
    ensures Distinct(Appliances(tl)) ==> forall k :: 0 <= k < |Annotation(tl, rs)| ==> Distinct(Annotation(tl, rs)[k].active)
  {
    if rs != [] {
      var p, r := rs[..|rs| - 1], rs[|rs| - 1];
      AnnotationActiveKeys(tl, p);
      if IsValidRecord(r) {
        var t := r.timestamp.value;
        ActiveMembers(tl, t);
        if Distinct(Appliances(tl)) {
          ActiveDistinct(tl, t);
        }
      }
    }
  }
}
