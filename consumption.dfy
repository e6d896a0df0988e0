/**
 * The `/appliancesconsumption` computation once both feeds are fetched:
 * build the timelines, annotate the power readings, allocate the energy.
 */
module Consumption {
  import opened Seqs
  import opened Registry
  import opened Timelines
  import opened Annotator
  import opened Allocator

  /** The readings the handler builds from the two feeds. */
  function Readings(activityLogs: seq<ActivityEntry>, powerData: seq<PowerRecord>): seq<Reading> {
    Annotation(Build(activityLogs), powerData)
  }

  /**
   * The readings only name registered appliances, each active list
   * without repeats, so every `wattage[a]` lookup succeeds.
   */
  lemma ReadingsWellFormed(activityLogs: seq<ActivityEntry>, powerData: seq<PowerRecord>)
    ensures Rated(Readings(activityLogs, powerData))
    ensures DistinctLists(Readings(activityLogs, powerData))
  {
    var tl := Build(activityLogs);
    TimelineKeys(activityLogs);
    AnnotationActiveKeys(tl, powerData);
  }

  /** The handler's result before rounding: watt-hours per appliance in order of first credit. */
  function Result(activityLogs: seq<ActivityEntry>, powerData: seq<PowerRecord>): seq<Share> {
    ReadingsWellFormed(activityLogs, powerData);
    Allocation(Readings(activityLogs, powerData))
  }

  /** Steps 3 to 6 of the handler. */
  method ApplianceConsumption(activityLogs: seq<ActivityEntry>, powerData: seq<PowerRecord>)
    returns (result: seq<Share>)
    ensures result == Result(activityLogs, powerData)
  {
    var applianceTimelines := BuildTimelines(activityLogs);
    var powerRecords := Annotate(applianceTimelines, powerData);
    ReadingsWellFormed(activityLogs, powerData);
    result := Allocate(powerRecords);
  }

  /** Records lacking a field, in either feed, do not change the result. */
  lemma {:induction false} MalformedInputIgnored(activityLogs: seq<ActivityEntry>, powerData: seq<PowerRecord>)
    ensures Result(activityLogs, powerData) == Result(ValidEntries(activityLogs), ValidRecords(powerData))
  {
    var tl := Build(activityLogs);
    MalformedEntriesIgnored(activityLogs);
    MalformedRecordsIgnored(tl, powerData);
    MalformedRecordsIgnored(Build(ValidEntries(activityLogs)), ValidRecords(powerData));
    ValidRecordsIdempotent(powerData);
  }

  lemma {:induction false} ValidRecordsIdempotent(rs: seq<PowerRecord>)
    ensures ValidRecords(ValidRecords(rs)) == ValidRecords(rs)
  {
    if rs != [] {
      var p := rs[..|rs| - 1];
      ValidRecordsIdempotent(p);
      var v := ValidRecords(rs);
      if IsValidRecord(rs[|rs| - 1]) {
        assert v == ValidRecords(p) + [rs[|rs| - 1]];
        assert v[..|v| - 1] == ValidRecords(p) && IsValidRecord(v[|v| - 1]);
      } else {
        assert v == ValidRecords(p);
      }
    }
  }

  /**
   * The result: nothing with fewer than two valid power records; otherwise
   * each appliance once, exactly those active at some reading but the last,
   * each holding its interval-by-interval energy, all together the energy
   * of the intervals that had an active appliance.
   */
  lemma ResultProperties(activityLogs: seq<ActivityEntry>, powerData: seq<PowerRecord>)
    ensures |ValidRecords(powerData)| < 2 ==> Result(activityLogs, powerData) == []
    ensures Distinct(Keys(Result(activityLogs, powerData)))
    ensures forall a :: a in Keys(Result(activityLogs, powerData)) <==>
      exists i :: 0 <= i < |Readings(activityLogs, powerData)| - 1 && a in Readings(activityLogs, powerData)[i].active
    ensures forall a :: a in Keys(Result(activityLogs, powerData)) ==> Registered(a)
    ensures forall a :: Get(Result(activityLogs, powerData), a) == EnergyOf(Readings(activityLogs, powerData), a)
    ensures Total(Result(activityLogs, powerData)) == Accounted(Readings(activityLogs, powerData))
  {
    var rs := Readings(activityLogs, powerData);
    ReadingsWellFormed(activityLogs, powerData);
    AnnotationShape(Build(activityLogs), powerData);
    ResultKeys(rs);
    forall a | true ensures Get(Allocation(rs), a) == EnergyOf(rs, a) {
      AllocationPerAppliance(rs, a);
    }
    AllocationConservation(rs);
  }
}
