/** Concrete runs of the handler's rules on small inputs. */
module Scenarios {
  import opened Wrappers
  import opened Strings
  import opened Registry
  import opened Timelines
  import opened Resolver
  import opened Annotator
  import opened Allocator
  import opened Consumption

  /** The leading characters of the registered names, entry by entry. */
  lemma Initials()
    ensures forall j :: 0 <= j < |Wattage| ==> |Wattage[j].name| >= 2 && Wattage[j].name[1] in "Camxl"
    ensures forall j :: 0 <= j < 2 ==> Wattage[j].name[0] == 'A'
    ensures forall j :: 2 <= j < 6 ==> Wattage[j].name[0] == 'F'
    ensures forall j :: 6 <= j < 8 ==> Wattage[j].name[0] == 'E'
    ensures Wattage[8].name[0] == 'B'
  {
    forall j | 0 <= j < |Wattage| ensures |Wattage[j].name| >= 2 && Wattage[j].name[1] in "Camxl" {
      if j < 2 {
        assert Wattage[j].name[1] == 'C';
      } else if j < 6 {
        assert Wattage[j].name[1] == 'a';
      } else if j < 8 {
        assert Wattage[j].name[1] == 'x';
      } else {
        assert Wattage[j].name[1] == 'l';
      }
    }
  }

  /**
   * Names from entry `k0` up to `k` whose character at position `i` is
   * `c` do not occur in a text without `c`.
   */
  lemma NamesAbsent(text: string, k0: int, k: int, i: nat, c: char)
    requires 0 <= k0 <= k <= |Wattage|
    requires forall j :: k0 <= j < k ==> i < |Wattage[j].name| && Wattage[j].name[i] == c
    requires c !in text
    ensures forall j :: k0 <= j < k ==> !Contains(text, Wattage[j].name)
  {
    forall j | k0 <= j < k ensures !Contains(text, Wattage[j].name) {
      assert Wattage[j].name[i] in Wattage[j].name;
      MissingChar(text, Wattage[j].name, c);
    }
  }

  /**
   * The first `k` registered names do not occur in a text that lacks the
   * initials they start with: 'A' for the air conditioners, 'F' for the
   * fans, 'E' for the exhausts, 'B' for the blower.
   */
  lemma MissesBefore(text: string, k: int)
    requires 0 <= k <= |Wattage|
    requires k > 0 ==> 'A' !in text
    requires k > 2 ==> 'F' !in text
    requires k > 6 ==> 'E' !in text
    requires k > 8 ==> 'B' !in text
    ensures forall j :: 0 <= j < k ==> !Contains(text, Wattage[j].name)
  {
    Initials();
    if k > 0 {
      NamesAbsent(text, 0, if k < 2 then k else 2, 0, 'A');
    }
    if k > 2 {
      NamesAbsent(text, 2, if k < 6 then k else 6, 0, 'F');
    }
    if k > 6 {
      NamesAbsent(text, 6, if k < 8 then k else 8, 0, 'E');
    }
    if k > 8 {
      NamesAbsent(text, 8, 9, 0, 'B');
    }
  }

  /** Names whose second character is one of "Camxl" do not occur in a text that has none of them. */
  lemma SecondLettersAbsent(text: string)
    requires forall c :: c in "Camxl" ==> c !in text
    ensures NoNameMatches(text)
  {
    Initials();
    forall j | 0 <= j < |Wattage| ensures !Contains(text, Wattage[j].name) {
      MissingChar(text, Wattage[j].name, Wattage[j].name[1]);
    }
  }

  /** "Turned on" at position `i` makes the text an On transition. */
  lemma SwitchedOn(text: string, i: int)
    requires 0 <= i <= |text| - |OnPhrase| && text[i..i + |OnPhrase|] == OnPhrase
    ensures StateOf(text) == On
  {
    ContainsIff(text, OnPhrase);
    assert OccursAt(text, OnPhrase, i);
  }

  // Attribution.

  /** "AC 1 Turned on" names the first registry entry directly and switches it on. */
  lemma DirectMatch()
    ensures Attribute("AC 1 Turned on") == Some("AC 1")
    ensures StateOf("AC 1 Turned on") == On
  {
    SwitchedOn("AC 1 Turned on", 5);
  }

  lemma AirconNoMatch()
    ensures NoNameMatches("Aircon Turned off")
  {
    SecondLettersAbsent("Aircon Turned off");
  }

  /** "Turned on" does not occur in "Aircon Turned off": only position 7 starts with 'T', and it goes on "off". */
  lemma AirconNotOn()
    ensures StateOf("Aircon Turned off") == Off
  {
    var text := "Aircon Turned off";
    forall i | 0 <= i <= |text| - |OnPhrase| ensures !OccursAt(text, OnPhrase, i) {
      AirconNotOnAt(i);
    }
    ContainsIff(text, OnPhrase);
  }

  lemma AirconNotOnAt(i: int)
    requires 0 <= i <= 8
    ensures !OccursAt("Aircon Turned off", OnPhrase, i)
  {
    var text := "Aircon Turned off";
    if i == 7 {
      assert text[i + 8] != OnPhrase[8];
    } else {
      assert text[i] != OnPhrase[0];
    }
  }

  /** "Aircon Turned off" names no appliance, so the token "Aircon" sends it to AC 1, switched off. */
  lemma FallbackMatch()
    ensures Attribute("Aircon Turned off") == Some(FallbackName)
    ensures StateOf("Aircon Turned off") == Off
  {
    AirconNoMatch();
    AttributionRule("Aircon Turned off");
    AirconNotOn();
  }

  lemma TelevisionNoMatch()
    ensures NoNameMatches("TV on")
  {
    MissesBefore("TV on", 9);
  }

  /** Text naming no appliance and lacking the token is dropped. */
  lemma UnattributedText()
    ensures Attribute("TV on") == None
  {
    TelevisionNoMatch();
    AttributionRule("TV on");
    MissingChar("TV on", FallbackToken, 'A');
  }

  // Resolution of a timeline.

  /** On at 10:00, off at 11:00, on at 12:00, listed out of order. */
  const Day: seq<Transition> := [Transition(On, 43200), Transition(On, 36000), Transition(Off, 39600)]

  /** The state of Day at `t` is that of the change at position `i`, when that change is the latest by `t`. */
  lemma DayAt(t: int, i: int)
    requires IsLatestAt(Day, t, i)
    ensures StateAt(Day, t) == Some(Day[i].state)
  {
    LatestIsUnique(Day, t, i);
  }

  /** 10:30 is On, 11:30 is Off, and 09:00 precedes every change. */
  lemma DayResolved()
    ensures StateAt(Day, 37800) == Some(On)
    ensures StateAt(Day, 41400) == Some(Off)
    ensures StateAt(Day, 32400) == None
    ensures StateAt(Day, 43200) == Some(On)
  {
    DayAt(37800, 1);
    DayAt(41400, 2);
    DayAt(43200, 0);
    LatestNone(Day, 32400);
  }

  /** Two changes at the same instant: the one listed later wins, as in a stable sort. */
  lemma TieGoesToLaterEntry()
    ensures StateAt([Transition(On, 36000), Transition(Off, 36000)], 36000) == Some(Off)
  {
    var s := [Transition(On, 36000), Transition(Off, 36000)];
    LatestSpec(s, 36000);
    assert IsLatestAt(s, 36000, 1);
  }

  // The whole handler on one hour of two appliances.

  const ExhaustOn: string := "Exhaust 1 Turned on"
  const BlowerOn: string := "Blower 1 Turned on"

  const Log: seq<ActivityEntry> := [
    ActivityEntry(Some(32400), Some(ExhaustOn)),
    ActivityEntry(None, Some("Fan 1 Turned on")),
    ActivityEntry(Some(32400), Some(BlowerOn))
  ]

  const Power: seq<PowerRecord> := [
    PowerRecord(Some(32400), Some(400.0)),
    PowerRecord(Some(34000), None),
    PowerRecord(Some(36000), Some(400.0))
  ]

  /** A text that starts with a name contains it. */
  lemma StartsWith(text: string, k: int)
    requires 0 <= k < |Wattage| && |Wattage[k].name| <= |text| && text[..|Wattage[k].name|] == Wattage[k].name
    ensures Contains(text, Wattage[k].name)
  {
  }

  lemma ExhaustInitials()
    ensures 'A' !in ExhaustOn && 'F' !in ExhaustOn
  {
  }

  lemma BlowerInitials()
    ensures 'A' !in BlowerOn && 'F' !in BlowerOn && 'E' !in BlowerOn
  {
  }

  lemma ExhaustFirst()
    ensures IsFirstMatch(ExhaustOn, 6)
  {
    ExhaustInitials();
    MissesBefore(ExhaustOn, 6);
    StartsWith(ExhaustOn, 6);
  }

  lemma ExhaustMatch()
    ensures Attribute(ExhaustOn) == Some(Wattage[6].name)
  {
    ExhaustFirst();
    AttributionRule(ExhaustOn);
  }

  lemma ExhaustAttributed()
    ensures Attribute(ExhaustOn) == Some("Exhaust 1")
  {
    ExhaustMatch();
  }

  lemma BlowerFirst()
    ensures IsFirstMatch(BlowerOn, 8)
  {
    BlowerInitials();
    MissesBefore(BlowerOn, 8);
    StartsWith(BlowerOn, 8);
  }

  lemma BlowerMatch()
    ensures Attribute(BlowerOn) == Some(Wattage[8].name)
  {
    BlowerFirst();
    AttributionRule(BlowerOn);
  }

  lemma BlowerAttributed()
    ensures Attribute(BlowerOn) == Some("Blower 1")
  {
    BlowerMatch();
  }

  lemma ExhaustSwitchedOn()
    ensures StateOf(ExhaustOn) == On
  {
    SwitchedOn(ExhaustOn, 10);
  }

  lemma BlowerSwitchedOn()
    ensures StateOf(BlowerOn) == On
  {
    SwitchedOn(BlowerOn, 9);
  }

  /** A log entry stamped `t` whose text switches `n` on. */
  predicate SwitchesOn(e: ActivityEntry, n: string, t: int) {
    && e.timestamp == Some(t)
    && e.action.Some?
    && Attribute(e.action.value) == Some(n)
    && StateOf(e.action.value) == On
  }

  lemma ExampleEntries()
    ensures SwitchesOn(Log[0], "Exhaust 1", 32400)
    ensures !IsValid(Log[1])
    ensures SwitchesOn(Log[2], "Blower 1", 32400)
  {
    ExhaustSwitchedOn();
    ExhaustAttributed();
    BlowerSwitchedOn();
    BlowerAttributed();
  }

  /** A switch-on entry opens a timeline with that single change. */
  lemma RecordSwitchOn(tl: seq<Timeline>, e: ActivityEntry, n: string, t: int)
    requires SwitchesOn(e, n, t)
    ensures Record(tl, e) == Append(tl, n, Transition(On, t))
  {
    assert TransitionOf(e) == Transition(On, t);
  }

  /** An entry lacking a field, appended to a log, changes nothing. */
  lemma BuildSkips(log: seq<ActivityEntry>, bad: ActivityEntry)
    requires !IsValid(bad)
    ensures Build(log + [bad]) == Build(log)
  {
    assert (log + [bad])[..|log|] == log;
  }

  /** Extending a log by one entry records that entry on the previous timelines. */
  lemma BuildExtends(log: seq<ActivityEntry>, e: ActivityEntry)
    ensures Build(log + [e]) == Record(Build(log), e)
  {
    assert (log + [e])[..|log|] == log;
  }

  /** Two appliances switched on at `t`, around an entry lacking a field: one timeline each, in log order. */
  lemma TwoSwitchedOn(e1: ActivityEntry, bad: ActivityEntry, e2: ActivityEntry, n1: string, n2: string, t: int)
    requires SwitchesOn(e1, n1, t) && !IsValid(bad) && SwitchesOn(e2, n2, t) && n1 != n2
    ensures Build([e1, bad, e2]) == [Timeline(n1, [Transition(On, t)]), Timeline(n2, [Transition(On, t)])]
  {
    var tl1 := [Timeline(n1, [Transition(On, t)])];
    BuildExtends([], e1);
    RecordSwitchOn([], e1, n1, t);
    assert [] + [e1] == [e1];
    BuildSkips([e1], bad);
    BuildExtends([e1, bad], e2);
    RecordSwitchOn(tl1, e2, n2, t);
    assert [e1] + [bad] == [e1, bad] && [e1, bad] + [e2] == [e1, bad, e2];
  }

  const Switched: Transition := Transition(On, 32400)

  /** The entry without a timestamp is skipped; the other two open one timeline each. */
  lemma ExampleTimelines()
    ensures Build(Log) == [Timeline("Exhaust 1", [Switched]), Timeline("Blower 1", [Switched])]
  {
    ExampleEntries();
    TwoSwitchedOn(Log[0], Log[1], Log[2], "Exhaust 1", "Blower 1", 32400);
    assert Log == [Log[0], Log[1], Log[2]];
  }

  /** A single On transition at `t` resolves to On at every instant from `t` on. */
  lemma OnSince(t: int, u: int)
    requires u >= t
    ensures StateAt([Transition(On, t)], u) == Some(On)
  {
    LatestSpec([Transition(On, t)], u);
    assert IsLatestAt([Transition(On, t)], u, 0);
  }

  lemma BothOn(n1: string, n2: string, t: int, u: int)
    requires u >= t
    ensures ActiveAt([Timeline(n1, [Transition(On, t)]), Timeline(n2, [Transition(On, t)])], u) == [n1, n2]
  {
    var tl := [Timeline(n1, [Transition(On, t)]), Timeline(n2, [Transition(On, t)])];
    OnSince(t, u);
    assert tl[..1] == [tl[0]];
    assert [tl[0]][..0] == [];
    assert ActiveAt([tl[0]], u) == [n1];
  }

  /** Both timelines switched on at `t`: every valid reading from `t` on finds both, in timeline order. */
  lemma BothActive(n1: string, n2: string, t: int, r0: PowerRecord, bad: PowerRecord, r2: PowerRecord)
    requires IsValidRecord(r0) && !IsValidRecord(bad) && IsValidRecord(r2)
    requires r0.timestamp.value >= t && r2.timestamp.value >= t
    ensures
      var tl := [Timeline(n1, [Transition(On, t)]), Timeline(n2, [Transition(On, t)])];
      Annotation(tl, [r0, bad, r2]) == [
        Reading(r0.timestamp.value, r0.consumption.value, [n1, n2]),
        Reading(r2.timestamp.value, r2.consumption.value, [n1, n2])]
  {
    var tl := [Timeline(n1, [Transition(On, t)]), Timeline(n2, [Transition(On, t)])];
    BothOn(n1, n2, t, r0.timestamp.value);
    BothOn(n1, n2, t, r2.timestamp.value);
    assert Annotation(tl, [r0]) == [Annotated(tl, r0)] by {
      assert [r0][..0] == [];
    }
    assert Annotation(tl, [r0, bad]) == [Annotated(tl, r0)] by {
      assert [r0, bad][..1] == [r0];
    }
    assert [r0, bad, r2][..2] == [r0, bad];
  }

  lemma ExampleReadings()
    ensures Readings(Log, Power) == [
      Reading(32400, 400.0, ["Exhaust 1", "Blower 1"]),
      Reading(36000, 400.0, ["Exhaust 1", "Blower 1"])]
  {
    ExampleTimelines();
    BothActive("Exhaust 1", "Blower 1", 32400, Power[0], Power[1], Power[2]);
    assert Power == [Power[0], Power[1], Power[2]];
  }

  /** Crediting two distinct appliances from nothing opens one entry each, in list order. */
  lemma CreditTwo(n1: string, n2: string, w: int, power: real, hours: real)
    requires Registered(n1) && Registered(n2) && n1 != n2 && w > 0
    ensures Credit([], [n1, n2], w, power, hours) ==
      [Share(n1, 0.0 + Portion(ShareOf(n1, w), power, hours)), Share(n2, 0.0 + Portion(ShareOf(n2, w), power, hours))]
  {
    var p1, p2 := Portion(ShareOf(n1, w), power, hours), Portion(ShareOf(n2, w), power, hours);
    assert Credit([], [n1], w, power, hours) == AddTo([], n1, p1) by {
      assert [n1][..0] == [];
    }
    assert AddTo([Share(n1, 0.0 + p1)], n2, p2) == [Share(n1, 0.0 + p1), Share(n2, 0.0 + p2)];
    assert [n1, n2][..1] == [n1];
  }

  /** Two readings make one interval, credited from empty totals. */
  lemma PairAllocation(r0: Reading, r1: Reading)
    requires AllRated(r0.active)
    ensures Rated([r0, r1])
    ensures Allocation([r0, r1]) == Interval([], r0, r1)
  {
    assert [r0, r1][..1] == [r0];
  }

  lemma TwoRated(n1: string, n2: string)
    requires Registered(n1) && Registered(n2)
    ensures AllRated([n1, n2])
    ensures RatedSum([n1, n2]) == Watts(n1) + Watts(n2)
  {
    assert [n1, n2][..1] == [n1] && [n1][..0] == [];
  }

  lemma OneHour(t: int)
    ensures Hours(t, t + 3600) == 1.0
  {
  }

  /** Two appliances sharing one interval from empty totals: each gets its rated fraction of the interval's energy. */
  lemma TwoShareAnInterval(n1: string, n2: string, t0: int, t1: int, power: real)
    requires Registered(n1) && Registered(n2) && n1 != n2
    ensures
      var w, h := RatedSum([n1, n2]), Hours(t0, t1);
      Allocation([Reading(t0, power, [n1, n2]), Reading(t1, power, [n1, n2])]) ==
        [Share(n1, 0.0 + Portion(ShareOf(n1, w), power, h)), Share(n2, 0.0 + Portion(ShareOf(n2, w), power, h))]
  {
    TwoRated(n1, n2);
    PairAllocation(Reading(t0, power, [n1, n2]), Reading(t1, power, [n1, n2]));
    CreditTwo(n1, n2, RatedSum([n1, n2]), power, Hours(t0, t1));
  }

  lemma ExampleRatings()
    ensures Lookup("Exhaust 1") == Some(50) && Lookup("Blower 1") == Some(200)
  {
    LookupTable();
    assert Wattage[6] == Rating("Exhaust 1", 50);
    assert Wattage[8] == Rating("Blower 1", 200);
  }

  lemma ExampleShares()
    ensures Registered("Exhaust 1") && Registered("Blower 1")
    ensures RatedSum(["Exhaust 1", "Blower 1"]) == 250
    ensures Portion(ShareOf("Exhaust 1", 250), 400.0, 1.0) == 80.0
    ensures Portion(ShareOf("Blower 1", 250), 400.0, 1.0) == 320.0
  {
    ExampleRatings();
    TwoRated("Exhaust 1", "Blower 1");
    assert Ratio(50, 250) == 0.2;
    assert Ratio(200, 250) == 0.8;
  }

  /**
   * 400 W for one hour with Exhaust 1 (50 W) and Blower 1 (200 W) on:
   * 80 Wh and 320 Wh, in the order they were credited; the malformed
   * entries in both feeds change nothing.
   */
  lemma ExampleConsumption()
    ensures Result(Log, Power) == [Share("Exhaust 1", 80.0), Share("Blower 1", 320.0)]
  {
    ExampleReadings();
    ExampleShares();
    OneHour(32400);
    TwoShareAnInterval("Exhaust 1", "Blower 1", 32400, 36000, 400.0);
  }
}
