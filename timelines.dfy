/**
 * Activity timeline builder: turns the activity log into one timeline of
 * on/off transitions per appliance, kept in order of first appearance
 * (the insertion order of `appliance_timelines`, a `defaultdict(list)`).
 */
module Timelines {
  import opened Wrappers
  import opened Seqs
  import opened Strings
  import opened Registry

  datatype State = On | Off

  /** One recorded change: the `(state, ts)` pair appended to a timeline. */
  datatype Transition = Transition(state: State, at: int)

  /** One activity-log entry; None stands for a field the entry lacks. */
  datatype ActivityEntry = ActivityEntry(timestamp: Option<int>, action: Option<string>)

  /** One key of `appliance_timelines` with its list of transitions. */
  datatype Timeline = Timeline(appliance: string, changes: seq<Transition>)

  /** An action naming no registered appliance but containing FallbackToken goes to FallbackName. */
  const FallbackName: string := "AC 1"
  const FallbackToken: string := "Aircon"
  /** The phrase that makes a transition "on"; every other text records "off". */
  const OnPhrase: string := "Turned on"

  // The insertion-ordered dictionary of timelines.

  /** The keys, in insertion order. */
  function Appliances(tl: seq<Timeline>): (keys: seq<string>)
    ensures |keys| == |tl|
    ensures forall i :: 0 <= i < |tl| ==> keys[i] == tl[i].appliance
  {
    if tl == [] then [] else [tl[0].appliance] + Appliances(tl[1..])
  }

  /** The keys of all timelines but the last are all keys but the last. */
  lemma AppliancesInit(tl: seq<Timeline>)
    requires tl != []
    ensures Appliances(tl[..|tl| - 1]) == Appliances(tl)[..|tl| - 1]
  {
  }

  /** The list stored under `name`; the empty list when there is none (defaultdict). */
  function ChangesOf(tl: seq<Timeline>, name: string): seq<Transition> {
    if tl == [] then []
    else if tl[0].appliance == name then tl[0].changes
    else ChangesOf(tl[1..], name)
  }

  /** With distinct keys, the list stored under a key is that key's entry. */
  lemma {:induction false} ChangesOfKey(tl: seq<Timeline>, i: int)
    requires Distinct(Appliances(tl)) && 0 <= i < |tl|
    ensures ChangesOf(tl, tl[i].appliance) == tl[i].changes
  {
    if i > 0 {
      assert Appliances(tl)[0] != Appliances(tl)[i];
      var keys := Appliances(tl[1..]);
      assert forall j :: 0 <= j < |keys| ==> keys[j] == Appliances(tl)[j + 1];
      ChangesOfKey(tl[1..], i - 1);
    }
  }

  /** `appliance_timelines[name].append(t)`: a new key goes last. */
  function Append(tl: seq<Timeline>, name: string, t: Transition): (r: seq<Timeline>)
    ensures Appliances(r) == if name in Appliances(tl) then Appliances(tl) else Appliances(tl) + [name]
    ensures forall n :: ChangesOf(r, n) == if n == name then ChangesOf(tl, n) + [t] else ChangesOf(tl, n)
  {
    if tl == [] then [Timeline(name, [t])]
    else if tl[0].appliance == name then [Timeline(name, tl[0].changes + [t])] + tl[1..]
    else
      var rest := Append(tl[1..], name, t);
      assert ([tl[0]] + rest)[1..] == rest;
      [tl[0]] + rest
  }

  // Attribution of an action text to an appliance.

  /** Index of the first registry entry, from position `k` on, whose name occurs in `text`; |Wattage| if none. */
  function FirstMatchFrom(text: string, k: nat): (j: nat)
    requires k <= |Wattage|
    decreases |Wattage| - k
    ensures k <= j <= |Wattage|
    ensures forall i :: k <= i < j ==> !Contains(text, Wattage[i].name)
    ensures j < |Wattage| ==> Contains(text, Wattage[j].name)
  {
    if k == |Wattage| then k
    else if Contains(text, Wattage[k].name) then k
    else FirstMatchFrom(text, k + 1)
  }

  /** The appliance an action text is attributed to, if any. */
  function Attribute(text: string): Option<string> {
    var k := FirstMatchFrom(text, 0);
    if k < |Wattage| then Some(Wattage[k].name)
    else if Contains(text, FallbackToken) then Some(FallbackName)
    else None
  }

  /** Entry `k` is the first registry entry, in table order, whose name occurs in `text`. */
  ghost predicate IsFirstMatch(text: string, k: int) {
    && 0 <= k < |Wattage|
    && Contains(text, Wattage[k].name)
    && forall j :: 0 <= j < k ==> !Contains(text, Wattage[j].name)
  }

  /** No registered name occurs in `text`. */
  ghost predicate NoNameMatches(text: string) {
    forall j :: 0 <= j < |Wattage| ==> !Contains(text, Wattage[j].name)
  }

  /**
   * The first registered name occurring in the text wins; only when no name
   * occurs does the fallback token decide, and then the result is FallbackName
   * or nothing.
   */
  lemma AttributionRule(text: string)
    ensures forall k :: IsFirstMatch(text, k) ==> Attribute(text) == Some(Wattage[k].name)
    ensures NoNameMatches(text) ==>
      Attribute(text) == if Contains(text, FallbackToken) then Some(FallbackName) else None
    ensures NoNameMatches(text) || exists k :: IsFirstMatch(text, k)
  {
    var k := FirstMatchFrom(text, 0);
    if k < |Wattage| {
      assert IsFirstMatch(text, k);
      forall k' | IsFirstMatch(text, k') ensures k' == k {
      }
    }
  }

  /** Every attributed name is a registered appliance. */
  lemma AttributedRegistered(text: string)
    ensures Attribute(text).Some? ==> Registered(Attribute(text).value)
  {
    assert Names()[0] == FallbackName;
  }

  /** The state recorded for an action text. */
  function StateOf(text: string): State {
    if Contains(text, OnPhrase) then On else Off
  }

  /** The recorded state is On exactly when the phrase "Turned on" occurs in the text. */
  lemma RecordedState(text: string)
    ensures StateOf(text) == On <==> exists i :: OccursAt(text, OnPhrase, i)
    ensures StateOf(text) == Off <==> forall i :: !OccursAt(text, OnPhrase, i)
  {
    ContainsIff(text, OnPhrase);
  }

  /** The `for name in wattage ... else` search of one action text. */
  method MatchAppliance(text: string) returns (name: Option<string>)
    ensures name == Attribute(text)
  {
    var k := 0;
    while k < |Wattage|
      invariant 0 <= k <= |Wattage|
      invariant FirstMatchFrom(text, k) == FirstMatchFrom(text, 0)
    {
      if Contains(text, Wattage[k].name) {
        return Some(Wattage[k].name);
      }
      k := k + 1;
    }
    if Contains(text, FallbackToken) {
      return Some(FallbackName);
    }
    return None;
  }

  // The timeline-building loop.

  /** An entry that has both a timestamp and an action. */
  predicate IsValid(e: ActivityEntry) {
    e.timestamp.Some? && e.action.Some?
  }

  function TransitionOf(e: ActivityEntry): Transition
    requires IsValid(e)
  {
    Transition(StateOf(e.action.value), e.timestamp.value)
  }

  /** The effect of one log entry on the timelines. */
  function Record(tl: seq<Timeline>, e: ActivityEntry): seq<Timeline> {
    if !IsValid(e) then tl
    else match Attribute(e.action.value)
      case None => tl
      case Some(n) => Append(tl, n, TransitionOf(e))
  }

  /** The timelines after processing the whole log in order. */
  function Build(log: seq<ActivityEntry>): seq<Timeline> {
    if log == [] then [] else Record(Build(log[..|log| - 1]), log[|log| - 1])
  }

  /** Step 3 of the handler: parse the activity log into per-appliance timelines. */
  method BuildTimelines(log: seq<ActivityEntry>) returns (tl: seq<Timeline>)
    ensures tl == Build(log)
  {
    tl := [];
    for i := 0 to |log|
      invariant tl == Build(log[..i])
    {
      assert log[..i + 1][..i] == log[..i];
      var entry := log[i];
      if entry.timestamp.None? || entry.action.None? {
        continue;
      }
      var ts, text := entry.timestamp.value, entry.action.value;
      var name := MatchAppliance(text);
      if name.Some? {
        var state := if Contains(text, OnPhrase) then On else Off;
        tl := Append(tl, name.value, Transition(state, ts));
      }
    }
    assert log[..|log|] == log;
  }

  // Reference descriptions of the result.

  /** The valid entries of the log, in order. */
  function ValidEntries(log: seq<ActivityEntry>): seq<ActivityEntry> {
    if log == [] then []
    else ValidEntries(log[..|log| - 1]) + (if IsValid(log[|log| - 1]) then [log[|log| - 1]] else [])
  }

  /** The appliance of each valid, attributed entry, in log order (with repeats). */
  function Attributions(log: seq<ActivityEntry>): seq<string> {
    if log == [] then []
    else
      var e := log[|log| - 1];
      Attributions(log[..|log| - 1])
        + (if IsValid(e) && Attribute(e.action.value).Some? then [Attribute(e.action.value).value] else [])
  }

  /** The transitions of the valid entries attributed to `name`, in log order. */
  function TransitionsFor(log: seq<ActivityEntry>, name: string): seq<Transition> {
    if log == [] then []
    else
      var e := log[|log| - 1];
      TransitionsFor(log[..|log| - 1], name)
        + (if IsValid(e) && Attribute(e.action.value) == Some(name) then [TransitionOf(e)] else [])
  }

  /**
   * The keys of the built timelines are the attributed appliances in order of
   * first appearance, and each appliance's timeline lists exactly the
   * transitions attributed to it, in log order.
   */
  lemma {:induction false} BuildShape(log: seq<ActivityEntry>)
    ensures Appliances(Build(log)) == Dedup(Attributions(log))
    ensures forall n :: ChangesOf(Build(log), n) == TransitionsFor(log, n)
  {
    if log != [] {
      var p, e := log[..|log| - 1], log[|log| - 1];
      BuildShape(p);
      var names := Attributions(log);
      if IsValid(e) && Attribute(e.action.value).Some? {
        assert names[..|names| - 1] == Attributions(p);
      } else {
        assert names == Attributions(p);
      }
    }
  }

  /**
   * Every key of the built timelines is distinct, registered, and the
   * appliance of some valid entry; every attributed appliance is a key.
   */
  lemma TimelineKeys(log: seq<ActivityEntry>)
    ensures Distinct(Appliances(Build(log)))
    ensures forall n :: n in Appliances(Build(log)) <==> n in Attributions(log)
    ensures forall n :: n in Appliances(Build(log)) ==> Registered(n)
  {
    BuildShape(log);
    DedupProperties(Attributions(log));
    AttributionsRegistered(log);
  }

  lemma {:induction false} AttributionsRegistered(log: seq<ActivityEntry>)
    ensures forall n :: n in Attributions(log) ==> Registered(n)
  {
    if log != [] {
      var e := log[|log| - 1];
      AttributionsRegistered(log[..|log| - 1]);
      if IsValid(e) { AttributedRegistered(e.action.value); }
    }
  }

  /** An entry lacking a timestamp or an action has no effect: only the valid entries matter. */
  lemma {:induction false} MalformedEntriesIgnored(log: seq<ActivityEntry>)
    ensures Build(log) == Build(ValidEntries(log))
  {
    if log != [] {
      var p, e := log[..|log| - 1], log[|log| - 1];
      MalformedEntriesIgnored(p);
      var v := ValidEntries(log);
      if IsValid(e) {
        assert v[..|v| - 1] == ValidEntries(p) && v[|v| - 1] == e;
      } else {
        assert v == ValidEntries(p);
      }
    }
  }

  lemma {:induction false} ValidEntriesConcat(a: seq<ActivityEntry>, b: seq<ActivityEntry>)
    ensures ValidEntries(a + b) == ValidEntries(a) + ValidEntries(b)
  {
    if b != [] {
      assert (a + b)[..|a + b| - 1] == a + b[..|b| - 1];
      ValidEntriesConcat(a, b[..|b| - 1]);
    } else {
      assert a + b == a;
    }
  }

  /** Inserting a malformed entry anywhere in the log leaves the timelines unchanged. */
  lemma MalformedEntryAbsent(a: seq<ActivityEntry>, bad: ActivityEntry, b: seq<ActivityEntry>)
    requires !IsValid(bad)
    ensures Build(a + [bad] + b) == Build(a + b)
  {
    ValidEntriesConcat(a + [bad], b);
    ValidEntriesConcat(a, [bad]);
    ValidEntriesConcat(a, b);
    assert [bad][..0] == [];
    assert ValidEntries([bad]) == [];
    assert ValidEntries(a + [bad] + b) == ValidEntries(a + b);
    MalformedEntriesIgnored(a + [bad] + b);
    MalformedEntriesIgnored(a + b);
  }
}
