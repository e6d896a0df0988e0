# Appliance energy attribution

This is a Dafny model of the `/appliancesconsumption` handler of `app.py`.
The handler takes two feeds: an activity log of free-text actions ("AC 1
Turned on") and a series of whole-home power readings. It splits the metered
energy among the appliances that were on during each interval, in proportion
to their rated watts.

The model follows the handler's own steps. Each step is an imperative method
proved equal to a pure specification function. Properties of the behaviour
are then proved as lemmas about those functions.

| module | file | handler step |
|---|---|---|
| `Registry` | registry.dfy | the fixed `wattage` table (step 2) |
| `Timelines` | timelines.dfy | attribution of action texts and the insertion-ordered `appliance_timelines` (step 3) |
| `Resolver` | resolver.dfy | the state of one timeline at an instant: a stable sort by time, then a scan that stops at the first later change |
| `Annotator` | annotator.dfy | `power_records`: every valid reading with its list of active appliances (step 4) |
| `Allocator` | allocator.dfy | the pairwise loop filling the insertion-ordered `consumption` totals (step 5) |
| `Consumption` | consumption.dfy | steps 3 to 6 in sequence, and properties of the whole result |
| `Scenarios` | scenarios.dfy | concrete instances of the rules |
| `Wrappers`, `Seqs`, `Strings` | wrappers.dfy, seqs.dfy, strings.dfy | `Option`, sequence helpers (distinctness, first-occurrence dedup, subsequence), substring containment |

Representation choices:

- **Timestamps** are whole seconds on one common clock (`int`).
- **Readings and energies** are `real`. Division is exact, so Python's float rounding is not modelled.
- **Missing fields:** a record field that may be missing is an `Option`. `None` means the key is absent, which is the case the handler skips.
- **Insertion-ordered dicts:** each is a sequence of key/value pairs. A new key is appended at the end, and a missing key reads as the `defaultdict` default (`[]` or `0.0`).

Two facts about the handler that the model makes explicit:

- **The power feed is not sorted.** Each reading is paired with the one before it in feed order, so an out-of-order pair has a negative duration. If nobody is on at the earlier reading, the pair is skipped. Otherwise the pair still adds its power times that negative duration to the total (`Allocator.IntervalConservation`). With positive power this lowers the total (`Allocator.DegenerateIntervals`); with zero power it adds nothing, and with negative power it raises the total.
- **"Turned on" is a plain substring test.** If the phrase does not occur, the state is off. Which appliance an action belongs to is also a substring test: the first registered name found in the text wins, in table order.

About the numbers in the end-to-end example: it is built from table entries. Exhaust 1 is rated 50 W and Blower 1 200 W, a 1 : 4 ratio. One hour at 400 W therefore splits into 80 Wh and 320 Wh.

## Model

| member | source | states |
|---|---|---|
| Registry.Lookup | app.py:23-33 | a name has a rating exactly when it is one of the nine registered names, and the rating is the positive one the table lists for it |
| Registry.WattageWellFormed | app.py:23-33 | the table has nine entries, no name twice, every rating positive |
| Registry.LookupTable | app.py:23-33 | looking up any table entry's name gives that entry's rating |
| Timelines.Attribute | app.py:44-52 | definition; transcribes the for/else search: the first table name occurring in the text, else AC 1 when "Aircon" occurs, else none |
| Timelines.StateOf | app.py:46-51 | definition; transcribes the ternary: On when "Turned on" occurs in the text, Off otherwise |
| Timelines.Record | app.py:37-52 | definition; transcribes one pass of the log loop: skip an entry lacking a field, otherwise append to the attributed appliance's list |
| Timelines.Build | app.py:36-52 | definition; transcribes the log loop: record each entry in turn, starting from an empty `defaultdict(list)` |
| Timelines.Append | app.py:36-52 | appending to a `defaultdict(list)`: a new key goes last, existing keys keep their place; only the named key's list grows, by exactly the new transition |
| Timelines.ChangesOfKey | app.py:36-47 | with distinct keys, the list found under a key is the one stored with it |
| Timelines.AttributionRule | app.py:44-52 | the first registered name, in table order, that occurs in the text names the appliance; only if no name occurs does "Aircon" decide, giving AC 1, and otherwise the entry is dropped; one of the two cases always applies |
| Timelines.AttributedRegistered | app.py:44-52 | every attributed name is a registered appliance |
| Timelines.RecordedState | app.py:46-51 | the recorded state is On exactly when "Turned on" occurs somewhere in the text, and Off exactly when it occurs nowhere |
| Timelines.MatchAppliance | app.py:44-52 | the for/else search with its early break returns the attribution rule's result |
| Timelines.BuildTimelines | app.py:36-52 | the log loop produces the timelines of the whole log in order |
| Timelines.BuildShape | app.py:36-52 | the keys are the attributed names of the valid entries, each kept the first time it appears; each key's list holds exactly the transitions of the valid entries attributed to it, in log order |
| Timelines.TimelineKeys | app.py:36-52 | the keys have no repeats, are exactly the names some valid entry is attributed to, and are all registered |
| Timelines.AttributionsRegistered | app.py:44-52 | every name attributed from a log is registered |
| Timelines.MalformedEntriesIgnored | app.py:38-39 | entries lacking a timestamp or an action have no effect: the timelines equal those of the valid entries alone |
| Timelines.MalformedEntryAbsent | app.py:38-39 | deleting one entry that lacks a field, anywhere in the log, leaves the timelines unchanged |
| Resolver.Latest | app.py:64-69 | definition; the change whose state the scan leaves in `current_state`, read over the list in its given order |
| Resolver.StateAt | app.py:64-70 | definition; transcribes `current_state`: the state of that change, or none |
| Resolver.SortByTime | app.py:65 | the sorted list is ordered by time and is a permutation of the input |
| Resolver.LatestSpec | app.py:63-69 | no state exactly when every change is after the instant; otherwise the resolved change is the latest one at or before the instant, and among changes with equal timestamps the one listed last |
| Resolver.LatestIsUnique | app.py:65-69 | any position holding a change at or before the instant, with no later-timed change at or before it and no equally timed change after it, holds the change that is resolved |
| Resolver.SortPreservesLatest | app.py:65 | sorting stably by time does not change which change is latest at any instant |
| Resolver.LatestIgnoresLaterSuffix | app.py:66-69 | once a change after the instant is reached in sorted order, the rest cannot change the result, so the `break` is safe |
| Resolver.ResolveState | app.py:64-69 | the sort-then-scan loop with `break` returns the state of the latest change at or before the instant, or none |
| Resolver.LaterTransitionsIgnored | app.py:66-69 | changes after the instant never affect the state at it |
| Annotator.ActiveAt | app.py:62-71 | definition; transcribes the `active` list: the timeline keys, in order, whose state at the instant is on |
| Annotator.Annotation | app.py:55-73 | definition; transcribes `power_records`: one reading per valid record, in feed order |
| Annotator.ActiveList | app.py:62-71 | the loop over the timelines builds exactly the list of appliances whose state at the instant is On |
| Annotator.ActiveIff | app.py:62-71 | with distinct keys, an appliance is listed exactly when it has a timeline and its state at the instant is On |
| Annotator.ActiveShape | app.py:62-71 | the active list has no repeats, names only appliances with timelines, and keeps the timelines' insertion order |
| Annotator.ActiveOrdered | app.py:63 | the active list is a subsequence of the timeline keys in their insertion order |
| Annotator.Annotate | app.py:55-73 | the loop over the power feed produces the annotation of the whole feed |
| Annotator.AnnotationShape | app.py:55-73 | one reading per valid record, in feed order; the k-th carries the k-th valid record's time, power and active list |
| Annotator.ValidRecords | app.py:57-58 | every kept record has both a timestamp and a consumption |
| Annotator.ValidRecordsExact | app.py:56-58 | a record is kept exactly when it is in the feed and has both a timestamp and a consumption |
| Annotator.ValidRecordsOrdered | app.py:56-58 | the kept records keep their relative order in the feed |
| Annotator.MalformedRecordsIgnored | app.py:57-58 | records lacking a field have no effect on the annotation |
| Annotator.AnnotationActiveKeys | app.py:62-73 | every listed appliance has a timeline, and with distinct keys no list repeats a name |
| Allocator.Hours | app.py:80 | definition; transcribes `duration`: the seconds between two readings over 3600 |
| Allocator.Credit | app.py:85-89 | definition; transcribes the inner loop: credit each name in turn its share of power times hours |
| Allocator.Interval | app.py:78-89 | definition; transcribes one pass of the pairwise loop: skip when nobody is on, else credit the active list |
| Allocator.Allocation | app.py:76-89 | definition; transcribes the pairwise loop: every consecutive pair in feed order, starting from an empty `defaultdict(float)` |
| Allocator.AddTo | app.py:76-89 | `consumption[a] += e` on a `defaultdict(float)`: a new key goes last starting from 0.0, only that key's value changes, by exactly `e` |
| Allocator.AddToTotal | app.py:76-89 | the grand total rises by exactly the amount added, new key or not |
| Allocator.RatedSum | app.py:85 | the summed rating of an active list is positive whenever the list is not empty, so the division on line 88 is defined |
| Allocator.CreditActive | app.py:87-89 | the inner loop credits every active appliance its rated share of the interval |
| Allocator.CreditInterval | app.py:78-89 | one pass of the loop body: skip an interval with nobody on, otherwise credit each active appliance its share of the interval |
| Allocator.Allocate | app.py:76-89 | the pairwise loop from index 1 yields the allocation of the whole reading sequence |
| Allocator.CreditTotal | app.py:85-89 | crediting a list adds the list's summed share of the interval's energy to the total |
| Allocator.IntervalConservation | app.py:80-89 | an interval with anyone on adds exactly its power times its duration in hours to the total |
| Allocator.AllocationConservation | app.py:77-89 | the grand total equals the energy of every interval that had an active appliance; intervals with nobody on are lost |
| Allocator.IntervalShare | app.py:85-89 | in one interval an active appliance gains its rated fraction of power times hours, and everyone else is unchanged |
| Allocator.AllocationPerAppliance | app.py:77-89 | each appliance's total is the sum over the intervals where it was on at the start of its rated fraction of that interval's energy |
| Allocator.CreditKeys | app.py:87-89 | crediting extends the key order by the newly credited names, each at its first appearance |
| Allocator.AllocationKeys | app.py:76-95 | the result's keys are the active lists of every reading but the last, concatenated, with each name kept only where it first appears |
| Allocator.ActiveTrailMembers | app.py:77-78 | a name is in that concatenation exactly when it is active at some reading other than the last |
| Allocator.ResultKeys | app.py:92-95 | the result names each appliance once, exactly those active at the start of some interval, in the order they were first credited |
| Allocator.LastReadingOnlyTimestamp | app.py:77-79 | only the last reading's timestamp matters; its power and active list are never read |
| Allocator.CreditNothing | app.py:80-89 | a zero-length interval leaves every total unchanged |
| Allocator.DegenerateIntervals | app.py:80-83 | an interval with nobody on changes nothing; a zero-length interval changes no value; an out-of-order pair with positive power lowers the total |
| Consumption.Result | app.py:92-95 | definition; the response list before rounding: the totals of the allocation over the annotated readings of the built timelines, in key order |
| Consumption.ApplianceConsumption | app.py:36-95 | the handler's steps 3 to 6 compute the result of the two feeds |
| Consumption.ReadingsWellFormed | app.py:44-88 | every name the allocation looks up is registered, so `wattage[a]` never fails; no active list repeats a name |
| Consumption.MalformedInputIgnored | app.py:38-58 | activity entries and power records lacking a field do not change the result |
| Consumption.ResultProperties | app.py:76-95 | no result with fewer than two valid power records; each appliance once, exactly those active at some reading but the last, all registered; each total is its interval-by-interval energy; the totals add up to the energy of the intervals that had someone on |
| Scenarios.DirectMatch | app.py:44-47 | "AC 1 Turned on" names AC 1 directly and records On |
| Scenarios.FallbackMatch | app.py:49-52 | "Aircon Turned off" names no appliance, goes to AC 1 through the token, and records Off |
| Scenarios.UnattributedText | app.py:44-52 | text with neither a registered name nor "Aircon" is dropped |
| Scenarios.DayResolved | app.py:63-71 | changes on at 10:00, off at 11:00, on at 12:00, listed out of order, resolve to On at 10:30, Off at 11:30, nothing at 09:00, On at 12:00 |
| Scenarios.TieGoesToLaterEntry | app.py:65-67 | of two changes at the same instant, the one listed later decides |
| Scenarios.ExampleTimelines | app.py:36-52 | two switch-on entries around an entry without a timestamp give two single-change timelines, in log order |
| Scenarios.ExampleReadings | app.py:55-73 | the two valid readings both list Exhaust 1 and Blower 1, and the record without a consumption is skipped |
| Scenarios.TwoShareAnInterval | app.py:80-89 | one interval shared by two appliances, starting from empty totals, gives each its rated fraction of the interval's energy, in list order |
| Scenarios.ExampleConsumption | app.py:36-95 | the whole handler on that input gives 80 Wh to Exhaust 1 and 320 Wh to Blower 1, in that order |

## Left out

- Fetching both feeds over HTTP, the error response when a fetch fails, the Flask route, CORS and the JSON response wrapper (app.py:7-20, 97, 100) are I/O. The model takes the two decoded feeds as parameters and returns the list of totals.
- Parsing ISO 8601 timestamps and rewriting a trailing `Z` as `+00:00` (app.py:41, 59) is not modelled. Timestamps are given as seconds on one clock. Mixing naive and aware timestamps, which raises in Python, is therefore not represented, and neither are sub-second parts.
- A field that is present but malformed is not modelled; the model only distinguishes present from absent. In the handler, its effect depends on the field:
  - A timestamp that is not a string raises at once (app.py:41, 59).
  - An action that is not a container raises at the `in` tests (app.py:45, 50). A list or dict action turns those tests into membership tests and does not raise.
  - A non-numeric or `null` consumption is stored unchecked (app.py:60, 73). It raises only when its reading starts an interval in which someone is on (app.py:89). As the last valid record, or with an empty active list, it passes silently.
- `round(wh, 2)` in the response (app.py:93) is not modelled. `Consumption.Result` holds the unrounded totals.
- Python float arithmetic is modelled as exact real arithmetic. Rounding errors in the division by `total_watts`, the products and the sums are not captured.
