/**
 * State resolver: the state of one appliance at a query time, found by
 * sorting its transitions by timestamp (stably) and scanning them.
 */
module Resolver {
  import opened Wrappers
  import opened Timelines

  /** Ordered by timestamp, ascending. */
  predicate Sorted(s: seq<Transition>) {
    forall i, j :: 0 <= i < j < |s| ==> s[i].at <= s[j].at
  }

  /** Stable insertion of `x`: it goes right after the last element not later than it. */
  function Insert(x: Transition, s: seq<Transition>): (r: seq<Transition>)
    requires Sorted(s)
    ensures Sorted(r)
    ensures multiset(r) == multiset(s) + multiset{x}
  {
    if s == [] then [x]
    else if s[|s| - 1].at <= x.at then s + [x]
    else
      var p, z := s[..|s| - 1], s[|s| - 1];
      assert s == p + [z];
      var r' := Insert(x, p);
      NotLaterThan(r', p, x, z);
      AppendLatest(r', z);
      r' + [z]
  }

  /** A rearrangement of `p` plus `x` has no element later than `z` when neither `p` nor `x` has. */
  lemma NotLaterThan(r: seq<Transition>, p: seq<Transition>, x: Transition, z: Transition)
    requires multiset(r) == multiset(p) + multiset{x}
    requires forall k :: 0 <= k < |p| ==> p[k].at <= z.at
    requires x.at <= z.at
    ensures forall i :: 0 <= i < |r| ==> r[i].at <= z.at
  {
    forall i | 0 <= i < |r| ensures r[i].at <= z.at {
      assert r[i] in multiset(r);
      if r[i] != x {
        assert r[i] in multiset(p);
        assert r[i] in p;
      }
    }
  }

  /** Appending a transition not earlier than any in a sorted list keeps it sorted. */
  lemma AppendLatest(r: seq<Transition>, z: Transition)
    requires Sorted(r)
    requires forall i :: 0 <= i < |r| ==> r[i].at <= z.at
    ensures Sorted(r + [z])
  {
  }

  /** `sorted(changes, key=lambda x: x[1])`, a stable sort by timestamp. */
  function SortByTime(s: seq<Transition>): (r: seq<Transition>)
    ensures Sorted(r)
    ensures multiset(r) == multiset(s)
  {
    if s == [] then []
    else
      assert s == s[..|s| - 1] + [s[|s| - 1]];
      Insert(s[|s| - 1], SortByTime(s[..|s| - 1]))
  }

  /** The better of the transition found so far and `c`, for query time `t`. */
  function Pick(best: Option<Transition>, c: Transition, t: int): Option<Transition> {
    if c.at <= t && (best.None? || best.value.at <= c.at) then Some(c) else best
  }

  /** The transition in effect at time `t`, taken over the list in its given order. */
  function Latest(s: seq<Transition>, t: int): (r: Option<Transition>)
    ensures r.Some? ==> r.value in s && r.value.at <= t
  {
    if s == [] then None else Pick(Latest(s[..|s| - 1], t), s[|s| - 1], t)
  }

  /** The appliance's state at time `t`; None when no transition is at or before `t`. */
  function StateAt(s: seq<Transition>, t: int): Option<State> {
    match Latest(s, t)
    case None => None
    case Some(c) => Some(c.state)
  }

  /**
   * Position `i` holds the transition in effect at `t`: it is not after `t`,
   * no transition not after `t` is later, and every later-listed one with
   * the same timestamp is absent.
   */
  ghost predicate IsLatestAt(s: seq<Transition>, t: int, i: int) {
    && 0 <= i < |s|
    && s[i].at <= t
    && (forall j :: 0 <= j < |s| && s[j].at <= t ==> s[j].at <= s[i].at)
    && (forall j :: i < j < |s| && s[j].at <= t ==> s[j].at < s[i].at)
  }

  /** Latest() is None exactly when every transition is after `t`. */
  lemma {:induction false} LatestNone(s: seq<Transition>, t: int)
    ensures Latest(s, t).None? <==> forall i :: 0 <= i < |s| ==> s[i].at > t
  {
    if s != [] {
      var p := s[..|s| - 1];
      assert forall j :: 0 <= j < |p| ==> p[j] == s[j];
      LatestNone(p, t);
    }
  }

  /** The transition at a position satisfying IsLatestAt is the one Latest() returns. */
  lemma {:induction false} LatestIsUnique(s: seq<Transition>, t: int, i: int)
    requires IsLatestAt(s, t, i)
    ensures Latest(s, t) == Some(s[i])
  {
    var p, c := s[..|s| - 1], s[|s| - 1];
    assert forall j :: 0 <= j < |p| ==> p[j] == s[j];
    var b := Latest(p, t);
    if i == |s| - 1 {
      if b.Some? {
        var k :| 0 <= k < |p| && p[k] == b.value;
        assert s[k].at <= t;
      }
    } else {
      assert IsLatestAt(p, t, i);
      LatestIsUnique(p, t, i);
    }
  }

  /** What Latest() returns sits at a position satisfying IsLatestAt. */
  lemma {:induction false} LatestExists(s: seq<Transition>, t: int)
    requires Latest(s, t).Some?
    ensures exists i :: IsLatestAt(s, t, i) && s[i] == Latest(s, t).value
  {
    var p, c := s[..|s| - 1], s[|s| - 1];
    var b := Latest(p, t);
    if b.Some? {
      LatestExists(p, t);
      var k :| IsLatestAt(p, t, k) && p[k] == b.value;
      if c.at <= t && b.value.at <= c.at {
        LastBecomesLatest(s, t, k);
      } else {
        EarlierStaysLatest(s, t, k);
      }
    } else {
      LatestNone(p, t);
      OnlyCandidate(s, p, t);
    }
  }

  /** A last transition not after `t` and not earlier than the previous latest one takes over. */
  lemma LastBecomesLatest(s: seq<Transition>, t: int, k: int)
    requires s != [] && IsLatestAt(s[..|s| - 1], t, k)
    requires s[|s| - 1].at <= t && s[k].at <= s[|s| - 1].at
    ensures IsLatestAt(s, t, |s| - 1)
  {
    var p := s[..|s| - 1];
    forall j | 0 <= j < |s| && s[j].at <= t ensures s[j].at <= s[|s| - 1].at {
      if j < |p| { assert p[j] == s[j]; }
    }
  }

  /** A last transition after `t`, or earlier than the latest one so far, changes nothing. */
  lemma EarlierStaysLatest(s: seq<Transition>, t: int, k: int)
    requires s != [] && IsLatestAt(s[..|s| - 1], t, k)
    requires !(s[|s| - 1].at <= t && s[k].at <= s[|s| - 1].at)
    ensures IsLatestAt(s, t, k) && s[k] == s[..|s| - 1][k]
  {
    var p := s[..|s| - 1];
    forall j | 0 <= j < |s| && s[j].at <= t ensures s[j].at <= s[k].at {
      if j < |p| { assert p[j] == s[j]; }
    }
    forall j | k < j < |s| && s[j].at <= t ensures s[j].at < s[k].at {
      if j < |p| { assert p[j] == s[j]; }
    }
  }

  /** A last transition not after `t`, all others being after it, is the latest. */
  lemma OnlyCandidate(s: seq<Transition>, p: seq<Transition>, t: int)
    requires s != [] && s[|s| - 1].at <= t && p == s[..|s| - 1]
    requires forall i :: 0 <= i < |p| ==> p[i].at > t
    ensures IsLatestAt(s, t, |s| - 1)
  {
    assert forall j :: 0 <= j < |p| ==> p[j] == s[j];
  }

  /**
   * Latest() is the transition with the largest timestamp not after `t`,
   * ties going to the one listed last; it is None exactly when every
   * transition is after `t`.
   */
  lemma LatestSpec(s: seq<Transition>, t: int)
    ensures Latest(s, t).None? <==> forall i :: 0 <= i < |s| ==> s[i].at > t
    ensures forall i :: IsLatestAt(s, t, i) ==> Latest(s, t) == Some(s[i])
    ensures Latest(s, t).Some? ==> exists i :: IsLatestAt(s, t, i) && s[i] == Latest(s, t).value
  {
    LatestNone(s, t);
    forall i | IsLatestAt(s, t, i) ensures Latest(s, t) == Some(s[i]) {
      LatestIsUnique(s, t, i);
    }
    if Latest(s, t).Some? {
      LatestExists(s, t);
    }
  }

  /** Transitions after `t` at the end of the list do not change Latest(). */
  lemma {:induction false} LatestIgnoresLaterSuffix(s: seq<Transition>, k: nat, t: int)
    requires k <= |s|
    requires forall j :: k <= j < |s| ==> s[j].at > t
    ensures Latest(s, t) == Latest(s[..k], t)
    decreases |s| - k
  {
    if k < |s| {
      var p := s[..|s| - 1];
      assert p[..k] == s[..k];
      LatestIgnoresLaterSuffix(p, k, t);
    } else {
      assert s[..k] == s;
    }
  }

  /** Dropping the last transition of a sorted list leaves a sorted list, none of it later than the dropped one. */
  lemma SortedInit(s: seq<Transition>, p: seq<Transition>)
    requires Sorted(s) && s != [] && p == s[..|s| - 1]
    ensures Sorted(p)
    ensures forall k :: 0 <= k < |p| ==> p[k].at <= s[|s| - 1].at
  {
  }

  /** Offering one more transition at the end. */
  lemma LatestSnoc(s: seq<Transition>, c: Transition, t: int)
    ensures Latest(s + [c], t) == Pick(Latest(s, t), c, t)
  {
    assert (s + [c])[..|s|] == s;
  }

  /** The transition found in a list none of whose entries is later than `z` is not later than `z`. */
  lemma LatestNotLater(s: seq<Transition>, z: Transition, t: int)
    requires forall k :: 0 <= k < |s| ==> s[k].at <= z.at
    ensures Latest(s, t).Some? ==> Latest(s, t).value.at <= z.at
  {
    if Latest(s, t).Some? {
      var k :| 0 <= k < |s| && s[k] == Latest(s, t).value;
    }
  }

  /**
   * Offering the last transition of `s` after a list `r` that picks like
   * the rest of `s` offered an earlier `x` is offering `x` after all of `s`.
   */
  lemma LatestAfterLater(r: seq<Transition>, s: seq<Transition>, x: Transition, t: int)
    requires s != [] && x.at < s[|s| - 1].at
    requires forall k :: 0 <= k < |s| - 1 ==> s[k].at <= s[|s| - 1].at
    requires Latest(r, t) == Pick(Latest(s[..|s| - 1], t), x, t)
    ensures Latest(r + [s[|s| - 1]], t) == Pick(Latest(s, t), x, t)
  {
    var p, z := s[..|s| - 1], s[|s| - 1];
    LatestSnoc(r, z, t);
    LatestNotLater(p, z, t);
    PickSwap(Latest(p, t), x, z, t);
  }

  /** Inserting before a later last transition inserts into the rest. */
  lemma InsertBeforeLast(x: Transition, s: seq<Transition>)
    requires Sorted(s) && s != [] && x.at < s[|s| - 1].at
    ensures Insert(x, s) == Insert(x, s[..|s| - 1]) + [s[|s| - 1]]
  {
  }

  /** Inserting into a sorted list picks the same transition as offering it last. */
  lemma {:induction false} LatestInsert(x: Transition, s: seq<Transition>, t: int)
    requires Sorted(s)
    ensures Latest(Insert(x, s), t) == Pick(Latest(s, t), x, t)
  {
    if s == [] || s[|s| - 1].at <= x.at {
      LatestInsertAtEnd(x, s, t);
    } else {
      var p := s[..|s| - 1];
      SortedInit(s, p);
      LatestInsert(x, p, t);
      LatestInsertBeforeLast(x, s, t);
    }
  }

  /** Inserting a transition not earlier than the last one appends it. */
  lemma LatestInsertAtEnd(x: Transition, s: seq<Transition>, t: int)
    requires Sorted(s) && (s == [] || s[|s| - 1].at <= x.at)
    ensures Latest(Insert(x, s), t) == Pick(Latest(s, t), x, t)
  {
    LatestSnoc(s, x, t);
    assert s == [] ==> [] + [x] == [x];
  }

  /** Inserting before the last transition: the step of the induction. */
  lemma LatestInsertBeforeLast(x: Transition, s: seq<Transition>, t: int)
    requires Sorted(s) && s != [] && x.at < s[|s| - 1].at
    requires Latest(Insert(x, s[..|s| - 1]), t) == Pick(Latest(s[..|s| - 1], t), x, t)
    ensures Latest(Insert(x, s), t) == Pick(Latest(s, t), x, t)
  {
    InsertBeforeLast(x, s);
    LatestAfterLater(Insert(x, s[..|s| - 1]), s, x, t);
  }

  /** Offering `x` and then a later `z` picks the same as offering them the other way round. */
  lemma PickSwap(b: Option<Transition>, x: Transition, z: Transition, t: int)
    requires x.at < z.at
    requires b.Some? ==> b.value.at <= z.at
    ensures Pick(Pick(b, x, t), z, t) == Pick(Pick(b, z, t), x, t)
  {
  }

  /** Sorting stably by timestamp does not change which transition is in effect. */
  lemma {:induction false} SortPreservesLatest(s: seq<Transition>, t: int)
    ensures Latest(SortByTime(s), t) == Latest(s, t)
  {
    if s != [] {
      SortPreservesLatest(s[..|s| - 1], t);
      LatestInsert(s[|s| - 1], SortByTime(s[..|s| - 1]), t);
    }
  }

  /** In a sorted list, a transition not after `t` is the one in effect over the prefix it ends. */
  lemma SortedStepTakes(s: seq<Transition>, i: int, t: int)
    requires Sorted(s) && 0 <= i < |s| && s[i].at <= t
    ensures Latest(s[..i + 1], t) == Some(s[i])
  {
    assert s[..i + 1][..i] == s[..i];
    var before := Latest(s[..i], t);
    if before.Some? {
      var k :| 0 <= k < i && s[..i][k] == before.value;
      assert s[k] == before.value;
    }
  }

  /** In a sorted list, nothing from the first transition after `t` on is in effect. */
  lemma SortedStepStops(s: seq<Transition>, i: int, t: int)
    requires Sorted(s) && 0 <= i < |s| && s[i].at > t
    ensures Latest(s, t) == Latest(s[..i], t)
  {
    LatestIgnoresLaterSuffix(s, i, t);
  }

  /**
   * The scan of app.py's step 4: walk the sorted transitions, remember the
   * state of each one not after `t`, stop at the first one after `t`.
   */
  method ResolveState(changes: seq<Transition>, t: int) returns (current: Option<State>)
    ensures current == StateAt(changes, t)
  {
    var sorted := SortByTime(changes);
    current := None;
    var i := 0;
    while i < |sorted|
      invariant 0 <= i <= |sorted|
      invariant current == StateAt(sorted[..i], t)
    {
      var c := sorted[i];
      if c.at <= t {
        SortedStepTakes(sorted, i, t);
        current := Some(c.state);
      } else {
        SortedStepStops(sorted, i, t);
        break;
      }
      i := i + 1;
    }
    assert i == |sorted| ==> sorted[..i] == sorted;
    SortPreservesLatest(changes, t);
  }

  /** The transitions not after `t`, in order. */
  function NotAfter(s: seq<Transition>, t: int): seq<Transition> {
    if s == [] then []
    else NotAfter(s[..|s| - 1], t) + (if s[|s| - 1].at <= t then [s[|s| - 1]] else [])
  }

  /** Transitions timestamped after `t` do not affect the state at `t`. */
  lemma {:induction false} LaterTransitionsIgnored(s: seq<Transition>, t: int)
    ensures Latest(s, t) == Latest(NotAfter(s, t), t)
  {
    if s != [] {
      var p, c := s[..|s| - 1], s[|s| - 1];
      LaterTransitionsIgnored(p, t);
      if c.at <= t {
        var n := NotAfter(s, t);
        assert n[..|n| - 1] == NotAfter(p, t);
      } else {
        assert NotAfter(s, t) == NotAfter(p, t);
      }
    }
  }
}
