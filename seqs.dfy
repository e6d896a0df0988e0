/**
 * Facts about sequences used to state the ordering promises of the
 * insertion-ordered dictionaries of the model.
 */
module Seqs {

  /** No element occurs twice. */
  predicate Distinct<T(==)>(s: seq<T>) {
    forall i, j :: 0 <= i < j < |s| ==> s[i] != s[j]
  }

  /** Position of the first occurrence of `x` in `s`. */
  function FirstIndex<T(==)>(s: seq<T>, x: T): (k: nat)
    requires x in s
    ensures k < |s| && s[k] == x && x !in s[..k]
  {
    if s[0] == x then 0 else 1 + FirstIndex(s[1..], x)
  }

  /** The elements of `s` in order of first occurrence, each once. */
  function Dedup<T(==)>(s: seq<T>): seq<T> {
    if s == [] then []
    else
      var d := Dedup(s[..|s| - 1]);
      if s[|s| - 1] in d then d else d + [s[|s| - 1]]
  }

  /** `xs` is `ys` with some elements left out, the rest in the same order. */
  predicate IsSubsequence<T(==)>(xs: seq<T>, ys: seq<T>) {
    if xs == [] then true
    else if ys == [] then false
    else if xs[|xs| - 1] == ys[|ys| - 1] then IsSubsequence(xs[..|xs| - 1], ys[..|ys| - 1])
    else IsSubsequence(xs, ys[..|ys| - 1])
  }

  lemma {:induction false} FirstIndexExtend<T>(s: seq<T>, c: T, x: T)
    requires x in s
    ensures FirstIndex(s + [c], x) == FirstIndex(s, x)
  {
    if s[0] != x {
      assert (s + [c])[1..] == s[1..] + [c];
      FirstIndexExtend(s[1..], c, x);
    }
  }

  lemma {:induction false} FirstIndexOfNew<T>(s: seq<T>, c: T)
    requires c !in s
    ensures FirstIndex(s + [c], c) == |s|
  {
    if s != [] {
      assert (s + [c])[1..] == s[1..] + [c];
      FirstIndexOfNew(s[1..], c);
    }
  }

  /**
   * Dedup keeps exactly the elements of `s`, each once, ordered by the
   * position of their first occurrence in `s`.
   */
  lemma {:induction false} DedupProperties<T>(s: seq<T>)
    ensures Distinct(Dedup(s))
    ensures forall x :: x in Dedup(s) <==> x in s
    ensures forall i, j :: 0 <= i < j < |Dedup(s)| ==>
      FirstIndex(s, Dedup(s)[i]) < FirstIndex(s, Dedup(s)[j])
  {
    if s != [] {
      var p, c := s[..|s| - 1], s[|s| - 1];
      assert s == p + [c];
      DedupProperties(p);
      var d := Dedup(p);
      forall y | y in p ensures FirstIndex(s, y) == FirstIndex(p, y) {
        FirstIndexExtend(p, c, y);
      }
      if c !in d {
        FirstIndexOfNew(p, c);
        var d' := d + [c];
        forall i, j | 0 <= i < j < |d'|
          ensures FirstIndex(s, d'[i]) < FirstIndex(s, d'[j])
        {
          assert d'[i] == d[i] && d[i] in d;
          if j < |d| { assert d'[j] == d[j]; }
        }
      }
    }
  }

  /** A subsequence of all but the last element is a subsequence of the whole. */
  lemma {:induction false} SubsequenceOfPrefix<T>(xs: seq<T>, ys: seq<T>)
    requires ys != [] && IsSubsequence(xs, ys[..|ys| - 1])
    ensures IsSubsequence(xs, ys)
    decreases |ys|, 0
  {
    if xs != [] && xs[|xs| - 1] == ys[|ys| - 1] {
      SubsequenceDropLast(xs, ys[..|ys| - 1]);
    }
  }

  /** Dropping the last element of a subsequence keeps it a subsequence. */
  lemma {:induction false} SubsequenceDropLast<T>(xs: seq<T>, ys: seq<T>)
    requires xs != [] && IsSubsequence(xs, ys)
    ensures IsSubsequence(xs[..|xs| - 1], ys)
    decreases |ys|, 1
  {
    var q := xs[..|xs| - 1];
    var p := ys[..|ys| - 1];
    if xs[|xs| - 1] == ys[|ys| - 1] {
      SubsequenceOfPrefix(q, ys);
    } else {
      SubsequenceDropLast(xs, p);
      SubsequenceOfPrefix(q, ys);
    }
  }

  /**
   * A subsequence of all but the last element of `ys`, extended by that
   * element or not, is a subsequence of `ys`.
   */
  lemma SubsequenceSnoc<T>(xs: seq<T>, ys: seq<T>, keep: bool)
    requires ys != [] && IsSubsequence(xs, ys[..|ys| - 1])
    ensures IsSubsequence(xs + (if keep then [ys[|ys| - 1]] else []), ys)
  {
    if keep {
      var xs' := xs + [ys[|ys| - 1]];
      assert xs'[..|xs'| - 1] == xs;
    } else {
      assert xs + [] == xs;
      SubsequenceOfPrefix(xs, ys);
    }
  }

  /** Appending a non-empty `s` is appending all of it but its last element, then that element. */
  lemma ConcatLast<T>(k: seq<T>, s: seq<T>)
    requires s != []
    ensures k + s == (k + s[..|s| - 1]) + [s[|s| - 1]]
  {
    assert s == s[..|s| - 1] + [s[|s| - 1]];
  }
}
