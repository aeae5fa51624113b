/**
 * Two list shapes the worker uses over and over: a loop that maps every
 * element and gives up as soon as one element fails, and the concatenation
 * of per-element lists in element order.
 */
module Sequences {
  import opened Options

  /** The results of f on xs in order; None as soon as f fails on one element. */
  function Traverse<T, U>(xs: seq<T>, f: T -> Option<U>): Option<seq<U>> {
    if xs == [] then Some([])
    else
      match Traverse(xs[..|xs| - 1], f)
      case None => None
      case Some(done) =>
        match f(xs[|xs| - 1])
        case None => None
        case Some(y) => Some(done + [y])
  }

  /** How the results for xs[..i + 1] follow from those for xs[..i]. */
  lemma TraverseStep<T, U>(xs: seq<T>, i: nat, f: T -> Option<U>)
    requires i < |xs|
    ensures Traverse(xs[..i + 1], f) ==
      if Traverse(xs[..i], f).None? || f(xs[i]).None? then None
      else Some(Traverse(xs[..i], f).value + [f(xs[i]).value])
  {
    assert xs[..i + 1][..i] == xs[..i];
  }

  /** Once a prefix fails, the whole list does. */
  lemma {:induction false} TraverseRejectsFrom<T, U>(xs: seq<T>, n: nat, f: T -> Option<U>)
    requires n <= |xs| && Traverse(xs[..n], f).None?
    ensures Traverse(xs, f).None?
    decreases |xs| - n
  {
    if n == |xs| {
      assert xs[..n] == xs;
    } else {
      TraverseStep(xs, n, f);
      TraverseRejectsFrom(xs, n + 1, f);
    }
  }

  /** The traversal fails exactly when f fails on some element. */
  lemma {:induction false} TraverseRejects<T, U>(xs: seq<T>, f: T -> Option<U>)
    ensures Traverse(xs, f).None? <==> exists i :: 0 <= i < |xs| && f(xs[i]).None?
  {
    if xs != [] {
      var init := xs[..|xs| - 1];
      TraverseRejects(init, f);
      if exists i :: 0 <= i < |init| && f(init[i]).None? {
        var i :| 0 <= i < |init| && f(init[i]).None?;
        assert xs[i] == init[i];
      }
      if exists i :: 0 <= i < |xs| && f(xs[i]).None? {
        var i :| 0 <= i < |xs| && f(xs[i]).None?;
        if i < |init| {
          assert xs[i] == init[i];
        }
      }
    }
  }

  /** A successful traversal has one result per element, in element order. */
  lemma {:induction false} TraverseShape<T, U>(xs: seq<T>, f: T -> Option<U>)
    requires Traverse(xs, f).Some?
    ensures var r := Traverse(xs, f).value;
      |r| == |xs| && forall i :: 0 <= i < |xs| ==> f(xs[i]) == Some(r[i])
  {
    if xs != [] {
      var init := xs[..|xs| - 1];
      TraverseShape(init, f);
      assert forall i :: 0 <= i < |init| ==> xs[i] == init[i];
    }
  }

  /** Traversing a + b succeeds exactly when both halves do, and gives a's results, then b's. */
  lemma {:induction false} TraverseAppend<T, U>(a: seq<T>, b: seq<T>, f: T -> Option<U>)
    ensures Traverse(a + b, f) ==
      if Traverse(a, f).None? || Traverse(b, f).None? then None
      else Some(Traverse(a, f).value + Traverse(b, f).value)
    decreases |b|
  {
    if b == [] {
      assert a + b == a;
      if Traverse(a, f).Some? {
        assert Traverse(a, f).value + [] == Traverse(a, f).value;
      }
    } else {
      var init := b[..|b| - 1];
      assert (a + b)[..|a + b| - 1] == a + init;
      assert (a + b)[|a + b| - 1] == b[|b| - 1];
      TraverseAppend(a, init, f);
      var ra, ri := Traverse(a, f), Traverse(init, f);
      if ra.Some? && ri.Some? && f(b[|b| - 1]).Some? {
        assert ra.value + ri.value + [f(b[|b| - 1]).value] == ra.value + (ri.value + [f(b[|b| - 1]).value]);
      }
    }
  }

  /** The lists f gives for the elements of xs, one after another. */
  function ConcatMap<T, U>(xs: seq<T>, f: T -> seq<U>): seq<U> {
    if xs == [] then [] else ConcatMap(xs[..|xs| - 1], f) + f(xs[|xs| - 1])
  }

  /** Splitting the input splits the output at the same place. */
  lemma {:induction false} ConcatMapAppend<T, U>(a: seq<T>, b: seq<T>, f: T -> seq<U>)
    ensures ConcatMap(a + b, f) == ConcatMap(a, f) + ConcatMap(b, f)
    decreases |b|
  {
    if b == [] {
      assert a + b == a;
    } else {
      var init := b[..|b| - 1];
      assert (a + b)[..|a + b| - 1] == a + init;
      ConcatMapAppend(a, init, f);
    }
  }

  /** One more element adds its own list at the end. */
  lemma ConcatMapStep<T, U>(xs: seq<T>, i: nat, f: T -> seq<U>)
    requires i < |xs|
    ensures ConcatMap(xs[..i + 1], f) == ConcatMap(xs[..i], f) + f(xs[i])
  {
    assert xs[..i + 1][..i] == xs[..i];
  }

  /** Three elements give their three lists, in order. */
  lemma ConcatMapThree<T, U>(xs: seq<T>, f: T -> seq<U>)
    requires |xs| == 3
    ensures ConcatMap(xs, f) == f(xs[0]) + f(xs[1]) + f(xs[2])
  {
    assert xs == [xs[0]] + [xs[1]] + [xs[2]];
    ConcatMapAppend([xs[0]] + [xs[1]], [xs[2]], f);
    ConcatMapAppend([xs[0]], [xs[1]], f);
    assert [xs[0]][..0] == [];
    assert [xs[1]][..0] == [];
    assert [xs[2]][..0] == [];
  }

  /** When no element's list is longer than k, the concatenation is at most k per element. */
  lemma {:induction false} ConcatMapBound<T, U>(xs: seq<T>, f: T -> seq<U>, k: nat)
    requires forall i :: 0 <= i < |xs| ==> |f(xs[i])| <= k
    ensures |ConcatMap(xs, f)| <= k * |xs|
  {
    if xs != [] {
      var init := xs[..|xs| - 1];
      assert forall i :: 0 <= i < |init| ==> init[i] == xs[i];
      ConcatMapBound(init, f, k);
      assert k * |init| + k == k * |xs|;
    }
  }

  /** Every element of the concatenation comes from the list of some element, and back. */
  lemma {:induction false} ConcatMapMembers<T, U>(xs: seq<T>, f: T -> seq<U>, y: U)
    ensures y in ConcatMap(xs, f) <==> exists i :: 0 <= i < |xs| && y in f(xs[i])
  {
    if xs != [] {
      var init := xs[..|xs| - 1];
      ConcatMapMembers(init, f, y);
      if exists i :: 0 <= i < |init| && y in f(init[i]) {
        var i :| 0 <= i < |init| && y in f(init[i]);
        assert xs[i] == init[i];
      }
      if exists i :: 0 <= i < |xs| && y in f(xs[i]) {
        var i :| 0 <= i < |xs| && y in f(xs[i]);
        if i < |init| {
          assert xs[i] == init[i];
        }
      }
    }
  }
}
