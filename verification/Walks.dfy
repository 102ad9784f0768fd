/** Finite walks over a directed graph given by its successor lists.  The roster
    graph and the blocked-by graph are both graphs of this form; a node with no
    entry has no successors. */
module Walks {

  function Next<N>(e: map<N, seq<N>>, n: N): seq<N> {
    if n in e then e[n] else []
  }

  ghost predicate IsWalk<N>(e: map<N, seq<N>>, p: seq<N>) {
    && p != []
    && forall i, j | 0 <= i < j < |p| && j == i + 1 :: p[j] in Next(e, p[i])
  }

  function Last<N>(p: seq<N>): N
    requires p != []
  {
    p[|p| - 1]
  }

  /** `b` can be reached from `a` in one step or more. */
  ghost predicate Reaches<N(!new)>(e: map<N, seq<N>>, a: N, b: N) {
    exists p :: IsWalk(e, p) && |p| >= 2 && p[0] == a && Last(p) == b
  }

  ghost predicate Acyclic<N(!new)>(e: map<N, seq<N>>) {
    forall x :: !Reaches(e, x, x)
  }

  ghost predicate NoDuplicates<N>(s: seq<N>) {
    forall i, j | 0 <= i < j < |s| :: s[i] != s[j]
  }

  lemma WalkConcat<N>(e: map<N, seq<N>>, p: seq<N>, q: seq<N>)
    requires IsWalk(e, p) && IsWalk(e, q) && Last(p) == q[0]
    ensures IsWalk(e, p + q[1..]) && Last(p + q[1..]) == Last(q)
  {
    var w := p + q[1..];
    forall i, j | 0 <= i < j < |w| && j == i + 1
      ensures w[j] in Next(e, w[i])
    {
      if j >= |p| {
        assert w[i] == q[i - |p| + 1] && w[j] == q[j - |p| + 1];
      }
    }
  }

  lemma WalkPrepend<N>(e: map<N, seq<N>>, n: N, q: seq<N>)
    requires IsWalk(e, q) && q[0] in Next(e, n)
    ensures IsWalk(e, [n] + q) && Last([n] + q) == Last(q)
  {
    assert IsWalk(e, [n, q[0]]);
    WalkConcat(e, [n, q[0]], q);
    assert [n, q[0]] + q[1..] == [n] + q;
  }

  lemma WalkSlice<N>(e: map<N, seq<N>>, p: seq<N>, i: nat, j: nat)
    requires IsWalk(e, p) && i < j <= |p|
    ensures IsWalk(e, p[i..j])
  {
  }

  /** In an acyclic graph a walk never meets the same node twice. */
  lemma AcyclicWalkIsSimple<N(!new)>(e: map<N, seq<N>>, p: seq<N>)
    requires Acyclic(e) && IsWalk(e, p)
    ensures NoDuplicates(p)
  {
    forall i, j | 0 <= i < j < |p|
      ensures p[i] != p[j]
    {
      WalkSlice(e, p, i, j + 1);
      var w := p[i..j + 1];
      assert !Reaches(e, p[i], p[i]);
      assert w[0] == p[i] && Last(w) == p[j];
    }
  }

  lemma ReachesThrough<N(!new)>(e: map<N, seq<N>>, a: N, b: N, c: N)
    requires Reaches(e, a, b) && c in Next(e, b)
    ensures Reaches(e, a, c)
  {
    var p :| IsWalk(e, p) && |p| >= 2 && p[0] == a && Last(p) == b;
    WalkConcat(e, p, [b, c]);
    assert p + [b, c][1..] == p + [c];
  }

  lemma EdgeReaches<N(!new)>(e: map<N, seq<N>>, a: N, b: N)
    requires b in Next(e, a)
    ensures Reaches(e, a, b)
  {
    assert IsWalk(e, [a, b]);
    assert [a, b][0] == a && Last([a, b]) == b;
  }

  lemma EdgeReachesThrough<N(!new)>(e: map<N, seq<N>>, a: N, b: N, c: N)
    requires b in Next(e, a) && Reaches(e, b, c)
    ensures Reaches(e, a, c)
  {
    var p :| IsWalk(e, p) && |p| >= 2 && p[0] == b && Last(p) == c;
    WalkConcat(e, [a, b], p);
    assert ([a, b] + p[1..])[0] == a;
  }

  // ---- Giving one node new successors --------------------------------------

  /** A walk leads from one of `sources` to `target`; a walk may be a single node. */
  ghost predicate ReachedFrom<N(!new)>(e: map<N, seq<N>>, sources: seq<N>, target: N) {
    exists p :: IsWalk(e, p) && p[0] in sources && Last(p) == target
  }

  /** A walk that leaves `n` nowhere is the same walk before and after `n` is rewired. */
  lemma SameWalk<N>(e: map<N, seq<N>>, e': map<N, seq<N>>, n: N, p: seq<N>)
    requires IsWalk(e, p) && e - {n} == e' - {n}
    requires forall i | 0 <= i < |p| - 1 :: p[i] != n
    ensures IsWalk(e', p)
  {
    forall i, j | 0 <= i < j < |p| && j == i + 1 ensures p[j] in Next(e', p[i]) {
      assert p[j] in Next(e, p[i]);
      assert p[i] in e - {n};
      assert (e - {n})[p[i]] == (e' - {n})[p[i]];
    }
  }

  lemma CycleCreated<N(!new)>(e: map<N, seq<N>>, n: N, r: seq<N>, p: seq<N>)
    requires IsWalk(e, p) && p[0] in r && Last(p) == n
    ensures Reaches(e[n := r], n, n)
  {
    if i :| 0 <= i < |p| - 1 && p[i] == n {
      WalkSlice(e, p, 0, i + 1);
      CycleCreated(e, n, r, p[..i + 1]);
    } else {
      SameWalk(e, e[n := r], n, p);
      WalkConcat(e[n := r], [n, p[0]], p);
      assert ([n, p[0]] + p[1..])[0] == n;
    }
  }

  /** A closed walk of the rewired graph through `n` starts with one of its new
      successors and comes back to `n` by old edges. */
  lemma FirstReturn<N(!new)>(e: map<N, seq<N>>, n: N, r: seq<N>, q: seq<N>)
    requires IsWalk(e[n := r], q) && |q| >= 2 && q[0] == n == Last(q)
    ensures ReachedFrom(e, r, n)
  {
    var e' := e[n := r];
    if i :| 0 < i < |q| - 1 && q[i] == n {
      WalkSlice(e', q, 0, i + 1);
      FirstReturn(e, n, r, q[..i + 1]);
    } else {
      WalkSlice(e', q, 1, |q|);
      SameWalk(e', e, n, q[1..]);
      assert q[1] in Next(e', q[0]);
      assert q[1..][0] in r;
    }
  }

  /** A closed walk of the rewired graph passes through `n`, and can be turned to start there. */
  lemma CycleThrough<N(!new)>(e: map<N, seq<N>>, n: N, r: seq<N>, x: N)
    requires Acyclic(e) && Reaches(e[n := r], x, x)
    ensures ReachedFrom(e, r, n)
  {
    var e' := e[n := r];
    var p :| IsWalk(e', p) && |p| >= 2 && p[0] == x && Last(p) == x;
    assert !Reaches(e, x, x);
    if i :| 0 <= i < |p| - 1 && p[i] == n {
      WalkSlice(e', p, i, |p|);
      WalkSlice(e', p, 0, i + 1);
      WalkConcat(e', p[i..], p[..i + 1]);
      FirstReturn(e, n, r, p[i..] + p[..i + 1][1..]);
    } else {
      SameWalk(e', e, n, p);
    }
  }

  /** Rewiring `n` keeps an acyclic graph acyclic if and only if the old edges do not
      lead from the new successors back to `n`. */
  lemma RewiringKeepsAcyclic<N(!new)>(e: map<N, seq<N>>, n: N, r: seq<N>)
    requires Acyclic(e)
    ensures Acyclic(e[n := r]) <==> !ReachedFrom(e, r, n)
  {
    if ReachedFrom(e, r, n) {
      var p :| IsWalk(e, p) && p[0] in r && Last(p) == n;
      CycleCreated(e, n, r, p);
    } else {
      var e' := e[n := r];
      forall x ensures !Reaches(e', x, x) {
        if Reaches(e', x, x) {
          CycleThrough(e, n, r, x);
        }
      }
    }
  }

  /** Two graphs with the same successors everywhere have the same cycles. */
  lemma SameNextSameCycles<N(!new)>(e: map<N, seq<N>>, e': map<N, seq<N>>)
    requires forall n :: Next(e, n) == Next(e', n)
    ensures Acyclic(e) ==> Acyclic(e')
  {
    forall x | Reaches(e', x, x) ensures Reaches(e, x, x) {
      var p :| IsWalk(e', p) && |p| >= 2 && p[0] == x && Last(p) == x;
      assert IsWalk(e, p) by {
        forall i, j | 0 <= i < j < |p| && j == i + 1 ensures p[j] in Next(e, p[i]) {
          assert p[j] in Next(e', p[i]);
        }
      }
    }
  }

  /** As many elements as places: nothing is listed twice. */
  lemma DistinctCount<T>(r: seq<T>)
    ensures |r| == |(set c | c in r)| <==> NoDuplicates(r)
    ensures |(set c | c in r)| <= |r|
  {
    if r != [] {
      var x, rest := Last(r), r[..|r| - 1];
      DistinctCount(rest);
      assert r == rest + [x];
      assert (set c | c in r) == (set c | c in rest) + {x};
    }
  }
}
