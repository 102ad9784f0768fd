/** The two recursive aggregations of the orchestrator digest
    (cell_orchestrator.py): task counts rolled up over a roster subtree, and the
    critical path of the blocked-by graph. */
module RosterDigest {
  import opened Walks
  import opened RosterGuard

  datatype TaskStatus = Todo | Doing | Review | Done | Failed | Blocked

  type Counts = TaskStatus -> nat

  function Plus(a: Counts, b: Counts): Counts {
    s => a(s) + b(s)
  }

  // ---- Roll-up -------------------------------------------------------------

  /** What the counts of the cells at the end of `walks` add up to. */
  function Total(owned: CellId -> Counts, walks: seq<seq<CellId>>, s: TaskStatus): nat {
    if walks == [] then 0
    else (if walks[0] == [] then 0 else owned(Last(walks[0]))(s)) + Total(owned, walks[1..], s)
  }

  /** Every walk down from `c`, each listed once. */
  ghost predicate Enumerates(f: Fabric, c: CellId, walks: seq<seq<CellId>>) {
    && NoDuplicates(walks)
    && forall p :: p in walks <==> IsWalk(f.rosters, p) && p[0] == c
  }

  /** Every walk down from `c` whose second cell, if any, is in `children`. */
  ghost predicate EnumeratesVia(f: Fabric, c: CellId, children: seq<CellId>, walks: seq<seq<CellId>>) {
    && NoDuplicates(walks)
    && forall p :: p in walks <==> IsWalk(f.rosters, p) && p[0] == c && (|p| == 1 || p[1] in children)
  }

  ghost predicate FuelCovers(f: Fabric, c: CellId, fuel: nat) {
    forall p | IsWalk(f.rosters, p) && p[0] == c :: |p| <= fuel + 1
  }

  function Prefixed(c: CellId, walks: seq<seq<CellId>>): seq<seq<CellId>> {
    seq(|walks|, i requires 0 <= i < |walks| => [c] + walks[i])
  }

  lemma TotalConcat(owned: CellId -> Counts, a: seq<seq<CellId>>, b: seq<seq<CellId>>, s: TaskStatus)
    ensures Total(owned, a + b, s) == Total(owned, a, s) + Total(owned, b, s)
  {
    if a == [] {
      assert a + b == b;
    } else {
      assert (a + b)[1..] == a[1..] + b;
      TotalConcat(owned, a[1..], b, s);
    }
  }

  lemma TotalPrefixed(owned: CellId -> Counts, c: CellId, a: seq<seq<CellId>>, s: TaskStatus)
    requires [] !in a
    ensures Total(owned, Prefixed(c, a), s) == Total(owned, a, s)
  {
    if a != [] {
      assert Prefixed(c, a)[1..] == Prefixed(c, a[1..]);
      TotalPrefixed(owned, c, a[1..], s);
      assert Last([c] + a[0]) == Last(a[0]);
    }
  }

  lemma PrefixedMembers(f: Fabric, c: CellId, child: CellId, sub: seq<seq<CellId>>)
    requires child in Next(f.rosters, c) && Enumerates(f, child, sub)
    ensures NoDuplicates(Prefixed(c, sub))
    ensures forall p :: p in Prefixed(c, sub) <==> IsWalk(f.rosters, p) && p[0] == c && |p| > 1 && p[1] == child
  {
    var more := Prefixed(c, sub);
    forall p | p in more ensures IsWalk(f.rosters, p) && p[0] == c && |p| > 1 && p[1] == child {
      var k :| 0 <= k < |sub| && p == [c] + sub[k];
      assert sub[k] in sub;
      WalkPrepend(f.rosters, c, sub[k]);
    }
    forall p | IsWalk(f.rosters, p) && p[0] == c && |p| > 1 && p[1] == child ensures p in more {
      WalkSlice(f.rosters, p, 1, |p|);
      var tail := p[1..|p|];
      assert tail in sub && p == [c] + tail;
      var k :| 0 <= k < |sub| && sub[k] == tail;
      assert more[k] == p;
    }
    forall j, k | 0 <= j < k < |more| ensures more[j] != more[k] {
      assert more[j][1..] == sub[j] && more[k][1..] == sub[k];
    }
  }

  lemma ExtendEnumeration(f: Fabric, c: CellId, i: nat, walks: seq<seq<CellId>>, sub: seq<seq<CellId>>)
    requires c in f.rosters && i < |f.rosters[c]| && NoDuplicates(f.rosters[c])
    requires EnumeratesVia(f, c, f.rosters[c][..i], walks)
    requires Enumerates(f, f.rosters[c][i], sub)
    ensures EnumeratesVia(f, c, f.rosters[c][..i + 1], walks + Prefixed(c, sub))
  {
    var roster := f.rosters[c];
    PrefixedMembers(f, c, roster[i], sub);
    assert roster[..i + 1] == roster[..i] + [roster[i]];
    JoinDistinct(walks, Prefixed(c, sub));
  }

  lemma JoinDistinct<T>(a: seq<T>, b: seq<T>)
    requires NoDuplicates(a) && NoDuplicates(b) && forall x | x in a :: x !in b
    ensures NoDuplicates(a + b)
  {
    var c := a + b;
    forall i, j | 0 <= i < j < |c| ensures c[i] != c[j] {
      if i < |a| <= j { assert c[i] in a && c[j] in b; }
    }
  }

  method RollupTaskCounts(f: Fabric, owned: CellId -> Counts, c: CellId, fuel: nat, visited: set<CellId>)
    returns (counts: Counts, ghost walks: seq<seq<CellId>>)
    ensures [] !in walks && forall s :: counts(s) == Total(owned, walks, s)
    ensures Sound(f) && FuelCovers(f, c, fuel) && (forall v | v in visited :: Reaches(f.rosters, v, c)) ==>
              Enumerates(f, c, walks)
    decreases fuel
  {
    counts, walks := owned(c), [[c]];
    assert IsWalk(f.rosters, [c]);
    ghost var live := Sound(f) && FuelCovers(f, c, fuel) && forall v | v in visited :: Reaches(f.rosters, v, c);
    if c !in f.rosters || fuel == 0 {
      forall p | live && IsWalk(f.rosters, p) && p[0] == c ensures p == [c] {
        assert |p| > 1 ==> p[1] in Next(f.rosters, p[0]);
      }
      return;
    }
    if c in visited {
      return;
    }
    var roster := f.rosters[c];
    forall p | IsWalk(f.rosters, p) && p[0] == c && |p| == 1 ensures p == [c] {}
    for i := 0 to |roster|
      invariant [] !in walks && forall s :: counts(s) == Total(owned, walks, s)
      invariant live ==> EnumeratesVia(f, c, roster[..i], walks)
    {
      if roster[i] in f.cells {
        if live {
          VisitedReachChild(f, visited, c, roster[i]);
          FuelCoversChild(f, c, roster[i], fuel);
        }
        var sub; ghost var subWalks;
        sub, subWalks := RollupTaskCounts(f, owned, roster[i], fuel - 1, visited + {c});
        if live { ExtendEnumeration(f, c, i, walks, subWalks); }
        forall s ensures Plus(counts, sub)(s) == Total(owned, walks + Prefixed(c, subWalks), s) {
          TotalConcat(owned, walks, Prefixed(c, subWalks), s);
          TotalPrefixed(owned, c, subWalks, s);
        }
        counts, walks := Plus(counts, sub), walks + Prefixed(c, subWalks);
      }
    }
    assert roster[..|roster|] == roster;
    forall p | live && IsWalk(f.rosters, p) && p[0] == c && |p| > 1 ensures p[1] in roster {
      assert p[1] in Next(f.rosters, p[0]);
    }
  }

  lemma FuelCoversChild(f: Fabric, c: CellId, child: CellId, fuel: nat)
    requires FuelCovers(f, c, fuel) && fuel > 0 && child in Next(f.rosters, c)
    ensures FuelCovers(f, child, fuel - 1)
  {
    forall p | IsWalk(f.rosters, p) && p[0] == child ensures |p| <= fuel {
      WalkPrepend(f.rosters, c, p);
      assert ([c] + p)[0] == c;
    }
  }

  /** Under the roster invariant neither the fuel nor the visited guard ever cuts
      the recursion: the roll-up is the per-path sum over all descendants. */
  method RollupForDigest(f: Fabric, owned: CellId -> Counts, c: CellId) returns (counts: Counts)
    requires c in f.cells
    ensures Good(f) ==> exists walks :: Enumerates(f, c, walks)
    ensures Good(f) ==> forall walks, s | Enumerates(f, c, walks) :: counts(s) == Total(owned, walks, s)
    ensures Good(f) && OneParent(f) ==> exists cells :: ListsBelow(f, c, cells)
    ensures Good(f) && OneParent(f) ==> forall cells, s | ListsBelow(f, c, cells) :: counts(s) == SumOver(owned, cells, s)
  {
    if Good(f) { FuelSuffices(f, c); }
    ghost var walks;
    counts, walks := RollupTaskCounts(f, owned, c, MAX_ORCHESTRATOR_DEPTH, {});
    forall other, s | Good(f) && Enumerates(f, c, other) ensures counts(s) == Total(owned, other, s) {
      TotalOfSameWalks(owned, walks, other, s);
    }
    if Good(f) && OneParent(f) {
      EndsListBelow(f, c, walks);
      forall cells, s | ListsBelow(f, c, cells) ensures counts(s) == SumOver(owned, cells, s) {
        TotalIsSumOverEnds(owned, walks, s);
        TotalOfSameWalks(owned, Single(Ends(walks)), Single(cells), s) by {
          SingleMembers(Ends(walks));
          SingleMembers(cells);
        }
      }
    }
  }

  // ---- Rosters that form a tree --------------------------------------------

  ghost predicate OneParent(f: Fabric) {
    forall a, b, m | m in Next(f.rosters, a) && m in Next(f.rosters, b) :: a == b
  }

  /** The cell and its descendants, each listed once. */
  ghost predicate ListsBelow(f: Fabric, c: CellId, cells: seq<CellId>) {
    NoDuplicates(cells) && forall x :: x in cells <==> x == c || Reaches(f.rosters, c, x)
  }

  function Single(cells: seq<CellId>): seq<seq<CellId>> {
    seq(|cells|, i requires 0 <= i < |cells| => [cells[i]])
  }

  /** What the cells themselves own, added up. */
  function SumOver(owned: CellId -> Counts, cells: seq<CellId>, s: TaskStatus): nat {
    Total(owned, Single(cells), s)
  }

  function Ends(walks: seq<seq<CellId>>): seq<CellId>
    requires [] !in walks
  {
    seq(|walks|, i requires 0 <= i < |walks| => assert walks[i] in walks; Last(walks[i]))
  }

  lemma SingleMembers(cells: seq<CellId>)
    requires NoDuplicates(cells)
    ensures NoDuplicates(Single(cells)) && forall p :: p in Single(cells) <==> |p| == 1 && p[0] in cells
  {
    forall p | |p| == 1 && p[0] in cells ensures p in Single(cells) {
      var i :| 0 <= i < |cells| && cells[i] == p[0];
      assert Single(cells)[i] == p;
    }
    forall i, j | 0 <= i < j < |cells| ensures Single(cells)[i] != Single(cells)[j] {
      assert Single(cells)[i][0] != Single(cells)[j][0];
    }
  }

  lemma {:induction false} TotalIsSumOverEnds(owned: CellId -> Counts, walks: seq<seq<CellId>>, s: TaskStatus)
    requires [] !in walks
    ensures Total(owned, walks, s) == SumOver(owned, Ends(walks), s)
  {
    if walks != [] {
      assert walks[0] in walks && [] !in walks[1..];
      TotalIsSumOverEnds(owned, walks[1..], s);
      assert Single(Ends(walks))[1..] == Single(Ends(walks[1..]));
    }
  }

  /** In a tree the walks down from a cell end in its descendants, in each exactly once. */
  lemma EndsListBelow(f: Fabric, c: CellId, walks: seq<seq<CellId>>)
    requires Acyclic(f.rosters) && OneParent(f) && Enumerates(f, c, walks) && [] !in walks
    ensures ListsBelow(f, c, Ends(walks))
  {
    var ends := Ends(walks);
    forall i, j | 0 <= i < j < |walks| ensures ends[i] != ends[j] {
      assert walks[i] in walks && walks[j] in walks;
      if ends[i] == ends[j] { TreeWalksAreUnique(f, walks[i], walks[j]); }
    }
    forall x ensures x in ends <==> x == c || Reaches(f.rosters, c, x) {
      if x in ends {
        var i :| 0 <= i < |walks| && ends[i] == x;
        assert walks[i] in walks;
        assert |walks[i]| == 1 ==> walks[i] == [c];
      }
      if x == c || Reaches(f.rosters, c, x) {
        var p := if x == c then [c] else WalkTo(f, c, x);
        assert IsWalk(f.rosters, [c]);
        assert p in walks;
        var i :| 0 <= i < |walks| && walks[i] == p;
        assert ends[i] == x;
      }
    }
  }

  ghost function WalkTo(f: Fabric, a: CellId, b: CellId): (p: seq<CellId>)
    requires Reaches(f.rosters, a, b)
    ensures IsWalk(f.rosters, p) && p[0] == a && Last(p) == b
  {
    var p :| IsWalk(f.rosters, p) && |p| >= 2 && p[0] == a && Last(p) == b;
    p
  }

  lemma FuelSuffices(f: Fabric, c: CellId)
    requires Good(f)
    ensures FuelCovers(f, c, MAX_ORCHESTRATOR_DEPTH)
  {
    forall p | IsWalk(f.rosters, p) && p[0] == c ensures |p| <= MAX_ORCHESTRATOR_DEPTH + 1 {
      if |p| > 1 {
        var q := p[0..|p| - 1];
        WalkSlice(f.rosters, p, 0, |p| - 1);
        assert p[|p| - 1] in Next(f.rosters, p[|p| - 2]);
        assert IsChain(f, q);
      }
    }
  }

  lemma TotalOfSameWalks(owned: CellId -> Counts, a: seq<seq<CellId>>, b: seq<seq<CellId>>, s: TaskStatus)
    requires NoDuplicates(a) && NoDuplicates(b) && forall p :: p in a <==> p in b
    ensures Total(owned, a, s) == Total(owned, b, s)
  {
    assert b != [] ==> b[0] in b;
    if a != [] {
      var k := SameAfterRemoval(a, b);
      TotalOfSameWalks(owned, a[1..], b[..k] + b[k + 1..], s);
      TotalWithout(owned, b, k, s);
    }
  }

  lemma TotalWithout(owned: CellId -> Counts, b: seq<seq<CellId>>, k: nat, s: TaskStatus)
    requires k < |b|
    ensures Total(owned, b, s) == Total(owned, b[..k] + b[k + 1..], s) + if b[k] == [] then 0 else owned(Last(b[k]))(s)
  {
    var rest := [b[k]] + b[k + 1..];
    assert b == b[..k] + rest && rest[1..] == b[k + 1..];
    TotalConcat(owned, b[..k], rest, s);
    TotalConcat(owned, b[..k], b[k + 1..], s);
  }

  lemma SameAfterRemoval<T>(a: seq<T>, b: seq<T>) returns (k: nat)
    requires NoDuplicates(a) && NoDuplicates(b) && a != [] && forall p :: p in a <==> p in b
    ensures k < |b| && b[k] == a[0]
    ensures NoDuplicates(b[..k] + b[k + 1..])
    ensures forall p :: p in a[1..] <==> p in b[..k] + b[k + 1..]
  {
    assert a[0] in a;
    k :| 0 <= k < |b| && b[k] == a[0];
    var rest := b[..k] + b[k + 1..];
    assert a == [a[0]] + a[1..];
    assert b == b[..k] + [b[k]] + b[k + 1..];
    assert b[k] !in rest && a[0] !in a[1..];
    forall p ensures p in a[1..] <==> p in a && p != a[0] {}
    forall p ensures p in rest <==> p in b && p != b[k] {}
  }

  /** When no cell has two parents, each descendant ends exactly one walk. */
  lemma {:induction false} TreeWalksAreUnique(f: Fabric, p: seq<CellId>, q: seq<CellId>)
    requires Acyclic(f.rosters)
    requires OneParent(f)
    requires IsWalk(f.rosters, p) && IsWalk(f.rosters, q) && p[0] == q[0] && Last(p) == Last(q)
    ensures p == q
  {
    AcyclicWalkIsSimple(f.rosters, p);
    AcyclicWalkIsSimple(f.rosters, q);
    if |p| > 1 && |q| > 1 {
      var p', q' := p[0..|p| - 1], q[0..|q| - 1];
      WalkSlice(f.rosters, p, 0, |p| - 1);
      WalkSlice(f.rosters, q, 0, |q| - 1);
      assert p[|p| - 1] in Next(f.rosters, p[|p| - 2]);
      assert q[|q| - 1] in Next(f.rosters, q[|q| - 2]);
      TreeWalksAreUnique(f, p', q');
      assert p == p' + [Last(p)] && q == q' + [Last(q)];
    }
  }

  // ---- Critical path -------------------------------------------------------

  type TaskId = nat

  /** A blocked-by walk that meets no task twice, except that its last task may
      be one it has met before (or one already in `visited`). */
  ghost predicate GuardedWalk(e: map<TaskId, seq<TaskId>>, p: seq<TaskId>, visited: set<TaskId>) {
    && IsWalk(e, p)
    && NoDuplicates(p[..|p| - 1])
    && forall t | t in p[..|p| - 1] :: t !in visited
  }

  /** `chain` is a longest guarded walk from `t`. */
  ghost predicate IsLongest(e: map<TaskId, seq<TaskId>>, t: TaskId, visited: set<TaskId>, chain: seq<TaskId>) {
    && chain != [] && chain[0] == t && GuardedWalk(e, chain, visited)
    && forall p | GuardedWalk(e, p, visited) && p[0] == t :: |p| <= |chain|
  }

  /** `best` is a longest guarded walk from the first `n` of `starts`. */
  ghost predicate LongestOfFirst(e: map<TaskId, seq<TaskId>>, starts: seq<TaskId>, n: nat, visited: set<TaskId>, best: seq<TaskId>)
    requires n <= |starts|
  {
    && (n > 0 <==> best != [])
    && (best != [] ==> best[0] in starts && GuardedWalk(e, best, visited))
    && (forall p, i | GuardedWalk(e, p, visited) && 0 <= i < n && p[0] == starts[i] :: |p| <= |best|)
  }

  lemma LongestOfNext(e: map<TaskId, seq<TaskId>>, starts: seq<TaskId>, n: nat, visited: set<TaskId>,
                      best: seq<TaskId>, chain: seq<TaskId>)
    requires n < |starts| && LongestOfFirst(e, starts, n, visited, best) && IsLongest(e, starts[n], visited, chain)
    ensures LongestOfFirst(e, starts, n + 1, visited, if |chain| > |best| then chain else best)
  {
  }

  method LongestChain(e: map<TaskId, seq<TaskId>>, t: TaskId, visited: set<TaskId>) returns (chain: seq<TaskId>)
    ensures IsLongest(e, t, visited, chain)
    decreases e.Keys - visited
  {
    if t in visited {
      NoneFromVisited(e, t, visited);
      return [t];
    }
    var blockers := Next(e, t);
    var best: seq<TaskId> := [];
    for i := 0 to |blockers|
      invariant LongestOfFirst(e, blockers, i, visited + {t}, best)
    {
      var candidate := LongestChain(e, blockers[i], visited + {t});
      LongestOfNext(e, blockers, i, visited + {t}, best, candidate);
      if |candidate| > |best| {
        best := candidate;
      }
    }
    LongestFromHere(e, t, visited, best);
    chain := [t] + best;
  }

  lemma NoneFromVisited(e: map<TaskId, seq<TaskId>>, t: TaskId, visited: set<TaskId>)
    requires t in visited
    ensures IsLongest(e, t, visited, [t])
  {
    forall p | GuardedWalk(e, p, visited) && p[0] == t ensures |p| <= 1 {
      if |p| > 1 { GuardedTail(e, p, visited); }
    }
  }

  lemma LongestFromHere(e: map<TaskId, seq<TaskId>>, t: TaskId, visited: set<TaskId>, best: seq<TaskId>)
    requires t !in visited && LongestOfFirst(e, Next(e, t), |Next(e, t)|, visited + {t}, best)
    ensures IsLongest(e, t, visited, [t] + best)
  {
    if best == [] {
      assert [t] + best == [t] && [t][..0] == [];
    } else {
      GuardedPrepend(e, t, best, visited);
    }
    forall p | GuardedWalk(e, p, visited) && p[0] == t ensures |p| <= |best| + 1 {
      if |p| > 1 {
        GuardedTail(e, p, visited);
        assert p[1..][0] in Next(e, t);
      }
    }
  }

  lemma GuardedTail(e: map<TaskId, seq<TaskId>>, p: seq<TaskId>, visited: set<TaskId>)
    requires GuardedWalk(e, p, visited) && |p| > 1
    ensures p[0] !in visited && p[1] in Next(e, p[0]) && GuardedWalk(e, p[1..], visited + {p[0]})
  {
    var init, tail := p[..|p| - 1], p[1..];
    WalkSlice(e, p, 1, |p|);
    assert p[1..|p|] == tail && init[0] == p[0];
    forall i | 0 <= i < |tail| - 1 ensures tail[i] == init[i + 1] {}
  }

  lemma GuardedPrepend(e: map<TaskId, seq<TaskId>>, t: TaskId, best: seq<TaskId>, visited: set<TaskId>)
    requires t !in visited && best != [] && best[0] in Next(e, t) && GuardedWalk(e, best, visited + {t})
    ensures GuardedWalk(e, [t] + best, visited)
  {
    var p := [t] + best;
    WalkPrepend(e, t, best);
    assert p[..|p| - 1] == [t] + best[..|best| - 1];
    forall i | 0 <= i < |best| - 1 ensures best[i] != t { assert best[i] in best[..|best| - 1]; }
  }

  /** On an acyclic graph the guard never fires: the result is a longest walk of
      all, and it meets no task twice. */
  lemma GuardInvisibleWhenAcyclic(e: map<TaskId, seq<TaskId>>, p: seq<TaskId>)
    requires Acyclic(e) && IsWalk(e, p)
    ensures GuardedWalk(e, p, {}) && NoDuplicates(p)
  {
    AcyclicWalkIsSimple(e, p);
  }

  /** The critical path of the digest: the first longest chain over the blocked
      tasks, taken in the order of `ids`. */
  method CriticalPath(e: map<TaskId, seq<TaskId>>, ids: seq<TaskId>) returns (best: seq<TaskId>)
    requires forall t :: t in ids <==> t in e
    ensures best == [] <==> e == map[]
    ensures best != [] ==> best[0] in e && GuardedWalk(e, best, {})
    ensures forall p | GuardedWalk(e, p, {}) && p[0] in e :: |p| <= |best|
    ensures Acyclic(e) ==> NoDuplicates(best)
    ensures Acyclic(e) ==> forall p | IsWalk(e, p) && p[0] in e :: |p| <= |best|
  {
    best := [];
    for i := 0 to |ids|
      invariant LongestOfFirst(e, ids, i, {}, best)
    {
      var chain := LongestChain(e, ids[i], {});
      LongestOfNext(e, ids, i, {}, best, chain);
      if |chain| > |best| {
        best := chain;
      }
    }
    LongestFromAny(e, ids, best);
    if Acyclic(e) {
      LongestOfAll(e, best);
    }
  }

  lemma LongestFromAny(e: map<TaskId, seq<TaskId>>, ids: seq<TaskId>, best: seq<TaskId>)
    requires (forall t :: t in ids <==> t in e) && LongestOfFirst(e, ids, |ids|, {}, best)
    ensures best == [] <==> e == map[]
    ensures best != [] ==> best[0] in e && GuardedWalk(e, best, {})
    ensures forall p | GuardedWalk(e, p, {}) && p[0] in e :: |p| <= |best|
  {
    if ids == [] {
      assert e.Keys == {};
    } else {
      assert ids[0] in e;
    }
    forall p | GuardedWalk(e, p, {}) && p[0] in e ensures |p| <= |best| {
      assert p[0] in ids;
    }
  }

  lemma LongestOfAll(e: map<TaskId, seq<TaskId>>, best: seq<TaskId>)
    requires Acyclic(e) && (best != [] ==> IsWalk(e, best))
    requires forall p | GuardedWalk(e, p, {}) && p[0] in e :: |p| <= |best|
    ensures best != [] ==> NoDuplicates(best)
    ensures forall p | IsWalk(e, p) && p[0] in e :: |p| <= |best|
  {
    if best != [] {
      GuardInvisibleWhenAcyclic(e, best);
    }
    forall p | IsWalk(e, p) && p[0] in e ensures |p| <= |best| {
      GuardInvisibleWhenAcyclic(e, p);
    }
  }
}
