/** The gate every roster write passes through (cell_orchestrator.py): it looks
    at the stored graph and one edit, and must decide a property of the edited
    graph. */
module RosterGuard {
  import opened Walks
  import opened Wrappers

  type CellId = string

  const MAX_ROSTER_SIZE := 7
  const MAX_ORCHESTRATOR_DEPTH := 3

  /** The cell_definitions rows of one System: `cells` are the rows, `rosters`
      the non-null rosters.  A cell without a roster is a worker. */
  datatype Table = Table(cells: set<CellId>, rosters: map<CellId, seq<CellId>>)

  type Fabric = t: Table | t.rosters.Keys <= t.cells witness Table({}, map[])

  datatype Verdict =
    | Accepted
    | TooWide(size: nat)
    | Duplicated
    | RostersItself
    | MissingCells(names: set<CellId>)
    | WouldCycle
    | TooDeep(depth: nat)

  /** The table after `cell` is created or updated with `roster`. */
  function Edited(f: Fabric, cell: CellId, roster: Option<seq<CellId>>): Fabric {
    match roster
    case None => Table(f.cells + {cell}, f.rosters - {cell})
    case Some(r) => Table(f.cells + {cell}, f.rosters[cell := r])
  }

  // ---- What the gate has to guarantee ------------------------------------

  ghost predicate WellReferenced(f: Fabric) {
    forall c | c in f.rosters ::
      && |f.rosters[c]| <= MAX_ROSTER_SIZE
      && NoDuplicates(f.rosters[c])
      && forall m | m in f.rosters[c] :: m in f.cells
  }

  /** A nesting of orchestrators, each rostered by the one before it; only the
      last could be a worker, so only the last has to be ruled out. */
  ghost predicate IsChain(f: Fabric, p: seq<CellId>) {
    IsWalk(f.rosters, p) && Last(p) in f.rosters
  }

  ghost predicate Shallow(f: Fabric) {
    forall p | IsChain(f, p) :: |p| <= MAX_ORCHESTRATOR_DEPTH
  }

  ghost predicate Good(f: Fabric) {
    WellReferenced(f) && Acyclic(f.rosters) && Shallow(f)
  }

  // ---- Stack-based reachability search ------------------------------------

  ghost function Mentioned(f: Fabric, roster: seq<CellId>): set<CellId> {
    (set c | c in roster) + (set c, m | c in f.rosters && m in f.rosters[c] :: m)
  }

  method WouldCreateCycle(f: Fabric, cell: CellId, roster: seq<CellId>) returns (cyclic: bool)
    ensures cyclic <==> ReachedFrom(f.rosters, roster, cell)
  {
    var stack := roster;
    var seen: set<CellId> := {};
    forall c | c in stack ensures ReachedFrom(f.rosters, roster, c) {
      assert IsWalk(f.rosters, [c]);
    }
    while stack != []
      invariant seen <= Mentioned(f, roster) && forall c | c in stack :: c in Mentioned(f, roster)
      invariant forall c | c in stack || c in seen :: ReachedFrom(f.rosters, roster, c)
      invariant cell !in seen
      invariant forall c | c in roster :: c in stack || c in seen
      invariant forall c, m | c in seen && m in Next(f.rosters, c) :: m in stack || m in seen
      decreases Mentioned(f, roster) - seen, |stack|
    {
      var current := Last(stack);
      assert forall c | c in stack :: c == current || c in stack[..|stack| - 1];
      stack := stack[..|stack| - 1];
      if current == cell {
        return true;
      }
      if current !in seen {
        seen := seen + {current};
        if current in f.rosters {
          ExtendReach(f.rosters, roster, current);
          stack := stack + f.rosters[current];
        }
      }
    }
    SeenIsClosed(f.rosters, roster, seen, cell);
    return false;
  }

  lemma ExtendReach(e: map<CellId, seq<CellId>>, sources: seq<CellId>, c: CellId)
    requires ReachedFrom(e, sources, c)
    ensures forall m | m in Next(e, c) :: ReachedFrom(e, sources, m)
  {
    var p :| IsWalk(e, p) && p[0] in sources && Last(p) == c;
    forall m | m in Next(e, c)
      ensures ReachedFrom(e, sources, m)
    {
      WalkConcat(e, p, [c, m]);
      assert (p + [c, m][1..])[0] in sources;
    }
  }

  lemma SeenIsClosed(e: map<CellId, seq<CellId>>, roster: seq<CellId>, seen: set<CellId>, cell: CellId)
    requires cell !in seen
    requires forall c | c in roster :: c in seen
    requires forall c, m | c in seen && m in Next(e, c) :: m in seen
    ensures !ReachedFrom(e, roster, cell)
  {
    if ReachedFrom(e, roster, cell) {
      var p :| IsWalk(e, p) && p[0] in roster && Last(p) == cell;
      for i := 0 to |p|
        invariant forall j | 0 <= j < i :: p[j] in seen
      {
        if i > 0 { assert p[i] in Next(e, p[i - 1]); }
      }
      assert false;
    }
  }

  // ---- Longest chains below and above a cell ------------------------------

  /** `d` is the length of the longest chain that starts at `c`. */
  ghost predicate IsDepth(f: Fabric, c: CellId, d: nat) {
    && (forall p | IsChain(f, p) && p[0] == c :: |p| <= d)
    && (d > 0 ==> exists p :: IsChain(f, p) && p[0] == c && |p| == d)
  }

  /** `d` is one more than the longest chain that starts in `roster`. */
  ghost predicate IsProposedDepth(f: Fabric, roster: seq<CellId>, d: nat) {
    && d > 0
    && (forall p | IsChain(f, p) && p[0] in roster :: |p| < d)
    && (d > 1 ==> exists p :: IsChain(f, p) && p[0] in roster && |p| == d - 1)
  }

  /** `h` is the length of the longest chain that ends just above `c`. */
  ghost predicate IsHeight(f: Fabric, c: CellId, h: nat) {
    && (forall p | IsWalk(f.rosters, p) && Last(p) == c :: |p| <= h + 1)
    && (exists p :: IsWalk(f.rosters, p) && Last(p) == c && |p| == h + 1)
  }

  ghost predicate Sound(f: Fabric) {
    WellReferenced(f) && Acyclic(f.rosters)
  }

  method CellRowDepth(f: Fabric, c: CellId, visited: set<CellId>) returns (d: nat)
    requires c in f.cells
    ensures Sound(f) && (forall v | v in visited :: Reaches(f.rosters, v, c)) ==> IsDepth(f, c, d)
    decreases f.cells - visited
  {
    if c !in f.rosters {
      NoChainFromWorker(f, c);
      return 0;
    }
    var roster := f.rosters[c];
    if roster == [] {
      assert IsChain(f, [c]);
      forall p | IsChain(f, p) && p[0] == c ensures |p| <= 1 {
        assert |p| > 1 ==> p[1] in Next(f.rosters, p[0]);
      }
      return 1;
    }
    if c in visited {
      return MAX_ORCHESTRATOR_DEPTH + 1;
    }
    ghost var live := Sound(f) && forall v | v in visited :: Reaches(f.rosters, v, c);
    var best: nat := 0;
    for i := 0 to |roster|
      invariant live ==> DepthOfFirst(f, roster, i, best)
    {
      var k: nat := 0;
      if roster[i] in f.cells {
        if live { VisitedReachChild(f, visited, c, roster[i]); }
        k := CellRowDepth(f, roster[i], visited + {c});
      } else {
        NoChainOutside(f, roster[i]);
      }
      if live { DepthOfNext(f, roster, i, best, k); }
      if k > best {
        best := k;
      }
    }
    if live { StepDown(f, c, best); }
    d := 1 + best;
  }

  /** `best` is the length of the longest chain from one of the first `n` members. */
  ghost predicate DepthOfFirst(f: Fabric, roster: seq<CellId>, n: nat, best: nat)
    requires n <= |roster|
  {
    && (forall p, i | IsChain(f, p) && 0 <= i < n && p[0] == roster[i] :: |p| <= best)
    && (best > 0 ==> exists p :: IsChain(f, p) && p[0] in roster && |p| == best)
  }

  lemma DepthOfNext(f: Fabric, roster: seq<CellId>, n: nat, best: nat, k: nat)
    requires n < |roster| && DepthOfFirst(f, roster, n, best)
    requires IsDepth(f, roster[n], k)
    ensures DepthOfFirst(f, roster, n + 1, if k > best then k else best)
  {
  }

  lemma NoChainFromWorker(f: Fabric, c: CellId)
    requires c !in f.rosters
    ensures forall p | IsChain(f, p) :: p[0] != c
  {
    forall p | IsChain(f, p) ensures p[0] != c {
      assert |p| > 1 ==> p[1] in Next(f.rosters, p[0]);
    }
  }

  lemma NoChainOutside(f: Fabric, c: CellId)
    requires c !in f.rosters
    ensures IsDepth(f, c, 0)
  {
    NoChainFromWorker(f, c);
  }

  lemma DepthOfAll(f: Fabric, roster: seq<CellId>, best: nat)
    requires DepthOfFirst(f, roster, |roster|, best)
    ensures IsProposedDepth(f, roster, best + 1)
  {
  }

  lemma VisitedReachChild(f: Fabric, visited: set<CellId>, c: CellId, child: CellId)
    requires child in Next(f.rosters, c)
    requires forall v | v in visited :: Reaches(f.rosters, v, c)
    ensures forall v | v in visited + {c} :: Reaches(f.rosters, v, child)
  {
    forall v | v in visited + {c} ensures Reaches(f.rosters, v, child) {
      if v == c { EdgeReaches(f.rosters, c, child); } else { ReachesThrough(f.rosters, v, c, child); }
    }
  }

  lemma StepDown(f: Fabric, c: CellId, best: nat)
    requires c in f.rosters && DepthOfFirst(f, f.rosters[c], |f.rosters[c]|, best)
    ensures IsDepth(f, c, best + 1)
  {
    forall p | IsChain(f, p) && p[0] == c ensures |p| <= best + 1 {
      if |p| > 1 { ChainBehindFirst(f, p, best); }
    }
    var longest := LongestDown(f, c, best);
  }

  lemma ChainBehindFirst(f: Fabric, p: seq<CellId>, best: nat)
    requires IsChain(f, p) && |p| > 1 && p[0] in f.rosters
    requires DepthOfFirst(f, f.rosters[p[0]], |f.rosters[p[0]]|, best)
    ensures |p| <= best + 1
  {
    var q, roster := p[1..|p|], f.rosters[p[0]];
    WalkSlice(f.rosters, p, 1, |p|);
    assert p[1] in Next(f.rosters, p[0]);
    var i :| 0 <= i < |roster| && q[0] == roster[i];
    assert IsChain(f, q);
  }

  lemma LongestDown(f: Fabric, c: CellId, best: nat) returns (p: seq<CellId>)
    requires c in f.rosters && DepthOfFirst(f, f.rosters[c], |f.rosters[c]|, best)
    ensures IsChain(f, p) && p[0] == c && |p| == best + 1
  {
    if best == 0 {
      p := [c];
    } else {
      var q :| IsChain(f, q) && q[0] in f.rosters[c] && |q| == best;
      WalkPrepend(f.rosters, c, q);
      p := [c] + q;
    }
  }

  /** The depth an orchestrator that is not stored yet would have. */
  method ProposedDepth(f: Fabric, roster: seq<CellId>) returns (d: nat)
    ensures Sound(f) ==> IsProposedDepth(f, roster, d)
  {
    if roster == [] {
      return 1;
    }
    var best: nat := 0;
    for i := 0 to |roster|
      invariant Sound(f) ==> DepthOfFirst(f, roster, i, best)
    {
      var k: nat := 0;
      if roster[i] in f.cells {
        k := CellRowDepth(f, roster[i], {});
      } else {
        NoChainOutside(f, roster[i]);
      }
      if Sound(f) { DepthOfNext(f, roster, i, best, k); }
      if k > best {
        best := k;
      }
    }
    if Sound(f) { DepthOfAll(f, roster, best); }
    d := 1 + best;
  }

  /** The rows come back in no particular order: the loop takes any of them next. */
  method MaxAncestorHeight(f: Fabric, c: CellId, visited: set<CellId>) returns (h: nat)
    ensures Sound(f) && (forall v | v in visited :: Reaches(f.rosters, c, v)) ==> IsHeight(f, c, h)
    decreases f.cells + {c} - visited
  {
    if c in visited {
      return MAX_ORCHESTRATOR_DEPTH + 1;
    }
    ghost var live := Sound(f) && forall v | v in visited :: Reaches(f.rosters, c, v);
    h := 0;
    var parents := f.rosters.Keys;
    HeightAtFirst(f, c);
    while parents != {}
      invariant parents <= f.rosters.Keys
      invariant live ==> HeightWithout(f, c, parents, h)
      decreases parents
    {
      var parent :| parent in parents;
      if c in f.rosters[parent] {
        if live { VisitedBelowParent(f, visited, c, parent); }
        var k := MaxAncestorHeight(f, parent, visited + {c});
        if live { StepUp(f, parent, c, parents, h, k); }
        if 1 + k > h {
          h := 1 + k;
        }
      } else {
        if live { NoWalkThrough(f, parent, c, parents, h); }
      }
      parents := parents - {parent};
    }
  }

  /** `h` is the height of `c` as far as the parents outside `left` go. */
  ghost predicate HeightWithout(f: Fabric, c: CellId, left: set<CellId>, h: nat) {
    && (forall p | IsWalk(f.rosters, p) && Last(p) == c && |p| > 1 && p[|p| - 2] !in left :: |p| <= h + 1)
    && (exists p :: IsWalk(f.rosters, p) && Last(p) == c && |p| == h + 1)
  }

  lemma HeightAtFirst(f: Fabric, c: CellId)
    ensures HeightWithout(f, c, f.rosters.Keys, 0)
  {
    assert IsWalk(f.rosters, [c]) && Last([c]) == c;
    forall p | IsWalk(f.rosters, p) && Last(p) == c && |p| > 1 ensures p[|p| - 2] in f.rosters {
      assert p[|p| - 1] in Next(f.rosters, p[|p| - 2]);
    }
  }

  lemma VisitedBelowParent(f: Fabric, visited: set<CellId>, c: CellId, parent: CellId)
    requires c in Next(f.rosters, parent)
    requires forall v | v in visited :: Reaches(f.rosters, c, v)
    ensures forall v | v in visited + {c} :: Reaches(f.rosters, parent, v)
  {
    forall v | v in visited + {c} ensures Reaches(f.rosters, parent, v) {
      if v == c { EdgeReaches(f.rosters, parent, c); } else { EdgeReachesThrough(f.rosters, parent, c, v); }
    }
  }

  lemma StepUp(f: Fabric, parent: CellId, c: CellId, left: set<CellId>, h: nat, k: nat)
    requires c in Next(f.rosters, parent) && IsHeight(f, parent, k) && HeightWithout(f, c, left, h)
    ensures HeightWithout(f, c, left - {parent}, if 1 + k > h then 1 + k else h)
  {
    forall p | IsWalk(f.rosters, p) && Last(p) == c && |p| > 1 && p[|p| - 2] == parent ensures |p| <= k + 2 {
      WalkBeforeLast(f, p, k);
    }
    var longest := LongestUp(f, parent, c, k);
  }

  lemma WalkBeforeLast(f: Fabric, p: seq<CellId>, k: nat)
    requires IsWalk(f.rosters, p) && |p| > 1 && IsHeight(f, p[|p| - 2], k)
    ensures |p| <= k + 2
  {
    var q := p[0..|p| - 1];
    WalkSlice(f.rosters, p, 0, |p| - 1);
    assert Last(q) == p[|p| - 2];
  }

  lemma LongestUp(f: Fabric, parent: CellId, c: CellId, k: nat) returns (p: seq<CellId>)
    requires c in Next(f.rosters, parent) && IsHeight(f, parent, k)
    ensures IsWalk(f.rosters, p) && Last(p) == c && |p| == k + 2
  {
    var q :| IsWalk(f.rosters, q) && Last(q) == parent && |q| == k + 1;
    assert IsWalk(f.rosters, [parent, c]);
    WalkConcat(f.rosters, q, [parent, c]);
    p := q + [parent, c][1..];
  }

  lemma NoWalkThrough(f: Fabric, parent: CellId, c: CellId, left: set<CellId>, h: nat)
    requires c !in Next(f.rosters, parent) && HeightWithout(f, c, left, h)
    ensures HeightWithout(f, c, left - {parent}, h)
  {
    forall p | IsWalk(f.rosters, p) && Last(p) == c && |p| > 1 ensures p[|p| - 2] != parent {
      assert p[|p| - 1] in Next(f.rosters, p[|p| - 2]);
    }
  }

  // ---- The gate ------------------------------------------------------------

  /** Accepts an edit of a good graph exactly when the edited graph is good, and
      names a defect that the edited graph really has otherwise. */
  method ValidateRoster(f: Fabric, cell: CellId, roster: Option<seq<CellId>>) returns (v: Verdict)
    ensures Good(f) ==> (v.Accepted? <==> Good(Edited(f, cell, roster)))
    ensures !v.Accepted? ==> roster.Some?
    ensures Good(f) && v.Accepted? ==>
              && (roster.Some? ==> |roster.value| <= 7)
              && forall p | IsChain(Edited(f, cell, roster), p) :: |p| <= 3
    ensures v.TooWide? ==> v.size == |roster.value| > 7
    ensures v.Duplicated? ==> !NoDuplicates(roster.value)
    ensures v.RostersItself? ==> cell in roster.value
    ensures v.MissingCells? ==> v.names == (set c | c in roster.value && c !in f.cells) != {}
    ensures v.WouldCycle? ==> Reaches(Edited(f, cell, roster).rosters, cell, cell)
    ensures Good(f) && v.TooDeep? ==>
              && v.depth > 3 && Sound(Edited(f, cell, roster))
              && exists p :: IsChain(Edited(f, cell, roster), p) && cell in p && |p| == v.depth
  {
    if roster.None? {
      if Good(f) { RemovalKeepsGood(f, cell); }
      return Accepted;
    }
    var r := roster.value;
    ghost var g := Edited(f, cell, roster);
    assert g.rosters[cell] == r;
    if |r| > MAX_ROSTER_SIZE {
      return TooWide(|r|);
    }
    if |r| != |(set c | c in r)| {
      DistinctCount(r);
      return Duplicated;
    }
    DistinctCount(r);
    if cell in r {
      EdgeReaches(Edited(f, cell, roster).rosters, cell, cell);
      return RostersItself;
    }
    var missing := set c | c in r && c !in f.cells;
    if missing != {} {
      ghost var m :| m in missing;
      assert m in Edited(f, cell, roster).rosters[cell] && m !in f.cells + {cell};
      return MissingCells(missing);
    }
    assert forall m | m in r :: m !in missing;
    var cyclic := WouldCreateCycle(f, cell, r);
    if cyclic {
      ghost var p :| IsWalk(f.rosters, p) && p[0] in r && Last(p) == cell;
      CycleCreated(f.rosters, cell, r, p);
      return WouldCycle;
    }
    var above := MaxAncestorHeight(f, cell, {});
    var below := ProposedDepth(f, r);
    if Good(f) {
      EditStaysSound(f, cell, r);
      var _ := ChainThroughCell(f, cell, r, above, below);
    }
    if above + below > MAX_ORCHESTRATOR_DEPTH {
      return TooDeep(above + below);
    }
    if Good(f) {
      EditStaysShallow(f, cell, r, above, below);
    }
    return Accepted;
  }

  lemma RemovalKeepsGood(f: Fabric, cell: CellId)
    requires Good(f)
    ensures Good(Edited(f, cell, None))
  {
    var g := Edited(f, cell, None);
    forall p | IsWalk(g.rosters, p) ensures IsWalk(f.rosters, p) {
      forall i, j | 0 <= i < j < |p| && j == i + 1 ensures p[j] in Next(f.rosters, p[i]) { assert p[j] in Next(g.rosters, p[i]); }
    }
    forall x ensures !Reaches(g.rosters, x, x) {
      if Reaches(g.rosters, x, x) { assert Reaches(f.rosters, x, x); }
    }
    forall p | IsChain(g, p) ensures |p| <= MAX_ORCHESTRATOR_DEPTH { assert IsChain(f, p); }
  }

  lemma EditStaysSound(f: Fabric, cell: CellId, r: seq<CellId>)
    requires Sound(f) && |r| <= MAX_ROSTER_SIZE && NoDuplicates(r)
    requires forall m | m in r :: m in f.cells
    requires !ReachedFrom(f.rosters, r, cell)
    ensures Sound(Edited(f, cell, Some(r)))
  {
    RewiringKeepsAcyclic(f.rosters, cell, r);
  }

  /** A walk down to `cell` and a chain below its new roster meet in `cell`. */
  lemma JoinChain(f: Fabric, cell: CellId, r: seq<CellId>, up: seq<CellId>, down: seq<CellId>)
    requires Acyclic(f.rosters) && !ReachedFrom(f.rosters, r, cell)
    requires IsWalk(f.rosters, up) && Last(up) == cell
    requires down == [] || (IsChain(f, down) && down[0] in r)
    ensures IsChain(Edited(f, cell, Some(r)), up + down)
  {
    var g := Edited(f, cell, Some(r));
    AcyclicWalkIsSimple(f.rosters, up);
    SameWalk(f.rosters, g.rosters, cell, up);
    if down == [] {
      assert up + down == up;
    } else {
      forall i | 0 <= i < |down| ensures down[i] != cell {
        WalkSlice(f.rosters, down, 0, i + 1);
        assert down[0..i + 1][0] in r && Last(down[0..i + 1]) == down[i];
      }
      SameWalk(f.rosters, g.rosters, cell, down);
      WalkPrepend(g.rosters, cell, down);
      WalkConcat(g.rosters, up, [cell] + down);
      assert ([cell] + down)[1..] == down;
    }
  }

  lemma SplitChain(f: Fabric, cell: CellId, r: seq<CellId>, p: seq<CellId>, i: nat)
    requires Acyclic(Edited(f, cell, Some(r)).rosters) && IsChain(Edited(f, cell, Some(r)), p)
    requires i < |p| && p[i] == cell
    ensures IsWalk(f.rosters, p[0..i + 1])
    ensures i + 1 < |p| ==> IsChain(f, p[i + 1..|p|]) && p[i + 1] in r
  {
    var g := Edited(f, cell, Some(r));
    AcyclicWalkIsSimple(g.rosters, p);
    WalkSlice(g.rosters, p, 0, i + 1);
    SameWalk(g.rosters, f.rosters, cell, p[0..i + 1]);
    if i + 1 < |p| {
      WalkSlice(g.rosters, p, i + 1, |p|);
      SameWalk(g.rosters, f.rosters, cell, p[i + 1..|p|]);
      assert p[i + 1] in Next(g.rosters, p[i]);
    }
  }

  lemma ChainThroughCell(f: Fabric, cell: CellId, r: seq<CellId>, above: nat, below: nat) returns (p: seq<CellId>)
    requires Acyclic(f.rosters) && !ReachedFrom(f.rosters, r, cell)
    requires IsHeight(f, cell, above) && IsProposedDepth(f, r, below)
    ensures IsChain(Edited(f, cell, Some(r)), p) && |p| == above + below && p[above] == cell
  {
    var up :| IsWalk(f.rosters, up) && Last(up) == cell && |up| == above + 1;
    var down := ChainBelow(f, r, below);
    JoinChain(f, cell, r, up, down);
    p := up + down;
  }

  /** A longest chain that starts in the roster; none if no member orchestrates. */
  lemma ChainBelow(f: Fabric, r: seq<CellId>, below: nat) returns (down: seq<CellId>)
    requires IsProposedDepth(f, r, below)
    ensures |down| == below - 1 && (down == [] || (IsChain(f, down) && down[0] in r))
  {
    if below > 1 {
      down :| IsChain(f, down) && down[0] in r && |down| == below - 1;
    } else {
      down := [];
    }
  }

  lemma EditStaysShallow(f: Fabric, cell: CellId, r: seq<CellId>, above: nat, below: nat)
    requires Shallow(f) && Acyclic(Edited(f, cell, Some(r)).rosters)
    requires IsHeight(f, cell, above) && IsProposedDepth(f, r, below)
    requires above + below <= MAX_ORCHESTRATOR_DEPTH
    ensures Shallow(Edited(f, cell, Some(r)))
  {
    var g := Edited(f, cell, Some(r));
    forall p | IsChain(g, p) ensures |p| <= MAX_ORCHESTRATOR_DEPTH {
      if i :| 0 <= i < |p| && p[i] == cell {
        ChainThroughIsShort(f, cell, r, above, below, p, i);
      } else {
        SameWalk(g.rosters, f.rosters, cell, p);
        assert IsChain(f, p);
      }
    }
  }

  lemma ChainThroughIsShort(f: Fabric, cell: CellId, r: seq<CellId>, above: nat, below: nat, p: seq<CellId>, i: nat)
    requires Acyclic(Edited(f, cell, Some(r)).rosters) && IsChain(Edited(f, cell, Some(r)), p) && i < |p| && p[i] == cell
    requires IsHeight(f, cell, above) && IsProposedDepth(f, r, below)
    ensures |p| <= above + below
  {
    SplitChain(f, cell, r, p, i);
    var up, down := p[0..i + 1], p[i + 1..|p|];
    assert Last(up) == cell;
    assert |up| <= above + 1;
    if down != [] {
      assert IsChain(f, down) && down[0] in r;
    }
  }

  // ---- The table and its two writers ---------------------------------------

  datatype WriteResult = Written | Refused(verdict: Verdict) | AlreadyExists | NotFound

  class CellStore {
    var cells: set<CellId>
    var rosters: map<CellId, seq<CellId>>

    ghost predicate Valid()
      reads this
    {
      rosters.Keys <= cells && Good(Table(cells, rosters))
    }

    ghost function Rows(): (t: Table)
      reads this
    {
      Table(cells, rosters)
    }

    constructor ()
      ensures Valid() && Rows() == Table({}, map[])
    {
      cells, rosters := {}, map[];
      new;
      forall p | IsWalk(rosters, p) ensures |p| == 1 {
          assert |p| > 1 ==> p[1] in Next(rosters, p[0]);
      }
    }

    /** The unique index on (system_id, cell_id) refuses a second row; otherwise
        the row is written exactly when the edited graph is good. */
    method CreateCell(cell: CellId, roster: Option<seq<CellId>>) returns (w: WriteResult)
      requires Valid()
      modifies this
      ensures Valid()
      ensures w.Written? <==> cell !in old(cells) && Good(Edited(old(Rows()), cell, roster))
      ensures Rows() == if w.Written? then Edited(old(Rows()), cell, roster) else old(Rows())
    {
      if cell in cells {
        return AlreadyExists;
      }
      var v := ValidateRoster(Table(cells, rosters), cell, roster);
      if !v.Accepted? {
        return Refused(v);
      }
      cells := cells + {cell};
      if roster.Some? {
        rosters := rosters[cell := roster.value];
      }
      assert roster.None? ==> rosters == rosters - {cell};
      return Written;
    }

    /** The endpoint always carries a list: it never turns a cell back into a worker. */
    method UpdateRoster(cell: CellId, roster: seq<CellId>) returns (w: WriteResult)
      requires Valid()
      modifies this
      ensures Valid()
      ensures w.Written? <==> cell in old(cells) && Good(Edited(old(Rows()), cell, Some(roster)))
      ensures Rows() == if w.Written? then Edited(old(Rows()), cell, Some(roster)) else old(Rows())
    {
      if cell !in cells {
        return NotFound;
      }
      var v := ValidateRoster(Table(cells, rosters), cell, Some(roster));
      if !v.Accepted? {
        return Refused(v);
      }
      rosters := rosters[cell := roster];
      assert cells == cells + {cell};
      return Written;
    }
  }
}
