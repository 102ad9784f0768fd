/** Grouping of issue-knowledge entries by shared cause: the union-find of
    docs/tools/issue_knowledge.py.  An id `IK-dddd` is modelled by its number;
    four fixed digits make the order of the texts the order of the numbers. */
module UnionFind {

  type Id = nat

  datatype Entry = Entry(id: Id, viewOf: seq<Id>)

  /** What loading has checked before grouping: ids are distinct and links resolve. */
  ghost predicate Loaded(entries: seq<Entry>) {
    && (forall i, j | 0 <= i < j < |entries| :: entries[i].id != entries[j].id)
    && (forall e, o | e in entries && o in e.viewOf :: o in Ids(entries))
  }

  ghost function Ids(entries: seq<Entry>): set<Id> {
    set e | e in entries :: e.id
  }

  ghost function Links(entries: seq<Entry>): set<(Id, Id)> {
    set e, o | e in entries && o in e.viewOf :: (e.id, o)
  }

  /** A path that uses the links in either direction. */
  ghost predicate IsPath(links: set<(Id, Id)>, p: seq<Id>) {
    p != [] && forall i, j | 0 <= i < j < |p| && j == i + 1 :: (p[i], p[j]) in links || (p[j], p[i]) in links
  }

  ghost predicate Connected(links: set<(Id, Id)>, a: Id, b: Id) {
    exists p :: IsPath(links, p) && p[0] == a && p[|p| - 1] == b
  }

  ghost predicate Descends(parent: map<Id, Id>, k: Id)
    requires k in parent
  {
    parent[k] in parent && parent[k] <= k
  }

  ghost predicate IsForest(parent: map<Id, Id>) {
    forall k {:trigger Descends(parent, k)} | k in parent :: Descends(parent, k)
  }

  ghost function Root(parent: map<Id, Id>, k: Id): (r: Id)
    requires IsForest(parent) && k in parent
    ensures r in parent && r <= k && parent[r] == r
  {
    assert Descends(parent, k);
    if parent[k] == k then k else Root(parent, parent[k])
  }

  method Find(parent: map<Id, Id>, start: Id) returns (k: Id)
    requires IsForest(parent) && start in parent
    ensures k == Root(parent, start)
  {
    k := start;
    while parent[k] != k
      invariant k in parent && Root(parent, k) == Root(parent, start)
      decreases k
    {
      assert Descends(parent, k);
      k := parent[k];
    }
  }

  /** Every node is connected to its root by the links handled so far. */
  ghost predicate RootsConnected(parent: map<Id, Id>, links: set<(Id, Id)>) {
    IsForest(parent) && forall k {:trigger Connected(links, k, Root(parent, k))} | k in parent :: Connected(links, k, Root(parent, k))
  }

  /** The two ends of every link handled so far share a root. */
  ghost predicate LinksJoined(parent: map<Id, Id>, links: set<(Id, Id)>) {
    && IsForest(parent)
    && forall x, y {:trigger (x, y) in links} | (x, y) in links :: x in parent && y in parent && Root(parent, x) == Root(parent, y)
  }

  /** Two entries get the same root exactly when links connect them, and the root
      is the smallest id of the component. */
  ghost predicate IsGrouping(entries: seq<Entry>, roots: map<Id, Id>) {
    && roots.Keys == Ids(entries)
    && (forall x, y | x in roots && y in roots :: roots[x] == roots[y] <==> Connected(Links(entries), x, y))
    && (forall x | x in roots :: roots[x] in roots && Connected(Links(entries), x, roots[x]))
    && (forall x, y | x in roots && y in roots && Connected(Links(entries), x, y) :: roots[x] <= y)
  }

  ghost predicate Represents(ids: set<Id>, parent: map<Id, Id>, links: set<(Id, Id)>) {
    parent.Keys == ids && RootsConnected(parent, links) && LinksJoined(parent, links)
  }

  method Groups(entries: seq<Entry>) returns (roots: map<Id, Id>)
    requires Loaded(entries)
    ensures IsGrouping(entries, roots)
    ensures forall e, o | e in entries && o in e.viewOf ::
              e.id in roots && o in roots && roots[e.id] == roots[o] && roots[o] <= o
  {
    var parent := map e | e in entries :: e.id := e.id;
    SingletonsRepresent(entries, parent);
    for i := 0 to |entries|
      invariant Represents(Ids(entries), parent, Links(entries[..i]))
    {
      EntryResolves(entries, i);
      parent := JoinEntry(Ids(entries), parent, entries[i], Links(entries[..i]));
      LinksExtend(entries, i);
    }
    assert entries[..|entries|] == entries;
    roots := AllRoots(parent);
    RootsGroup(entries, parent, roots);
    forall e, o | e in entries && o in e.viewOf
      ensures e.id in roots && o in roots && roots[e.id] == roots[o] && roots[o] <= o
    {
      LinkConnects(entries, e, o);
      assert IsPath(Links(entries), [o]) && [o][0] == o;
    }
  }

  lemma LinkConnects(entries: seq<Entry>, e: Entry, o: Id)
    requires Loaded(entries) && e in entries && o in e.viewOf
    ensures e.id in Ids(entries) && o in Ids(entries) && Connected(Links(entries), e.id, o)
  {
    assert (e.id, o) in Links(entries);
    assert IsPath(Links(entries), [e.id, o]);
  }

  method AllRoots(parent: map<Id, Id>) returns (roots: map<Id, Id>)
    requires IsForest(parent)
    ensures roots.Keys == parent.Keys && forall k | k in roots :: roots[k] == Root(parent, k)
  {
    roots := map[];
    var rest := parent.Keys;
    while rest != {}
      invariant rest <= parent.Keys && roots.Keys == parent.Keys - rest
      invariant forall k | k in roots :: roots[k] == Root(parent, k)
      decreases rest
    {
      var k :| k in rest;
      var r := Find(parent, k);
      roots, rest := roots[k := r], rest - {k};
    }
  }

  /** The inner loop over the links of one entry. */
  method JoinEntry(ghost ids: set<Id>, parent0: map<Id, Id>, e: Entry, ghost before: set<(Id, Id)>)
    returns (parent: map<Id, Id>)
    requires Represents(ids, parent0, before) && e.id in ids && forall o | o in e.viewOf :: o in ids
    ensures Represents(ids, parent, before + LinksOf(e, |e.viewOf|))
  {
    parent := parent0;
    assert before + LinksOf(e, 0) == before;
    for j := 0 to |e.viewOf|
      invariant Represents(ids, parent, before + LinksOf(e, j))
    {
      var other := e.viewOf[j];
      assert other in e.viewOf;
      parent := JoinLink(ids, parent, e.id, other, before + LinksOf(e, j));
      LinksOfStep(before, e, j);
    }
  }

  method JoinLink(ghost ids: set<Id>, parent: map<Id, Id>, x: Id, y: Id, ghost links: set<(Id, Id)>)
    returns (parent': map<Id, Id>)
    requires Represents(ids, parent, links) && x in ids && y in ids
    ensures Represents(ids, parent', links + {(x, y)})
  {
    var a := Find(parent, x);
    var b := Find(parent, y);
    if b < a {
      a, b := b, a;
    }
    UnionKeepsRoots(parent, links, x, y, a, b);
    UnionJoinsLinks(parent, links, x, y, a, b);
    parent' := parent[b := a];
    assert parent'.Keys == parent.Keys;
  }

  lemma EntryResolves(entries: seq<Entry>, i: nat)
    requires Loaded(entries) && i < |entries|
    ensures entries[i].id in Ids(entries) && forall o | o in entries[i].viewOf :: o in Ids(entries)
  {
  }

  lemma SingletonsRepresent(entries: seq<Entry>, parent: map<Id, Id>)
    requires parent.Keys == Ids(entries) && forall k | k in parent :: parent[k] == k
    ensures Represents(Ids(entries), parent, Links([]))
  {
    forall k | k in parent ensures Connected(Links([]), k, Root(parent, k)) {
      assert IsPath(Links([]), [k]) && [k][0] == k;
    }
  }

  ghost function LinksOf(e: Entry, j: nat): set<(Id, Id)>
    requires j <= |e.viewOf|
  {
    set o | o in e.viewOf[..j] :: (e.id, o)
  }

  lemma LinksOfStep(before: set<(Id, Id)>, e: Entry, j: nat)
    requires j < |e.viewOf|
    ensures before + LinksOf(e, j + 1) == before + LinksOf(e, j) + {(e.id, e.viewOf[j])}
  {
    assert e.viewOf[..j + 1] == e.viewOf[..j] + [e.viewOf[j]];
  }

  lemma RootsGroup(entries: seq<Entry>, parent: map<Id, Id>, roots: map<Id, Id>)
    requires parent.Keys == Ids(entries) == roots.Keys
    requires RootsConnected(parent, Links(entries)) && LinksJoined(parent, Links(entries))
    requires forall k | k in parent :: roots[k] == Root(parent, k)
    ensures IsGrouping(entries, roots)
  {
    var links := Links(entries);
    forall x, y | x in roots && y in roots && Connected(links, x, y) ensures roots[x] == roots[y] {
      ConnectedShareRoot(parent, links, x, y);
    }
    forall x, y | x in roots && y in roots && roots[x] == roots[y] ensures Connected(links, x, y) {
      assert Connected(links, x, Root(parent, x)) && Connected(links, y, Root(parent, y));
      ConnectedReverse(links, y, roots[y]);
      ConnectedJoin(links, x, roots[x], y);
    }
  }

  lemma LinksExtend(entries: seq<Entry>, i: nat)
    requires i < |entries|
    ensures Links(entries[..i + 1]) == Links(entries[..i]) + LinksOf(entries[i], |entries[i].viewOf|)
  {
    assert entries[..i + 1] == entries[..i] + [entries[i]];
  }

  /** Hanging the root `b` below the smaller root `a` moves exactly the nodes of `b`. */
  lemma RootAfterUnion(parent: map<Id, Id>, a: Id, b: Id, k: Id)
    requires IsForest(parent) && a in parent && b in parent && k in parent && a <= b
    requires parent[a] == a && parent[b] == b
    ensures IsForest(parent[b := a])
    ensures Root(parent[b := a], k) == if Root(parent, k) == b then a else Root(parent, k)
    decreases k
  {
    assert Descends(parent, k);
    var parent' := parent[b := a];
    forall j | j in parent' ensures Descends(parent', j) { assert j != b ==> Descends(parent, j); }
    if parent[k] != k { RootAfterUnion(parent, a, b, parent[k]); }
  }

  lemma UnionJoinsLinks(parent: map<Id, Id>, links: set<(Id, Id)>, x: Id, y: Id, a: Id, b: Id)
    requires LinksJoined(parent, links) && x in parent && y in parent && a <= b
    requires (a == Root(parent, x) && b == Root(parent, y)) || (a == Root(parent, y) && b == Root(parent, x))
    ensures LinksJoined(parent[b := a], links + {(x, y)})
  {
    RootAfterUnion(parent, a, b, x);
    forall u, v | (u, v) in links + {(x, y)}
      ensures u in parent && v in parent && Root(parent[b := a], u) == Root(parent[b := a], v)
    {
      RootAfterUnion(parent, a, b, u);
      RootAfterUnion(parent, a, b, v);
    }
  }

  lemma UnionKeepsRoots(parent: map<Id, Id>, links: set<(Id, Id)>, x: Id, y: Id, a: Id, b: Id)
    requires RootsConnected(parent, links) && x in parent && y in parent && a <= b
    requires (a == Root(parent, x) && b == Root(parent, y)) || (a == Root(parent, y) && b == Root(parent, x))
    ensures RootsConnected(parent[b := a], links + {(x, y)})
  {
    var parent', links' := parent[b := a], links + {(x, y)};
    RootAfterUnion(parent, a, b, x);
    RootsMeet(parent, links, x, y, a, b);
    forall k | k in parent' ensures Connected(links', k, Root(parent', k)) {
      RootAfterUnion(parent, a, b, k);
      assert Connected(links, k, Root(parent, k));
      ConnectedMonotone(links, links', k, Root(parent, k));
      if Root(parent, k) == b { ConnectedJoin(links', k, b, a); }
    }
  }

  /** The new link connects the two roots. */
  lemma RootsMeet(parent: map<Id, Id>, links: set<(Id, Id)>, x: Id, y: Id, a: Id, b: Id)
    requires RootsConnected(parent, links) && x in parent && y in parent
    requires (a == Root(parent, x) && b == Root(parent, y)) || (a == Root(parent, y) && b == Root(parent, x))
    ensures Connected(links + {(x, y)}, b, a)
  {
    var links' := links + {(x, y)};
    var r, q := Root(parent, x), Root(parent, y);
    assert Connected(links, x, r) && Connected(links, y, q);
    ConnectedMonotone(links, links', x, r);
    ConnectedMonotone(links, links', y, q);
    ConnectedReverse(links', x, r);
    ConnectedByLink(links', x, y);
    ConnectedJoin(links', r, x, y);
    ConnectedJoin(links', r, y, q);
    ConnectedReverse(links', r, q);
  }

  lemma ConnectedByLink(links: set<(Id, Id)>, x: Id, y: Id)
    requires (x, y) in links
    ensures Connected(links, x, y)
  {
    assert IsPath(links, [x, y]) && [x, y][0] == x && [x, y][|[x, y]| - 1] == y;
  }

  lemma ConnectedMonotone(links: set<(Id, Id)>, links': set<(Id, Id)>, a: Id, b: Id)
    requires Connected(links, a, b) && links <= links'
    ensures Connected(links', a, b)
  {
    var p :| IsPath(links, p) && p[0] == a && p[|p| - 1] == b;
    assert IsPath(links', p);
  }

  lemma ConnectedReverse(links: set<(Id, Id)>, a: Id, b: Id)
    requires Connected(links, a, b)
    ensures Connected(links, b, a)
  {
    var p :| IsPath(links, p) && p[0] == a && p[|p| - 1] == b;
    var q := seq(|p|, i requires 0 <= i < |p| => p[|p| - 1 - i]);
    assert IsPath(links, q) && q[0] == b && q[|q| - 1] == a;
  }

  lemma ConnectedJoin(links: set<(Id, Id)>, a: Id, b: Id, c: Id)
    requires Connected(links, a, b) && Connected(links, b, c)
    ensures Connected(links, a, c)
  {
    var p :| IsPath(links, p) && p[0] == a && p[|p| - 1] == b;
    var q :| IsPath(links, q) && q[0] == b && q[|q| - 1] == c;
    var w := p + q[1..];
    forall i, j | 0 <= i < j < |w| && j == i + 1 ensures (w[i], w[j]) in links || (w[j], w[i]) in links {
      if j >= |p| { assert w[i] == q[i - |p| + 1] && w[j] == q[j - |p| + 1]; }
    }
    assert IsPath(links, w) && w[0] == a && w[|w| - 1] == c;
  }

  lemma ConnectedShareRoot(parent: map<Id, Id>, links: set<(Id, Id)>, a: Id, b: Id)
    requires LinksJoined(parent, links) && a in parent && Connected(links, a, b)
    ensures b in parent && Root(parent, a) == Root(parent, b)
  {
    var p :| IsPath(links, p) && p[0] == a && p[|p| - 1] == b;
    PathSharesRoot(parent, links, p);
  }

  lemma PathSharesRoot(parent: map<Id, Id>, links: set<(Id, Id)>, p: seq<Id>)
    requires LinksJoined(parent, links) && IsPath(links, p) && p[0] in parent
    ensures p[|p| - 1] in parent && Root(parent, p[|p| - 1]) == Root(parent, p[0])
  {
    if |p| > 1 {
      assert (p[0], p[1]) in links || (p[1], p[0]) in links;
      PathSharesRoot(parent, links, p[1..]);
    }
  }

  /** The grouping depends on the ids and the undirected links alone, not on the
      order of entries or links, nor on which end of a link names the other. */
  lemma GroupingIsOrderIndependent(e1: seq<Entry>, e2: seq<Entry>, roots1: map<Id, Id>, roots2: map<Id, Id>)
    requires IsGrouping(e1, roots1) && IsGrouping(e2, roots2)
    requires Ids(e1) == Ids(e2)
    requires forall x, y :: (x, y) in Links(e1) || (y, x) in Links(e1) <==> (x, y) in Links(e2) || (y, x) in Links(e2)
    ensures roots1 == roots2
  {
    assert roots1.Keys == roots2.Keys;
    forall x | x in roots1 ensures roots1[x] == roots2[x] {
      RootIsLinked(e1, roots1, x);
      SameUndirected(Links(e1), Links(e2), x, roots1[x]);
      RootIsLeast(e2, roots2, x, roots1[x]);
      RootIsLinked(e2, roots2, x);
      SameUndirected(Links(e2), Links(e1), x, roots2[x]);
      RootIsLeast(e1, roots1, x, roots2[x]);
    }
  }

  lemma RootIsLinked(entries: seq<Entry>, roots: map<Id, Id>, x: Id)
    requires IsGrouping(entries, roots) && x in roots
    ensures roots[x] in roots && Connected(Links(entries), x, roots[x])
  {
  }

  lemma RootIsLeast(entries: seq<Entry>, roots: map<Id, Id>, x: Id, y: Id)
    requires IsGrouping(entries, roots) && x in roots && y in roots && Connected(Links(entries), x, y)
    ensures roots[x] <= y
  {
  }

  lemma SameUndirected(links: set<(Id, Id)>, links': set<(Id, Id)>, a: Id, b: Id)
    requires forall x, y :: (x, y) in links || (y, x) in links <==> (x, y) in links' || (y, x) in links'
    requires Connected(links, a, b)
    ensures Connected(links', a, b)
  {
    var p :| IsPath(links, p) && p[0] == a && p[|p| - 1] == b;
    assert IsPath(links', p);
  }
}
