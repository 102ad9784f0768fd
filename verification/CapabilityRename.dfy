/** Renaming in confirmed capability graphs (capability_graph.py): a node that gets a
    new name and a binding to the entity it was is not a change. */
module CapabilityRename {
  import opened Wrappers
  import opened CapabilityGraph
  import opened CapabilityRegistry
  import Walks

  /** The second revision is the first with its nodes renamed by `rho`. */
  ghost predicate Renames(rho: map<NodeKey, NodeKey>, items: seq<Item>, rels: seq<Relation>,
                          items2: seq<Item>, rels2: seq<Relation>)
  {
    && (forall a, b | a in rho && b in rho && a != b :: rho[a] != rho[b])
    && (forall r | r in rels :: r.parent in rho && r.child in rho
                                && Relation(rho[r.parent], rho[r.child], r.role, r.scope) in rels2)
    && (forall x {:trigger RenamedTo(rho, x, items2)} | x in items :: RenamedTo(rho, x, items2))
    && (forall y {:trigger RenamedFrom(rho, items, y)} | y in items2 :: RenamedFrom(rho, items, y))
    && (forall r2 {:trigger RelationRenamed(rho, rels, r2)} | r2 in rels2 :: RelationRenamed(rho, rels, r2))
  }

  ghost predicate RenamedTo(rho: map<NodeKey, NodeKey>, x: Item, items2: seq<Item>) {
    x.key in rho && exists y | y in items2 :: y.key == rho[x.key] && PayloadOf(y) == PayloadOf(x)
  }

  ghost predicate RenamedFrom(rho: map<NodeKey, NodeKey>, items: seq<Item>, y: Item) {
    exists x | x in items :: x.key in rho && y.key == rho[x.key] && PayloadOf(y) == PayloadOf(x)
  }

  ghost predicate RelationRenamed(rho: map<NodeKey, NodeKey>, rels: seq<Relation>, r2: Relation) {
    exists r | r in rels ::
      r.parent in rho && r.child in rho && r2 == Relation(rho[r.parent], rho[r.child], r.role, r.scope)
  }

  /** Every renamed node is bound to the entity it was; no binding says anything else. */
  ghost predicate BindsRenamed(rho: map<NodeKey, NodeKey>, ids: map<NodeKey, nat>, bound: map<NodeKey, nat>) {
    && (forall k | k in ids :: k in rho && (rho[k] != k ==> rho[k] in bound))
    && forall l {:trigger BoundToItself(rho, ids, l, bound)} | l in bound :: BoundToItself(rho, ids, l, bound)
  }

  ghost predicate BoundToItself(rho: map<NodeKey, NodeKey>, ids: map<NodeKey, nat>, l: NodeKey, bound: map<NodeKey, nat>)
    requires l in bound
  {
    exists k | k in ids && k in rho :: rho[k] == l && bound[l] == ids[k]
  }

  /** The list of bindings that carries every renamed node to its new name: each
      binding once, and none that says anything else. */
  ghost predicate Carries(rho: map<NodeKey, NodeKey>, ids: map<NodeKey, nat>, bindings: seq<Binding>) {
    && (forall i, j | 0 <= i < j < |bindings| :: bindings[i] != bindings[j])
    && (forall k | k in ids :: k in rho && (rho[k] != k ==> Binding(rho[k], ids[k]) in bindings))
    && forall b {:trigger CarriesOne(rho, ids, b)} | b in bindings :: CarriesOne(rho, ids, b)
  }

  ghost predicate CarriesOne(rho: map<NodeKey, NodeKey>, ids: map<NodeKey, nat>, b: Binding) {
    exists k | k in ids && k in rho :: b == Binding(rho[k], ids[k])
  }

  /** Renaming keeps the kind of every node. */
  lemma RenameKeepsKind(rho: map<NodeKey, NodeKey>, items: seq<Item>, rels: seq<Relation>,
                        items2: seq<Item>, rels2: seq<Relation>, k: NodeKey)
    requires Renames(rho, items, rels, items2, rels2) && Named(items, k)
    ensures k in rho && Named(items2, rho[k]) && rho[k].kind == k.kind
  {
    var x :| x in items && x.key == k;
    assert RenamedTo(rho, x, items2);
    var y :| y in items2 && y.key == rho[k] && PayloadOf(y) == PayloadOf(x);
  }

  function Pairs(rels: seq<Relation>): (p: seq<(NodeKey, NodeKey)>)
    ensures |p| == |rels| && forall i | 0 <= i < |rels| :: p[i] == (rels[i].parent, rels[i].child)
  {
    seq(|rels|, i requires 0 <= i < |rels| => (rels[i].parent, rels[i].child))
  }

  /** A one-to-one renaming maps a set of pairs to as many pairs. */
  lemma {:induction false} RenamedCount(rho: map<NodeKey, NodeKey>, a: set<(NodeKey, NodeKey)>, b: set<(NodeKey, NodeKey)>)
    requires forall k, l | k in rho && l in rho && k != l :: rho[k] != rho[l]
    requires forall p | p in a :: p.0 in rho && p.1 in rho && (rho[p.0], rho[p.1]) in b
    ensures |a| <= |b|
  {
    if a != {} {
      var p :| p in a;
      RenamedCount(rho, a - {p}, b - {(rho[p.0], rho[p.1])});
    }
  }

  /** As many relations as before, all of them renamed: none is listed twice. */
  lemma RenameKeepsRelations(rho: map<NodeKey, NodeKey>, items: seq<Item>, rels: seq<Relation>,
                             items2: seq<Item>, rels2: seq<Relation>)
    requires Renames(rho, items, rels, items2, rels2) && |rels2| == |rels| && RelationsOf(items, rels)
    ensures RelationsOf(items2, rels2)
  {
    forall r2 | r2 in rels2
      ensures Named(items2, r2.parent) && Named(items2, r2.child) && (r2.parent.kind, r2.child.kind) in ALLOWED_PAIRS
    {
      assert RelationRenamed(rho, rels, r2);
      var r :| r in rels && r.parent in rho && r.child in rho && r2 == Relation(rho[r.parent], rho[r.child], r.role, r.scope);
      RenameKeepsKind(rho, items, rels, items2, rels2, r.parent);
      RenameKeepsKind(rho, items, rels, items2, rels2, r.child);
    }
    var a, b := Pairs(rels), Pairs(rels2);
    PairsRenamed(rho, items, rels, items2, rels2);
    RenamedCount(rho, set p | p in a, set p | p in b);
    Walks.DistinctCount(a);
    Walks.DistinctCount(b);
    assert Walks.NoDuplicates(a) && Walks.NoDuplicates(b);
    forall i, j | 0 <= i < j < |rels2| ensures rels2[i].parent != rels2[j].parent || rels2[i].child != rels2[j].child {
      assert b[i] != b[j];
    }
  }

  lemma PairsRenamed(rho: map<NodeKey, NodeKey>, items: seq<Item>, rels: seq<Relation>,
                     items2: seq<Item>, rels2: seq<Relation>)
    requires Renames(rho, items, rels, items2, rels2)
    ensures forall p | p in Pairs(rels) :: p.0 in rho && p.1 in rho && (rho[p.0], rho[p.1]) in Pairs(rels2)
  {
    forall p | p in Pairs(rels) ensures p.0 in rho && p.1 in rho && (rho[p.0], rho[p.1]) in Pairs(rels2) {
      var i :| 0 <= i < |rels| && Pairs(rels)[i] == p;
      assert rels[i] in rels;
      var j :| 0 <= j < |rels2| && rels2[j] == Relation(rho[p.0], rho[p.1], rels[i].role, rels[i].scope);
      assert Pairs(rels2)[j] == (rho[p.0], rho[p.1]);
    }
  }

  lemma CarriedAreValid(rho: map<NodeKey, NodeKey>, items: seq<Item>, rels: seq<Relation>, ids: map<NodeKey, nat>,
                        items2: seq<Item>, rels2: seq<Relation>, entities: map<nat, Kind>, bindings: seq<Binding>)
    requires Renames(rho, items, rels, items2, rels2) && KindsAgree(ids, entities)
    requires (forall k | k in ids :: Named(items, k)) && Carries(rho, ids, bindings)
    ensures ValidBindings(items2, entities, bindings)
  {
    forall b | b in bindings ensures Binds(items2, entities, b) {
      assert CarriesOne(rho, ids, b);
      var k :| k in ids && k in rho && b == Binding(rho[k], ids[k]);
      RenameKeepsKind(rho, items, rels, items2, rels2, k);
    }
    forall i, j | 0 <= i < j < |bindings|
      ensures bindings[i].target != bindings[j].target && bindings[i].entity != bindings[j].entity
    {
      assert CarriesOne(rho, ids, bindings[i]) && CarriesOne(rho, ids, bindings[j]);
      var k :| k in ids && k in rho && bindings[i] == Binding(rho[k], ids[k]);
      var l :| l in ids && l in rho && bindings[j] == Binding(rho[l], ids[l]);
    }
  }

  lemma CarriedAreBound(rho: map<NodeKey, NodeKey>, ids: map<NodeKey, nat>, items2: seq<Item>,
                        entities: map<nat, Kind>, bindings: seq<Binding>)
    requires ValidBindings(items2, entities, bindings) && Carries(rho, ids, bindings)
    ensures BindsRenamed(rho, ids, Bound(bindings))
  {
    var used := ValidAreRecorded(items2, entities, bindings);
    var bound := Bound(bindings);
    forall k | k in ids ensures k in rho && (rho[k] != k ==> rho[k] in bound) {
      assert rho[k] != k ==> Binding(rho[k], ids[k]) in bindings;
    }
    forall l | l in bound ensures BoundToItself(rho, ids, l, bound) {
      assert CarriesOne(rho, ids, Binding(l, bound[l]));
      var k :| k in ids && k in rho && Binding(l, bound[l]) == Binding(rho[k], ids[k]);
    }
  }

  lemma RenameStealsNothing(rho: map<NodeKey, NodeKey>, items: seq<Item>, rels: seq<Relation>, ids: map<NodeKey, nat>,
                         items2: seq<Item>, rels2: seq<Relation>, bound: map<NodeKey, nat>)
    requires Renames(rho, items, rels, items2, rels2) && DistinctNames(items2)
    requires Injective(ids) && (forall x | x in items :: x.key in ids) && BindsRenamed(rho, ids, bound)
    ensures !Stolen(items2, bound, ids)
  {
    forall i, j | 0 <= i < j < |items2| && items2[i].key !in bound && items2[j].key in bound && items2[i].key in ids
      ensures ids[items2[i].key] != bound[items2[j].key]
    {
      assert RenamedFrom(rho, items, items2[i]);
      var x :| x in items && x.key in rho && items2[i].key == rho[x.key];
      assert BoundToItself(rho, ids, items2[j].key, bound);
      var k :| k in ids && k in rho && rho[k] == items2[j].key && bound[items2[j].key] == ids[k];
      assert items2[i].key != items2[j].key;
      assert rho[x.key] == x.key;
    }
  }

  /** Every condition Confirm checks holds of a revision that only renames nodes and
      binds each renamed node to the entity it was. */
  lemma RenameIsAccepted(rho: map<NodeKey, NodeKey>, items: seq<Item>, rels: seq<Relation>, ids: map<NodeKey, nat>,
                         items2: seq<Item>, rels2: seq<Relation>, entities: map<nat, Kind>, bindings: seq<Binding>)
    requires Renames(rho, items, rels, items2, rels2) && |rels2| == |rels|
    requires RelationsOf(items, rels) && DistinctNames(items2) && KindsAgree(ids, entities)
    requires (forall k :: k in ids <==> Named(items, k)) && Carries(rho, ids, bindings)
    ensures RelationsOf(items2, rels2) && ValidBindings(items2, entities, bindings)
    ensures BindsRenamed(rho, ids, Bound(bindings)) && !Stolen(items2, Bound(bindings), ids)
  {
    RenameKeepsRelations(rho, items, rels, items2, rels2);
    CarriedAreValid(rho, items, rels, ids, items2, rels2, entities, bindings);
    CarriedAreBound(rho, ids, items2, entities, bindings);
    forall x | x in items ensures x.key in ids { assert Named(items, x.key); }
    RenameStealsNothing(rho, items, rels, ids, items2, rels2, Bound(bindings));
  }

  lemma RenameKeepsIdentity(rho: map<NodeKey, NodeKey>, items: seq<Item>, rels: seq<Relation>, ids: map<NodeKey, nat>,
                            items2: seq<Item>, rels2: seq<Relation>, bound: map<NodeKey, nat>,
                            entities: map<nat, Kind>, ids2: map<NodeKey, nat>, k: NodeKey)
    requires Renames(rho, items, rels, items2, rels2)
    requires Injective(ids) && k in ids && Named(items, k) && BindsRenamed(rho, ids, bound)
    requires Identified(items2, bound, ids, entities, ids2)
    ensures k in rho && rho[k] in ids2 && ids2[rho[k]] == ids[k]
  {
    var x :| x in items && x.key == k;
    assert RenamedTo(rho, x, items2);
    var y :| y in items2 && y.key == rho[k];
    assert Named(items2, rho[k]);
    if rho[k] in bound {
      assert BoundToItself(rho, ids, rho[k], bound);
    } else {
      forall l | l in bound ensures bound[l] != ids[k] {
        assert BoundToItself(rho, ids, l, bound);
      }
    }
  }

  lemma RenamedNodes(rho: map<NodeKey, NodeKey>, items: seq<Item>, rels: seq<Relation>, g: Graph,
                     items2: seq<Item>, rels2: seq<Relation>, h: Graph)
    requires Renames(rho, items, rels, items2, rels2)
    requires forall k | k in g.names :: k in rho && rho[k] in h.names && h.names[rho[k]] == g.names[k]
    requires ComposedNodes(items, g.names, g.nodes) && ComposedNodes(items2, h.names, h.nodes)
    ensures g.nodes == h.nodes
  {
    forall e | e in g.nodes ensures e in h.nodes && h.nodes[e] == g.nodes[e] {
      assert NodeOf(items, g.names, e);
      var x :| x in items && x.key in g.names && g.names[x.key] == e;
      assert RenamedTo(rho, x, items2);
      var y :| y in items2 && y.key == rho[x.key] && PayloadOf(y) == PayloadOf(x);
    }
    forall e | e in h.nodes ensures e in g.nodes {
      assert NodeOf(items2, h.names, e);
      var y :| y in items2 && y.key in h.names && h.names[y.key] == e;
      assert RenamedFrom(rho, items, y);
      var x :| x in items && x.key in rho && y.key == rho[x.key];
      assert x.key in g.names;
    }
  }

  lemma RenamedRelations(rho: map<NodeKey, NodeKey>, items: seq<Item>, rels: seq<Relation>, g: Graph,
                         table: map<(nat, nat), nat>, items2: seq<Item>, rels2: seq<Relation>, h: Graph, table2: map<(nat, nat), nat>)
    requires Renames(rho, items, rels, items2, rels2)
    requires forall k | k in g.names :: k in rho && rho[k] in h.names && h.names[rho[k]] == g.names[k]
    requires Endpoints(rels, g.names, g.nodes) && ComposedRelations(rels, g.names, g.nodes, table, g.relations)
    requires Endpoints(rels2, h.names, h.nodes) && ComposedRelations(rels2, h.names, h.nodes, table2, h.relations)
    requires g.nodes == h.nodes && forall p | p in table :: p in table2 && table2[p] == table[p]
    ensures g.relations == h.relations
  {
    forall id | id in g.relations ensures id in h.relations && h.relations[id] == g.relations[id] {
      assert RelationOf(rels, g.names, table, id);
      var r :| r in rels && r.parent in g.names && r.child in g.names
               && (g.names[r.parent], g.names[r.child]) in table && table[(g.names[r.parent], g.names[r.child])] == id;
      var r2 := Relation(rho[r.parent], rho[r.child], r.role, r.scope);
      assert r2 in rels2;
    }
    forall id | id in h.relations ensures id in g.relations {
      assert RelationOf(rels2, h.names, table2, id);
      var r2 :| r2 in rels2 && r2.parent in h.names && r2.child in h.names
                && (h.names[r2.parent], h.names[r2.child]) in table2 && table2[(h.names[r2.parent], h.names[r2.child])] == id;
      assert RelationRenamed(rho, rels, r2);
      var r :| r in rels && r.parent in rho && r.child in rho && r2 == Relation(rho[r.parent], rho[r.child], r.role, r.scope);
      assert (g.names[r.parent], g.names[r.child]) in table;
    }
  }

  /** A revision that only renames nodes, each bound to the entity it was, changes no
      entity and no relation. */
  lemma RenameChangesNothing(rho: map<NodeKey, NodeKey>, items: seq<Item>, rels: seq<Relation>, g: Graph,
                             table: map<(nat, nat), nat>, items2: seq<Item>, rels2: seq<Relation>, h: Graph,
                             table2: map<(nat, nat), nat>, bound: map<NodeKey, nat>, entities: map<nat, Kind>)
    requires Renames(rho, items, rels, items2, rels2)
    requires Injective(g.names) && (forall k | k in g.names :: Named(items, k)) && BindsRenamed(rho, g.names, bound)
    requires Identified(items2, bound, g.names, entities, h.names)
    requires Composes(items, rels, table, g) && Composes(items2, rels2, table2, h)
    requires forall p | p in table :: p in table2 && table2[p] == table[p]
    ensures ChangedNodes(g, h) == {} && ChangedRelations(g, h) == {}
  {
    forall k | k in g.names ensures k in rho && rho[k] in h.names && h.names[rho[k]] == g.names[k] {
      RenameKeepsIdentity(rho, items, rels, g.names, items2, rels2, bound, entities, h.names, k);
    }
    RenamedNodes(rho, items, rels, g, items2, rels2, h);
    RenamedRelations(rho, items, rels, g, table, items2, rels2, h, table2);
  }

  // ---- Two confirmations ---------------------------------------------------

  /** The bindings a rename needs: for every node with a new name, the entity it is. */
  function CarriedBindings(items: seq<Item>, rho: map<NodeKey, NodeKey>, ids: map<NodeKey, nat>): seq<Binding>
    requires forall x | x in items :: x.key in rho && x.key in ids
  {
    if items == [] then []
    else
      var k, before := items[|items| - 1].key, CarriedBindings(items[..|items| - 1], rho, ids);
      if rho[k] == k then before else before + [Binding(rho[k], ids[k])]
  }

  lemma {:induction false} CarriedExactly(items: seq<Item>, rho: map<NodeKey, NodeKey>, ids: map<NodeKey, nat>)
    requires forall x | x in items :: x.key in rho && x.key in ids
    ensures forall b {:trigger b in CarriedBindings(items, rho, ids)} ::
              b in CarriedBindings(items, rho, ids)
              <==> exists x | x in items :: rho[x.key] != x.key && b == Binding(rho[x.key], ids[x.key])
  {
    if items != [] {
      var rest, last := items[..|items| - 1], items[|items| - 1];
      CarriedExactly(rest, rho, ids);
      assert items == rest + [last];
    }
  }

  lemma {:induction false} CarriedOnce(items: seq<Item>, rho: map<NodeKey, NodeKey>, ids: map<NodeKey, nat>)
    requires (forall x | x in items :: x.key in rho && x.key in ids) && DistinctNames(items)
    requires forall k, l | k in rho && l in rho && k != l :: rho[k] != rho[l]
    ensures Walks.NoDuplicates(CarriedBindings(items, rho, ids))
  {
    if items != [] {
      var rest, last := items[..|items| - 1], items[|items| - 1];
      CarriedOnce(rest, rho, ids);
      CarriedExactly(rest, rho, ids);
      forall b | b in CarriedBindings(rest, rho, ids) ensures b.target != rho[last.key] {
        var x :| x in rest && rho[x.key] != x.key && b == Binding(rho[x.key], ids[x.key]);
        var i :| 0 <= i < |rest| && rest[i] == x;
        assert items[i].key != items[|items| - 1].key;
      }
    }
  }

  lemma CarriedCarry(items: seq<Item>, rho: map<NodeKey, NodeKey>, ids: map<NodeKey, nat>)
    requires (forall x | x in items :: x.key in rho && x.key in ids) && DistinctNames(items)
    requires forall k, l | k in rho && l in rho && k != l :: rho[k] != rho[l]
    requires forall k | k in ids :: Named(items, k)
    ensures Carries(rho, ids, CarriedBindings(items, rho, ids))
  {
    CarriedExactly(items, rho, ids);
    CarriedOnce(items, rho, ids);
    var bindings := CarriedBindings(items, rho, ids);
    forall k | k in ids ensures k in rho && (rho[k] != k ==> Binding(rho[k], ids[k]) in bindings) {
      var x :| x in items && x.key == k;
    }
    forall b | b in bindings ensures CarriesOne(rho, ids, b) {
      var x :| x in items && rho[x.key] != x.key && b == Binding(rho[x.key], ids[x.key]);
    }
  }

  /** Confirming a revision and then the same revision with its nodes renamed: the
      second confirmation goes through whenever the first did, and neither an entity
      nor a relation has changed. */
  method ConfirmThenRename(registry: Registry, at: (nat, nat), items: seq<Item>, rels: seq<Relation>, bindings: seq<Binding>,
                           next: (nat, nat), rho: map<NodeKey, NodeKey>, items2: seq<Item>, rels2: seq<Relation>)
    returns (first: Option<Graph>, second: Option<Graph>)
    requires registry.Valid() && DistinctNames(items) && DistinctNames(items2)
    requires at !in registry.confirmed && next !in registry.confirmed && at != next
    requires Renames(rho, items, rels, items2, rels2) && |rels2| == |rels|
    modifies registry
    ensures registry.Valid() && (first.Some? <==> second.Some?)
    ensures first.Some? ==>
              && ChangedNodes(first.value, second.value) == {} && ChangedRelations(first.value, second.value) == {}
              && forall k | k in first.value.names :: k in rho && rho[k] in second.value.names
                                                      && second.value.names[rho[k]] == first.value.names[k]
  {
    first := registry.Confirm(at.0, at.1, items, rels, bindings);
    if first.None? {
      return None, None;
    }
    var names := first.value.names;
    forall x | x in items ensures x.key in rho && x.key in names {
      assert RenamedTo(rho, x, items2) && Named(items, x.key);
    }
    var carried := CarriedBindings(items, rho, names);
    CarriedCarry(items, rho, names);
    RenameIsAccepted(rho, items, rels, names, items2, rels2, registry.entities, carried);
    ghost var table, entities := registry.relations, registry.entities;
    second := registry.Confirm(next.0, next.1, items2, rels2, carried);
    RenameChangesNothing(rho, items, rels, first.value, table, items2, rels2, second.value, registry.relations,
                         Bound(carried), entities);
    forall k | k in names ensures k in rho && rho[k] in second.value.names && second.value.names[rho[k]] == names[k] {
      RenameKeepsIdentity(rho, items, rels, names, items2, rels2, Bound(carried), entities, second.value.names, k);
    }
  }
}
