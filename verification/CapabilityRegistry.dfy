/** The tables behind confirmed capability graphs (capability_graph.py). */
module CapabilityRegistry {
  import opened Wrappers
  import opened CapabilityGraph

  /** What a confirmation request says; the digest is taken to be injective. */
  datatype Request = Request(nodes: set<(NodeKey, Payload)>, relations: multiset<Relation>, bindings: multiset<Binding>)

  function RequestOf(items: seq<Item>, rels: seq<Relation>, bindings: seq<Binding>): Request {
    Request(set x | x in items :: (x.key, PayloadOf(x)), multiset(rels), multiset(bindings))
  }

  datatype Confirmation = Confirmation(request: Request, graph: Graph)

  function PreviousNames(latest: Option<Graph>): map<NodeKey, nat> {
    if latest.Some? then latest.value.names else map[]
  }

  class Registry {
    var entities: map<nat, Kind>
    var nextEntity: nat
    var relations: map<(nat, nat), nat>
    var nextRelation: nat
    var latest: Option<Graph>
    var confirmed: map<(nat, nat), Confirmation>

    ghost predicate Valid()
      reads this
    {
      && (forall e | e in entities :: e < nextEntity)
      && PairsKnown(relations) && (forall p | p in relations :: relations[p] < nextRelation)
      && KindsAgree(PreviousNames(latest), entities)
    }

    constructor ()
      ensures Valid() && latest == None && confirmed == map[]
    {
      entities, nextEntity, relations, nextRelation := map[], 1, map[], 1;
      latest, confirmed := None, map[];
    }

    /** Names the nodes one by one; on a clash it stops where it is. */
    method AssignIdentities(items: seq<Item>, bound: map<NodeKey, nat>, previous: map<NodeKey, nat>)
      returns (ids: Option<map<NodeKey, nat>>)
      requires (forall e | e in entities :: e < nextEntity) && DistinctNames(items)
      requires KindsAgree(bound, entities) && KindsAgree(previous, entities)
      requires forall k | k in bound :: Named(items, k)
      modifies this`entities, this`nextEntity
      ensures forall e | e in entities :: e < nextEntity
      ensures ids.Some? <==> !Stolen(items, bound, previous)
      ensures ids.Some? ==> Identified(items, bound, previous, old(entities), ids.value) && KindsAgree(ids.value, entities)
      ensures forall e | e in old(entities) :: e in entities && entities[e] == old(entities)[e]
    {
      var found: map<NodeKey, nat> := map[];
      var used: set<nat> := {};
      ghost var start := entities;
      for n := 0 to |items|
        invariant (forall e | e in entities :: e < nextEntity) && used == found.Values
        invariant Assigned(items, n, bound, previous, start, found) && KindsAgree(found, entities)
        invariant forall e | e in start :: e in entities && entities[e] == start[e]
      {
        var k := items[n].key;
        var id: nat;
        if k in bound {
          id := bound[k];
        } else if k in previous && previous[k] !in used {
          id := previous[k];
        } else {
          id := nextEntity;
          entities := entities[id := k.kind];
          nextEntity := nextEntity + 1;
        }
        if id in used {
          ClashIsStolen(items, bound, previous, start, found, n);
          return None;
        }
        PlaceOne(items, bound, previous, start, found, n, id);
        used := used + {id};
        found := found[k := id];
      }
      AllSettled(items, bound, previous, start, found);
      ids := Some(found);
    }

    /** The relation id of a pair of entities, new if the pair was never related. */
    method RelationId(parent: nat, child: nat) returns (id: nat)
      requires PairsKnown(relations) && forall p | p in relations :: relations[p] < nextRelation
      modifies this`relations, this`nextRelation
      ensures PairsKnown(relations) && forall p | p in relations :: relations[p] < nextRelation
      ensures (parent, child) in relations && relations[(parent, child)] == id
      ensures relations == if (parent, child) in old(relations) then old(relations) else old(relations)[(parent, child) := id]
    {
      if (parent, child) in relations {
        id := relations[(parent, child)];
      } else {
        id := nextRelation;
        relations := relations[(parent, child) := id];
        nextRelation := nextRelation + 1;
      }
    }

    method ComposeRelations(rels: seq<Relation>, ids: map<NodeKey, nat>, nodes: map<nat, Payload>)
      returns (composed: map<nat, RelationMeaning>)
      requires PairsKnown(relations) && forall p | p in relations :: relations[p] < nextRelation
      requires Endpoints(rels, ids, nodes) && Injective(ids)
      requires forall i, j | 0 <= i < j < |rels| :: rels[i].parent != rels[j].parent || rels[i].child != rels[j].child
      modifies this`relations, this`nextRelation
      ensures PairsKnown(relations) && forall p | p in relations :: relations[p] < nextRelation
      ensures ComposedRelations(rels, ids, nodes, relations, composed)
      ensures forall p | p in old(relations) :: p in relations && relations[p] == old(relations)[p]
    {
      composed := map[];
      for n := 0 to |rels|
        invariant PairsKnown(relations) && forall p | p in relations :: relations[p] < nextRelation
        invariant forall p | p in old(relations) :: p in relations && relations[p] == old(relations)[p]
        invariant Endpoints(rels[..n], ids, nodes)
        invariant ComposedRelations(rels[..n], ids, nodes, relations, composed)
      {
        var r := rels[n];
        assert r in rels;
        ghost var table := relations;
        var id := RelationId(ids[r.parent], ids[r.child]);
        AddRelation(rels, ids, nodes, table, relations, composed, n, id);
        composed := composed[id := MeaningOf(r, ids, nodes, id)];
      }
      assert rels[..|rels|] == rels;
    }

    /** Confirms one revision whole, or leaves every table as it was.  Confirming it
        again with the same request gives the same composition and writes nothing. */
    method Confirm(session: nat, revision: nat, items: seq<Item>, rels: seq<Relation>, bindings: seq<Binding>)
      returns (g: Option<Graph>)
      requires Valid() && DistinctNames(items)
      modifies this
      ensures Valid()
      ensures old((session, revision) in confirmed) || g.None? ==>
                && entities == old(entities) && relations == old(relations) && latest == old(latest)
                && confirmed == old(confirmed)
      ensures old((session, revision) in confirmed) ==>
                g == if RelationsOf(items, rels) && old(confirmed)[(session, revision)].request == RequestOf(items, rels, bindings)
                     then Some(old(confirmed)[(session, revision)].graph) else None
      ensures old((session, revision) !in confirmed) ==>
                (g.Some? <==> && RelationsOf(items, rels) && ValidBindings(items, old(entities), bindings)
                              && !Stolen(items, Bound(bindings), PreviousNames(old(latest))))
      ensures old((session, revision) !in confirmed) && g.Some? ==>
                && latest == g
                && confirmed == old(confirmed)[(session, revision) := Confirmation(RequestOf(items, rels, bindings), g.value)]
                && Identified(items, Bound(bindings), PreviousNames(old(latest)), old(entities), g.value.names)
                && Composes(items, rels, relations, g.value)
      ensures forall e | e in old(entities) :: e in entities && entities[e] == old(entities)[e]
      ensures forall p | p in old(relations) :: p in relations && relations[p] == old(relations)[p]
    {
      var sound := CheckRelations(items, rels);
      if !sound {
        return None;
      }
      var request := RequestOf(items, rels, bindings);
      if (session, revision) in confirmed {
        var before := confirmed[(session, revision)];
        return if before.request == request then Some(before.graph) else None;
      }
      var savedEntities, savedNext := entities, nextEntity;
      var bound := ValidateBindings(items, entities, bindings);
      if bound.None? {
        return None;
      }
      BoundAgrees(items, entities, bindings, bound.value);
      var ids := AssignIdentities(items, bound.value, PreviousNames(latest));
      if ids.None? {
        entities, nextEntity := savedEntities, savedNext;
        return None;
      }
      forall x | x in items ensures x.key in ids.value {
        assert Named(items, x.key);
      }
      var nodes := ComposeNodes(items, ids.value);
      EndpointsFound(items, rels, ids.value, nodes);
      var composed := ComposeRelations(rels, ids.value, nodes);
      var graph := Graph(ids.value, nodes, composed);
      latest := Some(graph);
      confirmed := confirmed[(session, revision) := Confirmation(request, graph)];
      g := Some(graph);
    }
  }

  lemma BoundAgrees(items: seq<Item>, entities: map<nat, Kind>, bindings: seq<Binding>, bound: map<NodeKey, nat>)
    requires BoundAs(items, entities, bindings, bound)
    ensures KindsAgree(bound, entities) && forall k | k in bound :: Named(items, k)
  {
    forall k | k in bound ensures bound[k] in entities && entities[bound[k]] == k.kind && Named(items, k) {
      assert Binds(items, entities, Binding(k, bound[k]));
    }
  }

  lemma EndpointsFound(items: seq<Item>, rels: seq<Relation>, ids: map<NodeKey, nat>, nodes: map<nat, Payload>)
    requires RelationsOf(items, rels) && ComposedNodes(items, ids, nodes)
    ensures Endpoints(rels, ids, nodes)
  {
    forall r | r in rels ensures r.parent in ids && r.child in ids && ids[r.parent] in nodes && ids[r.child] in nodes {
      assert Named(items, r.parent) && Named(items, r.child);
    }
  }

  method ComposeNodes(items: seq<Item>, ids: map<NodeKey, nat>) returns (nodes: map<nat, Payload>)
    requires DistinctNames(items) && Injective(ids) && forall x | x in items :: x.key in ids
    ensures ComposedNodes(items, ids, nodes)
  {
    nodes := map[];
    for n := 0 to |items|
      invariant forall a | 0 <= a < n :: ids[items[a].key] in nodes && nodes[ids[items[a].key]] == PayloadOf(items[a])
      invariant forall e | e in nodes :: exists a | 0 <= a < n :: ids[items[a].key] == e
    {
      assert items[n] in items;
      forall a | 0 <= a < n ensures ids[items[a].key] != ids[items[n].key] {
        assert items[a].key != items[n].key;
      }
      nodes := nodes[ids[items[n].key] := PayloadOf(items[n])];
    }
    forall e | e in nodes ensures NodeOf(items, ids, e) {
      var a :| 0 <= a < |items| && ids[items[a].key] == e;
      assert items[a] in items;
    }
  }

  lemma AddRelation(rels: seq<Relation>, ids: map<NodeKey, nat>, nodes: map<nat, Payload>, table: map<(nat, nat), nat>,
                    table2: map<(nat, nat), nat>, composed: map<nat, RelationMeaning>, n: nat, id: nat)
    requires n < |rels| && Endpoints(rels, ids, nodes) && Injective(ids) && PairsKnown(table2)
    requires forall i | 0 <= i < n :: rels[i].parent != rels[n].parent || rels[i].child != rels[n].child
    requires forall p | p in table :: p in table2 && table2[p] == table[p]
    requires (ids[rels[n].parent], ids[rels[n].child]) in table2 && table2[(ids[rels[n].parent], ids[rels[n].child])] == id
    requires Endpoints(rels[..n], ids, nodes) && ComposedRelations(rels[..n], ids, nodes, table, composed)
    ensures Endpoints(rels[..n + 1], ids, nodes)
    ensures ComposedRelations(rels[..n + 1], ids, nodes, table2, composed[id := MeaningOf(rels[n], ids, nodes, id)])
  {
    var next, more := rels[..n + 1], composed[id := MeaningOf(rels[n], ids, nodes, id)];
    assert next == rels[..n] + [rels[n]];
    forall r | r in rels[..n]
      ensures (ids[r.parent], ids[r.child]) in table2
      ensures var i := table2[(ids[r.parent], ids[r.child])]; i != id && i in composed && composed[i] == MeaningOf(r, ids, nodes, i)
    {
      var i :| 0 <= i < n && rels[..n][i] == r;
      assert rels[i] == r;
    }
    forall i | i in more ensures RelationOf(next, ids, table2, i) {
      if i == id {
        assert rels[n] in next;
      } else {
        assert RelationOf(rels[..n], ids, table, i);
        var r :| r in rels[..n] && r.parent in ids && r.child in ids
                 && (ids[r.parent], ids[r.child]) in table && table[(ids[r.parent], ids[r.child])] == i;
        assert r in next;
      }
    }
  }
}
