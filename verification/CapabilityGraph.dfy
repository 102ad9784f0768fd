/** Confirming a capability graph (capability_graph.py): which entity each named
    node of a revision is, and what counts as a change of meaning. */
module CapabilityGraph {
  import opened Wrappers

  datatype Kind = CoreCapability | CapabilityElement | SupportingElement | ApiBoundary

  datatype NodeKey = NodeKey(kind: Kind, name: string)

  datatype Evidence = Evidence(path: string, startLine: nat, endLine: nat, summary: string)

  datatype Item = Item(key: NodeKey, summary: string, whyCore: string, evidence: seq<Evidence>,
                       relatedDocs: seq<string>, relatedApis: seq<string>, confidence: nat)

  /** What a node means: no name, no confidence, and lists up to order. */
  datatype Payload = Payload(kind: Kind, summary: string, whyCore: string, evidence: multiset<Evidence>,
                             relatedDocs: set<string>, relatedApis: set<string>)

  datatype Relation = Relation(parent: NodeKey, child: NodeKey, role: string, scope: string)

  datatype Binding = Binding(target: NodeKey, entity: nat)

  /** What a relation means: which entities, what they mean, and how they relate. */
  datatype RelationMeaning = RelationMeaning(relation: nat, parent: nat, parentMeaning: Payload,
                                             child: nat, childMeaning: Payload, role: string, scope: string)

  /** A confirmed composition: who every name is, and what nodes and relations mean. */
  datatype Graph = Graph(names: map<NodeKey, nat>, nodes: map<nat, Payload>, relations: map<nat, RelationMeaning>)

  const ALLOWED_PAIRS := {
    (CoreCapability, CapabilityElement), (CoreCapability, SupportingElement), (CoreCapability, ApiBoundary),
    (CapabilityElement, SupportingElement), (CapabilityElement, ApiBoundary), (SupportingElement, ApiBoundary)}

  function NonEmpty(texts: seq<string>): set<string> {
    set t | t in texts && t != ""
  }

  function PayloadOf(x: Item): Payload {
    Payload(x.key.kind, x.summary, x.whyCore, multiset(x.evidence), NonEmpty(x.relatedDocs), NonEmpty(x.relatedApis))
  }

  ghost predicate DistinctNames(items: seq<Item>) {
    forall i, j | 0 <= i < j < |items| :: items[i].key != items[j].key
  }

  predicate Named(items: seq<Item>, k: NodeKey) {
    exists x | x in items :: x.key == k
  }

  ghost predicate Injective<K>(m: map<K, nat>) {
    forall a, b | a in m && b in m && a != b :: m[a] != m[b]
  }

  // ---- Bindings ------------------------------------------------------------

  predicate Binds(items: seq<Item>, entities: map<nat, Kind>, b: Binding) {
    Named(items, b.target) && b.entity in entities && entities[b.entity] == b.target.kind
  }

  /** What the code demands of a list of bindings. */
  ghost predicate ValidBindings(items: seq<Item>, entities: map<nat, Kind>, bindings: seq<Binding>) {
    && (forall b | b in bindings :: Binds(items, entities, b))
    && forall i, j | 0 <= i < j < |bindings| ::
         bindings[i].target != bindings[j].target && bindings[i].entity != bindings[j].entity
  }

  function Bound(bindings: seq<Binding>): map<NodeKey, nat> {
    if bindings == [] then map[]
    else Bound(bindings[..|bindings| - 1])[bindings[|bindings| - 1].target := bindings[|bindings| - 1].entity]
  }

  /** The bindings as a map from names to entities, one to one. */
  ghost predicate BoundAs(items: seq<Item>, entities: map<nat, Kind>, bindings: seq<Binding>, bound: map<NodeKey, nat>) {
    && Injective(bound)
    && (forall k | k in bound :: Binds(items, entities, Binding(k, bound[k])))
    && (forall b | b in bindings :: b.target in bound && bound[b.target] == b.entity)
    && (forall k | k in bound :: Binding(k, bound[k]) in bindings)
  }

  method ValidateBindings(items: seq<Item>, entities: map<nat, Kind>, bindings: seq<Binding>)
    returns (bound: Option<map<NodeKey, nat>>)
    ensures bound.Some? <==> ValidBindings(items, entities, bindings)
    ensures bound.Some? ==> bound.value == Bound(bindings) && BoundAs(items, entities, bindings, bound.value)
  {
    var result: map<NodeKey, nat> := map[];
    var used: set<nat> := {};
    for i := 0 to |bindings|
      invariant Recorded(items, entities, bindings[..i], result, used) && result == Bound(bindings[..i])
    {
      var b := bindings[i];
      if !Named(items, b.target) || b.target in result || b.entity !in entities
         || entities[b.entity] != b.target.kind || b.entity in used
      {
        Refusal(items, entities, bindings, i, result, used);
        return None;
      }
      RecordOne(items, entities, bindings, i, result, used);
      BoundOne(bindings, i);
      result := result[b.target := b.entity];
      used := used + {b.entity};
    }
    assert bindings[..|bindings|] == bindings;
    AllRecorded(items, entities, bindings, result, used);
    bound := Some(result);
  }

  lemma BoundOne(bindings: seq<Binding>, i: nat)
    requires i < |bindings|
    ensures Bound(bindings[..i + 1]) == Bound(bindings[..i])[bindings[i].target := bindings[i].entity]
  {
    assert bindings[..i + 1][..i] == bindings[..i];
  }

  lemma AllRecorded(items: seq<Item>, entities: map<nat, Kind>, bindings: seq<Binding>,
                    result: map<NodeKey, nat>, used: set<nat>)
    requires Recorded(items, entities, bindings, result, used)
    ensures ValidBindings(items, entities, bindings) && BoundAs(items, entities, bindings, result)
  {
    forall a, b | a in result && b in result && a != b ensures result[a] != result[b] {
      var i :| 0 <= i < |bindings| && bindings[i] == Binding(a, result[a]);
      var j :| 0 <= j < |bindings| && bindings[j] == Binding(b, result[b]);
      assert if i < j then bindings[i].entity != bindings[j].entity else bindings[j].entity != bindings[i].entity;
    }
    forall k | k in result ensures Binds(items, entities, Binding(k, result[k])) {
      assert Binding(k, result[k]) in bindings;
    }
  }

  /** The bindings read so far are valid, and `result` and `used` hold exactly them. */
  ghost predicate Recorded(items: seq<Item>, entities: map<nat, Kind>, done: seq<Binding>,
                           result: map<NodeKey, nat>, used: set<nat>)
  {
    && ValidBindings(items, entities, done)
    && (forall b | b in done :: b.target in result && result[b.target] == b.entity && b.entity in used)
    && (forall k | k in result :: Binding(k, result[k]) in done)
    && (forall e | e in used :: exists b | b in done :: b.entity == e)
  }

  lemma RecordOne(items: seq<Item>, entities: map<nat, Kind>, bindings: seq<Binding>, i: nat,
                  result: map<NodeKey, nat>, used: set<nat>)
    requires i < |bindings| && Recorded(items, entities, bindings[..i], result, used)
    requires Binds(items, entities, bindings[i]) && bindings[i].target !in result && bindings[i].entity !in used
    ensures Recorded(items, entities, bindings[..i + 1], result[bindings[i].target := bindings[i].entity],
                     used + {bindings[i].entity})
  {
    var done, next, b := bindings[..i], bindings[..i + 1], bindings[i];
    assert next == done + [b];
    assert b in next;
    forall a, c | 0 <= a < c < |next| ensures next[a].target != next[c].target && next[a].entity != next[c].entity {
      assert next[a] == done[a] && done[a] in done;
      assert c < i ==> next[c] == done[c];
    }
    forall e | e in used + {b.entity} ensures exists x | x in next :: x.entity == e {
      if e in used {
        var x :| x in done && x.entity == e;
        assert x in next;
      }
    }
  }

  /** Valid bindings, taken one by one, are the map `Bound` makes of them. */
  lemma {:induction false} ValidAreRecorded(items: seq<Item>, entities: map<nat, Kind>, bindings: seq<Binding>) returns (used: set<nat>)
    requires ValidBindings(items, entities, bindings)
    ensures Recorded(items, entities, bindings, Bound(bindings), used)
  {
    used := {};
    if bindings != [] {
      var n := |bindings| - 1;
      var done := bindings[..n];
      forall i, j | 0 <= i < j < |done| ensures done[i].target != done[j].target && done[i].entity != done[j].entity {
        assert done[i] == bindings[i] && done[j] == bindings[j];
      }
      used := ValidAreRecorded(items, entities, done);
      NotRecorded(items, entities, bindings, n, Bound(done), used);
      RecordOne(items, entities, bindings, n, Bound(done), used);
      used := used + {bindings[n].entity};
      assert bindings[..n + 1] == bindings;
    }
  }

  lemma NotRecorded(items: seq<Item>, entities: map<nat, Kind>, bindings: seq<Binding>, n: nat,
                    result: map<NodeKey, nat>, used: set<nat>)
    requires n < |bindings| && ValidBindings(items, entities, bindings) && Recorded(items, entities, bindings[..n], result, used)
    ensures Binds(items, entities, bindings[n]) && bindings[n].target !in result && bindings[n].entity !in used
  {
    assert bindings[n] in bindings;
    if bindings[n].target in result || bindings[n].entity in used {
      Refusal(items, entities, bindings, n, result, used);
    }
  }

  lemma Refusal(items: seq<Item>, entities: map<nat, Kind>, bindings: seq<Binding>, i: nat,
                result: map<NodeKey, nat>, used: set<nat>)
    requires i < |bindings|
    requires Recorded(items, entities, bindings[..i], result, used)
    requires !Binds(items, entities, bindings[i]) || bindings[i].target in result || bindings[i].entity in used
    ensures !ValidBindings(items, entities, bindings)
  {
    assert bindings[i] in bindings;
    if bindings[i].target in result {
      var j :| 0 <= j < i && bindings[..i][j] == Binding(bindings[i].target, result[bindings[i].target]);
      assert bindings[j].target == bindings[i].target;
    } else if bindings[i].entity in used {
      var b :| b in bindings[..i] && b.entity == bindings[i].entity;
      var j :| 0 <= j < i && bindings[..i][j] == b;
      assert bindings[j].entity == bindings[i].entity;
    }
  }

  // ---- Identities ----------------------------------------------------------

  /** An unbound name takes over, by its name, the entity a later name is bound to. */
  ghost predicate Stolen(items: seq<Item>, bound: map<NodeKey, nat>, previous: map<NodeKey, nat>) {
    exists i, j | 0 <= i < j < |items| ::
      && items[i].key !in bound && items[j].key in bound
      && items[i].key in previous && previous[items[i].key] == bound[items[j].key]
  }

  /** Who every node is: its binding; else the entity of that name in the previous
      composition, unless a binding has taken it; else a new entity. */
  ghost predicate Identified(items: seq<Item>, bound: map<NodeKey, nat>, previous: map<NodeKey, nat>,
                             entities: map<nat, Kind>, ids: map<NodeKey, nat>)
  {
    && (forall k :: k in ids <==> Named(items, k))
    && Injective(ids)
    && forall k | k in ids ::
         if k in bound then ids[k] == bound[k]
         else if k in previous && previous[k] !in bound.Values then ids[k] == previous[k]
         else ids[k] !in entities
  }

  /** What a step of the loop decides for one node. */
  ghost predicate Settled(items: seq<Item>, a: nat, bound: map<NodeKey, nat>, previous: map<NodeKey, nat>,
                          entities: map<nat, Kind>, ids: map<NodeKey, nat>)
    requires a < |items|
  {
    var k := items[a].key;
    && k in ids
    && if k in bound then ids[k] == bound[k]
       else if k in previous && !(exists b | 0 <= b < a :: items[b].key in bound && bound[items[b].key] == previous[k])
       then ids[k] == previous[k]
       else ids[k] !in entities
  }

  ghost predicate Placed(items: seq<Item>, n: nat, ids: map<NodeKey, nat>) {
    forall k :: k in ids <==> exists a :: 0 <= a < n && a < |items| && items[a].key == k
  }

  /** Names and entities the loop starts from: one to one, and of one kind. */
  ghost predicate KindsAgree(m: map<NodeKey, nat>, entities: map<nat, Kind>) {
    Injective(m) && forall k | k in m :: m[k] in entities && entities[m[k]] == k.kind
  }

  /** A clash at the next node can only be with an unbound name that came earlier. */
  lemma ClashIsStolen(items: seq<Item>, bound: map<NodeKey, nat>, previous: map<NodeKey, nat>,
                      entities: map<nat, Kind>, ids: map<NodeKey, nat>, n: nat)
    requires n < |items| && DistinctNames(items) && KindsAgree(bound, entities)
    requires Assigned(items, n, bound, previous, entities, ids)
    requires items[n].key in bound && bound[items[n].key] in ids.Values
    ensures Stolen(items, bound, previous)
  {
    var k :| k in ids && ids[k] == bound[items[n].key];
    var a :| 0 <= a < n && items[a].key == k;
    assert Settled(items, a, bound, previous, entities, ids);
    assert items[a].key != items[n].key;
  }

  /** The name's own entity is still free unless an earlier binding took it. */
  lemma CandidateIsFree(items: seq<Item>, bound: map<NodeKey, nat>, previous: map<NodeKey, nat>,
                        entities: map<nat, Kind>, ids: map<NodeKey, nat>, n: nat)
    requires n < |items| && DistinctNames(items) && KindsAgree(bound, entities) && KindsAgree(previous, entities)
    requires Assigned(items, n, bound, previous, entities, ids)
    requires items[n].key in previous
    ensures previous[items[n].key] in ids.Values
       <==> exists b | 0 <= b < n :: items[b].key in bound && bound[items[b].key] == previous[items[n].key]
  {
    var e := previous[items[n].key];
    if e in ids.Values {
      var k :| k in ids && ids[k] == e;
      var a :| 0 <= a < n && items[a].key == k;
      assert Settled(items, a, bound, previous, entities, ids) && items[a].key != items[n].key;
    }
    if exists b | 0 <= b < n :: items[b].key in bound && bound[items[b].key] == e {
      var b :| 0 <= b < n && items[b].key in bound && bound[items[b].key] == e;
      assert Settled(items, b, bound, previous, entities, ids);
      assert ids[items[b].key] in ids.Values;
    }
  }

  lemma AllSettled(items: seq<Item>, bound: map<NodeKey, nat>, previous: map<NodeKey, nat>,
                   entities: map<nat, Kind>, ids: map<NodeKey, nat>)
    requires DistinctNames(items) && KindsAgree(bound, entities) && KindsAgree(previous, entities)
    requires forall k | k in bound :: Named(items, k)
    requires Assigned(items, |items|, bound, previous, entities, ids)
    ensures Identified(items, bound, previous, entities, ids) && !Stolen(items, bound, previous)
  {
    forall k ensures k in ids <==> Named(items, k) {
      if Named(items, k) {
        var x :| x in items && x.key == k;
        var a :| 0 <= a < |items| && items[a] == x;
      }
    }
    forall i, j | 0 <= i < j < |items| && items[i].key !in bound && items[j].key in bound && items[i].key in previous
      ensures previous[items[i].key] != bound[items[j].key]
    {
      assert Settled(items, i, bound, previous, entities, ids) && Settled(items, j, bound, previous, entities, ids);
      EarlierIsOther(items, bound, i, j);
      assert ids[items[i].key] != ids[items[j].key];
    }
    forall k | k in ids && k !in bound && k in previous && previous[k] !in bound.Values ensures ids[k] == previous[k] {
      var a :| 0 <= a < |items| && items[a].key == k;
      assert Settled(items, a, bound, previous, entities, ids);
    }
    forall k | k in ids && k !in bound && !(k in previous && previous[k] !in bound.Values) ensures ids[k] !in entities {
      var a :| 0 <= a < |items| && items[a].key == k;
      assert Settled(items, a, bound, previous, entities, ids);
      if k in previous {
        var l :| l in bound && bound[l] == previous[k];
        var x :| x in items && x.key == l;
        var b :| 0 <= b < |items| && items[b] == x;
        assert Settled(items, b, bound, previous, entities, ids) && l != k;
        assert ids[l] != ids[k];
      }
    }
    forall k | k in ids && k in bound ensures ids[k] == bound[k] {
      var a :| 0 <= a < |items| && items[a].key == k;
      assert Settled(items, a, bound, previous, entities, ids);
    }
  }

  lemma EarlierIsOther(items: seq<Item>, bound: map<NodeKey, nat>, i: nat, j: nat)
    requires DistinctNames(items) && Injective(bound) && i < j < |items| && items[j].key in bound
    ensures !exists b | 0 <= b < i :: items[b].key in bound && bound[items[b].key] == bound[items[j].key]
  {
    forall b | 0 <= b < i && items[b].key in bound ensures bound[items[b].key] != bound[items[j].key] {
      assert items[b].key != items[j].key;
    }
  }

  /** Everything the loop knows after `n` nodes. */
  ghost predicate Assigned(items: seq<Item>, n: nat, bound: map<NodeKey, nat>, previous: map<NodeKey, nat>,
                           entities: map<nat, Kind>, ids: map<NodeKey, nat>)
  {
    && n <= |items| && Placed(items, n, ids) && Injective(ids)
    && forall a | 0 <= a < n :: Settled(items, a, bound, previous, entities, ids)
  }

  /** One more node, named by the rule, with an entity no other node has. */
  lemma PlacedNext(items: seq<Item>, n: nat, ids: map<NodeKey, nat>, id: nat)
    requires n < |items| && DistinctNames(items) && Placed(items, n, ids) && Injective(ids) && id !in ids.Values
    ensures items[n].key !in ids
    ensures var next := ids[items[n].key := id];
            Placed(items, n + 1, next) && Injective(next) && next.Values == ids.Values + {id}
  {
    var next := ids[items[n].key := id];
    assert items[n].key !in ids;
    forall k ensures k in next <==> exists a :: 0 <= a < n + 1 && a < |items| && items[a].key == k {}
    forall e ensures e in next.Values <==> e in ids.Values + {id} {
      if e in ids.Values {
        var k :| k in ids && ids[k] == e;
        assert next[k] == e;
      }
      assert next[items[n].key] == id;
    }
    forall k | k in ids ensures ids[k] != id {
      assert ids[k] in ids.Values;
    }
  }

  lemma StaysSettled(items: seq<Item>, a: nat, bound: map<NodeKey, nat>, previous: map<NodeKey, nat>,
                     entities: map<nat, Kind>, ids: map<NodeKey, nat>, k: NodeKey, id: nat)
    requires a < |items| && Settled(items, a, bound, previous, entities, ids) && k !in ids
    ensures Settled(items, a, bound, previous, entities, ids[k := id])
  {
  }

  lemma PlaceOne(items: seq<Item>, bound: map<NodeKey, nat>, previous: map<NodeKey, nat>,
                 entities: map<nat, Kind>, ids: map<NodeKey, nat>, n: nat, id: nat)
    requires n < |items| && DistinctNames(items) && KindsAgree(bound, entities) && KindsAgree(previous, entities)
    requires Assigned(items, n, bound, previous, entities, ids) && id !in ids.Values
    requires var k := items[n].key;
             if k in bound then id == bound[k]
             else if k in previous && previous[k] !in ids.Values then id == previous[k]
             else id !in entities
    ensures var next := ids[items[n].key := id];
            Assigned(items, n + 1, bound, previous, entities, next) && next.Values == ids.Values + {id}
  {
    var next := ids[items[n].key := id];
    PlacedNext(items, n, ids, id);
    forall a | 0 <= a < n ensures Settled(items, a, bound, previous, entities, next) {
      StaysSettled(items, a, bound, previous, entities, ids, items[n].key, id);
    }
    if items[n].key in previous {
      CandidateIsFree(items, bound, previous, entities, ids, n);
    }
    assert Settled(items, n, bound, previous, entities, next);
  }

  // ---- Compositions --------------------------------------------------------

  ghost predicate PairsKnown(table: map<(nat, nat), nat>) {
    forall p, q | p in table && q in table && p != q :: table[p] != table[q]
  }

  /** What a composition says, from its nodes, its relations and who the nodes are. */
  ghost predicate ComposedNodes(items: seq<Item>, ids: map<NodeKey, nat>, nodes: map<nat, Payload>) {
    && (forall x | x in items :: x.key in ids && ids[x.key] in nodes && nodes[ids[x.key]] == PayloadOf(x))
    && (forall e {:trigger NodeOf(items, ids, e)} | e in nodes :: NodeOf(items, ids, e))
  }

  ghost predicate NodeOf(items: seq<Item>, ids: map<NodeKey, nat>, e: nat) {
    exists x | x in items :: x.key in ids && ids[x.key] == e
  }

  function MeaningOf(r: Relation, ids: map<NodeKey, nat>, nodes: map<nat, Payload>, relation: nat): RelationMeaning
    requires r.parent in ids && r.child in ids && ids[r.parent] in nodes && ids[r.child] in nodes
  {
    RelationMeaning(relation, ids[r.parent], nodes[ids[r.parent]], ids[r.child], nodes[ids[r.child]], r.role, r.scope)
  }

  ghost predicate Endpoints(rels: seq<Relation>, ids: map<NodeKey, nat>, nodes: map<nat, Payload>) {
    forall r | r in rels :: r.parent in ids && r.child in ids && ids[r.parent] in nodes && ids[r.child] in nodes
  }

  ghost predicate ComposedRelations(rels: seq<Relation>, ids: map<NodeKey, nat>, nodes: map<nat, Payload>,
                                    table: map<(nat, nat), nat>, relations: map<nat, RelationMeaning>)
    requires Endpoints(rels, ids, nodes)
  {
    && (forall r | r in rels ::
          && (ids[r.parent], ids[r.child]) in table
          && var id := table[(ids[r.parent], ids[r.child])];
          && id in relations && relations[id] == MeaningOf(r, ids, nodes, id))
    && (forall id {:trigger RelationOf(rels, ids, table, id)} | id in relations :: RelationOf(rels, ids, table, id))
  }

  ghost predicate RelationOf(rels: seq<Relation>, ids: map<NodeKey, nat>, table: map<(nat, nat), nat>, id: nat) {
    exists r | r in rels ::
      && r.parent in ids && r.child in ids
      && (ids[r.parent], ids[r.child]) in table && table[(ids[r.parent], ids[r.child])] == id
  }

  /** `g` is the composition of a revision under `ids`; `table` gives each pair of
      entities its one relation id. */
  ghost predicate Composes(items: seq<Item>, rels: seq<Relation>, table: map<(nat, nat), nat>, g: Graph) {
    && ComposedNodes(items, g.names, g.nodes) && Endpoints(rels, g.names, g.nodes)
    && ComposedRelations(rels, g.names, g.nodes, table, g.relations)
  }

  /** A pair of nodes is related at most once, and both are in the revision. */
  ghost predicate RelationsOf(items: seq<Item>, rels: seq<Relation>) {
    && (forall r | r in rels :: Named(items, r.parent) && Named(items, r.child)
                                && (r.parent.kind, r.child.kind) in ALLOWED_PAIRS)
    && forall i, j | 0 <= i < j < |rels| :: rels[i].parent != rels[j].parent || rels[i].child != rels[j].child
  }

  method CheckRelations(items: seq<Item>, rels: seq<Relation>) returns (ok: bool)
    ensures ok <==> RelationsOf(items, rels)
  {
    var seen: set<(NodeKey, NodeKey)> := {};
    for i := 0 to |rels|
      invariant RelationsOf(items, rels[..i])
      invariant forall p :: p in seen <==> exists j | 0 <= j < i :: (rels[j].parent, rels[j].child) == p
    {
      var r := rels[i];
      assert rels[..i + 1] == rels[..i] + [r] && r in rels;
      if (r.parent.kind, r.child.kind) !in ALLOWED_PAIRS || !Named(items, r.parent) || !Named(items, r.child)
         || (r.parent, r.child) in seen
      {
        return false;
      }
      seen := seen + {(r.parent, r.child)};
    }
    assert rels[..|rels|] == rels;
    ok := true;
  }

  /** Relations are accepted exactly when each leads between two nodes of the revision to
      a kind further down, and no pair repeats. */
  lemma RelationsExactly(items: seq<Item>, rels: seq<Relation>)
    ensures RelationsOf(items, rels) <==>
              && (forall r | r in rels ::
                    && (exists x :: x in items && x.key == r.parent) && (exists x :: x in items && x.key == r.child)
                    && Layer(r.parent.kind) < Layer(r.child.kind))
              && (forall i, j | 0 <= i < j < |rels| :: rels[i].parent != rels[j].parent || rels[i].child != rels[j].child)
  {
    forall a, b ensures (a, b) in ALLOWED_PAIRS <==> Layer(a) < Layer(b) {}
  }

  /** How far down a kind is: a node may only relate to one further down. */
  function Layer(kind: Kind): nat {
    match kind
    case CoreCapability => 0
    case CapabilityElement => 1
    case SupportingElement => 2
    case ApiBoundary => 3
  }

  // ---- Change sets ---------------------------------------------------------

  function Find<K, V>(m: map<K, V>, k: K): Option<V> {
    if k in m then Some(m[k]) else None
  }

  /** Entities, and relations, whose meaning differs between two compositions; being
      in only one of them is a difference. */
  function ChangedNodes(g: Graph, h: Graph): set<nat> {
    set e | e in g.nodes.Keys + h.nodes.Keys && Find(g.nodes, e) != Find(h.nodes, e)
  }

  function ChangedRelations(g: Graph, h: Graph): set<nat> {
    set r | r in g.relations.Keys + h.relations.Keys && Find(g.relations, r) != Find(h.relations, r)
  }

  /** Two descriptions that differ at most in name, confidence, the order of their lists,
      and repeated or empty references. */
  ghost predicate SameMeaning(x: Item, y: Item) {
    && x.key.kind == y.key.kind && x.summary == y.summary && x.whyCore == y.whyCore
    && multiset(x.evidence) == multiset(y.evidence)
    && (forall d | d != "" :: d in x.relatedDocs <==> d in y.relatedDocs)
    && (forall d | d != "" :: d in x.relatedApis <==> d in y.relatedApis)
  }

  lemma MeaningExactly(x: Item, y: Item)
    ensures PayloadOf(x) == PayloadOf(y) <==> SameMeaning(x, y)
  {
    SameTexts(x.relatedDocs, y.relatedDocs);
    SameTexts(x.relatedApis, y.relatedApis);
  }

  lemma SameTexts(a: seq<string>, b: seq<string>)
    ensures NonEmpty(a) == NonEmpty(b) <==> forall d | d != "" :: d in a <==> d in b
  {
    if NonEmpty(a) == NonEmpty(b) {
      forall d | d != "" ensures d in a <==> d in b { assert d in NonEmpty(a) <==> d in NonEmpty(b); }
    } else {
      assert !(forall d :: d in NonEmpty(a) <==> d in NonEmpty(b));
    }
  }

  /** An entity of both compositions is reported if and only if its description changed
      in more than its name, its confidence or the order of its lists. */
  lemma NodeChangedExactly(items: seq<Item>, rels: seq<Relation>, g: Graph, table: map<(nat, nat), nat>,
                           items2: seq<Item>, rels2: seq<Relation>, h: Graph, table2: map<(nat, nat), nat>, x: Item, y: Item)
    requires Composes(items, rels, table, g) && Composes(items2, rels2, table2, h)
    requires x in items && y in items2 && g.names[x.key] == h.names[y.key]
    ensures g.names[x.key] in ChangedNodes(g, h) <==> !SameMeaning(x, y)
  {
    MeaningExactly(x, y);
  }

  /** A relation of both compositions is reported if and only if its role, its scope
      or the meaning of one of its entities changed. */
  lemma RelationChangedExactly(items: seq<Item>, rels: seq<Relation>, g: Graph, table: map<(nat, nat), nat>,
                               items2: seq<Item>, rels2: seq<Relation>, h: Graph, table2: map<(nat, nat), nat>, id: nat)
    requires Composes(items, rels, table, g) && Composes(items2, rels2, table2, h)
    requires PairsKnown(table2) && forall p | p in table :: p in table2 && table2[p] == table[p]
    requires id in g.relations && id in h.relations
    ensures var a := g.relations[id]; var b := h.relations[id];
            && a.parent == b.parent && a.child == b.child
            && (id in ChangedRelations(g, h)
                <==> a.role != b.role || a.scope != b.scope
                     || a.parent in ChangedNodes(g, h) || a.child in ChangedNodes(g, h))
  {
    assert RelationOf(rels, g.names, table, id) && RelationOf(rels2, h.names, table2, id);
    var r :| r in rels && r.parent in g.names && r.child in g.names
             && (g.names[r.parent], g.names[r.child]) in table && table[(g.names[r.parent], g.names[r.child])] == id;
    var r2 :| r2 in rels2 && r2.parent in h.names && r2.child in h.names
              && (h.names[r2.parent], h.names[r2.child]) in table2 && table2[(h.names[r2.parent], h.names[r2.child])] == id;
    assert (g.names[r.parent], g.names[r.child]) == (h.names[r2.parent], h.names[r2.child]);
  }
}
