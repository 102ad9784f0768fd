/** When the blocked-by graph of the task ledger stays without cycles
    (cell_tasks.py), and what that means for the digest's critical path
    (cell_orchestrator.py). */
module TaskBlocking {
  import opened Walks
  import opened TaskLedger
  import opened Wrappers
  import RosterDigest

  function Blockers(l: Ledger): map<TaskId, seq<TaskId>> {
    map t | t in l.tasks :: l.tasks[t].blockedBy
  }

  /** The guard `transition_task` does not have: the blockers already wait, directly
      or through others, for the task. */
  ghost predicate BlocksItself(l: Ledger, task: TaskId, blockers: seq<TaskId>) {
    ReachedFrom(Blockers(l), blockers, task)
  }

  /** A blocking write closes a cycle exactly when the missing guard would have refused it. */
  lemma BlockingWriteExactly(l: Ledger, p: Pending)
    requires p.PendingMove? && p.to == Blocked && MoveWrite(l, p).Some?
    requires Acyclic(Blockers(l))
    ensures Acyclic(Blockers(MoveWrite(l, p).value)) <==> !BlocksItself(l, p.task, p.blockedBy)
  {
    assert Blockers(MoveWrite(l, p).value) == Blockers(l)[p.task := p.blockedBy];
    RewiringKeepsAcyclic(Blockers(l), p.task, p.blockedBy);
  }

  /** Every other move drops the task's blockers or leaves them. */
  lemma OtherMoveKeepsAcyclic(l: Ledger, p: Pending)
    requires p.PendingMove? && p.to != Blocked && MoveWrite(l, p).Some?
    requires Acyclic(Blockers(l))
    ensures Acyclic(Blockers(MoveWrite(l, p).value))
  {
    var after := Blockers(MoveWrite(l, p).value);
    if p.seen == Blocked {
      assert after == Blockers(l)[p.task := []];
      RewiringKeepsAcyclic(Blockers(l), p.task, []);
      assert forall w: seq<TaskId> | w != [] :: w[0] !in [];
    } else {
      assert after == Blockers(l);
    }
  }

  lemma DeliveryKeepsAcyclic(l: Ledger, p: Pending)
    requires p.PendingDelivery? && Acyclic(Blockers(l)) && l.nextTask !in l.tasks
    ensures Acyclic(Blockers(DeliveryWrite(l, p)))
  {
    SameNextSameCycles(Blockers(l), Blockers(DeliveryWrite(l, p)));
  }

  lemma ReturnKeepsAcyclic(l: Ledger, p: Pending)
    requires p.PendingReturn? && Acyclic(Blockers(l))
    ensures Acyclic(Blockers(ReturnWrite(l, p)))
  {
    assert Blockers(ReturnWrite(l, p)) == Blockers(l);
  }

  /** The write of a blocking move that the missing guard would have refused. */
  ghost predicate ClosesCycle(l: Ledger, a: Action) {
    && a.Write? && a.op in l.pending && l.pending[a.op].PendingMove? && l.pending[a.op].to == Blocked
    && MoveWrite(l, l.pending[a.op]).Some?
    && BlocksItself(l, l.pending[a.op].task, l.pending[a.op].blockedBy)
  }

  /** Of all steps only a blocking write can close a cycle, and exactly those do. */
  lemma StepKeepsAcyclicExactly(l: Ledger, a: Action)
    requires Inv(l) && Acyclic(Blockers(l))
    ensures Acyclic(Blockers(Step(l, a))) <==> !ClosesCycle(l, a)
  {
    if a.Write? && a.op in l.pending {
      var p, rest := l.pending[a.op], l.(pending := l.pending - {a.op});
      assert Blockers(rest) == Blockers(l);
      match p
      case PendingMove(_, _, to, _, _) =>
        if MoveWrite(rest, p).Some? {
          if to == Blocked { BlockingWriteExactly(rest, p); } else { OtherMoveKeepsAcyclic(rest, p); }
        }
      case PendingDelivery(_, _) =>
        assert l.nextTask !in l.tasks;
        DeliveryKeepsAcyclic(rest, p);
      case PendingReturn(_, _) => ReturnKeepsAcyclic(rest, p);
    } else {
      assert Blockers(Step(l, a)) == Blockers(l);
    }
  }

  /** The blocked-by graph has no cycle at any moment of the run. */
  ghost predicate AlwaysAcyclic(l: Ledger, actions: seq<Action>) {
    && (actions != [] ==> AlwaysAcyclic(l, actions[..|actions| - 1]))
    && Acyclic(Blockers(Run(l, actions)))
  }

  /** No write of the run closes a cycle at the moment it is made. */
  ghost predicate NeverCloses(l: Ledger, actions: seq<Action>) {
    actions != [] ==>
      && NeverCloses(l, actions[..|actions| - 1])
      && !ClosesCycle(Run(l, actions[..|actions| - 1]), actions[|actions| - 1])
  }

  /** Over any run from the empty ledger the two are the same. */
  lemma {:induction false} RunStaysAcyclicExactly(l: Ledger, actions: seq<Action>)
    requires Initial(l)
    ensures AlwaysAcyclic(l, actions) <==> NeverCloses(l, actions)
  {
    if actions == [] {
      assert Blockers(l) == map[];
      NoEdgesNoCycles();
    } else {
      var before := actions[..|actions| - 1];
      RunStaysAcyclicExactly(l, before);
      RowsAreFoldOfLog(l, before);
      if AlwaysAcyclic(l, before) {
        StepKeepsAcyclicExactly(Run(l, before), actions[|actions| - 1]);
      }
    }
  }

  lemma NoEdgesNoCycles()
    ensures Acyclic<TaskId>(map[])
  {
    var none: map<TaskId, seq<TaskId>> := map[];
    forall p | IsWalk(none, p) ensures |p| == 1 {
      assert |p| > 1 ==> p[1] in Next(none, p[0]);
    }
  }

  /** A transition checks only that its blockers exist, so two open tasks can be
      made to block each other: the blocked-by graph can have a cycle. */
  lemma MutualBlockIsReachable(l: Ledger, t: TaskId, u: TaskId)
    requires Inv(l) && t in l.tasks && u in l.tasks && t != u
    requires l.tasks[t].status == Todo && l.tasks[u].status == Todo
    ensures var l1 := Step(Step(l, ReadMove(Request(t, Blocked, false, [], [u], false, {}))), Write(l.nextOp));
            var l2 := Step(Step(l1, ReadMove(Request(u, Blocked, false, [], [t], false, {}))), Write(l1.nextOp));
            && t in l2.tasks && l2.tasks[t].status == Blocked && l2.tasks[t].blockedBy == [u]
            && u in l2.tasks && l2.tasks[u].status == Blocked && l2.tasks[u].blockedBy == [t]
  {
  }

  // ---- The graph the digest walks ------------------------------------------

  /** The blocked tasks of the roster's cells, as the digest collects them. */
  function BlockedGraph(l: Ledger, owners: set<nat>): map<TaskId, seq<TaskId>> {
    map t | t in l.tasks && l.tasks[t].status == Blocked && l.tasks[t].order.owner in owners :: l.tasks[t].blockedBy
  }

  /** Without a cycle among all tasks there is none in the digest's part of the graph. */
  lemma DigestGraphInherits(l: Ledger, owners: set<nat>)
    requires Acyclic(Blockers(l))
    ensures Acyclic(BlockedGraph(l, owners))
  {
    var part, whole := BlockedGraph(l, owners), Blockers(l);
    forall x: TaskId | Reaches(part, x, x) ensures Reaches(whole, x, x) {
      var p: seq<TaskId> :| IsWalk(part, p) && |p| >= 2 && p[0] == x && Last(p) == x;
      assert IsWalk(whole, p) by {
        forall i, j | 0 <= i < j < |p| && j == i + 1 ensures p[j] in Next(whole, p[i]) {
          assert p[j] in Next(part, p[i]);
        }
      }
    }
  }

  /** The digest's critical path over the stored tasks: always a longest walk that meets
      no task twice but possibly its last; a longest walk of all, and simple, while no
      write has closed a cycle. */
  method DigestCriticalPath(l: Ledger, owners: set<nat>, ids: seq<TaskId>) returns (best: seq<TaskId>)
    requires forall t :: t in ids <==> t in BlockedGraph(l, owners)
    ensures forall p | RosterDigest.GuardedWalk(BlockedGraph(l, owners), p, {}) && p[0] in BlockedGraph(l, owners) ::
              |p| <= |best|
    ensures best != [] ==> RosterDigest.GuardedWalk(BlockedGraph(l, owners), best, {})
    ensures Acyclic(Blockers(l)) ==>
              && NoDuplicates(best)
              && forall p | IsWalk(BlockedGraph(l, owners), p) && p[0] in BlockedGraph(l, owners) :: |p| <= |best|
  {
    best := RosterDigest.CriticalPath(BlockedGraph(l, owners), ids);
    if Acyclic(Blockers(l)) {
      DigestGraphInherits(l, owners);
    }
  }
}
