/** What it takes for a task to be done (cell_tasks.py), over any interleaving of reads
    and writes: somebody asked for it in review, with acceptance met and evidence that
    resolved then. */
module TaskAcceptance {
  import opened Wrappers
  import opened TaskLedger

  /** Action `k` asked for task `t` in review to become done: acceptance was met, and
      there was evidence, all of which resolved. */
  ghost predicate Asked(l: Ledger, actions: seq<Action>, k: nat, t: TaskId, evidence: seq<Ref>) {
    && k < |actions| && actions[k].ReadMove?
    && actions[k].req.task == t && actions[k].req.to == Done && actions[k].req.acceptanceMet
    && actions[k].req.evidence == evidence && evidence != []
    && (forall e | e in evidence :: e in actions[k].req.valid)
    && t in Run(l, actions[..k]).tasks && Run(l, actions[..k]).tasks[t].status == Review
  }

  lemma AskedEarlier(l: Ledger, actions: seq<Action>, k: nat, t: TaskId, evidence: seq<Ref>)
    requires actions != [] && Asked(l, actions[..|actions| - 1], k, t, evidence)
    ensures Asked(l, actions, k, t, evidence)
  {
    assert actions[..|actions| - 1][..k] == actions[..k];
  }

  /** What a pending move to done was read from. */
  lemma HeldByAsking(l: Ledger, a: Action, op: OpId)
    requires Inv(l) && op in Step(l, a).pending
    ensures op in l.pending ==> Step(l, a).pending[op] == l.pending[op]
    ensures var p := Step(l, a).pending[op];
            op !in l.pending && p.PendingMove? && p.to == Done ==>
              && a.ReadMove? && a.req.task == p.task && a.req.to == Done && a.req.acceptanceMet
              && a.req.evidence == p.evidence && p.evidence != [] && (forall e | e in p.evidence :: e in a.req.valid)
              && p.task in l.tasks && l.tasks[p.task].status == Review && p.seen == Review
  {
    assert op in l.pending ==> op < l.nextOp;
  }

  /** Every pending move to done was asked for. */
  lemma {:induction false} PendingWasAsked(l: Ledger, actions: seq<Action>, op: OpId) returns (k: nat)
    requires Initial(l) && op in Run(l, actions).pending
    requires Run(l, actions).pending[op].PendingMove? && Run(l, actions).pending[op].to == Done
    ensures var p := Run(l, actions).pending[op];
            p.seen == Review && Asked(l, actions, k, p.task, p.evidence)
  {
    var before, a := actions[..|actions| - 1], actions[|actions| - 1];
    var mid := Run(l, before);
    RunKeepsInv(l, before);
    HeldByAsking(mid, a, op);
    if op in mid.pending {
      k := PendingWasAsked(l, before, op);
      AskedEarlier(l, actions, k, mid.pending[op].task, mid.pending[op].evidence);
    } else {
      k := |before|;
      assert actions[..k] == before;
    }
  }

  /** A task that is done stays done, on the same evidence. */
  lemma DoneStays(l: Ledger, a: Action, t: TaskId)
    requires Inv(l) && t in l.tasks && l.tasks[t].status == Done
    ensures t in Step(l, a).tasks && Step(l, a).tasks[t].status == Done
    ensures Step(l, a).tasks[t].evidence == l.tasks[t].evidence
  {
    assert t < l.nextTask;
  }

  /** In every run, whatever runs in between: a task is done only because one request
      found it in review and asked for done with acceptance met and resolving evidence,
      and that is the evidence on record. */
  lemma {:induction false} DoneWasAccepted(l: Ledger, actions: seq<Action>, t: TaskId) returns (k: nat)
    requires Initial(l) && t in Run(l, actions).tasks && Run(l, actions).tasks[t].status == Done
    ensures Asked(l, actions, k, t, Run(l, actions).tasks[t].evidence)
  {
    var before, a := actions[..|actions| - 1], actions[|actions| - 1];
    var mid := Run(l, before);
    RunKeepsInv(l, before);
    if t in mid.tasks && mid.tasks[t].status == Done {
      k := DoneWasAccepted(l, before, t);
      DoneStays(mid, a, t);
    } else {
      k := PendingWasAsked(l, before, a.op);
    }
    AskedEarlier(l, actions, k, t, Run(l, actions).tasks[t].evidence);
  }

  /** What was done once is done in every continuation, on the same evidence. */
  lemma {:induction false} DoneForGood(l: Ledger, actions: seq<Action>, t: TaskId)
    requires Inv(l) && t in l.tasks && l.tasks[t].status == Done
    ensures t in Run(l, actions).tasks && Run(l, actions).tasks[t].status == Done
    ensures Run(l, actions).tasks[t].evidence == l.tasks[t].evidence
  {
    if actions != [] {
      DoneForGood(l, actions[..|actions| - 1], t);
      RunKeepsInv(l, actions[..|actions| - 1]);
      DoneStays(Run(l, actions[..|actions| - 1]), actions[|actions| - 1], t);
    }
  }
}
