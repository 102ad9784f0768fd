/** The retry limit (cell_tasks.py) when reads and writes interleave: the write's
    compare-and-set watches the status, not the count. */
module TaskRetries {
  import opened Wrappers
  import opened TaskLedger

  ghost predicate WithinLimit(l: Ledger) {
    forall t | t in l.tasks :: l.tasks[t].retryCount <= l.tasks[t].retryLimit
  }

  predicate IsRetryOf(p: Pending, t: TaskId) {
    p.PendingMove? && p.task == t && IsRetry(p.seen, p.to)
  }

  /** The retries of `t` that have been read and not yet written. */
  function InFlight(l: Ledger, t: TaskId): set<OpId> {
    set o | o in l.pending && IsRetryOf(l.pending[o], t)
  }

  /** Every retry in flight could still be written without passing the limit. */
  ghost predicate Covered(l: Ledger, t: TaskId) {
    t in l.tasks ==> l.tasks[t].retryCount + |InFlight(l, t)| <= l.tasks[t].retryLimit
  }

  /** A retry of `t` is let through its read. */
  predicate ReadsRetry(l: Ledger, a: Action, t: TaskId) {
    a.ReadMove? && a.req.task == t && MoveRefusal(l, a.req).None? && IsRetry(l.tasks[t].status, a.req.to)
  }

  /** ... while another one is in flight. */
  ghost predicate ReadsSecondRetry(l: Ledger, a: Action, t: TaskId) {
    ReadsRetry(l, a, t) && InFlight(l, t) != {}
  }

  /** Pending moves are of stored tasks: tasks are never deleted. */
  ghost predicate MovesKnown(l: Ledger) {
    forall o | o in l.pending && l.pending[o].PendingMove? :: l.pending[o].task in l.tasks
  }

  lemma StepKeepsMovesKnown(l: Ledger, a: Action)
    requires MovesKnown(l)
    ensures MovesKnown(Step(l, a))
  {
  }

  // ---- The limit holds while retries of a task do not overlap ---------------

  lemma HoldKeepsCovered(l: Ledger, p: Pending, t: TaskId)
    requires Inv(l) && Covered(l, t)
    requires IsRetryOf(p, t) && t in l.tasks ==> InFlight(l, t) == {} && l.tasks[t].retryCount < l.tasks[t].retryLimit
    ensures Covered(Hold(l, p), t)
  {
    InFlightHeld(l, p, t);
  }

  lemma InFlightHeld(l: Ledger, p: Pending, t: TaskId)
    requires Inv(l)
    ensures |InFlight(Hold(l, p), t)| == |InFlight(l, t)| + if IsRetryOf(p, t) then 1 else 0
  {
    var held := Hold(l, p);
    assert l.nextOp !in l.pending && held.pending == l.pending[l.nextOp := p];
    forall o ensures o in InFlight(l, t) <==> o in InFlight(held, t) && o != l.nextOp {
      assert o != l.nextOp && o in l.pending ==> held.pending[o] == l.pending[o];
    }
    OneLess(InFlight(held, t), InFlight(l, t), l.nextOp);
  }

  lemma WriteKeepsCovered(l: Ledger, op: OpId, t: TaskId)
    requires Inv(l) && MovesKnown(l) && Covered(l, t) && op in l.pending
    ensures Covered(Step(l, Write(op)), t)
  {
    var l' := Step(l, Write(op));
    WriteLands(l, op, t);
    if t in l.tasks {
      CountedWrite(l, op, t);
    } else if t in l'.tasks {
      assert InFlight(l', t) == {};
    }
  }

  /** A write takes its operation out of flight. */
  lemma WriteLands(l: Ledger, op: OpId, t: TaskId)
    requires op in l.pending
    ensures |InFlight(Step(l, Write(op)), t)| == |InFlight(l, t)| - if IsRetryOf(l.pending[op], t) then 1 else 0
    ensures InFlight(Step(l, Write(op)), t) == InFlight(l, t) - {op}
  {
    WriteIsDone(l, op);
    InFlightWithout(l, Step(l, Write(op)), op, t);
  }

  lemma WriteIsDone(l: Ledger, op: OpId)
    requires op in l.pending
    ensures Step(l, Write(op)).pending == l.pending - {op}
  {
  }

  lemma InFlightWithout(l: Ledger, l': Ledger, op: OpId, t: TaskId)
    requires op in l.pending && l'.pending == l.pending - {op}
    ensures |InFlight(l', t)| == |InFlight(l, t)| - if IsRetryOf(l.pending[op], t) then 1 else 0
    ensures InFlight(l', t) == InFlight(l, t) - {op}
  {
    forall o ensures o in InFlight(l', t) <==> o in InFlight(l, t) && o != op {
      assert o in l.pending && o != op ==> l'.pending[o] == l.pending[o];
    }
    OneLess(InFlight(l, t), InFlight(l', t), op);
  }

  lemma OneLess(a: set<OpId>, b: set<OpId>, op: OpId)
    requires forall o :: o in b <==> o in a && o != op
    ensures b == a - {op} && |b| == |a| - if op in a then 1 else 0
  {
    assert b == a - {op};
    if op in a { assert a == b + {op}; } else { assert a == b; }
  }

  /** Only the write of a retry counts one more. */
  lemma CountedWrite(l: Ledger, op: OpId, t: TaskId)
    requires Inv(l) && op in l.pending && t in l.tasks
    ensures t in Step(l, Write(op)).tasks && Step(l, Write(op)).tasks[t].retryLimit == l.tasks[t].retryLimit
    ensures Step(l, Write(op)).tasks[t].retryCount <= l.tasks[t].retryCount + if IsRetryOf(l.pending[op], t) then 1 else 0
  {
  }

  /** Whatever else runs, one step keeps the limit covered unless it reads a second
      retry of the task. */
  lemma StepKeepsCovered(l: Ledger, a: Action, t: TaskId)
    requires Inv(l) && MovesKnown(l) && Covered(l, t) && !ReadsSecondRetry(l, a, t)
    ensures Covered(Step(l, a), t)
  {
    match a
    case ReadMove(req) => if MoveRefusal(l, req).None? { HoldKeepsCovered(l, PlannedMove(l, req), t); }
    case ReadDelivery(key, order, valid) =>
      if !Known(l, key) && valid { HoldKeepsCovered(l, PendingDelivery(key, order), t); }
    case ReadReturn(u) =>
      if u in l.tasks { HoldKeepsCovered(l, PendingReturn(u, l.tasks[u].status), t); }
    case Write(op) => if op in l.pending { WriteKeepsCovered(l, op, t); }
  }

  /** Over the whole run a second retry of `t` is never read while one is in flight. */
  ghost predicate OneRetryAtATime(l: Ledger, actions: seq<Action>, t: TaskId) {
    actions != [] ==>
      && OneRetryAtATime(l, actions[..|actions| - 1], t)
      && !ReadsSecondRetry(Run(l, actions[..|actions| - 1]), actions[|actions| - 1], t)
  }

  lemma {:induction false} CoveredRun(l: Ledger, actions: seq<Action>, t: TaskId)
    requires Inv(l) && MovesKnown(l) && Covered(l, t) && OneRetryAtATime(l, actions, t)
    ensures Inv(Run(l, actions)) && MovesKnown(Run(l, actions)) && Covered(Run(l, actions), t)
  {
    if actions != [] {
      var before, a := actions[..|actions| - 1], actions[|actions| - 1];
      CoveredRun(l, before, t);
      StepKeepsInv(Run(l, before), a);
      StepKeepsMovesKnown(Run(l, before), a);
      StepKeepsCovered(Run(l, before), a, t);
    }
  }

  /** With everything else interleaved at will, the limit of a task holds as long as
      its own retries do not overlap; so it enters `failed` at most limit + 1 times. */
  lemma LimitHoldsWithoutOverlap(l: Ledger, actions: seq<Action>, t: TaskId)
    requires Initial(l) && OneRetryAtATime(l, actions, t) && t in Run(l, actions).tasks
    ensures var row := Run(l, actions).tasks[t];
            && row.retryCount <= row.retryLimit
            && Replay(Run(l, actions).events, t).At? && Replay(Run(l, actions).events, t).failures <= row.retryLimit + 1
  {
    CoveredRun(l, actions, t);
    assert RowFollowsLog(Run(l, actions), t);
  }

  // ---- Serialised calls ----------------------------------------------------

  /** Each operation runs its read and its write without interruption. */
  function SerialRun(l: Ledger, calls: seq<Action>): Ledger {
    if calls == [] then l
    else
      var before := SerialRun(l, calls[..|calls| - 1]);
      Step(Step(before, calls[|calls| - 1]), Write(before.nextOp))
  }

  /** A call that runs uninterrupted finds no retry in flight. */
  lemma SerialStepKeepsCovered(l: Ledger, read: Action)
    requires Inv(l) && l.pending == map[] && WithinLimit(l) && !read.Write?
    ensures var l' := Step(Step(l, read), Write(l.nextOp));
            Inv(l') && l'.pending == map[] && WithinLimit(l')
  {
    var mid := Step(l, read);
    StepKeepsInv(l, read);
    StepKeepsInv(mid, Write(l.nextOp));
    StepKeepsMovesKnown(l, read);
    forall t | t in Step(mid, Write(l.nextOp)).tasks ensures Covered(Step(mid, Write(l.nextOp)), t) {
      assert InFlight(l, t) == {};
      StepKeepsCovered(l, read, t);
      StepKeepsCovered(mid, Write(l.nextOp), t);
    }
  }

  lemma {:induction false} SerialRunKeepsLimit(l: Ledger, calls: seq<Action>)
    requires Initial(l) && forall a | a in calls :: !a.Write?
    ensures Inv(SerialRun(l, calls)) && SerialRun(l, calls).pending == map[] && WithinLimit(SerialRun(l, calls))
  {
    if calls != [] {
      var before, read := SerialRun(l, calls[..|calls| - 1]), calls[|calls| - 1];
      SerialRunKeepsLimit(l, calls[..|calls| - 1]);
      SerialStepKeepsCovered(before, read);
    }
  }

  /** When every operation runs without interruption, a task enters `failed` at
      most retry_limit + 1 times. */
  lemma SerialFailuresBounded(l: Ledger, calls: seq<Action>, t: TaskId)
    requires Initial(l) && (forall a | a in calls :: !a.Write?) && t in SerialRun(l, calls).tasks
    ensures Replay(SerialRun(l, calls).events, t).At?
    ensures Replay(SerialRun(l, calls).events, t).failures <= SerialRun(l, calls).tasks[t].retryLimit + 1
  {
    SerialRunKeepsLimit(l, calls);
    assert RowFollowsLog(SerialRun(l, calls), t);
  }

  // ---- Past the limit ------------------------------------------------------

  /** No retry of `t` is read in the run; those in flight at its start may be written. */
  predicate ReadsNoRetry(l: Ledger, actions: seq<Action>, t: TaskId) {
    actions == []
    || (ReadsNoRetry(l, actions[..|actions| - 1], t)
        && !ReadsRetry(Run(l, actions[..|actions| - 1]), actions[|actions| - 1], t))
  }

  /** The actions ask for no move of `t` to `todo`. */
  predicate SendsNoneBack(actions: seq<Action>, t: TaskId) {
    forall a | a in actions :: a.ReadMove? ==> a.req.task != t || a.req.to != Todo
  }

  lemma {:induction false} NoneSentNoneRead(l: Ledger, actions: seq<Action>, t: TaskId)
    requires SendsNoneBack(actions, t)
    ensures ReadsNoRetry(l, actions, t)
  {
    if actions != [] {
      assert actions[|actions| - 1] in actions;
      NoneSentNoneRead(l, actions[..|actions| - 1], t);
    }
  }

  function FailureOf(t: TaskId): Action {
    ReadMove(Request(t, Failed, false, [], [], false, {}))
  }

  /** One retry in flight, written, and the task failed again. */
  function RetriedAndFailed(l: Ledger, op: OpId, t: TaskId): seq<Action> {
    [Write(op), FailureOf(t), Write(l.nextOp)]
  }

  lemma RunSplits(l: Ledger, a: seq<Action>, b: seq<Action>)
    ensures Run(l, a + b) == Run(Run(l, a), b)
  {
    if b == [] {
      assert a + b == a;
    } else {
      assert (a + b)[..|a + b| - 1] == a + b[..|b| - 1];
      RunSplits(l, a, b[..|b| - 1]);
    }
  }

  lemma ThreeSteps(l: Ledger, a: Action, b: Action, c: Action)
    ensures Run(l, [a, b, c]) == Step(Step(Step(l, a), b), c)
  {
    assert [a, b, c][..2] == [a, b] && [a, b][..1] == [a] && [a][..0] == [];
    assert Run(l, []) == l;
    assert Run(l, [a]) == Step(l, a);
    assert Run(l, [a, b]) == Step(Run(l, [a]), b);
  }

  /** A retry goes through whatever was read before: the status is failed again. */
  lemma LateRetry(l: Ledger, op: OpId, t: TaskId)
    requires Inv(l) && op in InFlight(l, t) && t in l.tasks && l.tasks[t].status == Failed
    ensures var end := Run(l, RetriedAndFailed(l, op, t));
            && t in end.tasks && end.tasks[t].status == Failed
            && end.tasks[t].retryCount == l.tasks[t].retryCount + 1 && end.tasks[t].retryLimit == l.tasks[t].retryLimit
            && InFlight(end, t) == InFlight(l, t) - {op}
  {
    ThreeSteps(l, Write(op), FailureOf(t), Write(l.nextOp));
    var l1 := Step(l, Write(op));
    assert l1.pending == l.pending - {op} && l1.tasks[t].status == Todo;
    var l2 := Step(l1, FailureOf(t));
    assert MoveRefusal(l1, FailureOf(t).req).None?;
    assert l2.pending == l1.pending[l.nextOp := PendingMove(t, Todo, Failed, [], [])];
    var l3 := Step(l2, Write(l.nextOp));
    assert l3.pending == l2.pending - {l.nextOp};
  }

  /** From a failed task: if the retries in flight are more than the limit leaves room
      for, writing them one by one, the task failing in between, passes the limit. */
  lemma {:induction false} FailedPassesLimit(l: Ledger, t: TaskId) returns (actions: seq<Action>)
    requires Inv(l) && t in l.tasks && l.tasks[t].status == Failed && !Covered(l, t)
    ensures SendsNoneBack(actions, t) && PassesLimit(l, actions, t)
    decreases |InFlight(l, t)|
  {
    if l.tasks[t].retryCount > l.tasks[t].retryLimit {
      actions := [];
    } else {
      assert InFlight(l, t) != {};
      var op :| op in InFlight(l, t);
      var first := RetriedAndFailed(l, op, t);
      LateRetry(l, op, t);
      RunKeepsInv(l, first);
      var rest := FailedPassesLimit(Run(l, first), t);
      RunSplits(l, first, rest);
      actions := first + rest;
    }
  }

  /** A task that is not done can be failed, and its retries in flight stay there. */
  lemma FailedFirst(l: Ledger, t: TaskId)
    requires Inv(l) && t in l.tasks && l.tasks[t].status != Failed && l.tasks[t].status != Done
    ensures var end := Run(l, [FailureOf(t), Write(l.nextOp)]);
            && t in end.tasks && end.tasks[t] == l.tasks[t].(status := Failed, blockedBy := end.tasks[t].blockedBy)
            && InFlight(end, t) == InFlight(l, t)
  {
    var held := Step(l, FailureOf(t));
    var p := PendingMove(t, l.tasks[t].status, Failed, [], []);
    TwoSteps(l, FailureOf(t), Write(l.nextOp));
    FailureIsHeld(l, t);
    assert MoveWrite(held.(pending := held.pending - {l.nextOp}), p).Some?;
    WriteLands(held, l.nextOp, t);
    InFlightBeside(l, p, t);
  }

  lemma TwoSteps(l: Ledger, a: Action, b: Action)
    ensures Run(l, [a, b]) == Step(Step(l, a), b)
  {
    assert [a, b][..1] == [a] && [a][..0] == [];
    assert Run(l, []) == l;
    assert Run(l, [a]) == Step(l, a);
  }

  lemma FailureIsHeld(l: Ledger, t: TaskId)
    requires t in l.tasks && l.tasks[t].status != Failed && l.tasks[t].status != Done
    ensures Step(l, FailureOf(t)) == Hold(l, PendingMove(t, l.tasks[t].status, Failed, [], []))
  {
  }

  lemma InFlightBeside(l: Ledger, p: Pending, t: TaskId)
    requires Inv(l) && !IsRetryOf(p, t)
    ensures InFlight(Hold(l, p), t) - {l.nextOp} == InFlight(l, t)
  {
    assert l.nextOp !in l.pending;
  }

  /** The same from any task that is not done: it is failed first. */
  lemma OverlapPassesLimit(l: Ledger, t: TaskId) returns (actions: seq<Action>)
    requires Inv(l) && t in l.tasks && l.tasks[t].status != Done && !Covered(l, t)
    ensures SendsNoneBack(actions, t) && PassesLimit(l, actions, t)
  {
    if l.tasks[t].status == Failed {
      actions := FailedPassesLimit(l, t);
    } else {
      var first := [FailureOf(t), Write(l.nextOp)];
      FailedFirst(l, t);
      RunKeepsInv(l, first);
      var rest := FailedPassesLimit(Run(l, first), t);
      RunSplits(l, first, rest);
      actions := first + rest;
    }
  }

  lemma {:induction false} NoRetryNoOverlap(l: Ledger, actions: seq<Action>, t: TaskId)
    requires ReadsNoRetry(l, actions, t)
    ensures OneRetryAtATime(l, actions, t)
  {
    if actions != [] { NoRetryNoOverlap(l, actions[..|actions| - 1], t); }
  }

  /** Nothing moves a task that is done. */
  lemma DoneStep(l: Ledger, a: Action, t: TaskId)
    requires Inv(l) && t in l.tasks && l.tasks[t].status == Done
    ensures t in Step(l, a).tasks
    ensures var row, row' := l.tasks[t], Step(l, a).tasks[t];
            row'.status == Done && row'.retryCount == row.retryCount && row'.retryLimit == row.retryLimit
  {
    if a.Write? && a.op in l.pending { assert PendingOk(l.pending[a.op]); }
  }

  lemma {:induction false} DoneRun(l: Ledger, actions: seq<Action>, t: TaskId)
    requires Inv(l) && t in l.tasks && l.tasks[t].status == Done
    ensures t in Run(l, actions).tasks
    ensures var row, row' := l.tasks[t], Run(l, actions).tasks[t];
            row'.status == Done && row'.retryCount == row.retryCount && row'.retryLimit == row.retryLimit
  {
    if actions != [] {
      DoneRun(l, actions[..|actions| - 1], t);
      RunKeepsInv(l, actions[..|actions| - 1]);
      DoneStep(Run(l, actions[..|actions| - 1]), actions[|actions| - 1], t);
    }
  }

  /** Some continuation that reads no further retry of the task passes its limit if and
      only if the count is past it already, or the task is not done and count and
      retries in flight together exceed it. */
  lemma LimitPassedExactly(l: Ledger, t: TaskId)
    requires Inv(l) && MovesKnown(l) && t in l.tasks
    ensures (exists actions :: ReadsNoRetry(l, actions, t) && PassesLimit(l, actions, t))
       <==> l.tasks[t].retryCount > l.tasks[t].retryLimit || (l.tasks[t].status != Done && !Covered(l, t))
  {
    if l.tasks[t].retryCount > l.tasks[t].retryLimit {
      assert ReadsNoRetry(l, [], t) && PassesLimit(l, [], t);
    } else if l.tasks[t].status != Done && !Covered(l, t) {
      var actions := OverlapPassesLimit(l, t);
      NoneSentNoneRead(l, actions, t);
    } else {
      forall actions | ReadsNoRetry(l, actions, t) ensures !PassesLimit(l, actions, t) {
        if l.tasks[t].status == Done {
          DoneRun(l, actions, t);
        } else {
          NoRetryNoOverlap(l, actions, t);
          CoveredRun(l, actions, t);
        }
      }
    }
  }

  ghost predicate PassesLimit(l: Ledger, actions: seq<Action>, t: TaskId) {
    t in Run(l, actions).tasks && Run(l, actions).tasks[t].retryCount > Run(l, actions).tasks[t].retryLimit
  }

  function RetryOf(t: TaskId): Action {
    ReadMove(Request(t, Todo, false, [], [], false, {}))
  }

  /** Two retries read against a failed row one short of its limit are both written,
      the task failing again in between: it ends one retry past the limit. */
  lemma RacingRetriesExceedLimit(l: Ledger, t: TaskId)
    requires Inv(l) && t in l.tasks && l.tasks[t].status == Failed
    requires l.tasks[t].retryCount + 1 == l.tasks[t].retryLimit
    ensures var held := Step(Step(l, RetryOf(t)), RetryOf(t));
            var end := Step(Run(held, RetriedAndFailed(held, l.nextOp, t)), Write(l.nextOp + 1));
            t in end.tasks && end.tasks[t].retryCount == end.tasks[t].retryLimit + 1
  {
    var one := Step(l, RetryOf(t));
    var held := Step(one, RetryOf(t));
    StepKeepsInv(l, RetryOf(t));
    StepKeepsInv(one, RetryOf(t));
    assert l.nextOp in InFlight(held, t) && l.nextOp + 1 in InFlight(held, t);
    LateRetry(held, l.nextOp, t);
    assert l.nextOp + 1 in InFlight(Run(held, RetriedAndFailed(held, l.nextOp, t)), t);
  }
}
