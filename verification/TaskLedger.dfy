/** The task ledger (cell_tasks.py) with every operation split where it reads and
    where it writes: between the two, any other operation may run. */
module TaskLedger {
  import opened Wrappers

  type TaskId = nat
  type OpId = nat
  type Ref = string

  // ---- Transition table (cell_fabric.py) -----------------------------------

  datatype Status = Todo | Doing | Review | Done | Failed | Blocked

  predicate Allowed(from: Status, to: Status) {
    match from
    case Todo => to == Doing || to == Failed || to == Blocked
    case Doing => to == Review || to == Failed || to == Blocked
    case Review => to == Done || to == Failed || to == Doing
    case Blocked => to == Todo || to == Doing || to == Failed
    case Failed => to == Todo
    case Done => false
  }

  predicate IsRetry(from: Status, to: Status) {
    from == Failed && to == Todo
  }

  // ---- Rows ----------------------------------------------------------------

  const DEFAULT_RETRY_LIMIT := 3

  datatype Delegation = Delegation(goal: nat, owner: nat, title: string, acceptance: seq<string>)

  datatype Task = Task(
    order: Delegation, key: Option<string>, status: Status, retryCount: nat, retryLimit: nat,
    blockedBy: seq<TaskId>, acceptanceMet: bool, evidence: seq<Ref>, returned: bool)

  datatype Event =
    | Created(task: TaskId)
    | Moved(task: TaskId, from: Status, to: Status)   // transition, retry, blocked, unblocked
    | ReturnedToParent(task: TaskId, status: Status)

  /** What an operation carries from its read to its write. */
  datatype Pending =
    | PendingMove(task: TaskId, seen: Status, to: Status, blockedBy: seq<TaskId>, evidence: seq<Ref>)
    | PendingDelivery(key: Option<string>, order: Delegation)
    | PendingReturn(task: TaskId, seen: Status)

  datatype Ledger = Ledger(
    tasks: map<TaskId, Task>, events: seq<Event>, nextTask: TaskId, pending: map<OpId, Pending>, nextOp: OpId)

  datatype Request = Request(
    task: TaskId, to: Status, acceptanceMet: bool, evidence: seq<Ref>, blockedBy: seq<TaskId>, hasDetail: bool, valid: set<Ref>)

  datatype Refusal =
    | NotFound | RetriesExhausted | BlockerMissing | UnresolvedRef | IllegalTransition | NotAccepted | NoEvidence
    | ChangedConcurrently | NotReturnable

  // ---- Reads ---------------------------------------------------------------

  function MoveRefusal(l: Ledger, r: Request): Option<Refusal> {
    if r.task !in l.tasks then Some(NotFound)
    else
      var row := l.tasks[r.task];
      if IsRetry(row.status, r.to) && row.retryCount >= row.retryLimit then Some(RetriesExhausted)
      else if r.to == Blocked && r.blockedBy == [] && !r.hasDetail then Some(BlockerMissing)
      else if r.to == Blocked && exists b | b in r.blockedBy :: b !in l.tasks then Some(NotFound)
      else if r.to == Done && exists e | e in r.evidence :: e !in r.valid then Some(UnresolvedRef)
      else if !Allowed(row.status, r.to) then Some(IllegalTransition)
      else if r.to == Done && !r.acceptanceMet then Some(NotAccepted)
      else if r.to == Done && r.evidence == [] then Some(NoEvidence)
      else None
  }

  function PlannedMove(l: Ledger, r: Request): Pending
    requires r.task in l.tasks
  {
    PendingMove(r.task, l.tasks[r.task].status, r.to, r.blockedBy, r.evidence)
  }

  function Keyed(l: Ledger, key: string): set<TaskId> {
    set t | t in l.tasks && l.tasks[t].key == Some(key)
  }

  /** The unique index on (system_id, idempotency_key). */
  predicate Taken(l: Ledger, key: Option<string>) {
    key.Some? && Keyed(l, key.value) != {}
  }

  /** The look-up by key: an empty key is stored, and held apart by the index, but
      never looked up. */
  predicate Known(l: Ledger, key: Option<string>) {
    Taken(l, key) && key != Some("")
  }

  // ---- Writes --------------------------------------------------------------

  /** Compare-and-set on the status that was read: None when it has moved on. */
  function MoveWrite(l: Ledger, p: Pending): Option<Ledger>
    requires p.PendingMove?
  {
    if p.task !in l.tasks || l.tasks[p.task].status != p.seen then None
    else
      var row := l.tasks[p.task];
      var row' := row.(
        status := p.to,
        retryCount := if IsRetry(p.seen, p.to) then row.retryCount + 1 else row.retryCount,
        blockedBy := if p.to == Blocked then p.blockedBy else if p.seen == Blocked then [] else row.blockedBy,
        acceptanceMet := if p.to == Done then true else row.acceptanceMet,
        evidence := if p.to == Done then p.evidence else row.evidence);
      Some(l.(tasks := l.tasks[p.task := row'], events := l.events + [Moved(p.task, p.seen, p.to)]))
  }

  function NewTask(order: Delegation, key: Option<string>): Task {
    Task(order, key, Todo, 0, DEFAULT_RETRY_LIMIT, [], false, [], false)
  }

  /** Inserts the task, or, when a racing delivery has taken the key, nothing. */
  function DeliveryWrite(l: Ledger, p: Pending): Ledger
    requires p.PendingDelivery?
  {
    if Taken(l, p.key) then l
    else l.(tasks := l.tasks[l.nextTask := NewTask(p.order, p.key)],
            events := l.events + [Created(l.nextTask)], nextTask := l.nextTask + 1)
  }

  /** Unguarded: marks the row whatever its status is by now. */
  function ReturnWrite(l: Ledger, p: Pending): Ledger
    requires p.PendingReturn?
  {
    if p.task !in l.tasks then l
    else l.(tasks := l.tasks[p.task := l.tasks[p.task].(returned := true)],
            events := l.events + [ReturnedToParent(p.task, p.seen)])
  }

  // ---- Runs ----------------------------------------------------------------

  datatype Action =
    | ReadMove(req: Request)
    | ReadDelivery(key: Option<string>, order: Delegation, valid: bool)
    | ReadReturn(task: TaskId)
    | Write(op: OpId)

  function Hold(l: Ledger, p: Pending): Ledger {
    l.(pending := l.pending[l.nextOp := p], nextOp := l.nextOp + 1)
  }

  function Step(l: Ledger, a: Action): Ledger {
    match a
    case ReadMove(req) => if MoveRefusal(l, req).None? then Hold(l, PlannedMove(l, req)) else l
    case ReadDelivery(key, order, valid) => if Known(l, key) || !valid then l else Hold(l, PendingDelivery(key, order))
    case ReadReturn(t) =>
      if t in l.tasks && (l.tasks[t].status == Failed || l.tasks[t].status == Blocked)
      then Hold(l, PendingReturn(t, l.tasks[t].status)) else l
    case Write(op) =>
      if op !in l.pending then l
      else
        var p, rest := l.pending[op], l.(pending := l.pending - {op});
        match p
        case PendingMove(_, _, _, _, _) => (match MoveWrite(rest, p) case Some(l') => l' case None => rest)
        case PendingDelivery(_, _) => DeliveryWrite(rest, p)
        case PendingReturn(_, _) => ReturnWrite(rest, p)
  }

  function Run(l: Ledger, actions: seq<Action>): Ledger {
    if actions == [] then l else Step(Run(l, actions[..|actions| - 1]), actions[|actions| - 1])
  }

  ghost predicate Initial(l: Ledger) {
    l.tasks == map[] && l.events == [] && l.pending == map[]
  }

  // ---- The log and what it folds to ----------------------------------------

  /** A task replayed from its events: never created, at a status with so many
      retries and so many entries into `failed`, or a log that is no path. */
  datatype Replayed = Absent | At(status: Status, retries: nat, failures: nat) | Broken

  function Replay(events: seq<Event>, t: TaskId): Replayed {
    if events == [] then Absent
    else
      var before, e := Replay(events[..|events| - 1], t), events[|events| - 1];
      if e.task != t then before
      else match e
        case Created(_) => if before == Absent then At(Todo, 0, 0) else Broken
        case ReturnedToParent(_, _) => before
        case Moved(_, from, to) =>
          if before.At? && before.status == from && Allowed(from, to)
          then At(to, before.retries + (if IsRetry(from, to) then 1 else 0), before.failures + if to == Failed then 1 else 0)
          else Broken
  }

  ghost predicate RowFollowsLog(l: Ledger, t: TaskId)
    requires t in l.tasks
  {
    var row, r := l.tasks[t], Replay(l.events, t);
    && r.At? && r.status == row.status && r.retries == row.retryCount
    && r.failures == r.retries + (if row.status == Failed then 1 else 0)
    && (row.acceptanceMet <==> row.status == Done)
    && (row.acceptanceMet ==> row.evidence != [])
    && (row.blockedBy != [] ==> row.status == Blocked)
  }

  ghost predicate Inv(l: Ledger) {
    && (forall t | t in l.tasks :: t < l.nextTask && RowFollowsLog(l, t))
    && (forall t | t !in l.tasks :: Replay(l.events, t) == Absent)
    && (forall o | o in l.pending :: o < l.nextOp && PendingOk(l.pending[o]))
  }

  predicate PendingOk(p: Pending) {
    p.PendingMove? ==> Allowed(p.seen, p.to) && (p.to == Done ==> p.evidence != [])
  }

  lemma ReplayAppend(events: seq<Event>, e: Event, t: TaskId)
    ensures e.task != t ==> Replay(events + [e], t) == Replay(events, t)
    ensures e.ReturnedToParent? ==> Replay(events + [e], t) == Replay(events, t)
    ensures e == Created(t) && Replay(events, t) == Absent ==> Replay(events + [e], t) == At(Todo, 0, 0)
    ensures var r := Replay(events, t);
            e.Moved? && e.task == t && r.At? && r.status == e.from && Allowed(e.from, e.to) ==>
              Replay(events + [e], t) == At(e.to, r.retries + (if IsRetry(e.from, e.to) then 1 else 0),
                                            r.failures + if e.to == Failed then 1 else 0)
  {
    assert (events + [e])[..|events|] == events;
  }

  lemma MoveKeepsRow(l: Ledger, p: Pending, t: TaskId)
    requires Inv(l) && p.PendingMove? && PendingOk(p) && MoveWrite(l, p).Some?
    ensures var l' := MoveWrite(l, p).value;
            if t in l'.tasks then t < l'.nextTask && RowFollowsLog(l', t) else Replay(l'.events, t) == Absent
  {
    ReplayAppend(l.events, Moved(p.task, p.seen, p.to), t);
    assert t in l.tasks ==> RowFollowsLog(l, t);
  }

  lemma DeliveryKeepsRow(l: Ledger, p: Pending, t: TaskId)
    requires Inv(l) && p.PendingDelivery?
    ensures var l' := DeliveryWrite(l, p);
            if t in l'.tasks then t < l'.nextTask && RowFollowsLog(l', t) else Replay(l'.events, t) == Absent
  {
    ReplayAppend(l.events, Created(l.nextTask), t);
    assert t in l.tasks ==> RowFollowsLog(l, t);
  }

  lemma ReturnKeepsRow(l: Ledger, p: Pending, t: TaskId)
    requires Inv(l) && p.PendingReturn?
    ensures var l' := ReturnWrite(l, p);
            if t in l'.tasks then t < l'.nextTask && RowFollowsLog(l', t) else Replay(l'.events, t) == Absent
  {
    ReplayAppend(l.events, ReturnedToParent(p.task, p.seen), t);
    assert t in l.tasks ==> RowFollowsLog(l, t);
  }

  lemma WriteKeepsInv(l: Ledger, op: OpId)
    requires Inv(l) && op in l.pending
    ensures Inv(Step(l, Write(op)))
  {
    var p, rest := l.pending[op], l.(pending := l.pending - {op});
    forall t | t in rest.tasks ensures RowFollowsLog(rest, t) { assert RowFollowsLog(l, t); }
    assert Inv(rest);
    forall t: TaskId
      ensures var l' := Step(l, Write(op));
              if t in l'.tasks then t < l'.nextTask && RowFollowsLog(l', t) else Replay(l'.events, t) == Absent
    {
      match p
      case PendingMove(_, _, _, _, _) => if MoveWrite(rest, p).Some? { MoveKeepsRow(rest, p, t); }
      case PendingDelivery(_, _) => DeliveryKeepsRow(rest, p, t);
      case PendingReturn(_, _) => ReturnKeepsRow(rest, p, t);
    }
  }

  lemma StepKeepsInv(l: Ledger, a: Action)
    requires Inv(l)
    ensures Inv(Step(l, a))
  {
    var l' := Step(l, a);
    if a.Write? && a.op in l.pending {
      WriteKeepsInv(l, a.op);
    } else {
      forall t | t in l'.tasks ensures RowFollowsLog(l', t) { assert RowFollowsLog(l, t); }
    }
  }

  lemma {:induction false} RunKeepsInv(l: Ledger, actions: seq<Action>)
    requires Inv(l)
    ensures Inv(Run(l, actions))
  {
    if actions != [] {
      RunKeepsInv(l, actions[..|actions| - 1]);
      StepKeepsInv(Run(l, actions[..|actions| - 1]), actions[|actions| - 1]);
    }
  }

  /** Under every interleaving of reads and writes, each task's transitions form
      one connected path of the table, the row is the fold of its events, a task
      is accepted exactly when done, and blockers are on record only while blocked. */
  lemma RowsAreFoldOfLog(l: Ledger, actions: seq<Action>)
    requires Initial(l)
    ensures Inv(Run(l, actions))
  {
    RunKeepsInv(l, actions);
  }
}
