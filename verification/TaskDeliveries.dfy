/** Idempotent delivery (cell_tasks.py): however often a task is sent under one key,
    and whatever runs in between. */
module TaskDeliveries {
  import opened Wrappers
  import opened TaskLedger

  /** The parts of the ledger that are stored. */
  predicate SameTables(a: Ledger, b: Ledger) {
    a.tasks == b.tasks && a.events == b.events && a.nextTask == b.nextTask
  }

  /** In every run, with anything else going on, a key names at most one task. */
  lemma {:induction false} KeyNamesOneTask(l: Ledger, actions: seq<Action>, key: string)
    requires Initial(l)
    ensures forall t, u | t in Keyed(Run(l, actions), key) && u in Keyed(Run(l, actions), key) :: t == u
  {
    if actions != [] {
      KeyNamesOneTask(l, actions[..|actions| - 1], key);
      var mid := Run(l, actions[..|actions| - 1]);
      var end := Run(l, actions);
      forall t | t in Keyed(end, key) ensures t in Keyed(mid, key) || (Keyed(mid, key) == {} && t == mid.nextTask) {}
    }
  }

  // ---- At most one delivery has an effect ----------------------------------

  predicate DeliveryOf(p: Pending, key: string) {
    p.PendingDelivery? && p.key == Some(key)
  }

  /** The same step, except that of the deliveries of `key` only the one read as
      operation `kept` is held; the others take their number and are dropped. */
  function StepOnly(l: Ledger, a: Action, key: string, kept: Option<OpId>): Ledger {
    var l' := Step(l, a);
    if a.ReadDelivery? && a.key == Some(key) && l' != l && kept != Some(l.nextOp)
    then l'.(pending := l.pending) else l'
  }

  function RunOnly(l: Ledger, actions: seq<Action>, key: string, kept: Option<OpId>): Ledger {
    if actions == [] then l
    else StepOnly(RunOnly(l, actions[..|actions| - 1], key, kept), actions[|actions| - 1], key, kept)
  }

  /** The two ledgers differ only in pending deliveries of `key` other than `kept`. */
  ghost predicate SameButDuplicates(a: Ledger, b: Ledger, key: string, kept: Option<OpId>) {
    && SameTables(a, b) && a.nextOp == b.nextOp
    && (forall o | o in b.pending :: o in a.pending && a.pending[o] == b.pending[o])
    && (forall o | o in a.pending && o !in b.pending :: DeliveryOf(a.pending[o], key) && kept != Some(o))
  }

  /** While the key is free no delivery of it has been written. */
  ghost predicate NotYetWritten(l: Ledger, actions: seq<Action>, key: string) {
    !Taken(Run(l, actions), Some(key)) && forall kept :: SameButDuplicates(Run(l, actions), RunOnly(l, actions, key, kept), key, kept)
  }

  /** A step keeps the two runs together unless it writes a dropped delivery while the
      key is still free. */
  lemma SameStep(a: Ledger, b: Ledger, key: string, kept: Option<OpId>, x: Action)
    requires SameButDuplicates(a, b, key, kept) && forall o | o in a.pending :: o < a.nextOp
    requires x.Write? && x.op in a.pending && DeliveryOf(a.pending[x.op], key) && kept != Some(x.op) ==> Taken(a, Some(key))
    ensures SameButDuplicates(Step(a, x), StepOnly(b, x, key, kept), key, kept)
  {
    assert forall k :: Keyed(a, k) == Keyed(b, k);
    match x
    case ReadMove(req) => assert MoveRefusal(a, req) == MoveRefusal(b, req);
    case ReadDelivery(k, order, valid) => assert Taken(a, k) == Taken(b, k);
    case ReadReturn(t) =>
    case Write(op) => if op in a.pending { SameWrite(a, b, key, kept, op); }
  }

  /** What a write does to the tables depends on the tables only. */
  lemma SameEffect(a: Ledger, b: Ledger, p: Pending)
    requires SameTables(a, b)
    ensures p.PendingMove? ==> MoveWrite(a, p).Some? == MoveWrite(b, p).Some?
    ensures p.PendingMove? && MoveWrite(a, p).Some? ==> Follows(a, b, MoveWrite(a, p).value, MoveWrite(b, p).value)
    ensures p.PendingDelivery? ==> Follows(a, b, DeliveryWrite(a, p), DeliveryWrite(b, p))
    ensures p.PendingReturn? ==> Follows(a, b, ReturnWrite(a, p), ReturnWrite(b, p))
  {
    assert p.PendingDelivery? && p.key.Some? ==> Keyed(a, p.key.value) == Keyed(b, p.key.value);
  }

  predicate Follows(a: Ledger, b: Ledger, a': Ledger, b': Ledger) {
    SameTables(a', b') && a'.pending == a.pending && b'.pending == b.pending && a'.nextOp == a.nextOp && b'.nextOp == b.nextOp
  }

  lemma SameWrite(a: Ledger, b: Ledger, key: string, kept: Option<OpId>, op: OpId)
    requires SameButDuplicates(a, b, key, kept) && op in a.pending
    requires DeliveryOf(a.pending[op], key) && kept != Some(op) ==> Taken(a, Some(key))
    ensures SameButDuplicates(Step(a, Write(op)), Step(b, Write(op)), key, kept)
  {
    var a', b' := a.(pending := a.pending - {op}), b.(pending := b.pending - {op});
    SameEffect(a', b', a.pending[op]);
    if op !in b.pending {
      assert Keyed(a', key) == Keyed(a, key);
    }
  }

  lemma TakenStays(l: Ledger, a: Action, key: string)
    requires Taken(l, Some(key)) && l.nextTask !in l.tasks
    ensures Taken(Step(l, a), Some(key))
  {
    var t :| t in Keyed(l, key);
    assert t in Keyed(Step(l, a), key);
  }

  /** However often a task is sent under one key, and whatever other operations run in
      between, the tables are those of the same run in which at most one of the
      deliveries was made. */
  lemma {:induction false} RacingDeliveriesAreOne(l: Ledger, actions: seq<Action>, key: string) returns (kept: Option<OpId>)
    requires Inv(l) && forall o | o in l.pending :: !DeliveryOf(l.pending[o], key)
    ensures SameButDuplicates(Run(l, actions), RunOnly(l, actions, key, kept), key, kept)
    ensures Taken(Run(l, actions), Some(key)) || NotYetWritten(l, actions, key)
  {
    kept := None;
    if actions != [] {
      var before, x := actions[..|actions| - 1], actions[|actions| - 1];
      kept := RacingDeliveriesAreOne(l, before, key);
      var mid := Run(l, before);
      RunKeepsInv(l, before);
      if Taken(mid, Some(key)) {
        SameStep(mid, RunOnly(l, before, key, kept), key, kept, x);
        TakenStays(mid, x, key);
      } else if x.Write? && x.op in mid.pending && DeliveryOf(mid.pending[x.op], key) {
        kept := Some(x.op);
        SameStep(mid, RunOnly(l, before, key, kept), key, kept, x);
        assert mid.nextTask in Keyed(Run(l, actions), key);
      } else {
        forall k ensures SameButDuplicates(Run(l, actions), RunOnly(l, actions, key, k), key, k) {
          SameStep(mid, RunOnly(l, before, key, k), key, k, x);
        }
        StaysFree(mid, x, key);
      }
    }
  }

  lemma StaysFree(l: Ledger, a: Action, key: string)
    requires !Taken(l, Some(key)) && !(a.Write? && a.op in l.pending && DeliveryOf(l.pending[a.op], key))
    ensures !Taken(Step(l, a), Some(key))
  {
    forall t | t in Keyed(Step(l, a), key) ensures t in Keyed(l, key) {}
  }
}
