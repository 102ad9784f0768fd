/** The task tables changed in place.  Each operation is its read followed by its
    write, the two halves that other operations can come between. */
module TaskStore {
  import opened Wrappers
  import opened TaskLedger

  datatype DeliveryError = Invalid | KeyRepeated

  class Store {
    var tasks: map<TaskId, Task>
    var events: seq<Event>
    var nextTask: TaskId

    function Rows(): (l: Ledger)
      reads this
    {
      Ledger(tasks, events, nextTask, map[], 0)
    }

    /** The checks of a transition, in order, against the row as it is now. */
    method ReadTransition(req: Request) returns (r: Result<Pending, Refusal>)
      ensures match MoveRefusal(Rows(), req)
              case Some(why) => r == Err(why)
              case None => r == Ok(PlannedMove(Rows(), req))
      ensures var found := req.task in tasks;
              var legal := found && (tasks[req.task].status, req.to) in {
                (Todo, Doing), (Todo, Failed), (Todo, Blocked), (Doing, Review), (Doing, Failed), (Doing, Blocked),
                (Review, Done), (Review, Failed), (Review, Doing), (Blocked, Todo), (Blocked, Doing), (Blocked, Failed),
                (Failed, Todo)};
              var spent := found && tasks[req.task].status == Failed && req.to == Todo
                           && tasks[req.task].retryCount >= tasks[req.task].retryLimit;
              var unexplained := found && req.to == Blocked && req.blockedBy == [] && !req.hasDetail;
              var unknown := found && req.to == Blocked && exists b | b in req.blockedBy :: b !in tasks;
              var unresolved := found && req.to == Done && exists e | e in req.evidence :: e !in req.valid;
              && (r.Ok? <==>
                    && legal && !spent && !unexplained && !unknown && !unresolved
                    && (req.to == Done ==> req.acceptanceMet && req.evidence != []))
              && (r == Err(NotFound) <==> !found || unknown)
              && (r == Err(RetriesExhausted) <==> spent)
              && (r == Err(BlockerMissing) <==> unexplained)
              && (r == Err(UnresolvedRef) <==> unresolved)
              && (r == Err(IllegalTransition) <==> found && !legal && !unexplained && !unknown && !unresolved)
              && (r == Err(NotAccepted) <==> legal && !unresolved && req.to == Done && !req.acceptanceMet)
              && (r == Err(NoEvidence) <==> legal && req.to == Done && req.acceptanceMet && req.evidence == [])
    {
      if req.task !in tasks {
        return Err(NotFound);
      }
      var row := tasks[req.task];
      if IsRetry(row.status, req.to) && row.retryCount >= row.retryLimit {
        return Err(RetriesExhausted);
      }
      if req.to == Blocked {
        if req.blockedBy == [] && !req.hasDetail {
          return Err(BlockerMissing);
        }
        for k := 0 to |req.blockedBy|
          invariant forall b | b in req.blockedBy[..k] :: b in tasks
        {
          if req.blockedBy[k] !in tasks {
            assert req.blockedBy[k] in req.blockedBy;
            return Err(NotFound);
          }
          assert req.blockedBy[..k + 1] == req.blockedBy[..k] + [req.blockedBy[k]];
        }
        assert req.blockedBy[..|req.blockedBy|] == req.blockedBy;
      }
      if req.to == Done {
        for k := 0 to |req.evidence|
          invariant forall e | e in req.evidence[..k] :: e in req.valid
        {
          if req.evidence[k] !in req.valid {
            assert req.evidence[k] in req.evidence;
            return Err(UnresolvedRef);
          }
          assert req.evidence[..k + 1] == req.evidence[..k] + [req.evidence[k]];
        }
        assert req.evidence[..|req.evidence|] == req.evidence;
      }
      if !Allowed(row.status, req.to) {
        return Err(IllegalTransition);
      }
      if req.to == Done && !req.acceptanceMet {
        return Err(NotAccepted);
      }
      if req.to == Done && req.evidence == [] {
        return Err(NoEvidence);
      }
      return Ok(PendingMove(req.task, row.status, req.to, req.blockedBy, req.evidence));
    }

    /** UPDATE ... WHERE id = ? AND status = ?: no row changes when the status moved on. */
    method WriteTransition(p: Pending) returns (refusal: Option<Refusal>)
      requires p.PendingMove?
      modifies this`tasks, this`events
      ensures match MoveWrite(old(Rows()), p)
              case Some(l) => refusal == None && Rows() == l
              case None => refusal == Some(ChangedConcurrently) && Rows() == old(Rows())
      ensures refusal.None? <==> p.task in old(tasks) && old(tasks)[p.task].status == p.seen
    {
      if p.task !in tasks || tasks[p.task].status != p.seen {
        return Some(ChangedConcurrently);
      }
      var row := tasks[p.task].(status := p.to);
      if IsRetry(p.seen, p.to) {
        row := row.(retryCount := row.retryCount + 1);
      }
      if p.to == Blocked {
        row := row.(blockedBy := p.blockedBy);
      } else if p.seen == Blocked {
        row := row.(blockedBy := []);
      }
      if p.to == Done {
        row := row.(acceptanceMet := true, evidence := p.evidence);
      }
      tasks := tasks[p.task := row];
      events := events + [Moved(p.task, p.seen, p.to)];
      return None;
    }

    /** With nothing in between, the compare-and-set cannot fail. */
    method TransitionTask(req: Request) returns (refusal: Option<Refusal>)
      modifies this`tasks, this`events
      ensures refusal == MoveRefusal(old(Rows()), req)
      ensures refusal.None? ==> Some(Rows()) == MoveWrite(old(Rows()), PlannedMove(old(Rows()), req))
      ensures refusal.Some? ==> Rows() == old(Rows())
      ensures var found := req.task in old(tasks);
              var legal := found && (old(tasks)[req.task].status, req.to) in {
                (Todo, Doing), (Todo, Failed), (Todo, Blocked), (Doing, Review), (Doing, Failed), (Doing, Blocked),
                (Review, Done), (Review, Failed), (Review, Doing), (Blocked, Todo), (Blocked, Doing), (Blocked, Failed),
                (Failed, Todo)};
              var spent := found && old(tasks)[req.task].status == Failed && req.to == Todo
                           && old(tasks)[req.task].retryCount >= old(tasks)[req.task].retryLimit;
              var unexplained := found && req.to == Blocked && req.blockedBy == [] && !req.hasDetail;
              var unknown := found && req.to == Blocked && exists b | b in req.blockedBy :: b !in old(tasks);
              var unresolved := found && req.to == Done && exists e | e in req.evidence :: e !in req.valid;
              && (refusal.None? <==>
                    && legal && !spent && !unexplained && !unknown && !unresolved
                    && (req.to == Done ==> req.acceptanceMet && req.evidence != []))
              && (refusal == Some(NotFound) <==> !found || unknown)
              && (refusal == Some(RetriesExhausted) <==> spent)
              && (refusal == Some(BlockerMissing) <==> unexplained)
              && (refusal == Some(UnresolvedRef) <==> unresolved)
              && (refusal == Some(IllegalTransition) <==> found && !legal && !unexplained && !unknown && !unresolved)
              && (refusal == Some(NotAccepted) <==> legal && !unresolved && req.to == Done && !req.acceptanceMet)
              && (refusal == Some(NoEvidence) <==> legal && req.to == Done && req.acceptanceMet && req.evidence == [])
      ensures refusal.None? ==>
                && req.task in old(tasks) && nextTask == old(nextTask)
                && var was := old(tasks)[req.task];
                && tasks == old(tasks)[req.task := was.(
                     status := req.to,
                     retryCount := if was.status == Failed && req.to == Todo then was.retryCount + 1 else was.retryCount,
                     blockedBy := if req.to == Blocked then req.blockedBy else if was.status == Blocked then [] else was.blockedBy,
                     acceptanceMet := req.to == Done || was.acceptanceMet,
                     evidence := if req.to == Done then req.evidence else was.evidence)]
                && events == old(events) + [Moved(req.task, was.status, req.to)]
    {
      var r := ReadTransition(req);
      if r.Err? {
        return Some(r.error);
      }
      refusal := WriteTransition(r.value);
    }

    /** Inserting under a key that is taken hits the unique index: the row already
        there comes back, or, for an empty key, the error. */
    method WriteDelegation(p: Pending) returns (t: Result<TaskId, DeliveryError>)
      requires p.PendingDelivery?
      modifies this`tasks, this`events, this`nextTask
      ensures Rows() == DeliveryWrite(old(Rows()), p)
      ensures !Taken(old(Rows()), p.key) ==> t == Ok(old(nextTask))
      ensures Known(old(Rows()), p.key) ==> t.Ok? && t.value in Keyed(old(Rows()), p.key.value)
      ensures t == Err(KeyRepeated) <==> p.key == Some("") && Taken(old(Rows()), p.key)
      ensures t.Err? ==> t == Err(KeyRepeated)
      ensures (forall u | u in old(tasks) :: old(tasks)[u].key != p.key) || p.key.None? ==>
                tasks == old(tasks)[old(nextTask) := Task(p.order, p.key, Todo, 0, 3, [], false, [], false)]
    {
      if Taken(Rows(), p.key) {
        if p.key == Some("") {
          return Err(KeyRepeated);
        }
        var existing :| existing in Keyed(Rows(), p.key.value);
        return Ok(existing);
      }
      t := Ok(nextTask);
      tasks := tasks[nextTask := NewTask(p.order, p.key)];
      events := events + [Created(nextTask)];
      nextTask := nextTask + 1;
    }

    /** `valid`: title, acceptance, goal, cells, intake and context refs pass. */
    method DelegateTask(key: Option<string>, order: Delegation, valid: bool) returns (t: Result<TaskId, DeliveryError>)
      modifies this`tasks, this`events, this`nextTask
      ensures Known(old(Rows()), key) ==> Rows() == old(Rows()) && t.Ok? && t.value in Keyed(old(Rows()), key.value)
      ensures t == Err(Invalid) <==> !Known(old(Rows()), key) && !valid
      ensures t == Err(KeyRepeated) <==> valid && key == Some("") && Taken(old(Rows()), key)
      ensures t.Err? ==> Rows() == old(Rows())
      ensures !Taken(old(Rows()), key) && valid ==>
                t == Ok(old(nextTask)) && Rows() == DeliveryWrite(old(Rows()), PendingDelivery(key, order))
      ensures valid && (key.None? || forall u | u in old(tasks) :: old(tasks)[u].key != key) ==>
                && t == Ok(old(nextTask)) && nextTask == old(nextTask) + 1 && events == old(events) + [Created(old(nextTask))]
                && tasks == old(tasks)[old(nextTask) := Task(order, key, Todo, 0, 3, [], false, [], false)]
      ensures key.Some? && key.value != "" && (exists u :: u in old(tasks) && old(tasks)[u].key == key) ==>
                t.Ok? && t.value in old(tasks) && old(tasks)[t.value].key == key && tasks == old(tasks) && events == old(events)
    {
      assert key.Some? ==> forall u | u in tasks && tasks[u].key == key :: u in Keyed(Rows(), key.value);
      if key.Some? && key.value != "" && Taken(Rows(), key) {
        var existing :| existing in Keyed(Rows(), key.value);
        return Ok(existing);
      }
      if !valid {
        return Err(Invalid);
      }
      t := WriteDelegation(PendingDelivery(key, order));
    }

    method ReturnToParent(t: TaskId) returns (refusal: Option<Refusal>)
      modifies this`tasks, this`events
      ensures refusal == if t !in old(tasks) then Some(NotFound)
                         else if old(tasks)[t].status == Failed || old(tasks)[t].status == Blocked then None
                         else Some(NotReturnable)
      ensures Rows() == if refusal.None? then ReturnWrite(old(Rows()), PendingReturn(t, old(tasks)[t].status)) else old(Rows())
      ensures refusal.None? ==>
                && tasks == old(tasks)[t := old(tasks)[t].(returned := true)]
                && events == old(events) + [ReturnedToParent(t, old(tasks)[t].status)]
    {
      if t !in tasks {
        return Some(NotFound);
      }
      var seen := tasks[t].status;
      if seen != Failed && seen != Blocked {
        return Some(NotReturnable);
      }
      tasks := tasks[t := tasks[t].(returned := true)];
      events := events + [ReturnedToParent(t, seen)];
      return None;
    }
  }
}
