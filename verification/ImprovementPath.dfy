/** The way of an improvement through its statuses (cell_improvement.py), read off the
    event log of any run. */
module ImprovementPath {
  import opened Wrappers
  import opened ImprovementLedger
  import opened ImprovementRuns

  /** The status transitions of one improvement, in the order of the log. */
  function Path(events: seq<Event>, id: ImprovementId): seq<(Status, Status)> {
    if events == [] then []
    else
      var before, e := Path(events[..|events| - 1], id), events[|events| - 1];
      if e.StatusTransition? && e.id == id then before + [(e.from, e.to)] else before
  }

  const EDGES := {
    (Observed, Proposed), (Proposed, CanaryReady), (Proposed, Rejected),
    (CanaryReady, CanaryRunning), (CanaryReady, Rejected), (CanaryReady, Blocked),
    (CanaryRunning, Adopted), (CanaryRunning, Rejected), (CanaryRunning, Blocked),
    (Blocked, CanaryReady), (Blocked, Rejected)}

  /** A connected walk over the edges that starts in `Observed`. */
  ghost predicate Connected(path: seq<(Status, Status)>) {
    && (forall k | 0 <= k < |path| :: path[k] in EDGES)
    && (path != [] ==> path[0].0 == Observed)
    && (forall j, k | 0 <= j < k < |path| && k == j + 1 :: path[j].1 == path[k].0)
  }

  function End(path: seq<(Status, Status)>): Status {
    if path == [] then Observed else path[|path| - 1].1
  }

  // ---- One step --------------------------------------------------------------

  lemma PathAppend(events: seq<Event>, e: Event, id: ImprovementId)
    ensures Path(events + [e], id)
         == Path(events, id) + if e.StatusTransition? && e.id == id then [(e.from, e.to)] else []
  {
    assert (events + [e])[..|events|] == events;
  }

  lemma PathVoided(l: Ledger, req: Request, id: ImprovementId)
    requires req.id in l.improvements
    ensures Path(Voided(l, req).events, id) == Path(l.events, id)
  {
    PathAppend(l.events, ApprovalsInvalidated(req.id), id);
  }

  lemma PathSuspended(l: Ledger, c: CellRow, id: ImprovementId)
    ensures Path(MaybeSuspend(l, c).events, id) == Path(l.events, id)
  {
    PathAppend(l.events, SuspendedEvent(OpenActive(l, c)), id);
  }

  lemma PathWritten(l: Ledger, row: Improvement, req: Request, detail: Detail, id: ImprovementId)
    requires req.id in l.improvements
    ensures Path(Written(l, row, req, detail).events, id)
         == Path(l.events, id) + if req.id == id then [(row.status, req.to)] else []
  {
    PathAppend(l.events, StatusTransition(req.id, row.status, req.to, detail), id);
  }

  /** A call that goes through appends one transition to the path of its own row, from
      the status it found; no other call changes any path. */
  lemma PathMove(l: Ledger, req: Request, id: ImprovementId)
    ensures Transition(l, req).1.None? ==> req.id in l.improvements
    ensures Path(Transition(l, req).0.events, id)
         == Path(l.events, id)
            + if Transition(l, req).1.None? && req.id == id then [(l.improvements[id].status, req.to)] else []
  {
    match EarlyRefusal(l, req)
    case Some(_) =>
    case None =>
      var row, mid := l.improvements[req.id], Voided(l, req);
      PathVoided(l, req, id);
      match Gate(l, row, req)
      case Err(_) =>
      case Ok(detail) =>
        PathWritten(mid, row, req, detail, id);
        PathSuspended(Written(mid, row, req, detail), row.cell, id);
  }

  lemma PathOther(l: Ledger, a: Action, id: ImprovementId)
    requires !a.Move?
    ensures Path(Step(l, a).events, id) == Path(l.events, id)
  {
    var events := Step(l, a).events;
    if events != l.events { PathAppend(l.events, events[|l.events|], id); }
  }

  // ---- Every run -------------------------------------------------------------

  /** The path of a row leads to its status; a row that is not there has none. */
  ghost predicate Follows(l: Ledger, id: ImprovementId) {
    var path := Path(l.events, id);
    Connected(path) && if id in l.improvements then End(path) == l.improvements[id].status else path == []
  }

  lemma ConnectedAppend(path: seq<(Status, Status)>, edge: (Status, Status))
    requires Connected(path) && End(path) == edge.0 && edge in EDGES
    ensures Connected(path + [edge]) && End(path + [edge]) == edge.1
  {
    var longer := path + [edge];
    forall j, k | 0 <= j < k < |longer| && k == j + 1 ensures longer[j].1 == longer[k].0 {
      if k < |path| { assert path[j].1 == path[k].0; }
    }
  }

  lemma MoveFollows(l: Ledger, req: Request, id: ImprovementId)
    requires Follows(l, id)
    ensures Follows(Transition(l, req).0, id)
  {
    PathMove(l, req, id);
    TransitionFrame(l, req);
    if id in l.improvements {
      TransitionRow(l, req, id);
      MovedStatus(l, req, id);
      if Transition(l, req).1.None? && req.id == id {
        ConnectedAppend(Path(l.events, id), (l.improvements[id].status, req.to));
      }
    }
  }

  lemma StepFollows(l: Ledger, a: Action, id: ImprovementId)
    requires Wellformed(l) && Follows(l, id)
    ensures Follows(Step(l, a), id)
  {
    if a.Move? {
      MoveFollows(l, a.req, id);
    } else {
      PathOther(l, a, id);
      if id in l.improvements { OtherRow(l, a, id); } else if id in Step(l, a).improvements { NewRowObserved(l, a, id); }
    }
  }

  /** A row's status is the target exactly of its own call that goes through. */
  lemma MovedStatus(l: Ledger, req: Request, id: ImprovementId)
    requires id in l.improvements
    ensures MovedRow(l, req, id).status == if req.id == id && Transition(l, req).1.None? then req.to else l.improvements[id].status
    ensures req.id == id && Transition(l, req).1.None? ==> (l.improvements[id].status, req.to) in EDGES
    ensures req.id == id && Transition(l, req).1.None? && req.to == Proposed ==> Complete(l.improvements[id].narrative)
    ensures MovedRow(l, req, id).narrative == l.improvements[id].narrative
  {
  }

  lemma NewRowObserved(l: Ledger, a: Action, id: ImprovementId)
    requires !a.Move? && id !in l.improvements && id in Step(l, a).improvements
    ensures Step(l, a).improvements[id].status == Observed
  {
  }

  /** In every run the transitions of an improvement are one connected walk from
      `Observed` to its present status. */
  lemma {:induction false} RunFollows(l: Ledger, actions: seq<Action>, id: ImprovementId)
    requires Initial(l)
    ensures Follows(Run(l, actions), id)
  {
    if actions != [] {
      RunFollows(l, actions[..|actions| - 1], id);
      RunKeepsWellformed(l, actions[..|actions| - 1]);
      StepFollows(Run(l, actions[..|actions| - 1]), actions[|actions| - 1], id);
    }
  }

  // ---- The road to adoption --------------------------------------------------

  predicate HasText(s: string) {
    exists i | 0 <= i < |s| :: s[i] != ' ' && s[i] != '\t' && s[i] != '\n' && s[i] != '\r'
  }

  /** Action `k` asked to propose an observed improvement whose narrative says something
      in all four parts. */
  ghost predicate ProposedAt(l: Ledger, actions: seq<Action>, k: nat, id: ImprovementId) {
    && k < |actions| && actions[k].Move? && actions[k].req.id == id && actions[k].req.to == Proposed
    && id in Run(l, actions[..k]).improvements
    && var row := Run(l, actions[..k]).improvements[id];
    && row.status == Observed && HasText(row.narrative.hypothesis) && HasText(row.narrative.expectedEffect)
    && HasText(row.narrative.risk) && HasText(row.narrative.rollbackPlan)
  }

  lemma {:induction false} ProposedOnce(l: Ledger, actions: seq<Action>, id: ImprovementId) returns (k: nat)
    requires Initial(l) && id in Run(l, actions).improvements && Run(l, actions).improvements[id].status != Observed
    ensures ProposedAt(l, actions, k, id)
  {
    var before, a := actions[..|actions| - 1], actions[|actions| - 1];
    var mid := Run(l, before);
    RunKeepsWellformed(l, before);
    if id in mid.improvements && mid.improvements[id].status != Observed {
      k := ProposedOnce(l, before, id);
      assert before[..k] == actions[..k];
    } else {
      k := |before|;
      assert actions[..k] == before;
      LeavesObserved(mid, a, id);
    }
  }

  lemma LeavesObserved(l: Ledger, a: Action, id: ImprovementId)
    requires Wellformed(l) && (id in l.improvements ==> l.improvements[id].status == Observed)
    requires id in Step(l, a).improvements && Step(l, a).improvements[id].status != Observed
    ensures a.Move? && a.req.id == id && a.req.to == Proposed && id in l.improvements && Complete(l.improvements[id].narrative)
  {
    if a.Move? {
      TransitionFrame(l, a.req);
      TransitionRow(l, a.req, id);
      MovedStatus(l, a.req, id);
    } else if id in l.improvements {
      OtherRow(l, a, id);
    } else {
      NewRowObserved(l, a, id);
    }
  }

  /** Whatever happens in a run: an adopted improvement was proposed with a complete
      narrative, then went from canary-ready into the canary and from the canary into
      adoption, and neither it nor a rejected one has moved since. */
  lemma AdoptionPath(l: Ledger, actions: seq<Action>, id: ImprovementId) returns (k: nat)
    requires Initial(l) && id in Run(l, actions).improvements
    ensures var path, status := Path(Run(l, actions).events, id), Run(l, actions).improvements[id].status;
            && Connected(path) && End(path) == status
            && (forall j | 0 <= j < |path| - 1 :: path[j].1 != Adopted && path[j].1 != Rejected)
            && (status == Adopted ==>
                  && |path| >= 4 && path[0] == (Observed, Proposed)
                  && path[|path| - 2] == (CanaryReady, CanaryRunning) && path[|path| - 1] == (CanaryRunning, Adopted))
            && (status != Observed ==> ProposedAt(l, actions, k, id))
  {
    k := 0;
    RunFollows(l, actions, id);
    if Run(l, actions).improvements[id].status != Observed { k := ProposedOnce(l, actions, id); }
    var path := Path(Run(l, actions).events, id);
    TerminalIsLast(path);
    if End(path) == Adopted { RoadToAdoption(path); }
  }

  lemma TerminalIsLast(path: seq<(Status, Status)>)
    requires Connected(path)
    ensures forall j | 0 <= j < |path| - 1 :: path[j].1 != Adopted && path[j].1 != Rejected
  {
    forall j | 0 <= j < |path| - 1 ensures path[j].1 != Adopted && path[j].1 != Rejected {
      assert path[j].1 == path[j + 1].0 && path[j + 1] in EDGES;
    }
  }

  lemma RoadToAdoption(path: seq<(Status, Status)>)
    requires Connected(path) && End(path) == Adopted
    ensures |path| >= 4 && path[0] == (Observed, Proposed)
    ensures path[|path| - 2] == (CanaryReady, CanaryRunning) && path[|path| - 1] == (CanaryRunning, Adopted)
  {
    var n := |path|;
    assert path[n - 1] in EDGES && path[n - 1].0 == CanaryRunning && n > 1;
    assert path[n - 2].1 == path[n - 1].0 && path[n - 2] in EDGES && n > 2;
    assert path[n - 3].1 == path[n - 2].0 && path[n - 3] in EDGES && n > 3;
    assert path[0] in EDGES;
  }
}
