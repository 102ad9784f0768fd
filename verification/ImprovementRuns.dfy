/** What the improvement ledger guarantees over whole runs. */
module ImprovementRuns {
  import opened Wrappers
  import opened ImprovementLedger

  // ---- Rows that are never deleted -----------------------------------------

  ghost predicate Wellformed(l: Ledger) {
    && (forall i | i in l.improvements :: i < l.nextId && l.improvements[i].cell in l.pins)
    && (forall d | d in l.drafts :: d < l.nextDraft && l.drafts[d].cell in l.pins)
    && (forall i | i in l.improvements && NeedsEvidence(l.improvements[i].status) :: l.improvements[i].evidence != [])
  }

  predicate NeedsEvidence(s: Status) {
    s == CanaryReady || s == CanaryRunning || s == Blocked || s == Adopted
  }

  /** What a transition call leaves of row `i`. */
  function MovedRow(l: Ledger, req: Request, i: ImprovementId): Improvement
    requires i in l.improvements
  {
    var row := l.improvements[i];
    if i != req.id || EarlyRefusal(l, req).Some? then row
    else
      var kept := if Voids(row, req) then row.(parentApproved := None, humanApproved := None) else row;
      if Gate(l, row, req).Err? then kept
      else kept.(status := req.to, evidence := AddRefs(row.evidence, req.refs), version := NewVersion(row, req))
  }

  /** Suspending changes the suspended flags of open rows of the cell and nothing else. */
  lemma SuspendFrame(l: Ledger, c: CellRow)
    ensures var l' := MaybeSuspend(l, c);
            && l'.improvements.Keys == l.improvements.Keys
            && l' == l.(improvements := l'.improvements, events := l'.events)
            && (forall i | i in l.improvements :: l'.improvements[i] == l.improvements[i].(suspended := l'.improvements[i].suspended))
            && (forall i | i in l.improvements && l.improvements[i].suspended :: l'.improvements[i].suspended)
  {
  }

  lemma TransitionRow(l: Ledger, req: Request, i: ImprovementId)
    requires i in l.improvements
    ensures i in Transition(l, req).0.improvements
    ensures Transition(l, req).0.improvements[i]
         == MovedRow(l, req, i).(suspended := Transition(l, req).0.improvements[i].suspended)
    ensures l.improvements[i].suspended ==> Transition(l, req).0.improvements[i] == l.improvements[i]
  {
    if EarlyRefusal(l, req).None? {
      var row := l.improvements[req.id];
      VoidedRow(l, req, i);
      if Gate(l, row, req).Ok? {
        var mid, detail := Voided(l, req), Gate(l, row, req).value;
        WrittenRow(mid, row, req, detail, i);
        SuspendFrame(Written(mid, row, req, detail), row.cell);
      }
    }
  }

  lemma VoidedRow(l: Ledger, req: Request, i: ImprovementId)
    requires req.id in l.improvements && i in l.improvements
    ensures i in Voided(l, req).improvements
    ensures Voided(l, req).improvements[i] == if i == req.id && Voids(l.improvements[i], req)
                                              then l.improvements[i].(parentApproved := None, humanApproved := None)
                                              else l.improvements[i]
  {
  }

  lemma WrittenRow(l: Ledger, row: Improvement, req: Request, detail: Detail, i: ImprovementId)
    requires req.id in l.improvements && i in l.improvements
    ensures i in Written(l, row, req, detail).improvements
    ensures Written(l, row, req, detail).improvements[i] ==
            if i == req.id
            then l.improvements[i].(status := req.to, evidence := AddRefs(row.evidence, req.refs), version := NewVersion(row, req))
            else l.improvements[i]
  {
  }

  lemma VoidedFrame(l: Ledger, req: Request)
    requires req.id in l.improvements
    ensures var l' := Voided(l, req);
            l'.improvements.Keys == l.improvements.Keys && l' == l.(improvements := l'.improvements, events := l'.events)
  {
  }

  lemma WrittenFrame(l: Ledger, row: Improvement, req: Request, detail: Detail)
    requires req.id in l.improvements
    ensures var l' := Written(l, row, req, detail);
            && l'.improvements.Keys == l.improvements.Keys
            && l' == l.(improvements := l'.improvements, pins := l'.pins, events := l'.events)
  {
  }

  lemma TransitionFrame(l: Ledger, req: Request)
    ensures var l' := Transition(l, req).0;
            && l'.improvements.Keys == l.improvements.Keys
            && l' == l.(improvements := l'.improvements, pins := l'.pins, events := l'.events)
  {
    match EarlyRefusal(l, req)
    case Some(why) =>
    case None =>
      var row := l.improvements[req.id];
      VoidedFrame(l, req);
      match Gate(l, row, req)
      case Err(why) =>
      case Ok(detail) =>
        WrittenFrame(Voided(l, req), row, req, detail);
        SuspendFrame(Written(Voided(l, req), row, req, detail), row.cell);
  }

  lemma TransitionPins(l: Ledger, req: Request)
    requires req.id in l.improvements ==> l.improvements[req.id].cell in l.pins
    ensures Transition(l, req).0.pins.Keys == l.pins.Keys
  {
    if EarlyRefusal(l, req).None? && Gate(l, l.improvements[req.id], req).Ok? {
      var row := l.improvements[req.id];
      SuspendFrame(Written(Voided(l, req), row, req, Gate(l, row, req).value), row.cell);
    }
  }

  /** What every step keeps of a row it finds. */
  lemma StepRow(l: Ledger, a: Action, i: ImprovementId)
    requires Wellformed(l) && i in l.improvements
    ensures i in Step(l, a).improvements
    ensures SameRow(l.improvements[i], Step(l, a).improvements[i])
  {
    if a.Move? {
      MoveRow(l, a.req, i);
    } else {
      OtherRow(l, a, i);
    }
  }

  /** A row is what it is for: its cell, card and target; and it has evidence where its
      status needs some. */
  predicate SameRow(before: Improvement, after: Improvement) {
    && after.cell == before.cell && after.card == before.card && after.target == before.target
    && (NeedsEvidence(after.status) ==> after.evidence != [])
  }

  lemma MoveRow(l: Ledger, req: Request, i: ImprovementId)
    requires Wellformed(l) && i in l.improvements
    ensures i in Transition(l, req).0.improvements && SameRow(l.improvements[i], Transition(l, req).0.improvements[i])
  {
    TransitionRow(l, req, i);
    RefsOnlyGrow(l.improvements[i].evidence, req.refs);
  }

  /** Any other step changes the approvals of a row and its suspension, and nothing else. */
  lemma OtherRow(l: Ledger, a: Action, i: ImprovementId)
    requires Wellformed(l) && i in l.improvements && !a.Move?
    ensures i in Step(l, a).improvements
    ensures var row, row' := l.improvements[i], Step(l, a).improvements[i];
            row' == row.(parentApproved := row'.parentApproved, humanApproved := row'.humanApproved, suspended := row'.suspended)
  {
    match a
    case ApproveAsParent(_, _, _) => ApprovingRow(l, a, i);
    case ApproveAsHuman(_, _) => ApprovingRow(l, a, i);
    case SuspendCell(_) => SuspendingRow(l, a, i);
    case ResumeCell(_) => SuspendingRow(l, a, i);
    case _ => UntouchedRow(l, a, i);
  }

  predicate Approving(a: Action) {
    a.ApproveAsParent? || a.ApproveAsHuman?
  }

  predicate Suspending(a: Action) {
    a.SuspendCell? || a.ResumeCell?
  }

  lemma ApprovingRow(l: Ledger, a: Action, i: ImprovementId)
    requires i in l.improvements && Approving(a)
    ensures i in Step(l, a).improvements
    ensures var row, row' := l.improvements[i], Step(l, a).improvements[i];
            row' == row.(parentApproved := row'.parentApproved, humanApproved := row'.humanApproved)
  {
  }

  lemma SuspendingRow(l: Ledger, a: Action, i: ImprovementId)
    requires i in l.improvements && Suspending(a)
    ensures i in Step(l, a).improvements
    ensures Step(l, a).improvements[i] == l.improvements[i].(suspended := Step(l, a).improvements[i].suspended)
  {
  }

  lemma UntouchedRow(l: Ledger, a: Action, i: ImprovementId)
    requires Wellformed(l) && i in l.improvements && !a.Move? && !Approving(a) && !Suspending(a)
    ensures i in Step(l, a).improvements && Step(l, a).improvements[i] == l.improvements[i]
  {
  }

  /** Ids only grow, drafts keep their cell, new rows have one, and no pin appears or goes. */
  ghost predicate Framed(l: Ledger, l': Ledger) {
    && l'.pins.Keys == l.pins.Keys && l'.nextId >= l.nextId
    && (forall d | d in l'.drafts :: d < l'.nextDraft && l'.drafts[d].cell in l.pins)
    && (forall i | i in l'.improvements && i !in l.improvements ::
          i < l'.nextId && l'.improvements[i].cell in l.pins && !NeedsEvidence(l'.improvements[i].status))
  }

  lemma StepFrame(l: Ledger, a: Action)
    requires Wellformed(l)
    ensures Framed(l, Step(l, a))
  {
    if a.Move? {
      TransitionFrame(l, a.req);
      TransitionPins(l, a.req);
    } else {
      OtherFrame(l, a);
    }
  }

  lemma OtherFrame(l: Ledger, a: Action)
    requires Wellformed(l) && !a.Move?
    ensures Framed(l, Step(l, a))
  {
    if Approving(a) || Suspending(a) { RowsStay(l, a); }
  }

  lemma RowsStay(l: Ledger, a: Action)
    requires Approving(a) || Suspending(a)
    ensures var l' := Step(l, a);
            l'.improvements.Keys == l.improvements.Keys && l' == l.(improvements := l'.improvements, events := l'.events)
  {
  }

  lemma StepKeepsWellformed(l: Ledger, a: Action)
    requires Wellformed(l)
    ensures Wellformed(Step(l, a)) && Step(l, a).pins.Keys == l.pins.Keys
  {
    var l' := Step(l, a);
    StepFrame(l, a);
    forall i | i in l'.improvements
      ensures i < l'.nextId && l'.improvements[i].cell in l'.pins
      ensures NeedsEvidence(l'.improvements[i].status) ==> l'.improvements[i].evidence != []
    {
      if i in l.improvements { StepRow(l, a, i); }
    }
  }

  lemma RefsOnlyGrow(evidence: seq<Ref>, refs: seq<Ref>)
    ensures evidence <= AddRefs(evidence, refs)
    decreases refs
  {
    if refs != [] {
      RefsOnlyGrow(if refs[0] in evidence then evidence else evidence + [refs[0]], refs[1..]);
    }
  }

  lemma {:induction false} RunKeepsWellformed(l: Ledger, actions: seq<Action>)
    requires Wellformed(l) || Initial(l)
    ensures Wellformed(Run(l, actions)) && Run(l, actions).pins.Keys == l.pins.Keys
  {
    if actions != [] {
      RunKeepsWellformed(l, actions[..|actions| - 1]);
      StepKeepsWellformed(Run(l, actions[..|actions| - 1]), actions[|actions| - 1]);
    }
  }

  // ---- Approvals cover what is adopted -------------------------------------

  datatype Approver = Parent | Human

  function Approval(row: Improvement, who: Approver): Option<string> {
    if who == Parent then row.parentApproved else row.humanApproved
  }

  predicate SameProposal(a: Improvement, b: Improvement) {
    a.version == b.version && a.evidence == b.evidence
  }

  predicate Approves(l: Ledger, a: Action, id: ImprovementId, who: Approver) {
    match who
    case Parent => a.ApproveAsParent? && a.id == id && ApprovalRefusal(l, id, a.actor, a.inScope).None?
    case Human => a.ApproveAsHuman? && a.id == id && ApprovalRefusal(l, id, a.actor, true).None?
  }

  /** An approval on record after a step was given by the step, or was on record
      before; either way the proposal is the one it was before the step. */
  lemma ApprovalStep(l: Ledger, a: Action, id: ImprovementId, who: Approver)
    requires Wellformed(l) && id in Step(l, a).improvements
    requires Approval(Step(l, a).improvements[id], who).Some?
    ensures id in l.improvements && SameProposal(l.improvements[id], Step(l, a).improvements[id])
    ensures Approves(l, a, id, who) || Approval(l.improvements[id], who).Some?
  {
    if a.Move? {
      ApprovalMove(l, a.req, id, who);
    } else {
      NoNewApproved(l, a, id);
      OtherRow(l, a, id);
      ApprovalGiven(l, a, id, who);
    }
  }

  /** A new row has no approval. */
  lemma NoNewApproved(l: Ledger, a: Action, id: ImprovementId)
    requires Wellformed(l) && !a.Move? && id in Step(l, a).improvements
    requires Step(l, a).improvements[id].parentApproved.Some? || Step(l, a).improvements[id].humanApproved.Some?
    ensures id in l.improvements
  {
  }

  lemma ApprovalGiven(l: Ledger, a: Action, id: ImprovementId, who: Approver)
    requires Wellformed(l) && id in l.improvements && !a.Move? && id in Step(l, a).improvements
    requires Approval(Step(l, a).improvements[id], who).Some?
    ensures Approves(l, a, id, who) || Approval(l.improvements[id], who).Some?
  {
    if Suspending(a) { SuspendingRow(l, a, id); } else if !Approving(a) { UntouchedRow(l, a, id); }
  }

  /** A transition call gives no approval, and takes both away with any change. */
  lemma ApprovalMove(l: Ledger, req: Request, id: ImprovementId, who: Approver)
    requires id in Transition(l, req).0.improvements
    requires Approval(Transition(l, req).0.improvements[id], who).Some?
    ensures id in l.improvements && SameProposal(l.improvements[id], Transition(l, req).0.improvements[id])
    ensures Approval(l.improvements[id], who).Some?
  {
    TransitionFrame(l, req);
    TransitionRow(l, req, id);
  }

  /** The proposal of `id` has been the same since step `i`. */
  ghost predicate SameSince(l: Ledger, actions: seq<Action>, id: ImprovementId, i: nat, row: Improvement) {
    forall k | i <= k <= |actions| ::
      id in Run(l, actions[..k]).improvements && SameProposal(Run(l, actions[..k]).improvements[id], row)
  }

  /** Step `i` of the run approved `id`, and the proposal never changed since. */
  ghost predicate CoversSince(l: Ledger, actions: seq<Action>, id: ImprovementId, who: Approver, i: nat, row: Improvement) {
    i < |actions| && Approves(Run(l, actions[..i]), actions[i], id, who) && SameSince(l, actions, id, i, row)
  }

  lemma ExtendCover(l: Ledger, before: seq<Action>, a: Action, id: ImprovementId, who: Approver, i: nat,
                    row: Improvement, row': Improvement)
    requires CoversSince(l, before, id, who, i, row) && SameProposal(row, row')
    requires id in Run(l, before + [a]).improvements && Run(l, before + [a]).improvements[id] == row'
    ensures CoversSince(l, before + [a], id, who, i, row')
  {
    var actions := before + [a];
    assert actions[..i] == before[..i];
    forall k | i <= k <= |actions|
      ensures id in Run(l, actions[..k]).improvements && SameProposal(Run(l, actions[..k]).improvements[id], row')
    {
      if k <= |before| { assert actions[..k] == before[..k]; } else { assert actions[..k] == actions; }
    }
  }

  lemma StartCover(l: Ledger, before: seq<Action>, a: Action, id: ImprovementId, who: Approver, row: Improvement)
    requires Approves(Run(l, before), a, id, who)
    requires id in Run(l, before).improvements && SameProposal(Run(l, before).improvements[id], row)
    requires id in Run(l, before + [a]).improvements && Run(l, before + [a]).improvements[id] == row
    ensures CoversSince(l, before + [a], id, who, |before|, row)
  {
    var actions := before + [a];
    assert actions[..|before|] == before && actions[..|before| + 1] == actions;
  }

  lemma {:induction false} ApprovalHistory(l: Ledger, actions: seq<Action>, id: ImprovementId, who: Approver) returns (i: nat)
    requires Initial(l) && id in Run(l, actions).improvements
    requires Approval(Run(l, actions).improvements[id], who).Some?
    ensures CoversSince(l, actions, id, who, i, Run(l, actions).improvements[id])
  {
    i := 0;
    if actions != [] {
      var before, a := actions[..|actions| - 1], actions[|actions| - 1];
      assert actions == before + [a];
      RunKeepsWellformed(l, before);
      ApprovalStep(Run(l, before), a, id, who);
      if Approves(Run(l, before), a, id, who) {
        i := |before|;
        StartCover(l, before, a, id, who, Run(l, actions).improvements[id]);
      } else {
        i := ApprovalHistory(l, before, id, who);
        ExtendCover(l, before, a, id, who, i, Run(l, before).improvements[id], Run(l, actions).improvements[id]);
      }
    }
  }

  /** An improvement is adopted only on the strength of a parent and a human
      approval given to exactly the version and evidence adopted, with evidence
      that is not empty and all of it valid at that moment. */
  lemma AdoptionIsCovered(l: Ledger, actions: seq<Action>, a: Action, id: ImprovementId)
    returns (parentAt: nat, humanAt: nat)
    requires Initial(l)
    requires id in Run(l, actions).improvements && Run(l, actions).improvements[id].status != Adopted
    requires id in Step(Run(l, actions), a).improvements && Step(Run(l, actions), a).improvements[id].status == Adopted
    ensures var row := Step(Run(l, actions), a).improvements[id];
            && a.Move? && row.evidence != [] && AllValid(row.evidence, a.req.valid)
            && CoversSince(l, actions, id, Parent, parentAt, row)
            && CoversSince(l, actions, id, Human, humanAt, row)
  {
    var mid := Run(l, actions);
    RunKeepsWellformed(l, actions);
    AdoptingStep(mid, a, id);
    parentAt := ApprovalHistory(l, actions, id, Parent);
    humanAt := ApprovalHistory(l, actions, id, Human);
    var row, row' := mid.improvements[id], Step(mid, a).improvements[id];
    CoverSameProposal(l, actions, id, Parent, parentAt, row, row');
    CoverSameProposal(l, actions, id, Human, humanAt, row, row');
  }

  lemma CoverSameProposal(l: Ledger, actions: seq<Action>, id: ImprovementId, who: Approver, i: nat,
                          row: Improvement, row': Improvement)
    requires CoversSince(l, actions, id, who, i, row) && SameProposal(row, row')
    ensures CoversSince(l, actions, id, who, i, row')
  {
  }

  /** A step that adopts is a transition that passed every gate of adoption. */
  lemma AdoptingStep(l: Ledger, a: Action, id: ImprovementId)
    requires Wellformed(l) && id in l.improvements && l.improvements[id].status != Adopted
    requires id in Step(l, a).improvements && Step(l, a).improvements[id].status == Adopted
    ensures a.Move? && a.req.id == id && a.req.to == Adopted
    ensures EarlyRefusal(l, a.req).None? && Gate(l, l.improvements[id], a.req).Ok?
    ensures l.improvements[id].parentApproved.Some? && l.improvements[id].humanApproved.Some?
    ensures var row := Step(l, a).improvements[id];
            SameProposal(l.improvements[id], row) && row.evidence != [] && AllValid(row.evidence, a.req.valid)
  {
    StepRow(l, a, id);
    if a.Move? { TransitionRow(l, a.req, id); }
  }

  /** Changing the proposal voids both approvals even if the transition is refused. */
  lemma ChangedProposalLosesApprovals(l: Ledger, req: Request)
    requires EarlyRefusal(l, req).None? && ContentChanges(l.improvements[req.id], req)
    ensures req.id in Transition(l, req).0.improvements
    ensures var row := Transition(l, req).0.improvements[req.id];
            row.parentApproved.None? && row.humanApproved.None? && row.status != Adopted
  {
    TransitionRow(l, req, req.id);
  }

  // ---- Circuit breaker -----------------------------------------------------

  /** The rejections and adoptions of a cell's improvements, in event order. */
  function Outcomes(improvements: map<ImprovementId, Improvement>, events: seq<Event>, c: CellRow): seq<Status> {
    if events == [] then []
    else
      var before, e := Outcomes(improvements, events[..|events| - 1], c), events[|events| - 1];
      if e.StatusTransition? && e.id in improvements && improvements[e.id].cell == c && !Open(e.to) then before + [e.to]
      else before
  }

  /** The streak is the trailing run of rejections since the last adoption. */
  lemma {:induction false} StreakIsTrailingRun(improvements: map<ImprovementId, Improvement>, events: seq<Event>, c: CellRow)
    ensures var o, n := Outcomes(improvements, events, c), Streak(improvements, events, c);
            && n <= |o| && (forall i | |o| - n <= i < |o| :: o[i] == Rejected)
            && (n < |o| ==> o[|o| - n - 1] == Adopted)
  {
    if events != [] { StreakIsTrailingRun(improvements, events[..|events| - 1], c); }
  }

  lemma {:induction false} StreakKept(m: map<ImprovementId, Improvement>, m': map<ImprovementId, Improvement>,
                                      events: seq<Event>, c: CellRow)
    requires forall e | e in events && e.StatusTransition? :: e.id in m
    requires forall i | i in m :: i in m' && m'[i].cell == m[i].cell
    ensures Streak(m', events, c) == Streak(m, events, c)
  {
    if events != [] {
      assert events[|events| - 1] in events;
      StreakKept(m, m', events[..|events| - 1], c);
    }
  }

  ghost predicate EventsNameRows(l: Ledger) {
    forall e | e in l.events && e.StatusTransition? :: e.id in l.improvements
  }

  /** A step appends events, and only a transition that goes through appends a
      status transition, for its own row and to its own target. */
  lemma StepEvents(l: Ledger, a: Action) returns (tail: seq<Event>)
    ensures Step(l, a).events == l.events + tail
    ensures forall e | e in tail && e.StatusTransition? :: a.Move? && MovesAs(l, a.req, e)
  {
    if a.Move? {
      tail := TransitionEvents(l, a.req);
    } else {
      tail := Step(l, a).events[|l.events|..];
    }
  }

  predicate MovesAs(l: Ledger, req: Request, e: Event) {
    e.StatusTransition? && e.id == req.id && e.to == req.to && EarlyRefusal(l, req).None? && Transition(l, req).1.None?
  }

  lemma TransitionEvents(l: Ledger, req: Request) returns (tail: seq<Event>)
    ensures Transition(l, req).0.events == l.events + tail
    ensures forall e | e in tail && e.StatusTransition? :: MovesAs(l, req, e)
  {
    tail := [];
    if EarlyRefusal(l, req).None? {
      var row := l.improvements[req.id];
      var voids := VoidedEvents(l, req);
      tail := voids;
      if Gate(l, row, req).Ok? {
        var detail := Gate(l, row, req).value;
        var done := Written(Voided(l, req), row, req, detail);
        var sweep := SweepEvents(done, row.cell);
        var moved := StatusTransition(req.id, row.status, req.to, detail);
        assert done.events == l.events + (voids + [moved]);
        assert MovesAs(l, req, moved);
        tail := voids + [moved] + if req.to == Rejected then sweep else [];
      }
    }
  }

  lemma VoidedEvents(l: Ledger, req: Request) returns (tail: seq<Event>)
    requires req.id in l.improvements
    ensures Voided(l, req).events == l.events + tail && forall e | e in tail :: !e.StatusTransition?
  {
    tail := if Voids(l.improvements[req.id], req) then [ApprovalsInvalidated(req.id)] else [];
  }

  lemma SweepEvents(l: Ledger, c: CellRow) returns (tail: seq<Event>)
    ensures MaybeSuspend(l, c).events == l.events + tail && forall e | e in tail :: !e.StatusTransition?
  {
    tail := if CellStreak(l, c) >= REJECTION_THRESHOLD then [SuspendedEvent(OpenActive(l, c))] else [];
  }

  function RowsOf(l: Ledger, c: CellRow): set<ImprovementId> {
    set i | i in l.improvements && l.improvements[i].cell == c
  }

  function PendingDrafts(l: Ledger, c: CellRow): set<DraftId> {
    set d | d in l.drafts && l.drafts[d].cell == c
  }

  /** Of the rows of `c` older than `mark` every open one is suspended. */
  ghost predicate Held(l: Ledger, c: CellRow, mark: ImprovementId) {
    && Wellformed(l) && mark <= l.nextId
    && forall i | i in RowsOf(l, c) && i < mark && Open(l.improvements[i].status) :: l.improvements[i].suspended
  }

  /** The breaker has tripped on `c`: the streak stands at the threshold and the rows
      older than `mark` are held. */
  ghost predicate Tripped(l: Ledger, c: CellRow, mark: ImprovementId) {
    Held(l, c, mark) && EventsNameRows(l) && CellStreak(l, c) >= REJECTION_THRESHOLD
  }

  lemma StepKeepsNames(l: Ledger, a: Action)
    requires Wellformed(l) && EventsNameRows(l)
    ensures EventsNameRows(Step(l, a))
  {
    var tail := StepEvents(l, a);
    forall e | e in Step(l, a).events && e.StatusTransition? ensures e.id in Step(l, a).improvements {
      assert e in l.events || e in tail;
      if e in l.events { StepRow(l, a, e.id); } else { StepRow(l, a, e.id); }
    }
  }

  /** A held row keeps its status, and a suspended one its suspension, whatever the
      step, short of a resumption. */
  lemma HeldRow(l: Ledger, c: CellRow, mark: ImprovementId, a: Action, i: ImprovementId)
    requires Held(l, c, mark) && a != ResumeCell(c) && i in RowsOf(l, c) && i < mark
    ensures RowStands(l, Step(l, a), c, i)
  {
    if a.Move? {
      TransitionRow(l, a.req, i);
    } else {
      OtherRow(l, a, i);
      if l.improvements[i].suspended { StaysSuspended(l, c, a, i); }
    }
  }

  predicate RowStands(l: Ledger, l': Ledger, c: CellRow, i: ImprovementId)
    requires i in l.improvements
  {
    && i in RowsOf(l', c) && l'.improvements[i].status == l.improvements[i].status
    && (l.improvements[i].suspended ==> l'.improvements[i].suspended)
  }

  lemma StaysSuspended(l: Ledger, c: CellRow, a: Action, i: ImprovementId)
    requires Wellformed(l) && a != ResumeCell(c) && !a.Move? && i in RowsOf(l, c) && l.improvements[i].suspended
    ensures i in Step(l, a).improvements && Step(l, a).improvements[i].suspended
  {
    if Approving(a) { ApprovingRow(l, a, i); } else if !Suspending(a) { UntouchedRow(l, a, i); }
  }

  lemma CellsKept(l: Ledger, a: Action)
    requires Wellformed(l)
    ensures forall i | i in l.improvements :: i in Step(l, a).improvements && Step(l, a).improvements[i].cell == l.improvements[i].cell
  {
    forall i | i in l.improvements
      ensures i in Step(l, a).improvements && Step(l, a).improvements[i].cell == l.improvements[i].cell
    {
      StepRow(l, a, i);
    }
  }

  /** The step adopts an improvement of the cell. */
  predicate AdoptsIn(l: Ledger, c: CellRow, a: Action) {
    a.Move? && a.req.to == Adopted && a.req.id in RowsOf(l, c) && Transition(l, a.req).1.None?
  }

  predicate NoAdoption(l: Ledger, c: CellRow, actions: seq<Action>) {
    actions == []
    || (NoAdoption(l, c, actions[..|actions| - 1])
        && !AdoptsIn(Run(l, actions[..|actions| - 1]), c, actions[|actions| - 1]))
  }

  /** Only an adoption makes the streak fall. */
  lemma {:induction false} StreakGrows(m: map<ImprovementId, Improvement>, events: seq<Event>, tail: seq<Event>, c: CellRow)
    requires forall e | e in tail && e.StatusTransition? && e.to == Adopted :: e.id in m && m[e.id].cell != c
    ensures Streak(m, events + tail, c) >= Streak(m, events, c)
  {
    if tail == [] {
      assert events + tail == events;
    } else {
      assert (events + tail)[..|events + tail| - 1] == events + tail[..|tail| - 1];
      assert tail[|tail| - 1] in tail;
      StreakGrows(m, events, tail[..|tail| - 1], c);
    }
  }

  lemma StreakNeverFalls(l: Ledger, c: CellRow, a: Action)
    requires Wellformed(l) && EventsNameRows(l) && !AdoptsIn(l, c, a)
    ensures CellStreak(Step(l, a), c) >= CellStreak(l, c)
  {
    var l' := Step(l, a);
    var tail := StepEvents(l, a);
    CellsKept(l, a);
    StreakKept(l.improvements, l'.improvements, l.events, c);
    StreakGrows(l'.improvements, l.events, tail, c);
  }

  /** Rows of the cell appear only by finishing drafts, each at most once. */
  lemma FrozenCreation(l: Ledger, c: CellRow, a: Action)
    requires Wellformed(l) && CellStreak(l, c) >= REJECTION_THRESHOLD
    ensures PendingDrafts(Step(l, a), c) <= PendingDrafts(l, c)
    ensures RowsOf(Step(l, a), c) == RowsOf(l, c)
         || (RowsOf(Step(l, a), c) == RowsOf(l, c) + {l.nextId} && |PendingDrafts(Step(l, a), c)| < |PendingDrafts(l, c)|)
  {
    if a.Move? {
      MovedRows(l, c, a.req);
    } else if a.DraftFinish? && a.draft in PendingDrafts(l, c) {
      FinishRows(l, c, a.draft, a.produced);
    } else {
      OtherRows(l, c, a);
    }
  }

  lemma MovedRows(l: Ledger, c: CellRow, req: Request)
    requires Wellformed(l)
    ensures RowsOf(Transition(l, req).0, c) == RowsOf(l, c) && PendingDrafts(Transition(l, req).0, c) == PendingDrafts(l, c)
  {
    TransitionFrame(l, req);
    forall i | i in l.improvements
      ensures i in Transition(l, req).0.improvements && Transition(l, req).0.improvements[i].cell == l.improvements[i].cell
    {
      MoveRow(l, req, i);
    }
  }

  lemma FinishRows(l: Ledger, c: CellRow, d: DraftId, produced: Option<Narrative>)
    requires Wellformed(l) && d in PendingDrafts(l, c)
    ensures var l' := Step(l, DraftFinish(d, produced));
            && RowsOf(l', c) == RowsOf(l, c) + (if produced.Some? then {l.nextId} else {})
            && PendingDrafts(l', c) <= PendingDrafts(l, c) && |PendingDrafts(l', c)| < |PendingDrafts(l, c)|
  {
    var l' := Step(l, DraftFinish(d, produced));
    FinishedRow(l, c, d, produced);
    assert l'.drafts == l.drafts - {d};
    FewerDrafts(l, l', c, d);
  }

  lemma FinishedRow(l: Ledger, c: CellRow, d: DraftId, produced: Option<Narrative>)
    requires Wellformed(l) && d in PendingDrafts(l, c)
    ensures RowsOf(Step(l, DraftFinish(d, produced)), c) == RowsOf(l, c) + (if produced.Some? then {l.nextId} else {})
  {
  }

  lemma FewerDrafts(l: Ledger, l': Ledger, c: CellRow, d: DraftId)
    requires d in PendingDrafts(l, c) && l'.drafts == l.drafts - {d}
    ensures PendingDrafts(l', c) <= PendingDrafts(l, c) && |PendingDrafts(l', c)| < |PendingDrafts(l, c)|
  {
    var before, after := PendingDrafts(l, c), PendingDrafts(l', c);
    forall x ensures x in after <==> x in before && x != d {}
    assert before == after + {d};
  }

  lemma OtherRows(l: Ledger, c: CellRow, a: Action)
    requires Wellformed(l) && CellStreak(l, c) >= REJECTION_THRESHOLD
    requires !a.Move? && !(a.DraftFinish? && a.draft in PendingDrafts(l, c))
    ensures RowsOf(Step(l, a), c) == RowsOf(l, c) && PendingDrafts(Step(l, a), c) <= PendingDrafts(l, c)
  {
    if Approving(a) || Suspending(a) {
      RowsStay(l, a);
      CellsKept(l, a);
    }
  }

  lemma NewIsNew(l: Ledger, a: Action, i: ImprovementId)
    requires i in Step(l, a).improvements && i !in l.improvements
    ensures i == l.nextId
  {
    if a.Move? {
      TransitionFrame(l, a.req);
    } else if Approving(a) || Suspending(a) {
      RowsStay(l, a);
    }
  }

  /** Short of a resumption held rows stay held, adoptions of newer rows included. */
  lemma HeldStep(l: Ledger, c: CellRow, mark: ImprovementId, a: Action)
    requires Held(l, c, mark) && a != ResumeCell(c)
    ensures Held(Step(l, a), c, mark)
    ensures forall i | i in RowsOf(l, c) && i < mark :: RowStands(l, Step(l, a), c, i)
  {
    var l' := Step(l, a);
    StepKeepsWellformed(l, a);
    IdsGrow(l, a);
    CellsKept(l, a);
    forall i | i in RowsOf(l, c) && i < mark ensures RowStands(l, l', c, i) {
      HeldRow(l, c, mark, a, i);
    }
    forall i | i in RowsOf(l', c) && i < mark ensures i in RowsOf(l, c) {
      if i !in l.improvements { NewIsNew(l, a, i); }
    }
  }

  /** An adoption in the cell ends the streak. */
  lemma AdoptionEndsStreak(l: Ledger, c: CellRow, a: Action)
    requires Wellformed(l) && AdoptsIn(l, c, a)
    ensures CellStreak(Step(l, a), c) == 0
  {
    var row := l.improvements[a.req.id];
    var mid, detail := Voided(l, a.req), Gate(l, row, a.req).value;
    var moved := StatusTransition(a.req.id, row.status, Adopted, detail);
    CellsKept(l, a);
    assert Step(l, a).events == mid.events + [moved];
    assert (mid.events + [moved])[..|mid.events|] == mid.events;
  }

  /** Short of a resumption a step ends the trip if and only if it adopts an improvement
      of the cell; the rows older than the trip stand still either way. */
  lemma FrozenStep(l: Ledger, c: CellRow, mark: ImprovementId, a: Action)
    requires Tripped(l, c, mark) && a != ResumeCell(c)
    ensures Tripped(Step(l, a), c, mark) <==> !AdoptsIn(l, c, a)
    ensures forall i | i in RowsOf(l, c) && i < mark :: RowStands(l, Step(l, a), c, i)
  {
    HeldStep(l, c, mark, a);
    StepKeepsNames(l, a);
    if AdoptsIn(l, c, a) { AdoptionEndsStreak(l, c, a); } else { StreakNeverFalls(l, c, a); }
  }

  /** A resumption ends the trip if and only if an older row is still open. */
  lemma ResumedStep(l: Ledger, c: CellRow, mark: ImprovementId)
    requires Tripped(l, c, mark)
    ensures Tripped(Step(l, ResumeCell(c)), c, mark)
       <==> forall i | i in RowsOf(l, c) && i < mark :: !Open(l.improvements[i].status)
  {
    var a := ResumeCell(c);
    var l' := Step(l, a);
    StepKeepsWellformed(l, a);
    StepKeepsNames(l, a);
    StreakNeverFalls(l, c, a);
    RowsStay(l, a);
    forall i | i in RowsOf(l, c)
      ensures i in RowsOf(l', c) && !l'.improvements[i].suspended && l'.improvements[i].status == l.improvements[i].status
    {
      SuspendingRow(l, a, i);
      ResumedRow(l, c, i);
    }
    assert RowsOf(l', c) == RowsOf(l, c) by { CellsKept(l, a); }
  }

  lemma ResumedRow(l: Ledger, c: CellRow, i: ImprovementId)
    requires Wellformed(l) && i in RowsOf(l, c)
    ensures i in Step(l, ResumeCell(c)).improvements && !Step(l, ResumeCell(c)).improvements[i].suspended
  {
  }

  lemma IdsGrow(l: Ledger, a: Action)
    ensures Step(l, a).nextId >= l.nextId
  {
    if a.Move? { TransitionFrame(l, a.req); }
  }

  /** In every run without a resumption of the cell, adoptions included, the rows of the
      trip stand still. */
  lemma {:induction false} HeldRun(l: Ledger, c: CellRow, mark: ImprovementId, actions: seq<Action>)
    requires Held(l, c, mark) && ResumeCell(c) !in actions
    ensures Held(Run(l, actions), c, mark)
    ensures forall i | i in RowsOf(l, c) && i < mark :: RowStands(l, Run(l, actions), c, i)
  {
    if actions != [] {
      HeldRun(l, c, mark, actions[..|actions| - 1]);
      HeldStep(Run(l, actions[..|actions| - 1]), c, mark, actions[|actions| - 1]);
    }
  }

  ghost predicate TrippedThroughout(l: Ledger, c: CellRow, mark: ImprovementId, actions: seq<Action>) {
    Tripped(Run(l, actions), c, mark) && (actions == [] || TrippedThroughout(l, c, mark, actions[..|actions| - 1]))
  }

  /** Short of a resumption the trip lasts through a run if and only if nothing of the
      cell is adopted in it. */
  lemma {:induction false} TrippedThroughoutExactly(l: Ledger, c: CellRow, mark: ImprovementId, actions: seq<Action>)
    requires Tripped(l, c, mark) && ResumeCell(c) !in actions
    ensures TrippedThroughout(l, c, mark, actions) <==> NoAdoption(l, c, actions)
  {
    if actions != [] {
      var before, a := actions[..|actions| - 1], actions[|actions| - 1];
      TrippedThroughoutExactly(l, c, mark, before);
      if TrippedThroughout(l, c, mark, before) { FrozenStep(Run(l, before), c, mark, a); }
    }
  }

  function LateRows(l: Ledger, c: CellRow, mark: ImprovementId): set<ImprovementId> {
    Late(RowsOf(l, c), mark)
  }

  function Late(ids: set<ImprovementId>, mark: ImprovementId): set<ImprovementId> {
    set i | i in ids && i >= mark
  }

  /** With drafting split in a read and a write step: after the breaker trips, as long as
      the cell is not resumed and nothing of it adopted, the older rows never change
      status, and any newer row came from a draft that was under way at the trip. */
  lemma {:induction false} TrippedRun(l: Ledger, c: CellRow, actions: seq<Action>)
    requires Tripped(l, c, l.nextId) && ResumeCell(c) !in actions && NoAdoption(l, c, actions)
    ensures var l' := Run(l, actions);
            && Tripped(l', c, l.nextId)
            && (forall i | i in RowsOf(l, c) :: RowStands(l, l', c, i))
            && RowsOf(l', c) == RowsOf(l, c) + LateRows(l', c, l.nextId)
            && PendingDrafts(l', c) <= PendingDrafts(l, c)
            && |LateRows(l', c, l.nextId)| + |PendingDrafts(l', c)| <= |PendingDrafts(l, c)|
  {
    HeldRun(l, c, l.nextId, actions);
    if actions == [] {
      assert LateRows(l, c, l.nextId) == {};
    } else {
      var before, a := actions[..|actions| - 1], actions[|actions| - 1];
      TrippedRun(l, c, before);
      var mid := Run(l, before);
      FrozenStep(mid, c, l.nextId, a);
      FrozenCreation(mid, c, a);
      LateStep(RowsOf(l, c), l.nextId, RowsOf(mid, c), RowsOf(Step(mid, a), c), mid.nextId);
      SubsetSize(PendingDrafts(Step(mid, a), c), PendingDrafts(mid, c));
    }
  }

  lemma LateStep(old0: set<ImprovementId>, mark: nat, mid: set<ImprovementId>, end: set<ImprovementId>, next: nat)
    requires (forall i | i in mid :: i < next) && mark <= next && mid == old0 + Late(mid, mark)
    requires end == mid || end == mid + {next}
    ensures end == old0 + Late(end, mark)
    ensures |Late(end, mark)| == |Late(mid, mark)| + if end == mid then 0 else 1
  {
    if end != mid {
      assert Late(end, mark) == Late(mid, mark) + {next};
    }
  }

  lemma SubsetSize(a: set<DraftId>, b: set<DraftId>)
    requires a <= b
    ensures |a| <= |b|
  {
    assert b == a + (b - a);
  }

  /** With atomic creation -- no draft under way -- a tripped cell is frozen: until
      it is resumed, no improvement of it changes status and none is created. */
  lemma FrozenUntilResumed(l: Ledger, c: CellRow, actions: seq<Action>)
    requires Tripped(l, c, l.nextId) && PendingDrafts(l, c) == {}
    requires ResumeCell(c) !in actions
    ensures RowsOf(Run(l, actions), c) == RowsOf(l, c)
    ensures forall i | i in RowsOf(l, c) :: RowStands(l, Run(l, actions), c, i)
  {
    NothingToAdopt(l, c, actions);
    TrippedRun(l, c, actions);
  }

  lemma {:induction false} NothingToAdopt(l: Ledger, c: CellRow, actions: seq<Action>)
    requires Tripped(l, c, l.nextId) && PendingDrafts(l, c) == {} && ResumeCell(c) !in actions
    ensures NoAdoption(l, c, actions)
  {
    if actions != [] {
      var before, a := actions[..|actions| - 1], actions[|actions| - 1];
      NothingToAdopt(l, c, before);
      TrippedRun(l, c, before);
      assert LateRows(Run(l, before), c, l.nextId) == {};
      HeldIsNotAdopted(Run(l, before), c, l.nextId, a);
    }
  }

  /** With no row newer than the trip nothing of the cell can be adopted. */
  lemma HeldIsNotAdopted(l: Ledger, c: CellRow, mark: ImprovementId, a: Action)
    requires Held(l, c, mark) && forall i | i in RowsOf(l, c) :: i < mark
    ensures !AdoptsIn(l, c, a)
  {
  }

  /** With no draft under way, a cell at the threshold gets no new improvement until
      one of its own is adopted: a resumption lifts the suspensions and leaves
      creation refused. */
  lemma {:induction false} NoCreationUntilAdoption(l: Ledger, c: CellRow, actions: seq<Action>)
    requires Wellformed(l) && EventsNameRows(l) && CellStreak(l, c) >= REJECTION_THRESHOLD && PendingDrafts(l, c) == {}
    requires NoAdoption(l, c, actions)
    ensures var l' := Run(l, actions);
            && Wellformed(l') && EventsNameRows(l')
            && RowsOf(l', c) == RowsOf(l, c) && PendingDrafts(l', c) == {}
            && CellStreak(l', c) >= CellStreak(l, c)
  {
    if actions != [] {
      var before, a := actions[..|actions| - 1], actions[|actions| - 1];
      NoCreationUntilAdoption(l, c, before);
      StepKeepsWellformed(Run(l, before), a);
      StepKeepsNames(Run(l, before), a);
      StreakNeverFalls(Run(l, before), c, a);
      FrozenCreation(Run(l, before), c, a);
    }
  }

  /** A rejection that makes the streak reach the threshold trips the breaker. */
  lemma RejectionTrips(l: Ledger, req: Request)
    requires Wellformed(l) && EventsNameRows(l) && Transition(l, req).1.None? && req.to == Rejected
    requires CellStreak(Transition(l, req).0, l.improvements[req.id].cell) >= 3
    ensures Tripped(Transition(l, req).0, l.improvements[req.id].cell, Transition(l, req).0.nextId)
    ensures var after := Transition(l, req).0.improvements;
            forall i | i in after && after[i].cell == l.improvements[req.id].cell
                       && after[i].status != Adopted && after[i].status != Rejected :: after[i].suspended
  {
    var l', c := Transition(l, req).0, l.improvements[req.id].cell;
    StepKeepsWellformed(l, Move(req));
    StepKeepsNames(l, Move(req));
    assert Step(l, Move(req)) == l';
    RejectionSweeps(l, req);
    assert forall i | i in l'.improvements && l'.improvements[i].cell == c :: i in RowsOf(l', c);
  }

  lemma RejectionSweeps(l: Ledger, req: Request)
    requires Transition(l, req).1.None? && req.to == Rejected
    requires CellStreak(Transition(l, req).0, l.improvements[req.id].cell) >= REJECTION_THRESHOLD
    ensures var l', c := Transition(l, req).0, l.improvements[req.id].cell;
            forall i | i in RowsOf(l', c) && Open(l'.improvements[i].status) :: l'.improvements[i].suspended
  {
    var row := l.improvements[req.id];
    SuspensionCovers(Written(Voided(l, req), row, req, Gate(l, row, req).value), row.cell);
  }

  /** If the streak stands at the threshold after the sweep, every open row is suspended. */
  lemma SuspensionCovers(l: Ledger, c: CellRow)
    requires CellStreak(MaybeSuspend(l, c), c) >= REJECTION_THRESHOLD
    ensures forall i | i in RowsOf(MaybeSuspend(l, c), c) && Open(MaybeSuspend(l, c).improvements[i].status) ::
              MaybeSuspend(l, c).improvements[i].suspended
  {
  }

  /** draft_improvement does not recheck the breaker when it writes: a draft that
      was under way inserts an open row that is not suspended. */
  lemma LateDraftIsFree(l: Ledger, c: CellRow, d: DraftId, n: Narrative)
    requires Tripped(l, c, l.nextId) && d in PendingDrafts(l, c)
    ensures var l' := Step(l, DraftFinish(d, Some(n)));
            && RowsOf(l', c) == RowsOf(l, c) + {l.nextId} && l.nextId !in RowsOf(l, c)
            && Open(l'.improvements[l.nextId].status) && !l'.improvements[l.nextId].suspended
  {
  }
}
