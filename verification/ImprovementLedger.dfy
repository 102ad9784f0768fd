/** The improvement ledger of one System (cell_improvement.py): the rows, the
    gates of every transition, and what each operation writes. */
module ImprovementLedger {
  import opened Wrappers
  import opened CardVersions

  type ImprovementId = nat
  type DraftId = nat
  type CellRow = nat
  type Ref = string

  // ---- Role cards ----------------------------------------------------------

  /** A card row; its unique index makes (role key, version) its name. */
  datatype CardKey = CardKey(roleKey: string, version: string)

  datatype Card = Card(semver: Semver, active: bool, rubric: string)

  /** The version of the row is the one its text stands for: the card contract refuses
      a text that stands for none. */
  predicate Versioned(key: CardKey, card: Card) {
    ParseSemver(key.version) == Some(card.semver)
  }

  // ---- Rows ----------------------------------------------------------------

  datatype Status = Observed | Proposed | CanaryReady | CanaryRunning | Adopted | Rejected | Blocked

  predicate Allowed(from: Status, to: Status) {
    match from
    case Observed => to == Proposed
    case Proposed => to == CanaryReady || to == Rejected
    case CanaryReady => to == CanaryRunning || to == Rejected || to == Blocked
    case CanaryRunning => to == Adopted || to == Rejected || to == Blocked
    case Blocked => to == CanaryReady || to == Rejected
    case Adopted => false
    case Rejected => false
  }

  predicate Open(s: Status) {
    s != Adopted && s != Rejected
  }

  datatype Target = RoleCard | CandidatePatch

  datatype Narrative = Narrative(hypothesis: string, expectedEffect: string, risk: string, rollbackPlan: string)

  predicate Blank(s: string) {
    forall i | 0 <= i < |s| :: s[i] in " \t\n\r"
  }

  predicate Complete(n: Narrative) {
    !Blank(n.hypothesis) && !Blank(n.expectedEffect) && !Blank(n.risk) && !Blank(n.rollbackPlan)
  }

  datatype Improvement = Improvement(
    cell: CellRow, status: Status, target: Target, narrative: Narrative, card: Option<CardKey>, parent: Option<CellRow>,
    evidence: seq<Ref>, version: Option<string>,
    parentApproved: Option<string>, humanApproved: Option<string>, suspended: bool)

  datatype Detail = CardAdoption(previous: CardKey, adopted: CardKey, compatible: bool) | Handoff | Note(text: string)

  datatype Event =
    | CreatedEvent(id: ImprovementId)
    | StatusTransition(id: ImprovementId, from: Status, to: Status, detail: Detail)
    | ParentApproval(id: ImprovementId, actor: string)
    | HumanApproval(id: ImprovementId, actor: string)
    | ApprovalsInvalidated(id: ImprovementId)
    | SuspendedEvent(ids: set<ImprovementId>)   // one audit row per id
    | ResumedEvent(ids: set<ImprovementId>)
    | RolledBack(id: ImprovementId, restored: CardKey)

  /** What the read phase of a draft hands to its write phase. */
  datatype Draft = Draft(cell: CellRow, target: Target, card: Option<CardKey>, parent: Option<CellRow>)

  datatype Ledger = Ledger(
    improvements: map<ImprovementId, Improvement>, pins: map<CellRow, CardKey>, cards: map<CardKey, Card>,
    events: seq<Event>, drafts: map<DraftId, Draft>, nextId: ImprovementId, nextDraft: DraftId)

  datatype Refusal =
    | NotFound | RowSuspended | IllegalTransition | BadEvidence | NoPinnedCard | UnknownCard | RubricOwnedByParent
    | NarrativeMissing | EvidenceMissing | NoParentApproval | NoHumanApproval | NoVersion | InactiveCard | Incompatible
    | TooManyRejections | BlankActor | OutOfScope | Terminal | NotAnAdoptedCard | NothingRecorded | PinSuperseded

  // ---- Circuit breaker -----------------------------------------------------

  const REJECTION_THRESHOLD := 3

  /** Trailing rejections of a cell since its last adoption. */
  function Streak(improvements: map<ImprovementId, Improvement>, events: seq<Event>, c: CellRow): nat {
    if events == [] then 0
    else
      var before, e := Streak(improvements, events[..|events| - 1], c), events[|events| - 1];
      if e.StatusTransition? && e.id in improvements && improvements[e.id].cell == c then
        if e.to == Adopted then 0 else if e.to == Rejected then before + 1 else before
      else before
  }

  function CellStreak(l: Ledger, c: CellRow): nat {
    Streak(l.improvements, l.events, c)
  }

  function OpenActive(l: Ledger, c: CellRow): set<ImprovementId> {
    set i | i in l.improvements && l.improvements[i].cell == c && !l.improvements[i].suspended && Open(l.improvements[i].status)
  }

  function SuspendedRows(l: Ledger, c: CellRow): set<ImprovementId> {
    set i | i in l.improvements && l.improvements[i].cell == c && l.improvements[i].suspended
  }

  function WithSuspension(m: map<ImprovementId, Improvement>, ids: set<ImprovementId>, flag: bool): map<ImprovementId, Improvement> {
    map i | i in m :: if i in ids then m[i].(suspended := flag) else m[i]
  }

  function Suspend(l: Ledger, c: CellRow): Ledger {
    l.(improvements := WithSuspension(l.improvements, OpenActive(l, c), true),
       events := l.events + [SuspendedEvent(OpenActive(l, c))])
  }

  function Resume(l: Ledger, c: CellRow): Ledger {
    l.(improvements := WithSuspension(l.improvements, SuspendedRows(l, c), false),
       events := l.events + [ResumedEvent(SuspendedRows(l, c))])
  }

  function MaybeSuspend(l: Ledger, c: CellRow): Ledger {
    if CellStreak(l, c) >= REJECTION_THRESHOLD then Suspend(l, c) else l
  }

  // ---- Creation ------------------------------------------------------------

  function NewRow(d: Draft, n: Narrative): Improvement {
    Improvement(d.cell, Observed, d.target, n, d.card, d.parent, [], None, None, None, false)
  }

  function Inserted(l: Ledger, row: Improvement): Ledger {
    l.(improvements := l.improvements[l.nextId := row], events := l.events + [CreatedEvent(l.nextId)], nextId := l.nextId + 1)
  }

  /** The read phase shared by manual creation and drafting: what it captures, or
      why it refuses.  `factsValid`: every observed-facts ref resolves. */
  function Capture(l: Ledger, c: CellRow, target: Target, parent: Option<CellRow>, factsValid: bool): Result<Draft, Refusal> {
    if c !in l.pins then Err(NotFound)
    else if CellStreak(l, c) >= REJECTION_THRESHOLD then Err(TooManyRejections)
    else if parent.Some? && parent.value !in l.pins then Err(NotFound)
    else if !factsValid then Err(BadEvidence)
    else Ok(Draft(c, target, if target == RoleCard then Some(l.pins[c]) else None, parent))
  }

  // ---- Transitions ---------------------------------------------------------

  /** One call; `valid` are the canary refs that resolve to a success for the
      improvement's cell at this moment. */
  datatype Request = Request(
    id: ImprovementId, to: Status, refs: seq<Ref>, version: Option<string>,
    allowMajor: bool, admin: bool, valid: set<Ref>, note: string)

  function AddRefs(evidence: seq<Ref>, refs: seq<Ref>): seq<Ref>
    decreases refs
  {
    if refs == [] then evidence
    else AddRefs(if refs[0] in evidence then evidence else evidence + [refs[0]], refs[1..])
  }

  predicate AllValid(refs: seq<Ref>, valid: set<Ref>) {
    forall r | r in refs :: r in valid
  }

  function NewVersion(row: Improvement, req: Request): Option<string> {
    if req.version.Some? then req.version else row.version
  }

  /** A cell may not change its own grading rubric. */
  function RubricRefusal(l: Ledger, row: Improvement, version: string): Option<Refusal> {
    if row.card.None? || row.card.value !in l.cards then Some(NoPinnedCard)
    else
      var candidate := CardKey(row.card.value.roleKey, version);
      if candidate !in l.cards then Some(UnknownCard)
      else if l.cards[candidate].rubric != l.cards[row.card.value].rubric && row.parent.None? then Some(RubricOwnedByParent)
      else None
  }

  /** The checks made before anything is written. */
  function EarlyRefusal(l: Ledger, req: Request): Option<Refusal> {
    if req.id !in l.improvements then Some(NotFound)
    else
      var row := l.improvements[req.id];
      if row.suspended then Some(RowSuspended)
      else if !Allowed(row.status, req.to) then Some(IllegalTransition)
      else if !AllValid(req.refs, req.valid) then Some(BadEvidence)
      else if req.version.Some? && row.target == RoleCard then RubricRefusal(l, row, req.version.value)
      else None
  }

  predicate ContentChanges(row: Improvement, req: Request) {
    NewVersion(row, req) != row.version || AddRefs(row.evidence, req.refs) != row.evidence
  }

  predicate Voids(row: Improvement, req: Request) {
    ContentChanges(row, req) && (row.parentApproved.Some? || row.humanApproved.Some?)
  }

  /** The eager transaction: a changed proposal loses its approvals at once. */
  function Voided(l: Ledger, req: Request): Ledger
    requires req.id in l.improvements
  {
    var row := l.improvements[req.id];
    if Voids(row, req)
    then l.(improvements := l.improvements[req.id := row.(parentApproved := None, humanApproved := None)],
            events := l.events + [ApprovalsInvalidated(req.id)])
    else l
  }

  /** The gate on adopting a role card: what it records, or why it refuses. */
  function CardGate(l: Ledger, row: Improvement, req: Request): Result<Detail, Refusal> {
    var version := NewVersion(row, req);
    if version.None? || version.value == "" then Err(NoVersion)
    else if row.card.None? || row.card.value !in l.cards then Err(NoPinnedCard)
    else
      var pinned := row.card.value;
      var candidate := CardKey(pinned.roleKey, version.value);
      if candidate !in l.cards then Err(UnknownCard)
      else if !l.cards[candidate].active then Err(InactiveCard)
      else
        var compatible := Compatible(l.cards[pinned].semver, l.cards[candidate].semver);
        if !compatible && !(req.allowMajor && req.admin) then Err(Incompatible)
        else Ok(CardAdoption(pinned, candidate, compatible))
  }

  /** The gates of the target status, on the row as it was read. */
  function Gate(l: Ledger, row: Improvement, req: Request): Result<Detail, Refusal> {
    var evidence := AddRefs(row.evidence, req.refs);
    if req.to == Proposed && !Complete(row.narrative) then Err(NarrativeMissing)
    else if req.to == CanaryReady && evidence == [] then Err(EvidenceMissing)
    else if (req.to == CanaryRunning || req.to == Adopted) && !AllValid(evidence, req.valid) then Err(BadEvidence)
    else if req.to != Adopted then Ok(Note(req.note))
    else if row.parentApproved.None? || Voids(row, req) then Err(NoParentApproval)
    else if row.humanApproved.None? || Voids(row, req) then Err(NoHumanApproval)
    else if row.target == RoleCard then CardGate(l, row, req)
    else Ok(Handoff)
  }

  function Written(l: Ledger, row: Improvement, req: Request, detail: Detail): Ledger
    requires req.id in l.improvements
  {
    var updated := l.improvements[req.id].(
      status := req.to, evidence := AddRefs(row.evidence, req.refs), version := NewVersion(row, req));
    l.(improvements := l.improvements[req.id := updated],
       pins := if detail.CardAdoption? then l.pins[row.cell := detail.adopted] else l.pins,
       events := l.events + [StatusTransition(req.id, row.status, req.to, detail)])
  }

  function Transition(l: Ledger, req: Request): (Ledger, Option<Refusal>) {
    match EarlyRefusal(l, req)
    case Some(why) => (l, Some(why))
    case None =>
      var row := l.improvements[req.id];
      var mid := Voided(l, req);
      match Gate(l, row, req)
      case Err(why) => (mid, Some(why))
      case Ok(detail) =>
        var done := Written(mid, row, req, detail);
        (if req.to == Rejected then MaybeSuspend(done, row.cell) else done, None)
  }

  // ---- Approvals and rollback ----------------------------------------------

  /** `inScope`: the declared parent rosters the cell, or, for a root-level
      improvement, the actor is an administrator. */
  function ApprovalRefusal(l: Ledger, id: ImprovementId, actor: string, inScope: bool): Option<Refusal> {
    if Blank(actor) then Some(BlankActor)
    else if id !in l.improvements then Some(NotFound)
    else if l.improvements[id].suspended then Some(RowSuspended)
    else if !Open(l.improvements[id].status) then Some(Terminal)
    else if !inScope then Some(OutOfScope)
    else None
  }

  function ParentApproved(l: Ledger, id: ImprovementId, actor: string): Ledger
    requires id in l.improvements
  {
    l.(improvements := l.improvements[id := l.improvements[id].(parentApproved := Some(actor))],
       events := l.events + [ParentApproval(id, actor)])
  }

  function HumanApproved(l: Ledger, id: ImprovementId, actor: string): Ledger
    requires id in l.improvements
  {
    l.(improvements := l.improvements[id := l.improvements[id].(humanApproved := Some(actor))],
       events := l.events + [HumanApproval(id, actor)])
  }

  /** The detail of the latest adoption event of an improvement. */
  function LastAdoption(events: seq<Event>, id: ImprovementId): Option<Detail> {
    if events == [] then None
    else
      var e := events[|events| - 1];
      if e.StatusTransition? && e.id == id && e.to == Adopted then Some(e.detail)
      else LastAdoption(events[..|events| - 1], id)
  }

  function RollbackRefusal(l: Ledger, id: ImprovementId): Option<Refusal> {
    if id !in l.improvements then Some(NotFound)
    else
      var row := l.improvements[id];
      if row.status != Adopted || row.target != RoleCard then Some(NotAnAdoptedCard)
      else match LastAdoption(l.events, id)
        case None => Some(NothingRecorded)
        case Some(detail) =>
          if !detail.CardAdoption? then Some(NothingRecorded)
          else if row.cell !in l.pins || l.pins[row.cell] != detail.adopted then Some(PinSuperseded)
          else None
  }

  function RolledBackTo(l: Ledger, id: ImprovementId): Ledger
    requires RollbackRefusal(l, id).None?
  {
    var previous := LastAdoption(l.events, id).value.previous;
    l.(pins := l.pins[l.improvements[id].cell := previous], events := l.events + [RolledBack(id, previous)])
  }

  // ---- Runs ----------------------------------------------------------------

  datatype Action =
    | Create(cell: CellRow, target: Target, parent: Option<CellRow>, factsValid: bool, narrative: Narrative)
    | DraftStart(cell: CellRow, target: Target, parent: Option<CellRow>, factsValid: bool)
    | DraftFinish(draft: DraftId, produced: Option<Narrative>)   // None: the model call failed
    | Move(req: Request)
    | ApproveAsParent(id: ImprovementId, actor: string, inScope: bool)
    | ApproveAsHuman(id: ImprovementId, actor: string)
    | SuspendCell(cell: CellRow)
    | ResumeCell(cell: CellRow)
    | Rollback(id: ImprovementId)
    | AddCard(key: CardKey, card: Card)
    | SetCardActive(key: CardKey, active: bool)

  function Step(l: Ledger, a: Action): Ledger {
    match a
    case Create(c, target, parent, factsValid, narrative) =>
      (match Capture(l, c, target, parent, factsValid)
       case Ok(d) => Inserted(l, NewRow(d, narrative))
       case Err(_) => l)
    case DraftStart(c, target, parent, factsValid) =>
      (match Capture(l, c, target, parent, factsValid)
       case Ok(d) => l.(drafts := l.drafts[l.nextDraft := d], nextDraft := l.nextDraft + 1)
       case Err(_) => l)
    case DraftFinish(id, produced) =>
      if id !in l.drafts then l
      else
        var closed := l.(drafts := l.drafts - {id});
        if produced.Some? then Inserted(closed, NewRow(l.drafts[id], produced.value)) else closed
    case Move(req) => Transition(l, req).0
    case ApproveAsParent(id, actor, inScope) =>
      if ApprovalRefusal(l, id, actor, inScope).None? then ParentApproved(l, id, actor) else l
    case ApproveAsHuman(id, actor) =>
      if ApprovalRefusal(l, id, actor, true).None? then HumanApproved(l, id, actor) else l
    case SuspendCell(c) => if c in l.pins then Suspend(l, c) else l
    case ResumeCell(c) => if c in l.pins then Resume(l, c) else l
    case Rollback(id) => if RollbackRefusal(l, id).None? then RolledBackTo(l, id) else l
    case AddCard(key, card) =>
      if key in l.cards || !Versioned(key, card) then l else l.(cards := l.cards[key := card])
    case SetCardActive(key, active) =>
      if key in l.cards then l.(cards := l.cards[key := l.cards[key].(active := active)]) else l
  }

  function Run(l: Ledger, actions: seq<Action>): Ledger {
    if actions == [] then l else Step(Run(l, actions[..|actions| - 1]), actions[|actions| - 1])
  }

  ghost predicate AllVersioned(l: Ledger) {
    forall k | k in l.cards :: Versioned(k, l.cards[k])
  }

  /** Cells with existing cards, and no improvement yet. */
  ghost predicate Initial(l: Ledger) {
    l.improvements == map[] && l.events == [] && l.drafts == map[] && forall c | c in l.pins :: l.pins[c] in l.cards
  }
}
