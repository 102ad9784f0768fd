/** The improvement tables changed in place, one method per operation of
    cell_improvement.py.  Each is proved to be the ledger step it stands for. */
module ImprovementStore {
  import opened Wrappers
  import opened CardVersions
  import opened ImprovementLedger

  class Store {
    var improvements: map<ImprovementId, Improvement>
    var pins: map<CellRow, CardKey>
    var cards: map<CardKey, Card>
    var events: seq<Event>
    var drafts: map<DraftId, Draft>
    var nextId: ImprovementId
    var nextDraft: DraftId

    function Rows(): (l: Ledger)
      reads this
    {
      Ledger(improvements, pins, cards, events, drafts, nextId, nextDraft)
    }

    /** Walks the event history of the cell; an adoption resets the count. */
    method ConsecutiveRejectionCount(c: CellRow) returns (count: nat)
      ensures count == CellStreak(Rows(), c)
    {
      count := 0;
      for k := 0 to |events|
        invariant count == Streak(improvements, events[..k], c)
      {
        var e := events[k];
        if e.StatusTransition? && e.id in improvements && improvements[e.id].cell == c {
          if e.to == Adopted {
            count := 0;
          } else if e.to == Rejected {
            count := count + 1;
          }
        }
        assert events[..k + 1][..k] == events[..k];
      }
      assert events[..|events|] == events;
    }

    method SetSuspended(ids: set<ImprovementId>, flag: bool)
      requires ids <= improvements.Keys
      modifies this`improvements
      ensures improvements == WithSuspension(old(improvements), ids, flag)
    {
      var rest := ids;
      while rest != {}
        invariant rest <= ids && improvements.Keys == old(improvements).Keys
        invariant improvements == WithSuspension(old(improvements), ids - rest, flag)
        decreases rest
      {
        var i :| i in rest;
        improvements := improvements[i := improvements[i].(suspended := flag)];
        rest := rest - {i};
      }
      assert ids - {} == ids;
    }

    method SuspendImprovements(c: CellRow) returns (r: Result<set<ImprovementId>, Refusal>)
      modifies this`improvements, this`events
      ensures Rows() == Step(old(Rows()), SuspendCell(c))
      ensures r == if c in pins then Ok(OpenActive(old(Rows()), c)) else Err(NotFound)
      ensures r.Ok? ==>
                && (forall i | i in old(improvements) ::
                      && (i in r.value <==>
                            && old(improvements)[i].cell == c && !old(improvements)[i].suspended
                            && old(improvements)[i].status != Adopted && old(improvements)[i].status != Rejected)
                      && i in improvements && improvements[i] == if i in r.value then old(improvements)[i].(suspended := true)
                                                                 else old(improvements)[i])
    {
      if c !in pins {
        return Err(NotFound);
      }
      var ids := OpenActive(Rows(), c);
      SetSuspended(ids, true);
      events := events + [SuspendedEvent(ids)];
      return Ok(ids);
    }

    method ResumeImprovements(c: CellRow) returns (r: Result<set<ImprovementId>, Refusal>)
      modifies this`improvements, this`events
      ensures Rows() == Step(old(Rows()), ResumeCell(c))
      ensures r == if c in pins then Ok(SuspendedRows(old(Rows()), c)) else Err(NotFound)
      ensures r.Ok? ==>
                forall i | i in old(improvements) ::
                  && (i in r.value <==> old(improvements)[i].cell == c && old(improvements)[i].suspended)
                  && i in improvements && improvements[i] == if old(improvements)[i].cell == c
                                                             then old(improvements)[i].(suspended := false)
                                                             else old(improvements)[i]
    {
      if c !in pins {
        return Err(NotFound);
      }
      var ids := SuspendedRows(Rows(), c);
      SetSuspended(ids, false);
      events := events + [ResumedEvent(ids)];
      return Ok(ids);
    }

    method RecordFailureAndMaybeSuspend(c: CellRow) returns (fired: bool)
      requires c in pins
      modifies this`improvements, this`events
      ensures Rows() == MaybeSuspend(old(Rows()), c)
      ensures fired <==> CellStreak(old(Rows()), c) >= 3
    {
      var count := ConsecutiveRejectionCount(c);
      if count >= REJECTION_THRESHOLD {
        var _ := SuspendImprovements(c);
        return true;
      }
      return false;
    }

    method CreateImprovementManual(c: CellRow, target: Target, parent: Option<CellRow>, factsValid: bool, narrative: Narrative)
      returns (r: Result<ImprovementId, Refusal>)
      modifies this`improvements, this`events, this`nextId
      ensures Rows() == Step(old(Rows()), Create(c, target, parent, factsValid, narrative))
      ensures var short, known := CellStreak(old(Rows()), c) < 3, parent.None? || parent.value in pins;
              && (r == Err(NotFound) <==> c !in pins || (short && !known))
              && (r == Err(TooManyRejections) <==> c in pins && !short)
              && (r == Err(BadEvidence) <==> c in pins && short && known && !factsValid)
              && (r.Ok? <==> c in pins && short && known && factsValid)
      ensures r.Ok? ==>
                && r.value == old(nextId) && events == old(events) + [CreatedEvent(r.value)]
                && improvements == old(improvements)[r.value := Improvement(
                     c, Observed, target, narrative, if target == RoleCard then Some(pins[c]) else None, parent,
                     [], None, None, None, false)]
    {
      if c !in pins {
        return Err(NotFound);
      }
      var count := ConsecutiveRejectionCount(c);
      if count >= REJECTION_THRESHOLD {
        return Err(TooManyRejections);
      }
      if parent.Some? && parent.value !in pins {
        return Err(NotFound);
      }
      if !factsValid {
        return Err(BadEvidence);
      }
      var card := if target == RoleCard then Some(pins[c]) else None;
      var id := nextId;
      improvements := improvements[
        id := Improvement(c, Observed, target, narrative, card, parent, [], None, None, None, false)];
      nextId := nextId + 1;
      events := events + [CreatedEvent(id)];
      return Ok(id);
    }

    /** The read phase of a draft: what the write phase will insert is fixed here. */
    method StartDraft(c: CellRow, target: Target, parent: Option<CellRow>, factsValid: bool) returns (r: Option<DraftId>)
      modifies this`drafts, this`nextDraft
      ensures Rows() == Step(old(Rows()), DraftStart(c, target, parent, factsValid))
      ensures r == if c in pins && CellStreak(old(Rows()), c) < 3 && (parent.None? || parent.value in pins) && factsValid
                   then Some(old(nextDraft)) else None
      ensures r.Some? ==> drafts == old(drafts)[r.value := Draft(c, target, if target == RoleCard then Some(pins[c]) else None, parent)]
    {
      if c !in pins {
        return None;
      }
      var count := ConsecutiveRejectionCount(c);
      if count >= REJECTION_THRESHOLD || !factsValid || (parent.Some? && parent.value !in pins) {
        return None;
      }
      r := Some(nextDraft);
      drafts := drafts[nextDraft := Draft(c, target, if target == RoleCard then Some(pins[c]) else None, parent)];
      nextDraft := nextDraft + 1;
    }

    /** The write phase, after the model call: nothing is read again. */
    method FinishDraft(id: DraftId, produced: Option<Narrative>) returns (r: Option<ImprovementId>)
      requires id in drafts
      modifies this`drafts, this`improvements, this`events, this`nextId
      ensures Rows() == Step(old(Rows()), DraftFinish(id, produced))
      ensures r == if produced.Some? then Some(old(nextId)) else None
      ensures r.Some? ==>
                && events == old(events) + [CreatedEvent(r.value)]
                && improvements == old(improvements)[r.value := Improvement(
                     old(drafts)[id].cell, Observed, old(drafts)[id].target, produced.value, old(drafts)[id].card,
                     old(drafts)[id].parent, [], None, None, None, false)]
    {
      var d := drafts[id];
      drafts := drafts - {id};
      r := None;
      if produced.Some? {
        r := Some(nextId);
        improvements := improvements[nextId := NewRow(d, produced.value)];
        events := events + [CreatedEvent(nextId)];
        nextId := nextId + 1;
      }
    }

    /** The checked canary refs, added to the evidence they are not yet in. */
    method ExtendEvidence(existing: seq<Ref>, refs: seq<Ref>, valid: set<Ref>) returns (r: Result<seq<Ref>, Refusal>)
      ensures r == if AllValid(refs, valid) then Ok(AddRefs(existing, refs)) else Err(BadEvidence)
    {
      var updated := existing;
      for k := 0 to |refs|
        invariant AllValid(refs[..k], valid) && AddRefs(updated, refs[k..]) == AddRefs(existing, refs)
      {
        if refs[k] !in valid {
          assert refs[k] in refs;
          return Err(BadEvidence);
        }
        assert refs[..k + 1] == refs[..k] + [refs[k]] && refs[k..][1..] == refs[k + 1..];
        if refs[k] !in updated {
          updated := updated + [refs[k]];
        }
      }
      assert refs[..|refs|] == refs;
      return Ok(updated);
    }

    /** A cell may not change its own grading rubric. */
    method CheckRubric(row: Improvement, version: string) returns (refusal: Option<Refusal>)
      ensures refusal == RubricRefusal(Rows(), row, version)
    {
      if row.card.None? || row.card.value !in cards {
        return Some(NoPinnedCard);
      }
      var candidate := CardKey(row.card.value.roleKey, version);
      if candidate !in cards {
        return Some(UnknownCard);
      }
      if cards[candidate].rubric != cards[row.card.value].rubric && row.parent.None? {
        return Some(RubricOwnedByParent);
      }
      return None;
    }

    /** The gate on a role card, comparing the version texts. */
    method CheckCard(row: Improvement, version: Option<string>, override: bool) returns (r: Result<Detail, Refusal>)
      requires AllVersioned(Rows())
      ensures forall req: Request | NewVersion(row, req) == version && (req.allowMajor && req.admin) == override ::
                r == CardGate(Rows(), row, req)
      ensures r.Ok? && !override ==>
                r.value.CardAdoption? && VersionsCompatible(r.value.previous.version, r.value.adopted.version) == Some(true)
    {
      if version.None? || version.value == "" {
        return Err(NoVersion);
      }
      if row.card.None? || row.card.value !in cards {
        return Err(NoPinnedCard);
      }
      var pinned := row.card.value;
      var candidate := CardKey(pinned.roleKey, version.value);
      if candidate !in cards {
        return Err(UnknownCard);
      }
      if !cards[candidate].active {
        return Err(InactiveCard);
      }
      assert Versioned(pinned, cards[pinned]) && Versioned(candidate, cards[candidate]);
      var compatible := VersionsCompatible(pinned.version, candidate.version).value;
      if !compatible && !override {
        return Err(Incompatible);
      }
      return Ok(CardAdoption(pinned, candidate, compatible));
    }

    /** The checks made before anything is written; the evidence and version the
        transition would leave. */
    method CheckRequest(req: Request) returns (r: Result<(seq<Ref>, Option<string>), Refusal>)
      ensures match EarlyRefusal(Rows(), req)
              case Some(why) => r == Err(why)
              case None =>
                r == Ok((AddRefs(improvements[req.id].evidence, req.refs), NewVersion(improvements[req.id], req)))
    {
      if req.id !in improvements {
        return Err(NotFound);
      }
      var row := improvements[req.id];
      if row.suspended {
        return Err(RowSuspended);
      }
      if !Allowed(row.status, req.to) {
        return Err(IllegalTransition);
      }
      var extended := ExtendEvidence(row.evidence, req.refs, req.valid);
      if extended.Err? {
        return Err(extended.error);
      }
      var version := row.version;
      if req.version.Some? {
        if row.target == RoleCard {
          var owned := CheckRubric(row, req.version.value);
          if owned.Some? {
            return Err(owned.value);
          }
        }
        version := req.version;
      }
      return Ok((extended.value, version));
    }

    /** The gates of the target status, on the row as it was read. */
    method CheckGate(row: Improvement, req: Request, evidence: seq<Ref>, version: Option<string>, invalidate: bool)
      returns (r: Result<Detail, Refusal>)
      requires AllVersioned(Rows())
      requires evidence == AddRefs(row.evidence, req.refs) && version == NewVersion(row, req) && invalidate == Voids(row, req)
      ensures r == Gate(Rows(), row, req)
    {
      if req.to == Proposed && !Complete(row.narrative) {
        return Err(NarrativeMissing);
      }
      if req.to == CanaryReady && evidence == [] {
        return Err(EvidenceMissing);
      }
      if (req.to == CanaryRunning || req.to == Adopted) && !AllValid(evidence, req.valid) {
        return Err(BadEvidence);
      }
      if req.to != Adopted {
        return Ok(Note(req.note));
      }
      if row.parentApproved.None? || invalidate {
        return Err(NoParentApproval);
      }
      if row.humanApproved.None? || invalidate {
        return Err(NoHumanApproval);
      }
      if row.target == RoleCard {
        r := CheckCard(row, version, req.allowMajor && req.admin);
      } else {
        r := Ok(Handoff);
      }
    }

    method TransitionImprovement(req: Request) returns (refusal: Option<Refusal>)
      requires (forall i | i in improvements :: improvements[i].cell in pins) && AllVersioned(Rows())
      modifies this`improvements, this`pins, this`events
      ensures (Rows(), refusal) == Transition(old(Rows()), req)
    {
      var checked := CheckRequest(req);
      if checked.Err? {
        return Some(checked.error);
      }
      var row := improvements[req.id];
      var (evidence, version) := checked.value;
      var contentChanged := version != row.version || evidence != row.evidence;
      var invalidate := contentChanged && (row.parentApproved.Some? || row.humanApproved.Some?);
      if invalidate {
        improvements := improvements[req.id := row.(parentApproved := None, humanApproved := None)];
        events := events + [ApprovalsInvalidated(req.id)];
      }
      assert Rows() == Voided(old(Rows()), req);
      GateReadsCards(Rows(), old(Rows()), row, req);
      var gate := CheckGate(row, req, evidence, version, invalidate);
      if gate.Err? {
        return Some(gate.error);
      }
      WriteTransition(row, req, evidence, version, gate.value);
      if req.to == Rejected {
        var _ := RecordFailureAndMaybeSuspend(row.cell);
      }
      return None;
    }

    method WriteTransition(row: Improvement, req: Request, evidence: seq<Ref>, version: Option<string>, detail: Detail)
      requires req.id in improvements
      requires evidence == AddRefs(row.evidence, req.refs) && version == NewVersion(row, req)
      modifies this`improvements, this`pins, this`events
      ensures Rows() == Written(old(Rows()), row, req, detail)
    {
      improvements := improvements[req.id := improvements[req.id].(status := req.to, evidence := evidence, version := version)];
      if detail.CardAdoption? {
        pins := pins[row.cell := detail.adopted];
      }
      events := events + [StatusTransition(req.id, row.status, req.to, detail)];
    }

    /** Suspended and terminal rows take no approval. */
    method EnsureApprovable(row: Improvement) returns (refusal: Option<Refusal>)
      ensures refusal.None? <==> !row.suspended && Open(row.status)
      ensures refusal == Some(RowSuspended) <==> row.suspended
      ensures refusal == Some(Terminal) <==> !row.suspended && (row.status == Adopted || row.status == Rejected)
    {
      if row.suspended {
        return Some(RowSuspended);
      }
      if row.status == Adopted || row.status == Rejected {
        return Some(Terminal);
      }
      return None;
    }

    /** A root-level improvement needs an administrator, any other a declared parent that
        rosters the cell itself.  `rosters` holds the orchestrators' rosters. */
    method ParentScope(row: Improvement, admin: bool, rosters: map<CellRow, seq<CellRow>>) returns (refusal: Option<Refusal>)
      ensures refusal == if ParentInScope(row, admin, rosters) then None else Some(OutOfScope)
      ensures refusal.None? <==>
                if row.parent.None? then admin
                else row.parent.value in rosters
                     && exists k :: 0 <= k < |rosters[row.parent.value]| && rosters[row.parent.value][k] == row.cell
    {
      if row.parent.None? {
        return if admin then None else Some(OutOfScope);
      }
      if row.parent.value !in rosters {
        return Some(OutOfScope);
      }
      for k := 0 to |rosters[row.parent.value]|
        invariant forall j | 0 <= j < k :: rosters[row.parent.value][j] != row.cell
      {
        if rosters[row.parent.value][k] == row.cell {
          return None;
        }
      }
      return Some(OutOfScope);
    }

    /** Granted exactly to a named actor in scope, for an open row that is not suspended.
        It then signs that one row, whose version and evidence it covers, and no other
        approval, row, pin or event changes.  A refusal names the first check that fails. */
    method ParentApprove(id: ImprovementId, actor: string, admin: bool, rosters: map<CellRow, seq<CellRow>>)
      returns (refusal: Option<Refusal>)
      modifies this`improvements, this`events
      ensures refusal == Some(BlankActor) <==> Blank(actor)
      ensures refusal == Some(NotFound) <==> !Blank(actor) && id !in old(improvements)
      ensures refusal == Some(RowSuspended) <==> !Blank(actor) && id in old(improvements) && old(improvements)[id].suspended
      ensures refusal == Some(Terminal) <==>
                !Blank(actor) && id in old(improvements) && !old(improvements)[id].suspended && !Open(old(improvements)[id].status)
      ensures refusal.None? <==>
                && !Blank(actor) && Approvable(old(Rows()), id)
                && ParentInScope(old(improvements)[id], admin, rosters)
      ensures refusal.None? ==>
                && improvements.Keys == old(improvements).Keys
                && (forall i | i in improvements && i != id :: improvements[i] == old(improvements)[i])
                && improvements[id].parentApproved == Some(actor)
                && improvements[id].(parentApproved := None) == old(improvements)[id].(parentApproved := None)
                && events == old(events) + [ParentApproval(id, actor)]
      ensures refusal.Some? ==> Rows() == old(Rows())
      ensures Rows() == Step(old(Rows()), ApproveAsParent(id, actor, id in old(improvements)
                                                                     && ParentInScope(old(improvements)[id], admin, rosters)))
    {
      if Blank(actor) {
        return Some(BlankActor);
      }
      if id !in improvements {
        return Some(NotFound);
      }
      var row := improvements[id];
      refusal := EnsureApprovable(row);
      if refusal.Some? {
        return;
      }
      refusal := ParentScope(row, admin, rosters);
      if refusal.Some? {
        return;
      }
      improvements := improvements[id := row.(parentApproved := Some(actor))];
      events := events + [ParentApproval(id, actor)];
    }

    /** The same without a scope: any named actor. */
    method HumanApprove(id: ImprovementId, actor: string) returns (refusal: Option<Refusal>)
      modifies this`improvements, this`events
      ensures refusal == Some(BlankActor) <==> Blank(actor)
      ensures refusal == Some(NotFound) <==> !Blank(actor) && id !in old(improvements)
      ensures refusal == Some(RowSuspended) <==> !Blank(actor) && id in old(improvements) && old(improvements)[id].suspended
      ensures refusal == Some(Terminal) <==>
                !Blank(actor) && id in old(improvements) && !old(improvements)[id].suspended && !Open(old(improvements)[id].status)
      ensures refusal.None? <==> !Blank(actor) && Approvable(old(Rows()), id)
      ensures refusal.None? ==>
                && improvements.Keys == old(improvements).Keys
                && (forall i | i in improvements && i != id :: improvements[i] == old(improvements)[i])
                && improvements[id].humanApproved == Some(actor)
                && improvements[id].(humanApproved := None) == old(improvements)[id].(humanApproved := None)
                && events == old(events) + [HumanApproval(id, actor)]
      ensures refusal.Some? ==> Rows() == old(Rows())
      ensures Rows() == Step(old(Rows()), ApproveAsHuman(id, actor))
    {
      if Blank(actor) {
        return Some(BlankActor);
      }
      if id !in improvements {
        return Some(NotFound);
      }
      var row := improvements[id];
      refusal := EnsureApprovable(row);
      if refusal.Some? {
        return;
      }
      improvements := improvements[id := row.(humanApproved := Some(actor))];
      events := events + [HumanApproval(id, actor)];
    }

    /** The newest adoption event of an improvement, found from the newest row back. */
    method NewestAdoption(id: ImprovementId) returns (at: Option<nat>)
      ensures at.Some? ==> IsNewestAdoption(events, id, at.value)
      ensures at.None? ==> forall k | 0 <= k < |events| :: !Adopts(events[k], id)
    {
      var k: nat := |events|;
      while k > 0
        invariant k <= |events| && forall j | k <= j < |events| :: !Adopts(events[j], id)
      {
        k := k - 1;
        if Adopts(events[k], id) {
          return Some(k);
        }
      }
      return None;
    }

    /** Allowed exactly for an adopted role card whose newest adoption recorded both cards
        and whose adopted card is still the pin.  It then moves the pin of that one cell
        to the card recorded as previous, and returns it. */
    method RollbackRoleCard(id: ImprovementId) returns (r: Result<CardKey, Refusal>)
      modifies this`pins, this`events
      ensures r == Err(NotFound) <==> id !in old(improvements)
      ensures r == Err(NotAnAdoptedCard) <==>
                id in old(improvements) && (old(improvements)[id].status != Adopted || old(improvements)[id].target != RoleCard)
      ensures r.Ok? <==>
                && id in old(improvements) && old(improvements)[id].status == Adopted && old(improvements)[id].target == RoleCard
                && exists k: nat :: IsNewestAdoption(old(events), id, k) && StillPinned(old(Rows()), old(improvements)[id].cell, k)
      ensures r == Err(PinSuperseded) <==>
                && id in old(improvements) && old(improvements)[id].status == Adopted && old(improvements)[id].target == RoleCard
                && exists k: nat :: IsNewestAdoption(old(events), id, k) && old(events)[k].detail.CardAdoption?
                                    && !StillPinned(old(Rows()), old(improvements)[id].cell, k)
      ensures r.Ok? ==>
                && pins == old(pins)[improvements[id].cell := r.value]
                && events == old(events) + [RolledBack(id, r.value)]
                && (forall k: nat | IsNewestAdoption(old(events), id, k) ::
                      old(events)[k].detail.CardAdoption? && r.value == old(events)[k].detail.previous)
      ensures r.Err? ==> Rows() == old(Rows())
      ensures Rows() == Step(old(Rows()), Rollback(id))
    {
      if id !in improvements {
        return Err(NotFound);
      }
      var row := improvements[id];
      if row.status != Adopted || row.target != RoleCard {
        return Err(NotAnAdoptedCard);
      }
      var at := NewestAdoption(id);
      NewestIsLast(events, id);
      if at.None? {
        return Err(NothingRecorded);
      }
      var detail := events[at.value].detail;
      if !detail.CardAdoption? {
        return Err(NothingRecorded);
      }
      if row.cell !in pins || pins[row.cell] != detail.adopted {
        return Err(PinSuperseded);
      }
      pins := pins[row.cell := detail.previous];
      events := events + [RolledBack(id, detail.previous)];
      return Ok(detail.previous);
    }
  }

  /** Of the ledger the gates read the cards only. */
  lemma GateReadsCards(l: Ledger, l': Ledger, row: Improvement, req: Request)
    requires l.cards == l'.cards
    ensures Gate(l, row, req) == Gate(l', row, req) && AllVersioned(l) == AllVersioned(l')
  {
    CardGateReadsCards(l, l', row, req);
  }

  lemma CardGateReadsCards(l: Ledger, l': Ledger, row: Improvement, req: Request)
    requires l.cards == l'.cards
    ensures CardGate(l, row, req) == CardGate(l', row, req)
  {
  }

  predicate ParentInScope(row: Improvement, admin: bool, rosters: map<CellRow, seq<CellRow>>) {
    if row.parent.None? then admin
    else row.parent.value in rosters && row.cell in rosters[row.parent.value]
  }

  predicate Approvable(l: Ledger, id: ImprovementId) {
    id in l.improvements && !l.improvements[id].suspended && Open(l.improvements[id].status)
  }

  predicate Adopts(e: Event, id: ImprovementId) {
    e.StatusTransition? && e.id == id && e.to == Adopted
  }

  ghost predicate IsNewestAdoption(events: seq<Event>, id: ImprovementId, k: nat) {
    k < |events| && Adopts(events[k], id) && forall j | k < j < |events| :: !Adopts(events[j], id)
  }

  /** Event `k` recorded a card adoption, and the cell still pins the card it adopted. */
  ghost predicate StillPinned(l: Ledger, c: CellRow, k: nat) {
    && k < |l.events| && l.events[k].StatusTransition? && l.events[k].detail.CardAdoption?
    && c in l.pins && l.pins[c] == l.events[k].detail.adopted
  }

  lemma {:induction false} NewestIsLast(events: seq<Event>, id: ImprovementId)
    ensures forall k: nat | IsNewestAdoption(events, id, k) :: LastAdoption(events, id) == Some(events[k].detail)
    ensures (forall k | 0 <= k < |events| :: !Adopts(events[k], id)) ==> LastAdoption(events, id) == None
  {
    if events != [] {
      var n := |events| - 1;
      NewestIsLast(events[..n], id);
      forall k: nat | IsNewestAdoption(events, id, k) ensures LastAdoption(events, id) == Some(events[k].detail) {
        assert k < n ==> IsNewestAdoption(events[..n], id, k);
      }
      assert forall k | 0 <= k < n :: events[..n][k] == events[k];
    }
  }
}
