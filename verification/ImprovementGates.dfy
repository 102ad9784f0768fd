/** Every gate of a transition (cell_improvement.py) said of the row and the request
    alone: when the call goes through, which refusal it is when it does not, and what
    either leaves behind. */
module ImprovementGates {
  import opened Wrappers
  import opened ImprovementLedger
  import opened ImprovementRuns
  import opened ImprovementPath

  // ---- What the gates ask --------------------------------------------------

  predicate Resolve(refs: seq<Ref>, valid: set<Ref>) {
    forall k | 0 <= k < |refs| :: refs[k] in valid
  }

  /** The call names another version, or evidence the row does not hold. */
  predicate Changes(row: Improvement, req: Request) {
    (req.version.Some? && req.version != row.version) || exists k | 0 <= k < |req.refs| :: req.refs[k] !in row.evidence
  }

  predicate OwnCard(l: Ledger, row: Improvement) {
    row.card.Some? && row.card.value in l.cards
  }

  /** The version is one of a stored card of the row's own role. */
  predicate Stored(l: Ledger, row: Improvement, version: Option<string>) {
    OwnCard(l, row) && version.Some? && CardKey(row.card.value.roleKey, version.value) in l.cards
  }

  /** Its rubric differs from the present one, and there is no parent to own it. */
  predicate Regrades(l: Ledger, row: Improvement, version: Option<string>)
    requires Stored(l, row, version)
  {
    l.cards[CardKey(row.card.value.roleKey, version.value)].rubric != l.cards[row.card.value].rubric && row.parent.None?
  }

  predicate NamesCard(row: Improvement, req: Request) {
    req.version.Some? && row.target == RoleCard
  }

  /** The call passes everything that is looked at before anything is written. */
  predicate Admitted(l: Ledger, row: Improvement, req: Request) {
    && !row.suspended && (row.status, req.to) in EDGES && Resolve(req.refs, req.valid)
    && (NamesCard(row, req) ==> Stored(l, row, req.version) && !Regrades(l, row, req.version))
  }

  predicate Told(n: Narrative) {
    HasText(n.hypothesis) && HasText(n.expectedEffect) && HasText(n.risk) && HasText(n.rollbackPlan)
  }

  /** Both approvals are on record for what would be adopted, on evidence that still holds. */
  predicate Signed(row: Improvement, req: Request) {
    && Resolve(row.evidence, req.valid) && !Changes(row, req)
    && row.parentApproved.Some? && row.humanApproved.Some?
  }

  predicate Named(row: Improvement) {
    row.version.Some? && row.version.value != ""
  }

  /** The proposed card is active, and of the same major version and no older. */
  predicate Follows(own: Card, next: Card) {
    && next.semver.major == own.semver.major
    && (next.semver.minor > own.semver.minor
        || (next.semver.minor == own.semver.minor && next.semver.patch >= own.semver.patch))
  }

  // ---- The evidence a call leaves ------------------------------------------

  /** The row's evidence stays in front; after it comes each new ref of the call once. */
  lemma {:induction false} EvidenceAfter(evidence: seq<Ref>, refs: seq<Ref>)
    ensures var all := AddRefs(evidence, refs);
            && evidence <= all && (forall r :: r in all <==> r in evidence || r in refs)
            && (forall i, j | |evidence| <= i < j < |all| :: all[i] != all[j])
            && (forall i | |evidence| <= i < |all| :: all[i] !in evidence)
    ensures AddRefs(evidence, refs) == evidence <==> forall k | 0 <= k < |refs| :: refs[k] in evidence
    decreases refs
  {
    if refs != [] {
      var first := if refs[0] in evidence then evidence else evidence + [refs[0]];
      EvidenceAfter(first, refs[1..]);
      assert refs == [refs[0]] + refs[1..];
      assert first <= AddRefs(evidence, refs);
    }
  }

  lemma EvidenceFacts(row: Improvement, req: Request)
    ensures ContentChanges(row, req) <==> Changes(row, req)
    ensures AddRefs(row.evidence, req.refs) == [] <==> row.evidence == [] && req.refs == []
    ensures AllValid(req.refs, req.valid) <==> Resolve(req.refs, req.valid)
    ensures AllValid(req.refs, req.valid) ==>
              (AllValid(AddRefs(row.evidence, req.refs), req.valid) <==> Resolve(row.evidence, req.valid))
  {
    EvidenceAfter(row.evidence, req.refs);
    assert forall k | 0 <= k < |req.refs| :: req.refs[k] in req.refs;
    assert forall k | 0 <= k < |row.evidence| :: row.evidence[k] in row.evidence;
  }

  // ---- Which refusal -------------------------------------------------------

  lemma AdmittedExactly(l: Ledger, req: Request)
    requires req.id in l.improvements
    ensures var row, why := l.improvements[req.id], EarlyRefusal(l, req);
            var legal := !row.suspended && (row.status, req.to) in EDGES;
            && (why.None? <==> Admitted(l, row, req))
            && (why == Some(RowSuspended) <==> row.suspended)
            && (why == Some(IllegalTransition) <==> !row.suspended && !legal)
            && (why == Some(BadEvidence) <==> legal && !Resolve(req.refs, req.valid))
            && (why == Some(NoPinnedCard) <==>
                  legal && Resolve(req.refs, req.valid) && NamesCard(row, req) && !OwnCard(l, row))
            && (why == Some(UnknownCard) <==>
                  legal && Resolve(req.refs, req.valid) && NamesCard(row, req) && OwnCard(l, row) && !Stored(l, row, req.version))
            && (why == Some(RubricOwnedByParent) <==>
                  && legal && Resolve(req.refs, req.valid) && NamesCard(row, req)
                  && Stored(l, row, req.version) && Regrades(l, row, req.version))
            && (why.Some? ==> why.value in {RowSuspended, IllegalTransition, BadEvidence, NoPinnedCard, UnknownCard, RubricOwnedByParent})
  {
    EvidenceFacts(l.improvements[req.id], req);
  }

  lemma CardGateExactly(l: Ledger, row: Improvement, req: Request)
    requires NewVersion(row, req) == row.version
    ensures var gate := CardGate(l, row, req);
            var active := Stored(l, row, row.version) && l.cards[CardKey(row.card.value.roleKey, row.version.value)].active;
            var fits := active && (Follows(l.cards[row.card.value], l.cards[CardKey(row.card.value.roleKey, row.version.value)])
                                   || (req.allowMajor && req.admin));
            && (gate.Ok? <==> Named(row) && fits)
            && (gate.Ok? ==> gate.value.CardAdoption? && gate.value.adopted == CardKey(row.card.value.roleKey, row.version.value))
            && (gate == Err(NoVersion) <==> !Named(row))
            && (gate == Err(NoPinnedCard) <==> Named(row) && !OwnCard(l, row))
            && (gate == Err(UnknownCard) <==> Named(row) && OwnCard(l, row) && !Stored(l, row, row.version))
            && (gate == Err(InactiveCard) <==> Named(row) && Stored(l, row, row.version) && !active)
            && (gate == Err(Incompatible) <==> Named(row) && active && !fits)
            && (gate.Err? ==> gate.error in {NoVersion, NoPinnedCard, UnknownCard, InactiveCard, Incompatible})
  {
  }

  lemma GateExactly(l: Ledger, row: Improvement, req: Request)
    requires Admitted(l, row, req)
    ensures var gate, card := Gate(l, row, req), CardGate(l, row, req);
            var resolved := Resolve(row.evidence, req.valid);
            && (gate.Ok? <==>
                  && (req.to == Proposed ==> Told(row.narrative))
                  && (req.to == CanaryReady ==> row.evidence != [] || req.refs != [])
                  && (req.to == CanaryRunning ==> resolved)
                  && (req.to == Adopted ==> Signed(row, req) && (row.target == RoleCard ==> card.Ok?)))
            && (gate == Err(NarrativeMissing) <==> req.to == Proposed && !Told(row.narrative))
            && (gate == Err(EvidenceMissing) <==> req.to == CanaryReady && row.evidence == [] && req.refs == [])
            && (gate == Err(BadEvidence) <==> req.to in {CanaryRunning, Adopted} && !resolved)
            && (gate == Err(NoParentApproval) <==>
                  req.to == Adopted && resolved && (row.parentApproved.None? || Changes(row, req)))
            && (gate == Err(NoHumanApproval) <==>
                  req.to == Adopted && resolved && row.parentApproved.Some? && !Changes(row, req) && row.humanApproved.None?)
            && (gate.Err? && gate.error !in {NarrativeMissing, EvidenceMissing, BadEvidence, NoParentApproval, NoHumanApproval} ==>
                  gate == card)
            && (req.to == Adopted && Signed(row, req) && row.target == RoleCard ==> gate == card)
            && (req.to == Adopted && Signed(row, req) && row.target == CandidatePatch ==> gate == Ok(Handoff))
            && (gate.Ok? && req.to != Adopted ==> gate.value.Note?)
            && (Signed(row, req) ==> NewVersion(row, req) == row.version)
  {
    EvidenceFacts(row, req);
    CardGateExactly(l, row.(version := NewVersion(row, req)), req);
  }

  /** A transition call goes through exactly when the row is not suspended, the two
      statuses are joined by an edge, the refs resolve and the target's gate is met. */
  lemma AcceptedExactly(l: Ledger, req: Request)
    ensures Transition(l, req).1 == Some(NotFound) <==> req.id !in l.improvements
    ensures Transition(l, req).1.None? <==>
              && req.id in l.improvements
              && var row := l.improvements[req.id];
              && Admitted(l, row, req)
              && (req.to == Proposed ==> Told(row.narrative))
              && (req.to == CanaryReady ==> row.evidence != [] || req.refs != [])
              && (req.to == CanaryRunning ==> Resolve(row.evidence, req.valid))
              && (req.to == Adopted ==> Signed(row, req) && (row.target == RoleCard ==> MayAdopt(l, row, req)))
  {
    if req.id in l.improvements {
      var row := l.improvements[req.id];
      AdmittedExactly(l, req);
      if Admitted(l, row, req) {
        GateExactly(l, row, req);
        if Signed(row, req) { CardGateExactly(l, row, req); }
      }
    }
  }

  predicate MayAdopt(l: Ledger, row: Improvement, req: Request) {
    && Named(row) && Stored(l, row, row.version)
    && var next := l.cards[CardKey(row.card.value.roleKey, row.version.value)];
    && next.active && (Follows(l.cards[row.card.value], next) || (req.allowMajor && req.admin))
  }

  /** The refusal of a call that does not go through. */
  lemma RefusedExactly(l: Ledger, req: Request)
    requires req.id in l.improvements
    ensures var row, why := l.improvements[req.id], Transition(l, req).1;
            var legal := !row.suspended && (row.status, req.to) in EDGES;
            var resolved := legal && Resolve(req.refs, req.valid);
            var admitted := Admitted(l, row, req);
            var adopts := admitted && req.to == Adopted && Signed(row, req) && row.target == RoleCard;
            && (why == Some(RowSuspended) <==> row.suspended)
            && (why == Some(IllegalTransition) <==> !row.suspended && !legal)
            && (why == Some(BadEvidence) <==>
                  (legal && !resolved)
                  || (admitted && req.to in {CanaryRunning, Adopted} && !Resolve(row.evidence, req.valid)))
            && (why == Some(RubricOwnedByParent) <==>
                  resolved && NamesCard(row, req) && Stored(l, row, req.version) && Regrades(l, row, req.version))
            && (why == Some(NarrativeMissing) <==> admitted && req.to == Proposed && !Told(row.narrative))
            && (why == Some(EvidenceMissing) <==>
                  admitted && req.to == CanaryReady && row.evidence == [] && req.refs == [])
            && (why == Some(NoParentApproval) <==>
                  && admitted && req.to == Adopted && Resolve(row.evidence, req.valid)
                  && (row.parentApproved.None? || Changes(row, req)))
            && (why == Some(NoHumanApproval) <==>
                  && admitted && req.to == Adopted && Resolve(row.evidence, req.valid)
                  && row.parentApproved.Some? && !Changes(row, req) && row.humanApproved.None?)
            && (why == Some(NoVersion) <==> adopts && !Named(row))
            && (why == Some(NoPinnedCard) <==>
                  (resolved && NamesCard(row, req) && !OwnCard(l, row)) || (adopts && Named(row) && !OwnCard(l, row)))
            && (why == Some(UnknownCard) <==>
                  (resolved && NamesCard(row, req) && OwnCard(l, row) && !Stored(l, row, req.version))
                  || (adopts && Named(row) && OwnCard(l, row) && !Stored(l, row, row.version)))
            && (why == Some(InactiveCard) <==>
                  && adopts && Named(row) && Stored(l, row, row.version)
                  && !l.cards[CardKey(row.card.value.roleKey, row.version.value)].active)
            && (why == Some(Incompatible) <==>
                  && adopts && Named(row) && Stored(l, row, row.version) && !MayAdopt(l, row, req)
                  && l.cards[CardKey(row.card.value.roleKey, row.version.value)].active)
  {
    var row := l.improvements[req.id];
    AdmittedExactly(l, req);
    if Admitted(l, row, req) {
      GateExactly(l, row, req);
      if Signed(row, req) { CardGateExactly(l, row, req); }
    }
  }

  // ---- What it leaves ------------------------------------------------------

  /** A call that goes through moves its row to the target with the version and evidence
      it names, and without the approvals if it changed either; a refused one leaves no
      more than lost approvals. */
  lemma TransitionLeaves(l: Ledger, req: Request)
    requires req.id in l.improvements
    ensures var row, (l', why) := l.improvements[req.id], Transition(l, req);
            var changed := Admitted(l, row, req) && Changes(row, req);
            var unsigned := row.(parentApproved := if changed then None else row.parentApproved,
                                 humanApproved := if changed then None else row.humanApproved);
            && req.id in l'.improvements
            && (why.Some? ==> l'.improvements[req.id] == unsigned)
            && (why.None? ==>
                  && l'.improvements[req.id] == unsigned.(
                       status := req.to, version := if req.version.Some? then req.version else row.version,
                       evidence := l'.improvements[req.id].evidence, suspended := l'.improvements[req.id].suspended)
                  && row.evidence <= l'.improvements[req.id].evidence
                  && (forall r :: r in l'.improvements[req.id].evidence <==> r in row.evidence || r in req.refs))
  {
    var row := l.improvements[req.id];
    TransitionRow(l, req, req.id);
    AdmittedExactly(l, req);
    EvidenceFacts(row, req);
    EvidenceAfter(row.evidence, req.refs);
  }

  /** A call pins a card exactly when it adopts one; it touches no stored card and no
      other row, except that a rejection may suspend rows. */
  lemma TransitionTouches(l: Ledger, req: Request, i: ImprovementId)
    requires req.id in l.improvements && i in l.improvements
    ensures var row, (l', why) := l.improvements[req.id], Transition(l, req);
            && l'.improvements.Keys == l.improvements.Keys && l'.cards == l.cards
            && l'.pins == (if why.None? && req.to == Adopted && row.target == RoleCard && MayAdopt(l, row, req)
                           then l.pins[row.cell := CardKey(row.card.value.roleKey, row.version.value)] else l.pins)
            && (i != req.id ==> l'.improvements[i] == l.improvements[i].(suspended := l'.improvements[i].suspended))
            && (why.Some? || req.to != Rejected ==> l'.improvements[i].suspended == l.improvements[i].suspended)
  {
    var row := l.improvements[req.id];
    TransitionFrame(l, req);
    TransitionRow(l, req, i);
    AcceptedExactly(l, req);
    AdmittedExactly(l, req);
    if Admitted(l, row, req) {
      GateExactly(l, row, req);
      if Signed(row, req) { CardGateExactly(l, row, req); }
    }
  }
}
