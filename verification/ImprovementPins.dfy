/** Which role card a cell can end up pinned to, across interleaved adoptions
    and rollbacks of its improvements. */
module ImprovementPins {
  import opened Wrappers
  import opened CardVersions
  import opened ImprovementLedger
  import opened ImprovementRuns

  /** `b` has the role of `a`, its major version, and is not below it in the
      precedence of section 11 of Semantic Versioning 2.0.0 (numeric triples). */
  ghost predicate SafeFor(cards: map<CardKey, Card>, a: CardKey, b: CardKey) {
    a in cards && b in cards && a.roleKey == b.roleKey && Compatible(cards[a].semver, cards[b].semver)
  }

  lemma SafeIsTransitive(cards: map<CardKey, Card>, a: CardKey, b: CardKey, c: CardKey)
    requires SafeFor(cards, a, b) && SafeFor(cards, b, c)
    ensures SafeFor(cards, a, c)
  {
  }

  /** An adoption on record was of this row, which had been created on `previous`. */
  ghost predicate AdoptionSafe(l: Ledger, first: map<CellRow, CardKey>, e: Event) {
    e.StatusTransition? && e.detail.CardAdoption? ==>
      && e.id in l.improvements && l.improvements[e.id].cell in first
      && l.improvements[e.id].card == Some(e.detail.previous)
      && SafeFor(l.cards, first[l.improvements[e.id].cell], e.detail.previous)
  }

  /** Everything a pin can come from is safe for the cell's first card. */
  ghost predicate PinsSafe(l: Ledger, first: map<CellRow, CardKey>) {
    && Wellformed(l) && first.Keys == l.pins.Keys
    && (forall c | c in l.pins :: SafeFor(l.cards, first[c], l.pins[c]))
    && (forall i | i in l.improvements && l.improvements[i].card.Some? ::
          SafeFor(l.cards, first[l.improvements[i].cell], l.improvements[i].card.value))
    && (forall d | d in l.drafts && l.drafts[d].card.Some? ::
          SafeFor(l.cards, first[l.drafts[d].cell], l.drafts[d].card.value))
    && (forall e | e in l.events :: AdoptionSafe(l, first, e))
  }

  predicate Overrides(a: Action) {
    a.Move? && a.req.allowMajor && a.req.admin
  }

  lemma SafeKept(l: Ledger, a: Action, x: CardKey, y: CardKey)
    requires SafeFor(l.cards, x, y)
    ensures SafeFor(Step(l, a).cards, x, y)
  {
    if a.Move? { TransitionFrame(l, a.req); }
  }

  /** The card a transition pins is safe for the card its improvement was created on. */
  lemma GateIsSafe(l: Ledger, row: Improvement, req: Request)
    requires Gate(l, row, req).Ok? && Gate(l, row, req).value.CardAdoption? && !(req.allowMajor && req.admin)
    ensures row.card == Some(Gate(l, row, req).value.previous)
    ensures SafeFor(l.cards, row.card.value, Gate(l, row, req).value.adopted)
    ensures AllVersioned(l) ==> VersionsCompatible(row.card.value.version, Gate(l, row, req).value.adopted.version) == Some(true)
  {
    CardGateIsSafe(l, row, req);
    var pinned, adopted := row.card.value, Gate(l, row, req).value.adopted;
    if AllVersioned(l) {
      assert Versioned(pinned, l.cards[pinned]) && Versioned(adopted, l.cards[adopted]);
      TextsFollow(l.cards, pinned, adopted);
    }
  }

  lemma CardGateIsSafe(l: Ledger, row: Improvement, req: Request)
    requires Gate(l, row, req).Ok? && Gate(l, row, req).value.CardAdoption? && !(req.allowMajor && req.admin)
    ensures row.card == Some(Gate(l, row, req).value.previous)
    ensures SafeFor(l.cards, row.card.value, Gate(l, row, req).value.adopted)
  {
    assert Gate(l, row, req) == CardGate(l, row, req);
  }

  lemma MovePins(l: Ledger, first: map<CellRow, CardKey>, req: Request, c: CellRow)
    requires PinsSafe(l, first) && !(req.allowMajor && req.admin) && c in l.pins
    ensures c in Transition(l, req).0.pins && SafeFor(l.cards, first[c], Transition(l, req).0.pins[c])
  {
    MovedPin(l, req);
    if EarlyRefusal(l, req).None? {
      var row := l.improvements[req.id];
      if Gate(l, row, req).Ok? && Gate(l, row, req).value.CardAdoption? {
        GateIsSafe(l, row, req);
        SafeIsTransitive(l.cards, first[row.cell], row.card.value, Gate(l, row, req).value.adopted);
      }
    }
  }

  /** A transition moves a pin only by adopting a card for the row's cell. */
  lemma MovedPin(l: Ledger, req: Request)
    ensures Transition(l, req).0.pins ==
            if EarlyRefusal(l, req).None? && Gate(l, l.improvements[req.id], req).Ok?
               && Gate(l, l.improvements[req.id], req).value.CardAdoption?
            then l.pins[l.improvements[req.id].cell := Gate(l, l.improvements[req.id], req).value.adopted]
            else l.pins
  {
    if EarlyRefusal(l, req).None? && Gate(l, l.improvements[req.id], req).Ok? {
      var row := l.improvements[req.id];
      SuspendFrame(Written(Voided(l, req), row, req, Gate(l, row, req).value), row.cell);
    }
  }

  lemma StepPins(l: Ledger, first: map<CellRow, CardKey>, a: Action, c: CellRow)
    requires PinsSafe(l, first) && !Overrides(a) && c in l.pins
    ensures c in Step(l, a).pins && SafeFor(l.cards, first[c], Step(l, a).pins[c])
  {
    if a.Move? {
      MovePins(l, first, a.req, c);
    } else if a.Rollback? && RollbackRefusal(l, a.id).None? {
      RollbackPins(l, first, a.id, c);
    } else {
      PinsStay(l, a);
    }
  }

  lemma RollbackPins(l: Ledger, first: map<CellRow, CardKey>, id: ImprovementId, c: CellRow)
    requires PinsSafe(l, first) && c in l.pins && RollbackRefusal(l, id).None?
    ensures c in RolledBackTo(l, id).pins && SafeFor(l.cards, first[c], RolledBackTo(l, id).pins[c])
  {
    LastAdoptionIsEvent(l.events, id);
    var e :| e in l.events && e.StatusTransition? && e.id == id && e.detail == LastAdoption(l.events, id).value;
    assert AdoptionSafe(l, first, e);
  }

  lemma PinsStay(l: Ledger, a: Action)
    requires !a.Move? && !(a.Rollback? && RollbackRefusal(l, a.id).None?)
    ensures Step(l, a).pins == l.pins
  {
  }

  lemma {:induction false} LastAdoptionIsEvent(events: seq<Event>, id: ImprovementId)
    requires LastAdoption(events, id).Some?
    ensures exists e :: e in events && e.StatusTransition? && e.id == id && e.detail == LastAdoption(events, id).value
  {
    var e := events[|events| - 1];
    if !(e.StatusTransition? && e.id == id && e.to == Adopted) {
      LastAdoptionIsEvent(events[..|events| - 1], id);
    } else {
      assert e in events;
    }
  }

  lemma NewAdoptionNamesCard(l: Ledger, req: Request, e: Event)
    requires e in Transition(l, req).0.events && e !in l.events
    ensures e.StatusTransition? && e.detail.CardAdoption? ==>
              req.id == e.id && e.id in l.improvements && l.improvements[e.id].card == Some(e.detail.previous)
  {
  }

  lemma StepEventSafe(l: Ledger, first: map<CellRow, CardKey>, a: Action, e: Event)
    requires PinsSafe(l, first) && e in Step(l, a).events
    ensures AdoptionSafe(Step(l, a), first, e)
  {
    if e.StatusTransition? && e.detail.CardAdoption? {
      var tail := StepEvents(l, a);
      assert e in l.events || e in tail;
      if e in l.events {
        assert AdoptionSafe(l, first, e);
      } else {
        NewAdoptionNamesCard(l, a.req, e);
      }
      StepRow(l, a, e.id);
      SafeKept(l, a, first[l.improvements[e.id].cell], e.detail.previous);
    }
  }

  lemma StepRowCard(l: Ledger, first: map<CellRow, CardKey>, a: Action, i: ImprovementId)
    requires PinsSafe(l, first) && i in Step(l, a).improvements && Step(l, a).improvements[i].card.Some?
    ensures Step(l, a).improvements[i].cell in first
    ensures SafeFor(l.cards, first[Step(l, a).improvements[i].cell], Step(l, a).improvements[i].card.value)
  {
    if i in l.improvements {
      StepRow(l, a, i);
    } else if a.Move? {
      TransitionFrame(l, a.req);
    } else {
      NewRowCard(l, a, i);
    }
  }

  /** A new row holds the pin of its cell, or what its draft held. */
  lemma NewRowCard(l: Ledger, a: Action, i: ImprovementId)
    requires !a.Move? && i !in l.improvements && i in Step(l, a).improvements && Step(l, a).improvements[i].card.Some?
    ensures var row := Step(l, a).improvements[i];
            || (row.cell in l.pins && row.card == Some(l.pins[row.cell]))
            || (exists d | d in l.drafts :: l.drafts[d].cell == row.cell && l.drafts[d].card == row.card)
  {
    if Approving(a) || Suspending(a) { RowsStay(l, a); }
  }

  lemma StepDraftCard(l: Ledger, first: map<CellRow, CardKey>, a: Action, d: DraftId)
    requires PinsSafe(l, first) && d in Step(l, a).drafts && Step(l, a).drafts[d].card.Some?
    ensures Step(l, a).drafts[d].cell in first
    ensures SafeFor(l.cards, first[Step(l, a).drafts[d].cell], Step(l, a).drafts[d].card.value)
  {
    if a.Move? { TransitionFrame(l, a.req); } else { NewDraftCard(l, a, d); }
  }

  /** A new draft holds the pin of its cell. */
  lemma NewDraftCard(l: Ledger, a: Action, d: DraftId)
    requires !a.Move? && d in Step(l, a).drafts && Step(l, a).drafts[d].card.Some?
    ensures var draft := Step(l, a).drafts[d];
            (draft.cell in l.pins && draft.card == Some(l.pins[draft.cell])) || (d in l.drafts && draft == l.drafts[d])
  {
    if Approving(a) || Suspending(a) { RowsStay(l, a); }
  }

  lemma StepKeepsPinsSafe(l: Ledger, first: map<CellRow, CardKey>, a: Action)
    requires PinsSafe(l, first) && !Overrides(a)
    ensures PinsSafe(Step(l, a), first)
  {
    var l' := Step(l, a);
    StepKeepsWellformed(l, a);
    forall c | c in l'.pins ensures SafeFor(l'.cards, first[c], l'.pins[c]) {
      StepPins(l, first, a, c);
      SafeKept(l, a, first[c], l'.pins[c]);
    }
    forall i | i in l'.improvements && l'.improvements[i].card.Some?
      ensures SafeFor(l'.cards, first[l'.improvements[i].cell], l'.improvements[i].card.value)
    {
      StepRowCard(l, first, a, i);
      SafeKept(l, a, first[l'.improvements[i].cell], l'.improvements[i].card.value);
    }
    forall d | d in l'.drafts && l'.drafts[d].card.Some?
      ensures SafeFor(l'.cards, first[l'.drafts[d].cell], l'.drafts[d].card.value)
    {
      StepDraftCard(l, first, a, d);
      SafeKept(l, a, first[l'.drafts[d].cell], l'.drafts[d].card.value);
    }
    forall e | e in l'.events ensures AdoptionSafe(l', first, e) {
      StepEventSafe(l, first, a, e);
    }
  }

  lemma {:induction false} RunKeepsPinsSafe(l: Ledger, actions: seq<Action>)
    requires Initial(l) && forall a | a in actions :: !Overrides(a)
    ensures PinsSafe(Run(l, actions), l.pins)
  {
    if actions != [] {
      var before, a := actions[..|actions| - 1], actions[|actions| - 1];
      assert a in actions;
      RunKeepsPinsSafe(l, before);
      StepKeepsPinsSafe(Run(l, before), l.pins, a);
    }
  }

  /** Without an administrator override, whatever adoptions and rollbacks
      interleave, a cell keeps the role and major version it started with and
      never falls below its first version. */
  lemma PinNeverFallsBelowFirst(l: Ledger, actions: seq<Action>, c: CellRow)
    requires Initial(l) && (forall a | a in actions :: !Overrides(a)) && c in l.pins
    ensures c in Run(l, actions).pins && SafeFor(Run(l, actions).cards, l.pins[c], Run(l, actions).pins[c])
  {
    RunKeepsPinsSafe(l, actions);
  }

  lemma StepKeepsVersions(l: Ledger, a: Action, k: CardKey)
    requires k in Step(l, a).cards && (k in l.cards ==> Versioned(k, l.cards[k]))
    ensures Versioned(k, Step(l, a).cards[k])
  {
    if a.Move? {
      TransitionFrame(l, a.req);
    }
  }

  /** Cards are only added with a version their text stands for, and never renamed. */
  lemma {:induction false} RunKeepsVersions(l: Ledger, actions: seq<Action>, k: CardKey)
    requires k in Run(l, actions).cards && (k in l.cards ==> Versioned(k, l.cards[k]))
    ensures Versioned(k, Run(l, actions).cards[k])
  {
    if actions != [] {
      var before, a := actions[..|actions| - 1], actions[|actions| - 1];
      if k in Run(l, before).cards {
        RunKeepsVersions(l, before, k);
      }
      StepKeepsVersions(Run(l, before), a, k);
    }
  }

  lemma TextsFollow(cards: map<CardKey, Card>, a: CardKey, b: CardKey)
    requires SafeFor(cards, a, b) && Versioned(a, cards[a]) && Versioned(b, cards[b])
    ensures VersionsCompatible(a.version, b.version) == Some(true)
  {
  }

  /** The same of the version texts as they are stored: the text pinned after any run may
      follow the text pinned first. */
  lemma PinnedTextFollowsFirst(l: Ledger, actions: seq<Action>, c: CellRow)
    requires Initial(l) && AllVersioned(l) && (forall a | a in actions :: !Overrides(a)) && c in l.pins
    ensures c in Run(l, actions).pins
    ensures VersionsCompatible(l.pins[c].version, Run(l, actions).pins[c].version) == Some(true)
  {
    PinNeverFallsBelowFirst(l, actions, c);
    var first, now := l.pins[c], Run(l, actions).pins[c];
    assert first in l.cards ==> Versioned(first, l.cards[first]);
    assert now in l.cards ==> Versioned(now, l.cards[now]);
    RunKeepsVersions(l, actions, first);
    RunKeepsVersions(l, actions, now);
    TextsFollow(Run(l, actions).cards, first, now);
  }

  ghost predicate AdoptionNamesCard(l: Ledger, e: Event) {
    e.StatusTransition? && e.detail.CardAdoption? ==>
      e.id in l.improvements && l.improvements[e.id].card == Some(e.detail.previous)
  }

  lemma StepKeepsAdoptionNames(l: Ledger, a: Action, e: Event)
    requires Wellformed(l) && (forall f | f in l.events :: AdoptionNamesCard(l, f)) && e in Step(l, a).events
    ensures AdoptionNamesCard(Step(l, a), e)
  {
    if e.StatusTransition? && e.detail.CardAdoption? {
      var tail := StepEvents(l, a);
      assert e in l.events || e in tail;
      if e in l.events { assert AdoptionNamesCard(l, e); } else { NewAdoptionNamesCard(l, a.req, e); }
      StepRow(l, a, e.id);
    }
  }

  lemma {:induction false} RunKeepsAdoptionNames(l: Ledger, actions: seq<Action>)
    requires Initial(l)
    ensures forall e | e in Run(l, actions).events :: AdoptionNamesCard(Run(l, actions), e)
  {
    if actions != [] {
      var before, a := actions[..|actions| - 1], actions[|actions| - 1];
      RunKeepsAdoptionNames(l, before);
      RunKeepsWellformed(l, before);
      forall e | e in Run(l, actions).events ensures AdoptionNamesCard(Run(l, actions), e) {
        StepKeepsAdoptionNames(Run(l, before), a, e);
      }
    }
  }

  /** In every run, overrides included, a rollback that is not refused pins the
      card the improvement was created on. */
  lemma RollbackRestoresOwnCard(l: Ledger, actions: seq<Action>, id: ImprovementId)
    requires Initial(l) && RollbackRefusal(Run(l, actions), id).None?
    ensures var l' := Run(l, actions);
            && l'.improvements[id].card.Some?
            && RolledBackTo(l', id).pins == l'.pins[l'.improvements[id].cell := l'.improvements[id].card.value]
  {
    RunKeepsAdoptionNames(l, actions);
    LastAdoptionIsEvent(Run(l, actions).events, id);
  }

  /** A rollback right after an adoption restores the card the improvement was
      created on.  That is the card the adoption replaced exactly when the cell's
      pin had not moved between the two. */
  lemma RollbackRestoresCreationCard(l: Ledger, req: Request)
    requires Wellformed(l) && Transition(l, req).1.None? && req.to == Adopted && l.improvements[req.id].target == RoleCard
    ensures var row, l' := l.improvements[req.id], Transition(l, req).0;
            && RollbackRefusal(l', req.id).None? && row.card.Some?
            && RolledBackTo(l', req.id).pins[row.cell] == row.card.value
            && (RolledBackTo(l', req.id).pins == l.pins <==> row.card.value == l.pins[row.cell])
  {
    var row, l' := l.improvements[req.id], Transition(l, req).0;
    var detail := Gate(l, row, req).value;
    assert l' == Written(Voided(l, req), row, req, detail);
    assert l'.events[..|l'.events| - 1] == Voided(l, req).events;
    assert l'.pins == l.pins[row.cell := detail.adopted];
  }

  /** The improvement's card is the pin of its cell when it was created. */
  lemma CreationCapturesPin(l: Ledger, a: Action)
    requires Wellformed(l) && a.Create? && a.target == RoleCard && l.nextId in Step(l, a).improvements
    ensures Step(l, a).improvements[l.nextId].card == Some(l.pins[a.cell])
  {
  }

  /** Two improvements created on the same card, adopted one after the other: the
      second rollback skips the first adoption and restores the shared card. */
  lemma InterleavedRollbackSkipsAdoption(l: Ledger, first: Request, second: Request)
    requires Wellformed(l) && first.id in l.improvements && second.id in l.improvements && first.id != second.id
    requires l.improvements[first.id].cell == l.improvements[second.id].cell
    requires l.improvements[first.id].card == l.improvements[second.id].card
    requires first.to == Adopted && second.to == Adopted && l.improvements[second.id].target == RoleCard
    requires Transition(l, first).1.None? && Transition(Transition(l, first).0, second).1.None?
    ensures var l2 := Transition(Transition(l, first).0, second).0;
            && RollbackRefusal(l2, second.id).None?
            && RolledBackTo(l2, second.id).pins[l.improvements[first.id].cell] == l.improvements[first.id].card.value
  {
    var l1 := Transition(l, first).0;
    StepKeepsWellformed(l, Move(first));
    assert Step(l, Move(first)) == l1;
    TransitionRow(l, first, second.id);
    RollbackRestoresCreationCard(l1, second);
  }
}
