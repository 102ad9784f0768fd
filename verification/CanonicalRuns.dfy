/** What the canonical head protocol guarantees over whole runs: any sequence of
    session creation, drafting, retention sweeps, promotions, rebases, branches,
    adoptions and restorations, by any number of sessions. */
module CanonicalRuns {
  import opened Wrappers
  import opened CanonicalHead

  // ---- Lineage -------------------------------------------------------------

  /** The migration restored the first head. */
  ghost predicate StartsRestored(db: Db) {
    Moves(db.events) != [] && Moves(db.events)[0].restored
  }

  /** `chain` runs from the head along the parents to the first canonical revision,
      which has no parent unless it was restored. */
  ghost predicate IsLineage(db: Db, chain: seq<RevisionId>) {
    && db.head.Some? && |chain| == db.head.value.version > 0 && chain[0] == db.head.value.revision
    && (forall i | 0 <= i < |chain| :: chain[i] in db.revisions)
    && (forall i, j | 0 <= i < j < |chain| && j == i + 1 :: db.revisions[chain[i]].parent == Some(chain[j]))
    && (StartsRestored(db) || db.revisions[chain[|chain| - 1]].parent == None)
    && (forall i, j | 0 <= i < j < |chain| :: chain[i] != chain[j])
    && (forall r | r in db.revisions ::
          && (db.revisions[r].status == Canonical <==> r == chain[0])
          && (db.revisions[r].status == Superseded <==> r in chain[1..]))
  }

  lemma CanonicalLineage(db: Db)
    requires Reachable(db)
    ensures db.head.None? ==> forall r | r in db.revisions :: db.revisions[r].status == Candidate
    ensures db.head.Some? ==> exists chain :: IsLineage(db, chain)
  {
    ReachableInv(db);
    var log := Moves(db.events);
    if db.head.Some? {
      var chain := Backwards(log);
      ChainLinks(db, log, chain);
      forall r | r in db.revisions
        ensures db.revisions[r].status == Canonical <==> r == chain[0]
        ensures db.revisions[r].status == Superseded <==> r in chain[1..]
      {
        StatusInChain(db, log, chain, r);
      }
      assert IsLineage(db, chain);
    } else {
      forall r | r in db.revisions ensures db.revisions[r].status == Candidate { assert !WasPromoted(log, r); }
    }
  }

  ghost function Backwards(log: seq<Promotion>): (chain: seq<RevisionId>)
    ensures |chain| == |log| && forall i | 0 <= i < |log| :: chain[i] == log[|log| - 1 - i].revision
  {
    seq(|log|, i requires 0 <= i < |log| => log[|log| - 1 - i].revision)
  }

  lemma ChainLinks(db: Db, log: seq<Promotion>, chain: seq<RevisionId>)
    requires LogIsChain(db.head, log) && RowsFollowLog(db.revisions, db.nextRevision, log) && log != []
    requires chain == Backwards(log)
    ensures forall i | 0 <= i < |chain| :: chain[i] in db.revisions
    ensures forall i, j | 0 <= i < j < |chain| && j == i + 1 :: db.revisions[chain[i]].parent == Some(chain[j])
    ensures log[0].restored || db.revisions[chain[|chain| - 1]].parent == None
    ensures forall i, j | 0 <= i < j < |chain| :: chain[i] != chain[j]
  {
    var n := |log|;
    forall i | 0 <= i < n
      ensures chain[i] in db.revisions && (log[n - 1 - i].restored || db.revisions[chain[i]].parent == log[n - 1 - i].previous)
    {
      assert PromotedRow(db.revisions[log[n - 1 - i].revision], log[n - 1 - i]);
    }
    forall i, j | 0 <= i < j < n && j == i + 1 ensures db.revisions[chain[i]].parent == Some(chain[j]) {
      assert log[n - 1 - i].previous == Some(log[n - 1 - j].revision);
    }
  }

  lemma StatusInChain(db: Db, log: seq<Promotion>, chain: seq<RevisionId>, r: RevisionId)
    requires LogIsChain(db.head, log) && RowsFollowLog(db.revisions, db.nextRevision, log) && log != []
    requires |chain| == |log| && forall i | 0 <= i < |log| :: chain[i] == log[|log| - 1 - i].revision
    requires r in db.revisions
    ensures db.revisions[r].status == Canonical <==> r == chain[0]
    ensures db.revisions[r].status == Superseded <==> r in chain[1..]
  {
    var n := |log|;
    if db.revisions[r].status != Candidate {
      assert WasPromoted(log, r);
      var i :| 0 <= i < n && log[i].revision == r;
      assert chain[n - 1 - i] == r;
      if i < n - 1 { assert chain[1..][n - 2 - i] == r; }
    }
    if k :| 0 <= k < n && chain[k] == r {
      assert log[n - 1 - k].revision == r;
    }
  }

  // ---- Pins ----------------------------------------------------------------

  ghost predicate PinStays(db: Db, db': Db, sid: SessionId) {
    && sid in db.sessions && sid in db'.sessions && Tracked(db'.sessions[sid])
    && db'.sessions[sid].base == db.sessions[sid].base && db'.sessions[sid].bundle == db.sessions[sid].bundle
  }

  /** A restoration of a revision of the session pins it to that revision. */
  predicate RestoresOf(db: Db, a: Action, sid: SessionId) {
    Restores(db, a) && db.revisions[a.revision].session == sid
  }

  /** No step moves the pin of a session that has one but its own adoption of the
      current premise, and the restoration of its own revision. */
  lemma PinKept(db: Db, a: Action, sid: SessionId)
    requires Inv(db) && sid in db.sessions && Tracked(db.sessions[sid])
    requires a != Adopt(sid) && !RestoresOf(db, a, sid)
    ensures PinStays(db, Step(db, a), sid)
  {
    match a
    case Create => CreatedBeside(db, None, sid);
    case Rebase(r) => if r in db.sessions { CreatedBeside(db, Some(r), sid); }
    case _ => ChangedInPlace(db, a, sid);
  }

  lemma CreatedBeside(db: Db, origin: Option<SessionId>, sid: SessionId)
    requires Inv(db) && sid in db.sessions && Tracked(db.sessions[sid])
    ensures PinStays(db, Created(db, origin), sid) && Created(db, origin).sessions[sid] == db.sessions[sid]
  {
    assert sid < db.nextSession;
  }

  lemma ChangedInPlace(db: Db, a: Action, sid: SessionId)
    requires sid in db.sessions && Tracked(db.sessions[sid]) && !a.Create? && !a.Rebase?
    requires a != Adopt(sid) && !RestoresOf(db, a, sid)
    ensures PinStays(db, Step(db, a), sid)
  {
  }

  lemma AdoptedPin(db: Db, sid: SessionId)
    requires Inv(db) && sid in db.sessions
    ensures var s' := Step(db, Adopt(sid)).sessions[sid];
            Tracked(s') && s'.base == HeadId(db) && s'.result == db.sessions[sid].result
  {
    PinnedIsOk(db, db.sessions[sid]);
  }

  /** The pin moves exactly when the session adopts a head it was not pinned to, or the
      migration restores its revision. */
  lemma PinMovesExactly(db: Db, a: Action, sid: SessionId)
    requires Inv(db) && sid in db.sessions && Tracked(db.sessions[sid])
    ensures sid in Step(db, a).sessions && Tracked(Step(db, a).sessions[sid])
    ensures Step(db, a).sessions[sid].base != db.sessions[sid].base
       <==> (a == Adopt(sid) && db.sessions[sid].base != HeadId(db)) || RestoresOf(db, a, sid)
  {
    if a == Adopt(sid) {
      AdoptedPin(db, sid);
    } else if RestoresOf(db, a, sid) {
      NoHeadNoPins(db, sid);
    } else {
      PinKept(db, a, sid);
    }
  }

  // ---- Staleness -----------------------------------------------------------

  predicate IsStale(db: Db, sid: SessionId) {
    sid in db.sessions && Evaluate(db, db.sessions[sid]).state == Stale
  }

  /** A stale session is stale after a step exactly unless the step is its own adoption,
      which makes it current. */
  lemma StaleStepExactly(db: Db, a: Action, sid: SessionId)
    requires Inv(db) && IsStale(db, sid)
    ensures IsStale(Step(db, a), sid) <==> a != Adopt(sid)
    ensures sid in Step(db, a).sessions
    ensures a == Adopt(sid) ==> Evaluate(Step(db, a), Step(db, a).sessions[sid]).state == Current
  {
    VerdictIsPointerTest(db, sid);
    if a == Adopt(sid) {
      UnguardedAdoptRevives(db, sid);
    } else {
      if db.head.None? { NoHeadNoPins(db, sid); }
      PinKept(db, a, sid);
      StepKeepsInv(db, a);
      VerdictIsPointerTest(Step(db, a), sid);
      HeadLeavesPin(db, a, sid);
    }
  }

  /** The head never comes back to a revision a session was pinned to and left. */
  lemma HeadLeavesPin(db: Db, a: Action, sid: SessionId)
    requires Inv(db) && sid in db.sessions && Tracked(db.sessions[sid]) && db.sessions[sid].base != HeadId(db)
    ensures db.sessions[sid].base != HeadId(Step(db, a))
  {
    assert PinOk(db.revisions, Moves(db.events), db.sessions[sid]);
    if Promotes(db, a) {
      PromotionStart(db, a);
    } else if Restores(db, a) {
      NoHeadNoPins(db, sid);
    } else {
      assert HeadId(Step(db, a)) == HeadId(db);
    }
  }

  /** Once stale, a session stays stale in every continuation in which it does not
      itself adopt the current premise, whatever other sessions adopt. */
  lemma {:induction false} StaleForever(db: Db, sid: SessionId, actions: seq<Action>)
    requires Inv(db) && IsStale(db, sid) && Adopt(sid) !in actions
    ensures IsStale(Run(db, actions), sid)
  {
    if actions != [] {
      StaleForever(db, sid, actions[..|actions| - 1]);
      RunKeepsInv(db, actions[..|actions| - 1]);
      StaleStepExactly(Run(db, actions[..|actions| - 1]), actions[|actions| - 1], sid);
    }
  }

  predicate StaleThroughout(db: Db, sid: SessionId, actions: seq<Action>) {
    IsStale(Run(db, actions), sid) && (actions == [] || StaleThroughout(db, sid, actions[..|actions| - 1]))
  }

  /** Staleness lasts through a run if and only if the session adopts nothing in it. */
  lemma {:induction false} StaleThroughoutExactly(db: Db, sid: SessionId, actions: seq<Action>)
    requires Inv(db) && IsStale(db, sid)
    ensures StaleThroughout(db, sid, actions) <==> Adopt(sid) !in actions
  {
    if actions != [] {
      var before, a := actions[..|actions| - 1], actions[|actions| - 1];
      assert actions == before + [a];
      StaleThroughoutExactly(db, sid, before);
      if StaleThroughout(db, sid, before) {
        RunKeepsInv(db, before);
        StaleStepExactly(Run(db, before), a, sid);
      }
    }
  }

  /** The race: once one of two sessions pinned to the same head has promoted, the
      other is stale. */
  lemma LoserIsStale(db: Db, winner: Action, loser: SessionId)
    requires Reachable(db) && Promotes(db, winner)
    requires loser in db.sessions && loser != winner.session && Tracked(db.sessions[loser])
    requires db.sessions[loser].base == db.sessions[winner.session].base
    ensures Inv(Step(db, winner)) && IsStale(Step(db, winner), loser)
  {
    ReachableInv(db);
    PromotionStart(db, winner);
    StepKeepsInv(db, winner);
    PinKept(db, winner, loser);
    VerdictIsPointerTest(Step(db, winner), loser);
  }

  /** The loser is refused in every continuation in which it does not adopt the new
      premise, whatever it expects and whatever the others do. */
  lemma LosingRacerIsRefused(db: Db, winner: Action, loser: SessionId, actions: seq<Action>, attempt: Action)
    requires Reachable(db) && Promotes(db, winner)
    requires loser in db.sessions && loser != winner.session && Tracked(db.sessions[loser])
    requires db.sessions[loser].base == db.sessions[winner.session].base
    requires attempt.Promote? && attempt.session == loser && Adopt(loser) !in actions
    ensures Refused(Run(Step(db, winner), actions), attempt)
  {
    LoserIsStale(db, winner, loser);
    StaleForever(Step(db, winner), loser, actions);
    RefusedUnlessCurrent(Run(Step(db, winner), actions), attempt);
  }

  predicate Refused(db: Db, attempt: Action)
    requires attempt.Promote?
  {
    PromotionRefusal(db, attempt.session, attempt.revision, attempt.expectedHead, attempt.expectedVersion)
    == Some(PremiseNotCurrent)
  }

  predicate RefusedThroughout(db: Db, attempt: Action, actions: seq<Action>)
    requires attempt.Promote?
  {
    Refused(Run(db, actions), attempt) && (actions == [] || RefusedThroughout(db, attempt, actions[..|actions| - 1]))
  }

  /** The loser is refused all through a continuation if and only if it does not adopt
      the current premise in it. */
  lemma LosingRacerRefusedExactly(db: Db, winner: Action, loser: SessionId, actions: seq<Action>, attempt: Action)
    requires Reachable(db) && Promotes(db, winner)
    requires loser in db.sessions && loser != winner.session && Tracked(db.sessions[loser])
    requires db.sessions[loser].base == db.sessions[winner.session].base
    requires attempt.Promote? && attempt.session == loser
    ensures RefusedThroughout(Step(db, winner), attempt, actions) <==> Adopt(loser) !in actions
  {
    LoserIsStale(db, winner, loser);
    RefusedWhileStale(Step(db, winner), attempt, actions);
    StaleThroughoutExactly(Step(db, winner), loser, actions);
  }

  lemma {:induction false} RefusedWhileStale(db: Db, attempt: Action, actions: seq<Action>)
    requires Inv(db) && attempt.Promote? && IsStale(db, attempt.session)
    ensures RefusedThroughout(db, attempt, actions) <==> StaleThroughout(db, attempt.session, actions)
  {
    if actions == [] {
      RefusedUnlessCurrent(db, attempt);
    } else {
      var before, a := actions[..|actions| - 1], actions[|actions| - 1];
      RefusedWhileStale(db, attempt, before);
      if StaleThroughout(db, attempt.session, before) {
        RunKeepsInv(db, before);
        StaleStepExactly(Run(db, before), a, attempt.session);
        RefusedUnlessCurrent(Run(db, actions), attempt);
      }
    }
  }

  lemma RefusedUnlessCurrent(db: Db, attempt: Action)
    requires attempt.Promote? && attempt.session in db.sessions
    ensures Refused(db, attempt) <==> Evaluate(db, db.sessions[attempt.session]).state != Current
  {
  }

  // ---- No lost update ------------------------------------------------------

  /** The move that gave a session its result. */
  lemma ResultMove(db: Db, sid: SessionId) returns (i: nat)
    requires Inv(db) && sid in db.sessions && db.sessions[sid].result.Some?
    ensures var log, r := Moves(db.events), db.sessions[sid].result.value;
            && i < |log| && log[i].session == sid && log[i].revision == r
            && r in db.revisions && db.revisions[r].session == sid && db.revisions[r].status != Candidate
            && db.revisions[r].parent == log[i].previous && r < db.nextRevision
  {
    var log := Moves(db.events);
    assert MadeMove(log, sid, db.sessions[sid].result);
    i :| IsLastMove(log, i, sid) && db.sessions[sid].result == Some(log[i].revision);
    assert PromotedRow(db.revisions[log[i].revision], log[i]);
  }

  /** The parent of the session's result is the revision the session is pinned to. */
  predicate FromPin(db: Db, sid: SessionId) {
    && sid in db.sessions && db.sessions[sid].result.Some? && db.sessions[sid].result.value in db.revisions
    && db.revisions[db.sessions[sid].result.value].parent == db.sessions[sid].base
  }

  predicate PromotesIn(db: Db, a: Action, sid: SessionId) {
    Promotes(db, a) && a.session == sid
  }

  /** A promotion is made from the pin, and no other session's step changes that. */
  lemma FromPinStep(db: Db, a: Action, sid: SessionId)
    requires Inv(db) && sid in Step(db, a).sessions && Step(db, a).sessions[sid].result.Some?
    ensures PromotesIn(db, a, sid) ==> FromPin(Step(db, a), sid)
    ensures a == Adopt(sid) ==> !FromPin(Step(db, a), sid)
    ensures !PromotesIn(db, a, sid) ==> sid in db.sessions && db.sessions[sid].result == Step(db, a).sessions[sid].result
    ensures !PromotesIn(db, a, sid) && a != Adopt(sid) ==> (FromPin(Step(db, a), sid) <==> FromPin(db, sid))
  {
    if PromotesIn(db, a, sid) {
      PromotionStart(db, a);
    } else {
      ResultKept(db, a, sid);
      var i := ResultMove(db, sid);
      ParentKept(db, a, db.sessions[sid].result.value);
      if a == Adopt(sid) {
        AdoptedPin(db, sid);
        NoMoveFromHead(db, Moves(db.events), i);
      } else {
        if db.head.None? { NoHeadNoPins(db, sid); }
        PinKept(db, a, sid);
      }
    }
  }

  lemma ResultKept(db: Db, a: Action, sid: SessionId)
    requires Inv(db) && sid in Step(db, a).sessions && !PromotesIn(db, a, sid)
    ensures Step(db, a).sessions[sid].result.Some? ==> sid in db.sessions
    ensures sid in db.sessions ==> db.sessions[sid].result == Step(db, a).sessions[sid].result
  {
    match a
    case Create => assert db.nextSession !in db.sessions;
    case Rebase(r) => assert db.nextSession !in db.sessions;
    case _ =>
  }

  /** A promoted revision stays, with its parent. */
  lemma ParentKept(db: Db, a: Action, r: RevisionId)
    requires Inv(db) && r in db.revisions && db.revisions[r].status != Candidate
    ensures r in Step(db, a).revisions && Step(db, a).revisions[r].parent == db.revisions[r].parent
  {
    assert r < db.nextRevision;
  }

  /** No move in the log started from the present head. */
  lemma NoMoveFromHead(db: Db, log: seq<Promotion>, i: nat)
    requires LogIsChain(db.head, log) && i < |log|
    ensures log[i].previous != HeadId(db)
  {
    if i > 0 { assert log[i].previous == Some(log[i - 1].revision); }
  }

  /** The session adopted the current premise after the last time it promoted. */
  predicate AdoptedSince(start: Db, actions: seq<Action>, sid: SessionId) {
    if actions == [] then false
    else
      var before, a := actions[..|actions| - 1], actions[|actions| - 1];
      !PromotesIn(Run(start, before), a, sid) && (a == Adopt(sid) || AdoptedSince(start, before, sid))
  }

  /** The parent of a session's promoted revision is the premise the session has pinned
      if and only if it has not adopted another one since. */
  lemma {:induction false} PromotedFromPin(start: Db, actions: seq<Action>, sid: SessionId)
    requires Initial(start) && sid in Run(start, actions).sessions && Run(start, actions).sessions[sid].result.Some?
    ensures var db := Run(start, actions);
            var r := db.sessions[sid].result.value;
            && r in db.revisions && db.revisions[r].session == sid && db.revisions[r].status != Candidate
            && (db.revisions[r].parent == db.sessions[sid].base <==> !AdoptedSince(start, actions, sid))
  {
    assert Inv(start);
    RunKeepsInv(start, actions);
    var i := ResultMove(Run(start, actions), sid);
    if actions != [] {
      var before, a := actions[..|actions| - 1], actions[|actions| - 1];
      RunKeepsInv(start, before);
      FromPinStep(Run(start, before), a, sid);
      if !PromotesIn(Run(start, before), a, sid) { PromotedFromPin(start, before, sid); }
    }
  }

  /** Of all the sessions pinned to one head and never pinned anew, at most one ever
      promotes. */
  lemma OnePromoterPerPin(start: Db, actions: seq<Action>, a: SessionId, b: SessionId)
    requires Initial(start) && a in Run(start, actions).sessions && b in Run(start, actions).sessions && a != b
    requires Run(start, actions).sessions[a].result.Some? && Run(start, actions).sessions[b].result.Some?
    requires !AdoptedSince(start, actions, a) && !AdoptedSince(start, actions, b)
    ensures Run(start, actions).sessions[a].base != Run(start, actions).sessions[b].base
  {
    var db := Run(start, actions);
    PromotedFromPin(start, actions, a);
    PromotedFromPin(start, actions, b);
    RunKeepsInv(start, actions);
    var i := ResultMove(db, a);
    var j := ResultMove(db, b);
    PreviousDistinct(db, Moves(db.events), i, j);
  }

  lemma PreviousDistinct(db: Db, log: seq<Promotion>, i: nat, j: nat)
    requires LogIsChain(db.head, log) && i < |log| && j < |log| && i != j
    ensures log[i].previous != log[j].previous
  {
    if i > 0 { assert log[i].previous == Some(log[i - 1].revision); }
    if j > 0 { assert log[j].previous == Some(log[j - 1].revision); }
  }

  // ---- One promotion per head ------------------------------------------------

  /** The head was at `h` once and has moved on. */
  predicate LeftBehind(db: Db, h: Option<RevisionId>) {
    && db.head.Some? && h != Some(db.head.value.revision)
    && (h.Some? ==> h.value in db.revisions && db.revisions[h.value].status == Superseded)
  }

  lemma LeftOnPromotion(db: Db, a: Action)
    requires Inv(db) && a.Promote? && Step(db, a).head != db.head
    ensures LeftBehind(Step(db, a), a.expectedHead)
  {
    PromotionExactly(db, a.session, a.revision, a.expectedHead, a.expectedVersion);
    PromotionStart(db, a);
    var log := Moves(db.events);
    assert db.head.Some? ==> log[|log| - 1].revision in db.revisions;
  }

  lemma LeftStep(db: Db, a: Action, h: Option<RevisionId>)
    requires Inv(db) && LeftBehind(db, h)
    ensures LeftBehind(Step(db, a), h)
  {
    assert h.Some? ==> h.value < db.nextRevision;
  }

  lemma {:induction false} LeftForever(db: Db, actions: seq<Action>, h: Option<RevisionId>)
    requires Inv(db) && LeftBehind(db, h)
    ensures Inv(Run(db, actions)) && LeftBehind(Run(db, actions), h)
  {
    if actions != [] {
      LeftForever(db, actions[..|actions| - 1], h);
      RunKeepsInv(db, actions);
      LeftStep(Run(db, actions[..|actions| - 1]), actions[|actions| - 1], h);
    }
  }

  /** Compare and swap over any run: of all the promotion requests that expect the same
      head, no matter from which sessions, at most one moves it. */
  lemma OnePromotionPerExpectedHead(db: Db, first: Action, between: seq<Action>, second: Action)
    requires Reachable(db) && first.Promote? && second.Promote?
    requires Step(db, first).head != db.head
    requires var later := Run(Step(db, first), between); Step(later, second).head != later.head
    ensures first.expectedHead != second.expectedHead
    ensures first.expectedVersion.Some? ==> first.expectedVersion != second.expectedVersion
  {
    ReachableInv(db);
    StepKeepsInv(db, first);
    LeftOnPromotion(db, first);
    LeftForever(Step(db, first), between, first.expectedHead);
    var later := Run(Step(db, first), between);
    PromotionExactly(db, first.session, first.revision, first.expectedHead, first.expectedVersion);
    PromotionExactly(later, second.session, second.revision, second.expectedHead, second.expectedVersion);
    HeadOnlyAdvances(Step(db, first), between);
  }

  // ---- The documented precondition -----------------------------------------

  /** Adoption is documented for `invalid` sessions only. */
  predicate Documented(db: Db, a: Action) {
    a.Adopt? && a.session in db.sessions ==> Evaluate(db, db.sessions[a.session]).state == Invalid
  }

  predicate DocumentedRun(db: Db, actions: seq<Action>) {
    actions == []
    || (DocumentedRun(db, actions[..|actions| - 1]) && Documented(Run(db, actions[..|actions| - 1]), actions[|actions| - 1]))
  }

  /** Under the precondition a session that has a premise never adopts another, so what
      holds without its adoption holds outright. */
  lemma {:induction false} DocumentedSparesTracked(db: Db, sid: SessionId, actions: seq<Action>)
    requires Inv(db) && sid in db.sessions && Tracked(db.sessions[sid]) && DocumentedRun(db, actions)
    ensures Adopt(sid) !in actions
    ensures sid in Run(db, actions).sessions && Tracked(Run(db, actions).sessions[sid])
  {
    if actions != [] {
      var before, a := actions[..|actions| - 1], actions[|actions| - 1];
      assert actions == before + [a];
      DocumentedSparesTracked(db, sid, before);
      RunKeepsInv(db, before);
      VerdictIsPointerTest(Run(db, before), sid);
      PinMovesExactly(Run(db, before), a, sid);
    }
  }

  lemma {:induction false} DocumentedNeverSince(start: Db, actions: seq<Action>, sid: SessionId)
    requires Initial(start) && DocumentedRun(start, actions)
    requires sid in Run(start, actions).sessions && Run(start, actions).sessions[sid].result.Some?
    ensures !AdoptedSince(start, actions, sid)
  {
    if actions != [] {
      var before, a := actions[..|actions| - 1], actions[|actions| - 1];
      var mid := Run(start, before);
      assert Inv(start);
      RunKeepsInv(start, before);
      if !PromotesIn(mid, a, sid) {
        ResultKept(mid, a, sid);
        DocumentedNeverSince(start, before, sid);
        VerdictIsPointerTest(mid, sid);
      }
    }
  }

  /** Under the precondition staleness is permanent, ... */
  lemma DocumentedStaleForever(db: Db, sid: SessionId, actions: seq<Action>)
    requires Inv(db) && IsStale(db, sid) && DocumentedRun(db, actions)
    ensures StaleThroughout(db, sid, actions)
  {
    VerdictIsPointerTest(db, sid);
    DocumentedSparesTracked(db, sid, actions);
    StaleThroughoutExactly(db, sid, actions);
  }

  /** ... the loser of a race is refused for good, ... */
  lemma DocumentedLoserIsRefused(db: Db, winner: Action, loser: SessionId, actions: seq<Action>, attempt: Action)
    requires Reachable(db) && Promotes(db, winner)
    requires loser in db.sessions && loser != winner.session && Tracked(db.sessions[loser])
    requires db.sessions[loser].base == db.sessions[winner.session].base
    requires attempt.Promote? && attempt.session == loser && DocumentedRun(Step(db, winner), actions)
    ensures RefusedThroughout(Step(db, winner), attempt, actions)
  {
    LoserIsStale(db, winner, loser);
    DocumentedStaleForever(Step(db, winner), loser, actions);
    RefusedWhileStale(Step(db, winner), attempt, actions);
  }

  /** ... and what a session promoted has its pin for parent. */
  lemma DocumentedFromPin(start: Db, actions: seq<Action>, sid: SessionId)
    requires Initial(start) && DocumentedRun(start, actions)
    requires sid in Run(start, actions).sessions && Run(start, actions).sessions[sid].result.Some?
    ensures FromPin(Run(start, actions), sid)
  {
    DocumentedNeverSince(start, actions, sid);
    PromotedFromPin(start, actions, sid);
  }

  // ---- Verdicts ------------------------------------------------------------

  /** Reachable verdicts compare two pointers; a vanished or changed premise never shows. */
  lemma ReachableVerdict(db: Db, sid: SessionId)
    requires Reachable(db) && sid in db.sessions
    ensures var v := Evaluate(db, db.sessions[sid]);
            && (v.state == Current <==> Tracked(db.sessions[sid]) && db.sessions[sid].base == HeadId(db))
            && (v.state == Invalid <==> !Tracked(db.sessions[sid]))
            && v.state != Missing && v.reason != PremiseContentChanged
  {
    ReachableInv(db);
    VerdictIsPointerTest(db, sid);
  }

  /** adopt_current_premise has no guard of its own: whatever the verdict on a session
      was, it is current afterwards. */
  lemma UnguardedAdoptRevives(db: Db, sid: SessionId)
    requires Inv(db) && sid in db.sessions
    ensures Evaluate(Adopted(db, sid), Adopted(db, sid).sessions[sid]).state == Current
  {
    PinnedIsOk(db, db.sessions[sid]);
    var log := Moves(db.events);
    assert log != [] ==> PromotedRow(db.revisions[log[|log| - 1].revision], log[|log| - 1]);
  }

  /** The restoration picks one session out: its premise is current, and every
      session that had recorded starting from nothing is stale. */
  lemma RestoredPremises(db: Db, a: Action, sid: SessionId)
    requires Inv(db) && Restores(db, a) && sid in db.sessions
    ensures sid in Step(db, a).sessions
    ensures var v, own := Evaluate(Step(db, a), Step(db, a).sessions[sid]), sid == db.revisions[a.revision].session;
            && (v.state == Current <==> own)
            && (v.state == Stale <==> !own && Tracked(db.sessions[sid]))
  {
    StepKeepsInv(db, a);
    VerdictIsPointerTest(Step(db, a), sid);
    NoHeadNoPins(db, sid);
    RestoredRow(db, a.revision, sid);
  }

  lemma RestoredRow(db: Db, rid: RevisionId, sid: SessionId)
    requires rid in db.revisions && sid in db.sessions
    ensures var s', own := Restored(db, rid).sessions[sid], sid == db.revisions[rid].session;
            s'.base == (if own then Some(rid) else db.sessions[sid].base) && (Tracked(s') <==> own || Tracked(db.sessions[sid]))
  {
  }

  // ---- Revalidation across an external call --------------------------------

  datatype Token = Token(
    session: SessionId, base: Option<RevisionId>, baseDigest: Option<Digest>, version: Option<string>,
    disposition: Disposition, headRevision: Option<RevisionId>, headVersion: Option<nat>)

  datatype RunCode = HeadMovedDuringRun | SessionPremiseChangedDuringRun

  function PremiseToken(db: Db, sid: SessionId): Token
    requires sid in db.sessions
  {
    var s := db.sessions[sid];
    Token(sid, s.base, s.baseDigest, s.version, s.disposition, HeadId(db),
          if db.head.Some? then Some(db.head.value.version) else None)
  }

  function RevalidatePremise(db: Db, t: Token): Option<RunCode> {
    if t.session !in db.sessions then Some(SessionPremiseChangedDuringRun)
    else
      var s := db.sessions[t.session];
      if s.base != t.base || s.baseDigest != t.baseDigest || s.version != t.version || s.disposition != t.disposition
      then Some(SessionPremiseChangedDuringRun)
      else if HeadId(db) != t.headRevision
           || (if db.head.Some? then Some(db.head.value.version) else None) != t.headVersion
      then Some(HeadMovedDuringRun)
      else None
  }

  lemma RunSplits(db: Db, a: seq<Action>, b: seq<Action>)
    ensures Run(db, a + b) == Run(Run(db, a), b)
  {
    if b == [] {
      assert a + b == a;
    } else {
      assert (a + b)[..|a + b| - 1] == a + b[..|b| - 1];
      RunSplits(db, a, b[..|b| - 1]);
    }
  }

  lemma {:induction false} HeadOnlyAdvances(db: Db, actions: seq<Action>)
    ensures HeadVersion(Run(db, actions)) >= HeadVersion(db)
    ensures HeadVersion(Run(db, actions)) == HeadVersion(db) ==> Run(db, actions).head == db.head
  {
    if actions != [] {
      HeadOnlyAdvances(db, actions[..|actions| - 1]);
    }
  }

  /** A revalidation that finds nothing means the head stood still at every
      moment in between, not only that it came back. */
  lemma RevalidatedMeansHeadStill(db: Db, sid: SessionId, actions: seq<Action>, k: nat)
    requires sid in db.sessions && k <= |actions|
    requires RevalidatePremise(Run(db, actions), PremiseToken(db, sid)) == None
    ensures Run(db, actions[..k]).head == db.head
  {
    assert actions == actions[..k] + actions[k..];
    RunSplits(db, actions[..k], actions[k..]);
    HeadOnlyAdvances(db, actions[..k]);
    HeadOnlyAdvances(Run(db, actions[..k]), actions[k..]);
  }

  /** What the check after the call says of everything that ran meanwhile: the session's
      pin and disposition first, then the head, whose version alone decides. */
  lemma RevalidationExactly(db: Db, sid: SessionId, actions: seq<Action>)
    requires sid in db.sessions
    ensures var end, code := Run(db, actions), RevalidatePremise(Run(db, actions), PremiseToken(db, sid));
            var kept := sid in end.sessions
                        && end.sessions[sid].base == db.sessions[sid].base
                        && end.sessions[sid].baseDigest == db.sessions[sid].baseDigest
                        && end.sessions[sid].version == db.sessions[sid].version
                        && end.sessions[sid].disposition == db.sessions[sid].disposition;
            var moves := (if end.head.Some? then end.head.value.version else 0)
                         - (if db.head.Some? then db.head.value.version else 0);
            && (code == None <==> kept && moves == 0)
            && (code == Some(SessionPremiseChangedDuringRun) <==> !kept)
            && (code == Some(HeadMovedDuringRun) <==> kept && moves > 0)
  {
    HeadOnlyAdvances(db, actions);
  }

  // ---- Intent over generations ---------------------------------------------

  /** The rows a step merges into the head's intent: those of the session whose
      revision it promotes or restores. */
  function Contributed(db: Db, a: Action): seq<IntentRow> {
    if Promotes(db, a) then db.sessions[a.session].rows
    else if Restores(db, a) && db.revisions[a.revision].session in db.sessions
    then db.sessions[db.revisions[a.revision].session].rows
    else []
  }

  /** The rows merged during a run, in the order of the head's moves. */
  function Decisions(db: Db, actions: seq<Action>): seq<IntentRow> {
    if actions == [] then []
    else
      var before, a := actions[..|actions| - 1], actions[|actions| - 1];
      Decisions(db, before) + Contributed(Run(db, before), a)
  }

  lemma MergedSplits(inherited: Intent, a: seq<IntentRow>, b: seq<IntentRow>)
    ensures Merged(inherited, a + b) == Merged(Merged(inherited, a), b)
  {
    if b == [] {
      assert a + b == a;
    } else {
      assert (a + b)[..|a + b| - 1] == a + b[..|b| - 1];
      MergedSplits(inherited, a, b[..|b| - 1]);
    }
  }

  lemma {:induction false} MergedIsLastDecision(inherited: Intent, rows: seq<IntentRow>, field: string)
    requires field != ""
    ensures match LastDecision(rows, field)
            case None =>
              && (field in Merged(inherited, rows) <==> field in inherited)
              && (field in inherited ==> Merged(inherited, rows)[field] == inherited[field])
            case Some(row) =>
              && (field in Merged(inherited, rows) <==> row.status == Confirmed)
              && (row.status == Confirmed ==>
                    Merged(inherited, rows)[field] == Statement(row.value, row.origin, row.isMock, row.id))
  {
    if rows != [] { MergedIsLastDecision(inherited, rows[..|rows| - 1], field); }
  }

  lemma StepMergesIntent(db: Db, a: Action)
    requires Inv(db)
    ensures InheritedIntent(Step(db, a)) == Merged(InheritedIntent(db), Contributed(db, a))
  {
    if Promotes(db, a) {
      PromotionStart(db, a);
    } else if !Restores(db, a) {
      HeadBundleKept(db, a);
    }
  }

  lemma HeadBundleKept(db: Db, a: Action)
    requires Inv(db) && !Promotes(db, a) && !Restores(db, a)
    ensures HeadBundle(Step(db, a)) == HeadBundle(db)
  {
    var log := Moves(db.events);
    assert log != [] ==> log[|log| - 1].revision in db.revisions;
  }

  lemma {:induction false} HeadIntentIsFold(db: Db, actions: seq<Action>)
    requires Initial(db)
    ensures InheritedIntent(Run(db, actions)) == Merged(map[], Decisions(db, actions))
  {
    if actions != [] {
      var before, a := actions[..|actions| - 1], actions[|actions| - 1];
      var mid := Run(db, before);
      HeadIntentIsFold(db, before);
      assert Inv(db);
      RunKeepsInv(db, before);
      StepMergesIntent(mid, a);
      MergedSplits(map[], Decisions(db, before), Contributed(mid, a));
    }
  }

  /** After any run, the head's frozen intent holds a field exactly when the last
      decisive row among those merged confirmed it, with that value. */
  lemma HeadIntentIsLastDecision(db: Db, actions: seq<Action>, field: string)
    requires Initial(db) && field != ""
    ensures var intent, last := InheritedIntent(Run(db, actions)), LastDecision(Decisions(db, actions), field);
            && (field in intent <==> last.Some? && last.value.status == Confirmed)
            && (field in intent ==> intent[field].value == last.value.value)
  {
    HeadIntentIsFold(db, actions);
    MergedIsLastDecision(map[], Decisions(db, actions), field);
  }
}
