/** The tables behind the canonical head protocol, changed in place the way
    canonical_understanding.py and its routes change them.  Every method is one
    transaction and is proved to be the step of the protocol it stands for, so
    everything shown of runs holds of any sequence of calls. */
module CanonicalStore {
  import opened Wrappers
  import opened CanonicalHead
  import CanonicalRuns

  // ---- What callers see ----------------------------------------------------

  ghost predicate StartsCurrent(db: Db, sid: SessionId) {
    && sid in db.sessions && db.sessions[sid].base == HeadId(db) && db.sessions[sid].result.None?
    && Evaluate(db, db.sessions[sid]).state == PremiseState.Current
  }

  /** The sessions are the same and each has the verdict it had. */
  ghost predicate SameVerdicts(before: Db, after: Db) {
    && after.sessions.Keys == before.sessions.Keys
    && forall s | s in before.sessions :: Evaluate(after, after.sessions[s]) == Evaluate(before, before.sessions[s])
  }

  lemma CreatedIsCurrent(db: Db, origin: Option<SessionId>)
    requires Inv(db)
    ensures StartsCurrent(Created(db, origin), db.nextSession)
  {
    CreateKeepsInv(db, origin);
    VerdictIsPointerTest(Created(db, origin), db.nextSession);
  }

  lemma RebasedIsCurrent(db: Db, sid: SessionId)
    requires Inv(db) && sid in db.sessions && sid != db.nextSession
    ensures var db' := Rebasing(db, sid);
            StartsCurrent(db', db.nextSession) && sid in db'.sessions && Evaluate(db', db'.sessions[sid]) == Evaluate(db, db.sessions[sid])
  {
    CreatedIsCurrent(db, Some(sid));
  }

  lemma DraftKeepsVerdicts(db: Db, sid: SessionId, content: Option<Content>, parent: Option<RevisionId>)
    requires Inv(db)
    ensures db.nextRevision !in db.revisions && SameVerdicts(db, Drafted(db, sid, content, parent))
  {
    assert db.nextRevision !in db.revisions;
    forall s | s in db.sessions
      ensures Evaluate(Drafted(db, sid, content, parent), db.sessions[s]) == Evaluate(db, db.sessions[s])
    {
      assert Tracked(db.sessions[s]) ==> PinOk(db.revisions, Moves(db.events), db.sessions[s]);
    }
  }

  lemma PromotedFromPremise(db: Db, a: Action)
    requires Inv(db) && a.Promote?
    ensures Promotes(db, a) ==> a.session in db.sessions && HeadId(db) == db.sessions[a.session].base && HeadId(db) != Some(a.revision)
  {
    if Promotes(db, a) { PromotionStart(db, a); }
  }

  lemma OnlyOwnSessionCurrent(db: Db, rid: RevisionId)
    requires Inv(db) && Restores(db, Restore(rid))
    ensures var db' := Restored(db, rid);
            forall s | s in db'.sessions && Evaluate(db', db'.sessions[s]).state == PremiseState.Current ::
              s == db.revisions[rid].session
  {
    forall s | s in db.sessions && Evaluate(Restored(db, rid), Restored(db, rid).sessions[s]).state == PremiseState.Current
      ensures s == db.revisions[rid].session
    {
      CanonicalRuns.RestoredPremises(db, Restore(rid), s);
    }
  }

  lemma AdoptedAlone(db: Db, sid: SessionId)
    requires sid in db.sessions
    ensures var db' := Adopted(db, sid);
            && (Inv(db) ==> db'.sessions[sid].base == HeadId(db') && Evaluate(db', db'.sessions[sid]).state == PremiseState.Current)
            && (forall s | s in db'.sessions && s != sid ::
                  s in db.sessions && Evaluate(db', db'.sessions[s]) == Evaluate(db, db.sessions[s]))
  {
    if Inv(db) {
      CanonicalRuns.UnguardedAdoptRevives(db, sid);
      CanonicalRuns.AdoptedPin(db, sid);
    }
  }

  class Store {
    var revisions: map<RevisionId, Revision>
    var sessions: map<SessionId, Session>
    var head: Option<Head>
    var events: seq<Event>
    var nextRevision: RevisionId
    var nextSession: SessionId

    function Rows(): (db: Db)
      reads this
    {
      Db(revisions, sessions, head, events, nextRevision, nextSession)
    }

    /** Pins today's premise onto a session and, when the session is still blank,
        starts it from the pinned content. */
    method CaptureSessionPremise(sid: SessionId) returns (bundle: Bundle)
      requires sid in sessions
      modifies this`sessions
      ensures Rows() == Captured(old(Rows()), sid)
      ensures bundle == PremiseToPin(old(Rows())).1
      ensures sessions.Keys == old(sessions).Keys && forall s | s in sessions && s != sid :: sessions[s] == old(sessions)[s]
      ensures var was, now := old(sessions)[sid], sessions[sid];
              && now.version == Some("canonical-premise-v1") && now.disposition == Active
              && now.base == (if head.Some? && head.value.revision in revisions then Some(head.value.revision) else None)
              && now.bundle == Some(bundle)
              && now.understanding == (if was.understanding.None? && bundle.understanding.Some? && bundle.understanding.value != []
                                       then bundle.understanding else was.understanding)
              && (now.origin, now.result, now.rows) == (was.origin, was.result, was.rows)
    {
      bundle := EmptyBundle();
      var base: Option<RevisionId> := None;
      if head.Some? && head.value.revision in revisions {
        var revision := revisions[head.value.revision];
        base := Some(head.value.revision);
        match revision.bundle {
          case Some(stored) => bundle := stored;
          case None => bundle := BuildBundle(Rows(), head.value.revision, map[]);
        }
      }
      var session := sessions[sid];
      session := session.(version := Some(PREMISE_VERSION), base := base, baseDigest := Some(DigestOf(bundle)),
                          bundle := Some(bundle), disposition := Active);
      if bundle.understanding.Some? && bundle.understanding.value != [] && session.understanding.None? {
        session := session.(understanding := bundle.understanding);
      }
      sessions := sessions[sid := session];
    }

    method InsertSession(origin: Option<SessionId>) returns (sid: SessionId)
      modifies this`sessions, this`nextSession
      ensures sid == old(nextSession) && Rows() == WithSession(old(Rows()), FreshSession(origin))
    {
      sid := nextSession;
      sessions := sessions[sid := FreshSession(origin)];
      nextSession := nextSession + 1;
    }

    method CreateSession() returns (sid: SessionId)
      modifies this`sessions, this`nextSession
      ensures sid == old(nextSession) && Rows() == Step(old(Rows()), Create)
      ensures Inv(old(Rows())) ==> StartsCurrent(Rows(), sid)
    {
      sid := InsertSession(None);
      var _ := CaptureSessionPremise(sid);
      if Inv(old(Rows())) { CreatedIsCurrent(old(Rows()), None); }
    }

    /** Drafting stores one more candidate and settles nothing: every verdict stays. */
    method DraftRevision(sid: SessionId, content: Option<Content>, parent: Option<RevisionId>) returns (rid: RevisionId)
      requires sid in sessions
      modifies this`revisions, this`nextRevision
      ensures rid == old(nextRevision) && Rows() == Step(old(Rows()), Draft(sid, content, parent))
      ensures revisions == old(revisions)[rid := Revision(sid, content, Candidate, parent, None, None)] && nextRevision == rid + 1
      ensures Inv(old(Rows())) ==> rid !in old(revisions) && SameVerdicts(old(Rows()), Rows())
    {
      rid := nextRevision;
      revisions := revisions[rid := Revision(sid, content, Candidate, parent, None, None)];
      nextRevision := nextRevision + 1;
      if Inv(old(Rows())) { DraftKeepsVerdicts(old(Rows()), sid, content, parent); }
    }

    method SweepRevisions(sid: SessionId, limit: nat, cited: set<RevisionId>)
      modifies this`revisions
      ensures Rows() == Step(old(Rows()), Sweep(sid, limit, cited))
      ensures forall r | r in revisions :: r in old(revisions) && revisions[r] == old(revisions)[r]
      ensures forall r | r in old(revisions) ::
                r !in revisions <==>
                && old(revisions)[r].session == sid
                && |set q | q in old(revisions) && old(revisions)[q].session == sid && q > r| >= limit
                && old(revisions)[r].status == Candidate && r !in cited && !(head.Some? && head.value.revision == r)
                && (forall s | s in sessions :: sessions[s].base != Some(r) && sessions[s].result != Some(r))
    {
      var doomed := set r | r in revisions && revisions[r].session == sid
                            && |Newer(Rows(), sid, r)| >= limit && !Protected(Rows(), cited, r);
      revisions := revisions - doomed;
    }

    /** The atomic decision over revisions, head, session and audit. */
    method MoveHead(sid: SessionId, rid: RevisionId) returns (promotion: Promotion)
      requires sid in sessions && rid in revisions && revisions[rid].session == sid
      modifies this
      ensures Rows() == Promoted(old(Rows()), sid, rid)
      ensures promotion == Promotion(sid, rid, HeadId(old(Rows())), HeadVersion(old(Rows())) + 1, false)
    {
      var revision := revisions[rid];
      var actual, actualVersion := HeadId(Rows()), HeadVersion(Rows());
      var merged := MergeIntentItems(InheritedIntent(Rows()), sessions[sid].rows);
      var bundle := Bundle(PREMISE_VERSION, Some(rid), revision.content, merged);
      revisions := revisions[rid := revision.(
        status := Canonical, parent := actual, bundle := Some(bundle), digest := Some(DigestOf(bundle)))];
      if actual.Some? && actual.value in revisions {
        revisions := revisions[actual.value := revisions[actual.value].(status := Superseded)];
      }
      head := Some(Head(rid, actualVersion + 1));
      sessions := sessions[sid := sessions[sid].(result := Some(rid))];
      promotion := Promotion(sid, rid, actual, actualVersion + 1, false);
      events := events + [HeadMove(promotion)];
    }

    /** The three guards, then the decision. */
    method PromoteRevision(sid: SessionId, rid: RevisionId, expectedHead: Option<RevisionId>, expectedVersion: Option<nat>)
      returns (r: Result<Promotion, Rejection>)
      modifies this
      ensures match PromotionRefusal(old(Rows()), sid, rid, expectedHead, expectedVersion)
              case Some(code) => r == Err(code) && Rows() == old(Rows())
              case None =>
                && Rows() == Promoted(old(Rows()), sid, rid)
                && r == Ok(Promotion(sid, rid, HeadId(old(Rows())), HeadVersion(old(Rows())) + 1, false))
      ensures Inv(old(Rows())) ==>
                var at := if old(head).None? then None else Some(old(head).value.revision);
                var moves := if old(head).None? then 0 else old(head).value.version;
                var pins := sid in old(sessions) && old(sessions)[sid].version == Some("canonical-premise-v1")
                            && old(sessions)[sid].base == at;
                var own := rid in old(revisions) && old(revisions)[rid].session == sid;
                var candidate := own && old(revisions)[rid].status == Candidate;
                var filled := candidate && old(revisions)[rid].content.Some? && old(revisions)[rid].content.value != [];
                && (r.Ok? <==> pins && filled && expectedHead == at && (expectedVersion.Some? ==> expectedVersion.value == moves))
                && (r == Err(PremiseNotCurrent) <==> sid in old(sessions) && !pins)
                && (r == Err(RevisionNotFound) <==> sid !in old(sessions) || (pins && !own))
                && (r == Err(RevisionNotCandidate) <==> pins && own && !candidate)
                && (r == Err(RevisionEmpty) <==> pins && candidate && !filled)
                && (r == Err(HeadRevisionMismatch) <==> pins && filled && expectedHead != at)
                && (r == Err(HeadVersionMismatch) <==>
                      pins && filled && expectedHead == at && expectedVersion.Some? && expectedVersion.value != moves)
    {
      if Inv(Rows()) { PromotionExactly(Rows(), sid, rid, expectedHead, expectedVersion); }
      if sid !in sessions {
        return Err(RevisionNotFound);
      }
      var verdict := Evaluate(Rows(), sessions[sid]);
      if verdict.state != Current {
        return Err(PremiseNotCurrent);
      }
      if rid !in revisions || revisions[rid].session != sid {
        return Err(RevisionNotFound);
      }
      var revision := revisions[rid];
      if revision.status != Candidate {
        return Err(RevisionNotCandidate);
      }
      if revision.content.None? || revision.content.value == [] {
        return Err(RevisionEmpty);
      }
      var actual := HeadId(Rows());
      var actualVersion := HeadVersion(Rows());
      if expectedHead != actual {
        return Err(HeadRevisionMismatch);
      }
      if expectedVersion.Some? && expectedVersion.value != actualVersion {
        return Err(HeadVersionMismatch);
      }
      var promotion := MoveHead(sid, rid);
      return Ok(promotion);
    }

    /** The route around it: a refusal is audited after the rollback. */
    method PromoteUnderstanding(sid: SessionId, rid: RevisionId, expectedHead: Option<RevisionId>, expectedVersion: Option<nat>)
      returns (r: Result<Promotion, Rejection>)
      modifies this
      ensures Rows() == Step(old(Rows()), Promote(sid, rid, expectedHead, expectedVersion))
      ensures match PromotionRefusal(old(Rows()), sid, rid, expectedHead, expectedVersion)
              case Some(code) => r == Err(code) && head == old(head) && revisions == old(revisions) && sessions == old(sessions)
              case None =>
                && r == Ok(Promotion(sid, rid, HeadId(old(Rows())), HeadVersion(old(Rows())) + 1, false))
                && head == Some(Head(rid, r.value.version)) && events == old(events) + [HeadMove(r.value)]
      ensures r.Err? ==> events == if sid in old(sessions) then old(events) + [PromotionConflict(sid, rid, r.error)] else old(events)
      ensures r.Ok? && Inv(old(Rows())) ==> revisions[rid].parent == old(sessions)[sid].base
      ensures Inv(old(Rows())) ==>
                var at := if old(head).None? then None else Some(old(head).value.revision);
                var moves := if old(head).None? then 0 else old(head).value.version;
                var pins := sid in old(sessions) && old(sessions)[sid].version == Some("canonical-premise-v1")
                            && old(sessions)[sid].base == at;
                var own := rid in old(revisions) && old(revisions)[rid].session == sid;
                var candidate := own && old(revisions)[rid].status == Candidate;
                var filled := candidate && old(revisions)[rid].content.Some? && old(revisions)[rid].content.value != [];
                && (r.Ok? <==> pins && filled && expectedHead == at && (expectedVersion.Some? ==> expectedVersion.value == moves))
                && (r == Err(PremiseNotCurrent) <==> sid in old(sessions) && !pins)
                && (r == Err(RevisionNotFound) <==> sid !in old(sessions) || (pins && !own))
                && (r == Err(RevisionNotCandidate) <==> pins && own && !candidate)
                && (r == Err(RevisionEmpty) <==> pins && candidate && !filled)
                && (r == Err(HeadRevisionMismatch) <==> pins && filled && expectedHead != at)
                && (r == Err(HeadVersionMismatch) <==>
                      pins && filled && expectedHead == at && expectedVersion.Some? && expectedVersion.value != moves)
    {
      if Inv(Rows()) { PromotedFromPremise(Rows(), Promote(sid, rid, expectedHead, expectedVersion)); }
      r := PromoteRevision(sid, rid, expectedHead, expectedVersion);
      if r.Err? && sid in sessions {
        events := events + [PromotionConflict(sid, rid, r.error)];
      }
    }

    method RebaseSession(sid: SessionId) returns (successor: SessionId)
      requires sid in sessions && sid != nextSession
      modifies this
      ensures successor == old(nextSession) && Rows() == Step(old(Rows()), Rebase(sid))
      ensures successor in sessions && sessions[successor].origin == Some(sid)
      ensures sessions[sid] == old(sessions[sid]).(disposition := Rebased)
      ensures revisions == old(revisions) && head == old(head) && events == old(events) + [SessionRebased(sid, Some(successor))]
      ensures Inv(old(Rows())) ==>
                StartsCurrent(Rows(), successor) && Evaluate(Rows(), sessions[sid]) == Evaluate(old(Rows()), old(sessions[sid]))
    {
      successor := InsertSession(Some(sid));
      var _ := CaptureSessionPremise(successor);
      sessions := sessions[sid := sessions[sid].(disposition := Rebased)];
      events := events + [SessionRebased(sid, Some(successor))];
      if Inv(old(Rows())) { RebasedIsCurrent(old(Rows()), sid); }
    }

    /** Branching acknowledges a premise without changing any verdict. */
    method BranchSession(sid: SessionId)
      requires sid in sessions
      modifies this`sessions, this`events
      ensures Rows() == Step(old(Rows()), Branch(sid))
      ensures sessions == old(sessions)[sid := old(sessions[sid]).(disposition := Branched)]
      ensures SameVerdicts(old(Rows()), Rows())
      ensures events == old(events) + [SessionBranched(sid, Evaluate(Rows(), sessions[sid]).state)]
    {
      var state := Evaluate(Rows(), sessions[sid]).state;
      sessions := sessions[sid := sessions[sid].(disposition := Branched)];
      events := events + [SessionBranched(sid, state)];
    }

    /** Checks nothing itself: whatever the verdict was, the session is current then.
        It keeps its result, and no other session's verdict changes. */
    method AdoptCurrentPremise(sid: SessionId)
      requires sid in sessions
      modifies this`sessions, this`events
      ensures Rows() == Step(old(Rows()), Adopt(sid))
      ensures Inv(old(Rows())) ==> sessions[sid].base == HeadId(Rows()) && Evaluate(Rows(), sessions[sid]).state == Current
      ensures sessions[sid].result == old(sessions[sid]).result
      ensures old(sessions[sid]).understanding.Some? ==> sessions[sid].understanding == old(sessions[sid]).understanding
      ensures forall s | s in sessions && s != sid ::
                s in old(sessions) && Evaluate(Rows(), sessions[s]) == Evaluate(old(Rows()), old(sessions)[s])
    {
      AdoptedAlone(old(Rows()), sid);
      var _ := CaptureSessionPremise(sid);
      events := events + [SessionRebased(sid, None)];
    }

    /** The migration on one System: with no head yet it makes the confirmed revision
        it found the first one and pins the revision's session to it. */
    method RestoreHead(rid: RevisionId) returns (restored: bool)
      modifies this
      ensures Rows() == Step(old(Rows()), Restore(rid))
      ensures restored <==> old(head).None? && rid in old(revisions) && old(revisions)[rid].content.Some?
      ensures !restored ==> Rows() == old(Rows())
      ensures restored ==>
                && head == Some(Head(rid, 1)) && rid in revisions
                && revisions[rid].status == Canonical && revisions[rid].parent == old(revisions)[rid].parent
                && revisions[rid].content == old(revisions)[rid].content
                && (forall q | q in old(revisions) && q != rid :: q in revisions && revisions[q] == old(revisions)[q])
                && (revisions[rid].session in sessions ==> sessions[revisions[rid].session].base == Some(rid))
      ensures restored && Inv(old(Rows())) ==>
                forall s | s in sessions && Evaluate(Rows(), sessions[s]).state == Current :: s == revisions[rid].session
    {
      if head.Some? || rid !in revisions || revisions[rid].content.None? {
        return false;
      }
      if Inv(old(Rows())) { OnlyOwnSessionCurrent(old(Rows()), rid); }
      var revision := revisions[rid];
      var bundle := BuildBundle(Rows(), rid, map[]);
      revisions := revisions[rid := revision.(
        status := Canonical, bundle := Some(bundle), digest := Some(DigestOf(bundle)))];
      head := Some(Head(rid, 1));
      if revision.session in sessions {
        sessions := sessions[revision.session := sessions[revision.session].(
          version := Some(PREMISE_VERSION), base := Some(rid), baseDigest := Some(DigestOf(bundle)), bundle := Some(bundle))];
      }
      events := events + [HeadMove(Promotion(revision.session, rid, None, 1, true))];
      return true;
    }
  }
}
