/** The canonical Understanding head of one System and the premises interview
    sessions pin to it (canonical_understanding.py): the stored rows, the
    verdict on a premise, and what every write does to the rows. */
module CanonicalHead {
  import opened Wrappers

  type RevisionId = nat
  type SessionId = nat
  type Content = seq<string>   // the claims of the premise sections

  const PREMISE_VERSION := "canonical-premise-v1"

  // ---- Rows ----------------------------------------------------------------

  datatype IntentStatus = Proposed | Undecided | NeedsReview | Confirmed | NotApplicable

  datatype IntentRow = IntentRow(id: nat, field: string, value: string, status: IntentStatus, origin: string, isMock: bool)

  datatype Statement = Statement(value: string, origin: string, isMock: bool, source: nat)

  /** Confirmed statements by field; the stored list is this map sorted by field. */
  type Intent = map<string, Statement>

  datatype Bundle = Bundle(version: string, revision: Option<RevisionId>, understanding: Option<Content>, intent: Intent)

  /** The digest of a bundle determines what it covers: the contract version, the
      content and the statements, but neither the revision nor the citations. */
  datatype Digest = Digest(version: string, understanding: Option<Content>, intent: map<string, (string, string, bool)>)

  datatype RevisionStatus = Candidate | Canonical | Superseded

  datatype Revision = Revision(
    session: SessionId, content: Option<Content>, status: RevisionStatus,
    parent: Option<RevisionId>, bundle: Option<Bundle>, digest: Option<Digest>)

  datatype Disposition = Active | Rebased | Branched

  datatype Session = Session(
    version: Option<string>, base: Option<RevisionId>, baseDigest: Option<Digest>, bundle: Option<Bundle>,
    disposition: Disposition, origin: Option<SessionId>, result: Option<RevisionId>,
    rows: seq<IntentRow>, understanding: Option<Content>)

  datatype Head = Head(revision: RevisionId, version: nat)

  datatype PremiseState = Current | Stale | Missing | Invalid

  datatype Reason =
    | PremiseMatchesHead | NoCanonicalHead
    | HeadMoved | PromotedByThisSession | PremiseContentChanged
    | BaseRevisionMissing
    | PremiseNotCaptured | PremiseVersionUnsupported

  datatype Verdict = Verdict(state: PremiseState, reason: Reason)

  datatype Rejection =
    | PremiseNotCurrent | HeadRevisionMismatch | HeadVersionMismatch
    | RevisionNotFound | RevisionNotCandidate | RevisionEmpty

  /** One move of the head; `restored` marks the one the migration may make. */
  datatype Promotion = Promotion(
    session: SessionId, revision: RevisionId, previous: Option<RevisionId>, version: nat, restored: bool)

  /** The append-only audit; `HeadMove` stands for both head_initialized and promoted. */
  datatype Event =
    | HeadMove(promotion: Promotion)
    | PromotionConflict(session: SessionId, revision: RevisionId, code: Rejection)
    | SessionRebased(session: SessionId, successor: Option<SessionId>)
    | SessionBranched(session: SessionId, state: PremiseState)

  datatype Db = Db(
    revisions: map<RevisionId, Revision>, sessions: map<SessionId, Session>, head: Option<Head>,
    events: seq<Event>, nextRevision: RevisionId, nextSession: SessionId)

  function DigestOf(b: Bundle): Digest {
    Digest(b.version, b.understanding,
           map f | f in b.intent :: (b.intent[f].value, b.intent[f].origin, b.intent[f].isMock))
  }

  /** Two bundles have one digest exactly when they agree on all it covers. */
  lemma DigestExactly(b: Bundle, c: Bundle)
    ensures DigestOf(b) == DigestOf(c) <==>
              && b.version == c.version && b.understanding == c.understanding
              && (forall f :: f in b.intent <==> f in c.intent)
              && (forall f | f in b.intent && f in c.intent ::
                    && b.intent[f].value == c.intent[f].value
                    && b.intent[f].origin == c.intent[f].origin && b.intent[f].isMock == c.intent[f].isMock)
  {
    var m, n := DigestOf(b).intent, DigestOf(c).intent;
    assert forall f :: f in m <==> f in b.intent;
    assert forall f :: f in n <==> f in c.intent;
    if m == n {
      forall f ensures f in b.intent <==> f in c.intent { assert f in m <==> f in n; }
      forall f | f in b.intent && f in c.intent
        ensures b.intent[f].value == c.intent[f].value
        ensures b.intent[f].origin == c.intent[f].origin && b.intent[f].isMock == c.intent[f].isMock
      {
        assert m[f] == n[f];
      }
    }
  }

  // ---- Intent --------------------------------------------------------------

  /** One row of the promoting session applied to the inherited statements. */
  function Decide(intent: Intent, row: IntentRow): Intent {
    if row.field == "" then intent
    else if row.status == Confirmed then intent[row.field := Statement(row.value, row.origin, row.isMock, row.id)]
    else if row.status == NotApplicable then intent - {row.field}
    else intent
  }

  function Merged(inherited: Intent, rows: seq<IntentRow>): Intent {
    if rows == [] then inherited else Decide(Merged(inherited, rows[..|rows| - 1]), rows[|rows| - 1])
  }

  method MergeIntentItems(inherited: Intent, rows: seq<IntentRow>) returns (merged: Intent)
    ensures merged == Merged(inherited, rows)
  {
    merged := inherited;
    for i := 0 to |rows|
      invariant merged == Merged(inherited, rows[..i])
    {
      var row := rows[i];
      if row.field != "" {
        if row.status == Confirmed {
          merged := merged[row.field := Statement(row.value, row.origin, row.isMock, row.id)];
        } else if row.status == NotApplicable {
          merged := merged - {row.field};
        }
      }
      assert rows[..i + 1][..i] == rows[..i];
    }
    assert rows[..|rows|] == rows;
  }

  predicate Decisive(row: IntentRow, field: string) {
    row.field == field && (row.status == Confirmed || row.status == NotApplicable)
  }

  /** The last row that decides `field`, if any. */
  function LastDecision(rows: seq<IntentRow>, field: string): Option<IntentRow> {
    if rows == [] then None
    else if Decisive(rows[|rows| - 1], field) then Some(rows[|rows| - 1])
    else LastDecision(rows[..|rows| - 1], field)
  }

  // ---- Reading -------------------------------------------------------------

  function EmptyBundle(): Bundle {
    Bundle(PREMISE_VERSION, None, None, map[])
  }

  function HeadId(db: Db): Option<RevisionId> {
    match db.head case None => None case Some(h) => Some(h.revision)
  }

  function HeadVersion(db: Db): nat {
    match db.head case None => 0 case Some(h) => h.version
  }

  function HeadBundle(db: Db): Option<Bundle> {
    match db.head
    case None => None
    case Some(h) => if h.revision in db.revisions then db.revisions[h.revision].bundle else None
  }

  function InheritedIntent(db: Db): Intent {
    match HeadBundle(db) case None => map[] case Some(b) => b.intent
  }

  function BuildBundle(db: Db, r: RevisionId, inherited: Intent): Bundle
    requires r in db.revisions
  {
    var rows := if db.revisions[r].session in db.sessions then db.sessions[db.revisions[r].session].rows else [];
    Bundle(PREMISE_VERSION, Some(r), db.revisions[r].content, Merged(inherited, rows))
  }

  /** First-match verdict on a session's premise against the head. */
  function Evaluate(db: Db, s: Session): Verdict {
    var headDigest := if db.head.Some? && db.head.value.revision in db.revisions
                      then db.revisions[db.head.value.revision].digest else None;
    if s.version.None? then Verdict(Invalid, PremiseNotCaptured)
    else if s.version.value != PREMISE_VERSION then Verdict(Invalid, PremiseVersionUnsupported)
    else if s.base.None? && s.bundle.Some? && s.bundle.value.revision.Some? then Verdict(Missing, BaseRevisionMissing)
    else if s.base.Some? && s.base.value !in db.revisions then Verdict(Missing, BaseRevisionMissing)
    else if db.head.None? && s.base.None? then Verdict(Current, NoCanonicalHead)
    else if db.head.Some? && s.base != HeadId(db) && s.result == HeadId(db) then Verdict(Stale, PromotedByThisSession)
    else if db.head.None? || s.base.None? then Verdict(Stale, HeadMoved)
    else if s.base != HeadId(db) then Verdict(Stale, HeadMoved)
    else if headDigest.Some? && s.baseDigest != headDigest then Verdict(Stale, PremiseContentChanged)
    else Verdict(Current, PremiseMatchesHead)
  }

  // ---- Writing -------------------------------------------------------------

  /** The premise a session pins now: the head's stored bundle, or one built on
      the spot for a head that has none, or the empty bundle without a head. */
  function PremiseToPin(db: Db): (Option<RevisionId>, Bundle) {
    match db.head
    case None => (None, EmptyBundle())
    case Some(h) =>
      if h.revision !in db.revisions then (None, EmptyBundle())
      else match db.revisions[h.revision].bundle
        case Some(b) => (Some(h.revision), b)
        case None => (Some(h.revision), BuildBundle(db, h.revision, map[]))
  }

  /** Pins the premise and, unless the session already has content, starts from it. */
  function Pinned(db: Db, s: Session): Session {
    var (base, b) := PremiseToPin(db);
    var seeded := s.understanding.None? && b.understanding.Some? && b.understanding.value != [];
    s.(version := Some(PREMISE_VERSION), base := base, baseDigest := Some(DigestOf(b)), bundle := Some(b),
       disposition := Active, understanding := if seeded then b.understanding else s.understanding)
  }

  function Captured(db: Db, sid: SessionId): Db
    requires sid in db.sessions
  {
    db.(sessions := db.sessions[sid := Pinned(db, db.sessions[sid])])
  }

  function FreshSession(origin: Option<SessionId>): Session {
    Session(None, None, None, None, Active, origin, None, [], None)
  }

  function WithSession(db: Db, s: Session): Db {
    db.(sessions := db.sessions[db.nextSession := s], nextSession := db.nextSession + 1)
  }

  function Created(db: Db, origin: Option<SessionId>): Db {
    Captured(WithSession(db, FreshSession(origin)), db.nextSession)
  }

  /** A rebuild appends a candidate derived from the session's previous revision,
      or else from its premise. */
  function Drafted(db: Db, sid: SessionId, content: Option<Content>, parent: Option<RevisionId>): Db {
    db.(revisions := db.revisions[db.nextRevision := Revision(sid, content, Candidate, parent, None, None)],
        nextRevision := db.nextRevision + 1)
  }

  /** PROTECTED_REVISION_SQL; `cited` are the revisions discussions refer to. */
  predicate Protected(db: Db, cited: set<RevisionId>, r: RevisionId) {
    || HeadId(db) == Some(r)
    || (r in db.revisions && db.revisions[r].status != Candidate)
    || r in cited
    || (exists s | s in db.sessions :: db.sessions[s].base == Some(r))
    || (exists s | s in db.sessions :: db.sessions[s].result == Some(r))
  }

  function Newer(db: Db, sid: SessionId, r: RevisionId): set<RevisionId> {
    set q | q in db.revisions && db.revisions[q].session == sid && q > r
  }

  /** Deletes the session's revisions beyond the newest `limit`, protected ones excepted. */
  function Swept(db: Db, sid: SessionId, limit: nat, cited: set<RevisionId>): Db {
    var doomed := set r | r in db.revisions && db.revisions[r].session == sid
                          && |Newer(db, sid, r)| >= limit && !Protected(db, cited, r);
    db.(revisions := db.revisions - doomed)
  }

  function RowsChanged(db: Db, sid: SessionId, rows: seq<IntentRow>): Db
    requires sid in db.sessions
  {
    db.(sessions := db.sessions[sid := db.sessions[sid].(rows := rows)])
  }

  /** Why a promotion is refused; first match in the order of the checks. */
  function PromotionRefusal(db: Db, sid: SessionId, rid: RevisionId,
                            expectedHead: Option<RevisionId>, expectedVersion: Option<nat>): Option<Rejection> {
    if sid !in db.sessions then Some(RevisionNotFound)
    else if Evaluate(db, db.sessions[sid]).state != Current then Some(PremiseNotCurrent)
    else if rid !in db.revisions || db.revisions[rid].session != sid then Some(RevisionNotFound)
    else if db.revisions[rid].status != Candidate then Some(RevisionNotCandidate)
    else if db.revisions[rid].content.None? || db.revisions[rid].content.value == [] then Some(RevisionEmpty)
    else if expectedHead != HeadId(db) then Some(HeadRevisionMismatch)
    else if expectedVersion.Some? && expectedVersion.value != HeadVersion(db) then Some(HeadVersionMismatch)
    else None
  }

  function Promoted(db: Db, sid: SessionId, rid: RevisionId): Db
    requires sid in db.sessions && rid in db.revisions
  {
    var b := BuildBundle(db, rid, InheritedIntent(db));
    var promoted := db.revisions[rid := db.revisions[rid].(
      status := Canonical, parent := HeadId(db), bundle := Some(b), digest := Some(DigestOf(b)))];
    var settled := match HeadId(db)
      case None => promoted
      case Some(h) => if h in promoted then promoted[h := promoted[h].(status := Superseded)] else promoted;
    db.(revisions := settled,
        head := Some(Head(rid, HeadVersion(db) + 1)),
        sessions := db.sessions[sid := db.sessions[sid].(result := Some(rid))],
        events := db.events + [HeadMove(Promotion(sid, rid, HeadId(db), HeadVersion(db) + 1, false))])
  }

  /** The migration's restoration of a first head from a revision somebody confirmed:
      the revision keeps its parent, and its own session is pinned to it. */
  function Restored(db: Db, rid: RevisionId): Db
    requires rid in db.revisions
  {
    var b := BuildBundle(db, rid, map[]);
    var sid := db.revisions[rid].session;
    db.(revisions := db.revisions[rid := db.revisions[rid].(
          status := Canonical, bundle := Some(b), digest := Some(DigestOf(b)))],
        head := Some(Head(rid, 1)),
        sessions := if sid in db.sessions then db.sessions[sid := RestoredPin(db.sessions[sid], rid, b)] else db.sessions,
        events := db.events + [HeadMove(Promotion(sid, rid, None, 1, true))])
  }

  function RestoredPin(s: Session, rid: RevisionId, b: Bundle): Session {
    s.(version := Some(PREMISE_VERSION), base := Some(rid), baseDigest := Some(DigestOf(b)), bundle := Some(b))
  }

  function Rebasing(db: Db, sid: SessionId): Db
    requires sid in db.sessions
  {
    var made := Created(db, Some(sid));
    if sid !in made.sessions then made
    else made.(sessions := made.sessions[sid := made.sessions[sid].(disposition := Rebased)],
               events := made.events + [SessionRebased(sid, Some(db.nextSession))])
  }

  function Branching(db: Db, sid: SessionId): Db
    requires sid in db.sessions
  {
    db.(sessions := db.sessions[sid := db.sessions[sid].(disposition := Branched)],
        events := db.events + [SessionBranched(sid, Evaluate(db, db.sessions[sid]).state)])
  }

  /** adopt_current_premise itself checks nothing. */
  function Adopted(db: Db, sid: SessionId): Db
    requires sid in db.sessions
  {
    Captured(db, sid).(events := db.events + [SessionRebased(sid, None)])
  }

  // ---- Runs ----------------------------------------------------------------

  datatype Action =
    | Create
    | Draft(session: SessionId, content: Option<Content>, parent: Option<RevisionId>)
    | Sweep(session: SessionId, limit: nat, cited: set<RevisionId>)
    | ChangeRows(session: SessionId, rows: seq<IntentRow>)
    | Promote(session: SessionId, revision: RevisionId, expectedHead: Option<RevisionId>, expectedVersion: Option<nat>)
    | Rebase(session: SessionId)
    | Branch(session: SessionId)
    | Adopt(session: SessionId)
    | Restore(revision: RevisionId)

  predicate Promotes(db: Db, a: Action) {
    a.Promote? && PromotionRefusal(db, a.session, a.revision, a.expectedHead, a.expectedVersion).None?
  }

  /** The migration runs at every start and restores a head only where there is none;
      which confirmed revision it takes is the action's parameter. */
  predicate Restores(db: Db, a: Action) {
    a.Restore? && db.head.None? && a.revision in db.revisions && db.revisions[a.revision].content.Some?
  }

  /** One transaction.  A refused promotion leaves only its audit row; adopting looks at
      no verdict. */
  function Step(db: Db, a: Action): Db {
    match a
    case Create => Created(db, None)
    case Draft(sid, content, parent) => if sid in db.sessions then Drafted(db, sid, content, parent) else db
    case Sweep(sid, limit, cited) => Swept(db, sid, limit, cited)
    case ChangeRows(sid, rows) => if sid in db.sessions then RowsChanged(db, sid, rows) else db
    case Promote(sid, rid, expectedHead, expectedVersion) =>
      (match PromotionRefusal(db, sid, rid, expectedHead, expectedVersion)
       case None => Promoted(db, sid, rid)
       case Some(code) => if sid in db.sessions then db.(events := db.events + [PromotionConflict(sid, rid, code)]) else db)
    case Rebase(sid) => if sid in db.sessions then Rebasing(db, sid) else db
    case Branch(sid) => if sid in db.sessions then Branching(db, sid) else db
    case Adopt(sid) => if sid in db.sessions then Adopted(db, sid) else db
    case Restore(rid) => if Restores(db, a) then Restored(db, rid) else db
  }

  function Run(db: Db, actions: seq<Action>): Db {
    if actions == [] then db else Step(Run(db, actions[..|actions| - 1]), actions[|actions| - 1])
  }

  /** Before the first head: only candidates, and only sessions from before
      premises were recorded. */
  ghost predicate Initial(db: Db) {
    && db.head.None? && db.events == []
    && (forall r | r in db.revisions :: r < db.nextRevision && db.revisions[r].status == Candidate)
    && (forall s | s in db.sessions ::
          s < db.nextSession && db.sessions[s].version.None? && db.sessions[s].base.None? && db.sessions[s].result.None?)
  }

  ghost predicate Reachable(db: Db) {
    exists start, actions :: Initial(start) && Run(start, actions) == db
  }

  // ---- The invariant -------------------------------------------------------

  function Moves(events: seq<Event>): seq<Promotion> {
    if events == [] then []
    else
      var e := events[|events| - 1];
      var before := Moves(events[..|events| - 1]);
      if e.HeadMove? then before + [e.promotion] else before
  }

  ghost predicate Tracked(s: Session) {
    s.version == Some(PREMISE_VERSION)
  }

  ghost predicate WasPromoted(log: seq<Promotion>, r: RevisionId) {
    exists i | 0 <= i < |log| :: log[i].revision == r
  }

  /** The log of head moves determines the head and links each move to the one before. */
  ghost predicate LogIsChain(head: Option<Head>, log: seq<Promotion>) {
    && head == (if log == [] then None else Some(Head(log[|log| - 1].revision, |log|)))
    && (forall i | 0 <= i < |log| :: log[i].version == i + 1 && (log[i].restored ==> i == 0))
    && (log != [] ==> log[0].previous == None)
    && (forall i, j | 0 <= i < j < |log| && j == i + 1 :: log[j].previous == Some(log[i].revision))
    && (forall i, j | 0 <= i < j < |log| :: log[i].revision != log[j].revision)
  }

  /** The promoted revision rows agree with the log, and no other row was promoted. */
  ghost predicate RowsFollowLog(revisions: map<RevisionId, Revision>, next: RevisionId, log: seq<Promotion>) {
    && (forall r | r in revisions :: r < next)
    && (forall i | 0 <= i < |log| ::
          && log[i].revision in revisions
          && PromotedRow(revisions[log[i].revision], log[i])
          && (revisions[log[i].revision].status == if i == |log| - 1 then Canonical else Superseded))
    && (forall r {:trigger WasPromoted(log, r)} | r in revisions && revisions[r].status != Candidate :: WasPromoted(log, r))
  }

  ghost predicate PromotedRow(row: Revision, p: Promotion) {
    && row.session == p.session && (p.restored || row.parent == p.previous)
    && row.bundle.Some? && row.bundle.value.version == PREMISE_VERSION && row.bundle.value.revision == Some(p.revision)
    && row.digest == Some(DigestOf(row.bundle.value))
  }

  /** Every tracked session pins a promoted revision by its own bundle, or nothing. */
  ghost predicate PinsFollowLog(sessions: map<SessionId, Session>, next: SessionId, revisions: map<RevisionId, Revision>,
                                log: seq<Promotion>)
  {
    && (forall s | s in sessions :: s < next)
    && (forall s {:trigger PinOk(revisions, log, sessions[s])} | s in sessions && Tracked(sessions[s]) ::
          PinOk(revisions, log, sessions[s]))
    && (forall s | s in sessions && !Tracked(sessions[s]) :: sessions[s].result.None?)
  }

  ghost predicate PinOk(revisions: map<RevisionId, Revision>, log: seq<Promotion>, s: Session) {
    && s.bundle.Some? && s.bundle.value.revision == s.base && s.baseDigest == Some(DigestOf(s.bundle.value))
    && (s.base.Some? ==>
          && WasPromoted(log, s.base.value) && s.base.value in revisions
          && revisions[s.base.value].bundle == s.bundle)
  }

  /** A session's result is the revision it promoted last; it has one exactly when it
      promoted something. */
  ghost predicate ResultsFollowLog(sessions: map<SessionId, Session>, log: seq<Promotion>) {
    && (forall i {:trigger IsLastMove(log, i, log[i].session)} | 0 <= i < |log| && IsLastMove(log, i, log[i].session) ::
          log[i].session in sessions && sessions[log[i].session].result == Some(log[i].revision))
    && (forall s {:trigger MadeMove(log, s, sessions[s].result)} | s in sessions && sessions[s].result.Some? ::
          MadeMove(log, s, sessions[s].result))
  }

  /** Move `i` is the last promotion the session made. */
  ghost predicate IsLastMove(log: seq<Promotion>, i: nat, s: SessionId) {
    i < |log| && log[i].session == s && !log[i].restored && forall j | i < j < |log| :: log[j].session != s
  }

  ghost predicate MadeMove(log: seq<Promotion>, s: SessionId, result: Option<RevisionId>) {
    exists i: nat :: IsLastMove(log, i, s) && result == Some(log[i].revision)
  }

  ghost predicate Inv(db: Db) {
    var log := Moves(db.events);
    && LogIsChain(db.head, log)
    && RowsFollowLog(db.revisions, db.nextRevision, log)
    && PinsFollowLog(db.sessions, db.nextSession, db.revisions, log)
    && ResultsFollowLog(db.sessions, log)
  }

  // ---- Every transaction keeps it ------------------------------------------

  lemma MovesAppend(events: seq<Event>, e: Event)
    ensures Moves(events + [e]) == if e.HeadMove? then Moves(events) + [e.promotion] else Moves(events)
  {
    assert (events + [e])[..|events|] == events;
  }

  /** In a good state the verdict on a tracked session compares two pointers. */
  lemma VerdictIsPointerTest(db: Db, sid: SessionId)
    requires Inv(db) && sid in db.sessions
    ensures var v := Evaluate(db, db.sessions[sid]);
            && v.reason != PremiseContentChanged && v.state != Missing
            && (v.state == Invalid <==> !Tracked(db.sessions[sid]))
            && (v.state == Current <==> Tracked(db.sessions[sid]) && db.sessions[sid].base == HeadId(db))
            && (v.reason == PromotedByThisSession ==> db.sessions[sid].result == HeadId(db))
  {
    var log := Moves(db.events);
    var s := db.sessions[sid];
    assert Tracked(s) ==> PinOk(db.revisions, log, s);
    if Tracked(s) && s.base.Some? && s.base == HeadId(db) {
      assert log[|log| - 1].revision == s.base.value;
      assert PromotedRow(db.revisions[s.base.value], log[|log| - 1]);
    }
  }

  /** In a good state a promotion goes through exactly when the session pins the head, the
      revision is its candidate with content, and the caller expected this very head; and
      which check refuses it is as exact. */
  lemma PromotionExactly(db: Db, sid: SessionId, rid: RevisionId, expectedHead: Option<RevisionId>, expectedVersion: Option<nat>)
    requires Inv(db)
    ensures var code := PromotionRefusal(db, sid, rid, expectedHead, expectedVersion);
            var at := if db.head.None? then None else Some(db.head.value.revision);
            var moves := if db.head.None? then 0 else db.head.value.version;
            var pins := sid in db.sessions && db.sessions[sid].version == Some("canonical-premise-v1")
                        && db.sessions[sid].base == at;
            var own := rid in db.revisions && db.revisions[rid].session == sid;
            var candidate := own && db.revisions[rid].status == Candidate;
            var filled := candidate && db.revisions[rid].content.Some? && db.revisions[rid].content.value != [];
            && (code.None? <==> pins && filled && expectedHead == at && (expectedVersion.Some? ==> expectedVersion.value == moves))
            && (code == Some(PremiseNotCurrent) <==> sid in db.sessions && !pins)
            && (code == Some(RevisionNotFound) <==> sid !in db.sessions || (pins && !own))
            && (code == Some(RevisionNotCandidate) <==> pins && own && !candidate)
            && (code == Some(RevisionEmpty) <==> pins && candidate && !filled)
            && (code == Some(HeadRevisionMismatch) <==> pins && filled && expectedHead != at)
            && (code == Some(HeadVersionMismatch) <==>
                  pins && filled && expectedHead == at && expectedVersion.Some? && expectedVersion.value != moves)
  {
    if sid in db.sessions { VerdictIsPointerTest(db, sid); }
  }

  lemma PinnedIsOk(db: Db, s: Session)
    requires Inv(db)
    ensures PinOk(db.revisions, Moves(db.events), Pinned(db, s)) && Pinned(db, s).base == HeadId(db)
  {
    var log := Moves(db.events);
    if log != [] {
      assert PromotedRow(db.revisions[log[|log| - 1].revision], log[|log| - 1]);
    }
  }

  /** Adding a session, or changing one without its result, keeps the invariant as long
      as the pin it ends with is in order. */
  lemma PutSession(db: Db, db': Db, sid: SessionId, s': Session)
    requires Inv(db)
    requires db'.revisions == db.revisions && db'.head == db.head && db'.nextRevision == db.nextRevision
    requires db'.sessions == db.sessions[sid := s'] && sid < db'.nextSession && db.nextSession <= db'.nextSession
    requires Moves(db'.events) == Moves(db.events)
    requires if Tracked(s') then PinOk(db.revisions, Moves(db.events), s') else s'.result.None?
    requires s'.result == if sid in db.sessions then db.sessions[sid].result else None
    ensures Inv(db')
  {
    var log := Moves(db.events);
    PutSessionPins(db, db', sid, s');
    PutSessionResults(db, db', sid, s');
  }

  lemma PutSessionPins(db: Db, db': Db, sid: SessionId, s': Session)
    requires PinsFollowLog(db.sessions, db.nextSession, db.revisions, Moves(db.events)) && db'.revisions == db.revisions
    requires db'.sessions == db.sessions[sid := s'] && sid < db'.nextSession && db.nextSession <= db'.nextSession
    requires if Tracked(s') then PinOk(db.revisions, Moves(db.events), s') else s'.result.None?
    ensures PinsFollowLog(db'.sessions, db'.nextSession, db'.revisions, Moves(db.events))
  {
    forall s | s in db'.sessions && Tracked(db'.sessions[s]) ensures PinOk(db'.revisions, Moves(db.events), db'.sessions[s]) {
      assert PinOk(db.revisions, Moves(db.events), db'.sessions[s]);
    }
  }

  lemma PutSessionResults(db: Db, db': Db, sid: SessionId, s': Session)
    requires ResultsFollowLog(db.sessions, Moves(db.events)) && db'.sessions == db.sessions[sid := s']
    requires s'.result == if sid in db.sessions then db.sessions[sid].result else None
    ensures ResultsFollowLog(db'.sessions, Moves(db.events))
  {
  }

  lemma CreateKeepsInv(db: Db, origin: Option<SessionId>)
    requires Inv(db)
    ensures Inv(Created(db, origin)) && Moves(Created(db, origin).events) == Moves(db.events)
  {
    var mid := WithSession(db, FreshSession(origin));
    PinIgnoresSessions(db, mid, FreshSession(origin));
    PinnedIsOk(db, FreshSession(origin));
    PutSession(db, Created(db, origin), db.nextSession, Pinned(db, FreshSession(origin)));
  }

  lemma PinIgnoresSessions(db: Db, db': Db, s: Session)
    requires Inv(db) && db'.revisions == db.revisions && db'.head == db.head
    ensures Pinned(db', s) == Pinned(db, s)
  {
    var log := Moves(db.events);
    assert log != [] ==> PromotedRow(db.revisions[log[|log| - 1].revision], log[|log| - 1]);
  }

  lemma AdoptKeepsInv(db: Db, sid: SessionId)
    requires Inv(db) && sid in db.sessions
    ensures Inv(Adopted(db, sid))
  {
    MovesAppend(db.events, SessionRebased(sid, None));
    PinnedIsOk(db, db.sessions[sid]);
    PutSession(db, Adopted(db, sid), sid, Pinned(db, db.sessions[sid]));
  }

  lemma RebaseKeepsInv(db: Db, sid: SessionId)
    requires Inv(db) && sid in db.sessions
    ensures Inv(Rebasing(db, sid))
  {
    CreateKeepsInv(db, Some(sid));
    var made := Created(db, Some(sid));
    MovesAppend(made.events, SessionRebased(sid, Some(db.nextSession)));
    var s' := made.sessions[sid].(disposition := Rebased);
    assert Tracked(s') ==> PinOk(made.revisions, Moves(made.events), made.sessions[sid]);
    PutSession(made, Rebasing(db, sid), sid, s');
  }

  lemma SweepKeepsInv(db: Db, sid: SessionId, limit: nat, cited: set<RevisionId>)
    requires Inv(db)
    ensures Inv(Swept(db, sid, limit, cited))
  {
    var db' := Swept(db, sid, limit, cited);
    forall s | s in db.sessions && Tracked(db.sessions[s]) ensures PinOk(db'.revisions, Moves(db'.events), db'.sessions[s]) {
      assert PinOk(db.revisions, Moves(db.events), db.sessions[s]);
    }
  }

  /** What the promotion step starts from. */
  lemma PromotionStart(db: Db, a: Action)
    requires Inv(db) && Promotes(db, a)
    ensures a.session in db.sessions && Tracked(db.sessions[a.session]) && db.sessions[a.session].base == HeadId(db)
    ensures a.revision in db.revisions && db.revisions[a.revision].session == a.session
    ensures !WasPromoted(Moves(db.events), a.revision) && HeadId(db) != Some(a.revision)
  {
    var log := Moves(db.events);
    VerdictIsPointerTest(db, a.session);
    forall i | 0 <= i < |log| ensures log[i].revision != a.revision {}
  }

  /** What a promotion writes: the head moves on by one to the revision, which keeps its
      content, takes the old head for parent and freezes content and intent; the old head
      is superseded; the session has its result; and no other row changes. */
  lemma PromotionWrites(db: Db, a: Action)
    requires Inv(db) && Promotes(db, a)
    ensures var db', at := Step(db, a), if db.head.None? then None else Some(db.head.value.revision);
            && db'.head == Some(Head(a.revision, if db.head.None? then 1 else db.head.value.version + 1))
            && a.revision in db.revisions && db'.revisions.Keys == db.revisions.Keys
            && var was, now := db.revisions[a.revision], db'.revisions[a.revision];
            && now == was.(status := Canonical, parent := at, bundle := now.bundle, digest := now.digest)
            && now.bundle.Some? && now.bundle.value.understanding == was.content
            && now.bundle.value.revision == Some(a.revision)
            && now.bundle.value.intent
               == Merged(if HeadBundle(db).None? then map[] else HeadBundle(db).value.intent, db.sessions[a.session].rows)
            && (forall q | q in db.revisions && q != a.revision ::
                  db'.revisions[q] == if at == Some(q) then db.revisions[q].(status := Superseded) else db.revisions[q])
            && db'.sessions == db.sessions[a.session := db.sessions[a.session].(result := Some(a.revision))]
            && db'.events == db.events + [HeadMove(Promotion(a.session, a.revision, at, db'.head.value.version, false))]
  {
    PromotionStart(db, a);
  }

  lemma PromoteKeepsInv(db: Db, a: Action)
    requires Inv(db) && Promotes(db, a)
    ensures Inv(Step(db, a))
    ensures Moves(Step(db, a).events)
         == Moves(db.events) + [Promotion(a.session, a.revision, HeadId(db), HeadVersion(db) + 1, false)]
  {
    var log := Moves(db.events);
    var db' := Step(db, a);
    MovesAppend(db.events, HeadMove(Promotion(a.session, a.revision, HeadId(db), HeadVersion(db) + 1, false)));
    PromotionStart(db, a);
    PromoteKeepsChain(db, a);
    PromoteKeepsRows(db, a);
    PromoteKeepsPins(db, a);
    PromoteKeepsResults(db, a);
  }

  ghost function LogAfter(db: Db, a: Action): seq<Promotion>
    requires Promotes(db, a)
  {
    Moves(db.events) + [Promotion(a.session, a.revision, HeadId(db), HeadVersion(db) + 1, false)]
  }

  lemma PromoteKeepsChain(db: Db, a: Action)
    requires LogIsChain(db.head, Moves(db.events)) && Promotes(db, a) && !WasPromoted(Moves(db.events), a.revision)
    ensures LogIsChain(Step(db, a).head, LogAfter(db, a))
  {
    var log := Moves(db.events);
    forall i | 0 <= i < |log| ensures log[i].revision != a.revision {}
  }

  lemma PromoteKeepsRows(db: Db, a: Action)
    requires LogIsChain(db.head, Moves(db.events)) && RowsFollowLog(db.revisions, db.nextRevision, Moves(db.events)) && Promotes(db, a)
    requires !WasPromoted(Moves(db.events), a.revision) && HeadId(db) != Some(a.revision)
    ensures RowsFollowLog(Step(db, a).revisions, Step(db, a).nextRevision, LogAfter(db, a))
  {
    var log, log' := Moves(db.events), LogAfter(db, a);
    var db' := Step(db, a);
    forall i | 0 <= i < |log'|
      ensures log'[i].revision in db'.revisions && PromotedRow(db'.revisions[log'[i].revision], log'[i])
      ensures db'.revisions[log'[i].revision].status == if i == |log'| - 1 then Canonical else Superseded
    {
      if i < |log| {
        assert log[i].revision != a.revision && PromotedRow(db.revisions[log[i].revision], log[i]);
      }
    }
    forall r | r in db'.revisions && db'.revisions[r].status != Candidate ensures WasPromoted(log', r) {
      if r == a.revision {
        assert log'[|log|].revision == r;
      } else {
        assert WasPromoted(log, r);
        var i :| 0 <= i < |log| && log[i].revision == r;
        assert log'[i].revision == r;
      }
    }
  }

  lemma PromoteKeepsPins(db: Db, a: Action)
    requires Inv(db) && Promotes(db, a) && !WasPromoted(Moves(db.events), a.revision)
    requires Tracked(db.sessions[a.session])
    ensures PinsFollowLog(Step(db, a).sessions, Step(db, a).nextSession, Step(db, a).revisions, LogAfter(db, a))
  {
    var log, log' := Moves(db.events), LogAfter(db, a);
    var db' := Step(db, a);
    forall s | s in db'.sessions && Tracked(db'.sessions[s]) ensures PinOk(db'.revisions, log', db'.sessions[s]) {
      assert PinOk(db.revisions, log, db.sessions[s]);
      PromoteKeepsPin(db, a, db.sessions[s]);
    }
  }

  lemma PromoteKeepsPin(db: Db, a: Action, s: Session)
    requires Promotes(db, a) && !WasPromoted(Moves(db.events), a.revision) && PinOk(db.revisions, Moves(db.events), s)
    ensures PinOk(Step(db, a).revisions, LogAfter(db, a), s)
    ensures PinOk(Step(db, a).revisions, LogAfter(db, a), s.(result := Some(a.revision)))
  {
    var log, log' := Moves(db.events), LogAfter(db, a);
    if s.base.Some? {
      var i :| 0 <= i < |log| && log[i].revision == s.base.value;
      assert log'[i].revision == log[i].revision;
    }
  }

  lemma PromoteKeepsResults(db: Db, a: Action)
    requires ResultsFollowLog(db.sessions, Moves(db.events)) && Promotes(db, a)
    ensures ResultsFollowLog(Step(db, a).sessions, LogAfter(db, a))
  {
    var log, log' := Moves(db.events), LogAfter(db, a);
    var db' := Step(db, a);
    forall s | s in db'.sessions && db'.sessions[s].result.Some?
      ensures MadeMove(log', s, db'.sessions[s].result)
    {
      if s == a.session {
        assert IsLastMove(log', |log|, s);
      } else {
        assert MadeMove(log, s, db.sessions[s].result);
        var i: nat :| IsLastMove(log, i, s) && db.sessions[s].result == Some(log[i].revision);
        assert IsLastMove(log', i, s);
      }
    }
    forall i | 0 <= i < |log'| && IsLastMove(log', i, log'[i].session)
      ensures log'[i].session in db'.sessions && db'.sessions[log'[i].session].result == Some(log'[i].revision)
    {
      if i < |log| {
        assert log'[|log|].session != log[i].session;
        LastMoveBefore(log, log'[|log|], i);
      }
    }
  }

  lemma LastMoveBefore(log: seq<Promotion>, p: Promotion, i: nat)
    requires i < |log| && IsLastMove(log + [p], i, log[i].session)
    ensures IsLastMove(log, i, log[i].session)
  {
    forall j | i < j < |log| ensures log[j].session != log[i].session { assert (log + [p])[j] == log[j]; }
  }

  /** Without a head nothing is pinned to a revision and nothing has a result. */
  lemma NoHeadNoPins(db: Db, sid: SessionId)
    requires Inv(db) && db.head.None? && sid in db.sessions
    ensures Tracked(db.sessions[sid]) ==> db.sessions[sid].base.None?
    ensures db.sessions[sid].result.None? && Moves(db.events) == []
  {
    var log := Moves(db.events);
    assert log == [];
    if Tracked(db.sessions[sid]) { assert PinOk(db.revisions, log, db.sessions[sid]); }
    assert !MadeMove(log, sid, db.sessions[sid].result);
  }

  lemma RestoreKeepsInv(db: Db, a: Action)
    requires Inv(db) && Restores(db, a)
    ensures Inv(Step(db, a))
    ensures Moves(Step(db, a).events) == [Promotion(db.revisions[a.revision].session, a.revision, None, 1, true)]
  {
    var rid := a.revision;
    var p := Promotion(db.revisions[rid].session, rid, None, 1, true);
    MovesAppend(db.events, HeadMove(p));
    assert Moves(db.events) == [];
    RestoreRows(db, rid, p);
    RestorePins(db, rid, p);
    RestoreResults(db, rid, p);
  }

  lemma RestoreRows(db: Db, rid: RevisionId, p: Promotion)
    requires Inv(db) && db.head.None? && rid in db.revisions
    requires p.revision == rid && p.session == db.revisions[rid].session && p.restored
    ensures RowsFollowLog(Restored(db, rid).revisions, db.nextRevision, [p])
  {
    var rows := Restored(db, rid).revisions;
    assert [p][0].revision == rid;
    forall r | r in rows && rows[r].status != Candidate ensures WasPromoted([p], r) {
      assert !WasPromoted(Moves(db.events), r);
    }
  }

  lemma RestorePins(db: Db, rid: RevisionId, p: Promotion)
    requires Inv(db) && db.head.None? && rid in db.revisions && p.revision == rid
    ensures PinsFollowLog(Restored(db, rid).sessions, db.nextSession, Restored(db, rid).revisions, [p])
  {
    var db' := Restored(db, rid);
    assert [p][0].revision == rid;
    forall s | s in db'.sessions && Tracked(db'.sessions[s]) ensures PinOk(db'.revisions, [p], db'.sessions[s]) {
      NoHeadNoPins(db, s);
      if s != db.revisions[rid].session { assert PinOk(db.revisions, Moves(db.events), db.sessions[s]); }
    }
    forall s | s in db'.sessions ensures db'.sessions[s].result.None? { NoHeadNoPins(db, s); }
  }

  lemma RestoreResults(db: Db, rid: RevisionId, p: Promotion)
    requires Inv(db) && db.head.None? && rid in db.revisions && p.restored
    ensures ResultsFollowLog(Restored(db, rid).sessions, [p])
  {
    forall s | s in db.sessions ensures Restored(db, rid).sessions[s].result.None? { NoHeadNoPins(db, s); }
  }

  lemma StepKeepsInv(db: Db, a: Action)
    requires Inv(db)
    ensures Inv(Step(db, a))
  {
    match a
    case Create => CreateKeepsInv(db, None);
    case Draft(sid, content, parent) => DraftKeepsInv(db, sid, content, parent);
    case Sweep(sid, limit, cited) => SweepKeepsInv(db, sid, limit, cited);
    case ChangeRows(sid, rows) => if sid in db.sessions { RowsKeepInv(db, sid, rows); }
    case Promote(_, _, _, _) => AttemptKeepsInv(db, a);
    case Rebase(sid) => if sid in db.sessions { RebaseKeepsInv(db, sid); }
    case Branch(sid) => if sid in db.sessions { BranchKeepsInv(db, sid); }
    case Adopt(sid) => if sid in db.sessions { AdoptKeepsInv(db, sid); }
    case Restore(rid) => if Restores(db, a) { RestoreKeepsInv(db, a); }
  }

  lemma AttemptKeepsInv(db: Db, a: Action)
    requires Inv(db) && a.Promote?
    ensures Inv(Step(db, a))
  {
    match PromotionRefusal(db, a.session, a.revision, a.expectedHead, a.expectedVersion)
    case None => PromoteKeepsInv(db, a);
    case Some(code) => ConflictKeepsInv(db, a.session, a.revision, code);
  }

  lemma RowsKeepInv(db: Db, sid: SessionId, rows: seq<IntentRow>)
    requires Inv(db) && sid in db.sessions
    ensures Inv(RowsChanged(db, sid, rows))
  {
    var s := db.sessions[sid];
    assert Tracked(s) ==> PinOk(db.revisions, Moves(db.events), s);
    PutSession(db, RowsChanged(db, sid, rows), sid, s.(rows := rows));
  }

  lemma BranchKeepsInv(db: Db, sid: SessionId)
    requires Inv(db) && sid in db.sessions
    ensures Inv(Branching(db, sid))
  {
    var s := db.sessions[sid];
    MovesAppend(db.events, SessionBranched(sid, Evaluate(db, s).state));
    assert Tracked(s) ==> PinOk(db.revisions, Moves(db.events), s);
    PutSession(db, Branching(db, sid), sid, s.(disposition := Branched));
  }

  lemma DraftKeepsInv(db: Db, sid: SessionId, content: Option<Content>, parent: Option<RevisionId>)
    requires Inv(db)
    ensures Inv(Drafted(db, sid, content, parent))
  {
    var db' := Drafted(db, sid, content, parent);
    forall s | s in db.sessions && Tracked(db.sessions[s]) ensures PinOk(db'.revisions, Moves(db.events), db'.sessions[s]) {
      assert PinOk(db.revisions, Moves(db.events), db.sessions[s]);
    }
  }

  lemma ConflictKeepsInv(db: Db, sid: SessionId, rid: RevisionId, code: Rejection)
    requires Inv(db)
    ensures Inv(db.(events := db.events + [PromotionConflict(sid, rid, code)]))
  {
    MovesAppend(db.events, PromotionConflict(sid, rid, code));
  }

  lemma {:induction false} RunKeepsInv(db: Db, actions: seq<Action>)
    requires Inv(db)
    ensures Inv(Run(db, actions))
  {
    if actions != [] {
      RunKeepsInv(db, actions[..|actions| - 1]);
      StepKeepsInv(Run(db, actions[..|actions| - 1]), actions[|actions| - 1]);
    }
  }

  lemma ReachableInv(db: Db)
    requires Reachable(db)
    ensures Inv(db)
  {
    var start, actions :| Initial(start) && Run(start, actions) == db;
    assert Inv(start);
    RunKeepsInv(start, actions);
  }
}
