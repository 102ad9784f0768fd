/** Checking a model's answer against the trimmed pack (assistant.py): what may be
    cited is what is still in the payload. */
module Grounding {
  import opened Wrappers
  import opened ContextBudget
  import opened ContextGuarantees
  import opened ContextTrimmer

  datatype SourceType = Setting | DiagnosticCheck | PipelineStep | StateItem | ScreenData | UiDraft | RelatedContext
  datatype Source = Source(type_: SourceType, id: string)

  datatype PointKind = Fact | Interpretation | Unknown
  datatype RawPoint = RawPoint(kind: PointKind, text: string, sources: seq<Source>)

  datatype Verdict = Supported | Stale | Unsupported | NotRequired
  datatype Point = Point(kind: PointKind, text: string, sources: seq<Source>, grounding: Verdict)

  datatype AnswerState = NoFacts | Grounded | PartiallyGrounded | Ungrounded

  /** The citable names the budget never touches. */
  datatype Catalogue = Catalogue(pipelineSteps: set<string>, screenSources: set<string>, draftSources: set<string>,
                                 targetStale: bool)

  const TARGET_PREFIX := "discussion_target:"

  predicate Citable(p: Pack, c: Catalogue, s: Source) {
    match s.type_
    case Setting => s.id in p.settings
    case DiagnosticCheck => exists k | k in p.checks :: k.checkId == s.id
    case PipelineStep => s.id in c.pipelineSteps
    case StateItem => s.id in p.stateItems
    case ScreenData => s.id in c.screenSources
    case UiDraft => s.id in c.draftSources
    case RelatedContext => exists e | e in p.related :: e.sourceId == s.id
  }

  predicate SourceIsStale(p: Pack, c: Catalogue, s: Source) {
    match s.type_
    case RelatedContext => exists e | e in p.related :: e.sourceId == s.id && e.stale
    case ScreenData => TARGET_PREFIX <= s.id && c.targetStale
    case _ => false
  }

  function FreshlyCitable(p: Pack, c: Catalogue, s: Source): bool {
    Citable(p, c, s) && !SourceIsStale(p, c, s)
  }

  /** The pack holds an entry of that name, in the section the source's type stands for. */
  ghost predicate Present(p: Pack, c: Catalogue, s: Source) {
    || (s.type_ == Setting && s.id in p.settings)
    || (s.type_ == DiagnosticCheck && exists ok :: Check(s.id, ok) in p.checks)
    || (s.type_ == PipelineStep && s.id in c.pipelineSteps)
    || (s.type_ == StateItem && s.id in p.stateItems)
    || (s.type_ == ScreenData && s.id in c.screenSources)
    || (s.type_ == UiDraft && s.id in c.draftSources)
    || (s.type_ == RelatedContext && exists depth, stale :: Related(s.id, depth, stale) in p.related)
  }

  /** The entry has been marked stale, or is the discussion target when that is. */
  ghost predicate MarkedStale(p: Pack, c: Catalogue, s: Source) {
    || (s.type_ == RelatedContext && exists depth :: Related(s.id, depth, true) in p.related)
    || (s.type_ == ScreenData && "discussion_target:" <= s.id && c.targetStale)
  }

  lemma CitableIsPresent(p: Pack, c: Catalogue, s: Source)
    ensures Citable(p, c, s) <==> Present(p, c, s)
    ensures SourceIsStale(p, c, s) <==> MarkedStale(p, c, s)
  {
    forall k | k in p.checks ensures k == Check(k.checkId, k.ok) {}
    forall e | e in p.related ensures e == Related(e.sourceId, e.depth, e.stale) {}
    assert forall ok :: Check(s.id, ok).checkId == s.id;
    assert forall depth, stale :: Related(s.id, depth, stale).sourceId == s.id;
  }

  /** What a point's standing has to be, from the sources it names. */
  ghost function VerdictFor(p: Pack, c: Catalogue, raw: RawPoint): Verdict {
    if raw.kind == Fact then
      if exists s | s in raw.sources :: FreshlyCitable(p, c, s) then Supported
      else if exists s | s in raw.sources :: Citable(p, c, s) then Stale
      else Unsupported
    else if raw.kind == Interpretation && exists s | s in raw.sources :: Citable(p, c, s) then Supported
    else NotRequired
  }

  /** The citable ones of `sources`, each once, in order of first mention, after `list`. */
  function Remembered(p: Pack, c: Catalogue, list: seq<Source>, sources: seq<Source>): seq<Source> {
    if sources == [] then list
    else
      var before := Remembered(p, c, list, sources[..|sources| - 1]);
      var s := sources[|sources| - 1];
      if Citable(p, c, s) && s !in before then before + [s] else before
  }

  function Refused(p: Pack, c: Catalogue, sources: seq<Source>): nat {
    if sources == [] then 0
    else Refused(p, c, sources[..|sources| - 1]) + if Citable(p, c, sources[|sources| - 1]) then 0 else 1
  }

  lemma {:induction false} RememberedMembers(p: Pack, c: Catalogue, list: seq<Source>, sources: seq<Source>)
    ensures forall s :: s in Remembered(p, c, list, sources) <==> s in list || (s in sources && Citable(p, c, s))
    ensures Distinct(list) ==> Distinct(Remembered(p, c, list, sources))
    ensures list <= Remembered(p, c, list, sources)
  {
    if sources != [] {
      assert sources == sources[..|sources| - 1] + [sources[|sources| - 1]];
      RememberedMembers(p, c, list, sources[..|sources| - 1]);
    }
  }

  /** Keeps the citable sources of one point. */
  method Screen(p: Pack, c: Catalogue, sources: seq<Source>) returns (valid: seq<Source>, rejected: nat)
    ensures valid == Remembered(p, c, [], sources)
    ensures Distinct(valid) && forall s :: s in valid <==> s in sources && Citable(p, c, s)
    ensures rejected == Refused(p, c, sources)
  {
    valid, rejected := [], 0;
    for i := 0 to |sources|
      invariant valid == Remembered(p, c, [], sources[..i])
      invariant rejected == Refused(p, c, sources[..i])
    {
      assert sources[..i + 1][..i] == sources[..i];
      if !Citable(p, c, sources[i]) {
        rejected := rejected + 1;
      } else if sources[i] !in valid {
        valid := valid + [sources[i]];
      }
    }
    assert sources[..|sources|] == sources;
    RememberedMembers(p, c, [], sources);
  }

  method Remember(p: Pack, c: Catalogue, list: seq<Source>, valid: seq<Source>) returns (grown: seq<Source>)
    requires Distinct(list)
    requires forall s | s in valid :: Citable(p, c, s)
    ensures Distinct(grown) && list <= grown
    ensures forall s :: s in grown <==> s in list || s in valid
  {
    grown := list;
    for i := 0 to |valid|
      invariant grown == Remembered(p, c, list, valid[..i])
    {
      assert valid[..i + 1][..i] == valid[..i];
      assert valid[i] in valid;
      if valid[i] !in grown {
        grown := grown + [valid[i]];
      }
    }
    assert valid[..|valid|] == valid;
    RememberedMembers(p, c, list, valid);
  }

  method Judge(p: Pack, c: Catalogue, raw: RawPoint, valid: seq<Source>) returns (v: Verdict)
    requires forall s :: s in valid <==> s in raw.sources && Citable(p, c, s)
    ensures v == VerdictFor(p, c, raw)
  {
    if valid != [] {
      assert valid[0] in valid;
    }
    if raw.kind == Fact {
      if valid == [] {
        v := Unsupported;
      } else if exists s | s in valid :: !SourceIsStale(p, c, s) {
        v := Supported;
        assert exists s | s in raw.sources :: FreshlyCitable(p, c, s);
      } else {
        v := Stale;
      }
    } else if raw.kind == Interpretation {
      v := if valid != [] then Supported else NotRequired;
    } else {
      v := NotRequired;
    }
  }

  datatype Response = Response(points: seq<Point>, citations: seq<Source>, state: AnswerState,
                               counts: map<Verdict, nat>, rejected: nat)

  function Tally(points: seq<Point>, v: Verdict): nat {
    if points == [] then 0
    else Tally(points[..|points| - 1], v) + if points[|points| - 1].grounding == v then 1 else 0
  }

  function RefusedInAll(p: Pack, c: Catalogue, points: seq<RawPoint>): nat {
    if points == [] then 0
    else RefusedInAll(p, c, points[..|points| - 1]) + Refused(p, c, points[|points| - 1].sources)
  }

  ghost predicate PointGrounded(p: Pack, c: Catalogue, raw: RawPoint, out: Point) {
    && out.kind == raw.kind && out.text == raw.text
    && out.sources == Remembered(p, c, [], raw.sources)
    && out.grounding == VerdictFor(p, c, raw)
  }

  ghost predicate Mentions(points: seq<RawPoint>, s: Source) {
    exists i | 0 <= i < |points| :: s in points[i].sources
  }

  ghost predicate StateFits(state: AnswerState, points: seq<Point>) {
    match state
    case NoFacts => forall q | q in points :: q.kind != Fact
    case Grounded =>
      && (exists q | q in points :: q.kind == Fact)
      && forall q | q in points && q.kind == Fact :: q.grounding == Supported
    case PartiallyGrounded =>
      && (exists q | q in points :: q.kind == Fact && q.grounding == Supported)
      && exists q | q in points :: q.kind == Fact && q.grounding != Supported
    case Ungrounded =>
      && (exists q | q in points :: q.kind == Fact)
      && forall q | q in points && q.kind == Fact :: q.grounding != Supported
  }

  method AnswerStateOf(points: seq<Point>) returns (state: AnswerState)
    ensures StateFits(state, points)
  {
    var facts, supported := 0, 0;
    for i := 0 to |points|
      invariant 0 <= supported <= facts
      invariant facts == 0 <==> forall k | 0 <= k < i :: points[k].kind != Fact
      invariant supported == facts <==> forall k | 0 <= k < i && points[k].kind == Fact :: points[k].grounding == Supported
      invariant supported == 0 <==> forall k | 0 <= k < i && points[k].kind == Fact :: points[k].grounding != Supported
    {
      if points[i].kind == Fact {
        facts := facts + 1;
        if points[i].grounding == Supported {
          supported := supported + 1;
        }
      }
    }
    state := if facts == 0 then NoFacts else if supported == facts then Grounded
             else if supported > 0 then PartiallyGrounded else Ungrounded;
  }

  method GroundPoint(p: Pack, c: Catalogue, raw: RawPoint) returns (q: Point, refused: nat)
    ensures PointGrounded(p, c, raw, q) && refused == Refused(p, c, raw.sources)
    ensures forall s :: s in q.sources <==> s in raw.sources && Citable(p, c, s)
  {
    var valid;
    valid, refused := Screen(p, c, raw.sources);
    var v := Judge(p, c, raw, valid);
    q := Point(raw.kind, raw.text, valid, v);
  }

  method GroundPoints(p: Pack, c: Catalogue, points: seq<RawPoint>)
    returns (out: seq<Point>, keys: seq<Source>, rejected: nat)
    ensures |out| == |points| && forall i | 0 <= i < |points| :: PointGrounded(p, c, points[i], out[i])
    ensures Distinct(keys)
    ensures forall s :: s in keys <==> Mentions(points, s) && Citable(p, c, s)
    ensures rejected == RefusedInAll(p, c, points)
  {
    out, keys, rejected := [], [], 0;
    for i := 0 to |points|
      invariant |out| == i && forall k | 0 <= k < i :: PointGrounded(p, c, points[k], out[k])
      invariant Distinct(keys) && KeysAre(p, c, points[..i], keys)
      invariant rejected == RefusedInAll(p, c, points[..i])
    {
      var q, refused := GroundPoint(p, c, points[i]);
      ghost var before := keys;
      keys := Remember(p, c, keys, q.sources);
      KeysGrow(p, c, points, i, before, q.sources, keys);
      RefusedGrows(p, c, points, i);
      out := out + [q];
      rejected := rejected + refused;
    }
    assert points[..|points|] == points;
  }

  /** The keys are the citable sources the points mention. */
  ghost predicate KeysAre(p: Pack, c: Catalogue, points: seq<RawPoint>, keys: seq<Source>) {
    forall s :: s in keys <==> Mentions(points, s) && Citable(p, c, s)
  }

  lemma KeysGrow(p: Pack, c: Catalogue, points: seq<RawPoint>, i: nat, keys: seq<Source>, valid: seq<Source>, grown: seq<Source>)
    requires i < |points| && KeysAre(p, c, points[..i], keys)
    requires forall s :: s in valid <==> s in points[i].sources && Citable(p, c, s)
    requires forall s :: s in grown <==> s in keys || s in valid
    ensures KeysAre(p, c, points[..i + 1], grown)
  {
    MentionsGrow(points, i);
  }

  lemma RefusedGrows(p: Pack, c: Catalogue, points: seq<RawPoint>, i: nat)
    requires i < |points|
    ensures RefusedInAll(p, c, points[..i + 1]) == RefusedInAll(p, c, points[..i]) + Refused(p, c, points[i].sources)
  {
    assert points[..i + 1][..i] == points[..i];
  }

  method CountVerdicts(points: seq<Point>) returns (counts: map<Verdict, nat>)
    ensures counts.Keys == {Supported, Stale, Unsupported, NotRequired}
    ensures forall v | v in counts :: counts[v] == Tally(points, v)
  {
    counts := map[Supported := 0, Stale := 0, Unsupported := 0, NotRequired := 0];
    for i := 0 to |points|
      invariant counts.Keys == {Supported, Stale, Unsupported, NotRequired}
      invariant forall v | v in counts :: counts[v] == Tally(points[..i], v)
    {
      assert points[..i + 1][..i] == points[..i];
      var v := points[i].grounding;
      assert v.Supported? || v.Stale? || v.Unsupported? || v.NotRequired?;
      counts := counts[v := counts[v] + 1];
    }
    assert points[..|points|] == points;
  }

  /** Every citation that comes out names something still in the pack; everything
      citable that was mentioned comes out, once. */
  method GroundResponse(p: Pack, c: Catalogue, points: seq<RawPoint>, citations: seq<Source>) returns (r: Response)
    ensures |r.points| == |points| && forall i | 0 <= i < |points| :: PointGrounded(p, c, points[i], r.points[i])
    ensures Distinct(r.citations)
    ensures forall s :: s in r.citations <==> (Mentions(points, s) || s in citations) && Citable(p, c, s)
    ensures r.rejected == RefusedInAll(p, c, points) + Refused(p, c, citations)
    ensures r.counts.Keys == {Supported, Stale, Unsupported, NotRequired}
    ensures forall v | v in r.counts :: r.counts[v] == Tally(r.points, v)
    ensures StateFits(r.state, r.points)
    ensures forall s :: s in r.citations <==> (Mentions(points, s) || s in citations) && Present(p, c, s)
  {
    var out, keys, rejected := GroundPoints(p, c, points);
    var valid, refused := Screen(p, c, citations);
    keys := Remember(p, c, keys, valid);
    var counts := CountVerdicts(out);
    var state := AnswerStateOf(out);
    r := Response(out, keys, state, counts, rejected + refused);
    forall s ensures Citable(p, c, s) <==> Present(p, c, s) { CitableIsPresent(p, c, s); }
  }

  /** A checked point keeps exactly the sources the pack holds; a fact is supported by one
      that is not stale, stale when it has only stale ones, and unsupported without any. */
  lemma PointReads(p: Pack, c: Catalogue, raw: RawPoint, out: Point)
    requires PointGrounded(p, c, raw, out)
    ensures forall s :: s in out.sources <==> s in raw.sources && Present(p, c, s)
    ensures raw.kind == Fact ==>
              && (out.grounding == Supported <==> exists s :: s in out.sources && !MarkedStale(p, c, s))
              && (out.grounding == Stale <==> out.sources != [] && forall s | s in out.sources :: MarkedStale(p, c, s))
              && (out.grounding == Unsupported <==> out.sources == [])
    ensures raw.kind == Interpretation ==> out.grounding == if out.sources != [] then Supported else NotRequired
    ensures raw.kind == Unknown ==> out.grounding == NotRequired
  {
    RememberedMembers(p, c, [], raw.sources);
    forall s ensures (Citable(p, c, s) <==> Present(p, c, s)) && (SourceIsStale(p, c, s) <==> MarkedStale(p, c, s)) {
      CitableIsPresent(p, c, s);
    }
    if out.sources != [] { assert out.sources[0] in out.sources; }
  }

  /** The places of the sources the pack holds no entry of. */
  ghost function Absent(p: Pack, c: Catalogue, sources: seq<Source>): set<nat> {
    set i: nat | i < |sources| && !Present(p, c, sources[i])
  }

  lemma AbsentGrows(p: Pack, c: Catalogue, sources: seq<Source>, s: Source)
    ensures Absent(p, c, sources + [s]) == Absent(p, c, sources) + if Present(p, c, s) then {} else {|sources|}
    ensures |sources| !in Absent(p, c, sources)
  {
    forall i: nat | i < |sources| ensures (sources + [s])[i] == sources[i] {}
  }

  /** The refused sources are those the pack holds no entry of, each as often as it is named. */
  lemma {:induction false} RefusedExactly(p: Pack, c: Catalogue, sources: seq<Source>)
    ensures Refused(p, c, sources) == |Absent(p, c, sources)|
  {
    if sources != [] {
      var n := |sources| - 1;
      RefusedExactly(p, c, sources[..n]);
      CitableIsPresent(p, c, sources[n]);
      AbsentGrows(p, c, sources[..n], sources[n]);
      assert sources == sources[..n] + [sources[n]];
    }
  }

  lemma MentionsGrow(points: seq<RawPoint>, i: nat)
    requires i < |points|
    ensures forall s :: Mentions(points[..i + 1], s) <==> Mentions(points[..i], s) || s in points[i].sources
  {
    forall s ensures Mentions(points[..i + 1], s) <==> Mentions(points[..i], s) || s in points[i].sources {
      if Mentions(points[..i], s) {
        var k :| 0 <= k < i && s in points[..i][k].sources;
        assert s in points[..i + 1][k].sources;
      }
      if s in points[i].sources {
        assert s in points[..i + 1][i].sources;
      }
    }
  }

  lemma {:induction false} TalliesCoverAll(points: seq<Point>)
    ensures Tally(points, Supported) + Tally(points, Stale) + Tally(points, Unsupported) + Tally(points, NotRequired)
         == |points|
  {
    if points != [] {
      TalliesCoverAll(points[..|points| - 1]);
    }
  }

  /** What can be cited after trimming could be cited before, and a mentioned setting,
      a failing or mentioned check and the focused state item stay citable. */
  lemma TrimmingOnlyRevokes(z: Sizes, limit: nat, trim: bool, p: Pack, c: Catalogue, s: Source)
    requires Dictionary(p)
    ensures var r := Budgeted(z, limit, trim, p);
            && (Citable(r, c, s) ==> Citable(p, c, s))
            && (s.type_ == Setting && s.id in p.mentionedSettings && Citable(p, c, s) ==> Citable(r, c, s))
            && (s.type_ == DiagnosticCheck && s.id in p.mentionedChecks && Citable(p, c, s) ==> Citable(r, c, s))
            && (s.type_ == StateItem && p.focused == Some(s.id) && Citable(p, c, s) ==> Citable(r, c, s))
            && (s.type_ in {PipelineStep, ScreenData, UiDraft} ==> Citable(r, c, s) == Citable(p, c, s))
  {
    BudgetKeepsProtected(z, limit, trim, p);
    var r := Budgeted(z, limit, trim, p);
    assert CheckProtected(p.mentionedChecks)(Check(s.id, true)) == (s.id in p.mentionedChecks);
    if s.type_ == DiagnosticCheck && s.id in p.mentionedChecks && Citable(p, c, s) {
      var k :| k in p.checks && k.checkId == s.id;
      assert k in r.checks;
    }
  }

  /** The two steps of an ask: fit the pack, then check the answer against it.  Every
      citation names an entry of the pack that was sent, and one of the pack that was built. */
  method AnswerWithinBudget(pack: ContextPack, z: Sizes, limit: nat, c: Catalogue, points: seq<RawPoint>, citations: seq<Source>)
    returns (r: Response)
    requires Dictionary(pack.State())
    modifies pack
    ensures pack.State() == Budgeted(z, limit, true, old(pack.State()))
    ensures forall s :: s in r.citations <==> (Mentions(points, s) || s in citations) && Citable(pack.State(), c, s)
    ensures forall s | s in r.citations :: Citable(old(pack.State()), c, s)
  {
    ghost var built := pack.State();
    var _ := pack.ApplyContextBudget(z, limit, true);
    r := GroundResponse(pack.State(), c, points, citations);
    forall s | s in r.citations ensures Citable(built, c, s) {
      TrimmingOnlyRevokes(z, limit, true, built, c, s);
    }
  }

  // ---- Composing the answer ------------------------------------------------

  datatype Section = Facts | Interpretations | StaleFacts | UnsupportedFacts | Missing

  /** The heading a point is listed under, if any. */
  function Heading(q: Point): Option<Section> {
    if q.kind == Interpretation then Some(Interpretations)
    else if q.kind == Unknown then Some(Missing)
    else match q.grounding
      case Supported => Some(Facts)
      case Stale => Some(StaleFacts)
      case Unsupported => Some(UnsupportedFacts)
      case NotRequired => None
  }

  function Shown(points: seq<Point>, section: Section): seq<Point> {
    if points == [] then []
    else
      var q := points[|points| - 1];
      Shown(points[..|points| - 1], section) + if Heading(q) == Some(section) then [q] else []
  }

  function Times(points: seq<Point>, q: Point): nat {
    multiset(points)[q]
  }

  lemma {:induction false} ShownUnderItsHeading(points: seq<Point>, q: Point, section: Section)
    ensures Times(Shown(points, section), q) == if Heading(q) == Some(section) then Times(points, q) else 0
  {
    if points != [] {
      var n := |points| - 1;
      ShownUnderItsHeading(points[..n], q, section);
      assert points == points[..n] + [points[n]];
    }
  }

  /** Every point of a checked answer stands under one heading, as often as it was
      made, and under no other: a fact by its standing, any other by its kind. */
  lemma EveryPointIsShownOnce(p: Pack, c: Catalogue, raw: seq<RawPoint>, points: seq<Point>, i: nat)
    requires |points| == |raw| && i < |points| && PointGrounded(p, c, raw[i], points[i])
    ensures var q, made := points[i], Times(points, points[i]);
            && Times(Shown(points, Facts), q) == (if q.kind == Fact && q.grounding == Supported then made else 0)
            && Times(Shown(points, StaleFacts), q) == (if q.kind == Fact && q.grounding == Stale then made else 0)
            && Times(Shown(points, UnsupportedFacts), q) == (if q.kind == Fact && q.grounding == Unsupported then made else 0)
            && Times(Shown(points, Interpretations), q) == (if q.kind == Interpretation then made else 0)
            && Times(Shown(points, Missing), q) == (if q.kind == Unknown then made else 0)
            && made > 0 && !(q.kind == Fact && q.grounding == NotRequired)
  {
    ShownUnderItsHeading(points, points[i], Facts);
    ShownUnderItsHeading(points, points[i], StaleFacts);
    ShownUnderItsHeading(points, points[i], UnsupportedFacts);
    ShownUnderItsHeading(points, points[i], Interpretations);
    ShownUnderItsHeading(points, points[i], Missing);
  }

  /** What stands under the facts is backed by a source that is in the pack and not stale. */
  lemma {:induction false} ShownFactsAreBacked(p: Pack, c: Catalogue, raw: seq<RawPoint>, points: seq<Point>, q: Point)
    requires |points| == |raw| && forall i | 0 <= i < |raw| :: PointGrounded(p, c, raw[i], points[i])
    requires q in Shown(points, Facts)
    ensures q.kind == Fact && exists s | s in q.sources :: FreshlyCitable(p, c, s)
  {
    var n := |points| - 1;
    if q in Shown(points[..n], Facts) {
      ShownFactsAreBacked(p, c, raw[..n], points[..n], q);
    } else {
      assert PointGrounded(p, c, raw[n], points[n]);
      RememberedMembers(p, c, [], raw[n].sources);
    }
  }
}
