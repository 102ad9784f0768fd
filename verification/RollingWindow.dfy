/** The rolling pass rate (cell_quality.py): the last samples audited, each by its
    latest verdict. */
module RollingWindow {
  import opened Wrappers

  datatype Verdict = Pass | Fail | NoCriteria

  /** One audit row; a log lists them oldest first. */
  datatype Audit = Audit(sample: nat, verdict: Verdict)

  predicate Audited(log: seq<Audit>, s: nat) {
    exists i :: 0 <= i < |log| && log[i].sample == s
  }

  /** The position of a sample's latest audit. */
  function Latest(log: seq<Audit>, s: nat): (i: nat)
    requires Audited(log, s)
    ensures i < |log| && log[i].sample == s && forall j | i < j < |log| :: log[j].sample != s
  {
    var n := |log| - 1;
    if log[n].sample == s then n
    else
      assert Audited(log[..n], s) by {
        var i :| 0 <= i < |log| && log[i].sample == s;
        assert log[..n][i].sample == s;
      }
      Latest(log[..n], s)
  }

  function Samples(log: seq<Audit>): set<nat> {
    set a | a in log :: a.sample
  }

  /** The samples audited more recently than `s`. */
  ghost function Newer(log: seq<Audit>, s: nat): set<nat>
    requires Audited(log, s)
  {
    set t | t in Samples(log) && Audited(log, t) && Latest(log, t) > Latest(log, s)
  }

  /** The samples in a window of `width`: fewer than `width` others were audited since. */
  ghost function Window(log: seq<Audit>, width: nat): set<nat> {
    set s | s in Samples(log) && Audited(log, s) && |Newer(log, s)| < width
  }

  function VerdictOf(log: seq<Audit>, s: nat): Verdict
    requires Audited(log, s)
  {
    log[Latest(log, s)].verdict
  }

  ghost function Counted(log: seq<Audit>, width: nat): set<nat> {
    set s | s in Window(log, width) && Audited(log, s) && VerdictOf(log, s) != NoCriteria
  }

  ghost function Passed(log: seq<Audit>, width: nat): set<nat> {
    set s | s in Window(log, width) && Audited(log, s) && VerdictOf(log, s) == Pass
  }

  /** The rate and how many samples it is over. */
  ghost function Rate(log: seq<Audit>, width: nat): (Option<real>, nat) {
    var denominator := |Counted(log, width)|;
    (if denominator == 0 then None else Some(|Passed(log, width)| as real / denominator as real), denominator)
  }

  lemma SamplesAreAudited(log: seq<Audit>)
    ensures forall s :: s in Samples(log) <==> Audited(log, s)
  {
    forall s ensures s in Samples(log) <==> Audited(log, s) {
      if Audited(log, s) {
        var i :| 0 <= i < |log| && log[i].sample == s;
        assert log[i] in log;
      }
    }
  }

  /** What the rate is over: a sample whose last audit judged it, and since which fewer
      than `width` other samples have been audited. */
  lemma CountedExactly(log: seq<Audit>, width: nat, s: nat)
    ensures s in Counted(log, width) <==> exists i: nat :: LastAudit(log, s, i) && InWindow(log, width, i) && log[i].verdict != NoCriteria
    ensures s in Passed(log, width) <==> exists i: nat :: LastAudit(log, s, i) && InWindow(log, width, i) && log[i].verdict == Pass
  {
    SamplesAreAudited(log);
    if Audited(log, s) { SinceIsNewer(log, s); }
  }

  ghost predicate LastAudit(log: seq<Audit>, s: nat, i: nat) {
    i < |log| && log[i].sample == s && forall j | i < j < |log| :: log[j].sample != s
  }

  ghost predicate InWindow(log: seq<Audit>, width: nat, i: nat)
    requires i < |log|
  {
    |set j | i < j < |log| :: log[j].sample| < width
  }

  lemma SinceIsNewer(log: seq<Audit>, s: nat)
    requires Audited(log, s)
    ensures LastAudit(log, s, Latest(log, s))
    ensures forall i: nat | LastAudit(log, s, i) :: i == Latest(log, s)
    ensures (set j | Latest(log, s) < j < |log| :: log[j].sample) == Newer(log, s)
  {
    SamplesAreAudited(log);
    var k := Latest(log, s);
    var since := set j | k < j < |log| :: log[j].sample;
    forall t ensures t in since <==> t in Newer(log, s) {
      if t in since {
        var j :| k < j < |log| && log[j].sample == t;
        assert Audited(log, t);
      }
    }
  }

  /** The samples whose latest audit is at `i` or later, when the scan has seen enough. */
  lemma ScannedIsWindow(log: seq<Audit>, i: nat, width: nat, seen: set<nat>)
    requires i <= |log|
    requires forall s :: s in seen <==> Audited(log, s) && Latest(log, s) >= i
    requires |seen| <= width && (i == 0 || |seen| == width)
    ensures seen == Window(log, width)
  {
    SamplesAreAudited(log);
    forall s | Audited(log, s) ensures s in seen <==> |Newer(log, s)| < width {
      if s in seen {
        Smaller(Newer(log, s), seen - {s});
      } else {
        Smaller(seen, Newer(log, s));
      }
    }
  }

  lemma Smaller(a: set<nat>, b: set<nat>)
    requires a <= b
    ensures |a| <= |b|
  {
    if a != {} {
      var x :| x in a;
      Smaller(a - {x}, b - {x});
    }
  }

  lemma ScanStep(log: seq<Audit>, i: nat)
    requires i < |log|
    ensures forall s :: Audited(log, s) && Latest(log, s) >= i <==> (Audited(log, s) && Latest(log, s) >= i + 1) || s == log[i].sample
    ensures Audited(log, log[i].sample)
    ensures Latest(log, log[i].sample) >= i + 1 || VerdictOf(log, log[i].sample) == log[i].verdict
  {
    assert Audited(log, log[i].sample);
  }

  /** Reads the log from its newest row until `width` samples have been met. */
  method ScanNewest(log: seq<Audit>, width: nat) returns (latest: map<nat, Verdict>)
    requires width >= 1
    ensures latest.Keys == Window(log, width)
    ensures forall s | s in latest :: Audited(log, s) && latest[s] == VerdictOf(log, s)
  {
    latest := map[];
    var i: nat := |log|;
    while i > 0 && |latest| < width
      invariant i <= |log| && |latest| <= width
      invariant forall s :: s in latest.Keys <==> Audited(log, s) && Latest(log, s) >= i
      invariant forall s | s in latest :: latest[s] == VerdictOf(log, s)
    {
      i := i - 1;
      var a := log[i];
      ScanStep(log, i);
      if a.sample !in latest {
        latest := latest[a.sample := a.verdict];
      }
    }
    ScannedIsWindow(log, i, width, latest.Keys);
  }

  method RollingPassRate(log: seq<Audit>, width: nat) returns (rate: Option<real>, denominator: nat)
    requires width >= 1
    ensures (rate, denominator) == Rate(log, width)
    ensures denominator == |Counted(log, width)|
    ensures rate == if denominator == 0 then None else Some(|Passed(log, width)| as real / denominator as real)
  {
    var latest := ScanNewest(log, width);
    var considered := set s | s in latest && latest[s] != NoCriteria;
    var passed := set s | s in latest && latest[s] == Pass;
    assert considered == Counted(log, width) && passed == Passed(log, width) by {
      assert forall s :: s in latest <==> s in Window(log, width);
    }
    denominator := |considered|;
    rate := if denominator == 0 then None else Some(|passed| as real / denominator as real);
  }

  // ---- Auditing a sample again ---------------------------------------------

  lemma LatestAfter(log: seq<Audit>, a: Audit, s: nat)
    ensures Audited(log + [a], s) <==> Audited(log, s) || s == a.sample
    ensures s == a.sample ==> Audited(log + [a], s) && Latest(log + [a], s) == |log|
    ensures s != a.sample && Audited(log, s) ==> Audited(log + [a], s) && Latest(log + [a], s) == Latest(log, s)
  {
    var more := log + [a];
    assert more[|log|] == a && more[..|log|] == log;
    if Audited(log, s) {
      var i :| 0 <= i < |log| && log[i].sample == s;
      assert more[i].sample == s;
    }
  }

  /** A sample audited again with the verdict it had: same samples, same verdicts; only
      its place moves to the front. */
  lemma ReauditedSame(log: seq<Audit>, a: Audit)
    requires Audited(log, a.sample) && VerdictOf(log, a.sample) == a.verdict
    ensures forall s :: Audited(log + [a], s) <==> Audited(log, s)
    ensures Samples(log + [a]) == Samples(log)
    ensures forall s | Audited(log, s) :: Audited(log + [a], s) && VerdictOf(log + [a], s) == VerdictOf(log, s)
  {
    forall s ensures Audited(log + [a], s) <==> Audited(log, s)
             ensures Audited(log, s) ==> VerdictOf(log + [a], s) == VerdictOf(log, s)
    {
      LatestAfter(log, a, s);
    }
    SamplesAreAudited(log);
    SamplesAreAudited(log + [a]);
  }

  lemma WindowFixesRate(log: seq<Audit>, a: Audit, width: nat)
    requires Audited(log, a.sample) && VerdictOf(log, a.sample) == a.verdict
    requires Window(log + [a], width) == Window(log, width)
    ensures Rate(log + [a], width) == Rate(log, width)
  {
    ReauditedSame(log, a);
    assert Counted(log + [a], width) == Counted(log, width);
    assert Passed(log + [a], width) == Passed(log, width);
  }

  lemma NewerAfter(log: seq<Audit>, a: Audit, s: nat)
    requires Audited(log, a.sample) && Audited(log, s)
    ensures Audited(log + [a], s)
    ensures Newer(log + [a], s) == if s == a.sample then {} else Newer(log, s) + {a.sample}
  {
    SamplesAreAudited(log);
    SamplesAreAudited(log + [a]);
    LatestAfter(log, a, s);
    forall t ensures t in Newer(log + [a], s) <==> t in if s == a.sample then {} else Newer(log, s) + {a.sample} {
      LatestAfter(log, a, t);
    }
  }

  lemma ReauditMovesNobody(log: seq<Audit>, a: Audit, s: nat, width: nat)
    requires Audited(log, a.sample) && |Newer(log, a.sample)| < width && Audited(log, s)
    ensures Audited(log + [a], s) && (|Newer(log + [a], s)| < width <==> |Newer(log, s)| < width)
  {
    NewerAfter(log, a, s);
    SamplesAreAudited(log);
    if s != a.sample {
      if a.sample in Newer(log, s) {
        assert Newer(log, s) + {a.sample} == Newer(log, s);
      } else {
        NotNewerIsOlder(log, s, a.sample);
      }
    }
  }

  lemma NotNewerIsOlder(log: seq<Audit>, s: nat, t: nat)
    requires Audited(log, s) && Audited(log, t) && s != t && t !in Newer(log, s)
    ensures |Newer(log, s)| + 1 <= |Newer(log, t)|
    ensures |Newer(log, s) + {t}| <= |Newer(log, t)|
  {
    SamplesAreAudited(log);
    assert Latest(log, s) != Latest(log, t);
    Smaller(Newer(log, s) + {s}, Newer(log, t));
  }

  /** Auditing a sample of the window again, with the verdict it had, does not move the rate. */
  lemma ReauditInWindow(log: seq<Audit>, a: Audit, width: nat)
    requires a.sample in Window(log, width) && VerdictOf(log, a.sample) == a.verdict
    ensures Window(log + [a], width) == Window(log, width) && Rate(log + [a], width) == Rate(log, width)
  {
    ReauditedSame(log, a);
    forall s | Audited(log, s) ensures |Newer(log + [a], s)| < width <==> |Newer(log, s)| < width {
      ReauditMovesNobody(log, a, s, width);
    }
    SamplesAreAudited(log);
    SamplesAreAudited(log + [a]);
    assert Window(log + [a], width) == Window(log, width);
    WindowFixesRate(log, a, width);
  }

  /** The log after `k` more audits that all say `a`. */
  function Again(log: seq<Audit>, a: Audit, k: nat): seq<Audit> {
    if k == 0 then log else Again(log, a, k - 1) + [a]
  }

  lemma LastIsInWindow(log: seq<Audit>, a: Audit, width: nat)
    requires width >= 1
    ensures a.sample in Window(log + [a], width) && VerdictOf(log + [a], a.sample) == a.verdict
  {
    LatestAfter(log, a, a.sample);
    SamplesAreAudited(log + [a]);
    forall t ensures t !in Newer(log + [a], a.sample) {
      LatestAfter(log, a, t);
    }
    assert Newer(log + [a], a.sample) == {};
  }

  /** Any number of audits of one sample in a row, with one verdict, counts as one. */
  lemma {:induction false} RepeatedAuditsCountOnce(log: seq<Audit>, a: Audit, k: nat, width: nat)
    requires width >= 1 && k >= 1
    ensures Window(Again(log, a, k), width) == Window(log + [a], width)
    ensures Rate(Again(log, a, k), width) == Rate(log + [a], width)
  {
    if k == 1 {
      assert Again(log, a, 1) == Again(log, a, 0) + [a];
    } else {
      RepeatedAuditsCountOnce(log, a, k - 1, width);
      LastIsInWindow(Again(log, a, k - 2), a, width);
      ReauditInWindow(Again(log, a, k - 1), a, width);
    }
  }
}
