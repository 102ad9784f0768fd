/** Stratified sample selection (cell_quality.py).  A trace's fraction is whatever
    its stable hash gives; rates are reals. */
module Sampling {
  import opened Wrappers

  datatype Trace = Trace(id: string, taskType: Option<string>, risk: Option<string>, rare: bool, failed: bool,
                         fraction: real)

  datatype Stratum = Stratum(name: string, taskType: Option<string>, risk: Option<string>, rare: bool)

  predicate Matches(s: Stratum, t: Trace) {
    && (s.taskType.Some? ==> t.taskType == s.taskType)
    && (s.risk.Some? ==> t.risk == s.risk || (s.risk == Some("error") && t.failed))
    && (s.taskType.None? && s.risk.None? && s.rare ==> t.rare)
  }

  /** The name of the first stratum that matches, or the empty name. */
  function StratumOf(strata: seq<Stratum>, t: Trace): string {
    if strata == [] then ""
    else if Matches(strata[0], t) then strata[0].name
    else StratumOf(strata[1..], t)
  }

  method MatchStratum(strata: seq<Stratum>, t: Trace) returns (name: string)
    ensures name == StratumOf(strata, t)
    ensures var fits := (s: Stratum) =>
                && (s.taskType.None? || t.taskType == s.taskType)
                && (s.risk.None? || t.risk == s.risk || (s.risk == Some("error") && t.failed))
                && (s.taskType.Some? || s.risk.Some? || !s.rare || t.rare);
            || (exists i :: 0 <= i < |strata| && fits(strata[i]) && name == strata[i].name
                            && forall j | 0 <= j < i :: !fits(strata[j]))
            || (name == "" && forall i | 0 <= i < |strata| :: !fits(strata[i]))
  {
    for i := 0 to |strata|
      invariant forall j | 0 <= j < i :: !Matches(strata[j], t)
      invariant StratumOf(strata, t) == StratumOf(strata[i..], t)
    {
      var s := strata[i];
      if s.taskType.Some? && t.taskType != s.taskType {
        continue;
      }
      if s.risk.Some? && t.risk != s.risk && !(s.risk == Some("error") && t.failed) {
        continue;
      }
      if s.taskType.None? && s.risk.None? && s.rare && !t.rare {
        continue;
      }
      return s.name;
    }
    name := "";
  }

  /** The traces of a cell, by id: no id twice. */
  ghost predicate DistinctIds(traces: seq<Trace>) {
    forall i, j | 0 <= i < j < |traces| :: traces[i].id != traces[j].id
  }

  function Candidates(traces: seq<Trace>, strata: seq<Stratum>, name: string): seq<Trace> {
    if traces == [] then []
    else
      var t := traces[|traces| - 1];
      Candidates(traces[..|traces| - 1], strata, name) + if StratumOf(strata, t) == name then [t] else []
  }

  lemma CandidatesAre(traces: seq<Trace>, strata: seq<Stratum>, name: string)
    ensures forall t :: t in Candidates(traces, strata, name) <==> t in traces && StratumOf(strata, t) == name
  {
    if traces != [] {
      assert traces == traces[..|traces| - 1] + [traces[|traces| - 1]];
      CandidatesAre(traces[..|traces| - 1], strata, name);
    }
  }

  /** The first trace of least fraction. */
  function Least(traces: seq<Trace>): (t: Trace)
    requires traces != []
    ensures t in traces && forall u | u in traces :: t.fraction <= u.fraction
  {
    if |traces| == 1 then traces[0]
    else
      var before := Least(traces[..|traces| - 1]);
      var last := traces[|traces| - 1];
      assert traces == traces[..|traces| - 1] + [last];
      if last.fraction < before.fraction then last else before
  }

  predicate Drawn(traces: seq<Trace>, rate: real, id: string) {
    exists t | t in traces :: t.id == id && t.fraction < rate
  }

  /** A rare stratum none of whose traces is drawn gives the one of least fraction. */
  predicate PickedRare(traces: seq<Trace>, strata: seq<Stratum>, rate: real, id: string) {
    exists k | 0 <= k < |strata| :: PickedFor(strata[k], traces, strata, rate, id)
  }

  predicate PickedFor(s: Stratum, traces: seq<Trace>, strata: seq<Stratum>, rate: real, id: string) {
    var candidates := Candidates(traces, strata, s.name);
    s.rare && candidates != [] && (forall t | t in candidates :: t.fraction >= rate) && id == Least(candidates).id
  }

  /** The selection, for a rate. */
  ghost predicate Selects(traces: seq<Trace>, strata: seq<Stratum>, rate: real, selected: set<string>) {
    forall id :: id in selected <==> Drawn(traces, rate, id) || PickedRare(traces, strata, rate, id)
  }

  method LeastOf(candidates: seq<Trace>) returns (best: Trace)
    requires candidates != []
    ensures best == Least(candidates)
  {
    best := candidates[0];
    for i := 1 to |candidates|
      invariant best == Least(candidates[..i])
    {
      assert candidates[..i + 1][..i] == candidates[..i];
      if candidates[i].fraction < best.fraction {
        best := candidates[i];
      }
    }
    assert candidates[..|candidates|] == candidates;
  }

  /** Sorts the traces by stratum and draws those below the rate. */
  method DrawAndGroup(traces: seq<Trace>, strata: seq<Stratum>, rate: real)
    returns (selected: set<string>, byStratum: map<string, seq<Trace>>)
    ensures forall id :: id in selected <==> Drawn(traces, rate, id)
    ensures Grouped(traces, strata, byStratum)
  {
    selected, byStratum := {}, map[];
    for i := 0 to |traces|
      invariant forall id :: id in selected <==> Drawn(traces[..i], rate, id)
      invariant Grouped(traces[..i], strata, byStratum)
    {
      var t := traces[i];
      var name := MatchStratum(strata, t);
      GroupGrows(traces, strata, i, byStratum);
      DrawnGrows(traces, i, rate);
      byStratum := byStratum[name := (if name in byStratum then byStratum[name] else []) + [t]];
      if t.fraction < rate {
        selected := selected + {t.id};
      }
    }
    assert traces[..|traces|] == traces;
  }

  ghost predicate Grouped(traces: seq<Trace>, strata: seq<Stratum>, byStratum: map<string, seq<Trace>>) {
    forall name :: Candidates(traces, strata, name) == if name in byStratum then byStratum[name] else []
  }

  lemma GroupGrows(traces: seq<Trace>, strata: seq<Stratum>, i: nat, byStratum: map<string, seq<Trace>>)
    requires i < |traces| && Grouped(traces[..i], strata, byStratum)
    ensures var name := StratumOf(strata, traces[i]);
            Grouped(traces[..i + 1], strata,
                    byStratum[name := (if name in byStratum then byStratum[name] else []) + [traces[i]]])
  {
    assert traces[..i + 1][..i] == traces[..i];
  }

  method Select(traces: seq<Trace>, strata: seq<Stratum>, rate: real) returns (selected: set<string>)
    requires DistinctIds(traces)
    ensures Selects(traces, strata, rate, selected)
  {
    var drawn, byStratum := DrawAndGroup(traces, strata, rate);
    selected := drawn;
    for n := 0 to |strata|
      invariant SelectsSoFar(traces, strata, n, rate, selected)
    {
      var s := strata[n];
      RareStep(traces, strata, n, rate, selected);
      if s.rare && s.name in byStratum {
        var candidates := byStratum[s.name];
        if candidates != [] && !exists t: Trace | t in candidates :: t.id in selected {
          var best := LeastOf(candidates);
          selected := selected + {best.id};
        }
      }
    }
  }

  /** The drawn traces and the picks of the first `n` strata. */
  ghost predicate SelectsSoFar(traces: seq<Trace>, strata: seq<Stratum>, n: nat, rate: real, selected: set<string>) {
    && n <= |strata|
    && forall id :: id in selected <==> (Drawn(traces, rate, id) || PickedUpTo(traces, strata, n, rate, id))
  }

  ghost predicate PickedUpTo(traces: seq<Trace>, strata: seq<Stratum>, n: nat, rate: real, id: string)
    requires n <= |strata|
  {
    exists k | 0 <= k < n :: PickedFor(strata[k], traces, strata, rate, id)
  }

  /** One rare stratum: nothing to add if one of its traces is in; else the least of them. */
  lemma RareStep(traces: seq<Trace>, strata: seq<Stratum>, n: nat, rate: real, selected: set<string>)
    requires n < |strata| && DistinctIds(traces) && SelectsSoFar(traces, strata, n, rate, selected)
    ensures var candidates := Candidates(traces, strata, strata[n].name);
            var add := strata[n].rare && candidates != [] && !exists t | t in candidates :: t.id in selected;
            SelectsSoFar(traces, strata, n + 1, rate, if add then selected + {Least(candidates).id} else selected)
  {
    var s := strata[n];
    var candidates := Candidates(traces, strata, s.name);
    CandidatesAre(traces, strata, s.name);
    forall id ensures PickedUpTo(traces, strata, n + 1, rate, id)
                 <==> (PickedUpTo(traces, strata, n, rate, id) || PickedFor(s, traces, strata, rate, id)) {}
    if s.rare && candidates != [] {
      if exists t | t in candidates :: t.id in selected {
        var t :| t in candidates && t.id in selected;
        AlreadyIn(traces, strata, n, rate, t);
      } else {
        forall t | t in candidates ensures t.fraction >= rate {
          assert !Drawn(traces, rate, t.id);
        }
      }
    }
  }

  /** A trace of the stratum that is in, undrawn, is that stratum's own pick. */
  lemma AlreadyIn(traces: seq<Trace>, strata: seq<Stratum>, n: nat, rate: real, t: Trace)
    requires n < |strata| && DistinctIds(traces)
    requires t in Candidates(traces, strata, strata[n].name)
    requires Drawn(traces, rate, t.id) || PickedUpTo(traces, strata, n, rate, t.id)
    ensures forall id | PickedFor(strata[n], traces, strata, rate, id) ::
              Drawn(traces, rate, id) || PickedUpTo(traces, strata, n, rate, id)
  {
    var s := strata[n];
    CandidatesAre(traces, strata, s.name);
    if Drawn(traces, rate, t.id) {
      var u :| u in traces && u.id == t.id && u.fraction < rate;
      SameTrace(traces, t, u);
    } else {
      var k :| 0 <= k < n && PickedFor(strata[k], traces, strata, rate, t.id);
      var picked := Least(Candidates(traces, strata, strata[k].name));
      CandidatesAre(traces, strata, strata[k].name);
      SameTrace(traces, t, picked);
    }
  }

  lemma SameTrace(traces: seq<Trace>, t: Trace, u: Trace)
    requires DistinctIds(traces) && t in traces && u in traces && t.id == u.id
    ensures t == u
  {
  }

  lemma DrawnGrows(traces: seq<Trace>, i: nat, rate: real)
    requires i < |traces|
    ensures forall id ::
              Drawn(traces[..i + 1], rate, id)
              <==> Drawn(traces[..i], rate, id) || (traces[i].id == id && traces[i].fraction < rate)
  {
    assert traces[..i + 1] == traces[..i] + [traces[i]];
    assert traces[i] in traces[..i + 1];
    forall id | Drawn(traces[..i], rate, id) ensures Drawn(traces[..i + 1], rate, id) {
      var u :| u in traces[..i] && u.id == id && u.fraction < rate;
      assert u in traces[..i + 1];
    }
  }

  // ---- What the selection promises -----------------------------------------

  /** Trace `i` is the first of least fraction among those of its stratum, none of which
      is below the rate, and the stratum is rare. */
  ghost predicate StandsIn(traces: seq<Trace>, strata: seq<Stratum>, rate: real, i: nat)
    requires i < |traces|
  {
    && (exists k :: 0 <= k < |strata| && strata[k].rare && strata[k].name == StratumOf(strata, traces[i]))
    && forall j | 0 <= j < |traces| && StratumOf(strata, traces[j]) == StratumOf(strata, traces[i]) ::
         && traces[j].fraction >= rate
         && (traces[i].fraction < traces[j].fraction || (traces[i].fraction == traces[j].fraction && i <= j))
  }

  ghost predicate FirstLeast(traces: seq<Trace>, strata: seq<Stratum>, name: string, i: nat)
    requires i < |traces|
  {
    forall j | 0 <= j < |traces| && StratumOf(strata, traces[j]) == name ::
      traces[i].fraction < traces[j].fraction || (traces[i].fraction == traces[j].fraction && i <= j)
  }

  /** `p` is the place of the least. */
  lemma {:induction false} LeastAt(c: seq<Trace>) returns (p: nat)
    requires c != []
    ensures p < |c| && Least(c) == c[p]
    ensures forall q | 0 <= q < |c| :: c[p].fraction < c[q].fraction || (c[p].fraction == c[q].fraction && p <= q)
  {
    p := |c| - 1;
    if p > 0 {
      var before := LeastAt(c[..p]);
      if c[p].fraction >= c[before].fraction { p := before; }
    }
  }

  /** `at` are the places of the candidates `c` among the traces. */
  ghost predicate Places(traces: seq<Trace>, strata: seq<Stratum>, name: string, c: seq<Trace>, at: seq<nat>) {
    && |at| == |c|
    && (forall a | 0 <= a < |at| :: at[a] < |traces| && c[a] == traces[at[a]])
    && (forall a, b | 0 <= a < b < |at| :: at[a] < at[b])
    && (forall j: nat | j < |traces| && StratumOf(strata, traces[j]) == name :: j in at)
  }

  lemma PlacesGrow(traces: seq<Trace>, strata: seq<Stratum>, name: string, c: seq<Trace>, at: seq<nat>, t: Trace)
    requires Places(traces, strata, name, c, at)
    ensures StratumOf(strata, t) != name ==> Places(traces + [t], strata, name, c, at)
    ensures Places(traces + [t], strata, name, c + [t], at + [|traces|])
  {
    forall j: nat | j < |traces| && StratumOf(strata, (traces + [t])[j]) == name ensures j in at {
      assert (traces + [t])[j] == traces[j];
    }
  }

  lemma {:induction false} CandidatesAt(traces: seq<Trace>, strata: seq<Stratum>, name: string) returns (at: seq<nat>)
    ensures Places(traces, strata, name, Candidates(traces, strata, name), at)
  {
    at := [];
    if traces != [] {
      var n := |traces| - 1;
      at := CandidatesAt(traces[..n], strata, name);
      PlacesGrow(traces[..n], strata, name, Candidates(traces[..n], strata, name), at, traces[n]);
      assert traces == traces[..n] + [traces[n]];
      if StratumOf(strata, traces[n]) == name { at := at + [n]; }
    }
  }

  lemma LeastIsFirst(traces: seq<Trace>, strata: seq<Stratum>, name: string, i: nat)
    requires DistinctIds(traces) && i < |traces| && StratumOf(strata, traces[i]) == name
    ensures Candidates(traces, strata, name) != []
    ensures Least(Candidates(traces, strata, name)) == traces[i] <==> FirstLeast(traces, strata, name, i)
  {
    var at := CandidatesAt(traces, strata, name);
    CandidatesAre(traces, strata, name);
    assert i in at;
    var p := LeastAt(Candidates(traces, strata, name));
    var first := at[p];
    assert traces[first] in Candidates(traces, strata, name);
    forall j | 0 <= j < |traces| && StratumOf(strata, traces[j]) == name
      ensures traces[first].fraction < traces[j].fraction || (traces[first].fraction == traces[j].fraction && first <= j)
    {
      var q :| 0 <= q < |at| && at[q] == j;
      assert p < q ==> at[p] < at[q];
    }
    OneFirst(traces, strata, name, first, i);
  }

  lemma OneFirst(traces: seq<Trace>, strata: seq<Stratum>, name: string, first: nat, i: nat)
    requires DistinctIds(traces) && first < |traces| && i < |traces| && FirstLeast(traces, strata, name, first)
    requires StratumOf(strata, traces[first]) == StratumOf(strata, traces[i]) == name
    ensures traces[first] == traces[i] <==> FirstLeast(traces, strata, name, i)
  {
    if first != i { assert if first < i then traces[first].id != traces[i].id else traces[i].id != traces[first].id; }
  }

  /** Selected are the traces below the rate, and for each rare stratum without one the
      first of its traces with the least fraction; no others. */
  lemma SelectedExactly(traces: seq<Trace>, strata: seq<Stratum>, rate: real, selected: set<string>, i: nat)
    requires DistinctIds(traces) && Selects(traces, strata, rate, selected) && i < |traces|
    ensures traces[i].id in selected <==> traces[i].fraction < rate || StandsIn(traces, strata, rate, i)
  {
    var t, name := traces[i], StratumOf(strata, traces[i]);
    LeastIsFirst(traces, strata, name, i);
    CandidatesAre(traces, strata, name);
    if t.id in selected && t.fraction >= rate {
      forall u | u in traces && u.id == t.id ensures u == t { SameTrace(traces, t, u); }
      PickedInOwnStratum(traces, strata, rate, t);
    }
    if StandsIn(traces, strata, rate, i) {
      assert FirstLeast(traces, strata, name, i);
      var k :| 0 <= k < |strata| && strata[k].rare && strata[k].name == name;
      assert PickedFor(strata[k], traces, strata, rate, t.id);
    }
  }

  lemma PickedInOwnStratum(traces: seq<Trace>, strata: seq<Stratum>, rate: real, t: Trace)
    requires DistinctIds(traces) && t in traces && PickedRare(traces, strata, rate, t.id)
    ensures var candidates := Candidates(traces, strata, StratumOf(strata, t));
            && candidates != [] && Least(candidates) == t && (forall u | u in candidates :: u.fraction >= rate)
    ensures exists k :: 0 <= k < |strata| && strata[k].rare && strata[k].name == StratumOf(strata, t)
  {
    var k :| 0 <= k < |strata| && PickedFor(strata[k], traces, strata, rate, t.id);
    CandidatesAre(traces, strata, strata[k].name);
    SameTrace(traces, Least(Candidates(traces, strata, strata[k].name)), t);
  }

  /** A rare stratum has a sample if and only if it is the first to match some trace:
      one all of whose traces match an earlier stratum gets none. */
  lemma RareStratumIsCovered(traces: seq<Trace>, strata: seq<Stratum>, rate: real, selected: set<string>, n: nat)
    requires Selects(traces, strata, rate, selected) && n < |strata| && strata[n].rare
    ensures (exists t | t in traces :: t.id in selected && StratumOf(strata, t) == strata[n].name)
       <==> (exists t | t in traces :: StratumOf(strata, t) == strata[n].name)
  {
    if exists t | t in traces :: StratumOf(strata, t) == strata[n].name {
      LeastIsSelected(traces, strata, rate, selected, n);
    }
  }

  lemma LeastIsSelected(traces: seq<Trace>, strata: seq<Stratum>, rate: real, selected: set<string>, n: nat)
    requires Selects(traces, strata, rate, selected)
    requires n < |strata| && strata[n].rare && exists t | t in traces :: StratumOf(strata, t) == strata[n].name
    ensures exists t | t in traces :: t.id in selected && StratumOf(strata, t) == strata[n].name
  {
    var candidates := Candidates(traces, strata, strata[n].name);
    CandidatesAre(traces, strata, strata[n].name);
    var m :| m in traces && StratumOf(strata, m) == strata[n].name;
    assert m in candidates;
    var best := Least(candidates);
    if exists t | t in candidates :: t.fraction < rate {
      var t :| t in candidates && t.fraction < rate;
      assert Drawn(traces, rate, t.id);
    } else {
      assert PickedFor(strata[n], traces, strata, rate, best.id);
      assert PickedRare(traces, strata, rate, best.id);
    }
  }

  /** Raising the rate deselects nothing, the rare picks included. */
  lemma SelectionIsMonotone(traces: seq<Trace>, strata: seq<Stratum>, low: real, high: real, few: set<string>, many: set<string>)
    requires low <= high
    requires Selects(traces, strata, low, few) && Selects(traces, strata, high, many)
    ensures few <= many
  {
    forall id | id in few ensures id in many {
      if Drawn(traces, low, id) {
        assert Drawn(traces, high, id);
      } else {
        var k :| 0 <= k < |strata| && PickedFor(strata[k], traces, strata, low, id);
        var candidates := Candidates(traces, strata, strata[k].name);
        CandidatesAre(traces, strata, strata[k].name);
        if Least(candidates).fraction < high {
          assert Drawn(traces, high, id);
        } else {
          assert PickedFor(strata[k], traces, strata, high, id);
          assert PickedRare(traces, strata, high, id);
        }
      }
    }
  }

  /** Nothing beyond the drawn traces and one trace a rare stratum. */
  lemma OnlyOnePickPerStratum(traces: seq<Trace>, strata: seq<Stratum>, rate: real, selected: set<string>, n: nat, a: Trace, b: Trace)
    requires DistinctIds(traces) && Selects(traces, strata, rate, selected)
    requires n < |strata| && a in traces && b in traces && a.id in selected && b.id in selected
    requires StratumOf(strata, a) == StratumOf(strata, b) == strata[n].name
    requires a.fraction >= rate && b.fraction >= rate
    ensures a == b
  {
    LeastOfItsStratum(traces, strata, rate, a);
    LeastOfItsStratum(traces, strata, rate, b);
  }

  lemma LeastOfItsStratum(traces: seq<Trace>, strata: seq<Stratum>, rate: real, a: Trace)
    requires DistinctIds(traces) && a in traces && a.fraction >= rate
    requires Drawn(traces, rate, a.id) || PickedRare(traces, strata, rate, a.id)
    ensures Candidates(traces, strata, StratumOf(strata, a)) != []
    ensures a == Least(Candidates(traces, strata, StratumOf(strata, a)))
  {
    forall u | u in traces && u.id == a.id ensures u.fraction >= rate {
      SameTrace(traces, a, u);
    }
    var k :| 0 <= k < |strata| && PickedFor(strata[k], traces, strata, rate, a.id);
    CandidatesAre(traces, strata, strata[k].name);
    SameTrace(traces, a, Least(Candidates(traces, strata, strata[k].name)));
  }

  // ---- The table of samples ------------------------------------------------

  datatype Sample = Sample(target: string, stratum: string)

  class SampleTable {
    var samples: seq<Sample>

    ghost predicate Valid()
      reads this
    {
      forall i, j | 0 <= i < j < |samples| :: samples[i].target != samples[j].target
    }

    function Targets(): set<string>
      reads this
    {
      set s | s in samples :: s.target
    }

    constructor ()
      ensures Valid() && samples == []
    {
      samples := [];
    }

    /** Inserts a row unless the target has one. */
    method InsertOrIgnore(row: Sample)
      requires Valid()
      modifies this
      ensures Valid() && Targets() == old(Targets()) + {row.target}
      ensures samples == if row.target in old(Targets()) then old(samples) else old(samples) + [row]
    {
      if row.target !in Targets() {
        InsertTarget(samples, row);
        samples := samples + [row];
      }
    }

    /** Inserts the selected traces that have no row yet; a row that is there stays. */
    method InsertMissing(traces: seq<Trace>, strata: seq<Stratum>, selected: set<string>)
      requires Valid() && forall id | id in selected :: exists t | t in traces :: t.id == id
      modifies this
      ensures Valid() && old(samples) <= samples
      ensures Targets() == old(Targets()) + selected
      ensures selected <= old(Targets()) ==> samples == old(samples)
      ensures AllRecord(traces, strata, samples[|old(samples)|..])
    {
      ghost var before, added := Targets(), [];
      for i := 0 to |traces|
        invariant Valid() && samples == old(samples) + added && AllRecord(traces, strata, added)
        invariant Targets() == before + (selected * Ids(traces[..i]))
        invariant selected <= before ==> added == []
      {
        var t := traces[i];
        IdsGrow(traces, i, before, selected);
        if t.id in selected {
          var row := Sample(t.id, StratumOf(strata, t));
          RecordsOne(traces, strata, added, i);
          added := if row.target in Targets() then added else added + [row];
          InsertOrIgnore(row);
        }
      }
      assert traces[..|traces|] == traces;
      assert selected * Ids(traces) == selected;
      assert samples[|old(samples)|..] == added;
    }

    /** The selection, what it adds, and the rows of everything selected. */
    method SelectSamples(traces: seq<Trace>, strata: seq<Stratum>, rate: real)
      returns (selected: set<string>, rows: seq<Sample>)
      requires Valid() && DistinctIds(traces)
      modifies this
      ensures Valid() && old(samples) <= samples
      ensures Selects(traces, strata, rate, selected)
      ensures Targets() == old(Targets()) + selected
      ensures selected <= old(Targets()) ==> samples == old(samples)
      ensures AllRecord(traces, strata, samples[|old(samples)|..])
      ensures rows == RowsOf(samples, selected)
    {
      selected := Select(traces, strata, rate);
      SelectedAreTraces(traces, strata, rate, selected);
      InsertMissing(traces, strata, selected);
      rows := RowsOf(samples, selected);
    }

    /** A second run over the same traces selects the same, adds nothing and returns
        the same rows. */
    method SelectTwice(traces: seq<Trace>, strata: seq<Stratum>, rate: real)
      returns (first: seq<Sample>, again: seq<Sample>, ghost between: seq<Sample>)
      requires Valid() && DistinctIds(traces)
      modifies this
      ensures Valid() && samples == between && first == again
    {
      var selected, selectedAgain;
      selected, first := SelectSamples(traces, strata, rate);
      between := samples;
      selectedAgain, again := SelectSamples(traces, strata, rate);
      assert selected == selectedAgain;
    }
  }

  ghost predicate AllRecord(traces: seq<Trace>, strata: seq<Stratum>, rows: seq<Sample>) {
    forall s | s in rows :: Records(traces, strata, s)
  }

  lemma RecordsOne(traces: seq<Trace>, strata: seq<Stratum>, rows: seq<Sample>, i: nat)
    requires i < |traces| && AllRecord(traces, strata, rows)
    ensures AllRecord(traces, strata, rows + [Sample(traces[i].id, StratumOf(strata, traces[i]))])
  {
    assert traces[i] in traces;
  }

  function Ids(traces: seq<Trace>): set<string> {
    set t | t in traces :: t.id
  }

  lemma IdsGrow(traces: seq<Trace>, i: nat, before: set<string>, selected: set<string>)
    requires i < |traces|
    ensures before + (selected * Ids(traces[..i + 1]))
         == before + (selected * Ids(traces[..i])) + if traces[i].id in selected then {traces[i].id} else {}
  {
    assert traces[..i + 1] == traces[..i] + [traces[i]];
    assert forall t :: t in traces[..i + 1] <==> t in traces[..i] || t == traces[i];
    assert Ids(traces[..i + 1]) == Ids(traces[..i]) + {traces[i].id};
  }

  /** A sample row names a trace and carries that trace's stratum. */
  predicate Records(traces: seq<Trace>, strata: seq<Stratum>, s: Sample) {
    exists t | t in traces :: t.id == s.target && s.stratum == StratumOf(strata, t)
  }

  function RowsOf(samples: seq<Sample>, selected: set<string>): (rows: seq<Sample>)
    ensures forall s :: s in rows <==> s in samples && s.target in selected
  {
    if samples == [] then []
    else
      var last := samples[|samples| - 1];
      assert samples == samples[..|samples| - 1] + [last];
      RowsOf(samples[..|samples| - 1], selected) + if last.target in selected then [last] else []
  }

  lemma InsertTarget(samples: seq<Sample>, s: Sample)
    ensures (set x | x in samples + [s] :: x.target) == (set x | x in samples :: x.target) + {s.target}
  {
    assert forall x :: x in samples + [s] <==> x in samples || x == s;
    assert s in samples + [s];
  }

  lemma SelectedAreTraces(traces: seq<Trace>, strata: seq<Stratum>, rate: real, selected: set<string>)
    requires Selects(traces, strata, rate, selected)
    ensures forall id | id in selected :: exists t | t in traces :: t.id == id
  {
    forall id | id in selected ensures exists t | t in traces :: t.id == id {
      if Drawn(traces, rate, id) {
        var t :| t in traces && t.id == id;
      } else {
        var k :| 0 <= k < |strata| && PickedFor(strata[k], traces, strata, rate, id);
        CandidatesAre(traces, strata, strata[k].name);
        var t := Least(Candidates(traces, strata, strata[k].name));
        assert t in traces;
      }
    }
  }
}
