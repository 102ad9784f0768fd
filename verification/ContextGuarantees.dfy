/** What the trimmed pack promises, for every measure (assistant_context_budget.py). */
module ContextGuarantees {
  import opened Wrappers
  import opened ContextBudget

  // ---- Stage 1: related context --------------------------------------------

  lemma {:induction false} DropsStop(z: Sizes, limit: nat, p: Pack, order: seq<nat>, d: nat)
    requires d <= |order|
    ensures var n := RelatedDrops(z, limit, p, order, d);
            && (n == |order| || Fits(z, limit, p.(related := Without(p.related, Elements(order[..n])))))
            && forall m | d <= m < n :: !Fits(z, limit, p.(related := Without(p.related, Elements(order[..m]))))
    decreases |order| - d
  {
    if d < |order| && !Fits(z, limit, p.(related := Without(p.related, Elements(order[..d])))) {
      DropsStop(z, limit, p, order, d + 1);
    }
  }

  lemma {:induction false} WithoutSize(entries: seq<Related>, gone: set<nat>)
    requires forall i | i in gone :: i < |entries|
    ensures |Without(entries, gone)| + |gone| == |entries|
  {
    if entries == [] {
      assert gone == {};
    } else {
      var k := |entries| - 1;
      WithoutSize(entries[..k], gone - {k});
      WithoutIgnores(entries[..k], gone, k);
      assert gone == if k in gone then (gone - {k}) + {k} else gone - {k};
    }
  }

  lemma WithoutCounts(entries: seq<Related>, gone: set<nat>)
    requires forall i | i in gone :: i < |entries|
    ensures |Without(entries, gone)| + |gone| == |entries|
    ensures forall e :: e in Without(entries, gone) <==> exists i | 0 <= i < |entries| :: i !in gone && entries[i] == e
  {
    WithoutSize(entries, gone);
    var at := WithoutKeepsOrder(entries, gone);
    forall i: nat | i < |entries| && i !in gone ensures entries[i] in Without(entries, gone) {
      var a :| 0 <= a < |at| && at[a] == i;
      assert Without(entries, gone)[a] == entries[i];
    }
  }

  lemma {:induction false} WithoutIgnores(entries: seq<Related>, gone: set<nat>, k: nat)
    requires |entries| <= k
    ensures Without(entries, gone) == Without(entries, gone - {k})
  {
    if entries != [] {
      WithoutIgnores(entries[..|entries| - 1], gone, k);
    }
  }

  /** A cut of the drop order: what comes before it goes before what comes after it. */
  lemma OrderCut(entries: seq<Related>, order: seq<nat>, d: nat)
    requires Sorted(entries, order) && d <= |order|
    requires forall j :: j in order <==> 0 <= j < |entries|
    ensures forall i: nat, j: nat | i in Elements(order[..d]) && j < |entries| && j !in Elements(order[..d]) ::
              GoesBefore(entries, i, j)
    ensures d < |order| ==> Elements(order[..d]) == set j: nat | j < |entries| && GoesBefore(entries, j, order[d])
    ensures |Elements(order[..d])| == d
  {
    forall i: nat, j: nat | i in Elements(order[..d]) && j < |entries| && j !in Elements(order[..d])
      ensures GoesBefore(entries, i, j)
    {
      var a :| 0 <= a < d && order[a] == i;
      assert j in order;
      var b :| 0 <= b < |order| && order[b] == j;
      assert order == order[..d] + order[d..];
    }
    if d < |order| {
      forall j: nat | j < |entries|
        ensures j in Elements(order[..d]) <==> GoesBefore(entries, j, order[d])
      {
        assert j in order;
        var b :| 0 <= b < |order| && order[b] == j;
        assert b < d ==> order[..d][b] == j;
        assert b > d ==> GoesBefore(entries, order[d], order[b]);
        if j in Elements(order[..d]) {
          var a :| 0 <= a < d && order[a] == j;
          assert GoesBefore(entries, order[a], order[d]);
        }
      }
    }
    forall a, b | 0 <= a < b < d ensures order[a] != order[b] {
      assert GoesBefore(entries, order[a], order[b]);
    }
    CountDistinct(order[..d]);
  }

  lemma {:induction false} CountDistinct(s: seq<nat>)
    requires forall a, b | 0 <= a < b < |s| :: s[a] != s[b]
    ensures |Elements(s)| == |s|
  {
    if s != [] {
      var k := |s| - 1;
      CountDistinct(s[..k]);
      assert s == s[..k] + [s[k]];
      assert Elements(s) == Elements(s[..k]) + {s[k]};
      assert s[k] !in Elements(s[..k]);
    }
  }

  /** What is left is in its old order: `at` are the places it had. */
  lemma {:induction false} WithoutKeepsOrder(entries: seq<Related>, gone: set<nat>) returns (at: seq<nat>)
    ensures |at| == |Without(entries, gone)|
    ensures forall a | 0 <= a < |at| :: at[a] < |entries| && at[a] !in gone && Without(entries, gone)[a] == entries[at[a]]
    ensures forall a, b | 0 <= a < b < |at| :: at[a] < at[b]
    ensures forall i: nat | i < |entries| && i !in gone :: i in at
  {
    at := [];
    if entries != [] {
      var k := |entries| - 1;
      at := WithoutKeepsOrder(entries[..k], gone);
      if k !in gone { at := at + [k]; }
    }
  }

  lemma {:induction false} DeepCounts(entries: seq<Related>)
    ensures Deep(entries) == |set j: nat | j < |entries| && entries[j].depth > 0|
  {
    var deep := set j: nat | j < |entries| && entries[j].depth > 0;
    if entries == [] {
      assert deep == {};
    } else {
      var k: nat := |entries| - 1;
      DeepCounts(entries[..k]);
      var before := set j: nat | j < |entries[..k]| && entries[..k][j].depth > 0;
      assert deep == if entries[k].depth > 0 then before + {k} else before;
    }
  }

  /** The entries that go before entry `i`: the deeper ones, and in its depth the later. */
  ghost function Earlier(entries: seq<Related>, i: nat): set<nat>
    requires i < |entries|
  {
    set j: nat | j < |entries|
                 && (entries[j].depth > entries[i].depth || (entries[j].depth == entries[i].depth && j > i))
  }

  lemma EarlierGoesBefore(entries: seq<Related>, i: nat)
    requires i < |entries|
    ensures Earlier(entries, i) == set j: nat | j < |entries| && GoesBefore(entries, j, i)
  {
  }

  /** An entry that goes does not fit while only those before it are gone. */
  lemma GoneBecauseOver(z: Sizes, limit: nat, p: Pack, i: nat)
    requires i in DroppedRelated(z, limit, p)
    ensures i < |p.related| && !Fits(z, limit, p.(related := Without(p.related, Earlier(p.related, i))))
  {
    var order := DropOrder(p.related, |p.related|);
    var d := RelatedDrops(z, limit, p, order, 0);
    DropsStop(z, limit, p, order, 0);
    var a: nat :| a < d && order[a] == i;
    assert i in order;
    EarlierCut(p.related, order, a);
  }

  lemma EarlierCut(entries: seq<Related>, order: seq<nat>, d: nat)
    requires Sorted(entries, order) && d < |order|
    requires forall j :: j in order <==> 0 <= j < |entries|
    ensures order[d] < |entries| && Elements(order[..d]) == Earlier(entries, order[d])
  {
    OrderCut(entries, order, d);
    assert order[d] in order;
    EarlierGoesBefore(entries, order[d]);
  }

  /** Which entries go: a first part of the drop order, no longer than it has to be. */
  lemma RelatedChoice(z: Sizes, limit: nat, p: Pack)
    ensures var gone := DroppedRelated(z, limit, p);
            && (forall i | i in gone :: i < |p.related|)
            && (forall i: nat, j: nat | i in gone && j < |p.related| && j !in gone ::
                  p.related[i].depth > p.related[j].depth || (p.related[i].depth == p.related[j].depth && i > j))
            && (Without(p.related, gone) == [] || Fits(z, limit, p.(related := Without(p.related, gone))))
            && |Without(p.related, gone)| + |gone| == |p.related|
  {
    var order := DropOrder(p.related, |p.related|);
    var d := RelatedDrops(z, limit, p, order, 0);
    var gone := DroppedRelated(z, limit, p);
    DropsStop(z, limit, p, order, 0);
    OrderCut(p.related, order, d);
    forall i | i in gone ensures i < |p.related| { assert i in order; }
    WithoutCounts(p.related, gone);
    if d == |order| { assert order[..d] == order; }
  }

  /** What the stage writes, given which entries go. */
  lemma RelatedWrites(z: Sizes, limit: nat, p: Pack, section: string)
    ensures var q := TrimRelated(z, limit, p);
            var gone := DroppedRelated(z, limit, p);
            && q == p.(related := q.related, coverage := q.coverage, omitted := q.omitted)
            && q.related == Without(p.related, gone)
            && DroppedFrom(q.omitted, section)
               == DroppedFrom(p.omitted, section) + (if section == "related_context" then |gone| else 0)
            && CoverageOf(q.coverage, section)
               == if gone != {} && section == "related_context.related"
                  then Some(TruncatedRow(CoverageOf(p.coverage, section), section, Deep(q.related), Deep(p.related)))
                  else CoverageOf(p.coverage, section)
  {
    var gone := DroppedRelated(z, limit, p);
    WithoutNothing(p.related);
    OmitRecords(p.omitted, "related_context", |gone|, section);
    UpsertStates(p.coverage, "related_context.related", Deep(Without(p.related, gone)), Deep(p.related), section);
  }

  /** The row it writes: the exact number of deep entries left, the total known before. */
  lemma RelatedRow(z: Sizes, limit: nat, p: Pack)
    ensures var q, gone := TrimRelated(z, limit, p), DroppedRelated(z, limit, p);
            (gone != {} ==>
                  var prev, row := CoverageOf(p.coverage, "related_context.related"), CoverageOf(q.coverage, "related_context.related");
                  && row.Some? && row.value.section == "related_context.related"
                  && row.value.state == Truncated && row.value.reason == Some("budget")
                  && row.value.returned == |set j: nat | j < |q.related| && q.related[j].depth > 0|
                  && row.value.total == (if prev.None? || prev.value.state == Complete || prev.value.state == Empty
                                         then Some(|set j: nat | j < |p.related| && p.related[j].depth > 0|)
                                         else prev.value.total)
                  && row.value.limit == (if prev.None? then None else prev.value.limit)
                  && row.value.via == (if prev.None? then None else prev.value.via))
  {
    RelatedWrites(z, limit, p, "related_context.related");
    DeepCounts(TrimRelated(z, limit, p).related);
    DeepCounts(p.related);
  }

  /** The deepest and, in one depth, the latest entries go; none goes while what
      is left without the ones before it still fits; and the loop stops only at a
      fitting payload (measured before the coverage row is written) or at none left. */
  lemma RelatedStage(z: Sizes, limit: nat, p: Pack, section: string)
    ensures var q := TrimRelated(z, limit, p);
            var gone := DroppedRelated(z, limit, p);
            && q == p.(related := q.related, coverage := q.coverage, omitted := q.omitted)
            && q.related == Without(p.related, gone) && |q.related| + |gone| == |p.related|
            && (forall i | i in gone :: i < |p.related|)
            && (forall i: nat, j: nat | i in gone && j < |p.related| && j !in gone ::
                  p.related[i].depth > p.related[j].depth || (p.related[i].depth == p.related[j].depth && i > j))
            && (forall i | i in gone :: !Fits(z, limit, p.(related := Without(p.related, Earlier(p.related, i)))))
            && (q.related == [] || Fits(z, limit, p.(related := q.related)))
            && DroppedFrom(q.omitted, section)
               == DroppedFrom(p.omitted, section) + (if section == "related_context" then |gone| else 0)
            && (gone == {} || section != "related_context.related" ==>
                  CoverageOf(q.coverage, section) == CoverageOf(p.coverage, section))
            && (gone != {} ==>
                  var prev, row := CoverageOf(p.coverage, "related_context.related"), CoverageOf(q.coverage, "related_context.related");
                  && row.Some? && row.value.section == "related_context.related"
                  && row.value.state == Truncated && row.value.reason == Some("budget")
                  && row.value.returned == |set j: nat | j < |q.related| && q.related[j].depth > 0|
                  && row.value.total == (if prev.None? || prev.value.state == Complete || prev.value.state == Empty
                                         then Some(|set j: nat | j < |p.related| && p.related[j].depth > 0|)
                                         else prev.value.total)
                  && row.value.limit == (if prev.None? then None else prev.value.limit)
                  && row.value.via == (if prev.None? then None else prev.value.via))
  {
    RelatedChoice(z, limit, p);
    forall i | i in DroppedRelated(z, limit, p)
      ensures i < |p.related| && !Fits(z, limit, p.(related := Without(p.related, Earlier(p.related, i))))
    {
      GoneBecauseOver(z, limit, p, i);
    }
    RelatedWrites(z, limit, p, section);
    RelatedRow(z, limit, p);
  }

  // ---- Stages 2 to 4 -------------------------------------------------------

  /** One stage over a list: what is left is a prefix and, after it, the protected
      rest; it fits, or nothing unprotected is left. */
  ghost predicate ListStage<T>(before: seq<T>, after: seq<T>, protected: T -> bool, fitted: bool) {
    && PrefixAndProtected(before, after, protected)
    && (forall x | x in before && protected(x) :: x in after)
    && (forall x | x in after :: x in before)
    && (fitted || forall x | x in after :: protected(x))
  }

  lemma ListStageFrom<T>(before: seq<T>, protected: T -> bool, fits: seq<T> -> bool)
    ensures ListStage(before, DropTail(before, |before|, protected, fits), protected,
                      fits(DropTail(before, |before|, protected, fits)))
  {
    DropTailShape(before, |before|, protected, fits);
    assert before[..|before|] + Filter(before[|before|..], protected) == before;
    ProtectedSurvive(before, DropTail(before, |before|, protected, fits), protected);
    FilterKeeps(before, protected);
  }

  lemma Untouched<T>(items: seq<T>, protected: T -> bool)
    ensures ListStage(items, items, protected, true)
  {
    assert items[..|items|] + Filter(items[|items|..], protected) == items;
  }

  lemma ChecksStage(z: Sizes, limit: nat, p: Pack, section: string)
    ensures var q := TrimChecks(z, limit, p);
            && q == p.(checks := q.checks, omitted := q.omitted)
            && ListStage(p.checks, q.checks, CheckProtected(p.mentionedChecks), Fits(z, limit, q))
            && |q.checks| <= |p.checks|
            && DroppedFrom(q.omitted, section) == DroppedFrom(p.omitted, section)
               + (if section == "diagnostics.checks" then |p.checks| - |q.checks| else 0)
  {
    var kept := KeptChecks(z, limit, p);
    if Fits(z, limit, p) {
      Untouched(p.checks, CheckProtected(p.mentionedChecks));
    } else {
      ListStageFrom(p.checks, CheckProtected(p.mentionedChecks), FitsWithChecks(z, limit, p));
    }
    OmitRecords(p.omitted, "diagnostics.checks", |p.checks| - |kept|, section);
  }

  lemma SettingsStage(z: Sizes, limit: nat, p: Pack, section: string)
    ensures var q := TrimSettings(z, limit, p);
            && q == p.(settings := q.settings, omitted := q.omitted)
            && ListStage(p.settings, q.settings, SettingProtected(p.mentionedSettings), Fits(z, limit, q))
            && |q.settings| <= |p.settings|
            && DroppedFrom(q.omitted, section) == DroppedFrom(p.omitted, section)
               + (if section == "settings" then |p.settings| - |q.settings| else 0)
  {
    var kept := KeptSettings(z, limit, p);
    if Fits(z, limit, p) {
      Untouched(p.settings, SettingProtected(p.mentionedSettings));
    } else {
      ListStageFrom(p.settings, SettingProtected(p.mentionedSettings), FitsWithSettings(z, limit, p));
    }
    OmitRecords(p.omitted, "settings", |p.settings| - |kept|, section);
  }

  lemma StateStage(z: Sizes, limit: nat, p: Pack, section: string)
    ensures var q := TrimState(z, limit, p);
            && q == p.(stateItems := q.stateItems, omitted := q.omitted)
            && ListStage(p.stateItems, q.stateItems, StateProtected(p.focused), Fits(z, limit, q))
            && |q.stateItems| <= |p.stateItems|
            && DroppedFrom(q.omitted, section) == DroppedFrom(p.omitted, section)
               + (if section == "system_state_items" then |p.stateItems| - |q.stateItems| else 0)
  {
    var kept := KeptState(z, limit, p);
    if Fits(z, limit, p) || p.stateItems == [] {
      Untouched(p.stateItems, StateProtected(p.focused));
    } else {
      ListStageFrom(p.stateItems, StateProtected(p.focused), FitsWithState(z, limit, p));
    }
    OmitRecords(p.omitted, "system_state_items", |p.stateItems| - |kept|, section);
  }

  // ---- Stage 5: screen lists -----------------------------------------------

  predicate Distinct<T(==)>(s: seq<T>) {
    forall i, j | 0 <= i < j < |s| :: s[i] != s[j]
  }

  /** The row a shortened list has in coverage: the exact count left, and the total
      known before the stage. */
  function RowOf(start: Pack, p: Pack, keys: seq<string>, section: string): Option<Coverage> {
    if section in keys && section in start.screen && section in p.screen && p.screen[section] != start.screen[section]
    then Some(TruncatedRow(CoverageOf(start.coverage, section), section, |p.screen[section]|, |start.screen[section]|))
    else CoverageOf(start.coverage, section)
  }

  /** Only lists under `keys` have been cut, from the tail, and coverage says so. */
  ghost predicate Popped(start: Pack, p: Pack, keys: seq<string>) {
    && p == start.(screen := p.screen, coverage := p.coverage)
    && p.screen.Keys == start.screen.Keys
    && (forall k | k in start.screen :: p.screen[k] <= start.screen[k] && (k !in keys ==> p.screen[k] == start.screen[k]))
    && forall section :: CoverageOf(p.coverage, section) == RowOf(start, p, keys, section)
  }

  lemma PopRowKeeps(start: Pack, p: Pack, keys: seq<string>, key: string)
    requires Popped(start, p, keys) && key in keys && key in p.screen && p.screen[key] != []
    ensures Popped(start, PopRow(p, key, |start.screen[key]|), keys)
  {
    var q := PopRow(p, key, |start.screen[key]|);
    var shorter := p.screen[key][..|p.screen[key]| - 1];
    assert shorter <= p.screen[key];
    forall section ensures CoverageOf(q.coverage, section) == RowOf(start, q, keys, section) {
      UpsertStates(p.coverage, key, |shorter|, |start.screen[key]|, section);
    }
  }

  lemma {:induction false} PopRowsStop(z: Sizes, limit: nat, start: Pack, p: Pack, keys: seq<string>)
    requires forall k | k in keys :: k in p.screen && k in start.screen
    requires Popped(start, p, keys)
    ensures var q := PopRows(z, limit, start, p, keys);
            && Popped(start, q, keys)
            && (Fits(z, limit, q) || forall k | k in keys :: k in q.screen && q.screen[k] == [])
    decreases Rows(p.screen, keys)
  {
    if !Fits(z, limit, p) {
      match Costliest(z, p.screen, keys)
      case None =>
      case Some(key) =>
        PopRowCounts(p.screen, keys, key);
        PopRowKeeps(start, p, keys, key);
        PopRowsStop(z, limit, start, PopRow(p, key, |start.screen[key]|), keys);
    }
  }

  lemma {:induction false} RowsOnRecord(start: Pack, p: Pack, keys: seq<string>, key: string)
    requires forall k | k in keys :: k in p.screen && k in start.screen && |p.screen[k]| <= |start.screen[k]|
    requires Distinct(keys) && key in start.screen && key in p.screen
    ensures DroppedFrom(OmitRows(start, p, keys).omitted, "screen_data." + key)
         == DroppedFrom(p.omitted, "screen_data." + key) + if key in keys then |start.screen[key]| - |p.screen[key]| else 0
  {
    if keys != [] {
      var last := keys[|keys| - 1];
      assert keys == keys[..|keys| - 1] + [last];
      RowsOnRecord(start, p, keys[..|keys| - 1], key);
      assert ("screen_data." + key)[12..] == key && ("screen_data." + last)[12..] == last;
      var before := OmitRows(start, p, keys[..|keys| - 1]);
      if |start.screen[last]| > |p.screen[last]| {
        OmitRecords(before.omitted, "screen_data." + last, |start.screen[last]| - |p.screen[last]|, "screen_data." + key);
      }
    }
  }

  lemma {:induction false} OtherRowsUntouched(start: Pack, p: Pack, keys: seq<string>, section: string)
    requires forall k | k in keys :: k in p.screen && k in start.screen && section != "screen_data." + k
    ensures DroppedFrom(OmitRows(start, p, keys).omitted, section) == DroppedFrom(p.omitted, section)
  {
    if keys != [] {
      var last := keys[|keys| - 1];
      assert keys == keys[..|keys| - 1] + [last];
      OtherRowsUntouched(start, p, keys[..|keys| - 1], section);
      var before := OmitRows(start, p, keys[..|keys| - 1]);
      if |start.screen[last]| > |p.screen[last]| {
        OmitRecords(before.omitted, "screen_data." + last, |start.screen[last]| - |p.screen[last]|, section);
      }
    }
  }

  lemma {:induction false} TrimmableOnes(p: Pack, keys: seq<string>)
    ensures forall k :: k in TrimmableKeys(p, keys) <==> k in keys && k in p.screen && p.screen[k] != [] && k != UNTRIMMABLE
    ensures Distinct(keys) ==> Distinct(TrimmableKeys(p, keys))
  {
    if keys != [] {
      TrimmableOnes(p, keys[1..]);
      assert keys == [keys[0]] + keys[1..];
      assert Distinct(keys) ==> keys[0] !in keys[1..];
    }
  }

  /** screen_data is a dictionary: its keys are distinct, and every list in it has one. */
  predicate Dictionary(p: Pack) {
    p.screenKeys.Some? ==> Distinct(p.screenKeys.value) && forall k | k in p.screen :: k in p.screenKeys.value
  }

  function Section(key: string): string {
    "screen_data." + key
  }

  /** The cuts and the coverage rows, as the stage computes them. */
  lemma ScreenCuts(z: Sizes, limit: nat, p: Pack)
    requires Dictionary(p)
    ensures var q := TrimScreenLists(z, limit, p);
            && q == p.(screen := q.screen, coverage := q.coverage, omitted := q.omitted)
            && q.screen.Keys == p.screen.Keys
            && (forall k | k in p.screen :: q.screen[k] <= p.screen[k] && (k == UNTRIMMABLE ==> q.screen[k] == p.screen[k]))
            && (forall section ::
                  CoverageOf(q.coverage, section)
                  == if section in p.screen && q.screen[section] != p.screen[section]
                     then Some(TruncatedRow(CoverageOf(p.coverage, section), section, |q.screen[section]|, |p.screen[section]|))
                     else CoverageOf(p.coverage, section))
            && (Fits(z, limit, q) || p.screenKeys.None? || forall k | k in p.screen && k != UNTRIMMABLE :: q.screen[k] == [])
  {
    if !Fits(z, limit, p) && p.screenKeys.Some? {
      var keys := TrimmableKeys(p, p.screenKeys.value);
      TrimmableOnes(p, p.screenKeys.value);
      PopRowsStop(z, limit, p, p, keys);
      OmitRowsKeepScreen(p, PopRows(z, limit, p, p, keys), keys);
    }
  }

  lemma ScreenRecords(z: Sizes, limit: nat, p: Pack, k: string)
    requires Dictionary(p) && k in p.screen
    ensures var q := TrimScreenLists(z, limit, p);
            k in q.screen && DroppedFrom(q.omitted, Section(k)) == DroppedFrom(p.omitted, Section(k)) + |p.screen[k]| - |q.screen[k]|
  {
    if !Fits(z, limit, p) && p.screenKeys.Some? {
      var keys := TrimmableKeys(p, p.screenKeys.value);
      TrimmableOnes(p, p.screenKeys.value);
      PopRowsStop(z, limit, p, p, keys);
      PopRowsKeepOmitted(z, limit, p, p, keys);
      var popped := PopRows(z, limit, p, p, keys);
      OmitRowsKeepScreen(p, popped, keys);
      RowsOnRecord(p, popped, keys, k);
    }
  }

  /** Lists are cut from the tail only; what was cut is on record row by row, and
      coverage states the exact count left; every list is empty if the pack still
      does not fit. */
  lemma ScreenStage(z: Sizes, limit: nat, p: Pack)
    requires Dictionary(p)
    ensures var q := TrimScreenLists(z, limit, p);
            && q == p.(screen := q.screen, coverage := q.coverage, omitted := q.omitted)
            && q.screen.Keys == p.screen.Keys
            && (forall k | k in p.screen :: q.screen[k] <= p.screen[k])
            && (forall k | k in p.screen ::
                  DroppedFrom(q.omitted, Section(k)) == DroppedFrom(p.omitted, Section(k)) + |p.screen[k]| - |q.screen[k]|)
            && (forall section | section in p.screen ==> q.screen[section] == p.screen[section] ::
                  CoverageOf(q.coverage, section) == CoverageOf(p.coverage, section))
            && (forall k | k in p.screen && q.screen[k] != p.screen[k] ::
                  var prev, row := CoverageOf(p.coverage, k), CoverageOf(q.coverage, k);
                  && row.Some? && row.value.section == k && row.value.state == Truncated && row.value.reason == Some("budget")
                  && row.value.returned == |q.screen[k]|
                  && row.value.total == (if prev.None? || prev.value.state == Complete || prev.value.state == Empty
                                         then Some(|p.screen[k]|) else prev.value.total)
                  && row.value.limit == (if prev.None? then None else prev.value.limit)
                  && row.value.via == (if prev.None? then None else prev.value.via))
            && ("degraded_sections" in p.screen ==> q.screen["degraded_sections"] == p.screen["degraded_sections"])
            && (Fits(z, limit, q) || p.screenKeys.None?
                || forall k | k in p.screen && k != "degraded_sections" :: q.screen[k] == [])
  {
    ScreenCuts(z, limit, p);
    forall k | k in p.screen
      ensures var q := TrimScreenLists(z, limit, p);
              k in q.screen && DroppedFrom(q.omitted, Section(k)) == DroppedFrom(p.omitted, Section(k)) + |p.screen[k]| - |q.screen[k]|
    {
      ScreenRecords(z, limit, p, k);
    }
  }

  lemma ScreenStageElsewhere(z: Sizes, limit: nat, p: Pack, section: string)
    requires forall k | k in p.screen :: section != Section(k)
    ensures DroppedFrom(TrimScreenLists(z, limit, p).omitted, section) == DroppedFrom(p.omitted, section)
  {
    if !Fits(z, limit, p) && p.screenKeys.Some? {
      var keys := TrimmableKeys(p, p.screenKeys.value);
      forall k | k in keys ensures section != "screen_data." + k {
        assert section != Section(k);
      }
      PopRowsKeepKeys(z, limit, p, p, keys);
      PopRowsKeepOmitted(z, limit, p, p, keys);
      OtherRowsUntouched(p, PopRows(z, limit, p, p, keys), keys, section);
    }
  }

  lemma PopRowsKeepOmitted(z: Sizes, limit: nat, start: Pack, p: Pack, keys: seq<string>)
    requires forall k | k in keys :: k in p.screen && k in start.screen
    ensures PopRows(z, limit, start, p, keys).omitted == p.omitted
    decreases Rows(p.screen, keys)
  {
    if !Fits(z, limit, p) {
      match Costliest(z, p.screen, keys)
      case None =>
      case Some(key) =>
        PopRowCounts(p.screen, keys, key);
        PopRowsKeepOmitted(z, limit, start, PopRow(p, key, |start.screen[key]|), keys);
    }
  }

  // ---- The whole budget ----------------------------------------------------

  /** What a section lost, as the omission rows tell it. */
  function Recorded(p: Pack, r: Pack, section: string): int {
    DroppedFrom(r.omitted, section) - DroppedFrom(p.omitted, section)
  }

  /** Nothing the budget may give up is left; related context is gone or had fitted
      before its own coverage row was written. */
  ghost predicate Exhausted(z: Sizes, limit: nat, p: Pack, r: Pack) {
    && (forall c | c in r.checks :: !c.ok || c.checkId in p.mentionedChecks)
    && (forall s | s in r.settings :: s in p.mentionedSettings)
    && (forall i | i in r.stateItems :: p.focused == Some(i))
    && (p.screenKeys.Some? ==> forall k | k in p.screen && k != "degraded_sections" :: k in r.screen && r.screen[k] == [])
    && (r.related == [] || Fits(z, limit, p.(related := r.related)))
  }

  /** A pack that fits, or is only measured, is sent as it is.  A trimmed one is over
      budget only when everything that may be given up is gone. */
  lemma OverBudgetIsExhausted(z: Sizes, limit: nat, trim: bool, p: Pack)
    requires Dictionary(p)
    ensures var r := Budgeted(z, limit, trim, p);
            var size := z.payload(r.(omitted := [], info := None));
            && r.info == Some(Info(limit, size, size > limit))
            && (!trim || z.payload(p.(omitted := [], info := None)) <= limit ==> r == p.(info := r.info))
            && (trim && size > limit ==> Exhausted(z, limit, p, r))
  {
    if trim && !Fits(z, limit, p) {
      var p1 := TrimRelated(z, limit, p);
      var p2 := TrimChecks(z, limit, p1);
      var p3 := TrimSettings(z, limit, p2);
      var p4 := TrimState(z, limit, p3);
      RelatedStage(z, limit, p, "");
      ChecksStage(z, limit, p1, "");
      SettingsStage(z, limit, p2, "");
      StateStage(z, limit, p3, "");
      ScreenStage(z, limit, p4);
      assert Fits(z, limit, Budgeted(z, limit, trim, p)) == Fits(z, limit, TrimScreenLists(z, limit, p4));
    }
  }

  function AfterRelated(z: Sizes, limit: nat, p: Pack): Pack { TrimRelated(z, limit, p) }
  function AfterChecks(z: Sizes, limit: nat, p: Pack): Pack { TrimChecks(z, limit, AfterRelated(z, limit, p)) }
  function AfterSettings(z: Sizes, limit: nat, p: Pack): Pack { TrimSettings(z, limit, AfterChecks(z, limit, p)) }
  function AfterState(z: Sizes, limit: nat, p: Pack): Pack { TrimState(z, limit, AfterSettings(z, limit, p)) }

  /** Each stage works on its own list. */
  lemma StagesFrame(z: Sizes, limit: nat, p: Pack)
    requires Dictionary(p)
    ensures var p4 := AfterState(z, limit, p);
            && p4 == p.(related := AfterRelated(z, limit, p).related, checks := AfterChecks(z, limit, p).checks,
                        settings := AfterSettings(z, limit, p).settings, stateItems := p4.stateItems,
                        coverage := p4.coverage, omitted := p4.omitted)
            && var r := Trimmed(z, limit, p);
            && r == p4.(screen := r.screen, coverage := r.coverage, omitted := r.omitted)
  {
    RelatedStage(z, limit, p, "");
    ChecksStage(z, limit, AfterRelated(z, limit, p), "");
    SettingsStage(z, limit, AfterChecks(z, limit, p), "");
    StateStage(z, limit, AfterSettings(z, limit, p), "");
    ScreenStage(z, limit, AfterState(z, limit, p));
  }

  /** What is protected is still there, what is there was there before, and every
      list keeps its order: a prefix and the protected rest, or only a prefix. */
  lemma BudgetKeepsProtected(z: Sizes, limit: nat, trim: bool, p: Pack)
    requires Dictionary(p)
    ensures var r := Budgeted(z, limit, trim, p);
            && ListStage(p.checks, r.checks, CheckProtected(p.mentionedChecks), true)
            && ListStage(p.settings, r.settings, SettingProtected(p.mentionedSettings), true)
            && ListStage(p.stateItems, r.stateItems, StateProtected(p.focused), true)
            && r.screen.Keys == p.screen.Keys && (forall k | k in p.screen :: r.screen[k] <= p.screen[k])
            && (forall e | e in r.related :: e in p.related)
  {
    if trim && !Fits(z, limit, p) {
      StagesFrame(z, limit, p);
      ChecksStage(z, limit, AfterRelated(z, limit, p), "");
      SettingsStage(z, limit, AfterChecks(z, limit, p), "");
      StateStage(z, limit, AfterSettings(z, limit, p), "");
      ScreenShape(z, limit, AfterState(z, limit, p));
      RelatedWrites(z, limit, p, "");
      WithoutCounts(p.related, DroppedRelated(z, limit, p));
    } else {
      Untouched(p.checks, CheckProtected(p.mentionedChecks));
      Untouched(p.settings, SettingProtected(p.mentionedSettings));
      Untouched(p.stateItems, StateProtected(p.focused));
    }
  }

  lemma ScreenShape(z: Sizes, limit: nat, p: Pack)
    requires Dictionary(p)
    ensures var q := TrimScreenLists(z, limit, p);
            q.screen.Keys == p.screen.Keys && forall k | k in p.screen :: q.screen[k] <= p.screen[k]
  {
    ScreenCuts(z, limit, p);
  }

  /** Failing and mentioned checks, mentioned settings and the focused item are all sent,
      and so is the whole list of degraded sections. */
  lemma ProtectedAreSent(z: Sizes, limit: nat, trim: bool, p: Pack)
    requires Dictionary(p)
    ensures var r := Budgeted(z, limit, trim, p);
            && (forall c | c in p.checks && (!c.ok || c.checkId in p.mentionedChecks) :: c in r.checks)
            && (forall s | s in p.settings && s in p.mentionedSettings :: s in r.settings)
            && (p.focused.Some? && p.focused.value in p.stateItems ==> p.focused.value in r.stateItems)
            && ("degraded_sections" in p.screen ==>
                  "degraded_sections" in r.screen && r.screen["degraded_sections"] == p.screen["degraded_sections"])
  {
    BudgetKeepsProtected(z, limit, trim, p);
    if trim && !Fits(z, limit, p) {
      StagesFrame(z, limit, p);
      ScreenStage(z, limit, AfterState(z, limit, p));
    }
    assert p.focused.Some? ==> StateProtected(p.focused)(p.focused.value);
  }

  /** The order of the sections: something of a later one is given up only when nothing
      unprotected is left of the ones before it. */
  lemma GivenUpInOrder(z: Sizes, limit: nat, trim: bool, p: Pack)
    requires Dictionary(p)
    ensures var r := Budgeted(z, limit, trim, p);
            && (r.checks != p.checks || r.settings != p.settings || r.stateItems != p.stateItems || r.screen != p.screen ==>
                  r.related == [] || z.payload(p.(related := r.related, omitted := [], info := None)) <= limit)
            && (r.settings != p.settings || r.stateItems != p.stateItems || r.screen != p.screen ==>
                  forall c | c in r.checks :: !c.ok || c.checkId in p.mentionedChecks)
            && (r.stateItems != p.stateItems || r.screen != p.screen ==> forall s | s in r.settings :: s in p.mentionedSettings)
            && (r.screen != p.screen ==> forall i | i in r.stateItems :: p.focused == Some(i))
  {
    if trim && !Fits(z, limit, p) {
      var p1, p2 := AfterRelated(z, limit, p), AfterChecks(z, limit, p);
      var p3, p4 := AfterSettings(z, limit, p), AfterState(z, limit, p);
      StagesFrame(z, limit, p);
      RelatedStage(z, limit, p, "");
      ChecksStage(z, limit, p1, "");
      SettingsStage(z, limit, p2, "");
      StateStage(z, limit, p3, "");
      FittingStays(z, limit, p1, p2, p3, p4);
    }
  }

  /** A stage leaves a pack that fits alone, and so do all after it. */
  lemma FittingStays(z: Sizes, limit: nat, p1: Pack, p2: Pack, p3: Pack, p4: Pack)
    requires p2 == TrimChecks(z, limit, p1) && p3 == TrimSettings(z, limit, p2) && p4 == TrimState(z, limit, p3)
    ensures Fits(z, limit, p2) ==> p3 == p2
    ensures Fits(z, limit, p3) ==> p4 == p3
    ensures Fits(z, limit, p4) ==> TrimScreenLists(z, limit, p4) == p4
  {
  }

  /** What the first four stages put on record for a section. */
  lemma RecordedByLists(z: Sizes, limit: nat, p: Pack, section: string)
    ensures DroppedFrom(AfterState(z, limit, p).omitted, section) - DroppedFrom(p.omitted, section)
         == (if section == "related_context" then |p.related| - |AfterRelated(z, limit, p).related| else 0)
          + (if section == "diagnostics.checks" then |p.checks| - |AfterChecks(z, limit, p).checks| else 0)
          + (if section == "settings" then |p.settings| - |AfterSettings(z, limit, p).settings| else 0)
          + (if section == "system_state_items" then |p.stateItems| - |AfterState(z, limit, p).stateItems| else 0)
  {
    RelatedStage(z, limit, p, section);
    ChecksStage(z, limit, AfterRelated(z, limit, p), section);
    SettingsStage(z, limit, AfterChecks(z, limit, p), section);
    StateStage(z, limit, AfterSettings(z, limit, p), section);
  }

  /** Kept and recorded drops add up to what there was, section by section. */
  lemma BudgetAccounts(z: Sizes, limit: nat, trim: bool, p: Pack)
    requires Dictionary(p)
    ensures var r := Budgeted(z, limit, trim, p);
            && |p.related| == |r.related| + Recorded(p, r, "related_context")
            && |p.checks| == |r.checks| + Recorded(p, r, "diagnostics.checks")
            && |p.settings| == |r.settings| + Recorded(p, r, "settings")
            && |p.stateItems| == |r.stateItems| + Recorded(p, r, "system_state_items")
  {
    if trim && !Fits(z, limit, p) {
      StagesFrame(z, limit, p);
      ListSectionRecorded(z, limit, p, "related_context");
      ListSectionRecorded(z, limit, p, "diagnostics.checks");
      ListSectionRecorded(z, limit, p, "settings");
      ListSectionRecorded(z, limit, p, "system_state_items");
    }
  }

  lemma SectionsApart(key: string)
    ensures Section(key) != "related_context" && Section(key) != "diagnostics.checks"
    ensures Section(key) != "settings" && Section(key) != "system_state_items"
  {
    assert Section(key)[1] == 'c';
  }

  lemma ListSectionRecorded(z: Sizes, limit: nat, p: Pack, section: string)
    requires section in {"related_context", "diagnostics.checks", "settings", "system_state_items"}
    ensures Recorded(p, Trimmed(z, limit, p), section)
         == (if section == "related_context" then |p.related| - |AfterRelated(z, limit, p).related| else 0)
          + (if section == "diagnostics.checks" then |p.checks| - |AfterChecks(z, limit, p).checks| else 0)
          + (if section == "settings" then |p.settings| - |AfterSettings(z, limit, p).settings| else 0)
          + (if section == "system_state_items" then |p.stateItems| - |AfterState(z, limit, p).stateItems| else 0)
  {
    RecordedByLists(z, limit, p, section);
    forall k: string ensures section != Section(k) {
      SectionsApart(k);
    }
    ScreenStageElsewhere(z, limit, AfterState(z, limit, p), section);
  }

  /** The same for the rows of each screen list. */
  lemma BudgetAccountsForRows(z: Sizes, limit: nat, trim: bool, p: Pack, key: string)
    requires Dictionary(p) && key in p.screen
    ensures var r := Budgeted(z, limit, trim, p);
            key in r.screen && |p.screen[key]| == |r.screen[key]| + Recorded(p, r, Section(key))
  {
    if trim && !Fits(z, limit, p) {
      StagesFrame(z, limit, p);
      ScreenStage(z, limit, AfterState(z, limit, p));
      SectionsApart(key);
      RecordedByLists(z, limit, p, Section(key));
    }
  }

  /** Coverage states the exact count left, and the total known before the cut, of
      every screen list that was cut and of related context when any of it went. */
  lemma BudgetCoverage(z: Sizes, limit: nat, trim: bool, p: Pack)
    requires Dictionary(p) && "related_context.related" !in p.screen
    ensures var r := Budgeted(z, limit, trim, p);
            && r.screen.Keys == p.screen.Keys
            && (forall k | k in p.screen && r.screen[k] != p.screen[k] ::
                  var prev, row := CoverageOf(p.coverage, k), CoverageOf(r.coverage, k);
                  && row.Some? && row.value.section == k && row.value.state == Truncated && row.value.reason == Some("budget")
                  && row.value.returned == |r.screen[k]|
                  && row.value.total == (if prev.None? || prev.value.state == Complete || prev.value.state == Empty
                                         then Some(|p.screen[k]|) else prev.value.total)
                  && row.value.limit == (if prev.None? then None else prev.value.limit)
                  && row.value.via == (if prev.None? then None else prev.value.via))
            && (|r.related| < |p.related| ==>
                  var prev, row := CoverageOf(p.coverage, "related_context.related"), CoverageOf(r.coverage, "related_context.related");
                  && row.Some? && row.value.section == "related_context.related"
                  && row.value.state == Truncated && row.value.reason == Some("budget")
                  && row.value.returned == |set j: nat | j < |r.related| && r.related[j].depth > 0|
                  && row.value.total == (if prev.None? || prev.value.state == Complete || prev.value.state == Empty
                                         then Some(|set j: nat | j < |p.related| && p.related[j].depth > 0|)
                                         else prev.value.total)
                  && row.value.limit == (if prev.None? then None else prev.value.limit)
                  && row.value.via == (if prev.None? then None else prev.value.via))
  {
    if trim && !Fits(z, limit, p) {
      var p1 := TrimRelated(z, limit, p);
      var p2 := TrimChecks(z, limit, p1);
      var p3 := TrimSettings(z, limit, p2);
      var p4 := TrimState(z, limit, p3);
      RelatedStage(z, limit, p, "related_context.related");
      ChecksStage(z, limit, p1, "");
      SettingsStage(z, limit, p2, "");
      StateStage(z, limit, p3, "");
      ScreenStage(z, limit, p4);
      forall k | k in p.screen ensures CoverageOf(p4.coverage, k) == CoverageOf(p.coverage, k) {
        RelatedStage(z, limit, p, k);
      }
    }
  }

  // ---- The coverage row of related context ---------------------------------

  /** One unit for each related entry and for each coverage row. */
  function EntriesAndRows(): Sizes {
    Sizes((p: Pack) => |p.related| + |p.coverage|, (list: seq<string>) => 0)
  }

  function OnlyRelated(entries: seq<Related>): Pack {
    Pack(entries, [], {}, [], {}, [], None, None, map[], [], [], None)
  }

  lemma NothingElseToTrim(z: Sizes, limit: nat, p: Pack)
    requires p.checks == [] && p.settings == [] && p.stateItems == [] && p.screenKeys.None?
    ensures Trimmed(z, limit, p) == TrimRelated(z, limit, p)
  {
    var p1 := TrimRelated(z, limit, p);
    RelatedStage(z, limit, p, "");
    assert KeptChecks(z, limit, p1) == [] && TrimChecks(z, limit, p1) == p1;
    assert KeptSettings(z, limit, p1) == [] && TrimSettings(z, limit, p1) == p1;
    assert TrimState(z, limit, p1) == p1 && TrimScreenLists(z, limit, p1) == p1;
  }

  /** Counting entries, the loop stops when as many are left as the limit allows. */
  lemma DropsDownTo(limit: nat, entries: seq<Related>, order: seq<nat>, d: nat)
    requires Sorted(entries, order) && (forall j :: j in order <==> 0 <= j < |entries|)
    requires |order| == |entries| && limit < |entries| && d <= |entries| - limit
    ensures RelatedDrops(EntriesAndRows(), limit, OnlyRelated(entries), order, d) == |entries| - limit
    decreases |order| - d
  {
    OrderCut(entries, order, d);
    WithoutCounts(entries, Elements(order[..d]));
    if d < |entries| - limit { DropsDownTo(limit, entries, order, d + 1); }
  }

  lemma LeftAtLimit(limit: nat, entries: seq<Related>)
    requires limit < |entries|
    ensures var q := TrimRelated(EntriesAndRows(), limit, OnlyRelated(entries)); |q.related| == limit && |q.coverage| == 1
  {
    var z, p := EntriesAndRows(), OnlyRelated(entries);
    var gone := DroppedRelated(z, limit, p);
    AllButLimitGo(limit, entries);
    WithoutCounts(entries, gone);
    assert TrimRelated(z, limit, p).related == Without(entries, gone);
    assert UpsertIn([], "related_context.related", Deep(Without(entries, gone)), Deep(entries))[1..] == [];
  }

  lemma AllButLimitGo(limit: nat, entries: seq<Related>)
    requires limit < |entries|
    ensures var gone := DroppedRelated(EntriesAndRows(), limit, OnlyRelated(entries));
            |gone| == |entries| - limit && gone != {} && forall i | i in gone :: i < |entries|
  {
    var order := DropOrder(entries, |entries|);
    DropsDownTo(limit, entries, order, 0);
    OrderCut(entries, order, |entries| - limit);
  }

  /** The coverage row is written after the stage's size loop.  However many related
      entries there are and however many the limit leaves: a pack that fits once enough
      of them are gone is over budget again with that row, and stays so with all the
      entries it could still give up. */
  lemma CoverageRowTakesItOver(limit: nat, entries: seq<Related>)
    requires limit < |entries|
    ensures var z, p := EntriesAndRows(), OnlyRelated(entries);
            var q, r := TrimRelated(z, limit, p), Budgeted(z, limit, true, p);
            && |q.related| == limit && Fits(z, limit, p.(related := q.related)) && !Fits(z, limit, q)
            && r.related == q.related && r.info == Some(Info(limit, limit + 1, true))
  {
    LeftAtLimit(limit, entries);
    NothingElseToTrim(EntriesAndRows(), limit, OnlyRelated(entries));
  }
}
