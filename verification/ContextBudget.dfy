/** Trimming a context pack to an input budget (assistant_context_budget.py): the
    stages in their fixed order, for an arbitrary size measure.  Nothing is
    assumed of the measure: dropping an entry, or recording a drop, may make the
    payload larger. */
module ContextBudget {
  import opened Wrappers

  datatype Related = Related(sourceId: string, depth: nat, stale: bool)
  datatype Check = Check(checkId: string, ok: bool)

  datatype CoverageState = Complete | Empty | Truncated | Unavailable | NotOffered

  datatype Coverage = Coverage(
    section: string, state: CoverageState, returned: nat, total: Option<nat>,
    limit: Option<nat>, via: Option<string>, reason: Option<string>)

  datatype Omission = Omission(section: string, reason: string, dropped: nat)

  datatype Info = Info(limit: nat, used: nat, overBudget: bool)

  /** `screen` holds the list-valued keys of screen_data; `screenKeys` is the order
      of its keys, and None stands for screen_data that is no dictionary. */
  datatype Pack = Pack(
    related: seq<Related>,
    checks: seq<Check>, mentionedChecks: set<string>,
    settings: seq<string>, mentionedSettings: set<string>,
    stateItems: seq<string>, focused: Option<string>,
    screenKeys: Option<seq<string>>, screen: map<string, seq<string>>,
    coverage: seq<Coverage>, omitted: seq<Omission>, info: Option<Info>)

  /** The two measures: of the whole payload, and of one list. */
  datatype Sizes = Sizes(payload: Pack -> nat, list: seq<string> -> nat)

  /** The budget notice is left out of what is measured. */
  function Measure(z: Sizes, p: Pack): nat {
    z.payload(p.(omitted := [], info := None))
  }

  predicate Fits(z: Sizes, limit: nat, p: Pack) {
    Measure(z, p) <= limit
  }

  // ---- Book-keeping --------------------------------------------------------

  function OmitIn(rows: seq<Omission>, section: string, dropped: nat): seq<Omission> {
    if rows == [] then [Omission(section, "budget", dropped)]
    else if rows[0].section == section && rows[0].reason == "budget"
    then [rows[0].(dropped := rows[0].dropped + dropped)] + rows[1..]
    else [rows[0]] + OmitIn(rows[1..], section, dropped)
  }

  function Omit(p: Pack, section: string, dropped: nat): Pack {
    if dropped == 0 then p else p.(omitted := OmitIn(p.omitted, section, dropped))
  }

  /** What is on record as dropped from a section. */
  function DroppedFrom(rows: seq<Omission>, section: string): nat {
    if rows == [] then 0
    else if rows[0].section == section && rows[0].reason == "budget" then rows[0].dropped
    else DroppedFrom(rows[1..], section)
  }

  function TruncatedRow(prev: Option<Coverage>, section: string, returned: nat, original: nat): Coverage {
    var total := if prev.None? || prev.value.state == Complete || prev.value.state == Empty
                 then Some(original) else prev.value.total;
    Coverage(section, Truncated, returned, total,
             if prev.Some? then prev.value.limit else None, if prev.Some? then prev.value.via else None, Some("budget"))
  }

  function UpsertIn(rows: seq<Coverage>, section: string, returned: nat, original: nat): seq<Coverage> {
    if rows == [] then [TruncatedRow(None, section, returned, original)]
    else if rows[0].section == section then [TruncatedRow(Some(rows[0]), section, returned, original)] + rows[1..]
    else [rows[0]] + UpsertIn(rows[1..], section, returned, original)
  }

  function UpsertTruncated(p: Pack, section: string, returned: nat, original: nat): Pack {
    p.(coverage := UpsertIn(p.coverage, section, returned, original))
  }

  /** The first coverage row of a section. */
  function CoverageOf(rows: seq<Coverage>, section: string): Option<Coverage> {
    if rows == [] then None
    else if rows[0].section == section then Some(rows[0])
    else CoverageOf(rows[1..], section)
  }

  /** The row it adds to is the first of its section and reason. */
  lemma {:induction false} OmitHits(rows: seq<Omission>, section: string, dropped: nat, i: nat)
    requires i <= |rows|
    requires forall j | 0 <= j < i :: rows[j].section != section || rows[j].reason != "budget"
    requires i < |rows| ==> rows[i].section == section && rows[i].reason == "budget"
    ensures OmitIn(rows, section, dropped)
         == if i < |rows| then rows[i := rows[i].(dropped := rows[i].dropped + dropped)]
            else rows + [Omission(section, "budget", dropped)]
  {
    if i > 0 {
      OmitHits(rows[1..], section, dropped, i - 1);
    }
  }

  lemma {:induction false} UpsertHits(rows: seq<Coverage>, section: string, returned: nat, original: nat, i: nat)
    requires i <= |rows|
    requires forall j | 0 <= j < i :: rows[j].section != section
    requires i < |rows| ==> rows[i].section == section
    ensures UpsertIn(rows, section, returned, original)
         == if i < |rows| then rows[i := TruncatedRow(Some(rows[i]), section, returned, original)]
            else rows + [TruncatedRow(None, section, returned, original)]
  {
    if i > 0 {
      UpsertHits(rows[1..], section, returned, original, i - 1);
    }
  }

  lemma OmitRecords(rows: seq<Omission>, section: string, dropped: nat, other: string)
    ensures DroppedFrom(OmitIn(rows, section, dropped), other)
         == DroppedFrom(rows, other) + if other == section then dropped else 0
  {
  }

  lemma UpsertStates(rows: seq<Coverage>, section: string, returned: nat, original: nat, other: string)
    ensures CoverageOf(UpsertIn(rows, section, returned, original), other)
         == if other == section then Some(TruncatedRow(CoverageOf(rows, section), section, returned, original))
            else CoverageOf(rows, other)
  {
  }

  // ---- Stage 1: related context, deepest and latest first ------------------

  predicate GoesBefore(entries: seq<Related>, i: nat, j: nat)
    requires i < |entries| && j < |entries|
  {
    entries[i].depth > entries[j].depth || (entries[i].depth == entries[j].depth && i > j)
  }

  function Insert(entries: seq<Related>, i: nat, order: seq<nat>): seq<nat>
    requires i < |entries| && forall a | 0 <= a < |order| :: order[a] < |entries|
  {
    if order == [] then [i]
    else if GoesBefore(entries, i, order[0]) then [i] + order
    else [order[0]] + Insert(entries, i, order[1..])
  }

  predicate Sorted(entries: seq<Related>, order: seq<nat>) {
    && (forall a | 0 <= a < |order| :: order[a] < |entries|)
    && forall a, b | 0 <= a < b < |order| :: GoesBefore(entries, order[a], order[b])
  }

  lemma {:induction false} InsertSorts(entries: seq<Related>, i: nat, order: seq<nat>)
    requires i < |entries| && Sorted(entries, order) && i !in order
    ensures Sorted(entries, Insert(entries, i, order))
    ensures forall j :: j in Insert(entries, i, order) <==> j == i || j in order
    ensures |Insert(entries, i, order)| == |order| + 1
  {
    if order != [] && !GoesBefore(entries, i, order[0]) {
      InsertSorts(entries, i, order[1..]);
      assert order == [order[0]] + order[1..];
      var tail := Insert(entries, i, order[1..]);
      forall b | 0 <= b < |tail| ensures GoesBefore(entries, order[0], tail[b]) {
        assert tail[b] in tail;
        if tail[b] != i {
          var a :| 0 <= a < |order[1..]| && order[1..][a] == tail[b];
          assert order[a + 1] == tail[b];
        } else {
          assert order[0] in order;
        }
      }
    } else {
      forall b | 0 <= b < |order| ensures GoesBefore(entries, i, order[b]) {}
    }
  }

  /** The indices of the first `n` entries in the order they are given up. */
  function DropOrder(entries: seq<Related>, n: nat): (order: seq<nat>)
    requires n <= |entries|
    ensures |order| == n && Sorted(entries, order)
    ensures forall j :: j in order <==> 0 <= j < n
  {
    if n == 0 then []
    else
      InsertSorts(entries, n - 1, DropOrder(entries, n - 1));
      Insert(entries, n - 1, DropOrder(entries, n - 1))
  }

  function Elements(order: seq<nat>): set<nat> {
    set i | i in order
  }

  lemma ElementsGrow(order: seq<nat>, d: nat)
    requires d < |order|
    ensures Elements(order[..d + 1]) == Elements(order[..d]) + {order[d]}
  {
    assert order[..d + 1] == order[..d] + [order[d]];
  }

  function Without(entries: seq<Related>, dropped: set<nat>): seq<Related> {
    if entries == [] then []
    else
      var k := |entries| - 1;
      Without(entries[..k], dropped) + if k in dropped then [] else [entries[k]]
  }

  lemma WithoutNothing(entries: seq<Related>)
    ensures Without(entries, {}) == entries
  {
  }

  /** How many entries the loop gives up, having given up `d`. */
  function RelatedDrops(z: Sizes, limit: nat, p: Pack, order: seq<nat>, d: nat): (n: nat)
    requires d <= |order|
    ensures d <= n <= |order|
    decreases |order| - d
  {
    if d == |order| || Fits(z, limit, p.(related := Without(p.related, Elements(order[..d])))) then d
    else RelatedDrops(z, limit, p, order, d + 1)
  }

  function Deep(entries: seq<Related>): nat {
    if entries == [] then 0 else Deep(entries[..|entries| - 1]) + if entries[|entries| - 1].depth > 0 then 1 else 0
  }

  function DroppedRelated(z: Sizes, limit: nat, p: Pack): set<nat> {
    var order := DropOrder(p.related, |p.related|);
    Elements(order[..RelatedDrops(z, limit, p, order, 0)])
  }

  function TrimRelated(z: Sizes, limit: nat, p: Pack): Pack {
    var dropped := DroppedRelated(z, limit, p);
    if dropped == {} then p
    else
      var kept := Without(p.related, dropped);
      UpsertTruncated(Omit(p.(related := kept), "related_context", |dropped|),
                      "related_context.related", Deep(kept), Deep(p.related))
  }

  // ---- Stages 2 to 4: give up unprotected items from the tail --------------

  /** What the loop leaves of `items` when it has come down to `n`. */
  function DropTail<T>(items: seq<T>, n: nat, protected: T -> bool, fits: seq<T> -> bool): seq<T>
    requires n <= |items|
    decreases n
  {
    if n == 0 || fits(items) then items
    else if protected(items[n - 1]) then DropTail(items, n - 1, protected, fits)
    else DropTail(items[..n - 1] + items[n..], n - 1, protected, fits)
  }

  function Filter<T>(items: seq<T>, protected: T -> bool): seq<T> {
    if items == [] then [] else (if protected(items[0]) then [items[0]] else []) + Filter(items[1..], protected)
  }

  /** A prefix, and of the rest the protected items. */
  ghost predicate PrefixAndProtected<T>(items: seq<T>, kept: seq<T>, protected: T -> bool) {
    exists k :: 0 <= k <= |items| && kept == items[..k] + Filter(items[k..], protected)
  }

  lemma {:induction false} DropTailShape<T>(whole: seq<T>, n: nat, protected: T -> bool, fits: seq<T> -> bool)
    requires n <= |whole|
    ensures var items := whole[..n] + Filter(whole[n..], protected);
            var kept := DropTail(items, n, protected, fits);
            PrefixAndProtected(whole, kept, protected) && (fits(kept) || kept == Filter(whole, protected))
    decreases n
  {
    var items := whole[..n] + Filter(whole[n..], protected);
    if n == 0 {
      assert items == Filter(whole, protected) && whole[0..] == whole;
    } else if !fits(items) {
      OneFurther(whole, n, protected);
      var next := whole[..n - 1] + Filter(whole[n - 1..], protected);
      assert DropTail(items, n, protected, fits) == DropTail(next, n - 1, protected, fits);
      DropTailShape(whole, n - 1, protected, fits);
    }
  }

  /** Coming down by one: a protected item stays where it is, any other goes. */
  lemma OneFurther<T>(whole: seq<T>, n: nat, protected: T -> bool)
    requires 0 < n <= |whole|
    ensures var items := whole[..n] + Filter(whole[n..], protected);
            var next := whole[..n - 1] + Filter(whole[n - 1..], protected);
            && items[n - 1] == whole[n - 1]
            && next == if protected(whole[n - 1]) then items else items[..n - 1] + items[n..]
  {
    assert whole[n - 1..][1..] == whole[n..] && whole[n - 1..][0] == whole[n - 1];
    assert whole[..n] == whole[..n - 1] + [whole[n - 1]];
  }

  lemma FilterKeeps<T>(items: seq<T>, protected: T -> bool)
    ensures forall x :: x in Filter(items, protected) <==> x in items && protected(x)
  {
  }

  /** Protected items survive, in the same places of the order, and nothing is added. */
  lemma ProtectedSurvive<T>(items: seq<T>, kept: seq<T>, protected: T -> bool)
    requires PrefixAndProtected(items, kept, protected)
    ensures forall x | x in items && protected(x) :: x in kept
    ensures forall x | x in kept :: x in items
    ensures |kept| <= |items|
  {
    var k :| 0 <= k <= |items| && kept == items[..k] + Filter(items[k..], protected);
    FilterKeeps(items[k..], protected);
    FilterIsShorter(items[k..], protected);
    assert items == items[..k] + items[k..];
  }

  lemma FilterIsShorter<T>(items: seq<T>, protected: T -> bool)
    ensures |Filter(items, protected)| <= |items|
  {
  }

  lemma DropTailShorter<T>(items: seq<T>, n: nat, protected: T -> bool, fits: seq<T> -> bool)
    requires n <= |items|
    ensures |DropTail(items, n, protected, fits)| <= |items|
    decreases n
  {
  }

  function CheckProtected(mentioned: set<string>): Check -> bool {
    (c: Check) => !c.ok || c.checkId in mentioned
  }

  function FitsWithChecks(z: Sizes, limit: nat, p: Pack): seq<Check> -> bool {
    (xs: seq<Check>) => Fits(z, limit, p.(checks := xs))
  }

  function KeptChecks(z: Sizes, limit: nat, p: Pack): (kept: seq<Check>)
    ensures |kept| <= |p.checks|
  {
    DropTailShorter(p.checks, |p.checks|, CheckProtected(p.mentionedChecks), FitsWithChecks(z, limit, p));
    DropTail(p.checks, |p.checks|, CheckProtected(p.mentionedChecks), FitsWithChecks(z, limit, p))
  }

  function TrimChecks(z: Sizes, limit: nat, p: Pack): Pack {
    if Fits(z, limit, p) then p
    else Omit(p.(checks := KeptChecks(z, limit, p)), "diagnostics.checks", |p.checks| - |KeptChecks(z, limit, p)|)
  }

  function SettingProtected(mentioned: set<string>): string -> bool {
    (s: string) => s in mentioned
  }

  function FitsWithSettings(z: Sizes, limit: nat, p: Pack): seq<string> -> bool {
    (xs: seq<string>) => Fits(z, limit, p.(settings := xs))
  }

  function KeptSettings(z: Sizes, limit: nat, p: Pack): (kept: seq<string>)
    ensures |kept| <= |p.settings|
  {
    DropTailShorter(p.settings, |p.settings|, SettingProtected(p.mentionedSettings), FitsWithSettings(z, limit, p));
    DropTail(p.settings, |p.settings|, SettingProtected(p.mentionedSettings), FitsWithSettings(z, limit, p))
  }

  function TrimSettings(z: Sizes, limit: nat, p: Pack): Pack {
    if Fits(z, limit, p) then p
    else Omit(p.(settings := KeptSettings(z, limit, p)), "settings", |p.settings| - |KeptSettings(z, limit, p)|)
  }

  function StateProtected(focused: Option<string>): string -> bool {
    (s: string) => focused == Some(s)
  }

  function FitsWithState(z: Sizes, limit: nat, p: Pack): seq<string> -> bool {
    (xs: seq<string>) => Fits(z, limit, p.(stateItems := xs))
  }

  function KeptState(z: Sizes, limit: nat, p: Pack): (kept: seq<string>)
    ensures |kept| <= |p.stateItems|
  {
    DropTailShorter(p.stateItems, |p.stateItems|, StateProtected(p.focused), FitsWithState(z, limit, p));
    DropTail(p.stateItems, |p.stateItems|, StateProtected(p.focused), FitsWithState(z, limit, p))
  }

  function TrimState(z: Sizes, limit: nat, p: Pack): Pack {
    if Fits(z, limit, p) || p.stateItems == [] then p
    else Omit(p.(stateItems := KeptState(z, limit, p)), "system_state_items", |p.stateItems| - |KeptState(z, limit, p)|)
  }

  // ---- Stage 5: screen lists, the costliest first --------------------------

  const UNTRIMMABLE := "degraded_sections"

  /** The keys the stage works on: non-empty lists, in key order. */
  function TrimmableKeys(p: Pack, keys: seq<string>): (ks: seq<string>)
    ensures forall k | k in ks :: k in p.screen && k in keys
  {
    if keys == [] then []
    else (if keys[0] in p.screen && p.screen[keys[0]] != [] && keys[0] != UNTRIMMABLE then [keys[0]] else [])
         + TrimmableKeys(p, keys[1..])
  }

  function Rows(screen: map<string, seq<string>>, keys: seq<string>): nat {
    if keys == [] then 0 else (if keys[0] in screen then |screen[keys[0]]| else 0) + Rows(screen, keys[1..])
  }

  /** The first key with a non-empty list of the greatest size, if any. */
  function Costliest(z: Sizes, screen: map<string, seq<string>>, keys: seq<string>): (k: Option<string>)
    requires forall k | k in keys :: k in screen
    ensures k.Some? ==> k.value in keys && screen[k.value] != []
    ensures k.Some? ==> forall other | other in keys && screen[other] != [] :: z.list(screen[other]) <= z.list(screen[k.value])
    ensures k.None? ==> forall k | k in keys :: screen[k] == []
  {
    if keys == [] then None
    else
      var last := keys[|keys| - 1];
      assert keys == keys[..|keys| - 1] + [last];
      var best := Costliest(z, screen, keys[..|keys| - 1]);
      if screen[last] == [] then best
      else if best.None? || z.list(screen[last]) > z.list(screen[best.value]) then Some(last)
      else best
  }

  function PopRow(p: Pack, key: string, original: nat): Pack
    requires key in p.screen && p.screen[key] != []
  {
    var shorter := p.screen[key][..|p.screen[key]| - 1];
    UpsertTruncated(p.(screen := p.screen[key := shorter]), key, |shorter|, original)
  }

  lemma PopRowCounts(screen: map<string, seq<string>>, keys: seq<string>, key: string)
    requires key in screen && screen[key] != []
    ensures Rows(screen[key := screen[key][..|screen[key]| - 1]], keys) <= Rows(screen, keys)
    ensures key in keys ==> Rows(screen[key := screen[key][..|screen[key]| - 1]], keys) < Rows(screen, keys)
  {
    if keys != [] {
      PopRowCounts(screen, keys[1..], key);
    }
  }

  function PopRows(z: Sizes, limit: nat, start: Pack, p: Pack, keys: seq<string>): Pack
    requires forall k | k in keys :: k in p.screen && k in start.screen
    decreases Rows(p.screen, keys)
  {
    if Fits(z, limit, p) then p
    else match Costliest(z, p.screen, keys)
      case None => p
      case Some(key) =>
        PopRowCounts(p.screen, keys, key);
        PopRows(z, limit, start, PopRow(p, key, |start.screen[key]|), keys)
  }

  function OmitRows(start: Pack, p: Pack, keys: seq<string>): Pack
    requires forall k | k in keys :: k in p.screen && k in start.screen
  {
    if keys == [] then p
    else
      var key := keys[|keys| - 1];
      assert keys == keys[..|keys| - 1] + [key];
      var before := OmitRows(start, p, keys[..|keys| - 1]);
      var dropped := |start.screen[key]| - |p.screen[key]|;
      if dropped > 0 then Omit(before, "screen_data." + key, dropped) else before
  }

  lemma PopRowsKeepKeys(z: Sizes, limit: nat, start: Pack, p: Pack, keys: seq<string>)
    requires forall k | k in keys :: k in p.screen && k in start.screen
    ensures PopRows(z, limit, start, p, keys).screen.Keys == p.screen.Keys
    decreases Rows(p.screen, keys)
  {
    if !Fits(z, limit, p) {
      match Costliest(z, p.screen, keys)
      case None =>
      case Some(key) =>
        PopRowCounts(p.screen, keys, key);
        PopRowsKeepKeys(z, limit, start, PopRow(p, key, |start.screen[key]|), keys);
    }
  }

  lemma OmitRowsKeepScreen(start: Pack, p: Pack, keys: seq<string>)
    requires forall k | k in keys :: k in p.screen && k in start.screen
    ensures OmitRows(start, p, keys).(omitted := []) == p.(omitted := [])
  {
  }

  function TrimScreenLists(z: Sizes, limit: nat, p: Pack): Pack {
    if Fits(z, limit, p) || p.screenKeys.None? then p
    else
      var keys := TrimmableKeys(p, p.screenKeys.value);
      PopRowsKeepKeys(z, limit, p, p, keys);
      OmitRows(p, PopRows(z, limit, p, p, keys), keys)
  }

  // ---- The whole -----------------------------------------------------------

  function Trimmed(z: Sizes, limit: nat, p: Pack): Pack {
    TrimScreenLists(z, limit, TrimState(z, limit, TrimSettings(z, limit, TrimChecks(z, limit, TrimRelated(z, limit, p)))))
  }

  function Budgeted(z: Sizes, limit: nat, trim: bool, p: Pack): Pack {
    var q := if trim && !Fits(z, limit, p) then Trimmed(z, limit, p) else p;
    q.(info := Some(Info(limit, Measure(z, q), Measure(z, q) > limit)))
  }
}
