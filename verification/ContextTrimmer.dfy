/** The pack as the code holds it: one object whose lists, coverage rows and
    omission rows are rewritten in place, stage by stage
    (assistant_context_budget.py). */
module ContextTrimmer {
  import opened Wrappers
  import opened ContextBudget

  /** Pops unprotected items from the tail while the payload is over budget.
      `fits` sees the pack with its list replaced. */
  method DropFromTail<T>(items: seq<T>, protected: T -> bool, fits: seq<T> -> bool)
    returns (kept: seq<T>, dropped: nat)
    ensures kept == DropTail(items, |items|, protected, fits)
    ensures PrefixAndProtected(items, kept, protected)
    ensures fits(kept) || kept == Filter(items, protected)
    ensures dropped + |kept| == |items|
  {
    DropTailShape(items, |items|, protected, fits);
    assert items[..|items|] + Filter(items[|items|..], protected) == items;
    kept, dropped := items, 0;
    var n: nat := |items|;
    while n > 0 && !fits(kept)
      invariant n <= |kept| && dropped + |kept| == |items|
      invariant DropTail(kept, n, protected, fits) == DropTail(items, |items|, protected, fits)
    {
      if !protected(kept[n - 1]) {
        kept := kept[..n - 1] + kept[n..];
        dropped := dropped + 1;
      }
      n := n - 1;
    }
  }

  class ContextPack {
    var related: seq<Related>
    var checks: seq<Check>
    const mentionedChecks: set<string>
    var settings: seq<string>
    const mentionedSettings: set<string>
    var stateItems: seq<string>
    const focused: Option<string>
    const screenKeys: Option<seq<string>>
    var screen: map<string, seq<string>>
    var coverage: seq<Coverage>
    var omitted: seq<Omission>
    var info: Option<Info>

    constructor (p: Pack)
      ensures State() == p
    {
      related, checks, settings, stateItems := p.related, p.checks, p.settings, p.stateItems;
      mentionedChecks, mentionedSettings, focused := p.mentionedChecks, p.mentionedSettings, p.focused;
      screenKeys, screen := p.screenKeys, p.screen;
      coverage, omitted, info := p.coverage, p.omitted, p.info;
    }

    function State(): Pack
      reads this
    {
      Pack(related, checks, mentionedChecks, settings, mentionedSettings, stateItems, focused,
           screenKeys, screen, coverage, omitted, info)
    }

    method OmitItems(section: string, dropped: nat)
      modifies this`omitted
      ensures State() == Omit(old(State()), section, dropped)
      ensures dropped > 0 ==>
                forall i | 0 <= i < |old(omitted)| && old(omitted)[i].section == section && old(omitted)[i].reason == "budget"
                           && (forall j | 0 <= j < i :: old(omitted)[j].section != section || old(omitted)[j].reason != "budget") ::
                  omitted == old(omitted)[i := Omission(section, "budget", old(omitted)[i].dropped + dropped)]
      ensures dropped > 0 && (forall j | 0 <= j < |old(omitted)| ::
                                old(omitted)[j].section != section || old(omitted)[j].reason != "budget") ==>
                omitted == old(omitted) + [Omission(section, "budget", dropped)]
    {
      if dropped == 0 {
        return;
      }
      var i := 0;
      while i < |omitted| && (omitted[i].section != section || omitted[i].reason != "budget")
        invariant i <= |omitted|
        invariant forall j | 0 <= j < i :: omitted[j].section != section || omitted[j].reason != "budget"
      {
        i := i + 1;
      }
      OmitHits(omitted, section, dropped, i);
      if i < |omitted| {
        omitted := omitted[i := omitted[i].(dropped := omitted[i].dropped + dropped)];
      } else {
        omitted := omitted + [Omission(section, "budget", dropped)];
      }
    }

    method MarkTruncated(section: string, returned: nat, original: nat)
      modifies this`coverage
      ensures State() == UpsertTruncated(old(State()), section, returned, original)
      ensures forall i | 0 <= i < |old(coverage)| && old(coverage)[i].section == section
                         && (forall j | 0 <= j < i :: old(coverage)[j].section != section) ::
                var was := old(coverage)[i];
                coverage == old(coverage)[i := Coverage(
                  section, Truncated, returned,
                  if was.state == Complete || was.state == Empty then Some(original) else was.total,
                  was.limit, was.via, Some("budget"))]
      ensures (forall j | 0 <= j < |old(coverage)| :: old(coverage)[j].section != section) ==>
                coverage == old(coverage) + [Coverage(section, Truncated, returned, Some(original), None, None, Some("budget"))]
    {
      var i := 0;
      while i < |coverage| && coverage[i].section != section
        invariant i <= |coverage|
        invariant forall j | 0 <= j < i :: coverage[j].section != section
      {
        i := i + 1;
      }
      UpsertHits(coverage, section, returned, original, i);
      if i < |coverage| {
        coverage := coverage[i := TruncatedRow(Some(coverage[i]), section, returned, original)];
      } else {
        coverage := coverage + [TruncatedRow(None, section, returned, original)];
      }
    }

    method GiveUpRelated(z: Sizes, limit: nat)
      modifies this`related, this`omitted, this`coverage
      ensures State() == TrimRelated(z, limit, old(State()))
    {
      ghost var p := State();
      var entries := related;
      if entries == [] {
        return;
      }
      var order := DropOrder(entries, |entries|);
      var droppedIds: set<nat> := {};
      var d := 0;
      WithoutNothing(entries);
      while d < |order| && !Fits(z, limit, State())
        invariant d <= |order| && droppedIds == Elements(order[..d])
        invariant State() == p.(related := Without(entries, droppedIds))
        invariant RelatedDrops(z, limit, p, order, d) == RelatedDrops(z, limit, p, order, 0)
      {
        ElementsGrow(order, d);
        droppedIds := droppedIds + {order[d]};
        related := Without(entries, droppedIds);
        d := d + 1;
      }
      assert droppedIds == DroppedRelated(z, limit, p);
      if droppedIds != {} {
        OmitItems("related_context", |droppedIds|);
        MarkTruncated("related_context.related", Deep(related), Deep(entries));
      }
    }

    method GiveUpChecks(z: Sizes, limit: nat)
      modifies this`checks, this`omitted
      ensures State() == TrimChecks(z, limit, old(State()))
    {
      if !Fits(z, limit, State()) {
        var dropped;
        checks, dropped := DropFromTail(checks, CheckProtected(mentionedChecks), FitsWithChecks(z, limit, State()));
        OmitItems("diagnostics.checks", dropped);
      }
    }

    method GiveUpSettings(z: Sizes, limit: nat)
      modifies this`settings, this`omitted
      ensures State() == TrimSettings(z, limit, old(State()))
    {
      if !Fits(z, limit, State()) {
        var dropped;
        settings, dropped := DropFromTail(settings, SettingProtected(mentionedSettings), FitsWithSettings(z, limit, State()));
        OmitItems("settings", dropped);
      }
    }

    method GiveUpState(z: Sizes, limit: nat)
      modifies this`stateItems, this`omitted
      ensures State() == TrimState(z, limit, old(State()))
    {
      if !Fits(z, limit, State()) && stateItems != [] {
        var dropped;
        stateItems, dropped := DropFromTail(stateItems, StateProtected(focused), FitsWithState(z, limit, State()));
        OmitItems("system_state_items", dropped);
      }
    }

    /** The first key whose non-empty list is measured largest. */
    method CostliestKey(z: Sizes, keys: seq<string>) returns (best: Option<string>)
      requires forall k | k in keys :: k in screen
      ensures best == Costliest(z, screen, keys)
    {
      best := None;
      for i := 0 to |keys|
        invariant best == Costliest(z, screen, keys[..i])
      {
        assert keys[..i + 1][..i] == keys[..i];
        if screen[keys[i]] != [] && (best.None? || z.list(screen[keys[i]]) > z.list(screen[best.value])) {
          best := Some(keys[i]);
        }
      }
      assert keys[..|keys|] == keys;
    }

    method PopScreenRows(z: Sizes, limit: nat, keys: seq<string>)
      requires forall k | k in keys :: k in screen
      modifies this`screen, this`coverage
      ensures State() == PopRows(z, limit, old(State()), old(State()), keys)
    {
      ghost var start := State();
      var originals := screen;
      while !Fits(z, limit, State())
        invariant screen.Keys == originals.Keys
        invariant PopRows(z, limit, start, State(), keys) == PopRows(z, limit, start, start, keys)
        decreases Rows(screen, keys)
      {
        var best := CostliestKey(z, keys);
        if best.None? {
          break;
        }
        var key := best.value;
        PopRowCounts(screen, keys, key);
        screen := screen[key := screen[key][..|screen[key]| - 1]];
        MarkTruncated(key, |screen[key]|, |originals[key]|);
      }
    }

    method RecordScreenRows(ghost start: Pack, originals: map<string, seq<string>>, keys: seq<string>)
      requires originals == start.screen
      requires forall k | k in keys :: k in screen && k in originals
      modifies this`omitted
      ensures State() == OmitRows(start, old(State()), keys)
    {
      ghost var popped := State();
      for i := 0 to |keys|
        invariant State() == OmitRows(start, popped, keys[..i])
      {
        assert keys[..i + 1][..i] == keys[..i];
        if |originals[keys[i]]| > |screen[keys[i]]| {
          OmitItems("screen_data." + keys[i], |originals[keys[i]]| - |screen[keys[i]]|);
        }
      }
      assert keys[..|keys|] == keys;
    }

    method GiveUpScreenRows(z: Sizes, limit: nat)
      modifies this`screen, this`coverage, this`omitted
      ensures State() == TrimScreenLists(z, limit, old(State()))
    {
      if !Fits(z, limit, State()) && screenKeys.Some? {
        ghost var start := State();
        var originals := screen;
        var keys := TrimmableKeys(State(), screenKeys.value);
        PopRowsKeepKeys(z, limit, start, start, keys);
        PopScreenRows(z, limit, keys);
        RecordScreenRows(start, originals, keys);
      }
    }

    method ApplyContextBudget(z: Sizes, limit: nat, trim: bool) returns (verdict: Info)
      modifies this
      ensures State() == Budgeted(z, limit, trim, old(State()))
      ensures State().info == Some(verdict) && verdict.limit == limit
      ensures verdict.used == z.payload(State().(omitted := [], info := None)) && verdict.overBudget == (verdict.used > limit)
    {
      if trim && !Fits(z, limit, State()) {
        GiveUpRelated(z, limit);
        GiveUpChecks(z, limit);
        GiveUpSettings(z, limit);
        GiveUpState(z, limit);
        GiveUpScreenRows(z, limit);
      }
      var used := Measure(z, State());
      verdict := Info(limit, used, used > limit);
      info := Some(verdict);
    }
  }
}
