/** Applying a proposal's rows to a Requirement (assistant_discussion_proposal.py).
    Each row is applied to the revision the row before it wrote. */
module BatchApply {
  import opened Wrappers

  type Key = nat

  const MANUAL_REVIEW := "manual_review"
  const VERIFICATION_METHODS := {MANUAL_REVIEW, "replay", "experiment", "runtime_observation", "not_verifiable"}

  datatype Field = Statement | Rationale | ConstraintText | OutOfScopeNote

  /** The content columns a row may name; key and order are not among them. */
  datatype Column = Text | Method | Note

  datatype Cells = Cells(text: string, method_: string, note: string) {
    function Get(c: Column): string {
      match c
      case Text => text
      case Method => method_
      case Note => note
    }

    function Set(c: Column, v: string): Cells {
      match c
      case Text => Cells(v, method_, note)
      case Method => Cells(text, v, note)
      case Note => Cells(text, method_, v)
    }
  }

  datatype Criterion = Criterion(order: int, cells: Cells)

  datatype Fields = Fields(statement: string, rationale: string, constraintText: string, outOfScopeNote: string) {
    function Get(f: Field): string {
      match f
      case Statement => statement
      case Rationale => rationale
      case ConstraintText => constraintText
      case OutOfScopeNote => outOfScopeNote
    }

    function Set(f: Field, v: string): Fields {
      match f
      case Statement => this.(statement := v)
      case Rationale => this.(rationale := v)
      case ConstraintText => this.(constraintText := v)
      case OutOfScopeNote => this.(outOfScopeNote := v)
    }
  }

  /** The current revision of a Requirement.  `outOfScope` belongs to its identity. */
  datatype Requirement = Requirement(outOfScope: bool, fields: Fields, criteria: map<Key, Criterion>)

  datatype Intent = Add | Update | Remove

  /** A row of a proposal: a field of the Requirement, or a change to one criterion. */
  datatype Item =
    | FieldItem(field: Field, value: string)
    | ChildItem(key: Key, intent: Intent, column: Option<Column>, value: string, order: Option<int>)

  datatype Error = NotFound | OutOfScopeNotVerifiable | InvalidMember | KeyDuplicated

  predicate Sound(r: Requirement) {
    && (forall k | k in r.criteria :: r.criteria[k].cells.method_ in VERIFICATION_METHODS)
    && (r.outOfScope ==> r.criteria == map[])
  }

  /** What the registry lets through. */
  predicate Allowed(item: Item) {
    item.ChildItem? && item.intent != Remove && item.column == Some(Method) ==> item.value in VERIFICATION_METHODS
  }

  function Blank(order: int): Criterion {
    Criterion(order, Cells("", MANUAL_REVIEW, ""))
  }

  function Written(c: Criterion, item: Item): Criterion
    requires item.ChildItem?
  {
    Criterion(if item.order.Some? then item.order.value else c.order,
              if item.column.Some? then c.cells.Set(item.column.value, item.value) else c.cells)
  }

  /** One row.  A revision of an out-of-scope Requirement must carry no criterion. */
  function ApplyOne(r: Requirement, item: Item): Result<Requirement, Error> {
    match item
    case FieldItem(f, v) => Ok(r.(fields := r.fields.Set(f, v)))
    case ChildItem(k, intent, _, _, _) =>
      if intent != Add && k !in r.criteria then Err(NotFound)
      else if intent == Remove then Ok(r.(criteria := r.criteria - {k}))
      else
        var base := if k in r.criteria then r.criteria[k] else Blank(|r.criteria|);
        if r.outOfScope then Err(OutOfScopeNotVerifiable)
        else Ok(r.(criteria := r.criteria[k := Written(base, item)]))
  }

  function ApplyAll(r: Requirement, items: seq<Item>): Result<Requirement, Error> {
    if items == [] then Ok(r)
    else
      var before := ApplyAll(r, items[..|items| - 1]);
      if before.Err? then before else ApplyOne(before.value, items[|items| - 1])
  }

  // ---- The simultaneous update ---------------------------------------------

  predicate Names(rows: set<Item>, k: Key, intent: Intent) {
    exists x | x in rows :: x.ChildItem? && x.key == k && x.intent == intent
  }

  /** Two rows write one place, or disagree on what happens to one criterion. */
  predicate Clash(a: Item, b: Item) {
    match (a, b)
    case (FieldItem(f, _), FieldItem(g, _)) => f == g
    case (ChildItem(k, i, c, _, _), ChildItem(l, j, d, _, _)) => k == l && (i != j || i == Remove || c == d)
    case _ => false
  }

  predicate Once(items: seq<Item>) {
    forall x | x in items :: multiset(items)[x] == 1
  }

  ghost predicate Compatible(items: seq<Item>) {
    && Once(items)
    && forall x, y | x in items && y in items && x != y :: !Clash(x, y)
  }

  /** Every row finds what it needs in the Requirement as it was. */
  predicate Applicable(r: Requirement, item: Item) {
    item.ChildItem? ==> if item.intent == Add then !r.outOfScope else item.key in r.criteria
  }

  /** What a cell was before the batch; a new criterion starts blank. */
  function CellBefore(r: Requirement, k: Key, c: Column): string {
    if k in r.criteria then r.criteria[k].cells.Get(c) else Blank(0).cells.Get(c)
  }

  predicate WritesField(item: Item, f: Field) {
    item.FieldItem? && item.field == f
  }

  predicate WritesCell(item: Item, k: Key, c: Column) {
    item.ChildItem? && item.key == k && item.intent != Remove && item.column == Some(c)
  }

  /** All rows at once, read off the old Requirement. */
  ghost predicate IsSimultaneous(r: Requirement, rows: set<Item>, after: Requirement) {
    && after.outOfScope == r.outOfScope
    && (forall k :: k in after.criteria <==> (k in r.criteria && !Names(rows, k, Remove)) || Names(rows, k, Add))
    && (forall f :: FieldAfter(r, rows, after, f))
    && (forall k, c | k in after.criteria :: CellAfter(r, rows, after, k, c))
  }

  ghost predicate FieldAfter(r: Requirement, rows: set<Item>, after: Requirement, f: Field) {
    && (forall x | x in rows && WritesField(x, f) :: after.fields.Get(f) == x.value)
    && ((forall x | x in rows :: !WritesField(x, f)) ==> after.fields.Get(f) == r.fields.Get(f))
  }

  ghost predicate CellAfter(r: Requirement, rows: set<Item>, after: Requirement, k: Key, c: Column)
    requires k in after.criteria
  {
    && (forall x | x in rows && WritesCell(x, k, c) :: after.criteria[k].cells.Get(c) == x.value)
    && ((forall x | x in rows :: !WritesCell(x, k, c)) ==> after.criteria[k].cells.Get(c) == CellBefore(r, k, c))
  }

  /** Equal but for the order numbers of criteria. */
  ghost predicate SameContent(a: Requirement, b: Requirement) {
    && a.outOfScope == b.outOfScope && a.fields == b.fields && a.criteria.Keys == b.criteria.Keys
    && forall k | k in a.criteria && k in b.criteria :: a.criteria[k].cells == b.criteria[k].cells
  }

  /** No row of `done` clashes with `x`, and each finds what it needs. */
  ghost predicate Startable(r: Requirement, done: set<Item>, x: Item) {
    && (forall y | y in done :: !Clash(y, x) && Applicable(r, y))
    && (forall y, z | y in done && z in done && y != z :: !Clash(y, z))
    && Allowed(x) && Applicable(r, x)
  }

  lemma NoSiblingRemoves(done: set<Item>, x: Item)
    requires x.ChildItem? && forall y | y in done :: !Clash(y, x)
    ensures !Names(done, x.key, Remove)
    ensures x.intent != Add ==> !Names(done, x.key, Add)
  {
  }

  lemma StepIsAccepted(r: Requirement, done: set<Item>, x: Item, mid: Requirement)
    requires Sound(r) && Sound(mid) && Startable(r, done, x) && IsSimultaneous(r, done, mid)
    ensures ApplyOne(mid, x).Ok? && Sound(ApplyOne(mid, x).value)
  {
    if x.ChildItem? {
      NoSiblingRemoves(done, x);
      assert x.intent != Add ==> x.key in mid.criteria;
    }
  }

  lemma StepKeys(r: Requirement, done: set<Item>, x: Item, mid: Requirement, k: Key)
    requires forall y | y in done :: !Clash(y, x)
    requires IsSimultaneous(r, done, mid) && ApplyOne(mid, x).Ok?
    ensures k in ApplyOne(mid, x).value.criteria
        <==> (k in r.criteria && !Names(done + {x}, k, Remove)) || Names(done + {x}, k, Add)
  {
    if x.ChildItem? {
      NoSiblingRemoves(done, x);
      assert x in done + {x};
    }
    NamesGrow(done, x, k, Add);
    NamesGrow(done, x, k, Remove);
  }

  lemma NamesGrow(done: set<Item>, x: Item, k: Key, intent: Intent)
    ensures Names(done + {x}, k, intent) <==> Names(done, k, intent) || (x.ChildItem? && x.key == k && x.intent == intent)
  {
    if Names(done, k, intent) {
      var y :| y in done && y.ChildItem? && y.key == k && y.intent == intent;
      assert y in done + {x};
    }
    assert x in done + {x};
  }

  lemma StepField(r: Requirement, done: set<Item>, x: Item, mid: Requirement, f: Field)
    requires forall y | y in done :: !Clash(y, x)
    requires FieldAfter(r, done, mid, f) && ApplyOne(mid, x).Ok?
    ensures FieldAfter(r, done + {x}, ApplyOne(mid, x).value, f)
  {
    var after := ApplyOne(mid, x).value;
    assert after.fields.Get(f) == if WritesField(x, f) then x.value else mid.fields.Get(f);
    assert x in done + {x};
    assert forall y | y in done :: y in done + {x};
  }

  /** A criterion that is not there yet has had none of its cells written. */
  lemma AbsentIsUnwritten(r: Requirement, done: set<Item>, mid: Requirement, k: Key, c: Column)
    requires forall y | y in done :: Applicable(r, y)
    requires forall y, z | y in done && z in done && y != z :: !Clash(y, z)
    requires IsSimultaneous(r, done, mid) && k !in mid.criteria
    ensures forall y | y in done :: !WritesCell(y, k, c)
  {
    forall y | y in done ensures !WritesCell(y, k, c) {
      assert Applicable(r, y);
      if WritesCell(y, k, c) && y.intent == Update {
        forall z | z in done && z.ChildItem? && z.key == k ensures z.intent != Remove {
          assert y != z ==> !Clash(y, z);
        }
      }
    }
  }

  lemma StepCell(r: Requirement, done: set<Item>, x: Item, mid: Requirement, k: Key, c: Column)
    requires forall y | y in done :: !Clash(y, x)
    requires if k in mid.criteria then CellAfter(r, done, mid, k, c)
             else k !in r.criteria && forall y | y in done :: !WritesCell(y, k, c)
    requires ApplyOne(mid, x).Ok? && k in ApplyOne(mid, x).value.criteria
    ensures CellAfter(r, done + {x}, ApplyOne(mid, x).value, k, c)
  {
    var after := ApplyOne(mid, x).value;
    assert after.criteria[k].cells.Get(c)
        == if WritesCell(x, k, c) then x.value
           else if k in mid.criteria then mid.criteria[k].cells.Get(c) else Blank(0).cells.Get(c);
    assert x in done + {x};
    assert forall y | y in done :: y in done + {x};
  }

  /** The next row is accepted, and the rows applied so far, grown by it, are again
      the simultaneous update. */
  lemma StepIsSimultaneous(r: Requirement, done: set<Item>, x: Item, mid: Requirement)
    requires Sound(r) && Sound(mid) && Startable(r, done, x) && IsSimultaneous(r, done, mid)
    ensures ApplyOne(mid, x).Ok? && Sound(ApplyOne(mid, x).value)
    ensures IsSimultaneous(r, done + {x}, ApplyOne(mid, x).value)
  {
    StepIsAccepted(r, done, x, mid);
    var after := ApplyOne(mid, x).value;
    var grown := done + {x};
    forall k ensures k in after.criteria <==> (k in r.criteria && !Names(grown, k, Remove)) || Names(grown, k, Add) {
      StepKeys(r, done, x, mid, k);
    }
    forall f ensures FieldAfter(r, grown, after, f) {
      StepField(r, done, x, mid, f);
    }
    forall k, c | k in after.criteria ensures CellAfter(r, grown, after, k, c) {
      if k !in mid.criteria {
        assert x.ChildItem? && x.key == k;
        NoSiblingRemoves(done, x);
        AbsentIsUnwritten(r, done, mid, k, c);
      }
      StepCell(r, done, x, mid, k, c);
    }
  }

  function Rows(items: seq<Item>): set<Item> {
    set x | x in items
  }

  /** A batch every row of which is allowed and applicable, and no two of which clash,
      goes through, and is the simultaneous update. */
  lemma {:induction false} BatchIsSimultaneous(r: Requirement, items: seq<Item>)
    requires Sound(r) && Compatible(items)
    requires forall x | x in items :: Allowed(x) && Applicable(r, x)
    ensures ApplyAll(r, items).Ok? && Sound(ApplyAll(r, items).value)
    ensures IsSimultaneous(r, Rows(items), ApplyAll(r, items).value)
  {
    if items != [] {
      var n := |items| - 1;
      assert items == items[..n] + [items[n]];
      assert multiset(items) == multiset(items[..n]) + multiset{items[n]};
      forall x | x in items[..n] ensures multiset(items[..n])[x] == 1 && x != items[n] {
        assert multiset(items)[x] == 1 && multiset(items)[items[n]] == 1;
      }
      BatchIsSimultaneous(r, items[..n]);
      assert Rows(items) == Rows(items[..n]) + {items[n]};
      assert Startable(r, Rows(items[..n]), items[n]);
      StepIsSimultaneous(r, Rows(items[..n]), items[n], ApplyAll(r, items[..n]).value);
    }
  }

  // ---- Every order gives the same ------------------------------------------

  lemma SimultaneousFields(r: Requirement, rows: set<Item>, a: Requirement, b: Requirement)
    requires IsSimultaneous(r, rows, a) && IsSimultaneous(r, rows, b)
    ensures a.fields == b.fields
  {
    forall f: Field ensures a.fields.Get(f) == b.fields.Get(f) {
      assert FieldAfter(r, rows, a, f) && FieldAfter(r, rows, b, f);
    }
    assert a.fields.Get(Statement) == b.fields.Get(Statement) && a.fields.Get(Rationale) == b.fields.Get(Rationale);
    assert a.fields.Get(ConstraintText) == b.fields.Get(ConstraintText);
    assert a.fields.Get(OutOfScopeNote) == b.fields.Get(OutOfScopeNote);
  }

  lemma SimultaneousIsUnique(r: Requirement, rows: set<Item>, a: Requirement, b: Requirement)
    requires IsSimultaneous(r, rows, a) && IsSimultaneous(r, rows, b)
    ensures SameContent(a, b)
  {
    SimultaneousFields(r, rows, a, b);
    forall k | k in a.criteria && k in b.criteria ensures a.criteria[k].cells == b.criteria[k].cells {
      forall c: Column ensures a.criteria[k].cells.Get(c) == b.criteria[k].cells.Get(c) {
        assert CellAfter(r, rows, a, k, c) && CellAfter(r, rows, b, k, c);
      }
      assert a.criteria[k].cells.Get(Text) == b.criteria[k].cells.Get(Text);
      assert a.criteria[k].cells.Get(Method) == b.criteria[k].cells.Get(Method);
      assert a.criteria[k].cells.Get(Note) == b.criteria[k].cells.Get(Note);
    }
  }

  /** Any two orders of one batch both go through and leave the same content. */
  lemma OrderDoesNotMatter(r: Requirement, items: seq<Item>, other: seq<Item>)
    requires Sound(r) && Compatible(items) && multiset(items) == multiset(other)
    requires forall x | x in items :: Allowed(x) && Applicable(r, x)
    ensures ApplyAll(r, items).Ok? && ApplyAll(r, other).Ok?
    ensures SameContent(ApplyAll(r, items).value, ApplyAll(r, other).value)
  {
    forall x ensures x in items <==> x in other {
      assert x in items <==> x in multiset(items);
      assert x in other <==> x in multiset(other);
    }
    BatchIsSimultaneous(r, items);
    BatchIsSimultaneous(r, other);
    assert Rows(items) == Rows(other);
    SimultaneousIsUnique(r, Rows(items), ApplyAll(r, items).value, ApplyAll(r, other).value);
  }

  // ---- Exactly which batches go through in every order ----------------------

  predicate SameAddress(a: Item, b: Item) {
    match (a, b)
    case (FieldItem(f, _), FieldItem(g, _)) => f == g
    case (ChildItem(k, i, c, _, _), ChildItem(l, j, d, _, _)) => k == l && i == j && c == d
    case _ => false
  }

  /** The addresses are pairwise distinct, and a reserved key is named by add rows only. */
  ghost predicate Addressed(items: seq<Item>) {
    && Once(items)
    && (forall x, y | x in items && y in items && x != y :: !SameAddress(x, y))
    && forall x, y | x in items && y in items && x.ChildItem? && y.ChildItem? && x.key == y.key ::
         x.intent == Add <==> y.intent == Add
  }

  /** No key is both updated and removed, and none is removed twice. */
  ghost predicate RemovedAlone(items: seq<Item>) {
    forall x, y | x in items && y in items && x.ChildItem? && y.ChildItem? && x.key == y.key && x.intent == Remove :: x == y
  }

  ghost predicate GoesThrough(r: Requirement, items: seq<Item>) {
    ApplyAll(r, items).Ok?
  }

  lemma {:induction false} ApplySplit(r: Requirement, first: seq<Item>, rest: seq<Item>)
    ensures ApplyAll(r, first + rest)
         == if ApplyAll(r, first).Err? then ApplyAll(r, first) else ApplyAll(ApplyAll(r, first).value, rest)
  {
    if rest == [] {
      assert first + rest == first;
    } else {
      var n := |rest| - 1;
      ApplySplit(r, first, rest[..n]);
      assert (first + rest)[..|first| + n] == first + rest[..n];
    }
  }

  lemma OneRow(r: Requirement, x: Item)
    ensures ApplyAll(r, [x]) == ApplyOne(r, x)
  {
    var items := [x];
    assert items[..|items| - 1] == [];
    assert ApplyAll(r, []) == Ok(r);
  }

  lemma ToTheFront(items: seq<Item>, x: Item) returns (rest: seq<Item>)
    requires x in items
    ensures multiset([x] + rest) == multiset(items)
  {
    var i :| 0 <= i < |items| && items[i] == x;
    rest := items[..i] + items[i + 1..];
    assert items == items[..i] + [items[i]] + items[i + 1..];
  }

  lemma FirstRowFails(r: Requirement, items: seq<Item>, x: Item) returns (p: seq<Item>)
    requires Sound(r) && x in items && !Applicable(r, x)
    ensures multiset(p) == multiset(items) && !GoesThrough(r, p)
  {
    var rest := ToTheFront(items, x);
    p := [x] + rest;
    ApplySplit(r, [x], rest);
    OneRow(r, x);
  }

  lemma RemovedThenNamed(r: Requirement, items: seq<Item>, x: Item, y: Item) returns (p: seq<Item>)
    requires Addressed(items) && x in items && y in items && x != y
    requires x.ChildItem? && y.ChildItem? && x.key == y.key && x.intent == Remove
    ensures multiset(p) == multiset(items) && !GoesThrough(r, p)
  {
    var rest := ToTheFront(items, x);
    assert y in rest by {
      assert y in multiset(items) && y in multiset([x] + rest);
      assert multiset([x] + rest) == multiset{x} + multiset(rest);
    }
    var tail := ToTheFront(rest, y);
    p := [x, y] + tail;
    assert [x, y] + tail == [x] + ([y] + tail);
    assert multiset(p) == multiset{x} + multiset([y] + tail) == multiset{x} + multiset(rest);
    assert multiset([x] + rest) == multiset{x} + multiset(rest);
    ApplySplit(r, [x, y], tail);
    assert [x, y][..1] == [x];
    OneRow(r, x);
  }

  /** For allowed rows with distinct addresses and reserved keys apart: the batch goes
      through in every order if and only if every row finds what it needs at the start
      and no removed criterion is named by another row. */
  lemma EveryOrderGoesThrough(r: Requirement, items: seq<Item>)
    requires Sound(r) && Addressed(items) && forall x | x in items :: Allowed(x)
    ensures (forall p | multiset(p) == multiset(items) :: GoesThrough(r, p))
       <==> RemovedAlone(items) && forall x | x in items :: Applicable(r, x)
  {
    if RemovedAlone(items) && forall x | x in items :: Applicable(r, x) {
      forall p | multiset(p) == multiset(items) ensures GoesThrough(r, p) {
        OrderDoesNotMatter(r, items, p);
      }
    } else if !RemovedAlone(items) {
      var x, y :| x in items && y in items && x.ChildItem? && y.ChildItem? && x.key == y.key && x.intent == Remove && x != y;
      var p := RemovedThenNamed(r, items, x, y);
    } else {
      var x :| x in items && !Applicable(r, x);
      var p := FirstRowFails(r, items, x);
    }
  }

  // ---- Exactly which orders go through --------------------------------------

  /** Whether a criterion is there once `items` are applied: the last row that adds or
      removes its key decides. */
  predicate Present(r: Requirement, items: seq<Item>, k: Key) {
    if items == [] then k in r.criteria
    else
      var x := items[|items| - 1];
      if x.ChildItem? && x.key == k && x.intent == Add then true
      else if x.ChildItem? && x.key == k && x.intent == Remove then false
      else Present(r, items[..|items| - 1], k)
  }

  lemma {:induction false} AppliedKeys(r: Requirement, items: seq<Item>)
    requires Sound(r) && ApplyAll(r, items).Ok?
    ensures var after := ApplyAll(r, items).value;
            && after.outOfScope == r.outOfScope && (after.outOfScope ==> after.criteria == map[])
            && forall k :: k in after.criteria <==> Present(r, items, k)
  {
    if items != [] {
      AppliedKeys(r, items[..|items| - 1]);
    }
  }

  /** Row `i` finds what it needs once the rows before it are applied. */
  predicate Fits(r: Requirement, items: seq<Item>, i: nat)
    requires i < |items|
  {
    items[i].ChildItem? ==> if items[i].intent == Add then !r.outOfScope else Present(r, items[..i], items[i].key)
  }

  /** One given order goes through if and only if every row fits where it stands. */
  lemma {:induction false} GoesThroughExactly(r: Requirement, items: seq<Item>)
    requires Sound(r)
    ensures GoesThrough(r, items) <==> forall i | 0 <= i < |items| :: Fits(r, items, i)
  {
    if items != [] {
      var n := |items| - 1;
      var before := items[..n];
      GoesThroughExactly(r, before);
      forall i | 0 <= i < n ensures Fits(r, items, i) == Fits(r, before, i) {
        assert before[..i] == items[..i];
      }
      if GoesThrough(r, before) { LastFits(r, items); }
    }
  }

  lemma LastFits(r: Requirement, items: seq<Item>)
    requires Sound(r) && items != [] && GoesThrough(r, items[..|items| - 1])
    ensures GoesThrough(r, items) <==> Fits(r, items, |items| - 1)
  {
    AppliedKeys(r, items[..|items| - 1]);
  }

  /** A reserved key is named by add rows only. */
  ghost predicate ReservedApart(items: seq<Item>) {
    forall x, y | x in items && y in items && x.ChildItem? && y.ChildItem? && x.key == y.key ::
      x.intent == Add <==> y.intent == Add
  }

  predicate Removes(x: Item, k: Key) {
    x.ChildItem? && x.key == k && x.intent == Remove
  }

  /** Every row finds what it needs in the Requirement as it was, and no row that updates
      or removes a criterion comes after a removal of it. */
  predicate NothingAfterRemoval(r: Requirement, items: seq<Item>) {
    forall i | 0 <= i < |items| ::
      && Applicable(r, items[i])
      && (items[i].ChildItem? && items[i].intent != Add ==> forall j | 0 <= j < i :: !Removes(items[j], items[i].key))
  }

  lemma {:induction false} PresentWithoutAdds(r: Requirement, items: seq<Item>, k: Key)
    requires forall x | x in items && x.ChildItem? && x.key == k :: x.intent != Add
    ensures Present(r, items, k) <==> k in r.criteria && forall j | 0 <= j < |items| :: !Removes(items[j], k)
  {
    if items != [] {
      var n := |items| - 1;
      assert items[n] in items;
      PresentWithoutAdds(r, items[..n], k);
      assert forall j | 0 <= j < n :: items[..n][j] == items[j];
    }
  }

  /** With reserved keys apart, a given order goes through if and only if that holds of it:
      all of it can be read off the rows and the Requirement before the call. */
  lemma ThisOrderGoesThrough(r: Requirement, items: seq<Item>)
    requires Sound(r) && ReservedApart(items)
    ensures GoesThrough(r, items) <==> NothingAfterRemoval(r, items)
  {
    GoesThroughExactly(r, items);
    forall i | 0 <= i < |items| && items[i].ChildItem? && items[i].intent != Add
      ensures Present(r, items[..i], items[i].key)
         <==> items[i].key in r.criteria && forall j | 0 <= j < i :: !Removes(items[j], items[i].key)
    {
      assert items[i] in items;
      forall x | x in items[..i] && x.ChildItem? && x.key == items[i].key ensures x.intent != Add {
        assert x in items;
      }
      PresentWithoutAdds(r, items[..i], items[i].key);
      assert forall j | 0 <= j < i :: items[..i][j] == items[j];
    }
    assert forall i | 0 <= i < |items| ::
        Fits(r, items, i) <==> (Applicable(r, items[i])
          && (items[i].ChildItem? && items[i].intent != Add ==> forall j | 0 <= j < i :: !Removes(items[j], items[i].key)));
  }

  /** Rows with distinct addresses can still stop halfway, after the criterion is gone. */
  lemma HalfwayBatch(r: Requirement, k: Key, value: string)
    requires Sound(r) && k in r.criteria
    ensures var remove := ChildItem(k, Remove, None, "", None);
            var update := ChildItem(k, Update, Some(Text), value, None);
            && Addressed([remove, update]) && Allowed(remove) && Allowed(update)
            && Applicable(r, remove) && Applicable(r, update)
            && ApplyAll(r, [remove, update]) == Err(NotFound)
            && ApplyAll(r, [remove]).Ok? && ApplyAll(r, [remove]).value != r
            && ApplyAll(r, [update, remove]).Ok?
  {
    var remove := ChildItem(k, Remove, None, "", None);
    var update := ChildItem(k, Update, Some(Text), value, None);
    OneRow(r, remove);
    OneRow(r, update);
    assert [remove, update][..1] == [remove] && [update, remove][..1] == [update];
    assert k !in ApplyOne(r, remove).value.criteria;
  }

  // ---- Reserved keys -------------------------------------------------------

  datatype Change = Change(intent: Intent, key: Key, temp: string, column: Option<Column>, value: string, order: Option<int>)

  /** The item is the change with a key of its own. */
  predicate Keyed(c: Change, x: Item) {
    x.ChildItem? && x == ChildItem(x.key, c.intent, c.column, c.value, c.order)
  }

  /** Gives every change its key: a changed criterion keeps its own, and each temporary
      name gets one fresh token, shared by all rows that use it. */
  method ReserveKeys(changes: seq<Change>, tokens: seq<Key>) returns (items: seq<Item>)
    requires |tokens| >= |changes|
    requires forall i, j | 0 <= i < j < |tokens| :: tokens[i] != tokens[j]
    ensures |items| == |changes|
    ensures forall i | 0 <= i < |changes| ::
              && Keyed(changes[i], items[i])
              && if changes[i].intent == Add then items[i].key in tokens else items[i].key == changes[i].key
    ensures forall i, j | 0 <= i < j < |changes| && changes[i].intent == Add && changes[j].intent == Add ::
              items[i].ChildItem? && items[j].ChildItem? && (items[i].key == items[j].key <==> changes[i].temp == changes[j].temp)
  {
    items := [];
    var reserved: map<string, Key> := map[];
    var used := 0;
    for n := 0 to |changes|
      invariant |items| == n && used <= n
      invariant forall i | 0 <= i < n ::
                  && Keyed(changes[i], items[i])
                  && if changes[i].intent == Add then changes[i].temp in reserved && items[i].key == reserved[changes[i].temp]
                     else items[i].key == changes[i].key
      invariant forall t | t in reserved :: reserved[t] in tokens[..used]
      invariant forall t, u | t in reserved && u in reserved && t != u :: reserved[t] != reserved[u]
    {
      var c := changes[n];
      var key := c.key;
      if c.intent == Add {
        if c.temp !in reserved {
          assert tokens[..used + 1] == tokens[..used] + [tokens[used]];
          reserved := reserved[c.temp := tokens[used]];
          used := used + 1;
        }
        key := reserved[c.temp];
      }
      items := items + [ChildItem(key, c.intent, c.column, c.value, c.order)];
    }
  }

  /** Two rows that share a reserved key write into one new criterion; the batch adds
      one criterion per key, and takes away exactly the removed ones. */
  lemma AddedRowsShareOneCriterion(r: Requirement, items: seq<Item>, x: Item, y: Item)
    requires Sound(r) && Compatible(items)
    requires forall z | z in items :: Allowed(z) && Applicable(r, z)
    requires x in items && y in items && x.ChildItem? && y.ChildItem? && x.key == y.key
    requires x.intent == Add && y.intent == Add && x.column.Some? && y.column.Some? && x.key !in r.criteria
    ensures ApplyAll(r, items).Ok?
    ensures var after := ApplyAll(r, items).value;
            && after.criteria.Keys == r.criteria.Keys - Touched(items, Remove) + Touched(items, Add)
            && x.key in after.criteria
            && after.criteria[x.key].cells.Get(x.column.value) == x.value
            && after.criteria[x.key].cells.Get(y.column.value) == y.value
  {
    BatchIsSimultaneous(r, items);
    var after := ApplyAll(r, items).value;
    assert x in Rows(items) && y in Rows(items);
    assert Names(Rows(items), x.key, Add);
    assert CellAfter(r, Rows(items), after, x.key, x.column.value);
    assert CellAfter(r, Rows(items), after, x.key, y.column.value);
    forall k ensures k in after.criteria.Keys <==> k in r.criteria.Keys - Touched(items, Remove) + Touched(items, Add) {
      assert k in Touched(items, Remove) <==> Names(Rows(items), k, Remove);
      assert k in Touched(items, Add) <==> Names(Rows(items), k, Add);
    }
  }

  /** The keys named with an intent. */
  function Touched(items: seq<Item>, intent: Intent): set<Key> {
    set x | x in items && x.ChildItem? && x.intent == intent :: x.key
  }
}
