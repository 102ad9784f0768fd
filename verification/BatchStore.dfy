/** The Requirement and the proposal's rows as the database holds them
    (assistant_discussion_proposal.py, ux_design.py). */
module BatchStore {
  import opened Wrappers
  import opened BatchApply

  datatype Entry = Entry(key: Key, criterion: Criterion)

  /** `list` holds each criterion of the table once. */
  ghost predicate Represents(list: seq<Entry>, table: map<Key, Criterion>) {
    && (forall i, j | 0 <= i < j < |list| :: list[i].key != list[j].key)
    && (forall e | e in list :: e.key in table && table[e.key] == e.criterion)
    && (forall k | k in table :: Entry(k, table[k]) in list)
  }

  lemma WithoutLast(list: seq<Entry>, table: map<Key, Criterion>)
    requires Represents(list, table) && list != []
    ensures var last := list[|list| - 1];
            last.key in table && Represents(list[..|list| - 1], table - {last.key})
  {
    var init, last := list[..|list| - 1], list[|list| - 1];
    assert list == init + [last];
    assert last in list;
    forall e | e in init ensures e in list && e.key != last.key {}
  }

  lemma RepresentsSameSize(list: seq<Entry>, table: map<Key, Criterion>)
    requires Represents(list, table)
    ensures |list| == |table|
  {
    if list == [] {
      assert table.Keys == {};
    } else {
      var last := list[|list| - 1];
      WithoutLast(list, table);
      RepresentsSameSize(list[..|list| - 1], table - {last.key});
      assert table.Keys == (table - {last.key}).Keys + {last.key};
    }
  }

  predicate Before(a: Entry, b: Entry) {
    a.criterion.order < b.criterion.order || (a.criterion.order == b.criterion.order && a.key < b.key)
  }

  ghost predicate Ordered(list: seq<Entry>) {
    forall i, j | 0 <= i < j < |list| :: Before(list[i], list[j])
  }

  /** What a revision may hold. */
  ghost predicate Storable(outOfScope: bool, list: seq<Entry>) {
    && (outOfScope ==> list == [])
    && (forall i, j | 0 <= i < j < |list| :: list[i].key != list[j].key)
    && (forall e | e in list :: e.criterion.cells.method_ in VERIFICATION_METHODS)
  }

  /** A verification method that is written is one of the five there are. */
  predicate Wellformed(item: Item) {
    item.FieldItem? || item.intent == Remove || item.column != Some(Method)
    || item.value in {"manual_review", "replay", "experiment", "runtime_observation", "not_verifiable"}
  }

  /** The criterion a row that does not remove it leaves: what the row names is written,
      the rest is as it was; a new one is numbered last, to be reviewed by hand. */
  ghost function CriterionAfter(table: map<Key, Criterion>, x: Item): Criterion
    requires x.ChildItem?
  {
    var was := if x.key in table then table[x.key] else Criterion(|table|, Cells("", "manual_review", ""));
    Criterion(if x.order.Some? then x.order.value else was.order,
              Cells(if x.column == Some(Text) then x.value else was.cells.text,
                    if x.column == Some(Method) then x.value else was.cells.method_,
                    if x.column == Some(Note) then x.value else was.cells.note))
  }

  /** A row on a criterion fails exactly when it changes one that is not there or adds
      one to an out-of-scope Requirement; else it touches that criterion alone. */
  lemma ChildRowExactly(r: Requirement, x: Item)
    requires x.ChildItem? && Sound(r)
    ensures ApplyOne(r, x) == Err(NotFound) <==> x.intent != Add && x.key !in r.criteria
    ensures ApplyOne(r, x) == Err(OutOfScopeNotVerifiable) <==> x.intent == Add && r.outOfScope
    ensures match ApplyOne(r, x)
            case Ok(r') =>
              r' == r.(criteria := if x.intent == Remove then r.criteria - {x.key}
                                   else r.criteria[x.key := CriterionAfter(r.criteria, x)])
            case Err(e) => e == NotFound || e == OutOfScopeNotVerifiable
  {
  }

  datatype Status = Proposed | Applied | Rejected
  datatype Row = Row(item: Item, registered: bool, status: Status)

  datatype Eligibility = Forbidden | Stale | Conflict | Appliable

  datatype Outcome = Done | NoSuchRow(id: nat) | ApplyRejected(id: nat, why: Eligibility) | Failed(n: nat, error: Error)

  function ItemsOf(rows: map<nat, Row>, ids: seq<nat>): (items: seq<Item>)
    requires forall id | id in ids :: id in rows
    ensures |items| == |ids| && forall i | 0 <= i < |ids| :: items[i] == rows[ids[i]].item
  {
    seq(|ids|, i requires 0 <= i < |ids| => rows[ids[i]].item)
  }

  lemma Inserted(list: seq<Entry>, i: nat, e: Entry)
    requires i <= |list| && Ordered(list) && forall x | x in list :: x.key != e.key
    requires (forall j | 0 <= j < i :: Before(list[j], e)) && (i < |list| ==> !Before(list[i], e))
    ensures Ordered(list[..i] + [e] + list[i..])
    ensures forall x :: x in list[..i] + [e] + list[i..] <==> x == e || x in list
  {
    assert list == list[..i] + list[i..];
    forall j | i <= j < |list| ensures Before(e, list[j]) {
      assert list[i] in list;
      assert j > i ==> Before(list[i], list[j]);
      BeforeInOrder(e, list[i], list[j], i == j);
    }
  }

  /** Keys apart, the order is total and goes through. */
  lemma BeforeInOrder(e: Entry, a: Entry, b: Entry, same: bool)
    requires !Before(a, e) && a.key != e.key && if same then a == b else Before(a, b)
    ensures Before(e, b)
  {
  }

  class DiscussionProposal {
    const capturedDigest: string
    const dependencyStale: bool
    const outOfScope: bool
    var fields: Fields
    var criteria: map<Key, Criterion>
    var rows: map<nat, Row>

    constructor (captured: string, stale: bool, r: Requirement, rows: map<nat, Row>)
      ensures Current() == r && this.rows == rows
      ensures capturedDigest == captured && dependencyStale == stale
    {
      capturedDigest, dependencyStale := captured, stale;
      outOfScope, fields, criteria := r.outOfScope, r.fields, r.criteria;
      this.rows := rows;
    }

    function Current(): Requirement
      reads this
    {
      Requirement(outOfScope, fields, criteria)
    }

    /** The current revision's criteria, by order number and then key. */
    method ReadCriteria() returns (list: seq<Entry>)
      ensures Represents(list, criteria) && Ordered(list)
    {
      list := [];
      var todo := criteria;
      while todo.Keys != {}
        invariant forall k | k in todo :: k in criteria && todo[k] == criteria[k]
        invariant Ordered(list)
        invariant forall e | e in list :: e.key in criteria && e.key !in todo && criteria[e.key] == e.criterion
        invariant forall k | k in criteria && k !in todo :: Entry(k, criteria[k]) in list
        decreases |todo|
      {
        var k :| k in todo.Keys;
        list := InsertEntry(list, Entry(k, todo[k]));
        todo := todo - {k};
      }
    }

    static method InsertEntry(list: seq<Entry>, e: Entry) returns (longer: seq<Entry>)
      requires Ordered(list) && forall x | x in list :: x.key != e.key
      ensures Ordered(longer) && forall x :: x in longer <==> x == e || x in list
    {
      var i := 0;
      while i < |list| && Before(list[i], e)
        invariant i <= |list|
        invariant forall j | 0 <= j < i :: Before(list[j], e)
      {
        i := i + 1;
      }
      longer := list[..i] + [e] + list[i..];
      Inserted(list, i, e);
    }

    static method IndexOf(list: seq<Entry>, key: Key) returns (at: nat)
      ensures at <= |list| && (at < |list| ==> list[at].key == key)
      ensures at == |list| ==> forall e | e in list :: e.key != key
    {
      at := 0;
      while at < |list| && list[at].key != key
        invariant at <= |list| && forall i | 0 <= i < at :: list[i].key != key
      {
        at := at + 1;
      }
    }

    /** Writes a whole new revision, or nothing. */
    method AddRevision(newFields: Fields, list: seq<Entry>) returns (error: Option<Error>)
      modifies this`fields, this`criteria
      ensures error.Some? ==> Current() == old(Current())
      ensures error.None? <==> Storable(outOfScope, list)
      ensures error.None? ==> fields == newFields && Represents(list, criteria)
      ensures outOfScope && list != [] ==> error == Some(OutOfScopeNotVerifiable)
    {
      if outOfScope && list != [] {
        return Some(OutOfScopeNotVerifiable);
      }
      var seen: map<Key, Criterion> := map[];
      for i := 0 to |list|
        invariant Represents(list[..i], seen)
        invariant forall e | e in list[..i] :: e.criterion.cells.method_ in VERIFICATION_METHODS
      {
        assert list[..i + 1] == list[..i] + [list[i]];
        if list[i].key in seen {
          assert Entry(list[i].key, seen[list[i].key]) in list[..i];
          return Some(KeyDuplicated);
        }
        if list[i].criterion.cells.method_ !in VERIFICATION_METHODS {
          return Some(InvalidMember);
        }
        seen := seen[list[i].key := list[i].criterion];
      }
      assert list[..|list|] == list;
      fields, criteria := newFields, seen;
      error := None;
    }

    method ApplyField(f: Field, value: string) returns (error: Option<Error>)
      requires Sound(Current())
      modifies this`fields, this`criteria
      ensures error == None && Current() == ApplyOne(old(Current()), FieldItem(f, value)).value
      ensures criteria == old(criteria)
      ensures fields == match f
                        case Statement => old(fields).(statement := value)
                        case Rationale => old(fields).(rationale := value)
                        case ConstraintText => old(fields).(constraintText := value)
                        case OutOfScopeNote => old(fields).(outOfScopeNote := value)
    {
      var list := ReadCriteria();
      assert Storable(outOfScope, list) by { TableIsStorable(Current(), list); }
      error := AddRevision(fields.Set(f, value), list);
      SameTable(list, criteria, old(criteria));
    }

    /** Edits the list read from the current revision and writes it back whole. */
    method ApplyChild(x: Item) returns (error: Option<Error>)
      requires Sound(Current()) && Allowed(x) && x.ChildItem?
      modifies this`fields, this`criteria
      ensures match ApplyOne(old(Current()), x)
              case Ok(r) => error == None && Current() == r
              case Err(e) => error == Some(e) && Current() == old(Current())
    {
      var list := ReadCriteria();
      ghost var before := list;
      RepresentsSameSize(list, criteria);
      var at := IndexOf(list, x.key);
      FoundInTable(list, criteria, x.key, at);
      if at == |list| && x.intent != Add {
        return Some(NotFound);
      }
      if x.intent == Remove {
        list := WithoutAt(list, at);
        RemovedFromList(before, criteria, at);
        ghost var wanted := criteria - {x.key};
        TableIsStorable(Current().(criteria := wanted), list);
        error := AddRevision(fields, list);
        SameTable(list, criteria, wanted);
      } else {
        ghost var wanted;
        if at < |list| {
          list := list[at := Entry(x.key, Written(list[at].criterion, x))];
          wanted := criteria[x.key := Written(criteria[x.key], x)];
          ReplacedInList(before, criteria, at, Written(criteria[x.key], x));
        } else {
          list := list + [Entry(x.key, Written(Blank(|list|), x))];
          wanted := criteria[x.key := Written(Blank(|criteria|), x)];
          AddedToList(before, criteria, x.key, Written(Blank(|criteria|), x));
        }
        assert wanted[x.key].cells.method_ in VERIFICATION_METHODS;
        if !outOfScope {
          TableIsStorable(Current().(criteria := wanted), list);
        }
        error := AddRevision(fields, list);
        if error.None? {
          SameTable(list, criteria, wanted);
        }
      }
    }

    /** The first match of the eligibility table. */
    function EligibilityOf(id: nat, resolvedDigest: string): (why: Eligibility)
      requires id in rows
      reads this`rows
    {
      if !rows[id].registered || !Allowed(rows[id].item) then Forbidden
      else if dependencyStale || capturedDigest != resolvedDigest then Stale
      else if rows[id].status != Proposed then Conflict
      else if exists other | other in rows :: other != id && rows[other].status == Applied
                                              && SameAddress(rows[other].item, rows[id].item) then Conflict
      else Appliable
    }

    /** Another row that writes the same field, or does the same to the same column of
        the same criterion, is applied already. */
    ghost predicate Superseded(id: nat)
      requires id in rows
      reads this`rows
    {
      exists other | other in rows && other != id && rows[other].status == Applied ::
        match (rows[other].item, rows[id].item)
        case (FieldItem(f, _), FieldItem(g, _)) => f == g
        case (ChildItem(k, i, c, _, _), ChildItem(l, j, d, _, _)) => k == l && i == j && c == d
        case _ => false
    }

    method ApplyRow(x: Item) returns (error: Option<Error>)
      requires Sound(Current()) && Allowed(x)
      modifies this`fields, this`criteria
      ensures match ApplyOne(old(Current()), x)
              case Ok(r) => error == None && Current() == r
              case Err(e) => error == Some(e) && Current() == old(Current())
    {
      if x.FieldItem? {
        error := ApplyField(x.field, x.value);
      } else {
        error := ApplyChild(x);
      }
    }

    /** Every selected row is looked up, then every one judged, before anything is
        written; the first that fails is named. */
    method CheckRows(ids: seq<nat>, resolvedDigest: string) returns (refusal: Option<Outcome>)
      ensures refusal.None? <==> forall id | id in ids :: id in rows && EligibilityOf(id, resolvedDigest) == Appliable
      ensures refusal.Some? ==> FirstRefused(ids, resolvedDigest, refusal.value)
      ensures refusal.None? <==> forall id | id in ids ::
                && id in rows && rows[id].registered && Wellformed(rows[id].item)
                && !dependencyStale && capturedDigest == resolvedDigest
                && rows[id].status == Proposed && !Superseded(id)
      ensures refusal.Some? && refusal.value.ApplyRejected? ==>
                var id, why := refusal.value.id, refusal.value.why;
                && id in rows
                && (why == Forbidden <==> !rows[id].registered || !Wellformed(rows[id].item))
                && (why == Eligibility.Stale <==>
                      && rows[id].registered && Wellformed(rows[id].item)
                      && (dependencyStale || capturedDigest != resolvedDigest))
                && (why == Conflict <==>
                      && rows[id].registered && Wellformed(rows[id].item)
                      && !dependencyStale && capturedDigest == resolvedDigest
                      && (rows[id].status != Proposed || Superseded(id)))
    {
      for i := 0 to |ids|
        invariant forall j | 0 <= j < i :: ids[j] in rows
      {
        if ids[i] !in rows {
          assert FirstRefusedAt(ids, resolvedDigest, NoSuchRow(ids[i]), i);
          return Some(NoSuchRow(ids[i]));
        }
      }
      for i := 0 to |ids|
        invariant forall j | 0 <= j < i :: EligibilityOf(ids[j], resolvedDigest) == Appliable
      {
        var why := EligibilityOf(ids[i], resolvedDigest);
        if why != Appliable {
          assert FirstRefusedAt(ids, resolvedDigest, ApplyRejected(ids[i], why), i);
          return Some(ApplyRejected(ids[i], why));
        }
      }
      refusal := None;
    }

    /** Row `i` is the first that is missing or, when none is, the first that may not be applied. */
    ghost predicate FirstRefusedAt(ids: seq<nat>, resolvedDigest: string, o: Outcome, i: nat)
      reads this`rows
    {
      && i < |ids|
      && match o
         case NoSuchRow(id) => id == ids[i] && id !in rows && forall j | 0 <= j < i :: ids[j] in rows
         case ApplyRejected(id, why) =>
           && id == ids[i] && (forall j | 0 <= j < |ids| :: ids[j] in rows)
           && why == EligibilityOf(id, resolvedDigest) != Appliable
           && forall j | 0 <= j < i :: EligibilityOf(ids[j], resolvedDigest) == Appliable
         case _ => false
    }

    ghost predicate FirstRefused(ids: seq<nat>, resolvedDigest: string, o: Outcome)
      reads this`rows
    {
      exists i :: FirstRefusedAt(ids, resolvedDigest, o, i)
    }

    /** Applies the rows in turn.  Each write stands by itself: a row that fails leaves
        the ones before it applied. */
    method ApplyChecked(ids: seq<nat>) returns (outcome: Outcome)
      requires Sound(Current()) && forall id | id in ids :: id in rows && Allowed(rows[id].item)
      modifies this`fields, this`criteria, this`rows
      ensures outcome.Done? || (outcome.Failed? && outcome.n < |ids|)
      ensures Sound(Current())
      ensures var n := if outcome.Done? then |ids| else outcome.n;
              && ApplyAll(old(Current()), ItemsOf(old(rows), ids)[..n]) == Ok(Current())
              && rows == Marked(old(rows), ids[..n])
      ensures outcome.Failed? ==> ApplyOne(Current(), old(rows)[ids[outcome.n]].item) == Err(outcome.error)
    {
      ghost var items := ItemsOf(rows, ids);
      MarkedGrows(rows, ids, 0);
      for n := 0 to |ids|
        invariant Sound(Current()) && rows == Marked(old(rows), ids[..n])
        invariant ApplyAll(old(Current()), items[..n]) == Ok(Current())
      {
        var x := rows[ids[n]].item;
        ghost var mid := Current();
        assert x == items[n] && Allowed(x);
        var error := ApplyRow(x);
        if error.Some? {
          return Failed(n, error.value);
        }
        ApplyOneIsSound(mid, x);
        OneMoreRow(old(Current()), items, n);
        MarkedGrows(old(rows), ids, n);
        rows := rows[ids[n] := rows[ids[n]].(status := Applied)];
      }
      outcome := Done;
    }

    method ApplyItems(ids: seq<nat>, resolvedDigest: string) returns (outcome: Outcome)
      requires Sound(Current())
      modifies this`fields, this`criteria, this`rows
      ensures Sound(Current())
      ensures outcome.Done? || outcome.Failed?
         <==> forall id | id in ids :: id in old(rows) && old(EligibilityOf(id, resolvedDigest)) == Appliable
      ensures outcome.NoSuchRow? || outcome.ApplyRejected? ==>
                Current() == old(Current()) && rows == old(rows) && FirstRefused(ids, resolvedDigest, outcome)
      ensures outcome.Done? ==>
                && ApplyAll(old(Current()), ItemsOf(old(rows), ids)) == Ok(Current())
                && rows == Marked(old(rows), ids)
      ensures outcome.Failed? ==>
                && outcome.n < |ids|
                && ApplyAll(old(Current()), ItemsOf(old(rows), ids)[..outcome.n]) == Ok(Current())
                && rows == Marked(old(rows), ids[..outcome.n])
                && ApplyOne(Current(), old(rows)[ids[outcome.n]].item) == Err(outcome.error)
      ensures (forall id | id in ids :: id in old(rows)) && ReservedApart(ItemsOf(old(rows), ids)) ==>
                (outcome.Done? <==>
                   && (forall id | id in ids :: old(EligibilityOf(id, resolvedDigest)) == Appliable)
                   && NothingAfterRemoval(old(Current()), ItemsOf(old(rows), ids)))
    {
      var refusal := CheckRows(ids, resolvedDigest);
      if refusal.Some? {
        return refusal.value;
      }
      assert forall id | id in ids :: EligibilityOf(id, resolvedDigest) == Appliable;
      ghost var items := ItemsOf(rows, ids);
      outcome := ApplyChecked(ids);
      assert ids[..|ids|] == ids && items[..|ids|] == items;
      if ReservedApart(items) {
        if outcome.Failed? {
          FailureStays(old(Current()), items, outcome.n);
        }
        ThisOrderGoesThrough(old(Current()), items);
      }
    }
  }

  /** The selected rows are marked applied, the others as they were. */
  function Marked(rows: map<nat, Row>, ids: seq<nat>): map<nat, Row> {
    map id | id in rows :: if id in ids then rows[id].(status := Applied) else rows[id]
  }

  lemma MarkedGrows(rows: map<nat, Row>, ids: seq<nat>, n: nat)
    requires n <= |ids| && forall id | id in ids :: id in rows
    ensures Marked(rows, ids[..0]) == rows
    ensures n < |ids| ==> ids[n] in Marked(rows, ids[..n])
    ensures n < |ids| ==>
              Marked(rows, ids[..n + 1]) == Marked(rows, ids[..n])[ids[n] := Marked(rows, ids[..n])[ids[n]].(status := Applied)]
  {
    if n < |ids| {
      assert ids[..n + 1] == ids[..n] + [ids[n]];
    }
  }

  lemma OneMoreRow(r: Requirement, items: seq<Item>, n: nat)
    requires n < |items| && ApplyAll(r, items[..n]).Ok?
    ensures ApplyAll(r, items[..n + 1]) == ApplyOne(ApplyAll(r, items[..n]).value, items[n])
  {
    assert items[..n + 1][..n] == items[..n];
  }

  /** A row that fails after the rows before it went through fails the whole order. */
  lemma FailureStays(r: Requirement, items: seq<Item>, n: nat)
    requires n < |items| && ApplyAll(r, items[..n]).Ok? && ApplyOne(ApplyAll(r, items[..n]).value, items[n]).Err?
    ensures !GoesThrough(r, items)
  {
    OneMoreRow(r, items, n);
    ApplySplit(r, items[..n + 1], items[n + 1..]);
    assert items == items[..n + 1] + items[n + 1..];
  }

  lemma ApplyOneIsSound(r: Requirement, x: Item)
    requires Sound(r) && Allowed(x) && ApplyOne(r, x).Ok?
    ensures Sound(ApplyOne(r, x).value)
  {
  }

  lemma TableIsStorable(r: Requirement, list: seq<Entry>)
    requires Sound(r) && Represents(list, r.criteria)
    ensures Storable(r.outOfScope, list)
  {
    forall e | e in list ensures e.criterion.cells.method_ in VERIFICATION_METHODS {
      assert r.criteria[e.key] == e.criterion;
    }
    if list != [] {
      assert list[0] in list;
    }
  }

  lemma FoundInTable(list: seq<Entry>, table: map<Key, Criterion>, k: Key, at: nat)
    requires Represents(list, table) && at <= |list|
    requires at < |list| ==> list[at].key == k
    requires at == |list| ==> forall e | e in list :: e.key != k
    ensures at < |list| <==> k in table
    ensures at < |list| ==> table[k] == list[at].criterion
  {
    assert k in table ==> Entry(k, table[k]) in list;
    if at < |list| {
      assert list[at] in list;
    }
  }

  function WithoutAt(list: seq<Entry>, at: nat): seq<Entry>
    requires at < |list|
  {
    list[..at] + list[at + 1..]
  }

  lemma RemovedFromList(list: seq<Entry>, table: map<Key, Criterion>, at: nat)
    requires Represents(list, table) && at < |list|
    ensures Represents(WithoutAt(list, at), table - {list[at].key})
  {
    var front, back, shorter := list[..at], list[at + 1..], WithoutAt(list, at);
    assert list == front + [list[at]] + back;
    forall i | 0 <= i < |shorter| ensures shorter[i] == list[if i < at then i else i + 1] {}
    assert forall e :: e in shorter <==> e in list && e.key != list[at].key;
  }

  lemma ReplacedInList(list: seq<Entry>, table: map<Key, Criterion>, at: nat, c: Criterion)
    requires Represents(list, table) && at < |list|
    ensures Represents(list[at := Entry(list[at].key, c)], table[list[at].key := c])
  {
    var k := list[at].key;
    var changed := list[at := Entry(k, c)];
    assert changed[at] in changed;
    forall e | e in changed ensures e.key in table[k := c] && table[k := c][e.key] == e.criterion {
      var i :| 0 <= i < |changed| && changed[i] == e;
      assert i != at ==> list[i] in list;
    }
    forall other | other in table && other != k ensures Entry(other, table[other]) in changed {
      var i :| 0 <= i < |list| && list[i] == Entry(other, table[other]);
      assert changed[i] == list[i];
    }
  }

  lemma AddedToList(list: seq<Entry>, table: map<Key, Criterion>, k: Key, c: Criterion)
    requires Represents(list, table) && k !in table
    ensures Represents(list + [Entry(k, c)], table[k := c])
  {
    forall i | 0 <= i < |list| ensures list[i].key != k {
      assert list[i] in list;
    }
  }

  lemma SameTable(list: seq<Entry>, a: map<Key, Criterion>, b: map<Key, Criterion>)
    requires Represents(list, a) && Represents(list, b)
    ensures a == b
  {
    assert forall k | k in a :: Entry(k, a[k]) in list;
    assert forall k | k in b :: Entry(k, b[k]) in list;
  }
}
