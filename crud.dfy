/** The access layer: six operations on the `expenses` table. Queries are
    functions over the table's rows; the mutating operations are methods of
    `ExpenseTable`, each one transaction that either commits or rolls back
    and leaves the table as it was. */
module Crud {
  import opened Schemas

  datatype Option<T> = None | Some(value: T)

  /** What an access-layer call yields: its value, or the error the store
      raised. A failure up to the commit is rolled back; a failure when the
      committed row is read back (`refresh`) comes after the commit, so the
      rollback has nothing left to undo. */
  datatype Outcome<T> = Done(value: T) | StoreError(message: string)

  /** The error a commit raises when it would write NULL into a NOT NULL column. */
  const NotNullViolation: string := "NOT NULL constraint failed"

  predicate HasId(rows: seq<Expense>, id: int) {
    exists i :: 0 <= i < |rows| && rows[i].id == id
  }

  /** A scan of the table meets the rows in ascending id order. */
  predicate IdsAscending(rows: seq<Expense>) {
    forall i, j :: 0 <= i < j < |rows| ==> rows[i].id < rows[j].id
  }

  /** What the store keeps true of the table: ids ascend in scan order (so
      they are unique) and every assigned id is positive. */
  predicate TableInvariant(rows: seq<Expense>) {
    IdsAscending(rows) && forall i :: 0 <= i < |rows| ==> rows[i].id >= 1
  }

  /** The base constraints hold of every stored row. */
  predicate AllRowsValid(rows: seq<Expense>) {
    forall i :: 0 <= i < |rows| ==> ValidRow(rows[i])
  }

  // ---------------------------------------------------------------------
  // Queries
  // ---------------------------------------------------------------------

  /** The id the store gives the next inserted row: one more than the largest
      id present, or 1 when the table is empty. */
  function NewRowId(rows: seq<Expense>): (id: int)
    ensures forall i :: 0 <= i < |rows| ==> rows[i].id < id
    ensures rows == [] ==> id == 1
    ensures rows != [] ==> exists i :: 0 <= i < |rows| && rows[i].id == id - 1
    decreases |rows|
  {
    if |rows| == 0 then 1
    else if |rows| == 1 then rows[0].id + 1
    else
      var rest := NewRowId(rows[1..]);
      assert exists i :: 1 <= i < |rows| && rows[i].id == rest - 1;
      if rows[0].id + 1 > rest then rows[0].id + 1 else rest
  }

  /** Position of the first row with the given id, or -1 when there is none. */
  function IndexOfId(rows: seq<Expense>, id: int): (k: int)
    ensures -1 <= k < |rows|
    ensures k == -1 <==> !HasId(rows, id)
    ensures 0 <= k ==> rows[k].id == id && forall j :: 0 <= j < k ==> rows[j].id != id
    decreases |rows|
  {
    if |rows| == 0 then -1
    else if rows[0].id == id then 0
    else
      var k := IndexOfId(rows[1..], id);
      if k == -1 then
        assert forall j :: 1 <= j < |rows| ==> rows[j].id == rows[1..][j - 1].id;
        -1
      else k + 1
  }

  /** get_expense_by_id: the first row whose id matches, or nothing. */
  function GetById(rows: seq<Expense>, id: int): (r: Option<Expense>)
    ensures r.Some? <==> HasId(rows, id)
    ensures r.Some? ==> r.value.id == id && r.value in rows
  {
    var k := IndexOfId(rows, id);
    if k < 0 then None else Some(rows[k])
  }

  function Min(a: int, b: int): int {
    if a <= b then a else b
  }

  /** get_expenses: the rows a scan with OFFSET skip LIMIT limit returns. */
  function Page(rows: seq<Expense>, skip: nat, limit: nat): (page: seq<Expense>)
    ensures |page| <= limit
    ensures |page| == if skip >= |rows| then 0 else Min(limit, |rows| - skip)
    ensures forall i :: 0 <= i < |page| ==> page[i] == rows[skip + i]
  {
    if skip >= |rows| then [] else rows[skip..skip + Min(limit, |rows| - skip)]
  }

  /** get_expenses_by_category: the rows whose category equals `category`
      exactly, in scan order. */
  function ByCategory(rows: seq<Expense>, category: string): (r: seq<Expense>)
    ensures forall e :: e in r <==> e in rows && e.category == category
    ensures |r| <= |rows|
    decreases |rows|
  {
    if rows == [] then []
    else
      assert forall e :: e in rows <==> e == rows[0] || e in rows[1..];
      (if rows[0].category == category then [rows[0]] else []) + ByCategory(rows[1..], category)
  }

  // ---------------------------------------------------------------------
  // What a commit writes
  // ---------------------------------------------------------------------

  /** The row an insert of `c` stores: the three fields as given, under an
      id no row of the table has. */
  function NewRow(rows: seq<Expense>, c: ExpenseCreate): (e: Expense)
    ensures !HasId(rows, e.id)
    ensures e.amount == c.amount && e.category == c.category && e.description == c.description
  {
    Expense(NewRowId(rows), c.amount, c.category, c.description)
  }

  function Pick<T>(f: Field<T>, stored: T): T {
    if f.Value? then f.value else stored
  }

  /** The partial update of a stored row. A field sent with a value replaces
      the stored one, a field left out keeps it, and a field sent as null
      leaves a NULL that the NOT NULL column refuses, so no row results. */
  function Merge(e: Expense, u: ExpenseUpdate): (r: Option<Expense>)
    ensures r.None? <==> u.amount.Null? || u.category.Null? || u.description.Null?
    ensures r.Some? ==> r.value.id == e.id
    ensures r.Some? && u.amount.Unset? ==> r.value.amount == e.amount
    ensures r.Some? && u.category.Unset? ==> r.value.category == e.category
    ensures r.Some? && u.description.Unset? ==> r.value.description == e.description
    ensures u.amount.Value? && r.Some? ==> r.value.amount == u.amount.value
    ensures u.category.Value? && r.Some? ==> r.value.category == u.category.value
    ensures u.description.Value? && r.Some? ==> r.value.description == u.description.value
  {
    if u.amount.Null? || u.category.Null? || u.description.Null? then None
    else Some(Expense(e.id, Pick(u.amount, e.amount), Pick(u.category, e.category),
                      Pick(u.description, e.description)))
  }

  /** The table without the row of id `id` (unchanged when there is none). */
  function Removed(rows: seq<Expense>, id: int): (r: seq<Expense>)
    ensures !HasId(rows, id) ==> r == rows
    ensures HasId(rows, id) ==> |r| == |rows| - 1
  {
    var k := IndexOfId(rows, id);
    if k < 0 then rows else rows[..k] + rows[k + 1..]
  }

  /** A mutating access-layer operation. */
  datatype Mutation = Create(input: ExpenseCreate) | Update(id: int, patch: ExpenseUpdate) | Delete(id: int)

  /** The table once `m` has committed: the state the table methods leave
      on success, and the step of `Replay`. An update of a missing id and a
      delete of a missing id change nothing; an update that would store a
      NULL cannot commit, so it changes nothing either. */
  function Committed(rows: seq<Expense>, m: Mutation): (r: seq<Expense>)
    ensures m.Create? ==> |r| == |rows| + 1 && r[..|rows|] == rows && r[|rows|] == NewRow(rows, m.input)
    ensures m.Update? ==> |r| == |rows|
    ensures m.Update? && !HasId(rows, m.id) ==> r == rows
    ensures m.Delete? ==> |r| == (if HasId(rows, m.id) then |rows| - 1 else |rows|)
  {
    match m
    case Create(c) => rows + [NewRow(rows, c)]
    case Update(id, u) =>
      var k := IndexOfId(rows, id);
      if k < 0 then rows
      else (match Merge(rows[k], u)
            case None => rows
            case Some(e) => rows[k := e])
    case Delete(id) => Removed(rows, id)
  }

  /** The request body of `m` passed its schema before the access layer was called. */
  predicate Validated(m: Mutation) {
    match m
    case Create(c) => ValidCreate(c)
    case Update(_, u) => ValidUpdate(u)
    case Delete(_) => true
  }

  /** One attempted mutation: either it commits (possibly reporting a store
      error afterwards, when the row is read back) or the store fails before
      the commit and the transaction rolls back. */
  datatype Attempt = Attempt(m: Mutation, commits: bool)

  /** The table after a history of attempts. A history in which nothing
      commits leaves the table as it was. */
  function Replay(rows: seq<Expense>, attempts: seq<Attempt>): (r: seq<Expense>)
    ensures (forall i :: 0 <= i < |attempts| ==> !attempts[i].commits) ==> r == rows
    decreases |attempts|
  {
    if attempts == [] then rows
    else
      var next := if attempts[0].commits then Committed(rows, attempts[0].m) else rows;
      Replay(next, attempts[1..])
  }

  /** The attempts of a history that committed, in order. */
  function CommittedAttempts(attempts: seq<Attempt>): (c: seq<Attempt>)
    ensures |c| <= |attempts|
    ensures forall i :: 0 <= i < |c| ==> c[i].commits
    ensures forall a :: a in c <==> a in attempts && a.commits
    decreases |attempts|
  {
    if attempts == [] then []
    else (if attempts[0].commits then [attempts[0]] else []) + CommittedAttempts(attempts[1..])
  }

  /** A rolled-back attempt leaves no trace: replaying a history gives the
      table of replaying only its committed attempts. */
  lemma {:induction false} RollbacksLeaveNoTrace(rows: seq<Expense>, attempts: seq<Attempt>)
    ensures Replay(rows, attempts) == Replay(rows, CommittedAttempts(attempts))
    decreases |attempts|
  {
    if attempts != [] {
      var rest := CommittedAttempts(attempts[1..]);
      if attempts[0].commits {
        var next := Committed(rows, attempts[0].m);
        RollbacksLeaveNoTrace(next, attempts[1..]);
        var c := [attempts[0]] + rest;
        assert CommittedAttempts(attempts) == c;
        assert c != [] && c[0] == attempts[0] && c[1..] == rest;
        assert Replay(rows, c) == Replay(next, rest);
      } else {
        RollbacksLeaveNoTrace(rows, attempts[1..]);
        assert CommittedAttempts(attempts) == rest;
      }
    }
  }

  // ---------------------------------------------------------------------
  // The ORM edit loop of update_expense
  // ---------------------------------------------------------------------

  /** The mapped object while it is being edited: until the commit a column
      may hold NULL. */
  datatype PendingRow = PendingRow(id: int, amount: Option<real>, category: Option<string>, description: Option<string>)

  /** One entry of the dictionary of fields the client set: the column and
      the value to write into it (None for an explicit null). */
  datatype Assignment =
    | SetAmount(amount: Option<real>)
    | SetCategory(category: Option<string>)
    | SetDescription(description: Option<string>)

  function ValueOf<T>(f: Field<T>): Option<T> {
    if f.Value? then Some(f.value) else None
  }

  /** The fields of `u` that were set, null included, in declaration order:
      each set field once, with its value (None for null), and nothing else. */
  function UpdateData(u: ExpenseUpdate): (data: seq<Assignment>)
    ensures |data| == (if u.amount.Unset? then 0 else 1) + (if u.category.Unset? then 0 else 1)
                      + (if u.description.Unset? then 0 else 1)
    ensures forall a :: a in data <==>
              (!u.amount.Unset? && a == SetAmount(ValueOf(u.amount))) ||
              (!u.category.Unset? && a == SetCategory(ValueOf(u.category))) ||
              (!u.description.Unset? && a == SetDescription(ValueOf(u.description)))
    ensures u.amount.Unset? && u.category.Unset? && u.description.Unset? <==> data == []
  {
    (if u.amount.Unset? then [] else [SetAmount(ValueOf(u.amount))]) +
    (if u.category.Unset? then [] else [SetCategory(ValueOf(u.category))]) +
    (if u.description.Unset? then [] else [SetDescription(ValueOf(u.description))])
  }

  function Loaded(e: Expense): PendingRow {
    PendingRow(e.id, Some(e.amount), Some(e.category), Some(e.description))
  }

  function SetAttr(p: PendingRow, a: Assignment): PendingRow {
    match a
    case SetAmount(v) => p.(amount := v)
    case SetCategory(v) => p.(category := v)
    case SetDescription(v) => p.(description := v)
  }

  /** The object after the first |data| assignments, applied in order. */
  function ApplyAll(p: PendingRow, data: seq<Assignment>): PendingRow
    decreases |data|
  {
    if data == [] then p else SetAttr(ApplyAll(p, data[..|data| - 1]), data[|data| - 1])
  }

  /** The row a commit writes, or nothing when a column holds NULL. */
  function Flush(p: PendingRow): Option<Expense> {
    if p.amount.Some? && p.category.Some? && p.description.Some?
    then Some(Expense(p.id, p.amount.value, p.category.value, p.description.value))
    else None
  }

  lemma {:induction false} ApplyAllAppend(p: PendingRow, a: seq<Assignment>, b: seq<Assignment>)
    ensures ApplyAll(p, a + b) == ApplyAll(ApplyAll(p, a), b)
    decreases |b|
  {
    if b == [] {
      assert a + b == a;
    } else {
      assert (a + b)[..|a + b| - 1] == a + b[..|b| - 1];
      ApplyAllAppend(p, a, b[..|b| - 1]);
    }
  }

  lemma ApplyOne(p: PendingRow, data: seq<Assignment>)
    requires |data| <= 1
    ensures data == [] ==> ApplyAll(p, data) == p
    ensures |data| == 1 ==> ApplyAll(p, data) == SetAttr(p, data[0])
  {
  }

  /** Setting the fields of the update one by one on the loaded row and
      committing stores exactly the merged row. */
  lemma SetAttrLoopMerges(e: Expense, u: ExpenseUpdate)
    ensures Flush(ApplyAll(Loaded(e), UpdateData(u))) == Merge(e, u)
  {
    var a := if u.amount.Unset? then [] else [SetAmount(ValueOf(u.amount))];
    var c := if u.category.Unset? then [] else [SetCategory(ValueOf(u.category))];
    var d := if u.description.Unset? then [] else [SetDescription(ValueOf(u.description))];
    assert UpdateData(u) == a + c + d;
    var p0 := Loaded(e);
    ApplyAllAppend(p0, a + c, d);
    ApplyAllAppend(p0, a, c);
    ApplyOne(p0, a);
    var p1 := ApplyAll(p0, a);
    ApplyOne(p1, c);
    var p2 := ApplyAll(p1, c);
    ApplyOne(p2, d);
  }

  // ---------------------------------------------------------------------
  // Properties of the queries and of the commits
  // ---------------------------------------------------------------------

  /** Under unique ids the lookup finds the one row carrying the id. */
  lemma GetByIdFindsRow(rows: seq<Expense>, i: int)
    requires IdsAscending(rows) && 0 <= i < |rows|
    ensures GetById(rows, rows[i].id) == Some(rows[i])
  {
  }

  /** Two consecutive pages of the scan are the one page that spans both. */
  lemma PagesAdjacent(rows: seq<Expense>, skip: nat, a: nat, b: nat)
    ensures Page(rows, skip, a) + Page(rows, skip + a, b) == Page(rows, skip, a + b)
  {
  }

  /** Walking the table in pages of `size` rows, starting at `skip`. */
  function PagesFrom(rows: seq<Expense>, skip: nat, size: nat): seq<Expense>
    requires size > 0
    decreases |rows| - skip
  {
    if skip >= |rows| then [] else Page(rows, skip, size) + PagesFrom(rows, skip + size, size)
  }

  /** The pages list(0, n), list(n, n), list(2n, n), ... are disjoint,
      consecutive, and together give every row once, in scan order. */
  lemma {:induction false} PagesCoverTable(rows: seq<Expense>, skip: nat, size: nat)
    requires size > 0 && skip <= |rows|
    ensures PagesFrom(rows, skip, size) == rows[skip..]
    decreases |rows| - skip
  {
    if skip < |rows| {
      var page := Page(rows, skip, size);
      assert PagesFrom(rows, skip, size) == page + PagesFrom(rows, skip + size, size);
      if skip + size <= |rows| {
        PagesCoverTable(rows, skip + size, size);
        assert page == rows[skip..skip + size];
        assert rows[skip..] == rows[skip..skip + size] + rows[skip + size..];
      } else {
        assert PagesFrom(rows, skip + size, size) == [];
        assert page == rows[skip..];
      }
    }
  }

  /** Filtering a table split in two is filtering each part: the filter
      keeps the scan order. */
  lemma {:induction false} ByCategoryAppend(a: seq<Expense>, b: seq<Expense>, category: string)
    ensures ByCategory(a + b, category) == ByCategory(a, category) + ByCategory(b, category)
    decreases |a|
  {
    if a == [] {
      assert a + b == b;
    } else {
      assert (a + b)[1..] == a[1..] + b;
      ByCategoryAppend(a[1..], b, category);
    }
  }

  /** After a create, the category listing of the new row's category gains
      that row at the end; every other listing is unchanged. */
  lemma CreateExtendsCategoryListing(rows: seq<Expense>, c: ExpenseCreate, category: string)
    ensures ByCategory(Committed(rows, Create(c)), category) ==
            ByCategory(rows, category) + (if c.category == category then [NewRow(rows, c)] else [])
  {
    var e := NewRow(rows, c);
    ByCategoryAppend(rows, [e], category);
    assert [e][1..] == [];
  }

  /** Round trip: looking up the id a create assigned gives the created row. */
  lemma CreateThenGet(rows: seq<Expense>, c: ExpenseCreate)
    ensures GetById(Committed(rows, Create(c)), NewRow(rows, c).id) == Some(NewRow(rows, c))
  {
    var e := NewRow(rows, c);
    var t := rows + [e];
    assert t[|rows|] == e;
  }

  /** Dropping position k: the rows before it stay, the rows after it move
      down by one. */
  lemma DropAtShape(rows: seq<Expense>, k: int)
    requires 0 <= k < |rows|
    ensures |rows[..k] + rows[k + 1..]| == |rows| - 1
    ensures forall i :: 0 <= i < |rows| - 1 ==>
              (rows[..k] + rows[k + 1..])[i] == (if i < k then rows[i] else rows[i + 1])
  {
  }

  lemma DropAtAscending(rows: seq<Expense>, k: int)
    requires 0 <= k < |rows| && IdsAscending(rows)
    ensures IdsAscending(rows[..k] + rows[k + 1..])
  {
    var d := rows[..k] + rows[k + 1..];
    DropAtShape(rows, k);
    forall i, j | 0 <= i < j < |d| ensures d[i].id < d[j].id {
      var i' := if i < k then i else i + 1;
      var j' := if j < k then j else j + 1;
      assert d[i] == rows[i'] && d[j] == rows[j'];
    }
  }

  lemma DropAtMembers(rows: seq<Expense>, k: int)
    requires 0 <= k < |rows| && IdsAscending(rows)
    ensures forall e :: e in rows[..k] + rows[k + 1..] <==> e in rows && e.id != rows[k].id
  {
    var d := rows[..k] + rows[k + 1..];
    DropAtShape(rows, k);
    forall e ensures e in d <==> e in rows && e.id != rows[k].id {
      if e in d {
        var i :| 0 <= i < |d| && d[i] == e;
        var i' := if i < k then i else i + 1;
        assert e == rows[i'] && i' != k;
      }
      if e in rows && e.id != rows[k].id {
        var i :| 0 <= i < |rows| && rows[i] == e;
        assert d[if i < k then i else i - 1] == e;
      }
    }
  }

  /** Removing a row by id keeps every other row, in order, and the id is
      gone afterwards, so a repeated delete finds nothing. */
  lemma RemovedExactly(rows: seq<Expense>, id: int)
    requires IdsAscending(rows)
    ensures IdsAscending(Removed(rows, id))
    ensures forall e :: e in Removed(rows, id) <==> e in rows && e.id != id
    ensures !HasId(Removed(rows, id), id)
  {
    var k := IndexOfId(rows, id);
    var r := Removed(rows, id);
    if k >= 0 {
      assert r == rows[..k] + rows[k + 1..];
      DropAtAscending(rows, k);
      DropAtMembers(rows, k);
    }
  }

  lemma CreateKeepsInvariant(rows: seq<Expense>, c: ExpenseCreate)
    requires TableInvariant(rows)
    ensures TableInvariant(Committed(rows, Create(c)))
  {
  }

  lemma DeleteKeepsInvariant(rows: seq<Expense>, id: int)
    requires TableInvariant(rows)
    ensures TableInvariant(Committed(rows, Delete(id)))
  {
    var k := IndexOfId(rows, id);
    if k >= 0 {
      DropAtShape(rows, k);
      DropAtAscending(rows, k);
    }
  }

  /** Every commit keeps the table's invariant. */
  lemma CommittedKeepsInvariant(rows: seq<Expense>, m: Mutation)
    requires TableInvariant(rows)
    ensures TableInvariant(Committed(rows, m))
  {
    match m
    case Create(c) => CreateKeepsInvariant(rows, c);
    case Update(id, u) =>
    case Delete(id) => DeleteKeepsInvariant(rows, id);
  }

  /** An update changes only the row it targets, and in that row only the
      fields it sets; the row keeps its id and its place. */
  lemma UpdateTouchesOnlyItsRow(rows: seq<Expense>, id: int, u: ExpenseUpdate)
    requires IdsAscending(rows)
    ensures |Committed(rows, Update(id, u))| == |rows|
    ensures forall i :: 0 <= i < |rows| && rows[i].id != id ==>
              Committed(rows, Update(id, u))[i] == rows[i]
    ensures forall i :: 0 <= i < |rows| && rows[i].id == id ==>
              Committed(rows, Update(id, u))[i] == (match Merge(rows[i], u)
                                                    case None => rows[i]
                                                    case Some(e) => e)
  {
  }

  /** A validated create or update commits only rows that meet the base
      constraints; a delete cannot break them. */
  lemma CommittedKeepsRowsValid(rows: seq<Expense>, m: Mutation)
    requires AllRowsValid(rows) && Validated(m)
    ensures AllRowsValid(Committed(rows, m))
  {
  }

  /** Table-wide invariant: when every create and update body passed its
      schema, every stored row meets the base constraints, whatever commits
      and whatever rolls back. */
  lemma {:induction false} ValidatedHistoryKeepsRowsValid(rows: seq<Expense>, attempts: seq<Attempt>)
    requires AllRowsValid(rows)
    requires forall i :: 0 <= i < |attempts| ==> Validated(attempts[i].m)
    ensures AllRowsValid(Replay(rows, attempts))
    decreases |attempts|
  {
    if attempts != [] {
      var next := if attempts[0].commits then Committed(rows, attempts[0].m) else rows;
      if attempts[0].commits {
        CommittedKeepsRowsValid(rows, attempts[0].m);
      }
      assert forall i :: 0 <= i < |attempts[1..]| ==> attempts[1..][i] == attempts[i + 1];
      ValidatedHistoryKeepsRowsValid(next, attempts[1..]);
    }
  }

  /** Repeating an update is the same as applying it once. */
  lemma UpdateIdempotent(rows: seq<Expense>, id: int, u: ExpenseUpdate)
    ensures Committed(Committed(rows, Update(id, u)), Update(id, u)) == Committed(rows, Update(id, u))
  {
  }

  // ---------------------------------------------------------------------
  // The table
  // ---------------------------------------------------------------------

  /** The `expenses` table as one session sees it: its rows in scan order. */
  class ExpenseTable {
    var rows: seq<Expense>

    ghost predicate Valid()
      reads this
    {
      TableInvariant(rows)
    }

    /** A freshly created, empty table. */
    constructor ()
      ensures Valid() && rows == []
    {
      rows := [];
    }

    /** create_expense: inserts the three fields under a fresh id, commits,
        and reads the row back. `failure` is an error of the insert or the
        commit: the insert is rolled back and the error re-raised.
        `refreshFailure` is an error of the read-back after a successful
        commit: it is re-raised too, but the row stays stored. */
    method CreateExpense(c: ExpenseCreate, failure: Option<string>, refreshFailure: Option<string>)
      returns (r: Outcome<Expense>)
      requires Valid()
      modifies this
      ensures Valid()
      ensures failure.Some? ==> r == StoreError(failure.value) && rows == old(rows)
      ensures failure.None? ==> rows == old(rows) + [NewRow(old(rows), c)] && rows == Committed(old(rows), Create(c))
      ensures failure.None? && refreshFailure.Some? ==> r == StoreError(refreshFailure.value)
      ensures failure.None? && refreshFailure.None? ==> r.Done? && !HasId(old(rows), r.value.id)
      ensures failure.None? && refreshFailure.None? ==>
                r.value.amount == c.amount && r.value.category == c.category && r.value.description == c.description
      ensures failure.None? && refreshFailure.None? ==> rows == old(rows) + [r.value]
    {
      if failure.Some? {
        return StoreError(failure.value);
      }
      var e := NewRow(rows, c);
      CommittedKeepsInvariant(rows, Create(c));
      rows := rows + [e];
      if refreshFailure.Some? {
        return StoreError(refreshFailure.value);
      }
      r := Done(e);
    }

    /** get_expenses: the `skip`/`limit` window of the scan. */
    method GetExpenses(skip: nat, limit: nat, failure: Option<string>) returns (r: Outcome<seq<Expense>>)
      ensures failure.Some? ==> r == StoreError(failure.value)
      ensures failure.None? ==> r.Done? && |r.value| <= limit
      ensures failure.None? ==> forall i :: 0 <= i < |r.value| ==> skip + i < |rows| && r.value[i] == rows[skip + i]
      ensures failure.None? && skip >= |rows| ==> r.value == []
      ensures failure.None? && skip + limit <= |rows| ==> |r.value| == limit
      ensures failure.None? ==> r.value == Page(rows, skip, limit)
    {
      if failure.Some? {
        return StoreError(failure.value);
      }
      r := Done(Page(rows, skip, limit));
    }

    /** get_expense_by_id: the row carrying `id`, or nothing. */
    method GetExpenseById(id: int, failure: Option<string>) returns (r: Outcome<Option<Expense>>)
      requires Valid()
      ensures failure.Some? ==> r == StoreError(failure.value)
      ensures failure.None? ==> r.Done? && (r.value.None? <==> !HasId(rows, id))
      ensures failure.None? ==> forall i :: 0 <= i < |rows| && rows[i].id == id ==> r.value == Some(rows[i])
    {
      if failure.Some? {
        return StoreError(failure.value);
      }
      r := Done(GetById(rows, id));
      forall i | 0 <= i < |rows| && rows[i].id == id ensures r.value == Some(rows[i]) {
        GetByIdFindsRow(rows, i);
      }
    }

    /** update_expense: loads the row, sets the fields the client sent one
        by one, commits, and reads the row back. `failure` is the first store
        error of the lookup or the commit: it is re-raised and nothing
        changes. A missing id returns nothing and changes nothing. A NULL in a
        NOT NULL column fails the commit, which rolls back. A failed read-back after the commit
        (`refreshFailure`) is re-raised with the update already stored. */
    method UpdateExpense(id: int, u: ExpenseUpdate, failure: Option<string>, refreshFailure: Option<string>)
      returns (r: Outcome<Option<Expense>>)
      requires Valid()
      modifies this
      ensures Valid()
      ensures failure.Some? ==> r == StoreError(failure.value) && rows == old(rows)
      ensures failure.None? && !HasId(old(rows), id) ==> r == Done(None) && rows == old(rows)
      ensures failure.None? && HasId(old(rows), id) && Merge(GetById(old(rows), id).value, u).None? ==>
                r == StoreError(NotNullViolation) && rows == old(rows)
      ensures HasId(old(rows), id) && Merge(GetById(old(rows), id).value, u).Some? && failure.None? ==>
                rows == Committed(old(rows), Update(id, u))
      ensures HasId(old(rows), id) && Merge(GetById(old(rows), id).value, u).Some? && failure.None? ==>
                r == (if refreshFailure.Some? then StoreError(refreshFailure.value)
                      else Done(Merge(GetById(old(rows), id).value, u)))
    {
      if failure.Some? {
        return StoreError(failure.value);
      }
      var k := IndexOfId(rows, id);
      if k < 0 {
        return Done(None);
      }
      var data := UpdateData(u);
      var pending := Loaded(rows[k]);
      var i := 0;
      while i < |data|
        invariant 0 <= i <= |data|
        invariant pending == ApplyAll(Loaded(rows[k]), data[..i])
      {
        assert data[..i + 1][..i] == data[..i];
        pending := SetAttr(pending, data[i]);
        i := i + 1;
      }
      assert data[..|data|] == data;
      SetAttrLoopMerges(rows[k], u);
      var merged := Flush(pending);
      if merged.None? {
        return StoreError(NotNullViolation);
      }
      CommittedKeepsInvariant(rows, Update(id, u));
      rows := rows[k := merged.value];
      if refreshFailure.Some? {
        return StoreError(refreshFailure.value);
      }
      r := Done(merged);
    }

    /** delete_expense: removes the row carrying `id` and answers true; a
        missing id answers false (the source's `None`) and changes nothing.
        `failure` is the first store error of the lookup or the commit: it is
        re-raised and nothing changes. */
    method DeleteExpense(id: int, failure: Option<string>) returns (r: Outcome<bool>)
      requires Valid()
      modifies this
      ensures Valid()
      ensures failure.Some? ==> r == StoreError(failure.value) && rows == old(rows)
      ensures failure.None? && !HasId(old(rows), id) ==> r == Done(false) && rows == old(rows)
      ensures HasId(old(rows), id) && failure.None? ==> r == Done(true) && rows == Committed(old(rows), Delete(id))
      ensures r.Done? ==> !HasId(rows, id)
    {
      if failure.Some? {
        return StoreError(failure.value);
      }
      var k := IndexOfId(rows, id);
      if k < 0 {
        return Done(false);
      }
      RemovedExactly(rows, id);
      CommittedKeepsInvariant(rows, Delete(id));
      rows := Removed(rows, id);
      r := Done(true);
    }

    /** get_expenses_by_category: every row of exactly that category. */
    method GetExpensesByCategory(category: string, failure: Option<string>) returns (r: Outcome<seq<Expense>>)
      ensures failure.Some? ==> r == StoreError(failure.value)
      ensures failure.None? ==> r.Done? && forall e :: e in r.value <==> e in rows && e.category == category
      ensures failure.None? ==> r.value == ByCategory(rows, category)
    {
      if failure.Some? {
        return StoreError(failure.value);
      }
      r := Done(ByCategory(rows, category));
    }
  }
}
