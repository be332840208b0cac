/** The HTTP layer: the six expense handlers. Each one checks its request
    against the schema (422 before any store access), calls the access layer,
    and turns the outcome into a status code and a body: 200/201/204 on
    success, 404 naming the id when there is no such expense, and 500 with a
    fixed text, never the store's own message, on a store error. */
module Routes {
  import opened Schemas
  import opened Crud

  const StatusOk := 200
  const StatusCreated := 201
  const StatusNoContent := 204
  const StatusNotFound := 404
  const StatusUnprocessable := 422
  const StatusServerError := 500

  const CreateFailed := "Failed to create expense"
  const ListFailed := "Failed to fetch expenses"
  const GetFailed := "Failed to fetch expense"
  const UpdateFailed := "Failed to update expense"
  const DeleteFailed := "Failed to delete expense"
  const CategoryFailed := "Failed to fetch expenses by category"

  datatype Body =
    | NoBody
    | Entity(expense: ExpenseResponse)
    | Entities(expenses: seq<ExpenseResponse>)
    | Detail(message: string)
    | Invalid(fields: seq<string>)

  datatype Response = Response(status: int, body: Body)

  // ---------------------------------------------------------------------
  // The id in a "not found" message, written as Python writes an int
  // ---------------------------------------------------------------------

  predicate IsDigit(ch: char) {
    '0' <= ch <= '9'
  }

  predicate AllDigits(s: string) {
    forall i :: 0 <= i < |s| ==> IsDigit(s[i])
  }

  function DigitChar(d: int): (ch: char)
    requires 0 <= d < 10
    ensures IsDigit(ch) && ch as int - '0' as int == d
  {
    ('0' as int + d) as char
  }

  /** Decimal digits of `n`, most significant first, no leading zero. */
  function NatToDecimal(n: nat): (s: string)
    ensures |s| >= 1 && AllDigits(s)
    ensures s[0] == '0' ==> n == 0
    decreases n
  {
    if n < 10 then [DigitChar(n)] else NatToDecimal(n / 10) + [DigitChar(n % 10)]
  }

  /** `str(n)`: a minus sign for negatives, then the digits. */
  function Decimal(n: int): (s: string)
    ensures |s| >= 1
    ensures n < 0 <==> s[0] == '-'
    ensures n > 0 ==> s[0] != '0'
    ensures n < 0 ==> |s| >= 2 && s[1] != '0'
    ensures AllDigits(if n < 0 then s[1..] else s)
    ensures n == 0 ==> s == "0"
  {
    if n < 0 then "-" + NatToDecimal(-n) else NatToDecimal(n)
  }

  function DigitsValue(s: string): nat
    requires AllDigits(s)
    decreases |s|
  {
    if s == [] then 0
    else DigitsValue(s[..|s| - 1]) * 10 + (s[|s| - 1] as int - '0' as int)
  }

  /** Reads back an integer written by Decimal. */
  function ParseDecimal(s: string): Option<int> {
    if |s| >= 2 && s[0] == '-' && AllDigits(s[1..]) then Some(-(DigitsValue(s[1..]) as int))
    else if |s| >= 1 && AllDigits(s) then Some(DigitsValue(s))
    else None
  }

  lemma {:induction false} NatToDecimalRoundTrip(n: nat)
    ensures DigitsValue(NatToDecimal(n)) == n
    decreases n
  {
    if n >= 10 {
      var s := NatToDecimal(n);
      NatToDecimalRoundTrip(n / 10);
      assert s[..|s| - 1] == NatToDecimal(n / 10);
    }
  }

  lemma DecimalRoundTrip(n: int)
    ensures ParseDecimal(Decimal(n)) == Some(n)
  {
    if n < 0 {
      NatToDecimalRoundTrip(-n);
      assert Decimal(n)[1..] == NatToDecimal(-n);
    } else {
      NatToDecimalRoundTrip(n);
    }
  }

  const NotFoundPrefix := "Expense with ID "
  const NotFoundSuffix := " not found"

  /** Reads the id back out of a "not found" message. */
  function IdOfNotFoundDetail(s: string): Option<int> {
    if |s| >= |NotFoundPrefix| + |NotFoundSuffix|
       && s[..|NotFoundPrefix|] == NotFoundPrefix
       && s[|s| - |NotFoundSuffix|..] == NotFoundSuffix
    then ParseDecimal(s[|NotFoundPrefix|..|s| - |NotFoundSuffix|])
    else None
  }

  /** The 404 message of the get, update and delete handlers; the id can be
      read back from it, so different ids give different messages. */
  function NotFoundDetail(id: int): (s: string)
    ensures IdOfNotFoundDetail(s) == Some(id)
  {
    var s := NotFoundPrefix + Decimal(id) + NotFoundSuffix;
    assert s[..|NotFoundPrefix|] == NotFoundPrefix;
    assert s[|s| - |NotFoundSuffix|..] == NotFoundSuffix;
    assert s[|NotFoundPrefix|..|s| - |NotFoundSuffix|] == Decimal(id);
    DecimalRoundTrip(id);
    s
  }

  lemma NotFoundDetailNamesId(a: int, b: int)
    requires NotFoundDetail(a) == NotFoundDetail(b)
    ensures a == b
  {
  }

  // ---------------------------------------------------------------------
  // Query parameters of the list handler
  // ---------------------------------------------------------------------

  const DefaultSkip: nat := 0
  const DefaultLimit: nat := 100
  const MaxLimit: nat := 1000

  datatype Window = Window(skip: nat, limit: nat)

  datatype Checked<T> = Accepted(value: T) | Rejected(fields: seq<string>)

  /** `skip` defaults to 0 and must be at least 0; `limit` defaults to 100
      and must lie in [1, 1000]. */
  function ListQuery(skip: Option<int>, limit: Option<int>): (r: Checked<Window>)
    ensures r.Accepted? <==> (skip.Some? ==> skip.value >= 0) && (limit.Some? ==> 1 <= limit.value <= MaxLimit)
    ensures r.Accepted? ==> r.value.skip == (if skip.Some? then skip.value else DefaultSkip)
    ensures r.Accepted? ==> r.value.limit == (if limit.Some? then limit.value else DefaultLimit)
    ensures r.Accepted? ==> 1 <= r.value.limit <= MaxLimit
    ensures r.Rejected? ==> ("skip" in r.fields <==> skip.Some? && skip.value < 0)
    ensures r.Rejected? ==> ("limit" in r.fields <==> limit.Some? && !(1 <= limit.value <= MaxLimit))
  {
    var skipBad := skip.Some? && skip.value < 0;
    var limitBad := limit.Some? && !(1 <= limit.value <= MaxLimit);
    if skipBad || limitBad then
      Rejected((if skipBad then ["skip"] else []) + (if limitBad then ["limit"] else []))
    else
      Accepted(Window(if skip.Some? then skip.value else DefaultSkip,
                      if limit.Some? then limit.value else DefaultLimit))
  }

  // ---------------------------------------------------------------------
  // Outcome to response
  // ---------------------------------------------------------------------

  /** Serialises a list of rows, element by element. */
  function Responses(rows: seq<Expense>): (rs: seq<ExpenseResponse>)
    ensures |rs| == |rows|
    ensures forall i :: 0 <= i < |rows| ==> rs[i] == ToResponse(rows[i])
  {
    seq(|rows|, i requires 0 <= i < |rows| => ToResponse(rows[i]))
  }

  /** Answer of POST /expenses/. */
  function CreateResponse(o: Outcome<Expense>): (r: Response)
    ensures r.status == StatusCreated <==> o.Done?
    ensures r.status == StatusServerError <==> o.StoreError?
    ensures o.Done? ==> r.body == Entity(ToResponse(o.value))
    ensures o.StoreError? ==> r.body == Detail(CreateFailed)
  {
    match o
    case Done(e) => Response(StatusCreated, Entity(ToResponse(e)))
    case StoreError(_) => Response(StatusServerError, Detail(CreateFailed))
  }

  /** Answer of GET /expenses/ and of GET /expenses/category/{category}: an
      empty result is still a 200, never a 404. */
  function ListResponse(o: Outcome<seq<Expense>>, failed: string): (r: Response)
    ensures r.status == StatusOk <==> o.Done?
    ensures r.status == StatusServerError <==> o.StoreError?
    ensures o.Done? ==> r.body == Entities(Responses(o.value))
    ensures o.StoreError? ==> r.body == Detail(failed)
  {
    match o
    case Done(rows) => Response(StatusOk, Entities(Responses(rows)))
    case StoreError(_) => Response(StatusServerError, Detail(failed))
  }

  /** Answer of GET and PUT /expenses/{id}. The 404 raised for a missing row
      is passed on as it is; only a store error becomes a 500. */
  function FoundResponse(id: int, o: Outcome<Option<Expense>>, failed: string): (r: Response)
    ensures r.status == StatusOk <==> o.Done? && o.value.Some?
    ensures r.status == StatusNotFound <==> o == Done(None)
    ensures r.status == StatusServerError <==> o.StoreError?
    ensures o.Done? && o.value.Some? ==> r.body == Entity(ToResponse(o.value.value))
    ensures o == Done(None) ==> r.body == Detail(NotFoundDetail(id))
    ensures o.StoreError? ==> r.body == Detail(failed)
  {
    match o
    case Done(Some(e)) => Response(StatusOk, Entity(ToResponse(e)))
    case Done(None) => Response(StatusNotFound, Detail(NotFoundDetail(id)))
    case StoreError(_) => Response(StatusServerError, Detail(failed))
  }

  /** Answer of DELETE /expenses/{id}: 204 with no body, or 404, or 500. */
  function DeleteResponse(id: int, o: Outcome<bool>): (r: Response)
    ensures r.status == StatusNoContent <==> o == Done(true)
    ensures r.status == StatusNotFound <==> o == Done(false)
    ensures r.status == StatusServerError <==> o.StoreError?
    ensures o == Done(true) ==> r.body == NoBody
    ensures o == Done(false) ==> r.body == Detail(NotFoundDetail(id))
    ensures o.StoreError? ==> r.body == Detail(DeleteFailed)
  {
    match o
    case Done(true) => Response(StatusNoContent, NoBody)
    case Done(false) => Response(StatusNotFound, Detail(NotFoundDetail(id)))
    case StoreError(_) => Response(StatusServerError, Detail(DeleteFailed))
  }

  /** The store's error text never reaches the client: two different store
      errors give the same answer in every handler. */
  lemma StoreErrorTextNeverLeaks(m1: string, m2: string, id: int, failed: string)
    ensures CreateResponse(StoreError(m1)) == CreateResponse(StoreError(m2))
    ensures ListResponse(StoreError(m1), failed) == ListResponse(StoreError(m2), failed)
    ensures FoundResponse(id, StoreError(m1), failed) == FoundResponse(id, StoreError(m2), failed)
    ensures DeleteResponse(id, StoreError(m1)) == DeleteResponse(id, StoreError(m2))
  {
  }

  /** When every stored row meets the base constraints, every row the
      handlers return passes the response schema. */
  lemma StoredRowsPassResponseSchema(rows: seq<Expense>)
    requires AllRowsValid(rows)
    ensures forall r :: r in Responses(rows) ==> ValidResponse(r)
  {
  }

  // ---------------------------------------------------------------------
  // The handlers
  // ---------------------------------------------------------------------

  /** POST /expenses/ . `failure` fails the insert or its commit;
      `refreshFailure` fails the read-back after the commit, which answers 500
      although the row is stored. */
  method PostExpense(table: ExpenseTable, body: ExpenseCreate, failure: Option<string>, refreshFailure: Option<string>)
    returns (resp: Response)
    requires table.Valid()
    modifies table
    ensures table.Valid()
    ensures AllRowsValid(old(table.rows)) ==> AllRowsValid(table.rows)
    ensures !ValidCreate(body) ==>
              resp == Response(StatusUnprocessable, Invalid(CreateErrors(body))) && table.rows == old(table.rows)
    ensures ValidCreate(body) && failure.Some? ==>
              resp == Response(StatusServerError, Detail(CreateFailed)) && table.rows == old(table.rows)
    ensures ValidCreate(body) && failure.None? ==> table.rows == Committed(old(table.rows), Create(body))
    ensures ValidCreate(body) && failure.None? && refreshFailure.Some? ==>
              resp == Response(StatusServerError, Detail(CreateFailed))
    ensures ValidCreate(body) && failure.None? && refreshFailure.None? ==>
              resp == Response(StatusCreated, Entity(ToResponse(NewRow(old(table.rows), body))))
  {
    if !ValidCreate(body) {
      return Response(StatusUnprocessable, Invalid(CreateErrors(body)));
    }
    ghost var before := table.rows;
    var o := table.CreateExpense(body, failure, refreshFailure);
    assert o.Done? ==> table.rows[|before|] == o.value == NewRow(before, body);
    resp := CreateResponse(o);
  }

  /** GET /expenses/?skip=&limit= */
  method ListExpenses(table: ExpenseTable, skip: Option<int>, limit: Option<int>, failure: Option<string>)
    returns (resp: Response)
    ensures ListQuery(skip, limit).Rejected? ==>
              resp == Response(StatusUnprocessable, Invalid(ListQuery(skip, limit).fields))
    ensures ListQuery(skip, limit).Accepted? && failure.Some? ==>
              resp == Response(StatusServerError, Detail(ListFailed))
    ensures ListQuery(skip, limit).Accepted? && failure.None? ==>
              var w := ListQuery(skip, limit).value;
              resp == Response(StatusOk, Entities(Responses(Page(table.rows, w.skip, w.limit))))
  {
    var q := ListQuery(skip, limit);
    if q.Rejected? {
      return Response(StatusUnprocessable, Invalid(q.fields));
    }
    var o := table.GetExpenses(q.value.skip, q.value.limit, failure);
    resp := ListResponse(o, ListFailed);
  }

  /** GET /expenses/{id} */
  method GetExpense(table: ExpenseTable, id: int, failure: Option<string>) returns (resp: Response)
    requires table.Valid()
    ensures failure.Some? ==> resp == Response(StatusServerError, Detail(GetFailed))
    ensures failure.None? && !HasId(table.rows, id) ==>
              resp == Response(StatusNotFound, Detail(NotFoundDetail(id)))
    ensures failure.None? ==> forall i :: 0 <= i < |table.rows| && table.rows[i].id == id ==>
              resp == Response(StatusOk, Entity(ToResponse(table.rows[i])))
  {
    var o := table.GetExpenseById(id, failure);
    resp := FoundResponse(id, o, GetFailed);
  }

  /** PUT /expenses/{id} . `failure` is the first store error of the lookup
      or the commit, which answers 500 with nothing changed; `refreshFailure`
      fails the read-back after the commit, which answers 500 although the
      update is stored. */
  method PutExpense(table: ExpenseTable, id: int, body: ExpenseUpdate, failure: Option<string>,
                    refreshFailure: Option<string>) returns (resp: Response)
    requires table.Valid()
    modifies table
    ensures table.Valid()
    ensures AllRowsValid(old(table.rows)) ==> AllRowsValid(table.rows)
    ensures !ValidUpdate(body) ==>
              resp == Response(StatusUnprocessable, Invalid(UpdateErrors(body))) && table.rows == old(table.rows)
    ensures ValidUpdate(body) && failure.Some? ==>
              resp == Response(StatusServerError, Detail(UpdateFailed)) && table.rows == old(table.rows)
    ensures ValidUpdate(body) && failure.None? && !HasId(old(table.rows), id) ==>
              resp == Response(StatusNotFound, Detail(NotFoundDetail(id))) && table.rows == old(table.rows)
    ensures ValidUpdate(body) && HasId(old(table.rows), id)
            && (body.amount.Null? || body.category.Null? || body.description.Null?) ==>
              resp == Response(StatusServerError, Detail(UpdateFailed)) && table.rows == old(table.rows)
    ensures ValidUpdate(body) && HasId(old(table.rows), id)
            && !(body.amount.Null? || body.category.Null? || body.description.Null? || failure.Some?) ==>
              table.rows == Committed(old(table.rows), Update(id, body))
    ensures ValidUpdate(body) && HasId(old(table.rows), id)
            && !(body.amount.Null? || body.category.Null? || body.description.Null? || failure.Some?) ==>
              resp == (if refreshFailure.Some? then Response(StatusServerError, Detail(UpdateFailed))
                       else Response(StatusOk, Entity(ToResponse(Merge(GetById(old(table.rows), id).value, body).value))))
  {
    if !ValidUpdate(body) {
      return Response(StatusUnprocessable, Invalid(UpdateErrors(body)));
    }
    ghost var before := table.rows;
    var o := table.UpdateExpense(id, body, failure, refreshFailure);
    resp := FoundResponse(id, o, UpdateFailed);
    if AllRowsValid(before) && table.rows != before {
      CommittedKeepsRowsValid(before, Update(id, body));
    }
  }

  /** DELETE /expenses/{id} */
  method DeleteExpense(table: ExpenseTable, id: int, failure: Option<string>) returns (resp: Response)
    requires table.Valid()
    modifies table
    ensures table.Valid()
    ensures AllRowsValid(old(table.rows)) ==> AllRowsValid(table.rows)
    ensures failure.Some? ==>
              resp == Response(StatusServerError, Detail(DeleteFailed)) && table.rows == old(table.rows)
    ensures failure.None? && !HasId(old(table.rows), id) ==>
              resp == Response(StatusNotFound, Detail(NotFoundDetail(id))) && table.rows == old(table.rows)
    ensures HasId(old(table.rows), id) && failure.None? ==>
              resp == Response(StatusNoContent, NoBody) && table.rows == Committed(old(table.rows), Delete(id))
    ensures resp.status != StatusServerError ==> !HasId(table.rows, id)
  {
    ghost var before := table.rows;
    var o := table.DeleteExpense(id, failure);
    resp := DeleteResponse(id, o);
    if AllRowsValid(before) && table.rows != before {
      CommittedKeepsRowsValid(before, Delete(id));
    }
  }

  /** GET /expenses/category/{category} */
  method ListByCategory(table: ExpenseTable, category: string, failure: Option<string>) returns (resp: Response)
    ensures failure.Some? ==> resp == Response(StatusServerError, Detail(CategoryFailed))
    ensures failure.None? ==> resp == Response(StatusOk, Entities(Responses(ByCategory(table.rows, category))))
    ensures resp.status != StatusNotFound
  {
    var o := table.GetExpensesByCategory(category, failure);
    resp := ListResponse(o, CategoryFailed);
  }

  /** Deleting the same id twice: the first call answers 204, the second 404. */
  method DeleteTwice(table: ExpenseTable, id: int) returns (first: Response, second: Response)
    requires table.Valid() && HasId(table.rows, id)
    modifies table
    ensures first == Response(StatusNoContent, NoBody)
    ensures second == Response(StatusNotFound, Detail(NotFoundDetail(id)))
  {
    first := DeleteExpense(table, id, None);
    second := DeleteExpense(table, id, None);
  }

  /** Creating an expense and then fetching it by the id in the 201 body
      returns the same body with a 200. */
  method CreateThenFetch(table: ExpenseTable, body: ExpenseCreate) returns (created: Response, fetched: Response)
    requires table.Valid() && ValidCreate(body)
    modifies table
    ensures created.status == StatusCreated && created.body.Entity?
    ensures fetched == Response(StatusOk, created.body)
  {
    ghost var before := table.rows;
    created := PostExpense(table, body, None, None);
    CreateThenGet(before, body);
    GetByIdFindsRow(table.rows, |before|);
    fetched := GetExpense(table, created.body.expense.id, None);
  }
}
