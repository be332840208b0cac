# Expense API — a Dafny model

This project models the core of a small CRUD HTTP API over one `expenses`
table: the request schemas (`app/schemas.py`), the access layer
(`app/crud.py`) and the six route handlers (`app/routes/expenses.py`), with the
row shape of `app/models.py` folded into the `Expense` datatype.

- `schemas.dfy` (module `Schemas`): the stored row, the create body, the
  update body with three-state fields (left out / explicit `null` / value),
  the response body, and the field constraints as predicates (`amount > 0`,
  category 2–50 characters, description 3–200 characters). `CreateErrors` and
  `UpdateErrors` give the failing field names of the 422 answer.
- `crud.dfy` (module `Crud`): the three queries as functions over the table's
  rows (`GetById`, `Page`, `ByCategory`); the three mutations as methods of the
  class `ExpenseTable`, whose field `rows` is the table in scan order. Every
  mutating method is one transaction: it either commits the state that the
  function `Committed` describes, or it raises a store error and leaves `rows`
  as it was; create and update read the committed row back afterwards, and
  an error there is raised with the commit already in place. The `setattr` loop of `update_expense` is a `while` loop over the
  fields the client set (`UpdateData`), proved to store exactly `Merge`.
- `routes.dfy` (module `Routes`): the outcome → response mapping of each
  handler as pure functions, the `skip`/`limit` query check, the "Expense with
  ID {id} not found" text (with the id written as Python writes an `int`, and
  read back by a parser), and one method per handler that checks the request,
  calls the table and maps the outcome.

Assumptions and modelling choices:

- Store failures are a parameter `failure: Option<string>`: `Some(text)` means
  the store raises an error with that text (at the first statement that
  touches the store: the lookup of an update or delete, the commit of a
  create, the query of a read). Create and update take a second parameter
  `refreshFailure` for an error of the `refresh` that follows the commit
  inside the same `try` (`app/crud.py:18-19`, `app/crud.py:55-56`): the
  rollback then undoes nothing, so the row stays stored while the handler
  answers 500. The response never depends on the error text.
- Ids are assigned as the default SQLite store does for an `INTEGER PRIMARY
  KEY`: one more than the largest id present, 1 in an empty table
  (`NewRowId`). So ids ascend in scan order, and the list endpoint's
  `OFFSET`/`LIMIT` without `ORDER BY` is modelled as a slice of the rows in
  ascending id order, which is also insertion order.
- `amount` is a `real`; the source only compares it with 0.
- An update body may hold an explicit `null`. It passes the update schema
  (a present-but-null field is not checked), the `exclude_unset` dictionary
  keeps it, and the commit then writes NULL into a NOT NULL column, fails,
  rolls back and the handler answers 500 "Failed to update expense". The
  model follows the code, whose update handler only promises that all fields
  are optional (`app/routes/expenses.py:109`).
- `delete_expense` returns `None` for a missing id and `True` otherwise; the
  model returns `false`/`true`.

## Model

| member | source | states |
|---|---|---|
| Schemas.CreateErrors | app/schemas.py:5-13 | a create body is accepted iff amount > 0, 2 ≤ len(category) ≤ 50 and 3 ≤ len(description) ≤ 200; each failing field is named |
| Schemas.UpdateErrors | app/schemas.py:15-19 | every update field is optional; a field sent with a value must meet the create bound; left-out and null fields are not checked, so an empty update is accepted |
| Schemas.ToResponse | app/schemas.py:21-26 | the response carries the id and the three fields unchanged, and passes the response schema iff the row meets the base constraints |
| Crud.NewRowId | app/models.py:7 | the assigned id is larger than every id in the table (so fresh), is 1 in an empty table, and is one more than the largest id |
| Crud.GetById | app/crud.py:35-38 | a row is returned iff some row has the id, and it is a row of the table carrying that id |
| Crud.GetByIdFindsRow | app/crud.py:35-38 | with unique ids, the lookup of a row's id returns exactly that row |
| Crud.Page | app/crud.py:27-30 | the page holds at most `limit` rows, is the contiguous run of rows starting at `skip`, and is empty when `skip` ≥ the row count |
| Crud.PagesAdjacent | app/crud.py:27-30 | the page at `skip` of size a followed by the page at `skip + a` of size b is the page at `skip` of size a + b |
| Crud.PagesCoverTable | app/crud.py:27-30 | walking the table in pages of n rows gives every row once, in order |
| Crud.ByCategory | app/crud.py:80-83 | exactly the rows whose category equals the argument (case-sensitive) |
| Crud.ByCategoryAppend | app/crud.py:80-83 | the category filter keeps table order: filtering a concatenation is concatenating the filtered parts |
| Crud.NewRow | app/crud.py:12-16 | the inserted row has the three input fields and an id no row has |
| Crud.Merge | app/crud.py:50-53 | fields sent with a value overwrite, left-out fields and the id keep their stored value, and an explicit null yields no storable row |
| Crud.Removed | app/crud.py:67-72 | a missing id leaves the table as it is; otherwise exactly one row goes |
| Crud.UpdateData | app/crud.py:51 | each field the client set (null included) appears once with its value, nothing else appears, so the list is empty exactly when nothing was set |
| Crud.SetAttrLoopMerges | app/crud.py:50-55 | setting the sent fields one by one on the loaded row and committing stores exactly the merged row, or fails when a column holds NULL |
| Crud.CreateThenGet | app/crud.py:9-21 | round trip: looking up the id a create assigned returns the created row |
| Crud.CreateExtendsCategoryListing | app/crud.py:9-21 | after a create, the listing of the new row's category gains it at the end and every other listing is unchanged |
| Crud.RemovedExactly | app/crud.py:64-74 | deleting an id keeps every other row in order and no row with that id remains, so a repeated delete finds nothing |
| Crud.DropAtMembers | app/crud.py:71-72 | removing the row at one position keeps exactly the rows with another id |
| Crud.DropAtAscending | app/crud.py:71-72 | removing a row keeps ids ascending |
| Crud.CreateKeepsInvariant | app/crud.py:9-21 | a create keeps ids ascending and positive |
| Crud.DeleteKeepsInvariant | app/crud.py:64-74 | a delete keeps ids ascending and positive |
| Crud.Committed | app/crud.py:9-78 | a committed create appends the new row and keeps the rest; an update keeps the row count and changes nothing for a missing id; a delete removes one row iff the id is present |
| Crud.Replay | app/crud.py:9-78 | the table after a history of attempts, each committing or rolling back in its `except` block (lines 22-25, 59-62, 75-78); a history in which every attempt rolled back leaves the table as it was |
| Crud.RollbacksLeaveNoTrace | app/crud.py:9-78 | a rolled-back attempt has no effect: replaying a history gives the table of replaying only its committed attempts, in order |
| Crud.CommittedKeepsInvariant | app/crud.py:9-78 | every committed create, update or delete keeps ids ascending and positive |
| Crud.UpdateTouchesOnlyItsRow | app/crud.py:43-58 | an update changes only the row carrying the id, into its merge, and no other row |
| Crud.UpdateIdempotent | app/crud.py:43-58 | applying the same update twice gives the table of applying it once |
| Crud.CommittedKeepsRowsValid | app/schemas.py:5-19 | a validated create or update, or any delete, commits only rows meeting the base constraints |
| Crud.ValidatedHistoryKeepsRowsValid | app/schemas.py:5-19 | when every create and update body was validated, every stored row meets the base constraints after any mix of commits and rollbacks |
| Crud.ExpenseTable.constructor | app/models.py:4-5 | the table starts empty |
| Crud.ExpenseTable.CreateExpense | app/crud.py:9-25 | commit: one row is appended with the input's fields under a fresh id and returned; failure before the commit: the error is raised and the table is unchanged; failure of the read-back: the error is raised and the row stays appended |
| Crud.ExpenseTable.GetExpenses | app/crud.py:27-33 | returns the `skip`/`limit` window of the rows, or the store error; never changes the table |
| Crud.ExpenseTable.GetExpenseById | app/crud.py:35-41 | returns the row carrying the id, nothing iff no row has it, or the store error; never changes the table |
| Crud.ExpenseTable.UpdateExpense | app/crud.py:43-62 | a store error in the lookup or the commit: raised, table unchanged; missing id: nothing, table unchanged; a null field: NOT NULL error, rolled back; otherwise the merged row replaces the old one and is returned, or, when the read-back fails, the error is raised with the merged row stored |
| Crud.ExpenseTable.DeleteExpense | app/crud.py:64-78 | a store error in the lookup or the commit: raised, table unchanged; missing id: false, table unchanged; otherwise the row is removed and true returned; afterwards the id is absent |
| Crud.ExpenseTable.GetExpensesByCategory | app/crud.py:80-86 | returns exactly the rows of that category in order, or the store error |
| Routes.Decimal | app/routes/expenses.py:86 | `str(id)`: a minus sign exactly for negatives, then only decimal digits, with no leading zero; 0 is written "0" |
| Routes.DecimalRoundTrip | app/routes/expenses.py:83-87 | the id written into a message reads back as the same integer, negatives included |
| Routes.NotFoundDetail | app/routes/expenses.py:83-87 | the 404 text "Expense with ID {id} not found", with the id written as `Decimal` writes it, carries the id, which can be read back from it |
| Routes.NotFoundDetailNamesId | app/routes/expenses.py:83-87 | different ids give different 404 texts |
| Routes.ListQuery | app/routes/expenses.py:51-52 | `skip` defaults to 0 and must be ≥ 0; `limit` defaults to 100 and must be in [1, 1000]; other values are rejected naming the parameter |
| Routes.Responses | app/routes/expenses.py:47 | a list answer serialises each row in order |
| Routes.CreateResponse | app/routes/expenses.py:20-43 | a created row answers 201 with its body; a store error answers 500 "Failed to create expense" |
| Routes.ListResponse | app/routes/expenses.py:60-67 | a list answers 200, an empty one included, never 404; a store error answers 500 with the handler's fixed text |
| Routes.FoundResponse | app/routes/expenses.py:81-96 | a row answers 200, no row answers 404 naming the id (never turned into 500), a store error answers 500 with a fixed text |
| Routes.DeleteResponse | app/routes/expenses.py:142-155 | a delete answers 204 with no body, 404 naming the id when nothing was deleted, 500 "Failed to delete expense" on a store error |
| Routes.StoreErrorTextNeverLeaks | app/routes/expenses.py:38-43 | two different store errors give the same answer in every handler, so the raw error text never reaches the client |
| Routes.StoredRowsPassResponseSchema | app/schemas.py:21-23 | when every stored row meets the base constraints, every returned row passes the response schema |
| Routes.PostExpense | app/routes/expenses.py:20-43 | an invalid body answers 422 before the store is touched; otherwise 201 with the new row; 500 with the table unchanged when the commit fails; 500 with the row stored when the read-back fails; every row stays valid |
| Routes.ListExpenses | app/routes/expenses.py:45-67 | bad `skip`/`limit` answer 422 before the store is touched; otherwise 200 with the page, or 500 |
| Routes.GetExpense | app/routes/expenses.py:69-96 | 200 with the row carrying the id, 404 naming the id when none does, 500 on a store error |
| Routes.PutExpense | app/routes/expenses.py:98-126 | invalid body: 422, table unchanged; a store error in the lookup or the commit: 500, table unchanged; missing id: 404; explicit null: 500, table unchanged; otherwise the merged row is stored and the answer is 200 with it, or 500 when the read-back fails; every row stays valid |
| Routes.DeleteExpense | app/routes/expenses.py:128-155 | a store error in the lookup or the commit: 500, table unchanged; missing id: 404; otherwise 204 and the row is gone; every row stays valid |
| Routes.ListByCategory | app/routes/expenses.py:157-176 | 200 with exactly the rows of that category (never 404), or 500 on a store error |
| Routes.DeleteTwice | app/routes/expenses.py:128-155 | deleting an existing id twice answers 204, then 404 naming the id |
| Routes.CreateThenFetch | app/routes/expenses.py:20-96 | fetching the id of a created expense answers 200 with the same body as the 201 |

## Left out

- Startup table creation, CORS, the root endpoint, the health check and the global exception handler of `app/main.py`: framework glue, not part of this model.
- Configuration loading (`app/config.py`): environment and `.env` reading, with no logic to model.
- The per-request session (`get_db`), its acquire/close, and all logging: resource and logging plumbing.
- Concurrency and transaction isolation between requests: each call is modelled as one atomic step on one table.
- Float semantics of `amount` (rounding, NaN, infinities): modelled as `real`.
- Id assignment by other stores (a sequence that never reuses ids): the model follows SQLite's largest-id-plus-one rule, which reuses the id of a deleted last row; SQLite's random fallback after the largest 64-bit id is not modelled.
- Pydantic's coercion of request values and its 422 error-body format: the 422 answer is modelled as the list of failing field names.
- The 500 that the response-schema check would produce for an invalid stored row: the POST, PUT and DELETE handlers keep every stored row valid, so no such row exists.
- The schema `HealthCheck`: it is the response model of the health endpoint of `app/main.py`, which is left out above.
- The unused schemas `ExpenseList` and `ErrorResponse`.
- Integer width of ids and query values: path ids, `skip` and `limit` are unbounded integers here, while the SQLite driver binds signed 64-bit integers; a value outside that range makes the source raise and answer 500, where the model answers 404 or an empty page.
