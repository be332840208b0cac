/** The shapes of the expense API: the stored row, the create and update
    request bodies, the response body, and the field constraints that the
    request and response schemas declare. */
module Schemas {

  /** A row of the `expenses` table. Every column is NOT NULL, so a stored
      row always carries all four values. */
  datatype Expense = Expense(id: int, amount: real, category: string, description: string)

  const MinCategoryLength: nat := 2
  const MaxCategoryLength: nat := 50
  const MinDescriptionLength: nat := 3
  const MaxDescriptionLength: nat := 200

  /** `amount` must be strictly positive. */
  predicate ValidAmount(amount: real) { amount > 0.0 }

  predicate ValidCategory(category: string) {
    MinCategoryLength <= |category| <= MaxCategoryLength
  }

  predicate ValidDescription(description: string) {
    MinDescriptionLength <= |description| <= MaxDescriptionLength
  }

  /** The constraints of the base expense schema, which the create body and
      the response body both carry. */
  predicate ValidFields(amount: real, category: string, description: string) {
    ValidAmount(amount) && ValidCategory(category) && ValidDescription(description)
  }

  /** A stored row meets the base constraints. */
  predicate ValidRow(e: Expense) {
    ValidFields(e.amount, e.category, e.description)
  }

  /** Body of a create request: all three fields are mandatory. */
  datatype ExpenseCreate = ExpenseCreate(amount: real, category: string, description: string)

  predicate ValidCreate(c: ExpenseCreate) {
    ValidFields(c.amount, c.category, c.description)
  }

  /** One optional field of an update body: left out of the request, sent as
      an explicit JSON `null`, or sent with a value. */
  datatype Field<T> = Unset | Null | Value(value: T)

  /** Body of an update request: every field is optional. */
  datatype ExpenseUpdate = ExpenseUpdate(amount: Field<real>, category: Field<string>, description: Field<string>)

  /** A field that is present with a value must meet the create bound; a field
      that is left out or sent as `null` is not checked. */
  predicate ValidUpdate(u: ExpenseUpdate) {
    (u.amount.Value? ==> ValidAmount(u.amount.value)) &&
    (u.category.Value? ==> ValidCategory(u.category.value)) &&
    (u.description.Value? ==> ValidDescription(u.description.value))
  }

  /** The names of the body fields that break their constraint, in declaration
      order: the field list of the "unprocessable input" answer. */
  function CreateErrors(c: ExpenseCreate): (errs: seq<string>)
    ensures errs == [] <==> ValidCreate(c)
    ensures "amount" in errs <==> !ValidAmount(c.amount)
    ensures "category" in errs <==> !ValidCategory(c.category)
    ensures "description" in errs <==> !ValidDescription(c.description)
    ensures |errs| <= 3
  {
    (if ValidAmount(c.amount) then [] else ["amount"]) +
    (if ValidCategory(c.category) then [] else ["category"]) +
    (if ValidDescription(c.description) then [] else ["description"])
  }

  /** The update fields that break their constraint. Only fields sent with a
      value can appear, so an empty update body is always accepted. */
  function UpdateErrors(u: ExpenseUpdate): (errs: seq<string>)
    ensures errs == [] <==> ValidUpdate(u)
    ensures "amount" in errs <==> u.amount.Value? && !ValidAmount(u.amount.value)
    ensures "category" in errs <==> u.category.Value? && !ValidCategory(u.category.value)
    ensures "description" in errs <==> u.description.Value? && !ValidDescription(u.description.value)
    ensures !u.amount.Value? && !u.category.Value? && !u.description.Value? ==> errs == []
  {
    (if u.amount.Value? && !ValidAmount(u.amount.value) then ["amount"] else []) +
    (if u.category.Value? && !ValidCategory(u.category.value) then ["category"] else []) +
    (if u.description.Value? && !ValidDescription(u.description.value) then ["description"] else [])
  }

  /** The response body: the id plus the three base fields, under the same
      constraints as a create body. */
  datatype ExpenseResponse = ExpenseResponse(id: int, amount: real, category: string, description: string)

  predicate ValidResponse(r: ExpenseResponse) {
    ValidFields(r.amount, r.category, r.description)
  }

  /** Serialises a stored row; the response schema accepts it exactly when
      the row meets the base constraints. */
  function ToResponse(e: Expense): (r: ExpenseResponse)
    ensures r.id == e.id && r.amount == e.amount
    ensures r.category == e.category && r.description == e.description
    ensures ValidResponse(r) <==> ValidRow(e)
  {
    ExpenseResponse(e.id, e.amount, e.category, e.description)
  }
}
