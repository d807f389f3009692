/** Request values as the controllers receive them: parsed JSON body fields and route ids,
    with the zod checks the controllers apply to them. */
module Requests {
  import opened Wrappers

  /** A JSON value in a request body. Numbers are whole (cents for prices); `JOther` is
      anything that is not a number or a string: `null`, booleans, arrays, objects. */
  datatype Json = JNum(n: int) | JStr(s: string) | JOther

  /** A body field: `None` when the key is absent (`undefined`). */
  type Field = Option<Json>

  /** `z.number()`. */
  predicate IsNumber(f: Field) {
    f.Some? && f.value.JNum?
  }

  /** `z.string()`. */
  predicate IsString(f: Field) {
    f.Some? && f.value.JStr?
  }

  /** `z.number().min(1)`. */
  predicate AtLeastOne(f: Field) {
    IsNumber(f) && f.value.n >= 1
  }

  /** `z.number().min(1).optional()`: absent, or a number of at least 1. */
  predicate OptionalAtLeastOne(f: Field) {
    f.None? || AtLeastOne(f)
  }

  /** A route parameter after `Number(req.params.id)`: `None` is `NaN`. */
  type RouteId = Option<int>

  /** A cart line in an add-to-cart body: `{ productId, quantity? }`. */
  datatype AddItem = AddItem(productId: Field, quantity: Field)

  /** The add-to-cart item schema shared by both cart controllers. */
  predicate AddItemValid(it: AddItem) {
    IsNumber(it.productId) && OptionalAtLeastOne(it.quantity)
  }

  /** The destructuring default `quantity = 1`. */
  function QuantityOf(it: AddItem): (q: int)
    requires AddItemValid(it)
    ensures q >= 1
    ensures it.quantity.None? ==> q == 1
    ensures it.quantity.Some? ==> it.quantity == Some(JNum(q))
  {
    match it.quantity
    case None => 1
    case Some(v) => v.n
  }
}
