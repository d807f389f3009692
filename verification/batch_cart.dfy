/** The batch add-to-cart of the server's cart controller
    (server/src/controllers/cartController.ts): the body is an array of
    `{ productId, quantity? }`; after the whole array passes the schema, every item
    is answered in order, either with the row created for it or with an error entry. */
module BatchCart {
  import opened Wrappers
  import opened Store
  import opened Requests
  import CartRows

  /** A request body: an array of items, or any other JSON value. */
  datatype Body = ArrayBody(items: seq<AddItem>) | OtherBody

  /** `z.array(z.object({ productId: z.number(), quantity: z.number().min(1).optional() }))`. */
  predicate BodyValid(b: Body) {
    b.ArrayBody? && forall i :: 0 <= i < |b.items| ==> AddItemValid(b.items[i])
  }

  const ProductNotFound: string := "Product not found"
  const NotEnoughStock: string := "Not enough stock"

  /** One element of the response array. */
  datatype Entry = Added(row: CartRow) | Failed(productId: int, error: string)

  /** 400 with the schema errors, or 201 with one entry per item. */
  datatype Response = InvalidBody | Created(entries: seq<Entry>) {
    function Status(): int {
      if InvalidBody? then 400 else 201
    }
  }

  /** What the answer to one item must be, given the product table: not found, not
      enough stock, or a fresh row for the caller with the item's product and quantity. */
  predicate EntryFor(products: map<int, Product>, u: int, it: AddItem, e: Entry)
    requires AddItemValid(it)
  {
    var pid := it.productId.value.n;
    var q := QuantityOf(it);
    if pid !in products then e == Failed(pid, ProductNotFound)
    else if Short(products[pid], q) then e == Failed(pid, NotEnoughStock)
    else e.Added? && e.row.userId == u && e.row.productId == pid && e.row.quantity == q
  }

  /** The rows the entries report as created, in order. */
  function AddedRows(entries: seq<Entry>): seq<CartRow> {
    if |entries| == 0 then []
    else (if entries[0].Added? then [entries[0].row] else []) + AddedRows(entries[1..])
  }

  /** One turn of the loop. */
  function AddOne(s: Store, u: int, it: AddItem): (Entry, Store)
    requires AddItemValid(it)
  {
    var pid := it.productId.value.n;
    var q := QuantityOf(it);
    if pid !in s.products then (Failed(pid, ProductNotFound), s)
    else if Short(s.products[pid], q) then (Failed(pid, NotEnoughStock), s)
    else
      var (row, s') := CartRows.CreateRow(s, u, pid, q);
      (Added(row), s')
  }

  /** The loop over the items, in order. */
  function AddAll(s: Store, u: int, items: seq<AddItem>): (r: (seq<Entry>, Store))
    requires forall i :: 0 <= i < |items| ==> AddItemValid(items[i])
    ensures |r.0| == |items|
    ensures forall i :: 0 <= i < |items| ==> EntryFor(s.products, u, items[i], r.0[i])
    ensures r.1.rows == s.rows + AddedRows(r.0)
    ensures r.1.products == s.products && r.1.orders == s.orders
    ensures s.nextRowId <= r.1.nextRowId
    decreases |items|
  {
    if |items| == 0 then ([], s)
    else
      var (e, s1) := AddOne(s, u, items[0]);
      var (es, s2) := AddAll(s1, u, items[1..]);
      assert AddedRows([e] + es) == (if e.Added? then [e.row] else []) + AddedRows(es) by {
        assert ([e] + es)[1..] == es;
      }
      ([e] + es, s2)
  }

  /** `addToCart`: a body failing the schema creates nothing; otherwise the answer holds
      exactly one entry per item, in order, and the table gains exactly the reported
      rows, after the existing ones. */
  function AddToCart(s: Store, u: int, body: Body): (r: (Response, Store))
    ensures !BodyValid(body) ==> r == (InvalidBody, s)
    ensures BodyValid(body) ==>
              && r.0.Created?
              && |r.0.entries| == |body.items|
              && (forall i :: 0 <= i < |body.items| ==> EntryFor(s.products, u, body.items[i], r.0.entries[i]))
              && r.1.rows == s.rows + AddedRows(r.0.entries)
              && r.1.products == s.products && r.1.orders == s.orders
  {
    if !BodyValid(body) then (InvalidBody, s)
    else
      var (entries, s') := AddAll(s, u, body.items);
      (Created(entries), s')
  }

  /** The batch keeps the store valid: every created row names an existing product and
      takes a fresh id. */
  lemma {:induction false} AddAllKeepsValid(s: Store, u: int, items: seq<AddItem>)
    requires forall i :: 0 <= i < |items| ==> AddItemValid(items[i])
    requires Valid(s)
    ensures Valid(AddAll(s, u, items).1)
    decreases |items|
  {
    if |items| > 0 {
      var it := items[0];
      var pid := it.productId.value.n;
      if pid in s.products && !Short(s.products[pid], QuantityOf(it)) {
        CartRows.CreateRowKeepsValid(s, u, pid, QuantityOf(it));
      }
      AddAllKeepsValid(AddOne(s, u, it).1, u, items[1..]);
    }
  }

  /** Adding a product the caller already has in the cart creates a second row for it
      rather than raising the existing row's quantity. */
  lemma AlwaysNewRow(s: Store, u: int, it: AddItem, k: int)
    requires AddItemValid(it)
    requires it.productId.value.n in s.products
    requires !Short(s.products[it.productId.value.n], QuantityOf(it))
    requires 0 <= k < |s.rows| && s.rows[k].userId == u && s.rows[k].productId == it.productId.value.n
    ensures var rows' := AddToCart(s, u, ArrayBody([it])).1.rows;
            |rows'| == |s.rows| + 1
            && rows'[k] == s.rows[k]
            && rows'[|s.rows|].userId == u && rows'[|s.rows|].productId == it.productId.value.n
  {
    var (response, s') := AddToCart(s, u, ArrayBody([it]));
    var entries := response.entries;
    assert EntryFor(s.products, u, it, entries[0]);
    assert entries == [entries[0]];
    assert AddedRows(entries) == [entries[0].row] by {
      assert entries[1..] == [];
    }
  }
}
