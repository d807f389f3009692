/** The single-item add-to-cart of src/controllers/cartController.ts: one
    `{ productId, quantity? }` object, answered with one status. Its update and delete
    handlers are the shared ones of `CartRows`. */
module SingleCart {
  import opened Wrappers
  import opened Store
  import opened Requests
  import CartRows
  import BatchCart

  datatype Outcome = InvalidBody | ProductNotFound | NotEnoughStock | Created(row: CartRow) {
    function Status(): int {
      match this
      case InvalidBody => 400
      case ProductNotFound => 404
      case NotEnoughStock => 400
      case Created(_) => 201
    }
  }

  /** `addToCart`: the schema is checked before the store is read; an unknown product is
      404 and a defined stock below the quantity is 400, neither creating anything;
      otherwise exactly one row is created for the caller. */
  function AddToCart(s: Store, u: int, it: AddItem): (r: (Outcome, Store))
    ensures !AddItemValid(it) ==> r == (InvalidBody, s)
    ensures !r.0.Created? ==> r.1 == s
    ensures AddItemValid(it) ==>
              var pid := it.productId.value.n;
              && (r.0 == ProductNotFound <==> pid !in s.products)
              && (r.0 == NotEnoughStock <==> pid in s.products && Short(s.products[pid], QuantityOf(it)))
    ensures r.0.Created? ==>
              && AddItemValid(it)
              && r.0.row.userId == u
              && r.0.row.productId == it.productId.value.n
              && r.0.row.quantity == QuantityOf(it)
              && r.1.rows == s.rows + [r.0.row]
              && r.1.products == s.products && r.1.orders == s.orders
  {
    if !AddItemValid(it) then (InvalidBody, s)
    else
      var pid := it.productId.value.n;
      var q := QuantityOf(it);
      if pid !in s.products then (ProductNotFound, s)
      else if Short(s.products[pid], q) then (NotEnoughStock, s)
      else
        var (row, s') := CartRows.CreateRow(s, u, pid, q);
        (Created(row), s')
  }

  /** The two controllers agree: adding one item alone has the same effect on the store
      as a batch holding just that item, and the answers correspond. */
  lemma AgreesWithBatch(s: Store, u: int, it: AddItem)
    ensures AddToCart(s, u, it).1 == BatchCart.AddToCart(s, u, BatchCart.ArrayBody([it])).1
    ensures AddToCart(s, u, it).0 == InvalidBody <==>
              BatchCart.AddToCart(s, u, BatchCart.ArrayBody([it])).0 == BatchCart.InvalidBody
    ensures AddToCart(s, u, it).0.Created? ==>
              BatchCart.AddToCart(s, u, BatchCart.ArrayBody([it])).0.entries
                == [BatchCart.Added(AddToCart(s, u, it).0.row)]
    ensures AddToCart(s, u, it).0 == ProductNotFound ==>
              BatchCart.AddToCart(s, u, BatchCart.ArrayBody([it])).0.entries
                == [BatchCart.Failed(it.productId.value.n, BatchCart.ProductNotFound)]
    ensures AddToCart(s, u, it).0 == NotEnoughStock ==>
              BatchCart.AddToCart(s, u, BatchCart.ArrayBody([it])).0.entries
                == [BatchCart.Failed(it.productId.value.n, BatchCart.NotEnoughStock)]
  {
    if AddItemValid(it) {
      assert BatchCart.BodyValid(BatchCart.ArrayBody([it]));
      var items := [it];
      assert items[1..] == [];
      var (e, s1) := BatchCart.AddOne(s, u, it);
      assert BatchCart.AddAll(s1, u, items[1..]) == ([], s1);
      assert BatchCart.AddAll(s, u, items) == ([e] + [], s1);
    }
  }
}
