/** Checkout and the order listing (server/src/controllers/orderController.ts).
    Checkout turns the caller's cart rows into one order: it rejects an empty cart,
    checks each line's stock, totals the lines, records the lines with the prices of
    the moment, decrements stock line by line and deletes the caller's cart rows. */
module Orders {
  import opened Wrappers
  import opened Store
  import Seqs

  datatype CheckoutError = EmptyCart | NotEnoughStock(productName: string)

  /** The error text of the 400 response. */
  function Message(e: CheckoutError): string {
    match e
    case EmptyCart => "Cart is empty"
    case NotEnoughStock(name) => "Not enough stock for product " + name
  }

  /** Both checkout errors are answered with HTTP 400. */
  const BadRequest: int := 400

  /** Every row's product can be read, as the store's foreign key guarantees and the
      `include: { product: true }` read relies on. */
  predicate Resolves(products: map<int, Product>, rows: seq<CartRow>) {
    forall i :: 0 <= i < |rows| ==> rows[i].productId in products
  }

  /** Position of the first row, in cart order, whose product cannot supply its quantity. */
  function FirstShort(products: map<int, Product>, rows: seq<CartRow>): (r: Option<nat>)
    requires Resolves(products, rows)
    ensures r.Some? ==> r.value < |rows| && Short(products[rows[r.value].productId], rows[r.value].quantity)
    ensures r.Some? ==> forall j :: 0 <= j < r.value ==> !Short(products[rows[j].productId], rows[j].quantity)
    ensures r.None? <==> forall j :: 0 <= j < |rows| ==> !Short(products[rows[j].productId], rows[j].quantity)
  {
    if |rows| == 0 then None
    else if Short(products[rows[0].productId], rows[0].quantity) then Some(0)
    else
      match FirstShort(products, rows[1..])
      case None => None
      case Some(i) => Some(i + 1)
  }

  /** The `reduce` over the cart: the sum of current price times quantity. */
  function CartTotal(products: map<int, Product>, rows: seq<CartRow>): int
    requires Resolves(products, rows)
  {
    if |rows| == 0 then 0
    else products[rows[0].productId].price * rows[0].quantity + CartTotal(products, rows[1..])
  }

  /** The sum of an order's line subtotals, computed from the order alone. */
  function ItemsTotal(items: seq<OrderItem>): int {
    if |items| == 0 then 0 else items[0].price * items[0].quantity + ItemsTotal(items[1..])
  }

  /** The order lines created from the cart rows. */
  function Lines(products: map<int, Product>, rows: seq<CartRow>): seq<OrderItem>
    requires Resolves(products, rows)
  {
    seq(|rows|, i requires 0 <= i < |rows| =>
      OrderItem(rows[i].productId, rows[i].quantity, products[rows[i].productId].price))
  }

  /** The order total equals the sum of the recorded lines' subtotals. */
  lemma {:induction false} LinesTotal(products: map<int, Product>, rows: seq<CartRow>)
    requires Resolves(products, rows)
    ensures ItemsTotal(Lines(products, rows)) == CartTotal(products, rows)
  {
    if |rows| > 0 {
      LinesTotal(products, rows[1..]);
      assert Lines(products, rows)[1..] == Lines(products, rows[1..]);
    }
  }

  /** Prisma's `decrement` on an optional column: an undefined stock stays undefined. */
  function Minus(stock: Option<int>, q: int): Option<int> {
    match stock
    case None => None
    case Some(n) => Some(n - q)
  }

  /** The quantity of `pid` over all rows: what checkout takes out of its stock. */
  function QtyFor(rows: seq<CartRow>, pid: int): int {
    if |rows| == 0 then 0
    else (if rows[0].productId == pid then rows[0].quantity else 0) + QtyFor(rows[1..], pid)
  }

  /** The loop of `product.update({ data: { stock: { decrement } } })` calls, one per row. */
  function DecrementStock(products: map<int, Product>, rows: seq<CartRow>): (r: map<int, Product>)
    requires Resolves(products, rows)
    ensures r.Keys == products.Keys
  {
    if |rows| == 0 then products
    else
      var p := products[rows[0].productId];
      DecrementStock(products[rows[0].productId := p.(stock := Minus(p.stock, rows[0].quantity))], rows[1..])
  }

  /** Each product loses the summed quantity of the rows that name it; its name, price
      and description stay, and products no row names keep their stock. */
  lemma {:induction false} DecrementStockEffect(products: map<int, Product>, rows: seq<CartRow>, pid: int)
    requires Resolves(products, rows)
    requires pid in products
    ensures DecrementStock(products, rows)[pid]
         == products[pid].(stock := Minus(products[pid].stock, QtyFor(rows, pid)))
  {
    if |rows| > 0 {
      var p := products[rows[0].productId];
      var next := products[rows[0].productId := p.(stock := Minus(p.stock, rows[0].quantity))];
      DecrementStockEffect(next, rows[1..], pid);
      if rows[0].productId == pid {
        assert next[pid].stock == Minus(products[pid].stock, rows[0].quantity);
      }
    }
  }

  /** The checkout of user `u`: `Ok((order, store'))` with the 201 order, or the 400 error. */
  function Checkout(s: Store, u: int): (r: Result<(Order, Store), CheckoutError>)
    requires Resolves(s.products, RowsOf(s.rows, u))
    ensures RowsOf(s.rows, u) == [] <==> r == Err(EmptyCart)
    ensures var rows := RowsOf(s.rows, u);
            r.Err? && r.error.NotEnoughStock? <==>
              rows != [] && exists i :: 0 <= i < |rows| && Short(s.products[rows[i].productId], rows[i].quantity)
    ensures var rows := RowsOf(s.rows, u);
            r.Err? && r.error.NotEnoughStock? ==>
              exists i :: 0 <= i < |rows|
                && Short(s.products[rows[i].productId], rows[i].quantity)
                && r.error.productName == s.products[rows[i].productId].name
                && forall j :: 0 <= j < i ==> !Short(s.products[rows[j].productId], rows[j].quantity)
    ensures r.Ok? ==>
              var (order, s') := r.value;
              var rows := RowsOf(s.rows, u);
              && order.userId == u
              && |order.items| == |rows|
              && (forall i :: 0 <= i < |rows| ==>
                    && order.items[i].productId == rows[i].productId
                    && order.items[i].quantity == rows[i].quantity
                    && order.items[i].price == s.products[rows[i].productId].price)
              && order.total == ItemsTotal(order.items)
              && s'.orders == s.orders + [order]
              && s'.rows == Seqs.Filter(s.rows, NotOwnedBy(u))
              && s'.products.Keys == s.products.Keys
              && s'.nextRowId == s.nextRowId
  {
    var rows := RowsOf(s.rows, u);
    if |rows| == 0 then Err(EmptyCart)
    else match FirstShort(s.products, rows)
      case Some(i) => Err(NotEnoughStock(s.products[rows[i].productId].name))
      case None =>
        LinesTotal(s.products, rows);
        var order := Order(u, CartTotal(s.products, rows), Lines(s.products, rows));
        Ok((order, Store(DecrementStock(s.products, rows), Seqs.Filter(s.rows, NotOwnedBy(u)),
                         s.nextRowId, s.orders + [order])))
  }

  /** After a successful checkout each product's stock has dropped by the quantities
      of the caller's rows that name it, and nothing else about the product changed. */
  lemma CheckoutStock(s: Store, u: int, pid: int)
    requires Resolves(s.products, RowsOf(s.rows, u))
    requires Checkout(s, u).Ok?
    requires pid in s.products
    ensures var s' := Checkout(s, u).value.1;
            s'.products[pid] == s.products[pid].(stock := Minus(s.products[pid].stock, QtyFor(RowsOf(s.rows, u), pid)))
  {
    DecrementStockEffect(s.products, RowsOf(s.rows, u), pid);
  }

  /** After a successful checkout the caller's cart is empty and every other user's
      rows are still there, in the same order. */
  lemma {:induction false} CheckoutClearsOnlyOwnCart(s: Store, u: int, v: int)
    requires Resolves(s.products, RowsOf(s.rows, u))
    requires Checkout(s, u).Ok?
    requires v != u
    ensures RowsOf(Checkout(s, u).value.1.rows, u) == []
    ensures RowsOf(Checkout(s, u).value.1.rows, v) == RowsOf(s.rows, v)
  {
    Seqs.FilterNone(Checkout(s, u).value.1.rows, OwnedBy(u));
    OtherUsersKept(s.rows, u, v);
  }

  lemma {:induction false} OtherUsersKept(rows: seq<CartRow>, u: int, v: int)
    requires u != v
    ensures RowsOf(Seqs.Filter(rows, NotOwnedBy(u)), v) == RowsOf(rows, v)
  {
    if |rows| > 0 {
      OtherUsersKept(rows[1..], u, v);
    }
  }

  /** Checkout keeps the store valid: it only deletes cart rows and keeps every product. */
  lemma CheckoutKeepsValid(s: Store, u: int)
    requires Valid(s)
    requires Checkout(s, u).Ok?
    ensures Valid(Checkout(s, u).value.1)
  {
    var s' := Checkout(s, u).value.1;
    FilterRowsKeepsValid(s, NotOwnedBy(u), s'.products);
    assert s' == s.(rows := Seqs.Filter(s.rows, NotOwnedBy(u)), products := s'.products, orders := s'.orders);
  }

  /** A valid store always satisfies checkout's precondition. */
  lemma ValidResolves(s: Store, u: int)
    requires Valid(s)
    ensures Resolves(s.products, RowsOf(s.rows, u))
  {
    var rows := RowsOf(s.rows, u);
    forall i | 0 <= i < |rows|
      ensures rows[i].productId in s.products
    {
      assert rows[i] in s.rows;
    }
  }

  /** No two rows name the same product. */
  predicate DistinctProducts(rows: seq<CartRow>) {
    forall i, j :: 0 <= i < j < |rows| ==> rows[i].productId != rows[j].productId
  }

  lemma {:induction false} QtyForDistinct(rows: seq<CartRow>, pid: int)
    requires DistinctProducts(rows)
    ensures (forall i :: 0 <= i < |rows| ==> rows[i].productId != pid) ==> QtyFor(rows, pid) == 0
    ensures forall i :: 0 <= i < |rows| && rows[i].productId == pid ==> QtyFor(rows, pid) == rows[i].quantity
  {
    if |rows| > 0 {
      QtyForDistinct(rows[1..], pid);
      if rows[0].productId == pid {
        assert forall i :: 1 <= i < |rows| ==> rows[i].productId != pid;
        assert forall i :: 0 <= i < |rows[1..]| ==> rows[1..][i].productId != pid;
      }
    }
  }

  /** When no product appears in two of the caller's rows, a successful checkout leaves
      no defined stock negative. */
  lemma NoOversellWithoutDuplicateRows(s: Store, u: int, pid: int)
    requires Resolves(s.products, RowsOf(s.rows, u))
    requires DistinctProducts(RowsOf(s.rows, u))
    requires Checkout(s, u).Ok?
    requires pid in s.products
    requires s.products[pid].stock.Some? && s.products[pid].stock.value >= 0
    ensures Checkout(s, u).value.1.products[pid].stock.Some?
    ensures Checkout(s, u).value.1.products[pid].stock.value >= 0
  {
    var rows := RowsOf(s.rows, u);
    CheckoutStock(s, u, pid);
    QtyForDistinct(rows, pid);
    assert FirstShort(s.products, rows).None?;
  }

  /** A store where user 3 has two rows of quantity 1 for product 7, whose stock is 1. */
  function DuplicateRowsStore(): Store {
    Store(map[7 := Product("Lamp", 1000, None, Some(1))], [CartRow(1, 3, 7, 1), CartRow(2, 3, 7, 1)], 3, [])
  }

  lemma DuplicateRowsAreTheCart()
    ensures RowsOf(DuplicateRowsStore().rows, 3) == DuplicateRowsStore().rows
    ensures QtyFor(DuplicateRowsStore().rows, 7) == 2
  {
    var rows := DuplicateRowsStore().rows;
    Seqs.FilterKeepsAll(rows, OwnedBy(3));
    assert rows[1..] == [CartRow(2, 3, 7, 1)];
    assert rows[1..][1..] == [];
  }

  /** Each row on its own passes the stock check, so checkout succeeds. */
  lemma DuplicateRowsPass()
    ensures Checkout(DuplicateRowsStore(), 3).Ok?
  {
    var s := DuplicateRowsStore();
    DuplicateRowsAreTheCart();
    assert !Short(s.products[7], 1);
    assert forall i :: 0 <= i < |s.rows| ==> !Short(s.products[s.rows[i].productId], s.rows[i].quantity);
  }

  /** The stock check is per line, not per product: both rows pass it, checkout
      succeeds and the stock ends at -1. */
  lemma DuplicateRowsOversell()
    ensures Checkout(DuplicateRowsStore(), 3).Ok?
    ensures Checkout(DuplicateRowsStore(), 3).value.1.products[7].stock == Some(-1)
  {
    DuplicateRowsPass();
    DuplicateRowsAreTheCart();
    CheckoutStock(DuplicateRowsStore(), 3, 7);
  }

  function OrdersOf(u: int): Order -> bool {
    (o: Order) => o.userId == u
  }

  /** `getUserOrders`: the caller's orders, in store order. */
  function UserOrders(s: Store, u: int): (r: seq<Order>)
    ensures forall o :: o in r <==> o in s.orders && o.userId == u
  {
    Seqs.Filter(s.orders, OrdersOf(u))
  }

  /** The order a successful checkout creates is listed last among the caller's orders,
      after the ones they had before. */
  lemma CheckoutThenList(s: Store, u: int)
    requires Resolves(s.products, RowsOf(s.rows, u))
    requires Checkout(s, u).Ok?
    ensures var (order, s') := Checkout(s, u).value;
            UserOrders(s', u) == UserOrders(s, u) + [order]
  {
    var (order, s') := Checkout(s, u).value;
    Seqs.FilterAppend(s.orders, [order], OrdersOf(u));
  }
}
