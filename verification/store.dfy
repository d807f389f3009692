/** The server's relational store as the cart and order controllers see it:
    products keyed by id, cart rows in table order, and the orders created so far. */
module Store {
  import opened Wrappers
  import Seqs

  /** A product row. Prices are integer cents; `stock` is optional, as the server's
      `CartItem.product` type declares it (`None` is `undefined`). */
  datatype Product = Product(name: string, price: int, description: Option<string>, stock: Option<int>)

  /** A cart row: who put how many of which product in their cart. */
  datatype CartRow = CartRow(id: int, userId: int, productId: int, quantity: int)

  /** One line of a placed order, with the unit price captured at checkout. */
  datatype OrderItem = OrderItem(productId: int, quantity: int, price: int)

  datatype Order = Order(userId: int, total: int, items: seq<OrderItem>)

  /** `nextRowId` is the cart table's auto-increment counter. */
  datatype Store = Store(products: map<int, Product>, rows: seq<CartRow>, nextRowId: int, orders: seq<Order>)

  function OwnedBy(u: int): CartRow -> bool {
    (r: CartRow) => r.userId == u
  }

  function NotOwnedBy(u: int): CartRow -> bool {
    (r: CartRow) => r.userId != u
  }

  /** The rows of user `u`, in table order (`cartItem.findMany({ where: { userId } })`). */
  function RowsOf(rows: seq<CartRow>, u: int): (r: seq<CartRow>)
    ensures forall i :: 0 <= i < |r| ==> r[i].userId == u
    ensures forall x :: x in r <==> x in rows && x.userId == u
  {
    Seqs.Filter(rows, OwnedBy(u))
  }

  /** A product whose stock is defined and below `quantity` cannot supply it;
      an undefined stock never blocks. */
  predicate Short(p: Product, quantity: int) {
    p.stock.Some? && p.stock.value < quantity
  }

  predicate UniqueIds(rows: seq<CartRow>) {
    forall i, j :: 0 <= i < j < |rows| ==> rows[i].id != rows[j].id
  }

  /** What the database guarantees between requests: every cart row references an
      existing product (foreign key), row ids are unique (primary key) and below the
      auto-increment counter. */
  predicate Valid(s: Store) {
    && (forall i :: 0 <= i < |s.rows| ==> s.rows[i].productId in s.products)
    && UniqueIds(s.rows)
    && (forall i :: 0 <= i < |s.rows| ==> s.rows[i].id < s.nextRowId)
  }

  /** Keeping only some rows keeps their ids unique. */
  lemma {:induction false} FilterKeepsUniqueIds(rows: seq<CartRow>, p: CartRow -> bool)
    requires UniqueIds(rows)
    ensures UniqueIds(Seqs.Filter(rows, p))
  {
    if |rows| > 0 {
      var tail := Seqs.Filter(rows[1..], p);
      FilterKeepsUniqueIds(rows[1..], p);
      forall j | 0 <= j < |tail|
        ensures tail[j].id != rows[0].id
      {
        assert tail[j] in rows[1..];
        var k :| 0 <= k < |rows[1..]| && rows[1..][k] == tail[j];
        assert rows[k + 1] == tail[j];
      }
    }
  }

  /** Deleting any set of rows (`cartItem.deleteMany`) keeps a store valid, whatever
      happens meanwhile to the products as long as none disappears. */
  lemma FilterRowsKeepsValid(s: Store, p: CartRow -> bool, products: map<int, Product>)
    requires Valid(s)
    requires s.products.Keys <= products.Keys
    ensures Valid(s.(rows := Seqs.Filter(s.rows, p), products := products))
  {
    var rows := Seqs.Filter(s.rows, p);
    FilterKeepsUniqueIds(s.rows, p);
    forall i | 0 <= i < |rows|
      ensures rows[i].productId in products && rows[i].id < s.nextRowId
    {
      assert rows[i] in s.rows;
      var j :| 0 <= j < |s.rows| && s.rows[j] == rows[i];
    }
  }

  /** Position of the row with primary key `id` (`cartItem.findUnique({ where: { id } })`). */
  function FindRow(rows: seq<CartRow>, id: int): (r: Option<nat>)
    ensures r.Some? ==> r.value < |rows| && rows[r.value].id == id
    ensures r.None? <==> forall j :: 0 <= j < |rows| ==> rows[j].id != id
  {
    var i := Seqs.FindIndex(rows, (x: CartRow) => x.id, id);
    if i == -1 then None else Some(i)
  }

  /** With unique ids the row found is the only one carrying that id. */
  lemma FindRowIsUnique(rows: seq<CartRow>, id: int, j: int)
    requires UniqueIds(rows)
    requires 0 <= j < |rows| && rows[j].id == id
    ensures FindRow(rows, id) == Some(j)
  {
  }
}
