/** Cart-row changes common to both cart controllers: creating a row, and the
    ownership-checked quantity update and delete, which the two controllers implement
    line for line alike. */
module CartRows {
  import opened Wrappers
  import opened Store
  import opened Requests
  import Seqs

  /** `cartItem.create({ data: { userId, productId, quantity } })`: a new row takes the
      next auto-increment id and goes at the end of the table. */
  function CreateRow(s: Store, u: int, pid: int, q: int): (r: (CartRow, Store))
    ensures r.0.userId == u && r.0.productId == pid && r.0.quantity == q
    ensures r.1.rows == s.rows + [r.0]
    ensures r.0.id == s.nextRowId < r.1.nextRowId
    ensures r.1.products == s.products && r.1.orders == s.orders
  {
    var row := CartRow(s.nextRowId, u, pid, q);
    (row, s.(rows := s.rows + [row], nextRowId := s.nextRowId + 1))
  }

  /** Creating a row for an existing product keeps the store valid. */
  lemma CreateRowKeepsValid(s: Store, u: int, pid: int, q: int)
    requires Valid(s)
    requires pid in s.products
    ensures Valid(CreateRow(s, u, pid, q).1)
  {
    var s' := CreateRow(s, u, pid, q).1;
    assert forall i :: 0 <= i < |s.rows| ==> s'.rows[i] == s.rows[i];
  }

  /** The outcome of an update or delete request, with its HTTP status. */
  datatype RowOutcome = InvalidId | InvalidBody | NotFound | Updated(row: CartRow) | Deleted(id: int) {
    function Status(): int {
      match this
      case InvalidId => 400
      case InvalidBody => 400
      case NotFound => 404
      case Updated(_) => 200
      case Deleted(_) => 200
    }
  }

  /** Some row with primary key `id` belongs to user `u`. */
  predicate OwnsRow(rows: seq<CartRow>, u: int, id: int) {
    exists i :: 0 <= i < |rows| && rows[i].id == id && rows[i].userId == u
  }

  /** `updateCartItem`: a `NaN` id is rejected first, then a quantity below 1 or not a
      number; a row that does not exist or belongs to someone else is not found;
      otherwise that row's quantity is overwritten. */
  function UpdateCartItem(s: Store, u: int, id: RouteId, quantity: Field): (r: (RowOutcome, Store))
    ensures id.None? ==> r.0 == InvalidId
    ensures id.Some? && !AtLeastOne(quantity) ==> r.0 == InvalidBody
    ensures !r.0.Updated? ==> r.1 == s
    ensures id.Some? && AtLeastOne(quantity) && !OwnsRow(s.rows, u, id.value) ==> r.0 == NotFound
    ensures r.0.Updated? ==>
              id.Some? && AtLeastOne(quantity)
              && r.0.row.quantity == quantity.value.n
              && r.1.products == s.products && r.1.orders == s.orders && r.1.nextRowId == s.nextRowId
              && |r.1.rows| == |s.rows|
              && exists i :: 0 <= i < |s.rows|
                   && s.rows[i].id == id.value && s.rows[i].userId == u
                   && r.1.rows[i] == s.rows[i].(quantity := quantity.value.n) == r.0.row
                   && forall j :: 0 <= j < |s.rows| && j != i ==> r.1.rows[j] == s.rows[j]
  {
    if id.None? then (InvalidId, s)
    else if !AtLeastOne(quantity) then (InvalidBody, s)
    else match FindRow(s.rows, id.value)
      case None => (NotFound, s)
      case Some(i) =>
        if s.rows[i].userId != u then (NotFound, s)
        else
          var row := s.rows[i].(quantity := quantity.value.n);
          (Updated(row), s.(rows := s.rows[i := row]))
  }

  /** `deleteCartItem`: the same id and ownership checks as the update; success removes
      the one row with that id. */
  function DeleteCartItem(s: Store, u: int, id: RouteId): (r: (RowOutcome, Store))
    ensures id.None? ==> r.0 == InvalidId
    ensures !r.0.Deleted? ==> r.1 == s
    ensures id.Some? && !OwnsRow(s.rows, u, id.value) ==> r.0 == NotFound
    ensures r.0.Deleted? ==>
              id.Some? && r.0.id == id.value
              && r.1.products == s.products && r.1.orders == s.orders && r.1.nextRowId == s.nextRowId
              && exists i :: 0 <= i < |s.rows|
                   && s.rows[i].id == id.value && s.rows[i].userId == u
                   && r.1.rows == s.rows[..i] + s.rows[i + 1..]
  {
    if id.None? then (InvalidId, s)
    else match FindRow(s.rows, id.value)
      case None => (NotFound, s)
      case Some(i) =>
        if s.rows[i].userId != u then (NotFound, s)
        else (Deleted(id.value), s.(rows := s.rows[..i] + s.rows[i + 1..]))
  }

  function IdIsNot(id: int): CartRow -> bool {
    (r: CartRow) => r.id != id
  }

  lemma {:induction false} FilterSkipsAbsent(rows: seq<CartRow>, id: int)
    requires forall j :: 0 <= j < |rows| ==> rows[j].id != id
    ensures Seqs.Filter(rows, IdIsNot(id)) == rows
  {
    Seqs.FilterKeepsAll(rows, IdIsNot(id));
  }

  /** With unique row ids, a well-formed request for a row the caller owns succeeds:
      the not-found answers are exactly the rows that are missing or someone else's. */
  lemma OwnedRowIsFound(s: Store, u: int, id: int, quantity: Field)
    requires UniqueIds(s.rows)
    requires OwnsRow(s.rows, u, id)
    ensures AtLeastOne(quantity) ==> UpdateCartItem(s, u, Some(id), quantity).0.Updated?
    ensures DeleteCartItem(s, u, Some(id)).0.Deleted?
  {
    var i :| 0 <= i < |s.rows| && s.rows[i].id == id && s.rows[i].userId == u;
    FindRowIsUnique(s.rows, id, i);
  }

  /** With unique ids, removing the row at `i` is filtering out its id. */
  lemma UniqueIdsTail(rows: seq<CartRow>)
    requires UniqueIds(rows)
    requires |rows| > 0
    ensures UniqueIds(rows[1..])
    ensures forall j :: 0 <= j < |rows[1..]| ==> rows[1..][j].id != rows[0].id
  {
    var tail := rows[1..];
    forall a, b | 0 <= a < b < |tail|
      ensures tail[a].id != tail[b].id
    {
      assert tail[a] == rows[a + 1] && tail[b] == rows[b + 1];
    }
    forall j | 0 <= j < |tail|
      ensures tail[j].id != rows[0].id
    {
      assert tail[j] == rows[j + 1];
    }
  }

  lemma {:induction false} RemoveAtIsFilter(rows: seq<CartRow>, i: int)
    requires UniqueIds(rows)
    requires 0 <= i < |rows|
    ensures rows[..i] + rows[i + 1..] == Seqs.Filter(rows, IdIsNot(rows[i].id))
  {
    var id := rows[i].id;
    var tail := rows[1..];
    UniqueIdsTail(rows);
    Seqs.FilterCons(rows, IdIsNot(id));
    if i == 0 {
      FilterSkipsAbsent(tail, id);
    } else {
      assert rows[0].id != id;
      assert tail[i - 1] == rows[i];
      RemoveAtIsFilter(tail, i - 1);
      Seqs.RemoveAtCons(rows, i);
    }
  }

  /** With unique row ids a successful delete removes exactly the rows carrying that id,
      which is that one row, and keeps every other row in order. */
  lemma DeleteRemovesOnlyThatRow(s: Store, u: int, id: int)
    requires UniqueIds(s.rows)
    requires DeleteCartItem(s, u, Some(id)).0.Deleted?
    ensures DeleteCartItem(s, u, Some(id)).1.rows == Seqs.Filter(s.rows, IdIsNot(id))
    ensures |DeleteCartItem(s, u, Some(id)).1.rows| == |s.rows| - 1
  {
    var i := FindRow(s.rows, id).value;
    RemoveAtIsFilter(s.rows, i);
  }

  /** Neither update nor delete consults the product table: stock never affects them. */
  lemma RowChangesIgnoreProducts(s: Store, u: int, id: RouteId, quantity: Field, products: map<int, Product>)
    ensures UpdateCartItem(s.(products := products), u, id, quantity).0 == UpdateCartItem(s, u, id, quantity).0
    ensures DeleteCartItem(s.(products := products), u, id).0 == DeleteCartItem(s, u, id).0
  {
  }

  /** Update keeps the store valid: only a quantity changes. */
  lemma UpdateKeepsValid(s: Store, u: int, id: RouteId, quantity: Field)
    requires Valid(s)
    ensures Valid(UpdateCartItem(s, u, id, quantity).1)
  {
  }

  /** Delete keeps the store valid: the surviving rows are rows of the old table. */
  lemma DeleteKeepsValid(s: Store, u: int, id: RouteId)
    requires Valid(s)
    ensures Valid(DeleteCartItem(s, u, id).1)
  {
    var d := DeleteCartItem(s, u, id);
    if d.0.Deleted? {
      var i := FindRow(s.rows, id.value).value;
      var rows' := d.1.rows;
      assert rows' == s.rows[..i] + s.rows[i + 1..];
      assert forall j :: 0 <= j < i ==> rows'[j] == s.rows[j];
      assert forall j :: i <= j < |rows'| ==> rows'[j] == s.rows[j + 1];
    }
  }
}
