/** The cart slice of the client's Redux store (client/src/store/cartSlice.ts): five
    synchronous reducers and the pending/fulfilled/rejected cases of three request
    thunks, as one pure transition function. */
module CartSlice {
  import opened Wrappers
  import opened Client
  import Seqs

  /** `error` is `None` for `null` (and for the `undefined` a payload-less rejection leaves). */
  datatype CartState = CartState(items: seq<CartItem>, loading: bool, error: Option<string>)

  const Initial: CartState := CartState([], false, None)

  /** The three request thunks: `fetchCart`, `updateCartItemAsync`, `removeCartItemAsync`. */
  datatype Thunk = Fetch | Update | Remove

  datatype Action =
    | SetCart(items: seq<CartItem>)
    | AddToCart(item: CartItem)
    | UpdateCartItem(item: CartItem)
    | RemoveCartItem(id: int)
    | ClearCart
    | Pending(thunk: Thunk)
    | FetchFulfilled(items: seq<CartItem>)
    | UpdateFulfilled(item: CartItem)
    | RemoveFulfilled(id: int)
    | Rejected(thunk: Thunk, payload: Option<string>)
  {
    /** The actions the five `reducers` answer, which never touch the flags. */
    predicate IsSync() {
      SetCart? || AddToCart? || UpdateCartItem? || RemoveCartItem? || ClearCart?
    }
  }

  function IdIsNot(id: int): CartItem -> bool {
    (x: CartItem) => x.id != id
  }

  /** `findIndex` by id, then overwrite that slot when there is one. */
  function Replace(items: seq<CartItem>, x: CartItem): (r: seq<CartItem>)
    ensures |r| == |items|
    ensures (forall j :: 0 <= j < |items| ==> items[j].id != x.id) ==> r == items
    ensures (exists j :: 0 <= j < |items| && items[j].id == x.id) ==> x in r
    ensures forall j :: 0 <= j < |items| && r[j] != items[j] ==>
              r[j] == x && items[j].id == x.id && forall m :: 0 <= m < j ==> items[m].id != x.id
  {
    Seqs.ReplaceFirst(items, ItemId, x)
  }

  /** `items.filter(i => i.id !== id)`. */
  function Remove(items: seq<CartItem>, id: int): (r: seq<CartItem>)
    ensures |r| <= |items|
    ensures forall x :: x in r <==> x in items && x.id != id
    ensures (forall j :: 0 <= j < |items| ==> items[j].id != id) ==> r == items
  {
    assert (forall j :: 0 <= j < |items| ==> items[j].id != id) ==> Seqs.Filter(items, IdIsNot(id)) == items by {
      if forall j :: 0 <= j < |items| ==> items[j].id != id {
        Seqs.FilterKeepsAll(items, IdIsNot(id));
      }
    }
    Seqs.Filter(items, IdIsNot(id))
  }

  /** The slice's reducer. Pending sets `loading` and clears `error`; rejected clears
      `loading`, records the payload and leaves the items alone; fulfilled clears
      `loading` and keeps `error`; the synchronous reducers touch only the items. */
  function Reduce(s: CartState, a: Action): (t: CartState)
    ensures a.Pending? ==> t == s.(loading := true, error := None)
    ensures a.Rejected? ==> t == s.(loading := false, error := a.payload)
    ensures a.IsSync() ==> t.loading == s.loading && t.error == s.error
    ensures (a.FetchFulfilled? || a.UpdateFulfilled? || a.RemoveFulfilled?) ==> !t.loading && t.error == s.error
    ensures (a.SetCart? || a.FetchFulfilled?) ==> t.items == a.items
    ensures a.AddToCart? ==>
              |t.items| == |s.items| + 1 && t.items[..|s.items|] == s.items && t.items[|s.items|] == a.item
    ensures (a.UpdateCartItem? || a.UpdateFulfilled?) ==> t.items == Replace(s.items, a.item)
    ensures (a.RemoveCartItem? || a.RemoveFulfilled?) ==> t.items == Remove(s.items, a.id)
    ensures a.ClearCart? ==> t.items == []
  {
    match a
    case SetCart(items) => s.(items := items)
    case AddToCart(x) => s.(items := s.items + [x])
    case UpdateCartItem(x) => s.(items := Replace(s.items, x))
    case RemoveCartItem(id) => s.(items := Remove(s.items, id))
    case ClearCart => s.(items := [])
    case Pending(_) => s.(loading := true, error := None)
    case FetchFulfilled(items) => s.(loading := false, items := items)
    case UpdateFulfilled(x) => s.(loading := false, items := Replace(s.items, x))
    case RemoveFulfilled(id) => s.(loading := false, items := Remove(s.items, id))
    case Rejected(_, payload) => s.(loading := false, error := payload)
  }

  /** Removing an id twice is removing it once. */
  lemma RemoveIdempotent(items: seq<CartItem>, id: int)
    ensures Remove(Remove(items, id), id) == Remove(items, id)
  {
    Seqs.FilterIdempotent(items, IdIsNot(id));
  }

  /** Removal keeps the survivors in their order: it works piecewise on any split. */
  lemma RemoveKeepsOrder(a: seq<CartItem>, b: seq<CartItem>, id: int)
    ensures Remove(a + b, id) == Remove(a, id) + Remove(b, id)
  {
    Seqs.FilterAppend(a, b, IdIsNot(id));
  }

  /** Replacing with an item that is already in place changes nothing, so a repeated
      update is harmless. */
  lemma ReplaceIdempotent(items: seq<CartItem>, x: CartItem)
    ensures Replace(Replace(items, x), x) == Replace(items, x)
  {
    Seqs.ReplaceFirstIdempotent(items, ItemId, x);
  }

  /** After an update the updated item is present whenever its id was; after a removal
      no item with that id is left; the reducer never adds an item with an id that
      neither the state nor the action mentions. */
  lemma ReduceIds(s: CartState, a: Action, y: CartItem)
    requires y in Reduce(s, a).items
    ensures y in s.items
            || ((a.SetCart? || a.FetchFulfilled?) && y in a.items)
            || ((a.AddToCart? || a.UpdateCartItem? || a.UpdateFulfilled?) && y == a.item)
  {
    var t := Reduce(s, a);
    if a.AddToCart? {
      var k :| 0 <= k < |t.items| && t.items[k] == y;
      if k < |s.items| {
        assert t.items[..|s.items|][k] == y;
      }
    } else if a.UpdateCartItem? || a.UpdateFulfilled? {
      var k :| 0 <= k < |t.items| && t.items[k] == y;
      if t.items[k] != s.items[k] {
        assert y == a.item;
      }
    }
  }

  /** The synchronous and asynchronous versions of update and remove change the items
      in the same way. */
  lemma SyncMatchesAsync(s: CartState, x: CartItem, id: int)
    ensures Reduce(s, UpdateCartItem(x)).items == Reduce(s, UpdateFulfilled(x)).items
    ensures Reduce(s, RemoveCartItem(id)).items == Reduce(s, RemoveFulfilled(id)).items
  {
  }

  /** A request that starts and then fails leaves the items as they were and ends with
      `loading` false and the rejection's payload as the error. */
  lemma PendingThenRejected(s: CartState, th: Thunk, payload: Option<string>)
    ensures Reduce(Reduce(s, Pending(th)), Rejected(th, payload)) == s.(loading := false, error := payload)
  {
  }
}
