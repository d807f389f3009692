/** The product slice of the client's Redux store (client/src/store/productSlice.ts):
    the pending/fulfilled/rejected cases of five request thunks. */
module ProductSlice {
  import opened Wrappers
  import opened Client
  import Seqs

  datatype ProductState = ProductState(products: seq<Product>, detail: Option<Product>, loading: bool, error: Option<string>)

  const Initial: ProductState := ProductState([], None, false, None)

  /** `fetchProducts`, `fetchProductById`, `createProduct`, `updateProduct`, `deleteProduct`. */
  datatype Thunk = FetchAll | FetchById | Create | Update | Delete

  /** A rejection carries both the thunk's `payload` (the value given to `rejectWithValue`,
      `None` when there is none) and the serialized `error.message`. */
  datatype Action =
    | Pending(thunk: Thunk)
    | FetchAllFulfilled(products: seq<Product>)
    | FetchByIdFulfilled(product: Product)
    | CreateFulfilled(product: Product)
    | UpdateFulfilled(product: Product)
    | DeleteFulfilled(id: int)
    | Rejected(thunk: Thunk, payload: Option<string>, message: Option<string>)

  const FetchFailed: string := "Failed to fetch products"

  function IdIsNot(id: int): Product -> bool {
    (p: Product) => p.id != id
  }

  /** `action.error.message || 'Failed to fetch products'`: an absent or empty message
      is replaced by the default. */
  function FetchAllError(message: Option<string>): (e: string)
    ensures e != ""
    ensures message.Some? && message.value != "" ==> e == message.value
  {
    if message.Some? && message.value != "" then message.value else FetchFailed
  }

  /** The slice's reducer. */
  function Reduce(s: ProductState, a: Action): (t: ProductState)
    ensures a.Pending? ==> t == s.(loading := true, error := None)
    ensures a.Rejected? ==> t.products == s.products && t.detail == s.detail && !t.loading
    ensures a.Rejected? && a.thunk == FetchAll ==> t.error == Some(FetchAllError(a.message))
    ensures a.Rejected? && a.thunk != FetchAll ==> t.error == a.payload
    ensures !a.Pending? && !a.Rejected? ==> !t.loading && t.error == s.error
    ensures a.FetchAllFulfilled? ==> t.products == a.products
    ensures a.CreateFulfilled? ==>
              |t.products| == |s.products| + 1 && t.products[..|s.products|] == s.products
              && t.products[|s.products|] == a.product
    ensures a.UpdateFulfilled? ==>
              && |t.products| == |s.products|
              && ((forall j :: 0 <= j < |s.products| ==> s.products[j].id != a.product.id) ==> t.products == s.products)
              && forall j :: 0 <= j < |s.products| && t.products[j] != s.products[j] ==>
                   t.products[j] == a.product && s.products[j].id == a.product.id
                   && forall m :: 0 <= m < j ==> s.products[m].id != a.product.id
    ensures a.DeleteFulfilled? ==> forall p :: p in t.products <==> p in s.products && p.id != a.id
    ensures t.detail != s.detail ==> a.FetchByIdFulfilled? && t.detail == Some(a.product)
  {
    match a
    case Pending(_) => s.(loading := true, error := None)
    case FetchAllFulfilled(ps) => s.(loading := false, products := ps)
    case FetchByIdFulfilled(p) => s.(loading := false, detail := Some(p))
    case CreateFulfilled(p) => s.(loading := false, products := s.products + [p])
    case UpdateFulfilled(p) => s.(loading := false, products := Seqs.ReplaceFirst(s.products, ProductId, p))
    case DeleteFulfilled(id) => s.(loading := false, products := Seqs.Filter(s.products, IdIsNot(id)))
    case Rejected(FetchAll, _, message) => s.(loading := false, error := Some(FetchAllError(message)))
    case Rejected(_, payload, _) => s.(loading := false, error := payload)
  }

  /** Only a fulfilled fetch-by-id ever sets the detail, and it always does. */
  lemma DetailOnlyFromFetchById(s: ProductState, a: Action)
    ensures a.FetchByIdFulfilled? ==> Reduce(s, a).detail == Some(a.product)
    ensures !a.FetchByIdFulfilled? ==> Reduce(s, a).detail == s.detail
  {
  }

  /** Deleting keeps the surviving products in order, and deleting twice is deleting once. */
  lemma {:induction false} DeleteKeepsOrder(a: seq<Product>, b: seq<Product>, id: int)
    ensures Seqs.Filter(a + b, IdIsNot(id)) == Seqs.Filter(a, IdIsNot(id)) + Seqs.Filter(b, IdIsNot(id))
    ensures Reduce(Reduce(ProductState(a, None, false, None), DeleteFulfilled(id)), DeleteFulfilled(id)).products
              == Reduce(ProductState(a, None, false, None), DeleteFulfilled(id)).products
  {
    Seqs.FilterAppend(a, b, IdIsNot(id));
    Seqs.FilterIdempotent(a, IdIsNot(id));
  }

  /** A delete of an id no product carries changes no product. */
  lemma DeleteAbsent(s: ProductState, id: int)
    requires forall j :: 0 <= j < |s.products| ==> s.products[j].id != id
    ensures Reduce(s, DeleteFulfilled(id)).products == s.products
  {
    Seqs.FilterKeepsAll(s.products, IdIsNot(id));
  }

  /** A product created and then updated with a new version of itself is in the list in
      its new version, at the end, provided no earlier product had its id. */
  lemma CreateThenUpdate(s: ProductState, p: Product, q: Product)
    requires p.id == q.id
    requires forall j :: 0 <= j < |s.products| ==> s.products[j].id != p.id
    ensures Reduce(Reduce(s, CreateFulfilled(p)), UpdateFulfilled(q)).products == s.products + [q]
  {
    Seqs.ReplaceFirstAtEnd(s.products, p, ProductId, q);
  }
}
