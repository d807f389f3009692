/** The products controller (src/controllers/productsController.ts): the filtered,
    searched and paginated listing, and create / read / update / delete by id with the
    product schema. */
module Catalog {
  import opened Wrappers
  import opened Requests
  import opened Store
  import Text
  import Seqs

  /** A product with its primary key, as the listing returns it. */
  datatype Listed = Listed(id: int, product: Product)

  /** The product table in storage order, and its auto-increment counter. */
  datatype Catalog = Catalog(items: seq<Listed>, nextId: int)

  /** The filtering part of the listing's query string: `min` and `max` are `None` when
      absent or empty, `search` is `None` when absent. */
  datatype Criteria = Criteria(min: Option<int>, max: Option<int>, search: Option<string>)

  /** The listing's query string. `page` and `limit` are the results of `parseInt`
      (`None` for a missing or non-numeric value). */
  datatype Query = Query(page: Option<int>, limit: Option<int>, where: Criteria)

  /** `parseInt(x) || d`: `NaN` and 0 both fall back to `d`. */
  function OrDefault(x: Option<int>, d: int): (r: int)
    ensures r != 0 || d == 0
    ensures x.Some? && x.value != 0 ==> r == x.value
    ensures x.None? || x.value == 0 ==> r == d
  {
    if x.None? || x.value == 0 then d else x.value
  }

  /** The `where` clause: the price bounds that are given, and, for a non-empty search,
      a case-insensitive match in the name or the description. */
  predicate Matches(q: Criteria, p: Product) {
    && (q.min.None? || p.price >= q.min.value)
    && (q.max.None? || p.price <= q.max.value)
    && (q.search.None? || q.search.value == ""
        || Text.ContainsInsensitive(p.name, q.search.value)
        || (p.description.Some? && Text.ContainsInsensitive(p.description.value, q.search.value)))
  }

  function MatchesQuery(q: Criteria): Listed -> bool {
    (l: Listed) => Matches(q, l.product)
  }

  /** All products the `where` clause selects, in storage order. */
  function Matching(c: Catalog, q: Criteria): (r: seq<Listed>)
    ensures forall i :: 0 <= i < |r| ==> Matches(q, r[i].product)
    ensures forall l :: l in r <==> l in c.items && Matches(q, l.product)
  {
    Seqs.Filter(c.items, MatchesQuery(q))
  }

  /** `Math.ceil(total / limit)` for a non-zero limit: the least whole number of pages at
      or above `total / limit` (negative for a negative limit). */
  function CeilDiv(total: nat, limit: int): (r: int)
    requires limit != 0
    ensures limit > 0 ==> r >= 0 && r * limit >= total && ((r - 1) * limit < total || r == 0)
    ensures limit < 0 ==> r <= 0 && r * limit <= total && (r - 1) * limit > total
  {
    if limit > 0 then
      CeilDivUp(total, limit);
      (total + limit - 1) / limit
    else
      CeilDivDown(total, -limit);
      -(total / -limit)
  }

  lemma CeilDivUp(total: nat, m: int)
    requires m >= 1
    ensures var r := (total + m - 1) / m; r >= 0 && r * m >= total && (r - 1) * m < total
  {
    var a := total + m - 1;
    var r := a / m;
    assert a == r * m + a % m && 0 <= a % m < m;
    assert (r - 1) * m == r * m - m;
  }

  lemma CeilDivDown(total: nat, m: int)
    requires m >= 1
    ensures var r := -(total / m); r <= 0 && r * -m <= total && (r - 1) * -m > total
  {
    var k := total / m;
    assert total == k * m + total % m && 0 <= total % m < m;
    assert -k * -m == k * m;
    assert (-k - 1) * -m == k * m + m;
  }

  /** `findMany({ where, skip, take })`: at most `take` elements from position `skip` on. */
  function Window<T>(s: seq<T>, skip: nat, take: nat): (r: seq<T>)
    ensures |r| <= take
    ensures skip + |r| <= |s| || r == []
    ensures forall i :: 0 <= i < |r| ==> r[i] == s[skip + i]
    ensures skip + take <= |s| ==> |r| == take
    ensures skip <= |s| < skip + take ==> |r| == |s| - skip
  {
    if skip >= |s| then []
    else if skip + take <= |s| then s[skip..skip + take]
    else s[skip..]
  }

  /** `findMany({ where, skip, take })` with a negative `take`, which pages backwards:
      the `count` elements just before the last `skip`, as many as there are. */
  function BackWindow<T>(s: seq<T>, skip: nat, count: nat): (r: seq<T>)
    ensures |r| <= count
    ensures skip + |r| <= |s| || r == []
    ensures forall i :: 0 <= i < |r| ==> r[i] == s[|s| - skip - |r| + i]
    ensures skip + count <= |s| ==> |r| == count
    ensures skip <= |s| < skip + count ==> |r| == |s| - skip
  {
    if skip >= |s| then []
    else if skip + count <= |s| then s[|s| - skip - count..|s| - skip]
    else s[..|s| - skip]
  }

  /** Paging backwards is paging forwards through the reversed order and reversing the
      page back. */
  lemma BackWindowIsReversedWindow<T>(s: seq<T>, skip: nat, count: nat)
    ensures BackWindow(s, skip, count) == Seqs.Reverse(Window(Seqs.Reverse(s), skip, count))
  {
    var b := BackWindow(s, skip, count);
    var w := Window(Seqs.Reverse(s), skip, count);
    var r := Seqs.Reverse(w);
    assert |b| == |w|;
    forall i | 0 <= i < |b|
      ensures b[i] == r[i]
    {
      assert r[i] == w[|w| - 1 - i] == Seqs.Reverse(s)[skip + |w| - 1 - i];
    }
  }

  /** `page` is what the store answers to `skip` and `take` over `all`: for a positive
      `take` the `take` elements from position `skip` on, for a negative one the `-take`
      elements just before the last `skip`; fewer where `all` runs out. */
  predicate IsPage<T(==)>(page: seq<T>, all: seq<T>, skip: nat, take: int) {
    && (take >= 1 ==>
          && |page| == (if |all| <= skip then 0 else if skip + take <= |all| then take else |all| - skip)
          && forall i :: 0 <= i < |page| ==> skip + i < |all| && page[i] == all[skip + i])
    && (take <= -1 ==>
          && |page| == (if |all| <= skip then 0 else if skip - take <= |all| then -take else |all| - skip)
          && forall i :: 0 <= i < |page| ==> 0 <= |all| - skip - |page| + i < |all| && page[i] == all[|all| - skip - |page| + i])
  }

  /** The store's answer to `skip` and `take` for a non-zero `take`: forwards for a
      positive one, backwards for a negative one. */
  function ListingWindow<T(==)>(all: seq<T>, skip: nat, take: int): (r: seq<T>)
    requires take != 0
    ensures IsPage(r, all, skip, take)
  {
    if take > 0 then Window(all, skip, take) else BackWindow(all, skip, -take)
  }

  datatype ListPage = ListPage(products: seq<Listed>, page: int, limit: int, total: int, totalPages: int)

  /** Where page `page` of size `limit` starts; negative when exactly one of `page - 1`
      and `limit` is. */
  function Skip(page: int, limit: int): int {
    (page - 1) * limit
  }

  /** `getProducts`: the 200 page, or `None` for the 500 answer that a negative `skip`
      leads to. A negative `limit` reaches the store as a negative `take` and pages
      backwards from the end of the matches. */
  function GetProducts(c: Catalog, q: Query): (r: Option<ListPage>)
    ensures r.Some? <==> Skip(OrDefault(q.page, 1), OrDefault(q.limit, 10)) >= 0
    ensures r.Some? ==>
              && r.value.page == OrDefault(q.page, 1)
              && r.value.limit == OrDefault(q.limit, 10)
              && r.value.limit != 0
              && r.value.total == |Matching(c, q.where)|
              && r.value.totalPages == CeilDiv(r.value.total, r.value.limit)
    ensures r.Some? ==>
              && IsPage(r.value.products, Matching(c, q.where), Skip(r.value.page, r.value.limit), r.value.limit)
              && forall i :: 0 <= i < |r.value.products| ==> Matches(q.where, r.value.products[i].product)
  {
    var page := OrDefault(q.page, 1);
    var limit := OrDefault(q.limit, 10);
    var skip := Skip(page, limit);
    if skip < 0 then None
    else
      var all := Matching(c, q.where);
      Some(ListPage(ListingWindow(all, skip, limit), page, limit, |all|, CeilDiv(|all|, limit)))
  }

  /** With a negative limit and no page, the listing is the last `-limit` matches. */
  lemma NegativeLimitTakesLast(c: Catalog, q: Query)
    requires q.page.None? || q.page == Some(0) || q.page == Some(1)
    requires q.limit.Some? && q.limit.value < 0
    ensures var r := GetProducts(c, q);
            var all := Matching(c, q.where);
            var n := if -q.limit.value <= |all| then -q.limit.value else |all|;
            && r.Some? && r.value.products == all[|all| - n..]
            && r.value.totalPages == -(|all| / -q.limit.value)
  {
    var all := Matching(c, q.where);
    var limit := q.limit.value;
    assert OrDefault(q.page, 1) == 1 && OrDefault(q.limit, 10) == limit;
    assert Skip(1, limit) == 0;
    var r := GetProducts(c, q);
    assert r.Some? && r.value.limit == limit && r.value.page == 1;
    var page := r.value.products;
    assert IsPage(page, all, 0, limit);
    var n := if -limit <= |all| then -limit else |all|;
    assert |page| == n;
    assert forall i :: 0 <= i < n ==> page[i] == all[|all| - n + i];
    assert page == all[|all| - n..];
  }

  /** Absent, empty, zero or non-numeric page and limit mean page 1 of 10. */
  lemma DefaultPaging(c: Catalog, q: Query)
    requires q.page.None? || q.page == Some(0)
    requires q.limit.None? || q.limit == Some(0)
    ensures GetProducts(c, q).Some?
    ensures GetProducts(c, q).value.page == 1 && GetProducts(c, q).value.limit == 10
    ensures GetProducts(c, q).value.products == Window(Matching(c, q.where), 0, 10)
  {
  }

  /** Without bounds and search the listing's total is the whole table. */
  lemma NoFilterCountsAll(c: Catalog, q: Query)
    requires q.where.min.None? && q.where.max.None? && (q.where.search.None? || q.where.search == Some(""))
    requires GetProducts(c, q).Some?
    ensures GetProducts(c, q).value.total == |c.items|
  {
    Seqs.FilterKeepsAll(c.items, MatchesQuery(q.where));
  }

  /** Slot `j` of page `page` holds match number `(page - 1) * limit + j`, and the total
      does not depend on the page asked for. */
  lemma PageSlot(c: Catalog, q: Query, page: int, j: int)
    requires OrDefault(q.limit, 10) >= 1
    requires page >= 1 && 0 <= j < OrDefault(q.limit, 10)
    requires (page - 1) * OrDefault(q.limit, 10) + j < |Matching(c, q.where)|
    ensures var r := GetProducts(c, q.(page := Some(page)));
            && r.Some? && j < |r.value.products|
            && r.value.products[j] == Matching(c, q.where)[(page - 1) * OrDefault(q.limit, 10) + j]
            && r.value.total == |Matching(c, q.where)|
  {
    var limit := OrDefault(q.limit, 10);
    var q' := q.(page := Some(page));
    assert OrDefault(q'.page, 1) == page && q'.limit == q.limit && q'.where == q.where;
    var r := GetProducts(c, q');
    assert r.Some?;
    assert r.value.page == page && r.value.limit == limit;
    assert IsPage(r.value.products, Matching(c, q.where), Skip(page, limit), limit);
  }

  /** Every matching product appears on the page its position puts it on. */
  lemma EveryMatchOnItsPage(c: Catalog, q: Query, k: nat)
    requires k < |Matching(c, q.where)|
    requires OrDefault(q.limit, 10) >= 1
    ensures var limit := OrDefault(q.limit, 10);
            var r := GetProducts(c, q.(page := Some(k / limit + 1)));
            r.Some? && k % limit < |r.value.products| && r.value.products[k % limit] == Matching(c, q.where)[k]
  {
    PageOfIndex(k, OrDefault(q.limit, 10));
    PageSlot(c, q, k / OrDefault(q.limit, 10) + 1, k % OrDefault(q.limit, 10));
  }

  /** Index `k` is slot `k % limit` of page `k / limit + 1`. */
  lemma PageOfIndex(k: nat, limit: int)
    requires limit >= 1
    ensures 0 <= k % limit < limit
    ensures (k / limit + 1 - 1) * limit + k % limit == k
  {
    assert k == (k / limit) * limit + k % limit;
  }

  /** A product request body; keys the schema does not know are stripped. */
  datatype ProductBody = ProductBody(name: Field, price: Field, description: Field, stock: Field)

  /** `z.string().optional()`. */
  predicate OptionalString(f: Field) {
    f.None? || IsString(f)
  }

  /** `z.number().int().nonnegative().optional()`. */
  predicate OptionalStock(f: Field) {
    f.None? || (IsNumber(f) && f.value.n >= 0)
  }

  /** `productSchema.partial()`: every field optional, each one present well-typed. */
  predicate PartialValid(b: ProductBody) {
    && OptionalString(b.name)
    && (b.price.None? || IsNumber(b.price))
    && OptionalString(b.description)
    && OptionalStock(b.stock)
  }

  /** `productSchema`: name and price required. */
  predicate CreateValid(b: ProductBody) {
    IsString(b.name) && IsNumber(b.price) && PartialValid(b)
  }

  /** Answers of the by-id handlers and of create, with their statuses. */
  datatype Outcome =
    | InvalidId | InvalidBody | NotFound | Failed
    | Found(item: Listed) | Created(item: Listed) | Updated(item: Listed) | Deleted(item: Listed)
  {
    function Status(): int {
      match this
      case InvalidId => 400
      case InvalidBody => 400
      case NotFound => 404
      case Failed => 500
      case Found(_) => 200
      case Created(_) => 201
      case Updated(_) => 200
      case Deleted(_) => 200
    }
  }

  function OptionalText(f: Field): Option<string> {
    if f.Some? && f.value.JStr? then Some(f.value.s) else None
  }

  function OptionalNumber(f: Field): Option<int> {
    if f.Some? && f.value.JNum? then Some(f.value.n) else None
  }

  /** `createProduct`: a body failing the schema is 400 and creates nothing; otherwise
      the product is appended with a fresh id. */
  function CreateProduct(c: Catalog, b: ProductBody): (r: (Outcome, Catalog))
    ensures !CreateValid(b) ==> r == (InvalidBody, c)
    ensures CreateValid(b) ==>
              && r.0.Created?
              && r.0.item.id == c.nextId < r.1.nextId
              && r.0.item.product.name == b.name.value.s
              && r.0.item.product.price == b.price.value.n
              && r.0.item.product.description == (if b.description.Some? then Some(b.description.value.s) else None)
              && r.0.item.product.stock == (if b.stock.Some? then Some(b.stock.value.n) else None)
              && r.1.items == c.items + [r.0.item]
  {
    if !CreateValid(b) then (InvalidBody, c)
    else
      var p := Product(b.name.value.s, b.price.value.n, OptionalText(b.description), OptionalNumber(b.stock));
      var item := Listed(c.nextId, p);
      (Created(item), Catalog(c.items + [item], c.nextId + 1))
  }

  /** Position of the product with id `id`. */
  function FindProduct(items: seq<Listed>, id: int): (r: Option<nat>)
    ensures r.Some? ==> r.value < |items| && items[r.value].id == id
    ensures r.None? <==> forall j :: 0 <= j < |items| ==> items[j].id != id
  {
    var i := Seqs.FindIndex(items, (l: Listed) => l.id, id);
    if i == -1 then None else Some(i)
  }

  /** `getProductById`: `NaN` is 400, a missing product 404. */
  function GetProductById(c: Catalog, id: RouteId): (r: Outcome)
    ensures id.None? <==> r == InvalidId
    ensures r == NotFound <==> id.Some? && forall j :: 0 <= j < |c.items| ==> c.items[j].id != id.value
    ensures r.Found? ==> id.Some? && r.item in c.items && r.item.id == id.value
    ensures r.InvalidId? || r.NotFound? || r.Found?
  {
    if id.None? then InvalidId
    else match FindProduct(c.items, id.value)
      case None => NotFound
      case Some(i) => Found(c.items[i])
  }

  /** What the table guarantees between requests: distinct ids, all below the counter. */
  predicate CatalogValid(c: Catalog) {
    && (forall i :: 0 <= i < |c.items| ==> c.items[i].id < c.nextId)
    && (forall i, j :: 0 <= i < j < |c.items| ==> c.items[i].id != c.items[j].id)
  }

  /** With distinct ids the product found is the only one carrying that id. */
  lemma FindProductIsUnique(c: Catalog, i: int)
    requires CatalogValid(c)
    requires 0 <= i < |c.items|
    ensures FindProduct(c.items, c.items[i].id) == Some(i)
  {
    assert FindProduct(c.items, c.items[i].id).Some?;
  }

  /** A partial update: each field the body gives replaces the stored one. */
  function Patch(p: Product, b: ProductBody): (r: Product)
    requires PartialValid(b)
    ensures r.name == (if b.name.Some? then b.name.value.s else p.name)
    ensures r.price == (if b.price.Some? then b.price.value.n else p.price)
    ensures r.description == (if b.description.Some? then Some(b.description.value.s) else p.description)
    ensures r.stock == (if b.stock.Some? then Some(b.stock.value.n) else p.stock)
  {
    Product(
      if b.name.Some? then b.name.value.s else p.name,
      if b.price.Some? then b.price.value.n else p.price,
      if b.description.Some? then OptionalText(b.description) else p.description,
      if b.stock.Some? then OptionalNumber(b.stock) else p.stock)
  }

  /** An empty body changes nothing. */
  lemma EmptyPatch(p: Product)
    ensures Patch(p, ProductBody(None, None, None, None)) == p
  {
  }

  /** `updateProduct`: `NaN` is 400, a body failing the partial schema 400, a missing
      product makes the store call throw (500); otherwise the product is patched in place
      and every other product is left alone. */
  function UpdateProduct(c: Catalog, id: RouteId, b: ProductBody): (r: (Outcome, Catalog))
    ensures id.None? ==> r.0 == InvalidId
    ensures id.Some? && !PartialValid(b) ==> r.0 == InvalidBody
    ensures !r.0.Updated? ==> r.1 == c
    ensures r.0 == Failed <==> id.Some? && PartialValid(b) && forall j :: 0 <= j < |c.items| ==> c.items[j].id != id.value
    ensures r.0.Updated? ==>
              && id.Some? && PartialValid(b)
              && r.1.nextId == c.nextId
              && |r.1.items| == |c.items|
              && exists i :: 0 <= i < |c.items|
                   && c.items[i].id == id.value
                   && r.1.items[i] == r.0.item == Listed(id.value, Patch(c.items[i].product, b))
                   && forall j :: 0 <= j < |c.items| && j != i ==> r.1.items[j] == c.items[j]
  {
    if id.None? then (InvalidId, c)
    else if !PartialValid(b) then (InvalidBody, c)
    else match FindProduct(c.items, id.value)
      case None => (Failed, c)
      case Some(i) =>
        var item := Listed(id.value, Patch(c.items[i].product, b));
        (Updated(item), c.(items := c.items[i := item]))
  }

  /** `deleteProduct`: `NaN` is 400, a missing product 500; otherwise that product is
      removed and the others keep their order. */
  function DeleteProduct(c: Catalog, id: RouteId): (r: (Outcome, Catalog))
    ensures id.None? ==> r.0 == InvalidId
    ensures !r.0.Deleted? ==> r.1 == c
    ensures r.0 == Failed <==> id.Some? && forall j :: 0 <= j < |c.items| ==> c.items[j].id != id.value
    ensures r.0.Deleted? ==>
              && id.Some? && r.0.item.id == id.value
              && r.1.nextId == c.nextId
              && exists i :: 0 <= i < |c.items| && c.items[i] == r.0.item
                   && r.1.items == c.items[..i] + c.items[i + 1..]
  {
    if id.None? then (InvalidId, c)
    else match FindProduct(c.items, id.value)
      case None => (Failed, c)
      case Some(i) => (Deleted(c.items[i]), c.(items := c.items[..i] + c.items[i + 1..]))
  }

  /** A created product keeps the table valid and is what a read of its id returns. */
  lemma CreateThenGet(c: Catalog, b: ProductBody)
    requires CatalogValid(c)
    requires CreateValid(b)
    ensures var (r, c') := CreateProduct(c, b);
            CatalogValid(c') && GetProductById(c', Some(r.item.id)) == Found(r.item)
  {
    var (r, c') := CreateProduct(c, b);
    assert c'.items[|c.items|] == r.item;
    assert CatalogValid(c');
    FindProductIsUnique(c', |c.items|);
  }

  /** An updated product keeps the table valid and a read of its id returns the patched
      version. */
  lemma UpdateThenGet(c: Catalog, id: int, b: ProductBody)
    requires CatalogValid(c)
    requires UpdateProduct(c, Some(id), b).0.Updated?
    ensures var (r, c') := UpdateProduct(c, Some(id), b);
            CatalogValid(c') && GetProductById(c', Some(id)) == Found(r.item)
  {
    var (r, c') := UpdateProduct(c, Some(id), b);
    var i :| 0 <= i < |c.items| && c.items[i].id == id && c'.items[i] == r.item
             && forall j :: 0 <= j < |c.items| && j != i ==> c'.items[j] == c.items[j];
    assert forall j :: 0 <= j < |c'.items| ==> c'.items[j].id == c.items[j].id;
    FindProductIsUnique(c', i);
  }

  /** Removing the product at `i` keeps the table valid and drops its id. */
  lemma RemoveAtKeepsValid(c: Catalog, i: int)
    requires CatalogValid(c)
    requires 0 <= i < |c.items|
    ensures var c' := c.(items := c.items[..i] + c.items[i + 1..]);
            CatalogValid(c') && forall j :: 0 <= j < |c'.items| ==> c'.items[j].id != c.items[i].id
  {
    var rest := c.items[..i] + c.items[i + 1..];
    assert forall j :: 0 <= j < |rest| ==> rest[j] == c.items[if j < i then j else j + 1];
  }

  /** A deleted product keeps the table valid and can no longer be read. */
  lemma DeleteThenGone(c: Catalog, id: int)
    requires CatalogValid(c)
    requires DeleteProduct(c, Some(id)).0.Deleted?
    ensures var c' := DeleteProduct(c, Some(id)).1;
            CatalogValid(c') && GetProductById(c', Some(id)) == NotFound
  {
    var (r, c') := DeleteProduct(c, Some(id));
    var i :| 0 <= i < |c.items| && c.items[i] == r.item && c'.items == c.items[..i] + c.items[i + 1..];
    RemoveAtKeepsValid(c, i);
  }
}
