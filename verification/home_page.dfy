/** The catalogue page's pipeline (client/src/pages/Home.tsx): which product list it
    shows, the name search, the sort, and each card's badge and button. */
module HomePage {
  import opened Client
  import Text
  import Seqs
  import StableSort

  /** What the products request produced: a network or parse failure, a JSON value that
      is not an array, or an array of products. */
  datatype Fetched = Failed | NotAnArray | AnArray(items: seq<Product>)

  /** `Array.isArray(data) && data.length > 0 ? data : mockProducts`, with the mock list
      also on failure. */
  function ChooseProducts(f: Fetched): (r: seq<Product>)
    ensures f.AnArray? && |f.items| > 0 ==> r == f.items
    ensures !(f.AnArray? && |f.items| > 0) ==> r == Mock()
    ensures |r| > 0
  {
    if f.AnArray? && |f.items| > 0 then f.items else Mock()
  }

  function NameMatches(search: string): Product -> bool {
    (p: Product) => Text.ContainsInsensitive(p.name, search)
  }

  /** The comparator chosen by the sort control, as the key it subtracts:
      `a.price - b.price`, `b.price - a.price`, `b.stock - a.stock`, or 0. */
  function SortKey(sort: string): Product -> int {
    if sort == "price-asc" then (p: Product) => p.price
    else if sort == "price-desc" then (p: Product) => -p.price
    else if sort == "stock" then (p: Product) => -p.stock
    else (p: Product) => 0
  }

  /** The `filtered` list of the page. */
  function Displayed(products: seq<Product>, search: string, sort: string): (r: seq<Product>)
    ensures multiset(r) == multiset(Seqs.Filter(products, NameMatches(search)))
    ensures forall i :: 0 <= i < |r| ==> Text.ContainsInsensitive(r[i].name, search)
  {
    var r := StableSort.Sort(Seqs.Filter(products, NameMatches(search)), SortKey(sort));
    assert forall i :: 0 <= i < |r| ==> r[i] in multiset(r);
    r
  }

  /** A product is shown exactly when it is in the list and its lower-cased name
      contains the lower-cased search. */
  lemma ShownIff(products: seq<Product>, search: string, sort: string, p: Product)
    ensures p in Displayed(products, search, sort) <==>
              p in products && Text.Contains(Text.Lower(p.name), Text.Lower(search))
  {
    var f := Seqs.Filter(products, NameMatches(search));
    assert p in Displayed(products, search, sort) <==> p in multiset(f);
  }

  /** An empty search shows every product. */
  lemma EmptySearchKeepsAll(products: seq<Product>, sort: string)
    ensures multiset(Displayed(products, "", sort)) == multiset(products)
  {
    forall i | 0 <= i < |products|
      ensures NameMatches("")(products[i])
    {
      Text.ContainsEmpty(Text.Lower(products[i].name));
    }
    Seqs.FilterKeepsAll(products, NameMatches(""));
  }

  /** Each of the three sort choices orders the list as its label says. */
  lemma SortOrders(products: seq<Product>, search: string)
    ensures var r := Displayed(products, search, "price-asc");
            forall i, j :: 0 <= i < j < |r| ==> r[i].price <= r[j].price
    ensures var r := Displayed(products, search, "price-desc");
            forall i, j :: 0 <= i < j < |r| ==> r[i].price >= r[j].price
    ensures var r := Displayed(products, search, "stock");
            forall i, j :: 0 <= i < j < |r| ==> r[i].stock >= r[j].stock
  {
    var f := Seqs.Filter(products, NameMatches(search));
    assert StableSort.SortedBy(StableSort.Sort(f, SortKey("price-asc")), SortKey("price-asc"));
    assert StableSort.SortedBy(StableSort.Sort(f, SortKey("price-desc")), SortKey("price-desc"));
    assert StableSort.SortedBy(StableSort.Sort(f, SortKey("stock")), SortKey("stock"));
  }

  /** Any other sort choice compares everything as equal, so the search result is
      shown in its fetched order. */
  lemma OtherSortKeepsOrder(products: seq<Product>, search: string, sort: string)
    requires sort != "price-asc" && sort != "price-desc" && sort != "stock"
    ensures Displayed(products, search, sort) == Seqs.Filter(products, NameMatches(search))
  {
    StableSort.SortByConstant(Seqs.Filter(products, NameMatches(search)), SortKey(sort), 0);
  }

  /** Products that tie under the chosen sort keep their fetched order. */
  lemma TiesKeepOrder(products: seq<Product>, search: string, sort: string, k: int)
    ensures Seqs.Filter(Displayed(products, search, sort), StableSort.KeyIs(SortKey(sort), k))
              == Seqs.Filter(Seqs.Filter(products, NameMatches(search)), StableSort.KeyIs(SortKey(sort), k))
  {
    StableSort.SortIsStable(Seqs.Filter(products, NameMatches(search)), SortKey(sort), k);
  }

  /** A card: its stock badge, and whether its Add to Cart button is disabled. */
  datatype Card = Card(badge: string, disabled: bool)

  function CardOf(p: Product): (c: Card)
    ensures c.badge != OutOfStock <==> p.stock > 0
    ensures c.disabled <==> p.stock == 0
  {
    Card(Badge(p.stock), p.stock == 0)
  }

  /** A negative stock shows "Out of Stock" yet leaves the button enabled, because the
      badge tests `stock > 0` and the button `stock === 0`. */
  lemma NegativeStockCard(p: Product)
    requires p.stock < 0
    ensures CardOf(p).badge == OutOfStock && !CardOf(p).disabled
  {
  }
}
