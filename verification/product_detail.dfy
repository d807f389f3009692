/** The product page's computations (client/src/pages/ProductDetail.tsx): the fallback
    to the demonstration catalogue when the request fails, and the quantity input. */
module ProductDetail {
  import opened Wrappers
  import opened Client
  import Text
  import Seqs

  /** `String(id)` for an integer id. */
  function IdText(id: int): (s: string)
    ensures |s| >= 1
  {
    if id < 0 then "-" + Text.Decimal(-id) else Text.Decimal(id)
  }

  /** Different ids have different string forms. */
  lemma IdTextInjective(a: int, b: int)
    requires IdText(a) == IdText(b)
    ensures a == b
  {
    IdTextSign(a);
    IdTextSign(b);
    if a < 0 {
      NegativeIdTextInjective(a, b);
    } else {
      Text.DecimalInjective(a, b);
    }
  }

  lemma NegativeIdTextInjective(a: int, b: int)
    requires a < 0 && b < 0
    requires IdText(a) == IdText(b)
    ensures a == b
  {
    Seqs.AppendCancel("-", Text.Decimal(-a), Text.Decimal(-b));
    Text.DecimalInjective(-a, -b);
  }

  /** Only a negative id's string form starts with a minus sign. */
  lemma IdTextSign(id: int)
    ensures IdText(id)[0] == '-' <==> id < 0
  {
    if id >= 0 {
      assert '0' <= Text.Decimal(id)[0];
    }
  }

  /** `p => String(p.id) === route`; an absent route parameter renders as "undefined",
      which no id produces. */
  function HasRoute(route: string): Product -> bool {
    (p: Product) => IdText(p.id) == route
  }

  const NotFound: string := "Product not found."

  /** The outcome of the request for `/api/products/:id`. */
  datatype Response = Fetched(product: Product) | FetchFailed

  /** What the page shows once loading ends. */
  datatype Shown = ShowProduct(product: Product) | ShowError(error: string)

  /** A successful request shows what it returned; a failed one falls back to the
      demonstration product whose id, as a string, is the route id, or to the error. */
  function Load(response: Response, route: string): (v: Shown)
    ensures response.Fetched? ==> v == ShowProduct(response.product)
    ensures response.FetchFailed? && v.ShowProduct? ==> v.product in Mock() && IdText(v.product.id) == route
    ensures response.FetchFailed? && v.ShowError? ==>
              v.error == NotFound && forall i :: 0 <= i < |Mock()| ==> IdText(Mock()[i].id) != route
    ensures response.FetchFailed? ==> (v.ShowError? <==> forall i :: 0 <= i < |Mock()| ==> IdText(Mock()[i].id) != route)
  {
    match response
    case Fetched(p) => ShowProduct(p)
    case FetchFailed =>
      match Seqs.FindFirst(Mock(), HasRoute(route))
      case Some(i) => ShowProduct(Mock()[i])
      case None => ShowError(NotFound)
  }

  /** Each demonstration product is reached through the route of its own id. */
  lemma FallbackFindsMock(i: int)
    requires 0 <= i < |Mock()|
    ensures Load(FetchFailed, IdText(i + 1)) == ShowProduct(Mock()[i])
  {
    var m := Mock();
    assert IdText(m[i].id) == IdText(i + 1);
    var k := Seqs.FindFirst(m, HasRoute(IdText(i + 1))).value;
    IdTextInjective(m[k].id, i + 1);
  }

  /** A route naming any other id, such as 13, ends in the error. */
  lemma FallbackMisses(id: int)
    requires id < 1 || 12 < id
    ensures Load(FetchFailed, IdText(id)) == ShowError(NotFound)
  {
    forall i | 0 <= i < |Mock()|
      ensures IdText(Mock()[i].id) != IdText(id)
    {
      if IdText(Mock()[i].id) == IdText(id) {
        IdTextInjective(Mock()[i].id, id);
      }
    }
  }

  /** The quantity after an edit of the number input: `Number(value)` is `None` when it
      is `NaN`, which survives both `Math.min` and `Math.max`. */
  function QuantityInput(stock: int, n: Option<int>): (q: Option<int>)
    ensures q.None? <==> n.None?
    ensures q.Some? ==> q.value >= 1
    ensures q.Some? && stock >= 1 ==> q.value <= stock
    ensures n.Some? && 1 <= n.value <= stock ==> q == n
  {
    if n.None? then None else Some(Clamp(stock, n.value))
  }

  /** The input and the submit button are disabled exactly at zero stock; the clamp
      then leaves the quantity at 1 whatever is typed. */
  predicate FormDisabled(p: Product) { p.stock == 0 }

  lemma ZeroStockForm(p: Product, n: int)
    requires FormDisabled(p)
    ensures QuantityInput(p.stock, Some(n)) == Some(1)
  {
  }
}
