/** The client's view of the data: the product and cart-item records the Redux store
    and the pages hold, and the demonstration catalogue the pages fall back to. */
module Client {
  import Text

  /** A product as the client receives it, without its display-only description; the
      price is in integer cents. */
  datatype Product = Product(id: int, name: string, price: int, stock: int)

  /** A cart item as the cart slice holds it; only its `id` is ever inspected. */
  datatype CartItem = CartItem(id: int, productId: int, quantity: int)

  function ProductId(p: Product): int { p.id }

  function ItemId(x: CartItem): int { x.id }

  /** The twelve demonstration products that client/src/pages/Home.tsx and
      client/src/pages/ProductDetail.tsx both declare, in declaration order, with ids
      1 to 12; the cart page's three are the first three. */
  function Mock(): (r: seq<Product>)
    ensures |r| == 12
    ensures forall i :: 0 <= i < |r| ==> r[i].id == i + 1
  {
    seq(12, i requires 0 <= i < 12 =>
      Product(i + 1, MockNames()[i], MockPrices()[i], MockStocks()[i]))
  }

  function MockNames(): seq<string> {
    [ "Wireless Headphones",
      "Smart Watch",
      "Bluetooth Speaker",
      "Gaming Mouse",
      "4K Monitor",
      "Mechanical Keyboard",
      "Smartphone",
      "Tablet",
      "Fitness Tracker",
      "Drone",
      "VR Headset",
      "Portable SSD" ]
  }

  /** In cents. */
  function MockPrices(): seq<int> {
    [9999, 14999, 5999, 3999, 29999, 8999, 69999, 39999, 4999, 49999, 24999, 12999]
  }

  function MockStocks(): seq<int> {
    [10, 5, 20, 15, 7, 12, 8, 6, 18, 3, 4, 14]
  }

  function Max(a: int, b: int): int { if a >= b then a else b }
  function Min(a: int, b: int): int { if a <= b then a else b }

  /** `Math.max(1, Math.min(stock, n))`, the pages' quantity clamp: never below 1, never
      above a positive stock, and the identity on `[1, stock]`. */
  function Clamp(stock: int, n: int): (q: int)
    ensures q >= 1
    ensures stock >= 1 ==> q <= stock
    ensures 1 <= n <= stock ==> q == n
    ensures stock < 1 ==> q == 1
  {
    Max(1, Min(stock, n))
  }

  const OutOfStock: string := "Out of Stock"

  /** The stock badge of the product cards and the detail page:
      `stock > 0 ? `In Stock: ${stock}` : 'Out of Stock'`. */
  function Badge(stock: int): (b: string)
    ensures stock > 0 <==> b != OutOfStock
    ensures stock > 0 ==> b == "In Stock: " + Text.Decimal(stock)
  {
    if stock > 0 then
      var b := "In Stock: " + Text.Decimal(stock);
      assert b[0] != OutOfStock[0];
      b
    else OutOfStock
  }
}
