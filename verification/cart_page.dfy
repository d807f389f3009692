/** The cart page's local computations (client/src/pages/Cart.tsx): the quantity
    stepper, removal by position, the subtotal and the empty state. */
module CartPage {
  import opened Client

  /** One line of the page's local cart: a product and a quantity. */
  datatype Line = Line(product: Product, quantity: int)

  /** The page's initial cart: two of the first demonstration product, one of the second. */
  function InitialCart(): seq<Line> {
    [Line(Mock()[0], 2), Line(Mock()[1], 1)]
  }

  /** `handleQty(idx, delta)`: the line at `idx` gets the clamp of its quantity plus `delta`; every other
      line, and the length, stay as they were. */
  function HandleQty(cart: seq<Line>, idx: int, delta: int): (r: seq<Line>)
    ensures |r| == |cart|
    ensures forall i :: 0 <= i < |cart| && i != idx ==> r[i] == cart[i]
    ensures 0 <= idx < |cart| ==>
              r[idx].product == cart[idx].product
              && r[idx].quantity == Clamp(cart[idx].product.stock, cart[idx].quantity + delta)
  {
    seq(|cart|, i requires 0 <= i < |cart| =>
      if i == idx then cart[i].(quantity := Clamp(cart[i].product.stock, cart[i].quantity + delta)) else cart[i])
  }

  /** The `-` button is disabled at quantity 1 or below, the `+` button at the stock or above. */
  predicate MinusDisabled(l: Line) { l.quantity <= 1 }
  predicate PlusDisabled(l: Line) { l.quantity >= l.product.stock }

  /** Stepping past either bound changes nothing, so the disabled buttons would be no-ops. */
  lemma StepPastBound(cart: seq<Line>, idx: int)
    requires 0 <= idx < |cart|
    requires 1 <= cart[idx].quantity <= cart[idx].product.stock
    ensures MinusDisabled(cart[idx]) ==> HandleQty(cart, idx, -1) == cart
    ensures PlusDisabled(cart[idx]) ==> HandleQty(cart, idx, 1) == cart
  {
    var l := cart[idx];
    if MinusDisabled(l) {
      assert HandleQty(cart, idx, -1)[idx] == l;
    }
    if PlusDisabled(l) {
      assert HandleQty(cart, idx, 1)[idx] == l;
    }
  }

  /** With stock at least 1, every quantity the stepper produces lies in `[1, stock]`,
      and an enabled button moves the quantity by exactly one. */
  lemma StepBounds(cart: seq<Line>, idx: int, delta: int)
    requires 0 <= idx < |cart|
    requires cart[idx].product.stock >= 1
    ensures 1 <= HandleQty(cart, idx, delta)[idx].quantity <= cart[idx].product.stock
    ensures 1 <= cart[idx].quantity && !MinusDisabled(cart[idx]) && cart[idx].quantity <= cart[idx].product.stock ==>
              HandleQty(cart, idx, -1)[idx].quantity == cart[idx].quantity - 1
    ensures 1 <= cart[idx].quantity && !PlusDisabled(cart[idx]) ==>
              HandleQty(cart, idx, 1)[idx].quantity == cart[idx].quantity + 1
  {
  }

  /** `handleRemove(idx)`: `cart.filter((_, i) => i !== idx)`. */
  function HandleRemove(cart: seq<Line>, idx: int): (r: seq<Line>)
    ensures 0 <= idx < |cart| ==> |r| == |cart| - 1
    ensures !(0 <= idx < |cart|) ==> r == cart
    ensures forall i :: 0 <= i < |r| ==> r[i] == (if i < idx || idx < 0 then cart[i] else cart[i + 1])
  {
    if 0 <= idx < |cart| then cart[..idx] + cart[idx + 1..] else cart
  }

  /** One line's contribution, in cents. */
  function LineTotal(l: Line): int { l.product.price * l.quantity }

  /** `cart.reduce((sum, item) => sum + price * quantity, 0)`. */
  function Subtotal(cart: seq<Line>): (t: int)
    ensures |cart| == 0 ==> t == 0
  {
    if |cart| == 0 then 0 else Subtotal(cart[..|cart| - 1]) + LineTotal(cart[|cart| - 1])
  }

  /** The subtotal of two carts laid end to end is the sum of their subtotals. */
  lemma {:induction false} SubtotalAppend(a: seq<Line>, b: seq<Line>)
    ensures Subtotal(a + b) == Subtotal(a) + Subtotal(b)
    decreases |b|
  {
    if |b| > 0 {
      var b' := b[..|b| - 1];
      assert (a + b)[..|a + b| - 1] == a + b';
      assert (a + b)[|a + b| - 1] == b[|b| - 1];
      SubtotalAppend(a, b');
    } else {
      assert a + b == a;
    }
  }

  lemma SplitAt(cart: seq<Line>, idx: int)
    requires 0 <= idx < |cart|
    ensures cart == cart[..idx] + [cart[idx]] + cart[idx + 1..]
  {
  }

  /** Removing a line takes exactly its line total off the subtotal. */
  lemma SubtotalAfterRemove(cart: seq<Line>, idx: int)
    requires 0 <= idx < |cart|
    ensures Subtotal(HandleRemove(cart, idx)) == Subtotal(cart) - LineTotal(cart[idx])
  {
    var pre, post := cart[..idx], cart[idx + 1..];
    SplitAt(cart, idx);
    SubtotalAppend(pre + [cart[idx]], post);
    SubtotalAppend(pre, [cart[idx]]);
    SubtotalAppend(pre, post);
    assert [cart[idx]][..0] == [];
  }

  /** Overwriting one line changes the subtotal by exactly that line's change. */
  lemma SubtotalReplace(cart: seq<Line>, idx: int, l: Line)
    requires 0 <= idx < |cart|
    ensures Subtotal(cart[idx := l]) == Subtotal(cart) - LineTotal(cart[idx]) + LineTotal(l)
  {
    var pre, post := cart[..idx], cart[idx + 1..];
    SplitAt(cart, idx);
    SplitAt(cart[idx := l], idx);
    assert cart[idx := l][..idx] == pre && cart[idx := l][idx + 1..] == post;
    SubtotalAppend(pre + [cart[idx]], post);
    SubtotalAppend(pre, [cart[idx]]);
    SubtotalAppend(pre + [l], post);
    SubtotalAppend(pre, [l]);
    assert [cart[idx]][..0] == [] && [l][..0] == [];
  }

  /** Stepping a quantity changes the subtotal by that line's change alone. */
  lemma SubtotalAfterStep(cart: seq<Line>, idx: int, delta: int)
    requires 0 <= idx < |cart|
    ensures Subtotal(HandleQty(cart, idx, delta)) ==
              Subtotal(cart) - LineTotal(cart[idx]) + LineTotal(HandleQty(cart, idx, delta)[idx])
  {
    var r := HandleQty(cart, idx, delta);
    assert r == cart[idx := r[idx]];
    SubtotalReplace(cart, idx, r[idx]);
  }

  /** What the page renders: the empty state, or the lines with their subtotal. */
  datatype View = EmptyState | Lines(lines: seq<Line>, subtotal: int)

  function Render(cart: seq<Line>): (v: View)
    ensures v.EmptyState? <==> |cart| == 0
    ensures v.Lines? ==> v.lines == cart && v.subtotal == Subtotal(cart)
  {
    if |cart| == 0 then EmptyState else Lines(cart, Subtotal(cart))
  }

  /** The initial cart's subtotal: 2 × $99.99 + $149.99. */
  lemma InitialSubtotal()
    ensures Subtotal(InitialCart()) == 34997
  {
    var c := InitialCart();
    assert MockPrices()[0] == 9999 && MockPrices()[1] == 14999;
    assert c[..1][..0] == [];
  }
}
