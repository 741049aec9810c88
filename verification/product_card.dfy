/** The desktop menu card: shows a product's price and the quantity the cart
    holds for it, and turns its -/+ buttons into cart operations. */
module ProductCard {
  import opened Values
  import opened Catalog
  import opened CartOps
  import Decimal

  /** The + button: a product not yet in the cart is added whole, one
      already there has its quantity raised. */
  function HandleAdd(product: Product, quantity: int): (op: CartOp)
    ensures Target(op) == product.id
    ensures op.AddItem? <==> quantity == 0
    ensures op.AddItem? ==> op.product == product
    ensures !op.DecrementQty?
  {
    if quantity == 0 then AddItem(product) else IncrementQty(product.id)
  }

  /** The - button always asks the cart to lower this product's quantity. */
  function HandleMinus(product: Product): (op: CartOp)
    ensures op.DecrementQty? && Target(op) == product.id
  {
    DecrementQty(product.id)
  }

  /** The operation a press emits, given the quantity shown at that moment. */
  function OnPress(product: Product, quantity: int, press: Press): (op: CartOp)
    ensures Target(op) == product.id
    ensures op.DecrementQty? <==> press == Minus
    ensures op.AddItem? <==> press == Plus && quantity == 0
  {
    match press
    case Plus => HandleAdd(product, quantity)
    case Minus => HandleMinus(product)
  }

  /** The price label: a dollar sign and the price with two decimals. */
  function PriceLabel(product: Product): (s: string)
    ensures |s| >= 5 && s[0] == '$'
    ensures Decimal.ParseCents(s[1..]) == Some(product.priceCents)
  {
    Decimal.CentsRoundTrip(product.priceCents);
    var s := "$" + Decimal.FormatCents(product.priceCents);
    assert s[1..] == Decimal.FormatCents(product.priceCents);
    s
  }

  /** The operations a run of presses emits, `quantities[i]` being the
      quantity the card shows when press i happens. */
  method PressAll(product: Product, presses: seq<Press>, quantities: seq<int>) returns (trace: seq<CartOp>)
    requires |quantities| == |presses|
    ensures |trace| == |presses|
    ensures forall i :: 0 <= i < |trace| ==> Target(trace[i]) == product.id
    ensures forall i :: 0 <= i < |trace| ==> (trace[i].AddItem? <==> presses[i] == Plus && quantities[i] == 0)
    ensures forall i :: 0 <= i < |trace| ==> (trace[i].DecrementQty? <==> presses[i] == Minus)
  {
    trace := [];
    var i := 0;
    while i < |presses|
      invariant 0 <= i <= |presses|
      invariant |trace| == i
      invariant forall k :: 0 <= k < i ==> trace[k] == OnPress(product, quantities[k], presses[k])
    {
      trace := trace + [OnPress(product, quantities[i], presses[i])];
      i := i + 1;
    }
  }
}
