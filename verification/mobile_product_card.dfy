/** The mobile menu card. Its source repeats the desktop card's handlers
    line for line; here each handler is written out again as the mobile
    card has it and shown to behave as the desktop card's. */
module MobileProductCard {
  import opened Catalog
  import opened CartOps
  import Decimal
  import ProductCard

  function HandleAdd(product: Product, quantity: int): (op: CartOp)
    ensures op == ProductCard.HandleAdd(product, quantity)
  {
    if quantity == 0 then AddItem(product) else IncrementQty(product.id)
  }

  function HandleMinus(product: Product): (op: CartOp)
    ensures op == ProductCard.HandleMinus(product)
  {
    DecrementQty(product.id)
  }

  function PriceLabel(product: Product): (s: string)
    ensures s == ProductCard.PriceLabel(product)
  {
    "$" + Decimal.FormatCents(product.priceCents)
  }
}
