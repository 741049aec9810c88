/** The cart operations a menu card can request. The cart store that
    performs them is not part of this model; a card is described by the
    operations it emits. */
module CartOps {
  import opened Catalog

  datatype CartOp = AddItem(product: Product) | IncrementQty(id: int) | DecrementQty(id: int)

  /** The id of the product an operation is about. */
  function Target(op: CartOp): int {
    match op
    case AddItem(p) => p.id
    case IncrementQty(id) => id
    case DecrementQty(id) => id
  }

  /** The card's two buttons. */
  datatype Press = Plus | Minus
}
