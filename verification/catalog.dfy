/** The records exchanged between the menu pages, the admin panel and the
    API routes. Prices are held as integer cents. */
module Catalog {
  import opened Values

  /** The transform parameters stored with a product image; each may be missing. */
  datatype ImageData = ImageData(zoom: Option<int>, rotation: Option<int>, flipH: Option<bool>)

  /** A product as the public menu and the cart see it. */
  datatype Product = Product(
    id: int,
    name: string,
    description: string,
    priceCents: int,
    categoryId: int,
    categorySlug: string,
    categoryName: string,
    imageUrl: Option<string>,
    inStock: bool)

  /** A product as the admin panel edits it. */
  datatype AdminProduct = AdminProduct(
    id: int,
    name: string,
    description: string,
    priceCents: int,
    categoryId: int,
    categorySlug: string,
    categoryName: string,
    badgeBg: string,
    badgeText: string,
    imageUrl: Option<string>,
    imageData: Option<ImageData>,
    inStock: bool)

  /** A category with the number of products filed under it. */
  datatype AdminCategory = AdminCategory(
    id: int,
    name: string,
    slug: string,
    badgeBg: string,
    badgeText: string,
    productCount: int)

  /** The slug of the synthetic category that stands for "every product". */
  const AllSlug: string := "todos"
}
