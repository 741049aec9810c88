/** The `GET /api/categories` route: the category rows with their product
    counts, preceded by a synthetic "Todos" entry that carries the total
    number of products. Running the two queries is a parameter. */
module CategoriesApi {
  import opened Values
  import opened Catalog

  /** A row of the grouped category query, its count already a number. */
  datatype CategoryRow = CategoryRow(
    id: int,
    name: string,
    slug: string,
    badgeBg: string,
    badgeText: string,
    productCount: int)

  /** The synthetic first entry standing for every product. */
  function AllEntry(total: int): (c: AdminCategory)
    ensures c.slug == AllSlug && c.productCount == total
  {
    AdminCategory(0, "Todos", AllSlug, "#F6F7F8", "#1A1A1A", total)
  }

  function FromRow(row: CategoryRow): (c: AdminCategory)
    ensures c.id == row.id && c.name == row.name && c.slug == row.slug
    ensures c.badgeBg == row.badgeBg && c.badgeText == row.badgeText
    ensures c.productCount == row.productCount
  {
    AdminCategory(row.id, row.name, row.slug, row.badgeBg, row.badgeText, row.productCount)
  }

  function FromRows(rows: seq<CategoryRow>): (cs: seq<AdminCategory>)
    ensures |cs| == |rows|
    ensures forall i :: 0 <= i < |rows| ==> cs[i] == FromRow(rows[i])
  {
    if rows == [] then [] else [FromRow(rows[0])] + FromRows(rows[1..])
  }

  /** The answer: "Todos" with the total first, then every row in query
      order, unchanged but for the count. */
  function ListCategories(rows: seq<CategoryRow>, total: int): (cs: seq<AdminCategory>)
    ensures |cs| == |rows| + 1
    ensures cs[0] == AllEntry(total)
    ensures cs[1..] == FromRows(rows)
  {
    [AllEntry(total)] + FromRows(rows)
  }

  datatype CategoriesResponse =
    | Categories(categories: seq<AdminCategory>)
    | CategoriesFailed(status: int, error: string)

  /** `GET /api/categories`. `rows` and `total` are the results of the two
      queries (None when the query throws). */
  function Get(rows: Option<seq<CategoryRow>>, total: Option<int>): (r: CategoriesResponse)
    ensures r.Categories? <==> rows.Some? && total.Some?
    ensures r.Categories? ==> r.categories == ListCategories(rows.value, total.value)
    ensures r.CategoriesFailed? ==> r == CategoriesFailed(500, "Error fetching categories")
  {
    match (rows, total)
    case (Some(rs), Some(t)) => Categories(ListCategories(rs, t))
    case _ => CategoriesFailed(500, "Error fetching categories")
  }
}
