/** The `/api/products` route: GET lists products, optionally filtered by
    category slug, normalising each database row; POST validates a new
    product's fields in a fixed order, applies defaults and inserts it.
    The database, `JSON.parse` and the thrown errors' messages are parameters. */
module ProductsApi {
  import opened Values
  import opened Catalog
  import JsText

  // ---------------------------------------------------------------------------
  // GET: the query

  const BaseQuery: string :=
    "\n      SELECT\n        p.id, p.name, p.description, p.price, p.category_id,\n        p.image_url, p.image_data, p.in_stock, p.created_at, p.updated_at,\n        c.slug as category_slug, c.name as category_name,\n        c.badge_bg, c.badge_text\n      FROM products p\n      JOIN categories c ON p.category_id = c.id\n    "
  const CategoryFilter: string := " WHERE c.slug = ?"
  const OrderClause: string := " ORDER BY p.created_at DESC"

  /** A parameterised statement: SQL text and the values bound to its `?` placeholders. */
  datatype Query = Query(sql: string, params: seq<string>)

  /** Whether the GET request filters by category: the `category` parameter
      is present, non-empty and not the synthetic "all" slug. */
  predicate Filters(category: Option<string>) {
    PresentText(category) && category.value != AllSlug
  }

  /** The listing query: the filter clause, whose one placeholder is bound
      to the slug, is added together with that single value or not at all;
      newest products first in every case. */
  function BuildQuery(category: Option<string>): (q: Query)
    ensures Filters(category) <==> |q.params| == 1
    ensures Filters(category) ==> q.params == [category.value]
    ensures !Filters(category) ==> q.params == []
    ensures |OrderClause| <= |q.sql| && q.sql[|q.sql| - |OrderClause|..] == OrderClause
    ensures q.sql == BaseQuery + (if |q.params| == 1 then CategoryFilter else "") + OrderClause
  {
    var filters := category.Some? && category.value != "" && category.value != AllSlug;
    var clause := if filters then CategoryFilter else "";
    Query(BaseQuery + clause + OrderClause, if filters then [category.value] else [])
  }

  /** `searchParams.get("category")` on the two URL shapes the admin page
      requests: the bare path, or the path with one `category` parameter
      whose value needs no decoding. */
  function CategoryParam(url: string): Option<string> {
    var prefix := "/api/products?category=";
    if |prefix| <= |url| && url[..|prefix|] == prefix then Some(url[|prefix|..]) else None
  }

  // ---------------------------------------------------------------------------
  // GET: row normalisation

  /** The `image_data` column as the driver hands it over: SQL NULL, text
      still to be parsed, or an already-parsed object. */
  datatype RawImageData = NullData | TextData(text: string) | ObjectData(data: ImageData)

  /** A row of the listing query; `inStock` is the TINYINT column. */
  datatype ProductRow = ProductRow(
    id: int, name: string, description: string, priceCents: int, categoryId: int,
    imageUrl: Option<string>, imageData: RawImageData, inStock: int,
    createdAt: int, updatedAt: int,
    categorySlug: string, categoryName: string, badgeBg: string, badgeText: string)

  /** A row as the route returns it: image data parsed or null, stock a boolean. */
  datatype ProductJson = ProductJson(
    id: int, name: string, description: string, priceCents: int, categoryId: int,
    imageUrl: Option<string>, imageData: Option<ImageData>, inStock: bool,
    createdAt: int, updatedAt: int,
    categorySlug: string, categoryName: string, badgeBg: string, badgeText: string)

  /** The parser of stored image data; Err where `JSON.parse` throws. */
  type JsonParser = string -> Result<ImageData, string>

  /** Whether a row's image data is text the parser rejects (the only way
      normalisation throws). */
  predicate ParseFails(raw: RawImageData, parse: JsonParser) {
    raw.TextData? && raw.text != "" && parse(raw.text).Err?
  }

  /** The image-data rule: non-empty text is parsed, an object is kept, and a
      falsy value (NULL or empty text) becomes null. */
  function NormaliseImageData(raw: RawImageData, parse: JsonParser): (r: Option<ImageData>)
    requires !ParseFails(raw, parse)
    ensures raw.NullData? ==> r == None
    ensures raw.TextData? && raw.text == "" ==> r == None
    ensures raw.TextData? && raw.text != "" ==> r == Some(parse(raw.text).value)
    ensures raw.ObjectData? ==> r == Some(raw.data)
  {
    match raw
    case NullData => None
    case TextData(t) => if t == "" then None else Some(parse(t).value)
    case ObjectData(d) => Some(d)
  }

  /** One row: every column passes through, except that image data is
      normalised and stock becomes `Boolean(in_stock)`. */
  function NormaliseRow(row: ProductRow, parse: JsonParser): (r: Option<ProductJson>)
    ensures r.None? <==> ParseFails(row.imageData, parse)
    ensures r.Some? ==>
      && r.value.imageData == NormaliseImageData(row.imageData, parse)
      && r.value.inStock == (row.inStock != 0)
      && r.value.(imageData := None, inStock := false)
         == ProductJson(row.id, row.name, row.description, row.priceCents, row.categoryId,
                        row.imageUrl, None, false, row.createdAt, row.updatedAt,
                        row.categorySlug, row.categoryName, row.badgeBg, row.badgeText)
  {
    if ParseFails(row.imageData, parse) then None
    else Some(ProductJson(row.id, row.name, row.description, row.priceCents, row.categoryId,
                          row.imageUrl, NormaliseImageData(row.imageData, parse), row.inStock != 0,
                          row.createdAt, row.updatedAt,
                          row.categorySlug, row.categoryName, row.badgeBg, row.badgeText))
  }

  /** All rows, in database order; fails as a whole if any row fails. */
  function NormaliseRows(rows: seq<ProductRow>, parse: JsonParser): (r: Option<seq<ProductJson>>)
    ensures r.None? <==> exists i :: 0 <= i < |rows| && ParseFails(rows[i].imageData, parse)
    ensures r.Some? ==> (|r.value| == |rows|
      && forall i :: 0 <= i < |rows| ==> NormaliseRow(rows[i], parse) == Some(r.value[i]))
  {
    if rows == [] then Some([])
    else
      var tail := NormaliseRows(rows[1..], parse);
      assert forall i :: 1 <= i < |rows| ==> rows[i] == rows[1..][i - 1];
      match NormaliseRow(rows[0], parse)
      case None => None
      case Some(p) =>
        match tail
        case None => None
        case Some(ps) => Some([p] + ps)
  }

  /** The response of GET: the normalised products, or a 500 error. */
  datatype ListResponse = Listed(products: seq<ProductJson>) | ListFailed(status: int, error: string)

  /** `GET /api/products?category=…`. `run` executes a query against the
      database (None when it throws). */
  function Get(category: Option<string>, run: Query -> Option<seq<ProductRow>>, parse: JsonParser): (r: ListResponse)
    ensures r.ListFailed? ==> r == ListFailed(500, "Error fetching products")
    ensures r.Listed? <==>
      && run(BuildQuery(category)).Some?
      && NormaliseRows(run(BuildQuery(category)).value, parse).Some?
    ensures r.Listed? ==> Some(r.products) == NormaliseRows(run(BuildQuery(category)).value, parse)
  {
    match run(BuildQuery(category))
    case None => ListFailed(500, "Error fetching products")
    case Some(rows) =>
      match NormaliseRows(rows, parse)
      case None => ListFailed(500, "Error fetching products")
      case Some(ps) => Listed(ps)
  }

  // ---------------------------------------------------------------------------
  // POST

  /** The `price` member of the request body. */
  datatype PriceField = PriceMissing | PriceNull | PriceNumber(cents: int) | PriceNaN

  /** The request body; absent and null members are None. */
  datatype PostBody = PostBody(
    name: Option<string>,
    description: Option<string>,
    price: PriceField,
    categoryId: Option<int>,
    imageUrl: Option<string>,
    imageData: Option<ImageData>,
    inStock: Option<bool>)

  /** The seven values bound to the INSERT statement. */
  datatype InsertValues = InsertValues(
    name: string,
    description: string,
    priceCents: int,
    categoryId: int,
    imageUrl: Option<string>,
    imageData: Option<ImageData>,
    inStock: bool)

  datatype Rejection = Rejection(status: int, error: string)

  const NameRequired: string := "El nombre del producto es requerido"
  const PriceRequired: string := "El precio es requerido y debe ser un n\U{FA}mero v\U{E1}lido"
  const CategoryRequired: string := "La categor\U{ED}a es requerida"

  predicate NameValid(b: PostBody) {
    b.name.Some? && JsText.Trim(b.name.value) != ""
  }

  predicate PriceValid(b: PostBody) {
    b.price.PriceNumber?
  }

  predicate CategoryValid(b: PostBody) {
    b.categoryId.Some? && b.categoryId.value != 0
  }

  /** The checks in their fixed order: the first that fails decides the
      400 answer; when all pass, the insert values get their defaults
      (trimmed name, empty description, null image URL, in stock unless
      explicitly false). */
  function Validate(b: PostBody): (r: Result<InsertValues, Rejection>)
    ensures r.Ok? <==> NameValid(b) && PriceValid(b) && CategoryValid(b)
    ensures !NameValid(b) ==> r == Err(Rejection(400, NameRequired))
    ensures NameValid(b) && !PriceValid(b) ==> r == Err(Rejection(400, PriceRequired))
    ensures NameValid(b) && PriceValid(b) && !CategoryValid(b) ==> r == Err(Rejection(400, CategoryRequired))
    ensures r.Ok? ==>
      && r.value.name == JsText.Trim(b.name.value)
      && r.value.description == TextOr(b.description, "")
      && r.value.priceCents == b.price.cents
      && r.value.categoryId == b.categoryId.value
      && r.value.imageUrl == TextOrNull(b.imageUrl)
      && r.value.imageData == b.imageData
      && r.value.inStock == (b.inStock != Some(false))
  {
    if b.name.None? || JsText.Trim(b.name.value) == "" then Err(Rejection(400, NameRequired))
    else if !b.price.PriceNumber? then Err(Rejection(400, PriceRequired))
    else if b.categoryId.None? || b.categoryId.value == 0 then Err(Rejection(400, CategoryRequired))
    else
      Ok(InsertValues(
        JsText.Trim(b.name.value),
        TextOr(b.description, ""),
        b.price.cents,
        b.categoryId.value,
        TextOrNull(b.imageUrl),
        b.imageData,
        match b.inStock case Some(false) => false case _ => true))
  }

  /** An inserted product is never nameless: its stored name is non-empty
      and carries no surrounding white space. */
  lemma InsertedNameIsTrimmed(b: PostBody)
    requires Validate(b).Ok?
    ensures var n := Validate(b).value.name;
      n != "" && !JsText.IsWhitespace(n[0]) && !JsText.IsWhitespace(n[|n| - 1])
      && JsText.Trim(n) == n
  {
  }

  /** A name of white space only is refused first, whatever else is wrong. */
  lemma BlankNameRejectedFirst(b: PostBody)
    requires b.name.Some? && JsText.AllWhitespace(b.name.value)
    ensures Validate(b) == Err(Rejection(400, NameRequired))
  {
  }

  /** The start of every message a failed insert answers with. */
  const CreateFailed: string := "Error al crear producto: "

  datatype PostResponse = Created(status: int, product: ProductJson) | PostFailed(status: int, error: string)

  /** `POST /api/products`. `insert` runs the INSERT and reads the new row
      back (Err with the thrown message when either fails). */
  function Post(b: PostBody, insert: InsertValues -> Result<ProductRow, string>, parse: JsonParser): (r: PostResponse)
    ensures r.status == 400 <==> Validate(b).Err?
    ensures Validate(b).Err? ==> r == PostFailed(400, Validate(b).error.error)
    ensures r.Created? <==>
      && Validate(b).Ok?
      && insert(Validate(b).value).Ok?
      && NormaliseRow(insert(Validate(b).value).value, parse).Some?
    ensures r.Created? ==> (r.status == 201
      && Some(r.product) == NormaliseRow(insert(Validate(b).value).value, parse))
    ensures r.status in {201, 400, 500}
    ensures r.PostFailed? && Validate(b).Ok? ==>
      r.status == 500 && |CreateFailed| <= |r.error| && r.error[..|CreateFailed|] == CreateFailed
    ensures Validate(b).Ok? && insert(Validate(b).value).Err? ==>
      r == PostFailed(500, CreateFailed + insert(Validate(b).value).error)
  {
    match Validate(b)
    case Err(rejection) => PostFailed(rejection.status, rejection.error)
    case Ok(values) =>
      match insert(values)
      case Err(message) => PostFailed(500, CreateFailed + message)
      case Ok(row) =>
        match NormaliseRow(row, parse)
        case Some(p) => Created(201, p)
        case None =>
          var e := CreateFailed + parse(row.imageData.text).error;
          assert e[..|CreateFailed|] == CreateFailed;
          PostFailed(500, e)
  }
}
