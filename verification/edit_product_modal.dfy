/** The product form of the admin panel: it is filled from the product being
    edited, and on save it writes the form back over that product, looking
    the chosen category up by id. Prices are integer cents; the `parseFloat`
    of the price field is a parameter. */
module EditProductModal {
  import opened Values
  import opened Catalog
  import Decimal

  /** The form fields; the price is the text typed in its input. */
  datatype Form = Form(name: string, description: string, priceText: string, categoryId: int, inStock: bool)

  /** The fields before any product has been loaded. */
  const InitialForm: Form := Form("", "", "", 1, true)

  const FallbackSlug: string := "pizzas"
  const FallbackName: string := "Pizzas"
  const Unselected: string := "Seleccionar"

  /** The effect run when the product changes: a product fills every field
      (the price as `price.toString()`); null leaves the form as it was. */
  function LoadProduct(product: Option<AdminProduct>, f: Form): (r: Form)
    ensures product.None? ==> r == f
    ensures product.Some? ==>
      && r.name == product.value.name
      && r.description == product.value.description
      && Decimal.ParseNumber(r.priceText) == Some(product.value.priceCents)
      && r.categoryId == product.value.categoryId
      && r.inStock == product.value.inStock
  {
    match product
    case None => f
    case Some(p) =>
      Decimal.NumberRoundTrip(p.priceCents);
      Form(p.name, p.description, Decimal.NumberText(p.priceCents), p.categoryId, p.inStock)
  }

  /** The dialog renders only while open and given a product. */
  predicate Visible(isOpen: bool, product: Option<AdminProduct>) {
    isOpen && product.Some?
  }

  /** `categories.find(c => c.id === id)`: the first category with that id. */
  function FindCategory(categories: seq<AdminCategory>, id: int): (r: Option<AdminCategory>)
    ensures r.None? <==> forall i :: 0 <= i < |categories| ==> categories[i].id != id
    ensures r.Some? ==> exists i :: 0 <= i < |categories| && categories[i] == r.value
                          && r.value.id == id
                          && forall k :: 0 <= k < i ==> categories[k].id != id
  {
    if categories == [] then None
    else if categories[0].id == id then Some(categories[0])
    else
      var r := FindCategory(categories[1..], id);
      if r.Some? then
        var i :| 0 <= i < |categories[1..]| && categories[1..][i] == r.value && r.value.id == id
                 && forall k :: 0 <= k < i ==> categories[1..][k].id != id;
        assert categories[i + 1] == r.value;
        r
      else r
  }

  /** The slug written back: the chosen category's, unless it is missing or empty. */
  function SelectedSlug(categories: seq<AdminCategory>, id: int): string {
    var c := FindCategory(categories, id);
    if c.Some? && c.value.slug != "" then c.value.slug else FallbackSlug
  }

  /** The category name written back, with the same fallback rule. */
  function SelectedName(categories: seq<AdminCategory>, id: int): string {
    var c := FindCategory(categories, id);
    if c.Some? && c.value.name != "" then c.value.name else FallbackName
  }

  /** What the save button hands to the page: the product with the seven
      form-backed fields replaced and everything else kept. `parsedPrice` is
      `parseFloat` of the price text, in cents (None for NaN); NaN and 0 both
      become 0. */
  function SavePayload(product: AdminProduct, f: Form, categories: seq<AdminCategory>,
                       parsedPrice: Option<int>): (r: AdminProduct)
    ensures r.id == product.id && r.badgeBg == product.badgeBg && r.badgeText == product.badgeText
    ensures r.imageUrl == product.imageUrl && r.imageData == product.imageData
    ensures r.name == f.name && r.description == f.description
    ensures r.categoryId == f.categoryId && r.inStock == f.inStock
    ensures parsedPrice.Some? ==> r.priceCents == parsedPrice.value
    ensures parsedPrice.None? ==> r.priceCents == 0
    ensures r.categorySlug != "" && r.categoryName != ""
    ensures var c := FindCategory(categories, f.categoryId);
      && (c.Some? && c.value.slug != "" ==> r.categorySlug == c.value.slug)
      && (c.Some? && c.value.name != "" ==> r.categoryName == c.value.name)
      && (c.None? || c.value.slug == "" ==> r.categorySlug == FallbackSlug)
      && (c.None? || c.value.name == "" ==> r.categoryName == FallbackName)
  {
    product.(
      name := f.name,
      description := f.description,
      priceCents := NumberOr(parsedPrice, 0),
      categoryId := f.categoryId,
      categorySlug := SelectedSlug(categories, f.categoryId),
      categoryName := SelectedName(categories, f.categoryId),
      inStock := f.inStock)
  }

  /** Opening a product and saving it untouched gives the product back,
      provided its category is the first one listed under its id and has the
      same (non-empty) slug and name. */
  lemma SaveUntouchedIsIdentity(p: AdminProduct, f: Form, categories: seq<AdminCategory>)
    requires FindCategory(categories, p.categoryId).Some?
    requires FindCategory(categories, p.categoryId).value.slug == p.categorySlug != ""
    requires FindCategory(categories, p.categoryId).value.name == p.categoryName != ""
    ensures var g := LoadProduct(Some(p), f);
      SavePayload(p, g, categories, Decimal.ParseNumber(g.priceText)) == p
  {
  }

  /** `disabled={!name || !price}`: saving needs a name and a price text,
      and whatever an enabled button hands over carries a name. */
  function SaveEnabled(f: Form): (enabled: bool)
    ensures enabled <==> Truthy(f.name) && Truthy(f.priceText)
    ensures enabled ==> forall product, categories, parsed ::
      SavePayload(product, f, categories, parsed).name != ""
  {
    f.name != "" && f.priceText != ""
  }

  /** A loaded product can be saved exactly when its name is non-empty: the
      price text of a loaded product is never empty. */
  lemma LoadedSaveEnabled(p: AdminProduct, f: Form)
    ensures SaveEnabled(LoadProduct(Some(p), f)) <==> p.name != ""
  {
  }

  /** The freshly mounted form cannot be saved. */
  lemma InitialFormDisabled()
    ensures !SaveEnabled(InitialForm)
  {
  }

  datatype ImageAction = OpenImageEditor | OpenFilePicker

  /** Clicking the image area edits the current image when there is one,
      and otherwise asks for a file. */
  function ImageAreaClick(product: AdminProduct): (a: ImageAction)
    ensures a == OpenImageEditor <==> PresentText(product.imageUrl)
    ensures a == OpenFilePicker <==> !PresentText(product.imageUrl)
  {
    if product.imageUrl.Some? && product.imageUrl.value != "" then OpenImageEditor else OpenFilePicker
  }

  /** The label of the category dropdown: the name of the listed category
      with the form's id, or "Seleccionar"; any other label is also the
      name a save writes back. */
  function SelectedCategoryName(categories: seq<AdminCategory>, id: int): (s: string)
    ensures s != ""
    ensures FindCategory(categories, id).None? ==> s == Unselected
    ensures s == Unselected || exists i :: 0 <= i < |categories| && categories[i].id == id && categories[i].name == s
    ensures s != Unselected ==> s == SelectedName(categories, id)
    ensures var c := FindCategory(categories, id);
      && (c.Some? && c.value.name != "" ==> s == c.value.name)
      && (c.Some? && c.value.name == "" ==> s == Unselected)
  {
    var c := FindCategory(categories, id);
    if c.Some? && c.value.name != "" then c.value.name else Unselected
  }
}
