/** The admin panel's page logic: which product list it requests, the
    template for a new product, the request a save sends, and how uploads and
    image edits update the product being edited. Fetching, alerts and the
    re-fetch after a save are left out; the answers of the routes are
    parameters. */
module AdminPage {
  import opened Values
  import opened Catalog
  import Decimal
  import JsText
  import ImageEditor
  import ProductsApi
  import UploadProcess
  import CategoriesApi
  import UriComponent

  // ---------------------------------------------------------------------------
  // The product list

  const ProductsPath: string := "/api/products"
  const CategoryQuery: string := "/api/products?category="

  /** The list request for the active filter: the bare path for "todos",
      otherwise the path with the slug as `category` parameter. */
  function ProductListUrl(activeCategory: string): (url: string)
    ensures activeCategory == AllSlug ==> url == ProductsPath
    ensures activeCategory != AllSlug ==>
      |CategoryQuery| <= |url| && url[..|CategoryQuery|] == CategoryQuery
      && url[|CategoryQuery|..] == activeCategory
  {
    if activeCategory == AllSlug then ProductsPath
    else
      var url := CategoryQuery + activeCategory;
      assert url[..|CategoryQuery|] == CategoryQuery;
      url
  }

  /** The route filters by exactly the slug the page asked for, and does not
      filter for "todos" (or an empty slug). The slug is inserted into the
      URL unencoded, so this holds for slugs made of characters the query
      parser reads literally. */
  lemma ListRequestFiltersByActiveCategory(activeCategory: string)
    requires forall i :: 0 <= i < |activeCategory| ==> UriComponent.Unescaped(activeCategory[i])
    ensures var q := ProductsApi.BuildQuery(ProductsApi.CategoryParam(ProductListUrl(activeCategory)));
      q.params == (if activeCategory == AllSlug || activeCategory == "" then [] else [activeCategory])
  {
  }

  /** `categories.filter(c => c.slug !== "todos")`: what the product form offers. */
  function ModalCategories(categories: seq<AdminCategory>): (r: seq<AdminCategory>)
    ensures |r| <= |categories|
    ensures forall c :: c in r <==> c in categories && c.slug != AllSlug
  {
    if categories == [] then []
    else
      var rest := ModalCategories(categories[1..]);
      assert forall c :: c in categories <==> c == categories[0] || c in categories[1..];
      if categories[0].slug == AllSlug then rest else [categories[0]] + rest
  }

  /** The same filter, stated without its membership contract. */
  function KeepReal(categories: seq<AdminCategory>): seq<AdminCategory> {
    if categories == [] then []
    else (if categories[0].slug == AllSlug then [] else [categories[0]]) + KeepReal(categories[1..])
  }

  lemma {:induction false} ModalIsKeepReal(categories: seq<AdminCategory>)
    ensures ModalCategories(categories) == KeepReal(categories)
  {
    if categories != [] {
      ModalIsKeepReal(categories[1..]);
    }
  }

  lemma {:induction false} KeepRealAppend(a: seq<AdminCategory>, b: seq<AdminCategory>)
    ensures KeepReal(a + b) == KeepReal(a) + KeepReal(b)
  {
    if a == [] {
      assert a + b == b;
    } else {
      var head := if a[0].slug == AllSlug then [] else [a[0]];
      assert (a + b)[0] == a[0] && (a + b)[1..] == a[1..] + b;
      KeepRealAppend(a[1..], b);
      assert head + (KeepReal(a[1..]) + KeepReal(b)) == (head + KeepReal(a[1..])) + KeepReal(b);
    }
  }

  /** `filter` keeps the order of what it keeps: filtering a concatenation
      filters each part and concatenates the results, and a single category
      stays exactly when its slug is not "todos". */
  lemma ModalCategoriesAppend(a: seq<AdminCategory>, b: seq<AdminCategory>)
    ensures ModalCategories(a + b) == ModalCategories(a) + ModalCategories(b)
  {
    ModalIsKeepReal(a + b);
    ModalIsKeepReal(a);
    ModalIsKeepReal(b);
    KeepRealAppend(a, b);
  }

  lemma ModalCategoriesSingle(c: AdminCategory)
    ensures ModalCategories([c]) == (if c.slug == AllSlug then [] else [c])
  {
    assert [c][1..] == [];
  }

  lemma {:induction false} ModalCategoriesOfRows(rows: seq<CategoriesApi.CategoryRow>)
    requires forall i :: 0 <= i < |rows| ==> rows[i].slug != AllSlug
    ensures ModalCategories(CategoriesApi.FromRows(rows)) == CategoriesApi.FromRows(rows)
  {
    if rows != [] {
      var cs := CategoriesApi.FromRows(rows);
      assert cs[1..] == CategoriesApi.FromRows(rows[1..]);
      ModalCategoriesOfRows(rows[1..]);
    }
  }

  /** The form is offered the categories route's rows, in order, without
      the synthetic "Todos" entry (when no real category uses its slug). */
  lemma ModalOffersStoredCategories(rows: seq<CategoriesApi.CategoryRow>, total: int)
    requires forall i :: 0 <= i < |rows| ==> rows[i].slug != AllSlug
    ensures ModalCategories(CategoriesApi.ListCategories(rows, total)) == CategoriesApi.FromRows(rows)
  {
    ModalCategoriesOfRows(rows);
  }

  // ---------------------------------------------------------------------------
  // Page state

  /** The state the handlers below change. */
  datatype PageState = PageState(
    editing: Option<AdminProduct>,
    isAddingNew: bool,
    editModalOpen: bool,
    imageEditorOpen: bool)

  /** `categories.find(c => c.slug !== "todos")`. */
  function FirstRealCategory(categories: seq<AdminCategory>): (r: Option<AdminCategory>)
    ensures r.None? <==> forall i :: 0 <= i < |categories| ==> categories[i].slug == AllSlug
    ensures r.Some? ==> exists i :: 0 <= i < |categories| && categories[i] == r.value
                          && r.value.slug != AllSlug
                          && forall k :: 0 <= k < i ==> categories[k].slug == AllSlug
  {
    if categories == [] then None
    else if categories[0].slug != AllSlug then Some(categories[0])
    else
      var r := FirstRealCategory(categories[1..]);
      if r.Some? then
        var i :| 0 <= i < |categories[1..]| && categories[1..][i] == r.value && r.value.slug != AllSlug
                 && forall k :: 0 <= k < i ==> categories[1..][k].slug == AllSlug;
        assert categories[i + 1] == r.value;
        r
      else r
  }

  /** `categories.find(...)?.id || 1`: a missing category and id 0 both give 1. */
  function TemplateCategoryId(categories: seq<AdminCategory>): (id: int)
    ensures id != 0
    ensures id == 1 || exists i :: 0 <= i < |categories| && categories[i].id == id && categories[i].slug != AllSlug
    ensures var c := FirstRealCategory(categories);
      && (c.Some? && c.value.id != 0 ==> id == c.value.id)
      && (c.None? || c.value.id == 0 ==> id == 1)
  {
    var c := FirstRealCategory(categories);
    if c.Some? && c.value.id != 0 then c.value.id else 1
  }

  /** The blank product "Agregar Producto" opens. */
  function NewProductTemplate(categories: seq<AdminCategory>): (p: AdminProduct)
    ensures p.id == 0 && p.name == "" && p.description == "" && p.priceCents == 0
    ensures p.categoryId == TemplateCategoryId(categories)
    ensures p.imageUrl == None && p.imageData == None && p.inStock
  {
    AdminProduct(0, "", "", 0, TemplateCategoryId(categories), "pizzas", "Pizzas",
                 "#FFFBEB", "#D97706", None, None, true)
  }

  function HandleAddNew(st: PageState, categories: seq<AdminCategory>): (r: PageState)
    ensures r.isAddingNew && r.editModalOpen
    ensures r.editing == Some(NewProductTemplate(categories))
    ensures r.imageEditorOpen == st.imageEditorOpen
  {
    st.(isAddingNew := true, editing := Some(NewProductTemplate(categories)), editModalOpen := true)
  }

  function HandleEdit(st: PageState, product: AdminProduct): (r: PageState)
    ensures !r.isAddingNew && r.editModalOpen && r.editing == Some(product)
    ensures r.imageEditorOpen == st.imageEditorOpen
  {
    st.(isAddingNew := false, editing := Some(product), editModalOpen := true)
  }

  // ---------------------------------------------------------------------------
  // Saving

  datatype Method = Post | Put

  /** A save request: the HTTP method, the path and the JSON body. */
  datatype SaveRequest = SaveRequest(verb: Method, url: string, body: ProductsApi.PostBody)

  /** The request `handleSave` sends: a POST to the collection for a new
      product, a PUT to the product's own path otherwise, with the seven
      stored fields as body. */
  function BuildSaveRequest(isAddingNew: bool, p: AdminProduct): (r: SaveRequest)
    ensures r.verb == Post <==> isAddingNew
    ensures isAddingNew ==> r.url == ProductsPath
    ensures !isAddingNew ==>
      |ProductsPath| + 1 <= |r.url| && r.url[..|ProductsPath| + 1] == ProductsPath + "/"
      && Decimal.ParseInt(r.url[|ProductsPath| + 1..]) == Some(p.id)
    ensures r.body.name == Some(p.name) && r.body.description == Some(p.description)
    ensures r.body.price == ProductsApi.PriceNumber(p.priceCents)
    ensures r.body.categoryId == Some(p.categoryId)
    ensures r.body.imageUrl == p.imageUrl && r.body.imageData == p.imageData
    ensures r.body.inStock == Some(p.inStock)
  {
    var body := ProductsApi.PostBody(Some(p.name), Some(p.description), ProductsApi.PriceNumber(p.priceCents),
                                     Some(p.categoryId), p.imageUrl, p.imageData, Some(p.inStock));
    if isAddingNew then SaveRequest(Post, ProductsPath, body)
    else
      var url := ProductsPath + "/" + Decimal.IntToString(p.id);
      assert url[..|ProductsPath| + 1] == ProductsPath + "/";
      assert url[|ProductsPath| + 1..] == Decimal.IntToString(p.id);
      Decimal.IntRoundTrip(p.id);
      SaveRequest(Put, url, body)
  }

  /** A new product's save is accepted by the products route exactly when
      its name is not blank and its category is not 0, and the row inserted
      holds the trimmed name and the product's other fields. */
  lemma NewProductSaveValidates(p: AdminProduct)
    ensures var v := ProductsApi.Validate(BuildSaveRequest(true, p).body);
      && (v.Ok? <==> JsText.Trim(p.name) != "" && p.categoryId != 0)
      && (v.Ok? ==> v.value == ProductsApi.InsertValues(JsText.Trim(p.name), p.description, p.priceCents,
                                                       p.categoryId, TextOrNull(p.imageUrl), p.imageData, p.inStock))
  {
  }

  /** The template's category always passes the route's category check, so
      saving the untouched template is refused for its empty name only. */
  lemma UntouchedTemplateRefusedForName(categories: seq<AdminCategory>)
    ensures ProductsApi.CategoryValid(BuildSaveRequest(true, NewProductTemplate(categories)).body)
    ensures ProductsApi.Validate(BuildSaveRequest(true, NewProductTemplate(categories)).body)
            == Err(ProductsApi.Rejection(400, ProductsApi.NameRequired))
  {
  }

  /** After a save: success closes the form and drops the product; failure
      keeps everything (the page only shows an alert). */
  function SaveAnswered(st: PageState, ok: bool): (r: PageState)
    ensures ok ==> !r.editModalOpen && r.editing == None
    ensures ok ==> r.isAddingNew == st.isAddingNew && r.imageEditorOpen == st.imageEditorOpen
    ensures !ok ==> r == st
  {
    if ok then st.(editModalOpen := false, editing := None) else st
  }

  // ---------------------------------------------------------------------------
  // Images

  /** The transform stored with a freshly uploaded image. */
  const FreshImageData: ImageData := ImageData(Some(100), Some(0), Some(false))

  /** An upload answer (the new URL, or None when the request failed) sets the
      image of the product being edited and resets its transform; nothing
      else changes. */
  function ImageUploaded(st: PageState, url: Option<string>): (r: PageState)
    ensures url.None? || st.editing.None? ==> r == st
    ensures url.Some? && st.editing.Some? ==>
      r == st.(editing := Some(st.editing.value.(imageUrl := url, imageData := Some(FreshImageData))))
  {
    match (st.editing, url)
    case (Some(p), Some(u)) => st.(editing := Some(p.(imageUrl := Some(u), imageData := Some(FreshImageData))))
    case _ => st
  }

  /** The values the image editor dialog is opened with. */
  datatype EditorProps = EditorProps(imageUrl: Option<string>, zoom: int, rotation: int, flipH: bool)

  /** `image_url || null` and the `|| 100`, `|| 0`, `|| false` fallbacks of the
      stored transform. */
  function PropsFor(editing: Option<AdminProduct>): (r: EditorProps)
    ensures r.imageUrl == (if editing.Some? then TextOrNull(editing.value.imageUrl) else None)
    ensures editing.None? || editing.value.imageData.None? ==> r.zoom == 100 && r.rotation == 0 && !r.flipH
    ensures editing.Some? && editing.value.imageData.Some? ==>
      var d := editing.value.imageData.value;
      r.zoom == NumberOr(d.zoom, 100) && r.rotation == NumberOr(d.rotation, 0) && r.flipH == (d.flipH == Some(true))
  {
    match editing
    case None => EditorProps(None, 100, 0, false)
    case Some(p) =>
      match p.imageData
      case None => EditorProps(TextOrNull(p.imageUrl), 100, 0, false)
      case Some(d) => EditorProps(TextOrNull(p.imageUrl), NumberOr(d.zoom, 100), NumberOr(d.rotation, 0),
                                  d.flipH == Some(true))
  }

  /** The editor controls after the dialog opens with the page's props. */
  function OpenEditor(st: PageState, controls: ImageEditor.EditorState): ImageEditor.EditorState {
    var props := PropsFor(st.editing);
    ImageEditor.Reinitialise(true, props.zoom, props.rotation, props.flipH, controls)
  }

  /** A freshly uploaded image opens the editor in its neutral state. */
  lemma UploadThenOpenIsNeutral(st: PageState, url: string, controls: ImageEditor.EditorState)
    requires st.editing.Some?
    ensures OpenEditor(ImageUploaded(st, Some(url)), controls) == ImageEditor.Neutral
  {
  }

  /** The request "Aplicar" sends, or None when the product has no image
      (the handler returns before sending anything). */
  function ApplyRequest(st: PageState, s: ImageEditor.EditorState): (r: Option<UploadProcess.ProcessBody>)
    ensures r.Some? <==> st.editing.Some? && PresentText(st.editing.value.imageUrl)
    ensures r.Some? ==> r.value == UploadProcess.ProcessBody(st.editing.value.imageUrl, Some(s.zoom),
                                                             Some(s.rotation), Some(s.flipH))
  {
    if st.editing.Some? && PresentText(st.editing.value.imageUrl) then
      Some(UploadProcess.ProcessBody(st.editing.value.imageUrl, Some(s.zoom), Some(s.rotation), Some(s.flipH)))
    else None
  }

  /** Every request the page sends carries an image URL, so the process
      route never answers it with 400. */
  lemma ApplyRequestNeverRefused(st: PageState, s: ImageEditor.EditorState,
                                 load: string -> Option<UploadProcess.Metadata>, timestamp: nat,
                                 extname: string -> string, written: bool)
    requires ApplyRequest(st, s).Some?
    ensures UploadProcess.Process(ApplyRequest(st, s).value, load, timestamp, extname, written)
            != UploadProcess.ProcessFailed(400, "No image URL provided")
  {
  }

  /** The page after the process route answers: on success the product takes
      the new URL and the applied transform, and the editor closes; on
      failure, or with no image to edit, nothing changes. */
  function ImageEditsApplied(st: PageState, s: ImageEditor.EditorState, answer: UploadProcess.ProcessResponse): (r: PageState)
    ensures ApplyRequest(st, s).None? || answer.ProcessFailed? ==> r == st
    ensures ApplyRequest(st, s).Some? && answer.Processed? ==>
      && !r.imageEditorOpen
      && r.editing == Some(st.editing.value.(imageUrl := Some(answer.url),
                                             imageData := Some(ImageData(Some(s.zoom), Some(s.rotation), Some(s.flipH)))))
      && r.editModalOpen == st.editModalOpen && r.isAddingNew == st.isAddingNew
  {
    if ApplyRequest(st, s).None? then st
    else
      match answer
      case ProcessFailed(_, _) => st
      case Processed(_, _, url) =>
        st.(editing := Some(st.editing.value.(imageUrl := Some(url),
                                              imageData := Some(ImageData(Some(s.zoom), Some(s.rotation), Some(s.flipH))))),
            imageEditorOpen := false)
  }

  /** Re-opening the editor after applying an in-range state shows that very
      state again: the stored transform survives the fallbacks. */
  lemma ApplyThenReopen(st: PageState, s: ImageEditor.EditorState, answer: UploadProcess.ProcessResponse,
                        controls: ImageEditor.EditorState)
    requires ImageEditor.InRange(s)
    requires ApplyRequest(st, s).Some? && answer.Processed?
    ensures OpenEditor(ImageEditsApplied(st, s, answer), controls) == s
  {
  }

  /** As written, the stored transform describes edits that are already
      baked into the new file. Re-opening the editor and applying without
      touching a control therefore sends the edited file with the same zoom,
      and the process route resizes it a second time. */
  lemma ReapplyCompounds(st: PageState, s: ImageEditor.EditorState, answer: UploadProcess.ProcessResponse,
                         controls: ImageEditor.EditorState, m: UploadProcess.Metadata)
    requires ImageEditor.InRange(s) && s.zoom != 100
    requires ApplyRequest(st, s).Some? && answer.Processed? && answer.url != ""
    ensures var st2 := ImageEditsApplied(st, s, answer);
      var again := ApplyRequest(st2, OpenEditor(st2, controls));
      && again.Some?
      && again.value.imageUrl == Some(answer.url)
      && UploadProcess.ResizeWanted(again.value)
      && UploadProcess.Plan(again.value, m) != []
  {
    var st2 := ImageEditsApplied(st, s, answer);
    ApplyThenReopen(st, s, answer, controls);
    var again := ApplyRequest(st2, OpenEditor(st2, controls));
    assert again.value.zoom == Some(s.zoom);
  }

  /** The update the page evidently intends after a successful edit: the new
      file already carries the edits, so it is stored with the neutral
      transform; the editor closes. */
  function ImageEditsBaked(st: PageState, s: ImageEditor.EditorState, answer: UploadProcess.ProcessResponse): (r: PageState)
    ensures ApplyRequest(st, s).None? || answer.ProcessFailed? ==> r == st
    ensures ApplyRequest(st, s).Some? && answer.Processed? ==>
      && !r.imageEditorOpen
      && r.editing == Some(st.editing.value.(imageUrl := Some(answer.url), imageData := Some(FreshImageData)))
      && r.editModalOpen == st.editModalOpen && r.isAddingNew == st.isAddingNew
  {
    if ApplyRequest(st, s).None? then st
    else
      match answer
      case ProcessFailed(_, _) => st
      case Processed(_, _, url) =>
        st.(editing := Some(st.editing.value.(imageUrl := Some(url), imageData := Some(FreshImageData))),
            imageEditorOpen := false)
  }

  /** With the baked update, re-opening the editor shows the neutral state,
      and applying without touching a control asks for no operation at all. */
  lemma BakedReapplyIsNeutral(st: PageState, s: ImageEditor.EditorState, answer: UploadProcess.ProcessResponse,
                              controls: ImageEditor.EditorState, m: UploadProcess.Metadata)
    requires ApplyRequest(st, s).Some? && answer.Processed?
    ensures var st2 := ImageEditsBaked(st, s, answer);
      var again := ApplyRequest(st2, OpenEditor(st2, controls));
      && OpenEditor(st2, controls) == ImageEditor.Neutral
      && (again.Some? ==> UploadProcess.Plan(again.value, m) == [])
  {
    var st2 := ImageEditsBaked(st, s, answer);
    var again := ApplyRequest(st2, OpenEditor(st2, controls));
    if again.Some? {
      UploadProcess.NeutralRequestPlansNothing(again.value.imageUrl.value, m);
    }
  }
}
