# menurestaurante — a Dafny model of the ordering and admin rules

menurestaurante is a restaurant menu web application. Customers fill a cart
from menu cards and confirm a take-away order by opening a chat hand-off link
whose `text` parameter carries the order message. Administrators edit products
in a form, upload images and adjust them in an image editor (zoom, rotation,
mirror). They do this through a handful of JSON routes: products, categories,
upload, and upload processing.

This project models the decision and string-building rules of that core as
pure Dafny functions over immutable datatypes, and proves what they promise:

- **The checkout message** (`Checkout`) is built as a sequence of logical
  lines. The model shows where each line sits, that the optional lines appear
  exactly when their field is filled, and that the hand-off link's payload
  decodes back to the message.
- **`encodeURIComponent`** (`UriComponent`) follows section 19.2.6 of ECMA-262
  over Unicode scalar values, with a decoder proved to be its left inverse.
- **The image editor controls** (`ImageEditor`) clamp the zoom and wrap the
  rotation. The model proves that every control keeps the state in range.
- **The products route** (`ProductsApi`):
  - it builds the listing query and normalises the rows;
  - it checks its validation rules in a fixed order;
  - it applies the insert defaults and answers with fixed status codes.
- **The upload routes** (`UploadRoute`, `UploadProcess`) name files from a
  timestamp. The name gives the timestamp back, and edited images never reuse
  an upload's name. The processing route plans its resize, rotate and flop in
  a fixed order.
- **The categories route** (`CategoriesApi`) adds the synthetic "Todos" entry
  ahead of the stored categories.
- **The product form** (`EditProductModal`) writes the form back over the
  product. Opening and saving untouched gives the product back when its
  category is listed under its id with the stored slug and name.
- **The admin page** (`AdminPage`) covers:
  - the list request and the new-product template;
  - the save request, which is accepted by the products route exactly when the
    name is not blank and the category id is not 0;
  - the upload and image-edit round trips.
- **The menu cards** (`ProductCard`, `MobileProductCard`, `CartOps`) turn
  button presses into cart operations.

Shared records live in `Catalog`, optional values and JavaScript "falsy"
fallbacks in `Values`, and decimal text in `Decimal`. `JsText` holds
`String.prototype.trim`. Money is held as integer cents throughout.

Where the behaviour depends on something outside the core, it is a parameter
of the function that needs it:

- the database;
- `JSON.parse`;
- `path.extname` and the clock;
- `parseFloat` of the price field;
- whether a file write succeeded;
- the answer a route gives to the page.

## Model

| member | source | states |
|---|---|---|
| Decimal.IntRoundTrip | src/app/checkout/page.tsx:44 | the quantity printed into the message reads back as the same integer, negative values included |
| Decimal.IntToString | src/app/checkout/page.tsx:44 | the printed quantity: a leading minus exactly for negative values, then digits whose value is the magnitude |
| Decimal.FormatCents | src/components/ProductCard.tsx:47 | `toFixed(2)` of a price: at least four characters, a point before exactly two final digits, a leading minus exactly for negative prices, no leading zero in the whole part unless it is just "0" |
| Decimal.NumberText | src/components/admin/EditProductModal.tsx:41 | `price.toString()`: a minus exactly for negative prices, no leading zero, no fraction exactly for whole prices, never a trailing zero after the point |
| Decimal.CentsRoundTrip | src/app/checkout/page.tsx:45-49 | `toFixed(2)` loses nothing on a whole number of cents: parsing the text gives the same cents back |
| Decimal.NumberRoundTrip | src/components/admin/EditProductModal.tsx:41 | the price text the form is filled with (`price.toString()`) parses back to the same number of cents |
| UriComponent.Encode | src/app/checkout/page.tsx:55 | the encoding is never shorter than the text, and has the same length exactly when every character is unescaped |
| UriComponent.EncodeWellFormed | src/app/checkout/page.tsx:55 | the encoded message consists only of unescaped characters and `%XY` triples |
| UriComponent.WellFormedAlphabet | src/app/checkout/page.tsx:55 | no character outside the unescaped set, `%` and upper-case hex digits survives encoding (no space, `&`, `#`, `=`, line break) |
| UriComponent.DecodeEncode | src/app/checkout/page.tsx:55 | decoding undoes `encodeURIComponent` on every string |
| UriComponent.EncodeUnescapedIdentity | src/app/checkout/page.tsx:55 | text made only of unescaped characters is left unchanged |
| UriComponent.EncodeExample | src/app/checkout/page.tsx:55 | "é y" encodes to `%C3%A9%20y`: two UTF-8 bytes for the accented letter, `%20` for the space |
| Checkout.ItemLines | src/app/checkout/page.tsx:42-46 | three lines per cart entry, in cart order: name, quantity and the entry's subtotal |
| Checkout.MessageItemBlock | src/app/checkout/page.tsx:39-46 | the entries' lines form one block right after the heading and its rule, and appear nowhere else |
| Checkout.MessageTotal | src/app/checkout/page.tsx:48-53 | a rule, then the total exactly once; the notes, when given, come after it as the last line, after a blank line |
| Checkout.MessageOptionalLines | src/app/checkout/page.tsx:31-36 | the name, phone and notes lines appear exactly when their field is non-empty, at fixed positions, carrying the field |
| Checkout.Message | src/app/checkout/page.tsx:29-53 | the message text starts with the greeting and a blank line and ends with a line break |
| Checkout.MessageOpening | src/app/checkout/page.tsx:29-32 | the message text starts with the greeting, a blank line, and the name line when a name was given |
| Checkout.HandoffUrl | src/app/checkout/page.tsx:55-57 | the link is exactly the chat prefix followed by `encodeURIComponent` of the message, a well-formed payload that decodes to exactly the message |
| Checkout.ConfirmEffects | src/app/checkout/page.tsx:55-62 | the four effects of a confirmed order, the link being the prefix and the encoded message, opened before the cart is cleared |
| Checkout.ConfirmOrder | src/app/checkout/page.tsx:24-62 | an empty cart does nothing; otherwise: submitting, open the prefix plus the encoded message in a new tab, clear the cart, go home — the link opened before the cart is cleared |
| ImageEditor.Reinitialise | src/components/admin/ImageEditorModal.tsx:31-37 | opening takes the initial values; while closed the controls keep their state |
| ImageEditor.ClampedZoom | src/components/admin/ImageEditorModal.tsx:41-43 | the new zoom is always in [10, 200]: the sum when it fits, the nearer bound otherwise |
| ImageEditor.NextRotation | src/components/admin/ImageEditorModal.tsx:45-52 | the new angle differs from prev + delta by whole turns; it is the sum when that is in range, and stays in [-180, 180] for steps up to a full turn |
| ImageEditor.ZoomChange | src/components/admin/ImageEditorModal.tsx:41-43 | the zoom button or slider clamps the zoom into [10, 200] and leaves rotation and mirror alone |
| ImageEditor.RotationChange | src/components/admin/ImageEditorModal.tsx:45-52 | the rotation control sets the wrapped angle and leaves zoom and mirror alone |
| ImageEditor.Reset | src/components/admin/ImageEditorModal.tsx:54-58 | reset gives zoom 100, rotation 0, no mirror |
| ImageEditor.Flip | src/components/admin/ImageEditorModal.tsx:60-62 | the mirror toggles and nothing else changes |
| ImageEditor.RunInRange | src/components/admin/ImageEditorModal.tsx:41-207 | any session of button and slider controls started in range stays in range |
| ImageEditor.ZoomSaturates | src/components/admin/ImageEditorModal.tsx:41-43 | zooming in at 200 or out at 10 leaves the zoom where it is |
| ImageEditor.RotateRightThenLeft | src/components/admin/ImageEditorModal.tsx:45-52 | a right step undone by a left step restores the angle (180 comes back as -180) |
| ImageEditor.FlipTwice | src/components/admin/ImageEditorModal.tsx:60-62 | mirroring twice restores the state |
| ImageEditor.ResetForgets | src/components/admin/ImageEditorModal.tsx:54-58 | reset gives the neutral state whatever came before |
| JsText.Trim | src/app/api/products/route.ts:57 | the trimmed name is the part of the input after the leading white space, with no white space at either end, and only white space cut off after it |
| JsText.TrimEmpty | src/app/api/products/route.ts:57 | a name trims to nothing exactly when it is all white space |
| JsText.TrimIdempotent | src/app/api/products/route.ts:82 | trimming the stored name again changes nothing |
| ProductsApi.BuildQuery | src/app/api/products/route.ts:20-27 | the slug filter and its single bound value are added together or not at all, only for a present slug other than "todos"; newest first always |
| ProductsApi.NormaliseRow | src/app/api/products/route.ts:31-40 | a row fails exactly when its image data is text the parser rejects; otherwise every column passes through, stock becomes a boolean |
| ProductsApi.NormaliseRows | src/app/api/products/route.ts:31-40 | the listing fails exactly when some row fails; otherwise it is the rows normalised one by one, in order |
| ProductsApi.Get | src/app/api/products/route.ts:29-48 | the listing on success, otherwise the 500 answer |
| ProductsApi.Validate | src/app/api/products/route.ts:57-89 | name, then price, then category are checked, the first failure deciding the 400 message; on success the inserted values get the trimmed name and the stated defaults |
| ProductsApi.InsertedNameIsTrimmed | src/app/api/products/route.ts:57-82 | a stored name is never empty and never starts or ends with white space |
| ProductsApi.BlankNameRejectedFirst | src/app/api/products/route.ts:57-62 | a white-space-only name is refused with the name message whatever else is wrong |
| ProductsApi.Post | src/app/api/products/route.ts:52-122 | 400 exactly when validation fails; 201 with the read-back row exactly when insert, read-back and parsing succeed; otherwise 500 with a message starting "Error al crear producto: ", followed by the thrown message when the insert fails |
| UploadRoute.Extension | src/app/api/upload/route.ts:21 | the extension is never empty: the file's own when it has one, `.jpg` otherwise |
| UploadRoute.UploadFileName | src/app/api/upload/route.ts:20-22 | `product_`, then the timestamp, then the extension; for an extension as `path.extname` returns it, the name reads back as the timestamp |
| UploadRoute.TimestampRoundTrip | src/app/api/upload/route.ts:20-22 | the stored file's name gives back the timestamp it was made from |
| UploadRoute.DistinctTimestampsDistinctNames | src/app/api/upload/route.ts:20-22 | uploads at different milliseconds never share a file name |
| UploadRoute.Upload | src/app/api/upload/route.ts:5-39 | 400 without a file, 500 when the write fails, otherwise the name and the `/uploads/` URL of exactly that file |
| UploadProcess.Scaled | src/app/api/upload/process/route.ts:28-30 | the scaled size is the nearest integer to size × zoom / 100 |
| UploadProcess.Plan | src/app/api/upload/process/route.ts:22-40 | resize exactly when zoom is set and not 100, to the scaled size (400 for a missing dimension); rotate exactly for a non-zero angle; flop exactly when asked; always in that order |
| UploadProcess.EditedFileName | src/app/api/upload/process/route.ts:42-44 | `product_edited_`, then the timestamp, then the extension; for an extension as `path.extname` returns it, the name reads back as the timestamp, and it never reads as an upload's name |
| UploadProcess.EditedDistinctTimestampsDistinctNames | src/app/api/upload/process/route.ts:42-44 | edits at different milliseconds never share a file name |
| UploadProcess.EditedNeverUploadName | src/app/api/upload/process/route.ts:42-44 | an edited image's name never equals an upload's, so editing never overwrites an original |
| UploadProcess.Process | src/app/api/upload/process/route.ts:6-61 | 400 without an image URL; success exactly when the image loads and the write succeeds, with the plan and the new file's URL; 500 otherwise |
| CategoriesApi.ListCategories | src/app/api/categories/route.ts:21-34 | "Todos" with the product total first, then every stored category in query order with its count |
| CategoriesApi.Get | src/app/api/categories/route.ts:5-43 | the list when both queries succeed, otherwise the 500 answer |
| EditProductModal.LoadProduct | src/components/admin/EditProductModal.tsx:37-45 | a product fills every field and its price text parses back to its price; no product leaves the form alone |
| EditProductModal.FindCategory | src/components/admin/EditProductModal.tsx:50 | the first listed category with the id, and none exactly when no category has it |
| EditProductModal.SavePayload | src/components/admin/EditProductModal.tsx:49-61 | only the form-backed fields change; an unparsable or zero price becomes 0; the first category with the form's id gives its slug and name, each falling back to "pizzas"/"Pizzas" when missing or empty |
| EditProductModal.SaveUntouchedIsIdentity | src/components/admin/EditProductModal.tsx:37-61 | opening a product and saving it untouched gives the same product back, when its category is listed as stored |
| EditProductModal.SaveEnabled | src/components/admin/EditProductModal.tsx:286 | the save button is enabled exactly when name and price text are non-empty, and an enabled save hands over a named product |
| EditProductModal.LoadedSaveEnabled | src/components/admin/EditProductModal.tsx:286 | a loaded product can be saved exactly when its name is non-empty |
| EditProductModal.InitialFormDisabled | src/components/admin/EditProductModal.tsx:29-33 | the freshly mounted form cannot be saved |
| EditProductModal.ImageAreaClick | src/components/admin/EditProductModal.tsx:70-76 | the image area opens the editor exactly when there is an image, and the file picker otherwise |
| EditProductModal.SelectedCategoryName | src/components/admin/EditProductModal.tsx:78-79 | the label is the name of the first category with the id when that name is non-empty, and "Seleccionar" otherwise; any other label is the name a save writes |
| AdminPage.ProductListUrl | src/app/admin/page.tsx:63-65 | the bare path for "todos", otherwise the path with the slug as the `category` parameter |
| AdminPage.ListRequestFiltersByActiveCategory | src/app/admin/page.tsx:63-65 | for a slug of characters the query parser reads literally, the products route filters by exactly that slug, and not at all for "todos" |
| AdminPage.ModalCategories | src/app/admin/page.tsx:272 | the form is offered exactly the listed categories whose slug is not "todos" |
| AdminPage.ModalCategoriesAppend | src/app/admin/page.tsx:272 | the filter keeps order: filtering two lists in a row gives the two filtered lists in a row |
| AdminPage.ModalCategoriesSingle | src/app/admin/page.tsx:272 | a single category is kept exactly when its slug is not "todos" |
| AdminPage.ModalOffersStoredCategories | src/app/admin/page.tsx:272 | fed with the categories route's answer, the form is offered the stored categories in order |
| AdminPage.FirstRealCategory | src/app/admin/page.tsx:91 | the first category whose slug is not "todos", and none exactly when there is no such category |
| AdminPage.TemplateCategoryId | src/app/admin/page.tsx:91 | the id of the first category whose slug is not "todos" when that id is not 0, and 1 otherwise |
| AdminPage.NewProductTemplate | src/app/admin/page.tsx:86-99 | a blank, in-stock product without image whose category is the template category |
| AdminPage.HandleAddNew | src/app/admin/page.tsx:84-101 | adding mode, the template loaded, the form open |
| AdminPage.HandleEdit | src/app/admin/page.tsx:103-107 | editing mode, the product loaded, the form open |
| AdminPage.BuildSaveRequest | src/app/admin/page.tsx:128-145 | POST to the collection exactly for a new product, PUT to a path whose last segment reads back as the id otherwise; the body carries the seven stored fields |
| AdminPage.NewProductSaveValidates | src/app/admin/page.tsx:136-144 | the products route accepts a new product's save exactly when the name is not blank and the category is not 0, inserting the trimmed name and the other fields |
| AdminPage.UntouchedTemplateRefusedForName | src/app/admin/page.tsx:84-101 | the template's category always passes, so saving it untouched is refused for the empty name only |
| AdminPage.SaveAnswered | src/app/admin/page.tsx:147-156 | success closes the form and drops the product, keeping the adding flag and the image editor's state; failure changes nothing |
| AdminPage.ImageUploaded | src/app/admin/page.tsx:177-185 | a successful upload sets the edited product's image and resets its transform; nothing else changes |
| AdminPage.PropsFor | src/app/admin/page.tsx:284-289 | the editor gets the image URL (empty as null) and the stored transform with the 100 / 0 / false fallbacks |
| AdminPage.UploadThenOpenIsNeutral | src/app/admin/page.tsx:183 | after an upload the editor opens in the neutral state |
| AdminPage.ApplyRequest | src/app/admin/page.tsx:192-205 | a request is sent exactly when the product has an image, carrying it and the three values |
| AdminPage.ApplyRequestNeverRefused | src/app/admin/page.tsx:193 | every request the page sends gets past the process route's 400 check |
| AdminPage.ImageEditsApplied | src/app/admin/page.tsx:192-219 | on success the product takes the new URL and the applied transform and the editor closes; otherwise nothing changes |
| AdminPage.ApplyThenReopen | src/app/admin/page.tsx:207-214 | re-opening the editor after applying an in-range state shows that same state |
| AdminPage.ReapplyCompounds | src/app/admin/page.tsx:207-214 | as written: after an in-range edit with a zoom other than 100, reopening and applying untouched asks for the edited file to be resized again |
| AdminPage.ImageEditsBaked | src/app/admin/page.tsx:207-214 | corrected: on success the product takes the new URL with the neutral transform and the editor closes; otherwise nothing changes |
| AdminPage.BakedReapplyIsNeutral | src/app/admin/page.tsx:207-214 | with the corrected update, the editor reopens neutral and an untouched apply plans no operation |
| ProductCard.HandleAdd | src/components/ProductCard.tsx:16-22 | add the whole product exactly when the cart holds none of it, otherwise raise its quantity; never a decrement |
| ProductCard.HandleMinus | src/components/ProductCard.tsx:52 | always a decrement of this product |
| ProductCard.OnPress | src/components/ProductCard.tsx:52-63 | every press targets the card's product; a decrement exactly for minus; an add exactly for plus at quantity 0 |
| ProductCard.PriceLabel | src/components/ProductCard.tsx:47 | a dollar sign followed by text that parses back to the price |
| ProductCard.PressAll | src/components/ProductCard.tsx:14-22 | one operation per press, all for this product, with add and decrement exactly as the single-press rule says |
| MobileProductCard.HandleAdd | src/components/MobileProductCard.tsx:16-22 | the same operation as the desktop card's plus button |
| MobileProductCard.HandleMinus | src/components/MobileProductCard.tsx:52 | the same operation as the desktop card's minus button |
| MobileProductCard.PriceLabel | src/components/MobileProductCard.tsx:47 | the same label as the desktop card |

## Left out

- The cart store (`CartContext`) is not part of this model. Its quantities are inputs to the cards, and the checkout takes the cart's items and total as given. The cards are described by the operations they request.
- Rendering, styling and layout of every page and component are not modelled. The dialogs' visibility guards are kept as predicates.
- `fetch`, `window.open`, the router, `alert` and the re-fetches after a save are not modelled. They become effects, parameters, or the answer a route gives.
- The database driver is not modelled: query execution and the insert and read-back are function parameters. Type conversion by the driver is also left out: DECIMAL prices and COUNT results are taken to be numbers already, so the categories total is not converted.
- The image library's pixel work is not modelled, only the ordered list of operations it is asked to perform. The fill colour of a rotation is not modelled either. Reading the source file and its metadata is one parameter.
- File system writes and `mkdir` are not modelled; only whether the write succeeded is a parameter.
- `Date.now()` and `path.extname` are parameters. The extension is taken as `path.extname` returns it.
- `JSON.parse` of stored image data is a parameter that may fail. `parseFloat` of the price field is a parameter giving cents or NaN.
- Floating point is not modelled. Prices are integer cents, so `toFixed(2)` and `Number` formatting are exact. Prices with more than two decimals cannot be expressed.
- `UploadProcess.Scaled`: `Math.round` of an integer dimension times zoom / 100 is computed exactly, which does not model floating-point rounding error.
- `encodeURIComponent` on a lone UTF-16 surrogate throws a URIError. Dafny strings hold Unicode scalar values, so that case is not representable.
- `ProductsApi.CategoryParam`: `URLSearchParams` decoding (`+`, `%XX`) and other query shapes are not modelled. Only the two URL shapes the admin page requests are read.
- JavaScript coercions are not modelled: a non-string name, a string `category_id`, a non-numeric `zoom`. Request fields are typed as the pages send them.
- The `PUT`/`DELETE` route for a single product (`src/app/api/products/[id]/route.ts`) is not part of this model. Only the request the admin page sends to it is modelled. The delete confirmation dialog is also left out.
- The image editor's `isProcessing` flag and the `async` ordering of state updates are not modelled. Concurrency and stale React closures are out of scope.
- The checkout page's redirect on an empty cart (the effect at lines 18-22) is not modelled. `Checkout.ConfirmOrder` models the handler's own empty-cart guard, which makes confirming a no-op; it is not a precondition.
- AdminPage.ListRequestFiltersByActiveCategory: the page inserts the slug into the URL unencoded, so `URLSearchParams` reads a slug with `&`, `#`, `+`, `%` or a space differently ("a&b" as "a"); the lemma covers only slugs made of characters `encodeURIComponent` leaves alone.
- `ProductsApi.BuildQuery`: states the SQL text and its bound values. It does not state that the number of placeholders matches the number of values.

## Findings

| source | as written | input that shows it | evidently intended | confidence | as-written member | corrected member |
|---|---|---|---|---|---|---|
| src/app/admin/page.tsx:207-214 | after a successful edit the product stores the new file together with the absolute transform that was baked into it | apply zoom 150, reopen the editor, apply without touching a control: the edited file is resized to 150 % again | store the neutral transform with the edited file, so an untouched re-apply changes nothing | medium, not executed | AdminPage.ReapplyCompounds | AdminPage.ImageEditsBaked, AdminPage.BakedReapplyIsNeutral |
