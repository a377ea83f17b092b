# Storefront rules in Dafny

This project models the pure rules underneath a Django storefront (products,
stock, cart, filters, likes) as immutable Dafny datatypes and functions, and
proves what those rules promise. The database queries become plain inputs:
lists of stock records, lists of cart lines, attribute lists, and "today" or
"now" as parameters. Money is integer cents.

Modules, one per concern of the source:

- `Common`: Option/Result, integer cents, and `smart_text` of a key (`IntToString`, with its round trip).
- `Stock`: `Stock.quantity_available`, plus the `ProductVariant` stock methods: `get_stock_quantity`, `check_quantity`, `is_in_stock` and `select_stockrecord`.
- `Catalog`: products and variants as values. It covers the attribute bag (`get_attribute`/`set_attribute`), `Product.is_in_stock`, `Product.is_available` and `Category.get_full_path`.
- `Images`: the order numbers `ProductImage.save` and `ProductImage.delete` maintain.
- `ProductUtils`: the product and variant availability status chains, and `get_attributes_display_map`.
- `CartModel`: the cart, its status machine and the SQL sums over its lines.
  - `price_subtotal` is SUM(total_price); SUM ignores NULL, and the sum of no rows is NULL.
  - A new cart has no lines and stores the column default 0 (cart/models.py:59), not the NULL sum of no rows. It stays at 0 until the first line write runs a receiver. So `SubtotalConsistent` is a requirement of `CartSignals.SubtotalInvariant`, and `CartAdd.AddKeepsTotals` also accepts any cart without lines.
- `CartSignals`: the three receivers of cart/signals.py, and what a save or delete of a line does to the cart.
- `CartAdd`: `Cart.add`, as written and corrected (see Findings).
- `CartUtils`: `contains_unavailable_variants` and `remove_unavailable_variants`.
- `Filters`: `validate_sort_by`, `get_now_sorted_by`, `str.strip('-')`, and the filter table `ProductFilter.__init__` builds.
  - The table is updated from the product attributes, then from the variant attributes, then sorted by key.
- `Likes`: the labels `widget_context` computes.

The cart is keyed by variant id: a cart holds a sequence of lines, and
`UniqueVariants` states that no two lines hold one variant. Where two lines do
hold one variant, `get_or_create` raises MultipleObjectsReturned; the model
returns the `MultipleLines` error for that case.

`CartItem.quantity` is a `PositiveIntegerField` (cart/models.py:149), and
Django's positive integer field admits 0. `Cart.add` creates a line with
quantity 0 (`get_or_create(..., defaults={'quantity': 0})`) and deletes it
again only when the final quantity is 0, so `Line.quantity` is a `nat`.

`Cart.add` saves with `update_fields=['quantity']` (see Findings). The model
writes its body once, as `CartAdd.AddWith`, with the columns of the final
save as a `SaveMode` parameter: `QuantityOnly` is the source as written and
`AllFields` the corrected add. Every lemma about `Cart.add` or about
`remove_unavailable_variants` that does not depend on the stored totals is
stated for both modes.

## Model

| member | source | states |
|---|---|---|
| Stock.QuantityAvailable | product/models.py:375-377 | available quantity is quantity minus allocated when that is positive, else 0; never negative |
| Stock.StockQuantity | product/models.py:257-260 | 0 without records; otherwise an upper bound of every record's available quantity that some record attains (the maximum) |
| Stock.CheckQuantity | product/models.py:252-255 | the check passes iff quantity <= stock quantity, equivalently iff quantity <= 0 or some record has at least that much available |
| Stock.InStockIffStockQuantityPositive | product/models.py:284-286 | a variant is in stock (some record has something available) iff its stock quantity is positive |
| Stock.SelectStockRecord | product/models.py:313-323 | None iff no record can serve the quantity; otherwise the first adequate record of least cost, an absent cost counting as zero |
| Stock.SelectionIsUnique | product/models.py:316-323 | at most one record satisfies the selection rule, so the choice is determined |
| Catalog.GetAttribute | product/models.py:203-204 | the lookup finds a value iff the stringified key is in the bag, and returns the stored value |
| Catalog.SetAttribute | product/models.py:206-207 | after the write the key reads back the stringified value, the key set grows by that key only, and other keys keep their values |
| Catalog.SetProductAttribute | product/models.py:206-207 | Product.set_attribute changes only the bag, and only under the stringified key |
| Catalog.SetVariantAttribute | product/models.py:291-292 | ProductVariant.set_attribute changes only the bag, and only under the stringified key |
| Catalog.KeysAreStringified | product/models.py:203-207 | the integer n and the text of n address one entry; writing one integer key leaves a different integer key alone |
| Catalog.ProductInStockIff | product/models.py:183-184 | a product is in stock iff some variant has positive stock quantity; never without variants |
| Catalog.FullPath | product/models.py:73-79 | a root category's path is its slug; otherwise splitting the path at '/' gives the ancestors' slugs followed by its own |
| Catalog.JoinSplitRoundTrip | product/models.py:78-79 | joining slash-free parts with '/' and splitting at '/' gives the parts back |
| Images.NextOrder | product/models.py:429-433 | a new image's order is 0 without images, otherwise one more than an existing order and above every existing order |
| Images.SaveNewImage | product/models.py:428-434 | saving keeps the existing orders and a preset order; a missing order is above all existing ones |
| Images.DeleteImage | product/models.py:436-439 | deleting removes the image and lowers by one every order above the deleted one, keeping the others |
| Images.NextOrderOfContiguous | product/models.py:429-433 | with orders 0..n-1 the next order is n |
| Images.SaveKeepsContiguous | product/models.py:428-434 | appending an image to orders 0..n-1 gives orders 0..n |
| Images.DeleteKeepsContiguous | product/models.py:436-439 | deleting any image from orders 0..n-1 leaves orders 0..n-2 |
| ProductUtils.ProductAvailabilityStatus | product/utils.py:192-218 | each of the seven statuses is characterised by an iff of its own over publication, variants, stock quantities and release date, so exactly one results and the first matching condition of the chain wins |
| ProductUtils.VariantsInStockIff | product/utils.py:196-199 | "all variants in stock" is positive stock quantity for each variant, and each variant is in stock iff its stock quantity is positive |
| ProductUtils.NoVariantsMissingWithoutVariantType | product/utils.py:204-210 | a product type without variants never yields VARIANTS_MISSING; a published product without variants is then NOT_CARRIED |
| ProductUtils.SingleVariantWithoutStockIsOutOfStock | product/utils.py:209-212 | a published product whose single variant has records with nothing available is OUT_OF_STOCK |
| ProductUtils.ReleaseDateDecides | product/utils.py:192-218 | for a published product with variants that are all in stock, the status is NOT_YET_AVAILABLE iff `is_available` (product/models.py:192-194) fails, and READY_FOR_PURCHASE iff it holds |
| ProductUtils.AvailableFromThenOn | product/models.py:192-194 | a product available on one day is available on every later day, and is never NOT_YET_AVAILABLE then |
| ProductUtils.ReadyMeansPurchasable | product/utils.py:202-218 | READY_FOR_PURCHASE implies published, available today, in stock, and every variant in stock |
| ProductUtils.VariantAvailabilityStatus | product/utils.py:221-228 | NOT_CARRIED iff no records, OUT_OF_STOCK iff records but stock quantity 0, AVAILABLE iff stock quantity positive |
| ProductUtils.FindChoice | product/utils.py:151-152 | finds a choice iff some choice's pk text equals the stored text, and returns the last such choice (later keys overwrite earlier ones in the dict) |
| ProductUtils.DisplayMapKeys | product/utils.py:146-157 | the display map has a key exactly for the attributes whose stored text is present and non-empty |
| ProductUtils.DisplayMapValues | product/utils.py:149-156 | an attribute's entry is the matching choice when one exists and the raw stored text otherwise |
| CartModel.ParseStatus | cart/models.py:89-90 | a code is accepted iff it is the code of some status, and yields that status |
| CartModel.StatusCodeRoundTrip | cart/models.py:89 | every status's code parses back to the status |
| CartModel.ChangeStatus | cart/models.py:88-94 | unknown codes fail with the code and change nothing; the current status is a no-op; another status is stored with the time of the change |
| CartModel.SumTotals | cart/models.py:79-81 | SUM(total_price) is NULL iff no line has a total |
| CartModel.SumTotalsMeaning | cart/models.py:79-81 | a non-NULL subtotal is the plain sum of the line totals, NULL counted as 0 |
| CartModel.UpdateSubtotal | cart/models.py:79-82 | the subtotal becomes SUM(total_price) and nothing else of the cart changes |
| CartModel.TotalQuantity | cart/models.py:84-86 | NULL iff the cart has no lines; otherwise exactly the front-to-back sum `QuantitySum` of the line quantities (so at least every line's quantity, and 0 iff all are 0) |
| CartModel.QuantitySumAppend | cart/models.py:84-86 | appending a line adds its quantity to the sum, which ties the last-to-first SUM to the first-to-last `QuantitySum` |
| CartModel.Matches | cart/models.py:114-115 | the positions of the lines holding a variant, all of them and in increasing order |
| CartSignals.PreSave | cart/signals.py:14-16 | a line with quantity >= 1 gets quantity times unit price as total; any other line keeps its total |
| CartSignals.WrittenRow | cart/models.py:129-134 | a full save writes the pre_save row; a quantity-only save keeps the stored total |
| CartSignals.SaveQuantity | cart/signals.py:19-24 | a save changes only the saved line and leaves the subtotal equal to SUM(total_price) |
| CartSignals.InsertLine | cart/signals.py:14-24 | an insert appends the line with its pre_save total and recomputes the subtotal |
| CartSignals.PostDelete | cart/signals.py:27-41 | no cart: nothing happens; a cart left without lines is deleted; otherwise its subtotal is recomputed |
| CartSignals.DeleteLine | cart/signals.py:33-38 | deleting a line deletes the cart iff it was the last line; otherwise the line is gone and the subtotal is consistent |
| CartSignals.ApplyOp | cart/signals.py:19-38 | any save, insert or delete leaves a consistent subtotal on a surviving cart; only deleting the last line deletes the cart |
| CartSignals.SubtotalInvariant | cart/signals.py:19-38 | after any sequence of saves, inserts and deletes, a surviving cart's subtotal is the sum of its line totals |
| CartSignals.ApplyOpKeepsLineTotals | cart/signals.py:14-16 | a write of whole rows keeps every positive line's total equal to quantity times price |
| CartSignals.LineTotalsInvariant | cart/signals.py:14-16 | line totals stay quantity times price over any sequence of whole-row writes |
| CartAdd.GetOrCreate | cart/models.py:114-115 | fails iff more than one line holds the variant; finds the single line, or appends a zero line |
| CartAdd.GetOrCreateOfUnique | cart/models.py:114-115 | with one line per variant, get_or_create succeeds, keeps variants unique, and the line holds the variant's current quantity (0 when new) |
| CartAdd.AddWith | cart/models.py:103-134 | errors leave a cart; MultipleLines is raised iff several lines hold the variant and then nothing changes; the status is never touched |
| CartAdd.Settle | cart/models.py:122-134 | a raised error leaves the cart as get_or_create left it; without an error the subtotal is consistent |
| CartAdd.SettleSpec | cart/models.py:122-134 | ValueError iff the target is negative; InsufficientStock iff the checked target exceeds stock; otherwise the variant's entry becomes the target, or is removed at 0 (with the cart when it was the last line) |
| CartAdd.AddErrors | cart/models.py:117-127 | Cart.add raises ValueError iff the target is negative, InsufficientStock iff the checked target exceeds stock, and nothing otherwise |
| CartAdd.AddQuantityOf | cart/models.py:114-134 | without an error the variant ends at the target quantity (replace: the request; accumulate: current plus request); every other variant keeps its quantity, error or not |
| CartAdd.AddReplaceIdempotent | cart/models.py:114-134 | in either save mode, replacing with the same quantity a second time changes nothing: not the lines, not the totals, not the subtotal |
| CartAdd.AddAccumulates | cart/models.py:114-134 | in either save mode, accumulating q twice raises the variant's quantity by 2q |
| CartAdd.AddTotalQuantity | cart/models.py:84-134 | in either save mode, a Cart.add that raises nothing changes the total quantity by the target minus the variant's old quantity, and deletes the cart only when that variant was all it held and the target is 0 |
| CartAdd.AddLeavesSubtotal | cart/models.py:129-134 | a Cart.add that raises nothing leaves the subtotal equal to SUM(total_price) |
| CartAdd.AddKeepsTotals | cart/models.py:129-134 | the corrected add keeps the subtotal consistent and every positive line's total equal to quantity times price, from any consistent cart or any cart without lines, a new cart included |
| CartAdd.AddToEmptyCart | cart/models.py:114-134 | adding q within stock to an empty cart gives one line of quantity q whose total depends on the columns the save writes |
| CartAdd.AddAsWrittenLeavesTotalUnset | cart/models.py:134 | as written, that line has no total and the subtotal is NULL (a new cart's 0 becomes NULL) |
| CartAdd.AddWritesTotal | cart/models.py:129-134 | corrected, that line's total and the subtotal are q times the price |
| CartUtils.ContainsUnavailableVariants | cart/utils.py:36-42 | true iff some line asks for more than its variant's stock quantity |
| CartUtils.Clamp | cart/utils.py:47-51 | the clamped quantity is at most the line's and at most the stock quantity, and equals one of them |
| CartUtils.ReplaceWithinStock | cart/utils.py:47-48 | in either save mode, re-adding a line's quantity that is within stock leaves the variant at that quantity (removing it at 0) |
| CartUtils.ReplaceAboveStock | cart/utils.py:49-51 | in either save mode, a quantity above stock raises InsufficientStock and leaves the quantities unchanged; the retry with the stock quantity raises nothing and sets exactly that, dropping the variant at 0 |
| CartUtils.CleanLineSpec | cart/utils.py:46-51 | in either save mode, one cleaning step sets the variant to its clamped quantity, drops it at 0, and deletes the cart iff that was its last line |
| CartUtils.CleanLineAsWrittenKeepsSubtotal | cart/utils.py:46-51 | with the source's quantity-only save, cleaning a line that keeps a positive quantity sets it to the clamped quantity but leaves the cart's subtotal where it was |
| CartUtils.RemoveUnavailableVariants | cart/utils.py:45-51 | in either save mode (the source's is QuantityOnly), every line ends at its clamped quantity; a cart with lines survives iff some clamp is positive; a cart without lines survives untouched; no surviving line exceeds its stock |
| CartUtils.CleanupOutcome | cart/utils.py:36-51 | a cart holding the cleaned contents has every line at its clamped quantity, keeps exactly the lines with a positive clamp, adds no variant, and makes contains_unavailable_variants false |
| Filters.Strip | product/filters.py:91 | strip('-') leaves a part with no dash at either end, with only dashes cut on either side |
| Filters.StripPadded | product/filters.py:91 | stripping a dash-free-ended value padded with any dashes gives the value back |
| Filters.StripIgnoresPadding | product/filters.py:91 | extra dashes around a value do not change what strip('-') leaves |
| Filters.StripIdempotent | product/filters.py:91 | stripping twice is stripping once |
| Filters.FindSortField | product/filters.py:17-19 | a key finds a sort option iff it is the key of one, and yields that option |
| Filters.ValidateSortBy | product/filters.py:90-96 | accepted iff the stripped value is a sort key; a refusal carries the message and the original value |
| Filters.AcceptedSortValues | product/filters.py:90-91 | the accepted values are exactly `name` or `price` with any number of dashes before and after |
| Filters.DirectionIgnoredByValidation | product/filters.py:91 | `price` and `-price` (any dash padding) are accepted or refused together |
| Filters.GetNowSortedBy | product/filters.py:99-105 | no choice gives the `name` label; otherwise the label of the stripped first key, succeeding iff validation would accept that key, and KeyError with the stripped key otherwise |
| Filters.SortLabelOfKey | product/filters.py:100-102 | a sort key with any dash padding as first choice gives that option's label |
| Filters.SortedByIgnoresDirection | product/filters.py:100-102 | dashes around the first choice never change the answer |
| Filters.Put | product/filters.py:70 | after `d[k] = f`, k maps to f, every other key keeps its filter, and the length grows iff k was new |
| Filters.UpdateFind | product/filters.py:41-42 | after `update(d)` a key of d holds d's filter and every other key keeps its own |
| Filters.AttributeFiltersFind | product/filters.py:67-85 | the attribute filters have a key exactly for each slug, holding the filter of the last attribute with that slug |
| Filters.SortEntriesSorted | product/filters.py:43 | sorting the items gives keys in strictly increasing code-point order |
| Filters.SortKeepsFind | product/filters.py:43 | sorting the items changes no lookup |
| Filters.FilterTable | product/filters.py:41-43 | the table's keys are strictly increasing (one entry per key) and its items are those of the merged dictionary |
| Filters.FilterTableFind | product/filters.py:41-43 | a variant attribute's filter replaces a product attribute's with the same slug, which replaces the base filter of that name |
| Filters.FilterTableKeys | product/filters.py:41-43 | the table has a key exactly for price, sort_by and every product or variant attribute slug |
| Likes.WidgetContext | like/utils.py:31-73 | count text `Like` iff the count is 1; can_like is authentication; liked and the toggle route exist iff authenticated; text and class are Unlike/unlike, Like/like or Like/no_like by state |
| Likes.ClassDeterminesState | like/utils.py:53-73 | the like class alone tells apart anonymous, liked and not-yet-liked |
| Likes.ToggleFlipsButton | like/utils.py:31-58 | liking flips an authenticated user's button from Like/like to Unlike/unlike; a first like turns `Likes` into `Like` |

## Left out

- Views, URL configurations, admin classes and forms, migrations, template tags and app configs: these are HTTP, session and template plumbing.
- ORM querysets and managers (`CartQueryset`, the product querysets), and `get_cart`, `get_or_create_user_cart` and `get_user_cart`: these are session and database lookups.
- Concurrency: the read-modify-write race between two requests on one cart is not modelled.
- Decimal column widths (`max_digits`): the overflow of a ten-digit price column is not modelled; integers are unbounded.
- `token_is_valid`: it delegates to the UUID parser of the standard library.
- The price library (`PriceRange`, `price_as_dict`, the `Price` of `select_stockrecord`): costs are integer cents, and an absent cost counts as zero.
- JSON-LD output, `urlencode`, slugify and unidecode (`get_slug`, `get_variant_url`): these are foreign libraries.
- `ProductVariant.get_attributes`: it extends a list with a string, so it has no stable contract.
- `Cart.clear` and `Cart.count`: clear is a bare delete; count is the same SUM(quantity) as `CartModel.TotalQuantity`, returned inside a dict.
- `Cart.add`: the line model's `variant` field is commented out in the source. The model keys lines by a variant id, as the call `get_or_create(variant=variant)` intends.
- `Cart.add` also ends with `self.update_quantity()`, a method that does not exist. The model stops after the save or delete and its receivers. In the source, every call of `Cart.add` that gets that far raises AttributeError (cart/models.py:135) after its writes. So `remove_unavailable_variants` as written stops with that error after cleaning its first line, and its caller sees it. The model leaves this error out, and so describes the loop the code evidently intends.
- cart/cart_status.py and product/product_status.py are not part of this model.
  - The cart status codes `open`, `saved`, `payment`, `checkout` and `canceled` are assumed.
  - The availability statuses are an enum with one constructor per status named in product/utils.py.
- `select_stockrecord`'s default quantity of 1 is an ordinary parameter of `Stock.SelectStockRecord`.
- `Cart.add`'s defaults (`quantity=1, replace=False, check_quantity=True`, cart/models.py:103-104) are ordinary parameters of `CartAdd.AddWith`. Its unused `data` argument is dropped.
- `Category.get_full_path`: the ancestors query is a parameter (the ancestors' slugs, root first).
- Labels are `pgettext_lazy` messages; translation is not modelled, and a `Filters.Label` holds the context and the untranslated text.
- Like counts, the liked flag, the content type id and the object pk come from queries; they are parameters of `Likes.WidgetContext`.
- `reverse("likes:like_toggle", ...)` is not modelled: the widget holds the route's arguments.
- `ProductFilter._get_attributes` and the category lookups are not modelled: the attribute lists are parameters, and the base class's lookups raise NotImplementedError.
- The filter widgets (`CheckboxSelectMultiple`) and the `OrderingFilter`'s own choice handling are not modelled.
- `validate_sort_by` being appended to the form field's validators is not modelled.
- Filters.GetNowSortedBy: a missing `sort_by` and an empty list are both given as the empty sequence, since both are falsy.
- CartUtils.RemoveUnavailableVariants: the loop stops when a step deletes the cart or raises. With one line per variant, only the step on the last line can delete the cart (`CartUtils.CleanLineStep`), so nothing is skipped. When some variant has two lines, the step on the first line whose variant has two lines raises `MultipleLines`. The loop stops there, and the writes of the earlier steps stay.
- CartSignals.ApplyOp: a save or delete at a position past the last line is a no-op. Such a write has no counterpart in the source.
- CartSignals.PostDelete: swallowing an exception is modelled only for a line without a cart (the `NoCart` outcome). Other database errors are not modelled.

## Findings

| source | as written | input that shows it | evidently intended | confidence | as-written member | corrected member |
|---|---|---|---|---|---|---|
| cart/models.py:134 | `Cart.add` saves the line with `update_fields=['quantity']`. The pre_save receiver computes the total on the instance, but only the quantity column is written. | An empty cart, and a variant with 10 in stock priced 100 cents. Add 3: the line is stored with quantity 3 and total NULL, and the subtotal becomes NULL (from 0 on a new cart). | The stored line total is 3 × 100 = 300, and so is the subtotal. This is how the receivers of cart/signals.py:14-24 describe the totals. | not executed | CartAdd.AddAsWrittenLeavesTotalUnset | CartAdd.AddWritesTotal |
