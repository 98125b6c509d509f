# Collections catalog: a Dafny model of the product data layer

This is a model of the data layer of a product catalog. It has two parts, both working on one `products.json` list.

- **The browse page** (`js/data-service.js`, `js/app.js`):
  - loads the list;
  - filters it using a text search, category, status, condition and an inclusive price range;
  - lists the distinct values of a field;
  - looks up a product by id;
  - turns `resources/` image paths into URLs under the current resource base;
  - cleans tags, names and price input for display.
- **The admin editor** (`product-management-app/script.js`, `product-management-app/product-metadata.js`):
  - adds, edits and deletes products in place in its `products` array;
  - keeps a per-product list of edited images and of uploads waiting to be sent;
  - names uploaded files after the product title, the marketplace item id, the image index and a timestamp;
  - offers the sorted distinct categories and tags, and checks case-insensitively whether a typed category or tag is new.

Modules:

- `Wrappers`: `Option`.
- `Text`: the white-space set of `trim()` and `\s`, ASCII case mapping, `trim`, `includes`, decimal digits, `String(n)`, `padStart`, and the last dot of a name.
- `StringOrder`: the default order of `Array.prototype.sort` on strings. It also defines `[...new Set(xs)].sort()` as `SortedUnique`, and proves that result is strictly ascending, holds exactly the values of `xs`, and is the only such list.
- `Products`: the product record and the first-match look-ups `find` and `findIndex`.
- `Catalog`: the filter store, as `class DataService` with the fields `products`, `currentResourceBase` and `filters`.
- `Metadata`: the category and tag helpers, as pure functions.
- `Admin`:
  - new ids, file-name sanitising, marketplace-id extraction and upload file names;
  - the pure upsert, delete and image-choice functions;
  - `class Editor`, whose fields are the `products` array and the `editedImages` and `uploadedFiles` dictionaries, and whose methods perform the in-place updates of the handlers.
- `Browse`: `formatTag`, `capitalizeFirstLetter`, `validateNumberInput`, and the criteria record `handleSearch` builds.

The modelling choices:

- Prices are `real`.
- JavaScript `null` and `undefined` are `Option.None`. NaN from `parseInt` is `None` too.
- A product field that the criteria update does not carry is `None` in `CriteriaUpdate`.
- Regular expressions are written out as recursive functions that follow JavaScript's leftmost, greedy or lazy matching. The lemmas beside each function state what it removes, keeps or matches.

## Model

| member | source | states |
|---|---|---|
| Catalog.DataService.constructor | js/data-service.js:5-20 | Starts with no products, the local resource path as base, and the default criteria: empty text fields and no price bounds. |
| Catalog.DataService.ApplyFetchOutcome | js/data-service.js:26-101 | A remote list installs those products and the remote base. A local list installs those products and the local path. A double failure changes nothing and yields `[]`. The filters are untouched in every case. |
| Catalog.DataService.GetResourceUrl | js/data-service.js:109-137 | An absent or empty path gives the placeholder image. A path starting with `resources/` gives base + `/` + path. Any other path is returned unchanged. |
| Catalog.DataService.GetUniqueValues | js/data-service.js:145-150 | An empty list gives `[]`. Otherwise the result is strictly ascending and holds exactly the values the field takes over all products. |
| Catalog.FieldValues | js/data-service.js:148 | A value is in the mapped list exactly when some product has it in the field. |
| Catalog.DataService.FilterProducts | js/data-service.js:156-191 | The view is a subsequence of `products` in list order. A product is in it exactly when it is in the list and meets every criterion. It appears as often as in the list. |
| Catalog.SelectSubsequence | js/data-service.js:157 | `filter` keeps relative order: `Catalog.Select`, the filter by `Catalog.Matches`, gives a subsequence of the list. |
| Catalog.SelectMembership | js/data-service.js:157-190 | Membership in the filtered list holds exactly when the product is listed and matches. |
| Catalog.SelectMultiplicity | js/data-service.js:157-190 | A matching product keeps its multiplicity, and a non-matching one drops to zero. |
| Catalog.SelectAll | js/data-service.js:157-190 | If all products match, the view is the whole list. |
| Catalog.SelectNone | js/data-service.js:157-190 | If no product matches, the view is empty. |
| Catalog.DefaultSelectsAll | js/data-service.js:12-19 | The default criteria select every product. |
| Catalog.InvertedPriceRange | js/data-service.js:182-188 | A minimum above the maximum gives an empty view, with no error. |
| Catalog.BoundsInclusive | js/data-service.js:182-188 | Prices equal to either bound pass, because both bounds are inclusive. |
| Catalog.MergeNothing | js/data-service.js:198-200 | An update carrying no key leaves the criteria as they were. |
| Catalog.MergeEverything | js/data-service.js:198-200 | An update carrying all six keys replaces the whole record. |
| Catalog.MergeIdempotent | js/data-service.js:198-200 | Applying the same update twice equals applying it once. |
| Catalog.DataService.SetFilters | js/data-service.js:198-200 | The criteria become `Catalog.Merge` of the old ones and the update: overwritten by exactly the supplied keys. Products and base are unchanged. |
| Catalog.DataService.ResetFilters | js/data-service.js:205-214 | The criteria become the constructor's defaults. Products and base are unchanged. |
| Catalog.ResetIsIdempotent | js/data-service.js:205-214 | After one or two resets, the criteria are the defaults and filtering shows every product. |
| Catalog.DataService.GetProductById | js/data-service.js:221-223 | Gives none exactly when no product has the id. Otherwise it gives the product at the first index holding the id. |
| Products.FindIndex | product-management-app/script.js:480 | Gives -1 exactly when no product has the id. Otherwise it gives the first index holding it. |
| Products.FindById | product-management-app/script.js:455 | Gives the first product with the id, or none exactly when there is none. |
| StringOrder.SortedUnique | product-management-app/product-metadata.js:4 | `[...new Set(xs)].sort()` is strictly ascending and holds exactly the values of `xs`. |
| StringOrder.StrictlyAscendingUnique | product-management-app/product-metadata.js:4 | Two strictly ascending lists with the same values are equal, so the sorted distinct list is determined by the set alone. |
| StringOrder.LessTransitive | js/data-service.js:149 | The default sort order is transitive. |
| StringOrder.LessTotal | js/data-service.js:149 | The default sort order is total on distinct strings. |
| StringOrder.Distinct | product-management-app/product-metadata.js:4 | `new Set` keeps each value once and loses none. |
| Metadata.Categories | product-management-app/product-metadata.js:4 | The mapped categories are exactly the products' categories. |
| Metadata.ExtractUniqueCategories | product-management-app/product-metadata.js:3-5 | The result is strictly ascending and holds exactly the categories of the products. |
| Metadata.AllTagsMembership | product-management-app/product-metadata.js:9 | A tag is in the flattened list `Metadata.AllTags` exactly when some product lists it. |
| Metadata.ExtractUniqueTags | product-management-app/product-metadata.js:7-11 | The result is strictly ascending and holds exactly the union of the products' tags. |
| Metadata.InCategory | product-management-app/product-metadata.js:15-16 | A product is kept exactly when it is listed and has that category. |
| Metadata.CategoryTagsMembership | product-management-app/product-metadata.js:15-17 | A tag is among the flattened tags of a category exactly when a product of that category lists it. |
| Metadata.GetTagsByCategory | product-management-app/product-metadata.js:13-19 | The result is strictly ascending and holds exactly the tags of the products in that category. |
| Metadata.TagsByCategoryWithinAllTags | product-management-app/product-metadata.js:13-19 | The tags of a category are among all unique tags. A category no product has gives `[]`. |
| Metadata.AddNewCategory | product-management-app/product-metadata.js:21-33 | Gives none exactly when an existing category equals the trimmed input ignoring case. Otherwise it gives the trimmed input. |
| Metadata.AddNewTag | product-management-app/product-metadata.js:35-47 | The same rule over every tag of every product. The selected category plays no part. |
| Metadata.BlankCategory | product-management-app/product-metadata.js:23-32 | White-space input yields `""`, unless some product's category is `""`, in which case it yields none. |
| Metadata.BlankTag | product-management-app/product-metadata.js:37-46 | White-space input yields `""`, unless some product has the tag `""`, in which case it yields none. |
| Admin.ParseDigits | product-management-app/script.js:296 | `Admin.ParseInt`, JavaScript's `parseInt`, of a non-empty digit string is the number it denotes. |
| Admin.HexDigitPrefix | product-management-app/script.js:296 | The hexadecimal digits `parseInt` reads after `0x`: all hex digits, and the longest such run. |
| Admin.MaxIdNumber | product-management-app/script.js:296 | `Math.max(..., 0)`: defined exactly when every id's suffix parses. It is then the largest suffix number, or 0 when no suffix is larger: at least 0 and every suffix, and equal to 0 or to some suffix. |
| Admin.NewId | product-management-app/script.js:296-297 | `pNaN` exactly when some suffix does not parse. Otherwise `p` and at least three digits that read back as the maximum plus one, zero-padded no further than three digits: either exactly three digits or no leading zero, so the string is fixed. |
| Admin.NewIdExceeds | product-management-app/script.js:296-297 | When every id is `p` and digits, the new number exceeds every existing one. |
| Admin.NewIdDigits | product-management-app/script.js:297 | The new id's digits are the successor of the maximum, zero-padded to at least three. They read back as that number. |
| Admin.NewIdFresh | product-management-app/script.js:296-297 | When every id is `p` and digits, the new id differs from all existing ids. |
| Admin.NewIdWellFormed | product-management-app/script.js:297 | When every id is `p` and digits, so is the new id. |
| Admin.NewIdKeepsNumbering | product-management-app/script.js:296-310 | Appending the new product keeps every id of the form `p` and digits. |
| Admin.NewIdNaN | product-management-app/script.js:296-297 | One id whose suffix does not parse makes the new id `pNaN`. |
| Admin.NewIdOfEmptyList | product-management-app/script.js:296-297 | An empty list gives `p001`. |
| Admin.CreateNewProduct | product-management-app/script.js:294-310 | The new product has the new id, which is fresh when ids are `p` and digits. It also has empty title, category and description, `Available`, `New`, price 0, no images or tags, and an empty link. |
| Admin.RemoveDisallowed | product-management-app/script.js:347 | Only `a-z`, `0-9`, white space and `-` remain. |
| Admin.RemoveDisallowedConcat | product-management-app/script.js:347 | The global replace works character by character: it distributes over concatenation. |
| Admin.RemoveDisallowedChar | product-management-app/script.js:347 | One character is kept exactly when `[a-z0-9\s-]` matches it, and dropped otherwise. |
| Admin.RemoveDisallowedKept | product-management-app/script.js:347 | Text made only of allowed characters is unchanged. |
| Admin.SanitizeFilename | product-management-app/script.js:342-349 | The output contains only `a-z`, `0-9` and `-`. |
| Admin.SanitizeKept | product-management-app/script.js:344-348 | On allowed characters with no white space at either end, trimming, lower-casing and removal change nothing, and only `Admin.HyphenateWhitespace` acts. |
| Admin.SanitizeWords | product-management-app/script.js:342-349 | Two words of `a-z`, `0-9` and `-` separated by white space become the words joined by one `-`. |
| Admin.HyphenateKeptChars | product-management-app/script.js:348 | Hyphenating kept characters leaves no white space. |
| Admin.HyphenateRun | product-management-app/script.js:348 | `Admin.HyphenateWhitespace` turns each maximal run of white space into exactly one `-`, and hyphenates the text around it independently. |
| Admin.HyphenateRunOnly | product-management-app/script.js:348 | A non-empty run of white space alone becomes `-`. |
| Admin.HyphenateRunThen | product-management-app/script.js:348 | A run of white space in front of text not starting with white space becomes one `-` before that text's hyphenation. |
| Admin.HyphenateConcat | product-management-app/script.js:348 | Hyphenation distributes over a concatenation whose seam is not inside a white-space run. |
| Admin.HyphenateNoWhitespace | product-management-app/script.js:348 | Text without white space is unchanged. |
| Admin.SanitizeIdempotent | product-management-app/script.js:342-349 | Sanitizing a sanitized name changes nothing. |
| Admin.FirstItemLink | product-management-app/script.js:357 | Gives the leftmost position from which the case-insensitive `marketplace/item/` followed by a digit matches, or none when it matches nowhere. |
| Admin.ExtractMarketplaceItemId | product-management-app/script.js:352-362 | An absent or empty url gives the sentinel `no-marketplace-link`. Every result is either that sentinel or a non-empty string of digits. |
| Admin.ItemIdIsLeftmostMatch | product-management-app/script.js:352-362 | Any url, the empty one included, gives the sentinel exactly when the pattern matches nowhere. Otherwise the result is the maximal digit run after the leftmost match. |
| Admin.LastSegment | product-management-app/script.js:406 | `split('.').pop()` is the dot-free suffix after the last dot, or the whole name when there is no dot. |
| Admin.UploadKeepsExtension | product-management-app/script.js:401-410 | `Admin.UploadFilename` ends with `.` and `Admin.FileExtension`, the lower-cased extension of the original file. |
| Admin.UploadPathIsResource | product-management-app/script.js:410 | Every `Admin.UploadPath` starts with `resources/`, the prefix the browse page rewrites. |
| Admin.ChooseImages | product-management-app/script.js:471-477 | Gives the edited list if it is non-empty. Otherwise it gives the existing product's images, or `[]` when there is no product. |
| Admin.EmptiedEditKeepsImages | product-management-app/script.js:471-477 | An edited list emptied to `[]` falls back to the existing images. |
| Admin.UpdatedProduct | product-management-app/script.js:457-468 | The saved record carries the form's fields and the chosen images. The link becomes none exactly when its trimmed text is blank; otherwise it is the trimmed text. |
| Admin.Upsert | product-management-app/script.js:480-485 | A new id is appended and the length grows by one. Otherwise the first product with the id is replaced in place. Every other entry is unchanged. |
| Admin.UpsertThenFind | product-management-app/script.js:480-485 | After saving, looking the id up finds the saved product. |
| Admin.UpsertKeepsUniqueIds | product-management-app/script.js:480-485 | Saving keeps ids distinct. |
| Admin.UpsertIdempotent | product-management-app/script.js:480-485 | Saving the same product twice equals saving it once. |
| Admin.SpliceOne | product-management-app/script.js:574 | `splice(i, 1)` removes exactly element `i` and keeps the others in order. The multiset loses just that element. An index past the end changes nothing. |
| Admin.RemoveProduct | product-management-app/script.js:571-574 | The first product with the id is removed. The list is unchanged exactly when no product has the id. |
| Admin.RemoveThenFindNone | product-management-app/script.js:571-574 | With distinct ids, the deleted id is no longer found. |
| Admin.RemoveKeepsUniqueIds | product-management-app/script.js:571-574 | Deleting keeps ids distinct. |
| Admin.AddThenRemove | product-management-app/script.js:480-485 | Deleting a product just added under a new id restores the list. |
| Admin.FindUpload | product-management-app/script.js:434 | Gives the first pending upload with the path, or -1 exactly when there is none. |
| Admin.RemoveUpload | product-management-app/script.js:434-437 | The first pending upload with the path is dropped. The list is unchanged exactly when none has it. |
| Admin.FindUploadAppended | product-management-app/script.js:420-423 | A just-appended upload under a new path is found at the end. |
| Admin.AddThenRemoveUpload | product-management-app/script.js:420-437 | Removing a just-added upload under a new path restores the pending list. |
| Admin.Editor.constructor | product-management-app/script.js:2-4 | Starts with the loaded list and no edited images or pending uploads. |
| Admin.Editor.OpenEditModal | product-management-app/script.js:245-279 | No id or an empty one shows a new product; any other id shows its first product. The shown product's pending uploads are reset to `[]`. An unknown id changes nothing. |
| Admin.Editor.RemoveShownImage | product-management-app/script.js:331-335 | The edited list, first copied from the product's images when absent, loses entry `index`. Nothing else changes. |
| Admin.Editor.BeginImageUpload | product-management-app/script.js:366-389 | No files: nothing changes. Otherwise an absent pending list becomes `[]`, and an absent edited list becomes the product's images or `[]`. The current image count and the item id of the link are returned. |
| Admin.Editor.ImageLoaded | product-management-app/script.js:391-425 | File `index` of an upload is stored under the path built from the sanitized title, the item id, the image index `currentImageCount + index` and the timestamp, with the file's extension. The path is appended to the product's edited images, and the file with the path to its pending uploads. |
| Admin.Editor.RemoveUploadedImage | product-management-app/script.js:429-437 | The edited list loses entry `index`, and the first pending upload with the image's path is dropped. |
| Admin.Editor.UploadProductImages | product-management-app/script.js:526-564 | An absent or empty pending list sends nothing and changes nothing. Otherwise the list is sent and reset to `[]`. |
| Admin.Editor.SaveProductChanges | product-management-app/script.js:453-488 | The list becomes the upsert of the product the form describes, with the chosen images. Looking its id up finds it. Its pending uploads are sent and emptied. |
| Admin.Editor.DeleteProduct | product-management-app/script.js:568-587 | If confirmed, the first product with the id is removed and returned. A declined confirmation or an unknown id leaves the list unchanged. |
| Browse.StopAt | js/app.js:290 | Gives the first `]` or line terminator from the given position, which is where the lazy `.*?` stops. |
| Browse.FormatTag | js/app.js:288-291 | A tag not starting with `[`, or with no `]`, is unchanged. Otherwise the result is the text after some `]` with leading white space removed. |
| Browse.FormatTagStripsLabel | js/app.js:284-291 | `[label]`, white space, then `rest` is shown as `rest`. |
| Browse.FormatTagExample | js/app.js:285-286 | `[1] Bedsheet Set` is shown as `Bedsheet Set`. |
| Browse.FormatTagKeepsBrokenLabel | js/app.js:290 | A label that any line terminator interrupts before its `]` is kept. |
| Browse.CapitalizeFirstLetter | js/app.js:266-268 | The length is kept. Only the first character is upper-cased, the rest is unchanged, and `""` stays `""`. |
| Browse.CapitalizeIdempotent | js/app.js:266-268 | Capitalizing twice equals capitalizing once. |
| Browse.CapitalizeKeepsLowerCase | js/app.js:266-268 | Capitalizing changes the text only up to case. |
| Browse.KeepNumericChars | js/app.js:300 | Only digits and dots remain, with the same digits and the same number of dots. |
| Browse.KeepNumericCharsConcat | js/app.js:300 | The global replace works character by character: it distributes over concatenation. |
| Browse.KeepNumericCharsChar | js/app.js:300 | One character is kept exactly when it is a digit or a dot. |
| Browse.KeepNumericOfNumeric | js/app.js:300 | Text of digits and dots is unchanged. |
| Browse.RemoveLastDot | js/app.js:302 | On digits and dots: with two or more dots, exactly the last dot is cut out and the digits are kept; with fewer, the text is unchanged. |
| Browse.ValidateRemovesLastDot | js/app.js:302 | On digits and dots with two or more dots, exactly the last dot is removed. |
| Browse.ValidateNumberInput | js/app.js:297-304 | Numeric text is unchanged. Any other text becomes its digits and dots, in order. With two or more dots, exactly the last of them is then cut out. With at most two dots the result is numeric text. |
| Browse.ValidateLeavesTwoDots | js/app.js:302 | `1.2.3.4` becomes `1.2.34`, which is not numeric text. |
| Browse.ValidateNumberInputFixed | js/app.js:301 | The corrected cleaning always gives numeric text and leaves numeric text unchanged. Other text becomes its digits and dots, kept as they are up to and including the first dot, then digits only. |
| Browse.KeepFirstDot | js/app.js:301 | Every digit is kept, and exactly one dot when the text has a dot and none was seen before, otherwise none. Which dot survives is stated by `Browse.KeepFirstDotKeepsFirst`, for text of digits and dots. |
| Browse.KeepFirstDotKeepsFirst | js/app.js:301 | On digits and dots the text up to and including `Text.FirstDot` is kept, after it only the digits. |
| Browse.KeepFirstDotSeen | js/app.js:301 | Once a dot has been seen, only digits remain. |
| Browse.KeepFirstDotOfOneDot | js/app.js:301-302 | With at most one dot the corrected cleaning changes nothing. |
| Browse.KeepFirstOfTwoDots | js/app.js:301-302 | With exactly two dots the corrected cleaning cuts out the last dot, as the source does. |
| Browse.FixedAgreesUpToTwoDots | js/app.js:297-304 | With at most two dots, the corrected and the written cleaning agree. |
| Browse.PriceBound | js/app.js:122-123 | Empty text gives no bound; any other text gives its parsed number. |
| Browse.SearchUpdate | js/app.js:117-124 | All six keys are supplied, with the search term trimmed and each price text read as a bound. |
| Browse.SearchReplacesCriteria | js/app.js:117-127 | The criteria after a search do not depend on the criteria before it. |
| Browse.BlankSearchIsReset | js/app.js:117-127 | A search with every field empty, or only white space in the search box, installs the default criteria. |
| Browse.HandleSearch | js/app.js:115-134 | The criteria become the merge of the form's update. Products and base are unchanged. The shown list is the filtered view. |
| Browse.HandleReset | js/app.js:139-153 | Empties the form and restores the default criteria. Shows every product, which is also the filtered view. |
| Text.TrimAllWhitespace | product-management-app/product-metadata.js:23 | A white-space-only string trims to `""` under both `Text.TrimStart` and `Text.Trim`. |
| Text.TrimStartShape | product-management-app/product-metadata.js:23 | Trimming the start drops a prefix of white space only, and the rest does not start with white space. |
| Text.TrimEdges | product-management-app/script.js:345 | Text that neither starts nor ends with white space trims to itself. |
| Text.TrimStartAfterWhitespace | js/app.js:290 | The `\s*` after a label drops all white space up to the next non-white-space character. |
| Text.TrimStartConcat | js/app.js:290 | White space is dropped only from the front: text not made all of white space shields what follows it. |
| Text.DecimalStringValue | product-management-app/script.js:297 | `String(n)` is a non-empty digit string without a leading zero that reads back as `n`. |
| Text.LeadingZerosValue | product-management-app/script.js:297 | Zero padding does not change a digit string's value. |
| Text.DigitPrefix | product-management-app/script.js:296 | The greedy digit run at the start, as `parseInt` reads it: all digits, and maximal. |
| Text.ToLowerIdempotent | js/data-service.js:160-162 | Lower-casing twice equals lower-casing once. |
| Text.LastDot | product-management-app/script.js:406 | Gives the position of the last dot, or -1 when there is none. |
| Text.FirstDot | js/app.js:301 | Gives the position of the first dot, or -1 when there is none. |

## Left out

- Network I/O is not modelled. This covers the `fetch` calls in `fetchProducts`, `saveProductsToServer`, `uploadProductImages` and `archiveProductImages`. `fetchProducts` is reduced to the state its outcome leaves, passed as a `FetchOutcome`. `uploadProductImages` returns the list it would send.
- DOM work, rendering and event wiring are not modelled. This includes tables, modals, dropdowns, cards, popups, previews, notifications and console logging. The handlers are modelled by the state changes they make.
- Rendering is not modelled; `js/app.js:176-179` appends every card in one loop.
- `confirm`, `Date.now()` and `FileReader` become parameters: the confirmation flag, the timestamp in seconds, and the file name of a loaded file. The file's contents are not modelled.
- `parseFloat` is a parameter of `Browse.HandleSearch`. The form's price is already a number in `Admin.EditForm`. A NaN bound compares false both ways in the source, so it acts like no bound; this is not modelled.
- `Catalog.DataService.GetUniqueValues` covers only the text fields. For number or array fields, `sort()` compares the values' string forms, and that is not modelled.
- Letter case is ASCII only in `toLowerCase` and `toUpperCase`. String order is by character code, as JavaScript's is by UTF-16 code unit. Characters outside the Basic Multilingual Plane, which JavaScript splits into surrogate pairs, are not modelled.
- `Admin.ParseInt` gives every decimal id its exact value. The source's numbers are doubles, so ids of 2^53 and above lose precision and ids of 10^21 and above print in exponent form. Neither is modelled.
- `Admin.Editor.OpenEditModal`: for an id no product has, the source throws while reading `product.id`. No state has changed by then, and the model returns none with nothing changed.
- `Admin.Editor.SaveProductChanges`: in the source the saved product shares its images array with `editedImages[id]`, so later removals in the editor also change the saved product. The model works on values and does not capture this aliasing.
- Admin.Editor.ImageLoaded: `handleImageUpload` runs one `FileReader` callback per file, and they may finish in any order. The model has `Admin.Editor.BeginImageUpload` and then one `ImageLoaded` call per file, given its index. No method combines the calls for a whole batch, so the model fixes no order of their effects.
- Admin.RemoveDisallowed: its own contract states only the alphabet of the result. The exact result follows from `Admin.RemoveDisallowedConcat` and `Admin.RemoveDisallowedChar`.
- Admin.SanitizeFilename: its own contract states only the alphabet of the result. `Admin.SanitizeKept`, `Admin.SanitizeWords`, `Admin.HyphenateRun` and `Admin.SanitizeIdempotent` state what the four steps do together on the inputs they name. Inputs where removal leaves white space at an edge, such as `! lamp`, are covered only by the definition.
- Browse.KeepNumericChars: its own contract states counts and digits. The exact result follows from `Browse.KeepNumericCharsConcat` and `Browse.KeepNumericCharsChar`.
- `Admin.SpliceOne` takes a natural index. The indices come from `forEach` and from `data-index` attributes written by the page, so negative `splice` indices are not modelled.
- `js/product-detail.js` is not part of this model: it is DOM and URL-parameter reading.
- `product-management-app/server.js` is not part of this model: it is the Express and file-system server.
- `product-management-app/constants.js` and `product-management-app/notifications.js` are not part of this model. Only the image path `resources/images/` is taken from `product-management-app/client-constants.js:22`.
- `loadProducts` (product-management-app/script.js:25-35) is a `fetch`; `Admin.Editor.constructor` takes the list it reads. Dropdown population (`populateCategoryDropdown`, `populateTagsDropdown`) is DOM work over `Metadata`'s functions.

## Findings

| source | as written | input that shows it | evidently intended | confidence | as-written member | corrected member |
|---|---|---|---|---|---|---|
| js/app.js:302 | `replace(/(\..*)\./g, '$1')` makes one greedy match from the first dot to the last, so only the last dot is removed | pasting or dropping text that brings three or more dots, such as `1.2.3.4`, leaves `1.2.34`, which still has two decimal points; typing one key at a time never does, since the field holds at most one dot before each key | "only one decimal point": keep the first dot and drop every later one | not executed | Browse.ValidateLeavesTwoDots | Browse.ValidateNumberInputFixed |
