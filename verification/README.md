# Product catalog editor: draft state machine and serializer transitions

This project models the two halves of a small product-catalog admin and the records they share.

- **Records** (module `Catalog`): the `Product` and `ProductImage` rows. This covers:
  - the product-type and colour choices;
  - the column lengths;
  - the ten-digit, two-place decimal price, held as integer cents;
  - the defaults.
- **Store** (module `Store`): the database as two id-keyed tables. It has:
  - auto-incremented fresh ids and foreign-key integrity, which is a subset-type invariant;
  - a cascading product delete;
  - the images of a product listed in ascending `order`.
- **Serializer** (module `Serializer`): the product serializer's `create` and `update` as pure transitions on the store. Each returns the resulting store together with the product id or an error. The error is the colour-count validation error, or, for a create that carries a removal list, the unknown-keyword error.
- **Editor draft** (modules `ColorMap`, `Draft`, `Editor`): the admin page's editor state, with one pure transition per state updater:
  - typing into a field;
  - choosing files;
  - removing a preview;
  - choosing a colour;
  - starting an edit;
  - cancelling;
  - a submit settling.

  `Editor` closes these into a state machine over user events and proves an invariant for every reachable draft.
- **Submission** (module `Submission`): the multipart request a submit builds from a draft (part names, values, method, endpoint), and the delete request.
- **Protocol** (module `Protocol`): lemmas that join the editor to the serializer.

## Behaviour modelled as written

The model follows the code where its behaviour departs from what its own comments or neighbouring code suggest. Each item below is a proved fact.

- **Removing a preview empties the colour object.**
  - The comment at `moroadmin/src/AdminProducts.js:91` says the remaining colours are re-indexed after the removal.
  - The loop's bound is `prev.length`, and the colour object is always a plain object (lines 19, 103-106, 200-204). A plain object has no `length`, so the loop never runs.
  - `ColorMap.RemoveColorAt` states the result is empty.
  - The intended re-index is `ColorMap.ShiftDown`. `ColorMap.ReindexWithLengthShiftsDown` proves that the same loop with a real length would compute it.
  - `ColorMap.RemovingMiddleOfThree` works the three-colour example: RED, BLUE, GREEN with the middle one removed. The intended result is RED, GREEN; the code leaves no colours.
- **Edit mode filters previews and pending files by the same position, yet the two lists are not aligned.**
  - In edit mode the previews are the loaded image URLs followed by the blobs of chosen files, while the pending files are only the chosen files.
  - `Editor.EditRemovalMisalignsScenario`, `Editor.EditRemovalOfChosenFileKeepsIt` and `Editor.EditRemovalOfLoadedImageDropsFile` show the mismatch.
  - Submit reads colours at file positions 0.., which in edit mode are loaded images' positions. `Submission.EditSendsLoadedColors` and `Submission.EditIgnoresColorChosenForNewFile` show this.
  - In edit mode the colour object has a key for every loaded image while no files are pending: `Draft.BeginEdit` states both.
- **Starting an edit keeps earlier removals.** `handleEdit` does not clear the removed-id list. `Protocol.ReloadKeepsRecordedRemoval` shows the result: an image removed and then shown again by a re-edit is still deleted on save.
- **Writes made before a rejection persist.**
  - No transaction encloses `products/serializers.py:36-90` or `morotote_backend/products/views.py:30-59`.
  - A rejected create leaves a product with no images (`Serializer.RejectedCreateLeavesBareProduct`).
  - A rejected update keeps its deletions (`Serializer.Update`).
- **A create that carries a removal list fails before any write.** `removed_images` is an optional list field (`products/serializers.py:22-26`), and `create` pops only the files, colours and sizes (lines 37-41). A removal list therefore reaches `Product.objects.create` (line 43) as an unknown keyword, which raises before the product is saved. The viewset turns this into a 400 response (`morotote_backend/products/views.py:38-40`). `Serializer.Create` states that the store is then unchanged. `Protocol.PostCarriesNoRemovals` shows the editor never sends such a list on a create.
- **Colour choices are not enforced on write.** The serializer validates each colour only as text of at most ten characters. `Serializer.CreateAcceptsUndeclaredColor` stores a colour outside the six choices.

## Model

| member | source | states |
|---|---|---|
| Catalog.ProductTypeCode | morotote_backend/products/models.py:5-17 | each product type's stored code is non-empty and fits the ten-character column |
| Catalog.ParseProductType | morotote_backend/products/models.py:5-8 | exactly the two declared codes are accepted; an accepted code round-trips through its type |
| Catalog.ColorCode | morotote_backend/products/models.py:31-47 | each colour's stored code is non-empty and fits the ten-character column |
| Catalog.ParseColor | morotote_backend/products/models.py:31-38 | exactly the six declared colour codes are accepted; an accepted code round-trips through its colour |
| Catalog.DigitCountBound | morotote_backend/products/models.py:12 | a magnitude needs at most k decimal digits exactly when it lies below 10^k |
| Catalog.ValidPriceRange | morotote_backend/products/models.py:12 | a price with ten digits and two decimal places is exactly a cent amount strictly between -10^10 and 10^10 |
| Catalog.ValidImageColorFits | morotote_backend/products/models.py:42-47 | every colour the image schema admits (a choice, blank or null) fits its ten-character column |
| Store.InsertProduct | products/serializers.py:43 | a new product row goes under an id not in use, with every other row and the image counter unchanged |
| Store.InsertImage | products/serializers.py:54 | a new image row for an existing product goes under the next, unused image id; products are unchanged |
| Store.DeleteImages | products/serializers.py:62-65 | exactly the listed image rows disappear; every other row is kept unchanged |
| Store.DeleteProduct | morotote_backend/products/models.py:40 | deleting a product deletes exactly the images it owns (cascade) and keeps every other image unchanged |
| Store.SortByOrder | morotote_backend/products/models.py:51-52 | the listing is a permutation of its input in non-decreasing image order |
| Store.ImagesOf | morotote_backend/products/models.py:40-52 | a product's image listing holds each image it owns exactly once, and nothing else, in ascending order |
| Store.DeletedProductHasNoImages | morotote_backend/products/models.py:40 | after a cascading delete the product lists no images |
| Store.SortStableOnEqualOrders | morotote_backend/products/models.py:49-52 | when every image has the default order 0, the listing keeps the order it was given, under the creation-order tie-break |
| Store.ListingOfFreshBlock | morotote_backend/products/models.py:40-52 | a product that owns exactly a contiguous block of images, all with the default order 0, lists them in id order, under the creation-order tie-break |
| Store.SameOwnedRowsSameListing | morotote_backend/products/models.py:40-52 | a product's listing depends only on the image rows it owns |
| Serializer.PairUploads | products/serializers.py:52-53 | the k-th file is paired with the k-th colour if there is one, otherwise with null |
| Store.OwnedBelowIsBlock | morotote_backend/products/models.py:40 | when a product owns exactly a contiguous block of ids, its ascending list of owned ids is that block |
| Serializer.AttachUploads | products/serializers.py:52-54 | one new image row per file, in order, under consecutive fresh ids, each a default image of the owner with its paired colour; existing rows are unchanged |
| Serializer.Create | products/serializers.py:22-56 | a create that carries a removal list fails with the store unchanged; otherwise the product is saved with its defaults (tote bag, null sizes) before the count check; the call fails exactly when a removal list is present or a non-empty colour list differs in length from the files; on failure no image is added; on success the k-th file becomes the k-th fresh image with colour k or null |
| Serializer.RemoveOwned | products/serializers.py:60-65 | an image is deleted exactly when its id is listed and it belongs to the product; ids of other products' images are ignored |
| Serializer.Update | products/serializers.py:58-90 | the listed owned images are deleted even when the call is then rejected; the call fails exactly when files were uploaded with a non-empty colour list of different length; on failure the products are unchanged; on success new images are attached in order and each absent scalar keeps its old value |
| Serializer.CreateOwnsFreshBlock | products/serializers.py:52-54 | after a successful create the new product owns exactly the block of fresh image ids, all with order 0 |
| Serializer.CreateListsUploadsInOrder | products/serializers.py:52-54 | after a successful create the product lists its images in upload order, under the creation-order tie-break |
| Serializer.RejectedCreateLeavesBareProduct | products/serializers.py:43-50 | a rejected create still leaves the new product stored, with an empty image listing |
| Serializer.AttachIfAny | products/serializers.py:75-81 | the update's attach step adds exactly one fresh image per uploaded file, in order with its paired colour, keeps every existing row and leaves the products unchanged |
| Serializer.UpdateIgnoresColorsWithoutUploads | products/serializers.py:75-81 | with no files uploaded, the colour list has no effect and the update succeeds |
| Serializer.CreatePreservesValidity | products/serializers.py:12-56 | a create with validated fields keeps every product row valid and every stored colour within its column |
| Serializer.UpdatePreservesValidity | products/serializers.py:58-90 | an update with validated fields keeps every product row valid and every stored colour within its column |
| Serializer.UpdateResultValid | products/serializers.py:58-90 | any store an update can leave behind, as its contract describes it, is valid, whether the call succeeds or fails |
| Serializer.ColorsFitAfterAttach | products/serializers.py:17-21 | rows kept from the old store or freshly attached with colours of at most ten characters keep every colour within its column |
| Serializer.CreateAcceptsUndeclaredColor | products/serializers.py:17-21 | a colour that passes field validation but is none of the six choices is stored by a successful create |
| Serializer.CreateKeepsOtherListings | products/serializers.py:52-54 | a create leaves every existing product's image listing as it was |
| Serializer.UpdateKeepsOtherListings | products/serializers.py:60-81 | an update leaves every other product's image listing as it was, whatever ids are listed for removal |
| ColorMap.RemoveColorAt | moroadmin/src/AdminProducts.js:89-99 | removing any preview leaves the colour object empty, because the loop bound is undefined on a plain object |
| ColorMap.ShiftDown | moroadmin/src/AdminProducts.js:88-91 | the intended re-index: position k of the result holds the colour that was at k before the removed position and at k+1 after it |
| ColorMap.ReindexLoopComputesShift | moroadmin/src/AdminProducts.js:92-97 | each iteration of the loop, given a real bound, extends the re-indexed prefix by one position |
| ColorMap.ReindexWithLengthShiftsDown | moroadmin/src/AdminProducts.js:89-99 | with a real length that covers every key, the loop computes the intended re-index |
| ColorMap.RemovingMiddleOfThree | moroadmin/src/AdminProducts.js:89-99 | RED, BLUE, GREEN with the middle one removed: the intended result is RED, GREEN at 0 and 1; the code leaves no colours |
| Draft.SetField | moroadmin/src/AdminProducts.js:59-62 | typing into an input sets the field it names and leaves every other field and list unchanged |
| Draft.AddFiles | moroadmin/src/AdminProducts.js:64-70 | chosen files are appended to the pending files and their blob URLs to the previews, in order, keeping existing entries and all other state |
| Draft.WithoutIndex | moroadmin/src/AdminProducts.js:82-86 | filtering by position drops exactly that position when it is in range and nothing otherwise |
| Draft.FindByUrl | moroadmin/src/AdminProducts.js:75 | nothing is found exactly when no image has the URL; otherwise the first image with that URL is found |
| Draft.RemovePreview | moroadmin/src/AdminProducts.js:72-100 | at most one id is recorded; one is recorded exactly when editing and the preview exists, is non-empty, is not a blob and matches a loaded image; the id is the first match's id; both lists lose the position when in range and keep their order; the colours are emptied; nothing else changes |
| Draft.SetColor | moroadmin/src/AdminProducts.js:102-107 | choosing a colour sets that position's key and leaves every other key and all other state unchanged |
| Draft.BeginEdit | moroadmin/src/AdminProducts.js:184-205 | an edit loads the product's fields (null sizes as empty) and clears the pending files; previews are the image URLs in order; the colour keys are exactly the image positions, each holding the image's colour or empty; earlier removed ids are kept |
| Draft.SubmitSettled | moroadmin/src/AdminProducts.js:158-178 | a successful submit resets to the initial draft; a failed one leaves the draft unchanged |
| Draft.CancelMatchesSave | moroadmin/src/AdminProducts.js:337-354 | cancelling and saving reset to the same state, the initial one (tote bag, not editing) |
| Editor.StepKeepsWellFormed | moroadmin/src/AdminProducts.js:59-107 | every transition the form admits keeps the draft well formed: no more files than previews, colours only at preview positions, and outside edit mode one blob preview per file |
| Editor.RunKeepsWellFormed | moroadmin/src/AdminProducts.js:59-107 | any admitted event sequence keeps a well-formed draft well formed |
| Editor.ReachableDraftsWellFormed | moroadmin/src/AdminProducts.js:8-19 | every draft reachable from the initial state is well formed |
| Editor.RemovingJustChosenFileUndoesChoice | moroadmin/src/AdminProducts.js:64-86 | outside edit mode, removing the preview of a file just chosen restores the files, previews and removed ids |
| Editor.EditRemovalOfChosenFileKeepsIt | moroadmin/src/AdminProducts.js:82-86 | in edit mode with loaded images shown, removing a chosen file's preview hides it but leaves the file pending |
| Editor.EditRemovalOfLoadedImageDropsFile | moroadmin/src/AdminProducts.js:82-86 | in edit mode, removing a loaded image's preview also drops the pending file at that position |
| Editor.RemovingLoadedImageRecordsItsId | moroadmin/src/AdminProducts.js:72-79 | removing the preview of a loaded image with a unique, non-blob URL records exactly that image's id |
| Editor.RemovingChosenFileRecordsNothing | moroadmin/src/AdminProducts.js:72-79 | removing the preview of a chosen file records no id, in either mode |
| Editor.EditRemovalMisalignsScenario | moroadmin/src/AdminProducts.js:64-99 | one loaded image and two chosen files, then the loaded preview removed: its id is recorded, both blob previews stay, and the first chosen file is dropped |
| Submission.BuildRequest | moroadmin/src/AdminProducts.js:144-147 | an edit sends PUT to the edited product's item; otherwise POST to the collection |
| Submission.SubmittedScalars | moroadmin/src/AdminProducts.js:115-125 | each scalar field is sent once with the draft's value; the sizes are sent only for a T-shirt and are empty otherwise |
| Submission.SubmittedFiles | moroadmin/src/AdminProducts.js:128-130 | one file part per pending file, in order |
| Submission.SubmittedColors | moroadmin/src/AdminProducts.js:132-135 | one colour part per pending file, read at the file's position, empty where none is set |
| Submission.SubmittedRemovals | moroadmin/src/AdminProducts.js:137-142 | the recorded removals are sent in order, and only in edit mode |
| Submission.SubmittedParts | moroadmin/src/AdminProducts.js:114-147 | for each part name the form sends, the list of values sent under it, in order |
| Submission.ColorCountMatchesFiles | moroadmin/src/AdminProducts.js:128-135 | a submit sends exactly as many colours as files |
| Submission.DeleteRequest | moroadmin/src/AdminProducts.js:207-218 | a delete is sent exactly when confirmed, as DELETE to the product's item with no body |
| Submission.CreateSendsChosenColor | moroadmin/src/AdminProducts.js:102-135 | outside edit mode, the colour chosen at a file's preview is the colour sent for that file |
| Submission.EditSendsLoadedColors | moroadmin/src/AdminProducts.js:132-135 | in edit mode, with no more chosen files than loaded images, the colours sent for the chosen files are the loaded images' colours at positions 0.. |
| Submission.EditIgnoresColorChosenForNewFile | moroadmin/src/AdminProducts.js:102-135 | in edit mode, a colour chosen at a new file's preview is not sent; the first loaded image's colour is sent instead |
| Protocol.PostCarriesNoRemovals | moroadmin/src/AdminProducts.js:137-147 | a request the editor sends as POST carries no `removed_images` part |
| Protocol.EditorCreateNeverRejected | products/serializers.py:36-50 | a create whose counts are those the editor posts, and whose removal list is present only when the post carries one, never fails |
| Protocol.EditorUpdateNeverRejected | products/serializers.py:75-77 | an update whose counts are those the editor sends never fails the colour-count check |
| Protocol.SentTypeIsDeclared | moroadmin/src/AdminProducts.js:273-283 | after any admitted event sequence, a submit sends exactly one product type, one of the declared codes, which reads back as itself |
| Protocol.EditorPairsEveryFileWithSentColor | products/serializers.py:52-53 | with the files and colours the editor sends, the serializer pairs file k with the text sent at position k (empty where no colour was chosen), never with null |
| Protocol.DeleteRequestDeletesProduct | morotote_backend/products/views.py:61-75 | a confirmed delete removes the product and exactly the images it owns, leaving its listing empty; a declined one leaves the store unchanged |
| Protocol.ReloadKeepsRecordedRemoval | moroadmin/src/AdminProducts.js:184-205 | after removing an image and re-editing the same product, the image is shown again, yet its id is sent for removal and the server deletes it |

## Left out

- Network and asynchronous flow: `fetch`, JSON decoding, the loading flag and error-message strings. A submit's outcome is a boolean input to `Draft.SubmitSettled`, and re-fetching the product list is not modelled.
- Rendering, and the browser's confirmation dialog. The dialog's answer is a boolean input to `Submission.DeleteRequest`.
- Editor.Admissible: keeps the restrictions the rendered form imposes on events, not the rendering itself. It requires that:
  - the type selector send a declared code (lines 275-283);
  - a colour selector offer blank or a declared colour (lines 314-325);
  - chosen files come with their blob URLs;
  - remove buttons and colour selectors exist only at preview positions (lines 314-327);
  - cancel be possible only while editing;
  - an edited product have a declared type.

  A response may settle in any draft. The `required` inputs at `moroadmin/src/AdminProducts.js:248`, `258` and `269` block only the sending of a request, and while it is in flight only the submit button is disabled (line 334). The model has no separate send event, so the required-field check, the number input's format and its `step` are not modelled, and a submitted price is any text.
- Blob URL creation and revocation. A chosen file's preview is a string with the `blob:` prefix, supplied with the file.
- Server URLs. They are abstracted to an `Endpoint` (collection or item), and the authorization header is not modelled.
- Decimal parsing and field validation. Parsing the price text and the other type checks the serializer performs before `create`/`update` are not modelled: those operations take validated data, with price in integer cents. `ValidCreateData` and `ValidUpdateData` keep only the length and digit limits.
- PUT's required-field checks. Update data has every scalar optional, which also covers a partial update.
- The ORM and file storage. Deleting an image's stored file and the files' contents are not modelled; an upload is the name it is stored under.
- Timestamps and listing order. `created_at`, `updated_at` and the viewset's newest-first product listing are not modelled.
- Framework plumbing. The viewset wrappers, logging, exception-to-400 mapping, token authentication, the HTML detail view, URL routing, the schema migration and the login screen hold no logic of their own. A product delete is modelled by `Store.DeleteProduct`.
- Store.ImagesOf: ties in `order` are listed in creation order. The database leaves the order of equal-order rows unspecified.
- Editor.RemovingLoadedImageRecordsItsId: assumes the loaded images' URLs are distinct. For duplicate URLs, `Draft.RemovePreview` states the general rule, that the first match's id is recorded.
