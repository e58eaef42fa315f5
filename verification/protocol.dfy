/**
 * How the editor's requests meet the serializer: the colour list the editor
 * sends always matches the files it sends, and a removal recorded during one
 * edit survives a reload of the same product and deletes the image on save.
 */
module Protocol {
  import opened Options
  import opened Catalog
  import opened Store
  import opened Serializer
  import opened ColorMap
  import opened Draft
  import opened Submission
  import opened Editor

  /** Outside edit mode the editor posts, and a post never carries a removal part. */
  lemma PostCarriesNoRemovals(d: Draft)
    requires BuildRequest(d).verb == Post
    ensures ValuesOf(BuildRequest(d).parts, "removed_images") == []
  {
    SubmittedRemovals(d);
  }

  /**
   * A create built from what the editor posts is never rejected: the file
   * and colour counts are equal, and a post carries no removal part, so the
   * removal list is absent from the validated data.
   */
  lemma EditorCreateNeverRejected(d: Draft, s: Store, data: CreateData)
    requires BuildRequest(d).verb == Post
    requires |data.uploadedImages| == |ValuesOf(BuildRequest(d).parts, "uploaded_images")|
    requires |data.imageColors| == |ValuesOf(BuildRequest(d).parts, "image_colors")|
    requires data.removedImages.Some? ==> ValuesOf(BuildRequest(d).parts, "removed_images") != []
    ensures Create(s, data).outcome.Success?
  {
    ColorCountMatchesFiles(d);
    PostCarriesNoRemovals(d);
  }

  /** Nor on update. */
  lemma EditorUpdateNeverRejected(d: Draft, s: Store, pid: ProductId, data: UpdateData)
    requires pid in s.products
    requires |data.uploadedImages| == |ValuesOf(BuildRequest(d).parts, "uploaded_images")|
    requires |data.imageColors| == |ValuesOf(BuildRequest(d).parts, "image_colors")|
    ensures Update(s, pid, data).outcome.Success?
  {
    ColorCountMatchesFiles(d);
  }

  /**
   * Whatever the user does, the product type a submit sends is one of the
   * codes the serializer's type choices accept, and it reads back as itself.
   */
  lemma SentTypeIsDeclared(events: seq<Event>)
    requires AdmitsAll(EmptyDraft, events)
    ensures var sent := ValuesOf(BuildRequest(Run(EmptyDraft, events)).parts, "product_type");
            && |sent| == 1 && sent[0].Text?
            && ParseProductType(sent[0].text).Some?
            && ProductTypeCode(ParseProductType(sent[0].text).value) == sent[0].text
  {
    var d := Run(EmptyDraft, events);
    ReachableDraftsWellFormed(events);
    SubmittedScalars(d);
  }

  /**
   * Edit a product, remove its one image, then click edit on the same
   * product again: the image is back on screen, yet its id is still sent for
   * removal, and the server deletes it.
   */
  lemma ReloadKeepsRecordedRemoval(s: Store, data: UpdateData)
    requires 7 in s.products && 3 in s.images && s.images[3].product == 7
    requires data.removedImages == [3]
    ensures var img := ListedImage(3, "/media/product_images/a.png", None);
            var p := ListedProduct(7, "Bag", "Canvas", "12.00", TotebagCode, None, [img]);
            var d := BeginEdit(RemovePreview(BeginEdit(EmptyDraft, p), 0), p);
            && d.previews == [img.url]
            && ValuesOf(BuildRequest(d).parts, "removed_images") == [Number(3)]
            && 3 !in Update(s, 7, data).store.images
  {
    var img := ListedImage(3, "/media/product_images/a.png", None);
    var p := ListedProduct(7, "Bag", "Canvas", "12.00", TotebagCode, None, [img]);
    assert img.url[..|BlobPrefix|][0] == '/';
    RemovingLoadedImageRecordsItsId(EmptyDraft, p, 0);
    var d := BeginEdit(RemovePreview(BeginEdit(EmptyDraft, p), 0), p);
    assert d.removedImageIds == [3];
    SubmittedRemovals(d);
  }

  /**
   * The editor sends one colour per file, so the serializer pairs every file
   * with the text sent at its position (`''` where no colour was chosen) and
   * never with null.
   */
  lemma EditorPairsEveryFileWithSentColor(d: Draft, uploads: seq<Upload>, colors: seq<string>)
    requires |uploads| == |ValuesOf(BuildRequest(d).parts, "uploaded_images")|
    requires ValuesOf(BuildRequest(d).parts, "image_colors")
               == seq(|colors|, k requires 0 <= k < |colors| => Text(colors[k]))
    ensures |PairUploads(uploads, colors)| == |uploads|
    ensures forall k :: 0 <= k < |uploads| ==>
              PairUploads(uploads, colors)[k] == (uploads[k], Some(ColorOrEmpty(d.colors, k)))
  {
    SubmittedFiles(d);
    SubmittedColors(d);
    var sent := ValuesOf(BuildRequest(d).parts, "image_colors");
    assert |colors| == |d.images|;
    forall k | 0 <= k < |uploads|
      ensures colors[k] == ColorOrEmpty(d.colors, k)
    {
      assert sent[k] == Text(colors[k]);
      assert sent[k] == Text(ColorOrEmpty(d.colors, k));
    }
  }

  /**
   * The viewset's destroy, applied to what the delete button sends: the
   * item's product is deleted, and its images with it; without a request
   * nothing changes.
   */
  function ServeDelete(s: Store, req: Option<Request>): Store {
    match req
    case Some(Request(Delete, Item(id), _)) => if id >= 0 then DeleteProduct(s, id) else s
    case _ => s
  }

  /** A confirmed delete removes the product and exactly its images; a declined one changes nothing. */
  lemma DeleteRequestDeletesProduct(s: Store, pid: ProductId, confirmed: bool)
    ensures var r := ServeDelete(s, DeleteRequest(pid, confirmed));
            && (confirmed ==>
                  && r.products == s.products - {pid}
                  && (forall iid :: iid in r.images <==> iid in s.images && s.images[iid].product != pid)
                  && ImagesOf(r, pid) == [])
            && (!confirmed ==> r == s)
  {
    if confirmed {
      DeletedProductHasNoImages(s, pid);
    }
  }
}
