/**
 * The editor as a state machine over user events, the invariant every
 * reachable draft keeps, and the consequences of filtering previews and
 * pending files by the same position.
 */
module Editor {
  import opened Options
  import opened ColorMap
  import opened Draft
  import Catalog

  /** What the rendered form lets a user do. */
  datatype Event =
    | Typed(field: Field, value: string)
    | FilesChosen(files: seq<UploadFile>, urls: seq<string>)
    | PreviewRemoved(index: int)
    | ColorChosen(position: nat, color: string)
    | EditClicked(product: ListedProduct)
    | CancelClicked
    | SubmitSettledWith(succeeded: bool)

  /**
   * Which events the form can raise in state `d`:
   * - the type selector offers only the declared type codes;
   * - chosen files come with the blob URLs the browser made;
   * - a remove button and a colour selector exist for each preview, and the
   *   colour selector offers blank and the six colour codes;
   * - the server lists only products of a declared type;
   * - the cancel button exists only while editing.
   * A response may settle in any draft: the required inputs gate only the
   * sending of a request, and while it is in flight only the submit button
   * is disabled, so the fields may have been edited or cleared meanwhile.
   */
  predicate Admissible(d: Draft, e: Event) {
    match e
    case Typed(f, v) => f == ProductTypeField ==> Catalog.ParseProductType(v).Some?
    case FilesChosen(files, urls) => BlobUrlsFor(files, urls)
    case PreviewRemoved(i) => 0 <= i < |d.previews|
    case ColorChosen(i, c) => i < |d.previews| && (c == "" || Catalog.ParseColor(c).Some?)
    case EditClicked(p) => Catalog.ParseProductType(p.productType).Some?
    case CancelClicked => d.editing.Some?
    case SubmitSettledWith(_) => true
  }

  function Step(d: Draft, e: Event): Draft
    requires Admissible(d, e)
  {
    match e
    case Typed(f, v) => SetField(d, f, v)
    case FilesChosen(files, urls) => AddFiles(d, files, urls)
    case PreviewRemoved(i) => RemovePreview(d, i)
    case ColorChosen(i, c) => SetColor(d, i, c)
    case EditClicked(p) => BeginEdit(d, p)
    case CancelClicked => CancelEdit(d)
    case SubmitSettledWith(ok) => SubmitSettled(d, ok)
  }

  predicate AdmitsAll(d: Draft, events: seq<Event>)
    decreases |events|
  {
    |events| == 0 || (Admissible(d, events[0]) && AdmitsAll(Step(d, events[0]), events[1..]))
  }

  function Run(d: Draft, events: seq<Event>): Draft
    requires AdmitsAll(d, events)
    decreases |events|
  {
    if |events| == 0 then d else Run(Step(d, events[0]), events[1..])
  }

  /**
   * The shape every reachable draft has: a declared product type, no more
   * pending files than previews, colours only at preview positions, and
   * outside edit mode one blob preview per pending file.
   */
  predicate WellFormed(d: Draft) {
    && Catalog.ParseProductType(d.productType).Some?
    && |d.images| <= |d.previews|
    && (forall k :: k in d.colors ==> k < |d.previews|)
    && (d.editing.None? ==>
          && |d.images| == |d.previews|
          && forall k :: 0 <= k < |d.previews| ==> IsBlobUrl(d.previews[k]))
  }

  lemma StepKeepsWellFormed(d: Draft, e: Event)
    requires WellFormed(d) && Admissible(d, e)
    ensures WellFormed(Step(d, e))
  {
    match e
    case FilesChosen(files, urls) =>
      var r := AddFiles(d, files, urls);
      forall k | 0 <= k < |r.previews| && r.editing.None?
        ensures IsBlobUrl(r.previews[k])
      {
        if k < |d.previews| {
          assert r.previews[k] == r.previews[..|d.previews|][k];
        } else {
          assert r.previews[k] == r.previews[|d.previews|..][k - |d.previews|];
        }
      }
    case _ =>
  }

  lemma {:induction false} RunKeepsWellFormed(d: Draft, events: seq<Event>)
    requires WellFormed(d) && AdmitsAll(d, events)
    ensures WellFormed(Run(d, events))
    decreases |events|
  {
    if |events| > 0 {
      StepKeepsWellFormed(d, events[0]);
      RunKeepsWellFormed(Step(d, events[0]), events[1..]);
    }
  }

  /** Every draft the form can reach from its initial state is well formed. */
  lemma ReachableDraftsWellFormed(events: seq<Event>)
    requires AdmitsAll(EmptyDraft, events)
    ensures WellFormed(Run(EmptyDraft, events))
  {
    RunKeepsWellFormed(EmptyDraft, events);
  }

  /** Outside edit mode, removing the preview of a file just chosen undoes the choice (colours aside). */
  lemma RemovingJustChosenFileUndoesChoice(d: Draft, f: UploadFile, url: string)
    requires WellFormed(d) && d.editing.None?
    requires IsBlobUrl(url)
    ensures var r := RemovePreview(AddFiles(d, [f], [url]), |d.previews|);
            && r.images == d.images
            && r.previews == d.previews
            && r.removedImageIds == d.removedImageIds
  {
    var a := AddFiles(d, [f], [url]);
    assert a.images == d.images + [f] && a.previews == d.previews + [url];
    assert IsBlobUrl(a.previews[|d.previews|]);
  }

  /**
   * In edit mode, with loaded images still shown, removing the preview of a
   * file just chosen leaves that file pending: the position it is removed at
   * lies past the end of the pending files.
   */
  lemma EditRemovalOfChosenFileKeepsIt(d: Draft, f: UploadFile, url: string)
    requires WellFormed(d) && d.editing.Some? && |d.images| < |d.previews|
    requires IsBlobUrl(url)
    ensures var r := RemovePreview(AddFiles(d, [f], [url]), |d.previews|);
            && r.previews == d.previews
            && r.images == d.images + [f]
            && r.removedImageIds == d.removedImageIds
  {
    var a := AddFiles(d, [f], [url]);
    assert a.images == d.images + [f] && a.previews == d.previews + [url];
    assert IsBlobUrl(a.previews[|d.previews|]);
  }

  /**
   * In edit mode, removing a loaded image's preview at a position that is
   * also a pending-file position drops that pending file as well.
   */
  lemma EditRemovalOfLoadedImageDropsFile(d: Draft, i: nat)
    requires d.editing.Some? && i < |d.images|
    ensures RemovePreview(d, i).images == d.images[..i] + d.images[i + 1..]
  {
  }

  /** Loading a product whose image URLs are distinct and removing its `k`-th preview records that image's id. */
  lemma RemovingLoadedImageRecordsItsId(d: Draft, p: ListedProduct, k: nat)
    requires k < |p.images|
    requires p.images[k].url != "" && !IsBlobUrl(p.images[k].url)
    requires forall j :: 0 <= j < |p.images| && j != k ==> p.images[j].url != p.images[k].url
    ensures RemovePreview(BeginEdit(d, p), k).removedImageIds == d.removedImageIds + [p.images[k].id]
  {
    var e := BeginEdit(d, p);
    assert e.previews[k] == p.images[k].url;
    var found := FindByUrl(p.images, p.images[k].url);
    assert found == Some(p.images[k]);
  }

  /** Removing the preview of a chosen file records no id, in either mode. */
  lemma RemovingChosenFileRecordsNothing(d: Draft, files: seq<UploadFile>, urls: seq<string>, j: nat)
    requires BlobUrlsFor(files, urls) && j < |files|
    ensures RemovePreview(AddFiles(d, files, urls), |d.previews| + j).removedImageIds == d.removedImageIds
  {
    var a := AddFiles(d, files, urls);
    assert a.previews[|d.previews| + j] == urls[j];
  }

  /**
   * A concrete edit: a product with one loaded image, two files chosen, then
   * the loaded image's preview removed. The loaded image is recorded for
   * deletion, but the first chosen file is dropped while both blob previews
   * stay on screen.
   */
  lemma EditRemovalMisalignsScenario()
    ensures var img := ListedImage(3, "/media/product_images/a.png", Some("RED"));
            var p := ListedProduct(7, "Bag", "Canvas", "12.00", TotebagCode, None, [img]);
            var f0 := UploadFile("f0.png");
            var f1 := UploadFile("f1.png");
            var d := RemovePreview(AddFiles(BeginEdit(EmptyDraft, p), [f0, f1], ["blob:b0", "blob:b1"]), 0);
            && d.removedImageIds == [3]
            && d.previews == ["blob:b0", "blob:b1"]
            && d.images == [f1]
            && d.colors == map[]
  {
    var img := ListedImage(3, "/media/product_images/a.png", Some("RED"));
    var p := ListedProduct(7, "Bag", "Canvas", "12.00", TotebagCode, None, [img]);
    var f0 := UploadFile("f0.png");
    var f1 := UploadFile("f1.png");
    var e := BeginEdit(EmptyDraft, p);
    assert e.previews == [img.url];
    var a := AddFiles(e, [f0, f1], ["blob:b0", "blob:b1"]);
    assert a.previews == [img.url, "blob:b0", "blob:b1"];
    assert a.images == [f0, f1];
    assert img.url[..|BlobPrefix|][0] == '/';
    RemovingLoadedImageRecordsItsId(EmptyDraft, p, 0);
  }
}
