/**
 * The product editor's draft state and the pure transitions its event
 * handlers apply: typing into a field, choosing files, removing a preview,
 * choosing a colour, starting an edit, cancelling, and a submit settling.
 * Previews are strings; those the browser makes for chosen files start with
 * `blob:`, the others are server image URLs loaded by an edit.
 */
module Draft {
  import opened Options
  import opened ColorMap
  import Catalog

  /** A file chosen in the browser. */
  datatype UploadFile = UploadFile(name: string)

  /** An image of a listed product, as the server returns it. */
  datatype ListedImage = ListedImage(id: int, url: string, color: Option<string>)

  /** A product as the server lists it; the price is the decimal string the server formats. */
  datatype ListedProduct = ListedProduct(
    id: int,
    title: string,
    description: string,
    price: string,
    productType: string,
    availableSizes: Option<string>,
    images: seq<ListedImage>)

  /**
   * The editor state. `images` holds only files chosen since the draft was
   * created or loaded; `previews` holds, in edit mode, the loaded images'
   * URLs followed by the chosen files' blob URLs. `editing` is the product
   * being edited, if any.
   */
  datatype Draft = Draft(
    title: string,
    description: string,
    price: string,
    productType: string,
    availableSizes: string,
    images: seq<UploadFile>,
    previews: seq<string>,
    colors: Colors,
    removedImageIds: seq<int>,
    editing: Option<ListedProduct>)

  /** The product-type codes the form's selector offers, as the schema stores them. */
  const TotebagCode := Catalog.ProductTypeCode(Catalog.Totebag)
  const TshirtCode := Catalog.ProductTypeCode(Catalog.Tshirt)
  const BlobPrefix := "blob:"

  predicate IsBlobUrl(url: string) {
    |BlobPrefix| <= |url| && url[..|BlobPrefix|] == BlobPrefix
  }

  /** A nullable string read with `value || ''`. */
  function OrEmpty(value: Option<string>): string {
    match value
    case Some(v) => v
    case None => ""
  }

  /** The state the editor starts in. */
  const EmptyDraft := Draft("", "", "", TotebagCode, "", [], [], map[], [], None)

  /** The text inputs and the type selector, by their `name` attribute. */
  datatype Field = TitleField | DescriptionField | PriceField | ProductTypeField | AvailableSizesField

  function FieldValue(d: Draft, f: Field): string {
    match f
    case TitleField => d.title
    case DescriptionField => d.description
    case PriceField => d.price
    case ProductTypeField => d.productType
    case AvailableSizesField => d.availableSizes
  }

  /** Typing into an input overwrites the field it names and nothing else. */
  function SetField(d: Draft, f: Field, value: string): (r: Draft)
    ensures FieldValue(r, f) == value
    ensures forall g :: g != f ==> FieldValue(r, g) == FieldValue(d, g)
    ensures r.images == d.images && r.previews == d.previews && r.colors == d.colors
    ensures r.removedImageIds == d.removedImageIds && r.editing == d.editing
  {
    match f
    case TitleField => d.(title := value)
    case DescriptionField => d.(description := value)
    case PriceField => d.(price := value)
    case ProductTypeField => d.(productType := value)
    case AvailableSizesField => d.(availableSizes := value)
  }

  /** The blob URLs the browser hands out for a batch of chosen files. */
  predicate BlobUrlsFor(files: seq<UploadFile>, urls: seq<string>) {
    |urls| == |files| && forall k :: 0 <= k < |urls| ==> IsBlobUrl(urls[k])
  }

  /** Choosing files appends them to the pending files and their blob URLs to the previews. */
  function AddFiles(d: Draft, files: seq<UploadFile>, urls: seq<string>): (r: Draft)
    requires BlobUrlsFor(files, urls)
    ensures |r.images| == |d.images| + |files| && |r.previews| == |d.previews| + |files|
    ensures r.images[..|d.images|] == d.images && r.images[|d.images|..] == files
    ensures r.previews[..|d.previews|] == d.previews && r.previews[|d.previews|..] == urls
    ensures r == d.(images := r.images, previews := r.previews)
  {
    d.(images := d.images + files, previews := d.previews + urls)
  }

  /** `xs` with position `i` filtered out; out-of-range positions filter nothing. */
  function WithoutIndex<T>(xs: seq<T>, i: int): (r: seq<T>)
    ensures 0 <= i < |xs| ==> r == xs[..i] + xs[i + 1..]
    ensures !(0 <= i < |xs|) ==> r == xs
  {
    if |xs| == 0 then []
    else
      var init := WithoutIndex(xs[..|xs| - 1], i);
      assert xs == xs[..|xs| - 1] + [xs[|xs| - 1]];
      if i == |xs| - 1 then init else init + [xs[|xs| - 1]]
  }

  /** The first image whose URL is `url`. */
  function FindByUrl(images: seq<ListedImage>, url: string): (r: Option<ListedImage>)
    ensures r.None? <==> forall k :: 0 <= k < |images| ==> images[k].url != url
    ensures r.Some? ==> exists k :: 0 <= k < |images| && images[k] == r.value
                          && r.value.url == url
                          && forall j :: 0 <= j < k ==> images[j].url != url
  {
    if |images| == 0 then None
    else if images[0].url == url then Some(images[0])
    else
      var r := FindByUrl(images[1..], url);
      if r.Some? then
        var k :| 0 <= k < |images[1..]| && images[1..][k] == r.value && r.value.url == url
                 && forall j :: 0 <= j < k ==> images[1..][j].url != url;
        assert images[k + 1] == r.value;
        r
      else r
  }

  /**
   * The server id recorded when removing preview `i`: only in edit mode, only
   * for a preview that exists, is non-empty and is not a blob URL, and only if
   * some loaded image has that URL, in which case the first such image's id.
   */
  function RemovedIdAt(d: Draft, i: int): Option<int> {
    if d.editing.Some? && 0 <= i < |d.previews| && d.previews[i] != "" && !IsBlobUrl(d.previews[i]) then
      match FindByUrl(d.editing.value.images, d.previews[i])
      case Some(img) => Some(img.id)
      case None => None
    else None
  }

  /**
   * Removing preview `i`: records at most one server id, filters position
   * `i` out of both the previews and the pending files, and (the colour
   * object having no `length`) leaves no colour at all.
   */
  function RemovePreview(d: Draft, i: int): (r: Draft)
    ensures |d.removedImageIds| <= |r.removedImageIds| <= |d.removedImageIds| + 1
    ensures r.removedImageIds[..|d.removedImageIds|] == d.removedImageIds
    ensures |r.removedImageIds| == |d.removedImageIds| + 1 <==>
              && d.editing.Some?
              && 0 <= i < |d.previews| && d.previews[i] != "" && !IsBlobUrl(d.previews[i])
              && exists k :: 0 <= k < |d.editing.value.images| && d.editing.value.images[k].url == d.previews[i]
    ensures |r.removedImageIds| == |d.removedImageIds| + 1 ==>
              exists k :: 0 <= k < |d.editing.value.images|
                && d.editing.value.images[k].url == d.previews[i]
                && r.removedImageIds[|d.removedImageIds|] == d.editing.value.images[k].id
                && forall j :: 0 <= j < k ==> d.editing.value.images[j].url != d.previews[i]
    ensures |r.previews| == if 0 <= i < |d.previews| then |d.previews| - 1 else |d.previews|
    ensures |r.images| == if 0 <= i < |d.images| then |d.images| - 1 else |d.images|
    ensures forall k :: 0 <= k < |r.previews| ==> r.previews[k] == d.previews[if 0 <= i <= k then k + 1 else k]
    ensures forall k :: 0 <= k < |r.images| ==> r.images[k] == d.images[if 0 <= i <= k then k + 1 else k]
    ensures r.colors == map[]
    ensures r == d.(removedImageIds := r.removedImageIds, previews := r.previews, images := r.images, colors := r.colors)
  {
    var added := RemovedIdAt(d, i);
    d.(removedImageIds := d.removedImageIds + (if added.Some? then [added.value] else []),
       previews := WithoutIndex(d.previews, i),
       images := WithoutIndex(d.images, i),
       colors := RemoveColorAt(d.colors, i))
  }

  /** Choosing a colour for preview `i` sets that key and leaves every other key as it was. */
  function SetColor(d: Draft, i: nat, color: string): (r: Draft)
    ensures i in r.colors && r.colors[i] == color
    ensures forall k :: k != i ==> (k in r.colors <==> k in d.colors)
    ensures forall k :: k != i && k in d.colors ==> r.colors[k] == d.colors[k]
    ensures r == d.(colors := r.colors)
  {
    d.(colors := d.colors[i := color])
  }

  /**
   * Starting an edit loads the product's scalar fields, clears the pending
   * files, shows the product's image URLs in order with their colours at the
   * same positions, and keeps the removed-id list as it was.
   */
  function BeginEdit(d: Draft, p: ListedProduct): (r: Draft)
    ensures r.editing == Some(p)
    ensures r.title == p.title && r.description == p.description && r.price == p.price
    ensures r.productType == p.productType && r.availableSizes == OrEmpty(p.availableSizes)
    ensures r.images == []
    ensures |r.previews| == |p.images| && forall k :: 0 <= k < |p.images| ==> r.previews[k] == p.images[k].url
    ensures forall k: nat :: k in r.colors <==> k < |p.images|
    ensures forall k :: 0 <= k < |p.images| ==> r.colors[k] == OrEmpty(p.images[k].color)
    ensures r.removedImageIds == d.removedImageIds
  {
    Draft(p.title, p.description, p.price, p.productType, OrEmpty(p.availableSizes), [],
          seq(|p.images|, k requires 0 <= k < |p.images| => p.images[k].url),
          map k: nat | k < |p.images| :: OrEmpty(p.images[k].color),
          d.removedImageIds,
          Some(p))
  }

  /** The reset a successful submit performs. */
  function ResetAfterSave(d: Draft): Draft {
    Draft("", "", "", TotebagCode, "", [], [], map[], [], None)
  }

  /** The reset the cancel button performs. */
  function CancelEdit(d: Draft): Draft {
    Draft("", "", "", TotebagCode, "", [], [], map[], [], None)
  }

  /** A submit settling: success resets the draft, failure leaves it as it is. */
  function SubmitSettled(d: Draft, succeeded: bool): (r: Draft)
    ensures succeeded ==> r == EmptyDraft
    ensures !succeeded ==> r == d
  {
    if succeeded then ResetAfterSave(d) else d
  }

  /** Cancelling and saving reset the draft to the same state, the initial one. */
  lemma CancelMatchesSave(d: Draft)
    ensures CancelEdit(d) == ResetAfterSave(d) == EmptyDraft
    ensures EmptyDraft.productType == TotebagCode && EmptyDraft.editing.None?
  {
  }
}
