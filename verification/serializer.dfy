/**
 * The product serializer's `create` and `update` as transitions on the store.
 * A request carries the already-validated scalar fields, the uploaded files,
 * the positional colour list and, when sent, the ids of images to remove. An
 * update deletes those images; a create that carries them fails before any
 * write, because the list reaches the model constructor as an unknown keyword.
 * There is no enclosing transaction: rows written before the colour-count
 * check stay written when the check rejects the request.
 */
module Serializer {
  import opened Options
  import opened Catalog
  import opened Store

  /** An uploaded file, identified by the name it is stored under. */
  type Upload = string

  /**
   * Validated data for a create. Absent optional fields are `None`.
   * `removedImages` is the write-only removal list, which a create does not
   * consume: when present it reaches the model constructor as an unknown
   * keyword.
   */
  datatype CreateData = CreateData(
    title: string,
    description: string,
    priceCents: int,
    productType: Option<ProductType>,
    availableSizes: Option<Option<string>>,
    uploadedImages: seq<Upload>,
    imageColors: seq<string>,
    removedImages: Option<seq<int>>)

  /** Validated data for an update. Every scalar field may be absent. */
  datatype UpdateData = UpdateData(
    title: Option<string>,
    description: Option<string>,
    priceCents: Option<int>,
    productType: Option<ProductType>,
    availableSizes: Option<Option<string>>,
    uploadedImages: seq<Upload>,
    imageColors: seq<string>,
    removedImages: seq<int>)

  /**
   * Why a save is refused: the colour-count check, or the model constructor
   * rejecting a keyword that is not one of its fields.
   */
  datatype ValidationError = ImageColorCountMismatch | UnexpectedKeyword

  /** The store after the call (including any writes made before a rejection) and the call's outcome. */
  datatype SaveResult = SaveResult(store: Store, outcome: Result<ProductId, ValidationError>)

  /** The rejection rule: a non-empty colour list whose length differs from the number of files. */
  predicate ColorCountMismatch(uploads: nat, colors: nat) {
    uploads != colors && colors != 0
  }

  /** The colour paired with the `i`-th file: the `i`-th colour if there is one, else null. */
  function PairedColor(colors: seq<string>, i: nat): Option<string> {
    if i < |colors| then Some(colors[i]) else None
  }

  /** The files of a request, each with the colour it is given. */
  function PairUploads(uploads: seq<Upload>, colors: seq<string>): (pairs: seq<(Upload, Option<string>)>)
    ensures |pairs| == |uploads|
    ensures forall k :: 0 <= k < |uploads| ==>
              pairs[k] == (uploads[k], if k < |colors| then Some(colors[k]) else None)
  {
    seq(|uploads|, k requires 0 <= k < |uploads| => (uploads[k], PairedColor(colors, k)))
  }

  /** Image row `iid` exists and is a freshly created image of `owner` with this file and colour. */
  predicate Attached(s: Store, iid: ImageId, owner: ProductId, file: Upload, color: Option<string>) {
    iid in s.images && s.images[iid] == NewImage(owner, file, color)
  }

  /** Creates one image row per (file, colour) pair, in order, under consecutive fresh ids. */
  function AttachUploads(s: Store, owner: ProductId, pairs: seq<(Upload, Option<string>)>): (r: Store)
    requires owner in s.products
    ensures r.products == s.products
    ensures r.nextImageId == s.nextImageId + |pairs|
    ensures forall iid :: iid in r.images <==> iid in s.images || s.nextImageId <= iid < r.nextImageId
    ensures forall iid :: iid in s.images ==> r.images[iid] == s.images[iid]
    ensures forall k :: 0 <= k < |pairs| ==> Attached(r, s.nextImageId + k, owner, pairs[k].0, pairs[k].1)
    decreases |pairs|
  {
    if |pairs| == 0 then s
    else
      var s1 := InsertImage(s, NewImage(owner, pairs[0].0, pairs[0].1)).0;
      var r := AttachUploads(s1, owner, pairs[1..]);
      AttachFirstThenRest(s, owner, pairs, s1, r);
      r
  }

  /** Attaching the first pair, then the rest behind it, attaches every pair in order. */
  lemma AttachFirstThenRest(s: Store, owner: ProductId, pairs: seq<(Upload, Option<string>)>, s1: Store, r: Store)
    requires |pairs| > 0
    requires s1.products == s.products && s1.nextImageId == s.nextImageId + 1
    requires s1.images == s.images[s.nextImageId := NewImage(owner, pairs[0].0, pairs[0].1)]
    requires r.products == s1.products
    requires r.nextImageId == s1.nextImageId + |pairs| - 1
    requires forall iid :: iid in r.images <==> iid in s1.images || s1.nextImageId <= iid < r.nextImageId
    requires forall iid :: iid in s1.images ==> r.images[iid] == s1.images[iid]
    requires forall k :: 0 <= k < |pairs| - 1 ==> Attached(r, s1.nextImageId + k, owner, pairs[1..][k].0, pairs[1..][k].1)
    requires s.nextImageId !in s.images
    ensures r.products == s.products
    ensures r.nextImageId == s.nextImageId + |pairs|
    ensures forall iid :: iid in r.images <==> iid in s.images || s.nextImageId <= iid < r.nextImageId
    ensures forall iid :: iid in s.images ==> r.images[iid] == s.images[iid]
    ensures forall k :: 0 <= k < |pairs| ==> Attached(r, s.nextImageId + k, owner, pairs[k].0, pairs[k].1)
  {
    forall k | 0 <= k < |pairs|
      ensures Attached(r, s.nextImageId + k, owner, pairs[k].0, pairs[k].1)
    {
      if k > 0 {
        assert pairs[k] == pairs[1..][k - 1];
        assert Attached(r, s1.nextImageId + (k - 1), owner, pairs[1..][k - 1].0, pairs[1..][k - 1].1);
      }
    }
  }

  /**
   * `create`: a leftover removal list makes the product constructor fail
   * before anything is written; otherwise it saves the product (type
   * defaulting to tote bag, sizes to null), then rejects a mismatched colour
   * list, then attaches the files in order.
   */
  function Create(s: Store, data: CreateData): (r: SaveResult)
    ensures r.outcome.Failure? <==>
              data.removedImages.Some? || ColorCountMismatch(|data.uploadedImages|, |data.imageColors|)
    ensures data.removedImages.Some? ==> r.store == s && r.outcome == Failure(UnexpectedKeyword)
    ensures data.removedImages.None? && ColorCountMismatch(|data.uploadedImages|, |data.imageColors|) ==>
              r.outcome == Failure(ImageColorCountMismatch)
    ensures r.outcome.Success? ==> r.outcome.value == s.nextProductId
    ensures s.nextProductId !in s.products
    ensures data.removedImages.None? ==>
              r.store.products == s.products[s.nextProductId := Product(
                data.title, data.description, data.priceCents,
                data.productType.GetOr(DefaultProductType), data.availableSizes.GetOr(None))]
    ensures forall iid :: iid in s.images ==> iid in r.store.images && r.store.images[iid] == s.images[iid]
    ensures r.outcome.Failure? ==> r.store.images == s.images
    ensures r.outcome.Success? ==>
              forall iid :: iid in r.store.images <==> iid in s.images || s.nextImageId <= iid < s.nextImageId + |data.uploadedImages|
    ensures r.outcome.Success? ==>
              forall k :: 0 <= k < |data.uploadedImages| ==>
                Attached(r.store, s.nextImageId + k, s.nextProductId, data.uploadedImages[k],
                         if k < |data.imageColors| then Some(data.imageColors[k]) else None)
  {
    if data.removedImages.Some? then SaveResult(s, Failure(UnexpectedKeyword))
    else
      var product := Product(data.title, data.description, data.priceCents,
                             data.productType.GetOr(DefaultProductType), data.availableSizes.GetOr(None));
      var (s1, pid) := InsertProduct(s, product);
      if ColorCountMismatch(|data.uploadedImages|, |data.imageColors|) then
        SaveResult(s1, Failure(ImageColorCountMismatch))
      else
        SaveResult(AttachUploads(s1, pid, PairUploads(data.uploadedImages, data.imageColors)), Success(pid))
  }

  /** The update's attach step: the files' images are created only when some file was uploaded. */
  function AttachIfAny(s: Store, pid: ProductId, uploads: seq<Upload>, colors: seq<string>): (r: Store)
    requires pid in s.products
    ensures r.products == s.products
    ensures forall iid :: iid in s.images ==> iid in r.images && r.images[iid] == s.images[iid]
    ensures forall iid :: iid in r.images && iid !in s.images <==> s.nextImageId <= iid < s.nextImageId + |uploads|
    ensures forall k :: 0 <= k < |uploads| ==>
              Attached(r, s.nextImageId + k, pid, uploads[k], if k < |colors| then Some(colors[k]) else None)
  {
    if |uploads| > 0 then AttachUploads(s, pid, PairUploads(uploads, colors)) else s
  }

  /** Deletes the listed images that belong to `pid`; listed ids of other products' images are ignored. */
  function RemoveOwned(s: Store, pid: ProductId, removed: seq<int>): (r: Store)
    ensures r.products == s.products
    ensures r.nextImageId == s.nextImageId
    ensures forall iid :: iid in r.images <==> iid in s.images && !(iid in removed && s.images[iid].product == pid)
    ensures forall iid :: iid in r.images ==> r.images[iid] == s.images[iid]
  {
    DeleteImages(s, set iid | iid in s.images && iid in removed && s.images[iid].product == pid)
  }

  /**
   * `update`: deletes the listed images owned by the product, then (only when
   * files were uploaded) rejects a mismatched colour list, then attaches the
   * files and overwrites each scalar field that is present, keeping the old
   * value of each absent one.
   */
  function Update(s: Store, pid: ProductId, data: UpdateData): (r: SaveResult)
    requires pid in s.products
    ensures r.outcome.Failure? <==>
              |data.uploadedImages| > 0 && ColorCountMismatch(|data.uploadedImages|, |data.imageColors|)
    ensures r.outcome.Success? ==> r.outcome.value == pid
    ensures forall iid :: iid in s.images ==>
              (iid in r.store.images <==> !(iid in data.removedImages && s.images[iid].product == pid))
    ensures forall iid :: iid in s.images && iid in r.store.images ==> r.store.images[iid] == s.images[iid]
    ensures r.outcome.Failure? ==> r.store.products == s.products
    ensures r.outcome.Failure? ==>
              forall iid :: iid in r.store.images ==> iid in s.images
    ensures r.outcome.Success? ==>
              forall iid :: iid in r.store.images && iid !in s.images <==>
                s.nextImageId <= iid < s.nextImageId + |data.uploadedImages|
    ensures r.outcome.Success? ==>
              forall k :: 0 <= k < |data.uploadedImages| ==>
                Attached(r.store, s.nextImageId + k, pid, data.uploadedImages[k],
                         if k < |data.imageColors| then Some(data.imageColors[k]) else None)
    ensures r.outcome.Success? ==>
              var old_ := s.products[pid];
              r.store.products == s.products[pid := Product(
                data.title.GetOr(old_.title),
                data.description.GetOr(old_.description),
                data.priceCents.GetOr(old_.priceCents),
                data.productType.GetOr(old_.productType),
                data.availableSizes.GetOr(old_.availableSizes))]
  {
    var s1 := RemoveOwned(s, pid, data.removedImages);
    var current := s1.products[pid];
    var sizes := data.availableSizes.GetOr(current.availableSizes);
    if |data.uploadedImages| > 0 && ColorCountMismatch(|data.uploadedImages|, |data.imageColors|) then
      SaveResult(s1, Failure(ImageColorCountMismatch))
    else
      var s2 := AttachIfAny(s1, pid, data.uploadedImages, data.imageColors);
      var updated := Product(
        data.title.GetOr(current.title),
        data.description.GetOr(current.description),
        data.priceCents.GetOr(current.priceCents),
        data.productType.GetOr(current.productType),
        sizes);
      SaveResult(s2.(products := s2.products[pid := updated]), Success(pid))
  }

  /** After a successful create, the new product owns exactly the block of fresh image ids, all of order 0. */
  lemma CreateOwnsFreshBlock(s: Store, data: CreateData)
    requires Create(s, data).outcome.Success?
    ensures var r := Create(s, data).store;
            && r.nextImageId == s.nextImageId + |data.uploadedImages|
            && (forall iid :: iid in r.images && r.images[iid].product == s.nextProductId
                  <==> s.nextImageId <= iid < s.nextImageId + |data.uploadedImages|)
            && (forall iid :: iid in r.images && r.images[iid].product == s.nextProductId ==> r.images[iid].order == 0)
  {
    var r := Create(s, data).store;
    var n := |data.uploadedImages|;
    assert forall iid :: iid in s.images ==> s.images[iid].product != s.nextProductId;
    forall iid | s.nextImageId <= iid < s.nextImageId + n
      ensures iid in r.images && r.images[iid].product == s.nextProductId && r.images[iid].order == 0
    {
      var k := iid - s.nextImageId;
      assert Attached(r, s.nextImageId + k, s.nextProductId, data.uploadedImages[k],
                      if k < |data.imageColors| then Some(data.imageColors[k]) else None);
    }
  }

  /** After a successful create, the new product lists its images in upload order. */
  lemma CreateListsUploadsInOrder(s: Store, data: CreateData)
    requires Create(s, data).outcome.Success?
    ensures ImagesOf(Create(s, data).store, s.nextProductId)
              == seq(|data.uploadedImages|, k => s.nextImageId + k)
  {
    CreateOwnsFreshBlock(s, data);
    ListingOfFreshBlock(Create(s, data).store, s.nextProductId, s.nextImageId, |data.uploadedImages|);
  }

  /** A create rejected by the colour check still leaves the new product in the store, with no images. */
  lemma RejectedCreateLeavesBareProduct(s: Store, data: CreateData)
    requires data.removedImages.None?
    requires ColorCountMismatch(|data.uploadedImages|, |data.imageColors|)
    ensures s.nextProductId in Create(s, data).store.products
    ensures ImagesOf(Create(s, data).store, s.nextProductId) == []
  {
    var r := Create(s, data).store;
    var listed := ImagesOf(r, s.nextProductId);
    forall iid | iid in r.images
      ensures r.images[iid].product != s.nextProductId
    {
      assert r.images[iid] == s.images[iid];
    }
  }

  /** With no files uploaded, the colour list has no effect on an update. */
  lemma UpdateIgnoresColorsWithoutUploads(s: Store, pid: ProductId, data: UpdateData, otherColors: seq<string>)
    requires pid in s.products
    requires |data.uploadedImages| == 0
    ensures Update(s, pid, data) == Update(s, pid, data.(imageColors := otherColors))
    ensures Update(s, pid, data).outcome.Success?
  {
  }

  /** The field validation that precedes a save. */
  predicate ValidCreateData(data: CreateData) {
    && |data.title| <= TitleMaxLength
    && ValidPrice(data.priceCents)
    && (data.availableSizes.Some? ==> ValidSizes(data.availableSizes.value))
    && forall k :: 0 <= k < |data.imageColors| ==> |data.imageColors[k]| <= ColorMaxLength
  }

  predicate ValidUpdateData(data: UpdateData) {
    && (data.title.Some? ==> |data.title.value| <= TitleMaxLength)
    && (data.priceCents.Some? ==> ValidPrice(data.priceCents.value))
    && (data.availableSizes.Some? ==> ValidSizes(data.availableSizes.value))
    && forall k :: 0 <= k < |data.imageColors| ==> |data.imageColors[k]| <= ColorMaxLength
  }

  /** Every product row is valid and every stored colour fits its column. */
  predicate StoreValid(s: Store) {
    && (forall pid :: pid in s.products ==> ValidProduct(s.products[pid]))
    && (forall iid :: iid in s.images && s.images[iid].color.Some? ==> |s.images[iid].color.value| <= ColorMaxLength)
  }

  /** Validated data keeps every row within its column limits. */
  lemma CreatePreservesValidity(s: Store, data: CreateData)
    requires StoreValid(s) && ValidCreateData(data)
    ensures StoreValid(Create(s, data).store)
  {
    var r := Create(s, data);
    if r.outcome.Success? {
      ColorsFitAfterAttach(s, r.store, s.nextProductId, data.uploadedImages, data.imageColors);
    }
  }

  lemma UpdatePreservesValidity(s: Store, pid: ProductId, data: UpdateData)
    requires pid in s.products
    requires StoreValid(s) && ValidUpdateData(data)
    ensures StoreValid(Update(s, pid, data).store)
  {
    UpdateResultValid(s, pid, data, Update(s, pid, data));
  }

  /** Any store an update can leave behind, as its contract describes it, is valid. */
  lemma UpdateResultValid(s: Store, pid: ProductId, data: UpdateData, r: SaveResult)
    requires pid in s.products
    requires StoreValid(s) && ValidUpdateData(data)
    requires forall iid :: iid in s.images && iid in r.store.images ==> r.store.images[iid] == s.images[iid]
    requires r.outcome.Failure? ==> r.store.products == s.products
    requires r.outcome.Failure? ==> forall iid :: iid in r.store.images ==> iid in s.images
    requires r.outcome.Success? ==>
               forall iid :: iid in r.store.images && iid !in s.images <==>
                 s.nextImageId <= iid < s.nextImageId + |data.uploadedImages|
    requires r.outcome.Success? ==>
               forall k :: 0 <= k < |data.uploadedImages| ==>
                 Attached(r.store, s.nextImageId + k, pid, data.uploadedImages[k],
                          if k < |data.imageColors| then Some(data.imageColors[k]) else None)
    requires r.outcome.Success? ==>
               var old_ := s.products[pid];
               r.store.products == s.products[pid := Product(
                 data.title.GetOr(old_.title),
                 data.description.GetOr(old_.description),
                 data.priceCents.GetOr(old_.priceCents),
                 data.productType.GetOr(old_.productType),
                 data.availableSizes.GetOr(old_.availableSizes))]
    ensures StoreValid(r.store)
  {
    var n := if r.outcome.Success? then |data.uploadedImages| else 0;
    ColorsFitAfterAttach(s, r.store, pid, data.uploadedImages[..n], data.imageColors);
  }

  /** Rows that are either kept from `s` or freshly attached with validated colours keep every colour within its column. */
  lemma ColorsFitAfterAttach(s: Store, r: Store, owner: ProductId, uploads: seq<Upload>, colors: seq<string>)
    requires forall iid :: iid in s.images && s.images[iid].color.Some? ==> |s.images[iid].color.value| <= ColorMaxLength
    requires forall k :: 0 <= k < |colors| ==> |colors[k]| <= ColorMaxLength
    requires forall iid :: iid in r.images ==>
               (iid in s.images && r.images[iid] == s.images[iid]) || s.nextImageId <= iid < s.nextImageId + |uploads|
    requires forall k :: 0 <= k < |uploads| ==>
               Attached(r, s.nextImageId + k, owner, uploads[k], if k < |colors| then Some(colors[k]) else None)
    ensures forall iid :: iid in r.images && r.images[iid].color.Some? ==> |r.images[iid].color.value| <= ColorMaxLength
  {
    forall iid | iid in r.images && r.images[iid].color.Some?
      ensures |r.images[iid].color.value| <= ColorMaxLength
    {
      if !(iid in s.images && r.images[iid] == s.images[iid]) {
        var k := iid - s.nextImageId;
        assert Attached(r, s.nextImageId + k, owner, uploads[k], if k < |colors| then Some(colors[k]) else None);
      }
    }
  }

  /**
   * Field validation bounds colours by length only: a validated create can
   * store a colour outside the six choices the image schema declares.
   */
  lemma CreateAcceptsUndeclaredColor(s: Store)
    ensures var data := CreateData("Mug", "", 1000, None, None, ["mug.png"], ["PURPLE"], None);
            && ValidCreateData(data)
            && Create(s, data).outcome.Success?
            && s.nextImageId in Create(s, data).store.images
            && !ValidImageColor(Create(s, data).store.images[s.nextImageId].color)
  {
    var data := CreateData("Mug", "", 1000, None, None, ["mug.png"], ["PURPLE"], None);
    assert Attached(Create(s, data).store, s.nextImageId + 0, s.nextProductId, "mug.png", Some("PURPLE"));
    assert ParseColor("PURPLE").None?;
    assert ValidPrice(1000) by { ValidPriceRange(1000); }
  }

  /** Creating a product leaves every other product's image listing as it was. */
  lemma CreateKeepsOtherListings(s: Store, data: CreateData, q: ProductId)
    requires q in s.products
    ensures ImagesOf(Create(s, data).store, q) == ImagesOf(s, q)
  {
    var r := Create(s, data);
    forall iid | iid in r.store.images && iid !in s.images
      ensures r.store.images[iid].product != q
    {
      var k := iid - s.nextImageId;
      assert Attached(r.store, s.nextImageId + k, s.nextProductId, data.uploadedImages[k],
                      if k < |data.imageColors| then Some(data.imageColors[k]) else None);
    }
    SameOwnedRowsSameListing(s, r.store, q);
  }

  /** Updating a product leaves every other product's image listing as it was, whatever ids were listed for removal. */
  lemma UpdateKeepsOtherListings(s: Store, pid: ProductId, data: UpdateData, q: ProductId)
    requires pid in s.products && q != pid
    ensures ImagesOf(Update(s, pid, data).store, q) == ImagesOf(s, q)
  {
    var r := Update(s, pid, data);
    forall iid | iid in r.store.images && iid !in s.images
      ensures r.store.images[iid].product != q
    {
      var k := iid - s.nextImageId;
      assert Attached(r.store, s.nextImageId + k, pid, data.uploadedImages[k],
                      if k < |data.imageColors| then Some(data.imageColors[k]) else None);
    }
    SameOwnedRowsSameListing(s, r.store, q);
  }
}
