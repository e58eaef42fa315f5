/**
 * The request a submit sends: the multipart parts built from the draft, the
 * method, and the endpoint (the product collection for a create, the edited
 * product's item for an update). Also the request a delete sends.
 */
module Submission {
  import opened Options
  import opened ColorMap
  import opened Draft

  datatype Method = Post | Put | Delete

  /** `/api/products/` or `/api/products/{id}/` under the configured server. */
  datatype Endpoint = Collection | Item(id: int)

  /** A multipart part's value: text, a file, or a number the form data turns into text. */
  datatype PartValue = Text(text: string) | FilePart(file: UploadFile) | Number(n: int)

  datatype Part = Part(name: string, value: PartValue)

  datatype Request = Request(verb: Method, endpoint: Endpoint, parts: seq<Part>)

  /** The sizes a draft sends: its own only for a T-shirt, otherwise cleared. */
  function SizesToSend(d: Draft): string {
    if d.productType == TshirtCode then d.availableSizes else ""
  }

  function ScalarParts(d: Draft): seq<Part> {
    [Part("title", Text(d.title)),
     Part("description", Text(d.description)),
     Part("price", Text(d.price)),
     Part("product_type", Text(d.productType)),
     Part("available_sizes", Text(SizesToSend(d)))]
  }

  function UploadParts(files: seq<UploadFile>): seq<Part> {
    seq(|files|, k requires 0 <= k < |files| => Part("uploaded_images", FilePart(files[k])))
  }

  /** One colour part per pending file, read by file position from the colour object. */
  function ColorParts(colors: Colors, n: nat): seq<Part> {
    seq(n, k requires 0 <= k < n => Part("image_colors", Text(ColorOrEmpty(colors, k))))
  }

  function RemovedParts(ids: seq<int>): seq<Part> {
    seq(|ids|, k requires 0 <= k < |ids| => Part("removed_images", Number(ids[k])))
  }

  /** Removed ids are sent only in edit mode. */
  function RemovedToSend(d: Draft): seq<int> {
    if d.editing.Some? then d.removedImageIds else []
  }

  function FormParts(d: Draft): seq<Part> {
    ScalarParts(d) + UploadParts(d.images) + ColorParts(d.colors, |d.images|) + RemovedParts(RemovedToSend(d))
  }

  /** The request a submit of draft `d` sends. */
  function BuildRequest(d: Draft): (r: Request)
    ensures r.verb == if d.editing.Some? then Put else Post
    ensures r.endpoint == if d.editing.Some? then Item(d.editing.value.id) else Collection
  {
    if d.editing.Some? then Request(Put, Item(d.editing.value.id), FormParts(d))
    else Request(Post, Collection, FormParts(d))
  }

  /** The values of the parts named `name`, in order. */
  function ValuesOf(parts: seq<Part>, name: string): (vs: seq<PartValue>)
    ensures |vs| <= |parts|
  {
    if |parts| == 0 then []
    else ValuesOf(parts[..|parts| - 1], name)
         + (if parts[|parts| - 1].name == name then [parts[|parts| - 1].value] else [])
  }

  lemma {:induction false} ValuesOfConcat(a: seq<Part>, b: seq<Part>, name: string)
    ensures ValuesOf(a + b, name) == ValuesOf(a, name) + ValuesOf(b, name)
    decreases |b|
  {
    if |b| > 0 {
      ValuesOfConcat(a, b[..|b| - 1], name);
      assert (a + b)[..|a + b| - 1] == a + b[..|b| - 1];
    } else {
      assert a + b == a;
    }
  }

  lemma ValuesOfSingle(p: Part, name: string)
    ensures ValuesOf([p], name) == if p.name == name then [p.value] else []
  {
    assert [p][..0] == [];
  }

  lemma {:induction false} UniformValues(parts: seq<Part>, name: string)
    requires forall k :: 0 <= k < |parts| ==> parts[k].name == name
    ensures ValuesOf(parts, name) == seq(|parts|, k requires 0 <= k < |parts| => parts[k].value)
  {
    if |parts| > 0 {
      UniformValues(parts[..|parts| - 1], name);
    }
  }

  lemma {:induction false} ForeignValues(parts: seq<Part>, name: string)
    requires forall k :: 0 <= k < |parts| ==> parts[k].name != name
    ensures ValuesOf(parts, name) == []
  {
    if |parts| > 0 {
      ForeignValues(parts[..|parts| - 1], name);
    }
  }

  lemma SplitFour(a: seq<Part>, b: seq<Part>, c: seq<Part>, e: seq<Part>, name: string)
    ensures ValuesOf(a + b + c + e, name) == ValuesOf(a, name) + ValuesOf(b, name) + ValuesOf(c, name) + ValuesOf(e, name)
  {
    ValuesOfConcat(a + b + c, e, name);
    ValuesOfConcat(a + b, c, name);
    ValuesOfConcat(a, b, name);
  }

  /** The scalar parts, looked up by name: each scalar name occurs once. */
  lemma ScalarValuesFor(d: Draft, name: string)
    ensures ValuesOf(ScalarParts(d), name)
              == (if name == "title" then [Text(d.title)] else [])
               + (if name == "description" then [Text(d.description)] else [])
               + (if name == "price" then [Text(d.price)] else [])
               + (if name == "product_type" then [Text(d.productType)] else [])
               + (if name == "available_sizes" then [Text(SizesToSend(d))] else [])
  {
    var s := ScalarParts(d);
    assert s == [s[0]] + [s[1]] + [s[2]] + [s[3]] + [s[4]];
    ValuesOfConcat([s[0]] + [s[1]] + [s[2]] + [s[3]], [s[4]], name);
    SplitFour([s[0]], [s[1]], [s[2]], [s[3]], name);
    ValuesOfSingle(s[0], name);
    ValuesOfSingle(s[1], name);
    ValuesOfSingle(s[2], name);
    ValuesOfSingle(s[3], name);
    ValuesOfSingle(s[4], name);
  }

  /** A lookup in a submitted form is the lookup in each of its four segments, concatenated. */
  lemma FormValues(d: Draft, name: string)
    ensures ValuesOf(BuildRequest(d).parts, name)
              == ValuesOf(ScalarParts(d), name) + ValuesOf(UploadParts(d.images), name)
               + ValuesOf(ColorParts(d.colors, |d.images|), name) + ValuesOf(RemovedParts(RemovedToSend(d)), name)
  {
    assert BuildRequest(d).parts == FormParts(d);
    SplitFour(ScalarParts(d), UploadParts(d.images), ColorParts(d.colors, |d.images|), RemovedParts(RemovedToSend(d)), name);
  }

  /** The file segment carries only `uploaded_images` parts, one per file. */
  lemma UploadValues(files: seq<UploadFile>, name: string)
    ensures ValuesOf(UploadParts(files), name)
              == if name == "uploaded_images" then seq(|files|, k requires 0 <= k < |files| => FilePart(files[k])) else []
  {
    var u := UploadParts(files);
    if name == "uploaded_images" {
      UniformValues(u, name);
      assert seq(|u|, k requires 0 <= k < |u| => u[k].value)
          == seq(|files|, k requires 0 <= k < |files| => FilePart(files[k]));
    } else {
      ForeignValues(u, name);
    }
  }

  /** The colour segment carries only `image_colors` parts, one per position below `n`. */
  lemma ColorValues(colors: Colors, n: nat, name: string)
    ensures ValuesOf(ColorParts(colors, n), name)
              == if name == "image_colors" then seq(n, k requires 0 <= k < n => Text(ColorOrEmpty(colors, k))) else []
  {
    var c := ColorParts(colors, n);
    if name == "image_colors" {
      UniformValues(c, name);
      assert seq(|c|, k requires 0 <= k < |c| => c[k].value)
          == seq(n, k requires 0 <= k < n => Text(ColorOrEmpty(colors, k)));
    } else {
      ForeignValues(c, name);
    }
  }

  /** The removal segment carries only `removed_images` parts, one per id. */
  lemma RemovedValues(ids: seq<int>, name: string)
    ensures ValuesOf(RemovedParts(ids), name)
              == if name == "removed_images" then seq(|ids|, k requires 0 <= k < |ids| => Number(ids[k])) else []
  {
    var rm := RemovedParts(ids);
    if name == "removed_images" {
      UniformValues(rm, name);
      assert seq(|rm|, k requires 0 <= k < |rm| => rm[k].value)
          == seq(|ids|, k requires 0 <= k < |ids| => Number(ids[k]));
    } else {
      ForeignValues(rm, name);
    }
  }

  /** Looking up a name that none of the three repeated segments carries finds only the scalar parts. */
  lemma ScalarNameOnlyInScalars(d: Draft, name: string)
    requires name != "uploaded_images" && name != "image_colors" && name != "removed_images"
    ensures ValuesOf(BuildRequest(d).parts, name)
              == (if name == "title" then [Text(d.title)] else [])
               + (if name == "description" then [Text(d.description)] else [])
               + (if name == "price" then [Text(d.price)] else [])
               + (if name == "product_type" then [Text(d.productType)] else [])
               + (if name == "available_sizes" then [Text(SizesToSend(d))] else [])
  {
    ScalarValuesFor(d, name);
    FormValues(d, name);
    assert ValuesOf(UploadParts(d.images), name) == [] by { UploadValues(d.images, name); }
    assert ValuesOf(ColorParts(d.colors, |d.images|), name) == [] by { ColorValues(d.colors, |d.images|, name); }
    assert ValuesOf(RemovedParts(RemovedToSend(d)), name) == [] by { RemovedValues(RemovedToSend(d), name); }
  }

  /** Each scalar field is sent once; the sizes are cleared unless the type is T-shirt. */
  lemma SubmittedScalars(d: Draft)
    ensures var parts := BuildRequest(d).parts;
            && ValuesOf(parts, "title") == [Text(d.title)]
            && ValuesOf(parts, "description") == [Text(d.description)]
            && ValuesOf(parts, "price") == [Text(d.price)]
            && ValuesOf(parts, "product_type") == [Text(d.productType)]
            && ValuesOf(parts, "available_sizes")
                 == [Text(if d.productType == TshirtCode then d.availableSizes else "")]
  {
    var parts := BuildRequest(d).parts;
    assert ValuesOf(parts, "title") == [Text(d.title)] by {
      ScalarNameOnlyInScalars(d, "title");
    }
    assert ValuesOf(parts, "description") == [Text(d.description)] by {
      ScalarNameOnlyInScalars(d, "description");
    }
    assert ValuesOf(parts, "price") == [Text(d.price)] by {
      ScalarNameOnlyInScalars(d, "price");
    }
    assert ValuesOf(parts, "product_type") == [Text(d.productType)] by {
      ScalarNameOnlyInScalars(d, "product_type");
    }
    assert ValuesOf(parts, "available_sizes") == [Text(SizesToSend(d))] by {
      ScalarNameOnlyInScalars(d, "available_sizes");
    }
  }

  /** Only the file segment carries `uploaded_images` parts. */
  lemma FileLookup(d: Draft)
    ensures ValuesOf(BuildRequest(d).parts, "uploaded_images") == ValuesOf(UploadParts(d.images), "uploaded_images")
  {
    var name := "uploaded_images";
    FormValues(d, name);
    assert ValuesOf(ScalarParts(d), name) == [] by { ScalarValuesFor(d, name); }
    assert ValuesOf(ColorParts(d.colors, |d.images|), name) == [] by { ColorValues(d.colors, |d.images|, name); }
    assert ValuesOf(RemovedParts(RemovedToSend(d)), name) == [] by { RemovedValues(RemovedToSend(d), name); }
  }

  /** One file part per pending file, in order. */
  lemma SubmittedFiles(d: Draft)
    ensures ValuesOf(BuildRequest(d).parts, "uploaded_images")
              == seq(|d.images|, k requires 0 <= k < |d.images| => FilePart(d.images[k]))
  {
    var name := "uploaded_images";
    FileLookup(d);
    UploadValues(d.images, name);
  }

  /** Only the colour segment carries `image_colors` parts. */
  lemma ColorLookup(d: Draft)
    ensures ValuesOf(BuildRequest(d).parts, "image_colors") == ValuesOf(ColorParts(d.colors, |d.images|), "image_colors")
  {
    var name := "image_colors";
    FormValues(d, name);
    assert ValuesOf(ScalarParts(d), name) == [] by { ScalarValuesFor(d, name); }
    assert ValuesOf(UploadParts(d.images), name) == [] by { UploadValues(d.images, name); }
    assert ValuesOf(RemovedParts(RemovedToSend(d)), name) == [] by { RemovedValues(RemovedToSend(d), name); }
  }

  /** One colour part per pending file, read at the file's position, `''` where there is none. */
  lemma SubmittedColors(d: Draft)
    ensures ValuesOf(BuildRequest(d).parts, "image_colors")
              == seq(|d.images|, k requires 0 <= k < |d.images| => Text(ColorOrEmpty(d.colors, k)))
  {
    var name := "image_colors";
    ColorLookup(d);
    ColorValues(d.colors, |d.images|, name);
  }

  /** Only the removal segment carries `removed_images` parts. */
  lemma RemovalLookup(d: Draft)
    ensures ValuesOf(BuildRequest(d).parts, "removed_images") == ValuesOf(RemovedParts(RemovedToSend(d)), "removed_images")
  {
    var name := "removed_images";
    FormValues(d, name);
    assert ValuesOf(ScalarParts(d), name) == [] by { ScalarValuesFor(d, name); }
    assert ValuesOf(UploadParts(d.images), name) == [] by { UploadValues(d.images, name); }
    assert ValuesOf(ColorParts(d.colors, |d.images|), name) == [] by { ColorValues(d.colors, |d.images|, name); }
  }

  /** The recorded removals are sent, in order, only in edit mode. */
  lemma SubmittedRemovals(d: Draft)
    ensures ValuesOf(BuildRequest(d).parts, "removed_images")
              == if d.editing.Some?
                 then seq(|d.removedImageIds|, k requires 0 <= k < |d.removedImageIds| => Number(d.removedImageIds[k]))
                 else []
  {
    var name := "removed_images";
    RemovalLookup(d);
    RemovedValues(RemovedToSend(d), name);
  }

  /**
   * What a submit sends, part name by part name: each scalar once, the sizes
   * cleared unless the type is T-shirt, one file part and one colour part per
   * pending file (the colour read at the file's position, `''` if none), and
   * the recorded removals only in edit mode.
   */
  lemma SubmittedParts(d: Draft)
    ensures var parts := BuildRequest(d).parts;
            && ValuesOf(parts, "title") == [Text(d.title)]
            && ValuesOf(parts, "description") == [Text(d.description)]
            && ValuesOf(parts, "price") == [Text(d.price)]
            && ValuesOf(parts, "product_type") == [Text(d.productType)]
            && ValuesOf(parts, "available_sizes")
                 == [Text(if d.productType == TshirtCode then d.availableSizes else "")]
            && ValuesOf(parts, "uploaded_images")
                 == seq(|d.images|, k requires 0 <= k < |d.images| => FilePart(d.images[k]))
            && ValuesOf(parts, "image_colors")
                 == seq(|d.images|, k requires 0 <= k < |d.images| => Text(ColorOrEmpty(d.colors, k)))
            && ValuesOf(parts, "removed_images")
                 == if d.editing.Some?
                    then seq(|d.removedImageIds|, k requires 0 <= k < |d.removedImageIds| => Number(d.removedImageIds[k]))
                    else []
  {
    SubmittedScalars(d);
    SubmittedFiles(d);
    SubmittedColors(d);
    SubmittedRemovals(d);
  }

  /** A submit never sends a colour list whose length differs from the number of files sent. */
  lemma ColorCountMatchesFiles(d: Draft)
    ensures |ValuesOf(BuildRequest(d).parts, "image_colors")| == |ValuesOf(BuildRequest(d).parts, "uploaded_images")|
  {
    SubmittedParts(d);
  }

  /** A delete is sent only when the user confirms it. */
  function DeleteRequest(productId: int, confirmed: bool): (r: Option<Request>)
    ensures r.Some? <==> confirmed
    ensures r.Some? ==> r.value.verb == Delete && r.value.endpoint == Item(productId) && r.value.parts == []
  {
    if !confirmed then None else Some(Request(Delete, Item(productId), []))
  }

  /**
   * Outside edit mode, the colour chosen at a file's preview is the colour
   * sent for that file.
   */
  lemma CreateSendsChosenColor(files: seq<UploadFile>, urls: seq<string>, k: nat, color: string)
    requires BlobUrlsFor(files, urls) && k < |files|
    ensures var d := SetColor(AddFiles(EmptyDraft, files, urls), k, color);
            var sent := ValuesOf(BuildRequest(d).parts, "image_colors");
            |sent| == |files| && sent[k] == Text(color)
  {
    var d := SetColor(AddFiles(EmptyDraft, files, urls), k, color);
    SubmittedColors(d);
  }

  /**
   * In edit mode, the colours sent for the chosen files are read at positions
   * 0.. which hold the loaded images' colours, not at the files' own preview
   * positions.
   */
  lemma EditSendsLoadedColors(d0: Draft, p: ListedProduct, files: seq<UploadFile>, urls: seq<string>)
    requires BlobUrlsFor(files, urls) && |files| <= |p.images|
    ensures var d := AddFiles(BeginEdit(d0, p), files, urls);
            ValuesOf(BuildRequest(d).parts, "image_colors")
              == seq(|files|, k requires 0 <= k < |files| => Text(OrEmpty(p.images[k].color)))
  {
    var d := AddFiles(BeginEdit(d0, p), files, urls);
    SubmittedColors(d);
  }

  /**
   * In edit mode, a colour chosen at the preview of the first new file is not
   * the colour sent for it: the first loaded image's colour is sent instead.
   */
  lemma EditIgnoresColorChosenForNewFile(d0: Draft, p: ListedProduct, f: UploadFile, url: string, color: string)
    requires IsBlobUrl(url) && |p.images| >= 1
    ensures var d := SetColor(AddFiles(BeginEdit(d0, p), [f], [url]), |p.images|, color);
            && d.colors[|p.images|] == color
            && ValuesOf(BuildRequest(d).parts, "image_colors") == [Text(OrEmpty(p.images[0].color))]
  {
    var d := SetColor(AddFiles(BeginEdit(d0, p), [f], [url]), |p.images|, color);
    SubmittedColors(d);
    assert d.images == [f];
  }
}
