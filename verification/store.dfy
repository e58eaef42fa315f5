/**
 * The database as two tables keyed by auto-incremented ids. Every image row
 * points at an existing product (foreign-key integrity) and every id lies
 * below its table's counter, so the next id handed out is always fresh.
 */
module Store {
  import opened Options
  import opened Catalog

  datatype Tables = Tables(
    products: map<ProductId, Product>,
    images: map<ImageId, ProductImage>,
    nextProductId: nat,
    nextImageId: nat)
  {
    predicate Consistent() {
      && (forall pid :: pid in products ==> pid < nextProductId)
      && (forall iid :: iid in images ==> iid < nextImageId && images[iid].product in products)
    }
  }

  type Store = t: Tables | t.Consistent() witness Tables(map[], map[], 0, 0)

  /** The ids of the images owned by `pid`. */
  function OwnedImages(s: Store, pid: ProductId): set<ImageId> {
    set iid | iid in s.images && s.images[iid].product == pid
  }

  /** Inserts a product row under a fresh id; images are untouched. */
  function InsertProduct(s: Store, p: Product): (r: (Store, ProductId))
    ensures r.1 !in s.products
    ensures r.0.products == s.products[r.1 := p]
    ensures r.0.images == s.images
    ensures r.0.nextImageId == s.nextImageId
  {
    var pid := s.nextProductId;
    (s.(products := s.products[pid := p], nextProductId := pid + 1), pid)
  }

  /** Inserts an image row for an existing product under the next image id. */
  function InsertImage(s: Store, img: ProductImage): (r: (Store, ImageId))
    requires img.product in s.products
    ensures r.1 !in s.images && r.1 == s.nextImageId
    ensures r.0.images == s.images[r.1 := img]
    ensures r.0.products == s.products
    ensures r.0.nextImageId == s.nextImageId + 1
  {
    var iid := s.nextImageId;
    (s.(images := s.images[iid := img], nextImageId := iid + 1), iid)
  }

  /** Deletes a set of image rows; products are untouched. */
  function DeleteImages(s: Store, ids: set<ImageId>): (r: Store)
    ensures r.products == s.products
    ensures r.nextProductId == s.nextProductId && r.nextImageId == s.nextImageId
    ensures forall iid :: iid in r.images <==> iid in s.images && iid !in ids
    ensures forall iid :: iid in r.images ==> r.images[iid] == s.images[iid]
  {
    s.(images := s.images - ids)
  }

  /** Deleting a product cascades to every image it owns, and to nothing else. */
  function DeleteProduct(s: Store, pid: ProductId): (r: Store)
    ensures r.products == s.products - {pid}
    ensures forall iid :: iid in r.images <==> iid in s.images && s.images[iid].product != pid
    ensures forall iid :: iid in r.images ==> r.images[iid] == s.images[iid]
  {
    s.(products := s.products - {pid}, images := s.images - OwnedImages(s, pid))
  }

  predicate Increasing(xs: seq<ImageId>) {
    forall i, j :: 0 <= i < j < |xs| ==> xs[i] < xs[j]
  }

  predicate Distinct(xs: seq<ImageId>) {
    forall i, j :: 0 <= i < j < |xs| ==> xs[i] != xs[j]
  }

  /** The ids below `n` of images owned by `pid`, in ascending id order. */
  function OwnedBelow(images: map<ImageId, ProductImage>, pid: ProductId, n: nat): (r: seq<ImageId>)
    ensures forall iid :: iid in r <==> iid < n && iid in images && images[iid].product == pid
    ensures Increasing(r)
  {
    if n == 0 then []
    else
      var rest := OwnedBelow(images, pid, n - 1);
      assert forall k :: 0 <= k < |rest| ==> rest[k] in rest;
      if n - 1 in images && images[n - 1].product == pid then rest + [n - 1] else rest
  }

  predicate AllIn(images: map<ImageId, ProductImage>, xs: seq<ImageId>) {
    forall i :: 0 <= i < |xs| ==> xs[i] in images
  }

  /** `xs` lists images in non-decreasing `order`. */
  predicate OrderedBy(images: map<ImageId, ProductImage>, xs: seq<ImageId>)
    requires AllIn(images, xs)
  {
    forall i, j :: 0 <= i < j < |xs| ==> images[xs[i]].order <= images[xs[j]].order
  }

  /** Inserts `x` after every element whose order does not exceed its own (stable insertion). */
  function InsertByOrder(images: map<ImageId, ProductImage>, x: ImageId, xs: seq<ImageId>): (r: seq<ImageId>)
    requires x in images && AllIn(images, xs) && OrderedBy(images, xs)
    ensures multiset(r) == multiset(xs) + multiset{x}
    ensures AllIn(images, r) && OrderedBy(images, r)
  {
    if |xs| == 0 then [x]
    else if images[x].order < images[xs[0]].order then
      InsertInFront(images, x, xs);
      [x] + xs
    else
      var tail := InsertByOrder(images, x, xs[1..]);
      InsertBehindFirst(images, x, xs, tail);
      [xs[0]] + tail
  }

  /** An image whose order is below the first listed one goes in front. */
  lemma InsertInFront(images: map<ImageId, ProductImage>, x: ImageId, xs: seq<ImageId>)
    requires x in images && AllIn(images, xs) && OrderedBy(images, xs)
    requires |xs| > 0 && images[x].order < images[xs[0]].order
    ensures AllIn(images, [x] + xs) && OrderedBy(images, [x] + xs)
  {
    var r := [x] + xs;
    assert forall k :: 1 <= k < |r| ==> r[k] == xs[k - 1];
  }

  /** An image whose order is not below the first listed one goes into the rest, behind the first. */
  lemma InsertBehindFirst(images: map<ImageId, ProductImage>, x: ImageId, xs: seq<ImageId>, tail: seq<ImageId>)
    requires x in images && AllIn(images, xs) && OrderedBy(images, xs)
    requires |xs| > 0 && images[xs[0]].order <= images[x].order
    requires multiset(tail) == multiset(xs[1..]) + multiset{x}
    requires AllIn(images, tail) && OrderedBy(images, tail)
    ensures multiset([xs[0]] + tail) == multiset(xs) + multiset{x}
    ensures AllIn(images, [xs[0]] + tail) && OrderedBy(images, [xs[0]] + tail)
  {
    assert xs == [xs[0]] + xs[1..];
    FirstBoundsRest(images, xs[0], x, xs[1..], tail);
    var r := [xs[0]] + tail;
    assert forall k :: 1 <= k < |r| ==> r[k] == tail[k - 1];
  }

  lemma FirstBoundsRest(images: map<ImageId, ProductImage>, first: ImageId, x: ImageId, rest: seq<ImageId>, tail: seq<ImageId>)
    requires first in images && x in images && AllIn(images, rest) && AllIn(images, tail)
    requires images[first].order <= images[x].order
    requires forall k :: 0 <= k < |rest| ==> images[first].order <= images[rest[k]].order
    requires multiset(tail) == multiset(rest) + multiset{x}
    ensures forall k :: 0 <= k < |tail| ==> images[first].order <= images[tail[k]].order
  {
    forall k | 0 <= k < |tail|
      ensures images[first].order <= images[tail[k]].order
    {
      assert tail[k] in multiset(tail);
      if tail[k] != x {
        assert tail[k] in multiset(rest);
        var j :| 0 <= j < |rest| && rest[j] == tail[k];
      }
    }
  }

  /** A stable sort of `xs` by image order; images of equal order keep their relative position. */
  function SortByOrder(images: map<ImageId, ProductImage>, xs: seq<ImageId>): (r: seq<ImageId>)
    requires AllIn(images, xs)
    ensures multiset(r) == multiset(xs)
    ensures AllIn(images, r) && OrderedBy(images, r)
  {
    if |xs| == 0 then []
    else
      assert xs == xs[..|xs| - 1] + [xs[|xs| - 1]];
      InsertByOrder(images, xs[|xs| - 1], SortByOrder(images, xs[..|xs| - 1]))
  }

  lemma {:induction false} DistinctCount(xs: seq<ImageId>, x: ImageId)
    requires Distinct(xs)
    ensures multiset(xs)[x] <= 1
  {
    if |xs| > 0 {
      var last := xs[|xs| - 1];
      var init := xs[..|xs| - 1];
      assert xs == init + [last];
      DistinctCount(init, x);
      if x == last {
        assert last !in init;
      }
    }
  }

  lemma RepeatCountsTwice(ys: seq<ImageId>, i: nat, j: nat)
    requires i < j < |ys| && ys[i] == ys[j]
    ensures multiset(ys)[ys[i]] >= 2
  {
    assert ys == ys[..j] + [ys[j]] + ys[j + 1..];
    assert ys[i] in ys[..j];
  }

  lemma PermutationKeepsDistinct(xs: seq<ImageId>, ys: seq<ImageId>)
    requires Distinct(xs) && multiset(xs) == multiset(ys)
    ensures Distinct(ys)
  {
    forall i, j | 0 <= i < j < |ys|
      ensures ys[i] != ys[j]
    {
      if ys[i] == ys[j] {
        RepeatCountsTwice(ys, i, j);
        DistinctCount(xs, ys[i]);
        assert false;
      }
    }
  }

  /**
   * The images of a product as the related-objects listing returns them:
   * each owned image exactly once, in ascending `order`, ties in creation order.
   */
  function ImagesOf(s: Store, pid: ProductId): (r: seq<ImageId>)
    ensures forall iid :: iid in r <==> iid in s.images && s.images[iid].product == pid
    ensures Distinct(r)
    ensures AllIn(s.images, r) && OrderedBy(s.images, r)
  {
    var owned := OwnedBelow(s.images, pid, s.nextImageId);
    var sorted := SortByOrder(s.images, owned);
    assert forall iid :: iid in sorted <==> iid in multiset(owned);
    PermutationKeepsDistinct(owned, sorted);
    sorted
  }

  /** After a cascading delete, the product lists no images. */
  lemma DeletedProductHasNoImages(s: Store, pid: ProductId)
    ensures ImagesOf(DeleteProduct(s, pid), pid) == []
  {
  }

  /** When every order is equal, the listing keeps the order it was given. */
  lemma {:induction false} SortStableOnEqualOrders(images: map<ImageId, ProductImage>, xs: seq<ImageId>)
    requires AllIn(images, xs)
    requires forall i :: 0 <= i < |xs| ==> images[xs[i]].order == 0
    ensures SortByOrder(images, xs) == xs
  {
    if |xs| > 0 {
      var init := xs[..|xs| - 1];
      var last := xs[|xs| - 1];
      assert xs == init + [last];
      assert AllIn(images, init) && forall i :: 0 <= i < |init| ==> images[init[i]].order == 0 by {
        assert forall i :: 0 <= i < |init| ==> init[i] == xs[i];
      }
      SortStableOnEqualOrders(images, init);
      EqualOrdersAreOrdered(images, init);
      InsertLastOnEqualOrders(images, last, init);
      assert SortByOrder(images, xs) == InsertByOrder(images, last, SortByOrder(images, init));
    }
  }

  lemma EqualOrdersAreOrdered(images: map<ImageId, ProductImage>, xs: seq<ImageId>)
    requires AllIn(images, xs)
    requires forall i :: 0 <= i < |xs| ==> images[xs[i]].order == 0
    ensures OrderedBy(images, xs)
  {
  }

  lemma {:induction false} InsertLastOnEqualOrders(images: map<ImageId, ProductImage>, x: ImageId, xs: seq<ImageId>)
    requires x in images && AllIn(images, xs) && OrderedBy(images, xs)
    requires images[x].order == 0
    requires forall i :: 0 <= i < |xs| ==> images[xs[i]].order == 0
    ensures InsertByOrder(images, x, xs) == xs + [x]
  {
    if |xs| > 0 {
      InsertLastOnEqualOrders(images, x, xs[1..]);
      assert xs == [xs[0]] + xs[1..];
    }
  }

  /** When a product owns exactly a contiguous block of ids, its ascending owned-id list is that block. */
  lemma OwnedBelowIsBlock(images: map<ImageId, ProductImage>, pid: ProductId, lo: nat, n: nat, bound: nat)
    requires lo + n <= bound
    requires forall iid :: iid in images && images[iid].product == pid <==> lo <= iid < lo + n
    ensures OwnedBelow(images, pid, bound) == seq(n, k => lo + k)
  {
    var owned := OwnedBelow(images, pid, bound);
    var block: seq<ImageId> := seq(n, k requires 0 <= k < n => lo + k);
    forall x | lo <= x < lo + n
      ensures x in block
    {
      assert block[x - lo] == x;
    }
    IncreasingSameElements(owned, block);
  }

  /**
   * A product that owns exactly the contiguous block of ids from `lo`, all of
   * the default order 0, lists them in id order.
   */
  lemma ListingOfFreshBlock(s: Store, pid: ProductId, lo: nat, n: nat)
    requires lo + n <= s.nextImageId
    requires forall iid :: iid in s.images && s.images[iid].product == pid <==> lo <= iid < lo + n
    requires forall iid :: iid in s.images && s.images[iid].product == pid ==> s.images[iid].order == 0
    ensures ImagesOf(s, pid) == seq(n, k => lo + k)
  {
    var owned := OwnedBelow(s.images, pid, s.nextImageId);
    OwnedBelowIsBlock(s.images, pid, lo, n, s.nextImageId);
    assert forall i :: 0 <= i < |owned| ==> owned[i] in owned;
    SortStableOnEqualOrders(s.images, owned);
  }

  /** Two ascending id lists with the same elements are the same list. */
  lemma {:induction false} IncreasingSameElements(a: seq<ImageId>, b: seq<ImageId>)
    requires Increasing(a) && Increasing(b)
    requires forall x :: x in a <==> x in b
    ensures a == b
  {
    if |a| == 0 || |b| == 0 {
      EmptyWhenOtherEmpty(a, b);
    } else {
      assert a[0] in b && b[0] in a;
      assert a[0] == b[0];
      forall x | x in a[1..]
        ensures x in b[1..]
      {
        assert x in a && x != a[0];
      }
      forall x | x in b[1..]
        ensures x in a[1..]
      {
        assert x in b && x != b[0];
      }
      IncreasingSameElements(a[1..], b[1..]);
      assert a == [a[0]] + a[1..] && b == [b[0]] + b[1..];
    }
  }

  lemma EmptyWhenOtherEmpty(a: seq<ImageId>, b: seq<ImageId>)
    requires |a| == 0 || |b| == 0
    requires forall x :: x in a <==> x in b
    ensures a == b
  {
    HeadIsMember(a);
    HeadIsMember(b);
  }

  lemma HeadIsMember(xs: seq<ImageId>)
    ensures |xs| > 0 ==> xs[0] in xs
  {
  }

  /** Sorting only consults the rows of the listed ids. */
  lemma {:induction false} SortConsultsListedRows(i1: map<ImageId, ProductImage>, i2: map<ImageId, ProductImage>, xs: seq<ImageId>)
    requires AllIn(i1, xs) && AllIn(i2, xs)
    requires forall k :: 0 <= k < |xs| ==> i1[xs[k]] == i2[xs[k]]
    ensures SortByOrder(i1, xs) == SortByOrder(i2, xs)
  {
    if |xs| > 0 {
      var init := xs[..|xs| - 1];
      SortConsultsListedRows(i1, i2, init);
      var sorted := SortByOrder(i1, init);
      assert forall k :: 0 <= k < |sorted| ==> sorted[k] in multiset(init);
      InsertConsultsListedRows(i1, i2, xs[|xs| - 1], sorted);
    }
  }

  lemma {:induction false} InsertConsultsListedRows(i1: map<ImageId, ProductImage>, i2: map<ImageId, ProductImage>, x: ImageId, xs: seq<ImageId>)
    requires x in i1 && x in i2 && i1[x] == i2[x]
    requires AllIn(i1, xs) && AllIn(i2, xs) && OrderedBy(i1, xs) && OrderedBy(i2, xs)
    requires forall k :: 0 <= k < |xs| ==> i1[xs[k]] == i2[xs[k]]
    ensures InsertByOrder(i1, x, xs) == InsertByOrder(i2, x, xs)
  {
    if |xs| > 0 {
      InsertConsultsListedRows(i1, i2, x, xs[1..]);
    }
  }

  /** A product's listing depends only on the rows it owns. */
  lemma SameOwnedRowsSameListing(s1: Store, s2: Store, pid: ProductId)
    requires forall iid :: (iid in s1.images && s1.images[iid].product == pid)
                       <==> (iid in s2.images && s2.images[iid].product == pid)
    requires forall iid :: iid in s1.images && s1.images[iid].product == pid ==> s2.images[iid] == s1.images[iid]
    ensures ImagesOf(s1, pid) == ImagesOf(s2, pid)
  {
    var o1 := OwnedBelow(s1.images, pid, s1.nextImageId);
    var o2 := OwnedBelow(s2.images, pid, s2.nextImageId);
    IncreasingSameElements(o1, o2);
    assert forall k :: 0 <= k < |o1| ==> o1[k] in o1;
    SortConsultsListedRows(s1.images, s2.images, o1);
  }
}
