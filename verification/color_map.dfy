/**
 * The editor's colour object, keyed by preview position, and the re-indexing
 * loop run when a preview is removed. The loop's bound is the object's
 * `length` property; a plain object has none, so the comparison against it
 * is false and the loop never runs.
 */
module ColorMap {

  /** Preview position to chosen colour code (`''` once cleared in the selector). */
  type Colors = map<nat, string>

  /** What reading a `length` property yields: nothing, or a number. */
  datatype JsLength = Undefined | Length(n: nat)

  /** The colour object is always a plain object, which has no `length` property. */
  function LengthProperty(colors: Colors): JsLength {
    Undefined
  }

  /** Reading a position with `colors[i] || ''`: the chosen code, or `''` when there is none. */
  function ColorOrEmpty(colors: Colors, i: nat): string {
    if i in colors then colors[i] else ""
  }

  /**
   * The re-indexing loop from iteration `i` on: every position other than
   * `skip` is copied to the next free position `next`. A missing entry is
   * copied as `undefined`, which reads like a missing key and is left out.
   */
  function ReindexLoop(prev: Colors, bound: JsLength, skip: int, i: nat, next: nat, acc: Colors): Colors
    decreases if bound.Length? && i < bound.n then bound.n - i else 0
  {
    if bound.Undefined? || i >= bound.n then acc
    else if i != skip then
      ReindexLoop(prev, bound, skip, i + 1, next + 1, if i in prev then acc[next := prev[i]] else acc)
    else
      ReindexLoop(prev, bound, skip, i + 1, next, acc)
  }

  /** The colour object a removal produces, as the loop computes it over the object's own `length`. */
  function RemoveColorAt(prev: Colors, skip: int): (r: Colors)
    ensures r == map[]
  {
    ReindexLoop(prev, LengthProperty(prev), skip, 0, 0, map[])
  }

  /** The position an entry moves to when position `skip` is removed. */
  function ShiftedKey(k: nat, skip: nat): nat
    requires k != skip
  {
    if k < skip then k else k - 1
  }

  /** The position whose entry moves to `k` when position `skip` is removed. */
  function Source(k: nat, skip: nat): nat {
    if k < skip then k else k + 1
  }

  /**
   * The re-indexing the comment at `moroadmin/src/AdminProducts.js:91`
   * describes: the entry at `skip` is dropped and every later entry moves
   * down one position.
   */
  function ShiftDown(prev: Colors, skip: nat): (r: Colors)
    ensures forall k: nat :: k in r <==> Source(k, skip) in prev
    ensures forall k: nat :: k in r ==> r[k] == prev[Source(k, skip)]
  {
    var keys := set j | j in prev && j != skip :: ShiftedKey(j, skip);
    assert forall k: nat :: Source(k, skip) in prev ==> ShiftedKey(Source(k, skip), skip) in keys;
    assert forall j :: j in prev && j != skip ==> Source(ShiftedKey(j, skip), skip) == j;
    map k | k in keys :: prev[Source(k, skip)]
  }

  /** The part of `ShiftDown(prev, skip)` below position `m`. */
  function ShiftDownBelow(prev: Colors, skip: nat, m: nat): Colors {
    map k: nat | k < m && Source(k, skip) in prev :: prev[Source(k, skip)]
  }

  lemma ExtendShiftPrefix(prev: Colors, skip: nat, next: nat)
    ensures var i := Source(next, skip);
            var acc := ShiftDownBelow(prev, skip, next);
            (if i in prev then acc[next := prev[i]] else acc) == ShiftDownBelow(prev, skip, next + 1)
  {
  }

  /**
   * An iteration that copies position `i` to position `next` extends the
   * re-indexed prefix by one position.
   */
  lemma CopyStep(prev: Colors, n: nat, skip: nat, i: nat, next: nat)
    requires i < n && i != skip
    requires next == if skip < i then i - 1 else i
    ensures ReindexLoop(prev, Length(n), skip, i, next, ShiftDownBelow(prev, skip, next))
         == ReindexLoop(prev, Length(n), skip, i + 1, next + 1, ShiftDownBelow(prev, skip, next + 1))
  {
    assert Source(next, skip) == i;
    ExtendShiftPrefix(prev, skip, next);
  }

  /** Once the counter reaches the bound, the loop returns what it has built. */
  lemma ExitStep(prev: Colors, n: nat, skip: nat, next: nat, acc: Colors)
    ensures ReindexLoop(prev, Length(n), skip, n, next, acc) == acc
  {
  }

  /** The loop, run from iteration `i` with the re-indexed prefix so far, finishes the re-index. */
  lemma {:induction false} ReindexLoopComputesShift(prev: Colors, n: nat, skip: nat, i: nat, next: nat)
    requires skip < n && i <= n
    requires next == if skip < i then i - 1 else i
    ensures ReindexLoop(prev, Length(n), skip, i, next, ShiftDownBelow(prev, skip, next)) == ShiftDownBelow(prev, skip, n - 1)
    decreases n - i, 1
  {
    if i < n && i != skip {
      CopyThenFinish(prev, n, skip, i, next);
    } else if i < n {
      ReindexLoopComputesShift(prev, n, skip, i + 1, next);
    } else {
      assert next == n - 1;
      ExitStep(prev, n, skip, next, ShiftDownBelow(prev, skip, next));
    }
  }

  /** The copying case of `ReindexLoopComputesShift`: one copy, then the rest of the loop. */
  lemma {:induction false} CopyThenFinish(prev: Colors, n: nat, skip: nat, i: nat, next: nat)
    requires skip < n && i < n && i != skip
    requires next == if skip < i then i - 1 else i
    ensures ReindexLoop(prev, Length(n), skip, i, next, ShiftDownBelow(prev, skip, next)) == ShiftDownBelow(prev, skip, n - 1)
    decreases n - i, 0
  {
    CopyStep(prev, n, skip, i, next);
    ReindexLoopComputesShift(prev, n, skip, i + 1, next + 1);
  }

  /**
   * Were the loop bound a real length covering every key, removal would
   * re-index as the comment at `moroadmin/src/AdminProducts.js:91` intends.
   */
  lemma ReindexWithLengthShiftsDown(prev: Colors, n: nat, skip: nat)
    requires skip < n
    requires forall k :: k in prev ==> k < n
    ensures ReindexLoop(prev, Length(n), skip, 0, 0, map[]) == ShiftDown(prev, skip)
  {
    assert ShiftDownBelow(prev, skip, 0) == map[];
    ReindexLoopComputesShift(prev, n, skip, 0, 0);
    forall k: nat | Source(k, skip) in prev
      ensures k < n - 1
    {
    }
    assert ShiftDownBelow(prev, skip, n - 1) == ShiftDown(prev, skip);
  }

  /**
   * Three colours, the middle one removed: the intended re-index keeps the
   * first and last as positions 0 and 1; the loop as written keeps nothing.
   */
  lemma RemovingMiddleOfThree()
    ensures var prev := map[0 := "RED", 1 := "BLUE", 2 := "GREEN"];
            && ShiftDown(prev, 1) == map[0 := "RED", 1 := "GREEN"]
            && RemoveColorAt(prev, 1) == map[]
  {
    var prev := map[0 := "RED", 1 := "BLUE", 2 := "GREEN"];
    var r := ShiftDown(prev, 1);
    assert Source(0, 1) == 0 && Source(1, 1) == 2;
    assert forall k: nat :: k >= 2 ==> Source(k, 1) !in prev;
    assert r.Keys == {0, 1};
  }
}
