/**
 * Grid enumeration helpers: `enumerate2d` walks a flat list as rows of width
 * `w`, tagging every slot with its column, row offset, flat index and whether it
 * lies on the border; `flatTo2d` cuts the list into rows; `enumerateSegments`
 * enumerates the cells of a segmentation.
 */
module Enumerate {
  import opened Wrappers
  import Aggregation

  /** One yielded slot; `item` is `None` past the end of the list (`items[idx]` is undefined there). */
  datatype Element2D<T> = Element2D(item: Option<T>, x: nat, y: nat, idx: nat, edge: bool, corner: bool)

  /** `items[i]`, undefined past the end. */
  function Get<T>(items: seq<T>, i: nat): Option<T> {
    if i < |items| then Some(items[i]) else None
  }

  /** Number of rows the outer loop starts: `ceil(n / w)`. */
  function Rows(n: nat, w: nat): nat
    requires w >= 1
  {
    (n + w - 1) / w
  }

  /** The element yielded at column `x` of the row starting at flat offset `y`. */
  function ElementAt<T>(items: seq<T>, w: nat, x: nat, y: nat): Element2D<T> {
    var side := x == 0 || x == w - 1;
    var end := y == 0 || y >= |items| - w;
    Element2D(Get(items, x + y), x, y, x + y, side || end, side && end)
  }

  /** The first `count` slots the generator yields: slot `i` is column `i % w` of the row at `i - i % w`. */
  function Slots<T>(items: seq<T>, w: nat, count: nat): (r: seq<Element2D<T>>)
    requires w >= 1
    ensures |r| == count
  {
    seq(count, i requires 0 <= i => ElementAt(items, w, i % w, i - i % w))
  }

  /** Everything `enumerate2d(items, w)` yields, in order. */
  function Enumerated<T>(items: seq<T>, w: nat): (r: seq<Element2D<T>>)
    requires w >= 1
    ensures |r| == Rows(|items|, w) * w
  {
    Slots(items, w, Rows(|items|, w) * w)
  }

  /** Yielding column `x` of row `rows`, which starts at `y`, extends the slots by the element at flat index `y + x`. */
  lemma SlotsStep<T>(items: seq<T>, w: nat, rows: nat, y: nat, x: nat)
    requires x < w && w >= 1 && y == Aggregation.Offset(rows, w)
    ensures Slots(items, w, y + x + 1) == Slots(items, w, y + x) + [ElementAt(items, w, x, y)]
  {
    Aggregation.OffsetIsProduct(rows, w);
    var n := y + x;
    Aggregation.DivModUnique(n, w, rows, x);
    assert Slots(items, w, n + 1)[n] == ElementAt(items, w, x, y);
  }

  /**
   * The generator's nested loops, collected into a sequence. An empty list
   * yields nothing for any width, 0 included, as the outer loop never starts;
   * a non-empty list needs `w >= 1`, or `y += w` never reaches its length.
   */
  method Enumerate2d<T>(items: seq<T>, w: nat) returns (r: seq<Element2D<T>>)
    requires w >= 1 || |items| == 0
    ensures |items| == 0 ==> r == []
    ensures w >= 1 ==> r == Enumerated(items, w)
  {
    r := [];
    var y := 0;
    ghost var rows := 0;
    while y < |items|
      invariant y == Aggregation.Offset(rows, w) && (w >= 1 ==> y <= |items| + w - 1)
      invariant |items| == 0 ==> r == []
      invariant w >= 1 ==> r == Slots(items, w, y)
    {
      var x := 0;
      while x < w
        invariant 0 <= x <= w
        invariant r == Slots(items, w, y + x)
      {
        r := YieldSlot(items, w, rows, y, x, r);
        x := x + 1;
      }
      y := y + w;
      rows := rows + 1;
    }
    if w >= 1 {
      Aggregation.OffsetIsProduct(rows, w);
      Aggregation.DivModUnique(|items| + w - 1, w, rows, |items| + w - 1 - y);
    }
  }

  /** The body of the inner `x` loop: the element at column `x` of the row starting at `y` is yielded. */
  method YieldSlot<T>(items: seq<T>, w: nat, ghost rows: nat, y: nat, x: nat, r: seq<Element2D<T>>)
    returns (next: seq<Element2D<T>>)
    requires x < w && y == Aggregation.Offset(rows, w) && r == Slots(items, w, y + x)
    ensures next == Slots(items, w, y + x + 1)
  {
    var idx := x + y;
    var side := x == 0 || x == w - 1;
    var end := y == 0 || y >= |items| - w;
    SlotsStep(items, w, rows, y, x);
    next := r + [Element2D(Get(items, idx), x, y, idx, side || end, side && end)];
  }

  /** Slot `i` of the enumeration sits at flat index `i`, on a column below `w` and a row offset that is a multiple of `w`. */
  lemma EnumeratedAt<T>(items: seq<T>, w: nat, i: nat)
    requires w >= 1 && i < |Enumerated(items, w)|
    ensures var e := Enumerated(items, w)[i];
      && e.idx == i && e.x == i % w < w && e.y % w == 0 && e.x + e.y == i
      && e.item == (if i < |items| then Some(items[i]) else None)
      && (e.corner ==> e.edge)
  {
    Aggregation.DivModUnique(i - i % w, w, i / w, 0);
  }

  /** The enumeration visits flat indices in strictly increasing order. */
  lemma EnumeratedIncreasing<T>(items: seq<T>, w: nat, i: nat, j: nat)
    requires w >= 1 && i < j < |Enumerated(items, w)|
    ensures Enumerated(items, w)[i].idx < Enumerated(items, w)[j].idx
  {
    EnumeratedAt(items, w, i);
    EnumeratedAt(items, w, j);
  }

  /** When `n` is a whole number of rows, the enumeration covers exactly the list. */
  lemma EnumeratedCoversRows<T>(items: seq<T>, w: nat, h: nat)
    requires w >= 1 && |items| == h * w
    ensures |Enumerated(items, w)| == |items|
    ensures forall i :: 0 <= i < |items| ==> Enumerated(items, w)[i].item == Some(items[i])
  {
    if h > 0 {
      Aggregation.DivModUnique(|items| + w - 1, w, h, w - 1);
    } else {
      Aggregation.DivModUnique(w - 1, w, 0, w - 1);
    }
    forall i | 0 <= i < |items|
      ensures Enumerated(items, w)[i].item == Some(items[i])
    {
      EnumeratedAt(items, w, i);
    }
  }

  /** Row `k` of `flatTo2d`: `w` slots read from offset `k * w`, undefined past the end. */
  function RowOf<T>(items: seq<T>, w: nat, k: nat): (r: seq<Option<T>>)
    ensures |r| == w
  {
    seq(w, x requires 0 <= x => Get(items, k * w + x))
  }

  /**
   * `flatTo2d`: every row is pushed only when the next one starts, so the last
   * row started is never emitted. An empty list gives `[]` for any width, 0
   * included; a non-empty list needs `w >= 1`, as in `enumerate2d`.
   */
  method FlatTo2d<T>(items: seq<T>, w: nat) returns (result: seq<seq<Option<T>>>)
    requires w >= 1 || |items| == 0
    ensures |items| == 0 ==> result == []
    ensures |items| > 0 ==> |result| == Rows(|items|, w) - 1
    ensures forall k :: 0 <= k < |result| ==> result[k] == RowOf(items, w, k)
  {
    result := [];
    var current: Option<seq<Option<T>>> := None;
    var y := 0;
    ghost var rows := 0;
    while y < |items|
      invariant y == Aggregation.Offset(rows, w) && (w >= 1 ==> y <= |items| + w - 1)
      invariant |items| == 0 ==> rows == 0
      invariant rows == 0 ==> current.None? && result == []
      invariant rows > 0 ==> current == Some(RowOf(items, w, rows - 1)) && |result| == rows - 1
      invariant forall k :: 0 <= k < |result| ==> result[k] == RowOf(items, w, k)
    {
      if current.Some? {
        PushRow(result, current.value, items, w);
        result := result + [current.value];
      }
      var row := ReadRow(items, w, y);
      RowFrom(items, w, rows, y, row);
      current := Some(row);
      y := y + w;
      rows := rows + 1;
    }
    if |items| > 0 {
      Aggregation.OffsetIsProduct(rows, w);
      Aggregation.DivModUnique(|items| + w - 1, w, rows, |items| + w - 1 - y);
    }
  }

  /** The inner `x` loop of `flatTo2d`: the `w` slots from offset `y`, `undefined` past the end. */
  method ReadRow<T>(items: seq<T>, w: nat, y: nat) returns (row: seq<Option<T>>)
    ensures |row| == w
    ensures forall j :: 0 <= j < w ==> row[j] == Get(items, y + j)
  {
    row := [];
    var x := 0;
    while x < w
      invariant 0 <= x <= w && |row| == x
      invariant forall j :: 0 <= j < x ==> row[j] == Get(items, y + j)
    {
      row := row + [Get(items, x + y)];
      x := x + 1;
    }
  }

  /** The `w` slots read from offset `y == rows * w` make up row `rows`. */
  lemma RowFrom<T>(items: seq<T>, w: nat, rows: nat, y: nat, row: seq<Option<T>>)
    requires y == Aggregation.Offset(rows, w) && |row| == w
    requires forall j :: 0 <= j < w ==> row[j] == Get(items, y + j)
    ensures row == RowOf(items, w, rows)
  {
    Aggregation.OffsetIsProduct(rows, w);
  }

  /** Pushing row `|rows|` onto rows `0 .. |rows| - 1` keeps every row in place. */
  lemma PushRow<T>(rows: seq<seq<Option<T>>>, row: seq<Option<T>>, items: seq<T>, w: nat)
    requires forall k :: 0 <= k < |rows| ==> rows[k] == RowOf(items, w, k)
    requires row == RowOf(items, w, |rows|)
    ensures forall k :: 0 <= k < |rows| + 1 ==> (rows + [row])[k] == RowOf(items, w, k)
  {
  }

  /** Every emitted row lies wholly inside the list, so none of its slots is undefined. */
  lemma FlatRowsInside<T>(items: seq<T>, w: nat, k: nat, x: nat)
    requires w >= 1 && |items| > 0 && k < Rows(|items|, w) - 1 && x < w
    ensures k * w + x < |items|
    ensures RowOf(items, w, k)[x] == Some(items[k * w + x])
  {
    var q := Rows(|items|, w);
    var c := (|items| + w - 1) % w;
    assert |items| + w - 1 == q * w + c;
    assert (q - 1) * w == q * w - w;
    Aggregation.MulMono(k + 1, q - 1, w);
    assert RowOf(items, w, k)[x] == Get(items, k * w + x);
  }

  // ---- enumerateSegments ----

  /** A segmentation: the cells, `horizontalCount` per row. */
  datatype SegmentResult<T> = SegmentResult(shapes: seq<T>, horizontalCount: nat)

  /**
   * `enumerateSegments` as written: a generator whose body `return`s the inner
   * iterable. A generator's return value is not yielded, so it yields nothing.
   */
  function EnumerateSegmentsAsWritten<T>(s: SegmentResult<T>): seq<Element2D<T>> {
    []
  }

  /** Any non-empty segmentation loses all its cells through the generator as written. */
  lemma EnumerateSegmentsAsWrittenLosesCells<T>(s: SegmentResult<T>)
    requires s.horizontalCount >= 1 && |s.shapes| >= 1
    ensures |Enumerated(s.shapes, s.horizontalCount)| >= 1
    ensures EnumerateSegmentsAsWritten(s) != Enumerated(s.shapes, s.horizontalCount)
  {
    var w := s.horizontalCount;
    var q := Rows(|s.shapes|, w);
    assert |s.shapes| + w - 1 == q * w + (|s.shapes| + w - 1) % w;
    assert q >= 1;
    Aggregation.MulMono(1, q, w);
  }

  /** `enumerateSegments` with the delegation it evidently intends (`yield*`): the cells in grid order. */
  method EnumerateSegments<T>(s: SegmentResult<T>) returns (r: seq<Element2D<T>>)
    requires s.horizontalCount >= 1
    ensures r == Enumerated(s.shapes, s.horizontalCount)
  {
    r := Enumerate2d(s.shapes, s.horizontalCount);
  }
}
