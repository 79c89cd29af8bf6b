/**
 * The drawing helpers of a render context: inclusive numeric ranges, clamping
 * to the canvas, and the grids of cell anchor points (`segment`,
 * `segmentAspectRatio`, `segmentDimension`). The arithmetic is the same in the
 * two render contexts of the code; both classes use the definitions here.
 */
module RenderContextModel {
  import opened Geom
  import Sizes
  import Aggregation
  import RandomContextModel

  /** Where in its cell an anchor point sits. */
  datatype SegmentStyle = Start | End | Center

  datatype Orientation = Horizontal | Vertical

  /** `getSegmentAdjustment(style, size)`: the offset of the anchor from the start of its cell. */
  function SegmentAdjustment(style: SegmentStyle, size: real): (r: real)
    ensures style.Start? ==> r == 0.0
    ensures style.Center? ==> r + r == size
    ensures style.End? ==> r == size
    ensures 0.0 <= size ==> 0.0 <= r <= size
  {
    match style
    case Center => size / 2.0
    case End => size
    case Start => 0.0
  }

  // ---- range ----

  /** How many values `range(start, end, step)` yields. */
  function RangeCount(start: real, end: real, step: real): nat
    requires step > 0.0
  {
    if start > end then 0 else ((end - start) / step).Floor + 1
  }

  /** The values `range(start, end, step)` yields: `start`, `start + step`, ... */
  function RangeValues(start: real, end: real, step: real): (r: seq<real>)
    requires step > 0.0
    ensures |r| == RangeCount(start, end, step)
  {
    seq(RangeCount(start, end, step), i requires 0 <= i => RangeTerm(start, step, i))
  }

  /** The `k`-th value the loop pushes. */
  function RangeTerm(start: real, step: real, k: nat): real {
    start + (k as real) * step
  }

  /** The loop test `current <= end` holds at step `k` exactly while `k` is below the count. */
  lemma RangeCountSpec(start: real, end: real, step: real, k: nat)
    requires step > 0.0
    ensures RangeTerm(start, step, k) <= end <==> k < RangeCount(start, end, step)
  {
    if start <= end {
      var q := Quotient(end - start, step);
      FloorCompare(k, q);
      assert RangeCount(start, end, step) == q.Floor + 1;
      TermWithin(start, end, step, k, q);
    } else {
      var p := Product(k as real, step);
      assert RangeTerm(start, step, k) == start + p;
    }
  }

  /** With `q` steps spanning exactly from `start` to `end`, term `k` stays within `end` exactly when `k <= q`. */
  lemma TermWithin(start: real, end: real, step: real, k: nat, q: real)
    requires step > 0.0 && q * step == end - start
    ensures RangeTerm(start, step, k) <= end <==> (k as real) <= q
  {
    if (k as real) <= q {
      ProductMono(k as real, q, step);
    } else {
      ProductStrict(q, k as real, step);
    }
  }

  /** `q == a / b`, and multiplying back gives `a`. */
  lemma Quotient(a: real, b: real) returns (q: real)
    requires b > 0.0
    ensures q == a / b && q * b == a
  {
    q := a / b;
  }

  /** A whole number lies below `floor(q) + 1` exactly when it is at most `q`. */
  lemma FloorCompare(k: int, q: real)
    ensures k < q.Floor + 1 <==> (k as real) <= q
  {
  }

  lemma Product(a: real, b: real) returns (p: real)
    requires a >= 0.0 && b > 0.0
    ensures p == a * b && p >= 0.0
  {
    p := a * b;
  }

  lemma QuotientNonNegative(a: real, b: real)
    requires a >= 0.0 && b > 0.0
    ensures a / b >= 0.0
  {
  }

  lemma ProductMono(a: real, b: real, c: real)
    requires a <= b && c >= 0.0
    ensures a * c <= b * c
  {
  }

  lemma ProductStrict(a: real, b: real, c: real)
    requires a < b && c > 0.0
    ensures a * c < b * c
  {
  }

  /**
   * The range starts at `start`, climbs by `step`, stays at or below `end`, and
   * stops just before passing it; it is empty exactly when `start > end`.
   */
  lemma RangeValuesMeaning(start: real, end: real, step: real)
    requires step > 0.0
    ensures |RangeValues(start, end, step)| == 0 <==> start > end
    ensures |RangeValues(start, end, step)| > 0 ==> RangeValues(start, end, step)[0] == start
    ensures forall i :: 0 <= i < |RangeValues(start, end, step)| ==> RangeValues(start, end, step)[i] <= end
    ensures forall i :: 0 < i < |RangeValues(start, end, step)| ==>
      RangeValues(start, end, step)[i] == RangeValues(start, end, step)[i - 1] + step
    ensures RangeTerm(start, step, |RangeValues(start, end, step)|) > end
  {
    var r := RangeValues(start, end, step);
    forall i | 0 <= i < |r|
      ensures r[i] <= end
    {
      RangeCountSpec(start, end, step, i);
    }
    RangeCountSpec(start, end, step, |r|);
    if start <= end {
      assert |r| > 0;
    }
  }

  // ---- clamp ----

  /** `Math.max(padding, Math.min(v, length - padding))`. */
  function Clamp(v: real, padding: real, length: real): (r: real)
    ensures r >= padding
    ensures padding <= length - padding ==> r <= length - padding
    ensures padding <= v <= length - padding ==> r == v
  {
    var upper := if v <= length - padding then v else length - padding;
    if padding >= upper then padding else upper
  }

  // ---- segment grids ----

  /** The anchor of cell (x, y): `x` cells of `hSize` across and `y` cells of `vSize` down, each plus its adjustment. */
  function GridPoint(x: nat, y: nat, hSize: real, vSize: real, hAdjust: real, vAdjust: real): Point {
    Point((x as real) * hSize + hAdjust, (y as real) * vSize + vAdjust)
  }

  /** The first `count` anchors of the x-outer, y-inner walk over columns of `vertical` cells. */
  function GridPrefix(hSize: real, vSize: real, hAdjust: real, vAdjust: real, vertical: nat, count: nat): (r: seq<Point>)
    requires vertical > 0 || count == 0
    ensures |r| == count
  {
    seq(count, i requires 0 <= i < count => GridPoint(i / vertical, i % vertical, hSize, vSize, hAdjust, vAdjust))
  }

  /**
   * `segment(horizontal, vertical, style)` on a canvas of `width` by `height`
   * pixels. Both cell sizes divide by the horizontal count.
   */
  function SegmentPoints(width: real, height: real, horizontal: nat, vertical: nat, style: SegmentStyle): (r: seq<Point>)
    ensures |r| == horizontal * vertical
  {
    if horizontal == 0 || vertical == 0 then []
    else
      var hSize := width / (horizontal as real);
      var vSize := height / (horizontal as real);
      GridPrefix(hSize, vSize, SegmentAdjustment(style, hSize), SegmentAdjustment(style, vSize), vertical, horizontal * vertical)
  }

  /** One more cell of column `x` extends the walk by the anchor of (x, y). */
  lemma GridStep(hSize: real, vSize: real, hAdjust: real, vAdjust: real, vertical: nat, x: nat, y: nat)
    requires y < vertical
    ensures GridPrefix(hSize, vSize, hAdjust, vAdjust, vertical, x * vertical + y + 1)
         == GridPrefix(hSize, vSize, hAdjust, vAdjust, vertical, x * vertical + y) + [GridPoint(x, y, hSize, vSize, hAdjust, vAdjust)]
  {
    Aggregation.DivModUnique(x * vertical + y, vertical, x, y);
  }

  /**
   * Cell (x, y) of `segment` sits at index `x * vertical + y`, at its anchor
   * `GridPoint`: `x * width / horizontal` across and `y * height / horizontal`
   * down, plus the style's adjustment.
   */
  lemma SegmentPointAt(width: real, height: real, horizontal: nat, vertical: nat, style: SegmentStyle, x: nat, y: nat)
    requires x < horizontal && y < vertical
    ensures x * vertical + y < horizontal * vertical
    ensures var hSize := width / (horizontal as real);
      var vSize := height / (horizontal as real);
      SegmentPoints(width, height, horizontal, vertical, style)[x * vertical + y]
        == GridPoint(x, y, hSize, vSize, SegmentAdjustment(style, hSize), SegmentAdjustment(style, vSize))
  {
    var hSize := width / (horizontal as real);
    var vSize := height / (horizontal as real);
    GridPrefixAt(hSize, vSize, SegmentAdjustment(style, hSize), SegmentAdjustment(style, vSize), horizontal, vertical, x, y);
  }

  /** Cell (x, y) of the whole walk over `horizontal` columns is its element `x * vertical + y`. */
  lemma GridPrefixAt(hSize: real, vSize: real, hAdjust: real, vAdjust: real, horizontal: nat, vertical: nat, x: nat, y: nat)
    requires x < horizontal && y < vertical
    ensures x * vertical + y < horizontal * vertical
    ensures GridPrefix(hSize, vSize, hAdjust, vAdjust, vertical, horizontal * vertical)[x * vertical + y]
         == GridPoint(x, y, hSize, vSize, hAdjust, vAdjust)
  {
    Aggregation.MulMono(x + 1, horizontal, vertical);
    Aggregation.DivModUnique(x * vertical + y, vertical, x, y);
  }

  /** `segmentDimension(count, orientation, style)` along a side of `length` pixels. */
  function DimensionValues(length: real, count: nat, style: SegmentStyle): (r: seq<real>)
    ensures |r| == count
  {
    if count == 0 then []
    else
      var size := length / (count as real);
      seq(count, i requires 0 <= i => DimensionTerm(size, i, SegmentAdjustment(style, size)))
  }

  /** The anchor of cell `i` along a side. */
  function DimensionTerm(size: real, i: nat, adjust: real): real {
    size * (i as real) + adjust
  }

  /** Consecutive anchors along a side are one cell apart, and with a non-negative length every anchor lies on the side. */
  lemma DimensionValuesMeaning(length: real, count: nat, style: SegmentStyle)
    ensures forall i :: 0 < i < count ==>
      DimensionValues(length, count, style)[i] == DimensionValues(length, count, style)[i - 1] + length / (count as real)
    ensures length >= 0.0 ==> forall i :: 0 <= i < count ==> 0.0 <= DimensionValues(length, count, style)[i] <= length
  {
    if count > 0 {
      var size := length / (count as real);
      var a := SegmentAdjustment(style, size);
      var r := DimensionValues(length, count, style);
      forall i | 0 < i < count
        ensures r[i] == r[i - 1] + size
      {
        DimensionStep(size, i, a);
      }
      if length >= 0.0 {
        forall i | 0 <= i < count
          ensures 0.0 <= r[i] <= length
        {
          DimensionOnSide(length, count, i, style);
        }
      }
    }
  }

  /** The next anchor is one cell further on. */
  lemma DimensionStep(size: real, i: nat, adjust: real)
    requires i > 0
    ensures DimensionTerm(size, i, adjust) == DimensionTerm(size, i - 1, adjust) + size
  {
    assert size * (i as real) == size * ((i - 1) as real) + size;
  }

  /** The anchor of cell `i` lies on a side of non-negative length. */
  lemma DimensionOnSide(length: real, count: nat, i: nat, style: SegmentStyle)
    requires length >= 0.0 && i < count
    ensures var size := length / (count as real);
      0.0 <= DimensionTerm(size, i, SegmentAdjustment(style, size)) <= length
  {
    var size := length / (count as real);
    var p := CellOnSide(length, count, i);
    var a := SegmentAdjustment(style, size);
    assert 0.0 <= a <= size;
    assert DimensionTerm(size, i, a) == p + a;
  }

  /** Cell `i` of `count` equal cells over `length` starts at `p` and ends within the side. */
  lemma CellOnSide(length: real, count: nat, i: nat) returns (p: real)
    requires length >= 0.0 && i < count
    ensures p == (length / (count as real)) * (i as real)
    ensures 0.0 <= length / (count as real)
    ensures 0.0 <= p && p + length / (count as real) <= length
  {
    var size := length / (count as real);
    QuotientNonNegative(length, count as real);
    p := size * (i as real);
    ProductMono(i as real, (count - 1) as real, size);
    assert size * ((count - 1) as real) + size == size * (count as real) == length;
  }

  class RenderContext<TConfig, TBlendMode> {
    const pageCanvas: Sizes.CanvasSize
    const canvas: Sizes.CanvasSize
    const seed: string
    const blendMode: TBlendMode
    const config: TConfig
    const random: RandomContextModel.RandomContext

    /** `stream` is what the seeded generator produces for `seed`. */
    constructor(pageCanvas: Sizes.CanvasSize, canvas: Sizes.CanvasSize, seed: string, blendMode: TBlendMode,
                config: TConfig, stream: nat -> real)
      ensures this.pageCanvas == pageCanvas && this.canvas == canvas && this.seed == seed
      ensures this.blendMode == blendMode && this.config == config
      ensures fresh(random) && random.stream == stream && random.size == canvas && random.drawn == 0
    {
      this.pageCanvas := pageCanvas;
      this.canvas := canvas;
      this.seed := seed;
      this.blendMode := blendMode;
      this.config := config;
      this.random := new RandomContextModel.RandomContext(stream, canvas);
    }

    function Width(): real {
      canvas.pixels.0 as real
    }

    function Height(): real {
      canvas.pixels.1 as real
    }

    /** `range(start, end, step)`. */
    method Range(start: real, end: real, step: real) returns (res: seq<real>)
      requires step > 0.0
      ensures res == RangeValues(start, end, step)
    {
      var current := start;
      res := [];
      ghost var k: nat := 0;
      while current <= end
        invariant k <= RangeCount(start, end, step)
        invariant current == RangeTerm(start, step, k)
        invariant res == RangeValues(start, end, step)[..k]
        decreases RangeCount(start, end, step) - k
      {
        RangeCountSpec(start, end, step, k);
        assert RangeValues(start, end, step)[..k + 1] == RangeValues(start, end, step)[..k] + [current];
        res := res + [current];
        assert RangeTerm(start, step, k + 1) == current + step;
        current := current + step;
        k := k + 1;
      }
      RangeCountSpec(start, end, step, k);
    }

    /** `clamp([x, y], padding)`: each coordinate clamped against its own side. */
    function ClampPoint(p: Point, padding: real): (r: Point)
      ensures r.x >= padding && r.y >= padding
      ensures padding <= Width() - padding ==> r.x <= Width() - padding
      ensures padding <= Height() - padding ==> r.y <= Height() - padding
      ensures padding <= p.x <= Width() - padding && padding <= p.y <= Height() - padding ==> r == p
    {
      Point(ClampHorizontal(p.x, padding), ClampVertical(p.y, padding))
    }

    /** `clampHorizontal(x, padding)`. */
    function ClampHorizontal(x: real, padding: real): (r: real)
      ensures r >= padding && (padding <= Width() - padding ==> r <= Width() - padding)
      ensures padding <= x <= Width() - padding ==> r == x
    {
      Clamp(x, padding, Width())
    }

    /** `clampVertical(y, padding)`. */
    function ClampVertical(y: real, padding: real): (r: real)
      ensures r >= padding && (padding <= Height() - padding ==> r <= Height() - padding)
      ensures padding <= y <= Height() - padding ==> r == y
    {
      Clamp(y, padding, Height())
    }

    /** `segment(horizontal, vertical, style)`: the nested loops pushing one anchor per cell. */
    method Segment(horizontal: nat, vertical: nat, style: SegmentStyle) returns (res: seq<Point>)
      ensures res == SegmentPoints(Width(), Height(), horizontal, vertical, style)
    {
      res := SegmentGrid(Width(), Height(), horizontal, vertical, style);
    }

    /** `segmentAspectRatio(count, style)`: the cell counts follow the canvas's aspect ratio. */
    method SegmentAspectRatio(count: nat, style: SegmentStyle) returns (res: seq<Point>)
      requires canvas.pixels.0 >= 0 && canvas.pixels.1 >= 0
      ensures var counts := Aggregation.GridCounts(count, canvas.pixels.0, canvas.pixels.1);
        res == SegmentPoints(Width(), Height(), counts.0, counts.1, style)
    {
      var counts := Aggregation.GridCounts(count, canvas.pixels.0, canvas.pixels.1);
      res := Segment(counts.0, counts.1, style);
    }

    /** `segmentDimension(count, orientation, style)`. */
    method SegmentDimension(count: nat, orientation: Orientation, style: SegmentStyle) returns (res: seq<real>)
      ensures res == DimensionValues(if orientation.Horizontal? then Width() else Height(), count, style)
    {
      var dimensionLength := if orientation.Horizontal? then Width() else Height();
      res := DimensionWalk(dimensionLength, count, style);
    }
  }

  /** The loops of `segment`, over a canvas of `width` by `height` pixels. */
  method SegmentGrid(width: real, height: real, horizontal: nat, vertical: nat, style: SegmentStyle) returns (res: seq<Point>)
    ensures res == SegmentPoints(width, height, horizontal, vertical, style)
  {
    res := [];
    if horizontal == 0 {
      return;
    }
    var hSize := width / (horizontal as real);
    var vSize := height / (horizontal as real);
    var hAdjust := SegmentAdjustment(style, hSize);
    var yAdjust := SegmentAdjustment(style, vSize);
    var x := 0;
    ghost var n := 0;
    while x < horizontal
      invariant 0 <= x <= horizontal
      invariant n == Aggregation.Offset(x, vertical)
      invariant vertical == 0 ==> res == []
      invariant vertical > 0 ==> res == GridPrefix(hSize, vSize, hAdjust, yAdjust, vertical, n)
    {
      var y := 0;
      while y < vertical
        invariant 0 <= y <= vertical
        invariant n == Aggregation.Offset(x, vertical) + y
        invariant vertical == 0 ==> res == []
        invariant vertical > 0 ==> res == GridPrefix(hSize, vSize, hAdjust, yAdjust, vertical, n)
      {
        res := GridTurn(res, hSize, vSize, hAdjust, yAdjust, vertical, x, y, n);
        n := n + 1;
        y := y + 1;
      }
      x := x + 1;
    }
    Aggregation.OffsetIsProduct(horizontal, vertical);
  }

  /** The body of the inner `y` loop: the anchor of cell (x, y), the walk's cell `n`, is pushed. */
  method GridTurn(res: seq<Point>, hSize: real, vSize: real, hAdjust: real, yAdjust: real, vertical: nat,
                  x: nat, y: nat, ghost n: nat) returns (next: seq<Point>)
    requires y < vertical && n == Aggregation.Offset(x, vertical) + y
    requires res == GridPrefix(hSize, vSize, hAdjust, yAdjust, vertical, n)
    ensures next == GridPrefix(hSize, vSize, hAdjust, yAdjust, vertical, n + 1)
  {
    Aggregation.OffsetIsProduct(x, vertical);
    GridStep(hSize, vSize, hAdjust, yAdjust, vertical, x, y);
    assert Point((x as real) * hSize + hAdjust, (y as real) * vSize + yAdjust) == GridPoint(x, y, hSize, vSize, hAdjust, yAdjust);
    next := res + [Point((x as real) * hSize + hAdjust, (y as real) * vSize + yAdjust)];
  }

  /** The loop of `segmentDimension` along a side of `length` pixels. */
  method DimensionWalk(length: real, count: nat, style: SegmentStyle) returns (res: seq<real>)
    ensures res == DimensionValues(length, count, style)
  {
    res := [];
    if count == 0 {
      return;
    }
    var segmentSize := length / (count as real);
    var adjust := SegmentAdjustment(style, segmentSize);
    var i := 0;
    while i < count
      invariant 0 <= i <= count
      invariant res == DimensionValues(length, count, style)[..i]
    {
      var anchor := segmentSize * (i as real) + adjust;
      assert anchor == DimensionTerm(segmentSize, i, adjust);
      assert DimensionValues(length, count, style)[..i + 1] == res + [anchor];
      res := res + [anchor];
      i := i + 1;
    }
    assert DimensionValues(length, count, style)[..count] == DimensionValues(length, count, style);
  }
}
