/**
 * The older drawing context: `RandomDrawContext`, whose `between` has only the
 * plain `(min, max, rounding)` form, and a `RenderContext` that also numbers
 * the layers it appends. Ranges, grids and the rounding rule are the ones of
 * `RenderContextModel` and `RandomContextModel`.
 */
module DrawContextModel {
  import opened Geom
  import Sizes
  import Aggregation
  import opened RandomContextModel
  import opened RenderContextModel

  class RandomDrawContext {
    /** The samples `seedrandom(seed)` produces, in order. */
    const stream: nat -> real
    const size: Sizes.CanvasSize
    /** How many samples have been drawn. */
    var drawn: nat

    constructor(stream: nat -> real, size: Sizes.CanvasSize)
      ensures this.stream == stream && this.size == size && drawn == 0
    {
      this.stream := stream;
      this.size := size;
      drawn := 0;
    }

    /** `next(rounding)`. */
    method Next(rounding: Rounding) returns (v: real)
      modifies this
      ensures drawn == old(drawn) + 1
      ensures v == Round(stream(old(drawn)), rounding)
    {
      v := Round(stream(drawn), rounding);
      drawn := drawn + 1;
    }

    /** `between(min, max, rounding)`: one sample. */
    method Between(min: real, max: real, rounding: Rounding) returns (v: real)
      modifies this
      ensures drawn == old(drawn) + 1
      ensures v == BetweenValue(min, max, stream(old(drawn)), rounding)
    {
      var s := Next(NoRounding);
      v := BetweenValue(min, max, s, rounding);
    }

    /** `upto(max, rounding)`. */
    method Upto(max: real, rounding: Rounding) returns (v: real)
      modifies this
      ensures drawn == old(drawn) + 1
      ensures v == BetweenValue(0.0, max, stream(old(drawn)), rounding)
    {
      v := Between(0.0, max, rounding);
    }

    /** `pointBetween`: x from the first sample, y from the second. */
    method PointBetween(min: Point, max: Point, rounding: Rounding) returns (p: Point)
      modifies this
      ensures drawn == old(drawn) + 2
      ensures p == Point(BetweenValue(min.x, max.x, stream(old(drawn)), rounding),
                         BetweenValue(min.y, max.y, stream(old(drawn) + 1), rounding))
    {
      var x := Between(min.x, max.x, rounding);
      var y := Between(min.y, max.y, rounding);
      p := Point(x, y);
    }

    /** `pointUpto`: x then y, each from 0. */
    method PointUpto(maxWidth: real, maxHeight: real, rounding: Rounding) returns (p: Point)
      modifies this
      ensures drawn == old(drawn) + 2
      ensures p == Point(BetweenValue(0.0, maxWidth, stream(old(drawn)), rounding),
                         BetweenValue(0.0, maxHeight, stream(old(drawn) + 1), rounding))
    {
      var x := Upto(maxWidth, rounding);
      var y := Upto(maxHeight, rounding);
      p := Point(x, y);
    }
  }

  /** The attributes `appendLayer` gives its group: the id, and the label `{idx}-{name}`. */
  datatype LayerInfo = LayerInfo(id: string, index: nat, name: string)

  class RenderContext {
    const pageCanvas: Sizes.CanvasSize
    const canvas: Sizes.CanvasSize
    const seed: string
    const random: RandomDrawContext
    /** The index the next appended layer gets. */
    var layerId: nat

    /** `stream` is what the seeded generator produces for `seed`. */
    constructor(pageCanvas: Sizes.CanvasSize, canvas: Sizes.CanvasSize, seed: string, stream: nat -> real)
      ensures this.pageCanvas == pageCanvas && this.canvas == canvas && this.seed == seed && layerId == 0
      ensures fresh(random) && random.stream == stream && random.size == canvas && random.drawn == 0
    {
      this.pageCanvas := pageCanvas;
      this.canvas := canvas;
      this.seed := seed;
      this.random := new RandomDrawContext(stream, canvas);
      layerId := 0;
    }

    function Width(): real {
      canvas.pixels.0 as real
    }

    function Height(): real {
      canvas.pixels.1 as real
    }

    /** `range(start, end, step)`. */
    method Range(start: real, end: real, step: real) returns (res: seq<real>)
      requires step > 0.0
      ensures res == RangeValues(start, end, step)
    {
      var current := start;
      res := [];
      ghost var k: nat := 0;
      while current <= end
        invariant k <= RangeCount(start, end, step)
        invariant current == RangeTerm(start, step, k)
        invariant res == RangeValues(start, end, step)[..k]
        decreases RangeCount(start, end, step) - k
      {
        RangeCountSpec(start, end, step, k);
        assert RangeValues(start, end, step)[..k + 1] == RangeValues(start, end, step)[..k] + [current];
        res := res + [current];
        assert RangeTerm(start, step, k + 1) == current + step;
        current := current + step;
        k := k + 1;
      }
      RangeCountSpec(start, end, step, k);
    }

    /** The numbering part of `appendLayer(target, name, id)`: each layer takes the next index. */
    method AppendLayer(name: string, id: string) returns (info: LayerInfo)
      modifies this
      ensures info == LayerInfo(id, old(layerId), name)
      ensures layerId == old(layerId) + 1
    {
      var idx := layerId;
      layerId := layerId + 1;
      info := LayerInfo(id, idx, name);
    }

    /** `segment(horizontal, vertical, style)`. */
    method Segment(horizontal: nat, vertical: nat, style: SegmentStyle) returns (res: seq<Point>)
      ensures res == SegmentPoints(Width(), Height(), horizontal, vertical, style)
    {
      res := SegmentGrid(Width(), Height(), horizontal, vertical, style);
    }

    /** `segmentAspectRatio(count, style)`. */
    method SegmentAspectRatio(count: nat, style: SegmentStyle) returns (res: seq<Point>)
      requires canvas.pixels.0 >= 0 && canvas.pixels.1 >= 0
      ensures var counts := Aggregation.GridCounts(count, canvas.pixels.0, canvas.pixels.1);
        res == SegmentPoints(Width(), Height(), counts.0, counts.1, style)
    {
      var counts := Aggregation.GridCounts(count, canvas.pixels.0, canvas.pixels.1);
      res := Segment(counts.0, counts.1, style);
    }

    /** `segmentDimension(count, orientation, style)`. */
    method SegmentDimension(count: nat, orientation: Orientation, style: SegmentStyle) returns (res: seq<real>)
      ensures res == DimensionValues(if orientation.Horizontal? then Width() else Height(), count, style)
    {
      var dimensionLength := if orientation.Horizontal? then Width() else Height();
      res := DimensionWalk(dimensionLength, count, style);
    }
  }
}
