/**
 * `CanvasContext` of src/lib/processing/CanvasContext.ts: an image canvas with a
 * lazily built cache of its pixels (one 32-bit word each) from which windows,
 * chunks and chunk-grid statistics are read.
 */
module CanvasCtx {
  import opened Wrappers
  import opened Aggregation
  import Js

  /** The `ImageDataCanvas` collaborator: its size and the pixel words of `getImageData()`. */
  datatype Canvas = Canvas(width: nat, height: nat, pixels: seq<bv32>)

  /** The cache entry built from a canvas: `new Uint32Array(iData.buffer)` with the canvas size. */
  function Snapshot(c: Canvas): ImageCache {
    ImageCache(c.width, c.height, c.pixels)
  }

  class CanvasContext {
    var canvas: Option<Canvas>
    var imageDataCache: Option<ImageCache>
    /** How many times the cache has been built. */
    ghost var fills: nat

    /**
     * The cache, once built, is the snapshot of the live canvas, and it is built
     * at most once: while the canvas lives without a cache, none was built yet.
     */
    ghost predicate Valid()
      reads this
    {
      fills <= 1
      && (imageDataCache.Some? ==> fills == 1 && canvas.Some? && imageDataCache.value == Snapshot(canvas.value))
      && (imageDataCache.None? && canvas.Some? ==> fills == 0)
    }

    constructor(c: Canvas)
      ensures Valid()
      ensures canvas == Some(c) && imageDataCache.None? && fills == 0
    {
      canvas := Some(c);
      imageDataCache := None;
      fills := 0;
    }

    /** `destroy()`: drops the cache and the canvas. */
    method Destroy()
      requires Valid()
      modifies this
      ensures Valid()
      ensures canvas.None? && imageDataCache.None? && fills == old(fills)
    {
      imageDataCache := None;
      canvas := None;
    }

    /**
     * `getImageData(x, y, w, h)`: builds the cache on the first call only, then
     * copies the `w × h` window at `(x, y)` row-major, 0 outside the image.
     */
    method GetImageData(x: int, y: int, w: nat, h: nat) returns (arr: array<bv32>)
      requires Valid() && canvas.Some?
      modifies this
      ensures Valid() && canvas == old(canvas)
      ensures imageDataCache == Some(Snapshot(canvas.value))
      ensures old(imageDataCache).Some? ==> imageDataCache == old(imageDataCache) && fills == old(fills)
      ensures old(imageDataCache).None? ==> fills == old(fills) + 1
      ensures fresh(arr)
      ensures arr[..] == Window(Snapshot(canvas.value), x, y, w, h)
    {
      if imageDataCache.None? {
        imageDataCache := Some(Snapshot(canvas.value));
        fills := fills + 1;
      }
      arr := FillWindow(imageDataCache.value, x, y, w, h);
    }

    /** `getChunkFlat(x, y, w, h)`: one 4-byte view per pixel of the window, in order. */
    method GetChunkFlat(x: int, y: int, w: nat, h: nat) returns (chunk: seq<PixelView>)
      requires Valid() && canvas.Some?
      modifies this
      ensures Valid() && canvas == old(canvas)
      ensures imageDataCache == Some(Snapshot(canvas.value))
      ensures old(imageDataCache).Some? ==> fills == old(fills)
      ensures |chunk| == w * h
      ensures forall i :: 0 <= i < |chunk| ==>
        chunk[i] == PixelView(Window(Snapshot(canvas.value), x, y, w, h), i) && ValidView(chunk[i])
    {
      var dv := GetImageData(x, y, w, h);
      chunk := ViewsOf(dv[..]);
    }

    /**
     * `aggregateChunk(x, y, w, h, agg, val, cacheContext)`: the window's pixels
     * mapped through the memoised accessor and reduced with `agg`. Without a
     * cache a fresh one is used. The memo key is the first word of the whole
     * chunk buffer (`AsWrittenKey`), so every pixel counts as the first one.
     */
    method AggregateChunk(x: int, y: int, w: nat, h: nat, op: AggregateOperation, val: AggregateValue,
                          luminance: Rgba -> real, cacheContext: ValueCache?) returns (r: Js.Num)
      requires Valid() && canvas.Some?
      requires cacheContext != null ==> cacheContext.Consistent(ValueAccessor(val, luminance))
      modifies this, cacheContext
      ensures Valid() && canvas == old(canvas)
      ensures imageDataCache == Some(Snapshot(canvas.value))
      ensures old(imageDataCache).Some? ==> fills == old(fills)
      ensures cacheContext != null ==> cacheContext.Consistent(ValueAccessor(val, luminance))
      ensures r == CellValueAsWritten(Snapshot(canvas.value), op, ValueAccessor(val, luminance), Cell(x, y, w, h))
    {
      var func := ValueAccessor(val, luminance);
      var dv := GetImageData(x, y, w, h);
      var chunk := ViewsOf(dv[..]);
      var cache := cacheContext;
      if cache == null {
        cache := new ValueCache();
      }
      var mapped := MapViewsAsWritten(dv[..], chunk, func, cache);
      assert mapped == FirstPixelStats(dv[..], func);
      r := Aggregate(op, mapped);
    }

    /** `aggregateChunk` with the memo keyed by each pixel's own word: the intended per-pixel statistic. */
    method AggregateChunkOwnKey(x: int, y: int, w: nat, h: nat, op: AggregateOperation, val: AggregateValue,
                                luminance: Rgba -> real, cacheContext: ValueCache?) returns (r: Js.Num)
      requires Valid() && canvas.Some?
      requires cacheContext != null ==> cacheContext.Consistent(ValueAccessor(val, luminance))
      modifies this, cacheContext
      ensures Valid() && canvas == old(canvas)
      ensures imageDataCache == Some(Snapshot(canvas.value))
      ensures old(imageDataCache).Some? ==> fills == old(fills)
      ensures cacheContext != null ==> cacheContext.Consistent(ValueAccessor(val, luminance))
      ensures r == CellValue(Snapshot(canvas.value), op, ValueAccessor(val, luminance), Cell(x, y, w, h))
    {
      var func := ValueAccessor(val, luminance);
      var chunk := GetChunkFlat(x, y, w, h);
      var cache := cacheContext;
      if cache == null {
        cache := new ValueCache();
      }
      var mapped := MapViews(chunk, func, cache);
      assert mapped == Stats(Window(Snapshot(canvas.value), x, y, w, h), func);
      r := Aggregate(op, mapped);
    }

    /**
     * `aggregateChunksFlat(horizontal, vertical, agg, val)`: the image is cut into
     * cells of `floor(width / horizontal) × floor(height / vertical)` pixels,
     * x outer and y inner, and every cell is aggregated through one shared memo.
     */
    method AggregateChunksFlat(horizontal: nat, vertical: nat, op: AggregateOperation, val: AggregateValue,
                               luminance: Rgba -> real) returns (res: seq<Js.Num>)
      requires Valid() && canvas.Some?
      modifies this
      ensures Valid() && canvas == old(canvas)
      ensures horizontal * vertical > 0 ==> imageDataCache == Some(Snapshot(canvas.value))
      ensures old(imageDataCache).Some? ==> fills == old(fills)
      ensures |res| == horizontal * vertical
      ensures forall i :: 0 <= i < |res| ==>
        res[i] == CellValueAsWritten(Snapshot(canvas.value), op, ValueAccessor(val, luminance),
          Cells(horizontal, vertical, SegmentSize(canvas.value.width, horizontal),
                SegmentSize(canvas.value.height, vertical))[i])
    {
      // With no columns (or rows) the segment size is never used.
      var hs := SegmentSize(canvas.value.width, horizontal);
      var vs := SegmentSize(canvas.value.height, vertical);
      var cells := CollectCells(horizontal, vertical, hs, vs);
      var cache := new ValueCache();
      res := AggregateCells(cells, op, val, luminance, cache);
    }

    /** The `.map` callback: one cell aggregated through the shared memo. */
    method AggregateCell(c: Cell, op: AggregateOperation, val: AggregateValue,
                         luminance: Rgba -> real, cache: ValueCache) returns (v: Js.Num)
      requires Valid() && canvas.Some?
      requires cache.Consistent(ValueAccessor(val, luminance))
      modifies this, cache
      ensures Valid() && canvas == old(canvas)
      ensures imageDataCache == Some(Snapshot(canvas.value))
      ensures old(imageDataCache).Some? ==> fills == old(fills)
      ensures cache.Consistent(ValueAccessor(val, luminance))
      ensures v == CellValueAsWritten(Snapshot(canvas.value), op, ValueAccessor(val, luminance), c)
    {
      v := AggregateChunk(c.x, c.y, c.w, c.h, op, val, luminance, cache);
    }

    /** `res.map(chunk => this.aggregateChunk(...chunk, agg, val, cacheContext))`: one value per cell, in order. */
    method AggregateCells(cells: seq<Cell>, op: AggregateOperation, val: AggregateValue,
                          luminance: Rgba -> real, cache: ValueCache) returns (res: seq<Js.Num>)
      requires Valid() && canvas.Some?
      requires cache.Consistent(ValueAccessor(val, luminance))
      modifies this, cache
      ensures Valid() && canvas == old(canvas)
      ensures |cells| > 0 ==> imageDataCache == Some(Snapshot(canvas.value))
      ensures old(imageDataCache).Some? ==> fills == old(fills)
      ensures |res| == |cells|
      ensures forall j :: 0 <= j < |res| ==>
        res[j] == CellValueAsWritten(Snapshot(canvas.value), op, ValueAccessor(val, luminance), cells[j])
    {
      res := [];
      var i := 0;
      while i < |cells|
        invariant 0 <= i <= |cells|
        invariant Valid() && canvas == old(canvas)
        invariant i > 0 ==> imageDataCache == Some(Snapshot(canvas.value))
        invariant old(imageDataCache).Some? ==> fills == old(fills)
        invariant cache.Consistent(ValueAccessor(val, luminance))
        invariant |res| == i
        invariant forall j :: 0 <= j < i ==>
          res[j] == CellValueAsWritten(Snapshot(canvas.value), op, ValueAccessor(val, luminance), cells[j])
      {
        res := AggregateNext(cells, res, op, val, luminance, cache);
        i := i + 1;
      }
    }

    /** One turn of the `.map`: the next cell's value appended to the values so far. */
    method AggregateNext(cells: seq<Cell>, res: seq<Js.Num>, op: AggregateOperation, val: AggregateValue,
                         luminance: Rgba -> real, cache: ValueCache) returns (next: seq<Js.Num>)
      requires Valid() && canvas.Some?
      requires cache.Consistent(ValueAccessor(val, luminance))
      requires |res| < |cells|
      requires forall j :: 0 <= j < |res| ==>
        res[j] == CellValueAsWritten(Snapshot(canvas.value), op, ValueAccessor(val, luminance), cells[j])
      modifies this, cache
      ensures Valid() && canvas == old(canvas)
      ensures imageDataCache == Some(Snapshot(canvas.value))
      ensures old(imageDataCache).Some? ==> fills == old(fills)
      ensures cache.Consistent(ValueAccessor(val, luminance))
      ensures |next| == |res| + 1
      ensures forall j :: 0 <= j < |next| ==>
        next[j] == CellValueAsWritten(Snapshot(canvas.value), op, ValueAccessor(val, luminance), cells[j])
    {
      var v := AggregateCell(cells[|res|], op, val, luminance, cache);
      AppendCellValue(Snapshot(canvas.value), op, ValueAccessor(val, luminance), cells, res, v);
      next := res + [v];
    }

    /**
     * `aggregateChunksAspectRatioFlat(count, agg, val)`: `count` cells along the
     * longer side, `floor(count * shorter / longer)` along the other.
     */
    method AggregateChunksAspectRatioFlat(count: nat, op: AggregateOperation, val: AggregateValue,
                                          luminance: Rgba -> real) returns (res: seq<Js.Num>)
      requires Valid() && canvas.Some?
      modifies this
      ensures Valid() && canvas == old(canvas)
      ensures old(imageDataCache).Some? ==> fills == old(fills)
      ensures var counts := GridCounts(count, canvas.value.width, canvas.value.height);
        |res| == counts.0 * counts.1
        && forall i :: 0 <= i < |res| ==>
          res[i] == CellValueAsWritten(Snapshot(canvas.value), op, ValueAccessor(val, luminance),
            Cells(counts.0, counts.1, SegmentSize(canvas.value.width, counts.0),
                  SegmentSize(canvas.value.height, counts.1))[i])
    {
      var counts := GridCounts(count, canvas.value.width, canvas.value.height);
      res := AggregateChunksFlat(counts.0, counts.1, op, val, luminance);
    }

  }
}
