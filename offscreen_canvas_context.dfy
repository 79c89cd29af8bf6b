/**
 * `OffscreenCanvasContext` of src/processing/OffscreenCanvasContext.ts: the
 * same chunk statistics as `CanvasContext`, read from an offscreen canvas whose
 * 2D context supplies the pixels, plus the `chunkArray` helper.
 */
module OffscreenCanvasCtx {
  import opened Wrappers
  import opened Aggregation
  import Js

  // ---- chunkArray ----

  /** The chunks laid end to end. */
  function Concat<T>(chunks: seq<seq<T>>): seq<T> {
    if |chunks| == 0 then [] else Concat(chunks[..|chunks| - 1]) + chunks[|chunks| - 1]
  }

  /** A chunk list as `chunkArray` leaves it for width `w >= 1`: full chunks, then a last one of at most `w`. */
  predicate WellChunked<T>(chunks: seq<seq<T>>, w: nat) {
    |chunks| >= 1
    && (forall j :: 0 <= j < |chunks| - 1 ==> |chunks[j]| == w)
    && |chunks[|chunks| - 1]| <= w
  }

  /**
   * `chunkArray(arr, w)`: starts from one empty chunk and appends every element
   * to the current chunk, opening a new one when the current one holds `w`.
   * Nothing is lost or reordered; for `w >= 1` every chunk but the last is full
   * and the last is non-empty unless the input is; for `w == 0` the first chunk
   * stays empty and the second takes everything.
   */
  method ChunkArray<T>(arr: seq<T>, w: nat) returns (result: seq<seq<T>>)
    ensures |result| >= 1 && Concat(result) == arr
    ensures w >= 1 ==> WellChunked(result, w) && (|arr| > 0 ==> |result[|result| - 1]| >= 1)
    ensures w == 0 ==> result == if |arr| == 0 then [[]] else [[], arr]
  {
    result := [[]];
    var i := 0;
    while i < |arr|
      invariant 0 <= i <= |arr|
      invariant |result| >= 1 && Concat(result) == arr[..i]
      invariant w >= 1 ==> WellChunked(result, w) && (i > 0 ==> |result[|result| - 1]| >= 1)
      invariant w == 0 ==> result == if i == 0 then [[]] else [[], arr[..i]]
    {
      result := Push(result, w, arr[i]);
      assert arr[..i + 1] == arr[..i] + [arr[i]];
      assert i == 0 ==> arr[..i + 1] == [arr[i]];
      i := i + 1;
    }
    assert arr[..i] == arr;
  }

  /**
   * One turn of the loop: when the current chunk holds `w`, a new empty chunk is
   * opened and takes `x`; otherwise `x` joins the current chunk.
   */
  method Push<T>(result: seq<seq<T>>, w: nat, x: T) returns (next: seq<seq<T>>)
    requires |result| >= 1
    ensures |next| >= 1 && Concat(next) == Concat(result) + [x]
    ensures w >= 1 && WellChunked(result, w) ==> WellChunked(next, w) && |next[|next| - 1]| >= 1
    ensures w == 0 && result == [[]] ==> next == [[], [x]]
    ensures w == 0 && |result| == 2 && result[0] == [] && |result[1]| >= 1 ==> next == [[], result[1] + [x]]
  {
    var n := |result|;
    if |result[n - 1]| == w {
      next := result + [[x]];
      ConcatLast(result, [x]);
      if w >= 1 && WellChunked(result, w) {
        OpenChunk(result, w, x);
      }
      if w == 0 && result == [[]] {
        assert next == [[], [x]];
      }
    } else {
      var prefix, current := result[..n - 1], result[n - 1];
      assert result == prefix + [current];
      next := prefix + [current + [x]];
      ConcatLast(prefix, current);
      ConcatLast(prefix, current + [x]);
      if w >= 1 && WellChunked(result, w) {
        GrowChunk(prefix, current, w, x);
      }
      if w == 0 && |result| == 2 && result[0] == [] {
        assert prefix == [[]];
        assert next == [[], current + [x]];
      }
    }
  }

  /** A new chunk opened after a full one keeps the list well chunked. */
  lemma OpenChunk<T>(result: seq<seq<T>>, w: nat, x: T)
    requires w >= 1 && WellChunked(result, w) && |result[|result| - 1]| == w
    ensures WellChunked(result + [[x]], w)
  {
  }

  /** A chunk with room left that takes one more element keeps the list well chunked. */
  lemma GrowChunk<T>(prefix: seq<seq<T>>, current: seq<T>, w: nat, x: T)
    requires w >= 1 && WellChunked(prefix + [current], w) && |current| < w
    ensures WellChunked(prefix + [current + [x]], w)
  {
    assert forall j :: 0 <= j < |prefix| ==> (prefix + [current])[j] == prefix[j];
  }

  /** Laying out a list with one more chunk appends that chunk. */
  lemma ConcatLast<T>(prefix: seq<seq<T>>, c: seq<T>)
    ensures Concat(prefix + [c]) == Concat(prefix) + c
  {
    assert (prefix + [c])[..|prefix|] == prefix;
  }

  /** Laying chunks end to end adds their lengths. */
  lemma {:induction false} ConcatLength<T>(chunks: seq<seq<T>>, w: nat)
    requires forall j :: 0 <= j < |chunks| ==> |chunks[j]| == w
    ensures |Concat(chunks)| == |chunks| * w
    decreases |chunks|
  {
    if |chunks| > 0 {
      ConcatLength(chunks[..|chunks| - 1], w);
    }
  }

  /** A well-chunked list of a non-empty input has `ceil(|arr| / w)` chunks. */
  lemma ChunkCount<T>(arr: seq<T>, w: nat, chunks: seq<seq<T>>)
    requires w >= 1 && |arr| > 0
    requires WellChunked(chunks, w) && |chunks[|chunks| - 1]| >= 1 && Concat(chunks) == arr
    ensures |chunks| == (|arr| + w - 1) / w
  {
    var n := |chunks|;
    var last := |chunks[n - 1]|;
    ConcatLength(chunks[..n - 1], w);
    assert |arr| == (n - 1) * w + last;
    assert |arr| + w - 1 == n * w + (last - 1);
    DivModUnique(|arr| + w - 1, w, n, last - 1);
  }

  // ---- the context ----

  /** The offscreen canvas as its 2D context reports it from `getImageData(0, 0, width, height)`. */
  datatype Surface = Surface(width: nat, height: nat, pixels: seq<bv32>)

  function Snapshot(s: Surface): ImageCache {
    ImageCache(s.width, s.height, s.pixels)
  }

  class OffscreenCanvasContext {
    const surface: Surface
    var imageDataCache: Option<ImageCache>
    /** How many times the cache has been built. */
    ghost var fills: nat

    /** The cache is built at most once, and then it is the surface's snapshot. */
    ghost predicate Valid()
      reads this
    {
      (imageDataCache.None? ==> fills == 0)
      && (imageDataCache.Some? ==> fills == 1 && imageDataCache.value == Snapshot(surface))
    }

    constructor(s: Surface)
      ensures Valid()
      ensures surface == s && imageDataCache.None?
    {
      surface := s;
      imageDataCache := None;
      fills := 0;
    }

    /** `getImageData(x, y, w, h)`: lazily builds the cache, then copies the window. */
    method GetImageData(x: int, y: int, w: nat, h: nat) returns (arr: array<bv32>)
      requires Valid()
      modifies this
      ensures Valid() && imageDataCache == Some(Snapshot(surface))
      ensures old(imageDataCache).Some? ==> fills == old(fills)
      ensures fresh(arr)
      ensures arr[..] == Window(Snapshot(surface), x, y, w, h)
    {
      if imageDataCache.None? {
        imageDataCache := Some(Snapshot(surface));
        fills := fills + 1;
      }
      arr := FillWindow(imageDataCache.value, x, y, w, h);
    }

    /** `getChunkFlat(x, y, w, h)`: one 4-byte view per window pixel, in order. */
    method GetChunkFlat(x: int, y: int, w: nat, h: nat) returns (chunk: seq<PixelView>)
      requires Valid()
      modifies this
      ensures Valid() && imageDataCache == Some(Snapshot(surface))
      ensures old(imageDataCache).Some? ==> fills == old(fills)
      ensures |chunk| == w * h
      ensures forall i :: 0 <= i < |chunk| ==>
        chunk[i] == PixelView(Window(Snapshot(surface), x, y, w, h), i) && ValidView(chunk[i])
    {
      var dv := GetImageData(x, y, w, h);
      chunk := ViewsOf(dv[..]);
    }

    /**
     * `aggregateChunk(...)`: the window's pixels mapped through the memoised
     * accessor and reduced with `op`. The memo key is the first word of the
     * whole chunk buffer (`AsWrittenKey`), so every pixel counts as the first one.
     */
    method AggregateChunk(x: int, y: int, w: nat, h: nat, op: AggregateOperation, val: AggregateValue,
                          luminance: Rgba -> real, cacheContext: ValueCache?) returns (r: Js.Num)
      requires Valid()
      requires cacheContext != null ==> cacheContext.Consistent(ValueAccessor(val, luminance))
      modifies this, cacheContext
      ensures Valid() && imageDataCache == Some(Snapshot(surface))
      ensures old(imageDataCache).Some? ==> fills == old(fills)
      ensures cacheContext != null ==> cacheContext.Consistent(ValueAccessor(val, luminance))
      ensures r == CellValueAsWritten(Snapshot(surface), op, ValueAccessor(val, luminance), Cell(x, y, w, h))
    {
      var func := ValueAccessor(val, luminance);
      var dv := GetImageData(x, y, w, h);
      var chunk := ViewsOf(dv[..]);
      var cache := cacheContext;
      if cache == null {
        cache := new ValueCache();
      }
      var mapped := MapViewsAsWritten(dv[..], chunk, func, cache);
      assert mapped == FirstPixelStats(dv[..], func);
      r := Aggregate(op, mapped);
    }

    /** `aggregateChunk` with the memo keyed by each pixel's own word: the intended per-pixel statistic. */
    method AggregateChunkOwnKey(x: int, y: int, w: nat, h: nat, op: AggregateOperation, val: AggregateValue,
                                luminance: Rgba -> real, cacheContext: ValueCache?) returns (r: Js.Num)
      requires Valid()
      requires cacheContext != null ==> cacheContext.Consistent(ValueAccessor(val, luminance))
      modifies this, cacheContext
      ensures Valid() && imageDataCache == Some(Snapshot(surface))
      ensures old(imageDataCache).Some? ==> fills == old(fills)
      ensures cacheContext != null ==> cacheContext.Consistent(ValueAccessor(val, luminance))
      ensures r == CellValue(Snapshot(surface), op, ValueAccessor(val, luminance), Cell(x, y, w, h))
    {
      var func := ValueAccessor(val, luminance);
      var chunk := GetChunkFlat(x, y, w, h);
      var cache := cacheContext;
      if cache == null {
        cache := new ValueCache();
      }
      var mapped := MapViews(chunk, func, cache);
      assert mapped == Stats(Window(Snapshot(surface), x, y, w, h), func);
      r := Aggregate(op, mapped);
    }

    /** The `.map` callback: one cell aggregated through the shared memo. */
    method AggregateCell(c: Cell, op: AggregateOperation, val: AggregateValue,
                         luminance: Rgba -> real, cache: ValueCache) returns (v: Js.Num)
      requires Valid()
      requires cache.Consistent(ValueAccessor(val, luminance))
      modifies this, cache
      ensures Valid() && imageDataCache == Some(Snapshot(surface))
      ensures old(imageDataCache).Some? ==> fills == old(fills)
      ensures cache.Consistent(ValueAccessor(val, luminance))
      ensures v == CellValueAsWritten(Snapshot(surface), op, ValueAccessor(val, luminance), c)
    {
      v := AggregateChunk(c.x, c.y, c.w, c.h, op, val, luminance, cache);
    }

    /** `res.map(chunk => this.aggregateChunk(...chunk, agg, val, cacheContext))`: one value per cell, in order. */
    method AggregateCells(cells: seq<Cell>, op: AggregateOperation, val: AggregateValue,
                          luminance: Rgba -> real, cache: ValueCache) returns (res: seq<Js.Num>)
      requires Valid()
      requires cache.Consistent(ValueAccessor(val, luminance))
      modifies this, cache
      ensures Valid()
      ensures old(imageDataCache).Some? ==> fills == old(fills)
      ensures |res| == |cells|
      ensures forall j :: 0 <= j < |res| ==>
        res[j] == CellValueAsWritten(Snapshot(surface), op, ValueAccessor(val, luminance), cells[j])
    {
      res := [];
      var i := 0;
      while i < |cells|
        invariant 0 <= i <= |cells|
        invariant Valid()
        invariant old(imageDataCache).Some? ==> fills == old(fills)
        invariant cache.Consistent(ValueAccessor(val, luminance))
        invariant |res| == i
        invariant forall j :: 0 <= j < i ==>
          res[j] == CellValueAsWritten(Snapshot(surface), op, ValueAccessor(val, luminance), cells[j])
      {
        res := AggregateNext(cells, res, op, val, luminance, cache);
        i := i + 1;
      }
    }

    /** One turn of the `.map`: the next cell's value appended to the values so far. */
    method AggregateNext(cells: seq<Cell>, res: seq<Js.Num>, op: AggregateOperation, val: AggregateValue,
                         luminance: Rgba -> real, cache: ValueCache) returns (next: seq<Js.Num>)
      requires Valid()
      requires cache.Consistent(ValueAccessor(val, luminance))
      requires |res| < |cells|
      requires forall j :: 0 <= j < |res| ==>
        res[j] == CellValueAsWritten(Snapshot(surface), op, ValueAccessor(val, luminance), cells[j])
      modifies this, cache
      ensures Valid()
      ensures imageDataCache == Some(Snapshot(surface))
      ensures old(imageDataCache).Some? ==> fills == old(fills)
      ensures cache.Consistent(ValueAccessor(val, luminance))
      ensures |next| == |res| + 1
      ensures forall j :: 0 <= j < |next| ==>
        next[j] == CellValueAsWritten(Snapshot(surface), op, ValueAccessor(val, luminance), cells[j])
    {
      var v := AggregateCell(cells[|res|], op, val, luminance, cache);
      AppendCellValue(Snapshot(surface), op, ValueAccessor(val, luminance), cells, res, v);
      next := res + [v];
    }

    /** `aggregateChunksFlat(horizontal, vertical, ...)`: every grid cell, x outer, one shared memo. */
    method AggregateChunksFlat(horizontal: nat, vertical: nat, op: AggregateOperation, val: AggregateValue,
                               luminance: Rgba -> real) returns (res: seq<Js.Num>)
      requires Valid()
      modifies this
      ensures Valid()
      ensures old(imageDataCache).Some? ==> fills == old(fills)
      ensures |res| == horizontal * vertical
      ensures forall i :: 0 <= i < |res| ==>
        res[i] == CellValueAsWritten(Snapshot(surface), op, ValueAccessor(val, luminance),
          Cells(horizontal, vertical, SegmentSize(surface.width, horizontal), SegmentSize(surface.height, vertical))[i])
    {
      var hs := SegmentSize(surface.width, horizontal);
      var vs := SegmentSize(surface.height, vertical);
      var cells := CollectCells(horizontal, vertical, hs, vs);
      var cache := new ValueCache();
      res := AggregateCells(cells, op, val, luminance, cache);
    }

    /** `aggregateChunksAspectRatioFlat(count, ...)`: `count` cells along the longer side. */
    method AggregateChunksAspectRatioFlat(count: nat, op: AggregateOperation, val: AggregateValue,
                                          luminance: Rgba -> real) returns (res: seq<Js.Num>)
      requires Valid()
      modifies this
      ensures Valid()
      ensures old(imageDataCache).Some? ==> fills == old(fills)
      ensures var counts := GridCounts(count, surface.width, surface.height);
        |res| == counts.0 * counts.1
        && forall i :: 0 <= i < |res| ==>
          res[i] == CellValueAsWritten(Snapshot(surface), op, ValueAccessor(val, luminance),
            Cells(counts.0, counts.1, SegmentSize(surface.width, counts.0), SegmentSize(surface.height, counts.1))[i])
    {
      var counts := GridCounts(count, surface.width, surface.height);
      res := AggregateChunksFlat(counts.0, counts.1, op, val, luminance);
    }

  }
}
