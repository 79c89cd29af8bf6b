/**
 * The raster-aggregation logic shared by src/lib/processing/CanvasContext.ts and
 * src/processing/OffscreenCanvasContext.ts, whose `Aggregators`,
 * `ValueAccessors`, `getImageData` loops, `getChunkFlat` loop, grid loop and
 * `cachedValueAccessor` memo are identical.
 *
 * Pixels are 32-bit words holding the RGBA bytes little-endian (the layout a
 * `Uint32Array` over RGBA image data has on little-endian hosts).
 */
module Aggregation {
  import Js
  import ArrayStats
  import Color

  datatype Rgba = Rgba(r: bv8, g: bv8, b: bv8, a: bv8)

  /** The word a `Uint32Array` reads over the four bytes of a pixel. */
  function Pack(c: Rgba): bv32 {
    (c.r as bv32) | ((c.g as bv32) << 8) | ((c.b as bv32) << 16) | ((c.a as bv32) << 24)
  }

  /** The four bytes a `Uint8ClampedArray` view reads over one pixel word. */
  function Unpack(w: bv32): Rgba {
    Rgba((w & 0xFF) as bv8, ((w >> 8) & 0xFF) as bv8, ((w >> 16) & 0xFF) as bv8, ((w >> 24) & 0xFF) as bv8)
  }

  datatype AggregateOperation = Avg | Median | Min | Max
  datatype AggregateValue = Luminance | Hue | Saturation | Lightness

  /**
   * `ValueAccessors[val]`: hue, saturation and lightness come from `rgb2hsl`;
   * luminance is the `rgb2Luminance` supplied by the caller.
   */
  function ValueAccessor(val: AggregateValue, luminance: Rgba -> real): Rgba -> real {
    match val
    case Luminance => luminance
    case Hue => (c: Rgba) => Color.Rgb2Hsl(c.r as int, c.g as int, c.b as int).h
    case Saturation => (c: Rgba) => Color.Rgb2Hsl(c.r as int, c.g as int, c.b as int).s
    case Lightness => (c: Rgba) => Color.Rgb2Hsl(c.r as int, c.g as int, c.b as int).l
  }

  // ---- Aggregators ----

  /**
   * One step of the `avg` reducer: `sum + i || 0`, i.e. `(sum + i) || 0`. Two
   * finite operands give their finite sum (a zero sum is the 0 that `|| 0`
   * picks), so that case is written first.
   */
  function AvgStep(sum: Js.Num, i: Js.Num): Js.Num {
    if sum.Fin? && i.Fin? then Js.Fin(sum.v + i.v)
    else Js.Or(Js.Add(sum, i), Js.Fin(0.0))
  }

  /** The finite case of `AvgStep` is what `(sum + i) || 0` gives. */
  lemma AvgStepIsJsOr(sum: Js.Num, i: Js.Num)
    ensures AvgStep(sum, i) == Js.Or(Js.Add(sum, i), Js.Fin(0.0))
  {
  }

  /** `values.reduce((sum, i) => sum + i || 0, 0)`. */
  function AvgFold(values: seq<Js.Num>): Js.Num {
    if |values| == 0 then Js.Fin(0.0)
    else AvgStep(AvgFold(values[..|values| - 1]), values[|values| - 1])
  }

  /** `Aggregators.avg` on JavaScript numbers: the fold divided by the length. */
  function AvgOf(values: seq<Js.Num>): Js.Num {
    Js.Div(AvgFold(values), Js.Fin(|values| as real))
  }

  function Fins(values: seq<real>): (r: seq<Js.Num>)
    ensures |r| == |values|
    ensures forall i :: 0 <= i < |values| ==> r[i] == Js.Fin(values[i])
  {
    seq(|values|, i requires 0 <= i < |values| => Js.Fin(values[i]))
  }

  /**
   * `Aggregators[op](values)` for the finite statistics the accessors produce.
   * `median` returns `values[0]` for length ≤ 1 (undefined when empty) and
   * otherwise applies the parity rule of the code to the sorted values.
   */
  function Aggregate(op: AggregateOperation, values: seq<real>): (r: Js.Num)
    ensures |values| == 0 ==> r == (match op
      case Avg => Js.NaN
      case Min => Js.PosInf
      case Max => Js.NegInf
      case Median => Js.Undefined)
    ensures |values| > 0 ==> r.Fin?
  {
    match op
    case Avg =>
      if |values| == 0 then
        assert AvgFold(Fins(values)) == Js.Fin(0.0);
        AvgOf(Fins(values))
      else
        AvgFoldFinite(values);
        AvgOf(Fins(values))
    case Min => ArrayStats.JsMin(values)
    case Max => ArrayStats.JsMax(values)
    case Median =>
      if |values| == 0 then Js.Undefined
      else if |values| == 1 then Js.Fin(values[0])
      else Js.Fin(ArrayStats.MiddleOf(ArrayStats.Sort(values)))
  }

  function Identity(x: real): real { x }

  /** On finite values the `|| 0` never fires: the fold is the plain left sum. */
  lemma {:induction false} AvgFoldFinite(values: seq<real>)
    ensures AvgFold(Fins(values)) == Js.Fin(ArrayStats.SumOf(values, Identity))
    decreases |values|
  {
    if |values| == 0 {
      assert Fins(values) == [];
    } else {
      var n := |values|;
      var init := values[..n - 1];
      AvgFoldFinite(init);
      var a := ArrayStats.SumOf(init, Identity);
      FinsSnoc(values);
      AvgStepFinite(a, values[n - 1]);
    }
  }

  /** The fold over `Fins(values)` ends with a step on the last value. */
  lemma FinsSnoc(values: seq<real>)
    requires |values| > 0
    ensures AvgFold(Fins(values))
         == AvgStep(AvgFold(Fins(values[..|values| - 1])), Js.Fin(values[|values| - 1]))
    ensures ArrayStats.SumOf(values, Identity)
         == ArrayStats.SumOf(values[..|values| - 1], Identity) + values[|values| - 1]
  {
    var n := |values|;
    var fs := Fins(values);
    assert fs[..n - 1] == Fins(values[..n - 1]);
  }

  lemma AvgStepFinite(a: real, b: real)
    ensures AvgStep(Js.Fin(a), Js.Fin(b)) == Js.Fin(a + b)
  {
  }

  /** A fold whose running value is back at 0 continues exactly like a fresh fold. */
  lemma {:induction false} AvgFoldRestart(p: seq<Js.Num>, t: seq<Js.Num>)
    requires AvgFold(p) == Js.Fin(0.0)
    ensures AvgFold(p + t) == AvgFold(t)
    decreases |t|
  {
    if |t| == 0 {
      assert p + t == p;
    } else {
      var t' := t[..|t| - 1];
      assert (p + t)[..|p + t| - 1] == p + t';
      AvgFoldRestart(p, t');
    }
  }

  /** A NaN anywhere resets the `avg` running sum to 0: only what follows it counts. */
  lemma AvgNaNResets(s: seq<Js.Num>, t: seq<Js.Num>)
    ensures AvgFold(s + [Js.NaN] + t) == AvgFold(t)
  {
    var p := s + [Js.NaN];
    assert p[..|p| - 1] == s;
    assert AvgFold(p) == Js.Fin(0.0);
    AvgFoldRestart(p, t);
  }

  /** `avg` of finite values is `averageOf` with the identity accessor. */
  lemma AvgIsAverageOf(values: seq<real>)
    requires |values| > 0
    ensures Aggregate(Avg, values) == ArrayStats.AverageOf(values, Identity)
  {
    assert Aggregate(Avg, values) == AvgOf(Fins(values));
    AvgFoldFinite(values);
    var n := |values| as real;
    assert AvgOf(Fins(values)) == Js.Div(Js.Fin(ArrayStats.SumOf(values, Identity)), Js.Fin(n));
  }

  /** Every aggregate of a non-empty list lies between its smallest and largest value. */
  lemma AggregateBetween(op: AggregateOperation, values: seq<real>)
    requires |values| > 0
    ensures ArrayStats.SeqMin(values) <= Aggregate(op, values).v <= ArrayStats.SeqMax(values)
  {
    var lo, hi := ArrayStats.SeqMin(values), ArrayStats.SeqMax(values);
    var m := ArrayStats.MinimumOf(values, Identity);
    var M := ArrayStats.MaximumOf(values, Identity);
    assert ArrayStats.Map(values, Identity) == values;
    match op
    case Avg =>
      AvgIsAverageOf(values);
      ArrayStats.AverageOfBetween(values, Identity);
    case Median =>
      if |values| >= 2 {
        ArrayStats.MedianOfBetween(values, Identity);
        assert Aggregate(op, values).v == ArrayStats.MedianOf(values, Identity, 0.0);
      }
    case Min =>
    case Max =>
  }

  // ---- getImageData ----

  /** The `imageDataCache`: the image size and its pixels, one word each, row-major. */
  datatype ImageCache = ImageCache(width: nat, height: nat, data: seq<bv32>)

  /**
   * The word `getImageData` copies for (col, row): 0 outside the image, otherwise
   * `data[row * width + col]` (a missing word reads as undefined and is stored as 0).
   */
  function PixelAt(img: ImageCache, col: int, row: int): bv32 {
    if col < 0 || col >= img.width || row < 0 || row >= img.height then 0
    else if row * img.width + col < |img.data| then img.data[row * img.width + col]
    else 0
  }

  /** The first `n` words of row `row`, starting at column `x`. */
  function Row(img: ImageCache, x: int, row: int, n: nat): (r: seq<bv32>)
    ensures |r| == n
  {
    if n == 0 then [] else Row(img, x, row, n - 1) + [PixelAt(img, x + n - 1, row)]
  }

  /** The `w × h` window at `(x, y)`, row after row. */
  function Window(img: ImageCache, x: int, y: int, w: nat, h: nat): (r: seq<bv32>)
    ensures |r| == w * h
  {
    if h == 0 then [] else Window(img, x, y, w, h - 1) + Row(img, x, y + h - 1, w)
  }

  lemma RowIndex(img: ImageCache, x: int, row: int, n: nat, c: int)
    requires 0 <= c < n
    ensures Row(img, x, row, n)[c] == PixelAt(img, x + c, row)
  {
  }

  /** Word k of a window is the pixel at column `x + k % w`, row `y + k / w`. */
  lemma {:induction false} WindowIndex(img: ImageCache, x: int, y: int, w: nat, h: nat, k: int)
    requires 0 <= k < w * h
    ensures Window(img, x, y, w, h)[k] == PixelAt(img, x + k % w, y + k / w)
    decreases h
  {
    var last := (h - 1) * w;
    assert w * h == last + w;
    if k < last {
      WindowIndex(img, x, y, w, h - 1, k);
    } else {
      DivModUnique(k, w, h - 1, k - last);
      RowIndex(img, x, y + h - 1, w, k - last);
    }
  }

  lemma MulAtLeast(a: int, w: int)
    requires a >= 1 && w > 0
    ensures a * w >= w
  {
  }

  lemma DivModUnique(k: int, w: int, q: int, c: int)
    requires w > 0 && 0 <= c < w && k == q * w + c
    ensures k / w == q && k % w == c
  {
    var q', c' := k / w, k % w;
    assert k == q' * w + c';
    assert (q - q') * w == c' - c;
    if q > q' {
      MulAtLeast(q - q', w);
    } else if q < q' {
      MulAtLeast(q' - q, w);
    }
  }

  /**
   * The nested row/col loops of `getImageData`: a fresh array of `w * h` words
   * filled row-major from `(x, y)`.
   */
  method FillWindow(img: ImageCache, x: int, y: int, w: nat, h: nat) returns (arr: array<bv32>)
    ensures fresh(arr)
    ensures arr[..] == Window(img, x, y, w, h)
  {
    arr := new bv32[w * h];
    var i: nat := 0;
    var row := y;
    ghost var r: nat := 0;
    while row < h + y
      invariant row == y + r && r <= h
      invariant i == Offset(r, w) && i <= arr.Length
      invariant arr[..i] == Window(img, x, y, w, h)[..i]
    {
      NextRow(arr, i, img, x, y, w, h, r, row);
      i := i + w;
      row := row + 1;
      r := r + 1;
    }
    OffsetIsProduct(h, w);
    assert arr[..] == arr[..i];
  }

  /** Where row `r` starts in a row-major buffer of `w`-word rows, counted one row at a time. */
  function Offset(r: nat, w: nat): nat {
    if r == 0 then 0 else Offset(r - 1, w) + w
  }

  lemma {:induction false} OffsetIsProduct(r: nat, w: nat)
    ensures Offset(r, w) == w * r
  {
    if r > 0 {
      OffsetIsProduct(r - 1, w);
    }
  }

  /** One turn of the `row` loop: row `row` of the image is copied after the rows before it. */
  method NextRow(arr: array<bv32>, i: nat, img: ImageCache, x: int, y: int, w: nat, h: nat, ghost r: nat, row: int)
    requires row == y + r && r < h && i == Offset(r, w) && i <= arr.Length == w * h
    requires arr[..i] == Window(img, x, y, w, h)[..i]
    modifies arr
    ensures i + w <= arr.Length && Offset(r + 1, w) == i + w
    ensures arr[..i + w] == Window(img, x, y, w, h)[..i + w]
  {
    WindowRow(img, x, y, w, h, r);
    CopyRow(arr, i, img, x, row, w);
  }

  /** The rows before row `r` of the window, then row `r`, are its words up to where row `r + 1` starts. */
  lemma WindowRow(img: ImageCache, x: int, y: int, w: nat, h: nat, r: nat)
    requires r < h
    ensures Offset(r + 1, w) <= w * h
    ensures Window(img, x, y, w, h)[..Offset(r + 1, w)] == Window(img, x, y, w, h)[..Offset(r, w)] + Row(img, x, y + r, w)
  {
    OffsetIsProduct(r, w);
    OffsetIsProduct(r + 1, w);
    MulMono(r + 1, h, w);
    WindowPrefix(img, x, y, w, h, r + 1);
    WindowPrefix(img, x, y, w, h, r);
  }

  /** The first `r * w` words of a window are the window of its first `r` rows. */
  lemma {:induction false} WindowPrefix(img: ImageCache, x: int, y: int, w: nat, h: nat, r: nat)
    requires r <= h
    ensures r * w <= w * h
    ensures Window(img, x, y, w, h)[..r * w] == Window(img, x, y, w, r)
    decreases h
  {
    MulMono(r, h, w);
    if r < h {
      WindowPrefix(img, x, y, w, h - 1, r);
      assert Window(img, x, y, w, h)[..w * (h - 1)] == Window(img, x, y, w, h - 1);
    } else {
      assert Window(img, x, y, w, h)[..r * w] == Window(img, x, y, w, h);
    }
  }

  /** The inner `col` loop of `getImageData` for one row, writing from index `i0`. */
  method CopyRow(arr: array<bv32>, i0: nat, img: ImageCache, x: int, row: int, w: nat)
    requires i0 + w <= arr.Length
    modifies arr
    ensures arr[..i0 + w] == old(arr[..i0]) + Row(img, x, row, w)
  {
    var i := i0;
    var col := x;
    while col < w + x
      invariant x <= col <= w + x
      invariant i == i0 + (col - x)
      invariant forall k :: 0 <= k < i0 ==> arr[k] == old(arr[k])
      invariant forall k :: i0 <= k < i ==> arr[k] == PixelAt(img, x + (k - i0), row)
    {
      var v := ReadWord(img, col, row);
      arr[i] := v;
      i := i + 1;
      col := col + 1;
    }
    RowMatches(arr[..i0 + w], old(arr[..i0]), img, x, row, w);
  }

  /** The body of the `col` loop: the word at (col, row), or 0 outside the image or past the data. */
  method ReadWord(img: ImageCache, col: int, row: int) returns (v: bv32)
    ensures v == PixelAt(img, col, row)
  {
    var offset := row * img.width + col;
    if col < 0 || col >= img.width || row < 0 || row >= img.height {
      v := 0;
    } else {
      v := if offset < |img.data| then img.data[offset] else 0;
    }
  }

  /** A sequence holding the old prefix and then the row's pixels is the prefix followed by the row. */
  lemma RowMatches(s: seq<bv32>, prefix: seq<bv32>, img: ImageCache, x: int, row: int, w: nat)
    requires |s| == |prefix| + w
    requires forall k :: 0 <= k < |prefix| ==> s[k] == prefix[k]
    requires forall k :: |prefix| <= k < |s| ==> s[k] == PixelAt(img, x + (k - |prefix|), row)
    ensures s == prefix + Row(img, x, row, w)
  {
    forall c | 0 <= c < w
      ensures Row(img, x, row, w)[c] == PixelAt(img, x + c, row)
    {
      RowIndex(img, x, row, w, c);
    }
  }

  lemma MulMono(a: int, b: int, w: nat)
    requires a <= b
    ensures a * w <= b * w
  {
  }

  // ---- getChunkFlat and cachedValueAccessor ----

  /** A 4-byte `Uint8ClampedArray` view at pixel `index` of a shared buffer of words. */
  datatype PixelView = PixelView(buffer: seq<bv32>, index: nat)

  predicate ValidView(v: PixelView) { v.index < |v.buffer| }

  /** The bytes a view reads. */
  function Bytes(v: PixelView): Rgba
    requires ValidView(v)
  {
    Unpack(v.buffer[v.index])
  }

  /** The word of the view's own pixel: the key the memo is meant to use. */
  function OwnKey(v: PixelView): bv32
    requires ValidView(v)
  {
    v.buffer[v.index]
  }

  /**
   * The key the code computes, `new Uint32Array(v.buffer)[0]`: the first word of
   * the whole shared buffer, whatever pixel the view is on.
   */
  function AsWrittenKey(v: PixelView): bv32
    requires ValidView(v)
  {
    v.buffer[0]
  }

  /** The loop of `getChunkFlat`: one view per 4 bytes of the window's buffer, in order. */
  method ViewsOf(buf: seq<bv32>) returns (res: seq<PixelView>)
    ensures |res| == |buf|
    ensures forall i :: 0 <= i < |buf| ==> res[i] == PixelView(buf, i) && ValidView(res[i])
  {
    res := [];
    var i := 0;
    while i < |buf|
      invariant 0 <= i <= |buf|
      invariant |res| == i
      invariant forall j :: 0 <= j < i ==> res[j] == PixelView(buf, j)
    {
      res := res + [PixelView(buf, i)];
      i := i + 1;
    }
  }

  /** The statistic of every word of `words`. */
  function Stats(words: seq<bv32>, func: Rgba -> real): (r: seq<real>)
    ensures |r| == |words|
    ensures forall i :: 0 <= i < |words| ==> r[i] == func(Unpack(words[i]))
  {
    seq(|words|, i requires 0 <= i < |words| => func(Unpack(words[i])))
  }

  /** A JavaScript number read out of a `Uint32Array`: an integer in [0, 2^32). */
  predicate IsWord(k: int) { 0 <= k < 0x1_0000_0000 }

  /** The `Map<number, number>` behind `cachedValueAccessor`, keyed by 32-bit words. */
  class ValueCache {
    var entries: map<nat, real>

    constructor()
      ensures entries == map[]
    {
      entries := map[];
    }

    /** Every stored value is `func` of the bytes of its key. */
    ghost predicate Consistent(func: Rgba -> real)
      reads this
    {
      forall k :: k in entries ==> IsWord(k) && entries[k] == func(Unpack(k as bv32))
    }

    /**
     * One call of the accessor closure with key `k` for the pixel bytes `v`:
     * a stored value is returned as is; otherwise `func(v)` is computed, stored
     * under `k` and returned.
     */
    method Access(func: Rgba -> real, k: nat, v: Rgba) returns (c: real)
      modifies this
      ensures k in old(entries) ==> c == old(entries)[k] && entries == old(entries)
      ensures k !in old(entries) ==> c == func(v) && entries == old(entries)[k := c]
    {
      if k in entries {
        c := entries[k];
        return;
      }
      c := func(v);
      entries := entries[k := c];
    }
  }

  /**
   * One memo access under `key` for bytes that are the key's own: the value
   * returned is `func` of those bytes, and the memo stays consistent.
   */
  lemma AccessStep(before: map<nat, real>, after: map<nat, real>, key: bv32, v: Rgba, c: real, func: Rgba -> real)
    requires forall k :: k in before ==> IsWord(k) && before[k] == func(Unpack(k as bv32))
    requires v == Unpack(key)
    requires key as nat in before ==> c == before[key as nat] && after == before
    requires key as nat !in before ==> c == func(v) && after == before[key as nat := c]
    ensures c == func(Unpack(key))
    ensures forall k :: k in after ==> IsWord(k) && after[k] == func(Unpack(k as bv32))
  {
    WordRoundTrip(key);
    forall k | k in after
      ensures IsWord(k) && after[k] == func(Unpack(k as bv32))
    {
      if key as nat in before {
        assert after[k] == before[k];
      } else if k == key as nat {
        assert after[k] == c;
      } else {
        assert after[k] == before[k];
      }
    }
  }

  /** A word read as a number and stored back as a word is unchanged. */
  lemma WordRoundTrip(key: bv32)
    ensures (key as nat) as bv32 == key && IsWord(key as nat)
  {
  }

  /**
   * `chunk.map(c => accessor(c))` with the memo keyed by each pixel's own word:
   * every pixel gets its own statistic, and the memo stays consistent.
   */
  method MapViews(views: seq<PixelView>, func: Rgba -> real, cache: ValueCache) returns (vals: seq<real>)
    requires forall i :: 0 <= i < |views| ==> ValidView(views[i])
    requires cache.Consistent(func)
    modifies cache
    ensures cache.Consistent(func)
    ensures |vals| == |views|
    ensures forall i :: 0 <= i < |views| ==> vals[i] == func(Bytes(views[i]))
  {
    vals := [];
    var i := 0;
    while i < |views|
      invariant 0 <= i <= |views|
      invariant cache.Consistent(func)
      invariant |vals| == i
      invariant forall j :: 0 <= j < i ==> vals[j] == func(Bytes(views[j]))
    {
      var key := OwnKey(views[i]);
      ghost var before := cache.entries;
      var c := cache.Access(func, key as nat, Bytes(views[i]));
      AccessStep(before, cache.entries, key, Bytes(views[i]), c, func);
      vals := vals + [c];
      i := i + 1;
    }
  }

  /**
   * The same map with the key the code actually computes (`AsWrittenKey`):
   * every pixel of the chunk gets the statistic of the chunk's first pixel.
   */
  method MapViewsAsWritten(buf: seq<bv32>, views: seq<PixelView>, func: Rgba -> real, cache: ValueCache)
    returns (vals: seq<real>)
    requires |views| == |buf|
    requires forall i :: 0 <= i < |buf| ==> views[i] == PixelView(buf, i)
    requires cache.Consistent(func)
    modifies cache
    ensures cache.Consistent(func)
    ensures |vals| == |views|
    ensures forall i :: 0 <= i < |views| ==> vals[i] == func(Unpack(buf[0]))
  {
    vals := [];
    var i := 0;
    while i < |views|
      invariant 0 <= i <= |views|
      invariant cache.Consistent(func)
      invariant i > 0 ==> buf[0] as nat in cache.entries
      invariant |vals| == i
      invariant forall j :: 0 <= j < i ==> vals[j] == func(Unpack(buf[0]))
    {
      assert ValidView(views[i]) && AsWrittenKey(views[i]) == buf[0];
      assert i == 0 ==> Bytes(views[i]) == Unpack(buf[0]);
      ghost var before := cache.entries;
      var c := cache.Access(func, buf[0] as nat, Bytes(views[i]));
      ghost var v := if i == 0 then Bytes(views[i]) else Unpack(buf[0]);
      AccessStep(before, cache.entries, buf[0], v, c, func);
      vals := vals + [c];
      i := i + 1;
    }
  }

  /** Two pixels with different statistics in one chunk: the as-written key merges them. */
  lemma AsWrittenKeyMergesPixels()
    ensures var buf: seq<bv32> := [0, 1];
      var func := (c: Rgba) => c.r as real;
      func(Unpack(AsWrittenKey(PixelView(buf, 1)))) == 0.0
      && func(Bytes(PixelView(buf, 1))) == 1.0
  {
  }

  /** The memo key is sound: the own key of a view is the packed form of its bytes. */
  lemma OwnKeyIsPacked(v: PixelView)
    requires ValidView(v)
    ensures OwnKey(v) == Pack(Bytes(v))
    ensures Unpack(Pack(Bytes(v))) == Bytes(v)
  {
  }

  // ---- the chunk grid ----

  /** A chunk `[x, y, w, h]` of `aggregateChunksFlat`. */
  datatype Cell = Cell(x: int, y: int, w: nat, h: nat)

  /** `Math.floor(total / count)` for a positive count. */
  function SegmentSize(total: nat, count: nat): nat {
    if count == 0 then 0 else total / count
  }

  /** The cells of column x for rows 0 .. n-1. */
  function Column(x: nat, n: nat, hs: nat, vs: nat): (r: seq<Cell>)
    ensures |r| == n
  {
    if n == 0 then [] else Column(x, n - 1, hs, vs) + [Cell(x * hs, (n - 1) * vs, hs, vs)]
  }

  /** The cells of columns 0 .. m-1, x outer and y inner. */
  function Cells(m: nat, vertical: nat, hs: nat, vs: nat): (r: seq<Cell>)
    ensures |r| == m * vertical
  {
    if m == 0 then [] else Cells(m - 1, vertical, hs, vs) + Column(m - 1, vertical, hs, vs)
  }

  /** Cell `x * vertical + y` has origin `(x * hs, y * vs)` and size `hs × vs`. */
  lemma {:induction false} CellsIndex(m: nat, vertical: nat, hs: nat, vs: nat, x: nat, y: nat)
    requires x < m && y < vertical
    ensures x * vertical + y < m * vertical
    ensures Cells(m, vertical, hs, vs)[x * vertical + y] == Cell(x * hs, y * vs, hs, vs)
    decreases m
  {
    MulMono(x + 1, m, vertical);
    assert (x + 1) * vertical == x * vertical + vertical;
    if x < m - 1 {
      CellsIndex(m - 1, vertical, hs, vs, x, y);
    } else {
      assert (m - 1) * vertical == x * vertical;
      ColumnIndex(x, vertical, hs, vs, y);
    }
  }

  lemma {:induction false} ColumnIndex(x: nat, n: nat, hs: nat, vs: nat, y: nat)
    requires y < n
    ensures Column(x, n, hs, vs)[y] == Cell(x * hs, y * vs, hs, vs)
    decreases n
  {
    if y < n - 1 {
      ColumnIndex(x, n - 1, hs, vs, y);
    }
  }

  /** The nested grid loops of `aggregateChunksFlat`. */
  method CollectCells(horizontal: nat, vertical: nat, hs: nat, vs: nat) returns (res: seq<Cell>)
    ensures res == Cells(horizontal, vertical, hs, vs)
  {
    res := [];
    var x := 0;
    while x < horizontal
      invariant 0 <= x <= horizontal
      invariant res == Cells(x, vertical, hs, vs)
    {
      var y := 0;
      while y < vertical
        invariant 0 <= y <= vertical
        invariant res == Cells(x, vertical, hs, vs) + Column(x, y, hs, vs)
      {
        res := res + [Cell(x * hs, y * vs, hs, vs)];
        y := y + 1;
      }
      x := x + 1;
    }
  }

  /** With at least one row and column, every cell lies inside the image. */
  lemma CellsInside(width: nat, height: nat, horizontal: nat, vertical: nat, i: int)
    requires horizontal >= 1 && vertical >= 1
    requires 0 <= i < horizontal * vertical
    ensures var hs, vs := SegmentSize(width, horizontal), SegmentSize(height, vertical);
      var c := Cells(horizontal, vertical, hs, vs)[i];
      0 <= c.x && c.x + c.w <= width && 0 <= c.y && c.y + c.h <= height
  {
    var hs, vs := SegmentSize(width, horizontal), SegmentSize(height, vertical);
    assert horizontal * vertical == vertical * horizontal;
    QuotientBelow(i, vertical, horizontal);
    var x, y := i / vertical, i % vertical;
    assert i == x * vertical + y;
    CellsIndex(horizontal, vertical, hs, vs, x, y);
    SpanInside(width, horizontal, x);
    SpanInside(height, vertical, y);
  }

  /** Segment `x` of `count` equal whole segments of `total` ends within `total`. */
  lemma SpanInside(total: nat, count: nat, x: nat)
    requires x < count
    ensures x * SegmentSize(total, count) + SegmentSize(total, count) <= total
  {
    var size := total / count;
    assert count * size <= total;
    MulMono(x + 1, count, size);
    assert (x + 1) * size == x * size + size;
  }

  /** (col, row) is a pixel of the image: the test `getImageData` makes before reading `data`. */
  predicate InImage(img: ImageCache, col: int, row: int) {
    0 <= col < img.width && 0 <= row < img.height
  }

  /** Every pixel of a window inside the image is in the image: the zero fill never applies. */
  lemma WindowInside(img: ImageCache, x: int, y: int, w: nat, h: nat, k: int)
    requires 0 <= x && x + w <= img.width && 0 <= y && y + h <= img.height
    requires 0 <= k < w * h
    ensures w > 0
    ensures InImage(img, x + k % w, y + k / w)
    ensures Window(img, x, y, w, h)[k] == PixelAt(img, x + k % w, y + k / w)
  {
    QuotientBelow(k, w, h);
    var c, r := k % w, k / w;
    assert 0 <= x + c < img.width && 0 <= y + r < img.height;
    WindowIndex(img, x, y, w, h, k);
  }

  lemma QuotientBelow(k: nat, w: nat, h: nat)
    requires k < w * h
    ensures w > 0 && 0 <= k / w < h && 0 <= k % w < w
  {
    if k / w >= h {
      MulMono(h, k / w, w);
    }
  }

  /** `aggregateChunksAspectRatioFlat`'s choice of (horizontal, vertical) counts. */
  function GridCounts(count: nat, width: nat, height: nat): (r: (nat, nat))
    ensures width == height ==> r == (count, count)
    ensures width > height ==> r == (count, count * height / width) && r.1 <= count
    ensures width < height ==> r == (count * width / height, count) && r.0 <= count
  {
    if width == height then (count, count)
    else if width > height then
      var v := ((count as real) * ((height as real) / (width as real))).Floor;
      FloorFraction(count, height, width);
      (count, v)
    else
      var h := ((count as real) * ((width as real) / (height as real))).Floor;
      FloorFraction(count, width, height);
      (h, count)
  }

  /** `floor(count * (a / b))` for `a < b` is the integer quotient `count * a / b`. */
  lemma FloorFraction(count: nat, a: nat, b: nat)
    requires a < b
    ensures 0 <= ((count as real) * ((a as real) / (b as real))).Floor == count * a / b <= count
  {
    var n := count * a;
    var q := n / b;
    var x := ScaledFraction(count, a, b);
    assert q * b <= n < q * b + b;
    FloorBetween(x, q, b, n);
    QuotientAtMost(count, a, b);
  }

  /** `x == count * (a / b)`, and `x * b` is the whole product `count * a`. */
  lemma ScaledFraction(count: nat, a: nat, b: nat) returns (x: real)
    requires b > 0
    ensures x == (count as real) * ((a as real) / (b as real))
    ensures x * (b as real) == (count * a) as real
  {
    x := (count as real) * ((a as real) / (b as real));
  }

  /** A real whose multiple by `b` lies in `[q*b, q*b + b)` has floor `q`. */
  lemma FloorBetween(x: real, q: int, b: nat, n: int)
    requires b > 0 && x * (b as real) == n as real && q * b <= n < q * b + b
    ensures x.Floor == q
  {
    var br := b as real;
    var qb := (q as real) * br;
    assert (q * b) as real == qb;
    assert ((q + 1) as real) * br == qb + br;
    CancelLe(x, q as real, br);
    CancelLt(x, (q + 1) as real, br);
  }

  lemma CancelLe(x: real, y: real, b: real)
    requires b > 0.0 && x * b >= y * b
    ensures x >= y
  {
  }

  lemma CancelLt(x: real, y: real, b: real)
    requires b > 0.0 && x * b < y * b
    ensures x < y
  {
  }

  /** `count * a / b <= count` when `a < b`. */
  lemma QuotientAtMost(count: nat, a: nat, b: nat)
    requires a < b
    ensures 0 <= count * a / b <= count
  {
    var q := count * a / b;
    assert q * b <= count * a;
    MulMono(a, b, count);
    if q > count {
      MulMono(count + 1, q, b);
    }
  }

  /** The statistic a chunk reduces to when every pixel is keyed by its own word. */
  function CellValue(img: ImageCache, op: AggregateOperation, func: Rgba -> real, c: Cell): Js.Num {
    Aggregate(op, Stats(Window(img, c.x, c.y, c.w, c.h), func))
  }

  /** What the memo keyed by `AsWrittenKey` maps a chunk to: the first pixel's statistic, once per pixel. */
  function FirstPixelStats(words: seq<bv32>, func: Rgba -> real): (r: seq<real>)
    ensures |r| == |words|
    ensures forall i :: 0 <= i < |words| ==> r[i] == func(Unpack(words[0]))
  {
    if |words| == 0 then [] else seq(|words|, i => func(Unpack(words[0])))
  }

  /** The statistic a chunk reduces to under the key the code computes. */
  function CellValueAsWritten(img: ImageCache, op: AggregateOperation, func: Rgba -> real, c: Cell): Js.Num {
    Aggregate(op, FirstPixelStats(Window(img, c.x, c.y, c.w, c.h), func))
  }

  /** The values of the first cells of a grid, one more value at a time. */
  lemma AppendCellValue(img: ImageCache, op: AggregateOperation, func: Rgba -> real,
                        cells: seq<Cell>, res: seq<Js.Num>, v: Js.Num)
    requires |res| < |cells|
    requires forall j :: 0 <= j < |res| ==> res[j] == CellValueAsWritten(img, op, func, cells[j])
    requires v == CellValueAsWritten(img, op, func, cells[|res|])
    ensures forall j :: 0 <= j < |res| + 1 ==> (res + [v])[j] == CellValueAsWritten(img, op, func, cells[j])
  {
  }

  /**
   * Under the code's key a non-empty chunk reduces, whatever the operation, to
   * the statistic of its top-left pixel.
   */
  lemma AsWrittenCellIsTopLeft(img: ImageCache, op: AggregateOperation, func: Rgba -> real, c: Cell)
    requires c.w > 0 && c.h > 0
    ensures CellValueAsWritten(img, op, func, c) == Js.Fin(func(Unpack(PixelAt(img, c.x, c.y))))
  {
    var words := Window(img, c.x, c.y, c.w, c.h);
    MulAtLeast(c.h, c.w);
    WindowIndex(img, c.x, c.y, c.w, c.h, 0);
    DivModUnique(0, c.w, 0, 0);
    assert words[0] == PixelAt(img, c.x, c.y);
    ConstantAggregate(op, FirstPixelStats(words, func), func(Unpack(words[0])));
  }

  /** Every aggregate of a non-empty list of equal values is that value. */
  lemma ConstantAggregate(op: AggregateOperation, values: seq<real>, v: real)
    requires |values| > 0
    requires forall i :: 0 <= i < |values| ==> values[i] == v
    ensures Aggregate(op, values) == Js.Fin(v)
  {
    var lo, hi := ArrayStats.SeqMin(values), ArrayStats.SeqMax(values);
    assert lo == v && hi == v;
    AggregateBetween(op, values);
  }

  /** On a chunk whose pixels are all equal the code's key and the own-word key agree. */
  lemma AsWrittenAgreesOnUniformCell(img: ImageCache, op: AggregateOperation, func: Rgba -> real, c: Cell)
    requires forall k :: 0 <= k < c.w * c.h ==> Window(img, c.x, c.y, c.w, c.h)[k] == Window(img, c.x, c.y, c.w, c.h)[0]
    ensures CellValueAsWritten(img, op, func, c) == CellValue(img, op, func, c)
  {
    var words := Window(img, c.x, c.y, c.w, c.h);
    assert FirstPixelStats(words, func) == Stats(words, func);
  }
}
