# art.pprice.me plotter geometry and image statistics, in Dafny

art.pprice.me is a gallery of generative and image-derived artworks drawn for a pen
plotter. This project models the engine behind those artworks and proves properties of
the model. The engine has five parts.

- **Canvas statistics.** `CanvasContext` and `OffscreenCanvasContext` cut a raster image
  into a grid of cells. They read each cell's pixels through a lazily filled cache of
  32-bit words. They map every pixel to a value (luminance, hue, saturation or lightness)
  through a memoised accessor. They reduce each cell to one number (avg, median, min or
  max). The accessor's memo key is the first word of the chunk's shared buffer, so as
  written every pixel of a cell takes the value of the cell's top-left pixel. The class
  methods model that behaviour. `AggregateChunkOwnKey` keys each pixel by its own word
  instead, and `Aggregation.CellValue` is the value every cell would then get (see
  "## Findings"). The `averageOf`, `medianOf`, `minimumOf` and `maximumOf` helpers reduce in the
  same way.
- **Colour.** RGB to HSL and back, the hue-to-pen-channel table, and the CIEDE2000 colour
  difference.
- **Hatching.** The 45° hatch walk `hatch45` and the rotated scan-line hatch `hatch`. The
  latter pairs the crossings of each scan line with a shape into segments, and can
  alternate their direction. The segment and line utilities sit beside them: translate,
  flip and flatten.
- **Grids and triangles.** `enumerate2d` and `flatTo2d` walk a flat list of cells as a grid.
  `delaunay` groups triangulated cells into triangles. `polygonFromStream` turns an index
  stream into closed triangles. Two processing artworks build on these:
  - *delaunay-hatch* merges similar neighbouring cells, triangulates the survivors and
    hatches each triangle on the pen layer its colour picks;
  - *color-hatch* hatches every cell on the layer its hue picks.
- **Contexts, sizes, configuration and the gallery registry.**
  - The seeded `RandomContext` with its rounding modes.
  - `RenderContext`, with its ranges, grid points and clamping.
  - Paper sizes.
  - Configuration validation and defaults.
  - The gallery lookup built from imported modules, and the resolution of a route to an
    artwork.
  - The grouping of gallery paths for the index page.

## How the model is built

Each source file becomes one module.

- **Pure code** becomes functions and lemmas.
- **Loops** become methods with invariants. Each method is proved equal to a function
  that specifies it: `hatch45`'s two walks, the scan lines, `enumerate2d`, `flatTo2d`,
  `chunkArray`, the merge pass, the reductions over imports and paths, `range` and
  `segment`.
- **Objects that change state** become classes with `modifies` frames:
  - the two canvas contexts, with their image cache;
  - the memo cache of the value accessor;
  - the random contexts, whose state is the number of samples drawn;
  - the render context, with its layer counter.
- **Numbers.** Geometry and colour are modelled over `real`. Where the code relies on
  JavaScript's `NaN`, `Infinity` or `undefined`, values are `Js.Num`. Examples are the
  `|| 0` inside the average, the empty reductions, the NaN interval check, and `width /
  height` for a zero height.
- **Pixels** are 32-bit words (`bv32`), unpacked little-endian into RGBA bytes.
- **Collaborators are parameters**, never assumed functions:
  - the seeded generator is the stream of samples it produces;
  - flatten-js rotation, intersection and point ordering form an oracle record;
  - the Delaunay triangulator is a function to an index stream;
  - `rgb2Luminance` is a function;
  - CIEDE2000's square root, trigonometry, exponential and `rgb2lab` form a
    `MathOracle`, which states only the facts the proofs use.

Some behaviour is modelled as written even where it looks unintended, because the
artworks' output depends on it:

- `medianOf` and the median aggregator take `sorted[n/2]` for an even length. They take
  the mean of the two middle values for an odd length.
- `scale` computes `minOut + (maxOut - maxIn) * ((v - minIn) / (minOut - minIn))`.
  `Geom.ScaleMissesMaxOut` shows that it does not send `maxIn` to `maxOut`.
- `segment` divides the height by the horizontal count.
- `flatTo2d` drops the last row.
- A choice property's default is the first choice record, not its value.

- `hatch45` rejects only a NaN or non-finite interval. It accepts a zero or negative
  interval, and each walk stops after `MAX_ITER` = 10000 segments.

## Model

| member | source | states |
|---|---|---|
| Aggregation.Aggregate | src/lib/processing/CanvasContext.ts:30-44 | the four aggregators on an empty cell give avg NaN (0/0), min +Infinity, max -Infinity and median undefined; on a non-empty cell every aggregator gives a finite number |
| Aggregation.AvgStepIsJsOr | src/lib/processing/CanvasContext.ts:31 | the average's fold step is JavaScript's `sum + i` or 0: the JS sum, replaced by 0 when it is falsy (NaN or 0) |
| Aggregation.AvgFoldFinite | src/lib/processing/CanvasContext.ts:31 | over finite values the fold with its fall-back to 0 is the plain sum |
| Aggregation.AvgNaNResets | src/lib/processing/CanvasContext.ts:31 | a NaN anywhere resets the running sum to 0: the fold of `s + [NaN] + t` is the fold of `t` alone |
| Aggregation.AvgFoldRestart | src/lib/processing/CanvasContext.ts:31 | once the running sum is 0, the prefix no longer influences the result |
| Aggregation.AvgIsAverageOf | src/lib/processing/CanvasContext.ts:31 | on a non-empty cell the avg aggregator agrees with `averageOf` under the identity accessor |
| Aggregation.AggregateBetween | src/lib/processing/CanvasContext.ts:30-44 | every aggregator's result on a non-empty cell lies between the cell's minimum and maximum |
| Aggregation.Window | src/lib/processing/CanvasContext.ts:198 | the window read for a w×h request has exactly w·h words, one per pixel |
| Aggregation.WindowIndex | src/lib/processing/CanvasContext.ts:204-211 | word k of the window is the pixel at column x + k mod w, row y + k div w (row-major), which is 0 outside the image |
| Aggregation.FillWindow | src/lib/processing/CanvasContext.ts:198-213 | the nested row/column loop fills a fresh array equal to the window |
| Aggregation.WindowPrefix | src/lib/processing/CanvasContext.ts:204-213 | the first r·w words of the w×h window are the window of its first r rows, so the row loop fills the array one whole row at a time |
| Aggregation.CopyRow | src/lib/processing/CanvasContext.ts:205-212 | the inner loop appends one row of the window after the words already written and leaves those unchanged |
| Aggregation.WindowInside | src/lib/processing/CanvasContext.ts:207-210 | for a request inside the image, every word is a real pixel read from the cache, never the zero fill |
| Aggregation.ViewsOf | src/lib/processing/CanvasContext.ts:105-108 | `getChunkFlat` makes one 4-byte view per word, view i pointing at word i of the shared buffer |
| Aggregation.Stats | src/lib/processing/CanvasContext.ts:158 | mapping a chunk gives one value per pixel: the accessor applied to that pixel's RGBA bytes |
| Aggregation.ValueCache.constructor | src/lib/processing/CanvasContext.ts:163 | a cache the caller does not supply starts empty |
| Aggregation.ValueCache.Access | src/lib/processing/CanvasContext.ts:165-176 | a cached key returns its cached value and leaves the cache unchanged; a missing key computes the accessor, stores it and returns it |
| Aggregation.AccessStep | src/lib/processing/CanvasContext.ts:166-175 | when every cached entry holds the accessor's value for its own key, an access returns the accessor's value and the cache keeps that property |
| Aggregation.OwnKeyIsPacked | src/lib/processing/CanvasContext.ts:166 | keyed by the pixel's own word, the key is the packed RGBA bytes and unpacks back to them, so equal keys mean equal pixels |
| Aggregation.MapViews | src/lib/processing/CanvasContext.ts:157-158 | with the cache keyed by each pixel's own word, the memoised map gives exactly the accessor's value for every pixel and keeps the cache consistent |
| Aggregation.MapViewsAsWritten | src/lib/processing/CanvasContext.ts:166 | with the key read as `new Uint32Array(v.buffer)[0]`, every pixel of a chunk gets the value of the chunk's first pixel |
| Aggregation.FirstPixelStats | src/lib/processing/CanvasContext.ts:157-176 | what the as-written memoised map returns: one value per pixel, each the accessor's value of the chunk's first word |
| Aggregation.AsWrittenCellIsTopLeft | src/lib/processing/CanvasContext.ts:147-176 | as written, a non-empty cell's value under every aggregator is the accessor's value of the cell's top-left pixel |
| Aggregation.AsWrittenAgreesOnUniformCell | src/lib/processing/CanvasContext.ts:147-176 | on a cell whose pixels all hold the same word, the as-written value equals the value keyed by each pixel's own word |
| Aggregation.AsWrittenKeyMergesPixels | src/lib/processing/CanvasContext.ts:166 | on the buffer [0, 1] with the red-byte accessor, the as-written key gives 0 for the second pixel, whose own value is 1 |
| Aggregation.Cells | src/lib/processing/CanvasContext.ts:133-137 | the grid has horizontal × vertical cells |
| Aggregation.CellsIndex | src/lib/processing/CanvasContext.ts:133-136 | cell x·vertical + y is `[x·hSize, y·vSize, hSize, vSize]`, column by column |
| Aggregation.CollectCells | src/lib/processing/CanvasContext.ts:131-137 | the nested loop pushes exactly the grid of cells in that order |
| Aggregation.CellsInside | src/lib/processing/CanvasContext.ts:128-136 | with floor-divided segment sizes, every cell lies inside the canvas |
| Aggregation.GridCounts | src/lib/processing/CanvasContext.ts:113-125 | a square canvas gets count×count; the longer side gets count and the shorter side gets count·short div long, the floor of `count * (short / long)`, which is at most count |
| Aggregation.FloorFraction | src/lib/processing/CanvasContext.ts:118 | `Math.floor(count * (h / w))` with h < w equals the integer quotient count·h div w, which is at most count |
| CanvasCtx.CanvasContext.constructor | src/lib/processing/CanvasContext.ts:56-60 | a context holds its canvas and starts with no image cache |
| CanvasCtx.CanvasContext.Destroy | src/lib/processing/CanvasContext.ts:90-94 | destroying drops both the image cache and the canvas |
| CanvasCtx.CanvasContext.GetImageData | src/lib/processing/CanvasContext.ts:187-216 | the first call snapshots the canvas once, and later calls reuse that snapshot without reading the canvas again; the result is the zero-filled window of the snapshot |
| CanvasCtx.CanvasContext.GetChunkFlat | src/lib/processing/CanvasContext.ts:101-111 | a chunk has w·h pixel views, view i on word i of the window |
| CanvasCtx.CanvasContext.AggregateChunk | src/lib/processing/CanvasContext.ts:147-176 | as written: the chunk's value is the aggregator over the memoised map keyed by the buffer's first word, so every pixel counts with the top-left pixel's value |
| CanvasCtx.CanvasContext.AggregateChunkOwnKey | src/lib/processing/CanvasContext.ts:147-176 | corrected key: the aggregator applied to the accessor's value of each pixel of the chunk, keyed by the pixel's own word; the shared cache stays consistent |
| CanvasCtx.CanvasContext.AggregateCell | src/lib/processing/CanvasContext.ts:140-142 | the `.map` callback: one cell's as-written value through the shared cache, which stays consistent, with the canvas snapshotted at most once |
| CanvasCtx.CanvasContext.AggregateCells | src/lib/processing/CanvasContext.ts:139-142 | one shared cache serves every cell, and result j is cell j's as-written value |
| CanvasCtx.CanvasContext.AggregateChunksFlat | src/lib/processing/CanvasContext.ts:127-145 | horizontal × vertical results; result i is the as-written value of grid cell i, and the canvas is read at most once |
| CanvasCtx.CanvasContext.AggregateChunksAspectRatioFlat | src/lib/processing/CanvasContext.ts:113-125 | the as-written flat aggregation over the grid the aspect rule picks |
| OffscreenCanvasCtx.ChunkArray | src/processing/OffscreenCanvasContext.ts:28-42 | the chunks concatenate back to the array; for w ≥ 1 every chunk but the last has w items and the last is non-empty; for w = 0 the loop yields `[[]]` or `[[], arr]` |
| OffscreenCanvasCtx.Push | src/processing/OffscreenCanvasContext.ts:33-38 | one turn of the loop adds exactly the element at the end of the concatenation, keeps the list well chunked for w ≥ 1 with a non-empty last chunk, and for w = 0 opens the second chunk once and then grows it |
| OffscreenCanvasCtx.ConcatLength | src/processing/OffscreenCanvasContext.ts:28-42 | n chunks of w items hold n·w items |
| OffscreenCanvasCtx.ChunkCount | src/processing/OffscreenCanvasContext.ts:28-42 | a non-empty array splits into ceil(length / w) chunks |
| OffscreenCanvasCtx.OffscreenCanvasContext.constructor | src/processing/OffscreenCanvasContext.ts:70 | a context holds its surface and starts with no image cache |
| OffscreenCanvasCtx.OffscreenCanvasContext.GetImageData | src/processing/OffscreenCanvasContext.ts:187-216 | the surface is snapshotted once; the result is the zero-filled window of the snapshot |
| OffscreenCanvasCtx.OffscreenCanvasContext.GetChunkFlat | src/processing/OffscreenCanvasContext.ts:101-111 | w·h views, view i on word i of the window |
| OffscreenCanvasCtx.OffscreenCanvasContext.AggregateChunk | src/processing/OffscreenCanvasContext.ts:147-176 | as written: the aggregator over the map keyed by the buffer's first word, so every pixel counts with the top-left pixel's value |
| OffscreenCanvasCtx.OffscreenCanvasContext.AggregateChunkOwnKey | src/processing/OffscreenCanvasContext.ts:147-176 | corrected key: the aggregator over the accessor's value of each pixel of the chunk |
| OffscreenCanvasCtx.OffscreenCanvasContext.AggregateCell | src/processing/OffscreenCanvasContext.ts:140-142 | the `.map` callback: one cell's as-written value through the shared cache, which stays consistent |
| OffscreenCanvasCtx.OffscreenCanvasContext.AggregateCells | src/processing/OffscreenCanvasContext.ts:139-142 | one shared cache serves every cell, and result j is cell j's as-written value |
| OffscreenCanvasCtx.OffscreenCanvasContext.AggregateChunksFlat | src/processing/OffscreenCanvasContext.ts:127-145 | one result per grid cell, in grid order, each the cell's as-written value |
| OffscreenCanvasCtx.OffscreenCanvasContext.AggregateChunksAspectRatioFlat | src/processing/OffscreenCanvasContext.ts:113-125 | the as-written flat aggregation over the grid the aspect rule picks |
| ArrayStats.AverageOf | src/lib/utils/array.ts:1-3 | the average is NaN exactly when the array is empty |
| ArrayStats.SumOfAppend | src/lib/utils/array.ts:5-7 | the sum of a concatenation is the sum of the parts |
| ArrayStats.SumOfBounds | src/lib/utils/array.ts:5-7 | with values between lo and hi, the sum lies between n·lo and n·hi |
| ArrayStats.AverageOfBetween | src/lib/utils/array.ts:1-7 | the average of a non-empty array is finite and lies between its minimum and maximum |
| ArrayStats.MeanWithin | src/lib/utils/array.ts:1-7 | the mean of values in [lo, hi] is in [lo, hi] |
| ArrayStats.MedianOf | src/lib/utils/array.ts:9-20 | length ≤ 1 gives the accessor at index 0; otherwise an even length gives sorted[n/2] and an odd length the mean of sorted[n/2 − 1] and sorted[n/2] |
| ArrayStats.MedianOfBetween | src/lib/utils/array.ts:9-28 | the median of a non-empty array lies between its minimum and maximum |
| ArrayStats.Sort | src/lib/utils/array.ts:16 | the sort is ascending and a permutation of its input |
| ArrayStats.Insert | src/lib/utils/array.ts:16 | inserting into a sorted list keeps it sorted and adds exactly that element |
| ArrayStats.SortOfSorted | src/lib/utils/array.ts:16 | sorting an already sorted list changes nothing |
| ArrayStats.Map | src/lib/utils/array.ts:14 | `array.map(accessor)`: same length, element i is the accessor of item i |
| ArrayStats.MaximumOf | src/lib/utils/array.ts:22-24 | `Math.max` of nothing is -Infinity, and only for the empty array; otherwise it is some item's value and no item's value is larger |
| ArrayStats.MinimumOf | src/lib/utils/array.ts:26-28 | `Math.min` of nothing is +Infinity, and only for the empty array; otherwise it is some item's value and no item's value is smaller |
| ArrayStats.JsMax | src/lib/utils/array.ts:23 | `Math.max(...values)`: -Infinity exactly on the empty list, otherwise a member that bounds all others |
| ArrayStats.JsMin | src/lib/utils/array.ts:27 | `Math.min(...values)`: +Infinity exactly on the empty list, otherwise a member that bounds all others |
| ArrayStats.SeqMax | src/lib/utils/array.ts:23 | the largest member of a non-empty list |
| ArrayStats.SeqMin | src/lib/utils/array.ts:27 | the smallest member of a non-empty list |
| Hatch45.Hatch | src/geom/hatch.ts:10-89 | a non-finite interval fails with "Invalid interval"; otherwise a NaN box coordinate fails with "Invalid bounding box dimensions"; only when both checks pass is the result the forward or the reverse walk |
| Hatch45.CrossHatch | src/geom/hatch.ts:6-8 | fails exactly when hatch45 does; otherwise the forward walk followed by the reverse walk |
| Hatch45.ForwardWalk | src/geom/hatch.ts:27-59 | the loop yields exactly the forward hatch, at most `MAX_ITER` = 10000 segments |
| Hatch45.ReverseWalk | src/geom/hatch.ts:62-86 | the loop yields exactly the reverse hatch, at most `MAX_ITER` = 10000 segments |
| Hatch45.StepForward | src/geom/hatch.ts:35-53 | one step moves both ends one interval further along x + y and clamps the start to xmax and the end to ymax |
| Hatch45.StepReverse | src/geom/hatch.ts:72-82 | one step moves both ends one interval back along x − y and clamps the start to xmin and the end to ymax |
| Hatch45.ForwardHatchBounds | src/geom/hatch.ts:27-33 | the forward hatch has between 1 and 10000 segments and starts with the first diagonal |
| Hatch45.ForwardHatchDiagonal | src/geom/hatch.ts:35-52 | both ends of segment j lie on the diagonal x + y = xmin + ymin + (j+1)·interval |
| Hatch45.ForwardHatchSpacing | src/geom/hatch.ts:35-52 | consecutive forward segments are exactly one interval apart along x + y |
| Hatch45.ForwardHatchClamped | src/geom/hatch.ts:35-57 | every later forward segment has its start at or left of xmax, its end at or above ymax, and runs right to left |
| Hatch45.ForwardHatchEnds | src/geom/hatch.ts:55-57 | the forward walk stops only at the 10000-segment cap or when the next segment would leave the box |
| Hatch45.ReverseHatchBounds | src/geom/hatch.ts:62-69 | the reverse hatch has between 1 and 10000 segments and starts with the first anti-diagonal |
| Hatch45.ReverseHatchDiagonal | src/geom/hatch.ts:72-82 | both ends of reverse segment j lie on x − y = xmax − ymin − (j+1)·interval |
| Hatch45.ReverseHatchSpacing | src/geom/hatch.ts:72-82 | consecutive reverse segments are one interval apart along x − y |
| Hatch45.ReverseHatchClamped | src/geom/hatch.ts:72-84 | every later reverse segment starts at or right of xmin, ends at or above ymax, and runs left to right |
| Hatch45.ReverseHatchEnds | src/geom/hatch.ts:84-85 | the reverse walk stops only at the cap or when the next segment would leave the box |
| Hatching.Hatch | src/lib/geom/Hatching.ts:20-96 | fails exactly for an undefined or NaN interval; otherwise the paired crossings of the scan lines, with every other segment reversed when alternating |
| Hatching.CrossHatch | src/lib/geom/Hatching.ts:8-17 | the first pass at the angle and the second pass at the turned angle, the second pass reversed |
| Hatching.SecondAngleTurn | src/lib/geom/Hatching.ts:14-15 | the second pass adds 90° to a non-negative angle; for a negative angle it uses 90° minus the angle |
| Hatching.Reverse | src/lib/geom/Hatching.ts:17 | `reverse()`: same length, element i is element n−1−i of the input |
| Hatching.EffectiveInterval | src/lib/geom/Hatching.ts:37 | the interval used is +Infinity or at least `MIN_INTERVAL` = 1, and an interval already at least 1 is kept |
| Hatching.ContainingBoundsCover | src/lib/geom/Hatching.ts:40-42 | the box of the shape's containing circle covers the shape's box |
| Hatching.Scan | src/lib/geom/Hatching.ts:46-52 | the scan loop yields exactly the specified scan lines |
| Hatching.ScanLinesFinite | src/lib/geom/Hatching.ts:46-52 | with a finite interval, line k is the vertical at xmin + k·interval, left of xmax, with at most 10001 lines (the cap is checked after a line is added) |
| Hatching.ScanLinesStop | src/lib/geom/Hatching.ts:46-52 | the scan stops only at the cap or once the next x reaches xmax |
| Hatching.ScanLinesInfinite | src/lib/geom/Hatching.ts:46-52 | an infinite interval gives one line at xmin, or none for a box of no width |
| Hatching.ScanLines | src/lib/geom/Hatching.ts:46-52 | at most `MAX_ITER` + 1 = 10001 scan lines, whatever the interval |
| Hatching.AdvanceIsAdd | src/lib/geom/Hatching.ts:46 | the x step is JavaScript addition and stays finite exactly when the interval is finite |
| Hatching.Crossings | src/lib/geom/Hatching.ts:58-60 | one crossing list per scan line: the shape intersected with the rotated line |
| Hatching.PairPoints | src/lib/geom/Hatching.ts:68-75 | the pairing loop yields exactly the pairs of consecutive crossings |
| Hatching.PairCrossings | src/lib/geom/Hatching.ts:64-88 | mapping each line's crossings to their pairs and flattening yields every line's pairs, line after line, in order |
| Hatching.PairsShape | src/lib/geom/Hatching.ts:68-75 | n crossings give n div 2 segments, segment k joining crossings 2k and 2k+1 (an odd last point is dropped) |
| Hatching.OrderedStart | src/lib/geom/Hatching.ts:79-83 | each segment joins the same two points, the one not less-than the other first |
| Hatching.PairsOrdered | src/lib/geom/Hatching.ts:79-83 | for an asymmetric order, no segment's start is less than its end |
| Hatching.PairAllOrdered | src/lib/geom/Hatching.ts:65-86 | the same holds for the segments of every scan line |
| Hatching.HatchSegmentsOrdered | src/lib/geom/Hatching.ts:56-88 | every hatch segment before alternation is oriented by the point order |
| Hatching.FinishAlternates | src/lib/geom/Hatching.ts:91-95 | alternation keeps the count and reverses exactly the even-indexed segments |
| Enumerate.Enumerate2d | src/lib/geom/Enumerate.ts:9-24 | an empty list yields nothing for any width, 0 included; for a positive width the generator's loop yields exactly the specified grid elements |
| Enumerate.Enumerated | src/lib/geom/Enumerate.ts:9-24 | the walk covers whole rows: rows × w elements |
| Enumerate.EnumeratedAt | src/lib/geom/Enumerate.ts:10-20 | element i has idx i, x = i mod w, y the row start, the item or undefined past the end, and corner implies edge |
| Enumerate.EnumeratedIncreasing | src/lib/geom/Enumerate.ts:10-12 | indices strictly increase along the walk |
| Enumerate.EnumeratedCoversRows | src/lib/geom/Enumerate.ts:10-21 | on a whole grid the walk has one element per item, element i carrying item i |
| Enumerate.FlatTo2d | src/lib/geom/Enumerate.ts:26-40 | an empty list gives no rows for any width, 0 included; otherwise one row fewer than the rows the items span, row k being items k·w … k·w+w−1 |
| Enumerate.FlatRowsInside | src/lib/geom/Enumerate.ts:26-40 | every cell of every returned row is a real item |
| Enumerate.EnumerateSegmentsAsWrittenLosesCells | src/lib/geom/Enumerate.ts:42-44 | for any non-empty segmentation, the as-written generator yields nothing, although the grid walk is non-empty |
| Enumerate.EnumerateSegments | src/lib/geom/Enumerate.ts:42-44 | the corrected generator yields the grid walk of the segmentation's shapes |
| DelaunayGroup.Delaunay | src/lib/geom/Delaunay.ts:11-44 | the loop returns exactly one grouped triangle per index triple |
| DelaunayGroup.Grouped | src/lib/geom/Delaunay.ts:25-41 | a triangulation of n indices gives n div 3 triangles |
| DelaunayGroup.GroupedShape | src/lib/geom/Delaunay.ts:25-41 | triangle k holds source items 3k, 3k+1, 3k+2 and their points, is closed by repeating the first point when asked, and carries the aggregator's value of its items |
| PolygonStream.PolygonFromStream | src/lib/geom/Polygon.ts:4-14 | one polygon per started triple, polygon k built from indices 3k … 3k+2 |
| PolygonStream.TriangleShape | src/lib/geom/Polygon.ts:4-14 | each polygon has four vertices, the fourth repeating the first, and a whole triple gives its three points |
| PolygonStream.WholeTriplesDefined | src/lib/geom/Polygon.ts:8 | when the stream length is a multiple of 3, no vertex is undefined |
| DelaunayHatch.Setup | src/gallery/processing/delaunay-hatch.ts:84-89 | a prior render with the same image and detail is reused untouched; otherwise its canvas context is destroyed |
| DelaunayHatch.PickLayerForHsl | src/gallery/processing/delaunay-hatch.ts:125-140 | black exactly for saturation below 0.15 or lightness above 0.9; otherwise the pen of the hue's RGB channel; every hue in [0, 1] gets a layer |
| DelaunayHatch.MergePass | src/gallery/processing/delaunay-hatch.ts:160-175 | the merge loop over the grid walk returns exactly the specified survivors |
| DelaunayHatch.MergeFold | src/gallery/processing/delaunay-hatch.ts:160-175 | the fold keeps one slot per cell and remembers the last element walked |
| DelaunayHatch.MergeStepKeeps | src/gallery/processing/delaunay-hatch.ts:163-169 | one merge step keeps the invariant: slots are the cell or removed, and a removed slot is a non-corner whose right-hand non-corner neighbour differs by less than the threshold |
| DelaunayHatch.MergeFoldInvariant | src/gallery/processing/delaunay-hatch.ts:160-175 | the invariant holds after every prefix of the walk |
| DelaunayHatch.MergedSlots | src/gallery/processing/delaunay-hatch.ts:163-169 | after the pass each slot is its cell or removed, the last cell always survives, and a removed cell is a non-corner whose successor is a similar non-corner (necessary condition; the exact condition is DelaunayHatch.MergedRemovesExactly) |
| DelaunayHatch.StreakCounts | src/gallery/processing/delaunay-hatch.ts:161-169 | while no comparison resets `run`, `run` grows by exactly the number of removals, and each removal happened with the old `run` below max_merge |
| DelaunayHatch.MergeStreakCapped | src/gallery/processing/delaunay-hatch.ts:161-169 | after a reset (or from the start), `run` equals the number of removals since, and a streak of n removals has n − 1 < max_merge |
| DelaunayHatch.ClearedIffRemoves | src/gallery/processing/delaunay-hatch.ts:162-173 | after any prefix of the walk, slot i is removed exactly when element i + 1 has been handled and its step removed its predecessor |
| DelaunayHatch.MergedRemovesExactly | src/gallery/processing/delaunay-hatch.ts:160-173 | slot i is removed exactly when cell i + 1 exists, both cells are non-corners, their difference is below the threshold and `run` before that step is below max_merge |
| DelaunayHatch.NoCapNoMerge | src/gallery/processing/delaunay-hatch.ts:165 | with max_merge ≤ 0, `run++ < max_merge` never holds and every cell survives |
| DelaunayHatch.MergeRowOfFour | src/gallery/processing/delaunay-hatch.ts:160-173 | a row of four cells loses exactly cell 1, and only when cells 1 and 2 are similar and max_merge > 0 (cells 0 and 3 are corners) |
| DelaunayHatch.MergedKeepsLast | src/gallery/processing/delaunay-hatch.ts:163-175 | the survivors are non-empty and end with the last cell |
| DelaunayHatch.MergedInOrder | src/gallery/processing/delaunay-hatch.ts:171-175 | the survivors are cells of the input at strictly increasing positions |
| DelaunayHatch.SurvivorsInOrder | src/gallery/processing/delaunay-hatch.ts:171-175 | filtering the removed slots keeps the remaining cells in order and loses none |
| DelaunayHatch.GridEnumerationOf | src/gallery/processing/delaunay-hatch.ts:162 | on a whole grid, the walk pairs element i with cell i |
| DelaunayHatch.Zip | src/gallery/processing/delaunay-hatch.ts:150-153 | one cell per shape; cell i holds shape i and the hue, saturation and luminance at index i |
| DelaunayHatch.Render | src/gallery/processing/delaunay-hatch.ts:155-205 | lengths out of sync draw nothing; otherwise the strokes of the triangulated survivors of the merge pass |
| DelaunayHatch.StrokesSkipLight | src/gallery/processing/delaunay-hatch.ts:193-196 | a triangle is stroked exactly when its lightness is not above the high threshold, and every stroke comes from such a triangle |
| DelaunayHatch.TriangleSpacing | src/gallery/processing/delaunay-hatch.ts:198 | a triangle of lightnesses in [0, 1] hatches at a finite spacing between 0.5 and 0.5 + horizontalSize |
| DelaunayHatch.SpacingBetween | src/gallery/processing/delaunay-hatch.ts:198 | the spacing 0.5 + l·size lies in [0.5, 0.5 + size] for l in [0, 1] |
| ColorHatch.PickLayerForHueIsChannelFromHue | src/gallery/processing/color-hatch.ts:105-107 | the layer search is the hue-range lookup on a number, and NaN or infinite hues find no layer |
| ColorHatch.PickLayerForHueCovers | src/gallery/processing/color-hatch.ts:61-72 | every hue in [0, 1] finds a layer |
| ColorHatch.PickLayerForHue | src/gallery/processing/color-hatch.ts:105-107 | no layer exactly when no layer's ranges contain the hue; a found layer is one whose ranges contain it |
| ColorHatch.IntervalFor | src/gallery/processing/color-hatch.ts:137-138 | a NaN or undefined luminance gives a NaN interval |
| ColorHatch.PlotCell | src/gallery/processing/color-hatch.ts:133-146 | after an error, or for a cell skipped for lightness, nothing changes; a non-finite interval throws `hatch45`'s "Invalid interval" before the layer is looked up; otherwise at most one plot is appended, and its interval is finite |
| ColorHatch.PlotAll | src/gallery/processing/color-hatch.ts:132-147 | at most one plot per zipped cell |
| ColorHatch.ZipOf | src/gallery/processing/color-hatch.ts:121-126 | one zipped cell per segment; cell i holds segment i and the luminance, saturation and hue at index i, undefined past the end of a shorter array |
| ColorHatch.IntervalIsScaled | src/gallery/processing/color-hatch.ts:137-138 | on finite values the interval is the floor of the luminance scaled from [0, 1] to [w/high, w/low] |
| ColorHatch.ScaleNumFin | src/gallery/processing/color-hatch.ts:137 | the JavaScript-number scale agrees with the real `scale` on finite inputs |
| ColorHatch.LayerFor | src/gallery/processing/color-hatch.ts:145 | saturated, not-too-light cells go to their hue's layer (none when the hue has none); the rest go to the other layer |
| ColorHatch.PlotAllStuck | src/gallery/processing/color-hatch.ts:140-146 | once a cell throws, either "Invalid interval" or "layer is undefined", the later cells change nothing |
| ColorHatch.ZeroWidthCellThrows | src/gallery/processing/color-hatch.ts:128-141 | a zero-width first cell gives a −Infinity interval, so `hatch45` throws and nothing is plotted |
| ColorHatch.Render | src/gallery/processing/color-hatch.ts:115-147 | lengths out of sync draw nothing; no segments throws "Not supported"; otherwise the cells are plotted in order with the first segment's width, until a non-finite interval or an undefined layer throws |
| ColorHatch.PlotAllSound | src/gallery/processing/color-hatch.ts:132-147 | every plotted cell is an unskipped input cell with its own finite interval, on its own layer |
| ColorHatch.PlotAllComplete | src/gallery/processing/color-hatch.ts:132-147 | when no error is thrown, every cell not skipped for lightness has a finite interval and is plotted on its layer |
| Color.Rgb2Hsl | src/lib/processing/Color.ts:18-47 | lightness is (max + min) / 2 on the 0–1 scale, a grey gives hue and saturation 0, and the hue lies in [0, 1) |
| Color.Rgb2HslRanges | src/processing/Color.ts:17-45 | saturation and lightness lie in [0, 1] |
| Color.HueSixths | src/lib/processing/Color.ts:32-43 | the hue before division by 6 lies in [0, 6) |
| Color.Max3 | src/lib/processing/Color.ts:23 | `Math.max` of three channels is one of them and bounds all three |
| Color.Min3 | src/lib/processing/Color.ts:24 | `Math.min` of three channels is one of them and bounds all three |
| Color.HslToRgb | src/lib/processing/Color.ts:49-74 | zero saturation gives the grey round(l·255) on all three channels |
| Color.HslToRgbRange | src/lib/processing/Color.ts:49-74 | HSL values in [0, 1] give channels in 0–255 |
| Color.GreyRoundTrip | src/lib/processing/Color.ts:18-74 | a grey converts to HSL (0, 0, c/255) and back to the same grey |
| Color.Hue2RgbBetween | src/lib/processing/Color.ts:57-64 | `hue2rgb` stays between p and q |
| Color.Hue2Rgb | src/lib/processing/Color.ts:57-64 | for t in [−1, 2] and p ≤ q, the result lies between p and q |
| Color.ChannelFromHue | src/lib/processing/Color.ts:113-121 | undefined exactly when no range contains the value; otherwise the channel of the first entry with a containing range |
| Color.HueRangeRgbCovers | src/lib/processing/Color.ts:101-121 | every hue in [0, 1] has a channel |
| Color.HueBoundaryIsRed | src/lib/processing/Color.ts:101-111 | a hue of 50/360, on the red–green boundary, goes to red because red is listed first |
| Ciede2000.SameColourIsZero | src/lib/processing/Ciede2000.ts:3-74 | the difference between a colour and itself is 0 |
| Ciede2000.Ciede2000 | src/lib/processing/Ciede2000.ts:3-74 | the difference between a colour and itself is 0 |
| Ciede2000.EqualTermsVanish | src/lib/processing/Ciede2000.ts:41-45 | equal Lab colours give ΔL′ = ΔC′ = ΔH′ = 0 |
| Ciede2000.Combine | src/lib/processing/Ciede2000.ts:67-72 | the combined difference is non-negative when the radicand is, and 0 when all three terms are 0 |
| Ciede2000.SameTermsVanish | src/lib/processing/Ciede2000.ts:41-45 | for equal colours ΔL′, ΔC′ and ΔH′ are 0 |
| Ciede2000.ZeroChroma | src/lib/processing/Ciede2000.ts:95-104 | a zero chroma gives Δh′ = 0 and mean hue h1′ + h2′ |
| Ciede2000.DhpRange | src/lib/processing/Ciede2000.ts:96-98 | for hues in [0, 360), Δh′ lies in [−180, 180], so the final `throw` is unreachable |
| Ciede2000.DhpAntisymmetric | src/lib/processing/Ciede2000.ts:93-99 | swapping the colours negates Δh′ |
| Ciede2000.Dhp | src/lib/processing/Ciede2000.ts:93-100 | a zero chroma product gives 0; for hues in [0, 360) the result lies in [−180, 180] |
| Ciede2000.AHp | src/lib/processing/Ciede2000.ts:102-109 | with non-zero chromas and hues in [0, 360), the mean hue lies in [0, 360) |
| Ciede2000.AHpSymmetricInRange | src/lib/processing/Ciede2000.ts:105-107 | with non-zero chromas the mean hue is symmetric and in [0, 360), so its `throw` is unreachable |
| Ciede2000.Hp | src/lib/processing/Ciede2000.ts:83-91 | the hue angle lies in [0, 360) |
| Ciede2000.Chroma | src/lib/processing/Ciede2000.ts:22-23 | chroma is non-negative |
| Ciede2000.StepTerms | src/lib/processing/Ciede2000.ts:22-45 | C1′, C2′ and their mean are non-negative |
| Ciede2000.HueWeight | src/lib/processing/Ciede2000.ts:54-59 | the hue weighting T is positive |
| Ciede2000.LightnessWeight | src/lib/processing/Ciede2000.ts:62 | S_L is at least 1 |
| Ciede2000.HueSpread | src/lib/processing/Ciede2000.ts:64 | S_H is at least 1 |
| Ciede2000.Pow7 | src/lib/processing/Ciede2000.ts:27 | a seventh power of a non-negative number is non-negative |
| Segments.TranslatePoints | src/geom/segment.ts:4-6 | same length, each point moved by the offset |
| Segments.TranslateLines | src/geom/segment.ts:8-15 | same length, both ends of each segment moved by the offset |
| Segments.TranslateByZero | src/geom/segment.ts:4-15 | a zero offset changes nothing |
| Segments.TranslateCompose | src/geom/segment.ts:4-15 | two translations are one by the summed offset |
| Segments.TranslateInverse | src/geom/segment.ts:8-15 | translating back by the negated offset restores the segments |
| Segments.FlipSegmentInvolution | src/geom/segment.ts:17-19 | flipping twice restores a segment |
| Segments.FlipSegment | src/geom/segment.ts:17-19 | the flipped segment starts at the old end and ends at the old start |
| Segments.FlipAlternate | src/geom/segment.ts:21-23 | even-indexed segments are reversed, odd-indexed kept |
| Segments.FlipAlternateInvolution | src/geom/segment.ts:21-23 | alternate flipping twice restores the list |
| Segments.SegmentToPoints | src/geom/segment.ts:25-27 | 2n points: start then end of each segment, in order |
| Segments.SegmentToPointsMembers | src/geom/segment.ts:25-27 | point k is an end of segment k div 2 |
| Lines.TranslatePoints | src/geom/lines.ts:3-5 | every point moves by the offset's first two components |
| Lines.TranslateLines | src/geom/lines.ts:7-12 | both ends of every line move by the offset's first two components |
| Lines.RectOffsetUsesFirstTwo | src/geom/lines.ts:3-12 | a rectangle offset translates exactly like the point of its first two components |
| Lines.FlipLineInvolution | src/geom/lines.ts:14-16 | flipping swaps the ends, and flipping twice restores the line |
| Lines.FlipAlternate | src/geom/lines.ts:18-20 | same length; an even-indexed line has its ends swapped, an odd-indexed line is kept, and a line is unchanged exactly when its index is odd or its ends coincide |
| Lines.FlipAlternateInvolution | src/geom/lines.ts:18-20 | alternate flipping twice restores the list |
| Lines.FlipLine | src/geom/lines.ts:14-16 | the flipped line starts at the old end and ends at the old start |
| Geom.MakeBox | src/lib/geom/Util.ts:8-10 | the box starts at (x, y) and spans w by h |
| Geom.SizeOfMakeBox | src/geom/factory.ts:8-27 | the size of `box(x, y, w, h)` is (w, h) |
| Geom.CornersOfMakeBox | src/lib/geom/Util.ts:16-23 | the top-left corner is (x, y) and the bottom-right corner is (x + w, y + h) |
| Geom.SizeOf | src/lib/geom/Util.ts:25-35 | any other shape throws "Not supported"; otherwise the extent of the shape's bounding box, non-negative for polygons and circles |
| Geom.MinX | src/lib/geom/Util.ts:29 | a polygon box's xmin is a vertex x that bounds every vertex |
| Geom.MaxX | src/lib/geom/Util.ts:29 | a polygon box's xmax is a vertex x that bounds every vertex |
| Geom.MinY | src/lib/geom/Util.ts:29 | a polygon box's ymin is a vertex y that bounds every vertex |
| Geom.MaxY | src/lib/geom/Util.ts:29 | a polygon box's ymax is a vertex y that bounds every vertex |
| Geom.PolygonInsideBounds | src/lib/geom/Util.ts:28-29 | every polygon vertex lies in the polygon's box |
| Geom.MaxDimensionLength | src/lib/geom/Util.ts:49-52 | the larger of the width and height |
| Geom.ScaleAtMinIn | src/lib/geom/Util.ts:45-47 | `scale` sends minIn to minOut |
| Geom.ScaleAffine | src/geom/math.ts:5-7 | `scale` preserves affine combinations |
| Geom.ScaleMissesMaxOut | src/lib/geom/Util.ts:45-47 | as written, scale(1, 0, 1, 2, 4) is 3.5, not maxOut |
| Geom.Scale | src/lib/geom/Util.ts:45-47 | `scale` sends minIn to minOut |
| Geom.ToRadians | src/lib/geom/Util.ts:41-43 | 180 degrees is π radians and 0 degrees is 0 |
| Sizes.InchesToPixels | src/const/sizes.ts:21-23 | the floor of inches × dpi |
| Sizes.MillimetersRoundTrip | src/const/sizes.ts:25-31 | millimetres converted from inches give the same pixels as the inches |
| Sizes.InchesToPixelsMonotone | src/const/sizes.ts:21-23 | more inches never give fewer pixels |
| Sizes.CreateCanvasSize | src/const/sizes.ts:33-43 | inches kept, millimetres ×25.4, pixels the floor at 96 dpi, the viewBox from 0,0 to the pixels, and the ratio width / height |
| Sizes.LandscapeIsTurnedPortrait | src/const/sizes.ts:14-19 | landscape is portrait with the sides swapped, and the two ratios are reciprocal |
| Sizes.PapersArePortrait | src/const/sizes.ts:45-50 | every paper's portrait is no wider than tall, and its landscape no taller than wide |
| Sizes.MillimetersToPixels | src/const/sizes.ts:25-27 | the pixel count is the floor of millimetres / 25.4 × dpi |
| Sizes.CreatePageSize | src/const/sizes.ts:14-19 | portrait measures width × height inches and landscape height × width |
| Config.Check | src/config/Config.ts:71-98 | a number or range property fails with min-above-max exactly when min > max; a number property passes exactly when its bounds, where both are given, satisfy min ≤ max and its default, where given, is not below min nor above max; below-min is reported before above-max; a range passes exactly when min ≤ max; other kinds always pass |
| Config.MakeRenderConfig | src/config/Config.ts:68-102 | the configuration is returned unchanged exactly when every property passes; otherwise the error names the first failing property |
| Config.DefaultWithinBounds | src/config/Config.ts:121-127 | a valid number property's default lies within its bounds |
| Config.FalsyDefaults | src/config/Config.ts:117-139 | falsy defaults fall back: false, the midpoint of the bounds, the bounds pair, "", the first predefined image, or the first choice record |
| Config.DefaultFor | src/config/Config.ts:117-139 | the fall-back default has the property's kind: a boolean, a number, a pair, a string, or for a choice a string, a choice record or undefined |
| Config.Keys | src/config/Config.ts:104-115 | the keys are exactly the properties' names |
| Config.GetDefaultConfiguration | src/config/Config.ts:104-115 | one entry per property key: the initial value when present, otherwise the property's default |
| RandomContextModel.RoundMeaning | src/renderers/context/RandomContext.ts:55-65 | no rounding and 0 are kept; floor, ceil and round give an integer within 1 (round within ½) of the value |
| RandomContextModel.Round | src/renderers/context/RandomContext.ts:55-65 | 0 or no rounding keeps the value; floor gives r ≤ x < r + 1; ceil gives r − 1 < x ≤ r |
| RandomContextModel.BetweenWithin | src/renderers/context/RandomContext.ts:34 | a sample in [0, 1) lands in [min, max], strictly below max when min < max |
| RandomContextModel.BetweenDegenerate | src/renderers/context/RandomContext.ts:34 | with min = max the result is min, rounded |
| RandomContextModel.TupleFormIsPlainForm | src/renderers/context/RandomContext.ts:20-32 | `between([lo, hi], rounding)` means `between(lo, hi, rounding)`; a tuple ignores the third argument; a plain minimum without a numeric maximum is illegal |
| RandomContextModel.RandomContext.constructor | src/renderers/context/RandomContext.ts:9-11 | a fresh context has drawn nothing from its stream |
| RandomContextModel.RandomContext.Next | src/renderers/context/RandomContext.ts:13-15 | draws the next sample and rounds it |
| RandomContextModel.RandomContext.Between | src/renderers/context/RandomContext.ts:20-35 | illegal arguments throw without drawing; otherwise one sample interpolated between the bounds and rounded |
| RandomContextModel.RandomContext.Upto | src/renderers/context/RandomContext.ts:37-39 | between 0 and max with one sample |
| RandomContextModel.RandomContext.PointBetween | src/renderers/context/RandomContext.ts:41-46 | x from the next sample and y from the one after |
| RandomContextModel.RandomContext.PointUpto | src/renderers/context/RandomContext.ts:48-53 | x then y from 0, two samples |
| RenderContextModel.RangeValues | src/renderers/context/RenderContext.ts:19-28 | the range has as many terms as start + k·step that do not pass end |
| RenderContextModel.RangeCountSpec | src/renderers/context/RenderContext.ts:19-28 | term k is within the range exactly when k is below the count |
| RenderContextModel.RangeValuesMeaning | src/renderers/context/RenderContext.ts:19-28 | empty exactly when start > end; starts at start, never passes end, steps by step, and the next term would pass end |
| RenderContextModel.Clamp | src/renderers/context/RenderContext.ts:46-52 | never below the padding, not above length − padding when that is consistent, and a value already inside is kept |
| RenderContextModel.SegmentAdjustment | src/renderers/context/RenderContext.ts:107-109 | start 0, center half the cell, end the whole cell, always inside a non-negative cell |
| RenderContextModel.SegmentPoints | src/renderers/context/RenderContext.ts:62-78 | horizontal × vertical grid points |
| RenderContextModel.SegmentPointAt | src/renderers/context/RenderContext.ts:64-75 | point x·vertical + y is (x·hSize + adjust, y·vSize + adjust), with vSize = height / horizontal as written |
| RenderContextModel.SegmentGrid | src/renderers/context/RenderContext.ts:69-75 | the nested loop pushes exactly the grid points |
| RenderContextModel.DimensionValues | src/renderers/context/RenderContext.ts:94-105 | count positions along the side |
| RenderContextModel.DimensionValuesMeaning | src/renderers/context/RenderContext.ts:94-105 | positions are length / count apart and lie on the side |
| RenderContextModel.DimensionOnSide | src/renderers/context/RenderContext.ts:99-102 | each adjusted position lies within the side |
| RenderContextModel.DimensionWalk | src/renderers/context/RenderContext.ts:99-102 | the loop pushes exactly the dimension positions |
| RenderContextModel.RenderContext.constructor | src/renderers/context/RenderContext.ts:9-17 | holds its sizes, seed, blend mode and configuration, and a fresh random context on the seed's stream |
| RenderContextModel.RenderContext.Range | src/renderers/context/RenderContext.ts:19-28 | the loop returns exactly the range |
| RenderContextModel.RenderContext.ClampPoint | src/renderers/context/RenderContext.ts:54-56 | both coordinates clamped into the padded canvas, and a point already inside is kept |
| RenderContextModel.RenderContext.ClampHorizontal | src/renderers/context/RenderContext.ts:50-52 | never left of the padding, not right of width − padding when that is consistent, and an x already inside is kept |
| RenderContextModel.RenderContext.ClampVertical | src/renderers/context/RenderContext.ts:46-48 | never above the padding, not below height − padding when that is consistent, and a y already inside is kept |
| RenderContextModel.RenderContext.Segment | src/renderers/context/RenderContext.ts:62-78 | the grid points of the canvas |
| RenderContextModel.RenderContext.SegmentAspectRatio | src/renderers/context/RenderContext.ts:80-92 | the grid points for the counts the aspect rule picks |
| RenderContextModel.RenderContext.SegmentDimension | src/renderers/context/RenderContext.ts:94-105 | the positions along the chosen side |
| DrawContextModel.RandomDrawContext.constructor | src/context.ts:10-12 | a fresh generator has drawn nothing |
| DrawContextModel.RandomDrawContext.Next | src/context.ts:14-16 | draws one sample and rounds it |
| DrawContextModel.RandomDrawContext.Between | src/context.ts:18-20 | one sample interpolated between min and max and rounded |
| DrawContextModel.RandomDrawContext.Upto | src/context.ts:22-24 | between 0 and max |
| DrawContextModel.RandomDrawContext.PointBetween | src/context.ts:26-31 | x from the next sample and y from the one after |
| DrawContextModel.RandomDrawContext.PointUpto | src/context.ts:33-38 | x then y from 0 |
| DrawContextModel.RenderContext.constructor | src/context.ts:60-66 | holds its sizes and seed, numbers layers from 0, and has a fresh generator |
| DrawContextModel.RenderContext.Range | src/context.ts:68-77 | the loop returns exactly the range |
| DrawContextModel.RenderContext.AppendLayer | src/context.ts:91-99 | the layer gets the current index and the counter moves on by one |
| DrawContextModel.RenderContext.Segment | src/context.ts:106-122 | the grid points of the canvas |
| DrawContextModel.RenderContext.SegmentAspectRatio | src/context.ts:124-136 | the grid points for the counts the aspect rule picks |
| DrawContextModel.RenderContext.SegmentDimension | src/context.ts:138-149 | the positions along the chosen side |
| Paths.Split | src/components/GalleryIndex.tsx:12 | `split("/")` gives at least one piece and no piece holds a separator |
| Paths.JoinSplit | src/components/GalleryIndex.tsx:12-22 | joining the pieces of a split gives back the string |
| Paths.SplitJoin | src/gallery/index.ts:16 | splitting a join of separator-free pieces gives back the pieces |
| Paths.Remove | src/components/GalleryIndex.tsx:12 | a piece is in the result exactly when it is in the input and is not dropped |
| Paths.RemoveCounts | src/components/GalleryIndex.tsx:12 | a kept piece occurs as often as in the input, a dropped one not at all |
| Paths.RemoveAppend | src/components/GalleryIndex.tsx:12 | filtering a concatenation is the concatenation of the filtered parts, so the order is kept |
| Paths.Join | src/gallery/index.ts:16 | the first piece starts the joined string, and one piece joins to itself |
| GalleryIndex.ListToGroups | src/components/GalleryIndex.tsx:9-30 | the reduction returns exactly the specified groups |
| GalleryIndex.FilePath | src/components/GalleryIndex.tsx:16-27 | filing one more path keeps the accumulator in step with the specified grouping |
| GalleryIndex.FileExisting | src/components/GalleryIndex.tsx:21-24 | a path whose key already has a group joins the end of that group's children, and the accumulator matches the grouping of the longer list |
| GalleryIndex.FileNew | src/components/GalleryIndex.tsx:17-24 | a path with a new key opens a group named after its root that holds just its item, and the key joins the creation order at the end |
| GalleryIndex.FiledValues | src/components/GalleryIndex.tsx:29 | the values, in key order, are the groups |
| GalleryIndex.KeysExact | src/components/GalleryIndex.tsx:17-19 | group keys are distinct and are exactly the keys of the listed paths |
| GalleryIndex.ItemsForExact | src/components/GalleryIndex.tsx:21-24 | a group holds exactly the items of the paths with its key |
| GalleryIndex.TotalChildren | src/components/GalleryIndex.tsx:21-25 | the groups together hold one item per listed path |
| GalleryIndex.PlainPathItem | src/components/GalleryIndex.tsx:11-23 | a path of two or more pieces, none of them ".", files under its first piece, and its link is "/a/" followed by the path |
| GalleryIndex.NoDotsKept | src/components/GalleryIndex.tsx:12 | filtering "." from pieces that hold none changes nothing |
| GalleryIndex.KeysAppend | src/components/GalleryIndex.tsx:17-19 | a new path adds its key at the end only when the key is new |
| GalleryIndex.ItemsForOther | src/components/GalleryIndex.tsx:16-27 | a new path adds its item to its own group only, and a new group takes the path's root as its name |
| GalleryIndex.AbsentKeyEmpty | src/components/GalleryIndex.tsx:16-27 | a key no path has owns no items and no name |
| Gallery.BuildLookupFromImports | src/gallery/index.ts:45-61 | the reduction over imports and exports returns exactly the specified lookup |
| Gallery.LookupWellFormed | src/gallery/index.ts:53-57 | the lookup's key list matches its map, each key once |
| Gallery.LookupLastWins | src/gallery/index.ts:53-57 | a path is a key exactly when some object export with a non-empty path carries it, and it maps to the last such export |
| Gallery.GetGalleryIndex | src/gallery/index.ts:41-43 | the index lists every key once, and nothing else |
| Gallery.NormalizeStaysLocal | src/gallery/index.ts:26 | the normalised specifier splits into "." and the kept pieces, never ".." |
| Gallery.Normalize | src/gallery/index.ts:26 | the specifier is non-empty and starts with "." |
| Gallery.QuotedMessageMatches | src/gallery/index.ts:31-34 | a message quoting the specifier matches it as a pattern |
| Gallery.LoadLocalArtwork | src/gallery/index.ts:25-39 | a loaded module gives its default export (absent when it has none); a throw gives not-found exactly when it is an Error whose message matches the specifier, and is otherwise rethrown with its error flag and message; the index is never consulted |
| Gallery.GetArtworkRenderer | src/gallery/index.ts:15-23 | a known path gives its indexed artwork; only an unknown path loads a local module |
| Gallery.MissingModuleNotFound | src/gallery/index.ts:31-37 | a load error quoting the specifier resolves to not-found |

## Left out

- Hatch45.Hatch: requires box coordinates that are not ±Infinity. The code accepts them, but the walk would need IEEE infinite arithmetic. A NaN coordinate is modelled and rejected.
- Hatch45.CrossHatch: requires non-infinite box coordinates, for the same reason.
- DelaunayHatch.Render: requires equal hue, saturation and luminance lengths, and a segmentation of whole rows (shape count a multiple of the horizontal count). The triangulator is a parameter that returns whole, valid index triples.
- DelaunayHatch.Render: a triangle whose hue no channel claims makes the code throw at `layer.layer`. The model records that stroke with no layer and goes on.
- DelaunayHatch.Render: the hatch fill of each triangle is not modelled. That fill is `hatch` at a random angle from `between([45, 200])`. A stroke is the triangle's polygon, spacing and layer.
- DelaunayHatch.MergePass: requires a segmentation of whole rows, as the segmenting code produces.
- DelaunayHatch.Zip: requires equal lengths, which Render guarantees before zipping.
- Config.GetDefaultConfiguration: requires distinct property names, as the keys of an object literal are.
- RenderContextModel.RenderContext.Range: requires a positive step. With a step of 0 or less and start ≤ end, the code loops forever.
- DrawContextModel.RenderContext.Range: requires a positive step, for the same reason.
- Enumerate.Enumerate2d: requires a width of at least 1 when the list is not empty. With a width of 0 or less and a non-empty list, `y += w` never reaches the length and the generator loops forever. The width is a natural number, so negative and fractional widths are not modelled.
- Enumerate.FlatTo2d: requires a width of at least 1 when the list is not empty, for the same reason; negative and fractional widths are not modelled.
- RenderContextModel.RenderContext.SegmentAspectRatio: requires non-negative pixel counts, which canvas sizes have.
- DrawContextModel.RenderContext.SegmentAspectRatio: requires non-negative pixel counts.
- Gallery.NormalizeStaysLocal: requires route pieces without "/", which is what a router split produces.
- ArrayStats.AverageOf: states when the result is NaN. Its value on a non-empty array is stated by ArrayStats.AverageOfBetween and Aggregation.AvgIsAverageOf, not by its own contract.
- The grid methods (`aggregateChunksFlat` and `aggregateChunksAspectRatioFlat`, with their `.map` callback) are modelled only with the key the code computes. With the corrected key, each cell's value is `AggregateChunkOwnKey` on that cell, which is `Aggregation.CellValue`.
- Floating point: numbers are reals. Rounding error, overflow and signed zero are not modelled.
- JavaScript special values are modelled only where the code depends on them (`Js.Num`).
- The seeded generator (`seedrandom`) is not modelled. Its output is a stream of samples in [0, 1).
- flatten-js rotation, intersection, point ordering and containing circles are not modelled. They are a supplied oracle. Only the containing box's covering of the shape is stated.
- Delaunator is not modelled. Its triangle index stream is an argument.
- `rgb2Luminance` is a parameter of the aggregations.
- The square roots, trigonometry, exponentials and the `rgb2lab` conversion inside CIEDE2000 go through the `MathOracle`. Their numeric values are not modelled.
- The Lab conversion `rgb2lab` and `hsl2Lab` are not modelled beyond the oracle.
- `Object.values` and `Object.keys` list integer-like keys first in JavaScript. The model keeps plain insertion order. Keys named like `Object.prototype` members are not special.
- Gallery.RegexTest: treats every pattern character except "." as a literal. Other regular-expression metacharacters in a specifier are not modelled.
- The `!exports` guard of `buildLookupFromImports` is not modelled: an import is a list of exports, never null.
- `require()` is the `load` parameter. Module resolution and the file system are not modelled.
- Not modelled: React components, DOM and SVG building, d3 selections, canvas creation, image loading, asynchronous setup, and writing strokes to the plotter. The artworks return the strokes they would draw.
- Drawing color-hatch's `flipAlternate(translateLines(hatch45(...)))` per cell is reduced to a plan of the cell's interval and layer. The hatch itself is modelled by Hatch45.
- ColorHatch.PlotCell: keeps `hatch45`'s rejection of a non-finite interval, which ends `render`. The error is the fixed text "Invalid interval"; the interval value that the thrown message also carries is not modelled.
- `getColor`, the canvas getters (`size`, `bounds`, `center` and the like) and `recreateLayer` are not modelled. They only forward to modelled members.
- `luminanceX`, `identityMatrix`, `size` and `point` are not modelled. They are one-line constructors or formulas that nothing proved here depends on.

## Findings

| source | as written | input that shows it | evidently intended | confidence | as-written member | corrected member |
|---|---|---|---|---|---|---|
| src/lib/processing/CanvasContext.ts:166 (also src/processing/OffscreenCanvasContext.ts:166) | the memo key is `new Uint32Array(v.buffer)[0]`; every pixel view shares the chunk's buffer, so the key is always the chunk's first word | a chunk whose buffer is [0, 1], with an accessor returning the red byte: the second pixel gets 0 instead of 1 | key each pixel by its own 32-bit word, so that equal keys mean equal pixels | not executed | Aggregation.MapViewsAsWritten, Aggregation.AsWrittenKeyMergesPixels, Aggregation.AsWrittenCellIsTopLeft, CanvasCtx.CanvasContext.AggregateChunksFlat | Aggregation.MapViews, CanvasCtx.CanvasContext.AggregateChunkOwnKey |
| src/lib/geom/Enumerate.ts:42-44 | `enumerateSegments` is a generator function that `return`s the inner iterator, so iterating it yields nothing | any segmentation with at least one shape and a horizontal count of at least 1 | delegate with `yield*`, yielding the grid walk of the shapes | not executed | Enumerate.EnumerateSegmentsAsWritten, Enumerate.EnumerateSegmentsAsWrittenLosesCells | Enumerate.EnumerateSegments |
