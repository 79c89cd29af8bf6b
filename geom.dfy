/**
 * Geometry primitives and the expression helpers of src/lib/geom/Util.ts, which
 * src/geom/factory.ts and src/geom/math.ts repeat verbatim.
 * flatten-js shapes become a tagged variant; a polygon's bounding box is the
 * min/max of its vertices (straight edges only).
 */
module Geom {
  import opened Wrappers

  /** `Math.PI` as the literal JavaScript prints. */
  const PI: real := 3.141592653589793

  datatype Point = Point(x: real, y: real)
  datatype Segment = Segment(start: Point, end: Point)
  datatype Size = Size(w: real, h: real)
  datatype Box = Box(xmin: real, ymin: real, xmax: real, ymax: real)
  datatype Shape =
    | BoxShape(box: Box)
    | CircleShape(center: Point, r: real)
    | PolygonShape(vertices: seq<Point>)
    | OtherShape

  datatype Corner = TopLeft | BottomRight

  /** A shape whose bounding box flatten-js can compute (a polygon needs a vertex). */
  predicate HasBounds(s: Shape) {
    !s.OtherShape? && (s.PolygonShape? ==> |s.vertices| > 0)
  }

  /** `box(x, y, w, h)`. */
  function MakeBox(x: real, y: real, w: real, h: real): (b: Box)
    ensures b.xmin == x && b.ymin == y
    ensures b.xmax - b.xmin == w && b.ymax - b.ymin == h
  {
    Box(x, y, x + w, y + h)
  }

  /** `pointFromBox(box, location)`. */
  function PointFromBox(b: Box, at: Corner): Point {
    match at
    case TopLeft => Point(b.xmin, b.ymin)
    case BottomRight => Point(b.xmax, b.ymax)
  }

  function MinX(vs: seq<Point>): (m: real)
    requires |vs| > 0
    ensures forall i :: 0 <= i < |vs| ==> m <= vs[i].x
    ensures exists i :: 0 <= i < |vs| && m == vs[i].x
  {
    if |vs| == 1 then vs[0].x
    else
      var rest := MinX(vs[1..]);
      assert forall i :: 1 <= i < |vs| ==> vs[i] == vs[1..][i - 1];
      if vs[0].x <= rest then vs[0].x else rest
  }

  function MaxX(vs: seq<Point>): (m: real)
    requires |vs| > 0
    ensures forall i :: 0 <= i < |vs| ==> vs[i].x <= m
    ensures exists i :: 0 <= i < |vs| && m == vs[i].x
  {
    if |vs| == 1 then vs[0].x
    else
      var rest := MaxX(vs[1..]);
      assert forall i :: 1 <= i < |vs| ==> vs[i] == vs[1..][i - 1];
      if vs[0].x >= rest then vs[0].x else rest
  }

  function MinY(vs: seq<Point>): (m: real)
    requires |vs| > 0
    ensures forall i :: 0 <= i < |vs| ==> m <= vs[i].y
    ensures exists i :: 0 <= i < |vs| && m == vs[i].y
  {
    if |vs| == 1 then vs[0].y
    else
      var rest := MinY(vs[1..]);
      assert forall i :: 1 <= i < |vs| ==> vs[i] == vs[1..][i - 1];
      if vs[0].y <= rest then vs[0].y else rest
  }

  function MaxY(vs: seq<Point>): (m: real)
    requires |vs| > 0
    ensures forall i :: 0 <= i < |vs| ==> vs[i].y <= m
    ensures exists i :: 0 <= i < |vs| && m == vs[i].y
  {
    if |vs| == 1 then vs[0].y
    else
      var rest := MaxY(vs[1..]);
      assert forall i :: 1 <= i < |vs| ==> vs[i] == vs[1..][i - 1];
      if vs[0].y >= rest then vs[0].y else rest
  }

  /** flatten-js `shape.box`: the axis-aligned bounding box. */
  function BoundsOf(s: Shape): Box
    requires HasBounds(s)
  {
    match s
    case BoxShape(b) => b
    case CircleShape(c, r) => Box(c.x - r, c.y - r, c.x + r, c.y + r)
    case PolygonShape(vs) => Box(MinX(vs), MinY(vs), MaxX(vs), MaxY(vs))
  }

  function Center(b: Box): Point {
    Point((b.xmin + b.xmax) / 2.0, (b.ymin + b.ymax) / 2.0)
  }

  /** Recursion measure for `sizeOf`: a box is measured directly, the others through their box. */
  function ShapeRank(s: Shape): nat {
    if s.BoxShape? then 0 else 1
  }

  /**
   * `sizeOf(shape)`: a box's extent; a polygon or circle is measured through its
   * bounding box; any other shape throws "Not supported".
   */
  function SizeOf(s: Shape): (r: Result<Size, string>)
    requires s.PolygonShape? ==> |s.vertices| > 0
    ensures r.Failure? <==> s.OtherShape?
    ensures r.Failure? ==> r.error == "Not supported"
    ensures r.Success? ==> r.value == Size(BoundsOf(s).xmax - BoundsOf(s).xmin, BoundsOf(s).ymax - BoundsOf(s).ymin)
    ensures r.Success? && !s.BoxShape? && (s.CircleShape? ==> s.r >= 0.0) ==> r.value.w >= 0.0 && r.value.h >= 0.0
    decreases ShapeRank(s)
  {
    match s
    case BoxShape(b) => Success(Size(b.xmax - b.xmin, b.ymax - b.ymin))
    case PolygonShape(_) => SizeOf(BoxShape(BoundsOf(s)))
    case CircleShape(_, _) => SizeOf(BoxShape(BoundsOf(s)))
    case OtherShape => Failure("Not supported")
  }

  /**
   * `scale(value, minIn, maxIn, minOut, maxOut)`, exactly as written: the result is
   * `minOut + (maxOut - maxIn) * ((value - minIn) / (minOut - minIn))`, which is
   * not the usual linear map from [minIn, maxIn] onto [minOut, maxOut].
   */
  function Scale(value: real, minIn: real, maxIn: real, minOut: real, maxOut: real): (r: real)
    requires minOut != minIn
    ensures value == minIn ==> r == minOut
  {
    minOut + (maxOut - maxIn) * ((value - minIn) / (minOut - minIn))
  }

  /** `maxDimensionLength(shape)`: the larger side of the shape's size. */
  function MaxDimensionLength(s: Shape): (m: real)
    requires HasBounds(s)
    ensures SizeOf(s).Success?
    ensures m == SizeOf(s).value.w || m == SizeOf(s).value.h
    ensures m >= SizeOf(s).value.w && m >= SizeOf(s).value.h
  {
    var sz := SizeOf(s).value;
    if sz.w >= sz.h then sz.w else sz.h
  }

  /** `toRadians(degrees)`. */
  function ToRadians(degrees: real): (r: real)
    ensures degrees == 180.0 ==> r == PI
    ensures degrees == 0.0 ==> r == 0.0
  {
    (PI / 180.0) * degrees
  }

  // ---- properties ----

  /** `sizeOf(box(x, y, w, h))` gives back `(w, h)`. */
  lemma SizeOfMakeBox(x: real, y: real, w: real, h: real)
    ensures SizeOf(BoxShape(MakeBox(x, y, w, h))) == Success(Size(w, h))
  {
  }

  /** The two corners of `box(x, y, w, h)`. */
  lemma CornersOfMakeBox(x: real, y: real, w: real, h: real)
    ensures PointFromBox(MakeBox(x, y, w, h), TopLeft) == Point(x, y)
    ensures PointFromBox(MakeBox(x, y, w, h), BottomRight) == Point(x + w, y + h)
  {
  }

  /** Every vertex of a polygon lies inside its bounding box. */
  lemma PolygonInsideBounds(vs: seq<Point>, i: int)
    requires 0 <= i < |vs|
    ensures var b := BoundsOf(PolygonShape(vs));
      b.xmin <= vs[i].x <= b.xmax && b.ymin <= vs[i].y <= b.ymax
  {
  }

  /** `scale` maps `minIn` to `minOut`. */
  lemma ScaleAtMinIn(minIn: real, maxIn: real, minOut: real, maxOut: real)
    requires minOut != minIn
    ensures Scale(minIn, minIn, maxIn, minOut, maxOut) == minOut
  {
  }

  /** `scale` is affine in `value`: it preserves weighted means of two inputs. */
  lemma ScaleAffine(v1: real, v2: real, t: real, minIn: real, maxIn: real, minOut: real, maxOut: real)
    requires minOut != minIn
    ensures Scale(t * v1 + (1.0 - t) * v2, minIn, maxIn, minOut, maxOut)
         == t * Scale(v1, minIn, maxIn, minOut, maxOut) + (1.0 - t) * Scale(v2, minIn, maxIn, minOut, maxOut)
  {
    var k := (maxOut - maxIn) / (minOut - minIn);
    assert forall v :: Scale(v, minIn, maxIn, minOut, maxOut) == minOut + k * (v - minIn);
  }

  /** As written, `scale` need not map `maxIn` to `maxOut`: scale(1, 0, 1, 2, 4) is 3.5. */
  lemma ScaleMissesMaxOut()
    ensures Scale(1.0, 0.0, 1.0, 2.0, 4.0) == 3.5
  {
  }
}
