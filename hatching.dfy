/**
 * `hatch` and `crossHatch` of src/lib/geom/Hatching.ts: vertical scan lines
 * across a box that encloses the shape's bounding circle are rotated about the
 * shape's centre, intersected with the shape, and the crossing points are
 * paired into hatch segments. flatten-js's rotation, intersection and point
 * order are an oracle.
 */
module Hatching {
  import opened Wrappers
  import opened Geom
  import Segments
  import Js

  /** `MAX_ITER`: the scan loop stops once it holds more than this many lines. */
  const MAX_ITER: nat := 10000
  /** `MIN_INTERVAL`. */
  const MIN_INTERVAL: real := 1.0

  /** flatten-js: `segment.rotate(angle, center)`, `shape.intersect(segment)` and `point.lessThan(other)`. */
  datatype Oracle = Oracle(
    rotate: (Segment, real, Point) -> Segment,
    intersect: (Shape, Segment) -> seq<Point>,
    lessThan: (Point, Point) -> bool)

  /** The interval actually used: `Math.max(interval, MIN_INTERVAL)`. */
  function EffectiveInterval(interval: Js.Num): (iv: Js.Num)
    requires !interval.Undefined? && !interval.NaN?
    ensures iv.PosInf? || (iv.Fin? && iv.v >= MIN_INTERVAL)
    ensures interval.Fin? && interval.v >= MIN_INTERVAL ==> iv == interval
  {
    Js.Max(interval, MIN_INTERVAL)
  }

  /**
   * The box of the circle centred on the shape's box whose radius is the box's
   * longer side divided by `PI / 2`.
   */
  function ContainingBounds(b: Box): Box {
    var c := Center(b);
    var r := MaxDimensionLength(BoxShape(b)) / (PI / 2.0);
    Box(c.x - r, c.y - r, c.x + r, c.y + r)
  }

  /** The containing bounds enclose the shape's own box. */
  lemma ContainingBoundsCover(b: Box)
    requires b.xmin <= b.xmax && b.ymin <= b.ymax
    ensures var cb := ContainingBounds(b);
      cb.xmin <= b.xmin && b.xmax <= cb.xmax && cb.ymin <= b.ymin && b.ymax <= cb.ymax
  {
    var m := MaxDimensionLength(BoxShape(b));
    var r := m / (PI / 2.0);
    assert m >= b.xmax - b.xmin && m >= b.ymax - b.ymin;
    assert r >= m / 2.0;
  }

  /** The vertical line at `x` from the top to the bottom of `b`. */
  function Vertical(x: real, b: Box): Segment {
    Segment(Point(x, b.ymin), Point(x, b.ymax))
  }

  // ---- scan lines ----

  /** `x += interval` from a finite position: finite for a finite interval, +Infinity otherwise. */
  function Advance(x: real, iv: Js.Num): Js.Num
    requires iv.PosInf? || iv.Fin?
  {
    if iv.Fin? then Js.Fin(x + iv.v) else Js.PosInf
  }

  /** `Advance` is JavaScript's `+` on such operands. */
  lemma AdvanceIsAdd(x: real, iv: Js.Num)
    requires iv.PosInf? || iv.Fin?
    ensures Advance(x, iv) == Js.Add(Js.Fin(x), iv)
    ensures Advance(x, iv).Fin? <==> iv.Fin?
  {
  }

  /** The scan lines from position `x` on, with room for `room` more. */
  function ScanFrom(x: Js.Num, b: Box, iv: Js.Num, room: nat): seq<Segment>
    requires iv.PosInf? || iv.Fin?
    decreases room
  {
    if room == 0 || !(x.Fin? && x.v < b.xmax) then []
    else [Vertical(x.v, b)] + ScanFrom(Advance(x.v, iv), b, iv, room - 1)
  }

  /** One turn of the scan loop: the line at `x` moves from the pending lines to the emitted ones. */
  lemma ScanNext(before: seq<Segment>, x: Js.Num, next: Js.Num, b: Box, iv: Js.Num, total: seq<Segment>)
    requires iv.PosInf? || iv.Fin?
    requires x.Fin? && x.v < b.xmax && |before| < MAX_ITER && next == Advance(x.v, iv)
    requires before + ScanFrom(x, b, iv, MAX_ITER + 1 - |before|) == total
    ensures (before + [Vertical(x.v, b)]) + ScanFrom(next, b, iv, MAX_ITER + 1 - |before + [Vertical(x.v, b)]|) == total
  {
  }

  /** The turn that brings the loop past `MAX_ITER` lines emits the last pending line. */
  lemma ScanLast(before: seq<Segment>, x: Js.Num, b: Box, iv: Js.Num, total: seq<Segment>)
    requires iv.PosInf? || iv.Fin?
    requires x.Fin? && x.v < b.xmax && |before| == MAX_ITER
    requires before + ScanFrom(x, b, iv, MAX_ITER + 1 - |before|) == total
    ensures before + [Vertical(x.v, b)] == total
  {
  }

  /** The update `x += interval` of the scan loop. */
  method StepX(x: Js.Num, iv: Js.Num) returns (next: Js.Num)
    requires x.Fin? && (iv.PosInf? || iv.Fin?)
    ensures next == Advance(x.v, iv) && (next.Fin? || next.PosInf?)
  {
    AdvanceIsAdd(x.v, iv);
    next := Js.Add(x, iv);
  }

  /** All scan lines across `b`: the loop may hold `MAX_ITER + 1` lines before it breaks. */
  function ScanLines(b: Box, iv: Js.Num): (r: seq<Segment>)
    requires iv.PosInf? || iv.Fin?
    ensures |r| <= MAX_ITER + 1
  {
    ScanFromBound(Js.Fin(b.xmin), b, iv, MAX_ITER + 1);
    ScanFrom(Js.Fin(b.xmin), b, iv, MAX_ITER + 1)
  }

  /** The scan `for` loop of `hatch`. */
  method Scan(b: Box, iv: Js.Num) returns (segments: seq<Segment>)
    requires iv.PosInf? || (iv.Fin? && iv.v >= MIN_INTERVAL)
    ensures segments == ScanLines(b, iv)
  {
    segments := [];
    var x := Js.Fin(b.xmin);
    ghost var total := ScanLines(b, iv);
    assert segments + ScanFrom(x, b, iv, MAX_ITER + 1) == total;
    while Js.Lt(x, b.xmax)
      invariant x.Fin? || x.PosInf?
      invariant |segments| <= MAX_ITER
      invariant segments + ScanFrom(x, b, iv, MAX_ITER + 1 - |segments|) == total
      decreases MAX_ITER + 1 - |segments|
    {
      var stop;
      segments, x, stop := ScanTurn(segments, x, b, iv, total);
      if stop {
        return;
      }
    }
    assert ScanFrom(x, b, iv, MAX_ITER + 1 - |segments|) == [];
  }

  /**
   * One turn of the scan loop: the line at `x` is pushed, then the loop breaks
   * once it holds more than `MAX_ITER` lines, or `x` moves on by the interval.
   */
  method ScanTurn(segments: seq<Segment>, x: Js.Num, b: Box, iv: Js.Num, ghost total: seq<Segment>)
    returns (segments': seq<Segment>, x': Js.Num, stop: bool)
    requires iv.PosInf? || iv.Fin?
    requires x.Fin? && x.v < b.xmax && |segments| <= MAX_ITER
    requires segments + ScanFrom(x, b, iv, MAX_ITER + 1 - |segments|) == total
    ensures |segments'| == |segments| + 1
    ensures stop ==> segments' == total
    ensures !stop ==> (x'.Fin? || x'.PosInf?) && |segments'| <= MAX_ITER
    ensures !stop ==> segments' + ScanFrom(x', b, iv, MAX_ITER + 1 - |segments'|) == total
  {
    segments' := segments + [Vertical(x.v, b)];
    x' := x;
    stop := |segments'| > MAX_ITER;
    if stop {
      ScanLast(segments, x, b, iv, total);
      return;
    }
    x' := StepX(x, iv);
    ScanNext(segments, x, x', b, iv, total);
  }

  /** Scan positions for a finite interval: `x0`, `x0 + v`, `x0 + 2 v`, ... (`XAtIsLinear`: `x0 + k * v`). */
  function XAt(x0: real, v: real, k: nat): real {
    if k == 0 then x0 else XAt(x0, v, k - 1) + v
  }

  lemma {:induction false} XAtIsLinear(x0: real, v: real, k: nat)
    ensures XAt(x0, v, k) == x0 + (k as real) * v
  {
    if k > 0 {
      XAtIsLinear(x0, v, k - 1);
      assert (k as real) * v == ((k - 1) as real) * v + v;
    }
  }

  lemma {:induction false} ScanFromBound(x: Js.Num, b: Box, iv: Js.Num, room: nat)
    requires iv.PosInf? || iv.Fin?
    ensures |ScanFrom(x, b, iv, room)| <= room
    decreases room
  {
    if room > 0 && x.Fin? && x.v < b.xmax {
      ScanFromBound(Advance(x.v, iv), b, iv, room - 1);
    }
  }

  /** With a finite interval, line `k` sits at `x0 + k * v`, strictly left of `xmax`. */
  lemma {:induction false} ScanFromAt(x0: real, b: Box, v: real, room: nat, k: nat)
    requires k < |ScanFrom(Js.Fin(x0), b, Js.Fin(v), room)|
    ensures ScanFrom(Js.Fin(x0), b, Js.Fin(v), room)[k] == Vertical(XAt(x0, v, k), b)
    ensures XAt(x0, v, k) < b.xmax
    decreases room
  {
    if k > 0 {
      ScanFromAt(x0 + v, b, v, room - 1, k - 1);
      XAtShift(x0, v, k - 1);
    }
  }

  lemma {:induction false} XAtShift(x0: real, v: real, k: nat)
    ensures XAt(x0 + v, v, k) == XAt(x0, v, k + 1)
  {
    if k > 0 {
      XAtShift(x0, v, k - 1);
    }
  }

  /** With a finite interval the scan stops at the cap or at the first position at or past `xmax`. */
  lemma {:induction false} ScanFromEnds(x0: real, b: Box, v: real, room: nat)
    ensures var r := ScanFrom(Js.Fin(x0), b, Js.Fin(v), room);
      |r| == room || XAt(x0, v, |r|) >= b.xmax
    decreases room
  {
    if room > 0 && x0 < b.xmax {
      ScanFromEnds(x0 + v, b, v, room - 1);
      XAtShift(x0, v, |ScanFrom(Js.Fin(x0 + v), b, Js.Fin(v), room - 1)|);
    }
  }

  /**
   * The scan lines of `hatch`: at most `MAX_ITER + 1` of them; with a finite
   * interval `v` line `k` is the vertical at `xmin + k * v`, strictly left of
   * `xmax`, and the lines stop at the cap or at the first position past it.
   */
  lemma ScanLinesFinite(b: Box, v: real, k: nat)
    requires k < |ScanLines(b, Js.Fin(v))|
    ensures |ScanLines(b, Js.Fin(v))| <= MAX_ITER + 1
    ensures ScanLines(b, Js.Fin(v))[k] == Vertical(b.xmin + (k as real) * v, b)
    ensures b.xmin + (k as real) * v < b.xmax
  {
    ScanFromBound(Js.Fin(b.xmin), b, Js.Fin(v), MAX_ITER + 1);
    ScanFromAt(b.xmin, b, v, MAX_ITER + 1, k);
    XAtIsLinear(b.xmin, v, k);
  }

  lemma ScanLinesStop(b: Box, v: real)
    ensures var n := |ScanLines(b, Js.Fin(v))|;
      n == MAX_ITER + 1 || XAt(b.xmin, v, n) >= b.xmax
  {
    ScanFromEnds(b.xmin, b, v, MAX_ITER + 1);
  }

  /** An infinite interval leaves at most the line at `xmin`. */
  lemma ScanLinesInfinite(b: Box)
    ensures ScanLines(b, Js.PosInf) == if b.xmin < b.xmax then [Vertical(b.xmin, b)] else []
  {
    var r := ScanFrom(Js.PosInf, b, Js.PosInf, MAX_ITER);
    assert r == [];
  }

  // ---- pairing ----

  /** A crossing pair as a segment, started at the point that is not `lessThan` the other. */
  function Ordered(a: Point, b: Point, lessThan: (Point, Point) -> bool): Segment {
    if lessThan(a, b) then Segment(b, a) else Segment(a, b)
  }

  /** Points `(0, 1)`, `(2, 3)`, ... paired in order; a trailing odd point is dropped. */
  function Pairs(points: seq<Point>, lessThan: (Point, Point) -> bool): seq<Segment>
    decreases |points|
  {
    if |points| < 2 then [] else [Ordered(points[0], points[1], lessThan)] + Pairs(points[2..], lessThan)
  }

  /** The pairing `for` loop (step 2) inside the `map` callback of `hatch`. */
  method PairPoints(points: seq<Point>, lessThan: (Point, Point) -> bool) returns (result: seq<Segment>)
    ensures result == Pairs(points, lessThan)
  {
    result := [];
    var i := 0;
    while i < |points|
      invariant 0 <= i <= |points|
      invariant result + Pairs(points[i..], lessThan) == Pairs(points, lessThan)
    {
      if i + 1 >= |points| {
        break;
      }
      assert points[i..][2..] == points[i + 2..];
      result := result + [Ordered(points[i], points[i + 1], lessThan)];
      i := i + 2;
    }
  }

  /**
   * `Pairs` yields `floor(n / 2)` segments, segment `k` joining points `2k` and
   * `2k + 1`, started at whichever is not `lessThan` the other.
   */
  lemma {:induction false} PairsShape(points: seq<Point>, lessThan: (Point, Point) -> bool)
    ensures |Pairs(points, lessThan)| == |points| / 2
    ensures forall k :: 0 <= k < |points| / 2 ==>
      Pairs(points, lessThan)[k] == Ordered(points[2 * k], points[2 * k + 1], lessThan)
    decreases |points|
  {
    if |points| >= 2 {
      var rest := points[2..];
      PairsShape(rest, lessThan);
      forall k | 1 <= k < |points| / 2
        ensures Pairs(points, lessThan)[k] == Ordered(points[2 * k], points[2 * k + 1], lessThan)
      {
        assert Pairs(points, lessThan)[k] == Pairs(rest, lessThan)[k - 1];
        assert rest[2 * (k - 1)] == points[2 * k];
        assert rest[2 * (k - 1) + 1] == points[2 * k + 1];
      }
    }
  }

  /** Under an asymmetric order, every paired segment starts at a point that is not less than its end. */
  lemma OrderedStart(a: Point, b: Point, lessThan: (Point, Point) -> bool)
    requires !(lessThan(a, b) && lessThan(b, a))
    ensures var s := Ordered(a, b, lessThan);
      !lessThan(s.start, s.end) && ({s.start, s.end} == {a, b})
  {
  }

  // ---- hatch ----

  /** Each rotated scan line intersected with the shape. */
  function Crossings(o: Oracle, shape: Shape, lines: seq<Segment>, radians: real, center: Point): (r: seq<seq<Point>>)
    ensures |r| == |lines|
    ensures forall i :: 0 <= i < |lines| ==> r[i] == o.intersect(shape, o.rotate(lines[i], radians, center))
  {
    seq(|lines|, i requires 0 <= i < |lines| => o.intersect(shape, o.rotate(lines[i], radians, center)))
  }

  /** The paired segments of every crossing list, flattened in order. */
  function PairAll(crossings: seq<seq<Point>>, lessThan: (Point, Point) -> bool): seq<Segment> {
    if |crossings| == 0 then []
    else PairAll(crossings[..|crossings| - 1], lessThan) + Pairs(crossings[|crossings| - 1], lessThan)
  }

  /** The hatch segments before alternation. */
  function HatchSegments(o: Oracle, shape: Shape, iv: Js.Num, angle: real): seq<Segment>
    requires HasBounds(shape) && (iv.PosInf? || iv.Fin?)
  {
    var bounds := BoundsOf(shape);
    PairAll(Crossings(o, shape, ScanLines(ContainingBounds(bounds), iv), ToRadians(angle), Center(bounds)), o.lessThan)
  }

  /** The last step of `hatch`: unchanged, or with every even-indexed segment reversed. */
  function Finish(segments: seq<Segment>, alternate: bool): seq<Segment> {
    if alternate then Segments.FlipAlternate(segments) else segments
  }

  /**
   * `hatch(shape, interval, angle, alternate)`: an undefined or NaN interval is
   * rejected; otherwise the interval is raised to at least 1, the scan lines
   * cross the shape's containing bounds, are rotated by `angle` degrees about
   * the shape's centre and intersected with the shape (a box or circle is first
   * made a polygon, which the oracle's `intersect` covers), and the crossings
   * are paired. The final `filter(Boolean)` keeps every segment.
   */
  method Hatch(o: Oracle, shape: Shape, interval: Js.Num, angle: real, alternate: bool)
    returns (r: Result<seq<Segment>, string>)
    requires HasBounds(shape)
    ensures r.Failure? <==> interval.Undefined? || interval.NaN?
    ensures r.Success? ==>
      r.value == Finish(HatchSegments(o, shape, EffectiveInterval(interval), angle), alternate)
  {
    if interval.Undefined? || Js.IsNaN(interval) {
      return Failure("");
    }
    var iv := EffectiveInterval(interval);
    var bounds := BoundsOf(shape);
    var lines := Scan(ContainingBounds(bounds), iv);
    var crossings := Crossings(o, shape, lines, ToRadians(angle), Center(bounds));
    var segments := PairCrossings(crossings, o.lessThan);
    if !alternate {
      return Success(segments);
    }
    return Success(Segments.FlipAlternate(segments));
  }

  /** The `.map(...).flat()` over the crossings in `hatch`: each line's crossings paired, line after line. */
  method PairCrossings(crossings: seq<seq<Point>>, lessThan: (Point, Point) -> bool) returns (segments: seq<Segment>)
    ensures segments == PairAll(crossings, lessThan)
  {
    segments := [];
    var i := 0;
    while i < |crossings|
      invariant 0 <= i <= |crossings|
      invariant segments == PairAll(crossings[..i], lessThan)
    {
      var pairs := PairPoints(crossings[i], lessThan);
      assert crossings[..i + 1][..i] == crossings[..i];
      segments := segments + pairs;
      i := i + 1;
    }
    assert crossings[..|crossings|] == crossings;
  }

  /** The list in reverse order (`Array.prototype.reverse`). */
  function Reverse<T>(s: seq<T>): (r: seq<T>)
    ensures |r| == |s|
    ensures forall i :: 0 <= i < |s| ==> r[i] == s[|s| - 1 - i]
  {
    if |s| == 0 then [] else [s[|s| - 1]] + Reverse(s[..|s| - 1])
  }

  /** The second pass's angle, `Math.max(90 - angle, angle + 90)`. */
  function SecondAngle(angle: real): real {
    if 90.0 - angle >= angle + 90.0 then 90.0 - angle else angle + 90.0
  }

  /**
   * `crossHatch(shape, interval, angle, alternate)`: the first pass at `angle`
   * and the second pass at `SecondAngle(angle)` in reverse order.
   */
  method CrossHatch(o: Oracle, shape: Shape, interval: Js.Num, angle: real, alternate: bool)
    returns (r: Result<(seq<Segment>, seq<Segment>), string>)
    requires HasBounds(shape)
    ensures r.Failure? <==> interval.Undefined? || interval.NaN?
    ensures r.Success? ==>
      var iv := EffectiveInterval(interval);
      r.value.0 == Finish(HatchSegments(o, shape, iv, angle), alternate)
      && r.value.1 == Reverse(Finish(HatchSegments(o, shape, iv, SecondAngle(angle)), alternate))
  {
    var first := Hatch(o, shape, interval, angle, alternate);
    if first.Failure? {
      return Failure(first.error);
    }
    // The same interval has already passed the check.
    var second := Hatch(o, shape, interval, SecondAngle(angle), alternate);
    return Success((first.value, Reverse(second.value)));
  }

  /** The second pass is perpendicular to the first: it is turned by 90 degrees, clockwise for negative angles. */
  lemma SecondAngleTurn(angle: real)
    ensures angle >= 0.0 ==> SecondAngle(angle) == angle + 90.0
    ensures angle < 0.0 ==> SecondAngle(angle) == 90.0 - angle
  {
  }

  ghost predicate Asymmetric(lessThan: (Point, Point) -> bool) {
    forall a, b :: !(lessThan(a, b) && lessThan(b, a))
  }

  lemma {:induction false} PairsOrdered(points: seq<Point>, lessThan: (Point, Point) -> bool)
    requires Asymmetric(lessThan)
    ensures forall s :: s in Pairs(points, lessThan) ==> !lessThan(s.start, s.end)
    decreases |points|
  {
    if |points| >= 2 {
      OrderedStart(points[0], points[1], lessThan);
      PairsOrdered(points[2..], lessThan);
    }
  }

  lemma {:induction false} PairAllOrdered(crossings: seq<seq<Point>>, lessThan: (Point, Point) -> bool)
    requires Asymmetric(lessThan)
    ensures forall s :: s in PairAll(crossings, lessThan) ==> !lessThan(s.start, s.end)
    decreases |crossings|
  {
    if |crossings| > 0 {
      PairAllOrdered(crossings[..|crossings| - 1], lessThan);
      PairsOrdered(crossings[|crossings| - 1], lessThan);
    }
  }

  /** Before alternation, no hatch segment starts at a point `lessThan` its end. */
  lemma HatchSegmentsOrdered(o: Oracle, shape: Shape, iv: Js.Num, angle: real)
    requires HasBounds(shape) && (iv.PosInf? || iv.Fin?) && Asymmetric(o.lessThan)
    ensures forall s :: s in HatchSegments(o, shape, iv, angle) ==> !o.lessThan(s.start, s.end)
  {
    var bounds := BoundsOf(shape);
    PairAllOrdered(Crossings(o, shape, ScanLines(ContainingBounds(bounds), iv), ToRadians(angle), Center(bounds)), o.lessThan);
  }

  /** With `alternate` off the segments come back as paired; with it on, exactly the even-indexed ones are reversed. */
  lemma FinishAlternates(segments: seq<Segment>, alternate: bool, i: int)
    requires 0 <= i < |segments|
    ensures |Finish(segments, alternate)| == |segments|
    ensures Finish(segments, alternate)[i]
      == if alternate && i % 2 == 0 then Segment(segments[i].end, segments[i].start) else segments[i]
  {
  }
}
