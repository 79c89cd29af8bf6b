/** The flatten-js segment helpers of src/geom/segment.ts. */
module Segments {
  import opened Geom

  function Offset(p: Point, d: Point): Point {
    Point(p.x + d.x, p.y + d.y)
  }

  /** `translatePoints(points, offset)`. */
  function TranslatePoints(ps: seq<Point>, d: Point): (r: seq<Point>)
    ensures |r| == |ps|
    ensures forall i :: 0 <= i < |ps| ==> r[i] == Point(ps[i].x + d.x, ps[i].y + d.y)
  {
    seq(|ps|, i requires 0 <= i < |ps| => Offset(ps[i], d))
  }

  /** `translateLines(segments, offset)`: both endpoints of every segment move by `offset`. */
  function TranslateLines(ss: seq<Segment>, d: Point): (r: seq<Segment>)
    ensures |r| == |ss|
    ensures forall i :: 0 <= i < |ss| ==>
      r[i].start == Point(ss[i].start.x + d.x, ss[i].start.y + d.y) &&
      r[i].end == Point(ss[i].end.x + d.x, ss[i].end.y + d.y)
  {
    seq(|ss|, i requires 0 <= i < |ss| => Segment(Offset(ss[i].start, d), Offset(ss[i].end, d)))
  }

  /** `flipSegment(segment)`. */
  function FlipSegment(s: Segment): (r: Segment)
    ensures r.start == s.end && r.end == s.start
  {
    Segment(s.end, s.start)
  }

  /** `flipAlternate(segments)`: segments at even indices are flipped. */
  function FlipAlternate(ss: seq<Segment>): (r: seq<Segment>)
    ensures |r| == |ss|
    ensures forall i :: 0 <= i < |ss| && i % 2 == 0 ==> r[i].start == ss[i].end && r[i].end == ss[i].start
    ensures forall i :: 0 <= i < |ss| && i % 2 == 1 ==> r[i] == ss[i]
  {
    seq(|ss|, i requires 0 <= i < |ss| => if i % 2 == 0 then FlipSegment(ss[i]) else ss[i])
  }

  /** `segmentToPoints(segments)`: the endpoints of every segment, start before end. */
  function SegmentToPoints(ss: seq<Segment>): (r: seq<Point>)
    ensures |r| == 2 * |ss|
    ensures forall i :: 0 <= i < |ss| ==> r[2 * i] == ss[i].start && r[2 * i + 1] == ss[i].end
  {
    if |ss| == 0 then []
    else
      var rest := SegmentToPoints(ss[1..]);
      assert forall i :: 1 <= i < |ss| ==> ss[i] == ss[1..][i - 1];
      assert forall i :: 1 <= i < |ss| ==> 2 * i == 2 + 2 * (i - 1);
      [ss[0].start, ss[0].end] + rest
  }

  // ---- properties ----

  /** Translating by (0, 0) changes nothing. */
  lemma TranslateByZero(ps: seq<Point>, ss: seq<Segment>)
    ensures TranslatePoints(ps, Point(0.0, 0.0)) == ps
    ensures TranslateLines(ss, Point(0.0, 0.0)) == ss
  {
  }

  /** Two translations compose into one by the summed offset. */
  lemma TranslateCompose(ps: seq<Point>, ss: seq<Segment>, a: Point, b: Point)
    ensures TranslatePoints(TranslatePoints(ps, a), b) == TranslatePoints(ps, Point(a.x + b.x, a.y + b.y))
    ensures TranslateLines(TranslateLines(ss, a), b) == TranslateLines(ss, Point(a.x + b.x, a.y + b.y))
  {
  }

  /** Translating back by the negated offset undoes a translation. */
  lemma TranslateInverse(ss: seq<Segment>, d: Point)
    ensures TranslateLines(TranslateLines(ss, d), Point(-d.x, -d.y)) == ss
  {
  }

  /** `flipSegment` is an involution. */
  lemma FlipSegmentInvolution(s: Segment)
    ensures FlipSegment(FlipSegment(s)) == s
  {
  }

  /** `flipAlternate` is an involution. */
  lemma FlipAlternateInvolution(ss: seq<Segment>)
    ensures FlipAlternate(FlipAlternate(ss)) == ss
  {
  }

  /** The flattened points list only endpoints of the input segments. */
  lemma SegmentToPointsMembers(ss: seq<Segment>, k: int)
    requires 0 <= k < 2 * |ss|
    ensures var p := SegmentToPoints(ss)[k];
      p == ss[k / 2].start || p == ss[k / 2].end
  {
    var r := SegmentToPoints(ss);
    var i := k / 2;
    assert 0 <= i < |ss|;
    if k % 2 == 0 {
      assert k == 2 * i;
      assert r[2 * i] == ss[i].start;
    } else {
      assert k == 2 * i + 1;
      assert r[2 * i + 1] == ss[i].end;
    }
  }
}
