/** The tuple-based line helpers of src/geom/lines.ts. */
module Lines {
  /** A `[x, y]` tuple. */
  datatype Pt = Pt(x: real, y: real)
  /** A `[start, end]` tuple. */
  datatype Line = Line(p0: Pt, p1: Pt)
  /** The offset argument is either a `Point` tuple or a 4-element `Rect` tuple. */
  datatype Offset =
    | PointOffset(ox: real, oy: real)
    | RectOffset(rx: real, ry: real, rw: real, rh: real)

  /** `offset[0]`. */
  function Dx(o: Offset): real {
    match o
    case PointOffset(x, _) => x
    case RectOffset(x, _, _, _) => x
  }

  /** `offset[1]`. */
  function Dy(o: Offset): real {
    match o
    case PointOffset(_, y) => y
    case RectOffset(_, y, _, _) => y
  }

  function Move(p: Pt, o: Offset): Pt {
    Pt(Dx(o) + p.x, Dy(o) + p.y)
  }

  /** `translatePoints(points, offset)`. */
  function TranslatePoints(ps: seq<Pt>, o: Offset): (r: seq<Pt>)
    ensures |r| == |ps|
    ensures forall i :: 0 <= i < |ps| ==> r[i].x - ps[i].x == Dx(o) && r[i].y - ps[i].y == Dy(o)
  {
    seq(|ps|, i requires 0 <= i < |ps| => Move(ps[i], o))
  }

  /** `translateLines(lines, offset)`. */
  function TranslateLines(ls: seq<Line>, o: Offset): (r: seq<Line>)
    ensures |r| == |ls|
    ensures forall i :: 0 <= i < |ls| ==>
      r[i].p0.x - ls[i].p0.x == Dx(o) && r[i].p0.y - ls[i].p0.y == Dy(o) &&
      r[i].p1.x - ls[i].p1.x == Dx(o) && r[i].p1.y - ls[i].p1.y == Dy(o)
  {
    seq(|ls|, i requires 0 <= i < |ls| => Line(Move(ls[i].p0, o), Move(ls[i].p1, o)))
  }

  /** `flipLine(line)`. */
  function FlipLine(l: Line): (r: Line)
    ensures r.p0 == l.p1 && r.p1 == l.p0
  {
    Line(l.p1, l.p0)
  }

  /** `flipAlternate(lines)`: lines at even indices are flipped, the others kept. */
  function FlipAlternate(ls: seq<Line>): (r: seq<Line>)
    ensures |r| == |ls|
    ensures forall i :: 0 <= i < |ls| && i % 2 == 0 ==> r[i].p0 == ls[i].p1 && r[i].p1 == ls[i].p0
    ensures forall i :: 0 <= i < |ls| && i % 2 == 1 ==> r[i] == ls[i]
    ensures forall i :: 0 <= i < |ls| ==> (r[i] == ls[i] <==> i % 2 == 1 || ls[i].p0 == ls[i].p1)
  {
    seq(|ls|, i requires 0 <= i < |ls| => if i % 2 == 0 then FlipLine(ls[i]) else ls[i])
  }

  // ---- properties ----

  /** A `Rect` offset moves exactly like the `Point` offset of its first two components. */
  lemma RectOffsetUsesFirstTwo(ls: seq<Line>, ps: seq<Pt>, x: real, y: real, w: real, h: real)
    ensures TranslateLines(ls, RectOffset(x, y, w, h)) == TranslateLines(ls, PointOffset(x, y))
    ensures TranslatePoints(ps, RectOffset(x, y, w, h)) == TranslatePoints(ps, PointOffset(x, y))
  {
  }

  /** `flipLine` swaps the endpoints, so applying it twice is the identity. */
  lemma FlipLineInvolution(l: Line)
    ensures FlipLine(l).p0 == l.p1 && FlipLine(l).p1 == l.p0
    ensures FlipLine(FlipLine(l)) == l
  {
  }

  /** `flipAlternate` applied twice returns the original list. */
  lemma FlipAlternateInvolution(ls: seq<Line>)
    ensures FlipAlternate(FlipAlternate(ls)) == ls
  {
  }
}
