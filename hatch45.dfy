/**
 * `hatch45` and `crossHatch45` of src/geom/hatch.ts: 45° diagonals across a box,
 * walked forwards (down-left lines, left to right) or in reverse (down-right
 * lines, right to left). A start or end that would overhang the box is clamped
 * to its edge and the overhang carried into the other coordinate, which keeps
 * the lines exactly `interval` apart along the diagonal.
 */
module Hatch45 {
  import opened Wrappers
  import opened Geom
  import Js

  /** `MAX_ITER`: the most segments one walk emits. */
  const MAX_ITER: nat := 10000

  /** The box as passed in: a missing coordinate defaults to NaN. */
  datatype NumBox = NumBox(xmin: Js.Num, ymin: Js.Num, xmax: Js.Num, ymax: Js.Num)

  /** A coordinate after the destructuring default (`= Number.NaN`). */
  function Coord(n: Js.Num): Js.Num { if n.Undefined? then Js.NaN else n }

  predicate BadCoord(n: Js.Num) { Js.IsNaN(Coord(n)) }

  predicate Infinite(n: Js.Num) { n.PosInf? || n.NegInf? }

  function RealBox(b: NumBox): Box
    requires b.xmin.Fin? && b.ymin.Fin? && b.xmax.Fin? && b.ymax.Fin?
  {
    Box(b.xmin.v, b.ymin.v, b.xmax.v, b.ymax.v)
  }

  // ---- forward walk ----

  function StartSum(s: Segment): real { s.start.x + s.start.y }
  function EndSum(s: Segment): real { s.end.x + s.end.y }

  /** The first forward segment: from one interval right of the corner to one interval below it. */
  function FirstForward(b: Box, interval: real): Segment {
    Segment(Point(b.xmin + interval, b.ymin), Point(b.xmin, b.ymin + interval))
  }

  /**
   * One forward step: the start walks right, the end walks down, and whatever
   * overhangs `xmax` (resp. `ymax`) moves down (resp. right) instead.
   */
  function StepForward(s: Segment, b: Box, interval: real): (t: Segment)
    ensures StartSum(t) == StartSum(s) + interval && EndSum(t) == EndSum(s) + interval
    ensures t.start.x <= b.xmax && t.end.y <= b.ymax
  {
    var sx := s.start.x + interval;
    var ey := s.end.y + interval;
    var start := if sx > b.xmax then Point(b.xmax, s.start.y + (sx - b.xmax)) else Point(sx, s.start.y);
    var end := if ey > b.ymax then Point(s.end.x + (ey - b.ymax), b.ymax) else Point(s.end.x, ey);
    Segment(start, end)
  }

  /** The forward loop stops once the end has caught up with the start (`ex >= sx`). */
  predicate StopsForward(s: Segment) { s.end.x >= s.start.x }

  /** The segments the forward loop emits from `cur` with room for `room` more. */
  function ForwardFrom(cur: Segment, b: Box, interval: real, room: nat): seq<Segment>
    decreases room, 0
  {
    if room == 0 then [] else [cur] + ForwardAfter(cur, b, interval, room - 1)
  }

  /** The segments after `cur`: none once the next one stops, else the walk from it. */
  function ForwardAfter(cur: Segment, b: Box, interval: real, room: nat): seq<Segment>
    decreases room, 1
  {
    var next := StepForward(cur, b, interval);
    if StopsForward(next) then [] else ForwardFrom(next, b, interval, room)
  }

  lemma ForwardFromUnfold(cur: Segment, b: Box, interval: real, room: nat)
    requires room >= 1
    ensures ForwardFrom(cur, b, interval, room)
      == [cur] + if StopsForward(StepForward(cur, b, interval)) then []
                 else ForwardFrom(StepForward(cur, b, interval), b, interval, room - 1)
  {
    assert ForwardFrom(cur, b, interval, room) == [cur] + ForwardAfter(cur, b, interval, room - 1);
  }

  function ForwardHatch(b: Box, interval: real): seq<Segment> {
    ForwardFrom(FirstForward(b, interval), b, interval, MAX_ITER)
  }

  /** The forward `while` loop of `hatch45`. */
  method ForwardWalk(b: Box, interval: real) returns (result: seq<Segment>)
    ensures result == ForwardHatch(b, interval)
  {
    var ex := b.xmin;
    var sx := b.xmin + interval;
    var sy := b.ymin;
    var ey := b.ymin + interval;
    result := [];
    assert Segment(Point(sx, sy), Point(ex, ey)) == FirstForward(b, interval);
    while |result| < MAX_ITER
      invariant |result| <= MAX_ITER
      invariant result + ForwardFrom(Segment(Point(sx, sy), Point(ex, ey)), b, interval, MAX_ITER - |result|)
        == ForwardHatch(b, interval)
    {
      var cur := Segment(Point(sx, sy), Point(ex, ey));
      ghost var before := result;
      ghost var room := MAX_ITER - |result|;
      result := result + [cur];
      sx, sy, ex, ey := AdvanceForward(sx, sy, ex, ey, b, interval);
      if ex >= sx {
        ForwardLast(before, cur, b, interval, room);
        return;
      }
      ForwardNext(before, cur, b, interval, room);
    }
    ghost var rest := ForwardFrom(Segment(Point(sx, sy), Point(ex, ey)), b, interval, 0);
    assert rest == [];
    assert result + rest == result;
  }

  /** The coordinate updates of one turn of the forward loop. */
  method AdvanceForward(sx0: real, sy0: real, ex0: real, ey0: real, b: Box, interval: real)
    returns (sx: real, sy: real, ex: real, ey: real)
    ensures Segment(Point(sx, sy), Point(ex, ey)) == StepForward(Segment(Point(sx0, sy0), Point(ex0, ey0)), b, interval)
  {
    sx, sy, ex, ey := sx0 + interval, sy0, ex0, ey0 + interval;
    if sx > b.xmax {
      sy := sy + (sx - b.xmax);
      sx := b.xmax;
    }
    if ey > b.ymax {
      ex := ex + (ey - b.ymax);
      ey := b.ymax;
    }
  }

  /** A turn of the forward loop whose next segment stops: `cur` is the last segment. */
  lemma ForwardLast(before: seq<Segment>, cur: Segment, b: Box, interval: real, room: nat)
    requires room >= 1 && StopsForward(StepForward(cur, b, interval))
    ensures before + [cur] == before + ForwardFrom(cur, b, interval, room)
  {
    ForwardFromUnfold(cur, b, interval, room);
  }

  /** A turn of the forward loop that goes on: `cur`, then the walk from the next segment. */
  lemma ForwardNext(before: seq<Segment>, cur: Segment, b: Box, interval: real, room: nat)
    requires room >= 1 && !StopsForward(StepForward(cur, b, interval))
    ensures (before + [cur]) + ForwardFrom(StepForward(cur, b, interval), b, interval, room - 1)
      == before + ForwardFrom(cur, b, interval, room)
  {
    ForwardFromUnfold(cur, b, interval, room);
    var rest := ForwardFrom(StepForward(cur, b, interval), b, interval, room - 1);
    assert (before + [cur]) + rest == before + ([cur] + rest);
  }

  // ---- reverse walk ----

  function StartDiff(s: Segment): real { s.start.x - s.start.y }
  function EndDiff(s: Segment): real { s.end.x - s.end.y }

  /** The first reverse segment: from one interval left of the top-right corner to one interval below it. */
  function FirstReverse(b: Box, interval: real): Segment {
    Segment(Point(b.xmax - interval, b.ymin), Point(b.xmax, b.ymin + interval))
  }

  /** One reverse step: the start walks left (overhang past `xmin` moves down), the end walks down. */
  function StepReverse(s: Segment, b: Box, interval: real): (t: Segment)
    ensures StartDiff(t) == StartDiff(s) - interval && EndDiff(t) == EndDiff(s) - interval
    ensures t.start.x >= b.xmin && t.end.y <= b.ymax
  {
    var sx := s.start.x - interval;
    var ey := s.end.y + interval;
    var start := if sx < b.xmin then Point(b.xmin, s.start.y + (b.xmin - sx)) else Point(sx, s.start.y);
    var end := if ey > b.ymax then Point(s.end.x - (ey - b.ymax), b.ymax) else Point(s.end.x, ey);
    Segment(start, end)
  }

  /** The reverse loop stops once the end is at or left of the start (`ex <= sx`). */
  predicate StopsReverse(s: Segment) { s.end.x <= s.start.x }

  function ReverseFrom(cur: Segment, b: Box, interval: real, room: nat): seq<Segment>
    decreases room, 0
  {
    if room == 0 then [] else [cur] + ReverseAfter(cur, b, interval, room - 1)
  }

  /** The segments after `cur`: none once the next one stops, else the walk from it. */
  function ReverseAfter(cur: Segment, b: Box, interval: real, room: nat): seq<Segment>
    decreases room, 1
  {
    var next := StepReverse(cur, b, interval);
    if StopsReverse(next) then [] else ReverseFrom(next, b, interval, room)
  }

  lemma ReverseFromUnfold(cur: Segment, b: Box, interval: real, room: nat)
    requires room >= 1
    ensures ReverseFrom(cur, b, interval, room)
      == [cur] + if StopsReverse(StepReverse(cur, b, interval)) then []
                 else ReverseFrom(StepReverse(cur, b, interval), b, interval, room - 1)
  {
    assert ReverseFrom(cur, b, interval, room) == [cur] + ReverseAfter(cur, b, interval, room - 1);
  }

  function ReverseHatch(b: Box, interval: real): seq<Segment> {
    ReverseFrom(FirstReverse(b, interval), b, interval, MAX_ITER)
  }

  /** The reverse `while` loop of `hatch45`. */
  method ReverseWalk(b: Box, interval: real) returns (result: seq<Segment>)
    ensures result == ReverseHatch(b, interval)
  {
    // `startX`, the left edge the start is clamped to, is `b.xmin`.
    var sx := b.xmax - interval;
    var sy := b.ymin;
    var ex := b.xmax;
    var ey := b.ymin + interval;
    result := [];
    assert Segment(Point(sx, sy), Point(ex, ey)) == FirstReverse(b, interval);
    while |result| < MAX_ITER
      invariant |result| <= MAX_ITER
      invariant result + ReverseFrom(Segment(Point(sx, sy), Point(ex, ey)), b, interval, MAX_ITER - |result|)
        == ReverseHatch(b, interval)
    {
      var cur := Segment(Point(sx, sy), Point(ex, ey));
      ghost var before := result;
      ghost var room := MAX_ITER - |result|;
      result := result + [cur];
      sx, sy, ex, ey := AdvanceReverse(sx, sy, ex, ey, b, interval);
      if ex <= sx {
        ReverseLast(before, cur, b, interval, room);
        return;
      }
      ReverseNext(before, cur, b, interval, room);
    }
    ghost var rest := ReverseFrom(Segment(Point(sx, sy), Point(ex, ey)), b, interval, 0);
    assert rest == [];
    assert result + rest == result;
  }

  /** The coordinate updates of one turn of the reverse loop. */
  method AdvanceReverse(sx0: real, sy0: real, ex0: real, ey0: real, b: Box, interval: real)
    returns (sx: real, sy: real, ex: real, ey: real)
    ensures Segment(Point(sx, sy), Point(ex, ey)) == StepReverse(Segment(Point(sx0, sy0), Point(ex0, ey0)), b, interval)
  {
    sx, sy, ex, ey := sx0 - interval, sy0, ex0, ey0 + interval;
    if sx < b.xmin {
      sy := sy + (b.xmin - sx);
      sx := b.xmin;
    }
    if ey > b.ymax {
      ex := ex - (ey - b.ymax);
      ey := b.ymax;
    }
  }

  /** A turn of the reverse loop whose next segment stops: `cur` is the last segment. */
  lemma ReverseLast(before: seq<Segment>, cur: Segment, b: Box, interval: real, room: nat)
    requires room >= 1 && StopsReverse(StepReverse(cur, b, interval))
    ensures before + [cur] == before + ReverseFrom(cur, b, interval, room)
  {
    ReverseFromUnfold(cur, b, interval, room);
  }

  /** A turn of the reverse loop that goes on: `cur`, then the walk from the next segment. */
  lemma ReverseNext(before: seq<Segment>, cur: Segment, b: Box, interval: real, room: nat)
    requires room >= 1 && !StopsReverse(StepReverse(cur, b, interval))
    ensures (before + [cur]) + ReverseFrom(StepReverse(cur, b, interval), b, interval, room - 1)
      == before + ReverseFrom(cur, b, interval, room)
  {
    ReverseFromUnfold(cur, b, interval, room);
    var rest := ReverseFrom(StepReverse(cur, b, interval), b, interval, room - 1);
    assert (before + [cur]) + rest == before + ([cur] + rest);
  }

  // ---- entry points ----

  /**
   * `hatch45(box, interval, reverse)`: rejects a NaN or non-finite interval, then
   * a NaN (or missing) coordinate, before walking.
   */
  method Hatch(box: NumBox, interval: Js.Num, reverse: bool) returns (r: Result<seq<Segment>, string>)
    requires !Infinite(box.xmin) && !Infinite(box.ymin) && !Infinite(box.xmax) && !Infinite(box.ymax)
    ensures !Js.IsFinite(interval) ==> r == Failure("Invalid interval")
    ensures Js.IsFinite(interval) && (BadCoord(box.xmin) || BadCoord(box.xmax) || BadCoord(box.ymin) || BadCoord(box.ymax))
      ==> r == Failure("Invalid bounding box dimensions")
    ensures r.Success? <==>
      (Js.IsFinite(interval) && !BadCoord(box.xmin) && !BadCoord(box.xmax) && !BadCoord(box.ymin) && !BadCoord(box.ymax))
    ensures r.Success? ==>
      r.value == if reverse then ReverseHatch(RealBox(box), interval.v) else ForwardHatch(RealBox(box), interval.v)
  {
    if Js.IsNaN(interval) || !Js.IsFinite(interval) {
      return Failure("Invalid interval");
    } else if BadCoord(box.xmin) || BadCoord(box.xmax) || BadCoord(box.ymin) || BadCoord(box.ymax) {
      return Failure("Invalid bounding box dimensions");
    }
    var segments;
    if !reverse {
      segments := ForwardWalk(RealBox(box), interval.v);
    } else {
      segments := ReverseWalk(RealBox(box), interval.v);
    }
    return Success(segments);
  }

  /** `crossHatch45(box, interval)`: the forward lines followed by the reverse lines. */
  method CrossHatch(box: NumBox, interval: Js.Num) returns (r: Result<seq<Segment>, string>)
    requires !Infinite(box.xmin) && !Infinite(box.ymin) && !Infinite(box.xmax) && !Infinite(box.ymax)
    ensures r.Failure? <==>
      (!Js.IsFinite(interval) || BadCoord(box.xmin) || BadCoord(box.xmax) || BadCoord(box.ymin) || BadCoord(box.ymax))
    ensures r.Success? ==>
      r.value == ForwardHatch(RealBox(box), interval.v) + ReverseHatch(RealBox(box), interval.v)
  {
    var forward := Hatch(box, interval, false);
    if forward.Failure? {
      return forward;
    }
    var reverse := Hatch(box, interval, true);
    if reverse.Failure? {
      return reverse;
    }
    return Success(forward.value + reverse.value);
  }

  // ---- properties of the walks ----

  /** `j` intervals laid end to end. */
  function Steps(j: nat, interval: real): real {
    if j == 0 then 0.0 else Steps(j - 1, interval) + interval
  }

  lemma {:induction false} StepsIsProduct(j: nat, interval: real)
    ensures Steps(j, interval) == (j as real) * interval
  {
    if j > 0 {
      StepsIsProduct(j - 1, interval);
      assert (j as real) * interval == ((j - 1) as real) * interval + interval;
    }
  }

  /** A walk from `cur` starts at `cur` and never exceeds its room. */
  lemma {:induction false} ForwardFromShape(cur: Segment, b: Box, interval: real, room: nat)
    ensures |ForwardFrom(cur, b, interval, room)| <= room
    ensures room >= 1 ==> |ForwardFrom(cur, b, interval, room)| >= 1 && ForwardFrom(cur, b, interval, room)[0] == cur
    decreases room
  {
    if room > 0 {
      ForwardFromShape(StepForward(cur, b, interval), b, interval, room - 1);
    }
  }

  /**
   * Along a forward walk both the start's and the end's `x + y` grow by exactly
   * `interval` per segment; every later segment is clamped inside `xmax`/`ymax`
   * and still has its end strictly left of its start.
   */
  lemma {:induction false} ForwardAt(cur: Segment, b: Box, interval: real, room: nat, j: nat)
    requires j < |ForwardFrom(cur, b, interval, room)|
    ensures var s := ForwardFrom(cur, b, interval, room)[j];
      StartSum(s) == StartSum(cur) + Steps(j, interval)
      && EndSum(s) == EndSum(cur) + Steps(j, interval)
      && (j >= 1 ==> s.start.x <= b.xmax && s.end.y <= b.ymax && !StopsForward(s))
    decreases room
  {
    ForwardFromUnfold(cur, b, interval, room);
    if j > 0 {
      var next := StepForward(cur, b, interval);
      var rest := ForwardFrom(next, b, interval, room - 1);
      assert ForwardFrom(cur, b, interval, room) == [cur] + rest;
      ForwardAt(next, b, interval, room - 1, j - 1);
      if j == 1 {
        ForwardFromUnfold(next, b, interval, room - 1);
      }
    }
  }

  /** A forward walk ends because it ran out of room or because the next step would stop. */
  lemma {:induction false} ForwardFromEnds(cur: Segment, b: Box, interval: real, room: nat)
    requires room >= 1
    ensures var r := ForwardFrom(cur, b, interval, room);
      |r| == room || StopsForward(StepForward(r[|r| - 1], b, interval))
    decreases room
  {
    ForwardFromShape(cur, b, interval, room);
    var next := StepForward(cur, b, interval);
    if !StopsForward(next) && room >= 2 {
      ForwardFromEnds(next, b, interval, room - 1);
      ForwardFromShape(next, b, interval, room - 1);
      var rest := ForwardFrom(next, b, interval, room - 1);
      assert ForwardFrom(cur, b, interval, room) == [cur] + rest;
    }
  }

  /** `hatch45` forwards emits between 1 and `MAX_ITER` segments, the first from `(xmin + interval, ymin)` to `(xmin, ymin + interval)`. */
  lemma ForwardHatchBounds(b: Box, interval: real)
    ensures 1 <= |ForwardHatch(b, interval)| <= MAX_ITER
    ensures ForwardHatch(b, interval)[0] == FirstForward(b, interval)
  {
    ForwardFromShape(FirstForward(b, interval), b, interval, MAX_ITER);
  }

  /** Forward segment `j` lies on the anti-diagonal `x + y == xmin + ymin + (j + 1) * interval` at both ends. */
  lemma ForwardHatchDiagonal(b: Box, interval: real, j: nat)
    requires j < |ForwardHatch(b, interval)|
    ensures var s := ForwardHatch(b, interval)[j];
      StartSum(s) == EndSum(s) == b.xmin + b.ymin + Steps(j + 1, interval)
  {
    var s := ForwardHatch(b, interval)[j];
    ForwardAt(FirstForward(b, interval), b, interval, MAX_ITER, j);
    assert StartSum(s) == EndSum(s) == b.xmin + b.ymin + Steps(j + 1, interval);
  }

  /** Consecutive forward segments are exactly `interval` apart along the diagonal, at both ends. */
  lemma ForwardHatchSpacing(b: Box, interval: real, j: nat)
    requires j + 1 < |ForwardHatch(b, interval)|
    ensures var r := ForwardHatch(b, interval);
      StartSum(r[j + 1]) == StartSum(r[j]) + interval && EndSum(r[j + 1]) == EndSum(r[j]) + interval
  {
    ForwardHatchDiagonal(b, interval, j);
    ForwardHatchDiagonal(b, interval, j + 1);
  }

  /** Every forward segment after the first starts inside `xmax`, ends inside `ymax`, and has its end strictly left of its start. */
  lemma ForwardHatchClamped(b: Box, interval: real, j: nat)
    requires 1 <= j < |ForwardHatch(b, interval)|
    ensures var s := ForwardHatch(b, interval)[j];
      s.start.x <= b.xmax && s.end.y <= b.ymax && s.end.x < s.start.x
  {
    ForwardAt(FirstForward(b, interval), b, interval, MAX_ITER, j);
  }

  /** The forward walk ends at the cap or where the next step would have `ex >= sx`. */
  lemma ForwardHatchEnds(b: Box, interval: real)
    ensures var r := ForwardHatch(b, interval);
      |r| >= 1 && (|r| == MAX_ITER || StopsForward(StepForward(r[|r| - 1], b, interval)))
  {
    ForwardFromShape(FirstForward(b, interval), b, interval, MAX_ITER);
    ForwardFromEnds(FirstForward(b, interval), b, interval, MAX_ITER);
  }

  lemma {:induction false} ReverseFromShape(cur: Segment, b: Box, interval: real, room: nat)
    ensures |ReverseFrom(cur, b, interval, room)| <= room
    ensures room >= 1 ==> |ReverseFrom(cur, b, interval, room)| >= 1 && ReverseFrom(cur, b, interval, room)[0] == cur
    decreases room
  {
    if room > 0 {
      ReverseFromShape(StepReverse(cur, b, interval), b, interval, room - 1);
    }
  }

  /**
   * Along a reverse walk the start's and the end's `x - y` fall by exactly
   * `interval` per segment; later segments start at or right of `xmin`, end at
   * or above `ymax`, and keep their end strictly right of their start.
   */
  lemma {:induction false} ReverseAt(cur: Segment, b: Box, interval: real, room: nat, j: nat)
    requires j < |ReverseFrom(cur, b, interval, room)|
    ensures var s := ReverseFrom(cur, b, interval, room)[j];
      StartDiff(s) == StartDiff(cur) - Steps(j, interval)
      && EndDiff(s) == EndDiff(cur) - Steps(j, interval)
      && (j >= 1 ==> s.start.x >= b.xmin && s.end.y <= b.ymax && !StopsReverse(s))
    decreases room
  {
    ReverseFromUnfold(cur, b, interval, room);
    if j > 0 {
      var next := StepReverse(cur, b, interval);
      var rest := ReverseFrom(next, b, interval, room - 1);
      assert ReverseFrom(cur, b, interval, room) == [cur] + rest;
      ReverseAt(next, b, interval, room - 1, j - 1);
      if j == 1 {
        ReverseFromUnfold(next, b, interval, room - 1);
      }
    }
  }

  lemma {:induction false} ReverseFromEnds(cur: Segment, b: Box, interval: real, room: nat)
    requires room >= 1
    ensures var r := ReverseFrom(cur, b, interval, room);
      |r| == room || StopsReverse(StepReverse(r[|r| - 1], b, interval))
    decreases room
  {
    ReverseFromShape(cur, b, interval, room);
    var next := StepReverse(cur, b, interval);
    if !StopsReverse(next) && room >= 2 {
      ReverseFromEnds(next, b, interval, room - 1);
      ReverseFromShape(next, b, interval, room - 1);
      var rest := ReverseFrom(next, b, interval, room - 1);
      assert ReverseFrom(cur, b, interval, room) == [cur] + rest;
    }
  }

  /** `hatch45` in reverse emits between 1 and `MAX_ITER` segments, the first from `(xmax - interval, ymin)` to `(xmax, ymin + interval)`. */
  lemma ReverseHatchBounds(b: Box, interval: real)
    ensures 1 <= |ReverseHatch(b, interval)| <= MAX_ITER
    ensures ReverseHatch(b, interval)[0] == FirstReverse(b, interval)
  {
    ReverseFromShape(FirstReverse(b, interval), b, interval, MAX_ITER);
  }

  /** Reverse segment `j` lies on the diagonal `x - y == xmax - ymin - (j + 1) * interval` at both ends. */
  lemma ReverseHatchDiagonal(b: Box, interval: real, j: nat)
    requires j < |ReverseHatch(b, interval)|
    ensures var s := ReverseHatch(b, interval)[j];
      StartDiff(s) == EndDiff(s) == b.xmax - b.ymin - Steps(j + 1, interval)
  {
    var s := ReverseHatch(b, interval)[j];
    ReverseAt(FirstReverse(b, interval), b, interval, MAX_ITER, j);
    assert StartDiff(s) == EndDiff(s) == b.xmax - b.ymin - Steps(j + 1, interval);
  }

  /** Consecutive reverse segments are exactly `interval` apart along the diagonal, at both ends. */
  lemma ReverseHatchSpacing(b: Box, interval: real, j: nat)
    requires j + 1 < |ReverseHatch(b, interval)|
    ensures var r := ReverseHatch(b, interval);
      StartDiff(r[j + 1]) == StartDiff(r[j]) - interval && EndDiff(r[j + 1]) == EndDiff(r[j]) - interval
  {
    ReverseHatchDiagonal(b, interval, j);
    ReverseHatchDiagonal(b, interval, j + 1);
  }

  /** Every reverse segment after the first starts at or right of `xmin`, ends inside `ymax`, and has its end strictly right of its start. */
  lemma ReverseHatchClamped(b: Box, interval: real, j: nat)
    requires 1 <= j < |ReverseHatch(b, interval)|
    ensures var s := ReverseHatch(b, interval)[j];
      s.start.x >= b.xmin && s.end.y <= b.ymax && s.end.x > s.start.x
  {
    ReverseAt(FirstReverse(b, interval), b, interval, MAX_ITER, j);
  }

  /** The reverse walk ends at the cap or where the next step would have `ex <= sx`. */
  lemma ReverseHatchEnds(b: Box, interval: real)
    ensures var r := ReverseHatch(b, interval);
      |r| >= 1 && (|r| == MAX_ITER || StopsReverse(StepReverse(r[|r| - 1], b, interval)))
  {
    ReverseFromShape(FirstReverse(b, interval), b, interval, MAX_ITER);
    ReverseFromEnds(FirstReverse(b, interval), b, interval, MAX_ITER);
  }
}
