/**
 * The seeded random helpers of a render context. The seeded generator is a
 * stream of raw samples (`stream(i)` is the i-th value it returns); the
 * context's only state is how many samples it has drawn.
 */
module RandomContextModel {
  import opened Wrappers
  import Geom
  import Js
  import Sizes

  /** `undefined | "floor" | "ceil" | "round"`. */
  datatype Rounding = NoRounding | FloorR | CeilR | RoundR

  /** `Math.ceil`. */
  function Ceil(x: real): int {
    -((-x).Floor)
  }

  /**
   * `round(number, rounding)`: 0 and "no rounding" leave the number as it is;
   * otherwise `Math.floor`, `Math.ceil` or `Math.round`.
   */
  function Round(x: real, rounding: Rounding): (r: real)
    ensures x == 0.0 || rounding.NoRounding? ==> r == x
    ensures rounding.FloorR? ==> r <= x < r + 1.0
    ensures rounding.CeilR? ==> r - 1.0 < x <= r
  {
    match rounding
    case NoRounding => x
    case FloorR => if x == 0.0 then x else x.Floor as real
    case CeilR => if x == 0.0 then x else Ceil(x) as real
    case RoundR => if x == 0.0 then x else Js.RoundReal(x) as real
  }

  /**
   * What each rounding means: the whole number at or below, at or above, or
   * nearest (halves up) to the value; 0 and "no rounding" change nothing.
   */
  lemma RoundMeaning(x: real, rounding: Rounding)
    ensures x == 0.0 || rounding.NoRounding? ==> Round(x, rounding) == x
    ensures rounding.FloorR? ==> Round(x, rounding) <= x < Round(x, rounding) + 1.0
    ensures rounding.CeilR? ==> Round(x, rounding) - 1.0 < x <= Round(x, rounding)
    ensures rounding.RoundR? ==> Round(x, rounding) - 0.5 <= x < Round(x, rounding) + 0.5
    ensures !rounding.NoRounding? ==> Round(x, rounding) == Round(x, rounding).Floor as real
  {
  }

  /** `min + sample * (max - min)`: the sample stretched over the interval. */
  function Interpolate(min: real, max: real, s: real): real {
    min + s * (max - min)
  }

  /** What `between(min, max, rounding)` returns for the raw sample `s`. */
  function BetweenValue(min: real, max: real, s: real, rounding: Rounding): real {
    Round(Interpolate(min, max, s), rounding)
  }

  /**
   * A sample in [0, 1) lands in [min, max) before rounding, and exactly on
   * `min` when the bounds meet.
   */
  lemma BetweenWithin(min: real, max: real, s: real)
    requires 0.0 <= s < 1.0 && min <= max
    ensures min <= Interpolate(min, max, s) <= max
    ensures min < max ==> Interpolate(min, max, s) < max
    ensures min == max ==> Interpolate(min, max, s) == min
  {
    var p := SampleSpan(s, max - min);
  }

  /** The stretched part `p == s * d` of the interval lies in [0, d], below d when d > 0. */
  lemma SampleSpan(s: real, d: real) returns (p: real)
    requires 0.0 <= s < 1.0 && d >= 0.0
    ensures p == s * d
    ensures 0.0 <= p <= d
    ensures d > 0.0 ==> p < d
  {
    p := s * d;
    assert s * d <= 1.0 * d;
  }

  /** When the bounds meet, every sample gives `round(min)`. */
  lemma BetweenDegenerate(min: real, s: real, rounding: Rounding)
    ensures BetweenValue(min, min, s, rounding) == Round(min, rounding)
  {
    assert min + s * (min - min) == min;
  }

  /** The first argument of the `between` overloads: a number or a `[min, max]` tuple. */
  datatype MinOrRange = MinNum(min: real) | MinMax(lo: real, hi: real)

  /** The second argument: a number, or a rounding (`undefined` is `RoundingArg(NoRounding)`). */
  datatype MaxOrRounding = MaxNum(max: real) | RoundingArg(rounding: Rounding)

  /** The overload resolution of `between`: the bounds and rounding it ends up with, or `None` for "Illegal arguments". */
  function BetweenArguments(minOrRange: MinOrRange, maxOrRounding: MaxOrRounding, rounding: Rounding): Option<(real, real, Rounding)> {
    match minOrRange
    case MinMax(lo, hi) =>
      Some((lo, hi, if maxOrRounding.RoundingArg? then maxOrRounding.rounding else NoRounding))
    case MinNum(min) =>
      if maxOrRounding.MaxNum? then Some((min, maxOrRounding.max, rounding)) else None
  }

  /**
   * The tuple form means the plain form with the rounding taken from the
   * second argument; its third argument is ignored. The plain form needs a
   * numeric maximum.
   */
  lemma TupleFormIsPlainForm(lo: real, hi: real, r: Rounding, third1: Rounding, third2: Rounding, other: MaxOrRounding)
    ensures BetweenArguments(MinMax(lo, hi), RoundingArg(r), third1)
         == BetweenArguments(MinNum(lo), MaxNum(hi), r)
    ensures BetweenArguments(MinMax(lo, hi), other, third1) == BetweenArguments(MinMax(lo, hi), other, third2)
    ensures BetweenArguments(MinNum(lo), other, third1).None? <==> !other.MaxNum?
  {
  }

  class RandomContext {
    /** The samples `seedrandom(seed)` produces, in order. */
    const stream: nat -> real
    const size: Sizes.CanvasSize
    /** How many samples have been drawn. */
    var drawn: nat

    constructor(stream: nat -> real, size: Sizes.CanvasSize)
      ensures this.stream == stream && this.size == size && drawn == 0
    {
      this.stream := stream;
      this.size := size;
      drawn := 0;
    }

    /** `next(rounding)`: draws one sample. */
    method Next(rounding: Rounding) returns (v: real)
      modifies this
      ensures drawn == old(drawn) + 1
      ensures v == Round(stream(old(drawn)), rounding)
    {
      v := Round(stream(drawn), rounding);
      drawn := drawn + 1;
    }

    /** `between`, both overloads: one sample drawn unless the arguments are illegal. */
    method Between(minOrRange: MinOrRange, maxOrRounding: MaxOrRounding, rounding: Rounding) returns (r: Result<real, string>)
      modifies this
      ensures BetweenArguments(minOrRange, maxOrRounding, rounding).None? ==>
        r == Failure("Illegal arguments") && drawn == old(drawn)
      ensures BetweenArguments(minOrRange, maxOrRounding, rounding).Some? ==>
        var a := BetweenArguments(minOrRange, maxOrRounding, rounding).value;
        drawn == old(drawn) + 1 && r == Success(BetweenValue(a.0, a.1, stream(old(drawn)), a.2))
    {
      var min, max := 0.0, 0.0;
      var rd := rounding;
      if minOrRange.MinMax? {
        min, max := minOrRange.lo, minOrRange.hi;
        rd := if maxOrRounding.RoundingArg? then maxOrRounding.rounding else NoRounding;
      } else if maxOrRounding.MaxNum? {
        min := minOrRange.min;
        max := maxOrRounding.max;
      } else {
        return Failure("Illegal arguments");
      }
      assert BetweenArguments(minOrRange, maxOrRounding, rounding) == Some((min, max, rd));
      var s := Next(NoRounding);
      return Success(BetweenValue(min, max, s, rd));
    }

    /** `upto(max, rounding)` is `between(0, max, rounding)`. */
    method Upto(max: real, rounding: Rounding) returns (v: real)
      modifies this
      ensures drawn == old(drawn) + 1
      ensures v == BetweenValue(0.0, max, stream(old(drawn)), rounding)
    {
      var r := Between(MinNum(0.0), MaxNum(max), rounding);
      v := r.value;
    }

    /** `pointBetween`: x from the first sample, y from the second. */
    method PointBetween(min: Geom.Point, max: Geom.Point, rounding: Rounding) returns (p: Geom.Point)
      modifies this
      ensures drawn == old(drawn) + 2
      ensures p == Geom.Point(BetweenValue(min.x, max.x, stream(old(drawn)), rounding),
                              BetweenValue(min.y, max.y, stream(old(drawn) + 1), rounding))
    {
      var x := Between(MinNum(min.x), MaxNum(max.x), rounding);
      var y := Between(MinNum(min.y), MaxNum(max.y), rounding);
      p := Geom.Point(x.value, y.value);
    }

    /** `pointUpto`: x then y, each from 0. */
    method PointUpto(maxWidth: real, maxHeight: real, rounding: Rounding) returns (p: Geom.Point)
      modifies this
      ensures drawn == old(drawn) + 2
      ensures p == Geom.Point(BetweenValue(0.0, maxWidth, stream(old(drawn)), rounding),
                              BetweenValue(0.0, maxHeight, stream(old(drawn) + 1), rounding))
    {
      var x := Upto(maxWidth, rounding);
      var y := Upto(maxHeight, rounding);
      p := Geom.Point(x, y);
    }
  }
}
