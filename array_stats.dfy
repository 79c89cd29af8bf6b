/**
 * The array statistics of src/lib/utils/array.ts, plus the numeric sort and
 * extreme-value folds they share with the raster aggregators.
 */
module ArrayStats {
  import Js

  /** `array.map(accessor)`. */
  function Map<T>(a: seq<T>, f: T -> real): (r: seq<real>)
    ensures |r| == |a|
    ensures forall i :: 0 <= i < |a| ==> r[i] == f(a[i])
  {
    seq(|a|, i requires 0 <= i < |a| => f(a[i]))
  }

  predicate SortedAsc(s: seq<real>) {
    forall i, j :: 0 <= i < j < |s| ==> s[i] <= s[j]
  }

  function Insert(x: real, s: seq<real>): (r: seq<real>)
    requires SortedAsc(s)
    ensures SortedAsc(r)
    ensures multiset(r) == multiset(s) + multiset{x}
  {
    if |s| == 0 then [x]
    else if x <= s[0] then [x] + s
    else
      var rest := Insert(x, s[1..]);
      InsertAfterHead(x, s, rest);
      [s[0]] + rest
  }

  /** Inserting past the head of a sorted list keeps the head first. */
  lemma InsertAfterHead(x: real, s: seq<real>, rest: seq<real>)
    requires SortedAsc(s) && |s| > 0 && s[0] < x
    requires SortedAsc(rest) && multiset(rest) == multiset(s[1..]) + multiset{x}
    ensures SortedAsc([s[0]] + rest)
    ensures multiset([s[0]] + rest) == multiset(s) + multiset{x}
  {
    assert s == [s[0]] + s[1..];
    forall i | 0 <= i < |rest|
      ensures s[0] <= rest[i]
    {
      assert rest[i] in multiset(s[1..]) + multiset{x};
      if rest[i] != x {
        assert rest[i] in s[1..];
      }
    }
  }

  /** `values.sort((a, b) => a - b)`: the ascending permutation of `s`. */
  function Sort(s: seq<real>): (r: seq<real>)
    ensures SortedAsc(r)
    ensures multiset(r) == multiset(s)
    ensures |r| == |s|
  {
    if |s| == 0 then []
    else
      assert s == [s[0]] + s[1..];
      var r := Insert(s[0], Sort(s[1..]));
      assert |r| == |multiset(r)| == |multiset(s)| == |s|;
      r
  }

  /** `Math.max(...s)` for a non-empty `s`. */
  function SeqMax(s: seq<real>): (m: real)
    requires |s| > 0
    ensures forall i :: 0 <= i < |s| ==> s[i] <= m
    ensures m in s
  {
    if |s| == 1 then s[0]
    else
      var rest := SeqMax(s[1..]);
      assert forall i :: 1 <= i < |s| ==> s[i] == s[1..][i - 1];
      if s[0] >= rest then s[0] else rest
  }

  /** `Math.min(...s)` for a non-empty `s`. */
  function SeqMin(s: seq<real>): (m: real)
    requires |s| > 0
    ensures forall i :: 0 <= i < |s| ==> m <= s[i]
    ensures m in s
  {
    if |s| == 1 then s[0]
    else
      var rest := SeqMin(s[1..]);
      assert forall i :: 1 <= i < |s| ==> s[i] == s[1..][i - 1];
      if s[0] <= rest then s[0] else rest
  }

  /** `Math.max(...s)`: `-Infinity` for no arguments. */
  function JsMax(s: seq<real>): (r: Js.Num)
    ensures |s| == 0 <==> r == Js.NegInf
    ensures r.Fin? ==> r.v in s && forall i :: 0 <= i < |s| ==> s[i] <= r.v
  {
    if |s| == 0 then Js.NegInf else Js.Fin(SeqMax(s))
  }

  /** `Math.min(...s)`: `Infinity` for no arguments. */
  function JsMin(s: seq<real>): (r: Js.Num)
    ensures |s| == 0 <==> r == Js.PosInf
    ensures r.Fin? ==> r.v in s && forall i :: 0 <= i < |s| ==> r.v <= s[i]
  {
    if |s| == 0 then Js.PosInf else Js.Fin(SeqMin(s))
  }

  /** The middle rule shared by every `median` in the code base, for a sorted list. */
  function MiddleOf(sorted: seq<real>): real
    requires |sorted| >= 2
  {
    var half := |sorted| / 2;
    if |sorted| % 2 == 0 then sorted[half] else (sorted[half - 1] + sorted[half]) / 2.0
  }

  // ---- src/lib/utils/array.ts ----

  /** `sumOf(array, accessor)`: the left fold of `+` from 0. */
  function SumOf<T>(a: seq<T>, f: T -> real): real {
    if |a| == 0 then 0.0 else SumOf(a[..|a| - 1], f) + f(a[|a| - 1])
  }

  /** `averageOf(array, accessor)`: the sum divided by the length; `0 / 0` is NaN. */
  function AverageOf<T>(a: seq<T>, f: T -> real): (r: Js.Num)
    ensures |a| == 0 <==> r == Js.NaN
  {
    if |a| == 0 then Js.NaN else Js.Fin(SumOf(a, f) / (|a| as real))
  }

  /**
   * `medianOf(array, accessor)`. For length ≤ 1 the accessor is applied to
   * `array[0]`; on an empty array that is `accessor(undefined)`, passed in as
   * `atUndefined`. Otherwise the mapped copy is sorted and the parity rule of
   * the code applies: even length picks `sorted[n/2]`, odd length averages
   * `sorted[half-1]` and `sorted[half]`.
   */
  function MedianOf<T>(a: seq<T>, f: T -> real, atUndefined: real): (r: real)
    ensures |a| == 0 ==> r == atUndefined
    ensures |a| == 1 ==> r == f(a[0])
    ensures |a| >= 2 && |a| % 2 == 0 ==> r == Sort(Map(a, f))[|a| / 2]
    ensures |a| >= 2 && |a| % 2 == 1 ==> r == (Sort(Map(a, f))[|a| / 2 - 1] + Sort(Map(a, f))[|a| / 2]) / 2.0
  {
    if |a| == 0 then atUndefined
    else if |a| == 1 then f(a[0])
    else MiddleOf(Sort(Map(a, f)))
  }

  /** `maximumOf(array, accessor)`. */
  function MaximumOf<T>(a: seq<T>, f: T -> real): (r: Js.Num)
    ensures |a| == 0 <==> r == Js.NegInf
    ensures r.Fin? ==> (exists i :: 0 <= i < |a| && r.v == f(a[i])) && forall i :: 0 <= i < |a| ==> f(a[i]) <= r.v
  {
    var m := Map(a, f);
    var r := JsMax(m);
    assert r.Fin? ==> exists i :: 0 <= i < |a| && r.v == m[i];
    r
  }

  /** `minimumOf(array, accessor)`. */
  function MinimumOf<T>(a: seq<T>, f: T -> real): (r: Js.Num)
    ensures |a| == 0 <==> r == Js.PosInf
    ensures r.Fin? ==> (exists i :: 0 <= i < |a| && r.v == f(a[i])) && forall i :: 0 <= i < |a| ==> r.v <= f(a[i])
  {
    var m := Map(a, f);
    var r := JsMin(m);
    assert r.Fin? ==> exists i :: 0 <= i < |a| && r.v == m[i];
    r
  }

  // ---- properties ----

  /** The sum of a concatenation is the sum of the parts. */
  lemma {:induction false} SumOfAppend<T>(a: seq<T>, b: seq<T>, f: T -> real)
    ensures SumOf(a + b, f) == SumOf(a, f) + SumOf(b, f)
    decreases |b|
  {
    if |b| == 0 {
      assert a + b == a;
    } else {
      var b' := b[..|b| - 1];
      assert (a + b)[..|a + b| - 1] == a + b';
      SumOfAppend(a, b', f);
    }
  }

  /** The sum lies between length·min and length·max of the mapped values. */
  lemma {:induction false} SumOfBounds<T>(a: seq<T>, f: T -> real, lo: real, hi: real)
    requires forall i :: 0 <= i < |a| ==> lo <= f(a[i]) <= hi
    ensures (|a| as real) * lo <= SumOf(a, f) <= (|a| as real) * hi
    decreases |a|
  {
    if |a| > 0 {
      var a' := a[..|a| - 1];
      assert forall i :: 0 <= i < |a'| ==> a'[i] == a[i];
      SumOfBounds(a', f, lo, hi);
      var n := |a'| as real;
      assert (|a| as real) * lo == n * lo + lo;
      assert (|a| as real) * hi == n * hi + hi;
    }
  }

  lemma ScaleStrict(x: real, y: real, n: real)
    requires n > 0.0 && x < y
    ensures x * n < y * n
  {
  }

  /** A non-empty average lies between the smallest and the largest mapped value. */
  lemma AverageOfBetween<T>(a: seq<T>, f: T -> real)
    requires |a| > 0
    ensures AverageOf(a, f).Fin?
    ensures MinimumOf(a, f).v <= AverageOf(a, f).v <= MaximumOf(a, f).v
  {
    var lo := MinimumOf(a, f).v;
    var hi := MaximumOf(a, f).v;
    var avg := MeanWithin(a, f, lo, hi);
  }

  /** The mean of values bounded by `lo` and `hi` is bounded by them too. */
  lemma MeanWithin<T>(a: seq<T>, f: T -> real, lo: real, hi: real) returns (avg: real)
    requires |a| > 0
    requires forall i :: 0 <= i < |a| ==> lo <= f(a[i]) <= hi
    ensures avg == SumOf(a, f) / (|a| as real)
    ensures lo <= avg <= hi
  {
    SumOfBounds(a, f, lo, hi);
    avg := MeanBetween(SumOf(a, f), |a| as real, lo, hi);
  }

  lemma MeanBetween(sum: real, n: real, lo: real, hi: real) returns (avg: real)
    requires n > 0.0 && n * lo <= sum <= n * hi
    ensures avg == sum / n
    ensures lo <= avg <= hi
  {
    avg := sum / n;
    assert avg * n == sum;
    if avg < lo {
      ScaleStrict(avg, lo, n);
    }
    if hi < avg {
      ScaleStrict(hi, avg, n);
    }
  }

  /** A median lies between the smallest and the largest mapped value. */
  lemma MedianOfBetween<T>(a: seq<T>, f: T -> real)
    requires |a| > 0
    ensures MinimumOf(a, f).v <= MedianOf(a, f, 0.0) <= MaximumOf(a, f).v
  {
    if |a| >= 2 {
      var m := Map(a, f);
      var s := Sort(m);
      var lo := MinimumOf(a, f).v;
      var hi := MaximumOf(a, f).v;
      forall k | 0 <= k < |s|
        ensures lo <= s[k] <= hi
      {
        assert s[k] in multiset(m);
        var i :| 0 <= i < |m| && m[i] == s[k];
      }
    }
  }

  /** Sorting changes neither length nor contents, and a sorted list is its own sort. */
  lemma {:induction false} SortOfSorted(s: seq<real>)
    requires SortedAsc(s)
    ensures Sort(s) == s
    decreases |s|
  {
    if |s| > 0 {
      SortOfSorted(s[1..]);
      assert Sort(s[1..]) == s[1..];
      assert s == [s[0]] + s[1..];
    }
  }
}
