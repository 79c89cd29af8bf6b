/**
 * Gallery paths as JavaScript sees them: `String.prototype.split("/")` and
 * `Array.prototype.join("/")`, which undo each other.
 */
module Paths {
  const Sep: char := '/'

  /** No part of the string is a separator. */
  predicate NoSep(s: string) {
    forall i :: 0 <= i < |s| ==> s[i] != Sep
  }

  /** `s.split("/")`: the pieces between separators; "" splits into [""]. */
  function Split(s: string): (parts: seq<string>)
    ensures |parts| >= 1
    ensures forall i :: 0 <= i < |parts| ==> NoSep(parts[i])
  {
    if |s| == 0 then [""]
    else if s[0] == Sep then [""] + Split(s[1..])
    else
      var rest := Split(s[1..]);
      [[s[0]] + rest[0]] + rest[1..]
  }

  /** `parts.join("/")`. */
  function Join(parts: seq<string>): (r: string)
    ensures |parts| > 0 ==> parts[0] <= r
    ensures |parts| == 1 ==> r == parts[0]
  {
    if |parts| == 0 then ""
    else if |parts| == 1 then parts[0]
    else parts[0] + [Sep] + Join(parts[1..])
  }

  /** Prefixing a character to the first piece prefixes it to the joined string. */
  lemma {:induction false} JoinPrepend(c: char, parts: seq<string>)
    requires |parts| > 0
    ensures Join([[c] + parts[0]] + parts[1..]) == [c] + Join(parts)
  {
    var moved := [[c] + parts[0]] + parts[1..];
    if |parts| == 1 {
      assert moved == [[c] + parts[0]];
    } else {
      assert moved[1..] == parts[1..];
      var tail := Join(parts[1..]);
      assert Join(moved) == ([c] + parts[0]) + [Sep] + tail;
      assert Join(parts) == parts[0] + [Sep] + tail;
      assert ([c] + parts[0]) + [Sep] + tail == [c] + (parts[0] + [Sep] + tail);
    }
  }

  /** Joining the pieces of a split gives the string back. */
  lemma {:induction false} JoinSplit(s: string)
    ensures Join(Split(s)) == s
  {
    if |s| == 0 {
    } else if s[0] == Sep {
      JoinSplit(s[1..]);
      assert s == [Sep] + s[1..];
    } else {
      JoinSplit(s[1..]);
      JoinPrepend(s[0], Split(s[1..]));
      assert s == [s[0]] + s[1..];
    }
  }

  /** A separator-free head splits off as one piece. */
  lemma {:induction false} SplitAfter(a: string, t: string)
    requires NoSep(a)
    ensures Split(a + [Sep] + t) == [a] + Split(t)
  {
    if |a| == 0 {
      assert a + [Sep] + t == [Sep] + t;
      assert ([Sep] + t)[1..] == t;
    } else {
      var s := a + [Sep] + t;
      assert s[1..] == a[1..] + [Sep] + t;
      SplitAfter(a[1..], t);
      assert [s[0]] + a[1..] == a;
    }
  }

  /** A separator-free string is a single piece. */
  lemma {:induction false} SplitWhole(a: string)
    requires NoSep(a)
    ensures Split(a) == [a]
  {
    if |a| > 0 {
      SplitWhole(a[1..]);
      assert [a[0]] + a[1..] == a;
    }
  }

  /** Splitting a join of separator-free pieces gives the pieces back. */
  lemma {:induction false} SplitJoin(parts: seq<string>)
    requires |parts| >= 1
    requires forall i :: 0 <= i < |parts| ==> NoSep(parts[i])
    ensures Split(Join(parts)) == parts
  {
    if |parts| == 1 {
      SplitWhole(parts[0]);
    } else {
      SplitJoin(parts[1..]);
      SplitAfter(parts[0], Join(parts[1..]));
      assert [parts[0]] + parts[1..] == parts;
    }
  }

  /** `parts.filter(p => !drop(p))`, in order. */
  function Remove(parts: seq<string>, drop: string -> bool): (r: seq<string>)
    ensures |r| <= |parts|
    ensures forall i :: 0 <= i < |r| ==> !drop(r[i]) && r[i] in parts
    ensures forall p :: p in parts && !drop(p) ==> p in r
  {
    if |parts| == 0 then []
    else if drop(parts[0]) then Remove(parts[1..], drop)
    else [parts[0]] + Remove(parts[1..], drop)
  }

  /** Every kept piece occurs as often as in the input, every dropped one not at all. */
  lemma {:induction false} RemoveCounts(parts: seq<string>, drop: string -> bool, p: string)
    ensures !drop(p) ==> multiset(Remove(parts, drop))[p] == multiset(parts)[p]
    ensures drop(p) ==> multiset(Remove(parts, drop))[p] == 0
    decreases |parts|
  {
    if |parts| > 0 {
      assert parts == [parts[0]] + parts[1..];
      RemoveCounts(parts[1..], drop, p);
    }
  }

  /**
   * The filter keeps the order of the pieces: filtering a concatenation is the
   * concatenation of the filtered halves, so each kept piece stays where it was
   * relative to the others.
   */
  lemma {:induction false} RemoveAppend(a: seq<string>, b: seq<string>, drop: string -> bool)
    ensures Remove(a + b, drop) == Remove(a, drop) + Remove(b, drop)
    decreases |a|
  {
    if |a| == 0 {
      assert a + b == b;
    } else {
      assert (a + b)[1..] == a[1..] + b;
      RemoveAppend(a[1..], b, drop);
    }
  }
}
