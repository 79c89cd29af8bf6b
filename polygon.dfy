/**
 * `polygonFromStream`: a flat stream of vertex indices, read three at a time,
 * becomes closed triangles over a list of origin points. A read past the end
 * of the stream, or of an index past the end of `origin`, is JavaScript's
 * `undefined` and shows up here as `None`.
 */
module PolygonStream {
  import opened Wrappers
  import opened Geom

  /** `origin[stream[j]]`. */
  function Vertex(stream: seq<nat>, origin: seq<Point>, j: nat): Option<Point> {
    if j < |stream| && stream[j] < |origin| then Some(origin[stream[j]]) else None
  }

  /** The coordinates built for the triple starting at stream position `i`: the first vertex is repeated to close it. */
  function TriangleAt(stream: seq<nat>, origin: seq<Point>, i: nat): seq<Option<Point>> {
    [Vertex(stream, origin, i), Vertex(stream, origin, i + 1), Vertex(stream, origin, i + 2), Vertex(stream, origin, i)]
  }

  /** The loop stepping `i` by 3 and pushing one polygon per started triple. */
  method PolygonFromStream(stream: seq<nat>, origin: seq<Point>) returns (result: seq<seq<Option<Point>>>)
    ensures |result| == (|stream| + 2) / 3
    ensures forall k :: 0 <= k < |result| ==> result[k] == TriangleAt(stream, origin, 3 * k)
  {
    result := [];
    var i := 0;
    while i < |stream|
      invariant i == 3 * |result| && i <= |stream| + 2
      invariant forall k :: 0 <= k < |result| ==> result[k] == TriangleAt(stream, origin, 3 * k)
    {
      var coords := [Vertex(stream, origin, i), Vertex(stream, origin, i + 1), Vertex(stream, origin, i + 2), Vertex(stream, origin, i)];
      result := result + [coords];
      i := i + 3;
    }
  }

  /** Every index of the stream names a point of `origin`. */
  predicate IndicesValid(stream: seq<nat>, origin: seq<Point>) {
    forall j :: 0 <= j < |stream| ==> stream[j] < |origin|
  }

  /**
   * Polygon `k` of the result is closed (four coordinates, last equal to first),
   * its first vertex is always defined when the indices are valid, and a
   * complete triple gives exactly the three origin points it names.
   */
  lemma TriangleShape(stream: seq<nat>, origin: seq<Point>, k: nat)
    requires IndicesValid(stream, origin) && k < (|stream| + 2) / 3
    ensures var t := TriangleAt(stream, origin, 3 * k);
      && |t| == 4 && t[3] == t[0] && t[0] == Some(origin[stream[3 * k]])
      && (3 * k + 2 < |stream| ==>
            t[1] == Some(origin[stream[3 * k + 1]]) && t[2] == Some(origin[stream[3 * k + 2]]))
  {
  }

  /** When the stream is a whole number of triples, no polygon has an undefined vertex. */
  lemma WholeTriplesDefined(stream: seq<nat>, origin: seq<Point>, k: nat, j: nat)
    requires IndicesValid(stream, origin) && |stream| % 3 == 0 && k < (|stream| + 2) / 3 && j < 4
    ensures TriangleAt(stream, origin, 3 * k)[j].Some?
  {
    assert (|stream| + 2) / 3 == |stream| / 3;
    assert |stream| / 3 * 3 == |stream|;
    assert 3 * k + 3 <= |stream|;
  }
}
