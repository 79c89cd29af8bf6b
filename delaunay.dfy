/**
 * The triangle-grouping loop of `delaunay`: the triangulator's flat index list
 * (three source indices per triangle) becomes one record per triangle holding
 * its polygon, its three source items and their aggregate. The triangulation
 * itself is an input.
 */
module DelaunayGroup {
  import opened Geom

  /** One triangle: the polygon through the item points, the items, and `aggregator(items)`. */
  datatype Triangle<T, A> = Triangle(polygon: seq<Point>, items: seq<T>, agg: A)

  /** What a triangulator hands back for `n` source points: whole triples of valid indices. */
  predicate Triangulation(triangles: seq<nat>, n: nat) {
    |triangles| % 3 == 0 && forall j :: 0 <= j < |triangles| ==> triangles[j] < n
  }

  /** The record for the triple starting at position `i` of the index list. */
  function TriangleAt<T, A>(source: seq<T>, triangles: seq<nat>, i: nat, pointOf: T -> Point,
                            aggregator: seq<T> -> A, closePolygon: bool): Triangle<T, A>
    requires i + 2 < |triangles| && Triangulation(triangles, |source|)
  {
    var items := [source[triangles[i]], source[triangles[i + 1]], source[triangles[i + 2]]];
    var points := [pointOf(items[0]), pointOf(items[1]), pointOf(items[2])];
    Triangle(points + (if closePolygon then [points[0]] else []), items, aggregator(items))
  }

  /** All triangles of the triangulation, in index-list order. */
  function Grouped<T, A>(source: seq<T>, triangles: seq<nat>, pointOf: T -> Point,
                         aggregator: seq<T> -> A, closePolygon: bool): (r: seq<Triangle<T, A>>)
    requires Triangulation(triangles, |source|)
    ensures |r| == |triangles| / 3
  {
    seq(|triangles| / 3, k requires 0 <= k < |triangles| / 3 =>
      TriangleAt(source, triangles, 3 * k, pointOf, aggregator, closePolygon))
  }

  /** The loop stepping `i` by 3 and pushing one record per triangle. */
  method Delaunay<T, A>(source: seq<T>, triangles: seq<nat>, pointOf: T -> Point,
                        aggregator: seq<T> -> A, closePolygon: bool) returns (result: seq<Triangle<T, A>>)
    requires Triangulation(triangles, |source|)
    ensures result == Grouped(source, triangles, pointOf, aggregator, closePolygon)
  {
    result := [];
    var i := 0;
    while i < |triangles|
      invariant i == 3 * |result| && i <= |triangles|
      invariant forall k :: 0 <= k < |result| ==>
        result[k] == TriangleAt(source, triangles, 3 * k, pointOf, aggregator, closePolygon)
    {
      var items := [source[triangles[i]], source[triangles[i + 1]], source[triangles[i + 2]]];
      var originPoints := [pointOf(items[0]), pointOf(items[1]), pointOf(items[2])];
      var polygon := originPoints + (if closePolygon then [originPoints[0]] else []);
      result := result + [Triangle(polygon, items, aggregator(items))];
      i := i + 3;
    }
  }

  /**
   * Triangle `k` holds the source entries at positions `3k`, `3k+1`, `3k+2` of
   * the index list, its polygon runs through their points (closed back to the
   * first when asked), and its aggregate is that of exactly those items.
   */
  lemma GroupedShape<T, A>(source: seq<T>, triangles: seq<nat>, k: nat, pointOf: T -> Point,
                           aggregator: seq<T> -> A, closePolygon: bool)
    requires Triangulation(triangles, |source|) && k < |triangles| / 3
    ensures var t := Grouped(source, triangles, pointOf, aggregator, closePolygon)[k];
      && |t.items| == 3
      && (forall j :: 0 <= j < 3 ==> t.items[j] == source[triangles[3 * k + j]] && t.polygon[j] == pointOf(t.items[j]))
      && |t.polygon| == (if closePolygon then 4 else 3)
      && (closePolygon ==> t.polygon[3] == t.polygon[0])
      && t.agg == aggregator(t.items)
  {
    assert 3 * k + 2 < |triangles| by {
      assert |triangles| == |triangles| / 3 * 3;
    }
  }
}
