/** Coordinate trees of the six feature kinds, and the two pure coordinate
    rewrites of the editor: straightening and reversing. */
module Geometry {

  /** A planar coordinate. The editor only ever compares coordinates for
      exact equality, so any type with equality would do. */
  datatype Coord = Coord(x: real, y: real)

  datatype Kind = PointKind | LineStringKind | PolygonKind
                | MultiPointKind | MultiLineStringKind | MultiPolygonKind

  /** The coordinate tree of a feature, tagged by its kind. */
  datatype Geometry =
    | Point(coord: Coord)
    | LineString(coords: seq<Coord>)
    | Polygon(rings: seq<seq<Coord>>)
    | MultiPoint(points: seq<Coord>)
    | MultiLineString(lines: seq<seq<Coord>>)
    | MultiPolygon(polygons: seq<seq<seq<Coord>>>)
  {
    function KindOf(): Kind {
      match this
      case Point(_) => PointKind
      case LineString(_) => LineStringKind
      case Polygon(_) => PolygonKind
      case MultiPoint(_) => MultiPointKind
      case MultiLineString(_) => MultiLineStringKind
      case MultiPolygon(_) => MultiPolygonKind
    }
  }

  /** A ring is closed: its last coordinate repeats its first. */
  predicate IsClosedRing(ring: seq<Coord>) {
    |ring| >= 2 && ring[|ring| - 1] == ring[0]
  }

  /** The first and the last element of a coordinate array. */
  function Ends<T>(s: seq<T>): seq<T>
    requires |s| > 0
  {
    [s[0], s[|s| - 1]]
  }

  /** What `Array.prototype.reverse` leaves in an array: the same elements,
      as many times each. */
  function Reversed<T>(s: seq<T>): (r: seq<T>)
    ensures |r| == |s|
    ensures multiset(r) == multiset(s)
  {
    if |s| == 0 then []
    else
      assert s == s[..|s| - 1] + [s[|s| - 1]];
      [s[|s| - 1]] + Reversed(s[..|s| - 1])
  }

  /** Reversing a point's coordinate array `[x, y]` gives `[y, x]`. */
  function Swap(c: Coord): Coord {
    Coord(c.y, c.x)
  }

  /** Every coordinate array that straightening indexes is non-empty. */
  predicate NonEmptyParts(g: Geometry) {
    match g
    case Point(_) => true
    case LineString(cs) => |cs| > 0
    case Polygon(rs) => |rs| > 0
    case MultiPoint(_) => true
    case MultiLineString(ls) => forall i :: 0 <= i < |ls| ==> |ls[i]| > 0
    case MultiPolygon(ps) => forall i :: 0 <= i < |ps| ==> |ps[i]| > 0
  }

  /** Straightening replaces the coordinate array by its first and last
      element, part by part for a Multi kind. A point's `[x, y]` and a
      multi-point's parts are already two elements long and stay as they are.
      The kind is kept, and so is the number of parts of a Multi kind. */
  function Straighten(g: Geometry): (r: Geometry)
    requires NonEmptyParts(g)
    ensures r.KindOf() == g.KindOf()
    ensures r.MultiLineString? ==> |r.lines| == |g.lines|
    ensures r.MultiPolygon? ==> |r.polygons| == |g.polygons|
    ensures r.MultiPoint? ==> |r.points| == |g.points|
    ensures r.LineString? ==> |r.coords| == 2
    ensures r.Polygon? ==> |r.rings| == 2
  {
    match g
    case Point(c) => Point(c)
    case LineString(cs) => LineString(Ends(cs))
    case Polygon(rs) => Polygon(Ends(rs))
    case MultiPoint(ps) => MultiPoint(ps)
    case MultiLineString(ls) =>
      MultiLineString(seq(|ls|, i requires 0 <= i < |ls| => Ends(ls[i])))
    case MultiPolygon(ps) =>
      MultiPolygon(seq(|ps|, i requires 0 <= i < |ps| => Ends(ps[i])))
  }

  /** Reversing reverses the coordinate array, part by part for a Multi kind.
      The kind, the number of parts and every part's length are kept. */
  function Reverse(g: Geometry): (r: Geometry)
    ensures r.KindOf() == g.KindOf()
    ensures r.LineString? ==> |r.coords| == |g.coords|
    ensures r.Polygon? ==> |r.rings| == |g.rings|
    ensures r.MultiPoint? ==> |r.points| == |g.points|
    ensures r.MultiLineString? ==>
              |r.lines| == |g.lines| && forall i :: 0 <= i < |r.lines| ==> |r.lines[i]| == |g.lines[i]|
    ensures r.MultiPolygon? ==>
              |r.polygons| == |g.polygons|
              && forall i :: 0 <= i < |r.polygons| ==> |r.polygons[i]| == |g.polygons[i]|
  {
    match g
    case Point(c) => Point(Swap(c))
    case LineString(cs) => LineString(Reversed(cs))
    case Polygon(rs) => Polygon(Reversed(rs))
    case MultiPoint(ps) => MultiPoint(seq(|ps|, i requires 0 <= i < |ps| => Swap(ps[i])))
    case MultiLineString(ls) =>
      MultiLineString(seq(|ls|, i requires 0 <= i < |ls| => Reversed(ls[i])))
    case MultiPolygon(ps) =>
      MultiPolygon(seq(|ps|, i requires 0 <= i < |ps| => Reversed(ps[i])))
  }

  // ---------------------------------------------------------------------------
  // Reversal

  /** Element k of a reversed array is element |s|-1-k of the original. */
  lemma {:induction false} ReversedAt<T>(s: seq<T>, k: nat)
    requires k < |s|
    ensures Reversed(s)[k] == s[|s| - 1 - k]
  {
    if k > 0 {
      ReversedAt(s[..|s| - 1], k - 1);
    }
  }

  /** Reversing an array twice restores it. */
  lemma {:induction false} ReversedTwice<T>(s: seq<T>)
    ensures Reversed(Reversed(s)) == s
  {
    var r := Reversed(s);
    var rr := Reversed(r);
    assert |rr| == |s|;
    forall k | 0 <= k < |s|
      ensures rr[k] == s[k]
    {
      ReversedAt(r, k);
      ReversedAt(s, |s| - 1 - k);
    }
  }

  /** Reversing a line swaps its endpoints and keeps its vertex count. */
  lemma ReverseLine(cs: seq<Coord>)
    requires |cs| > 0
    ensures Reverse(LineString(cs)).LineString?
    ensures |Reverse(LineString(cs)).coords| == |cs|
    ensures Reverse(LineString(cs)).coords[0] == cs[|cs| - 1]
    ensures Reverse(LineString(cs)).coords[|cs| - 1] == cs[0]
  {
    ReversedAt(cs, 0);
    ReversedAt(cs, |cs| - 1);
  }

  /** A multi-line is reversed part by part: same parts, same part order,
      each part's vertices in reverse order. */
  lemma ReverseMultiLine(ls: seq<seq<Coord>>, i: nat, k: nat)
    requires i < |ls| && k < |ls[i]|
    ensures Reverse(MultiLineString(ls)).MultiLineString?
    ensures |Reverse(MultiLineString(ls)).lines| == |ls|
    ensures |Reverse(MultiLineString(ls)).lines[i]| == |ls[i]|
    ensures Reverse(MultiLineString(ls)).lines[i][k] == ls[i][|ls[i]| - 1 - k]
  {
    ReversedAt(ls[i], k);
  }

  /** Reversing twice gives back the original geometry, for every kind. */
  lemma ReverseInvolution(g: Geometry)
    ensures Reverse(Reverse(g)) == g
  {
    match g
    case Point(c) =>
    case LineString(cs) => ReversedTwice(cs);
    case Polygon(rs) => ReversedTwice(rs);
    case MultiPoint(ps) =>
      assert Reverse(Reverse(g)).points == ps;
    case MultiLineString(ls) =>
      forall i | 0 <= i < |ls| ensures Reversed(Reversed(ls[i])) == ls[i] {
        ReversedTwice(ls[i]);
      }
      assert Reverse(Reverse(g)).lines == ls;
    case MultiPolygon(ps) =>
      forall i | 0 <= i < |ps| ensures Reversed(Reversed(ps[i])) == ps[i] {
        ReversedTwice(ps[i]);
      }
      assert Reverse(Reverse(g)).polygons == ps;
  }

  // ---------------------------------------------------------------------------
  // Straightening

  /** A straightened line consists of exactly the original first and last vertex. */
  lemma StraightenLine(cs: seq<Coord>)
    requires |cs| > 0
    ensures Straighten(LineString(cs)) == LineString([cs[0], cs[|cs| - 1]])
    ensures |cs| == 2 ==> Straighten(LineString(cs)) == LineString(cs)
  {
  }

  /** A straightened multi-line keeps its part count and order; every part
      becomes its own first and last vertex. */
  lemma StraightenMultiLine(ls: seq<seq<Coord>>)
    requires NonEmptyParts(MultiLineString(ls))
    ensures Straighten(MultiLineString(ls)).MultiLineString?
    ensures |Straighten(MultiLineString(ls)).lines| == |ls|
    ensures forall i :: 0 <= i < |ls| ==>
              Straighten(MultiLineString(ls)).lines[i] == [ls[i][0], ls[i][|ls[i]| - 1]]
  {
  }

  /** A straightened polygon keeps exactly its first and last ring. */
  lemma StraightenPolygon(rs: seq<seq<Coord>>)
    requires |rs| > 0
    ensures Straighten(Polygon(rs)) == Polygon([rs[0], rs[|rs| - 1]])
    ensures |rs| == 2 ==> Straighten(Polygon(rs)) == Polygon(rs)
  {
  }

  /** A straightened multi-polygon keeps its part count and order; every
      part becomes its own first and last ring. */
  lemma StraightenMultiPolygon(ps: seq<seq<seq<Coord>>>)
    requires NonEmptyParts(MultiPolygon(ps))
    ensures Straighten(MultiPolygon(ps)).MultiPolygon?
    ensures |Straighten(MultiPolygon(ps)).polygons| == |ps|
    ensures forall i :: 0 <= i < |ps| ==>
              Straighten(MultiPolygon(ps)).polygons[i] == [ps[i][0], ps[i][|ps[i]| - 1]]
  {
  }

  /** A straightened multi-point is the multi-point itself: each part is a
      point's `[x, y]`, already its own first and last element. */
  lemma StraightenMultiPoint(ps: seq<Coord>)
    ensures Straighten(MultiPoint(ps)) == MultiPoint(ps)
  {
  }

  /** Straightening is idempotent. */
  lemma StraightenIdempotent(g: Geometry)
    requires NonEmptyParts(g)
    ensures NonEmptyParts(Straighten(g))
    ensures Straighten(Straighten(g)) == Straighten(g)
  {
    match g
    case MultiLineString(ls) =>
      assert Straighten(Straighten(g)).lines == Straighten(g).lines;
    case MultiPolygon(ps) =>
      assert Straighten(Straighten(g)).polygons == Straighten(g).polygons;
    case _ =>
  }

  /** A geometry whose every part already has exactly two elements is left
      unchanged by straightening. */
  lemma StraightenKeepsTwoElementParts(g: Geometry)
    requires g.LineString? ==> |g.coords| == 2
    requires g.Polygon? ==> |g.rings| == 2
    requires g.MultiLineString? ==> forall i :: 0 <= i < |g.lines| ==> |g.lines[i]| == 2
    requires g.MultiPolygon? ==> forall i :: 0 <= i < |g.polygons| ==> |g.polygons[i]| == 2
    ensures NonEmptyParts(g)
    ensures Straighten(g) == g
  {
    match g
    case MultiLineString(ls) =>
      forall i | 0 <= i < |ls| ensures Ends(ls[i]) == ls[i] {
        assert Ends(ls[i])[1] == ls[i][1];
      }
      assert Straighten(g).lines == ls;
    case MultiPolygon(ps) =>
      forall i | 0 <= i < |ps| ensures Ends(ps[i]) == ps[i] {
        assert Ends(ps[i])[1] == ps[i][1];
      }
      assert Straighten(g).polygons == ps;
    case _ =>
  }
}
