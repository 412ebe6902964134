/** `lineNodeSplit`: a line of n vertices is cut at every interior vertex into
    n - 1 two-vertex lines. */
module NodeSplit {
  import opened Geometry
  import opened FeatureSource

  /** The consecutive two-vertex pieces of a line: piece i runs from vertex i
      to vertex i + 1. */
  function Segments(cs: seq<Coord>): seq<seq<Coord>>
    requires |cs| > 0
  {
    seq(|cs| - 1, i requires 0 <= i < |cs| - 1 => cs[i..i + 2])
  }

  /** Joins a chain of two-vertex pieces back into one line: the first vertex
      of every piece, then the last vertex of the final piece. */
  function Join(segs: seq<seq<Coord>>): seq<Coord>
    requires |segs| > 0 && forall i :: 0 <= i < |segs| ==> |segs[i]| == 2
  {
    if |segs| == 1 then segs[0] else [segs[0][0]] + Join(segs[1..])
  }

  /** The pieces of a line form a chain: each has two vertices and ends where
      the next one starts. */
  lemma SegmentsChain(cs: seq<Coord>)
    requires |cs| > 0
    ensures |Segments(cs)| == |cs| - 1
    ensures forall i :: 0 <= i < |cs| - 1 ==> Segments(cs)[i] == [cs[i], cs[i + 1]]
    ensures forall i :: 0 <= i < |cs| - 2 ==> Segments(cs)[i][1] == Segments(cs)[i + 1][0]
  {
    forall i | 0 <= i < |cs| - 1 ensures Segments(cs)[i] == [cs[i], cs[i + 1]] {
      assert cs[i..i + 2] == [cs[i], cs[i + 1]];
    }
  }

  /** Joining the pieces of a line gives the line back: no vertex is lost,
      repeated or reordered. */
  lemma {:induction false} JoinSegments(cs: seq<Coord>)
    requires |cs| >= 2
    ensures forall i :: 0 <= i < |Segments(cs)| ==> |Segments(cs)[i]| == 2
    ensures Join(Segments(cs)) == cs
  {
    var segs := Segments(cs);
    if |cs| == 2 {
      assert segs == [cs[0..2]];
      assert cs[0..2] == cs;
    } else {
      forall i | 0 <= i < |cs| - 2 ensures segs[1..][i] == Segments(cs[1..])[i] {
        assert cs[1..][i..i + 2] == cs[i + 1..i + 3];
      }
      assert segs[1..] == Segments(cs[1..]);
      JoinSegments(cs[1..]);
      assert cs == [cs[0]] + cs[1..];
    }
  }

  /** The new lines of a node split: pieces 1 to n - 2, in order. Each is a
      line of two vertices that starts where the previous one ends. */
  function NewPieces(cs: seq<Coord>): (r: seq<Geometry>)
    requires |cs| > 2
    ensures |r| == |cs| - 2
    ensures forall k :: 0 <= k < |r| ==> r[k].LineString? && |r[k].coords| == 2
    ensures forall k :: 0 <= k < |r| - 1 ==> r[k].coords[1] == r[k + 1].coords[0]
  {
    seq(|cs| - 2, k requires 0 <= k < |cs| - 2 => LineString(cs[k + 1..k + 3]))
  }

  /** The first piece, kept by the original feature, followed by the new
      pieces are exactly the pieces of the line; so together they join back
      into the line. */
  lemma NodeSplitPieces(cs: seq<Coord>)
    requires |cs| > 2
    ensures |NewPieces(cs)| == |cs| - 2
    ensures cs[..2] == Segments(cs)[0]
    ensures forall k :: 0 <= k < |cs| - 2 ==> NewPieces(cs)[k] == LineString(Segments(cs)[k + 1])
    ensures Join([cs[..2]] + seq(|cs| - 2, k requires 0 <= k < |cs| - 2 => NewPieces(cs)[k].coords)) == cs
  {
    var joined := [cs[..2]] + seq(|cs| - 2, k requires 0 <= k < |cs| - 2 => NewPieces(cs)[k].coords);
    forall i | 0 <= i < |cs| - 1 ensures joined[i] == Segments(cs)[i] {
      if i == 0 {
        assert cs[..2] == cs[0..2];
      } else {
        assert joined[i] == NewPieces(cs)[i - 1].coords == cs[i..i + 2];
      }
    }
    assert joined == Segments(cs);
    JoinSegments(cs);
  }

  /** A four-vertex line A-B-C-D keeps A-B and yields the new lines B-C and C-D. */
  lemma NodeSplitFourVertices(a: Coord, b: Coord, c: Coord, d: Coord)
    ensures [a, b, c, d][..2] == [a, b]
    ensures NewPieces([a, b, c, d]) == [LineString([b, c]), LineString([c, d])]
  {
    assert [a, b, c, d][1..3] == [b, c];
    assert [a, b, c, d][2..4] == [c, d];
  }

  /** `lineNodeSplit`. A line of more than two vertices keeps its first piece
      and every later piece of two vertices becomes a new feature without
      attributes; the last one-vertex slice is never added. Shorter lines are
      refused; multi-lines and other kinds are left alone. */
  method LineNodeSplit(store: FeatureStore, f: Feature) returns (outcome: Outcome)
    requires store.Valid() && Current(store.features, f)
    modifies store
    ensures store.Valid()
    ensures f.geom.LineString? && |f.geom.coords| > 2 ==>
              outcome == Done
              && store.nextId == old(store.nextId) + |f.geom.coords| - 2
              && store.features == Replace(old(store.features), f.id, LineString(f.geom.coords[..2]))
                                   + Fragments(old(store.nextId), NewPieces(f.geom.coords))
    ensures f.geom.LineString? && |f.geom.coords| <= 2 ==>
              outcome == Refused(NothingToSplit)
              && store.features == old(store.features) && store.nextId == old(store.nextId)
    ensures !f.geom.LineString? ==>
              outcome == Ignored
              && store.features == old(store.features) && store.nextId == old(store.nextId)
  {
    if !f.geom.LineString? {
      return Ignored;
    }
    // The source also tests for a Multi kind inside this branch; it cannot
    // be one here, so only the single-line case is modelled.
    var cs := f.geom.coords;
    if |cs| <= 2 {
      return Refused(NothingToSplit);
    }
    var n := |cs|;
    var pieces := NewPieces(cs);
    ghost var start := store.nextId;
    ghost var first := Replace(old(store.features), f.id, LineString(cs[..2]));
    for i := 0 to n
      invariant store.Valid()
      invariant i == 0 ==> store.features == old(store.features) && store.nextId == start
      invariant 0 < i < n ==>
                  store.nextId == start + (i - 1)
                  && store.features == first + Fragments(start, pieces[..i - 1])
      invariant i == n ==>
                  store.nextId == start + (n - 2)
                  && store.features == first + Fragments(start, pieces[..n - 2])
    {
      // `coords.slice(i, i + 2)`: the end is clamped to the length
      var coord := cs[i..if i + 2 <= n then i + 2 else n];
      if i == 0 {
        assert coord == cs[..2];
        store.SetGeometry(f.id, LineString(coord));
        assert Fragments(start, pieces[..0]) == [];
      } else if |coord| > 1 {
        var id := store.AddFeature(LineString(coord), map[]);
        assert pieces[i - 1] == LineString(coord);
        assert Fragments(start, pieces[..i]) == Fragments(start, pieces[..i - 1]) + [Feature(id, pieces[i - 1], map[])];
      }
    }
    assert pieces[..n - 2] == pieces;
    outcome := Done;
  }
}
