/** The merge verbs: `pointMerge`, `lineStringMerge` and `polygonMerge`. Each
    dispatches on the kind of the first selected feature; the caller has
    already made every selected feature share that kind. */
module Merge {
  import opened Geometry
  import opened GeometryKernel
  import opened FeatureSource

  datatype Option<T> = None | Some(value: T)

  // ---------------------------------------------------------------------------
  // Endpoint adjacency of the line merge

  predicate NonEmptyLines(lines: seq<seq<Coord>>) {
    forall i :: 0 <= i < |lines| ==> |lines[i]| > 0
  }

  /** `sDuplicate`: the start of `a` is the start or the end of `b`. */
  predicate StartTouches(a: seq<Coord>, b: seq<Coord>)
    requires |a| > 0 && |b| > 0
  {
    a[0] == b[0] || a[0] == b[|b| - 1]
  }

  /** `eDuplicate`: the end of `a` is the start or the end of `b`. */
  predicate EndTouches(a: seq<Coord>, b: seq<Coord>)
    requires |a| > 0 && |b| > 0
  {
    a[|a| - 1] == b[0] || a[|a| - 1] == b[|b| - 1]
  }

  /** An endpoint of `a` coincides with an endpoint of `b`. */
  predicate Adjacent(a: seq<Coord>, b: seq<Coord>)
    requires |a| > 0 && |b| > 0
  {
    StartTouches(a, b) || EndTouches(a, b)
  }

  /** The condition under which the line merge goes ahead: the first line
      shares an endpoint with some other selected line. No other pair is
      looked at. */
  predicate FirstTouchesAnother(lines: seq<seq<Coord>>)
    requires |lines| > 0 && NonEmptyLines(lines)
  {
    exists j :: 1 <= j < |lines| && Adjacent(lines[0], lines[j])
  }

  /** The check reads the first vertex of the first line and of every other
      line; when there is another line and one of them has no vertex, that
      read throws. A lone line is compared with nothing. */
  predicate CheckThrows(lines: seq<seq<Coord>>) {
    |lines| >= 2 && !NonEmptyLines(lines)
  }

  /** The check lets the merge go ahead. */
  predicate MayMerge(lines: seq<seq<Coord>>)
    requires |lines| > 0
  {
    NonEmptyLines(lines) && FirstTouchesAnother(lines)
  }

  datatype Verdict = Connected | Isolated | Threw

  /** The connectivity check of `lineStringMerge`: counts, for the first line,
      the other lines its start touches and those its end touches. The outer
      loop of the check leaves on its first pass whatever the counts are, so
      only the first line is examined. */
  method CheckConnected(lines: seq<seq<Coord>>) returns (verdict: Verdict)
    requires |lines| > 0
    ensures verdict == Threw <==> CheckThrows(lines)
    ensures verdict == Connected <==> MayMerge(lines)
  {
    var a := lines[0];
    var sNum, eNum := 0, 0;
    for j := 0 to |lines|
      invariant j >= 2 ==> |lines[0]| > 0
      invariant forall j' :: 1 <= j' < j ==> |lines[j']| > 0
      invariant (sNum == 0 && eNum == 0) <==>
                  forall j' :: 1 <= j' < j ==> !Adjacent(lines[0], lines[j'])
    {
      if j != 0 {
        var b := lines[j];
        if |a| == 0 || |b| == 0 {
          // `a[0][0]` or `b[0][0]` reads a property of undefined
          return Threw;
        }
        if StartTouches(a, b) {
          sNum := sNum + 1;
        }
        if EndTouches(a, b) {
          eNum := eNum + 1;
        }
      }
    }
    verdict := if sNum == 0 && eNum == 0 then Isolated else Connected;
  }

  /** The check refuses a selection whose first line is isolated even when
      other selected lines share endpoints with each other. */
  lemma OnlyFirstLineChecked()
    ensures var lines := [[Coord(0.0, 0.0), Coord(1.0, 0.0)],
                          [Coord(5.0, 5.0), Coord(6.0, 6.0)],
                          [Coord(6.0, 6.0), Coord(7.0, 7.0)]];
            !FirstTouchesAnother(lines) && Adjacent(lines[1], lines[2])
  {
    var lines := [[Coord(0.0, 0.0), Coord(1.0, 0.0)],
                  [Coord(5.0, 5.0), Coord(6.0, 6.0)],
                  [Coord(6.0, 6.0), Coord(7.0, 7.0)]];
    assert !Adjacent(lines[0], lines[1]) && !Adjacent(lines[0], lines[2]);
  }

  /** Two lines meeting end to start pass the check. */
  lemma TouchingLinesAccepted()
    ensures FirstTouchesAnother([[Coord(0.0, 0.0), Coord(1.0, 0.0)],
                                 [Coord(1.0, 0.0), Coord(2.0, 0.0)]])
  {
    var lines := [[Coord(0.0, 0.0), Coord(1.0, 0.0)], [Coord(1.0, 0.0), Coord(2.0, 0.0)]];
    assert Adjacent(lines[0], lines[1]);
  }

  // ---------------------------------------------------------------------------
  // Views of a selection

  function Geoms(sel: seq<Feature>): seq<Geometry> {
    seq(|sel|, i requires 0 <= i < |sel| => sel[i].geom)
  }

  predicate AllLineStrings(sel: seq<Feature>) {
    forall i :: 0 <= i < |sel| ==> sel[i].geom.LineString?
  }

  function Lines(sel: seq<Feature>): seq<seq<Coord>>
    requires AllLineStrings(sel)
  {
    seq(|sel|, i requires 0 <= i < |sel| => sel[i].geom.coords)
  }

  predicate AllPoints(sel: seq<Feature>) {
    forall i :: 0 <= i < |sel| ==> sel[i].geom.Point?
  }

  function PointCoords(sel: seq<Feature>): seq<Coord>
    requires AllPoints(sel)
  {
    seq(|sel|, i requires 0 <= i < |sel| => sel[i].geom.coord)
  }

  // ---------------------------------------------------------------------------
  // Union merges

  /** The `mergeGeom` loop: starts empty, takes the first geometry, then
      unions each following geometry into the running result. */
  method FoldUnion(k: Kernel, sel: seq<Feature>) returns (merged: Geometry)
    requires |sel| > 0
    ensures merged == UnionOfAll(k.union, Geoms(sel))
  {
    var gs := Geoms(sel);
    var acc: Option<Geometry> := None;
    for i := 0 to |sel|
      invariant acc.None? <==> i == 0
      invariant i > 0 ==> acc.value == UnionOfAll(k.union, gs[..i])
    {
      if acc.None? {
        acc := Some(sel[i].geom);
      } else {
        assert gs[..i + 1][..i] == gs[..i];
        acc := Some(k.union(acc.value, sel[i].geom));
      }
    }
    assert gs[..|sel|] == gs;
    merged := acc.value;
  }

  /** The commit of a union merge: the first feature gets the merged
      geometry, then the others are removed from the last to the second. */
  method CommitKeepFirst(store: FeatureStore, sel: seq<Feature>, g: Geometry)
    requires store.Valid() && |sel| > 0
    modifies store
    ensures store.Valid() && store.nextId == old(store.nextId)
    ensures store.features == KeepFirst(old(store.features), sel, g)
  {
    store.SetGeometry(sel[0].id, g);
    ghost var replaced := store.features;
    RemoveAllAbsent(replaced, Ids(sel[|sel|..]));
    var i := |sel| - 1;
    while i >= 0
      invariant -1 <= i < |sel|
      invariant store.Valid() && store.nextId == old(store.nextId)
      invariant store.features == RemoveAll(replaced, Ids(sel[if i < 0 then 1 else i + 1..]))
    {
      if i != 0 {
        assert sel[i..][1..] == sel[i + 1..];
        IdsOfSelection(sel[i..]);
        assert Ids(sel[i..]) == Ids(sel[i + 1..]) + {sel[i].id};
        RemoveAllTwice(replaced, Ids(sel[i + 1..]), {sel[i].id});
        store.RemoveFeature(sel[i].id);
      }
      i := i - 1;
    }
  }

  /** A union merge: the first feature keeps the union of all selected
      geometries, the others are removed. */
  method UnionMerge(store: FeatureStore, sel: seq<Feature>, k: Kernel)
    requires store.Valid() && |sel| > 0
    modifies store
    ensures store.Valid() && store.nextId == old(store.nextId)
    ensures store.features == KeepFirst(old(store.features), sel, UnionOfAll(k.union, Geoms(sel)))
  {
    var merged := FoldUnion(k, sel);
    CommitKeepFirst(store, sel, merged);
  }

  // ---------------------------------------------------------------------------
  // Point merge

  /** The geometry built only to compute the centroid of the selected points:
      for more than two points a polygon whose one ring is the points closed
      by the first again, otherwise the line through them. */
  function Transient(coords: seq<Coord>): Geometry
    requires |coords| > 0
  {
    if |coords| > 2 then Polygon([coords + [coords[0]]]) else LineString(coords)
  }

  lemma TransientShape(coords: seq<Coord>)
    requires |coords| > 0
    ensures |coords| > 2 ==>
              var t := Transient(coords);
              t.Polygon? && |t.rings| == 1 && IsClosedRing(t.rings[0])
              && |t.rings[0]| == |coords| + 1 && t.rings[0][..|coords|] == coords
    ensures |coords| <= 2 ==> Transient(coords) == LineString(coords)
  {
    if |coords| > 2 {
      assert (coords + [coords[0]])[..|coords|] == coords;
    }
  }

  /** `pointMerge`. Points: every selected feature is removed and one new
      point at the centroid is added. Multi-points: union merge. */
  method PointMerge(store: FeatureStore, sel: seq<Feature>, k: Kernel) returns (outcome: Outcome)
    requires store.Valid() && |sel| > 0 && SameKind(sel)
    requires forall i :: 0 <= i < |sel| ==> Current(store.features, sel[i])
    modifies store
    ensures store.Valid()
    ensures sel[0].geom.Point? ==>
              AllPoints(sel) && outcome == Done && store.nextId == old(store.nextId) + 1
              && store.features == RemoveAll(old(store.features), Ids(sel))
                                   + [Feature(old(store.nextId),
                                              Point(k.centroid(Transient(PointCoords(sel)))), map[])]
    ensures sel[0].geom.MultiPoint? ==>
              outcome == Done && store.nextId == old(store.nextId)
              && store.features == KeepFirst(old(store.features), sel, UnionOfAll(k.union, Geoms(sel)))
    ensures !sel[0].geom.Point? && !sel[0].geom.MultiPoint? ==>
              outcome == Ignored && store.features == old(store.features)
              && store.nextId == old(store.nextId)
  {
    if sel[0].geom.Point? {
      assert AllPoints(sel) by {
        forall i | 0 <= i < |sel| ensures sel[i].geom.Point? {
          assert sel[i].geom.KindOf() == PointKind;
        }
      }
      var coords: seq<Coord> := [];
      RemoveAllAbsent(store.features, Ids(sel[..0]));
      for i := 0 to |sel|
        invariant store.Valid() && store.nextId == old(store.nextId)
        invariant coords == PointCoords(sel)[..i]
        invariant store.features == RemoveAll(old(store.features), Ids(sel[..i]))
      {
        coords := coords + [sel[i].geom.coord];
        assert sel[..i + 1] == sel[..i] + [sel[i]];
        assert Ids(sel[..i + 1]) == Ids(sel[..i]) + {sel[i].id};
        RemoveAllTwice(old(store.features), Ids(sel[..i]), {sel[i].id});
        store.RemoveFeature(sel[i].id);
      }
      assert sel[..|sel|] == sel;
      assert coords == PointCoords(sel);
      var c := k.centroid(Transient(coords));
      var _ := store.AddFeature(Point(c), map[]);
      outcome := Done;
    } else if sel[0].geom.MultiPoint? {
      UnionMerge(store, sel, k);
      outcome := Done;
    } else {
      outcome := Ignored;
    }
  }

  /** What the point merge does to the source: no selected feature is left,
      every unselected one is, and the one feature added is a point. */
  lemma PointMergeEffect(fs: seq<Feature>, sel: seq<Feature>, added: Feature)
    requires added.geom.Point? && added.id !in Ids(fs)
    requires forall f :: f in sel ==> f.id != added.id
    ensures forall f :: f in sel ==> f.id !in Ids(RemoveAll(fs, Ids(sel)) + [added])
    ensures forall f :: f in fs && f.id !in Ids(sel) ==> f in RemoveAll(fs, Ids(sel)) + [added]
    ensures forall f :: f in RemoveAll(fs, Ids(sel)) + [added] ==>
              f == added || (f in fs && f.id !in Ids(sel))
  {
    RemoveAllMembers(fs, Ids(sel));
    RemoveAllIds(fs, Ids(sel));
    assert Ids(RemoveAll(fs, Ids(sel)) + [added]) == Ids(RemoveAll(fs, Ids(sel))) + {added.id};
  }

  // ---------------------------------------------------------------------------
  // Line merge

  /** `lineStringMerge`. Lines: refused unless the first line shares an
      endpoint with another; an empty line makes the check throw before
      anything is changed; otherwise every line goes to the line merger, the
      others are removed, and the first takes the first merged line.
      Multi-lines: union merge. */
  method LineStringMerge(store: FeatureStore, sel: seq<Feature>, k: Kernel) returns (outcome: Outcome)
    requires store.Valid() && |sel| > 0 && SameKind(sel)
    requires forall i :: 0 <= i < |sel| ==> Current(store.features, sel[i])
    modifies store
    ensures store.Valid() && store.nextId == old(store.nextId)
    ensures sel[0].geom.LineString? ==>
              AllLineStrings(sel)
              && (outcome == Refused(Disconnected) <==> !CheckThrows(Lines(sel)) && !MayMerge(Lines(sel)))
    ensures sel[0].geom.LineString? && CheckThrows(Lines(sel)) ==>
              outcome == Aborted && store.features == old(store.features)
    ensures outcome.Refused? ==> store.features == old(store.features)
    ensures sel[0].geom.LineString? && MayMerge(Lines(sel)) ==>
              var merged := k.mergeLines(Lines(sel));
              if |merged| > 0 then
                outcome == Done
                && store.features == KeepFirst(old(store.features), sel, LineString(merged[0]))
              else
                outcome == Aborted
                && store.features == RemoveAll(old(store.features), Ids(sel[1..]))
    ensures sel[0].geom.MultiLineString? ==>
              outcome == Done
              && store.features == KeepFirst(old(store.features), sel, UnionOfAll(k.union, Geoms(sel)))
    ensures !sel[0].geom.LineString? && !sel[0].geom.MultiLineString? ==>
              outcome == Ignored && store.features == old(store.features)
  {
    if sel[0].geom.LineString? {
      assert AllLineStrings(sel) by {
        forall i | 0 <= i < |sel| ensures sel[i].geom.LineString? {
          assert sel[i].geom.KindOf() == LineStringKind;
        }
      }
      var lines := Lines(sel);
      var verdict := CheckConnected(lines);
      if verdict == Threw {
        return Aborted;
      } else if verdict == Isolated {
        return Refused(Disconnected);
      }
      var added: seq<seq<Coord>> := [];
      RemoveAllAbsent(store.features, Ids(sel[1..1]));
      for i := 0 to |sel|
        invariant store.Valid() && store.nextId == old(store.nextId)
        invariant added == lines[..i]
        invariant store.features == RemoveAll(old(store.features), Ids(sel[1..if i == 0 then 1 else i]))
      {
        added := added + [lines[i]];
        if i != 0 {
          assert sel[1..i + 1] == sel[1..i] + [sel[i]];
          assert Ids(sel[1..i + 1]) == Ids(sel[1..i]) + {sel[i].id};
          RemoveAllTwice(old(store.features), Ids(sel[1..i]), {sel[i].id});
          store.RemoveFeature(sel[i].id);
        }
      }
      assert added == lines;
      assert sel[1..|sel|] == sel[1..];
      var merged := k.mergeLines(added);
      if |merged| == 0 {
        // writing the missing first merged line throws: the removals stay
        return Aborted;
      }
      ReplaceRemoveAllCommute(old(store.features), sel[0].id, LineString(merged[0]), Ids(sel[1..]));
      store.SetGeometry(sel[0].id, LineString(merged[0]));
      outcome := Done;
    } else if sel[0].geom.MultiLineString? {
      UnionMerge(store, sel, k);
      outcome := Done;
    } else {
      outcome := Ignored;
    }
  }

  // ---------------------------------------------------------------------------
  // Polygon merge

  /** `polygonMerge`. Polygons: refused when the union is not a Polygon,
      otherwise a union merge. Any other kind: union merge unconditionally. */
  method PolygonMerge(store: FeatureStore, sel: seq<Feature>, k: Kernel) returns (outcome: Outcome)
    requires store.Valid() && |sel| > 0
    requires forall i :: 0 <= i < |sel| ==> Current(store.features, sel[i])
    modifies store
    ensures store.Valid() && store.nextId == old(store.nextId)
    ensures sel[0].geom.Polygon? && !UnionOfAll(k.union, Geoms(sel)).Polygon? ==>
              outcome == Refused(DisjointResult) && store.features == old(store.features)
    ensures sel[0].geom.Polygon? && UnionOfAll(k.union, Geoms(sel)).Polygon? ==>
              outcome == Done
              && store.features == KeepFirst(old(store.features), sel, UnionOfAll(k.union, Geoms(sel)))
    ensures !sel[0].geom.Polygon? ==>
              outcome == Done
              && store.features == KeepFirst(old(store.features), sel, UnionOfAll(k.union, Geoms(sel)))
  {
    if sel[0].geom.Polygon? {
      var merged := FoldUnion(k, sel);
      if merged.KindOf() != sel[0].geom.KindOf() {
        return Refused(DisjointResult);
      }
      CommitKeepFirst(store, sel, merged);
      outcome := Done;
    } else {
      UnionMerge(store, sel, k);
      outcome := Done;
    }
  }
}
