/** The split verbs `lineSplit` and `polygonSplit`: the first phase swaps the
    select interaction for a draw interaction that collects a cutting line;
    the `drawend` handler then polygonizes the target with the cut, commits
    the pieces and swaps the interactions back. */
module Split {
  import opened Geometry
  import opened GeometryKernel
  import opened FeatureSource

  /** The interactions registered on the map that matter here. */
  datatype Interaction = SelectFeatures | DrawCutLine | OtherInteraction(name: string)

  datatype SplitMode = LineCut | PolygonCut

  /** Whether a draw interaction is waiting for a cutting line, and for which
      target; the target is the feature value captured when the split began. */
  datatype SplitPhase = Idle | AwaitingCut(target: Feature, mode: SplitMode)

  /** The list after `Collection.remove`: the first occurrence of `x` is
      taken out, if there is one. */
  function RemoveFirst(s: seq<Interaction>, x: Interaction): (r: seq<Interaction>)
    ensures |r| == if x in s then |s| - 1 else |s|
    ensures forall y :: y in r ==> y in s
  {
    if |s| == 0 then []
    else if s[0] == x then s[1..]
    else [s[0]] + RemoveFirst(s[1..], x)
  }

  class MapInteractions {
    var active: seq<Interaction>
    var phase: SplitPhase

    constructor (initial: seq<Interaction>)
      ensures active == initial && phase == Idle
    {
      active := initial;
      phase := Idle;
    }

    /** `map.removeInteraction`. */
    method RemoveInteraction(x: Interaction)
      modifies this
      ensures active == RemoveFirst(old(active), x) && phase == old(phase)
    {
      active := RemoveFirst(active, x);
    }

    /** `map.addInteraction`. */
    method AddInteraction(x: Interaction)
      modifies this
      ensures active == old(active) + [x] && phase == old(phase)
    {
      active := active + [x];
    }
  }

  /** First phase of `lineSplit` (for LineString targets) or `polygonSplit`
      (for Polygon targets): the select interaction is removed and a draw
      interaction for the cutting line added. Any other kind does nothing. */
  method BeginSplit(ui: MapInteractions, f: Feature, mode: SplitMode) returns (outcome: Outcome)
    requires ui.phase == Idle
    modifies ui
    ensures (if mode == LineCut then f.geom.LineString? else f.geom.Polygon?) ==>
              outcome == Done && ui.phase == AwaitingCut(f, mode)
              && ui.active == RemoveFirst(old(ui.active), SelectFeatures) + [DrawCutLine]
    ensures !(if mode == LineCut then f.geom.LineString? else f.geom.Polygon?) ==>
              outcome == Ignored && ui.phase == Idle && ui.active == old(ui.active)
  {
    if (mode == LineCut && f.geom.LineString?) || (mode == PolygonCut && f.geom.Polygon?) {
      ui.RemoveInteraction(SelectFeatures);
      ui.AddInteraction(DrawCutLine);
      ui.phase := AwaitingCut(f, mode);
      outcome := Done;
    } else {
      outcome := Ignored;
    }
  }

  /** What is unioned with the cutting line: the target line itself, or the
      exterior ring of the target polygon. */
  function CutBase(target: Feature, mode: SplitMode): Geometry
    requires mode == PolygonCut ==> target.geom.Polygon? && |target.geom.rings| > 0
  {
    if mode == LineCut then target.geom else LineString(target.geom.rings[0])
  }

  /** The pieces the polygonizer extracts from the union of the target with the cut. */
  function Pieces(k: Kernel, target: Feature, mode: SplitMode, cut: seq<Coord>): seq<Geometry>
    requires mode == PolygonCut ==> target.geom.Polygon? && |target.geom.rings| > 0
  {
    k.polygonize(k.union(CutBase(target, mode), LineString(cut)))
  }

  /** The commit of the `drawend` handler: with more than one piece, the
      target takes piece 0 and pieces 1 to k - 1 are added, in order, as new
      features without attributes; otherwise nothing changes. */
  method CommitSplit(store: FeatureStore, target: Feature, pieces: seq<Geometry>) returns (outcome: Outcome)
    requires store.Valid()
    modifies store
    ensures store.Valid()
    ensures |pieces| > 1 ==>
              outcome == Done
              && store.nextId == old(store.nextId) + |pieces| - 1
              && store.features == Replace(old(store.features), target.id, pieces[0])
                                   + Fragments(old(store.nextId), pieces[1..])
    ensures |pieces| <= 1 ==>
              outcome == Refused(NoSplitProduced)
              && store.features == old(store.features) && store.nextId == old(store.nextId)
  {
    if |pieces| <= 1 {
      return Refused(NoSplitProduced);
    }
    ghost var start := store.nextId;
    ghost var first := Replace(old(store.features), target.id, pieces[0]);
    for i := 0 to |pieces|
      invariant store.Valid()
      invariant i == 0 ==> store.features == old(store.features) && store.nextId == start
      invariant i > 0 ==>
                  store.nextId == start + (i - 1)
                  && store.features == first + Fragments(start, pieces[1..i])
    {
      if i == 0 {
        store.SetGeometry(target.id, pieces[i]);
        assert Fragments(start, pieces[1..1]) == [];
      } else {
        var id := store.AddFeature(pieces[i], map[]);
        assert pieces[1..i + 1] == pieces[1..i] + [pieces[i]];
        assert Fragments(start, pieces[1..i + 1])
            == Fragments(start, pieces[1..i]) + [Feature(id, pieces[i], map[])];
      }
    }
    assert pieces[1..|pieces|] == pieces[1..];
    outcome := Done;
  }

  /** The `drawend` handler: polygonize, commit, then remove the draw
      interaction and put the select interaction back, whatever the commit
      did. */
  method DrawEnd(store: FeatureStore, ui: MapInteractions, cut: seq<Coord>, k: Kernel)
      returns (outcome: Outcome)
    requires store.Valid() && ui.phase.AwaitingCut?
    requires ui.phase.mode == PolygonCut ==>
               ui.phase.target.geom.Polygon? && |ui.phase.target.geom.rings| > 0
    modifies store, ui
    ensures store.Valid()
    ensures var t := old(ui.phase).target;
            var pieces := Pieces(k, t, old(ui.phase).mode, cut);
            (|pieces| > 1 ==>
               outcome == Done
               && store.nextId == old(store.nextId) + |pieces| - 1
               && store.features == Replace(old(store.features), t.id, pieces[0])
                                    + Fragments(old(store.nextId), pieces[1..]))
            && (|pieces| <= 1 ==>
               outcome == Refused(NoSplitProduced)
               && store.features == old(store.features) && store.nextId == old(store.nextId))
    ensures ui.phase == Idle
    ensures ui.active == RemoveFirst(old(ui.active), DrawCutLine) + [SelectFeatures]
  {
    var t := ui.phase.target;
    var pieces := Pieces(k, t, ui.phase.mode, cut);
    outcome := CommitSplit(store, t, pieces);
    ui.RemoveInteraction(DrawCutLine);
    ui.AddInteraction(SelectFeatures);
    ui.phase := Idle;
  }

  /** What a committed split does to the source: one feature more per extra
      piece; the target keeps its identity and attributes and takes piece 0;
      every other feature stays as it was; piece k (k >= 1) sits after the
      old features, k - 1 places in, with identity start + k - 1; when every
      old identity is below `start`, no new identity clashes with an old one. */
  lemma SplitCommitEffect(fs: seq<Feature>, target: Feature, pieces: seq<Geometry>, start: FeatureId)
    requires target in fs && |pieces| > 1
    requires forall f :: f in fs ==> f.id < start
    ensures forall f :: f in Fragments(start, pieces[1..]) ==> f.id !in Ids(fs)
    ensures var r := Replace(fs, target.id, pieces[0]) + Fragments(start, pieces[1..]);
            |r| == |fs| + |pieces| - 1
            && target.(geom := pieces[0]) in r
            && (forall f :: f in fs && f.id != target.id ==> f in r)
            && (forall k :: 1 <= k < |pieces| ==> r[|fs| + k - 1] == Feature(start + k - 1, pieces[k], map[]))
  {
    var replaced := Replace(fs, target.id, pieces[0]);
    var r := replaced + Fragments(start, pieces[1..]);
    ReplaceLength(fs, target.id, pieces[0]);
    var k0 :| 0 <= k0 < |fs| && fs[k0] == target;
    ReplaceAt(fs, target.id, pieces[0], k0);
    assert r[k0] == replaced[k0];
    var frags := Fragments(start, pieces[1..]);
    forall f | f in frags ensures f.id !in Ids(fs) {
      var j :| 0 <= j < |frags| && frags[j] == f;
      assert f.id == start + j >= start;
    }
    forall f | f in fs && f.id != target.id ensures f in r {
      var k :| 0 <= k < |fs| && fs[k] == f;
      ReplaceAt(fs, target.id, pieces[0], k);
      assert r[k] == replaced[k];
    }
  }

  // ---------------------------------------------------------------------------
  // Interaction bookkeeping

  lemma {:induction false} RemoveFirstAbsent(s: seq<Interaction>, x: Interaction)
    requires x !in s
    ensures RemoveFirst(s, x) == s
  {
    if |s| > 0 {
      RemoveFirstAbsent(s[1..], x);
      assert s == [s[0]] + s[1..];
    }
  }

  lemma {:induction false} RemoveFirstMultiset(s: seq<Interaction>, x: Interaction)
    requires x in s
    ensures multiset(RemoveFirst(s, x)) + multiset{x} == multiset(s)
  {
    assert s == [s[0]] + s[1..];
    if s[0] != x {
      RemoveFirstMultiset(s[1..], x);
    }
  }

  lemma {:induction false} RemoveFirstAppended(s: seq<Interaction>, x: Interaction)
    requires x !in s
    ensures RemoveFirst(s + [x], x) == s
  {
    if |s| == 0 {
      assert s + [x] == [x];
    } else {
      assert (s + [x])[1..] == s[1..] + [x];
      RemoveFirstAppended(s[1..], x);
      assert s == [s[0]] + s[1..];
    }
  }

  /** A completed split leaves the map with the interactions it started with:
      the draw interaction added by the first phase is gone again and the
      select interaction is back, now last in the list. */
  lemma SplitRestoresInteractions(s: seq<Interaction>)
    requires SelectFeatures in s && DrawCutLine !in s
    ensures RemoveFirst(RemoveFirst(s, SelectFeatures) + [DrawCutLine], DrawCutLine) + [SelectFeatures]
            == RemoveFirst(s, SelectFeatures) + [SelectFeatures]
    ensures multiset(RemoveFirst(RemoveFirst(s, SelectFeatures) + [DrawCutLine], DrawCutLine)
                     + [SelectFeatures]) == multiset(s)
  {
    RemoveFirstMultiset(s, SelectFeatures);
    assert multiset(s)[DrawCutLine] == 0;
    assert multiset(RemoveFirst(s, SelectFeatures))[DrawCutLine] == 0;
    RemoveFirstAppended(RemoveFirst(s, SelectFeatures), DrawCutLine);
  }
}
