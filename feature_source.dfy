/** The vector layer's feature source: an ordered collection of features that
    the editing verbs add to, remove from, and whose geometries they replace. */
module FeatureSource {
  import opened Geometry

  type FeatureId = nat

  /** The feature's properties other than its geometry. */
  type Attributes = map<string, string>

  /** A feature: its identity, its geometry and its attributes. */
  datatype Feature = Feature(id: FeatureId, geom: Geometry, attrs: Attributes)

  /** Why a verb stopped with an alert and left the source untouched. */
  datatype Refusal =
    | Disconnected       // line merge: the first line shares no endpoint with another
    | DisjointResult     // polygon merge: the union is not a single Polygon
    | NothingToSplit     // node split: a line of fewer than 3 vertices
    | NoSplitProduced    // split: the polygonizer returned fewer than 2 pieces

  datatype Outcome =
    | Done               // the verb committed its result
    | Ignored            // the verb has no branch for this kind and did nothing
    | Refused(reason: Refusal)
    | Aborted            // an exception escaped; whatever was committed before it stays

  function Ids(fs: seq<Feature>): set<FeatureId> {
    set f | f in fs :: f.id
  }

  /** No two features share an identity. */
  predicate UniqueIds(fs: seq<Feature>) {
    |fs| == 0 || (fs[0].id !in Ids(fs[1..]) && UniqueIds(fs[1..]))
  }

  /** The features left after removing every feature whose id is in `gone`. */
  function RemoveAll(fs: seq<Feature>, gone: set<FeatureId>): seq<Feature> {
    if |fs| == 0 then []
    else if fs[0].id in gone then RemoveAll(fs[1..], gone)
    else [fs[0]] + RemoveAll(fs[1..], gone)
  }

  function Replaced(f: Feature, id: FeatureId, g: Geometry): Feature {
    if f.id == id then f.(geom := g) else f
  }

  /** The features after the feature `id` has been given the geometry `g`. */
  function Replace(fs: seq<Feature>, id: FeatureId, g: Geometry): seq<Feature> {
    if |fs| == 0 then [] else [Replaced(fs[0], id, g)] + Replace(fs[1..], id, g)
  }

  /** A selection: one or more distinct features, all in the source. */
  predicate IsSelection(fs: seq<Feature>, sel: seq<Feature>) {
    |sel| > 0 && UniqueIds(sel) && forall f :: f in sel ==> f in fs
  }

  /** `f` is what the source holds under `f.id`, if it holds anything there:
      a verb reads the live feature object, never an older copy of it. */
  predicate Current(fs: seq<Feature>, f: Feature) {
    forall g :: g in fs && g.id == f.id ==> g == f
  }

  /** All selected features have the first one's kind; the selection
      interaction rejects any other addition. */
  predicate SameKind(sel: seq<Feature>) {
    forall i :: 0 <= i < |sel| ==> sel[i].geom.KindOf() == sel[0].geom.KindOf()
  }

  /** The source after a merge that keeps the first selected feature with the
      geometry `g` and removes every other selected feature. */
  function KeepFirst(fs: seq<Feature>, sel: seq<Feature>, g: Geometry): seq<Feature>
    requires |sel| > 0
  {
    RemoveAll(Replace(fs, sel[0].id, g), Ids(sel[1..]))
  }

  /** New features with consecutive identities from `start`, one per
      geometry and in order, without attributes. */
  function Fragments(start: FeatureId, gs: seq<Geometry>): seq<Feature> {
    seq(|gs|, k requires 0 <= k < |gs| => Feature(start + k, gs[k], map[]))
  }

  class FeatureStore {
    var features: seq<Feature>
    /** The identity the next added feature receives. */
    var nextId: FeatureId

    ghost predicate Valid()
      reads this
    {
      UniqueIds(features) && forall id :: id in Ids(features) ==> id < nextId
    }

    constructor ()
      ensures Valid() && features == [] && nextId == 0
    {
      features := [];
      nextId := 0;
    }

    /** `source.addFeature` of a new feature. */
    method AddFeature(g: Geometry, attrs: Attributes) returns (id: FeatureId)
      requires Valid()
      modifies this
      ensures Valid()
      ensures id == old(nextId) && nextId == old(nextId) + 1
      ensures features == old(features) + [Feature(id, g, attrs)]
    {
      id := nextId;
      AppendUnique(features, Feature(id, g, attrs));
      assert Ids(features + [Feature(id, g, attrs)]) == Ids(features) + {id};
      features := features + [Feature(id, g, attrs)];
      nextId := nextId + 1;
    }

    /** `source.removeFeature`; a feature that is not there is ignored. */
    method RemoveFeature(id: FeatureId)
      requires Valid()
      modifies this
      ensures Valid() && nextId == old(nextId)
      ensures features == RemoveAll(old(features), {id})
    {
      RemoveAllIds(features, {id});
      RemoveAllUnique(features, {id});
      features := RemoveAll(features, {id});
    }

    /** `feature.setGeometry` on a feature of the source. */
    method SetGeometry(id: FeatureId, g: Geometry)
      requires Valid()
      modifies this
      ensures Valid() && nextId == old(nextId)
      ensures features == Replace(old(features), id, g)
    {
      ReplaceIds(features, id, g);
      ReplaceUnique(features, id, g);
      features := Replace(features, id, g);
    }
  }

  // ---------------------------------------------------------------------------
  // Removal

  /** A feature survives removal exactly when it was there and its id is not removed. */
  lemma {:induction false} RemoveAllMembers(fs: seq<Feature>, gone: set<FeatureId>)
    ensures forall f :: f in RemoveAll(fs, gone) <==> f in fs && f.id !in gone
  {
    if |fs| > 0 {
      RemoveAllMembers(fs[1..], gone);
      assert forall f :: f in fs <==> f == fs[0] || f in fs[1..];
    }
  }

  lemma RemoveAllIds(fs: seq<Feature>, gone: set<FeatureId>)
    ensures Ids(RemoveAll(fs, gone)) == Ids(fs) - gone
  {
    RemoveAllMembers(fs, gone);
    forall id | id in Ids(fs) - gone ensures id in Ids(RemoveAll(fs, gone)) {
      var f :| f in fs && f.id == id;
      assert f in RemoveAll(fs, gone);
    }
  }

  lemma {:induction false} RemoveAllUnique(fs: seq<Feature>, gone: set<FeatureId>)
    requires UniqueIds(fs)
    ensures UniqueIds(RemoveAll(fs, gone))
  {
    if |fs| > 0 {
      RemoveAllUnique(fs[1..], gone);
      RemoveAllIds(fs[1..], gone);
      if fs[0].id !in gone {
        assert ([fs[0]] + RemoveAll(fs[1..], gone))[1..] == RemoveAll(fs[1..], gone);
      }
    }
  }

  /** Removing two sets of identities one after the other removes their union. */
  lemma {:induction false} RemoveAllTwice(fs: seq<Feature>, a: set<FeatureId>, b: set<FeatureId>)
    ensures RemoveAll(RemoveAll(fs, a), b) == RemoveAll(fs, a + b)
  {
    if |fs| > 0 {
      RemoveAllTwice(fs[1..], a, b);
      if fs[0].id !in a {
        assert ([fs[0]] + RemoveAll(fs[1..], a))[1..] == RemoveAll(fs[1..], a);
      }
    }
  }

  /** Removing identities that are not there changes nothing. */
  lemma {:induction false} RemoveAllAbsent(fs: seq<Feature>, gone: set<FeatureId>)
    requires Ids(fs) * gone == {}
    ensures RemoveAll(fs, gone) == fs
  {
    if |fs| > 0 {
      assert fs[0] in fs;
      assert fs[0].id in Ids(fs) && fs[0].id !in Ids(fs) * gone;
      assert fs[0].id !in gone;
      assert Ids(fs[1..]) <= Ids(fs);
      RemoveAllAbsent(fs[1..], gone);
      assert fs == [fs[0]] + fs[1..];
    }
  }

  // ---------------------------------------------------------------------------
  // Replacement

  /** Replacement maps every feature through `Replaced`, one for one. */
  lemma {:induction false} ReplaceAt(fs: seq<Feature>, id: FeatureId, g: Geometry, k: nat)
    requires k < |fs|
    ensures |Replace(fs, id, g)| == |fs|
    ensures Replace(fs, id, g)[k] == Replaced(fs[k], id, g)
  {
    if k == 0 {
      ReplaceLength(fs[1..], id, g);
    } else {
      ReplaceAt(fs[1..], id, g, k - 1);
    }
  }

  lemma {:induction false} ReplaceLength(fs: seq<Feature>, id: FeatureId, g: Geometry)
    ensures |Replace(fs, id, g)| == |fs|
  {
    if |fs| > 0 {
      ReplaceLength(fs[1..], id, g);
    }
  }

  lemma ReplaceIds(fs: seq<Feature>, id: FeatureId, g: Geometry)
    ensures Ids(Replace(fs, id, g)) == Ids(fs)
  {
    ReplaceLength(fs, id, g);
    var r := Replace(fs, id, g);
    forall x | x in Ids(fs) ensures x in Ids(r) {
      var k :| 0 <= k < |fs| && fs[k].id == x;
      ReplaceAt(fs, id, g, k);
      assert r[k] in r;
    }
    forall x | x in Ids(r) ensures x in Ids(fs) {
      var k :| 0 <= k < |r| && r[k].id == x;
      ReplaceAt(fs, id, g, k);
      assert fs[k] in fs;
    }
  }

  lemma {:induction false} ReplaceUnique(fs: seq<Feature>, id: FeatureId, g: Geometry)
    requires UniqueIds(fs)
    ensures UniqueIds(Replace(fs, id, g))
  {
    if |fs| > 0 {
      ReplaceUnique(fs[1..], id, g);
      ReplaceIds(fs[1..], id, g);
      assert ([Replaced(fs[0], id, g)] + Replace(fs[1..], id, g))[1..] == Replace(fs[1..], id, g);
    }
  }

  /** Replacing a geometry and removing features commute: removal looks only at ids. */
  lemma {:induction false} ReplaceRemoveAllCommute(fs: seq<Feature>, id: FeatureId, g: Geometry, gone: set<FeatureId>)
    ensures RemoveAll(Replace(fs, id, g), gone) == Replace(RemoveAll(fs, gone), id, g)
  {
    if |fs| > 0 {
      ReplaceRemoveAllCommute(fs[1..], id, g, gone);
      assert ([Replaced(fs[0], id, g)] + Replace(fs[1..], id, g))[1..] == Replace(fs[1..], id, g);
      if fs[0].id !in gone {
        assert ([fs[0]] + RemoveAll(fs[1..], gone))[1..] == RemoveAll(fs[1..], gone);
      }
    }
  }

  // ---------------------------------------------------------------------------
  // Identities

  lemma {:induction false} AppendUnique(fs: seq<Feature>, f: Feature)
    requires UniqueIds(fs) && f.id !in Ids(fs)
    ensures UniqueIds(fs + [f])
  {
    if |fs| > 0 {
      assert (fs + [f])[1..] == fs[1..] + [f];
      assert Ids(fs[1..]) <= Ids(fs);
      AppendUnique(fs[1..], f);
      assert fs[0].id != f.id by { assert fs[0] in fs; }
    }
  }

  /** In a source with unique identities, an identity names one feature. */
  lemma {:induction false} UniqueIdsSame(fs: seq<Feature>, a: Feature, b: Feature)
    requires UniqueIds(fs) && a in fs && b in fs && a.id == b.id
    ensures a == b
  {
    if a != fs[0] && b != fs[0] {
      UniqueIdsSame(fs[1..], a, b);
    }
  }

  lemma IdsOfSelection(sel: seq<Feature>)
    requires |sel| > 0
    ensures Ids(sel) == {sel[0].id} + Ids(sel[1..])
  {
    assert forall f :: f in sel <==> f == sel[0] || f in sel[1..];
  }

  // ---------------------------------------------------------------------------
  // Merge commits

  /** What a merge that keeps the first feature does to the source: the first
      selected feature stays, with the new geometry and its own attributes;
      every other selected feature is gone; every unselected feature stays
      as it was; nothing else is there. */
  lemma KeepFirstEffect(fs: seq<Feature>, sel: seq<Feature>, g: Geometry)
    requires UniqueIds(fs) && IsSelection(fs, sel)
    ensures sel[0].(geom := g) in KeepFirst(fs, sel, g)
    ensures forall j :: 1 <= j < |sel| ==> sel[j].id !in Ids(KeepFirst(fs, sel, g))
    ensures forall f :: f in fs && f.id !in Ids(sel) ==> f in KeepFirst(fs, sel, g)
    ensures forall f :: f in KeepFirst(fs, sel, g) ==>
              f == sel[0].(geom := g) || (f in fs && f.id !in Ids(sel))
  {
    var rest := Ids(sel[1..]);
    var replaced := Replace(fs, sel[0].id, g);
    var r := KeepFirst(fs, sel, g);
    IdsOfSelection(sel);
    assert UniqueIds(sel) ==> sel[0].id !in rest;
    RemoveAllMembers(replaced, rest);
    RemoveAllIds(replaced, rest);
    ReplaceLength(fs, sel[0].id, g);
    assert sel[0] in fs;
    var k0 :| 0 <= k0 < |fs| && fs[k0] == sel[0];
    ReplaceAt(fs, sel[0].id, g, k0);
    assert replaced[k0] in replaced;
    forall j | 1 <= j < |sel| ensures sel[j].id !in Ids(r) {
      assert sel[j] in sel[1..];
    }
    forall f | f in fs && f.id !in Ids(sel) ensures f in r {
      var k :| 0 <= k < |fs| && fs[k] == f;
      ReplaceAt(fs, sel[0].id, g, k);
      assert replaced[k] in replaced;
    }
    forall f | f in r ensures f == sel[0].(geom := g) || (f in fs && f.id !in Ids(sel)) {
      var k :| 0 <= k < |replaced| && replaced[k] == f;
      ReplaceAt(fs, sel[0].id, g, k);
      if fs[k].id == sel[0].id {
        UniqueIdsSame(fs, fs[k], sel[0]);
      }
    }
  }
}
