/** The single-feature verbs of the editor: `lineStraight`, `lineReverse`,
    `reflect` and `deleteFeature`. */
module Editor {
  import opened Geometry
  import opened GeometryKernel
  import opened FeatureSource
  import opened ReflectAxis

  /** `lineStraight`: the feature's geometry is straightened in place. */
  method LineStraight(store: FeatureStore, f: Feature)
    requires store.Valid() && Current(store.features, f) && NonEmptyParts(f.geom)
    modifies store
    ensures store.Valid() && store.nextId == old(store.nextId)
    ensures store.features == Replace(old(store.features), f.id, Straighten(f.geom))
  {
    store.SetGeometry(f.id, Straighten(f.geom));
  }

  /** `lineReverse`: the feature's geometry is reversed in place. */
  method LineReverse(store: FeatureStore, f: Feature)
    requires store.Valid() && Current(store.features, f)
    modifies store
    ensures store.Valid() && store.nextId == old(store.nextId)
    ensures store.features == Replace(old(store.features), f.id, Reverse(f.geom))
  {
    store.SetGeometry(f.id, Reverse(f.geom));
  }

  /** `reflect`: when the minimum rectangle is not degenerate, the geometry
      is reflected about the chosen midline; otherwise nothing happens. The
      kernel returns either a closed rectangle of five points or at most two
      points. */
  method Reflect(store: FeatureStore, which: AxisChoice, f: Feature, k: Kernel)
    requires store.Valid() && Current(store.features, f)
    requires |k.minRectangle(f.geom)| > 2 ==> |k.minRectangle(f.geom)| >= 4
    modifies store
    ensures store.Valid() && store.nextId == old(store.nextId)
    ensures |k.minRectangle(f.geom)| > 2 ==>
              store.features == Replace(old(store.features), f.id,
                                        k.reflect(ChooseAxis(k.minRectangle(f.geom), which), f.geom))
    ensures |k.minRectangle(f.geom)| <= 2 ==> store.features == old(store.features)
  {
    var rect := k.minRectangle(f.geom);
    if |rect| > 2 {
      var axis := ChooseAxis(rect, which);
      store.SetGeometry(f.id, k.reflect(axis, f.geom));
    }
  }

  /** `deleteFeature`: the feature is removed from the source. */
  method DeleteFeature(store: FeatureStore, f: Feature)
    requires store.Valid()
    modifies store
    ensures store.Valid() && store.nextId == old(store.nextId)
    ensures store.features == RemoveAll(old(store.features), {f.id})
    ensures f.id !in Ids(store.features)
    ensures forall g :: g in old(store.features) && g.id != f.id ==> g in store.features
  {
    RemoveAllMembers(store.features, {f.id});
    RemoveAllIds(store.features, {f.id});
    store.RemoveFeature(f.id);
  }
}
