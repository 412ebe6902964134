# ol_editor editing engine in Dafny

This project models the editing verbs of `src/function/editor.js`. Each verb
reads a feature's coordinate tree, checks a few conditions, and commits its
result to the editable vector layer's feature source. A commit can be
`setGeometry` on a surviving feature, `addFeature` for new fragments, or
`removeFeature` for consumed features. Each `alert` is modelled as a refusal
result, and a refusal leaves the source untouched.

Modules:

- `Geometry`: the six geometry kinds over planar coordinates. It holds the
  pure coordinate rewrites of `lineStraight` and `lineReverse` (`Straighten`,
  `Reverse`) and their laws.
- `GeometryKernel`: the JSTS and turf operations the editor calls (union,
  line merger, polygonizer, minimum rectangle, affine reflection, centroid).
  They are bundled as a `Kernel` value of arbitrary total functions. The one
  assumption about them is the size of the minimum rectangle: at least four
  coordinates, or at most two. `Editor.Reflect` requires it. `UnionOfAll`
  is the left-to-right union fold the merges perform.
- `FeatureSource`: features with identity, geometry and attributes. The class
  `FeatureStore` stands for the layer source; its methods are `addFeature`,
  `removeFeature` and `setGeometry`. The module also holds the specification
  functions `RemoveAll`, `Replace`, `KeepFirst` and `Fragments` and their
  lemmas.
- `ReflectAxis`: the choice of the short or long axis in `reflect`, over exact
  reals.
- `Editor`: `lineStraight`, `lineReverse`, `reflect` and `deleteFeature` as
  store methods.
- `NodeSplit`: `lineNodeSplit`.
- `Merge`: `pointMerge`, `lineStringMerge` (with `sDuplicate` and
  `eDuplicate`) and `polygonMerge`.
- `Split`: `lineSplit` and `polygonSplit`. This covers both phases: swapping
  the select interaction for a draw interaction, and the `drawend` commit
  that gives the pieces back to the map.

A selection is passed as a sequence of features, as the verbs receive it.

- Selection kind: the select handler in `src/map/Container.js:93-109` makes
  every selected feature share one kind. This appears as the precondition
  `SameKind` where a verb relies on it.
- The verbs read the live feature objects. So every feature a verb receives
  must be what the source holds under its identity (`Current`), or absent
  from the source.
- Merge preconditions, beyond a valid source and `Current` selected features:
  - `Merge.PointMerge` and `Merge.LineStringMerge` need a non-empty selection
    of one kind (`SameKind`).
  - `Merge.PolygonMerge` needs only a non-empty selection.
  - `Merge.LineStringMerge` accepts lines without vertices. When two or more
    lines are selected, the check then throws before anything changes, and
    the model reports `Aborted`. A single selected line is compared with
    nothing, so it is refused (`Refused(Disconnected)`) whether or not it has
    vertices.
- `KeepFirstEffect`: its consequences hold for a proper selection of
  distinct features that are all in the source (`IsSelection`).

Two behaviours of the code that its shape and its messages do not suggest:

- Line merge check (src/function/editor.js:227-267): the check is announced
  as testing whether the lines can be merged, and its outer loop looks like
  it runs over every selected line. But both branches of its `if` leave the
  loop on the first pass, so only the first selected line is inspected.
  - The merge is refused exactly when the first line shares no endpoint with
    any other selected line (`FirstTouchesAnother`).
  - `OnlyFirstLineChecked` exhibits a selection that is refused although two
    other selected lines touch.
- Line split pieces (src/function/editor.js:446-452): `lineSplit` does not
  cut the line along the drawn one. It polygonizes the union of the line
  with the cut, so its pieces are the faces the polygonizer returns, and an
  open line may yield none. The model keeps that.

## Model

| member | source | states |
|---|---|---|
| Geometry.StraightenLine | src/function/editor.js:52-55 | a straightened line is exactly its original first and last vertex; a 2-vertex line is unchanged |
| Geometry.StraightenMultiLine | src/function/editor.js:46-51 | a straightened multi-line keeps its part count and order, and each part becomes its own first and last vertex |
| Geometry.StraightenIdempotent | src/function/editor.js:43-57 | straightening twice equals straightening once, for every kind |
| Geometry.StraightenKeepsTwoElementParts | src/function/editor.js:43-57 | a geometry whose parts all have two elements is left unchanged |
| Geometry.Straighten | src/function/editor.js:43-57 | the kind is kept; a line has two vertices and a polygon two rings afterwards; a multi-point, multi-line or multi-polygon keeps its number of parts |
| Geometry.StraightenPolygon | src/function/editor.js:52-55 | a straightened polygon is exactly its first and last ring; a 2-ring polygon is unchanged |
| Geometry.StraightenMultiPolygon | src/function/editor.js:46-51 | a straightened multi-polygon keeps its part count and order, and each part becomes its own first and last ring |
| Geometry.StraightenMultiPoint | src/function/editor.js:46-51 | a multi-point is unchanged: each part is a point's two-element `[x, y]` |
| Geometry.Reverse | src/function/editor.js:59-73 | the kind is kept; a line keeps its vertex count and a polygon its ring count; a multi-point keeps its point count; a multi-line or multi-polygon keeps its part count and every part's length |
| Geometry.Reversed | src/function/editor.js:68 | `Array.prototype.reverse` keeps the length and the multiset of elements |
| Geometry.ReversedAt | src/function/editor.js:68 | element k of a reversed array is element n-1-k of the original, and the length is kept |
| Geometry.ReversedTwice | src/function/editor.js:68 | reversing an array twice restores it |
| Geometry.ReverseLine | src/function/editor.js:67-70 | a reversed line keeps its vertex count and swaps its first and last vertex |
| Geometry.ReverseMultiLine | src/function/editor.js:61-66 | a reversed multi-line keeps part count and part order, and each part's vertices are reversed independently |
| Geometry.ReverseInvolution | src/function/editor.js:59-73 | reversing twice restores the geometry, for every kind |
| FeatureSource.FeatureStore.AddFeature | src/function/editor.js:413 | the new feature gets a fresh identity and is appended; identities stay unique |
| FeatureSource.FeatureStore.RemoveFeature | src/function/editor.js:528 | exactly the features with that identity are removed, the rest keep their order |
| FeatureSource.FeatureStore.SetGeometry | src/function/editor.js:399 | only the feature with that identity changes, and only its geometry |
| FeatureSource.KeepFirst | src/function/editor.js:208-213 | definition: the source with the first selected feature given the merged geometry and every other selected identity removed |
| FeatureSource.RemoveAllMembers | src/function/editor.js:528 | a feature survives removal if and only if it was present and its identity was not removed |
| FeatureSource.RemoveAllTwice | src/function/editor.js:209-213 | removing one set of identities after another equals removing their union |
| FeatureSource.ReplaceRemoveAllCommute | src/function/editor.js:277-291 | setting a geometry and removing other features commute |
| FeatureSource.KeepFirstEffect | src/function/editor.js:270-291 | after a merge commit, the first selected feature holds the new geometry, no other selected feature remains, every unselected feature stays unchanged, and nothing else is present |
| ReflectAxis.Midpoint | src/function/editor.js:112-115 | the midpoint is as far from one end as from the other, in each coordinate |
| ReflectAxis.FirstMidline | src/function/editor.js:112-122 | definition: the axis from the midpoint of corners 1-2 to the midpoint of corners 3-4 |
| ReflectAxis.SecondMidline | src/function/editor.js:113-123 | definition: the axis from the midpoint of corners 2-3 to the midpoint of corners 4-1 |
| ReflectAxis.ChooseAxis | src/function/editor.js:112-133 | the chosen axis is one of the two midlines; the long axis is at least as long as both, the short axis at most as long as both |
| ReflectAxis.AxesArePartition | src/function/editor.js:127-133 | short and long axes are the two midlines, one each; on a tie the second midline is the long axis |
| ReflectAxis.UnitSquareAxes | src/function/editor.js:112-133 | on the unit square the midlines tie, so the long axis is the horizontal midline from (1, 0.5) to (0, 0.5) and the short axis the vertical one from (0.5, 0) to (0.5, 1) |
| Editor.LineStraight | src/function/editor.js:43-57 | the feature's geometry is replaced by its straightened geometry and nothing else changes |
| Editor.LineReverse | src/function/editor.js:59-73 | the feature's geometry is replaced by its reversed geometry and nothing else changes |
| Editor.Reflect | src/function/editor.js:93-144 | with a non-degenerate rectangle the geometry is reflected about the chosen axis; with 2 or fewer rectangle points the source is unchanged |
| Editor.DeleteFeature | src/function/editor.js:527-529 | the feature is gone and every other feature stays |
| NodeSplit.NewPieces | src/function/editor.js:400-414 | n-2 new lines of two vertices each, each starting where the previous one ends |
| NodeSplit.SegmentsChain | src/function/editor.js:390-401 | the two-vertex slices of a line chain end to start |
| NodeSplit.JoinSegments | src/function/editor.js:390-417 | joining the slices gives back the line: no vertex lost, repeated or reordered |
| NodeSplit.NodeSplitPieces | src/function/editor.js:388-417 | the kept first slice followed by the n-2 new pieces are the line's slices in order and join back into the line |
| NodeSplit.NodeSplitFourVertices | src/function/editor.js:388-417 | A-B-C-D keeps A-B and adds B-C then C-D |
| NodeSplit.LineNodeSplit | src/function/editor.js:372-424 | a line of n > 2 vertices keeps [c0, c1] and gains n-2 attribute-less features [ci, ci+1] in order; the final one-point slice is never added; n <= 2 is refused unchanged; other kinds are ignored |
| Merge.StartTouches | src/function/editor.js:235-243 | definition of `sDuplicate`: the start of the first line is the start or the end of the second |
| Merge.EndTouches | src/function/editor.js:244-252 | definition of `eDuplicate`: the end of the first line is the start or the end of the second |
| Merge.FirstTouchesAnother | src/function/editor.js:227-260 | definition: the first line shares an endpoint with some other selected line; no other pair is considered |
| Merge.CheckThrows | src/function/editor.js:233-236 | definition: two or more lines and one of them without a vertex, so reading its first vertex throws |
| Merge.MayMerge | src/function/editor.js:261-266 | definition: every line has a vertex and the first touches another, so the check lets the merge go ahead |
| Merge.CheckConnected | src/function/editor.js:227-267 | the check throws if and only if there are two or more lines and one has no vertex; it passes if and only if every line has a vertex and the first line's start or end equals the start or end of another selected line |
| Merge.OnlyFirstLineChecked | src/function/editor.js:261-266 | a selection whose first line is isolated is refused even when two other lines touch |
| Merge.TouchingLinesAccepted | src/function/editor.js:244-258 | two lines meeting end to start pass the check |
| GeometryKernel.UnionOfAll | src/function/editor.js:198-206 | definition: the first geometry, then the union of the running result with each following geometry in selection order |
| Merge.FoldUnion | src/function/editor.js:198-206 | the fold yields the left-to-right union of the selected geometries |
| Merge.CommitKeepFirst | src/function/editor.js:208-213 | the first feature takes the geometry and the others are removed, last to second |
| Merge.UnionMerge | src/function/editor.js:193-213 | the source becomes KeepFirst with the union of all selected geometries |
| Merge.Transient | src/function/editor.js:160-172 | definition: for more than two points a polygon with one ring, the points closed by the first again; otherwise the line through the points |
| Merge.TransientShape | src/function/editor.js:160-172 | for n > 2 points the centroid input is one closed ring of n+1 coordinates starting with the points; otherwise it is the line through them |
| Merge.PointMerge | src/function/editor.js:146-216 | points: every selected feature is removed and one new point at the centroid is appended; multi-points: union merge; other kinds are ignored |
| Merge.PointMergeEffect | src/function/editor.js:151-177 | when the new point's identity is neither in the source nor a selected one, as with a freshly created feature: after a point merge no selected identity remains, every unselected feature remains, and the only other feature is the new point |
| Merge.LineStringMerge | src/function/editor.js:218-318 | a line without vertex among two or more makes the check throw and the source is unchanged (`Aborted`); otherwise refused, with the source unchanged, if and only if the first line touches no other; otherwise the others are removed and the first takes the first merged line (an empty merger result aborts after the removals); multi-lines: union merge |
| Merge.PolygonMerge | src/function/editor.js:320-370 | polygons whose union is not a Polygon are refused with the source unchanged; otherwise union merge; other kinds always union merge |
| Split.RemoveFirst | src/function/editor.js:428 | one element fewer when the interaction is present, the same length otherwise, and no new element |
| Split.MapInteractions.RemoveInteraction | src/function/editor.js:428 | the first occurrence of the interaction is taken out |
| Split.MapInteractions.AddInteraction | src/function/editor.js:469 | the interaction is appended |
| Split.BeginSplit | src/function/editor.js:426-434 | for a target of the verb's kind the select interaction is removed, a draw interaction added and the target captured; other kinds change nothing |
| FeatureSource.Fragments | src/function/editor.js:457-459 | definition: one new feature per geometry, in order, with consecutive identities from the next free one and no attributes, as each `new Feature(...)` added to the source |
| Split.CutBase | src/function/editor.js:494 | definition: what the cut is unioned with: the target line itself (line 446) or the exterior ring of the target polygon (line 494) |
| Split.Pieces | src/function/editor.js:494-498 | definition: the polygonizer's faces of the union of the cut base with the cutting line (lines 446-450 for a line) |
| Split.CommitSplit | src/function/editor.js:450-464 | with more than one piece the target takes piece 0 and pieces 1..k-1 are appended in order without attributes; otherwise the source is unchanged |
| Split.DrawEnd | src/function/editor.js:436-468 | polygonizes the union of the target (its exterior ring for a polygon) with the cut, commits, removes the draw interaction and re-adds select, in both outcomes |
| Split.SplitCommitEffect | src/function/editor.js:452-461 | a committed split has one more feature per extra piece; the target holds piece 0 with its identity and attributes; every other feature stays; piece k is at position n+k-1 with identity start+k-1, and when every old identity is below start no new identity is an old one |
| Split.RemoveFirstAbsent | src/function/editor.js:428 | removing an interaction the map does not hold leaves the list unchanged |
| Split.RemoveFirstMultiset | src/function/editor.js:466 | removing a present interaction removes exactly one occurrence |
| Split.SplitRestoresInteractions | src/function/editor.js:466-467 | after both phases the map holds the interactions it started with; select is back, now last |

## Left out

- `featureMove` (src/function/editor.js:23-26) and `rotate` (28-41): they only install interactive tools and perform no edit of their own.
- `simplify` (74-91): the work is in turf's `simplify`, with a floating-point tolerance taken from the line's length.
- Geometry kernel internals: JSTS union, line merging, polygonizing, minimum rectangle, distance and affine reflection, and turf's centroid, are arbitrary functions. Nothing is proved about areas, noding, polygonization or whether reflection is an involution.
- Floating point: coordinates are exact reals, so NaN, -0 and rounding in `===` comparisons, in midpoints and in distances are not modelled. Distances are compared through their squares.
- Third coordinates: only x and y are modelled.
- GeoJSON round trips through the JSTS reader and writer are taken to return the same geometry.
- Editor.Reflect: only `short` and `long` are modelled. Any other `type` reflects with the identity transformation and writes back the same geometry.
- Editor.Reflect: the rectangle has either at least four coordinates or at most two (the closed rectangle, or the two- and one-point degenerate results). This is a precondition because the kernel is opaque.
- Geometry.Straighten and Geometry.Reverse are modelled for every kind, exactly as the code treats `getCoordinates()`. A point's `[x, y]` is swapped by reversing. A polygon straightens to its first and last ring.
- NodeSplit.LineNodeSplit: the `Multi` branches inside the LineString case cannot be reached and are left out. A MultiLineString is ignored, as in the code.
- The attribute-key filter in `lineNodeSplit` (375-376) has no effect and is left out.
- The empty branches left out: the MultiPolygon cases of `lineSplit` and `polygonSplit` (470-472, 518-520), and `pointSplit` (522-526).
- Geometry.Straighten, Editor.LineStraight: a precondition excludes empty coordinate arrays: a line without a vertex, a polygon without a ring, or an empty part of a multi-geometry. For these the code builds `[undefined, undefined]` (src/function/editor.js:49, 53), and OpenLayers' `setCoordinates` throws on it. That throw happens in library code that is not part of this model, so how far the geometry gets changed before it is not modelled.
- Merge.LineStringMerge: when the line merger returns no line, the code throws after the removals. The model reports `Aborted` with the removals kept, and does not model the thrown error itself.
- Split.DrawEnd: the target is the feature value captured when the split began. A polygon target must have at least one ring (also required by `Split.CutBase` and `Split.Pieces`); polygons here come only from drawing, union or the polygonizer, so an empty polygon is excluded rather than modelled. Edits to the target between the two phases, other pending splits, and the `Draw` interaction's construction are not modelled.
- `src/map/Container.js` contributes only the same-kind selection filter, as a precondition. Its UI wiring is left out; it also calls `lineSplit` without a select interaction, which the model does not follow.
- FeatureSource.FeatureStore.AddFeature, Split.SplitCommitEffect: the order of the features in the store belongs to the model. OpenLayers' vector source keeps its features in a spatial index and does not expose an insertion order. So "appended" and "at position n+k-1" describe the model, not anything the program can observe. What the program can observe is which features are present, with which identities and geometries, and this is what the other contracts state.
- Split.MapInteractions: only the select and draw interactions are tracked. Removing an interaction that is absent is a no-op (`Split.RemoveFirstAbsent`); this is the case when `lineSplit` is called without a select interaction (src/map/Container.js:355).
