/** The geometry library the editor calls and whose code is not part of this
    model: JSTS (union, line merging, polygonizing, minimum rectangle,
    affine reflection) and turf (centroid). Each primitive is an arbitrary
    total function; nothing is proved about what it computes. */
module GeometryKernel {
  import opened Geometry

  /** A reflection axis: the line through two coordinates. */
  datatype Axis = Axis(from: Coord, to: Coord)

  datatype Kernel = Kernel(
    /** JSTS `UnionOp.union` of two geometries. */
    union: (Geometry, Geometry) -> Geometry,
    /** JSTS `LineMerger`: the coordinates of the merged line strings
        obtained from the given line strings. */
    mergeLines: seq<seq<Coord>> -> seq<seq<Coord>>,
    /** JSTS `Polygonizer.getPolygons` applied to one (noded) geometry. */
    polygonize: Geometry -> seq<Geometry>,
    /** The coordinates of JSTS `MinimumDiameter.getMinimumRectangle`: a
        closed 5-point ring, or 2 points or 1 point for collinear input. */
    minRectangle: Geometry -> seq<Coord>,
    /** JSTS `AffineTransformation.reflect` about an axis, then `transform`. */
    reflect: (Axis, Geometry) -> Geometry,
    /** turf `centroid`. */
    centroid: Geometry -> Coord
  )

  /** The left fold of `union` over the geometries in selection order:
      the first geometry, then the union of the running result with each
      following one. */
  function UnionOfAll(union: (Geometry, Geometry) -> Geometry, gs: seq<Geometry>): Geometry
    requires |gs| > 0
  {
    if |gs| == 1 then gs[0]
    else union(UnionOfAll(union, gs[..|gs| - 1]), gs[|gs| - 1])
  }
}
