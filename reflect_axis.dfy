/** The axis choice inside `reflect`: the two midlines of the minimum
    rectangle are compared by length; the longer is the long axis. Distances
    are compared through their squares, which orders non-negative lengths the
    same way. */
module ReflectAxis {
  import opened Geometry
  import opened GeometryKernel

  /** The `type` argument of `reflect`. */
  datatype AxisChoice = Short | Long

  /** `LineSegment.midPoint`: the point as far from `p` as `q` is from it,
      in each coordinate. */
  function Midpoint(p: Coord, q: Coord): (m: Coord)
    ensures m.x - p.x == q.x - m.x && m.y - p.y == q.y - m.y
  {
    Coord((p.x + q.x) / 2.0, (p.y + q.y) / 2.0)
  }

  function SqLength(a: Axis): real {
    (a.to.x - a.from.x) * (a.to.x - a.from.x) + (a.to.y - a.from.y) * (a.to.y - a.from.y)
  }

  /** The midline joining the midpoints of sides 1-2 and 3-4 of the
      rectangle with corners 1 to 4. */
  function FirstMidline(corners: seq<Coord>): Axis
    requires |corners| >= 4
  {
    Axis(Midpoint(corners[0], corners[1]), Midpoint(corners[2], corners[3]))
  }

  /** The midline joining the midpoints of sides 2-3 and 4-1. */
  function SecondMidline(corners: seq<Coord>): Axis
    requires |corners| >= 4
  {
    Axis(Midpoint(corners[1], corners[2]), Midpoint(corners[3], corners[0]))
  }

  /** The chosen axis is one of the two midlines; the long axis is at least
      as long as either, the short axis at most as long as either. */
  function ChooseAxis(corners: seq<Coord>, which: AxisChoice): (r: Axis)
    requires |corners| >= 4
    ensures r == FirstMidline(corners) || r == SecondMidline(corners)
    ensures which == Long ==>
              SqLength(r) >= SqLength(FirstMidline(corners))
              && SqLength(r) >= SqLength(SecondMidline(corners))
    ensures which == Short ==>
              SqLength(r) <= SqLength(FirstMidline(corners))
              && SqLength(r) <= SqLength(SecondMidline(corners))
  {
    var first := FirstMidline(corners);
    var second := SecondMidline(corners);
    var longAxis := if SqLength(first) > SqLength(second) then first else second;
    var shortAxis := if SqLength(first) > SqLength(second) then second else first;
    if which == Short then shortAxis else longAxis
  }

  /** The short and the long axis are the two midlines, one each; when the
      midlines are equally long the second one is taken as the long axis. */
  lemma AxesArePartition(corners: seq<Coord>)
    requires |corners| >= 4
    ensures (ChooseAxis(corners, Long) == FirstMidline(corners)
               && ChooseAxis(corners, Short) == SecondMidline(corners))
            || (ChooseAxis(corners, Long) == SecondMidline(corners)
               && ChooseAxis(corners, Short) == FirstMidline(corners))
    ensures SqLength(FirstMidline(corners)) == SqLength(SecondMidline(corners)) ==>
              ChooseAxis(corners, Long) == SecondMidline(corners)
              && ChooseAxis(corners, Short) == FirstMidline(corners)
  {
  }

  /** The unit square's midlines are equally long, so its long axis is the
      second midline. */
  lemma UnitSquareAxes()
    ensures var sq := [Coord(0.0, 0.0), Coord(1.0, 0.0), Coord(1.0, 1.0), Coord(0.0, 1.0), Coord(0.0, 0.0)];
            ChooseAxis(sq, Long) == Axis(Coord(1.0, 0.5), Coord(0.0, 0.5))
            && ChooseAxis(sq, Short) == Axis(Coord(0.5, 0.0), Coord(0.5, 1.0))
  {
  }
}
