/** Named counting regions in density-map pixel coordinates. */
module Masks {
  import opened Results

  /** A polygon vertex `(x, y)` = (column, row) of the density map. */
  type Vertex = (int, int)
  type Polygon = seq<Vertex>

  datatype Mask = Mask(name: string, polygon: Polygon, interpolate: bool)

  /** Shapely's `ValueError` for a shell that does not make a ring. */
  datatype ShapeError = TooFewCoordinates

  /** The number of points of the ring Shapely builds from a shell: the
      vertices, and the first one again unless the last already repeats it. */
  function RingLength(p: Polygon): nat {
    if |p| == 0 then 0 else if p[0] == p[|p| - 1] then |p| else |p| + 1
  }

  /** A non-empty shell of one or two vertices, or of three whose last
      repeats the first: too short for a ring. */
  predicate ShortShell(p: Polygon) {
    0 < |p| && (|p| < 3 || (|p| == 3 && p[0] == p[2]))
  }

  /** Shapely's `Polygon(shell)`: an empty shell gives the empty polygon; a
      ring needs at least four points once closed, so a short shell raises. */
  function MakePolygon(p: Polygon): (r: Result<Polygon, ShapeError>)
    ensures r.Err? <==> ShortShell(p)
    ensures r.Ok? ==> r.value == p
  {
    if 0 < RingLength(p) < 4 then Err(TooFewCoordinates) else Ok(p)
  }

  /** Shapely's `polygon.covers(Point(x, y))` (boundary-inclusive point
      containment). Its geometry is not part of this model, so every
      operation that needs it takes it as a parameter. */
  type CoverFn = (Polygon, int, int) -> bool

  /** `[mask for mask in masks if mask.interpolate]`. */
  function Relevant(masks: seq<Mask>): (r: seq<Mask>)
    ensures forall m :: m in r <==> m in masks && m.interpolate
    ensures |r| <= |masks|
  {
    if |masks| == 0 then []
    else
      var rest := Relevant(masks[1..]);
      assert forall m :: m in masks <==> m == masks[0] || m in masks[1..] by {
        assert masks == [masks[0]] + masks[1..];
      }
      if masks[0].interpolate then [masks[0]] + rest else rest
  }

  /** `any(mask.polygon.covers(Point(x, y)) for mask in masks)`. */
  predicate AnyCovers(masks: seq<Mask>, covers: CoverFn, x: int, y: int) {
    exists i :: 0 <= i < |masks| && covers(masks[i].polygon, x, y)
  }
}
