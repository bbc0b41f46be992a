/** `SIDWInterpolator`: repairs density pixels at or below a threshold inside
    masks that ask for interpolation, from a weighted mean of the non-zero
    pixels around them. Rows are computed from the input map only, so the
    row-parallel evaluation of the source is a plain map over rows here. */
module SelectiveIdw {
  import opened Results
  import opened PyNum
  import opened PyDict
  import opened DensityGrid
  import opened Masks
  import opened ProximityKernel
  import opened NeighbourScan

  datatype ConfigError = NegativeRadius | ExponentBelowOne | NegativeThreshold

  datatype Sidw = Sidw(kernel: Kernel, threshold: real)

  /** The constructor: its three checks in source order, then the kernel. */
  function New(radius: int, p: real, threshold: real, weight: WeightFn): (r: Result<Sidw, ConfigError>)
    ensures r.Ok? <==> radius >= 0 && p >= 1.0 && threshold >= 0.0
    ensures radius < 0 ==> r == Err(NegativeRadius)
    ensures radius >= 0 && p < 1.0 ==> r == Err(ExponentBelowOne)
    ensures radius >= 0 && p >= 1.0 && threshold < 0.0 ==> r == Err(NegativeThreshold)
    ensures r.Ok? ==> r.value.threshold == threshold
    ensures r.Ok? ==> forall e :: e in r.value.kernel <==>
      InKernel(e.offset, radius) && e.weight == weight(p, e.offset)
    ensures r.Ok? ==> StrictlyOrdered(r.value.kernel)
    ensures r.Ok? && radius == 0 ==> r.value.kernel == []
  {
    if radius < 0 then Err(NegativeRadius)
    else if p < 1.0 then Err(ExponentBelowOne)
    else if threshold < 0.0 then Err(NegativeThreshold)
    else Ok(Sidw(Build(radius, p, weight), threshold))
  }

  /** `density_map[y][x]` inside `try ... except IndexError`: a negative index
      wraps to the opposite edge, anything else out of range is skipped. */
  function ReadWrapped(grid: Grid, x: int, y: int): (p: Probe)
    ensures p.Read? <==> -|grid| <= y < |grid| && -|grid[if y >= 0 then y else |grid| + y]| <= x < |grid[if y >= 0 then y else |grid| + y]|
    ensures p.Read? ==> var row := grid[if y >= 0 then y else |grid| + y];
                        p.v == row[if x >= 0 then x else |row| + x]
  {
    match PyIndex(grid, y)
    case None => Skipped
    case Some(row) =>
      match PyIndex(row, x)
      case None => Skipped
      case Some(v) => Read(v)
  }

  /** What each kernel entry finds around `(xc, yc)`, in kernel order. */
  function Probes(k: Kernel, grid: Grid, xc: int, yc: int): (ps: seq<Probe>)
    ensures |ps| == |k|
  {
    seq(|k|, i requires 0 <= i < |k| => ReadWrapped(grid, xc + k[i].offset.dx, yc + k[i].offset.dy))
  }

  /** `__interpolate_density_point__`: with no accepted neighbour the pixel
      keeps its value; otherwise it becomes the larger of the LAST value the
      loop read and the weighted mean (the source compares against the loop
      variable, not the centre). */
  function InterpolatePoint(s: Sidw, grid: Grid, xc: nat, yc: nat): (r: real)
    requires yc < |grid| && xc < |grid[yc]|
    ensures Accumulate(s.kernel, Probes(s.kernel, grid, xc, yc)).accepted == 0 ==> r == grid[yc][xc]
    ensures Accumulate(s.kernel, Probes(s.kernel, grid, xc, yc)).accepted > 0 ==>
      r >= Mean(Accumulate(s.kernel, Probes(s.kernel, grid, xc, yc)))
      && r >= Accumulate(s.kernel, Probes(s.kernel, grid, xc, yc)).last.value
      && IsLastRead(Probes(s.kernel, grid, xc, yc), Accumulate(s.kernel, Probes(s.kernel, grid, xc, yc)).last.value)
      && (r == Accumulate(s.kernel, Probes(s.kernel, grid, xc, yc)).last.value
          || r == Mean(Accumulate(s.kernel, Probes(s.kernel, grid, xc, yc))))
  {
    var scan := Accumulate(s.kernel, Probes(s.kernel, grid, xc, yc));
    if scan.accepted > 0 then Max(scan.last.value, Mean(scan)) else grid[yc][xc]
  }

  /** The test on one pixel: at or below the threshold and covered by a
      relevant mask at `Point(col, row)`. */
  predicate Qualifies(s: Sidw, grid: Grid, masks: seq<Mask>, covers: CoverFn, i: nat, j: nat)
    requires i < |grid| && j < |grid[i]|
  {
    grid[i][j] <= s.threshold && AnyCovers(masks, covers, j, i)
  }

  /** `__interpolate_density_row__`: a copy of row `i` in which only the
      qualifying pixels are recomputed, each from the unmodified input. */
  function InterpolateRow(s: Sidw, grid: Grid, masks: seq<Mask>, covers: CoverFn, i: nat): (row: seq<real>)
    requires i < |grid|
    ensures |row| == |grid[i]|
    ensures forall j :: 0 <= j < |row| && !Qualifies(s, grid, masks, covers, i, j) ==> row[j] == grid[i][j]
    ensures forall j :: 0 <= j < |row| && Qualifies(s, grid, masks, covers, i, j) ==> row[j] == InterpolatePoint(s, grid, j, i)
  {
    seq(|grid[i]|, j requires 0 <= j < |grid[i]| =>
      if Qualifies(s, grid, masks, covers, i, j) then InterpolatePoint(s, grid, j, i) else grid[i][j])
  }

  /** `__call__`: the input itself when no mask asks for interpolation,
      otherwise every row interpolated against the input. */
  function Apply(s: Sidw, grid: Grid, masks: seq<Mask>, covers: CoverFn): (r: Grid)
    ensures SameShape(r, grid)
    ensures (forall m :: m in masks ==> !m.interpolate) ==> r == grid
    ensures forall i, j :: 0 <= i < |grid| && 0 <= j < |grid[i]| && !Qualifies(s, grid, Relevant(masks), covers, i, j) ==>
      r[i][j] == grid[i][j]
    ensures forall i, j :: 0 <= i < |grid| && 0 <= j < |grid[i]| && Qualifies(s, grid, Relevant(masks), covers, i, j) ==>
      r[i][j] == InterpolatePoint(s, grid, j, i)
  {
    var relevant := Relevant(masks);
    if |relevant| == 0 then grid
    else
      var r := seq(|grid|, i requires 0 <= i < |grid| => InterpolateRow(s, grid, relevant, covers, i));
      assert relevant[0] in masks && relevant[0].interpolate by {
        assert relevant[0] in relevant;
      }
      r
  }

  /** A map whose every value exceeds the threshold comes back unchanged,
      whatever the masks. */
  lemma ApplyAboveThreshold(s: Sidw, grid: Grid, masks: seq<Mask>, covers: CoverFn)
    requires forall i, j :: 0 <= i < |grid| && 0 <= j < |grid[i]| ==> grid[i][j] > s.threshold
    ensures Apply(s, grid, masks, covers) == grid
  {
    var r := Apply(s, grid, masks, covers);
    forall i | 0 <= i < |grid|
      ensures r[i] == grid[i]
    {
      forall j | 0 <= j < |grid[i]|
        ensures r[i][j] == grid[i][j]
      {
        assert !Qualifies(s, grid, Relevant(masks), covers, i, j);
      }
    }
  }

  /** An empty kernel (radius 0) makes the interpolator the identity. */
  lemma ApplyEmptyKernel(s: Sidw, grid: Grid, masks: seq<Mask>, covers: CoverFn)
    requires s.kernel == []
    ensures Apply(s, grid, masks, covers) == grid
  {
    var r := Apply(s, grid, masks, covers);
    forall i | 0 <= i < |grid|
      ensures r[i] == grid[i]
    {
      forall j | 0 <= j < |grid[i]|
        ensures r[i][j] == grid[i][j]
      {
        assert Accumulate(s.kernel, Probes(s.kernel, grid, j, i)).accepted == 0;
      }
    }
  }

  /** All values of a map lie in `[lo, hi]`. */
  predicate ValuesWithin(grid: Grid, lo: real, hi: real) {
    forall i, j :: 0 <= i < |grid| && 0 <= j < |grid[i]| ==> lo <= grid[i][j] <= hi
  }

  lemma ReadWithin(grid: Grid, x: int, y: int, lo: real, hi: real)
    requires ValuesWithin(grid, lo, hi)
    ensures ReadWrapped(grid, x, y).Read? ==> lo <= ReadWrapped(grid, x, y).v <= hi
  {
  }

  /** Interpolation never leaves the range of the input's values: a new
      value is either a value read from the input or a convex combination of
      such values. */
  lemma {:induction false} PointWithin(s: Sidw, grid: Grid, xc: nat, yc: nat, lo: real, hi: real)
    requires yc < |grid| && xc < |grid[yc]|
    requires ValuesWithin(grid, lo, hi)
    ensures lo <= InterpolatePoint(s, grid, xc, yc) <= hi
  {
    var ps := Probes(s.kernel, grid, xc, yc);
    var scan := Accumulate(s.kernel, ps);
    forall i | 0 <= i < |ps|
      ensures ps[i].Read? ==> lo <= ps[i].v <= hi
    {
      ReadWithin(grid, xc + s.kernel[i].offset.dx, yc + s.kernel[i].offset.dy, lo, hi);
    }
    if scan.accepted > 0 {
      MeanBounds(s.kernel, ps, lo, hi);
      var i :| 0 <= i < |ps| && ps[i] == Read(scan.last.value)
        && forall j :: i < j < |ps| ==> ps[j].Skipped?;
    }
  }

  /** A neighbour read with an explicit bounds check on both coordinates:
      no wrap-around at the top or left edge. */
  function ReadChecked(grid: Grid, x: int, y: int): (p: Probe)
    ensures p.Read? <==> 0 <= y < |grid| && 0 <= x < |grid[y]|
    ensures p.Read? ==> p.v == grid[y][x]
  {
    if 0 <= y < |grid| && 0 <= x < |grid[y]| then Read(grid[y][x]) else Skipped
  }

  function CheckedProbes(k: Kernel, grid: Grid, xc: int, yc: int): (ps: seq<Probe>)
    ensures |ps| == |k|
  {
    seq(|k|, i requires 0 <= i < |k| => ReadChecked(grid, xc + k[i].offset.dx, yc + k[i].offset.dy))
  }

  /** The point rule as the class documentation describes it: only in-bounds
      non-zero neighbours contribute, and the pixel becomes the larger of its
      own value and their weighted mean. */
  function IntendedPoint(s: Sidw, grid: Grid, xc: nat, yc: nat): (r: real)
    requires yc < |grid| && xc < |grid[yc]|
    ensures r >= grid[yc][xc]
    ensures r == grid[yc][xc] || (Accumulate(s.kernel, CheckedProbes(s.kernel, grid, xc, yc)).accepted > 0
      && r == Mean(Accumulate(s.kernel, CheckedProbes(s.kernel, grid, xc, yc))))
    ensures Accumulate(s.kernel, CheckedProbes(s.kernel, grid, xc, yc)).accepted > 0 ==>
      r >= Mean(Accumulate(s.kernel, CheckedProbes(s.kernel, grid, xc, yc)))
  {
    var scan := Accumulate(s.kernel, CheckedProbes(s.kernel, grid, xc, yc));
    if scan.accepted > 0 then Max(grid[yc][xc], Mean(scan)) else grid[yc][xc]
  }

  /** The corrected rule never lowers a pixel and never leaves the range
      spanned by the pixel and the values around it. */
  lemma {:induction false} IntendedWithin(s: Sidw, grid: Grid, xc: nat, yc: nat, lo: real, hi: real)
    requires yc < |grid| && xc < |grid[yc]|
    requires ValuesWithin(grid, lo, hi)
    ensures grid[yc][xc] <= IntendedPoint(s, grid, xc, yc) <= hi
  {
    var ps := CheckedProbes(s.kernel, grid, xc, yc);
    if Accumulate(s.kernel, ps).accepted > 0 {
      MeanBounds(s.kernel, ps, lo, hi);
    }
  }

  lemma {:induction false} ApplyWithin(s: Sidw, grid: Grid, masks: seq<Mask>, covers: CoverFn, lo: real, hi: real)
    requires ValuesWithin(grid, lo, hi)
    ensures ValuesWithin(Apply(s, grid, masks, covers), lo, hi)
  {
    var r := Apply(s, grid, masks, covers);
    forall i, j | 0 <= i < |r| && 0 <= j < |r[i]|
      ensures lo <= r[i][j] <= hi
    {
      if Qualifies(s, grid, Relevant(masks), covers, i, j) {
        PointWithin(s, grid, j, i, lo, hi);
      }
    }
  }
}

module SelectiveIdwExamples {
  import opened Results
  import opened PyNum
  import opened DensityGrid
  import opened Masks
  import opened ProximityKernel
  import opened NeighbourScan
  import opened SelectiveIdw

  function AxisEntry(p: real, w: WeightFn, dx: int, dy: int): Entry {
    Entry(Offset(dx, dy), w(p, Offset(dx, dy)))
  }

  lemma LeftColumn()
    ensures Column(-1, -1, 1) == [Offset(-1, 0)]
  {
    assert Column(-1, 0, 1) == [Offset(-1, 0)];
  }

  lemma MiddleColumn()
    ensures Column(0, -1, 1) == [Offset(0, -1), Offset(0, 1)]
  {
    assert Column(0, 2, 1) == [];
    assert InKernel(Offset(0, 1), 1);
    assert Column(0, 1, 1) == [Offset(0, 1)];
    assert !InKernel(Offset(0, 0), 1);
    assert Column(0, 0, 1) == [Offset(0, 1)];
    assert InKernel(Offset(0, -1), 1);
  }

  lemma RightColumn()
    ensures Column(1, -1, 1) == [Offset(1, 0)]
  {
    assert Column(1, 0, 1) == [Offset(1, 0)];
  }

  /** Radius 1 keeps the four axis neighbours, in loop order. */
  lemma OffsetsRadiusOne()
    ensures Offsets(1) == [Offset(-1, 0), Offset(0, -1), Offset(0, 1), Offset(1, 0)]
  {
    LeftColumn();
    MiddleColumn();
    RightColumn();
    assert Rows(1, 1) == [Offset(1, 0)];
    assert Rows(0, 1) == [Offset(0, -1), Offset(0, 1), Offset(1, 0)];
  }

  lemma KernelRadiusOne(p: real, w: WeightFn)
    ensures Build(1, p, w) == [AxisEntry(p, w, -1, 0), AxisEntry(p, w, 0, -1), AxisEntry(p, w, 0, 1), AxisEntry(p, w, 1, 0)]
  {
    OffsetsRadiusOne();
  }

  /** A radius-1 interpolator with the default threshold 0. */
  lemma RadiusOne(p: real, w: WeightFn)
    requires p >= 1.0
    ensures New(1, p, 0.0, w) == Ok(Sidw([AxisEntry(p, w, -1, 0), AxisEntry(p, w, 0, -1), AxisEntry(p, w, 0, 1), AxisEntry(p, w, 1, 0)], 0.0))
  {
    KernelRadiusOne(p, w);
  }

  /** A coverage test under which every mask covers every pixel. */
  function Everywhere(): CoverFn {
    (poly: Polygon, x: int, y: int) => true
  }

  /** When every accepted neighbour holds `v`, every value read is at most
      `v`, and at least one neighbour is accepted, the pixel becomes `v`. */
  lemma PinnedPoint(s: Sidw, grid: Grid, xc: nat, yc: nat, lo: real, v: real)
    requires yc < |grid| && xc < |grid[yc]|
    requires ValuesWithin(grid, lo, v)
    requires exists i :: 0 <= i < |s.kernel| && Accepted(Probes(s.kernel, grid, xc, yc)[i])
    requires forall i :: 0 <= i < |s.kernel| && Accepted(Probes(s.kernel, grid, xc, yc)[i]) ==>
      Probes(s.kernel, grid, xc, yc)[i].v == v
    ensures InterpolatePoint(s, grid, xc, yc) == v
  {
    MeanBounds(s.kernel, Probes(s.kernel, grid, xc, yc), v, v);
    PointWithin(s, grid, xc, yc, lo, v);
  }

  /** The radius-1 interpolator with threshold 0, for any weights. */
  predicate IsRadiusOne(s: Sidw, p: real, w: WeightFn) {
    s == Sidw([AxisEntry(p, w, -1, 0), AxisEntry(p, w, 0, -1), AxisEntry(p, w, 0, 1), AxisEntry(p, w, 1, 0)], 0.0)
  }

  function Square(): Grid {
    [[5.0, 0.0], [0.0, 0.0]]
  }

  lemma SquareTopRight(s: Sidw, p: real, w: WeightFn)
    requires IsRadiusOne(s, p, w)
    ensures InterpolatePoint(s, Square(), 1, 0) == 5.0
  {
    assert Probes(s.kernel, Square(), 1, 0) == [Read(5.0), Read(0.0), Read(0.0), Skipped];
    assert Accepted(Probes(s.kernel, Square(), 1, 0)[0]);
    PinnedPoint(s, Square(), 1, 0, 0.0, 5.0);
  }

  lemma SquareBottomLeft(s: Sidw, p: real, w: WeightFn)
    requires IsRadiusOne(s, p, w)
    ensures InterpolatePoint(s, Square(), 0, 1) == 5.0
  {
    assert Probes(s.kernel, Square(), 0, 1) == [Read(0.0), Read(5.0), Skipped, Read(0.0)];
    assert Accepted(Probes(s.kernel, Square(), 0, 1)[1]);
    PinnedPoint(s, Square(), 0, 1, 0.0, 5.0);
  }

  lemma SquareBottomRight(s: Sidw, p: real, w: WeightFn)
    requires IsRadiusOne(s, p, w)
    ensures InterpolatePoint(s, Square(), 1, 1) == 0.0
  {
    assert Probes(s.kernel, Square(), 1, 1) == [Read(0.0), Read(0.0), Skipped, Skipped];
  }

  function AreaMask(): Mask {
    Mask("area", [], true)
  }

  lemma ApplySquare(s: Sidw, p: real, w: WeightFn)
    requires IsRadiusOne(s, p, w)
    ensures Apply(s, Square(), [AreaMask()], Everywhere()) == [[5.0, 5.0], [5.0, 0.0]]
  {
    var masks := [AreaMask()];
    assert Relevant(masks) == masks;
    forall x: int, y: int
      ensures AnyCovers(masks, Everywhere(), x, y)
    {
      assert Everywhere()(masks[0].polygon, x, y);
    }
    SquareTopRight(s, p, w);
    SquareBottomLeft(s, p, w);
    SquareBottomRight(s, p, w);
    var r := Apply(s, Square(), masks, Everywhere());
    assert !Qualifies(s, Square(), masks, Everywhere(), 0, 0);
    assert r[0][0] == 5.0;
    assert r[0][1] == 5.0;
    assert r[1][0] == 5.0;
    assert r[1][1] == 0.0;
    Pair(r[0], 5.0, 5.0);
    Pair(r[1], 5.0, 0.0);
    Pair(r, [5.0, 5.0], [5.0, 0.0]);
  }

  lemma Pair<T>(a: seq<T>, x: T, y: T)
    requires |a| == 2 && a[0] == x && a[1] == y
    ensures a == [x, y]
  {
  }

  /** Two zero pixels next to a 5 are filled with 5; the zero pixel whose
      in-range neighbours are all zero keeps its value. */
  lemma FillsFromNeighbours(p: real, w: WeightFn, s: Sidw)
    requires New(1, p, 0.0, w) == Ok(s)
    ensures Apply(s, Square(), [AreaMask()], Everywhere()) == [[5.0, 5.0], [5.0, 0.0]]
  {
    assert IsRadiusOne(s, p, w) by {
      RadiusOne(p, w);
    }
    ApplySquare(s, p, w);
  }

  function Strip(): Grid {
    [[1.0, 0.0, 10.0]]
  }

  lemma StripWeights(s: Sidw, p: real, w: WeightFn)
    requires IsRadiusOne(s, p, w)
    ensures Accumulate(s.kernel, CheckedProbes(s.kernel, Strip(), 1, 0)) ==
      Scan(s.kernel[0].weight + s.kernel[3].weight, s.kernel[0].weight + s.kernel[3].weight * 10.0, 2, Some(10.0))
  {
    StripProbes(s, p, w);
    ReadSkipSkipRead(s.kernel, CheckedProbes(s.kernel, Strip(), 1, 0), 1.0, 10.0);
  }

  lemma StripProbes(s: Sidw, p: real, w: WeightFn)
    requires IsRadiusOne(s, p, w)
    ensures var ps := CheckedProbes(s.kernel, Strip(), 1, 0);
      |ps| == 4 && ps[0] == Read(1.0) && ps[1] == Skipped && ps[2] == Skipped && ps[3] == Read(10.0)
  {
  }

  /** Four probes that read `a`, skip twice and read `b`, both non-zero. */
  lemma {:induction false} ReadSkipSkipRead(k: Kernel, ps: seq<Probe>, a: real, b: real)
    requires |k| == |ps| == 4 && a != 0.0 && b != 0.0
    requires ps[0] == Read(a) && ps[1] == Skipped && ps[2] == Skipped && ps[3] == Read(b)
    ensures Accumulate(k, ps) == Scan(k[0].weight + k[3].weight, k[0].weight * a + k[3].weight * b, 2, Some(b))
  {
    FirstRead(k, ps, a);
    SkippedPrefix(k, ps, 2);
    SkippedPrefix(k, ps, 3);
    assert Accumulate(k, ps) == Step(Accumulate(k[..3], ps[..3]), k[3], ps[3]);
  }

  lemma StripAsWritten(s: Sidw, p: real, w: WeightFn)
    requires IsRadiusOne(s, p, w)
    ensures InterpolatePoint(s, Strip(), 1, 0) == 10.0
  {
    var ps := Probes(s.kernel, Strip(), 1, 0);
    assert ps == [Read(1.0), Read(0.0), Skipped, Read(10.0)];
    assert Accepted(ps[0]);
    LastProbeRead(s.kernel, ps, 10.0);
    PointWithin(s, Strip(), 1, 0, 0.0, 10.0);
  }

  lemma QuotientBelow(a: real, b: real, c: real)
    requires b > 0.0 && a < c * b
    ensures a / b < c
  {
    var q := a / b;
    assert q * b == a;
    assert (c - q) * b == c * b - a;
  }

  lemma StripIntended(s: Sidw, p: real, w: WeightFn)
    requires IsRadiusOne(s, p, w)
    ensures IntendedPoint(s, Strip(), 1, 0) < 10.0
  {
    StripWeights(s, p, w);
    var w0 := s.kernel[0].weight;
    var w3 := s.kernel[3].weight;
    QuotientBelow(w0 + w3 * 10.0, w0 + w3, 10.0);
  }

  /** The last value read decides the result: at `(1, 0)` of `[[1, 0, 10]]` the
      pixel becomes 10, the right-hand neighbour, although the weighted mean
      of 1 and 10 is below 10 and the pixel itself is 0. The rule as
      documented gives that mean. */
  lemma LastReadWins(s: Sidw, p: real, w: WeightFn)
    requires IsRadiusOne(s, p, w)
    ensures InterpolatePoint(s, Strip(), 1, 0) == 10.0
    ensures IntendedPoint(s, Strip(), 1, 0) < 10.0
  {
    StripAsWritten(s, p, w);
    StripIntended(s, p, w);
  }

  function Edge(): Grid {
    [[0.0, 0.0, 9.0]]
  }

  lemma EdgeAsWritten(s: Sidw, p: real, w: WeightFn)
    requires IsRadiusOne(s, p, w)
    ensures InterpolatePoint(s, Edge(), 0, 0) == 9.0
  {
    assert Probes(s.kernel, Edge(), 0, 0) == [Read(9.0), Read(0.0), Skipped, Read(0.0)];
    assert Accepted(Probes(s.kernel, Edge(), 0, 0)[0]);
    PinnedPoint(s, Edge(), 0, 0, 0.0, 9.0);
  }

  lemma EdgeIntended(s: Sidw, p: real, w: WeightFn)
    requires IsRadiusOne(s, p, w)
    ensures IntendedPoint(s, Edge(), 0, 0) == 0.0
  {
    assert CheckedProbes(s.kernel, Edge(), 0, 0) == [Skipped, Skipped, Skipped, Read(0.0)];
  }

  /** Reading column -1 wraps to the far end of the row: at `(0, 0)` of
      `[[0, 0, 9]]` the pixel is filled with 9 although its only in-range
      neighbour is 0; with the bounds checked it stays 0. */
  lemma LeftEdgeWraps(s: Sidw, p: real, w: WeightFn)
    requires IsRadiusOne(s, p, w)
    ensures InterpolatePoint(s, Edge(), 0, 0) == 9.0
    ensures IntendedPoint(s, Edge(), 0, 0) == 0.0
  {
    EdgeAsWritten(s, p, w);
    EdgeIntended(s, p, w);
  }
}
