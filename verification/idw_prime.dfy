/** `IDWprimeInterpolator`, the older interpolator. It differs from
    `SIDWInterpolator` in three ways: a radius of 0 is refused, a neighbour
    is kept only inside the frame `0 <= x < len(grid[0])`,
    `0 <= y < len(grid)` (no wrap-around), and with no accepted neighbour
    the pixel becomes the last value read in the frame, not its own value. */
module IdwPrime {
  import opened Results
  import opened PyNum
  import opened DensityGrid
  import opened Masks
  import opened ProximityKernel
  import opened NeighbourScan

  datatype ConfigError = NonPositiveRadius | ExponentBelowOne | NegativeThreshold

  /** What a pixel computation can raise: `IndexError` when an in-frame
      neighbour lies beyond the end of a shorter row, `UnboundLocalError`
      when no neighbour lies in the frame, so `density_value` was never
      assigned. */
  datatype PointError = IndexError | UnboundLocal

  datatype Idw = Idw(kernel: Kernel, threshold: real)

  /** The constructor: its three checks in source order, then the kernel. */
  function New(radius: int, p: real, threshold: real, weight: WeightFn): (r: Result<Idw, ConfigError>)
    ensures r.Ok? <==> radius > 0 && p >= 1.0 && threshold >= 0.0
    ensures radius <= 0 ==> r == Err(NonPositiveRadius)
    ensures radius > 0 && p < 1.0 ==> r == Err(ExponentBelowOne)
    ensures radius > 0 && p >= 1.0 && threshold < 0.0 ==> r == Err(NegativeThreshold)
    ensures r.Ok? ==> r.value.threshold == threshold
    ensures r.Ok? ==> forall e :: e in r.value.kernel <==>
      InKernel(e.offset, radius) && e.weight == weight(p, e.offset)
    ensures r.Ok? ==> Entry(Offset(1, 0), weight(p, Offset(1, 0))) in r.value.kernel
  {
    if radius <= 0 then Err(NonPositiveRadius)
    else if p < 1.0 then Err(ExponentBelowOne)
    else if threshold < 0.0 then Err(NegativeThreshold)
    else
      assert InKernel(Offset(1, 0), radius);
      Ok(Idw(Build(radius, p, weight), threshold))
  }

  /** The frame test against the first row's length and the row count. */
  predicate InFrame(grid: Grid, x: int, y: int)
    requires |grid| > 0
  {
    0 <= x < |grid[0]| && 0 <= y < |grid|
  }

  /** One kernel step: skipped outside the frame, otherwise `grid[y][x]`,
      which raises when row `y` is shorter than the first row. */
  function Fetch(grid: Grid, x: int, y: int): (r: Result<Probe, PointError>)
    requires |grid| > 0
    ensures r == Ok(Skipped) <==> !InFrame(grid, x, y)
    ensures r.Err? <==> InFrame(grid, x, y) && x >= |grid[y]|
    ensures r.Ok? && r.value.Read? ==> 0 <= y < |grid| && 0 <= x < |grid[y]| && r.value.v == grid[y][x]
    ensures r.Err? ==> r.error == IndexError
  {
    if !InFrame(grid, x, y) then Ok(Skipped)
    else if x < |grid[y]| then Ok(Read(grid[y][x]))
    else Err(IndexError)
  }

  function Fetches(k: Kernel, grid: Grid, xc: int, yc: int): (fs: seq<Result<Probe, PointError>>)
    requires |grid| > 0
    ensures |fs| == |k|
  {
    seq(|k|, i requires 0 <= i < |k| => Fetch(grid, xc + k[i].offset.dx, yc + k[i].offset.dy))
  }

  predicate Faults(fs: seq<Result<Probe, PointError>>) {
    exists i :: 0 <= i < |fs| && fs[i].Err?
  }

  /** The probes of a run that raised nothing. */
  function Probed(fs: seq<Result<Probe, PointError>>): (ps: seq<Probe>)
    requires !Faults(fs)
    ensures |ps| == |fs|
    ensures forall i :: 0 <= i < |fs| ==> fs[i] == Ok(ps[i])
  {
    seq(|fs|, i requires 0 <= i < |fs| => fs[i].value)
  }

  /** `__interpolate_density_point__` of the older interpolator. */
  function Point(s: Idw, grid: Grid, xc: int, yc: int): (r: Result<real, PointError>)
    requires |grid| > 0
    ensures r == Err(IndexError) <==> Faults(Fetches(s.kernel, grid, xc, yc))
    ensures r == Err(UnboundLocal) <==> (!Faults(Fetches(s.kernel, grid, xc, yc))
      && forall i :: 0 <= i < |s.kernel| ==> !InFrame(grid, xc + s.kernel[i].offset.dx, yc + s.kernel[i].offset.dy))
    ensures !Faults(Fetches(s.kernel, grid, xc, yc)) ==>
      var scan := Accumulate(s.kernel, Probed(Fetches(s.kernel, grid, xc, yc)));
      (scan.accepted == 0 && scan.last.Some? ==> r == Ok(0.0))
      && (scan.accepted > 0 ==> (r.Ok? && r.value >= Mean(scan) && r.value >= scan.last.value
          && (r.value == scan.last.value || r.value == Mean(scan))))
  {
    var fs := Fetches(s.kernel, grid, xc, yc);
    if Faults(fs) then Err(IndexError)
    else
      var ps := Probed(fs);
      var scan := Accumulate(s.kernel, ps);
      SkippedOutside(s.kernel, grid, xc, yc);
      if scan.accepted > 0 then Ok(Max(scan.last.value, Mean(scan)))
      else if scan.last.Some? then
        LastReadIsZero(s.kernel, ps);
        Ok(scan.last.value)
      else Err(UnboundLocal)
  }

  /** A probe is skipped exactly when its neighbour lies outside the frame. */
  lemma SkippedOutside(k: Kernel, grid: Grid, xc: int, yc: int)
    requires |grid| > 0 && !Faults(Fetches(k, grid, xc, yc))
    ensures forall i :: 0 <= i < |k| ==>
      (Probed(Fetches(k, grid, xc, yc))[i].Skipped? <==> !InFrame(grid, xc + k[i].offset.dx, yc + k[i].offset.dy))
  {
    var fs := Fetches(k, grid, xc, yc);
    var ps := Probed(fs);
    forall i | 0 <= i < |k|
      ensures ps[i].Skipped? <==> !InFrame(grid, xc + k[i].offset.dx, yc + k[i].offset.dy)
    {
      assert fs[i] == Ok(ps[i]);
      assert fs[i] == Fetch(grid, xc + k[i].offset.dx, yc + k[i].offset.dy);
    }
  }

  predicate Qualifies(s: Idw, grid: Grid, masks: seq<Mask>, covers: CoverFn, i: nat, j: nat)
    requires i < |grid| && j < |grid[i]|
  {
    grid[i][j] <= s.threshold && AnyCovers(masks, covers, j, i)
  }

  /** One pixel of `__interpolate_density_row__`. */
  function Cell(s: Idw, grid: Grid, masks: seq<Mask>, covers: CoverFn, i: nat, j: nat): (r: Result<real, PointError>)
    requires i < |grid| && j < |grid[i]|
    ensures !Qualifies(s, grid, masks, covers, i, j) ==> r == Ok(grid[i][j])
    ensures Qualifies(s, grid, masks, covers, i, j) ==> r == Point(s, grid, j, i)
  {
    if Qualifies(s, grid, masks, covers, i, j) then Point(s, grid, j, i) else Ok(grid[i][j])
  }

  function Row(s: Idw, grid: Grid, masks: seq<Mask>, covers: CoverFn, i: nat): (r: Result<seq<real>, PointError>)
    requires i < |grid|
    ensures r.Ok? <==> forall j :: 0 <= j < |grid[i]| ==> Cell(s, grid, masks, covers, i, j).Ok?
    ensures r.Ok? ==> (|r.value| == |grid[i]|
      && forall j :: 0 <= j < |grid[i]| ==> Cell(s, grid, masks, covers, i, j) == Ok(r.value[j]))
  {
    var cells := seq(|grid[i]|, j requires 0 <= j < |grid[i]| => Cell(s, grid, masks, covers, i, j));
    assert forall j :: 0 <= j < |grid[i]| ==> cells[j] == Cell(s, grid, masks, covers, i, j);
    AllOk(cells)
  }

  /** Every row of the map, or the first error a row raises. */
  function Rows(s: Idw, grid: Grid, masks: seq<Mask>, covers: CoverFn): (r: Result<Grid, PointError>)
    ensures r.Ok? <==> forall i :: 0 <= i < |grid| ==> Row(s, grid, masks, covers, i).Ok?
    ensures r.Ok? ==> (|r.value| == |grid| && forall i :: 0 <= i < |grid| ==> Row(s, grid, masks, covers, i) == Ok(r.value[i]))
  {
    var rows := seq(|grid|, i requires 0 <= i < |grid| => Row(s, grid, masks, covers, i));
    assert forall i :: 0 <= i < |grid| ==> rows[i] == Row(s, grid, masks, covers, i);
    AllOk(rows)
  }

  /** `__call__`: the input itself when no mask asks for interpolation,
      otherwise every row, or the first error a row raises. */
  function Apply(s: Idw, grid: Grid, masks: seq<Mask>, covers: CoverFn): (r: Result<Grid, PointError>)
    ensures (forall m :: m in masks ==> !m.interpolate) ==> r == Ok(grid)
    ensures |Relevant(masks)| > 0 ==> r == Rows(s, grid, Relevant(masks), covers)
  {
    var relevant := Relevant(masks);
    if |relevant| == 0 then Ok(grid)
    else
      assert relevant[0] in masks && relevant[0].interpolate by {
        assert relevant[0] in relevant;
      }
      Rows(s, grid, relevant, covers)
  }

  /** Pixel by pixel: the call succeeds iff every pixel does; then the shape
      is kept, pixels that do not qualify are copied, and the others are
      their point values. */
  lemma {:induction false} ApplyPixels(s: Idw, grid: Grid, masks: seq<Mask>, covers: CoverFn, i: nat, j: nat)
    requires exists m :: m in masks && m.interpolate
    requires i < |grid| && j < |grid[i]|
    ensures |Relevant(masks)| > 0
    ensures !Cell(s, grid, Relevant(masks), covers, i, j).Ok? ==> Apply(s, grid, masks, covers).Err?
    ensures Apply(s, grid, masks, covers).Ok? ==>
      |Apply(s, grid, masks, covers).value[i]| == |grid[i]|
      && Cell(s, grid, Relevant(masks), covers, i, j) == Ok(Apply(s, grid, masks, covers).value[i][j])
  {
    var m :| m in masks && m.interpolate;
    assert m in Relevant(masks);
    var r := Apply(s, grid, masks, covers);
    if !Cell(s, grid, Relevant(masks), covers, i, j).Ok? {
      assert !Row(s, grid, Relevant(masks), covers, i).Ok?;
    }
  }

  /** All values of a map lie in `[lo, hi]`. */
  predicate ValuesWithin(grid: Grid, lo: real, hi: real) {
    forall i, j :: 0 <= i < |grid| && 0 <= j < |grid[i]| ==> lo <= grid[i][j] <= hi
  }

  /** A computed pixel never leaves the range of the input's values. */
  lemma {:induction false} PointWithin(s: Idw, grid: Grid, xc: int, yc: int, lo: real, hi: real)
    requires |grid| > 0
    requires ValuesWithin(grid, lo, hi)
    ensures Point(s, grid, xc, yc).Ok? ==> lo <= Point(s, grid, xc, yc).value <= hi
  {
    var fs := Fetches(s.kernel, grid, xc, yc);
    if !Faults(fs) {
      var ps := Probed(fs);
      var scan := Accumulate(s.kernel, ps);
      forall i | 0 <= i < |ps|
        ensures ps[i].Read? ==> lo <= ps[i].v <= hi
      {
        assert fs[i] == Ok(ps[i]);
      }
      if scan.last.Some? {
        var i :| 0 <= i < |ps| && ps[i] == Read(scan.last.value) && forall j :: i < j < |ps| ==> ps[j].Skipped?;
      }
      if scan.accepted > 0 {
        MeanBounds(s.kernel, ps, lo, hi);
      }
    }
  }

  /** A single-pixel map has no neighbour in the frame: a qualifying pixel
      makes the call raise instead of returning a map. */
  lemma SinglePixelRaises(s: Idw, v: real, masks: seq<Mask>, covers: CoverFn)
    requires forall e :: e in s.kernel ==> e.offset != Offset(0, 0)
    requires v <= s.threshold && AnyCovers(Relevant(masks), covers, 0, 0)
    ensures Apply(s, [[v]], masks, covers) == Err(UnboundLocal)
  {
    var grid: Grid := [[v]];
    forall i | 0 <= i < |s.kernel|
      ensures !InFrame(grid, 0 + s.kernel[i].offset.dx, 0 + s.kernel[i].offset.dy)
    {
      assert s.kernel[i] in s.kernel;
    }
    assert !Faults(Fetches(s.kernel, grid, 0, 0));
    assert Cell(s, grid, Relevant(masks), covers, 0, 0) == Err(UnboundLocal);
    var i :| 0 <= i < |Relevant(masks)| && covers(Relevant(masks)[i].polygon, 0, 0);
    assert Relevant(masks)[i] in Relevant(masks);
    assert !Row(s, grid, Relevant(masks), covers, 0).Ok?;
    assert Row(s, grid, Relevant(masks), covers, 0) == Err(UnboundLocal);
  }
}

module IdwPrimeExamples {
  import opened Results
  import opened DensityGrid
  import opened ProximityKernel
  import opened NeighbourScan
  import opened IdwPrime
  import SelectiveIdw

  /** In `[[c, 0]]` the only neighbour of `(0, 0)` inside the frame is the
      zero to its right, so the older interpolator turns the pixel into 0
      whatever its own value; keeping the pixel's value, as the newer
      interpolator does, gives `c`. */
  lemma NoNeighbourDropsPixel(s: Idw, c: real)
    requires forall e :: e in s.kernel ==> e.offset != Offset(0, 0)
    requires exists e :: e in s.kernel && e.offset == Offset(1, 0)
    ensures Point(s, [[c, 0.0]], 0, 0) == Ok(0.0)
    ensures SelectiveIdw.IntendedPoint(SelectiveIdw.Sidw(s.kernel, s.threshold), [[c, 0.0]], 0, 0) == c
  {
    var grid: Grid := [[c, 0.0]];
    var fs := Fetches(s.kernel, grid, 0, 0);
    var e :| e in s.kernel && e.offset == Offset(1, 0);
    var n :| 0 <= n < |s.kernel| && s.kernel[n] == e;
    forall i | 0 <= i < |s.kernel|
      ensures fs[i] == Ok(Skipped) || fs[i] == Ok(Read(0.0))
    {
      assert s.kernel[i] in s.kernel;
    }
    assert fs[n] == Ok(Read(0.0));
    assert !Faults(fs);
    var ps := Probed(fs);
    assert ps[n] == Read(0.0);
    var cs := SelectiveIdw.CheckedProbes(s.kernel, grid, 0, 0);
    forall i | 0 <= i < |s.kernel|
      ensures !Accepted(cs[i])
    {
      assert s.kernel[i] in s.kernel;
    }
  }
}
