/** The ground grid: the density map's pixels, each already mapped to a point
    `(x, y)` of the ground plane, are bucketed into 1 m x 1 m cells. A cell
    is keyed by its centre `(x + 0.5, y + 0.5)` and holds the flattened
    indices of the pixels whose point lies in `[x, x + 1) x [y, y + 1)`.
    Cells run over the integers from the floor of the smallest coordinate up
    to, but excluding, the ceiling of the largest, x-major. This module also
    holds the sensor-plane sample grid the pixels come from. */
module GroundGrid {
  import opened Results
  import opened PyNum
  import opened PyDict

  type Point = (real, real)

  /** Cell centres to ascending pixel indices, in the order the cells were
      visited. */
  type Cells = Dict<(real, real), seq<nat>>

  /** The half-open cell test of the source. */
  predicate InCell(p: Point, x: int, y: int) {
    x as real <= p.0 < x as real + 1.0 && y as real <= p.1 < y as real + 1.0
  }

  /** A point lies in exactly one cell: the one at the floors of its
      coordinates. */
  lemma InCellIsFloor(p: Point, x: int, y: int)
    ensures InCell(p, x, y) <==> x == Floor(p.0) && y == Floor(p.1)
  {
  }

  /** The indices below `n` whose point is in the cell, ascending. */
  function Matching(pts: seq<Point>, x: int, y: int, n: nat): (r: seq<nat>)
    requires n <= |pts|
    ensures forall k: int :: k in r <==> 0 <= k < n && InCell(pts[k], x, y)
    ensures forall i, j :: 0 <= i < j < |r| ==> r[i] < r[j]
    ensures forall i :: 0 <= i < |r| ==> r[i] < n
  {
    if n == 0 then []
    else Matching(pts, x, y, n - 1) + (if InCell(pts[n - 1], x, y) then [n - 1] else [])
  }

  /** `np.where(...)` over all points. */
  function Where(pts: seq<Point>, x: int, y: int): seq<nat> {
    Matching(pts, x, y, |pts|)
  }

  function Centre(x: int, y: int): (real, real) {
    (x as real + 0.5, y as real + 0.5)
  }

  /** One column of cells, `y` from its start up to `yhi`; with `keepEmpty`
      false a cell without pixels is not stored. */
  function Column(pts: seq<Point>, x: int, y: int, yhi: int, keepEmpty: bool): Cells
    decreases yhi - y
  {
    if y >= yhi then []
    else
      var idx := Where(pts, x, y);
      (if keepEmpty || idx != [] then [(Centre(x, y), idx)] else []) + Column(pts, x, y + 1, yhi, keepEmpty)
  }

  /** The columns from `x` up to `xhi`. */
  function Columns(pts: seq<Point>, x: int, xhi: int, ylo: int, yhi: int, keepEmpty: bool): Cells
    decreases xhi - x
  {
    if x >= xhi then []
    else Column(pts, x, ylo, yhi, keepEmpty) + Columns(pts, x + 1, xhi, ylo, yhi, keepEmpty)
  }

  /** The cell at `(cx, cy)` is stored. */
  predicate Stored(pts: seq<Point>, cx: int, cy: int, xlo: int, xhi: int, ylo: int, yhi: int, keepEmpty: bool) {
    xlo <= cx < xhi && ylo <= cy < yhi && (keepEmpty || Where(pts, cx, cy) != [])
  }

  lemma {:induction false} ColumnKeys(pts: seq<Point>, x: int, y: int, yhi: int, keepEmpty: bool, key: (real, real))
    requires key in KeySet(Column(pts, x, y, yhi, keepEmpty))
    ensures exists cy :: y <= cy < yhi && key == Centre(x, cy)
    decreases yhi - y
  {
    var idx := Where(pts, x, y);
    var head: Cells := if keepEmpty || idx != [] then [(Centre(x, y), idx)] else [];
    KeySetAppend(head, Column(pts, x, y + 1, yhi, keepEmpty));
    if key !in KeySet(head) {
      ColumnKeys(pts, x, y + 1, yhi, keepEmpty, key);
    }
  }

  lemma {:induction false} GetColumn(pts: seq<Point>, x: int, y: int, yhi: int, keepEmpty: bool, cx: int, cy: int)
    ensures Get(Column(pts, x, y, yhi, keepEmpty), Centre(cx, cy)) ==
      if cx == x && y <= cy < yhi && (keepEmpty || Where(pts, cx, cy) != []) then Some(Where(pts, cx, cy)) else None
    decreases yhi - y
  {
    if y < yhi {
      var idx := Where(pts, x, y);
      var rest := Column(pts, x, y + 1, yhi, keepEmpty);
      GetColumn(pts, x, y + 1, yhi, keepEmpty, cx, cy);
      if keepEmpty || idx != [] {
        var head: Cells := [(Centre(x, y), idx)];
        GetAppend(head, rest, Centre(cx, cy));
        assert KeySet(head) == {Centre(x, y)};
        assert Column(pts, x, y, yhi, keepEmpty) == head + rest;
        if cx == x && cy == y {
          assert Get(head, Centre(cx, cy)) == Some(idx);
        } else {
          assert Centre(cx, cy) != Centre(x, y);
        }
      } else {
        assert Column(pts, x, y, yhi, keepEmpty) == rest;
      }
    }
  }

  lemma {:induction false} ColumnUnique(pts: seq<Point>, x: int, y: int, yhi: int, keepEmpty: bool)
    ensures UniqueKeys(Column(pts, x, y, yhi, keepEmpty))
    decreases yhi - y
  {
    if y < yhi {
      var idx := Where(pts, x, y);
      var head: Cells := if keepEmpty || idx != [] then [(Centre(x, y), idx)] else [];
      var rest := Column(pts, x, y + 1, yhi, keepEmpty);
      ColumnUnique(pts, x, y + 1, yhi, keepEmpty);
      assert KeySet(head) !! KeySet(rest) by {
        forall key | key in KeySet(rest)
          ensures key != Centre(x, y)
        {
          ColumnKeys(pts, x, y + 1, yhi, keepEmpty, key);
        }
      }
      UniqueAppend(head, rest);
    }
  }

  lemma {:induction false} ColumnsKeys(pts: seq<Point>, x: int, xhi: int, ylo: int, yhi: int, keepEmpty: bool, key: (real, real))
    requires key in KeySet(Columns(pts, x, xhi, ylo, yhi, keepEmpty))
    ensures exists cx, cy :: x <= cx < xhi && ylo <= cy < yhi && key == Centre(cx, cy)
    decreases xhi - x
  {
    var col := Column(pts, x, ylo, yhi, keepEmpty);
    KeySetAppend(col, Columns(pts, x + 1, xhi, ylo, yhi, keepEmpty));
    if key in KeySet(col) {
      ColumnKeys(pts, x, ylo, yhi, keepEmpty, key);
    } else {
      ColumnsKeys(pts, x + 1, xhi, ylo, yhi, keepEmpty, key);
    }
  }

  lemma {:induction false} GetColumns(pts: seq<Point>, x: int, xhi: int, ylo: int, yhi: int, keepEmpty: bool, cx: int, cy: int)
    ensures Get(Columns(pts, x, xhi, ylo, yhi, keepEmpty), Centre(cx, cy)) ==
      if Stored(pts, cx, cy, x, xhi, ylo, yhi, keepEmpty) then Some(Where(pts, cx, cy)) else None
    decreases xhi - x
  {
    if x < xhi {
      GetColumns(pts, x + 1, xhi, ylo, yhi, keepEmpty, cx, cy);
      GetColumnsStep(pts, x, xhi, ylo, yhi, keepEmpty, cx, cy);
    }
  }

  /** One column in front of the rest: the cell is found in the first
      column when it belongs there, else in the rest. */
  lemma GetColumnsStep(pts: seq<Point>, x: int, xhi: int, ylo: int, yhi: int, keepEmpty: bool, cx: int, cy: int)
    requires x < xhi
    requires Get(Columns(pts, x + 1, xhi, ylo, yhi, keepEmpty), Centre(cx, cy)) ==
      if Stored(pts, cx, cy, x + 1, xhi, ylo, yhi, keepEmpty) then Some(Where(pts, cx, cy)) else None
    ensures Get(Columns(pts, x, xhi, ylo, yhi, keepEmpty), Centre(cx, cy)) ==
      if Stored(pts, cx, cy, x, xhi, ylo, yhi, keepEmpty) then Some(Where(pts, cx, cy)) else None
  {
    var col := Column(pts, x, ylo, yhi, keepEmpty);
    var rest := Columns(pts, x + 1, xhi, ylo, yhi, keepEmpty);
    var k := Centre(cx, cy);
    assert Columns(pts, x, xhi, ylo, yhi, keepEmpty) == col + rest;
    GetAppend(col, rest, k);
    GetColumn(pts, x, ylo, yhi, keepEmpty, cx, cy);
    if cx == x {
      assert !Stored(pts, cx, cy, x + 1, xhi, ylo, yhi, keepEmpty);
    } else {
      assert Get(col, k).None?;
      assert Stored(pts, cx, cy, x, xhi, ylo, yhi, keepEmpty) <==> Stored(pts, cx, cy, x + 1, xhi, ylo, yhi, keepEmpty);
    }
  }

  lemma {:induction false} ColumnsUnique(pts: seq<Point>, x: int, xhi: int, ylo: int, yhi: int, keepEmpty: bool)
    ensures UniqueKeys(Columns(pts, x, xhi, ylo, yhi, keepEmpty))
    decreases xhi - x
  {
    if x < xhi {
      var col := Column(pts, x, ylo, yhi, keepEmpty);
      var rest := Columns(pts, x + 1, xhi, ylo, yhi, keepEmpty);
      ColumnUnique(pts, x, ylo, yhi, keepEmpty);
      ColumnsUnique(pts, x + 1, xhi, ylo, yhi, keepEmpty);
      assert KeySet(col) !! KeySet(rest) by {
        forall key | key in KeySet(col)
          ensures key !in KeySet(rest)
        {
          ColumnKeys(pts, x, ylo, yhi, keepEmpty, key);
          if key in KeySet(rest) {
            ColumnsKeys(pts, x + 1, xhi, ylo, yhi, keepEmpty, key);
          }
        }
      }
      UniqueAppend(col, rest);
    }
  }

  /** The x coordinates of the points. */
  function Xs(pts: seq<Point>): (r: seq<real>)
    ensures |r| == |pts| && forall i :: 0 <= i < |pts| ==> r[i] == pts[i].0
  {
    seq(|pts|, i requires 0 <= i < |pts| => pts[i].0)
  }

  function Ys(pts: seq<Point>): (r: seq<real>)
    ensures |r| == |pts| && forall i :: 0 <= i < |pts| ==> r[i] == pts[i].1
  {
    seq(|pts|, i requires 0 <= i < |pts| => pts[i].1)
  }

  /** `.min()` of a non-empty array. */
  function MinOf(s: seq<real>): (m: real)
    requires |s| > 0
    ensures (exists i :: 0 <= i < |s| && s[i] == m) && forall i :: 0 <= i < |s| ==> m <= s[i]
  {
    if |s| == 1 then s[0]
    else
      var rest := MinOf(s[1..]);
      assert forall i :: 1 <= i < |s| ==> s[i] == s[1..][i - 1];
      if s[0] <= rest then s[0] else rest
  }

  /** `.max()` of a non-empty array. */
  function MaxOf(s: seq<real>): (m: real)
    requires |s| > 0
    ensures (exists i :: 0 <= i < |s| && s[i] == m) && forall i :: 0 <= i < |s| ==> s[i] <= m
  {
    if |s| == 1 then s[0]
    else
      var rest := MaxOf(s[1..]);
      assert forall i :: 1 <= i < |s| ==> s[i] == s[1..][i - 1];
      if s[0] >= rest then s[0] else rest
  }

  /** The cell range of the points: floors of the minima, ceilings of the
      maxima. */
  datatype Bounds = Bounds(xlo: int, xhi: int, ylo: int, yhi: int)

  function BoundsOf(pts: seq<Point>): (b: Bounds)
    requires |pts| > 0
    ensures forall k :: 0 <= k < |pts| ==> b.xlo as real <= pts[k].0 <= b.xhi as real && b.ylo as real <= pts[k].1 <= b.yhi as real
  {
    Bounds(Floor(MinOf(Xs(pts))), Ceil(MaxOf(Xs(pts))), Floor(MinOf(Ys(pts))), Ceil(MaxOf(Ys(pts))))
  }

  /** Unpacking the coordinates of no points raises. */
  datatype BucketError = NoPoints

  /** The bucketing loop of the three gridding functions; `keepEmpty` says
      whether a cell without pixels is stored. */
  function Bucket(pts: seq<Point>, keepEmpty: bool): (r: Result<Cells, BucketError>)
    ensures r.Err? <==> |pts| == 0
    ensures r.Ok? ==> UniqueKeys(r.value)
  {
    if |pts| == 0 then Err(NoPoints)
    else
      var b := BoundsOf(pts);
      ColumnsUnique(pts, b.xlo, b.xhi, b.ylo, b.yhi, keepEmpty);
      Ok(Columns(pts, b.xlo, b.xhi, b.ylo, b.yhi, keepEmpty))
  }

  /** What a cell key holds: the pixels in that cell, for every cell in the
      range, empty cells only when they are kept. */
  lemma BucketGet(pts: seq<Point>, keepEmpty: bool, cx: int, cy: int)
    requires |pts| > 0
    ensures var b := BoundsOf(pts);
      Get(Bucket(pts, keepEmpty).value, Centre(cx, cy)) ==
        if Stored(pts, cx, cy, b.xlo, b.xhi, b.ylo, b.yhi, keepEmpty) then Some(Where(pts, cx, cy)) else None
  {
    var b := BoundsOf(pts);
    GetColumns(pts, b.xlo, b.xhi, b.ylo, b.yhi, keepEmpty, cx, cy);
  }

  /** Every key is the centre of a cell in the range. */
  lemma BucketKeys(pts: seq<Point>, keepEmpty: bool, key: (real, real))
    requires |pts| > 0
    requires key in KeySet(Bucket(pts, keepEmpty).value)
    ensures var b := BoundsOf(pts);
      exists cx, cy :: b.xlo <= cx < b.xhi && b.ylo <= cy < b.yhi && key == Centre(cx, cy)
  {
    var b := BoundsOf(pts);
    ColumnsKeys(pts, b.xlo, b.xhi, b.ylo, b.yhi, keepEmpty, key);
  }

  /** Pixel `k` is listed under the cell `(cx, cy)`. */
  predicate ListedIn(cells: Cells, k: nat, cx: int, cy: int) {
    var v := Get(cells, Centre(cx, cy));
    v.Some? && k in v.value
  }

  /** The cells partition the pixels: a pixel is listed only under the cell
      at the floors of its coordinates, and it is listed there unless one of
      its coordinates is the integer the range stops before. */
  lemma BucketPartition(pts: seq<Point>, keepEmpty: bool, k: nat, cx: int, cy: int)
    requires k < |pts|
    ensures var b := BoundsOf(pts);
      ListedIn(Bucket(pts, keepEmpty).value, k, cx, cy) <==>
        cx == Floor(pts[k].0) && cy == Floor(pts[k].1)
        && pts[k].0 != b.xhi as real && pts[k].1 != b.yhi as real
  {
    var b := BoundsOf(pts);
    BucketGet(pts, keepEmpty, cx, cy);
    InCellIsFloor(pts[k], cx, cy);
    FloorInRange(pts[k].0, b.xlo, b.xhi);
    FloorInRange(pts[k].1, b.ylo, b.yhi);
    assert k in Where(pts, cx, cy) <==> InCell(pts[k], cx, cy);
  }

  /** A coordinate within `[lo, hi]` has its floor in the range `lo` to
      `hi - 1` unless it is `hi` itself. */
  lemma FloorInRange(v: real, lo: int, hi: int)
    requires lo as real <= v <= hi as real
    ensures lo <= Floor(v) && (Floor(v) < hi <==> v != hi as real)
  {
  }

  /** With empty cells dropped, every stored cell holds a pixel. */
  lemma DroppedCellsAreEmpty(pts: seq<Point>, key: (real, real))
    requires |pts| > 0
    requires key in KeySet(Bucket(pts, false).value)
    ensures Get(Bucket(pts, false).value, key).value != []
  {
    BucketKeys(pts, false, key);
    var b := BoundsOf(pts);
    var cx, cy :| b.xlo <= cx < b.xhi && b.ylo <= cy < b.yhi && key == Centre(cx, cy);
    BucketGet(pts, false, cx, cy);
  }

  lemma StepDifference(a: real, step: real, i: real)
    ensures (a + (i + 1.0) * step) - (a + i * step) == step
  {
  }

  lemma LastStep(a: real, b: real, d: real)
    requires d > 0.0
    ensures a + d * ((b - a) / d) == b
  {
  }

  /** `np.linspace(a, b, n)`: `n` evenly spaced values from `a` to `b`, both
      ends included; a single value is `a`. */
  function Linspace(a: real, b: real, n: nat): (r: seq<real>)
    ensures |r| == n
    ensures n >= 1 ==> r[0] == a
    ensures n >= 2 ==> r[n - 1] == b
    ensures n >= 2 ==> forall i :: 0 <= i < n - 1 ==> r[i + 1] - r[i] == (b - a) / (n - 1) as real
  {
    if n == 0 then []
    else if n == 1 then [a]
    else
      SpacedSteps(a, (b - a) / (n - 1) as real, n);
      SpacedLast(a, b, n);
      Spaced(a, (b - a) / (n - 1) as real, n)
  }

  /** `n` values from `a` on, `step` apart. */
  function Spaced(a: real, step: real, n: nat): (r: seq<real>)
    ensures |r| == n && forall i :: 0 <= i < n ==> r[i] == a + i as real * step
  {
    seq(n, i requires 0 <= i < n => a + i as real * step)
  }

  lemma SpacedSteps(a: real, step: real, n: nat)
    ensures forall i :: 0 <= i < n - 1 ==> Spaced(a, step, n)[i + 1] - Spaced(a, step, n)[i] == step
  {
    forall i | 0 <= i < n - 1
      ensures Spaced(a, step, n)[i + 1] - Spaced(a, step, n)[i] == step
    {
      StepDifference(a, step, i as real);
    }
  }

  lemma SpacedLast(a: real, b: real, n: nat)
    requires n >= 2
    ensures Spaced(a, (b - a) / (n - 1) as real, n)[n - 1] == b
  {
    LastStep(a, b, (n - 1) as real);
  }

  /** Evenly spaced values with a positive step increase. */
  lemma {:induction false} LinspaceAscends(a: real, b: real, n: nat, i: nat, j: nat)
    requires a < b && i < j < n
    ensures Linspace(a, b, n)[i] < Linspace(a, b, n)[j]
    decreases j - i
  {
    var r := Linspace(a, b, n);
    assert (b - a) / (n - 1) as real > 0.0;
    if j > i + 1 {
      LinspaceAscends(a, b, n, i, j - 1);
    }
    assert r[j] - r[j - 1] == (b - a) / (n - 1) as real;
  }

  /** Evenly spaced values with a negative step decrease. */
  lemma LinspaceDescends(a: real, b: real, n: nat, i: nat)
    requires b < a && i + 1 < n
    ensures Linspace(a, b, n)[i + 1] < Linspace(a, b, n)[i]
  {
    var r := Linspace(a, b, n);
    assert (b - a) / (n - 1) as real < 0.0;
    assert r[i + 1] - r[i] == (b - a) / (n - 1) as real;
  }

  /** Every step of a descending `Linspace` goes down. */
  lemma LinspaceDecreasing(a: real, b: real, n: nat)
    requires b < a
    ensures Descending(Linspace(a, b, n))
  {
    forall i | 0 <= i < n - 1
      ensures Linspace(a, b, n)[i + 1] < Linspace(a, b, n)[i]
    {
      LinspaceDescends(a, b, n, i);
    }
  }

  /** Row and column of flattened index `k` in a `w`-wide array. */
  lemma RowMajor(k: nat, w: nat, h: nat)
    requires k < w * h
    ensures w > 0 && k / w < h && k % w < w
  {
  }

  lemma {:induction false} MulMonotone(w: int, d: int)
    requires w > 0 && d >= 1
    ensures w * d >= w
  {
    if d > 1 {
      MulMonotone(w, d - 1);
      assert w * d == w * (d - 1) + w;
    }
  }

  /** Euclidean division has one quotient and one remainder. */
  lemma DivModUnique(k: int, w: int, q: int, r: int)
    requires w > 0 && 0 <= r < w && k == w * q + r
    ensures k / w == q && k % w == r
  {
    var d := q - k / w;
    assert k == w * (k / w) + k % w;
    assert w * d == k % w - r;
    if d >= 1 {
      MulMonotone(w, d);
    } else if d <= -1 {
      MulMonotone(w, -d);
    }
  }

  lemma NextInRow(k: nat, w: nat)
    requires w > 0 && k % w < w - 1
    ensures (k + 1) % w == k % w + 1 && (k + 1) / w == k / w
  {
    DivModUnique(k + 1, w, k / w, k % w + 1);
  }

  lemma NextRow(k: nat, w: nat)
    requires w > 0
    ensures (k + w) % w == k % w && (k + w) / w == k / w + 1
  {
    DivModUnique(k + w, w, k / w + 1, k % w);
  }

  /** `meshgrid` of `xs` and `ys`, flattened row-major. */
  function Meshgrid(xs: seq<real>, ys: seq<real>): (r: seq<Point>)
    ensures |r| == |xs| * |ys|
  {
    var w, h := |xs|, |ys|;
    seq(w * h, k requires 0 <= k < w * h => RowMajor(k, w, h); (xs[k % w], ys[k / w]))
  }

  /** Point `k` pairs column `k % w` of `xs` with row `k / w` of `ys`. */
  lemma MeshgridAt(xs: seq<real>, ys: seq<real>, k: nat)
    requires k < |xs| * |ys|
    ensures |xs| > 0 && k / |xs| < |ys|
    ensures Meshgrid(xs, ys)[k] == (xs[k % |xs|], ys[k / |xs|])
  {
    RowMajor(k, |xs|, |ys|);
  }

  /** The sensor-plane sample points: `w` columns from `-width/2` to
      `width/2` and `h` rows from `height/2` down to `-height/2`. */
  function SensorSamples(sensor: (real, real), w: nat, h: nat): (r: seq<Point>)
    ensures |r| == w * h
  {
    Meshgrid(XAxis(sensor, w), YAxis(sensor, h))
  }

  /** The column coordinates, from `-width/2` to `width/2`. */
  function XAxis(sensor: (real, real), w: nat): (r: seq<real>)
    ensures |r| == w
  {
    Linspace(-0.5 * sensor.0, 0.5 * sensor.0, w)
  }

  /** The row coordinates, from `height/2` down to `-height/2`. */
  function YAxis(sensor: (real, real), h: nat): (r: seq<real>)
    ensures |r| == h
    ensures sensor.1 > 0.0 ==> Descending(r)
  {
    if sensor.1 > 0.0 then
      LinspaceDecreasing(0.5 * sensor.1, -0.5 * sensor.1, h);
      Linspace(0.5 * sensor.1, -0.5 * sensor.1, h)
    else Linspace(0.5 * sensor.1, -0.5 * sensor.1, h)
  }

  /** Along a row the sensor x coordinate increases. */
  lemma SamplesAscendAlongRow(sensor: (real, real), w: nat, h: nat, k: nat)
    requires k + 1 < w * h && sensor.0 > 0.0 && k % w + 1 < w
    ensures SensorSamples(sensor, w, h)[k].0 < SensorSamples(sensor, w, h)[k + 1].0
  {
    var xs, ys := XAxis(sensor, w), YAxis(sensor, h);
    MeshgridAt(xs, ys, k);
    MeshgridAt(xs, ys, k + 1);
    NextInRow(k, w);
    var c := k % w;
    LinspaceAscends(-0.5 * sensor.0, 0.5 * sensor.0, w, c, c + 1);
  }

  /** One row further down a meshgrid reads the next entry of `ys`. */
  lemma MeshgridNextRow(xs: seq<real>, ys: seq<real>, k: nat)
    requires k + |xs| < |xs| * |ys|
    ensures |xs| > 0 && 0 <= k / |xs| && k / |xs| + 1 < |ys|
    ensures Meshgrid(xs, ys)[k].1 == ys[k / |xs|]
    ensures Meshgrid(xs, ys)[k + |xs|].1 == ys[k / |xs| + 1]
  {
    MeshgridAt(xs, ys, k);
    MeshgridAt(xs, ys, k + |xs|);
    NextRow(k, |xs|);
  }

  /** Each entry is below the one before it. */
  predicate Descending(ys: seq<real>) {
    forall i :: 0 <= i < |ys| - 1 ==> ys[i + 1] < ys[i]
  }

  /** Over strictly decreasing `ys`, a point one row down lies lower. */
  lemma MeshgridDescends(xs: seq<real>, ys: seq<real>, k: nat)
    requires k + |xs| < |xs| * |ys|
    requires Descending(ys)
    ensures Meshgrid(xs, ys)[k + |xs|].1 < Meshgrid(xs, ys)[k].1
  {
    MeshgridNextRow(xs, ys, k);
  }

  /** From one row to the next the sensor y coordinate decreases. */
  lemma SamplesDescendDownRows(sensor: (real, real), w: nat, h: nat, k: nat)
    requires k + w < w * h && sensor.1 > 0.0
    ensures SensorSamples(sensor, w, h)[k + w].1 < SensorSamples(sensor, w, h)[k].1
  {
    MeshgridDescends(XAxis(sensor, w), YAxis(sensor, h), k);
  }
}
