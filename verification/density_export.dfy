/** The arithmetic of the storage helpers: the ground-grid totals saved next
    to a prediction, the size of the downsized image, and the clamp of the
    heatmap. The blob storage and the image and colour-map libraries are not
    part of this model. */
module DensityExport {
  import opened Results
  import opened PyNum
  import opened PyDict
  import opened DensityGrid
  import opened GroundGrid

  /** NumPy's `IndexError` for an index past the flattened map, and
      Python's `ZeroDivisionError`. */
  datatype ExportError = IndexError | ZeroDivision

  /** The rows one after the other: `np.array(density).flatten()` on a
      rectangular map, the only shape the density model produces. */
  function Flatten(g: Grid): (r: seq<real>)
    ensures forall v :: v in r <==> exists i :: 0 <= i < |g| && v in g[i]
    decreases |g|
  {
    if |g| == 0 then []
    else
      var rest := Flatten(g[1..]);
      assert forall i :: 1 <= i < |g| ==> g[i] == g[1..][i - 1];
      assert forall v :: (exists i :: 1 <= i < |g| && v in g[i]) ==> v in rest by {
        forall v | exists i :: 1 <= i < |g| && v in g[i]
          ensures v in rest
        {
          var i :| 1 <= i < |g| && v in g[i];
          assert v in g[1..][i - 1];
        }
      }
      g[0] + rest
  }

  /** On a rectangular map of width `w`, flattened index `k` is row `k / w`
      and column `k % w`. */
  lemma {:induction false} FlattenIndex(g: Grid, w: nat, k: nat)
    requires Rectangular(g, w) && k < |g| * w
    ensures |Flatten(g)| == |g| * w
    ensures w > 0 && k / w < |g| && Flatten(g)[k] == g[k / w][k % w]
    decreases |g|
  {
    RowMajor(k, w, |g|);
    FlattenLength(g, w);
    if k < w {
      DivModUnique(k, w, 0, k);
    } else {
      assert Rectangular(g[1..], w) by {
        forall i | 0 <= i < |g[1..]|
          ensures |g[1..][i]| == w
        {
          assert g[1..][i] == g[i + 1];
        }
      }
      assert k - w < (|g| - 1) * w;
      FlattenIndex(g[1..], w, k - w);
      NextRow(k - w, w);
      assert g[1..][(k - w) / w] == g[k / w];
    }
  }

  lemma {:induction false} FlattenLength(g: Grid, w: nat)
    requires Rectangular(g, w)
    ensures |Flatten(g)| == |g| * w
    decreases |g|
  {
    if |g| > 0 {
      assert Rectangular(g[1..], w) by {
        forall i | 0 <= i < |g[1..]|
          ensures |g[1..][i]| == w
        {
          assert g[1..][i] == g[i + 1];
        }
      }
      FlattenLength(g[1..], w);
    }
  }

  /** `np.sum(flat[indices])`: an index past the end raises. */
  function SumAt(flat: seq<real>, idx: seq<nat>): (r: Result<real, ExportError>)
    ensures r.Ok? <==> forall i :: 0 <= i < |idx| ==> idx[i] < |flat|
    ensures r.Err? ==> r.error == IndexError
  {
    if |idx| == 0 then Ok(0.0)
    else if idx[0] >= |flat| then Err(IndexError)
    else
      match SumAt(flat, idx[1..])
      case Err(e) => Err(e)
      case Ok(rest) => Ok(flat[idx[0]] + rest)
  }

  /** The sum over two index lists is the sum of their sums. */
  lemma {:induction false} SumAtAppend(flat: seq<real>, a: seq<nat>, b: seq<nat>)
    requires SumAt(flat, a).Ok? && SumAt(flat, b).Ok?
    ensures SumAt(flat, a + b) == Ok(SumAt(flat, a).value + SumAt(flat, b).value)
    decreases |a|
  {
    if |a| > 0 {
      assert (a + b)[1..] == a[1..] + b;
      assert (a + b)[0] == a[0];
      SumAtAppend(flat, a[1..], b);
    } else {
      assert a + b == b;
    }
  }

  /** Non-negative densities give non-negative cell totals. */
  lemma {:induction false} SumAtNonNegative(flat: seq<real>, idx: seq<nat>)
    requires SumAt(flat, idx).Ok?
    requires forall i :: 0 <= i < |flat| ==> flat[i] >= 0.0
    ensures SumAt(flat, idx).value >= 0.0
    decreases |idx|
  {
    if |idx| > 0 {
      SumAtNonNegative(flat, idx[1..]);
    }
  }

  /** The saved triple of one cell. */
  function Triple(flat: seq<real>, cell: ((real, real), seq<nat>)): Result<(real, real, real), ExportError> {
    match SumAt(flat, cell.1)
    case Err(e) => Err(e)
    case Ok(s) => Ok((cell.0.0, cell.0.1, s))
  }

  /** The triples `save_transformed_density_to_blob` saves: one per cell, in
      the order of the cells, with the cell centre and the density total of
      the cell's pixels; the first cell with an index past the map raises. */
  function TransformedDensity(density: Grid, cells: Cells): (r: Result<seq<(real, real, real)>, ExportError>)
    ensures r.Ok? <==> forall i :: 0 <= i < |cells| ==> SumAt(Flatten(density), cells[i].1).Ok?
    ensures r.Ok? ==> |r.value| == |cells|
    ensures r.Ok? ==> forall i :: 0 <= i < |cells| ==>
      r.value[i].0 == cells[i].0.0 && r.value[i].1 == cells[i].0.1 && Ok(r.value[i].2) == SumAt(Flatten(density), cells[i].1)
  {
    var flat := Flatten(density);
    var rs := seq(|cells|, i requires 0 <= i < |cells| => Triple(flat, cells[i]));
    assert forall i :: 0 <= i < |cells| ==> rs[i] == Triple(flat, cells[i]);
    AllOk(rs)
  }

  /** A cell holding the single pixel `k` of a rectangular map of width `w`
      saves that pixel's value. */
  lemma SinglePixelCell(density: Grid, w: nat, cells: Cells, i: nat, k: nat)
    requires Rectangular(density, w) && k < |density| * w
    requires i < |cells| && cells[i].1 == [k]
    requires TransformedDensity(density, cells).Ok?
    ensures w > 0 && k / w < |density|
    ensures TransformedDensity(density, cells).value[i].2 == density[k / w][k % w]
  {
    FlattenIndex(density, w, k);
    var flat := Flatten(density);
    assert SumAt(flat, [k]) == Ok(flat[k] + 0.0) by {
      assert [k][1..] == [];
    }
  }

  /** The downsized size: the long side, as the width/height comparison
      decides it, becomes 1280 wide or 720 high, and the other side follows
      the aspect ratio, truncated by `int()`. */
  function DownsizedSize(width: int, height: int): (r: Result<(int, int), ExportError>)
    ensures r.Err? <==> (if width > height then width == 0 else height == 0)
    ensures r.Ok? && width > height ==> r.value.0 == 1280
    ensures r.Ok? && width <= height ==> r.value.1 == 720
  {
    if width > height then
      if width == 0 then Err(ZeroDivision) else Ok((1280, Trunc(1280.0 / width as real * height as real)))
    else
      if height == 0 then Err(ZeroDivision) else Ok((Trunc(720.0 / height as real * width as real), 720))
  }

  /** A landscape image becomes 1280 wide and less high, keeping its aspect
      ratio to within one pixel. */
  lemma LandscapeSize(width: int, height: int)
    requires width > height > 0
    ensures DownsizedSize(width, height).Ok?
    ensures var s := DownsizedSize(width, height).value;
      s.0 == 1280 && 0 <= s.1 < 1280
      && s.1 * width <= 1280 * height < (s.1 + 1) * width
  {
    var x := 1280.0 / width as real * height as real;
    var n := Trunc(x);
    assert x * width as real == 1280.0 * height as real;
    assert x < 1280.0 by {
      assert 1280.0 * height as real < 1280.0 * width as real;
    }
    assert n as real * width as real <= x * width as real < (n as real + 1.0) * width as real;
  }

  /** A portrait or square image becomes 720 high and at most as wide,
      keeping its aspect ratio to within one pixel. */
  lemma PortraitSize(width: int, height: int)
    requires 0 < width <= height
    ensures DownsizedSize(width, height).Ok?
    ensures var s := DownsizedSize(width, height).value;
      s.1 == 720 && 0 <= s.0 <= 720
      && s.0 * height <= 720 * width < (s.0 + 1) * height
  {
    var x := 720.0 / height as real * width as real;
    var n := Trunc(x);
    assert x * height as real == 720.0 * width as real;
    assert x <= 720.0 by {
      assert 720.0 * width as real <= 720.0 * height as real;
    }
    assert n as real * height as real <= x * height as real < (n as real + 1.0) * height as real;
  }

  /** One heatmap level: clamped at 1.0, scaled to 255 and cast to `uint8`.
      NumPy leaves the cast of a negative value to the platform; `None`
      stands for that. */
  function HeatLevel(v: real): (r: Option<int>)
    ensures r.Some? <==> v >= 0.0
    ensures r.Some? ==> 0 <= r.value <= 255
    ensures v >= 1.0 ==> r == Some(255)
  {
    if v < 0.0 then None
    else
      var c := if v > 1.0 then 1.0 else v;
      Some(Trunc(c / 1.0 * 255.0))
  }

  /** Between 0 and 1 the level is `255 v` rounded down. */
  lemma HeatLevelScales(v: real)
    requires 0.0 <= v <= 1.0
    ensures HeatLevel(v) == Some(Floor(255.0 * v))
  {
  }

  /** A larger density never gives a lower level. */
  lemma HeatLevelMonotone(a: real, b: real)
    requires 0.0 <= a <= b
    ensures HeatLevel(a).value <= HeatLevel(b).value
  {
    var ca := if a > 1.0 then 1.0 else a;
    var cb := if b > 1.0 then 1.0 else b;
    assert ca <= cb;
    FloorMonotone(ca * 255.0, cb * 255.0);
  }

  lemma FloorMonotone(x: real, y: real)
    requires 0.0 <= x <= y
    ensures Floor(x) <= Floor(y)
  {
  }

  /** `prepare_heatmap` before the colour map: every level of the map, in
      the map's shape. */
  function HeatLevels(g: Grid): (r: seq<seq<Option<int>>>)
    ensures |r| == |g| && forall i :: 0 <= i < |g| ==> |r[i]| == |g[i]|
    ensures forall i, j :: 0 <= i < |g| && 0 <= j < |g[i]| ==> r[i][j] == HeatLevel(g[i][j])
  {
    seq(|g|, i requires 0 <= i < |g| => seq(|g[i]|, j requires 0 <= j < |g[i]| => HeatLevel(g[i][j])))
  }
}
