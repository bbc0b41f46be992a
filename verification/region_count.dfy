/** The counting step of `make_prediction`: the density map (interpolated
    first when an interpolator is given) is summed over all pixels into a
    total and, per mask name, over the pixels each mask covers; the sums are
    rounded once at the end and merged into one dict. */
module RegionCount {
  import opened Results
  import opened PyNum
  import opened PyDict
  import opened DensityGrid
  import opened Masks

  /** `fixed_width, fixed_height`: the frame every image is letterboxed into
      before inference. */
  const FixedWidth: int := 1920
  const FixedHeight: int := 1080

  /** An interpolator object called as `interpolator(density_map, masks)`. */
  type Interpolator = (Grid, seq<Mask>) -> Grid

  datatype Prediction = Prediction(prediction: Grid, counts: Dict<string, int>)

  /** The set of mask names: the keys of `{mask.name: 0 for mask in masks}`. */
  function Names(masks: seq<Mask>): set<string> {
    set i | 0 <= i < |masks| :: masks[i].name
  }

  /** Sum of the first `n` values of a row. */
  function RowTotal(row: seq<real>, n: nat): real
    requires n <= |row|
  {
    if n == 0 then 0.0 else RowTotal(row, n - 1) + row[n - 1]
  }

  /** Sum of every pixel of the first `i` rows. */
  function GridTotal(g: Grid, i: nat): real
    requires i <= |g|
  {
    if i == 0 then 0.0 else GridTotal(g, i - 1) + RowTotal(g[i - 1], |g[i - 1]|)
  }

  /** How many of the first `m` masks are named `name` and cover `(x, y)`:
      the number of times a pixel's value is added to that name's sum. */
  function Weight(masks: seq<Mask>, covers: CoverFn, name: string, x: int, y: int, m: nat): nat
    requires m <= |masks|
  {
    if m == 0 then 0
    else
      var here := if masks[m - 1].name == name && covers(masks[m - 1].polygon, x, y) then 1 else 0;
      Weight(masks, covers, name, x, y, m - 1) + here
  }

  function Multiplicity(masks: seq<Mask>, covers: CoverFn, name: string, x: int, y: int): nat {
    Weight(masks, covers, name, x, y, |masks|)
  }

  /** Covered sum over the first `n` pixels of row `i`. */
  function RowMasked(g: Grid, i: nat, n: nat, masks: seq<Mask>, covers: CoverFn, name: string): real
    requires i < |g| && n <= |g[i]|
  {
    if n == 0 then 0.0
    else
      var here := g[i][n - 1] * Multiplicity(masks, covers, name, n - 1, i) as real;
      RowMasked(g, i, n - 1, masks, covers, name) + here
  }

  /** Covered sum over the first `i` rows. */
  function GridMasked(g: Grid, i: nat, masks: seq<Mask>, covers: CoverFn, name: string): real
    requires i <= |g|
  {
    if i == 0 then 0.0
    else GridMasked(g, i - 1, masks, covers, name) + RowMasked(g, i - 1, |g[i - 1]|, masks, covers, name)
  }

  /** `{mask.name: 0 for mask in masks}`: one zero per name, in order of first
      appearance. */
  function ZeroCounts(masks: seq<Mask>): (d: Dict<string, real>)
    ensures KeySet(d) == Names(masks)
    ensures UniqueKeys(d)
    ensures forall name :: name in Names(masks) ==> Get(d, name) == Some(0.0)
  {
    var items := ZeroItems(masks);
    UnionKeepsUniqueKeys([], items);
    forall name | name in Names(masks)
      ensures Get(Union([], items), name) == Some(0.0)
    {
      ZeroLast(masks, name);
    }
    Union([], items)
  }

  /** The items of the comprehension: each mask's name with a zero. */
  function ZeroItems(masks: seq<Mask>): (items: seq<(string, real)>)
    ensures |items| == |masks| && forall i :: 0 <= i < |masks| ==> items[i] == (masks[i].name, 0.0)
    ensures KeySet(items) == Names(masks)
  {
    var items := seq(|masks|, i requires 0 <= i < |masks| => (masks[i].name, 0.0));
    assert KeySet(items) == Names(masks) by {
      forall name | name in Names(masks)
        ensures name in KeySet(items)
      {
        var i :| 0 <= i < |masks| && masks[i].name == name;
        assert items[i].0 == name;
      }
    }
    items
  }

  lemma ZeroLast(masks: seq<Mask>, name: string)
    requires name in Names(masks)
    ensures Get(Union([], ZeroItems(masks)), name) == Some(0.0)
  {
    var items := ZeroItems(masks);
    GetUnionLast([], items, name);
    var v := LastValue(items, name).value;
    var i :| 0 <= i < |items| && items[i].0 == name && items[i].1 == v
      && (forall j :: i < j < |items| ==> items[j].0 != name);
  }

  lemma {:induction false} UnionKeepsUniqueKeys(a: Dict<string, real>, b: seq<(string, real)>)
    requires UniqueKeys(a)
    ensures UniqueKeys(Union(a, b))
    decreases |b|
  {
    if |b| > 0 {
      SetKeepsUniqueKeys(a, b[0].0, b[0].1);
      UnionKeepsUniqueKeys(Set(a, b[0].0, b[0].1), b[1..]);
    }
  }

  /** The value under `name`, which must be present. */
  function At(d: Dict<string, real>, name: string): (v: real)
    requires name in KeySet(d)
    ensures Get(d, name) == Some(v)
  {
    Get(d, name).value
  }

  /** `r` holds, under every name, its value in `sums` plus `v` once for
      each of the first `m` masks of that name covering `(x, y)`. */
  predicate PixelPartial(r: Dict<string, real>, sums: Dict<string, real>, masks: seq<Mask>, covers: CoverFn,
                         x: int, y: int, v: real, m: nat)
    requires m <= |masks|
  {
    KeySet(r) == Names(masks) && KeySet(sums) == Names(masks)
    && forall name :: name in Names(masks) ==>
      At(r, name) == At(sums, name) + v * Weight(masks, covers, name, x, y, m) as real
  }

  /** One mask of the innermost loop. */
  function AddIfCovered(r: Dict<string, real>, mask: Mask, covers: CoverFn, x: int, y: int, v: real): Dict<string, real>
    requires mask.name in KeySet(r)
  {
    if covers(mask.polygon, x, y) then Set(r, mask.name, At(r, mask.name) + v) else r
  }

  lemma AddIfCoveredStep(r: Dict<string, real>, sums: Dict<string, real>, masks: seq<Mask>, covers: CoverFn,
                         x: int, y: int, v: real, m: nat)
    requires m < |masks|
    requires PixelPartial(r, sums, masks, covers, x, y, v, m)
    ensures masks[m].name in KeySet(r)
    ensures PixelPartial(AddIfCovered(r, masks[m], covers, x, y, v), sums, masks, covers, x, y, v, m + 1)
  {
    var name := masks[m].name;
    assert name in Names(masks);
    forall other | other in Names(masks)
      ensures At(AddIfCovered(r, masks[m], covers, x, y, v), other)
        == At(sums, other) + v * Weight(masks, covers, other, x, y, m + 1) as real
    {
      AddIfCoveredName(r, sums, masks, covers, x, y, v, m, other);
    }
  }

  /** The same for one name. */
  lemma AddIfCoveredName(r: Dict<string, real>, sums: Dict<string, real>, masks: seq<Mask>, covers: CoverFn,
                         x: int, y: int, v: real, m: nat, other: string)
    requires m < |masks| && masks[m].name in KeySet(r) && other in KeySet(r) && other in KeySet(sums)
    requires At(r, other) == At(sums, other) + v * Weight(masks, covers, other, x, y, m) as real
    ensures other in KeySet(AddIfCovered(r, masks[m], covers, x, y, v))
    ensures At(AddIfCovered(r, masks[m], covers, x, y, v), other)
      == At(sums, other) + v * Weight(masks, covers, other, x, y, m + 1) as real
  {
    WeightStep(masks, covers, other, x, y, m);
    AtAfterAdd(r, masks[m], covers, x, y, v, other);
    AddWeighted(At(AddIfCovered(r, masks[m], covers, x, y, v), other), At(r, other), At(sums, other), v,
      Weight(masks, covers, other, x, y, m), Weight(masks, covers, other, x, y, m + 1),
      masks[m].name == other && covers(masks[m].polygon, x, y));
  }

  /** One more mask adds one to the weight of its name if it covers the pixel. */
  lemma WeightStep(masks: seq<Mask>, covers: CoverFn, name: string, x: int, y: int, m: nat)
    requires m < |masks|
    ensures Weight(masks, covers, name, x, y, m + 1)
      == Weight(masks, covers, name, x, y, m) + (if masks[m].name == name && covers(masks[m].polygon, x, y) then 1 else 0)
  {
  }

  /** One mask adds the pixel's value to its own name only, and only if it
      covers the pixel. */
  lemma AtAfterAdd(r: Dict<string, real>, mask: Mask, covers: CoverFn, x: int, y: int, v: real, other: string)
    requires mask.name in KeySet(r) && other in KeySet(r)
    ensures other in KeySet(AddIfCovered(r, mask, covers, x, y, v))
    ensures At(AddIfCovered(r, mask, covers, x, y, v), other)
      == At(r, other) + (if mask.name == other && covers(mask.polygon, x, y) then v else 0.0)
  {
    if covers(mask.polygon, x, y) {
      GetAfterSet(r, mask.name, At(r, mask.name) + v, other);
    }
  }

  lemma AddWeighted(sum: real, a: real, s: real, v: real, w: nat, w': nat, d: bool)
    requires sum == a + (if d then v else 0.0)
    requires a == s + v * w as real
    requires w' == w + (if d then 1 else 0)
    ensures sum == s + v * w' as real
  {
    if d {
      assert v * w' as real == v * w as real + v;
    }
  }

  lemma AddIfCoveredUnique(r: Dict<string, real>, mask: Mask, covers: CoverFn, x: int, y: int, v: real)
    requires mask.name in KeySet(r)
    requires UniqueKeys(r)
    ensures UniqueKeys(AddIfCovered(r, mask, covers, x, y, v))
  {
    SetKeepsUniqueKeys(r, mask.name, At(r, mask.name) + v);
  }

  /** The innermost loop for one pixel: each mask that covers it adds the
      pixel's value to its name's sum. */
  method AddPixel(sums: Dict<string, real>, masks: seq<Mask>, covers: CoverFn, x: int, y: int, v: real)
    returns (r: Dict<string, real>)
    requires KeySet(sums) == Names(masks) && UniqueKeys(sums)
    ensures UniqueKeys(r)
    ensures PixelPartial(r, sums, masks, covers, x, y, v, |masks|)
  {
    r := sums;
    var m := 0;
    while m < |masks|
      invariant 0 <= m <= |masks|
      invariant UniqueKeys(r)
      invariant PixelPartial(r, sums, masks, covers, x, y, v, m)
    {
      AddIfCoveredStep(r, sums, masks, covers, x, y, v, m);
      AddIfCoveredUnique(r, masks[m], covers, x, y, v);
      r := AddIfCovered(r, masks[m], covers, x, y, v);
      m := m + 1;
    }
  }

  /** The loop over the pixels of row `i`. */
  method AddRow(total: real, sums: Dict<string, real>, g: Grid, i: nat, masks: seq<Mask>, covers: CoverFn)
    returns (total': real, r: Dict<string, real>)
    requires i < |g|
    requires KeySet(sums) == Names(masks) && UniqueKeys(sums)
    ensures total' == total + RowTotal(g[i], |g[i]|)
    ensures KeySet(r) == Names(masks) && UniqueKeys(r)
    ensures forall name :: name in Names(masks) ==>
      At(r, name) == At(sums, name) + RowMasked(g, i, |g[i]|, masks, covers, name)
  {
    total' := total;
    r := sums;
    var j := 0;
    while j < |g[i]|
      invariant 0 <= j <= |g[i]|
      invariant total' == total + RowTotal(g[i], j)
      invariant KeySet(r) == Names(masks) && UniqueKeys(r)
      invariant forall name :: name in Names(masks) ==>
        At(r, name) == At(sums, name) + RowMasked(g, i, j, masks, covers, name)
    {
      total' := total' + g[i][j];
      var prev := r;
      r := AddPixel(prev, masks, covers, j, i, g[i][j]);
      forall name | name in Names(masks)
        ensures At(r, name) == At(sums, name) + RowMasked(g, i, j + 1, masks, covers, name)
      {
        assert At(r, name) == At(prev, name) + g[i][j] * Multiplicity(masks, covers, name, j, i) as real;
      }
      j := j + 1;
    }
  }

  /** The pixel loops: the plain sum of every pixel and, for each mask name,
      every pixel value times the number of masks of that name covering it. */
  method Count(g: Grid, masks: seq<Mask>, covers: CoverFn) returns (total: real, sums: Dict<string, real>)
    ensures total == GridTotal(g, |g|)
    ensures KeySet(sums) == Names(masks) && UniqueKeys(sums)
    ensures forall name :: name in Names(masks) ==> Get(sums, name) == Some(GridMasked(g, |g|, masks, covers, name))
  {
    total := 0.0;
    sums := ZeroCounts(masks);
    var i := 0;
    while i < |g|
      invariant 0 <= i <= |g|
      invariant total == GridTotal(g, i)
      invariant KeySet(sums) == Names(masks) && UniqueKeys(sums)
      invariant forall name :: name in Names(masks) ==> At(sums, name) == GridMasked(g, i, masks, covers, name)
    {
      total, sums := AddRow(total, sums, g, i, masks, covers);
      i := i + 1;
    }
  }

  /** `{key: round(value) for key, value in mask_counts.items()}`. */
  function RoundAll(d: Dict<string, real>): (r: Dict<string, int>)
    ensures |r| == |d|
    ensures forall i :: 0 <= i < |d| ==> r[i] == (d[i].0, Round(d[i].1))
  {
    seq(|d|, i requires 0 <= i < |d| => (d[i].0, Round(d[i].1)))
  }

  lemma {:induction false} GetRoundAll(d: Dict<string, real>, k: string)
    ensures KeySet(RoundAll(d)) == KeySet(d)
    ensures UniqueKeys(d) ==> UniqueKeys(RoundAll(d))
    ensures Get(RoundAll(d), k) == if Get(d, k).Some? then Some(Round(Get(d, k).value)) else None
    decreases |d|
  {
    var r := RoundAll(d);
    assert KeySet(r) == KeySet(d) by {
      forall key | key in KeySet(d)
        ensures key in KeySet(r)
      {
        var i :| 0 <= i < |d| && d[i].0 == key;
        assert r[i].0 == key;
      }
    }
    if |d| > 0 && d[0].0 != k {
      GetRoundAll(d[1..], k);
      assert RoundAll(d)[1..] == RoundAll(d[1..]);
    }
  }

  /** `make_prediction` after inference: the map is interpolated when an
      interpolator is given, then `"total"` holds the rounded sum of every
      pixel and each mask name the rounded sum over its masks; a mask named
      `"total"` replaces the total, as the right-hand operand of `|` wins. */
  method MakePrediction(g: Grid, interpolator: Option<Interpolator>, masks: seq<Mask>, covers: CoverFn)
    returns (r: Prediction)
    ensures r.prediction == if interpolator.Some? then interpolator.value(g, masks) else g
    ensures KeySet(r.counts) == {"total"} + Names(masks)
    ensures "total" !in Names(masks) ==>
      Get(r.counts, "total") == Some(Round(GridTotal(r.prediction, |r.prediction|)))
    ensures forall name :: name in Names(masks) ==>
      Get(r.counts, name) == Some(Round(GridMasked(r.prediction, |r.prediction|, masks, covers, name)))
  {
    var density := if interpolator.Some? then interpolator.value(g, masks) else g;
    var total, sums := Count(density, masks, covers);
    var rounded := RoundAll(sums);
    var counts := Union([("total", Round(total))], rounded);
    GetRoundAll(sums, "total");
    assert KeySet([("total", Round(total))]) == {"total"} by {
      assert [("total", Round(total))][0].0 == "total";
    }
    forall name | name in Names(masks) || name == "total"
      ensures Get(counts, name) == if name in Names(masks)
        then Some(Round(GridMasked(density, |density|, masks, covers, name)))
        else Some(Round(total))
    {
      GetRoundAll(sums, name);
      GetUnion([("total", Round(total))], rounded, name);
    }
    r := Prediction(density, counts);
  }

  /** Masks sharing a name add up: listing the same mask twice doubles its
      name's sum, since each covering mask adds the pixel once. */
  lemma {:induction false} DuplicateMaskCountsTwice(g: Grid, m: Mask, covers: CoverFn, i: nat)
    requires i <= |g|
    ensures GridMasked(g, i, [m, m], covers, m.name) == 2.0 * GridMasked(g, i, [m], covers, m.name)
  {
    if i > 0 {
      DuplicateMaskCountsTwice(g, m, covers, i - 1);
      DuplicateRowTwice(g, i - 1, |g[i - 1]|, m, covers);
    }
  }

  lemma {:induction false} DuplicateRowTwice(g: Grid, i: nat, n: nat, m: Mask, covers: CoverFn)
    requires i < |g| && n <= |g[i]|
    ensures RowMasked(g, i, n, [m, m], covers, m.name) == 2.0 * RowMasked(g, i, n, [m], covers, m.name)
  {
    if n > 0 {
      DuplicateRowTwice(g, i, n - 1, m, covers);
      var c := Multiplicity([m], covers, m.name, n - 1, i);
      assert Multiplicity([m, m], covers, m.name, n - 1, i) == 2 * c by {
        assert [m, m][0] == m && [m, m][1] == m && [m][0] == m;
        assert Weight([m], covers, m.name, n - 1, i, 0) == 0;
        assert Weight([m, m], covers, m.name, n - 1, i, 0) == 0;
        assert Weight([m, m], covers, m.name, n - 1, i, 1) == c;
      }
      assert g[i][n - 1] * (2 * c) as real == 2.0 * (g[i][n - 1] * c as real);
    }
  }

  /** A name no mask covers anywhere gets 0, whatever the map. */
  lemma {:induction false} UncoveredIsZero(g: Grid, i: nat, masks: seq<Mask>, covers: CoverFn, name: string)
    requires i <= |g|
    requires forall k, x: int, y: int :: 0 <= k < |masks| && masks[k].name == name ==> !covers(masks[k].polygon, x, y)
    ensures GridMasked(g, i, masks, covers, name) == 0.0
  {
    if i > 0 {
      UncoveredIsZero(g, i - 1, masks, covers, name);
      UncoveredRowIsZero(g, i - 1, |g[i - 1]|, masks, covers, name);
    }
  }

  lemma {:induction false} UncoveredRowIsZero(g: Grid, i: nat, n: nat, masks: seq<Mask>, covers: CoverFn, name: string)
    requires i < |g| && n <= |g[i]|
    requires forall k, x: int, y: int :: 0 <= k < |masks| && masks[k].name == name ==> !covers(masks[k].polygon, x, y)
    ensures RowMasked(g, i, n, masks, covers, name) == 0.0
  {
    if n > 0 {
      UncoveredRowIsZero(g, i, n - 1, masks, covers, name);
      NoWeight(masks, covers, name, n - 1, i, |masks|);
    }
  }

  lemma {:induction false} NoWeight(masks: seq<Mask>, covers: CoverFn, name: string, x: int, y: int, m: nat)
    requires m <= |masks|
    requires forall k :: 0 <= k < |masks| && masks[k].name == name ==> !covers(masks[k].polygon, x, y)
    ensures Weight(masks, covers, name, x, y, m) == 0
  {
    if m > 0 {
      NoWeight(masks, covers, name, x, y, m - 1);
    }
  }
}
