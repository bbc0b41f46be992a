/** The pipeline the three `calculate_gridded_indices` functions share: sample
    the sensor plane at one point per density pixel, map every sample to the
    ground plane, and bucket the ground points into 1 m cells. The variants
    differ only in the size of the sample grid and in whether empty cells
    are stored. */
module Gridding {
  import opened Results
  import opened PyNum
  import opened PyDict
  import opened GroundGrid
  import opened Perspective

  /** Why gridding a camera can fail: no sample points to unpack, a
      transformer that cannot be built or solved, or a camera entry without
      a sensor size. */
  datatype GridError = NoSamples | Transform(cause: PerspectiveError) | MissingSensor

  /** The ground point of every sensor sample, in sample order; the first
      sample whose system is singular aborts the whole batch. */
  function GroundPoints(t: Transformer, sensor: (real, real), w: nat, h: nat): (r: Result<seq<Point>, PerspectiveError>)
    ensures r.Ok? <==> forall k :: 0 <= k < w * h ==> ToGround(t, SensorSamples(sensor, w, h)[k]).Ok?
    ensures r.Ok? ==> |r.value| == w * h
    ensures r.Ok? ==> forall k :: 0 <= k < w * h ==> OnRay(t, SensorSamples(sensor, w, h)[k], r.value[k])
    ensures r.Err? ==> exists k :: 0 <= k < w * h && ToGround(t, SensorSamples(sensor, w, h)[k]) == Err(r.error)
  {
    match TransformToGroundPlane(t, Batch(SensorSamples(sensor, w, h)))
    case Err(e) => Err(e)
    case Ok(out) => Ok(out.grounds)
  }

  /** The cells of one camera at one position. */
  function GroundCells(t: Transformer, sensor: (real, real), w: nat, h: nat, keepEmpty: bool): (r: Result<Cells, GridError>)
    ensures r.Ok? <==> w * h > 0 && GroundPoints(t, sensor, w, h).Ok?
    ensures r == Err(NoSamples) <==> w * h == 0 && GroundPoints(t, sensor, w, h).Ok?
    ensures r.Err? && r.error != NoSamples ==> r == Err(Transform(GroundPoints(t, sensor, w, h).error))
    ensures r.Ok? ==> UniqueKeys(r.value)
  {
    match GroundPoints(t, sensor, w, h)
    case Err(e) => Err(Transform(e))
    case Ok(pts) =>
      match Bucket(pts, keepEmpty)
      case Err(_) => Err(NoSamples)
      case Ok(cells) => Ok(cells)
  }

  /** Pixel `k` is listed under the cell that holds its ground point, and
      under no other; it is listed nowhere when one of its coordinates is the
      integer the cell range stops before. */
  lemma GroundCellsPartition(t: Transformer, sensor: (real, real), w: nat, h: nat, keepEmpty: bool, k: nat, cx: int, cy: int)
    requires GroundCells(t, sensor, w, h, keepEmpty).Ok? && k < w * h
    ensures var pts := GroundPoints(t, sensor, w, h).value;
      var b := BoundsOf(pts);
      ListedIn(GroundCells(t, sensor, w, h, keepEmpty).value, k, cx, cy) <==>
        InCell(pts[k], cx, cy) && pts[k].0 != b.xhi as real && pts[k].1 != b.yhi as real
  {
    var pts := GroundPoints(t, sensor, w, h).value;
    BucketPartition(pts, keepEmpty, k, cx, cy);
    InCellIsFloor(pts[k], cx, cy);
  }

  /** Without `keepEmpty` every stored cell lists a pixel. */
  lemma GroundCellsNonEmpty(t: Transformer, sensor: (real, real), w: nat, h: nat, key: (real, real))
    requires GroundCells(t, sensor, w, h, false).Ok?
    requires key in KeySet(GroundCells(t, sensor, w, h, false).value)
    ensures Get(GroundCells(t, sensor, w, h, false).value, key).value != []
  {
    DroppedCellsAreEmpty(GroundPoints(t, sensor, w, h).value, key);
  }
}
