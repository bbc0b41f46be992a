/** The startup `calculate_gridded_indices`: the ground grid of every camera
    position, from the camera metadata. A camera without a sensor size is
    skipped; every other one is gridded at each of its positions on the
    240 x 135 sample grid. As written it stores every cell of the range,
    empty ones included. */
module StartupGrid {
  import opened Results
  import opened PyNum
  import opened PyDict
  import opened GroundGrid
  import opened Gridding
  import opened StartupMetadata
  import CameraUtils
  import Perspective

  /** Gridding one position on a `w` x `h` sample grid; reading the sensor
      size of a camera that has none raises. */
  function CellsStep(w: nat, h: nat, keepEmpty: bool, orient: Perspective.Orientation): Step<Cells, GridError> {
    (id: string, cam: CameraMeta, name: string, pos: PositionMeta) =>
      match cam.sensorSize
      case None => Err(MissingSensor)
      case Some(sensor) =>
        match Perspective.New(pos.focalLength, cam.coordinates3d, pos.centerGroundPlane, orient)
        case Err(e) => Err(Transform(e))
        case Ok(t) =>
          match GroundCells(t, sensor, w, h, keepEmpty)
          case Err(e) => Err(e)
          case Ok(cells) => Ok(Some(cells))
  }

  /** Where a stored value comes from: the cells of the camera's transformer
      at that position. */
  lemma CellsStepValue(w: nat, h: nat, keepEmpty: bool, orient: Perspective.Orientation,
                       id: string, cam: CameraMeta, name: string, pos: PositionMeta, cells: Cells)
    requires CellsStep(w, h, keepEmpty, orient)(id, cam, name, pos) == Ok(Some(cells))
    ensures cam.sensorSize.Some? && |cam.coordinates3d| == 3
    ensures var t := Perspective.New(pos.focalLength, cam.coordinates3d, pos.centerGroundPlane, orient).value;
      GroundCells(t, cam.sensorSize.value, w, h, keepEmpty) == Ok(cells)
  {
  }

  /** `if not "sensor_size" in data: continue`. */
  function SkipWithoutSensor(): Guard<GridError> {
    (cam: CameraMeta) => Ok(cam.sensorSize.Some?)
  }

  /** The startup gridding with the choice of keeping empty cells. */
  function GriddedIndicesWith(cams: Cameras, orient: Perspective.Orientation, keepEmpty: bool): (r: Result<Dict<string, Cells>, GridError>) {
    Collect(cams, SkipWithoutSensor(), CellsStep(CameraUtils.DensityWidth, CameraUtils.DensityHeight, keepEmpty, orient))
  }

  /** `calculate_gridded_indices` as written: `len(indices) > 0` holds for
      every cell, so every cell is stored. */
  function GriddedIndices(cams: Cameras, orient: Perspective.Orientation): (r: Result<Dict<string, Cells>, GridError>) {
    GriddedIndicesWith(cams, orient, true)
  }

  /** The same with the test the other two gridding functions make: only
      cells that hold a pixel are stored. */
  function GriddedIndicesNonEmpty(cams: Cameras, orient: Perspective.Orientation): (r: Result<Dict<string, Cells>, GridError>) {
    GriddedIndicesWith(cams, orient, false)
  }

  /** Every key of the result belongs to a position of a camera with a
      sensor size, and holds that position's cells. */
  lemma GriddedIndicesGet(cams: Cameras, orient: Perspective.Orientation, keepEmpty: bool, key: string)
    requires GriddedIndicesWith(cams, orient, keepEmpty).Ok?
    requires key in KeySet(GriddedIndicesWith(cams, orient, keepEmpty).value)
    ensures exists i, j :: (0 <= i < |cams| && 0 <= j < |cams[i].1.positions|
      && key == Key(cams[i].0, cams[i].1.positions[j].0)
      && cams[i].1.sensorSize.Some? && |cams[i].1.coordinates3d| == 3
      && var pos := cams[i].1.positions[j].1;
         var t := Perspective.New(pos.focalLength, cams[i].1.coordinates3d, pos.centerGroundPlane, orient).value;
         GroundCells(t, cams[i].1.sensorSize.value, CameraUtils.DensityWidth, CameraUtils.DensityHeight, keepEmpty)
           == Ok(Get(GriddedIndicesWith(cams, orient, keepEmpty).value, key).value))
  {
    var step := CellsStep(CameraUtils.DensityWidth, CameraUtils.DensityHeight, keepEmpty, orient);
    var cells := Get(GriddedIndicesWith(cams, orient, keepEmpty).value, key).value;
    CollectValue(cams, SkipWithoutSensor(), step, key);
    var i, j :| 0 <= i < |cams| && Stores(cams[i].0, cams[i].1, SkipWithoutSensor(), step, j, key, cells);
    CellsStepValue(CameraUtils.DensityWidth, CameraUtils.DensityHeight, keepEmpty, orient,
      cams[i].0, cams[i].1, cams[i].1.positions[j].0, cams[i].1.positions[j].1, cells);
  }

  /** A camera with a sensor size can be gridded at a position: its
      position is three-dimensional and every sample has a regular system. */
  predicate Griddable(cam: CameraMeta, pos: PositionMeta, orient: Perspective.Orientation, keepEmpty: bool)
    requires cam.sensorSize.Some?
  {
    |cam.coordinates3d| == 3 &&
    var t := Perspective.New(pos.focalLength, cam.coordinates3d, pos.centerGroundPlane, orient).value;
    GroundCells(t, cam.sensorSize.value, CameraUtils.DensityWidth, CameraUtils.DensityHeight, keepEmpty).Ok?
  }

  lemma CameraGriddable(id: string, cam: CameraMeta, orient: Perspective.Orientation, keepEmpty: bool)
    ensures CameraOk(id, cam, SkipWithoutSensor(), CellsStep(CameraUtils.DensityWidth, CameraUtils.DensityHeight, keepEmpty, orient)) <==>
      (cam.sensorSize.Some? ==> forall j :: 0 <= j < |cam.positions| ==> Griddable(cam, cam.positions[j].1, orient, keepEmpty))
  {
    var step := CellsStep(CameraUtils.DensityWidth, CameraUtils.DensityHeight, keepEmpty, orient);
    if cam.sensorSize.Some? {
      forall j | 0 <= j < |cam.positions|
        ensures step(id, cam, cam.positions[j].0, cam.positions[j].1).Ok? <==> Griddable(cam, cam.positions[j].1, orient, keepEmpty)
      {
      }
    }
  }

  /** The call runs through iff every camera with a sensor size can be
      gridded at each of its positions. */
  lemma GriddedIndicesOk(cams: Cameras, orient: Perspective.Orientation, keepEmpty: bool)
    ensures GriddedIndicesWith(cams, orient, keepEmpty).Ok? <==>
      forall i :: 0 <= i < |cams| && cams[i].1.sensorSize.Some? ==>
        forall j :: 0 <= j < |cams[i].1.positions| ==> Griddable(cams[i].1, cams[i].1.positions[j].1, orient, keepEmpty)
  {
    ItemsOk(cams, SkipWithoutSensor(), CellsStep(CameraUtils.DensityWidth, CameraUtils.DensityHeight, keepEmpty, orient));
    forall i | 0 <= i < |cams| {
      CameraGriddable(cams[i].0, cams[i].1, orient, keepEmpty);
    }
  }

  /** As written, a cell without pixels is stored: with ground points
      `(0, 0)` and `(1.5, 1.5)` the cell `[0, 1) x [1, 2)` is empty but
      present. */
  lemma EmptyCellStored()
    ensures Get(Bucket([(0.0, 0.0), (1.5, 1.5)], true).value, Centre(0, 1)) == Some([])
  {
    var pts: seq<Point> := [(0.0, 0.0), (1.5, 1.5)];
    var b := BoundsOf(pts);
    assert MinOf(Xs(pts)) == 0.0 && MaxOf(Xs(pts)) == 1.5;
    assert MinOf(Ys(pts)) == 0.0 && MaxOf(Ys(pts)) == 1.5;
    assert b == Bounds(0, 2, 0, 2);
    assert Where(pts, 0, 1) == [] by {
      assert !InCell(pts[0], 0, 1) && !InCell(pts[1], 0, 1);
    }
    BucketGet(pts, true, 0, 1);
  }

  /** With the test restored, every stored cell of every position lists a
      pixel. */
  lemma NonEmptyCellsOnly(cams: Cameras, orient: Perspective.Orientation, key: string, cell: (real, real))
    requires GriddedIndicesNonEmpty(cams, orient).Ok?
    requires key in KeySet(GriddedIndicesNonEmpty(cams, orient).value)
    requires cell in KeySet(Get(GriddedIndicesNonEmpty(cams, orient).value, key).value)
    ensures Get(Get(GriddedIndicesNonEmpty(cams, orient).value, key).value, cell).value != []
  {
    GriddedIndicesGet(cams, orient, false, key);
    var cells := Get(GriddedIndicesNonEmpty(cams, orient).value, key).value;
    var i, j :| 0 <= i < |cams| && 0 <= j < |cams[i].1.positions|
      && key == Key(cams[i].0, cams[i].1.positions[j].0)
      && cams[i].1.sensorSize.Some? && |cams[i].1.coordinates3d| == 3
      && var pos := cams[i].1.positions[j].1;
         var t := Perspective.New(pos.focalLength, cams[i].1.coordinates3d, pos.centerGroundPlane, orient).value;
         GroundCells(t, cams[i].1.sensorSize.value, CameraUtils.DensityWidth, CameraUtils.DensityHeight, false) == Ok(cells);
    var pos := cams[i].1.positions[j].1;
    var t := Perspective.New(pos.focalLength, cams[i].1.coordinates3d, pos.centerGroundPlane, orient).value;
    GroundCellsNonEmpty(t, cams[i].1.sensorSize.value, CameraUtils.DensityWidth, CameraUtils.DensityHeight, cell);
  }
}
