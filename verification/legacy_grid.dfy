/** The older `calculate_gridded_indices`: every camera entry is processed,
    so one without a sensor size raises; the sample grid is
    `int(max_width / 8)` x `int(max_height / 8)`, and only cells holding a
    pixel are stored. The input size it reads is a parameter here, and the
    older perspective transformer is taken to be the startup one. */
module LegacyGrid {
  import opened Results
  import opened PyNum
  import opened PyDict
  import opened GroundGrid
  import opened Gridding
  import opened StartupMetadata
  import StartupGrid
  import Perspective

  /** Reading `data["sensor_size"]` before the positions are visited. */
  function RequireSensor(): Guard<GridError> {
    (cam: CameraMeta) => if cam.sensorSize.Some? then Ok(true) else Err(MissingSensor)
  }

  /** `int(size / 8)` for a non-negative size. */
  function Eighth(size: nat): (r: nat)
    ensures 8 * r <= size < 8 * r + 8
  {
    Trunc(size as real / 8.0)
  }

  /** `calculate_gridded_indices` of the older pipeline. */
  function GriddedIndices(cams: Cameras, orient: Perspective.Orientation, maxWidth: nat, maxHeight: nat): (r: Result<Dict<string, Cells>, GridError>) {
    Collect(cams, RequireSensor(), StartupGrid.CellsStep(Eighth(maxWidth), Eighth(maxHeight), false, orient))
  }

  /** A camera entry without a sensor size makes the call raise, whether or
      not it has positions. */
  lemma SensorRequired(cams: Cameras, orient: Perspective.Orientation, maxWidth: nat, maxHeight: nat)
    ensures GriddedIndices(cams, orient, maxWidth, maxHeight).Ok? ==> forall i :: 0 <= i < |cams| ==> cams[i].1.sensorSize.Some?
    ensures |cams| > 0 && cams[0].1.sensorSize.None? ==> GriddedIndices(cams, orient, maxWidth, maxHeight) == Err(MissingSensor)
  {
    ItemsOk(cams, RequireSensor(), StartupGrid.CellsStep(Eighth(maxWidth), Eighth(maxHeight), false, orient));
  }

  /** Every stored cell of every position lists a pixel. */
  lemma NonEmptyCellsOnly(cams: Cameras, orient: Perspective.Orientation, maxWidth: nat, maxHeight: nat, key: string, cell: (real, real))
    requires GriddedIndices(cams, orient, maxWidth, maxHeight).Ok?
    requires key in KeySet(GriddedIndices(cams, orient, maxWidth, maxHeight).value)
    requires cell in KeySet(Get(GriddedIndices(cams, orient, maxWidth, maxHeight).value, key).value)
    ensures Get(Get(GriddedIndices(cams, orient, maxWidth, maxHeight).value, key).value, cell).value != []
  {
    var w, h := Eighth(maxWidth), Eighth(maxHeight);
    var step := StartupGrid.CellsStep(w, h, false, orient);
    var cells := Get(GriddedIndices(cams, orient, maxWidth, maxHeight).value, key).value;
    CollectValue(cams, RequireSensor(), step, key);
    var i, j :| 0 <= i < |cams| && Stores(cams[i].0, cams[i].1, RequireSensor(), step, j, key, cells);
    var cam, pos := cams[i].1, cams[i].1.positions[j].1;
    StartupGrid.CellsStepValue(w, h, false, orient, cams[i].0, cam, cams[i].1.positions[j].0, pos, cells);
    var t := Perspective.New(pos.focalLength, cam.coordinates3d, pos.centerGroundPlane, orient).value;
    GroundCellsNonEmpty(t, cam.sensorSize.value, w, h, cell);
  }

  /** At the model input size of 1920 x 1080 the sample grid is the same
      240 x 135 as in the newer pipeline. */
  lemma InputSizeGrid()
    ensures Eighth(1920) == 240 && Eighth(1080) == 135
  {
  }
}
