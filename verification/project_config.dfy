/** The typed project configuration: projects with cameras and areas, the
    per-position camera settings, and time-of-day model schedules. Values of
    these types are what the configuration parser has already accepted, so
    every tuple has the length its type states. */
module ProjectConfig {
  import opened Results

  /** The counting models a camera can run. */
  datatype CountingModel = Model0725 | ModelNwpu

  /** The weight file each model names. */
  function FileName(m: CountingModel): (r: string)
    ensures r == "model_0725.pth" || r == "model_nwpu.pth"
  {
    match m
    case Model0725 => "model_0725.pth"
    case ModelNwpu => "model_nwpu.pth"
  }

  const SecondsPerDay: int := 86400

  /** A time of day with whole-second resolution, as seconds after midnight. */
  type Clock = t: int | 0 <= t < SecondsPerDay

  /** An hour, minute and second as stored in the configuration; nothing
      bounds the three fields until they are turned into a time. */
  datatype TimeAtDay = TimeAtDay(hour: int, minute: int, second: int)

  datatype ValueError = ValueError

  predicate ValidFields(t: TimeAtDay) {
    0 <= t.hour < 24 && 0 <= t.minute < 60 && 0 <= t.second < 60
  }

  /** `to_time`: Python's `time(hour, minute, second)`, which rejects a field
      outside its range. */
  function ToTime(t: TimeAtDay): (r: Result<Clock, ValueError>)
    ensures r.Ok? <==> ValidFields(t)
    ensures r.Ok? ==> FromClock(r.value) == t
  {
    if ValidFields(t) then Ok(t.hour * 3600 + t.minute * 60 + t.second) else Err(ValueError)
  }

  /** The fields of a time of day. */
  function FromClock(c: Clock): (t: TimeAtDay)
    ensures ValidFields(t)
    ensures t.hour * 3600 + t.minute * 60 + t.second == c
  {
    TimeAtDay(c / 3600, c / 60 % 60, c % 60)
  }

  /** Python compares `time` values field by field; the seconds count orders
      them the same way. */
  lemma ToTimeKeepsOrder(a: TimeAtDay, b: TimeAtDay)
    requires ValidFields(a) && ValidFields(b)
    ensures ToTime(a).value <= ToTime(b).value <==>
      a.hour < b.hour || (a.hour == b.hour && (a.minute < b.minute || (a.minute == b.minute && a.second <= b.second)))
  {
  }

  datatype ModelSchedule = ModelSchedule(id: string, name: string, start: TimeAtDay, end: TimeAtDay, model: CountingModel)

  datatype Camera = Camera(
    id: string,
    name: string,
    resolution: (int, int),
    sensorSize: Option<(real, real)>,
    coordinates3d: Option<(real, real, real)>,
    defaultModel: Option<CountingModel>,
    schedules: seq<ModelSchedule>)

  datatype Position = Position(name: string, centerGroundPlane: Option<(real, real)>, focalLength: Option<real>)

  datatype MaskingConfig = MaskingConfig(edges: seq<(int, int)>)

  datatype CameraConfig = CameraConfig(
    cameraId: string,
    position: Position,
    enableHeatmap: bool,
    heatmapConfig: Option<(int, int, int, int)>,
    enableInterpolation: bool,
    enableMasking: bool,
    maskingConfig: Option<MaskingConfig>)

  datatype Area = Area(id: string, name: string, cameraConfigs: seq<CameraConfig>)

  datatype Project = Project(id: string, name: string, cameras: seq<Camera>, areas: seq<Area>)
}
