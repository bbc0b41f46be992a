/** Lookups on a loaded project: a camera by id, the settings of a camera at
    a named position, and the model a camera runs at a time of day. The
    project store is not part of this model; the project is passed in, and
    a missing project is `None`. */
module CameraService {
  import opened Results
  import opened ProjectConfig
  import opened Schedules

  /** Camera `k` is the first one with the id. */
  predicate FirstWithId(cs: seq<Camera>, id: string, k: int) {
    0 <= k < |cs| && cs[k].id == id && forall k' :: 0 <= k' < k ==> cs[k'].id != id
  }

  /** Index of the first camera with the id. */
  function FindCamera(cs: seq<Camera>, id: string): (r: Option<nat>)
    ensures r.Some? ==> FirstWithId(cs, id, r.value)
    ensures r.None? <==> forall k :: 0 <= k < |cs| ==> cs[k].id != id
  {
    if |cs| == 0 then None
    else if cs[0].id == id then Some(0)
    else
      match FindCamera(cs[1..], id)
      case None => None
      case Some(i) => Some(i + 1)
  }

  /** `get_camera`. */
  function GetCamera(project: Option<Project>, id: string): (r: Option<Camera>)
    ensures r.Some? <==> project.Some? && exists k :: 0 <= k < |project.value.cameras| && project.value.cameras[k].id == id
    ensures r.Some? ==> exists k :: FirstWithId(project.value.cameras, id, k) && r.value == project.value.cameras[k]
  {
    match project
    case None => None
    case Some(p) =>
      match FindCamera(p.cameras, id)
      case None => None
      case Some(i) => Some(p.cameras[i])
  }

  predicate Matches(cfg: CameraConfig, cameraId: string, positionName: string) {
    cfg.cameraId == cameraId && cfg.position.name == positionName
  }

  /** Index of the first matching configuration of one area. */
  function FindConfig(cfgs: seq<CameraConfig>, cameraId: string, positionName: string): (r: Option<nat>)
    ensures r.Some? ==> (r.value < |cfgs| && Matches(cfgs[r.value], cameraId, positionName)
      && forall k :: 0 <= k < r.value ==> !Matches(cfgs[k], cameraId, positionName))
    ensures r.None? <==> forall k :: 0 <= k < |cfgs| ==> !Matches(cfgs[k], cameraId, positionName)
  {
    if |cfgs| == 0 then None
    else if Matches(cfgs[0], cameraId, positionName) then Some(0)
    else
      match FindConfig(cfgs[1..], cameraId, positionName)
      case None => None
      case Some(i) => Some(i + 1)
  }

  /** Some configuration of the area matches. */
  predicate AreaMatches(a: Area, cameraId: string, positionName: string) {
    exists k :: 0 <= k < |a.cameraConfigs| && Matches(a.cameraConfigs[k], cameraId, positionName)
  }

  /** Configuration `k` of area `a` is the first match in scan order: no
      earlier area holds one, and nothing before it in its area matches. */
  predicate FirstMatchAt(areas: seq<Area>, cameraId: string, positionName: string, a: int, k: int) {
    0 <= a < |areas| && 0 <= k < |areas[a].cameraConfigs|
    && Matches(areas[a].cameraConfigs[k], cameraId, positionName)
    && (forall a' :: 0 <= a' < a ==> !AreaMatches(areas[a'], cameraId, positionName))
    && (forall k' :: 0 <= k' < k ==> !Matches(areas[a].cameraConfigs[k'], cameraId, positionName))
  }

  /** The area scan, as the position of the first match. */
  function FindInAreas(areas: seq<Area>, cameraId: string, positionName: string): (r: Option<(nat, nat)>)
    ensures r.None? <==> forall a :: 0 <= a < |areas| ==> !AreaMatches(areas[a], cameraId, positionName)
    ensures r.Some? ==> FirstMatchAt(areas, cameraId, positionName, r.value.0, r.value.1)
  {
    if |areas| == 0 then None
    else
      match FindConfig(areas[0].cameraConfigs, cameraId, positionName)
      case Some(k) => Some((0, k))
      case None =>
        var rest := FindInAreas(areas[1..], cameraId, positionName);
        assert forall a :: 1 <= a < |areas| ==> areas[a] == areas[1..][a - 1];
        match rest
        case None => None
        case Some((a, k)) =>
          assert areas[a + 1] == areas[1..][a];
          Some((a + 1, k))
  }

  /** `get_camera_config`: the first matching configuration together with
      its area, scanning areas and then each area's configurations. */
  function GetCameraConfig(project: Option<Project>, cameraId: string, positionName: string): (r: Option<(CameraConfig, Area)>)
    ensures r.Some? <==> project.Some? && exists a :: 0 <= a < |project.value.areas| && AreaMatches(project.value.areas[a], cameraId, positionName)
    ensures r.Some? ==> exists a, k :: (FirstMatchAt(project.value.areas, cameraId, positionName, a, k)
      && r.value == (project.value.areas[a].cameraConfigs[k], project.value.areas[a]))
  {
    match project
    case None => None
    case Some(p) =>
      match FindInAreas(p.areas, cameraId, positionName)
      case None => None
      case Some((a, k)) => Some((p.areas[a].cameraConfigs[k], p.areas[a]))
  }

  /** What the service can raise: a bad time field in a schedule, or the
      attribute lookup of a fallback the model enumeration does not have. */
  datatype ServiceError = TimeError | AttributeError

  /** `CameraService.get_active_model` as written: the fallback for a
      missing camera names an enumeration member that does not exist. */
  function GetActiveModelAsWritten(project: Option<Project>, cameraId: string, t: Clock): (r: Result<CountingModel, ServiceError>)
    ensures r == Err(AttributeError) <==> project.None? || forall k :: 0 <= k < |project.value.cameras| ==> project.value.cameras[k].id != cameraId
    ensures r.Ok? ==> exists k :: (FirstWithId(project.value.cameras, cameraId, k)
      && GetActiveModel(project.value.cameras[k], t) == Ok(r.value))
    ensures r == Err(TimeError) ==> exists k :: (FirstWithId(project.value.cameras, cameraId, k)
      && GetActiveModel(project.value.cameras[k], t).Err?)
  {
    match GetCamera(project, cameraId)
    case None => Err(AttributeError)
    case Some(c) =>
      match GetActiveModel(c, t)
      case Ok(m) => Ok(m)
      case Err(_) => Err(TimeError)
  }

  /** The same lookup with the fallback a camera without schedules or default
      would get. */
  function GetActiveModelFallback(project: Option<Project>, cameraId: string, t: Clock): (r: Result<CountingModel, ServiceError>)
    ensures GetCamera(project, cameraId).None? ==> r == Ok(Model0725)
    ensures GetCamera(project, cameraId).Some? ==> r == GetActiveModelAsWritten(project, cameraId, t)
    ensures r.Err? ==> r == Err(TimeError)
  {
    match GetCamera(project, cameraId)
    case None => Ok(Model0725)
    case Some(_) => GetActiveModelAsWritten(project, cameraId, t)
  }

  /** An unknown camera makes the service raise instead of falling back. */
  lemma MissingCameraRaises(p: Project, t: Clock)
    requires p.cameras == []
    ensures GetActiveModelAsWritten(Some(p), "any", t) == Err(AttributeError)
    ensures GetActiveModelAsWritten(None, "any", t) == Err(AttributeError)
    ensures GetActiveModelFallback(Some(p), "any", t) == Ok(Model0725)
  {
  }
}
