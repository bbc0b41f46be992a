/** The configuration check over all loaded projects: every project gets the
    list of flaws found in it, in the order the checks discover them, and a
    project with no flaw does not appear in the report. */
module ProjectCheck {
  import opened Results
  import opened PyDict
  import opened ProjectConfig

  /** One finding of the check, with the ids its message names. */
  datatype Flaw =
    | MissingId
    | MissingName
    | NoCameras
    | IncompletePerspective(camera: string)
    | PositionNameMissing(camera: string)
    | PositionPerspective(camera: string, position: string)
    | MaskingWithoutConfig(camera: string, position: string)
    | TooFewEdges(camera: string, position: string)

  /** The camera carries at least one perspective field. */
  predicate CameraHasPerspective(c: Camera) {
    c.sensorSize.Some? || c.coordinates3d.Some?
  }

  /** The position carries at least one perspective field. */
  predicate PositionHasPerspective(p: Position) {
    p.centerGroundPlane.Some? || p.focalLength.Some?
  }

  /** The position can drive a perspective transformation; a focal length
      of zero counts as missing. */
  predicate PositionComplete(p: Position) {
    p.centerGroundPlane.Some? && p.focalLength.Some? && p.focalLength.value != 0.0
  }

  /** The flaws a camera configuration can yield. */
  predicate ConfigKind(f: Flaw) {
    f.PositionNameMissing? || f.PositionPerspective? || f.MaskingWithoutConfig? || f.TooFewEdges?
  }

  /** The checks on one camera: the two perspective fields come together. */
  function CameraFlaws(c: Camera): seq<Flaw> {
    if CameraHasPerspective(c) && (c.sensorSize.None? || c.coordinates3d.None?) then [IncompletePerspective(c.id)] else []
  }

  /** The camera loop. */
  function CamerasFlaws(cams: seq<Camera>): seq<Flaw> {
    if |cams| == 0 then [] else CameraFlaws(cams[0]) + CamerasFlaws(cams[1..])
  }

  /** The perspective check of one configuration against one camera: only a
      camera with the configuration's id takes part. */
  function PerspectiveFlaw(c: Camera, cfg: CameraConfig): seq<Flaw> {
    if c.id == cfg.cameraId && (CameraHasPerspective(c) || PositionHasPerspective(cfg.position))
      && (cfg.position.centerGroundPlane.None? || cfg.position.focalLength.None? || cfg.position.focalLength.value == 0.0)
    then [PositionPerspective(cfg.cameraId, cfg.position.name)]
    else []
  }

  /** The inner loop over the project's cameras; every camera with the
      configuration's id adds its own flaw. */
  function PerspectiveFlaws(cams: seq<Camera>, cfg: CameraConfig): seq<Flaw> {
    if |cams| == 0 then [] else PerspectiveFlaw(cams[0], cfg) + PerspectiveFlaws(cams[1..], cfg)
  }

  /** The checks on one camera configuration, in order. */
  function ConfigFlaws(cams: seq<Camera>, cfg: CameraConfig): seq<Flaw> {
    (if cfg.position.name == [] then [PositionNameMissing(cfg.cameraId)] else [])
    + PerspectiveFlaws(cams, cfg)
    + (if cfg.enableMasking && cfg.maskingConfig.None? then [MaskingWithoutConfig(cfg.cameraId, cfg.position.name)] else [])
    + (if cfg.maskingConfig.Some? && |cfg.maskingConfig.value.edges| < 3 then [TooFewEdges(cfg.cameraId, cfg.position.name)] else [])
  }

  /** The loop over one area's configurations. */
  function ConfigsFlaws(cams: seq<Camera>, cfgs: seq<CameraConfig>): seq<Flaw> {
    if |cfgs| == 0 then [] else ConfigFlaws(cams, cfgs[0]) + ConfigsFlaws(cams, cfgs[1..])
  }

  /** The loop over the areas. */
  function AreasFlaws(cams: seq<Camera>, areas: seq<Area>): seq<Flaw> {
    if |areas| == 0 then [] else ConfigsFlaws(cams, areas[0].cameraConfigs) + AreasFlaws(cams, areas[1..])
  }

  /** The flaws of one project, in discovery order: its own fields, then each
      camera, then each configuration of each area. */
  function ProjectFlaws(p: Project): seq<Flaw> {
    (if p.id == [] then [MissingId] else []) + (if p.name == [] then [MissingName] else [])
    + (if p.cameras == [] then [NoCameras] else [])
    + CamerasFlaws(p.cameras) + AreasFlaws(p.cameras, p.areas)
  }

  lemma {:induction false} CamerasMember(cams: seq<Camera>, f: Flaw)
    ensures f in CamerasFlaws(cams) <==> exists i :: 0 <= i < |cams| && f in CameraFlaws(cams[i])
  {
    if |cams| > 0 {
      CamerasMember(cams[1..], f);
      assert forall i :: 1 <= i < |cams| ==> cams[i] == cams[1..][i - 1];
      if f in CamerasFlaws(cams[1..]) {
        var i :| 0 <= i < |cams[1..]| && f in CameraFlaws(cams[1..][i]);
        assert f in CameraFlaws(cams[i + 1]);
      }
    }
  }

  lemma {:induction false} PerspectivesMember(cams: seq<Camera>, cfg: CameraConfig, f: Flaw)
    ensures f in PerspectiveFlaws(cams, cfg) <==> exists i :: 0 <= i < |cams| && f in PerspectiveFlaw(cams[i], cfg)
  {
    if |cams| > 0 {
      PerspectivesMember(cams[1..], cfg, f);
      assert forall i :: 1 <= i < |cams| ==> cams[i] == cams[1..][i - 1];
      if f in PerspectiveFlaws(cams[1..], cfg) {
        var i :| 0 <= i < |cams[1..]| && f in PerspectiveFlaw(cams[1..][i], cfg);
        assert f in PerspectiveFlaw(cams[i + 1], cfg);
      }
    }
  }

  lemma {:induction false} ConfigsMember(cams: seq<Camera>, cfgs: seq<CameraConfig>, f: Flaw)
    ensures f in ConfigsFlaws(cams, cfgs) <==> exists k :: 0 <= k < |cfgs| && f in ConfigFlaws(cams, cfgs[k])
  {
    if |cfgs| > 0 {
      ConfigsMember(cams, cfgs[1..], f);
      assert forall k :: 1 <= k < |cfgs| ==> cfgs[k] == cfgs[1..][k - 1];
      if f in ConfigsFlaws(cams, cfgs[1..]) {
        var k :| 0 <= k < |cfgs[1..]| && f in ConfigFlaws(cams, cfgs[1..][k]);
        assert f in ConfigFlaws(cams, cfgs[k + 1]);
      }
    }
  }

  /** Some configuration of some area yields `f`. */
  ghost predicate FromSomeConfig(p: Project, f: Flaw) {
    exists a, k :: 0 <= a < |p.areas| && 0 <= k < |p.areas[a].cameraConfigs| && f in ConfigFlaws(p.cameras, p.areas[a].cameraConfigs[k])
  }

  /** Some configuration of the area yields `f`. */
  ghost predicate FromArea(cams: seq<Camera>, area: Area, f: Flaw) {
    exists k :: 0 <= k < |area.cameraConfigs| && f in ConfigFlaws(cams, area.cameraConfigs[k])
  }

  lemma {:induction false} AreasMemberBy(cams: seq<Camera>, areas: seq<Area>, f: Flaw)
    ensures f in AreasFlaws(cams, areas) <==> exists a :: 0 <= a < |areas| && FromArea(cams, areas[a], f)
  {
    if |areas| > 0 {
      AreasMemberBy(cams, areas[1..], f);
      ConfigsMember(cams, areas[0].cameraConfigs, f);
      assert forall a :: 1 <= a < |areas| ==> areas[a] == areas[1..][a - 1];
    }
  }

  lemma AreasMember(cams: seq<Camera>, areas: seq<Area>, f: Flaw)
    ensures f in AreasFlaws(cams, areas) <==> FromSomeConfig(Project("", "", cams, areas), f)
  {
    AreasMemberBy(cams, areas, f);
    if FromSomeConfig(Project("", "", cams, areas), f) {
      var a, k :| 0 <= a < |areas| && 0 <= k < |areas[a].cameraConfigs| && f in ConfigFlaws(cams, areas[a].cameraConfigs[k]);
      assert FromArea(cams, areas[a], f);
    }
    if exists a :: 0 <= a < |areas| && FromArea(cams, areas[a], f) {
      var a :| 0 <= a < |areas| && FromArea(cams, areas[a], f);
      var k :| 0 <= k < |areas[a].cameraConfigs| && f in ConfigFlaws(cams, areas[a].cameraConfigs[k]);
    }
  }

  /** Where a flaw of a project comes from. */
  lemma ProjectMember(p: Project, f: Flaw)
    ensures f in ProjectFlaws(p) <==>
      (f == MissingId && p.id == []) || (f == MissingName && p.name == []) || (f == NoCameras && p.cameras == [])
      || f in CamerasFlaws(p.cameras) || f in AreasFlaws(p.cameras, p.areas)
  {
  }

  /** The camera loop yields only camera flaws. */
  lemma CamerasKind(cams: seq<Camera>, f: Flaw)
    requires f in CamerasFlaws(cams)
    ensures f.IncompletePerspective?
  {
    CamerasMember(cams, f);
  }

  /** A configuration yields only configuration flaws. */
  lemma ConfigFlawsKind(cams: seq<Camera>, cfg: CameraConfig, f: Flaw)
    requires f in ConfigFlaws(cams, cfg)
    ensures ConfigKind(f)
  {
    PerspectivesMember(cams, cfg, f);
  }

  /** The area loop yields only configuration flaws. */
  lemma AreasKind(cams: seq<Camera>, areas: seq<Area>, f: Flaw)
    requires f in AreasFlaws(cams, areas)
    ensures ConfigKind(f)
  {
    AreasMember(cams, areas, f);
    var a, k :| 0 <= a < |areas| && 0 <= k < |areas[a].cameraConfigs| && f in ConfigFlaws(cams, areas[a].cameraConfigs[k]);
    ConfigFlawsKind(cams, areas[a].cameraConfigs[k], f);
  }

  /** A flaw about the project itself is reported iff its field is empty. */
  lemma HeaderFlaw(p: Project, f: Flaw)
    requires f.MissingId? || f.MissingName? || f.NoCameras?
    ensures f in ProjectFlaws(p) <==> (f == MissingId && p.id == []) || (f == MissingName && p.name == []) || (f == NoCameras && p.cameras == [])
  {
    ProjectMember(p, f);
    if f in CamerasFlaws(p.cameras) {
      CamerasKind(p.cameras, f);
    }
    if f in AreasFlaws(p.cameras, p.areas) {
      AreasKind(p.cameras, p.areas, f);
    }
  }

  /** The project's own fields and its camera list. */
  lemma HeaderFlaws(p: Project)
    ensures MissingId in ProjectFlaws(p) <==> p.id == []
    ensures MissingName in ProjectFlaws(p) <==> p.name == []
    ensures NoCameras in ProjectFlaws(p) <==> p.cameras == []
  {
    HeaderFlaw(p, MissingId);
    HeaderFlaw(p, MissingName);
    HeaderFlaw(p, NoCameras);
  }

  /** A camera is flagged iff it has exactly one of `sensor_size` and
      `coordinates_3d`. */
  lemma IncompletePerspectiveMeaning(p: Project, id: string)
    ensures IncompletePerspective(id) in ProjectFlaws(p) <==>
      exists i :: 0 <= i < |p.cameras| && p.cameras[i].id == id && p.cameras[i].sensorSize.Some? != p.cameras[i].coordinates3d.Some?
  {
    var f := IncompletePerspective(id);
    ProjectMember(p, f);
    CamerasMember(p.cameras, f);
    if f in AreasFlaws(p.cameras, p.areas) {
      AreasKind(p.cameras, p.areas, f);
    }
  }

  /** A flaw about a configuration is reported iff some configuration of
      some area yields it. */
  lemma ConfigFlawIn(p: Project, f: Flaw)
    requires ConfigKind(f)
    ensures f in ProjectFlaws(p) <==> FromSomeConfig(p, f)
  {
    ProjectMember(p, f);
    if f in CamerasFlaws(p.cameras) {
      CamerasKind(p.cameras, f);
    }
    AreasMember(p.cameras, p.areas, f);
    assert FromSomeConfig(p, f) <==> FromSomeConfig(Project("", "", p.cameras, p.areas), f);
  }

  /** Configuration `cfg` of the position is flagged for an incomplete
      perspective setup: a camera with its id, or the position itself,
      carries a perspective field while the position lacks its ground centre
      or a non-zero focal length. */
  ghost predicate BadPerspective(cams: seq<Camera>, cfg: CameraConfig, id: string, pos: string) {
    cfg.cameraId == id && cfg.position.name == pos && !PositionComplete(cfg.position)
    && exists i :: 0 <= i < |cams| && cams[i].id == id && (CameraHasPerspective(cams[i]) || PositionHasPerspective(cfg.position))
  }

  lemma ConfigPerspective(cams: seq<Camera>, cfg: CameraConfig, id: string, pos: string)
    ensures PositionPerspective(id, pos) in ConfigFlaws(cams, cfg) <==> BadPerspective(cams, cfg, id, pos)
  {
    PerspectivesMember(cams, cfg, PositionPerspective(id, pos));
  }

  /** A position is flagged for its perspective setup iff one of its
      configurations is; the flaw repeats for every camera with the id. */
  lemma PerspectiveFlawMeaning(p: Project, id: string, pos: string)
    ensures PositionPerspective(id, pos) in ProjectFlaws(p) <==>
      exists a, k :: 0 <= a < |p.areas| && 0 <= k < |p.areas[a].cameraConfigs| && BadPerspective(p.cameras, p.areas[a].cameraConfigs[k], id, pos)
  {
    ConfigFlawIn(p, PositionPerspective(id, pos));
    forall a, k | 0 <= a < |p.areas| && 0 <= k < |p.areas[a].cameraConfigs|
      ensures PositionPerspective(id, pos) in ConfigFlaws(p.cameras, p.areas[a].cameraConfigs[k]) <==> BadPerspective(p.cameras, p.areas[a].cameraConfigs[k], id, pos)
    {
      ConfigPerspective(p.cameras, p.areas[a].cameraConfigs[k], id, pos);
    }
  }

  lemma ConfigOwnFlaws(cams: seq<Camera>, cfg: CameraConfig, id: string, pos: string)
    ensures PositionNameMissing(id) in ConfigFlaws(cams, cfg) <==> cfg.cameraId == id && cfg.position.name == []
    ensures MaskingWithoutConfig(id, pos) in ConfigFlaws(cams, cfg) <==>
      cfg.cameraId == id && cfg.position.name == pos && cfg.enableMasking && cfg.maskingConfig.None?
    ensures TooFewEdges(id, pos) in ConfigFlaws(cams, cfg) <==>
      cfg.cameraId == id && cfg.position.name == pos && cfg.maskingConfig.Some? && |cfg.maskingConfig.value.edges| < 3
  {
    PerspectivesMember(cams, cfg, PositionNameMissing(id));
    PerspectivesMember(cams, cfg, MaskingWithoutConfig(id, pos));
    PerspectivesMember(cams, cfg, TooFewEdges(id, pos));
  }

  /** A configuration without a position name, masking enabled without a
      masking configuration, and a masking configuration with fewer than
      three vertices are each flagged per configuration. */
  lemma ConfigFlawMeaning(p: Project, id: string, pos: string)
    ensures PositionNameMissing(id) in ProjectFlaws(p) <==>
      exists a, k :: 0 <= a < |p.areas| && 0 <= k < |p.areas[a].cameraConfigs|
        && p.areas[a].cameraConfigs[k].cameraId == id && p.areas[a].cameraConfigs[k].position.name == []
    ensures MaskingWithoutConfig(id, pos) in ProjectFlaws(p) <==>
      exists a, k :: 0 <= a < |p.areas| && 0 <= k < |p.areas[a].cameraConfigs|
        && p.areas[a].cameraConfigs[k].cameraId == id && p.areas[a].cameraConfigs[k].position.name == pos
        && p.areas[a].cameraConfigs[k].enableMasking && p.areas[a].cameraConfigs[k].maskingConfig.None?
    ensures TooFewEdges(id, pos) in ProjectFlaws(p) <==>
      exists a, k :: 0 <= a < |p.areas| && 0 <= k < |p.areas[a].cameraConfigs|
        && p.areas[a].cameraConfigs[k].cameraId == id && p.areas[a].cameraConfigs[k].position.name == pos
        && p.areas[a].cameraConfigs[k].maskingConfig.Some? && |p.areas[a].cameraConfigs[k].maskingConfig.value.edges| < 3
  {
    ConfigFlawIn(p, PositionNameMissing(id));
    ConfigFlawIn(p, MaskingWithoutConfig(id, pos));
    ConfigFlawIn(p, TooFewEdges(id, pos));
    forall a, k | 0 <= a < |p.areas| && 0 <= k < |p.areas[a].cameraConfigs|
      ensures PositionNameMissing(id) in ConfigFlaws(p.cameras, p.areas[a].cameraConfigs[k]) <==>
        p.areas[a].cameraConfigs[k].cameraId == id && p.areas[a].cameraConfigs[k].position.name == []
      ensures MaskingWithoutConfig(id, pos) in ConfigFlaws(p.cameras, p.areas[a].cameraConfigs[k]) <==>
        p.areas[a].cameraConfigs[k].cameraId == id && p.areas[a].cameraConfigs[k].position.name == pos
        && p.areas[a].cameraConfigs[k].enableMasking && p.areas[a].cameraConfigs[k].maskingConfig.None?
      ensures TooFewEdges(id, pos) in ConfigFlaws(p.cameras, p.areas[a].cameraConfigs[k]) <==>
        p.areas[a].cameraConfigs[k].cameraId == id && p.areas[a].cameraConfigs[k].position.name == pos
        && p.areas[a].cameraConfigs[k].maskingConfig.Some? && |p.areas[a].cameraConfigs[k].maskingConfig.value.edges| < 3
    {
      ConfigOwnFlaws(p.cameras, p.areas[a].cameraConfigs[k], id, pos);
    }
  }

  /** The projects with at least one flaw, each with its flaw list, in order. */
  function Flagged(ps: seq<Project>): (items: seq<(string, seq<Flaw>)>)
    ensures forall it :: it in items <==> exists i :: 0 <= i < |ps| && ProjectFlaws(ps[i]) != [] && it == (ps[i].id, ProjectFlaws(ps[i]))
  {
    if |ps| == 0 then []
    else
      var rest := Flagged(ps[1..]);
      assert forall i :: 1 <= i < |ps| ==> ps[i] == ps[1..][i - 1];
      assert forall it :: it in rest <==> exists i :: 1 <= i < |ps| && ProjectFlaws(ps[i]) != [] && it == (ps[i].id, ProjectFlaws(ps[i])) by {
        forall it | it in rest
          ensures exists i :: 1 <= i < |ps| && ProjectFlaws(ps[i]) != [] && it == (ps[i].id, ProjectFlaws(ps[i]))
        {
          var i :| 0 <= i < |ps[1..]| && ProjectFlaws(ps[1..][i]) != [] && it == (ps[1..][i].id, ProjectFlaws(ps[1..][i]));
          assert ps[i + 1] == ps[1..][i];
        }
      }
      (if ProjectFlaws(ps[0]) != [] then [(ps[0].id, ProjectFlaws(ps[0]))] else []) + rest
  }

  /** A flawed project's entry is among the flagged ones. */
  lemma {:induction false} FlaggedHas(ps: seq<Project>, i: nat)
    requires i < |ps| && ProjectFlaws(ps[i]) != []
    ensures (ps[i].id, ProjectFlaws(ps[i])) in Flagged(ps)
    decreases |ps|
  {
    if i > 0 {
      assert ps[1..][i - 1] == ps[i];
      FlaggedHas(ps[1..], i - 1);
    }
  }

  /** The two shapes of the answer: the error of a failed load, or the flaw
      lists by project id. */
  datatype Report = LoadFailed(message: string) | Flaws(flaws: Dict<string, seq<Flaw>>)

  /** An id has an entry among the flagged projects iff a project with that
      id has a flaw. */
  lemma FlaggedKey(ps: seq<Project>, id: string)
    ensures id in KeySet(Flagged(ps)) <==> exists i :: 0 <= i < |ps| && ps[i].id == id && ProjectFlaws(ps[i]) != []
  {
    var items := Flagged(ps);
    if id in KeySet(items) {
      var j :| 0 <= j < |items| && items[j].0 == id;
      assert items[j] in items;
    }
    if exists i :: 0 <= i < |ps| && ps[i].id == id && ProjectFlaws(ps[i]) != [] {
      var i :| 0 <= i < |ps| && ps[i].id == id && ProjectFlaws(ps[i]) != [];
      FlaggedHas(ps, i);
      var j :| 0 <= j < |items| && items[j] == (ps[i].id, ProjectFlaws(ps[i]));
      assert items[j].0 == id;
    }
  }

  /** The report's keys are the ids of the flawed projects. */
  lemma ReportKeys(ps: seq<Project>)
    ensures forall id :: id in KeySet(Union([], Flagged(ps))) <==>
      exists i :: 0 <= i < |ps| && ps[i].id == id && ProjectFlaws(ps[i]) != []
  {
    assert KeySet(Union([], Flagged(ps))) == KeySet(Flagged(ps));
    forall id
      ensures id in KeySet(Flagged(ps)) <==> exists i :: 0 <= i < |ps| && ps[i].id == id && ProjectFlaws(ps[i]) != []
    {
      FlaggedKey(ps, id);
    }
  }

  /** Each key holds the flaw list of a project with that id: the last one
      in load order when ids repeat, since a later assignment overwrites. */
  lemma ReportValues(ps: seq<Project>, id: string)
    requires id in KeySet(Union([], Flagged(ps)))
    ensures exists i :: (0 <= i < |ps| && ps[i].id == id && ProjectFlaws(ps[i]) != []
                         && Get(Union([], Flagged(ps)), id) == Some(ProjectFlaws(ps[i]))
                         && forall i' :: i < i' < |ps| && ps[i'].id == id ==> ProjectFlaws(ps[i']) == [])
  {
    var items := Flagged(ps);
    assert KeySet(Union([], items)) == KeySet(items);
    FlaggedKey(ps, id);
    var i := LastFlawed(ps, id);
    var before, after := FlaggedAround(ps, i);
    NoLaterKey(ps, i, id);
    GetUnionLast([], items, id);
    LastValueAt(before, (id, ProjectFlaws(ps[i])), after);
  }

  /** The flagged items around a flawed project: those before it, its own,
      and those after it. */
  lemma FlaggedAround(ps: seq<Project>, i: nat) returns (before: seq<(string, seq<Flaw>)>, after: seq<(string, seq<Flaw>)>)
    requires i < |ps| && ProjectFlaws(ps[i]) != []
    ensures Flagged(ps) == before + [(ps[i].id, ProjectFlaws(ps[i]))] + after
    ensures after == Flagged(ps[i + 1..])
  {
    FlaggedSplit(ps, i);
    FlaggedSplit(ps[i..], 1);
    assert ps[i..][..1] == [ps[i]] && ps[i..][1..] == ps[i + 1..];
    before, after := Flagged(ps[..i]), Flagged(ps[i + 1..]);
  }

  /** No flawed project after the last one with an id carries that id. */
  lemma NoLaterKey(ps: seq<Project>, i: nat, id: string)
    requires i < |ps|
    requires forall i' :: i < i' < |ps| && ps[i'].id == id ==> ProjectFlaws(ps[i']) == []
    ensures id !in KeySet(Flagged(ps[i + 1..]))
  {
    FlaggedKey(ps[i + 1..], id);
  }

  /** The last flawed project with the given id. */
  lemma LastFlawed(ps: seq<Project>, id: string) returns (i: nat)
    requires exists i :: 0 <= i < |ps| && ps[i].id == id && ProjectFlaws(ps[i]) != []
    ensures i < |ps| && ps[i].id == id && ProjectFlaws(ps[i]) != []
    ensures forall i' :: i < i' < |ps| && ps[i'].id == id ==> ProjectFlaws(ps[i']) == []
  {
    var k :| 0 <= k < |ps| && ps[k].id == id && ProjectFlaws(ps[k]) != [];
    i := |ps| - 1;
    while !(ps[i].id == id && ProjectFlaws(ps[i]) != [])
      invariant k <= i < |ps|
      invariant forall i' :: i < i' < |ps| && ps[i'].id == id ==> ProjectFlaws(ps[i']) == []
      decreases i
    {
      i := i - 1;
    }
  }

  /** The flagged items of a list are those of its two parts, in order. */
  lemma {:induction false} FlaggedSplit(ps: seq<Project>, i: nat)
    requires i <= |ps|
    ensures Flagged(ps) == Flagged(ps[..i]) + Flagged(ps[i..])
    decreases i
  {
    if i > 0 {
      FlaggedSplit(ps[1..], i - 1);
      assert ps[1..][..i - 1] == ps[..i][1..];
      assert ps[1..][i - 1..] == ps[i..];
    } else {
      assert ps[..0] == [] && ps[0..] == ps;
    }
  }

  /** `check_projects`, given the outcome of loading every project. */
  function CheckProjects(loaded: Result<seq<Project>, string>): (r: Report)
    ensures loaded.Err? <==> r.LoadFailed?
    ensures loaded.Ok? ==> forall id :: id in KeySet(r.flaws) <==>
      exists i :: 0 <= i < |loaded.value| && loaded.value[i].id == id && ProjectFlaws(loaded.value[i]) != []
    ensures loaded.Ok? ==> forall id :: id in KeySet(r.flaws) ==>
      exists i :: 0 <= i < |loaded.value| && loaded.value[i].id == id && Get(r.flaws, id) == Some(ProjectFlaws(loaded.value[i]))
  {
    match loaded
    case Err(m) => LoadFailed(m)
    case Ok(ps) =>
      ReportKeys(ps);
      forall id | id in KeySet(Union([], Flagged(ps)))
        ensures exists i :: 0 <= i < |ps| && ps[i].id == id && Get(Union([], Flagged(ps)), id) == Some(ProjectFlaws(ps[i]))
      {
        ReportValues(ps, id);
      }
      Flaws(Union([], Flagged(ps)))
  }
}
