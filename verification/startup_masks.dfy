/** `create_masks`: the counting masks of every camera position, built at
    startup from the camera metadata. A vertex is only downscaled to the
    density map and rounded; unlike the per-camera masks there is no aspect
    scaling and no offset. */
module StartupMasks {
  import opened Results
  import opened PyNum
  import opened PyDict
  import opened Masks
  import opened StartupMetadata

  /** `(round(0.125 * x), round(0.125 * y))`: the nearest density pixel, a
      tie going to the even one. */
  function ScaleEdge(e: (real, real)): (v: Vertex)
    ensures -4.0 <= e.0 - 8.0 * v.0 as real <= 4.0 && -4.0 <= e.1 - 8.0 * v.1 as real <= 4.0
    ensures e.0 - 8.0 * v.0 as real == 4.0 || e.0 - 8.0 * v.0 as real == -4.0 ==> v.0 % 2 == 0
    ensures e.1 - 8.0 * v.1 as real == 4.0 || e.1 - 8.0 * v.1 as real == -4.0 ==> v.1 % 2 == 0
  {
    (Round(0.125 * e.0), Round(0.125 * e.1))
  }

  /** The two bounds of `ScaleEdge` single out its result. */
  lemma ScaleEdgeUnique(e: (real, real), v: Vertex)
    requires -4.0 <= e.0 - 8.0 * v.0 as real <= 4.0 && -4.0 <= e.1 - 8.0 * v.1 as real <= 4.0
    requires e.0 - 8.0 * v.0 as real == 4.0 || e.0 - 8.0 * v.0 as real == -4.0 ==> v.0 % 2 == 0
    requires e.1 - 8.0 * v.1 as real == 4.0 || e.1 - 8.0 * v.1 as real == -4.0 ==> v.1 % 2 == 0
    ensures ScaleEdge(e) == v
  {
    RoundIsUnique(0.125 * e.0, v.0);
    RoundIsUnique(0.125 * e.1, v.1);
  }

  /** Pixel 20 lies halfway between density pixels 2 and 3 and goes to 2;
      pixel 28 lies halfway between 3 and 4 and goes to 4. */
  lemma HalfwayEdges()
    ensures ScaleEdge((20.0, 28.0)) == (2, 4)
  {
    ScaleEdgeUnique((20.0, 28.0), (2, 4));
  }

  /** The mask of one area: its edges scaled and handed to `Polygon`, which
      raises on a shell of one or two vertices, or of three whose scaled
      first and last vertex coincide. */
  function AreaMask(name: string, meta: AreaMeta): (r: Result<Mask, ShapeError>)
    ensures r.Err? <==> (0 < |meta.edges| && (|meta.edges| < 3
                         || (|meta.edges| == 3 && ScaleEdge(meta.edges[0]) == ScaleEdge(meta.edges[2]))))
    ensures r.Ok? ==> r.value.name == name && r.value.interpolate == meta.interpolate
    ensures r.Ok? ==> (|r.value.polygon| == |meta.edges|
                       && forall k :: 0 <= k < |meta.edges| ==> r.value.polygon[k] == ScaleEdge(meta.edges[k]))
  {
    var shell := seq(|meta.edges|, k requires 0 <= k < |meta.edges| => ScaleEdge(meta.edges[k]));
    match MakePolygon(shell)
    case Err(e) => Err(e)
    case Ok(p) => Ok(Mask(name, p, meta.interpolate))
  }

  /** Every area of a position makes a polygon. */
  predicate AreasBuild(areas: Dict<string, AreaMeta>) {
    forall i :: 0 <= i < |areas| ==> AreaMask(areas[i].0, areas[i].1).Ok?
  }

  /** One mask per area, in the order of the area metadata; the list
      comprehension stops at the first area that raises. */
  function PositionMasks(areas: Dict<string, AreaMeta>): (r: Result<seq<Mask>, ShapeError>)
    ensures r.Ok? <==> AreasBuild(areas)
    ensures r.Ok? ==> (|r.value| == |areas|
                       && forall i :: 0 <= i < |areas| ==> r.value[i] == AreaMask(areas[i].0, areas[i].1).value)
  {
    var built := seq(|areas|, i requires 0 <= i < |areas| => AreaMask(areas[i].0, areas[i].1));
    assert forall i :: 0 <= i < |areas| ==> built[i] == AreaMask(areas[i].0, areas[i].1);
    AllOk(built)
  }

  /** No camera is skipped. */
  function VisitAll(): Guard<ShapeError> {
    (cam: CameraMeta) => Ok(true)
  }

  /** Every position stores its masks, or raises. */
  function MaskStep(): Step<seq<Mask>, ShapeError> {
    (id: string, cam: CameraMeta, name: string, pos: PositionMeta) =>
      match PositionMasks(pos.areas)
      case Err(e) => Err(e)
      case Ok(ms) => Ok(Some(ms))
  }

  /** A position has the key. */
  predicate HasKey(cams: Cameras, i: int, j: int, key: string) {
    0 <= i < |cams| && 0 <= j < |cams[i].1.positions| && key == Key(cams[i].0, cams[i].1.positions[j].0)
  }

  /** Every position of every camera builds its masks. */
  predicate AllBuild(cams: Cameras) {
    forall i, j :: 0 <= i < |cams| && 0 <= j < |cams[i].1.positions| ==> AreasBuild(cams[i].1.positions[j].1.areas)
  }

  /** `create_masks`: raises iff some area of some position makes no
      polygon; otherwise one entry per camera position. */
  function CreateMasks(cams: Cameras): (r: Result<Dict<string, seq<Mask>>, ShapeError>)
    ensures r.Ok? <==> AllBuild(cams)
    ensures r.Ok? ==> forall key :: key in KeySet(r.value) <==> exists i, j :: HasKey(cams, i, j, key)
  {
    ItemsOk(cams, VisitAll(), MaskStep());
    assert AllBuild(cams) <==> forall i :: 0 <= i < |cams| ==> CameraOk(cams[i].0, cams[i].1, VisitAll(), MaskStep());
    var r := Collect(cams, VisitAll(), MaskStep());
    if r.Err? then r
    else
      assert forall key :: key in KeySet(r.value) <==> exists i, j :: HasKey(cams, i, j, key) by {
        forall key
          ensures key in KeySet(r.value) <==> exists i, j :: HasKey(cams, i, j, key)
        {
          CollectKeys(cams, VisitAll(), MaskStep(), key);
          if key in KeySet(r.value) {
            var i, j :| 0 <= i < |cams| && StoresSome(cams[i].0, cams[i].1, VisitAll(), MaskStep(), j, key);
            assert HasKey(cams, i, j, key);
          }
          if exists i, j :: HasKey(cams, i, j, key) {
            var i, j :| HasKey(cams, i, j, key);
            assert StoresSome(cams[i].0, cams[i].1, VisitAll(), MaskStep(), j, key);
          }
        }
      }
      r
  }

  /** The masks under a key are those of a position with that key (the last
      one in loop order when several positions share it). */
  lemma CreateMasksGet(cams: Cameras, key: string)
    requires CreateMasks(cams).Ok? && key in KeySet(CreateMasks(cams).value)
    ensures exists i, j :: (HasKey(cams, i, j, key) && PositionMasks(cams[i].1.positions[j].1.areas).Ok?
                            && Get(CreateMasks(cams).value, key) == Some(PositionMasks(cams[i].1.positions[j].1.areas).value))
  {
    CollectValue(cams, VisitAll(), MaskStep(), key);
  }

  /** An area of two edges makes `create_masks` raise. */
  lemma TwoEdgesRaise(cams: Cameras, i: nat, j: nat, k: nat)
    requires i < |cams| && j < |cams[i].1.positions| && k < |cams[i].1.positions[j].1.areas|
    requires |cams[i].1.positions[j].1.areas[k].1.edges| == 2
    ensures CreateMasks(cams).Err?
  {
    var areas := cams[i].1.positions[j].1.areas;
    assert AreaMask(areas[k].0, areas[k].1).Err?;
  }
}
