/** The camera metadata the startup functions read, and the loop they share:
    for every camera, in order, and every one of its positions, in order,
    compute something and store it under the key `"{camera}_{position}"`.
    A camera may be skipped or make the whole loop raise before its
    positions are visited; a position may store nothing or raise. */
module StartupMetadata {
  import opened Results
  import opened PyDict

  /** One counting area of a position: its polygon in camera pixels. */
  datatype AreaMeta = AreaMeta(interpolate: bool, edges: seq<(real, real)>)

  datatype InterpolationSettings = InterpolationSettings(radius: int, p: real, threshold: real)

  datatype PositionMeta = PositionMeta(
    focalLength: real,
    centerGroundPlane: (real, real),
    interpolation: Option<InterpolationSettings>,
    areas: Dict<string, AreaMeta>)

  /** A camera entry; `sensorSize` is `None` when the key is absent. */
  datatype CameraMeta = CameraMeta(
    sensorSize: Option<(real, real)>,
    coordinates3d: seq<real>,
    positions: Dict<string, PositionMeta>)

  type Cameras = Dict<string, CameraMeta>

  /** `f"{camera}_{position}"`. */
  function Key(camera: string, position: string): (k: string)
    ensures |k| == |camera| + 1 + |position|
    ensures k[..|camera|] == camera && k[|camera|] == '_' && k[|camera| + 1..] == position
  {
    camera + "_" + position
  }

  /** Two different camera/position pairs can share a key, and the later one
      then overwrites the earlier one's entry. */
  lemma KeysCollide()
    ensures Key("a_b", "c") == Key("a", "b_c")
  {
    assert Key("a_b", "c") == "a_b_c";
    assert Key("a", "b_c") == "a_b_c";
  }

  /** What the loop does with a camera: raise, skip it (`false`) or visit its
      positions (`true`). */
  type Guard<E> = CameraMeta -> Result<bool, E>

  /** What the loop does at a position: raise, store nothing, or store a value. */
  type Step<V, E> = (string, CameraMeta, string, PositionMeta) -> Result<Option<V>, E>

  /** The assignments the positions of one camera make, in order, up to the
      first that raises. */
  function PositionItems<V, E>(id: string, cam: CameraMeta, ps: Dict<string, PositionMeta>, step: Step<V, E>): Result<seq<(string, V)>, E>
    decreases |ps|
  {
    if |ps| == 0 then Ok([])
    else
      match step(id, cam, ps[0].0, ps[0].1)
      case Err(e) => Err(e)
      case Ok(o) =>
        match PositionItems(id, cam, ps[1..], step)
        case Err(e) => Err(e)
        case Ok(rest) => Ok((if o.Some? then [(Key(id, ps[0].0), o.value)] else []) + rest)
  }

  /** The assignments of one camera. */
  function CameraEntryItems<V, E>(id: string, cam: CameraMeta, guard: Guard<E>, step: Step<V, E>): Result<seq<(string, V)>, E> {
    match guard(cam)
    case Err(e) => Err(e)
    case Ok(visit) => if visit then PositionItems(id, cam, cam.positions, step) else Ok([])
  }

  /** The assignments of all cameras, in loop order. */
  function Items<V, E>(cams: Cameras, guard: Guard<E>, step: Step<V, E>): Result<seq<(string, V)>, E>
    decreases |cams|
  {
    if |cams| == 0 then Ok([])
    else
      match CameraEntryItems(cams[0].0, cams[0].1, guard, step)
      case Err(e) => Err(e)
      case Ok(head) =>
        match Items(cams[1..], guard, step)
        case Err(e) => Err(e)
        case Ok(rest) => Ok(head + rest)
  }

  /** The dictionary the loop builds: every assignment applied in order to an
      empty one. */
  function Collect<V, E>(cams: Cameras, guard: Guard<E>, step: Step<V, E>): (r: Result<Dict<string, V>, E>)
    ensures r.Ok? <==> Items(cams, guard, step).Ok?
    ensures r.Ok? ==> KeySet(r.value) == KeySet(Items(cams, guard, step).value)
    ensures r.Err? ==> r.error == Items(cams, guard, step).error
  {
    match Items(cams, guard, step)
    case Err(e) => Err(e)
    case Ok(items) => Ok(Union([], items))
  }

  /** The camera `(id, cam)` runs without raising: its guard does not
      raise, and if it lets the camera through no position raises. */
  predicate CameraOk<V, E>(id: string, cam: CameraMeta, guard: Guard<E>, step: Step<V, E>) {
    guard(cam).Ok? && (guard(cam).value ==>
      forall j :: 0 <= j < |cam.positions| ==> step(id, cam, cam.positions[j].0, cam.positions[j].1).Ok?)
  }

  /** Position `j` of the camera `(id, cam)` is visited and stores `v` under
      `key`. */
  ghost predicate Stores<V, E>(id: string, cam: CameraMeta, guard: Guard<E>, step: Step<V, E>, j: int, key: string, v: V) {
    guard(cam) == Ok(true) && 0 <= j < |cam.positions|
    && step(id, cam, cam.positions[j].0, cam.positions[j].1) == Ok(Some(v))
    && key == Key(id, cam.positions[j].0)
  }

  lemma {:induction false} PositionItemsOk<V, E>(id: string, cam: CameraMeta, ps: Dict<string, PositionMeta>, step: Step<V, E>)
    ensures PositionItems(id, cam, ps, step).Ok? <==> forall j :: 0 <= j < |ps| ==> step(id, cam, ps[j].0, ps[j].1).Ok?
    decreases |ps|
  {
    if |ps| > 0 {
      PositionItemsOk(id, cam, ps[1..], step);
      assert forall j :: 1 <= j < |ps| ==> ps[j] == ps[1..][j - 1];
    }
  }

  lemma {:induction false} PositionItemsMember<V, E>(id: string, cam: CameraMeta, ps: Dict<string, PositionMeta>, step: Step<V, E>, key: string, v: V)
    requires PositionItems(id, cam, ps, step).Ok?
    ensures (key, v) in PositionItems(id, cam, ps, step).value <==>
      exists j :: 0 <= j < |ps| && step(id, cam, ps[j].0, ps[j].1) == Ok(Some(v)) && key == Key(id, ps[j].0)
    decreases |ps|
  {
    if |ps| > 0 {
      PositionItemsMember(id, cam, ps[1..], step, key, v);
      var rest := PositionItems(id, cam, ps[1..], step).value;
      if (key, v) in rest {
        var j :| 0 <= j < |ps[1..]| && step(id, cam, ps[1..][j].0, ps[1..][j].1) == Ok(Some(v)) && key == Key(id, ps[1..][j].0);
        assert ps[1..][j] == ps[j + 1];
      }
      if exists j :: 0 <= j < |ps| && step(id, cam, ps[j].0, ps[j].1) == Ok(Some(v)) && key == Key(id, ps[j].0) {
        var j :| 0 <= j < |ps| && step(id, cam, ps[j].0, ps[j].1) == Ok(Some(v)) && key == Key(id, ps[j].0);
        if j > 0 {
          assert ps[j] == ps[1..][j - 1];
        }
      }
    }
  }

  /** The loop runs through iff every camera does. */
  lemma {:induction false} ItemsOk<V, E>(cams: Cameras, guard: Guard<E>, step: Step<V, E>)
    ensures Items(cams, guard, step).Ok? <==> forall i :: 0 <= i < |cams| ==> CameraOk(cams[i].0, cams[i].1, guard, step)
    decreases |cams|
  {
    if |cams| > 0 {
      ItemsOk(cams[1..], guard, step);
      PositionItemsOk(cams[0].0, cams[0].1, cams[0].1.positions, step);
      assert forall i :: 1 <= i < |cams| ==> cams[i] == cams[1..][i - 1];
    }
  }

  /** An assignment of the loop is a visited position that stores a value. */
  lemma {:induction false} ItemsMember<V, E>(cams: Cameras, guard: Guard<E>, step: Step<V, E>, key: string, v: V)
    requires Items(cams, guard, step).Ok?
    ensures (key, v) in Items(cams, guard, step).value <==>
      exists i, j :: 0 <= i < |cams| && Stores(cams[i].0, cams[i].1, guard, step, j, key, v)
    decreases |cams|
  {
    if |cams| > 0 {
      ItemsMember(cams[1..], guard, step, key, v);
      var id, cam := cams[0].0, cams[0].1;
      var head := CameraEntryItems(id, cam, guard, step).value;
      if guard(cam) == Ok(true) {
        PositionItemsMember(id, cam, cam.positions, step, key, v);
      }
      if (key, v) in head {
        var j :| 0 <= j < |cam.positions| && step(id, cam, cam.positions[j].0, cam.positions[j].1) == Ok(Some(v))
          && key == Key(id, cam.positions[j].0);
        assert Stores(cams[0].0, cams[0].1, guard, step, j, key, v);
      }
      if (key, v) in Items(cams[1..], guard, step).value {
        var i, j :| 0 <= i < |cams[1..]| && Stores(cams[1..][i].0, cams[1..][i].1, guard, step, j, key, v);
        assert cams[1..][i] == cams[i + 1];
      }
      if exists i, j :: 0 <= i < |cams| && Stores(cams[i].0, cams[i].1, guard, step, j, key, v) {
        var i, j :| 0 <= i < |cams| && Stores(cams[i].0, cams[i].1, guard, step, j, key, v);
        if i > 0 {
          assert cams[i] == cams[1..][i - 1];
        } else {
          assert (key, v) in head;
        }
      }
    }
  }

  /** Position `j` of the camera `(id, cam)` is visited and stores a value
      under `key`. */
  predicate StoresSome<V, E>(id: string, cam: CameraMeta, guard: Guard<E>, step: Step<V, E>, j: int, key: string) {
    guard(cam) == Ok(true) && 0 <= j < |cam.positions|
    && step(id, cam, cam.positions[j].0, cam.positions[j].1).Ok?
    && step(id, cam, cam.positions[j].0, cam.positions[j].1).value.Some?
    && key == Key(id, cam.positions[j].0)
  }

  /** A key of the result is the key of a visited position that stores a
      value. */
  lemma CollectKeys<V, E>(cams: Cameras, guard: Guard<E>, step: Step<V, E>, key: string)
    requires Collect(cams, guard, step).Ok?
    ensures key in KeySet(Collect(cams, guard, step).value) <==>
      exists i, j :: 0 <= i < |cams| && StoresSome(cams[i].0, cams[i].1, guard, step, j, key)
  {
    if key in KeySet(Items(cams, guard, step).value) {
      KeyStored(cams, guard, step, key);
    }
    if exists i, j :: 0 <= i < |cams| && StoresSome(cams[i].0, cams[i].1, guard, step, j, key) {
      var i, j :| 0 <= i < |cams| && StoresSome(cams[i].0, cams[i].1, guard, step, j, key);
      StoredKey(cams, guard, step, i, j, key);
    }
  }

  lemma KeyStored<V, E>(cams: Cameras, guard: Guard<E>, step: Step<V, E>, key: string)
    requires Items(cams, guard, step).Ok? && key in KeySet(Items(cams, guard, step).value)
    ensures exists i, j :: 0 <= i < |cams| && StoresSome(cams[i].0, cams[i].1, guard, step, j, key)
  {
    var items := Items(cams, guard, step).value;
    var n :| 0 <= n < |items| && items[n].0 == key;
    var v := items[n].1;
    assert (key, v) in items by {
      assert items[n] == (key, v);
    }
    ItemsMember(cams, guard, step, key, v);
    var i, j :| 0 <= i < |cams| && Stores(cams[i].0, cams[i].1, guard, step, j, key, v);
    assert StoresSome(cams[i].0, cams[i].1, guard, step, j, key);
  }

  lemma StoredKey<V, E>(cams: Cameras, guard: Guard<E>, step: Step<V, E>, i: nat, j: int, key: string)
    requires Items(cams, guard, step).Ok?
    requires i < |cams| && StoresSome(cams[i].0, cams[i].1, guard, step, j, key)
    ensures key in KeySet(Items(cams, guard, step).value)
  {
    var items := Items(cams, guard, step).value;
    var v := step(cams[i].0, cams[i].1, cams[i].1.positions[j].0, cams[i].1.positions[j].1).value.value;
    assert Stores(cams[i].0, cams[i].1, guard, step, j, key, v);
    ItemsMember(cams, guard, step, key, v);
    var n :| 0 <= n < |items| && items[n] == (key, v);
    assert items[n].0 == key;
  }

  /** The value under a key is what a visited position with that key stored:
      the last such position in loop order. */
  lemma CollectValue<V, E>(cams: Cameras, guard: Guard<E>, step: Step<V, E>, key: string)
    requires Collect(cams, guard, step).Ok?
    requires key in KeySet(Collect(cams, guard, step).value)
    ensures exists i, j :: 0 <= i < |cams| && Stores(cams[i].0, cams[i].1, guard, step, j, key, Get(Collect(cams, guard, step).value, key).value)
  {
    CollectGet(cams, guard, step, key);
    var items := Items(cams, guard, step).value;
    var v := LastValue(items, key).value;
    var n :| 0 <= n < |items| && items[n].0 == key && items[n].1 == v && (forall m :: n < m < |items| ==> items[m].0 != key);
    assert items[n] == (key, v);
    ItemsMember(cams, guard, step, key, v);
  }

  /** Reading the result: a key holds what the last assignment to it stored. */
  lemma CollectGet<V, E>(cams: Cameras, guard: Guard<E>, step: Step<V, E>, key: string)
    requires Collect(cams, guard, step).Ok?
    ensures Get(Collect(cams, guard, step).value, key) == LastValue(Items(cams, guard, step).value, key)
  {
    GetUnionLast([], Items(cams, guard, step).value, key);
  }
}
