/** `create_interpolators`: an interpolator for every camera position whose
    settings carry interpolation settings; a position with invalid settings
    makes the whole call raise. */
module StartupInterpolators {
  import opened Results
  import opened PyDict
  import opened ProximityKernel
  import opened StartupMetadata
  import SelectiveIdw

  function VisitAll(): Guard<SelectiveIdw.ConfigError> {
    (cam: CameraMeta) => Ok(true)
  }

  /** The constructor call of one position, if it has settings. */
  function InterpolatorStep(weight: WeightFn): Step<SelectiveIdw.Sidw, SelectiveIdw.ConfigError> {
    (id: string, cam: CameraMeta, name: string, pos: PositionMeta) =>
      match pos.interpolation
      case None => Ok(None)
      case Some(st) =>
        match SelectiveIdw.New(st.radius, st.p, st.threshold, weight)
        case Err(e) => Err(e)
        case Ok(s) => Ok(Some(s))
  }

  /** Interpolation settings the constructor accepts. */
  predicate ValidSettings(st: InterpolationSettings) {
    st.radius >= 0 && st.p >= 1.0 && st.threshold >= 0.0
  }

  /** `create_interpolators`. */
  function CreateInterpolators(cams: Cameras, weight: WeightFn): (r: Result<Dict<string, SelectiveIdw.Sidw>, SelectiveIdw.ConfigError>) {
    Collect(cams, VisitAll(), InterpolatorStep(weight))
  }

  /** The call succeeds iff every position that has settings has valid ones. */
  lemma CreateInterpolatorsOk(cams: Cameras, weight: WeightFn)
    ensures CreateInterpolators(cams, weight).Ok? <==>
      forall i, j :: 0 <= i < |cams| && 0 <= j < |cams[i].1.positions| && cams[i].1.positions[j].1.interpolation.Some?
        ==> ValidSettings(cams[i].1.positions[j].1.interpolation.value)
  {
    ItemsOk(cams, VisitAll(), InterpolatorStep(weight));
  }

  /** A key of the result is the key of a position with settings, and it
      holds the interpolator built from the settings of such a position
      (the last one in loop order when several share the key). */
  lemma CreateInterpolatorsGet(cams: Cameras, weight: WeightFn, key: string)
    requires CreateInterpolators(cams, weight).Ok?
    requires key in KeySet(CreateInterpolators(cams, weight).value)
    ensures exists i, j :: (0 <= i < |cams| && 0 <= j < |cams[i].1.positions|
      && key == Key(cams[i].0, cams[i].1.positions[j].0)
      && cams[i].1.positions[j].1.interpolation.Some?
      && var st := cams[i].1.positions[j].1.interpolation.value;
         SelectiveIdw.New(st.radius, st.p, st.threshold, weight) == Ok(Get(CreateInterpolators(cams, weight).value, key).value))
  {
    CollectValue(cams, VisitAll(), InterpolatorStep(weight), key);
  }

  /** A position with settings always gets an entry under its key. */
  lemma SettingsGiveEntry(cams: Cameras, weight: WeightFn, i: nat, j: nat)
    requires CreateInterpolators(cams, weight).Ok?
    requires i < |cams| && j < |cams[i].1.positions| && cams[i].1.positions[j].1.interpolation.Some?
    ensures Key(cams[i].0, cams[i].1.positions[j].0) in KeySet(CreateInterpolators(cams, weight).value)
  {
    var key := Key(cams[i].0, cams[i].1.positions[j].0);
    var st := cams[i].1.positions[j].1.interpolation.value;
    CreateInterpolatorsOk(cams, weight);
    assert StoresSome(cams[i].0, cams[i].1, VisitAll(), InterpolatorStep(weight), j, key);
    CollectKeys(cams, VisitAll(), InterpolatorStep(weight), key);
  }
}
