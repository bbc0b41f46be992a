/** Time-of-day rules: when a model schedule is active, the validator that
    rejects overlapping schedules, the choice of a camera's active model,
    and the older light-show rule. An interval whose start lies after its end
    runs through midnight. */
module Schedules {
  import opened Results
  import opened ProjectConfig

  /** Reference definition: `t` lies on the arc of the day that starts at
      `start` and runs forward, through midnight if need be, to `end`. */
  predicate OnArc(start: Clock, end: Clock, t: Clock) {
    (t - start) % SecondsPerDay <= (end - start) % SecondsPerDay
  }

  /** `is_active` on converted times. */
  function ActiveAt(start: Clock, end: Clock, t: Clock): (r: bool)
    ensures r <==> OnArc(start, end, t)
  {
    if start <= end then start <= t <= end
    else start <= t || t <= end
  }

  /** `ModelSchedule.is_active`: both times are converted first, which
      raises on a field out of range. */
  function IsActive(s: ModelSchedule, t: Clock): (r: Result<bool, ValueError>)
    ensures r.Ok? <==> ValidFields(s.start) && ValidFields(s.end)
    ensures r.Ok? ==> (r.value <==> OnArc(ToTime(s.start).value, ToTime(s.end).value, t))
  {
    match ToTime(s.start)
    case Err(e) => Err(e)
    case Ok(start) =>
      match ToTime(s.end)
      case Err(e) => Err(e)
      case Ok(end) => Ok(ActiveAt(start, end, t))
  }

  /** Some instant of the day lies on both arcs. */
  ghost predicate EverTogether(s1: Clock, e1: Clock, s2: Clock, e2: Clock) {
    exists t: Clock :: OnArc(s1, e1, t) && OnArc(s2, e2, t)
  }

  /** The validator's four-way overlap test, as written. */
  predicate OverlapAsWritten(s1: Clock, e1: Clock, s2: Clock, e2: Clock) {
    if s1 <= e1 && s2 <= e2 then s1 <= e2 && s2 <= e1
    else if s1 > e1 && s2 <= e2 then s2 >= s1 || e2 <= e1
    else if s1 <= e1 && s2 > e2 then s1 >= s2 || e1 <= e2
    else true
  }

  /** The two mixed cases mirror each other, so the order of a pair does not
      matter. */
  lemma OverlapAsWrittenSymmetric(s1: Clock, e1: Clock, s2: Clock, e2: Clock)
    ensures OverlapAsWritten(s1, e1, s2, e2) <==> OverlapAsWritten(s2, e2, s1, e1)
  {
  }

  /** Every overlap the validator reports is real. */
  lemma OverlapAsWrittenIsSound(s1: Clock, e1: Clock, s2: Clock, e2: Clock)
    requires OverlapAsWritten(s1, e1, s2, e2)
    ensures EverTogether(s1, e1, s2, e2)
  {
    if s1 <= e1 && s2 <= e2 {
      var t: Clock := if s1 <= s2 then s2 else s1;
      assert OnArc(s1, e1, t) && OnArc(s2, e2, t);
    } else if s1 > e1 && s2 <= e2 {
      var t: Clock := if s2 >= s1 then s2 else s2;
      assert ActiveAt(s1, e1, t) && ActiveAt(s2, e2, t);
    } else if s1 <= e1 && s2 > e2 {
      var t: Clock := s1;
      assert ActiveAt(s1, e1, t) && ActiveAt(s2, e2, t);
    } else {
      var t: Clock := 0;
      assert ActiveAt(s1, e1, t) && ActiveAt(s2, e2, t);
    }
  }

  /** When neither interval runs through midnight the test is exact. */
  lemma OverlapAsWrittenExactWithinDay(s1: Clock, e1: Clock, s2: Clock, e2: Clock)
    requires s1 <= e1 && s2 <= e2
    ensures OverlapAsWritten(s1, e1, s2, e2) <==> EverTogether(s1, e1, s2, e2)
  {
    if EverTogether(s1, e1, s2, e2) {
      var t: Clock :| OnArc(s1, e1, t) && OnArc(s2, e2, t);
      assert ActiveAt(s1, e1, t) && ActiveAt(s2, e2, t);
    }
    if OverlapAsWritten(s1, e1, s2, e2) {
      OverlapAsWrittenIsSound(s1, e1, s2, e2);
    }
  }

  /** 22:00-02:00 and 01:00-03:00 are both active at 01:30, yet the test
      finds no overlap: the mixed case misses a second interval that starts
      before the first one ends after midnight. */
  lemma MixedCaseMissed()
    ensures !OverlapAsWritten(79200, 7200, 3600, 10800)
    ensures ActiveAt(79200, 7200, 5400) && ActiveAt(3600, 10800, 5400)
    ensures EverTogether(79200, 7200, 3600, 10800)
  {
    assert OnArc(79200, 7200, 5400) && OnArc(3600, 10800, 5400);
  }

  /** The complete test: two arcs of the day meet iff one of them contains
      the other's start. */
  predicate OverlapExact(s1: Clock, e1: Clock, s2: Clock, e2: Clock) {
    ActiveAt(s1, e1, s2) || ActiveAt(s2, e2, s1)
  }

  lemma OverlapExactIff(s1: Clock, e1: Clock, s2: Clock, e2: Clock)
    ensures OverlapExact(s1, e1, s2, e2) <==> EverTogether(s1, e1, s2, e2)
  {
    if EverTogether(s1, e1, s2, e2) {
      var t: Clock :| OnArc(s1, e1, t) && OnArc(s2, e2, t);
      assert ActiveAt(s1, e1, t) && ActiveAt(s2, e2, t);
    }
    if ActiveAt(s1, e1, s2) {
      assert OnArc(s1, e1, s2) && OnArc(s2, e2, s2);
    } else if ActiveAt(s2, e2, s1) {
      assert OnArc(s1, e1, s1) && OnArc(s2, e2, s1);
    }
  }

  /** The pairs `(i, j)` with `i < j < n`, in the validator's nested order. */
  function PairsFrom(i: nat, n: nat): (ps: seq<(nat, nat)>)
    ensures forall p :: p in ps <==> i <= p.0 < p.1 < n
    decreases n - i
  {
    if i >= n then []
    else
      var row := seq(n - i - 1, k => (i, i + 1 + k));
      assert forall p :: p in row <==> p.0 == i && i < p.1 < n by {
        forall p: (nat, nat) | p.0 == i && i < p.1 < n
          ensures p in row
        {
          assert row[p.1 - i - 1] == p;
        }
      }
      row + PairsFrom(i + 1, n)
  }

  datatype ScheduleError = InvalidTime | Overlapping(first: string, second: string)

  /** The two conversions-then-test of one pair, with the overlap rule as a
      parameter so the validator and its correction share it. */
  function PairCheck(a: ModelSchedule, b: ModelSchedule, overlap: (Clock, Clock, Clock, Clock) -> bool): (r: Result<(), ScheduleError>)
    ensures r.Ok? <==> (ValidFields(a.start) && ValidFields(a.end) && ValidFields(b.start) && ValidFields(b.end)
      && !overlap(ToTime(a.start).value, ToTime(a.end).value, ToTime(b.start).value, ToTime(b.end).value))
    ensures r.Err? && r.error.Overlapping? ==> r.error == Overlapping(a.id, b.id)
  {
    if !(ValidFields(a.start) && ValidFields(a.end) && ValidFields(b.start) && ValidFields(b.end)) then Err(InvalidTime)
    else if overlap(ToTime(a.start).value, ToTime(a.end).value, ToTime(b.start).value, ToTime(b.end).value) then
      Err(Overlapping(a.id, b.id))
    else Ok(())
  }

  /** Every pair is accepted by `PairCheck`. */
  ghost predicate NoClash(ss: seq<ModelSchedule>, overlap: (Clock, Clock, Clock, Clock) -> bool) {
    forall i, j :: 0 <= i < j < |ss| ==> PairCheck(ss[i], ss[j], overlap).Ok?
  }

  /** The pair checks in loop order. */
  function Checks(ss: seq<ModelSchedule>, overlap: (Clock, Clock, Clock, Clock) -> bool): (cs: seq<Result<(), ScheduleError>>)
    ensures |cs| == |PairsFrom(0, |ss|)|
    ensures forall k :: 0 <= k < |cs| ==> (PairsFrom(0, |ss|)[k].1 < |ss|
      && cs[k] == PairCheck(ss[PairsFrom(0, |ss|)[k].0], ss[PairsFrom(0, |ss|)[k].1], overlap))
  {
    var ps := PairsFrom(0, |ss|);
    seq(|ps|, k requires 0 <= k < |ps| => PairCheck(ss[ps[k].0], ss[ps[k].1], overlap))
  }

  /** Every check passes iff every pair passes. */
  lemma ChecksPass(ss: seq<ModelSchedule>, overlap: (Clock, Clock, Clock, Clock) -> bool)
    ensures (forall k :: 0 <= k < |Checks(ss, overlap)| ==> Checks(ss, overlap)[k].Ok?) <==> NoClash(ss, overlap)
  {
    var ps := PairsFrom(0, |ss|);
    var cs := Checks(ss, overlap);
    if forall k :: 0 <= k < |cs| ==> cs[k].Ok? {
      forall i, j | 0 <= i < j < |ss|
        ensures PairCheck(ss[i], ss[j], overlap).Ok?
      {
        assert (i, j) in ps;
        var k :| 0 <= k < |ps| && ps[k] == (i, j);
        assert cs[k].Ok?;
      }
    }
    if NoClash(ss, overlap) {
      forall k | 0 <= k < |cs|
        ensures cs[k].Ok?
      {
        assert ps[k] in ps;
      }
    }
  }

  /** `e` is the error of a failing pair and every pair before it, in the
      loop's order, passes. */
  ghost predicate FirstClash(ss: seq<ModelSchedule>, overlap: (Clock, Clock, Clock, Clock) -> bool, e: ScheduleError) {
    var cs := Checks(ss, overlap);
    exists k :: 0 <= k < |cs| && cs[k] == Err(e) && forall k' :: 0 <= k' < k ==> cs[k'].Ok?
  }

  /** The pair loop: the first pair, in order, that fails. */
  function ValidateWith(ss: seq<ModelSchedule>, overlap: (Clock, Clock, Clock, Clock) -> bool): (r: Result<(), ScheduleError>)
    ensures r.Ok? <==> NoClash(ss, overlap)
    ensures r.Err? ==> FirstClash(ss, overlap, r.error)
  {
    ChecksPass(ss, overlap);
    match AllOk(Checks(ss, overlap))
    case Ok(_) => Ok(())
    case Err(e) => Err(e)
  }

  /** `Camera.validate_no_schedule_overlap`: the camera unchanged, or the
      error of the first failing pair. */
  function ValidateCamera(c: Camera): (r: Result<Camera, ScheduleError>)
    ensures r.Ok? <==> NoClash(c.schedules, OverlapAsWritten)
    ensures r.Ok? ==> r.value == c
  {
    match ValidateWith(c.schedules, OverlapAsWritten)
    case Ok(_) => Ok(c)
    case Err(e) => Err(e)
  }

  /** The validator with the complete overlap test. */
  function ValidateCameraExact(c: Camera): (r: Result<Camera, ScheduleError>)
    ensures r.Ok? <==> NoClash(c.schedules, OverlapExact)
    ensures r.Ok? ==> r.value == c
  {
    match ValidateWith(c.schedules, OverlapExact)
    case Ok(_) => Ok(c)
    case Err(e) => Err(e)
  }

  /** Both schedules have valid times and are never active together. */
  ghost predicate Apart(a: ModelSchedule, b: ModelSchedule) {
    ValidFields(a.start) && ValidFields(a.end) && ValidFields(b.start) && ValidFields(b.end)
    && !EverTogether(ToTime(a.start).value, ToTime(a.end).value, ToTime(b.start).value, ToTime(b.end).value)
  }

  /** With the complete test, a camera passes iff every pair of its
      schedules is apart. */
  lemma ValidateCameraExactIff(c: Camera)
    ensures ValidateCameraExact(c).Ok? <==>
      forall i, j :: 0 <= i < j < |c.schedules| ==> Apart(c.schedules[i], c.schedules[j])
  {
    var ss := c.schedules;
    forall i, j | 0 <= i < j < |ss|
      ensures PairCheck(ss[i], ss[j], OverlapExact).Ok? <==> Apart(ss[i], ss[j])
    {
      if ValidFields(ss[i].start) && ValidFields(ss[i].end) && ValidFields(ss[j].start) && ValidFields(ss[j].end) {
        OverlapExactIff(ToTime(ss[i].start).value, ToTime(ss[i].end).value, ToTime(ss[j].start).value, ToTime(ss[j].end).value);
      }
    }
  }

  /** After the complete validator, no two schedules are active at once. */
  lemma NeverBothActive(c: Camera, i: nat, j: nat, t: Clock)
    requires ValidateCameraExact(c).Ok?
    requires i < j < |c.schedules|
    ensures !(IsActive(c.schedules[i], t) == Ok(true) && IsActive(c.schedules[j], t) == Ok(true))
  {
    ValidateCameraExactIff(c);
    assert Apart(c.schedules[i], c.schedules[j]);
  }

  /** None of the first `n` schedules is active at `t`, and each converts. */
  predicate InactiveBefore(ss: seq<ModelSchedule>, t: Clock, n: nat)
    requires n <= |ss|
  {
    forall k :: 0 <= k < n ==> IsActive(ss[k], t) == Ok(false)
  }

  /** The first schedule, in list order, that is active; conversions of the
      schedules before it may raise. */
  function FirstActive(ss: seq<ModelSchedule>, t: Clock): (r: Result<Option<nat>, ValueError>)
    ensures r.Ok? <==> forall i :: 0 <= i < |ss| && InactiveBefore(ss, t, i) ==> IsActive(ss[i], t).Ok?
    ensures r.Ok? && r.value.Some? ==> (r.value.value < |ss| && IsActive(ss[r.value.value], t) == Ok(true)
      && InactiveBefore(ss, t, r.value.value))
    ensures r.Ok? && r.value.None? ==> InactiveBefore(ss, t, |ss|)
  {
    if |ss| == 0 then Ok(None)
    else
      match IsActive(ss[0], t)
      case Err(e) => Err(e)
      case Ok(true) =>
        assert InactiveBefore(ss, t, 0);
        Ok(Some(0))
      case Ok(false) =>
        var rest := FirstActive(ss[1..], t);
        InactiveShift(ss, t);
        match rest
        case Err(e) => Err(e)
        case Ok(None) => Ok(None)
        case Ok(Some(i)) => Ok(Some(i + 1))
  }

  /** Past an inactive first schedule, the schedules before `i + 1` are
      inactive iff those of the tail before `i` are. */
  lemma InactiveShift(ss: seq<ModelSchedule>, t: Clock)
    requires |ss| > 0 && IsActive(ss[0], t) == Ok(false)
    ensures forall i :: 0 <= i < |ss| ==> ss[i] == if i == 0 then ss[0] else ss[1..][i - 1]
    ensures forall i :: 0 <= i < |ss| ==> (InactiveBefore(ss, t, i + 1) <==> InactiveBefore(ss[1..], t, i))
  {
    forall i | 0 <= i < |ss|
      ensures InactiveBefore(ss, t, i + 1) <==> InactiveBefore(ss[1..], t, i)
    {
      if InactiveBefore(ss[1..], t, i) {
        forall k | 0 <= k < i + 1
          ensures IsActive(ss[k], t) == Ok(false)
        {
          if k > 0 { assert ss[k] == ss[1..][k - 1]; }
        }
      }
      if InactiveBefore(ss, t, i + 1) {
        forall k | 0 <= k < i
          ensures IsActive(ss[1..][k], t) == Ok(false)
        {
          assert ss[1..][k] == ss[k + 1];
        }
      }
    }
  }

  /** `Camera.get_active_model`: the model of the first active schedule,
      else the default model, else `MODEL_0725`. */
  function GetActiveModel(c: Camera, t: Clock): (r: Result<CountingModel, ValueError>)
    ensures r.Ok? <==> FirstActive(c.schedules, t).Ok?
    ensures r.Ok? && FirstActive(c.schedules, t).value.Some? ==>
      r.value == c.schedules[FirstActive(c.schedules, t).value.value].model
    ensures r.Ok? && InactiveBefore(c.schedules, t, |c.schedules|) ==>
      r.value == if c.defaultModel.Some? then c.defaultModel.value else Model0725
  {
    match FirstActive(c.schedules, t)
    case Err(e) => Err(e)
    case Ok(Some(i)) => Ok(c.schedules[i].model)
    case Ok(None) => Ok(c.defaultModel.GetOr(Model0725))
  }

  /** Once the complete validator has accepted a camera, the active model
      does not depend on the order of its schedules: any schedule active at
      `t` supplies it. */
  lemma ActiveModelIsUnique(c: Camera, t: Clock, i: nat)
    requires ValidateCameraExact(c).Ok?
    requires i < |c.schedules| && IsActive(c.schedules[i], t) == Ok(true)
    ensures GetActiveModel(c, t) == Ok(c.schedules[i].model)
  {
    var ss := c.schedules;
    AllConvert(c, t, i);
    FirstActiveFinds(ss, t, i);
    var i0 := FirstActive(ss, t).value.value;
    if i0 < i {
      NeverBothActive(c, i0, i, t);
      assert false;
    }
    assert i0 == i;
  }

  /** After the complete validator, one active schedule means every
      schedule's times convert at `t`. */
  lemma AllConvert(c: Camera, t: Clock, i: nat)
    requires ValidateCameraExact(c).Ok?
    requires i < |c.schedules| && IsActive(c.schedules[i], t) == Ok(true)
    ensures forall k :: 0 <= k < |c.schedules| ==> IsActive(c.schedules[k], t).Ok?
  {
    forall k | 0 <= k < |c.schedules|
      ensures IsActive(c.schedules[k], t).Ok?
    {
      ActiveKeepsOthersValid(c, t, i, k);
    }
  }

  /** When every schedule converts, the scan stops at or before any active
      schedule. */
  lemma FirstActiveFinds(ss: seq<ModelSchedule>, t: Clock, i: nat)
    requires forall k :: 0 <= k < |ss| ==> IsActive(ss[k], t).Ok?
    requires i < |ss| && IsActive(ss[i], t) == Ok(true)
    ensures FirstActive(ss, t).Ok? && FirstActive(ss, t).value.Some?
    ensures FirstActive(ss, t).value.value <= i
  {
    assert FirstActive(ss, t).Ok?;
  }

  /** After the complete validator, a camera with an active schedule has
      valid times in every schedule. */
  lemma ActiveKeepsOthersValid(c: Camera, t: Clock, i: nat, k: nat)
    requires ValidateCameraExact(c).Ok?
    requires i < |c.schedules| && IsActive(c.schedules[i], t) == Ok(true)
    requires k < |c.schedules|
    ensures IsActive(c.schedules[k], t).Ok?
  {
    ValidateCameraExactIff(c);
    if k < i {
      assert Apart(c.schedules[k], c.schedules[i]);
    } else if k > i {
      assert Apart(c.schedules[i], c.schedules[k]);
    }
  }

  function Late(): ModelSchedule {
    ModelSchedule("late", "late", TimeAtDay(22, 0, 0), TimeAtDay(2, 0, 0), ModelNwpu)
  }

  function Early(): ModelSchedule {
    ModelSchedule("early", "early", TimeAtDay(1, 0, 0), TimeAtDay(3, 0, 0), Model0725)
  }

  function WithSchedules(ss: seq<ModelSchedule>): Camera {
    Camera("cam", "cam", (1920, 1080), None, None, Some(Model0725), ss)
  }

  /** The validator accepts both orders of 22:00-02:00 and 01:00-03:00, and
      at 01:30 the active model then depends on which schedule comes first;
      the complete test rejects the pair. */
  lemma OrderDecides()
    ensures ValidateCamera(WithSchedules([Late(), Early()])).Ok?
    ensures ValidateCamera(WithSchedules([Early(), Late()])).Ok?
    ensures GetActiveModel(WithSchedules([Late(), Early()]), 5400) == Ok(ModelNwpu)
    ensures GetActiveModel(WithSchedules([Early(), Late()]), 5400) == Ok(Model0725)
    ensures ValidateCameraExact(WithSchedules([Late(), Early()])).Err?
  {
    assert ToTime(Late().start) == Ok(79200) && ToTime(Late().end) == Ok(7200);
    assert ToTime(Early().start) == Ok(3600) && ToTime(Early().end) == Ok(10800);
    var ab := [Late(), Early()];
    var ba := [Early(), Late()];
    assert PairCheck(ab[0], ab[1], OverlapAsWritten).Ok?;
    assert PairCheck(ba[0], ba[1], OverlapAsWritten).Ok?;
    assert !PairCheck(ab[0], ab[1], OverlapExact).Ok?;
    assert IsActive(Late(), 5400) == Ok(true);
    assert IsActive(Early(), 5400) == Ok(true);
  }

  datatype Show = Standard | Lightshow

  function ShowName(s: Show): string {
    match s
    case Standard => "standard"
    case Lightshow => "lightshow"
  }

  /** `ModelSchedule.determine_model`: strict at both ends. */
  function DetermineModel(start: Clock, end: Clock, t: Clock): (r: Show)
    ensures r == Lightshow <==> OnArc(start, end, t) && t != start && t != end
  {
    if start <= end then
      if start < t < end then Lightshow else Standard
    else
      if start < t || t < end then Lightshow else Standard
  }
}
