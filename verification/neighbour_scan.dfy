/** The loop both inverse-distance interpolators run over the kernel for one
    pixel: each kernel entry either yields no neighbour value (index error or
    out of bounds) or reads one; a non-zero value read is accepted into the
    weighted sums. The loop variable `density_value` survives the loop, so
    the scan also remembers the last value it read. */
module NeighbourScan {
  import opened Results
  import opened ProximityKernel

  /** The outcome of one kernel step. */
  datatype Probe = Skipped | Read(v: real)

  predicate Accepted(p: Probe) {
    p.Read? && p.v != 0.0
  }

  /** `sum(valid_weights)`, `sum(valid_weights * valid_values)`,
      `len(valid_weights)` and the last value assigned to `density_value`. */
  datatype Scan = Scan(weightSum: real, weightedSum: real, accepted: nat, last: Option<real>)

  /** `p` is the last probe that read a value. */
  ghost predicate IsLastRead(probes: seq<Probe>, v: real) {
    exists i :: 0 <= i < |probes| && probes[i] == Read(v)
      && forall j :: i < j < |probes| ==> probes[j].Skipped?
  }

  /** One iteration of the loop body: a read value is always remembered, and
      joins the sums unless it is zero. */
  function Step(prev: Scan, e: Entry, p: Probe): Scan {
    match p
    case Skipped => prev
    case Read(v) =>
      if v == 0.0 then prev.(last := Some(v))
      else Scan(prev.weightSum + e.weight, prev.weightedSum + e.weight * v, prev.accepted + 1, Some(v))
  }

  /** What the sums of a scan of `probes` know: whether some neighbour was
      accepted, and the sign of the weight sum. */
  predicate CountsAgree(s: Scan, probes: seq<Probe>) {
    (s.accepted > 0 <==> exists i :: 0 <= i < |probes| && Accepted(probes[i]))
    && (s.accepted > 0 ==> s.weightSum > 0.0)
    && (s.accepted == 0 ==> s.weightSum == 0.0 && s.weightedSum == 0.0)
  }

  /** What a scan of `probes` remembers: the last value read, if any. */
  ghost predicate LastAgrees(s: Scan, probes: seq<Probe>) {
    (s.last.None? <==> forall i :: 0 <= i < |probes| ==> probes[i].Skipped?)
    && (s.last.Some? ==> IsLastRead(probes, s.last.value))
  }

  /** Runs the loop over the kernel entries in order; `probes[i]` is what the
      `i`-th entry found. */
  function Accumulate(k: Kernel, probes: seq<Probe>): (s: Scan)
    requires |probes| == |k|
    ensures s.accepted > 0 <==> exists i :: 0 <= i < |probes| && Accepted(probes[i])
    ensures s.accepted > 0 ==> s.weightSum > 0.0
    ensures s.accepted == 0 ==> s.weightSum == 0.0 && s.weightedSum == 0.0
    ensures s.last.None? <==> forall i :: 0 <= i < |probes| ==> probes[i].Skipped?
    ensures s.last.Some? ==> IsLastRead(probes, s.last.value)
    decreases |k|
  {
    if |k| == 0 then Scan(0.0, 0.0, 0, None)
    else
      var n := |k| - 1;
      var prev := Accumulate(k[..n], probes[..n]);
      StepCounts(prev, k[n], probes);
      StepLast(prev, k[n], probes);
      Step(prev, k[n], probes[n])
  }

  /** One more iteration extends the sums by the last probe. */
  lemma StepCounts(prev: Scan, e: Entry, probes: seq<Probe>)
    requires |probes| > 0 && CountsAgree(prev, probes[..|probes| - 1])
    ensures CountsAgree(Step(prev, e, probes[|probes| - 1]), probes)
  {
    var n := |probes| - 1;
    assert forall i :: 0 <= i < n ==> probes[..n][i] == probes[i];
  }

  /** One more iteration remembers the last probe's value if it read one. */
  lemma StepLast(prev: Scan, e: Entry, probes: seq<Probe>)
    requires |probes| > 0 && LastAgrees(prev, probes[..|probes| - 1])
    ensures LastAgrees(Step(prev, e, probes[|probes| - 1]), probes)
  {
    var n := |probes| - 1;
    assert forall i :: 0 <= i < n ==> probes[..n][i] == probes[i];
    if probes[n].Skipped? && prev.last.Some? {
      var i :| 0 <= i < n && probes[..n][i] == Read(prev.last.value)
        && forall j :: i < j < n ==> probes[..n][j].Skipped?;
      assert probes[i] == Read(prev.last.value);
    }
    if probes[n].Read? {
      assert IsLastRead(probes, probes[n].v);
    }
  }

  predicate InBounds(s: Scan, lo: real, hi: real) {
    lo * s.weightSum <= s.weightedSum <= hi * s.weightSum
  }

  lemma ScaleLeq(a: real, b: real, c: real)
    requires a <= b && c >= 0.0
    ensures a * c <= b * c
  {
  }

  /** One loop iteration keeps the sums within the bounds of the values. */
  lemma StepBounds(prev: Scan, e: Entry, p: Probe, lo: real, hi: real)
    requires InBounds(prev, lo, hi)
    requires Accepted(p) ==> lo <= p.v <= hi
    ensures InBounds(Step(prev, e, p), lo, hi)
  {
    if Accepted(p) {
      var w: real := e.weight;
      ScaleLeq(lo, p.v, w);
      ScaleLeq(p.v, hi, w);
      assert lo * (prev.weightSum + w) == lo * prev.weightSum + lo * w;
      assert hi * (prev.weightSum + w) == hi * prev.weightSum + hi * w;
    }
  }

  /** The accepted values' weighted sum lies between any common lower and
      upper bound of those values, scaled by the weight sum. */
  lemma {:induction false} WeightedSumBounds(k: Kernel, probes: seq<Probe>, lo: real, hi: real)
    requires |probes| == |k|
    requires forall i :: 0 <= i < |probes| && Accepted(probes[i]) ==> lo <= probes[i].v <= hi
    ensures InBounds(Accumulate(k, probes), lo, hi)
    decreases |k|
  {
    if |k| > 0 {
      var n := |k| - 1;
      assert forall i :: 0 <= i < n ==> probes[..n][i] == probes[i];
      WeightedSumBounds(k[..n], probes[..n], lo, hi);
      StepBounds(Accumulate(k[..n], probes[..n]), k[n], probes[n], lo, hi);
    }
  }

  /** The run over the first `n` entries is one step after the run over
      the first `n - 1`. */
  lemma AccumulatePrefix(k: Kernel, probes: seq<Probe>, n: nat)
    requires |probes| == |k| && 0 < n <= |k|
    ensures Accumulate(k[..n], probes[..n]) == Step(Accumulate(k[..n - 1], probes[..n - 1]), k[n - 1], probes[n - 1])
  {
    assert k[..n][..n - 1] == k[..n - 1] && probes[..n][..n - 1] == probes[..n - 1];
  }

  /** A non-zero first value read starts the sums. */
  lemma FirstRead(k: Kernel, probes: seq<Probe>, a: real)
    requires |probes| == |k| > 0 && probes[0] == Read(a) && a != 0.0
    ensures Accumulate(k[..1], probes[..1]) == Scan(k[0].weight, k[0].weight * a, 1, Some(a))
  {
    AccumulatePrefix(k, probes, 1);
    assert Accumulate(k[..0], probes[..0]) == Scan(0.0, 0.0, 0, None);
  }

  /** A skipped probe leaves the run as it was. */
  lemma SkippedPrefix(k: Kernel, probes: seq<Probe>, n: nat)
    requires |probes| == |k| && 0 < n <= |k| && probes[n - 1] == Skipped
    ensures Accumulate(k[..n], probes[..n]) == Accumulate(k[..n - 1], probes[..n - 1])
  {
    AccumulatePrefix(k, probes, n);
  }

  /** A value read by the final probe is the last value read. */
  lemma LastProbeRead(k: Kernel, probes: seq<Probe>, v: real)
    requires |probes| == |k| > 0 && probes[|probes| - 1] == Read(v)
    ensures Accumulate(k, probes).last == Some(v)
  {
    var n := |k| - 1;
    assert Accumulate(k, probes) == Step(Accumulate(k[..n], probes[..n]), k[n], probes[n]);
  }

  /** With nothing accepted, the last value read can only be a zero. */
  lemma LastReadIsZero(k: Kernel, probes: seq<Probe>)
    requires |probes| == |k|
    requires Accumulate(k, probes).accepted == 0 && Accumulate(k, probes).last.Some?
    ensures Accumulate(k, probes).last.value == 0.0
  {
    var v := Accumulate(k, probes).last.value;
    var i :| 0 <= i < |probes| && probes[i] == Read(v) && forall j :: i < j < |probes| ==> probes[j].Skipped?;
    assert !Accepted(probes[i]);
  }

  /** The source's averaging step `sum(w * v) / sum(w)`, defined once some
      neighbour was accepted. */
  function Mean(s: Scan): real
    requires s.weightSum > 0.0
  {
    s.weightedSum / s.weightSum
  }

  lemma MeanOfBounds(s: Scan, lo: real, hi: real)
    requires s.weightSum > 0.0
    requires InBounds(s, lo, hi)
    ensures lo <= Mean(s) <= hi
  {
  }

  /** The mean is a convex combination of the accepted values. */
  lemma {:induction false} MeanBounds(k: Kernel, probes: seq<Probe>, lo: real, hi: real)
    requires |probes| == |k|
    requires Accumulate(k, probes).accepted > 0
    requires forall i :: 0 <= i < |probes| && Accepted(probes[i]) ==> lo <= probes[i].v <= hi
    ensures lo <= Mean(Accumulate(k, probes)) <= hi
  {
    WeightedSumBounds(k, probes, lo, hi);
    MeanOfBounds(Accumulate(k, probes), lo, hi);
  }
}
