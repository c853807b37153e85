/**
 * The summariser's pass over the samples: each sample is checked and folded into the accumulators,
 * which at every point mean what the specification says of the samples so far.
 */
module SamplePass {
  import opened Prelude
  import opened Records
  import opened SummarySpec
  import opened Availability

  // ---- Memory ----------------------------------------------------------------------------------

  function PeakStep(peak: Option<u64>, sum: Option<u64>): Option<u64> {
    if peak.Some? && sum.Some? then Some(Max(peak.value, sum.value)) else None
  }

  lemma PeakExtends(samples: seq<Sample>, n: nat, f: Field, peak: Option<u64>)
    requires n < |samples| && PeakIs(samples, n, f, peak)
    requires SumOf(samples[n], f).Ok?
    ensures PeakIs(samples, n + 1, f, PeakStep(peak, SumOf(samples[n], f).value))
  {
    var next := PeakStep(peak, SumOf(samples[n], f).value);
    if next.Some? && next.value != 0 {
      if next.value == SumOf(samples[n], f).value.value {
      } else {
        var k :| 0 <= k < n && SumOf(samples[k], f).value.value == peak.value;
      }
    }
  }

  /** On a live sample the previous last-live pair is dropped even when there is nothing to replace it. */
  function LastLiveStep(l: LastLive, s: Sample, sum: Option<u64>): LastLive {
    if !s.live then l
    else if sum.Some? then LastLive(sum, s.wallTime)
    else LastLive(None, None)
  }

  lemma LastLiveExtends(samples: seq<Sample>, n: nat, f: Field, l: LastLive)
    requires n < |samples| && LastLiveIs(samples, n, f, l)
    requires SumOf(samples[n], f).Ok?
    ensures LastLiveIs(samples, n + 1, f, LastLiveStep(l, samples[n], SumOf(samples[n], f).value))
  {
  }

  method FoldMemory(samples: seq<Sample>, n: nat, v2: bool, m: Memory) returns (r: Option<Memory>)
    requires n < |samples| && MemoryIs(samples, n, m)
    ensures r.Some? <==> SumsOk(samples[n], v2)
    ensures r.Some? ==> MemoryIs(samples, n + 1, r.value)
  {
    var s := samples[n];
    var workingSet := SumOf(s, WorkingSetBytes);
    if workingSet.Err? {
      return None;
    }
    var private := SumOf(s, PrivateBytes);
    if private.Err? {
      return None;
    }
    if v2 {
      if !WitnessOk(s.workingSetSum, workingSet.value) || !WitnessOk(s.privateSum, private.value) {
        return None;
      }
    }
    PeakExtends(samples, n, WorkingSetBytes, m.peakWorkingSet);
    PeakExtends(samples, n, PrivateBytes, m.peakPrivate);
    LastLiveExtends(samples, n, WorkingSetBytes, m.lastWorkingSet);
    LastLiveExtends(samples, n, PrivateBytes, m.lastPrivate);
    return Some(Memory(PeakStep(m.peakWorkingSet, workingSet.value), PeakStep(m.peakPrivate, private.value),
                       LastLiveStep(m.lastWorkingSet, s, workingSet.value),
                       LastLiveStep(m.lastPrivate, s, private.value)));
  }

  // ---- Process ids and probe handles -----------------------------------------------------------

  method FoldRows(s: Sample) returns (r: Option<set<u64>>)
    ensures r.Some? <==> RowsOk(s)
    ensures r.Some? ==> r.value == IdsIn(s)
  {
    if s.rows.None? {
      return None;
    }
    var rows := RowsOf(s);
    var ids: set<u64> := {};
    for k := 0 to |rows|
      invariant forall j | 0 <= j < k :: rows[j].id.Num?
      invariant forall j, i | 0 <= j < i < k :: rows[j].id != rows[i].id
      invariant ids == set j | 0 <= j < k && rows[j].id.Num? :: rows[j].id.n
    {
      if !rows[k].id.Num? {
        return None;
      }
      if rows[k].id.n in ids {
        var j :| 0 <= j < k && rows[j].id.n == rows[k].id.n;
        assert RowsOf(s)[j].id == RowsOf(s)[k].id;
        return None;
      }
      ids := ids + {rows[k].id.n};
    }
    return Some(ids);
  }

  lemma MaxHandlesExtends(samples: seq<Sample>, n: nat, h: Option<u64>)
    requires n < |samples| && MaxHandlesIs(samples, n, h) && HandlesOf(samples[n]).Ok?
    ensures MaxHandlesIs(samples, n + 1, PeakStep(h, HandlesOf(samples[n]).value))
  {
    var next := PeakStep(h, HandlesOf(samples[n]).value);
    if next.Some? && next.value != 0 && next.value != HandlesOf(samples[n]).value.value {
      var k :| 0 <= k < n && HandlesOf(samples[k]).value.value == h.value;
    }
  }

  // ---- Job counters ----------------------------------------------------------------------------

  datatype JobFold = JobFold(previous: Option<JobPoint>, utilizations: seq<real>, final: Option<Job>)

  /** The utilisations recorded so far are those of the consecutive points with advancing time. */
  ghost predicate UtilizationsAre(ps: seq<JobPoint>, us: seq<real>) {
    && (forall k | Advances(ps, k) :: Utilization(ps, k) in us)
    && (forall u | u in us :: exists k :: Advances(ps, k) && Utilization(ps, k) == u)
  }

  ghost predicate JobFoldIs(samples: seq<Sample>, n: nat, j: JobFold)
    requires n <= |samples|
  {
    var ps := JobPoints(samples, n);
    && PointsOk(ps)
    && j.previous == (if ps == [] then None else Some(ps[|ps| - 1]))
    && UtilizationsAre(ps, j.utilizations)
    && j.final == LastJob(samples, n)
  }

  lemma PointsSnoc(ps: seq<JobPoint>, p: JobPoint)
    requires PointsOk(ps)
    ensures PointsOk(ps + [p]) <==> ps == [] || StepOk(ps[|ps| - 1], p)
    ensures forall k | k < |ps| :: Advances(ps + [p], k) <==> Advances(ps, k)
    ensures forall k | Advances(ps, k) :: Advances(ps + [p], k) && Utilization(ps + [p], k) == Utilization(ps, k)
  {
    var qs := ps + [p];
    assert forall k | 0 < k < |ps| :: StepOkAt(qs, k) == StepOkAt(ps, k);
    if ps != [] {
      assert StepOkAt(qs, |ps|) <==> StepOk(ps[|ps| - 1], p);
    }
  }

  lemma UtilizationsSnoc(ps: seq<JobPoint>, p: JobPoint, us: seq<real>)
    requires UtilizationsAre(ps, us) && PointsOk(ps)
    ensures UtilizationsAre(ps + [p],
              if Advances(ps + [p], |ps|) then us + [Utilization(ps + [p], |ps|)] else us)
  {
    PointsSnoc(ps, p);
    var qs := ps + [p];
    var vs := if Advances(qs, |ps|) then us + [Utilization(qs, |ps|)] else us;
    forall u | u in vs
      ensures exists k :: Advances(qs, k) && Utilization(qs, k) == u
    {
      if u in us {
        var k :| Advances(ps, k) && Utilization(ps, k) == u;
        assert Advances(qs, k);
      }
    }
    forall k | Advances(qs, k)
      ensures Utilization(qs, k) in vs
    {
      if k < |ps| {
        assert Advances(ps, k);
      }
    }
  }

  method FoldJob(samples: seq<Sample>, n: nat, j: JobFold) returns (r: Option<JobFold>)
    requires n < |samples| && JobFoldIs(samples, n, j) && samples[n].monotonic.Num?
    ensures r.Some? <==> (samples[n].job.Some? ==> JobOk(samples[n].job.value)) && PointsOk(JobPoints(samples, n + 1))
    ensures r.Some? ==> JobFoldIs(samples, n + 1, r.value)
  {
    var s := samples[n];
    ghost var ps := JobPoints(samples, n);
    if s.job.None? {
      assert JobPoints(samples, n + 1) == ps;
      return Some(j);
    }
    if !JobOk(s.job.value) {
      return None;
    }
    var point := JobPoint(s.monotonic.n, s.job.value.userTime.n + s.job.value.kernelTime.n);
    assert JobPoints(samples, n + 1) == ps + [point];
    PointsSnoc(ps, point);
    UtilizationsSnoc(ps, point, j.utilizations);
    var utilizations := j.utilizations;
    if j.previous.Some? {
      var previous := j.previous.value;
      if point.t < previous.t {
        return None;
      }
      if point.t > previous.t {
        if point.cpu < previous.cpu {
          return None;
        }
        utilizations := utilizations + [(point.cpu - previous.cpu) as real / (point.t - previous.t) as real];
      }
    }
    return Some(JobFold(Some(point), utilizations, s.job));
  }

  method PeakOf(us: seq<real>) returns (peak: Option<real>)
    ensures peak.None? <==> us == []
    ensures peak.Some? ==> peak.value in us && forall u | u in us :: u <= peak.value
  {
    if us == [] {
      return None;
    }
    var p := us[0];
    for k := 1 to |us|
      invariant p in us && forall i | 0 <= i < k :: us[i] <= p
    {
      if us[k] > p {
        p := us[k];
      }
    }
    return Some(p);
  }

  lemma {:induction false} JobPointsPrefix(samples: seq<Sample>, n: nat, m: nat)
    requires n <= m <= |samples|
    ensures JobPoints(samples, n) <= JobPoints(samples, m)
  {
    if n < m {
      JobPointsPrefix(samples, n, m - 1);
    }
  }

  lemma PointsOkPrefix(samples: seq<Sample>, n: nat, m: nat)
    requires n <= m <= |samples| && PointsOk(JobPoints(samples, m))
    ensures PointsOk(JobPoints(samples, n))
  {
    JobPointsPrefix(samples, n, m);
    var ps, qs := JobPoints(samples, n), JobPoints(samples, m);
    forall k | 0 < k < |ps|
      ensures StepOkAt(ps, k)
    {
      assert StepOkAt(qs, k);
    }
  }

  // ---- One sample ------------------------------------------------------------------------------

  datatype Fold = Fold(maxGap: u64, memory: Memory, maxObserved: nat, ids: set<u64>,
                       maxHandles: Option<u64>, jobs: JobFold, omission: bool, operational: bool)

  ghost predicate OperationalUpTo(samples: seq<Sample>, n: int, events: seq<Event>) {
    exists o, m, j :: 0 <= o < n <= |samples| && OperationalAt(events, samples[o], o, m, j)
  }

  ghost predicate FoldIs(samples: seq<Sample>, n: nat, v2: bool, events: seq<Event>, a: Fold)
    requires n <= |samples|
  {
    && MaxGapIs(samples, n, a.maxGap)
    && MemoryIs(samples, n, a.memory)
    && MaxObservedIs(samples, n, a.maxObserved)
    && a.ids == ObservedIds(samples, n)
    && MaxHandlesIs(samples, n, a.maxHandles)
    && JobFoldIs(samples, n, a.jobs)
    && (a.omission <==> v2 && AnyOmission(samples, n))
    && (a.operational <==> v2 && OperationalUpTo(samples, n, events))
  }

  method ScanSample(s: Sample, ordinal: nat, v2: bool, ds: seq<Decl>, ghost events: seq<Event>)
    returns (ok: bool, omitted: bool, operational: bool)
    requires v2 ==> ds == Declarations(events)
    ensures ok <==> MetricsOk(s, ordinal, events, v2)
    ensures ok ==> (omitted <==> v2 && exists m, j :: Omitted(s, m, j))
    ensures ok ==> (operational <==> v2 && exists m, j :: OperationalAt(events, s, ordinal, m, j))
  {
    if v2 {
      ok, omitted, operational := CheckAvailability(s, ordinal, ds, events);
    } else {
      ok := ValidatePresentMetrics(s);
      omitted, operational := false, false;
    }
  }

  lemma MaxGapExtends(samples: seq<Sample>, n: nat, g: u64)
    requires n < |samples| && MaxGapIs(samples, n, g)
    ensures MaxGapIs(samples, n + 1, Max(g, GapOf(samples[n])))
  {
    var next := Max(g, GapOf(samples[n]));
    if next != 0 && next != GapOf(samples[n]) {
      var k :| 0 <= k < n && GapOf(samples[k]) == g;
      assert GapOf(samples[k]) == next;
    }
  }

  lemma MaxObservedExtends(samples: seq<Sample>, n: nat, p: nat)
    requires n < |samples| && MaxObservedIs(samples, n, p)
    ensures MaxObservedIs(samples, n + 1, if p < |RowsOf(samples[n])| then |RowsOf(samples[n])| else p)
  {
    if p != 0 && |RowsOf(samples[n])| <= p {
      var k :| 0 <= k < n && |RowsOf(samples[k])| == p;
      assert |RowsOf(samples[k])| == p;
    }
  }

  lemma OmissionExtends(samples: seq<Sample>, n: nat, events: seq<Event>)
    requires n < |samples|
    ensures AnyOmission(samples, n + 1) <==> AnyOmission(samples, n) || exists m, j :: Omitted(samples[n], m, j)
    ensures OperationalUpTo(samples, n + 1, events) <==>
            OperationalUpTo(samples, n, events) || exists m, j :: OperationalAt(events, samples[n], n, m, j)
  {
  }

  method FoldSample(samples: seq<Sample>, n: nat, v2: bool, ds: seq<Decl>, ghost events: seq<Event>, a: Fold)
    returns (r: Option<Fold>)
    requires n < |samples| && (v2 ==> ds == Declarations(events))
    requires FoldIs(samples, n, v2, events, a)
    ensures r.Some? <==> SampleOk(samples[n], n, events, v2) && PointsOk(JobPoints(samples, n + 1))
    ensures r.Some? ==> FoldIs(samples, n + 1, v2, events, r.value)
  {
    hide RowsOk, MetricsOk, SumsOk, JobOk, PointsOk, JobPoints, MemoryIs, MaxGapIs, MaxObservedIs, MaxHandlesIs,
      JobFoldIs, AnyOmission, OperationalUpTo, OperationalAt, Omitted, HandlesOf, GapOf;
    var s := samples[n];
    if !HeaderOk(s) {
      return None;
    }
    var ids := FoldRows(s);
    if ids.None? {
      return None;
    }
    var scanned, omitted, operational := ScanSample(s, n, v2, ds, events);
    if !scanned {
      return None;
    }
    var memory := FoldMemory(samples, n, v2, a.memory);
    if memory.None? {
      return None;
    }
    if HandlesOf(s).Err? {
      return None;
    }
    var jobs := FoldJob(samples, n, a.jobs);
    if jobs.None? {
      return None;
    }
    MaxGapExtends(samples, n, a.maxGap);
    MaxObservedExtends(samples, n, a.maxObserved);
    MaxHandlesExtends(samples, n, a.maxHandles);
    OmissionExtends(samples, n, events);
    var maxObserved := if a.maxObserved < |RowsOf(s)| then |RowsOf(s)| else a.maxObserved;
    return Some(Fold(Max(a.maxGap, GapOf(s)), memory.value, maxObserved, a.ids + ids.value,
                     PeakStep(a.maxHandles, HandlesOf(s).value), jobs.value,
                     a.omission || omitted, a.operational || operational));
  }

  const EMPTY_FOLD: Fold :=
    Fold(0, Memory(Some(0), Some(0), LastLive(None, None), LastLive(None, None)), 0, {}, Some(0),
         JobFold(None, [], None), false, false)

  lemma FoldStarts(samples: seq<Sample>, v2: bool, events: seq<Event>)
    ensures FoldIs(samples, 0, v2, events, EMPTY_FOLD) && PointsOk(JobPoints(samples, 0))
  {
  }

  method FoldSamples(samples: seq<Sample>, v2: bool, ds: seq<Decl>, ghost events: seq<Event>)
    returns (r: Option<Fold>)
    requires v2 ==> ds == Declarations(events)
    ensures r.Some? <==> AllSamplesOk(samples, |samples|, events, v2) && PointsOk(JobPoints(samples, |samples|))
    ensures r.Some? ==> FoldIs(samples, |samples|, v2, events, r.value)
  {
    hide FoldIs, SampleOk, PointsOk, JobPoints;
    var a := EMPTY_FOLD;
    FoldStarts(samples, v2, events);
    for n := 0 to |samples|
      invariant AllSamplesOk(samples, n, events, v2)
      invariant FoldIs(samples, n, v2, events, a)
      invariant PointsOk(JobPoints(samples, n))
    {
      var next := FoldSample(samples, n, v2, ds, events, a);
      if next.None? {
        if PointsOk(JobPoints(samples, |samples|)) {
          PointsOkPrefix(samples, n + 1, |samples|);
        }
        return None;
      }
      a := next.value;
    }
    return Some(a);
  }
}
