/**
 * What a summary reports, field by field, in terms of the records it was made from and of nothing else.
 * Every law here follows from `Accepted` and `Describes`.
 */
module SummaryFields {
  import opened Prelude
  import opened Records
  import opened SummarySpec
  import opened EvidenceRules
  import Accounting

  // ---- Job counters ----------------------------------------------------------------------------

  /** The totals are those of the last job; what its count exceeds the distinct ids by is unidentified. */
  predicate ReportsJob(samples: seq<Sample>, elapsed: u64, s: Summary, k: int)
    requires LastWithJob(samples, k)
  {
    var job := samples[k].job.value;
    && job.userTime.Num? && job.kernelTime.Num? && job.totalProcesses.Num?
    && job.readBytes.Num? && job.writeBytes.Num? && job.readOperations.Num? && job.writeOperations.Num?
    && var total := job.userTime.n + job.kernelTime.n;
    && total <= U64_MAX && s.cpu.total == Some(total)
    && s.cpu.average == (if elapsed > 0 then Some(total as real / elapsed as real) else None)
    && s.io == Io(Some(job.readBytes.n), Some(job.writeBytes.n),
                  Some(job.readOperations.n), Some(job.writeOperations.n))
    && s.population.jobTotal == Some(job.totalProcesses.n)
    && s.population.withoutIdentity.Some?
    && var w, d, t := s.population.withoutIdentity.value, s.population.distinct, job.totalProcesses.n;
    && (t >= d ==> d + w == t)
    && (t < d ==> w == 0)
  }

  predicate ReportsNoJob(s: Summary) {
    && s.cpu.total == None && s.cpu.average == None && s.io == Io(None, None, None, None)
    && s.population.jobTotal == None && s.population.withoutIdentity == None
  }

  predicate AnyJob(samples: seq<Sample>) {
    exists o | 0 <= o < |samples| :: samples[o].job.Some?
  }

  ghost predicate JobReported(samples: seq<Sample>, s: Summary) {
    && (forall k | LastWithJob(samples, k) :: ReportsJob(samples, s.timing.elapsedNs, s, k))
    && (!AnyJob(samples) ==> ReportsNoJob(s))
    && (AnyJob(samples) <==> s.population.withoutIdentity.Some?)
  }

  lemma AcceptedJob(b: Bundle, k: int)
    requires Accepted(b) && LastWithJob(b.samples, k)
    ensures LastJob(b.samples, |b.samples|) == b.samples[k].job && FinalJobOk(b.samples[k].job.value)
  {
    hide AllSamplesOk, TerminalOk, ManifestOk, PointsOk, NothingIdle, DeclarationsOk;
    JobAtIndex(b.samples, |b.samples|);
  }

  lemma JobIsReported(b: Bundle, s: Summary)
    requires Accepted(b) && Describes(b, s)
    ensures JobReported(b.samples, s)
  {
    hide Accepted, TerminalIs, MaxGapIs, MemoryIs, PeakUtilizationIs, MaxObservedIs, MaxHandlesIs, ValidityOf,
      CompletenessOf, RetentionDegraded, IsV2, TimingIs;
    forall k | LastWithJob(b.samples, k)
      ensures ReportsJob(b.samples, s.timing.elapsedNs, s, k)
    {
      AcceptedJob(b, k);
    }
    JobAtIndex(b.samples, |b.samples|);
    if AnyJob(b.samples) {
      assert LastWithJob(b.samples, LastJobIndex(b.samples, |b.samples|));
    }
  }

  // ---- CPU utilisation -------------------------------------------------------------------------

  function PointAt(samples: seq<Sample>, k: int): JobPoint
    requires 0 <= k < |samples| && samples[k].job.Some?
  {
    var job := samples[k].job.value;
    JobPoint(NumOrZero(samples[k].monotonic), NumOrZero(job.userTime) + NumOrZero(job.kernelTime))
  }

  /** Points `k - 1` and `k` are those of samples `i` and `j`. */
  predicate PairAt(samples: seq<Sample>, ps: seq<JobPoint>, i: int, j: int, k: int) {
    NextJob(samples, i, j) && 0 < k < |ps| && ps[k - 1] == PointAt(samples, i) && ps[k] == PointAt(samples, j)
  }

  lemma {:induction false} LastPointAt(samples: seq<Sample>, n: nat)
    requires n <= |samples|
    ensures var k, ps := LastJobIndex(samples, n), JobPoints(samples, n);
            if k < 0 then ps == [] else ps != [] && ps[|ps| - 1] == PointAt(samples, k)
  {
    if n > 0 {
      LastPointAt(samples, n - 1);
    }
  }

  /** Consecutive points are those of samples whose jobs follow each other. */
  lemma {:induction false} PointHasPair(samples: seq<Sample>, n: nat, k: int) returns (i: int, j: int)
    requires n <= |samples| && 0 < k < |JobPoints(samples, n)|
    ensures j < n && PairAt(samples, JobPoints(samples, n), i, j, k)
  {
    LastPointAt(samples, n - 1);
    if k < |JobPoints(samples, n - 1)| {
      i, j := PointHasPair(samples, n - 1, k);
    } else {
      i, j := LastJobIndex(samples, n - 1), n - 1;
    }
  }

  lemma {:induction false} PairHasPoint(samples: seq<Sample>, n: nat, i: int, j: int) returns (k: int)
    requires n <= |samples| && NextJob(samples, i, j) && j < n
    ensures PairAt(samples, JobPoints(samples, n), i, j, k)
  {
    LastPointAt(samples, n - 1);
    if j < n - 1 {
      k := PairHasPoint(samples, n - 1, i, j);
    } else {
      assert i == LastJobIndex(samples, n - 1);
      k := |JobPoints(samples, n - 1)|;
    }
  }

  /** CPU consumed between two samples whose jobs follow each other, per unit of time. */
  function UsageOf(s: Sample, t: Sample): real
    requires Later(s, t)
  {
    (t.job.value.userTime.n + t.job.value.kernelTime.n - s.job.value.userTime.n - s.job.value.kernelTime.n) as real /
    (t.monotonic.n - s.monotonic.n) as real
  }

  predicate Later(s: Sample, t: Sample) {
    JobStepRule(s, t) && s.monotonic.n < t.monotonic.n
  }

  ghost predicate PeakReported(samples: seq<Sample>, peak: Option<real>) {
    && (forall i, j | NextJob(samples, i, j) && Later(samples[i], samples[j]) ::
          peak.Some? && UsageOf(samples[i], samples[j]) <= peak.value)
    && (peak.Some? ==> exists i, j ::
          NextJob(samples, i, j) && Later(samples[i], samples[j]) && UsageOf(samples[i], samples[j]) == peak.value)
  }

  lemma PairUsage(samples: seq<Sample>, ps: seq<JobPoint>, i: int, j: int, k: int)
    requires PairAt(samples, ps, i, j, k) && JobStepRule(samples[i], samples[j])
    ensures Advances(ps, k) <==> Later(samples[i], samples[j])
    ensures Advances(ps, k) ==> Utilization(ps, k) == UsageOf(samples[i], samples[j])
  {
  }

  lemma PeakIsReported(samples: seq<Sample>, peak: Option<real>)
    requires JobsRule(samples, |samples|) && PeakUtilizationIs(JobPoints(samples, |samples|), peak)
    ensures PeakReported(samples, peak)
  {
    hide JobPoints, Advances, Utilization, UsageOf, Later, JobStepRule;
    var ps := JobPoints(samples, |samples|);
    forall i, j | NextJob(samples, i, j) && Later(samples[i], samples[j])
      ensures peak.Some? && UsageOf(samples[i], samples[j]) <= peak.value
    {
      var k := PairHasPoint(samples, |samples|, i, j);
      PairUsage(samples, ps, i, j, k);
    }
    if peak.Some? {
      var k :| Advances(ps, k) && Utilization(ps, k) == peak.value;
      assert 0 < k < |ps| by { AdvanceInRange(ps, k); }
      var i, j := PointHasPair(samples, |samples|, k);
      PairUsage(samples, ps, i, j, k);
    }
  }

  lemma AdvanceInRange(ps: seq<JobPoint>, k: int)
    requires Advances(ps, k)
    ensures 0 < k < |ps|
  {
  }

  // ---- Time ------------------------------------------------------------------------------------

  predicate TimeReported(samples: seq<Sample>, t: Timing)
    requires samples != []
  {
    var first, last := samples[0].monotonic, samples[|samples| - 1].monotonic;
    && first.Num? && last.Num? && first.n + t.elapsedNs == last.n
    && t.sampleCount == |samples|
    && (forall k | 0 <= k < |samples| && samples[k].gap.Num? :: samples[k].gap.n <= t.maxSampleGapNs)
    && (t.maxSampleGapNs > 0 ==> exists k | 0 <= k < |samples| :: samples[k].gap == Num(t.maxSampleGapNs))
  }

  lemma TimeIsReported(b: Bundle, s: Summary)
    requires Accounting.AcceptedV2(b) && Describes(b, s)
    ensures TimeReported(b.samples, s.timing)
  {
    hide Accounting.AcceptedV2, TerminalIs, MemoryIs, CpuIs, PopulationIs, ValidityOf, CompletenessOf,
      RetentionDegraded, IsV2, CellsRule, SumRule, RowsRule, JobRule;
    AcceptedObeys(b);
    assert forall k | 0 <= k < |b.samples| :: SampleRule(b.samples[k], k, b.events);
    forall k | 0 <= k < |b.samples|
      ensures GapOf(b.samples[k]) == if b.samples[k].gap.Num? then b.samples[k].gap.n else 0
    {
    }
  }

  // ---- Memory ----------------------------------------------------------------------------------

  /** The recorded sums of one count, sample by sample. */
  function Recorded(samples: seq<Sample>, f: Field): (sums: seq<Leaf>)
    ensures |sums| == |samples|
    ensures forall k | 0 <= k < |sums| ::
              sums[k] == if f.WorkingSetBytes? then samples[k].workingSetSum else samples[k].privateSum
  {
    seq(|samples|, k requires 0 <= k < |samples| =>
      if f.WorkingSetBytes? then samples[k].workingSetSum else samples[k].privateSum)
  }

  /** The peak is the largest number of the sequence; a sequence with a gap has none. */
  predicate LargestOf(sums: seq<Leaf>, peak: Option<u64>) {
    match peak
    case None => exists k | 0 <= k < |sums| :: !sums[k].Num?
    case Some(p) =>
      && (forall k | 0 <= k < |sums| :: sums[k].Num? && sums[k].n <= p)
      && exists k | 0 <= k < |sums| :: sums[k] == Num(p)
  }

  predicate LastLiveAt(samples: seq<Sample>, k: int) {
    0 <= k < |samples| && samples[k].live && forall i | k < i < |samples| :: !samples[i].live
  }

  /** Sum and time of the last sample with a live root, both or neither; none without such a sample. */
  ghost predicate LastLiveReported(samples: seq<Sample>, sums: seq<Leaf>, l: LastLive)
    requires |sums| == |samples|
  {
    && (forall k | LastLiveAt(samples, k) ::
          l == if sums[k].Num? then LastLive(Some(sums[k].n), samples[k].wallTime) else LastLive(None, None))
    && ((forall k | 0 <= k < |samples| :: !samples[k].live) ==> l == LastLive(None, None))
  }

  ghost predicate MemoryReported(samples: seq<Sample>, m: Memory) {
    var workingSets, privates := Recorded(samples, WorkingSetBytes), Recorded(samples, PrivateBytes);
    && LargestOf(workingSets, m.peakWorkingSet) && LargestOf(privates, m.peakPrivate)
    && LastLiveReported(samples, workingSets, m.lastWorkingSet)
    && LastLiveReported(samples, privates, m.lastPrivate)
  }

  /** What was recorded for a sample is what the summariser recomputes. */
  ghost predicate Witnessed(samples: seq<Sample>, sums: seq<Leaf>, f: Field)
    requires |sums| == |samples|
  {
    forall k | 0 <= k < |samples| :: SumOf(samples[k], f).Ok? && WitnessOk(sums[k], SumOf(samples[k], f).value)
  }

  lemma SumsAreWitnessed(b: Bundle, f: Field)
    requires Accounting.AcceptedV2(b) && (f == WorkingSetBytes || f == PrivateBytes)
    ensures Witnessed(b.samples, Recorded(b.samples, f), f)
  {
    hide SumOf, WitnessOk, AvailabilityOk, RowsOk, HeaderOk, HandlesOf, DeclarationsOk, PointsOk, NothingIdle,
      TerminalOk, ManifestOk;
    forall k | 0 <= k < |b.samples|
      ensures SumOf(b.samples[k], f).Ok? && WitnessOk(Recorded(b.samples, f)[k], SumOf(b.samples[k], f).value)
    {
      assert SampleOk(b.samples[k], k, b.events, true);
    }
  }

  lemma PeakIsLargest(samples: seq<Sample>, sums: seq<Leaf>, f: Field, peak: Option<u64>)
    requires samples != [] && |sums| == |samples| && Witnessed(samples, sums, f)
    requires PeakIs(samples, |samples|, f, peak)
    ensures LargestOf(sums, peak)
  {
    hide SumOf;
    assert forall k | 0 <= k < |samples| :: sums[k].Num? <==> HasSum(samples[k], f);
    if peak.Some? {
      var k :| 0 <= k < |samples| && (SumOf(samples[k], f).value.value == peak.value || (peak.value == 0 && k == 0));
      assert HasSum(samples[k], f);
      assert sums[k] == Num(peak.value);
    }
  }

  lemma LastLiveIsReported(samples: seq<Sample>, sums: seq<Leaf>, f: Field, l: LastLive)
    requires |sums| == |samples| && Witnessed(samples, sums, f) && LastLiveIs(samples, |samples|, f, l)
    ensures LastLiveReported(samples, sums, l)
  {
    hide SumOf;
    var k := LastLiveIndex(samples, |samples|);
    forall i | LastLiveAt(samples, i)
      ensures i == k
    {
    }
  }

  lemma MemoryIsReported(b: Bundle, s: Summary)
    requires Accounting.AcceptedV2(b) && Describes(b, s)
    ensures MemoryReported(b.samples, s.memory)
  {
    hide Accounting.AcceptedV2, Witnessed, LargestOf, LastLiveReported, PeakIs, LastLiveIs, TerminalIs, CpuIs,
      PopulationIs, ValidityOf, CompletenessOf, RetentionDegraded, IsV2, MaxGapIs;
    V2Summary(b);
    var workingSets, privates := Recorded(b.samples, WorkingSetBytes), Recorded(b.samples, PrivateBytes);
    SumsAreWitnessed(b, WorkingSetBytes);
    SumsAreWitnessed(b, PrivateBytes);
    PeakIsLargest(b.samples, workingSets, WorkingSetBytes, s.memory.peakWorkingSet);
    PeakIsLargest(b.samples, privates, PrivateBytes, s.memory.peakPrivate);
    LastLiveIsReported(b.samples, workingSets, WorkingSetBytes, s.memory.lastWorkingSet);
    LastLiveIsReported(b.samples, privates, PrivateBytes, s.memory.lastPrivate);
  }

  // ---- Population ------------------------------------------------------------------------------

  /** The process ids of all rows of the first `n` samples. */
  function RowIds(samples: seq<Sample>, n: int): set<u64>
    requires n <= |samples|
  {
    set o, j | 0 <= o < n && samples[o].rows.Some? && 0 <= j < |samples[o].rows.value| &&
               samples[o].rows.value[j].id.Num? :: samples[o].rows.value[j].id.n
  }

  lemma {:induction false} RowIdsAreObserved(samples: seq<Sample>, n: nat)
    requires n <= |samples|
    ensures ObservedIds(samples, n) == RowIds(samples, n)
  {
    if n > 0 {
      RowIdsAreObserved(samples, n - 1);
      RowIdsGrow(samples, n);
    }
  }

  lemma RowIdsGrow(samples: seq<Sample>, n: nat)
    requires 0 < n <= |samples|
    ensures RowIds(samples, n) == RowIds(samples, n - 1) + IdsIn(samples[n - 1])
  {
    var last := samples[n - 1];
    forall id: u64
      ensures id in RowIds(samples, n) <==> id in RowIds(samples, n - 1) || id in IdsIn(last)
    {
      if id in IdsIn(last) {
        var j :| 0 <= j < |RowsOf(last)| && RowsOf(last)[j].id == Num(id);
        assert samples[n - 1].rows.value[j].id == Num(id);
      }
      if id in RowIds(samples, n) {
        var o, j :| 0 <= o < n && samples[o].rows.Some? && 0 <= j < |samples[o].rows.value| &&
          samples[o].rows.value[j].id == Num(id);
        assert o < n - 1 || RowsOf(last)[j].id == Num(id);
      }
    }
  }

  function RowCount(s: Sample): nat {
    if s.rows.Some? then |s.rows.value| else 0
  }

  function ProbeHandles(samples: seq<Sample>): (hs: seq<Leaf>)
    ensures |hs| == |samples|
    ensures forall k | 0 <= k < |hs| ::
              hs[k] == if samples[k].probe.Some? then Get(samples[k].probe.value, HandleCount) else Absent
  {
    seq(|samples|, k requires 0 <= k < |samples| =>
      if samples[k].probe.Some? then Get(samples[k].probe.value, HandleCount) else Absent)
  }

  predicate PopulationReported(samples: seq<Sample>, p: Population) {
    && (forall k | 0 <= k < |samples| :: RowCount(samples[k]) <= p.maxObserved)
    && (exists k | 0 <= k < |samples| :: RowCount(samples[k]) == p.maxObserved)
    && p.distinct == |RowIds(samples, |samples|)|
    && LargestOf(ProbeHandles(samples), p.maxProbeHandles)
  }

  lemma PopulationIsReported(b: Bundle, s: Summary)
    requires Accounting.AcceptedV2(b) && Describes(b, s)
    ensures PopulationReported(b.samples, s.population)
  {
    hide Accounting.AcceptedV2, LargestOf, TerminalIs, CpuIs, MemoryIs, MaxHandlesIs, MaxObservedIs, ValidityOf,
      CompletenessOf, RetentionDegraded, IsV2, MaxGapIs;
    V2Summary(b);
    RowIdsAreObserved(b.samples, |b.samples|);
    MostRows(b.samples, s.population.maxObserved);
    HandlesAreReadable(b);
    MostHandles(b.samples, s.population.maxProbeHandles);
  }

  lemma MostRows(samples: seq<Sample>, p: nat)
    requires samples != [] && MaxObservedIs(samples, |samples|, p)
    ensures forall k | 0 <= k < |samples| :: RowCount(samples[k]) <= p
    ensures exists k | 0 <= k < |samples| :: RowCount(samples[k]) == p
  {
    assert forall k | 0 <= k < |samples| :: RowCount(samples[k]) == |RowsOf(samples[k])|;
    if p == 0 {
      assert RowCount(samples[0]) == 0;
    }
  }

  lemma HandlesAreReadable(b: Bundle)
    requires Accounting.AcceptedV2(b)
    ensures forall k | 0 <= k < |b.samples| :: HandlesOf(b.samples[k]).Ok?
  {
    hide HandlesOf, AvailabilityOk, RowsOk, HeaderOk, SumsOk, DeclarationsOk, PointsOk, NothingIdle, TerminalOk,
      ManifestOk;
    forall k | 0 <= k < |b.samples|
      ensures HandlesOf(b.samples[k]).Ok?
    {
      assert SampleOk(b.samples[k], k, b.events, true);
    }
  }

  lemma MostHandles(samples: seq<Sample>, h: Option<u64>)
    requires samples != [] && MaxHandlesIs(samples, |samples|, h)
    requires forall k | 0 <= k < |samples| :: HandlesOf(samples[k]).Ok?
    ensures LargestOf(ProbeHandles(samples), h)
  {
    var hs := ProbeHandles(samples);
    forall k | 0 <= k < |samples|
      ensures hs[k].Num? <==> HasHandles(samples[k])
      ensures hs[k].Num? ==> HandlesOf(samples[k]).value.value == hs[k].n
    {
    }
    if h.Some? {
      var k :| 0 <= k < |samples| && (HandlesOf(samples[k]).value.value == h.value || (h.value == 0 && k == 0));
      assert hs[k] == Num(h.value);
    }
  }

  // ---- The root's exit and the status ----------------------------------------------------------

  function Given(l: Leaf): Option<u64> {
    match l
    case Num(n) => Some(n)
    case _ => None
  }

  ghost predicate TerminalReported(events: seq<Event>, t: Terminal) {
    && (forall i | 0 <= i < |events| && RootExited(events[i]) ::
          var e := events[i];
          && t.exitCode == Given(e.exitCode) && t.userTime == Given(e.userTime) && t.kernelTime == Given(e.kernelTime)
          && t.readBytes == Given(e.readBytes) && t.writeBytes == Given(e.writeBytes)
          && t.fidelity == if e.fidelity.Text? then Some(e.fidelity.value) else None)
    && ((forall i | 0 <= i < |events| :: !RootExited(events[i])) ==> t == Terminal(None, None, None, None, None, None))
  }

  lemma TerminalIsReported(b: Bundle, s: Summary)
    requires Accounting.AcceptedV2(b) && Describes(b, s)
    ensures TerminalReported(b.events, s.terminal)
  {
    hide Accounting.AcceptedV2, CpuIs, MemoryIs, PopulationIs, ValidityOf, CompletenessOf, RetentionDegraded, IsV2,
      MaxGapIs, SamplesRule, DeclarationsRule, AllUsed, JobsRule, FinalJobRule, ExitRule, Identified;
    AcceptedObeys(b);
    V2Summary(b);
    FirstMatchUnique(b.events, RootExit());
    forall i | 0 <= i < |b.events| && RootExited(b.events[i])
      ensures FirstMatch(b.events, RootExit()) == Some(b.events[i])
    {
      assert b.events[i] in b.events && RootExit()(b.events[i]);
      var e := FirstMatch(b.events, RootExit()).value;
      var k :| 0 <= k < |b.events| && b.events[k] == e;
    }
  }

  lemma V2Summary(b: Bundle)
    requires Accounting.AcceptedV2(b)
    ensures IsV2(b) && b.samples != []
  {
  }

  ghost predicate Reports(b: Bundle, s: Summary)
    requires b.samples != []
  {
    && s.v2 && TimeReported(b.samples, s.timing) && MemoryReported(b.samples, s.memory)
    && JobReported(b.samples, s) && PeakReported(b.samples, s.cpu.peak) && PopulationReported(b.samples, s.population)
    && TerminalReported(b.events, s.terminal)
    && (s.status.retentionDegraded <==> CollectorDegradation(true) in b.events)
    && s.status.validity == ValidityRule(b.events) && s.status.completeness == CompletenessRule(b.events)
  }

  /** The summary of accepted v2 evidence reports exactly what the records hold. */
  lemma SummaryReports(b: Bundle, s: Summary)
    requires Accounting.AcceptedV2(b) && b.samples != [] && Describes(b, s)
    ensures Reports(b, s)
  {
    hide Accepted, IsV2, TimeReported, MemoryReported, JobReported, PeakReported, PopulationReported, TerminalReported,
      ValidityRule, CompletenessRule, ValidityOf, CompletenessOf, MemoryIs, IoIs, PopulationIs, TerminalIs, MaxGapIs,
      TimingIs, PeakUtilizationIs, JobsRule, DeclarationsRule, SamplesRule, AllUsed, FinalJobRule, TerminalRule;
    TimeIsReported(b, s);
    MemoryIsReported(b, s);
    JobIsReported(b, s);
    AcceptedObeys(b);
    PeakIsReported(b.samples, s.cpu.peak);
    PopulationIsReported(b, s);
    TerminalIsReported(b, s);
    StatusExactly(b);
  }
}
