/**
 * What the summariser promises about one bundle, stated over the whole bundle: which bundles it
 * accepts (`Accepted`) and what every field of the summary means (`Describes`).
 */
module SummarySpec {
  import opened Prelude
  import opened Records

  // ---- Strict readers ------------------------------------------------------------------------

  function RequiredU64(l: Leaf): Result<u64> {
    if l.Num? then Ok(l.n) else Err
  }

  function OptionalU64(l: Leaf): Result<Option<u64>> {
    match l
    case Absent => Ok(None)
    case Num(n) => Ok(Some(n))
    case _ => Err
  }

  function OptionalU32(l: Leaf): Result<Option<u64>> {
    if l.Num? && l.n > U32_MAX then Err else OptionalU64(l)
  }

  /** `optional_metric_u64`: the two count fields are 32-bit. */
  function MetricValue(f: Field, l: Leaf): Result<Option<u64>> {
    if f.ThreadCount? || f.HandleCount? then OptionalU32(l) else OptionalU64(l)
  }

  /** `nullable_gap_u64`: the one numeric field for which null means absent. */
  function GapValue(l: Leaf): Result<Option<u64>> {
    if l.Null? then Ok(None) else OptionalU64(l)
  }

  // ---- Process identity authority ------------------------------------------------------------

  /** Fields are read left to right and reading stops at the first zero. */
  predicate RecordReadable(p: ProcessRecord) {
    && p.id.Num?
    && p.pid.Num? && p.pid.n <= U32_MAX
    && (p.pid.n != 0 ==> p.startTime.Num? && (p.startTime.n != 0 ==> p.boot.Text?))
  }

  predicate RecordValid(p: ProcessRecord) {
    && p.pid.Num? && p.pid.n != 0
    && p.startTime.Num? && p.startTime.n != 0
    && p.boot.Text? && p.boot.value != ""
  }

  function HasId(id: u64): ProcessRecord -> bool {
    (p: ProcessRecord) => p.id == Num(id)
  }

  /** Exactly one record carries the id, and it is a complete identity. */
  predicate Authority(processes: seq<ProcessRecord>, id: u64) {
    && Count(processes, HasId(id)) == 1
    && exists p :: p in processes && p.id == Num(id) && RecordValid(p)
  }

  // ---- Declarations of unavailability --------------------------------------------------------

  datatype Decl = Decl(metric: Metric, subject: Subject, reason: Reason, process: Option<u64>, sample: Option<u64>)

  datatype Key = Key(metric: Metric, subject: Subject, process: Option<u64>, sample: Option<u64>)

  function KeyOf(d: Decl): Key {
    Key(d.metric, d.subject, d.process, d.sample)
  }

  function NumOrNone(l: Leaf): Option<u64> {
    if l.Num? then Some(l.n) else None
  }

  function DeclOf(e: Event): Decl
    requires e.MetricUnavailable?
  {
    var subject := if e.subject.Text? then e.subject.value else OtherSubject;
    Decl(
      if e.metric.Text? then e.metric.value else Metric(SystemDomain, ThreadCount),
      subject,
      if e.reason.Text? then e.reason.value else OtherReason,
      if subject.ProcessSubject? || subject.ProcessSampleSubject? then NumOrNone(e.processId) else None,
      if subject.SampleSubject? || subject.ProcessSampleSubject? then NumOrNone(e.ordinal) else None)
  }

  function RowsOf(s: Sample): seq<Row> {
    if s.rows.Some? then s.rows.value else []
  }

  predicate InSample(s: Sample, id: u64) {
    exists j :: 0 <= j < |RowsOf(s)| && RowsOf(s)[j].id == Num(id)
  }

  predicate Operational(r: Reason) {
    r.AuthorityUnavailable? || r.SamplingDegraded?
  }

  /** The subject suits the metric's domain, and the reason suits the subject. */
  predicate SubjectSuits(d: Decl) {
    && !d.subject.OtherSubject?
    && !d.reason.OtherReason?
    && (d.metric.domain.ProcessDomain? ==> !d.subject.SampleSubject?)
    && (!d.metric.domain.ProcessDomain? ==> d.subject.RunSubject? || d.subject.SampleSubject?)
    && (!Operational(d.reason) ==> d.subject.RunSubject?)
    && (Operational(d.reason) ==> d.subject.SampleSubject? || d.subject.ProcessSampleSubject?)
  }

  predicate DeclarationOk(e: Event, samples: seq<Sample>, processes: seq<ProcessRecord>)
    requires e.MetricUnavailable?
  {
    var d := DeclOf(e);
    && e.metric.Text? && Known(e.metric.value) && e.subject.Text? && e.reason.Text?
    && SubjectSuits(d)
    && (d.subject.ProcessSubject? || d.subject.ProcessSampleSubject? ==> d.process.Some?)
    && (d.subject.SampleSubject? || d.subject.ProcessSampleSubject? ==> d.sample.Some? && d.sample.value < |samples|)
    && (d.process.Some? ==> Authority(processes, d.process.value))
    && (d.process.Some? && d.sample.Some? ==> InSample(samples[d.sample.value], d.process.value))
  }

  predicate SameKey(e: Event, f: Event) {
    e.MetricUnavailable? && f.MetricUnavailable? && KeyOf(DeclOf(e)) == KeyOf(DeclOf(f))
  }

  ghost predicate DeclarationsOk(b: Bundle) {
    && (forall i | 0 <= i < |b.events| && b.events[i].MetricUnavailable? ::
          DeclarationOk(b.events[i], b.samples, b.processes))
    && (forall i, j | 0 <= i < j < |b.events| :: !SameKey(b.events[i], b.events[j]))
  }

  predicate Applies(d: Decl, m: Metric, ordinal: int, process: Option<u64>) {
    && d.metric == m
    && match d.subject
       case RunSubject => true
       case ProcessSubject => process == d.process
       case SampleSubject => d.sample.Some? && d.sample.value == ordinal
       case ProcessSampleSubject => process == d.process && d.sample.Some? && d.sample.value == ordinal
       case OtherSubject => false
  }

  predicate Explains(e: Event, m: Metric, ordinal: int, process: Option<u64>) {
    e.MetricUnavailable? && Applies(DeclOf(e), m, ordinal, process)
  }

  function Explaining(m: Metric, ordinal: int, process: Option<u64>): Event -> bool {
    (e: Event) => Explains(e, m, ordinal, process)
  }

  function Explanations(events: seq<Event>, m: Metric, ordinal: int, process: Option<u64>): nat {
    Count(events, Explaining(m, ordinal, process))
  }

  // ---- Observations: the metric cells of a sample ----------------------------------------------

  function ObsCount(s: Sample, m: Metric): nat {
    match m.domain
    case ProcessDomain => |RowsOf(s)|
    case ProbeDomain => if s.probe.Some? then 1 else 0
    case SystemDomain => if s.system.Some? then 1 else 0
  }

  function ObsLeaf(s: Sample, m: Metric, j: int): Leaf
    requires 0 <= j < ObsCount(s, m)
  {
    match m.domain
    case ProcessDomain => Get(RowsOf(s)[j].cells, m.field)
    case ProbeDomain => Get(s.probe.value, m.field)
    case SystemDomain => Get(s.system.value, m.field)
  }

  function ObsProcess(s: Sample, m: Metric, j: int): Option<u64>
    requires 0 <= j < ObsCount(s, m)
  {
    if m.domain.ProcessDomain? then NumOrNone(RowsOf(s)[j].id) else None
  }

  /** A numeric cell has no explanation and an absent one has exactly one. */
  predicate CellOk(events: seq<Event>, s: Sample, ordinal: int, m: Metric, j: int)
    requires 0 <= j < ObsCount(s, m)
  {
    var v := MetricValue(m.field, ObsLeaf(s, m, j));
    v.Ok? && Explanations(events, m, ordinal, ObsProcess(s, m, j)) == if v.value.None? then 1 else 0
  }

  ghost predicate AvailabilityOk(events: seq<Event>, s: Sample, ordinal: int) {
    && s.probe.Some? && s.system.Some?
    && forall m, j | Known(m) && 0 <= j < ObsCount(s, m) :: CellOk(events, s, ordinal, m, j)
  }

  predicate Omitted(s: Sample, m: Metric, j: int) {
    Known(m) && 0 <= j < ObsCount(s, m) && ObsLeaf(s, m, j).Absent?
  }

  /** The declaration accounts for cell `j` of sample `o`. */
  predicate Accounts(e: Event, samples: seq<Sample>, o: int, j: int)
    requires e.MetricUnavailable? && 0 <= o < |samples|
  {
    var m := DeclOf(e).metric;
    Omitted(samples[o], m, j) && Explains(e, m, o, ObsProcess(samples[o], m, j))
  }

  ghost predicate ExplainsSomething(e: Event, samples: seq<Sample>)
    requires e.MetricUnavailable?
  {
    exists o, j :: 0 <= o < |samples| && Accounts(e, samples, o, j)
  }

  // ---- One sample ------------------------------------------------------------------------------

  predicate RowsOk(s: Sample) {
    && s.rows.Some?
    && (forall j | 0 <= j < |RowsOf(s)| :: RowsOf(s)[j].id.Num?)
    && (forall j, k | 0 <= j < k < |RowsOf(s)| :: RowsOf(s)[j].id != RowsOf(s)[k].id)
  }

  /** The historic reader's only claim: a known field that is present is well formed. */
  ghost predicate PresentMetricsOk(s: Sample) {
    forall m | Known(m) :: PresentMetricOk(s, m)
  }

  ghost predicate PresentMetricOk(s: Sample, m: Metric) {
    forall j | 0 <= j < ObsCount(s, m) :: MetricValue(m.field, ObsLeaf(s, m, j)).Ok?
  }

  /** `sum_optional` over the first `n` rows: checked addition until the first absent field. */
  function SumFirst(rows: seq<Row>, f: Field, n: nat): Result<Option<u64>>
    requires n <= |rows|
  {
    if n == 0 then Ok(Some(0))
    else
      var sum := SumFirst(rows, f, n - 1);
      var value := OptionalU64(Get(rows[n - 1].cells, f));
      if sum.Err? || value.Err? then Err
      else if sum.value.None? || value.value.None? then Ok(None)
      else match CheckedAdd(sum.value.value, value.value.value)
        case None => Err
        case Some(total) => Ok(Some(total))
  }

  function SumOptional(rows: seq<Row>, f: Field): Result<Option<u64>> {
    SumFirst(rows, f, |rows|)
  }

  function SumOf(s: Sample, f: Field): Result<Option<u64>> {
    SumOptional(RowsOf(s), f)
  }

  /** `witness`: the recorded sum is there exactly when the recomputed one is, with the same value. */
  predicate WitnessOk(recorded: Leaf, expected: Option<u64>) {
    recorded == if expected.Some? then Num(expected.value) else Absent
  }

  function HandlesOf(s: Sample): Result<Option<u64>> {
    if s.probe.Some? then OptionalU32(Get(s.probe.value, HandleCount)) else Ok(None)
  }

  predicate JobOk(j: Job) {
    j.userTime.Num? && j.kernelTime.Num? && j.userTime.n + j.kernelTime.n <= U64_MAX
  }

  predicate HeaderOk(s: Sample) {
    s.isSample && s.monotonic.Num? && GapValue(s.gap).Ok?
  }

  ghost predicate MetricsOk(s: Sample, ordinal: int, events: seq<Event>, v2: bool) {
    if v2 then AvailabilityOk(events, s, ordinal) else PresentMetricsOk(s)
  }

  predicate SumsOk(s: Sample, v2: bool) {
    && SumOf(s, WorkingSetBytes).Ok? && SumOf(s, PrivateBytes).Ok?
    && (v2 ==> WitnessOk(s.workingSetSum, SumOf(s, WorkingSetBytes).value))
    && (v2 ==> WitnessOk(s.privateSum, SumOf(s, PrivateBytes).value))
  }

  ghost predicate SampleOk(s: Sample, ordinal: int, events: seq<Event>, v2: bool) {
    && HeaderOk(s) && RowsOk(s) && MetricsOk(s, ordinal, events, v2) && SumsOk(s, v2) && HandlesOf(s).Ok?
    && (s.job.Some? ==> JobOk(s.job.value))
  }

  // ---- The job counters over time --------------------------------------------------------------

  datatype JobPoint = JobPoint(t: int, cpu: int)

  function NumOrZero(l: Leaf): int {
    if l.Num? then l.n else 0
  }

  function CpuOf(j: Job): int {
    NumOrZero(j.userTime) + NumOrZero(j.kernelTime)
  }

  /** The (time, cpu) points of the first `n` samples that carry a job. */
  function JobPoints(samples: seq<Sample>, n: nat): seq<JobPoint>
    requires n <= |samples|
  {
    if n == 0 then []
    else
      var s := samples[n - 1];
      JobPoints(samples, n - 1) + (if s.job.Some? then [JobPoint(NumOrZero(s.monotonic), CpuOf(s.job.value))] else [])
  }

  predicate StepOk(a: JobPoint, b: JobPoint) {
    a.t <= b.t && (a.t < b.t ==> a.cpu <= b.cpu)
  }

  predicate StepOkAt(ps: seq<JobPoint>, k: int)
    requires 0 < k < |ps|
  {
    StepOk(ps[k - 1], ps[k])
  }

  /** Time never goes back, and CPU does not shrink while time advances. */
  ghost predicate PointsOk(ps: seq<JobPoint>) {
    forall k | 0 < k < |ps| :: StepOkAt(ps, k)
  }

  /** Time advances from point `k - 1` to point `k`. */
  predicate Advances(ps: seq<JobPoint>, k: int) {
    0 < k < |ps| && ps[k - 1].t < ps[k].t
  }

  function Utilization(ps: seq<JobPoint>, k: int): real
    requires Advances(ps, k)
  {
    (ps[k].cpu - ps[k - 1].cpu) as real / (ps[k].t - ps[k - 1].t) as real
  }

  /** The largest utilisation over a consecutive pair with advancing time. */
  ghost predicate PeakUtilizationIs(ps: seq<JobPoint>, peak: Option<real>) {
    match peak
    case None => forall k :: !Advances(ps, k)
    case Some(p) =>
      && (forall k | Advances(ps, k) :: Utilization(ps, k) <= p)
      && (exists k :: Advances(ps, k) && Utilization(ps, k) == p)
  }

  function LastJob(samples: seq<Sample>, n: nat): Option<Job>
    requires n <= |samples|
  {
    if n == 0 then None
    else if samples[n - 1].job.Some? then samples[n - 1].job
    else LastJob(samples, n - 1)
  }

  predicate FinalJobOk(j: Job) {
    && JobOk(j) && j.readBytes.Num? && j.writeBytes.Num?
    && j.readOperations.Num? && j.writeOperations.Num? && j.totalProcesses.Num?
  }

  // ---- Terminal event, status, manifest --------------------------------------------------------

  function RootExit(): Event -> bool {
    (e: Event) => e.ExitObserved? && e.process == Num(1)
  }

  function AnyExit(): Event -> bool {
    (e: Event) => e.ExitObserved?
  }

  function TerminalEvent(events: seq<Event>, v2: bool): Option<Event> {
    var root := FirstMatch(events, RootExit());
    if root.Some? || v2 then root else FirstMatch(events, AnyExit())
  }

  predicate TerminalReadable(e: Event)
    requires e.ExitObserved?
  {
    && OptionalU32(e.exitCode).Ok? && OptionalU64(e.userTime).Ok? && OptionalU64(e.kernelTime).Ok?
    && OptionalU64(e.readBytes).Ok? && OptionalU64(e.writeBytes).Ok? && !e.fidelity.BadText?
  }

  ghost predicate TerminalOk(events: seq<Event>, processes: seq<ProcessRecord>, v2: bool) {
    && (v2 ==> Count(events, RootExit()) <= 1)
    && (v2 && Count(events, RootExit()) == 1 ==> Authority(processes, 1))
    && (var t := TerminalEvent(events, v2); t.Some? ==> t.value.ExitObserved? && TerminalReadable(t.value))
  }

  predicate RetentionDegraded(events: seq<Event>) {
    exists e :: e in events && e.CollectorDegradation? && e.retention
  }

  ghost predicate AnyOmission(samples: seq<Sample>, n: int) {
    exists o, m, j :: 0 <= o < n <= |samples| && Omitted(samples[o], m, j)
  }

  ghost predicate OperationalOmission(samples: seq<Sample>, n: int, events: seq<Event>) {
    exists o, j, e :: 0 <= o < n <= |samples| && e in events && e.MetricUnavailable? &&
      Operational(DeclOf(e).reason) && Accounts(e, samples, o, j)
  }

  predicate IsV2(b: Bundle) {
    exists s :: s in b.samples && s.v2
  }

  ghost function ValidityOf(b: Bundle): Validity {
    if RetentionDegraded(b.events) || (IsV2(b) && OperationalOmission(b.samples, |b.samples|, b.events))
    then Degraded else Valid
  }

  ghost function CompletenessOf(b: Bundle): Completeness {
    if IsV2(b) && AnyOmission(b.samples, |b.samples|) then DeclaredPartial else Complete
  }

  ghost predicate ManifestOk(b: Bundle) {
    match b.manifest
    case NoManifest => true
    case UnreadableManifest => false
    case Manifest(v2, validity, completeness) =>
      v2 ==> IsV2(b) && validity == Text(ValidityOf(b)) && completeness == Text(CompletenessOf(b))
  }

  // ---- Acceptance ------------------------------------------------------------------------------

  ghost predicate SchemaUniform(b: Bundle) {
    IsV2(b) ==> forall s | s in b.samples :: s.v2
  }

  ghost predicate RecordsReadable(processes: seq<ProcessRecord>) {
    forall i | 0 <= i < |processes| :: RecordReadable(processes[i])
  }

  ghost predicate AllSamplesOk(samples: seq<Sample>, n: int, events: seq<Event>, v2: bool) {
    forall o | 0 <= o < n <= |samples| :: SampleOk(samples[o], o, events, v2)
  }

  ghost predicate NothingIdle(b: Bundle) {
    forall i | 0 <= i < |b.events| && b.events[i].MetricUnavailable? :: ExplainsSomething(b.events[i], b.samples)
  }

  predicate FinalJobReadable(samples: seq<Sample>) {
    var job := LastJob(samples, |samples|);
    job.Some? ==> FinalJobOk(job.value)
  }

  predicate Ordered(samples: seq<Sample>) {
    samples != [] && NumOrZero(samples[0].monotonic) <= NumOrZero(samples[|samples| - 1].monotonic)
  }

  ghost predicate Accepted(b: Bundle) {
    && b.samples != []
    && SchemaUniform(b)
    && RecordsReadable(b.processes)
    && (IsV2(b) ==> DeclarationsOk(b))
    && AllSamplesOk(b.samples, |b.samples|, b.events, IsV2(b))
    && PointsOk(JobPoints(b.samples, |b.samples|))
    && (IsV2(b) ==> NothingIdle(b))
    && FinalJobReadable(b.samples)
    && TerminalOk(b.events, b.processes, IsV2(b))
    && Ordered(b.samples)
    && ManifestOk(b)
  }

  // ---- Meaning of the summary ------------------------------------------------------------------

  datatype Timing = Timing(elapsedNs: u64, sampleCount: nat, maxSampleGapNs: u64)
  datatype LastLive = LastLive(value: Option<u64>, time: Option<string>)
  datatype Memory = Memory(peakWorkingSet: Option<u64>, peakPrivate: Option<u64>,
                           lastWorkingSet: LastLive, lastPrivate: LastLive)
  datatype Cpu = Cpu(total: Option<u64>, average: Option<real>, peak: Option<real>)
  datatype Io = Io(readBytes: Option<u64>, writeBytes: Option<u64>,
                   readOperations: Option<u64>, writeOperations: Option<u64>)
  datatype Population = Population(maxObserved: nat, distinct: nat, jobTotal: Option<u64>,
                                   withoutIdentity: Option<nat>, maxProbeHandles: Option<u64>)
  datatype Terminal = Terminal(exitCode: Option<u64>, userTime: Option<u64>, kernelTime: Option<u64>,
                               readBytes: Option<u64>, writeBytes: Option<u64>, fidelity: Option<string>)
  datatype Status = Status(retentionDegraded: bool, validity: Validity, completeness: Completeness)
  datatype Summary = Summary(v2: bool, timing: Timing, memory: Memory, cpu: Cpu, io: Io,
                             population: Population, terminal: Terminal, status: Status)

  function GapOf(s: Sample): u64 {
    if GapValue(s.gap).Ok? && GapValue(s.gap).value.Some? then GapValue(s.gap).value.value else 0
  }

  ghost predicate MaxGapIs(samples: seq<Sample>, n: int, g: int) {
    && 0 <= n <= |samples|
    && (forall k | 0 <= k < n :: GapOf(samples[k]) <= g)
    && (g == 0 || exists k :: 0 <= k < n && GapOf(samples[k]) == g)
  }

  predicate HasSum(s: Sample, f: Field) {
    SumOf(s, f).Ok? && SumOf(s, f).value.Some?
  }

  /** The peak is the largest per-sample sum, and there is one only if every sample has a sum. */
  ghost predicate PeakIs(samples: seq<Sample>, n: int, f: Field, peak: Option<u64>) {
    && 0 <= n <= |samples|
    && (peak.Some? <==> forall k | 0 <= k < n :: HasSum(samples[k], f))
    && (peak.Some? ==>
          && (forall k | 0 <= k < n :: SumOf(samples[k], f).value.value <= peak.value)
          && (peak.value == 0 || exists k :: 0 <= k < n && SumOf(samples[k], f).value.value == peak.value))
  }

  /** The last of the first `n` samples that confirms the root live, or -1. */
  function LastLiveIndex(samples: seq<Sample>, n: nat): (k: int)
    requires n <= |samples|
    ensures -1 <= k < n
    ensures k >= 0 ==> samples[k].live
    ensures forall i | k < i < n :: !samples[i].live
  {
    if n == 0 then -1 else if samples[n - 1].live then n - 1 else LastLiveIndex(samples, n - 1)
  }

  /** Value and time come from the last live sample, never from an older one. */
  predicate LastLiveIs(samples: seq<Sample>, n: nat, f: Field, l: LastLive)
    requires n <= |samples|
  {
    var k := LastLiveIndex(samples, n);
    l == if k >= 0 && HasSum(samples[k], f) then LastLive(SumOf(samples[k], f).value, samples[k].wallTime)
         else LastLive(None, None)
  }

  ghost predicate MaxObservedIs(samples: seq<Sample>, n: int, p: nat) {
    && 0 <= n <= |samples|
    && (forall k | 0 <= k < n :: |RowsOf(samples[k])| <= p)
    && (p == 0 || exists k :: 0 <= k < n && |RowsOf(samples[k])| == p)
  }

  function IdsIn(s: Sample): set<u64> {
    set j | 0 <= j < |RowsOf(s)| && RowsOf(s)[j].id.Num? :: RowsOf(s)[j].id.n
  }

  function ObservedIds(samples: seq<Sample>, n: nat): set<u64>
    requires n <= |samples|
  {
    if n == 0 then {} else ObservedIds(samples, n - 1) + IdsIn(samples[n - 1])
  }

  predicate HasHandles(s: Sample) {
    HandlesOf(s).Ok? && HandlesOf(s).value.Some?
  }

  ghost predicate MaxHandlesIs(samples: seq<Sample>, n: int, h: Option<u64>) {
    && 0 <= n <= |samples|
    && (h.Some? <==> forall k | 0 <= k < n :: HasHandles(samples[k]))
    && (h.Some? ==>
          && (forall k | 0 <= k < n :: HandlesOf(samples[k]).value.value <= h.value)
          && (h.value == 0 || exists k :: 0 <= k < n && HandlesOf(samples[k]).value.value == h.value))
  }

  ghost predicate MemoryIs(samples: seq<Sample>, n: nat, m: Memory)
    requires n <= |samples|
  {
    && PeakIs(samples, n, WorkingSetBytes, m.peakWorkingSet)
    && PeakIs(samples, n, PrivateBytes, m.peakPrivate)
    && LastLiveIs(samples, n, WorkingSetBytes, m.lastWorkingSet)
    && LastLiveIs(samples, n, PrivateBytes, m.lastPrivate)
  }

  predicate TimingIs(samples: seq<Sample>, elapsed: int)
    requires samples != []
  {
    elapsed == NumOrZero(samples[|samples| - 1].monotonic) - NumOrZero(samples[0].monotonic)
  }

  ghost predicate CpuIs(samples: seq<Sample>, elapsed: int, c: Cpu) {
    var job := LastJob(samples, |samples|);
    && (c.total.Some? <==> job.Some?)
    && (job.Some? ==> c.total.value == CpuOf(job.value))
    && c.average == (if job.Some? && elapsed > 0 then Some(CpuOf(job.value) as real / elapsed as real) else None)
    && PeakUtilizationIs(JobPoints(samples, |samples|), c.peak)
  }

  predicate IoIs(samples: seq<Sample>, io: Io) {
    var job := LastJob(samples, |samples|);
    io == if job.Some? then Io(NumOrNone(job.value.readBytes), NumOrNone(job.value.writeBytes),
                               NumOrNone(job.value.readOperations), NumOrNone(job.value.writeOperations))
          else Io(None, None, None, None)
  }

  /** Processes the job counted beyond those with an observed identity; never negative. */
  function Unidentified(jobTotal: Option<u64>, distinct: nat): Option<nat> {
    if jobTotal.None? then None else Some(if jobTotal.value < distinct then 0 else jobTotal.value - distinct)
  }

  ghost predicate PopulationIs(samples: seq<Sample>, p: Population) {
    var job := LastJob(samples, |samples|);
    && MaxObservedIs(samples, |samples|, p.maxObserved)
    && p.distinct == |ObservedIds(samples, |samples|)|
    && p.jobTotal == (if job.Some? then NumOrNone(job.value.totalProcesses) else None)
    && p.withoutIdentity == Unidentified(p.jobTotal, p.distinct)
    && MaxHandlesIs(samples, |samples|, p.maxProbeHandles)
  }

  predicate TerminalIs(events: seq<Event>, v2: bool, t: Terminal) {
    var e := TerminalEvent(events, v2);
    t == if e.Some? && e.value.ExitObserved?
         then Terminal(NumOrNone(e.value.exitCode), NumOrNone(e.value.userTime), NumOrNone(e.value.kernelTime),
                       NumOrNone(e.value.readBytes), NumOrNone(e.value.writeBytes),
                       if e.value.fidelity.Text? then Some(e.value.fidelity.value) else None)
         else Terminal(None, None, None, None, None, None)
  }

  ghost predicate Describes(b: Bundle, s: Summary)
    requires b.samples != []
  {
    && s.v2 == IsV2(b)
    && TimingIs(b.samples, s.timing.elapsedNs)
    && s.timing.sampleCount == |b.samples|
    && MaxGapIs(b.samples, |b.samples|, s.timing.maxSampleGapNs)
    && MemoryIs(b.samples, |b.samples|, s.memory)
    && CpuIs(b.samples, s.timing.elapsedNs, s.cpu)
    && IoIs(b.samples, s.io)
    && PopulationIs(b.samples, s.population)
    && TerminalIs(b.events, IsV2(b), s.terminal)
    && s.status == Status(RetentionDegraded(b.events), ValidityOf(b), CompletenessOf(b))
  }
}
