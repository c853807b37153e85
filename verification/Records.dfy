/**
 * Evidence records as the summariser's readers see them. A field that the readers treat as a
 * number is a `Leaf`; it keeps apart every case they keep apart (missing, null, a u64, anything
 * else). A name that must be one of a fixed vocabulary is a `Text` over that vocabulary.
 */
module Records {
  import opened Prelude

  datatype Leaf = Absent | Null | Num(n: u64) | Malformed
  datatype Text<+T> = NoText | BadText | Text(value: T)

  // ---- Metrics -------------------------------------------------------------------------------

  datatype Domain = ProcessDomain | ProbeDomain | SystemDomain

  datatype Field =
    | WorkingSetBytes | PrivateBytes | UserCpuTimeNs | KernelCpuTimeNs
    | ReadBytes | WriteBytes | OtherBytes
    | ReadOperations | WriteOperations | OtherOperations
    | ThreadCount | HandleCount
    | SystemUserCpuTimeNs | SystemKernelCpuTimeNs | SystemIdleCpuTimeNs
    | AvailablePhysicalMemoryBytes | CommitCurrentBytes | CommitLimitBytes | DiskFreeBytes

  datatype Metric = Metric(domain: Domain, field: Field)

  const PROCESS_FIELDS: seq<Field> := [
    WorkingSetBytes, PrivateBytes, UserCpuTimeNs, KernelCpuTimeNs, ReadBytes, WriteBytes, OtherBytes,
    ReadOperations, WriteOperations, OtherOperations, ThreadCount, HandleCount]
  const PROBE_FIELDS: seq<Field> := [
    WorkingSetBytes, PrivateBytes, UserCpuTimeNs, KernelCpuTimeNs, ReadBytes, WriteBytes, ThreadCount, HandleCount]
  const SYSTEM_FIELDS: seq<Field> := [
    SystemUserCpuTimeNs, SystemKernelCpuTimeNs, SystemIdleCpuTimeNs, AvailablePhysicalMemoryBytes,
    CommitCurrentBytes, CommitLimitBytes, DiskFreeBytes]

  function InDomain(d: Domain, fields: seq<Field>): (ms: seq<Metric>)
    ensures |ms| == |fields|
    ensures forall i | 0 <= i < |ms| :: ms[i] == Metric(d, fields[i])
  {
    seq(|fields|, i requires 0 <= i < |fields| => Metric(d, fields[i]))
  }

  /** The metric table of the summariser, in its order. */
  function Metrics(): seq<Metric> {
    InDomain(ProcessDomain, PROCESS_FIELDS) + InDomain(ProbeDomain, PROBE_FIELDS) +
    InDomain(SystemDomain, SYSTEM_FIELDS)
  }

  predicate IsSystemField(f: Field) {
    f.SystemUserCpuTimeNs? || f.SystemKernelCpuTimeNs? || f.SystemIdleCpuTimeNs? ||
    f.AvailablePhysicalMemoryBytes? || f.CommitCurrentBytes? || f.CommitLimitBytes? || f.DiskFreeBytes?
  }

  predicate IsProcessOnlyField(f: Field) {
    f.OtherBytes? || f.ReadOperations? || f.WriteOperations? || f.OtherOperations?
  }

  /** The (domain, field) pairs that are metrics at all. */
  predicate Known(m: Metric) {
    match m.domain
    case ProcessDomain => !IsSystemField(m.field)
    case ProbeDomain => !IsSystemField(m.field) && !IsProcessOnlyField(m.field)
    case SystemDomain => IsSystemField(m.field)
  }

  lemma DomainTable(d: Domain, fields: seq<Field>, m: Metric)
    ensures m in InDomain(d, fields) <==> m.domain == d && m.field in fields
  {
    if m.domain == d && m.field in fields {
      var i :| 0 <= i < |fields| && fields[i] == m.field;
      assert InDomain(d, fields)[i] == m;
    }
  }

  /** The table lists exactly the known metrics. */
  lemma TableIsKnown(m: Metric)
    ensures m in Metrics() <==> Known(m)
  {
    DomainTable(ProcessDomain, PROCESS_FIELDS, m);
    DomainTable(ProbeDomain, PROBE_FIELDS, m);
    DomainTable(SystemDomain, SYSTEM_FIELDS, m);
    FieldTables(m.field);
  }

  lemma FieldTables(f: Field)
    ensures f in PROCESS_FIELDS <==> !IsSystemField(f)
    ensures f in PROBE_FIELDS <==> !IsSystemField(f) && !IsProcessOnlyField(f)
    ensures f in SYSTEM_FIELDS <==> IsSystemField(f)
  {
  }

  // ---- Streams -------------------------------------------------------------------------------

  /** The metric fields that a process row, the probe object or the system object carries. */
  type Cells = map<Field, Leaf>

  function Get(c: Cells, f: Field): Leaf {
    if f in c then c[f] else Absent
  }

  datatype Row = Row(id: Leaf, cells: Cells)

  datatype Job = Job(userTime: Leaf, kernelTime: Leaf, readBytes: Leaf, writeBytes: Leaf,
                     readOperations: Leaf, writeOperations: Leaf, totalProcesses: Leaf)

  datatype Sample = Sample(
    v2: bool,                    // schema_draft_version names the v2 draft
    isSample: bool,              // record_type is "sample"
    monotonic: Leaf,
    gap: Leaf,
    rows: Option<seq<Row>>,      // None when "processes" is not an array
    workingSetSum: Leaf,
    privateSum: Leaf,
    live: bool,                  // root_process_confirmed_live is true
    wallTime: Option<string>,
    probe: Option<Cells>,
    system: Option<Cells>,
    job: Option<Job>)

  datatype ProcessRecord = ProcessRecord(id: Leaf, pid: Leaf, startTime: Leaf, boot: Text<string>, parent: Leaf)

  datatype Subject = RunSubject | ProcessSubject | SampleSubject | ProcessSampleSubject | OtherSubject
  datatype Reason =
    Unsupported | NotApplicable | SemanticMismatch | AuthorityUnavailable | SamplingDegraded | OtherReason

  datatype Event =
    | MetricUnavailable(metric: Text<Metric>, subject: Text<Subject>, reason: Text<Reason>,
                        processId: Leaf, ordinal: Leaf)
    | ExitObserved(process: Leaf, exitCode: Leaf, userTime: Leaf, kernelTime: Leaf,
                   readBytes: Leaf, writeBytes: Leaf, fidelity: Text<string>)
    | CollectorDegradation(retention: bool)   // retention: handle_retention_degraded is true
    | ProcessObserved(observedId: u64)
    | HandleReleased(releasedId: u64)
    | OtherEvent

  datatype Message = ProcessMessage(p: ProcessRecord) | SampleMessage(s: Sample) | EventMessage(e: Event)

  datatype Validity = Valid | Degraded
  datatype Completeness = Complete | DeclaredPartial

  datatype Manifest =
    | NoManifest
    | UnreadableManifest
    | Manifest(v2: bool, validity: Text<Validity>, completeness: Text<Completeness>)

  datatype Bundle = Bundle(processes: seq<ProcessRecord>, samples: seq<Sample>, events: seq<Event>,
                           manifest: Manifest)

  // ---- The three streams that one message sequence projects to --------------------------------

  function ProcessesOf(ms: seq<Message>): seq<ProcessRecord> {
    if ms == [] then []
    else
      var last := ms[|ms| - 1];
      ProcessesOf(ms[..|ms| - 1]) + (if last.ProcessMessage? then [last.p] else [])
  }

  function SamplesOf(ms: seq<Message>): seq<Sample> {
    if ms == [] then []
    else
      var last := ms[|ms| - 1];
      SamplesOf(ms[..|ms| - 1]) + (if last.SampleMessage? then [last.s] else [])
  }

  function EventsOf(ms: seq<Message>): seq<Event> {
    if ms == [] then []
    else
      var last := ms[|ms| - 1];
      EventsOf(ms[..|ms| - 1]) + (if last.EventMessage? then [last.e] else [])
  }

  lemma StreamsSnoc(ms: seq<Message>, m: Message)
    ensures ProcessesOf(ms + [m]) == ProcessesOf(ms) + (if m.ProcessMessage? then [m.p] else [])
    ensures SamplesOf(ms + [m]) == SamplesOf(ms) + (if m.SampleMessage? then [m.s] else [])
    ensures EventsOf(ms + [m]) == EventsOf(ms) + (if m.EventMessage? then [m.e] else [])
  {
    assert (ms + [m])[..|ms|] == ms;
  }

  lemma NoStreams()
    ensures ProcessesOf([]) == [] && SamplesOf([]) == [] && EventsOf([]) == []
  {
  }

  lemma {:induction false} StreamsAppend(ms: seq<Message>, ns: seq<Message>)
    ensures ProcessesOf(ms + ns) == ProcessesOf(ms) + ProcessesOf(ns)
    ensures SamplesOf(ms + ns) == SamplesOf(ms) + SamplesOf(ns)
    ensures EventsOf(ms + ns) == EventsOf(ms) + EventsOf(ns)
  {
    hide ProcessesOf, SamplesOf, EventsOf;
    if ns == [] {
      assert ms + ns == ms;
      NoStreams();
    } else {
      var init, last := ns[..|ns| - 1], ns[|ns| - 1];
      StreamsAppend(ms, init);
      assert ms + ns == (ms + init) + [last] && ns == init + [last];
      StreamsSnoc(ms + init, last);
      StreamsSnoc(init, last);
    }
  }

  function BundleOf(ms: seq<Message>, manifest: Manifest): Bundle {
    Bundle(ProcessesOf(ms), SamplesOf(ms), EventsOf(ms), manifest)
  }
}
