/**
 * The typed records as JSON objects: the shapes the collectors serialise, and the fields the
 * summariser reads back out of them by name.
 */
module Schema {
  import opened Prelude
  import opened Records
  import opened Json

  // ---- Names -----------------------------------------------------------------------------------

  function FieldName(f: Field): string {
    match f
    case WorkingSetBytes => "working_set_bytes"
    case PrivateBytes => "private_bytes"
    case UserCpuTimeNs => "user_cpu_time_ns"
    case KernelCpuTimeNs => "kernel_cpu_time_ns"
    case ReadBytes => "read_bytes"
    case WriteBytes => "write_bytes"
    case OtherBytes => "other_bytes"
    case ReadOperations => "read_operations"
    case WriteOperations => "write_operations"
    case OtherOperations => "other_operations"
    case ThreadCount => "thread_count"
    case HandleCount => "handle_count"
    case SystemUserCpuTimeNs => "system_user_cpu_time_ns"
    case SystemKernelCpuTimeNs => "system_kernel_cpu_time_ns"
    case SystemIdleCpuTimeNs => "system_idle_cpu_time_ns"
    case AvailablePhysicalMemoryBytes => "available_physical_memory_bytes"
    case CommitCurrentBytes => "commit_current_bytes"
    case CommitLimitBytes => "commit_limit_bytes"
    case DiskFreeBytes => "disk_free_bytes"
  }

  function DomainName(d: Domain): string {
    match d
    case ProcessDomain => "process."
    case ProbeDomain => "probe."
    case SystemDomain => "system."
  }

  function MetricName(m: Metric): string {
    DomainName(m.domain) + FieldName(m.field)
  }

  function Named(name: string): Metric -> bool {
    (m: Metric) => MetricName(m) == name
  }

  function MetricNamed(name: string): Option<Metric> {
    FirstMatch(Metrics(), Named(name))
  }

  function SubjectName(s: Subject): string {
    match s
    case RunSubject => "RUN"
    case ProcessSubject => "PROCESS"
    case SampleSubject => "SAMPLE"
    case ProcessSampleSubject => "PROCESS_SAMPLE"
    case OtherSubject => "?"
  }

  function SubjectNamed(name: string): Subject {
    if name == "RUN" then RunSubject
    else if name == "PROCESS" then ProcessSubject
    else if name == "SAMPLE" then SampleSubject
    else if name == "PROCESS_SAMPLE" then ProcessSampleSubject
    else OtherSubject
  }

  function ReasonName(r: Reason): string {
    match r
    case Unsupported => "unsupported"
    case NotApplicable => "not_applicable"
    case SemanticMismatch => "semantic_mismatch"
    case AuthorityUnavailable => "authority_unavailable"
    case SamplingDegraded => "sampling_degraded"
    case OtherReason => "?"
  }

  function ReasonNamed(name: string): Reason {
    if name == "unsupported" then Unsupported
    else if name == "not_applicable" then NotApplicable
    else if name == "semantic_mismatch" then SemanticMismatch
    else if name == "authority_unavailable" then AuthorityUnavailable
    else if name == "sampling_degraded" then SamplingDegraded
    else OtherReason
  }

  const V2: string := "perf-evidence-v2-draft"

  // ---- Reading fields --------------------------------------------------------------------------

  /** `Value::get`: nothing for a value that is not an object; the last of repeated keys counts. */
  function Lookup(ms: Members, key: string): Option<Value> {
    if ms.NoMembers? then None
    else
      var later := Lookup(ms.rest, key);
      if later.Some? then later else if ms.key == key then Some(ms.value) else None
  }

  function MembersOf(v: Value): Members {
    if v.Object? then v.members else NoMembers
  }

  /** What the strict readers see of a field that should be a u64. */
  function LeafOf(v: Option<Value>): Leaf {
    match v
    case None => Absent
    case Some(Null) => Leaf.Null
    case Some(Number(n)) => if n <= U64_MAX then Num(n) else Malformed
    case Some(_) => Malformed
  }

  function TextOf(v: Option<Value>): Text<string> {
    match v
    case None => NoText
    case Some(String(s)) => Text(s)
    case Some(_) => BadText
  }

  function ReadCells(v: Value): Cells {
    map f: Field | Lookup(MembersOf(v), FieldName(f)).Some? :: LeafOf(Lookup(MembersOf(v), FieldName(f)))
  }

  function ReadRow(v: Value): Row {
    Row(LeafOf(Lookup(MembersOf(v), "process_local_id")), ReadCells(v))
  }

  function ReadRows(items: Items): seq<Row> {
    if items.NoItems? then [] else [ReadRow(items.value)] + ReadRows(items.rest)
  }

  function ReadJob(v: Value): Job {
    var ms := MembersOf(v);
    Job(LeafOf(Lookup(ms, "total_user_time_ns")), LeafOf(Lookup(ms, "total_kernel_time_ns")),
        LeafOf(Lookup(ms, "read_transfer_bytes")), LeafOf(Lookup(ms, "write_transfer_bytes")),
        LeafOf(Lookup(ms, "read_operation_count")), LeafOf(Lookup(ms, "write_operation_count")),
        LeafOf(Lookup(ms, "total_processes_os")))
  }

  function ReadSample(v: Value): Sample {
    var ms := MembersOf(v);
    var rows, wall := Lookup(ms, "processes"), TextOf(Lookup(ms, "wall_time_utc"));
    var probe, system, job := Lookup(ms, "probe"), Lookup(ms, "system"), Lookup(ms, "job");
    Sample(
      TextOf(Lookup(ms, "schema_draft_version")) == Text(V2),
      TextOf(Lookup(ms, "record_type")) == Text("sample"),
      LeafOf(Lookup(ms, "monotonic_ns")),
      LeafOf(Lookup(ms, "gap_from_previous_sample_ns")),
      if rows.Some? && rows.value.Array? then Some(ReadRows(rows.value.items)) else None,
      LeafOf(Lookup(ms, "process_set_working_set_sum_bytes")),
      LeafOf(Lookup(ms, "process_set_private_bytes_sum")),
      Lookup(ms, "root_process_confirmed_live") == Some(Bool(true)),
      if wall.Text? then Some(wall.value) else None,
      if probe.Some? then Some(ReadCells(probe.value)) else None,
      if system.Some? then Some(ReadCells(system.value)) else None,
      if job.Some? then Some(ReadJob(job.value)) else None)
  }

  function ReadProcess(v: Value): ProcessRecord {
    var ms := MembersOf(v);
    ProcessRecord(LeafOf(Lookup(ms, "process_local_id")), LeafOf(Lookup(ms, "pid")),
                  LeafOf(Lookup(ms, "process_start_time")), TextOf(Lookup(ms, "boot_identity")),
                  LeafOf(Lookup(ms, "parent_local_id")))
  }

  function ReadMetricText(t: Text<string>): Text<Metric> {
    match t
    case NoText => NoText
    case BadText => BadText
    case Text(name) => if MetricNamed(name).Some? then Text(MetricNamed(name).value) else BadText
  }

  function ReadSubjectText(t: Text<string>): Text<Subject> {
    match t
    case NoText => NoText
    case BadText => BadText
    case Text(name) => Text(SubjectNamed(name))
  }

  function ReadReasonText(t: Text<string>): Text<Reason> {
    match t
    case NoText => NoText
    case BadText => BadText
    case Text(name) => Text(ReasonNamed(name))
  }

  function ReadEvent(v: Value): Event {
    var ms := MembersOf(v);
    var kind, id := TextOf(Lookup(ms, "record_type")), LeafOf(Lookup(ms, "process_local_id"));
    if kind == Text("metric_unavailable") then
      MetricUnavailable(ReadMetricText(TextOf(Lookup(ms, "metric"))),
                        ReadSubjectText(TextOf(Lookup(ms, "subject_kind"))),
                        ReadReasonText(TextOf(Lookup(ms, "reason"))), id, LeafOf(Lookup(ms, "sample_ordinal")))
    else if kind == Text("process_exit_observed") then
      ExitObserved(id, LeafOf(Lookup(ms, "exit_code")), LeafOf(Lookup(ms, "terminal_user_cpu_time_ns")),
                   LeafOf(Lookup(ms, "terminal_kernel_cpu_time_ns")), LeafOf(Lookup(ms, "terminal_read_bytes")),
                   LeafOf(Lookup(ms, "terminal_write_bytes")), TextOf(Lookup(ms, "terminal_counter_fidelity")))
    else if kind == Text("collector_degradation") then
      CollectorDegradation(Lookup(ms, "handle_retention_degraded") == Some(Bool(true)))
    else if kind == Text("process_observed") && id.Num? then ProcessObserved(id.n)
    else if kind == Text("handle_released") && id.Num? then HandleReleased(id.n)
    else OtherEvent
  }

  // ---- Writing objects -------------------------------------------------------------------------

  /** An object with the given keys in order; a key without a value is skipped. */
  function FromPairs(keys: seq<string>, values: seq<Option<Value>>): Members
    requires |keys| == |values|
  {
    if keys == [] then NoMembers
    else
      var rest := FromPairs(keys[1..], values[1..]);
      if values[0].Some? then Member(keys[0], values[0].value, rest) else rest
  }

  predicate DistinctKeys(keys: seq<string>) {
    forall i, j | 0 <= i < j < |keys| :: keys[i] != keys[j]
  }

  lemma {:induction false} LookupMissing(keys: seq<string>, values: seq<Option<Value>>, key: string)
    requires |keys| == |values| && key !in keys
    ensures Lookup(FromPairs(keys, values), key) == None
  {
    if keys != [] {
      LookupMissing(keys[1..], values[1..], key);
    }
  }

  lemma {:induction false} LookupAt(keys: seq<string>, values: seq<Option<Value>>, i: nat)
    requires |keys| == |values| && DistinctKeys(keys) && i < |keys|
    ensures Lookup(FromPairs(keys, values), keys[i]) == values[i]
  {
    if i == 0 {
      assert forall j | 0 <= j < |keys[1..]| :: keys[1..][j] == keys[j + 1];
      LookupMissing(keys[1..], values[1..], keys[0]);
    } else {
      LookupAt(keys[1..], values[1..], i - 1);
    }
  }

  /** A number, or nothing where the serialiser skips the field. */
  function NumberOf(l: Leaf): Option<Value> {
    if l.Num? then Some(Number(l.n)) else None
  }

  function StringOf(t: Text<string>): Option<Value> {
    if t.Text? then Some(String(t.value)) else None
  }

  predicate Skippable(l: Leaf) {
    l.Num? || l.Absent?
  }

  lemma NumberReads(l: Leaf)
    requires Skippable(l)
    ensures LeafOf(NumberOf(l)) == l
  {
  }

  // ---- Process records -------------------------------------------------------------------------

  const PROCESS_KEYS: seq<string> :=
    ["process_local_id", "pid", "process_start_time", "boot_identity", "parent_local_id", "discovery_source",
     "handle_acquisition_result"]

  predicate WritableProcess(p: ProcessRecord) {
    p.id.Num? && p.pid.Num? && p.startTime.Num? && p.boot.Text? && Skippable(p.parent)
  }

  function ProcessValues(p: ProcessRecord, source: string, acquisition: string): (vs: seq<Option<Value>>)
    ensures |vs| == |PROCESS_KEYS|
  {
    [NumberOf(p.id), NumberOf(p.pid), NumberOf(p.startTime), StringOf(p.boot), NumberOf(p.parent),
     Some(String(source)), Some(String(acquisition))]
  }

  function ProcessObject(p: ProcessRecord, source: string, acquisition: string): Members {
    FromPairs(PROCESS_KEYS, ProcessValues(p, source, acquisition))
  }

  lemma ProcessKeysDistinct()
    ensures DistinctKeys(PROCESS_KEYS)
  {
  }

  /** A process record is read back as it was, whatever its source and acquisition texts. */
  lemma ProcessRoundTrip(p: ProcessRecord, source: string, acquisition: string)
    requires WritableProcess(p)
    ensures ReadProcess(Object(ProcessObject(p, source, acquisition))) == p
  {
    hide FromPairs, Lookup, DistinctKeys;
    ProcessKeysDistinct();
    var vs := ProcessValues(p, source, acquisition);
    LookupAt(PROCESS_KEYS, vs, 0);
    LookupAt(PROCESS_KEYS, vs, 1);
    LookupAt(PROCESS_KEYS, vs, 2);
    LookupAt(PROCESS_KEYS, vs, 3);
    LookupAt(PROCESS_KEYS, vs, 4);
  }

  // ---- Metric cells ----------------------------------------------------------------------------

  lemma FieldNamesDistinct(f: Field, g: Field)
    requires FieldName(f) == FieldName(g)
    ensures f == g
  {
  }

  lemma FieldIsNotId(f: Field)
    ensures FieldName(f) != "process_local_id"
  {
  }

  function Names(fields: seq<Field>): (ks: seq<string>)
    ensures |ks| == |fields| && forall i | 0 <= i < |ks| :: ks[i] == FieldName(fields[i])
  {
    seq(|fields|, i requires 0 <= i < |fields| => FieldName(fields[i]))
  }

  function CellValues(fields: seq<Field>, c: Cells): (vs: seq<Option<Value>>)
    ensures |vs| == |fields| && forall i | 0 <= i < |vs| :: vs[i] == NumberOf(Get(c, fields[i]))
  {
    seq(|fields|, i requires 0 <= i < |fields| => NumberOf(Get(c, fields[i])))
  }

  predicate DistinctFields(fields: seq<Field>) {
    forall i, j | 0 <= i < j < |fields| :: fields[i] != fields[j]
  }

  /** Numbers only, under fields that the object has. */
  predicate WritableCells(fields: seq<Field>, c: Cells) {
    forall f | f in c :: f in fields && c[f].Num?
  }

  /** The cells, after the given leading members. */
  function CellsObject(keys: seq<string>, values: seq<Option<Value>>, fields: seq<Field>, c: Cells): Members
    requires |keys| == |values|
  {
    FromPairs(keys + Names(fields), values + CellValues(fields, c))
  }

  predicate NoFieldAmong(keys: seq<string>) {
    forall f: Field :: FieldName(f) !in keys
  }

  lemma CellKeysDistinct(keys: seq<string>, fields: seq<Field>)
    requires DistinctKeys(keys) && NoFieldAmong(keys) && DistinctFields(fields)
    ensures DistinctKeys(keys + Names(fields))
  {
    hide FieldName;
    var all := keys + Names(fields);
    forall i, j | 0 <= i < j < |all|
      ensures all[i] != all[j]
    {
      if i >= |keys| {
        if FieldName(fields[i - |keys|]) == FieldName(fields[j - |keys|]) {
          FieldNamesDistinct(fields[i - |keys|], fields[j - |keys|]);
        }
      } else if j >= |keys| {
        assert FieldName(fields[j - |keys|]) !in keys;
      }
    }
  }

  lemma CellLookup(keys: seq<string>, values: seq<Option<Value>>, fields: seq<Field>, c: Cells, f: Field)
    requires |keys| == |values| && DistinctKeys(keys) && NoFieldAmong(keys) && DistinctFields(fields)
    requires WritableCells(fields, c)
    ensures Lookup(CellsObject(keys, values, fields, c), FieldName(f)) == NumberOf(Get(c, f))
  {
    hide FieldName, FromPairs, Lookup;
    CellKeysDistinct(keys, fields);
    var all := keys + Names(fields);
    var vs := values + CellValues(fields, c);
    if f in fields {
      var i :| 0 <= i < |fields| && fields[i] == f;
      LookupAt(all, vs, |keys| + i);
    } else {
      forall k | 0 <= k < |all|
        ensures all[k] != FieldName(f)
      {
        if k < |keys| {
          assert FieldName(f) !in keys;
        } else if FieldName(fields[k - |keys|]) == FieldName(f) {
          FieldNamesDistinct(fields[k - |keys|], f);
        }
      }
      LookupMissing(all, vs, FieldName(f));
    }
  }

  lemma CellsRoundTrip(keys: seq<string>, values: seq<Option<Value>>, fields: seq<Field>, c: Cells)
    requires |keys| == |values| && DistinctKeys(keys) && NoFieldAmong(keys) && DistinctFields(fields)
    requires WritableCells(fields, c)
    ensures ReadCells(Object(CellsObject(keys, values, fields, c))) == c
  {
    hide FieldName, FromPairs, Lookup, DistinctKeys, NoFieldAmong, DistinctFields;
    var v := Object(CellsObject(keys, values, fields, c));
    forall f: Field
      ensures Lookup(MembersOf(v), FieldName(f)) == NumberOf(Get(c, f))
      ensures f in ReadCells(v) <==> f in c
      ensures f in c ==> ReadCells(v)[f] == c[f]
    {
      CellLookup(keys, values, fields, c, f);
    }
  }

  // ---- Rows ------------------------------------------------------------------------------------

  predicate WritableRow(r: Row) {
    r.id.Num? && WritableCells(PROCESS_FIELDS, r.cells)
  }

  const ID_KEY: seq<string> := ["process_local_id"]

  function RowObject(r: Row): Members {
    CellsObject(ID_KEY, [NumberOf(r.id)], PROCESS_FIELDS, r.cells)
  }

  lemma IdKeyApart()
    ensures DistinctKeys(ID_KEY) && NoFieldAmong(ID_KEY)
  {
    forall f: Field
      ensures FieldName(f) !in ID_KEY
    {
      FieldIsNotId(f);
    }
  }

  lemma TablesDistinct()
    ensures DistinctFields(PROCESS_FIELDS) && DistinctFields(PROBE_FIELDS) && DistinctFields(SYSTEM_FIELDS)
  {
    hide Ranked, DistinctFields;
    ProcessTableRanked();
    ProbeTableRanked();
    SystemTableRanked();
    RankedDistinct(PROCESS_FIELDS);
    RankedDistinct(PROBE_FIELDS);
    RankedDistinct(SYSTEM_FIELDS);
  }

  /** The place of a field among all fields, in the order of the tables. */
  function Rank(f: Field): nat {
    match f
    case WorkingSetBytes => 0
    case PrivateBytes => 1
    case UserCpuTimeNs => 2
    case KernelCpuTimeNs => 3
    case ReadBytes => 4
    case WriteBytes => 5
    case OtherBytes => 6
    case ReadOperations => 7
    case WriteOperations => 8
    case OtherOperations => 9
    case ThreadCount => 10
    case HandleCount => 11
    case SystemUserCpuTimeNs => 12
    case SystemKernelCpuTimeNs => 13
    case SystemIdleCpuTimeNs => 14
    case AvailablePhysicalMemoryBytes => 15
    case CommitCurrentBytes => 16
    case CommitLimitBytes => 17
    case DiskFreeBytes => 18
  }

  predicate Ranked(fields: seq<Field>) {
    forall i | 0 < i < |fields| :: RisesAt(fields, i)
  }

  predicate RisesAt(fields: seq<Field>, i: int)
    requires 0 < i < |fields|
  {
    Rank(fields[i - 1]) < Rank(fields[i])
  }

  lemma ProcessTableRanked()
    ensures Ranked(PROCESS_FIELDS)
  {
  }

  lemma ProbeTableRanked()
    ensures Ranked(PROBE_FIELDS)
  {
  }

  lemma SystemTableRanked()
    ensures Ranked(SYSTEM_FIELDS)
  {
  }

  lemma {:induction false} RankRises(fields: seq<Field>, i: nat, j: nat)
    requires Ranked(fields) && i < j < |fields|
    ensures Rank(fields[i]) < Rank(fields[j])
    decreases j
  {
    hide Rank;
    assert RisesAt(fields, j);
    if i < j - 1 {
      RankRises(fields, i, j - 1);
    }
  }

  lemma RankedDistinct(fields: seq<Field>)
    requires Ranked(fields)
    ensures DistinctFields(fields)
  {
    hide Rank, Ranked;
    forall i, j | 0 <= i < j < |fields|
      ensures fields[i] != fields[j]
    {
      RankRises(fields, i, j);
    }
  }

  lemma RowRoundTrip(r: Row)
    requires WritableRow(r)
    ensures ReadRow(Object(RowObject(r))) == r
  {
    hide FieldName, FromPairs, Lookup, DistinctKeys, NoFieldAmong, DistinctFields, ReadCells;
    IdKeyApart();
    TablesDistinct();
    CellsRoundTrip(ID_KEY, [NumberOf(r.id)], PROCESS_FIELDS, r.cells);
    CellKeysDistinct(ID_KEY, PROCESS_FIELDS);
    LookupAt(ID_KEY + Names(PROCESS_FIELDS), [NumberOf(r.id)] + CellValues(PROCESS_FIELDS, r.cells), 0);
  }

  function RowItems(rows: seq<Row>): Items {
    if rows == [] then NoItems else Item(Object(RowObject(rows[0])), RowItems(rows[1..]))
  }

  lemma {:induction false} RowsRoundTrip(rows: seq<Row>)
    requires forall j | 0 <= j < |rows| :: WritableRow(rows[j])
    ensures ReadRows(RowItems(rows)) == rows
  {
    hide ReadRow, RowObject, WritableRow;
    if rows != [] {
      RowRoundTrip(rows[0]);
      RowsRoundTrip(rows[1..]);
      assert [rows[0]] + rows[1..] == rows;
    }
  }

  // ---- Jobs ------------------------------------------------------------------------------------

  const JOB_KEYS: seq<string> :=
    ["total_user_time_ns", "total_kernel_time_ns", "read_operation_count", "write_operation_count",
     "other_operation_count", "read_transfer_bytes", "write_transfer_bytes", "other_transfer_bytes",
     "total_processes_os", "active_processes_os", "total_terminated_by_limit_os"]

  /** Job counters that the summariser does not look at. */
  datatype JobDetails = JobDetails(otherOperations: u64, otherBytes: u64, active: u64, terminatedByLimit: u64)

  predicate WritableJob(j: Job) {
    && j.userTime.Num? && j.kernelTime.Num? && j.readBytes.Num? && j.writeBytes.Num?
    && j.readOperations.Num? && j.writeOperations.Num? && j.totalProcesses.Num?
  }

  function JobValues(j: Job, d: JobDetails): (vs: seq<Option<Value>>)
    ensures |vs| == |JOB_KEYS|
  {
    [NumberOf(j.userTime), NumberOf(j.kernelTime), NumberOf(j.readOperations), NumberOf(j.writeOperations),
     Some(Number(d.otherOperations)), NumberOf(j.readBytes), NumberOf(j.writeBytes), Some(Number(d.otherBytes)),
     NumberOf(j.totalProcesses), Some(Number(d.active)), Some(Number(d.terminatedByLimit))]
  }

  function JobObject(j: Job, d: JobDetails): Members {
    FromPairs(JOB_KEYS, JobValues(j, d))
  }

  lemma JobKeysDistinct()
    ensures DistinctKeys(JOB_KEYS)
  {
  }

  lemma JobRoundTrip(j: Job, d: JobDetails)
    requires WritableJob(j)
    ensures ReadJob(Object(JobObject(j, d))) == j
  {
    hide FromPairs, Lookup, DistinctKeys;
    JobKeysDistinct();
    var vs := JobValues(j, d);
    LookupAt(JOB_KEYS, vs, 0);
    LookupAt(JOB_KEYS, vs, 1);
    LookupAt(JOB_KEYS, vs, 2);
    LookupAt(JOB_KEYS, vs, 3);
    LookupAt(JOB_KEYS, vs, 5);
    LookupAt(JOB_KEYS, vs, 6);
    LookupAt(JOB_KEYS, vs, 8);
  }

  // ---- Samples ---------------------------------------------------------------------------------

  const SAMPLE_KEYS: seq<string> :=
    ["schema_draft_version", "record_type", "wall_time_utc", "monotonic_ns", "scheduled_monotonic_ns",
     "sampling_delay_ns", "gap_from_previous_sample_ns", "root_process_confirmed_live",
     "process_set_working_set_sum_bytes", "process_set_private_bytes_sum", "processes", "job", "system", "probe"]

  predicate WritableSample(s: Sample) {
    && s.v2 && s.isSample && s.monotonic.Num? && Skippable(s.gap)
    && s.rows.Some? && (forall j | 0 <= j < |s.rows.value| :: WritableRow(s.rows.value[j]))
    && Skippable(s.workingSetSum) && Skippable(s.privateSum) && s.wallTime.Some?
    && s.probe.Some? && WritableCells(PROBE_FIELDS, s.probe.value)
    && s.system.Some? && WritableCells(SYSTEM_FIELDS, s.system.value)
    && (s.job.Some? ==> WritableJob(s.job.value))
  }

  function CellsValue(fields: seq<Field>, c: Cells): Value {
    Object(CellsObject([], [], fields, c))
  }

  function SampleValues(s: Sample, scheduled: u64, delay: u64, d: JobDetails): (vs: seq<Option<Value>>)
    requires s.rows.Some? && s.wallTime.Some? && s.probe.Some? && s.system.Some?
    ensures |vs| == |SAMPLE_KEYS|
  {
    [Some(String(V2)), Some(String("sample")), Some(String(s.wallTime.value)), NumberOf(s.monotonic),
     Some(Number(scheduled)), Some(Number(delay)), NumberOf(s.gap), Some(Bool(s.live)),
     NumberOf(s.workingSetSum), NumberOf(s.privateSum), Some(Array(RowItems(s.rows.value))),
     if s.job.Some? then Some(Object(JobObject(s.job.value, d))) else None,
     Some(CellsValue(SYSTEM_FIELDS, s.system.value)), Some(CellsValue(PROBE_FIELDS, s.probe.value))]
  }

  function SampleObject(s: Sample, scheduled: u64, delay: u64, d: JobDetails): Members
    requires s.rows.Some? && s.wallTime.Some? && s.probe.Some? && s.system.Some?
  {
    FromPairs(SAMPLE_KEYS, SampleValues(s, scheduled, delay, d))
  }

  lemma SampleKeysDistinct()
    ensures DistinctKeys(SAMPLE_KEYS)
  {
  }

  lemma CellsValueReads(fields: seq<Field>, c: Cells)
    requires DistinctFields(fields) && WritableCells(fields, c)
    ensures ReadCells(CellsValue(fields, c)) == c
  {
    CellsRoundTrip([], [], fields, c);
  }

  lemma SampleLookups(vs: seq<Option<Value>>)
    requires |vs| == |SAMPLE_KEYS|
    ensures var ms := FromPairs(SAMPLE_KEYS, vs);
            && Lookup(ms, "schema_draft_version") == vs[0] && Lookup(ms, "record_type") == vs[1]
            && Lookup(ms, "wall_time_utc") == vs[2] && Lookup(ms, "monotonic_ns") == vs[3]
            && Lookup(ms, "gap_from_previous_sample_ns") == vs[6] && Lookup(ms, "root_process_confirmed_live") == vs[7]
            && Lookup(ms, "process_set_working_set_sum_bytes") == vs[8]
            && Lookup(ms, "process_set_private_bytes_sum") == vs[9]
            && Lookup(ms, "processes") == vs[10] && Lookup(ms, "job") == vs[11]
            && Lookup(ms, "system") == vs[12] && Lookup(ms, "probe") == vs[13]
  {
    hide FromPairs, Lookup, DistinctKeys;
    SampleKeysDistinct();
    LookupAt(SAMPLE_KEYS, vs, 0);
    LookupAt(SAMPLE_KEYS, vs, 1);
    LookupAt(SAMPLE_KEYS, vs, 2);
    LookupAt(SAMPLE_KEYS, vs, 3);
    LookupAt(SAMPLE_KEYS, vs, 6);
    LookupAt(SAMPLE_KEYS, vs, 7);
    LookupAt(SAMPLE_KEYS, vs, 8);
    LookupAt(SAMPLE_KEYS, vs, 9);
    LookupAt(SAMPLE_KEYS, vs, 10);
    LookupAt(SAMPLE_KEYS, vs, 11);
    LookupAt(SAMPLE_KEYS, vs, 12);
    LookupAt(SAMPLE_KEYS, vs, 13);
  }

  /** A sample is read back as it was: every cell, every omitted field, its rows in order. */
  lemma SampleRoundTrip(s: Sample, scheduled: u64, delay: u64, d: JobDetails)
    requires WritableSample(s)
    ensures ReadSample(Object(SampleObject(s, scheduled, delay, d))) == s
  {
    hide FromPairs, Lookup, ReadCells, ReadRows, ReadJob, CellsValue, JobObject, RowItems, WritableRow,
      WritableCells, WritableJob;
    var vs := SampleValues(s, scheduled, delay, d);
    SampleLookups(vs);
    RowsRoundTrip(s.rows.value);
    TablesDistinct();
    CellsValueReads(SYSTEM_FIELDS, s.system.value);
    CellsValueReads(PROBE_FIELDS, s.probe.value);
    if s.job.Some? {
      JobRoundTrip(s.job.value, d);
    }
  }

  // ---- Events ----------------------------------------------------------------------------------

  lemma MetricNameIsUnique(m: Metric, n: Metric)
    requires MetricName(m) == MetricName(n)
    ensures m == n
  {
    hide FieldName;
    var d, e := DomainName(m.domain), DomainName(n.domain);
    var s, t := MetricName(m), MetricName(n);
    assert s[0] == d[0] && t[0] == e[0] && s[3] == d[3] && t[3] == e[3];
    assert m.domain == n.domain;
    assert s[|d|..] == FieldName(m.field) && t[|d|..] == FieldName(n.field);
    FieldNamesDistinct(m.field, n.field);
  }

  /** The summariser's table finds every metric under the name that the collectors print. */
  lemma MetricNameFound(m: Metric)
    requires Known(m)
    ensures MetricNamed(MetricName(m)) == Some(m)
  {
    hide MetricName, Metrics;
    FirstMatchUnique(Metrics(), Named(MetricName(m)));
    TableIsKnown(m);
    assert Named(MetricName(m))(m);
    MetricNameIsUnique(MetricNamed(MetricName(m)).value, m);
  }

  // The kind first, then the details that some collector adds to such an event, in the order of its map.

  const DECLARATION_KEYS: seq<string> :=
    ["record_type", "metric", "process_local_id", "reason", "sample_ordinal", "subject_kind"]
  const EXIT_KEYS: seq<string> :=
    ["record_type", "exit_code", "pid", "process_local_id", "signal_number", "terminal_counter_fidelity",
     "terminal_kernel_cpu_time_ns", "terminal_kind", "terminal_read_bytes", "terminal_user_cpu_time_ns",
     "terminal_write_bytes"]
  const DEGRADATION_KEYS: seq<string> := ["record_type", "handle_retention_degraded", "pid", "reason"]
  const HANDLE_KEYS: seq<string> := ["record_type", "pid", "process_local_id"]
  const OTHER_KEYS: seq<string> :=
    ["record_type", "attached_to_probe_job", "job_completion_port_associated", "kill_on_job_close_enabled", "pid",
     "process_local_id", "reason"]

  /** Details of an event that the summariser does not look at; `kind` names an event of no interest to it. */
  datatype EventDetails = EventDetails(
    kind: string, id: Leaf, pid: Leaf, cause: Text<string>, attached: Option<bool>, portAssociated: Option<bool>,
    killOnClose: Option<bool>, terminalKind: Text<string>, signal: Leaf)

  predicate WritableEvent(e: Event) {
    match e
    case MetricUnavailable(metric, subject, reason, id, ordinal) =>
      && metric.Text? && Known(metric.value) && subject.Text? && !subject.value.OtherSubject?
      && reason.Text? && !reason.value.OtherReason? && Skippable(id) && Skippable(ordinal)
    case ExitObserved(id, code, user, kernel, read, write, fidelity) =>
      && Skippable(id) && Skippable(code) && Skippable(user) && Skippable(kernel)
      && Skippable(read) && Skippable(write) && !fidelity.BadText?
    case _ => true
  }

  /** Names of event kinds that the summariser does not look at. */
  predicate OtherKind(kind: string) {
    && kind != "metric_unavailable" && kind != "process_exit_observed" && kind != "collector_degradation"
    && kind != "process_observed" && kind != "handle_released"
  }

  function BoolOf(b: Option<bool>): Option<Value> {
    if b.Some? then Some(Bool(b.value)) else None
  }

  function DeclarationValues(e: Event): (vs: seq<Option<Value>>)
    requires e.MetricUnavailable?
    ensures |vs| == |DECLARATION_KEYS|
  {
    [Some(String("metric_unavailable")),
     if e.metric.Text? then Some(String(MetricName(e.metric.value))) else None,
     NumberOf(e.processId),
     if e.reason.Text? then Some(String(ReasonName(e.reason.value))) else None,
     NumberOf(e.ordinal),
     if e.subject.Text? then Some(String(SubjectName(e.subject.value))) else None]
  }

  function ExitValues(e: Event, d: EventDetails): (vs: seq<Option<Value>>)
    requires e.ExitObserved?
    ensures |vs| == |EXIT_KEYS|
  {
    [Some(String("process_exit_observed")), NumberOf(e.exitCode), NumberOf(d.pid), NumberOf(e.process),
     NumberOf(d.signal), StringOf(e.fidelity), NumberOf(e.kernelTime), StringOf(d.terminalKind),
     NumberOf(e.readBytes), NumberOf(e.userTime), NumberOf(e.writeBytes)]
  }

  function DegradationValues(e: Event, d: EventDetails): (vs: seq<Option<Value>>)
    requires e.CollectorDegradation?
    ensures |vs| == |DEGRADATION_KEYS|
  {
    [Some(String("collector_degradation")), if e.retention then Some(Bool(true)) else None, NumberOf(d.pid),
     StringOf(d.cause)]
  }

  function HandleValues(kind: string, id: u64, d: EventDetails): (vs: seq<Option<Value>>)
    ensures |vs| == |HANDLE_KEYS|
  {
    [Some(String(kind)), NumberOf(d.pid), Some(Number(id))]
  }

  function OtherValues(d: EventDetails): (vs: seq<Option<Value>>)
    ensures |vs| == |OTHER_KEYS|
  {
    [Some(String(d.kind)), BoolOf(d.attached), BoolOf(d.portAssociated), BoolOf(d.killOnClose), NumberOf(d.pid),
     NumberOf(d.id), StringOf(d.cause)]
  }

  function EventObject(e: Event, d: EventDetails): Members {
    match e
    case MetricUnavailable(_, _, _, _, _) => FromPairs(DECLARATION_KEYS, DeclarationValues(e))
    case ExitObserved(_, _, _, _, _, _, _) => FromPairs(EXIT_KEYS, ExitValues(e, d))
    case CollectorDegradation(_) => FromPairs(DEGRADATION_KEYS, DegradationValues(e, d))
    case ProcessObserved(id) => FromPairs(HANDLE_KEYS, HandleValues("process_observed", id, d))
    case HandleReleased(id) => FromPairs(HANDLE_KEYS, HandleValues("handle_released", id, d))
    case OtherEvent => FromPairs(OTHER_KEYS, OtherValues(d))
  }

  lemma EventKeysDistinct()
    ensures DistinctKeys(DECLARATION_KEYS) && DistinctKeys(DEGRADATION_KEYS) && DistinctKeys(HANDLE_KEYS)
    ensures DistinctKeys(OTHER_KEYS)
  {
  }

  lemma ExitKeysDistinct()
    ensures DistinctKeys(EXIT_KEYS)
  {
  }

  lemma SubjectRoundTrip(s: Subject)
    requires !s.OtherSubject?
    ensures SubjectNamed(SubjectName(s)) == s
  {
  }

  lemma ReasonRoundTrip(r: Reason)
    requires !r.OtherReason?
    ensures ReasonNamed(ReasonName(r)) == r
  {
  }

  lemma DeclarationRoundTrip(e: Event)
    requires WritableEvent(e) && e.MetricUnavailable?
    ensures ReadEvent(Object(FromPairs(DECLARATION_KEYS, DeclarationValues(e)))) == e
  {
    hide FromPairs, Lookup, DistinctKeys, MetricNamed, MetricName, SubjectNamed, SubjectName, ReasonNamed, ReasonName,
      Known;
    EventKeysDistinct();
    var vs := DeclarationValues(e);
    LookupAt(DECLARATION_KEYS, vs, 0);
    LookupAt(DECLARATION_KEYS, vs, 1);
    LookupAt(DECLARATION_KEYS, vs, 2);
    LookupAt(DECLARATION_KEYS, vs, 3);
    LookupAt(DECLARATION_KEYS, vs, 4);
    LookupAt(DECLARATION_KEYS, vs, 5);
    MetricNameFound(e.metric.value);
    SubjectRoundTrip(e.subject.value);
    ReasonRoundTrip(e.reason.value);
  }

  lemma ExitRoundTrip(e: Event, d: EventDetails)
    requires WritableEvent(e) && e.ExitObserved?
    ensures ReadEvent(Object(FromPairs(EXIT_KEYS, ExitValues(e, d)))) == e
  {
    hide FromPairs, Lookup, DistinctKeys, ReadMetricText, ReadSubjectText, ReadReasonText;
    ExitKeysDistinct();
    var vs := ExitValues(e, d);
    LookupAt(EXIT_KEYS, vs, 0);
    LookupAt(EXIT_KEYS, vs, 1);
    LookupAt(EXIT_KEYS, vs, 3);
    LookupAt(EXIT_KEYS, vs, 5);
    LookupAt(EXIT_KEYS, vs, 6);
    LookupAt(EXIT_KEYS, vs, 8);
    LookupAt(EXIT_KEYS, vs, 9);
    LookupAt(EXIT_KEYS, vs, 10);
  }

  lemma DegradationRoundTrip(e: Event, d: EventDetails)
    requires e.CollectorDegradation?
    ensures ReadEvent(Object(FromPairs(DEGRADATION_KEYS, DegradationValues(e, d)))) == e
  {
    hide FromPairs, Lookup, DistinctKeys, ReadMetricText, ReadSubjectText, ReadReasonText;
    EventKeysDistinct();
    LookupAt(DEGRADATION_KEYS, DegradationValues(e, d), 0);
    LookupAt(DEGRADATION_KEYS, DegradationValues(e, d), 1);
  }

  lemma HandleRoundTrip(kind: string, id: u64, d: EventDetails)
    requires kind == "process_observed" || kind == "handle_released"
    ensures ReadEvent(Object(FromPairs(HANDLE_KEYS, HandleValues(kind, id, d)))) ==
            if kind == "process_observed" then ProcessObserved(id) else HandleReleased(id)
  {
    hide FromPairs, Lookup, DistinctKeys, ReadMetricText, ReadSubjectText, ReadReasonText;
    EventKeysDistinct();
    LookupAt(HANDLE_KEYS, HandleValues(kind, id, d), 0);
    LookupAt(HANDLE_KEYS, HandleValues(kind, id, d), 2);
  }

  lemma OtherRoundTrip(d: EventDetails)
    requires OtherKind(d.kind)
    ensures ReadEvent(Object(FromPairs(OTHER_KEYS, OtherValues(d)))) == OtherEvent
  {
    hide FromPairs, Lookup, DistinctKeys, ReadMetricText, ReadSubjectText, ReadReasonText;
    EventKeysDistinct();
    LookupAt(OTHER_KEYS, OtherValues(d), 0);
  }

  /** An event is read back as it was, whatever details the summariser does not look at. */
  lemma EventRoundTrip(e: Event, d: EventDetails)
    requires WritableEvent(e) && OtherKind(d.kind)
    ensures ReadEvent(Object(EventObject(e, d))) == e
  {
    hide FromPairs, ReadEvent, OtherKind, WritableEvent, DeclarationValues, ExitValues, DegradationValues, HandleValues,
      OtherValues;
    match e
    case MetricUnavailable(_, _, _, _, _) => DeclarationRoundTrip(e);
    case ExitObserved(_, _, _, _, _, _, _) => ExitRoundTrip(e, d);
    case CollectorDegradation(_) => DegradationRoundTrip(e, d);
    case ProcessObserved(id) => HandleRoundTrip("process_observed", id, d);
    case HandleReleased(id) => HandleRoundTrip("handle_released", id, d);
    case OtherEvent => OtherRoundTrip(d);
  }
}
