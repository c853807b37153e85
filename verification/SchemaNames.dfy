/**
 * The names on the wire, spelled out: under which key and which metric name each value is written and
 * read. The round trips say that both sides agree; these laws say on what.
 */
module SchemaNames {
  import opened Prelude
  import opened Records
  import opened Json
  import opened Schema

  // ---- Cells -----------------------------------------------------------------------------------

  /** The cell is read under this key. */
  predicate ReadUnder(ms: Members, f: Field, key: string) {
    Get(ReadCells(Object(ms)), f) == LeafOf(Lookup(ms, key))
  }

  lemma CellRead(ms: Members, f: Field)
    ensures ReadUnder(ms, f, FieldName(f))
  {
    hide FieldName, Lookup;
  }

  /** The cells that a process row and the probe object share. */
  lemma SharedCellsRead(ms: Members)
    ensures ReadUnder(ms, WorkingSetBytes, "working_set_bytes")
    ensures ReadUnder(ms, PrivateBytes, "private_bytes")
    ensures ReadUnder(ms, UserCpuTimeNs, "user_cpu_time_ns")
    ensures ReadUnder(ms, KernelCpuTimeNs, "kernel_cpu_time_ns")
    ensures ReadUnder(ms, ReadBytes, "read_bytes")
    ensures ReadUnder(ms, WriteBytes, "write_bytes")
    ensures ReadUnder(ms, ThreadCount, "thread_count")
    ensures ReadUnder(ms, HandleCount, "handle_count")
  {
    hide ReadUnder;
    CellRead(ms, WorkingSetBytes);
    CellRead(ms, PrivateBytes);
    CellRead(ms, UserCpuTimeNs);
    CellRead(ms, KernelCpuTimeNs);
    CellRead(ms, ReadBytes);
    CellRead(ms, WriteBytes);
    CellRead(ms, ThreadCount);
    CellRead(ms, HandleCount);
  }

  /** The cells that only a process row has. */
  lemma RowCellsRead(ms: Members)
    ensures ReadUnder(ms, OtherBytes, "other_bytes")
    ensures ReadUnder(ms, ReadOperations, "read_operations")
    ensures ReadUnder(ms, WriteOperations, "write_operations")
    ensures ReadUnder(ms, OtherOperations, "other_operations")
  {
    hide ReadUnder;
    CellRead(ms, OtherBytes);
    CellRead(ms, ReadOperations);
    CellRead(ms, WriteOperations);
    CellRead(ms, OtherOperations);
  }

  /** The cells of the system object. */
  lemma SystemCellsRead(ms: Members)
    ensures ReadUnder(ms, SystemUserCpuTimeNs, "system_user_cpu_time_ns")
    ensures ReadUnder(ms, SystemKernelCpuTimeNs, "system_kernel_cpu_time_ns")
    ensures ReadUnder(ms, SystemIdleCpuTimeNs, "system_idle_cpu_time_ns")
    ensures ReadUnder(ms, AvailablePhysicalMemoryBytes, "available_physical_memory_bytes")
    ensures ReadUnder(ms, CommitCurrentBytes, "commit_current_bytes")
    ensures ReadUnder(ms, CommitLimitBytes, "commit_limit_bytes")
    ensures ReadUnder(ms, DiskFreeBytes, "disk_free_bytes")
  {
    hide ReadUnder;
    CellRead(ms, SystemUserCpuTimeNs);
    CellRead(ms, SystemKernelCpuTimeNs);
    CellRead(ms, SystemIdleCpuTimeNs);
    CellRead(ms, AvailablePhysicalMemoryBytes);
    CellRead(ms, CommitCurrentBytes);
    CellRead(ms, CommitLimitBytes);
    CellRead(ms, DiskFreeBytes);
  }

  // ---- Metrics ---------------------------------------------------------------------------------

  predicate Names(name: string, d: Domain, f: Field) {
    MetricNamed(name) == Some(Metric(d, f))
  }

  lemma MetricIsNamed(d: Domain, f: Field, prefix: string, key: string)
    requires Known(Metric(d, f)) && DomainName(d) == prefix && FieldName(f) == key
    ensures Names(prefix + key, d, f)
  {
    hide Known, MetricNamed, FieldName, DomainName;
    MetricNameFound(Metric(d, f));
  }

  lemma ProcessNamesInParts()
    ensures Names("process." + "working_set_bytes", ProcessDomain, WorkingSetBytes)
    ensures Names("process." + "private_bytes", ProcessDomain, PrivateBytes)
    ensures Names("process." + "user_cpu_time_ns", ProcessDomain, UserCpuTimeNs)
    ensures Names("process." + "kernel_cpu_time_ns", ProcessDomain, KernelCpuTimeNs)
    ensures Names("process." + "read_bytes", ProcessDomain, ReadBytes)
    ensures Names("process." + "write_bytes", ProcessDomain, WriteBytes)
    ensures Names("process." + "other_bytes", ProcessDomain, OtherBytes)
    ensures Names("process." + "thread_count", ProcessDomain, ThreadCount)
    ensures Names("process." + "handle_count", ProcessDomain, HandleCount)
    ensures Names("process." + "read_operations", ProcessDomain, ReadOperations)
    ensures Names("process." + "write_operations", ProcessDomain, WriteOperations)
    ensures Names("process." + "other_operations", ProcessDomain, OtherOperations)
  {
    hide Names;
    MetricIsNamed(ProcessDomain, WorkingSetBytes, "process.", "working_set_bytes");
    MetricIsNamed(ProcessDomain, PrivateBytes, "process.", "private_bytes");
    MetricIsNamed(ProcessDomain, UserCpuTimeNs, "process.", "user_cpu_time_ns");
    MetricIsNamed(ProcessDomain, KernelCpuTimeNs, "process.", "kernel_cpu_time_ns");
    MetricIsNamed(ProcessDomain, ReadBytes, "process.", "read_bytes");
    MetricIsNamed(ProcessDomain, WriteBytes, "process.", "write_bytes");
    MetricIsNamed(ProcessDomain, OtherBytes, "process.", "other_bytes");
    MetricIsNamed(ProcessDomain, ThreadCount, "process.", "thread_count");
    MetricIsNamed(ProcessDomain, HandleCount, "process.", "handle_count");
    MetricIsNamed(ProcessDomain, ReadOperations, "process.", "read_operations");
    MetricIsNamed(ProcessDomain, WriteOperations, "process.", "write_operations");
    MetricIsNamed(ProcessDomain, OtherOperations, "process.", "other_operations");
  }

  lemma ProcessMemoryAndTimeNames()
    ensures Names("process.working_set_bytes", ProcessDomain, WorkingSetBytes)
    ensures Names("process.private_bytes", ProcessDomain, PrivateBytes)
    ensures Names("process.user_cpu_time_ns", ProcessDomain, UserCpuTimeNs)
    ensures Names("process.kernel_cpu_time_ns", ProcessDomain, KernelCpuTimeNs)
  {
    hide Names, FieldName, DomainName;
    ProcessNamesInParts();
    assert "process." + "working_set_bytes" == "process.working_set_bytes";
    assert "process." + "private_bytes" == "process.private_bytes";
    assert "process." + "user_cpu_time_ns" == "process.user_cpu_time_ns";
    assert "process." + "kernel_cpu_time_ns" == "process.kernel_cpu_time_ns";
  }

  lemma ProcessByteAndCountNames()
    ensures Names("process.read_bytes", ProcessDomain, ReadBytes)
    ensures Names("process.write_bytes", ProcessDomain, WriteBytes)
    ensures Names("process.other_bytes", ProcessDomain, OtherBytes)
    ensures Names("process.thread_count", ProcessDomain, ThreadCount)
    ensures Names("process.handle_count", ProcessDomain, HandleCount)
  {
    hide Names, FieldName, DomainName;
    ProcessNamesInParts();
    assert "process." + "read_bytes" == "process.read_bytes";
    assert "process." + "write_bytes" == "process.write_bytes";
    assert "process." + "other_bytes" == "process.other_bytes";
    assert "process." + "thread_count" == "process.thread_count";
    assert "process." + "handle_count" == "process.handle_count";
  }

  lemma ProcessOperationNames()
    ensures Names("process.read_operations", ProcessDomain, ReadOperations)
    ensures Names("process.write_operations", ProcessDomain, WriteOperations)
    ensures Names("process.other_operations", ProcessDomain, OtherOperations)
  {
    hide Names, FieldName, DomainName;
    ProcessNamesInParts();
    assert "process." + "read_operations" == "process.read_operations";
    assert "process." + "write_operations" == "process.write_operations";
    assert "process." + "other_operations" == "process.other_operations";
  }

  lemma ProbeNamesInParts()
    ensures Names("probe." + "working_set_bytes", ProbeDomain, WorkingSetBytes)
    ensures Names("probe." + "private_bytes", ProbeDomain, PrivateBytes)
    ensures Names("probe." + "user_cpu_time_ns", ProbeDomain, UserCpuTimeNs)
    ensures Names("probe." + "kernel_cpu_time_ns", ProbeDomain, KernelCpuTimeNs)
    ensures Names("probe." + "read_bytes", ProbeDomain, ReadBytes)
    ensures Names("probe." + "write_bytes", ProbeDomain, WriteBytes)
    ensures Names("probe." + "thread_count", ProbeDomain, ThreadCount)
    ensures Names("probe." + "handle_count", ProbeDomain, HandleCount)
  {
    hide Names;
    MetricIsNamed(ProbeDomain, WorkingSetBytes, "probe.", "working_set_bytes");
    MetricIsNamed(ProbeDomain, PrivateBytes, "probe.", "private_bytes");
    MetricIsNamed(ProbeDomain, UserCpuTimeNs, "probe.", "user_cpu_time_ns");
    MetricIsNamed(ProbeDomain, KernelCpuTimeNs, "probe.", "kernel_cpu_time_ns");
    MetricIsNamed(ProbeDomain, ReadBytes, "probe.", "read_bytes");
    MetricIsNamed(ProbeDomain, WriteBytes, "probe.", "write_bytes");
    MetricIsNamed(ProbeDomain, ThreadCount, "probe.", "thread_count");
    MetricIsNamed(ProbeDomain, HandleCount, "probe.", "handle_count");
  }

  lemma ProbeMemoryAndTimeNames()
    ensures Names("probe.working_set_bytes", ProbeDomain, WorkingSetBytes)
    ensures Names("probe.private_bytes", ProbeDomain, PrivateBytes)
    ensures Names("probe.user_cpu_time_ns", ProbeDomain, UserCpuTimeNs)
    ensures Names("probe.kernel_cpu_time_ns", ProbeDomain, KernelCpuTimeNs)
  {
    hide Names, FieldName, DomainName;
    ProbeNamesInParts();
    assert "probe." + "working_set_bytes" == "probe.working_set_bytes";
    assert "probe." + "private_bytes" == "probe.private_bytes";
    assert "probe." + "user_cpu_time_ns" == "probe.user_cpu_time_ns";
    assert "probe." + "kernel_cpu_time_ns" == "probe.kernel_cpu_time_ns";
  }

  lemma ProbeByteAndCountNames()
    ensures Names("probe.read_bytes", ProbeDomain, ReadBytes)
    ensures Names("probe.write_bytes", ProbeDomain, WriteBytes)
    ensures Names("probe.thread_count", ProbeDomain, ThreadCount)
    ensures Names("probe.handle_count", ProbeDomain, HandleCount)
  {
    hide Names, FieldName, DomainName;
    ProbeNamesInParts();
    assert "probe." + "read_bytes" == "probe.read_bytes";
    assert "probe." + "write_bytes" == "probe.write_bytes";
    assert "probe." + "thread_count" == "probe.thread_count";
    assert "probe." + "handle_count" == "probe.handle_count";
  }

  lemma SystemNamesInParts()
    ensures Names("system." + "system_user_cpu_time_ns", SystemDomain, SystemUserCpuTimeNs)
    ensures Names("system." + "system_kernel_cpu_time_ns", SystemDomain, SystemKernelCpuTimeNs)
    ensures Names("system." + "system_idle_cpu_time_ns", SystemDomain, SystemIdleCpuTimeNs)
    ensures Names("system." + "available_physical_memory_bytes", SystemDomain, AvailablePhysicalMemoryBytes)
    ensures Names("system." + "commit_current_bytes", SystemDomain, CommitCurrentBytes)
    ensures Names("system." + "commit_limit_bytes", SystemDomain, CommitLimitBytes)
    ensures Names("system." + "disk_free_bytes", SystemDomain, DiskFreeBytes)
  {
    hide Names;
    MetricIsNamed(SystemDomain, SystemUserCpuTimeNs, "system.", "system_user_cpu_time_ns");
    MetricIsNamed(SystemDomain, SystemKernelCpuTimeNs, "system.", "system_kernel_cpu_time_ns");
    MetricIsNamed(SystemDomain, SystemIdleCpuTimeNs, "system.", "system_idle_cpu_time_ns");
    MetricIsNamed(SystemDomain, AvailablePhysicalMemoryBytes, "system.", "available_physical_memory_bytes");
    MetricIsNamed(SystemDomain, CommitCurrentBytes, "system.", "commit_current_bytes");
    MetricIsNamed(SystemDomain, CommitLimitBytes, "system.", "commit_limit_bytes");
    MetricIsNamed(SystemDomain, DiskFreeBytes, "system.", "disk_free_bytes");
  }

  lemma SystemUserTimeName()
    ensures Names("system.system_user_cpu_time_ns", SystemDomain, SystemUserCpuTimeNs)
  {
    hide Names, FieldName, DomainName;
    SystemNamesInParts();
    assert "system." + "system_user_cpu_time_ns" == "system.system_user_cpu_time_ns";
  }

  lemma SystemKernelTimeName()
    ensures Names("system.system_kernel_cpu_time_ns", SystemDomain, SystemKernelCpuTimeNs)
  {
    hide Names, FieldName, DomainName;
    SystemNamesInParts();
    assert "system." + "system_kernel_cpu_time_ns" == "system.system_kernel_cpu_time_ns";
  }

  lemma SystemIdleTimeName()
    ensures Names("system.system_idle_cpu_time_ns", SystemDomain, SystemIdleCpuTimeNs)
  {
    hide Names, FieldName, DomainName;
    SystemNamesInParts();
    assert "system." + "system_idle_cpu_time_ns" == "system.system_idle_cpu_time_ns";
  }

  lemma SystemMemoryName()
    ensures Names("system.available_physical_memory_bytes", SystemDomain, AvailablePhysicalMemoryBytes)
  {
    hide Names, FieldName, DomainName;
    SystemNamesInParts();
    assert "system." + "available_physical_memory_bytes" == "system.available_physical_memory_bytes";
  }

  lemma SystemCommitAndDiskNames()
    ensures Names("system.commit_current_bytes", SystemDomain, CommitCurrentBytes)
    ensures Names("system.commit_limit_bytes", SystemDomain, CommitLimitBytes)
    ensures Names("system.disk_free_bytes", SystemDomain, DiskFreeBytes)
  {
    hide Names, FieldName, DomainName;
    SystemNamesInParts();
    assert "system." + "commit_current_bytes" == "system.commit_current_bytes";
    assert "system." + "commit_limit_bytes" == "system.commit_limit_bytes";
    assert "system." + "disk_free_bytes" == "system.disk_free_bytes";
  }

  /** The 27 metric names, each found in the table as the metric it names. */
  lemma MetricsAreNamed()
    ensures Names("process.working_set_bytes", ProcessDomain, WorkingSetBytes)
    ensures Names("process.private_bytes", ProcessDomain, PrivateBytes)
    ensures Names("process.user_cpu_time_ns", ProcessDomain, UserCpuTimeNs)
    ensures Names("process.kernel_cpu_time_ns", ProcessDomain, KernelCpuTimeNs)
    ensures Names("process.read_bytes", ProcessDomain, ReadBytes)
    ensures Names("process.write_bytes", ProcessDomain, WriteBytes)
    ensures Names("process.other_bytes", ProcessDomain, OtherBytes)
    ensures Names("process.thread_count", ProcessDomain, ThreadCount)
    ensures Names("process.handle_count", ProcessDomain, HandleCount)
    ensures Names("process.read_operations", ProcessDomain, ReadOperations)
    ensures Names("process.write_operations", ProcessDomain, WriteOperations)
    ensures Names("process.other_operations", ProcessDomain, OtherOperations)
    ensures Names("probe.working_set_bytes", ProbeDomain, WorkingSetBytes)
    ensures Names("probe.private_bytes", ProbeDomain, PrivateBytes)
    ensures Names("probe.user_cpu_time_ns", ProbeDomain, UserCpuTimeNs)
    ensures Names("probe.kernel_cpu_time_ns", ProbeDomain, KernelCpuTimeNs)
    ensures Names("probe.read_bytes", ProbeDomain, ReadBytes)
    ensures Names("probe.write_bytes", ProbeDomain, WriteBytes)
    ensures Names("probe.thread_count", ProbeDomain, ThreadCount)
    ensures Names("probe.handle_count", ProbeDomain, HandleCount)
    ensures Names("system.system_user_cpu_time_ns", SystemDomain, SystemUserCpuTimeNs)
    ensures Names("system.system_kernel_cpu_time_ns", SystemDomain, SystemKernelCpuTimeNs)
    ensures Names("system.system_idle_cpu_time_ns", SystemDomain, SystemIdleCpuTimeNs)
    ensures Names("system.available_physical_memory_bytes", SystemDomain, AvailablePhysicalMemoryBytes)
    ensures Names("system.commit_current_bytes", SystemDomain, CommitCurrentBytes)
    ensures Names("system.commit_limit_bytes", SystemDomain, CommitLimitBytes)
    ensures Names("system.disk_free_bytes", SystemDomain, DiskFreeBytes)
  {
    hide Names;
    ProcessMemoryAndTimeNames();
    ProcessByteAndCountNames();
    ProcessOperationNames();
    ProbeMemoryAndTimeNames();
    ProbeByteAndCountNames();
    SystemUserTimeName();
    SystemKernelTimeName();
    SystemIdleTimeName();
    SystemMemoryName();
    SystemCommitAndDiskNames();
  }

  // ---- Values ----------------------------------------------------------------------------------

  /** Only a missing key is absent, and only an unsigned 64-bit number is a number; null is neither. */
  lemma LeavesAreStrict(v: Option<Value>)
    ensures LeafOf(v) == Absent <==> v == None
    ensures LeafOf(v) == Leaf.Null <==> v == Some(Value.Null)
    ensures forall n: u64 :: LeafOf(v) == Num(n) <==> v == Some(Number(n))
    ensures v.Some? && v.value.Number? && v.value.n > 0xFFFF_FFFF_FFFF_FFFF ==> LeafOf(v) == Malformed
    ensures TextOf(v) == NoText <==> v == None
    ensures forall t: string :: TextOf(v) == Text(t) <==> v == Some(String(t))
  {
  }

  /** The members of an object in order. */
  function Pairs(ms: Members): seq<(string, Value)> {
    if ms.NoMembers? then [] else [(ms.key, ms.value)] + Pairs(ms.rest)
  }

  predicate LastPair(ms: Members, key: string, i: nat) {
    i < |Pairs(ms)| && Pairs(ms)[i].0 == key && forall k | i < k < |Pairs(ms)| :: Pairs(ms)[k].0 != key
  }

  /** Of repeated keys the last one is read; a key that does not occur is missing. */
  lemma {:induction false} LastKeyIsRead(ms: Members, key: string)
    ensures forall i: nat | LastPair(ms, key, i) :: Lookup(ms, key) == Some(Pairs(ms)[i].1)
    ensures Lookup(ms, key).Some? ==> exists i: nat :: LastPair(ms, key, i)
  {
    if ms.Member? {
      var all, rest := Pairs(ms), Pairs(ms.rest);
      LastKeyIsRead(ms.rest, key);
      assert forall k | 0 <= k < |rest| :: rest[k] == all[k + 1];
      forall i: nat | LastPair(ms, key, i)
        ensures Lookup(ms, key) == Some(all[i].1)
      {
        if i > 0 {
          assert LastPair(ms.rest, key, i - 1);
        }
      }
      if Lookup(ms.rest, key).Some? {
        var k: nat :| LastPair(ms.rest, key, k);
        assert LastPair(ms, key, k + 1);
      } else if ms.key == key {
        forall k | 0 < k < |all|
          ensures all[k].0 != key
        {
          NotThere(ms.rest, key, k - 1);
        }
        assert LastPair(ms, key, 0);
      }
    }
  }

  lemma {:induction false} NotThere(ms: Members, key: string, k: nat)
    requires Lookup(ms, key).None? && k < |Pairs(ms)|
    ensures Pairs(ms)[k].0 != key
  {
    if k > 0 {
      NotThere(ms.rest, key, k - 1);
    }
  }

  /** Of anything but an array of rows there are none, and only `true` confirms the root live. */
  lemma SamplesAreStrict(ms: Members)
    ensures var s := ReadSample(Object(ms));
            && (s.live <==> Lookup(ms, "root_process_confirmed_live") == Some(Bool(true)))
            && (s.rows.Some? <==> Lookup(ms, "processes").Some? && Lookup(ms, "processes").value.Array?)
            && (s.isSample <==> Lookup(ms, "record_type") == Some(String("sample")))
            && (s.probe.Some? <==> Lookup(ms, "probe").Some?)
            && (s.system.Some? <==> Lookup(ms, "system").Some?)
            && (s.job.Some? <==> Lookup(ms, "job").Some?)
  {
    hide Lookup, ReadCells, ReadRows, ReadJob;
  }

  // ---- Vocabulary ------------------------------------------------------------------------------

  /** A sample is v2 under this schema name and no other. */
  lemma SchemaIsNamed(ms: Members)
    ensures ReadSample(Object(ms)).v2 <==>
            Lookup(ms, "schema_draft_version") == Some(String("perf-evidence-v2-draft"))
  {
    hide Lookup, ReadCells, ReadRows, ReadJob;
  }

  lemma SubjectsAreNamed()
    ensures SubjectNamed("RUN") == RunSubject && SubjectNamed("PROCESS") == ProcessSubject
    ensures SubjectNamed("SAMPLE") == SampleSubject && SubjectNamed("PROCESS_SAMPLE") == ProcessSampleSubject
    ensures forall t: string :: SubjectNamed(t) == OtherSubject <==>
              t != "RUN" && t != "PROCESS" && t != "SAMPLE" && t != "PROCESS_SAMPLE"
  {
  }

  lemma ReasonsAreNamed()
    ensures ReasonNamed("unsupported") == Unsupported && ReasonNamed("not_applicable") == NotApplicable
    ensures ReasonNamed("semantic_mismatch") == SemanticMismatch
    ensures ReasonNamed("authority_unavailable") == AuthorityUnavailable
    ensures ReasonNamed("sampling_degraded") == SamplingDegraded
    ensures forall t: string :: ReasonNamed(t) == OtherReason <==>
              t != "unsupported" && t != "not_applicable" && t != "semantic_mismatch" &&
              t != "authority_unavailable" && t != "sampling_degraded"
  {
  }

  // ---- Written objects -------------------------------------------------------------------------

  lemma ProcessIsWritten(p: ProcessRecord, source: string, acquisition: string)
    ensures var ms := ProcessObject(p, source, acquisition);
            && Lookup(ms, "process_local_id") == NumberOf(p.id) && Lookup(ms, "pid") == NumberOf(p.pid)
            && Lookup(ms, "process_start_time") == NumberOf(p.startTime)
            && Lookup(ms, "boot_identity") == StringOf(p.boot) && Lookup(ms, "parent_local_id") == NumberOf(p.parent)
  {
    hide FromPairs, Lookup, DistinctKeys;
    ProcessKeysDistinct();
    var vs := ProcessValues(p, source, acquisition);
    LookupAt(PROCESS_KEYS, vs, 0);
    LookupAt(PROCESS_KEYS, vs, 1);
    LookupAt(PROCESS_KEYS, vs, 2);
    LookupAt(PROCESS_KEYS, vs, 3);
    LookupAt(PROCESS_KEYS, vs, 4);
  }

  lemma JobIsWritten(j: Job, d: JobDetails)
    ensures var ms := JobObject(j, d);
            && Lookup(ms, "total_user_time_ns") == NumberOf(j.userTime)
            && Lookup(ms, "total_kernel_time_ns") == NumberOf(j.kernelTime)
            && Lookup(ms, "read_transfer_bytes") == NumberOf(j.readBytes)
            && Lookup(ms, "write_transfer_bytes") == NumberOf(j.writeBytes)
            && Lookup(ms, "read_operation_count") == NumberOf(j.readOperations)
            && Lookup(ms, "write_operation_count") == NumberOf(j.writeOperations)
            && Lookup(ms, "total_processes_os") == NumberOf(j.totalProcesses)
  {
    hide FromPairs, Lookup, DistinctKeys;
    JobKeysDistinct();
    var vs := JobValues(j, d);
    LookupAt(JOB_KEYS, vs, 0);
    LookupAt(JOB_KEYS, vs, 1);
    LookupAt(JOB_KEYS, vs, 2);
    LookupAt(JOB_KEYS, vs, 3);
    LookupAt(JOB_KEYS, vs, 5);
    LookupAt(JOB_KEYS, vs, 6);
    LookupAt(JOB_KEYS, vs, 8);
  }

  lemma SampleIsWritten(s: Sample, scheduled: u64, delay: u64, d: JobDetails)
    requires WritableSample(s)
    ensures var ms := SampleObject(s, scheduled, delay, d);
            && Lookup(ms, "schema_draft_version") == Some(String("perf-evidence-v2-draft"))
            && Lookup(ms, "record_type") == Some(String("sample"))
            && Lookup(ms, "wall_time_utc") == Some(String(s.wallTime.value))
            && Lookup(ms, "monotonic_ns") == NumberOf(s.monotonic)
            && Lookup(ms, "gap_from_previous_sample_ns") == NumberOf(s.gap)
            && Lookup(ms, "root_process_confirmed_live") == Some(Bool(s.live))
            && Lookup(ms, "process_set_working_set_sum_bytes") == NumberOf(s.workingSetSum)
            && Lookup(ms, "process_set_private_bytes_sum") == NumberOf(s.privateSum)
            && Lookup(ms, "processes") == Some(Array(RowItems(s.rows.value)))
            && Lookup(ms, "job") == (if s.job.Some? then Some(Object(JobObject(s.job.value, d))) else None)
            && Lookup(ms, "system") == Some(CellsValue(SYSTEM_FIELDS, s.system.value))
            && Lookup(ms, "probe") == Some(CellsValue(PROBE_FIELDS, s.probe.value))
  {
    hide FromPairs, Lookup, RowItems, CellsValue, JobObject, WritableRow, WritableCells, WritableJob;
    SampleLookups(SampleValues(s, scheduled, delay, d));
  }

  lemma DeclarationIsWritten(e: Event, d: EventDetails)
    requires e.MetricUnavailable? && WritableEvent(e)
    ensures var ms := EventObject(e, d);
            && Lookup(ms, "record_type") == Some(String("metric_unavailable"))
            && Lookup(ms, "metric") == Some(String(MetricName(e.metric.value)))
            && Lookup(ms, "subject_kind") == Some(String(SubjectName(e.subject.value)))
            && Lookup(ms, "reason") == Some(String(ReasonName(e.reason.value)))
            && Lookup(ms, "process_local_id") == NumberOf(e.processId)
            && Lookup(ms, "sample_ordinal") == NumberOf(e.ordinal)
  {
    hide FromPairs, Lookup, DistinctKeys, MetricName, SubjectName, ReasonName, Known;
    EventKeysDistinct();
    var vs := DeclarationValues(e);
    LookupAt(DECLARATION_KEYS, vs, 0);
    LookupAt(DECLARATION_KEYS, vs, 1);
    LookupAt(DECLARATION_KEYS, vs, 2);
    LookupAt(DECLARATION_KEYS, vs, 3);
    LookupAt(DECLARATION_KEYS, vs, 4);
    LookupAt(DECLARATION_KEYS, vs, 5);
  }

  lemma ExitIsWritten(e: Event, d: EventDetails)
    requires e.ExitObserved?
    ensures var ms := EventObject(e, d);
            && Lookup(ms, "record_type") == Some(String("process_exit_observed"))
            && Lookup(ms, "process_local_id") == NumberOf(e.process)
            && Lookup(ms, "exit_code") == NumberOf(e.exitCode)
            && Lookup(ms, "terminal_user_cpu_time_ns") == NumberOf(e.userTime)
            && Lookup(ms, "terminal_kernel_cpu_time_ns") == NumberOf(e.kernelTime)
            && Lookup(ms, "terminal_read_bytes") == NumberOf(e.readBytes)
            && Lookup(ms, "terminal_write_bytes") == NumberOf(e.writeBytes)
            && Lookup(ms, "terminal_counter_fidelity") == StringOf(e.fidelity)
  {
    hide FromPairs, Lookup, DistinctKeys;
    ExitKeysDistinct();
    var vs := ExitValues(e, d);
    LookupAt(EXIT_KEYS, vs, 0);
    LookupAt(EXIT_KEYS, vs, 1);
    LookupAt(EXIT_KEYS, vs, 3);
    LookupAt(EXIT_KEYS, vs, 5);
    LookupAt(EXIT_KEYS, vs, 6);
    LookupAt(EXIT_KEYS, vs, 8);
    LookupAt(EXIT_KEYS, vs, 9);
    LookupAt(EXIT_KEYS, vs, 10);
  }

  /** The retention mark is written as true or left out, and the two handle events carry the id they are about. */
  lemma OtherEventsAreWritten(e: Event, d: EventDetails)
    ensures e.CollectorDegradation? ==>
              && Lookup(EventObject(e, d), "record_type") == Some(String("collector_degradation"))
              && Lookup(EventObject(e, d), "handle_retention_degraded") ==
                 if e.retention then Some(Bool(true)) else None
    ensures e.ProcessObserved? ==>
              && Lookup(EventObject(e, d), "record_type") == Some(String("process_observed"))
              && Lookup(EventObject(e, d), "process_local_id") == Some(Number(e.observedId))
    ensures e.HandleReleased? ==>
              && Lookup(EventObject(e, d), "record_type") == Some(String("handle_released"))
              && Lookup(EventObject(e, d), "process_local_id") == Some(Number(e.releasedId))
  {
    hide FromPairs, Lookup, DistinctKeys;
    EventKeysDistinct();
    match e
    case CollectorDegradation(_) =>
      LookupAt(DEGRADATION_KEYS, DegradationValues(e, d), 0);
      LookupAt(DEGRADATION_KEYS, DegradationValues(e, d), 1);
    case ProcessObserved(id) =>
      LookupAt(HANDLE_KEYS, HandleValues("process_observed", id, d), 0);
      LookupAt(HANDLE_KEYS, HandleValues("process_observed", id, d), 2);
    case HandleReleased(id) =>
      LookupAt(HANDLE_KEYS, HandleValues("handle_released", id, d), 0);
      LookupAt(HANDLE_KEYS, HandleValues("handle_released", id, d), 2);
    case _ =>
  }
}
