/**
 * What the Windows collector's records hold, field by field: which counter goes into which cell, whose
 * parent a child record names, and what an exit event says.
 */
module WindowsRecords {
  import opened Prelude
  import opened Records
  import opened Discovery
  import opened WindowsRun
  import opened WindowsIdentity
  import opened WindowsTurns
  import Folds

  // ---- Samples ---------------------------------------------------------------------------------

  function CountOf(threads: Option<u32>): Leaf {
    match threads
    case Some(n) => Num(n)
    case None => Absent
  }

  /** The cells of one process are its counters, under their own names. */
  predicate RowShows(c: Cells, m: Measured) {
    && Get(c, WorkingSetBytes) == Num(m.workingSet) && Get(c, PrivateBytes) == Num(m.private)
    && Get(c, UserCpuTimeNs) == Num(m.user) && Get(c, KernelCpuTimeNs) == Num(m.kernel)
    && Get(c, ReadBytes) == Num(m.read) && Get(c, WriteBytes) == Num(m.write) && Get(c, OtherBytes) == Num(m.other)
    && Get(c, ReadOperations) == Num(m.readOps) && Get(c, WriteOperations) == Num(m.writeOps)
    && Get(c, OtherOperations) == Num(m.otherOps)
    && Get(c, ThreadCount) == CountOf(m.threads) && Get(c, HandleCount) == Num(m.handles)
  }

  predicate ProbeShows(c: Cells, m: Measured) {
    && Get(c, WorkingSetBytes) == Num(m.workingSet) && Get(c, PrivateBytes) == Num(m.private)
    && Get(c, UserCpuTimeNs) == Num(m.user) && Get(c, KernelCpuTimeNs) == Num(m.kernel)
    && Get(c, ReadBytes) == Num(m.read) && Get(c, WriteBytes) == Num(m.write)
    && Get(c, ThreadCount) == CountOf(m.threads) && Get(c, HandleCount) == Num(m.handles)
  }

  predicate SystemShows(c: Cells, s: SystemCounters) {
    && Get(c, SystemUserCpuTimeNs) == Num(s.user) && Get(c, SystemKernelCpuTimeNs) == Num(s.kernel)
    && Get(c, SystemIdleCpuTimeNs) == Num(s.idle) && Get(c, AvailablePhysicalMemoryBytes) == Num(s.available)
    && Get(c, CommitCurrentBytes) == Num(s.commitCurrent) && Get(c, CommitLimitBytes) == Num(s.commitLimit)
    && Get(c, DiskFreeBytes) == Num(s.diskFree)
  }

  predicate JobShows(job: Option<Job>, counters: Option<JobCounters>) {
    match counters
    case None => job == None
    case Some(j) =>
      && job.Some? && job.value.userTime == Num(j.user) && job.value.kernelTime == Num(j.kernel)
      && job.value.readBytes == Num(j.read) && job.value.writeBytes == Num(j.write)
      && job.value.readOperations == Num(j.readOps) && job.value.writeOperations == Num(j.writeOps)
      && job.value.totalProcesses == Num(j.total)
  }

  lemma CellShows(m: Measured, f: Field)
    ensures Get(ProcessCells(m), f) ==
            match f
            case WorkingSetBytes => Num(m.workingSet)
            case PrivateBytes => Num(m.private)
            case UserCpuTimeNs => Num(m.user)
            case KernelCpuTimeNs => Num(m.kernel)
            case ReadBytes => Num(m.read)
            case WriteBytes => Num(m.write)
            case OtherBytes => Num(m.other)
            case ReadOperations => Num(m.readOps)
            case WriteOperations => Num(m.writeOps)
            case OtherOperations => Num(m.otherOps)
            case ThreadCount => CountOf(m.threads)
            case HandleCount => Num(m.handles)
            case _ => Absent
  {
  }

  lemma RowCellsShow(m: Measured)
    ensures RowShows(ProcessCells(m), m)
  {
    hide ProcessCells, Get, CountOf;
    CellShows(m, WorkingSetBytes);
    CellShows(m, PrivateBytes);
    CellShows(m, UserCpuTimeNs);
    CellShows(m, KernelCpuTimeNs);
    CellShows(m, ReadBytes);
    CellShows(m, WriteBytes);
    CellShows(m, OtherBytes);
    CellShows(m, ReadOperations);
    CellShows(m, WriteOperations);
    CellShows(m, OtherOperations);
    CellShows(m, ThreadCount);
    CellShows(m, HandleCount);
  }

  lemma ProbeCellsShow(m: Measured)
    ensures ProbeShows(ProbeCells(m), m)
  {
  }

  lemma SystemCellsShow(c: SystemCounters, j: Option<JobCounters>)
    ensures SystemShows(SystemCells(c), c)
    ensures JobShows(if j.Some? then Some(JobRecord(j.value)) else None, j)
  {
  }

  /** The gap to the previous sample: none for the first, nothing below zero. */
  predicate GapShows(gap: Leaf, monotonic: u64, previous: Option<u64>) {
    match previous
    case None => gap == Absent
    case Some(p) => gap.Num? && (monotonic >= p ==> p + gap.n == monotonic) && (monotonic < p ==> gap.n == 0)
  }

  /** The row is the one of the id's process, as the turn measured it. */
  predicate ChildShown(row: Row, children: u64 -> Option<Measured>) {
    row.id.Num? && children(row.id.n).Some? && RowShows(row.cells, children(row.id.n).value)
  }

  /** The plain sum of one count over the rows, as far as 64 bits hold it. */
  predicate SumShows(sum: Leaf, rows: seq<Row>, f: Field) {
    sum == Num(Folds.Total(rows, f, |rows|) % 0x1_0000_0000_0000_0000)
  }

  lemma {:induction false} TotalIsSum(rows: seq<Counted>, f: Field, n: nat)
    requires n <= |rows| && (f == WorkingSetBytes || f == PrivateBytes)
    ensures Total(rows, f, n) == Folds.Total(RowRecords(rows), f, n)
  {
    hide ProcessCells, Get;
    if n > 0 {
      TotalIsSum(rows, f, n - 1);
      RowCellsShow(rows[n - 1].counters);
    }
  }

  lemma SumsShow(t: Taken)
    ensures SumShows(SampleOf(t).workingSetSum, SampleOf(t).rows.value, WorkingSetBytes)
    ensures SumShows(SampleOf(t).privateSum, SampleOf(t).rows.value, PrivateBytes)
  {
    hide ProcessCells, ProbeCells, SystemCells, JobRecord, Total;
    TotalIsSum(t.rows, WorkingSetBytes, |t.rows|);
    TotalIsSum(t.rows, PrivateBytes, |t.rows|);
  }

  /** A sample as the turn measured it; the root's row comes first. */
  predicate SampleShows(turn: Turn, previous: Option<u64>, s: Sample) {
    && turn.reading.Some? && turn.rootGone.Some?
    && s.v2 && s.isSample && s.monotonic == Num(turn.monotonic) && GapShows(s.gap, turn.monotonic, previous)
    && s.live == !turn.rootGone.value && s.wallTime == Some(turn.reading.value.wallTime)
    && s.rows.Some? && |s.rows.value| > 0
    && s.rows.value[0].id == Num(1) && RowShows(s.rows.value[0].cells, turn.reading.value.root)
    && (forall j | 0 < j < |s.rows.value| :: ChildShown(s.rows.value[j], turn.children))
    && s.probe.Some? && ProbeShows(s.probe.value, turn.reading.value.probe)
    && s.system.Some? && SystemShows(s.system.value, turn.reading.value.system)
    && JobShows(s.job, turn.reading.value.job)
    && SumShows(s.workingSetSum, s.rows.value, WorkingSetBytes) && SumShows(s.privateSum, s.rows.value, PrivateBytes)
  }

  predicate HasRow(s: Sample, id: u64) {
    s.rows.Some? && exists j | 0 <= j < |s.rows.value| :: s.rows.value[j].id == Num(id)
  }

  lemma TakenShows(turn: Turn, previous: Option<u64>, t: Taken)
    requires TakenAs(turn, t) && t.gap == GapSince(previous, t.monotonic)
    requires t.rows != [] && t.rows[0] == Counted(1, turn.reading.value.root)
    requires forall j | 0 < j < |t.rows| :: Some(t.rows[j].counters) == turn.children(t.rows[j].id)
    ensures SampleShows(turn, previous, SampleOf(t))
  {
    hide RowShows, ProbeShows, SystemShows, JobShows, SumShows, ProcessCells, ProbeCells, SystemCells, JobRecord, Total,
      Wrapped;
    SumsShow(t);
    var rows := RowRecords(t.rows);
    forall j | 0 <= j < |t.rows|
      ensures rows[j].id == Num(t.rows[j].id) && RowShows(rows[j].cells, t.rows[j].counters)
    {
      RowCellsShow(t.rows[j].counters);
    }
    ProbeCellsShow(t.probe);
    SystemCellsShow(t.system, t.job);
  }

  lemma TakenHasRow(t: Taken, c: Counted)
    requires c in t.rows
    ensures HasRow(SampleOf(t), c.id)
  {
    hide ProcessCells, ProbeCells, SystemCells, JobRecord, Total, Wrapped;
    var j :| 0 <= j < |t.rows| && t.rows[j] == c;
    assert SampleOf(t).rows.value[j].id == Num(c.id);
  }

  // ---- Declarations ----------------------------------------------------------------------------

  /** Every absent thread count of sample `o` is declared as degraded sampling, under the row's id or the probe. */
  predicate ThreadsDeclared(events: seq<Event>, s: Sample, o: u64)
    requires s.rows.Some? && s.probe.Some?
  {
    && (forall j | 0 <= j < |s.rows.value| && Get(s.rows.value[j].cells, ThreadCount) == Absent ::
          MetricUnavailable(Text(Metric(ProcessDomain, ThreadCount)), Text(ProcessSampleSubject),
                            Text(SamplingDegraded), s.rows.value[j].id, Num(o)) in events)
    && (Get(s.probe.value, ThreadCount) == Absent ==>
          MetricUnavailable(Text(Metric(ProbeDomain, ThreadCount)), Text(SampleSubject),
                            Text(SamplingDegraded), Absent, Num(o)) in events)
  }

  lemma {:induction false} RowDeclared(rows: seq<Counted>, n: nat, o: u64, j: nat)
    requires j < n <= |rows| && rows[j].counters.threads.None?
    ensures RowDeclaration(rows[j].id, o) in RowDeclarations(rows, n, o)
  {
    if j < n - 1 {
      RowDeclared(rows, n - 1, o, j);
    }
  }

  lemma DeclaredShow(t: Taken, o: u64)
    ensures ThreadsDeclared(Declared(t, o), SampleOf(t), o)
  {
    hide RowDeclarations, Total, Wrapped;
    var rows := SampleOf(t).rows.value;
    forall j | 0 <= j < |rows| && Get(rows[j].cells, ThreadCount) == Absent
      ensures RowDeclaration(t.rows[j].id, o) in Declared(t, o)
    {
      RowDeclared(t.rows, |t.rows|, o, j);
    }
  }

  // ---- Child records ---------------------------------------------------------------------------

  lemma {:induction false} RecordsStay(z: Setup, steps: seq<Step>, k: nat)
    requires Exec(z, steps).Some? && k <= |steps|
    ensures ProcessesOf(At(z, steps, k).sent) <= ProcessesOf(Exec(z, steps).value.sent)
    decreases |steps|
  {
    hide Legal, After, ProcessesOf, StepEvents;
    if k == |steps| {
      AtEnd(z, steps);
    } else {
      var init := steps[..|steps| - 1];
      var st, step := Exec(z, init).value, steps[|steps| - 1];
      RecordsStay(z, init, k);
      AtPrefix(z, init, steps, k);
      StepStreams(z, st, step);
    }
  }

  /**
   * The record of the process that step `k` registers: its id is the next one, and it names a parent
   * exactly when the listed parent is known at that step, by the id it is known under, which is the id
   * of a record with that PID.
   */
  predicate ChildRecorded(z: Setup, ps: seq<ProcessRecord>, before: State, step: Step)
    requires step.Meet?
  {
    && 2 <= before.next <= |ps|
    && var r := ps[before.next - 1];
    && r.id == Num(before.next) && r.pid == Num(step.pid) && r.boot == Text(z.boot)
    && r.startTime == Num(match step.opening case Denied => 0 case Opened(startTime) => startTime)
    && (step.parent !in before.known ==> r.parent == Absent)
    && (step.parent in before.known ==>
          && r.parent == Num(before.known[step.parent])
          && 1 <= before.known[step.parent] < before.next
          && ps[before.known[step.parent] - 1].pid == Num(step.parent))
  }

  lemma MeetIsRecorded(z: Setup, steps: seq<Step>, k: nat)
    requires Exec(z, steps).Some? && k < |steps| && steps[k].Meet?
    ensures ChildRecorded(z, ProcessesOf(Exec(z, steps).value.sent), At(z, steps, k), steps[k])
  {
    hide Exec, At, After, ProcessesOf, Identities, RetainedOk;
    var before := At(z, steps, k);
    StepAt(z, steps, k);
    RunKeepsIdentity(z, steps[..k]);
    StepStreams(z, before, steps[k]);
    RecordsStay(z, steps, k + 1);
    if steps[k].parent in before.known {
      assert Names(ProcessesOf(before.sent), before.known[steps[k].parent], steps[k].parent);
    }
  }

  /** What one discovery registers, in terms of its snapshot alone. */
  predicate DiscoveredAs(z: Setup, snapshot: seq<Listed>, ps: seq<ProcessRecord>, before: State, step: Step) {
    && step.Meet? && ChildRecorded(z, ps, before, step)
    && exists i | 0 <= i < |snapshot| ::
         && snapshot[i].pid == step.pid && snapshot[i].parent == step.parent
         && forall h | i < h < |snapshot| :: snapshot[h].pid != step.pid
  }
}
