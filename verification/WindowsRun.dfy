/**
 * The Windows collector as a transition system: what it keeps between steps, the steps it takes and
 * the messages each step puts on the queue. Everything the operating system answers is a step's
 * argument, so a run is any sequence of legal steps.
 */
module WindowsRun {
  import opened Prelude
  import opened Records
  import opened Journal

  // ---- What the operating system reports -------------------------------------------------------

  /** `process_sample`: every counter is there except that the thread count may be missing. */
  datatype Measured = Measured(workingSet: u64, private: u64, user: u64, kernel: u64, read: u64, write: u64, other: u64,
                               readOps: u64, writeOps: u64, otherOps: u64, threads: Option<u32>, handles: u32)

  datatype SystemCounters = SystemCounters(user: u64, kernel: u64, idle: u64, available: u64,
                                           commitCurrent: u64, commitLimit: u64, diskFree: u64)

  datatype JobCounters = JobCounters(user: u64, kernel: u64, read: u64, write: u64,
                                     readOps: u64, writeOps: u64, total: u64)

  /** Opening a discovered process; a start time that cannot be read is recorded as zero. */
  datatype Opening = Denied | Opened(startTime: u64)

  // ---- Records ---------------------------------------------------------------------------------

  function ThreadCell(threads: Option<u32>): Cells {
    if threads.Some? then map[ThreadCount := Num(threads.value)] else map[]
  }

  function ProcessCells(m: Measured): Cells {
    map[WorkingSetBytes := Num(m.workingSet), PrivateBytes := Num(m.private),
        UserCpuTimeNs := Num(m.user), KernelCpuTimeNs := Num(m.kernel),
        ReadBytes := Num(m.read), WriteBytes := Num(m.write), OtherBytes := Num(m.other),
        ReadOperations := Num(m.readOps), WriteOperations := Num(m.writeOps), OtherOperations := Num(m.otherOps),
        HandleCount := Num(m.handles)] + ThreadCell(m.threads)
  }

  function ProbeCells(m: Measured): Cells {
    map[WorkingSetBytes := Num(m.workingSet), PrivateBytes := Num(m.private),
        UserCpuTimeNs := Num(m.user), KernelCpuTimeNs := Num(m.kernel),
        ReadBytes := Num(m.read), WriteBytes := Num(m.write), HandleCount := Num(m.handles)] + ThreadCell(m.threads)
  }

  function SystemCells(c: SystemCounters): Cells {
    map[SystemUserCpuTimeNs := Num(c.user), SystemKernelCpuTimeNs := Num(c.kernel), SystemIdleCpuTimeNs := Num(c.idle),
        AvailablePhysicalMemoryBytes := Num(c.available), CommitCurrentBytes := Num(c.commitCurrent),
        CommitLimitBytes := Num(c.commitLimit), DiskFreeBytes := Num(c.diskFree)]
  }

  function JobRecord(j: JobCounters): Job {
    Job(Num(j.user), Num(j.kernel), Num(j.read), Num(j.write), Num(j.readOps), Num(j.writeOps), Num(j.total))
  }

  /** A sampled process, under the local id its handle was registered with. */
  datatype Counted = Counted(id: u64, counters: Measured)

  /** One sample, root row first. */
  datatype Taken = Taken(rows: seq<Counted>, probe: Measured, system: SystemCounters, job: Option<JobCounters>,
                         monotonic: u64, gap: Option<u64>, live: bool, wallTime: string)

  function Counter(m: Measured, f: Field): u64 {
    if f.WorkingSetBytes? then m.workingSet else m.private
  }

  function Total(rows: seq<Counted>, f: Field, n: nat): nat
    requires n <= |rows|
  {
    if n == 0 then 0 else Total(rows, f, n - 1) + Counter(rows[n - 1].counters, f)
  }

  /** `sum` over u64 in a release build wraps around. */
  function Wrapped(n: nat): u64 {
    n % (U64_MAX + 1)
  }

  function RowRecords(rows: seq<Counted>): (rs: seq<Row>)
    ensures |rs| == |rows|
    ensures forall j | 0 <= j < |rs| :: rs[j] == Row(Num(rows[j].id), ProcessCells(rows[j].counters))
  {
    seq(|rows|, j requires 0 <= j < |rows| => Row(Num(rows[j].id), ProcessCells(rows[j].counters)))
  }

  function SampleOf(t: Taken): Sample {
    Sample(true, true, Num(t.monotonic), if t.gap.Some? then Num(t.gap.value) else Absent,
           Some(RowRecords(t.rows)),
           Num(Wrapped(Total(t.rows, WorkingSetBytes, |t.rows|))), Num(Wrapped(Total(t.rows, PrivateBytes, |t.rows|))),
           t.live, Some(t.wallTime), Some(ProbeCells(t.probe)), Some(SystemCells(t.system)),
           if t.job.Some? then Some(JobRecord(t.job.value)) else None)
  }

  const PROCESS_THREADS: Metric := Metric(ProcessDomain, ThreadCount)
  const PROBE_THREADS: Metric := Metric(ProbeDomain, ThreadCount)

  function RowDeclaration(id: u64, o: u64): Event {
    MetricUnavailable(Text(PROCESS_THREADS), Text(ProcessSampleSubject), Text(SamplingDegraded), Num(id), Num(o))
  }

  function ProbeDeclaration(o: u64): Event {
    MetricUnavailable(Text(PROBE_THREADS), Text(SampleSubject), Text(SamplingDegraded), Absent, Num(o))
  }

  function RowDeclarations(rows: seq<Counted>, n: nat, o: u64): seq<Event>
    requires n <= |rows|
  {
    if n == 0 then []
    else RowDeclarations(rows, n - 1, o) +
         (if rows[n - 1].counters.threads.None? then [RowDeclaration(rows[n - 1].id, o)] else [])
  }

  /** The declarations that precede sample `o`: one for each thread count that is missing from it. */
  function Declared(t: Taken, o: u64): seq<Event> {
    RowDeclarations(t.rows, |t.rows|, o) + (if t.probe.threads.None? then [ProbeDeclaration(o)] else [])
  }

  // ---- State and steps -------------------------------------------------------------------------

  /** `limit` counts the root's handle; `launched` runs the target in a job, otherwise it is attached to. */
  datatype Setup = Setup(rootPid: u32, startTime: u64, boot: string, limit: nat, launched: bool)

  /**
   * `known` and `retained` map PIDs to local ids. `lost` is history: ids whose retained handle was
   * dropped because another process was retained under the same PID.
   */
  datatype State = State(known: map<u32, u64>, retained: map<u32, u64>, next: u64, degraded: bool,
                         taken: seq<Taken>, sent: seq<Message>, lost: set<u64>)

  datatype Step =
    | Forget(live: set<u32>)
    | Meet(pid: u32, parent: u32, opening: Opening)
    | Finish(pid: u32, code: u32, terminal: Measured)
    | Take(sample: Taken)

  function RootRecord(z: Setup): ProcessRecord {
    ProcessRecord(Num(1), Num(z.rootPid), Num(z.startTime), Text(z.boot), Absent)
  }

  /** Events of other kinds frame the root's record: the prepared port, and the start of observation. */
  function Prologue(z: Setup): seq<Message> {
    (if z.launched then [EventMessage(OtherEvent)] else []) + [ProcessMessage(RootRecord(z)), EventMessage(OtherEvent)]
  }

  function Start(z: Setup): State {
    State(map[z.rootPid := 1], map[], 2, false, [], Prologue(z), {})
  }

  predicate CanRetain(z: Setup, st: State) {
    |st.retained| + 1 < z.limit
  }

  function ChildRecord(z: Setup, st: State, pid: u32, parent: u32, opening: Opening): ProcessRecord {
    ProcessRecord(Num(st.next), Num(pid), Num(if opening.Denied? then 0 else opening.startTime), Text(z.boot),
                  if parent in st.known then Num(st.known[parent]) else Absent)
  }

  function ExitOf(id: u64, code: u32, m: Measured): Event {
    ExitObserved(Num(id), Num(code), Num(m.user), Num(m.kernel), Num(m.read), Num(m.write),
                 Text("attempted_after_exit"))
  }

  /** What follows the process record of a newly met child. */
  function MeetEvents(z: Setup, st: State, opening: Opening): seq<Event> {
    if opening.Denied? then [CollectorDegradation(false)]
    else if CanRetain(z, st) then [ProcessObserved(st.next)]
    else if !st.degraded then [CollectorDegradation(true)]
    else []
  }

  predicate Legal(z: Setup, st: State, step: Step) {
    match step
    case Forget(live) => z.rootPid in live
    case Meet(pid, _, _) => pid !in st.known && st.next < U64_MAX
    case Finish(pid, _, _) => pid in st.retained
    case Take(t) => |st.taken| < U64_MAX && RowsLegal(st, t.rows) &&
                    t.gap == GapSince(PreviousOf(st.taken), t.monotonic) &&
                    (t.job.Some? <==> z.launched)
  }

  /** The root's row first, then rows of retained children, each at most once. */
  predicate RowsLegal(st: State, rows: seq<Counted>) {
    && rows != [] && rows[0].id == 1
    && (forall j | 0 < j < |rows| :: rows[j].id in st.retained.Values)
    && (forall j, k | 0 < j < k < |rows| :: rows[j].id != rows[k].id)
  }

  /** When the last sample was taken. */
  function PreviousOf(taken: seq<Taken>): Option<u64> {
    if taken == [] then None else Some(taken[|taken| - 1].monotonic)
  }

  /** `saturating_sub` from the previous sample's time; the first sample has no gap. */
  function GapSince(previous: Option<u64>, monotonic: u64): Option<u64> {
    if previous.None? then None
    else Some(if monotonic < previous.value then 0 else monotonic - previous.value)
  }

  function StepMessages(z: Setup, st: State, step: Step): seq<Message>
    requires Legal(z, st, step)
  {
    match step
    case Forget(_) => []
    case Meet(pid, parent, opening) =>
      [ProcessMessage(ChildRecord(z, st, pid, parent, opening))] + AsMessages(MeetEvents(z, st, opening))
    case Finish(pid, code, m) => AsMessages([ExitOf(st.retained[pid], code, m), HandleReleased(st.retained[pid])])
    case Take(t) => EntryMessages(Entry(Declared(t, |st.taken|), SampleOf(t)))
  }

  function Moved(z: Setup, st: State, step: Step): State
    requires Legal(z, st, step)
  {
    match step
    case Forget(live) => st.(known := map p | p in st.known && p in live :: st.known[p])
    case Meet(pid, _, opening) =>
      var met := st.(known := st.known[pid := st.next], next := st.next + 1);
      if opening.Denied? then met
      else if CanRetain(z, st) then
        met.(retained := st.retained[pid := st.next],
             lost := st.lost + (if pid in st.retained then {st.retained[pid]} else {}))
      else met.(degraded := true)
    case Finish(pid, _, _) => st.(retained := st.retained - {pid})
    case Take(t) => st.(taken := st.taken + [t])
  }

  function After(z: Setup, st: State, step: Step): State
    requires Legal(z, st, step)
  {
    Moved(z, st, step).(sent := st.sent + StepMessages(z, st, step))
  }

  /** The states that runs reach. */
  function Exec(z: Setup, steps: seq<Step>): Option<State> {
    if steps == [] then Some(Start(z))
    else
      var before := Exec(z, steps[..|steps| - 1]);
      var step := steps[|steps| - 1];
      if before.Some? && Legal(z, before.value, step) then Some(After(z, before.value, step)) else None
  }

  lemma ExecSnoc(z: Setup, steps: seq<Step>, step: Step)
    requires Exec(z, steps).Some? && Legal(z, Exec(z, steps).value, step)
    ensures Exec(z, steps + [step]) == Some(After(z, Exec(z, steps).value, step))
  {
    hide Legal, After;
    assert (steps + [step])[..|steps|] == steps;
  }

  /** A step that retains a process under a PID whose earlier handle is still retained. */
  predicate Relists(z: Setup, st: State, step: Step) {
    step.Meet? && step.opening.Opened? && CanRetain(z, st) && step.pid in st.retained
  }

  predicate RelistsAt(z: Setup, steps: seq<Step>, k: int)
    requires 0 <= k < |steps|
  {
    var before := Exec(z, steps[..k]);
    before.Some? && Relists(z, before.value, steps[k])
  }

  /** The whole stream of a run: the root's exit and release follow the observation loop. */
  function Finished(st: State, code: u32, m: Measured): seq<Message> {
    st.sent + AsMessages([ExitOf(1, code, m), HandleReleased(1)])
  }

  // ---- The streams of one step -----------------------------------------------------------------

  function StepEvents(z: Setup, st: State, step: Step): seq<Event>
    requires Legal(z, st, step)
  {
    match step
    case Forget(_) => []
    case Meet(_, _, opening) => MeetEvents(z, st, opening)
    case Finish(pid, code, m) => [ExitOf(st.retained[pid], code, m), HandleReleased(st.retained[pid])]
    case Take(t) => Declared(t, |st.taken|)
  }

  lemma EventMessagesAfter(ms: seq<Message>, es: seq<Event>)
    ensures ProcessesOf(ms + AsMessages(es)) == ProcessesOf(ms)
    ensures SamplesOf(ms + AsMessages(es)) == SamplesOf(ms)
    ensures EventsOf(ms + AsMessages(es)) == EventsOf(ms) + es
  {
    StreamsAppend(ms, AsMessages(es));
    EventMessagesStreams(es);
  }

  lemma MeetStreams(ms: seq<Message>, p: ProcessRecord, es: seq<Event>)
    ensures ProcessesOf(ms + ([ProcessMessage(p)] + AsMessages(es))) == ProcessesOf(ms) + [p]
    ensures SamplesOf(ms + ([ProcessMessage(p)] + AsMessages(es))) == SamplesOf(ms)
    ensures EventsOf(ms + ([ProcessMessage(p)] + AsMessages(es))) == EventsOf(ms) + es
  {
    StreamsSnoc(ms, ProcessMessage(p));
    EventMessagesAfter(ms + [ProcessMessage(p)], es);
    assert ms + ([ProcessMessage(p)] + AsMessages(es)) == ms + [ProcessMessage(p)] + AsMessages(es);
  }

  lemma StepStreams(z: Setup, st: State, step: Step)
    requires Legal(z, st, step)
    ensures ProcessesOf(After(z, st, step).sent) == ProcessesOf(st.sent) +
            (if step.Meet? then [ChildRecord(z, st, step.pid, step.parent, step.opening)] else [])
    ensures SamplesOf(After(z, st, step).sent) == SamplesOf(st.sent) +
            (if step.Take? then [SampleOf(step.sample)] else [])
    ensures EventsOf(After(z, st, step).sent) == EventsOf(st.sent) + StepEvents(z, st, step)
  {
    hide Declared, SampleOf, MeetEvents, EntryMessages, RowsLegal, GapSince;
    match step {
      case Forget(_) =>
        assert st.sent + [] == st.sent;
      case Meet(pid, parent, opening) =>
        MeetStreams(st.sent, ChildRecord(z, st, pid, parent, opening), MeetEvents(z, st, opening));
      case Finish(pid, code, m) =>
        EventMessagesAfter(st.sent, [ExitOf(st.retained[pid], code, m), HandleReleased(st.retained[pid])]);
      case Take(t) =>
        EntryStreams(st.sent, Entry(Declared(t, |st.taken|), SampleOf(t)));
    }
  }

  lemma StartStreams(z: Setup)
    ensures ProcessesOf(Prologue(z)) == [RootRecord(z)]
    ensures SamplesOf(Prologue(z)) == []
    ensures EventsOf(Prologue(z)) == if z.launched then [OtherEvent, OtherEvent] else [OtherEvent]
    ensures WriteAhead(Prologue(z))
  {
    var first := if z.launched then [EventMessage(OtherEvent)] else [];
    var second := first + [ProcessMessage(RootRecord(z))];
    StreamsSnoc([], EventMessage(OtherEvent));
    StreamsSnoc(first, ProcessMessage(RootRecord(z)));
    StreamsSnoc(second, EventMessage(OtherEvent));
    assert [] + [EventMessage(OtherEvent)] == [EventMessage(OtherEvent)];
    assert Prologue(z) == second + [EventMessage(OtherEvent)];
    WriteAheadSnoc([], EventMessage(OtherEvent));
    WriteAheadSnoc(first, ProcessMessage(RootRecord(z)));
    WriteAheadSnoc(second, EventMessage(OtherEvent));
  }
}
