/**
 * What the Linux and macOS collectors put on the queue. Both observe one root process and share the
 * shape of a round: RUN declarations once, operational declarations for reads that failed, then the
 * sample. The laws here hold for every sequence of read outcomes.
 */
module DirectRoot {
  import opened Prelude
  import opened Records
  import opened SummarySpec
  import opened Journal

  // ---- Messages of one round -------------------------------------------------------------------

  const SEMANTIC_PROCESS: seq<Field> := [
    WorkingSetBytes, PrivateBytes, ReadBytes, WriteBytes, OtherBytes,
    ReadOperations, WriteOperations, OtherOperations, HandleCount]
  const SEMANTIC_PROBE: seq<Field> := [
    WorkingSetBytes, PrivateBytes, ReadBytes, WriteBytes, ThreadCount, HandleCount]

  /** `run_semantic_mismatches` and `semantic_mismatches`: the same 22 metrics on both systems. */
  function SemanticMismatches(): seq<Metric> {
    InDomain(ProcessDomain, SEMANTIC_PROCESS) + InDomain(ProbeDomain, SEMANTIC_PROBE) +
    InDomain(SystemDomain, SYSTEM_FIELDS)
  }

  /** The five metrics that Linux and macOS do measure. */
  predicate Measured(m: Metric) {
    m.field.UserCpuTimeNs? || m.field.KernelCpuTimeNs? || (m.domain.ProcessDomain? && m.field.ThreadCount?)
  }

  predicate Mismatch(m: Metric) {
    Known(m) && !Measured(m)
  }

  /** One metrics read: nanosecond CPU times and a thread count, or the two ways to fail. */
  datatype Reading = Read(user: u64, kernel: u64, threads: u32) | PermissionDenied | ReadFailed

  datatype Round = Round(target: Reading, probe: Reading, wallTime: string)

  function OperationalReason(r: Reading): Reason {
    if r.PermissionDenied? then AuthorityUnavailable else SamplingDegraded
  }

  function RunDeclaration(m: Metric): Event {
    MetricUnavailable(Text(m), Text(RunSubject), Text(SemanticMismatch), Absent, Absent)
  }

  function TargetDeclaration(f: Field, o: u64, r: Reading): Event {
    MetricUnavailable(Text(Metric(ProcessDomain, f)), Text(ProcessSampleSubject), Text(OperationalReason(r)),
                      Num(1), Num(o))
  }

  function ProbeDeclaration(f: Field, o: u64, r: Reading): Event {
    MetricUnavailable(Text(Metric(ProbeDomain, f)), Text(SampleSubject), Text(OperationalReason(r)), Absent, Num(o))
  }

  function Declare(ms: seq<Metric>): (es: seq<Event>)
    ensures |es| == |ms| && forall i | 0 <= i < |ms| :: es[i] == RunDeclaration(ms[i])
  {
    seq(|ms|, i requires 0 <= i < |ms| => RunDeclaration(ms[i]))
  }

  /** The declarations that precede sample `o`. */
  function RoundEvents(o: u64, r: Round): seq<Event> {
    (if o == 0 then Declare(SemanticMismatches()) else []) +
    (if r.target.Read? then []
     else [TargetDeclaration(UserCpuTimeNs, o, r.target), TargetDeclaration(KernelCpuTimeNs, o, r.target),
           TargetDeclaration(ThreadCount, o, r.target)]) +
    (if r.probe.Read? then []
     else [ProbeDeclaration(UserCpuTimeNs, o, r.probe), ProbeDeclaration(KernelCpuTimeNs, o, r.probe)])
  }

  function TargetCells(r: Reading): Cells {
    if r.Read? then map[UserCpuTimeNs := Num(r.user), KernelCpuTimeNs := Num(r.kernel), ThreadCount := Num(r.threads)]
    else map[]
  }

  function ProbeCells(r: Reading): Cells {
    if r.Read? then map[UserCpuTimeNs := Num(r.user), KernelCpuTimeNs := Num(r.kernel)] else map[]
  }

  function RoundSample(r: Round): Sample {
    Sample(true, true, Num(0), Absent, Some([Row(Num(1), TargetCells(r.target))]), Absent, Absent, true,
           Some(r.wallTime), Some(ProbeCells(r.probe)), Some(map[]), None)
  }

  function RoundEntry(o: u64, r: Round): Entry {
    Entry(RoundEvents(o, r), RoundSample(r))
  }

  /** The rounds of a run in order; ordinals stay below a u64. */
  function Entries(rounds: seq<Round>): (es: seq<Entry>)
    requires |rounds| <= U64_MAX
    ensures |es| == |rounds| && forall o | 0 <= o < |rounds| :: es[o] == RoundEntry(o, rounds[o])
  {
    seq(|rounds|, o requires 0 <= o < |rounds| => RoundEntry(o, rounds[o]))
  }

  /** A root identity as both collectors establish it: no sentinel values and a boot identity. */
  datatype Identity = Identity(pid: u32, startTime: u64, boot: string)

  predicate ValidIdentity(id: Identity) {
    id.pid != 0 && id.startTime != 0 && id.boot != ""
  }

  function RootRecord(id: Identity): ProcessRecord {
    ProcessRecord(Num(1), Num(id.pid), Num(id.startTime), Text(id.boot), Absent)
  }

  /** Everything up to and including the last persisted sample. */
  function Persisted(id: Identity, rounds: seq<Round>): seq<Message>
    requires |rounds| <= U64_MAX
  {
    Journalled(RootRecord(id), Entries(rounds))
  }

  // ---- How often a round explains a cell -------------------------------------------------------

  lemma DistinctFieldsCount(d: Domain, fields: seq<Field>, m: Metric, o: int, p: Option<u64>)
    requires forall i, k | 0 <= i < k < |fields| :: fields[i] != fields[k]
    ensures Count(Declare(InDomain(d, fields)), Explaining(m, o, p)) == Bit(m.domain == d && m.field in fields)
  {
    var es := Declare(InDomain(d, fields));
    if m.domain == d && m.field in fields {
      var i :| 0 <= i < |fields| && fields[i] == m.field;
      CountAt(es, Explaining(m, o, p), i);
    } else {
      CountZero(es, Explaining(m, o, p));
    }
  }

  lemma SemanticFields(f: Field)
    ensures f in SEMANTIC_PROCESS <==> Mismatch(Metric(ProcessDomain, f))
    ensures f in SEMANTIC_PROBE <==> Mismatch(Metric(ProbeDomain, f))
  {
  }

  lemma SemanticDistinct()
    ensures forall i, k | 0 <= i < k < |SEMANTIC_PROCESS| :: SEMANTIC_PROCESS[i] != SEMANTIC_PROCESS[k]
    ensures forall i, k | 0 <= i < k < |SEMANTIC_PROBE| :: SEMANTIC_PROBE[i] != SEMANTIC_PROBE[k]
  {
  }

  lemma SystemDistinct()
    ensures forall i, k | 0 <= i < k < |SYSTEM_FIELDS| :: SYSTEM_FIELDS[i] != SYSTEM_FIELDS[k]
  {
  }

  /** The 22 RUN declarations explain each mismatching metric once and nothing else. */
  lemma SemanticCount(m: Metric, o: int, p: Option<u64>)
    ensures Count(Declare(SemanticMismatches()), Explaining(m, o, p)) == Bit(Mismatch(m))
  {
    var a, b, c := InDomain(ProcessDomain, SEMANTIC_PROCESS), InDomain(ProbeDomain, SEMANTIC_PROBE),
                   InDomain(SystemDomain, SYSTEM_FIELDS);
    assert Declare(a + b + c) == Declare(a) + Declare(b) + Declare(c);
    CountAppend(Declare(a) + Declare(b), Declare(c), Explaining(m, o, p));
    CountAppend(Declare(a), Declare(b), Explaining(m, o, p));
    SemanticDistinct();
    SystemDistinct();
    DistinctFieldsCount(ProcessDomain, SEMANTIC_PROCESS, m, o, p);
    DistinctFieldsCount(ProbeDomain, SEMANTIC_PROBE, m, o, p);
    DistinctFieldsCount(SystemDomain, SYSTEM_FIELDS, m, o, p);
    SemanticFields(m.field);
    FieldTables(m.field);
  }

  lemma CountThree<T>(x: T, y: T, z: T, p: T -> bool)
    ensures Count([x, y, z], p) == Bit(p(x)) + Bit(p(y)) + Bit(p(z))
  {
    assert [x, y, z] == [x] + [y] + [z];
    CountAppend([x] + [y], [z], p);
    CountAppend([x], [y], p);
  }

  lemma CountTwo<T>(x: T, y: T, p: T -> bool)
    ensures Count([x, y], p) == Bit(p(x)) + Bit(p(y))
  {
    assert [x, y] == [x] + [y];
    CountAppend([x], [y], p);
  }

  predicate TargetMeasured(m: Metric) {
    m.domain.ProcessDomain? && Measured(m)
  }

  predicate ProbeMeasured(m: Metric) {
    m.domain.ProbeDomain? && Measured(m)
  }

  lemma RoundCount(o: u64, r: Round, m: Metric, q: int, p: Option<u64>)
    ensures Explanations(RoundEvents(o, r), m, q, p) ==
            Bit(o == 0 && Mismatch(m)) +
            Bit(!r.target.Read? && TargetMeasured(m) && q == o && p == Some(1)) +
            Bit(!r.probe.Read? && ProbeMeasured(m) && q == o)
  {
    var x := Explaining(m, q, p);
    var a := if o == 0 then Declare(SemanticMismatches()) else [];
    var b := if r.target.Read? then []
             else [TargetDeclaration(UserCpuTimeNs, o, r.target), TargetDeclaration(KernelCpuTimeNs, o, r.target),
                   TargetDeclaration(ThreadCount, o, r.target)];
    var c := if r.probe.Read? then []
             else [ProbeDeclaration(UserCpuTimeNs, o, r.probe), ProbeDeclaration(KernelCpuTimeNs, o, r.probe)];
    CountAppend(a + b, c, x);
    CountAppend(a, b, x);
    SemanticCount(m, q, p);
    TargetCount(o, r.target, m, q, p);
    ProbeCount(o, r.probe, m, q, p);
  }

  lemma TargetCount(o: u64, r: Reading, m: Metric, q: int, p: Option<u64>)
    ensures Count([TargetDeclaration(UserCpuTimeNs, o, r), TargetDeclaration(KernelCpuTimeNs, o, r),
                   TargetDeclaration(ThreadCount, o, r)], Explaining(m, q, p)) ==
            Bit(TargetMeasured(m) && q == o && p == Some(1))
  {
    CountThree(TargetDeclaration(UserCpuTimeNs, o, r), TargetDeclaration(KernelCpuTimeNs, o, r),
               TargetDeclaration(ThreadCount, o, r), Explaining(m, q, p));
  }

  lemma ProbeCount(o: u64, r: Reading, m: Metric, q: int, p: Option<u64>)
    ensures Count([ProbeDeclaration(UserCpuTimeNs, o, r), ProbeDeclaration(KernelCpuTimeNs, o, r)],
                  Explaining(m, q, p)) ==
            Bit(ProbeMeasured(m) && q == o)
  {
    CountTwo(ProbeDeclaration(UserCpuTimeNs, o, r), ProbeDeclaration(KernelCpuTimeNs, o, r), Explaining(m, q, p));
  }

  // ---- The journal of a run --------------------------------------------------------------------

  ghost predicate FromRound(e: Event, o: u64, r: Round) {
    || (o == 0 && exists m :: Mismatch(m) && e == RunDeclaration(m))
    || (!r.target.Read? &&
        exists f :: TargetMeasured(Metric(ProcessDomain, f)) && e == TargetDeclaration(f, o, r.target))
    || (!r.probe.Read? && exists f :: ProbeMeasured(Metric(ProbeDomain, f)) && e == ProbeDeclaration(f, o, r.probe))
  }

  lemma FromRoundIsDeclaration(e: Event, o: u64, r: Round)
    requires FromRound(e, o, r)
    ensures e.MetricUnavailable?
  {
  }

  lemma SemanticMember(m: Metric)
    ensures m in SemanticMismatches() ==> Mismatch(m)
  {
    DomainTable(ProcessDomain, SEMANTIC_PROCESS, m);
    DomainTable(ProbeDomain, SEMANTIC_PROBE, m);
    DomainTable(SystemDomain, SYSTEM_FIELDS, m);
    SemanticFields(m.field);
    FieldTables(m.field);
  }

  lemma RoundEventsAreFromRound(o: u64, r: Round, e: Event)
    requires e in RoundEvents(o, r)
    ensures FromRound(e, o, r) && Timely(e, o)
  {
    var ms := SemanticMismatches();
    if o == 0 && e in Declare(ms) {
      var i :| 0 <= i < |ms| && Declare(ms)[i] == e;
      SemanticMember(ms[i]);
      assert ms[i] in ms;
    }
  }

  /** The cells of a round's sample are absent exactly where the round declares. */
  lemma RoundSampleCells(o: u64, r: Round, m: Metric, j: int)
    requires Known(m) && 0 <= j < ObsCount(RoundSample(r), m)
    ensures MetricValue(m.field, ObsLeaf(RoundSample(r), m, j)).Ok?
    ensures Omitted(RoundSample(r), m, j) <==>
            Mismatch(m) || (TargetMeasured(m) && !r.target.Read?) || (ProbeMeasured(m) && !r.probe.Read?)
    ensures TargetMeasured(m) ==> ObsProcess(RoundSample(r), m, j) == Some(1)
  {
  }

  /** The declarations written before ordinal `n` explain only the mismatching metrics from there on. */
  ghost predicate Standing(es: seq<Event>, n: nat) {
    forall m: Metric, q: int, p: Option<u64> | q >= n :: Explanations(es, m, q, p) == Bit(n > 0 && Mismatch(m))
  }

  lemma RoundIsAccounted(prior: seq<Event>, o: u64, r: Round)
    requires Standing(prior, o)
    ensures Standing(prior + RoundEvents(o, r), o + 1)
    ensures AvailabilityOk(prior + RoundEvents(o, r), RoundSample(r), o)
  {
    hide RoundEvents;
    var es, s := RoundEvents(o, r), RoundSample(r);
    forall m: Metric, q: int, p: Option<u64> | q >= o
      ensures Explanations(prior + es, m, q, p) == Bit(o > 0 && Mismatch(m)) + Explanations(es, m, q, p)
    {
      CountAppend(prior, es, Explaining(m, q, p));
      assert Explanations(prior, m, q, p) == Bit(o > 0 && Mismatch(m));
    }
    forall m, j | Known(m) && 0 <= j < ObsCount(s, m)
      ensures CellOk(prior + es, s, o, m, j)
    {
      RoundCount(o, r, m, o, ObsProcess(s, m, j));
      RoundSampleCells(o, r, m, j);
    }
    forall m: Metric, q: int, p: Option<u64> | q >= o + 1
      ensures Explanations(prior + es, m, q, p) == Bit(Mismatch(m))
    {
      RoundCount(o, r, m, q, p);
    }
  }

  /** Every run keeps the write-ahead discipline. */
  lemma {:induction false} RunIsWriteAhead(id: Identity, rounds: seq<Round>)
    requires |rounds| <= U64_MAX
    ensures WriteAhead(Persisted(id, rounds)) && Standing(EventsOf(Persisted(id, rounds)), |rounds|)
  {
    hide RoundEvents;
    if rounds == [] {
      RootAlone(RootRecord(id));
    } else {
      var n := |rounds| - 1;
      var init, last := rounds[..n], RoundEntry(n, rounds[n]);
      var ms := Persisted(id, init);
      RunIsWriteAhead(id, init);
      assert Entries(rounds)[..n] == Entries(init);
      JournalledStreams(RootRecord(id), Entries(init));
      RoundIsAccounted(EventsOf(ms), n, rounds[n]);
      forall e | e in last.declarations ensures Timely(e, n) { RoundEventsAreFromRound(n, rounds[n], e); }
      EntryExtends(ms, last);
      EntryStreams(ms, last);
    }
  }

  // ---- Finished runs ---------------------------------------------------------------------------

  function ExitEvent(code: Option<u32>): Event {
    ExitObserved(Num(1), if code.Some? then Num(code.value) else Absent, Absent, Absent, Absent, Absent, NoText)
  }

  /** A finished stream: `exit` is None for an attach, which writes no terminal event. */
  function Finished(id: Identity, rounds: seq<Round>, exit: Option<Option<u32>>): seq<Message>
    requires |rounds| <= U64_MAX
  {
    Persisted(id, rounds) + (if exit.Some? then [EventMessage(ExitEvent(exit.value))] else [])
  }

  predicate AnyReadFailed(rounds: seq<Round>) {
    exists o :: 0 <= o < |rounds| && (!rounds[o].target.Read? || !rounds[o].probe.Read?)
  }

  lemma FinishedStreams(id: Identity, rounds: seq<Round>, exit: Option<Option<u32>>)
    requires |rounds| <= U64_MAX
    ensures WriteAhead(Finished(id, rounds, exit))
    ensures ProcessesOf(Finished(id, rounds, exit)) == [RootRecord(id)]
    ensures |SamplesOf(Finished(id, rounds, exit))| == |rounds|
    ensures forall o | 0 <= o < |rounds| :: SamplesOf(Finished(id, rounds, exit))[o] == RoundSample(rounds[o])
    ensures EventsOf(Finished(id, rounds, exit)) ==
            EventsOf(Persisted(id, rounds)) + (if exit.Some? then [ExitEvent(exit.value)] else [])
  {
    RunIsWriteAhead(id, rounds);
    var ms := Persisted(id, rounds);
    JournalledStreams(RootRecord(id), Entries(rounds));
    if exit.Some? {
      WriteAheadSnoc(ms, EventMessage(ExitEvent(exit.value)));
      StreamsSnoc(ms, EventMessage(ExitEvent(exit.value)));
    } else {
      assert Finished(id, rounds, exit) == ms;
    }
  }

  /** Which declarations a run holds. */
  lemma PersistedEvents(id: Identity, rounds: seq<Round>, e: Event)
    requires |rounds| <= U64_MAX
    ensures e in EventsOf(Persisted(id, rounds)) <==> exists o :: 0 <= o < |rounds| && e in RoundEvents(o, rounds[o])
    ensures e in EventsOf(Persisted(id, rounds)) ==>
              exists o :: 0 <= o < |rounds| && FromRound(e, o, rounds[o])
  {
    hide RoundEvents;
    JournalledEvents(RootRecord(id), Entries(rounds), e);
    if e in EventsOf(Persisted(id, rounds)) {
      var o :| 0 <= o < |rounds| && e in Entries(rounds)[o].declarations;
      RoundEventsAreFromRound(o, rounds[o], e);
    }
    if o :| 0 <= o < |rounds| && e in RoundEvents(o, rounds[o]) {
      assert e in Entries(rounds)[o].declarations;
    }
  }
}
