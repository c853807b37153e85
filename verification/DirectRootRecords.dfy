/**
 * What a finished Linux or macOS stream holds, field by field: the root's record, the cells of every
 * sample, the declarations of what was not read, and the exit.
 */
module DirectRootRecords {
  import opened Prelude
  import opened Records
  import opened Journal
  import opened DirectRoot

  // ---- Samples ---------------------------------------------------------------------------------

  predicate Unread(f: Field) {
    f != UserCpuTimeNs && f != KernelCpuTimeNs && f != ThreadCount
  }

  /** Both CPU times under their own names, the thread count only of the target, nothing else. */
  predicate ReadingShows(c: Cells, r: Reading, target: bool) {
    && (forall f: Field | Unread(f) :: Get(c, f) == Absent)
    && match r
       case Read(user, kernel, threads) =>
         && Get(c, UserCpuTimeNs) == Num(user) && Get(c, KernelCpuTimeNs) == Num(kernel)
         && Get(c, ThreadCount) == if target then Num(threads) else Absent
       case _ =>
         Get(c, UserCpuTimeNs) == Absent && Get(c, KernelCpuTimeNs) == Absent && Get(c, ThreadCount) == Absent
  }

  /** One row, the root's; no times, sums, job or system counters. */
  predicate RoundShows(s: Sample, r: Round) {
    && s.v2 && s.isSample && s.live && s.monotonic == Num(0) && s.gap == Absent && s.wallTime == Some(r.wallTime)
    && s.workingSetSum == Absent && s.privateSum == Absent && s.job == None
    && s.rows.Some? && |s.rows.value| == 1
    && s.rows.value[0].id == Num(1) && ReadingShows(s.rows.value[0].cells, r.target, true)
    && s.probe.Some? && ReadingShows(s.probe.value, r.probe, false)
    && s.system.Some? && forall f: Field :: Get(s.system.value, f) == Absent
  }

  lemma SampleOfRound(r: Round)
    ensures RoundShows(RoundSample(r), r)
  {
  }

  // ---- Declarations ----------------------------------------------------------------------------

  /** Three process metrics of the root and two probe metrics; a denied read is a lack of authority. */
  predicate FailureDeclared(events: seq<Event>, o: u64, r: Reading, target: bool) {
    match r
    case Read(_, _, _) => true
    case PermissionDenied => AllDeclared(events, o, AuthorityUnavailable, target)
    case ReadFailed => AllDeclared(events, o, SamplingDegraded, target)
  }

  predicate AllDeclared(events: seq<Event>, o: u64, reason: Reason, target: bool) {
    && CellDeclared(events, o, reason, target, UserCpuTimeNs)
    && CellDeclared(events, o, reason, target, KernelCpuTimeNs)
    && (target ==> CellDeclared(events, o, reason, target, ThreadCount))
  }

  predicate CellDeclared(events: seq<Event>, o: u64, reason: Reason, target: bool, f: Field) {
    (if target
     then MetricUnavailable(Text(Metric(ProcessDomain, f)), Text(ProcessSampleSubject), Text(reason), Num(1), Num(o))
     else MetricUnavailable(Text(Metric(ProbeDomain, f)), Text(SampleSubject), Text(reason), Absent, Num(o))) in events
  }

  lemma RoundDeclares(o: u64, r: Round)
    ensures FailureDeclared(RoundEvents(o, r), o, r.target, true)
    ensures FailureDeclared(RoundEvents(o, r), o, r.probe, false)
  {
    hide Declare, SemanticMismatches;
    var a := if o == 0 then Declare(SemanticMismatches()) else [];
    var b := if r.target.Read? then []
             else [TargetDeclaration(UserCpuTimeNs, o, r.target), TargetDeclaration(KernelCpuTimeNs, o, r.target),
                   TargetDeclaration(ThreadCount, o, r.target)];
    var c := if r.probe.Read? then []
             else [ProbeDeclaration(UserCpuTimeNs, o, r.probe), ProbeDeclaration(KernelCpuTimeNs, o, r.probe)];
    assert RoundEvents(o, r) == a + b + c;
    assert |b| == 3 ==> b[0] in b && b[1] in b && b[2] in b;
    assert |c| == 2 ==> c[0] in c && c[1] in c;
  }

  /** Everything but the five measured metrics is declared once and for all as a semantic mismatch. */
  ghost predicate MismatchesDeclared(events: seq<Event>) {
    forall m: Metric | Known(m) && (Unread(m.field) || m == Metric(ProbeDomain, ThreadCount)) ::
      MetricUnavailable(Text(m), Text(RunSubject), Text(SemanticMismatch), Absent, Absent) in events
  }

  lemma FirstRoundDeclares(r: Round)
    ensures MismatchesDeclared(RoundEvents(0, r))
  {
    hide RoundEvents;
    forall m: Metric | Known(m) && (Unread(m.field) || m == Metric(ProbeDomain, ThreadCount))
      ensures RunDeclaration(m) in RoundEvents(0, r)
    {
      MismatchListed(m);
      DeclaredFirst(m, r);
    }
  }

  lemma MismatchListed(m: Metric)
    requires Known(m) && (Unread(m.field) || m == Metric(ProbeDomain, ThreadCount))
    ensures m in SemanticMismatches()
  {
    DomainTable(ProcessDomain, SEMANTIC_PROCESS, m);
    DomainTable(ProbeDomain, SEMANTIC_PROBE, m);
    DomainTable(SystemDomain, SYSTEM_FIELDS, m);
    SemanticFields(m.field);
    FieldTables(m.field);
  }

  lemma DeclaredFirst(m: Metric, r: Round)
    requires m in SemanticMismatches()
    ensures RunDeclaration(m) in RoundEvents(0, r)
  {
    var ms := SemanticMismatches();
    var i :| 0 <= i < |ms| && ms[i] == m;
    assert Declare(ms)[i] == RunDeclaration(m);
    assert RunDeclaration(m) in Declare(ms);
  }

  // ---- The stream ------------------------------------------------------------------------------

  /** The exit of the root; no counters come with it. */
  predicate ExitRecorded(e: Event, code: Option<u32>) {
    && e.ExitObserved? && e.process == Num(1)
    && e.exitCode == (match code case Some(n) => Num(n) case None => Absent)
    && e.userTime == Absent && e.kernelTime == Absent && e.readBytes == Absent && e.writeBytes == Absent
    && e.fidelity == NoText
  }

  ghost predicate StreamShows(id: Identity, rounds: seq<Round>, exit: Option<Option<u32>>, ms: seq<Message>) {
    && |rounds| <= U64_MAX
    && ProcessesOf(ms) == [ProcessRecord(Num(1), Num(id.pid), Num(id.startTime), Text(id.boot), Absent)]
    && |SamplesOf(ms)| == |rounds|
    && (forall o | 0 <= o < |rounds| ::
          && RoundShows(SamplesOf(ms)[o], rounds[o])
          && FailureDeclared(EventsOf(ms), o, rounds[o].target, true)
          && FailureDeclared(EventsOf(ms), o, rounds[o].probe, false))
    && (rounds != [] ==> MismatchesDeclared(EventsOf(ms)))
    && match exit
       case None => forall e | e in EventsOf(ms) :: e.MetricUnavailable?
       case Some(code) =>
         var n := |EventsOf(ms)|;
         && n > 0 && ExitRecorded(EventsOf(ms)[n - 1], code)
         && forall i | 0 <= i < n - 1 :: EventsOf(ms)[i].MetricUnavailable?
  }

  /** Every finished stream shows its rounds, its root and its exit. */
  lemma FinishedShows(id: Identity, rounds: seq<Round>, exit: Option<Option<u32>>)
    requires |rounds| <= U64_MAX
    ensures StreamShows(id, rounds, exit, Finished(id, rounds, exit))
  {
    hide Finished, Persisted, RoundSample, RoundEvents, FailureDeclared, MismatchesDeclared, RoundShows, WriteAhead;
    var ms := Finished(id, rounds, exit);
    var declared := EventsOf(Persisted(id, rounds));
    FinishedStreams(id, rounds, exit);
    forall o | 0 <= o < |rounds|
      ensures RoundShows(SamplesOf(ms)[o], rounds[o])
      ensures FailureDeclared(EventsOf(ms), o, rounds[o].target, true)
      ensures FailureDeclared(EventsOf(ms), o, rounds[o].probe, false)
    {
      SampleOfRound(rounds[o]);
      RoundDeclares(o, rounds[o]);
      EventsKept(id, rounds, exit, o);
      StaysDeclared(RoundEvents(o, rounds[o]), EventsOf(ms), o, rounds[o]);
    }
    if rounds != [] {
      FirstRoundDeclares(rounds[0]);
      EventsKept(id, rounds, exit, 0);
      MismatchesStay(RoundEvents(0, rounds[0]), EventsOf(ms));
    }
    forall i | 0 <= i < |declared|
      ensures declared[i].MetricUnavailable?
    {
      OnlyDeclared(id, rounds, declared[i]);
    }
  }

  lemma EventsKept(id: Identity, rounds: seq<Round>, exit: Option<Option<u32>>, o: nat)
    requires |rounds| <= U64_MAX && o < |rounds|
    ensures forall e | e in RoundEvents(o, rounds[o]) :: e in EventsOf(Finished(id, rounds, exit))
  {
    hide Finished, Persisted, RoundEvents, WriteAhead;
    FinishedStreams(id, rounds, exit);
    forall e | e in RoundEvents(o, rounds[o])
      ensures e in EventsOf(Finished(id, rounds, exit))
    {
      PersistedEvents(id, rounds, e);
    }
  }

  lemma OnlyDeclared(id: Identity, rounds: seq<Round>, e: Event)
    requires |rounds| <= U64_MAX && e in EventsOf(Persisted(id, rounds))
    ensures e.MetricUnavailable?
  {
    hide Persisted, RoundEvents;
    PersistedEvents(id, rounds, e);
    var o :| 0 <= o < |rounds| && e in RoundEvents(o, rounds[o]);
    RoundEventsAreFromRound(o, rounds[o], e);
  }

  lemma StaysDeclared(events: seq<Event>, more: seq<Event>, o: u64, r: Round)
    requires forall e | e in events :: e in more
    requires FailureDeclared(events, o, r.target, true) && FailureDeclared(events, o, r.probe, false)
    ensures FailureDeclared(more, o, r.target, true) && FailureDeclared(more, o, r.probe, false)
  {
  }

  lemma MismatchesStay(events: seq<Event>, more: seq<Event>)
    requires MismatchesDeclared(events) && forall e | e in events :: e in more
    ensures MismatchesDeclared(more)
  {
  }
}
