/**
 * What the summariser makes of a Windows run: exactly which runs it accepts, their status, and the
 * agreement of elapsed time with the recorded gaps.
 */
module WindowsAcceptance {
  import opened Prelude
  import opened Records
  import opened SummarySpec
  import opened Journal
  import opened WindowsRun
  import opened WindowsIdentity
  import opened WindowsLedger
  import Accounting

  // ---- The conditions on the environment -------------------------------------------------------

  predicate RootOk(z: Setup) {
    z.rootPid != 0 && z.startTime != 0 && z.boot != ""
  }

  predicate SumsFit(t: Taken) {
    Total(t.rows, WorkingSetBytes, |t.rows|) <= U64_MAX && Total(t.rows, PrivateBytes, |t.rows|) <= U64_MAX
  }

  function Cpu(t: Taken): int {
    if t.job.Some? then t.job.value.user + t.job.value.kernel else 0
  }

  predicate CountersFit(t: Taken) {
    SumsFit(t) && Cpu(t) <= U64_MAX
  }

  predicate TimeStep(taken: seq<Taken>, k: int)
    requires 0 < k < |taken|
  {
    && taken[k - 1].monotonic <= taken[k].monotonic
    && (taken[k - 1].monotonic < taken[k].monotonic ==> Cpu(taken[k - 1]) <= Cpu(taken[k]))
  }

  /** The clock never goes back, nor the job's CPU while time advances; an attach has no job to look at. */
  predicate ClockOk(z: Setup, taken: seq<Taken>)
    requires taken != []
  {
    if z.launched then forall k | 0 < k < |taken| :: TimeStep(taken, k)
    else taken[0].monotonic <= taken[|taken| - 1].monotonic
  }

  /** A process whose thread count went missing has a complete identity on record. */
  ghost predicate IdentifiedAt(ps: seq<ProcessRecord>, t: Taken) {
    forall j | Missing(t, j) :: 1 <= t.rows[j].id <= |ps| && RecordValid(ps[t.rows[j].id - 1])
  }

  ghost predicate Environment(z: Setup, st: State)
    requires st.taken != []
  {
    && RootOk(z)
    && (forall o | 0 <= o < |st.taken| :: CountersFit(st.taken[o]))
    && ClockOk(z, st.taken)
    && (forall o | 0 <= o < |st.taken| :: IdentifiedAt(ProcessesOf(st.sent), st.taken[o]))
  }

  ghost predicate ThreadMissing(t: Taken) {
    t.probe.threads.None? || exists j :: Missing(t, j)
  }

  ghost predicate AnyThreadMissing(taken: seq<Taken>) {
    exists o :: 0 <= o < |taken| && ThreadMissing(taken[o])
  }

  ghost predicate RunInv(z: Setup, st: State) {
    IdentityInv(z, st) && LifeInv(st) && LedgerInv(z, st) && (st.degraded <==> RetentionDegraded(EventsOf(st.sent)))
  }

  // ---- Retention events and the root's exit ----------------------------------------------------

  lemma RetentionAppend(es: seq<Event>, fs: seq<Event>)
    ensures RetentionDegraded(es + fs) <==> RetentionDegraded(es) || RetentionDegraded(fs)
  {
  }

  lemma StepRetention(z: Setup, st: State, step: Step)
    requires Legal(z, st, step)
    ensures RetentionDegraded(StepEvents(z, st, step)) <==> After(z, st, step).degraded && !st.degraded
    ensures st.degraded ==> After(z, st, step).degraded
  {
    hide StepMessages, Declared, RowsLegal, GapSince;
    match step {
      case Forget(_) =>
      case Meet(_, _, opening) =>
        assert CollectorDegradation(true) in [CollectorDegradation(true)];
      case Finish(_, _, _) =>
      case Take(t) =>
        DeclaredKinds(t, |st.taken|);
    }
  }

  lemma {:induction false} RunKeepsAll(z: Setup, steps: seq<Step>)
    requires Exec(z, steps).Some?
    ensures RunInv(z, Exec(z, steps).value)
  {
    hide Legal, After, IdentityInv, LifeInv, LedgerInv, StepEvents, RetentionDegraded;
    RunKeepsIdentity(z, steps);
    RunKeepsLife(z, steps);
    RunKeepsLedger(z, steps);
    if steps == [] {
      StartRetention(z);
    } else {
      var st, step := Exec(z, steps[..|steps| - 1]).value, steps[|steps| - 1];
      RunKeepsAll(z, steps[..|steps| - 1]);
      StepStreams(z, st, step);
      StepRetention(z, st, step);
      RetentionAppend(EventsOf(st.sent), StepEvents(z, st, step));
    }
  }

  lemma StartRetention(z: Setup)
    ensures !RetentionDegraded(EventsOf(Start(z).sent)) && !Start(z).degraded
  {
    StartStreams(z);
  }

  lemma {:induction false} NoExitWithoutLife(events: seq<Event>)
    requires Life(events, 1) == []
    ensures Count(events, RootExit()) == 0
  {
    if events != [] {
      NoExitWithoutLife(events[..|events| - 1]);
    }
  }

  // ---- Each check, exactly ---------------------------------------------------------------------

  lemma AuthorityExactly(z: Setup, ps: seq<ProcessRecord>, id: u64)
    requires Identities(z, ps) && 1 <= id <= |ps|
    ensures Authority(ps, id) <==> RecordValid(ps[id - 1])
  {
    forall k | 0 <= k < |ps|
      ensures HasId(id)(ps[k]) <==> k == id - 1
    {
      assert RecordAt(z, ps, k);
    }
    CountAt(ps, HasId(id), id - 1);
    assert ps[id - 1] in ps;
  }

  lemma SumStep(rows: seq<Row>, f: Field, n: nat, total: nat, v: u64)
    requires 0 < n <= |rows| && Get(rows[n - 1].cells, f) == Num(v)
    requires SumFirst(rows, f, n - 1) == if total <= U64_MAX then Ok(Some(total)) else Err
    ensures SumFirst(rows, f, n) == if total + v <= U64_MAX then Ok(Some(total + v)) else Err
  {
  }

  lemma {:induction false} SumExactly(rows: seq<Counted>, f: Field, n: nat)
    requires n <= |rows| && (f.WorkingSetBytes? || f.PrivateBytes?)
    ensures SumFirst(RowRecords(rows), f, n) ==
            if Total(rows, f, n) <= U64_MAX then Ok(Some(Total(rows, f, n))) else Err
  {
    hide SumFirst, ProcessCells, Counter;
    if n == 0 {
      SumOfNone(RowRecords(rows), f);
    } else {
      SumExactly(rows, f, n - 1);
      SumCell(rows[n - 1].counters, f);
      SumStep(RowRecords(rows), f, n, Total(rows, f, n - 1), Counter(rows[n - 1].counters, f));
    }
  }

  lemma SumOfNone(rows: seq<Row>, f: Field)
    ensures SumFirst(rows, f, 0) == Ok(Some(0))
  {
  }

  lemma SumCell(m: Measured, f: Field)
    requires f.WorkingSetBytes? || f.PrivateBytes?
    ensures Get(ProcessCells(m), f) == Num(Counter(m, f))
  {
  }

  lemma SumsExactly(t: Taken)
    ensures SumsOk(SampleOf(t), true) <==> SumsFit(t)
  {
    hide ProcessCells, ProbeCells, SystemCells, Total, SumFirst;
    SumExactly(t.rows, WorkingSetBytes, |t.rows|);
    SumExactly(t.rows, PrivateBytes, |t.rows|);
  }

  lemma HandlesReadable(t: Taken)
    ensures HandlesOf(SampleOf(t)).Ok?
  {
    ProbeCell(t.probe, HandleCount);
  }

  lemma SampleExactly(t: Taken, o: nat, events: seq<Event>, next: u64)
    requires RowsFit(t, next) && AvailabilityOk(events, SampleOf(t), o)
    ensures SampleOk(SampleOf(t), o, events, true) <==> CountersFit(t)
  {
    hide AvailabilityOk, SumsOk, SumsFit, ProcessCells, ProbeCells, SystemCells, Total, HandlesOf;
    SumsExactly(t);
    HandlesReadable(t);
  }

  lemma {:induction false} LaunchedPoints(samples: seq<Sample>, taken: seq<Taken>, n: nat)
    requires SamplesAre(samples, taken) && n <= |taken|
    requires forall o | 0 <= o < |taken| :: taken[o].job.Some?
    ensures |JobPoints(samples, n)| == n
    ensures forall k | 0 <= k < n :: JobPoints(samples, n)[k] == JobPoint(taken[k].monotonic, Cpu(taken[k]))
  {
    hide ProcessCells, ProbeCells, SystemCells, Total, RowRecords;
    if n > 0 {
      LaunchedPoints(samples, taken, n - 1);
      assert samples[n - 1] == SampleOf(taken[n - 1]);
    }
  }

  lemma LaunchedClock(samples: seq<Sample>, taken: seq<Taken>)
    requires SamplesAre(samples, taken)
    requires forall o | 0 <= o < |taken| :: taken[o].job.Some?
    ensures PointsOk(JobPoints(samples, |taken|)) <==> forall k | 0 < k < |taken| :: TimeStep(taken, k)
  {
    hide SampleOf;
    LaunchedPoints(samples, taken, |taken|);
    var ps := JobPoints(samples, |taken|);
    forall k | 0 < k < |taken|
      ensures StepOkAt(ps, k) <==> TimeStep(taken, k)
    {
    }
    if PointsOk(ps) {
      forall k | 0 < k < |taken|
        ensures TimeStep(taken, k)
      {
        assert StepOkAt(ps, k);
      }
    }
  }

  lemma {:induction false} AttachedPoints(samples: seq<Sample>, taken: seq<Taken>, n: nat)
    requires SamplesAre(samples, taken) && n <= |taken|
    requires forall o | 0 <= o < |taken| :: taken[o].job.None?
    ensures JobPoints(samples, n) == []
  {
    hide ProcessCells, ProbeCells, SystemCells, Total, RowRecords;
    if n > 0 {
      AttachedPoints(samples, taken, n - 1);
      assert samples[n - 1] == SampleOf(taken[n - 1]);
    }
  }

  lemma {:induction false} ClockRises(taken: seq<Taken>, n: nat)
    requires n < |taken| && forall k | 0 < k < |taken| :: TimeStep(taken, k)
    ensures taken[0].monotonic <= taken[n].monotonic
  {
    if n > 0 {
      ClockRises(taken, n - 1);
      assert TimeStep(taken, n);
    }
  }

  lemma ClockExactly(z: Setup, samples: seq<Sample>, taken: seq<Taken>)
    requires SamplesAre(samples, taken) && taken != []
    requires forall o | 0 <= o < |taken| :: taken[o].job.Some? <==> z.launched
    ensures PointsOk(JobPoints(samples, |samples|)) && Ordered(samples) <==> ClockOk(z, taken)
  {
    hide ProcessCells, ProbeCells, SystemCells, Total, RowRecords, PointsOk, JobPoints, TimeStep;
    assert samples[0] == SampleOf(taken[0]) && samples[|samples| - 1] == SampleOf(taken[|taken| - 1]);
    if z.launched {
      LaunchedClock(samples, taken);
      if forall k | 0 < k < |taken| :: TimeStep(taken, k) {
        ClockRises(taken, |taken| - 1);
      }
    } else {
      AttachedPoints(samples, taken, |taken|);
      NoPoints();
    }
  }

  lemma NoPoints()
    ensures PointsOk([])
  {
  }

  lemma {:induction false} FinalJobFits(samples: seq<Sample>, taken: seq<Taken>, n: nat)
    requires SamplesAre(samples, taken) && n <= |taken|
    requires forall o | 0 <= o < |taken| :: CountersFit(taken[o])
    ensures LastJob(samples, n).Some? ==> FinalJobOk(LastJob(samples, n).value)
  {
    hide ProcessCells, ProbeCells, SystemCells, Total, RowRecords, SumsFit;
    if n > 0 {
      FinalJobFits(samples, taken, n - 1);
      assert samples[n - 1] == SampleOf(taken[n - 1]);
      assert CountersFit(taken[n - 1]);
    }
  }

  lemma TerminalExactly(z: Setup, ps: seq<ProcessRecord>, events: seq<Event>, code: u32, m: Measured)
    requires Identities(z, ps) && Count(events, RootExit()) == 0
    ensures TerminalOk(events + [ExitOf(1, code, m), HandleReleased(1)], ps, true) <==> RootOk(z)
  {
    var all := events + [ExitOf(1, code, m), HandleReleased(1)];
    CountSnoc(events, ExitOf(1, code, m), RootExit());
    CountSnoc(events + [ExitOf(1, code, m)], HandleReleased(1), RootExit());
    assert all == events + [ExitOf(1, code, m)] + [HandleReleased(1)];
    assert Count(all, RootExit()) == 1;
    TerminalFound(events, code, m);
    AuthorityExactly(z, ps, 1);
  }

  lemma {:induction false} TerminalFound(events: seq<Event>, code: u32, m: Measured)
    requires Count(events, RootExit()) == 0
    ensures FirstMatch(events + [ExitOf(1, code, m), HandleReleased(1)], RootExit()) == Some(ExitOf(1, code, m))
  {
    var all := events + [ExitOf(1, code, m), HandleReleased(1)];
    if events != [] {
      CountZero(events, RootExit());
      CountZero(events[1..], RootExit());
      assert forall i | 0 <= i < |events[1..]| :: events[1..][i] == events[i + 1];
      assert all[1..] == events[1..] + [ExitOf(1, code, m), HandleReleased(1)];
      TerminalFound(events[1..], code, m);
    }
  }

  // ---- Declarations ----------------------------------------------------------------------------

  /** The declaration for a missing thread count is accepted exactly when its process is identified. */
  lemma RowDeclarationExactly(z: Setup, ps: seq<ProcessRecord>, samples: seq<Sample>, taken: seq<Taken>, o: nat, j: nat)
    requires Identities(z, ps) && SamplesAre(samples, taken) && o < |taken| <= U64_MAX && Missing(taken[o], j)
    requires 1 <= taken[o].rows[j].id <= |ps|
    ensures DeclarationOk(RowDeclaration(taken[o].rows[j].id, o), samples, ps) <==>
            RecordValid(ps[taken[o].rows[j].id - 1])
    ensures ExplainsSomething(RowDeclaration(taken[o].rows[j].id, o), samples)
  {
    hide ProcessCells, ProbeCells, SystemCells, Total, Authority, RecordValid, Identities;
    var t := taken[o];
    var e := RowDeclaration(t.rows[j].id, o);
    assert samples[o] == SampleOf(t);
    AuthorityExactly(z, ps, t.rows[j].id);
    assert RowsOf(samples[o])[j].id == Num(t.rows[j].id);
    TakenCell(t, PROCESS_THREADS, j);
    assert Accounts(e, samples, o, j);
  }

  lemma ProbeDeclarationFits(ps: seq<ProcessRecord>, samples: seq<Sample>, taken: seq<Taken>, o: nat)
    requires SamplesAre(samples, taken) && o < |taken| <= U64_MAX && taken[o].probe.threads.None?
    ensures DeclarationOk(ProbeDeclaration(o), samples, ps) && ExplainsSomething(ProbeDeclaration(o), samples)
  {
    hide ProcessCells, ProbeCells, SystemCells, Total;
    assert samples[o] == SampleOf(taken[o]);
    TakenCell(taken[o], PROBE_THREADS, 0);
    assert Accounts(ProbeDeclaration(o), samples, o, 0);
  }

  lemma DeclaredMember(t: Taken, o: u64, e: Event)
    ensures e in Declared(t, o) <==>
            (exists j :: Missing(t, j) && e == RowDeclaration(t.rows[j].id, o)) ||
            (t.probe.threads.None? && e == ProbeDeclaration(o))
  {
    hide RowDeclaration;
    RowDeclarationMember(t.rows, |t.rows|, o, e);
    if e in RowDeclarations(t.rows, |t.rows|, o) {
      var j :| 0 <= j < |t.rows| && t.rows[j].counters.threads.None? && e == RowDeclaration(t.rows[j].id, o);
      assert Missing(t, j);
    }
  }

  /** Which events of the stream are declarations. */
  lemma StreamDeclarations(z: Setup, st: State, e: Event)
    requires LedgerInv(z, st)
    ensures e in EventsOf(st.sent) && e.MetricUnavailable? <==>
            exists o :: 0 <= o < |st.taken| && e in Declared(st.taken[o], o)
  {
    hide Declared, Due, DeclarationsIn, WriteAhead, SamplesAre;
    DeclarationMember(EventsOf(st.sent), e);
    DueMember(st.taken, |st.taken|, e);
  }

  lemma DeclaredFits(z: Setup, ps: seq<ProcessRecord>, samples: seq<Sample>, taken: seq<Taken>, o: nat, e: Event)
    requires Identities(z, ps) && SamplesAre(samples, taken) && o < |taken| <= U64_MAX
    requires e.MetricUnavailable? && e in Declared(taken[o], o) && IdentifiedAt(ps, taken[o])
    ensures DeclarationOk(e, samples, ps) && ExplainsSomething(e, samples)
  {
    hide Declared, DeclarationOk, ExplainsSomething, SamplesAre, Identities, RecordValid, ProbeDeclaration,
      RowDeclaration;
    DeclaredMember(taken[o], o, e);
    if j :| Missing(taken[o], j) && e == RowDeclaration(taken[o].rows[j].id, o) {
      RowDeclarationExactly(z, ps, samples, taken, o, j);
    } else {
      ProbeDeclarationFits(ps, samples, taken, o);
    }
  }

  lemma DeclarationsFit(z: Setup, st: State, e: Event)
    requires RunInv(z, st) && st.taken != [] && Environment(z, st)
    requires e in EventsOf(st.sent) && e.MetricUnavailable?
    ensures DeclarationOk(e, SamplesOf(st.sent), ProcessesOf(st.sent)) && ExplainsSomething(e, SamplesOf(st.sent))
  {
    hide Declared, WriteAhead, LifeInv, ClockOk, RootOk, CountersFit, DeclarationOk, ExplainsSomething, SamplesAre, Due,
      DeclarationsIn, IdentifiedAt, KnownOk, RetainedOk, RetentionDegraded, Identities, RowsFit, GapAt;
    StreamDeclarations(z, st, e);
    var o :| 0 <= o < |st.taken| && e in Declared(st.taken[o], o);
    DeclaredFits(z, ProcessesOf(st.sent), SamplesOf(st.sent), st.taken, o, e);
  }

  // ---- Acceptance ------------------------------------------------------------------------------

  lemma FinishedStreams(z: Setup, st: State, code: u32, m: Measured)
    requires RunInv(z, st)
    ensures var b := BundleOf(Finished(st, code, m), NoManifest);
            && b.processes == ProcessesOf(st.sent) && b.samples == SamplesOf(st.sent)
            && b.events == EventsOf(st.sent) + [ExitOf(1, code, m), HandleReleased(1)]
    ensures WriteAhead(Finished(st, code, m))
  {
    hide WriteAhead, IdentityInv, LifeInv, Due, TakenOk, SamplesAre;
    EventMessagesAfter(st.sent, [ExitOf(1, code, m), HandleReleased(1)]);
    FinishIsQuiet(st.sent, 1, code, m);
  }

  lemma ReadableRecords(z: Setup, ps: seq<ProcessRecord>)
    requires Identities(z, ps)
    ensures RecordsReadable(ps)
  {
    forall k | 0 <= k < |ps|
      ensures RecordReadable(ps[k])
    {
      assert RecordAt(z, ps, k);
    }
  }

  lemma SamplesAreV2(b: Bundle, taken: seq<Taken>)
    requires SamplesAre(b.samples, taken) && taken != []
    ensures IsV2(b) && SchemaUniform(b)
  {
    assert b.samples[0] in b.samples && b.samples[0] == SampleOf(taken[0]);
  }

  lemma SamplesAvailable(z: Setup, st: State, events: seq<Event>, o: nat)
    requires LedgerInv(z, st) && o < |st.taken|
    requires DeclarationsIn(events) == DeclarationsIn(EventsOf(st.sent))
    ensures AvailabilityOk(events, SampleOf(st.taken[o]), o)
  {
    hide Due, DeclarationsIn, WriteAhead, AvailabilityOk, SampleOf;
    assert RowsFit(st.taken[o], st.next);
    TakenIsAccounted(st.taken, |st.taken|, events, o);
  }

  lemma EndDeclaresNothing(events: seq<Event>, code: u32, m: Measured)
    ensures DeclarationsIn(events + [ExitOf(1, code, m), HandleReleased(1)]) == DeclarationsIn(events)
  {
    var end := [ExitOf(1, code, m), HandleReleased(1)];
    DeclarationsAppend(events, end);
    NoDeclarations(end);
  }

  lemma SamplesExactly(z: Setup, st: State, code: u32, m: Measured, b: Bundle)
    requires RunInv(z, st) && b == BundleOf(Finished(st, code, m), NoManifest)
    ensures AllSamplesOk(b.samples, |b.samples|, b.events, true) <==>
            forall o | 0 <= o < |st.taken| :: CountersFit(st.taken[o])
  {
    hide WriteAhead, IdentityInv, LifeInv, Due, DeclarationsIn, SampleOk, CountersFit, SampleOf, Finished, BundleOf,
      RowsFit;
    FinishedStreams(z, st, code, m);
    EndDeclaresNothing(EventsOf(st.sent), code, m);
    forall o | 0 <= o < |st.taken|
      ensures SampleOk(b.samples[o], o, b.events, true) <==> CountersFit(st.taken[o])
    {
      SamplesAvailable(z, st, b.events, o);
      SampleExactly(st.taken[o], o, b.events, st.next);
    }
    if AllSamplesOk(b.samples, |b.samples|, b.events, true) {
      forall o | 0 <= o < |st.taken|
        ensures CountersFit(st.taken[o])
      {
        assert SampleOk(b.samples[o], o, b.events, true);
      }
    }
  }

  lemma RunIsSettled(z: Setup, st: State, code: u32, m: Measured, b: Bundle)
    requires RunInv(z, st) && b == BundleOf(Finished(st, code, m), NoManifest)
    requires st.taken != [] && Environment(z, st)
    ensures Settled(b)
  {
    hide RunInv, Environment, DeclarationOk, ExplainsSomething, Finished, BundleOf;
    FinishedStreams(z, st, code, m);
    forall i | 0 <= i < |b.events| && b.events[i].MetricUnavailable?
      ensures DeclarationOk(b.events[i], b.samples, b.processes) && ExplainsSomething(b.events[i], b.samples)
    {
      assert b.events[i] in EventsOf(st.sent);
      DeclarationsFit(z, st, b.events[i]);
    }
  }

  lemma Sound(z: Setup, st: State, code: u32, m: Measured, b: Bundle)
    requires RunInv(z, st) && b == BundleOf(Finished(st, code, m), NoManifest)
    requires st.taken != [] && Environment(z, st)
    ensures Accepted(b)
  {
    hide WriteAhead, DeclarationsIn, Due, SampleOf, DeclarationsOk, NothingIdle, AllSamplesOk, PointsOk, Ordered,
      TerminalOk,
      RecordsReadable, SchemaUniform, IsV2, Accepted, Settled, AvailabilityOk, CountersFit, IdentifiedAt, ClockOk,
      RetentionDegraded,
      KnownOk, RetainedOk, LifeAt, Finished, RowsFit, GapAt, Identities, RootOk;
    FinishedStreams(z, st, code, m);
    RunIsSettled(z, st, code, m, b);
    SettledJournalDeclarations(Finished(st, code, m), b);
    SamplesExactly(z, st, code, m, b);
    SamplesAreV2(b, st.taken);
    ReadableRecords(z, b.processes);
    ClockExactly(z, b.samples, st.taken);
    FinalJobFits(b.samples, st.taken, |st.taken|);
    NoExitWithoutLife(EventsOf(st.sent));
    TerminalExactly(z, b.processes, EventsOf(st.sent), code, m);
    AcceptedFromParts(b);
  }

  lemma IdentifiedIfAccepted(z: Setup, st: State, code: u32, m: Measured, b: Bundle, o: nat)
    requires RunInv(z, st) && b == BundleOf(Finished(st, code, m), NoManifest)
    requires o < |st.taken| && DeclarationsOk(b)
    ensures IdentifiedAt(ProcessesOf(st.sent), st.taken[o])
  {
    hide Declared, WriteAhead, LifeInv, DeclarationOk, ExplainsSomething, SampleOf, Due, DeclarationsIn,
      RecordValid, Finished, BundleOf, SameKey;
    FinishedStreams(z, st, code, m);
    var ps := ProcessesOf(st.sent);
    assert RowsFit(st.taken[o], st.next);
    forall j | Missing(st.taken[o], j)
      ensures 1 <= st.taken[o].rows[j].id <= |ps| && RecordValid(ps[st.taken[o].rows[j].id - 1])
    {
      var e := RowDeclaration(st.taken[o].rows[j].id, o);
      DeclaredMember(st.taken[o], o, e);
      StreamDeclarations(z, st, e);
      var i :| 0 <= i < |EventsOf(st.sent)| && EventsOf(st.sent)[i] == e;
      assert b.events[i] == e;
      RowDeclarationExactly(z, ps, b.samples, st.taken, o, j);
    }
  }

  lemma Necessary(z: Setup, st: State, code: u32, m: Measured, b: Bundle)
    requires RunInv(z, st) && b == BundleOf(Finished(st, code, m), NoManifest)
    requires st.taken != [] && Accepted(b)
    ensures Environment(z, st)
  {
    hide WriteAhead, DeclarationsIn, Due, SampleOf, DeclarationsOk, NothingIdle, AllSamplesOk, PointsOk, Ordered,
      TerminalOk,
      RecordsReadable, SchemaUniform, IsV2, FinalJobReadable, CountersFit, IdentifiedAt, ClockOk, RetentionDegraded,
      KnownOk, RetainedOk, LifeAt, Finished, RowsFit, GapAt, Identities, RootOk;
    FinishedStreams(z, st, code, m);
    SamplesAreV2(b, st.taken);
    SamplesExactly(z, st, code, m, b);
    ClockExactly(z, b.samples, st.taken);
    NoExitWithoutLife(EventsOf(st.sent));
    TerminalExactly(z, b.processes, EventsOf(st.sent), code, m);
    forall o | 0 <= o < |st.taken|
      ensures IdentifiedAt(ProcessesOf(st.sent), st.taken[o])
    {
      IdentifiedIfAccepted(z, st, code, m, b, o);
    }
  }

  /**
   * Producer soundness, exactly: the finished stream of any run with a sample is accepted if and only
   * if the environment behaved. Ids, row order, declarations, witnesses and the single root exit never
   * need a condition.
   */
  lemma AcceptedExactly(z: Setup, steps: seq<Step>, code: u32, m: Measured)
    requires Exec(z, steps).Some? && Exec(z, steps).value.taken != []
    ensures Accepted(BundleOf(Finished(Exec(z, steps).value, code, m), NoManifest)) <==>
            Environment(z, Exec(z, steps).value)
  {
    hide Exec, Accepted, Environment, RunInv, Finished;
    RunKeepsAll(z, steps);
    var st := Exec(z, steps).value;
    var b := BundleOf(Finished(st, code, m), NoManifest);
    if Environment(z, st) {
      Sound(z, st, code, m, b);
    }
    if Accepted(b) {
      Necessary(z, st, code, m, b);
    }
  }

  // ---- Status ----------------------------------------------------------------------------------

  lemma DeclarationsIffMissing(z: Setup, st: State)
    requires LedgerInv(z, st)
    ensures (exists e :: e in EventsOf(st.sent) && e.MetricUnavailable?) <==> AnyThreadMissing(st.taken)
    ensures forall e | e in EventsOf(st.sent) && e.MetricUnavailable? :: Operational(DeclOf(e).reason)
  {
    hide LedgerInv, Declared;
    forall e | e in EventsOf(st.sent) && e.MetricUnavailable?
      ensures Operational(DeclOf(e).reason) && AnyThreadMissing(st.taken)
    {
      StreamDeclarations(z, st, e);
      assert |st.taken| <= U64_MAX by { TakenBound(z, st); }
      var o :| 0 <= o < |st.taken| && e in Declared(st.taken[o], o);
      DeclaredMember(st.taken[o], o, e);
      assert ThreadMissing(st.taken[o]);
    }
    if AnyThreadMissing(st.taken) {
      TakenBound(z, st);
      var o :| 0 <= o < |st.taken| && ThreadMissing(st.taken[o]);
      var e := MissingDeclared(st.taken[o], o);
      StreamDeclarations(z, st, e);
    }
  }

  lemma TakenBound(z: Setup, st: State)
    requires LedgerInv(z, st)
    ensures |st.taken| <= U64_MAX
  {
  }

  lemma MissingDeclared(t: Taken, o: u64) returns (e: Event)
    requires ThreadMissing(t)
    ensures e in Declared(t, o)
  {
    if t.probe.threads.None? {
      e := ProbeDeclaration(o);
    } else {
      var j :| Missing(t, j);
      e := RowDeclaration(t.rows[j].id, o);
    }
    DeclaredMember(t, o, e);
  }

  /**
   * An accepted Windows run is DECLARED_PARTIAL exactly when a thread count was missing, and DEGRADED
   * exactly when that happened or handle retention hit its limit.
   */
  lemma StatusExactly(z: Setup, steps: seq<Step>, code: u32, m: Measured)
    requires Exec(z, steps).Some? && Exec(z, steps).value.taken != []
    requires Environment(z, Exec(z, steps).value)
    ensures var st := Exec(z, steps).value;
            var b := BundleOf(Finished(st, code, m), NoManifest);
            && IsV2(b)
            && (CompletenessOf(b) == DeclaredPartial <==> AnyThreadMissing(st.taken))
            && (ValidityOf(b) == Degraded <==> st.degraded || AnyThreadMissing(st.taken))
  {
    hide Exec, Accepted, Environment, RunInv, Finished, CompletenessOf, ValidityOf, IsV2;
    var st := Exec(z, steps).value;
    var b := BundleOf(Finished(st, code, m), NoManifest);
    RunKeepsAll(z, steps);
    Sound(z, st, code, m, b);
    StatusOf(z, st, code, m, b);
  }

  lemma StatusOf(z: Setup, st: State, code: u32, m: Measured, b: Bundle)
    requires RunInv(z, st) && st.taken != [] && b == BundleOf(Finished(st, code, m), NoManifest) && Accepted(b)
    ensures IsV2(b)
    ensures CompletenessOf(b) == DeclaredPartial <==> AnyThreadMissing(st.taken)
    ensures ValidityOf(b) == Degraded <==> st.degraded || AnyThreadMissing(st.taken)
  {
    hide Accepted, Finished, CompletenessOf, ValidityOf, IsV2, IdentityInv, LifeInv, DeclarationsIn, Due,
      WriteAhead, RetentionDegraded, BundleOf,
      AnyThreadMissing;
    FinishedStreams(z, st, code, m);
    SamplesAreV2(b, st.taken);
    Accounting.CompleteIffNoDeclarations(b);
    Accounting.DegradedIffOperationalEvent(b);
    DeclarationsIffMissing(z, st);
    EndKeepsRetention(EventsOf(st.sent), code, m);
    var events, end := EventsOf(st.sent), [ExitOf(1, code, m), HandleReleased(1)];
    assert forall e | e in b.events :: e in events || e in end;
    assert forall e | e in events :: e in b.events;
    assert forall e | e in end :: !e.MetricUnavailable?;
  }

  lemma EndKeepsRetention(events: seq<Event>, code: u32, m: Measured)
    ensures RetentionDegraded(events + [ExitOf(1, code, m), HandleReleased(1)]) <==> RetentionDegraded(events)
  {
    RetentionAppend(events, [ExitOf(1, code, m), HandleReleased(1)]);
  }

  // ---- Elapsed time ----------------------------------------------------------------------------

  function GapSum(taken: seq<Taken>, n: nat): nat
    requires n <= |taken|
  {
    if n == 0 then 0
    else GapSum(taken, n - 1) + (if taken[n - 1].gap.Some? then taken[n - 1].gap.value else 0)
  }

  predicate NeverBack(taken: seq<Taken>) {
    forall k | 0 < k < |taken| :: NotBackAt(taken, k)
  }

  predicate NotBackAt(taken: seq<Taken>, k: int)
    requires 0 < k < |taken|
  {
    taken[k - 1].monotonic <= taken[k].monotonic
  }

  lemma {:induction false} GapsTelescope(taken: seq<Taken>, n: nat)
    requires 0 < n <= |taken| && NeverBack(taken)
    requires forall o | 0 <= o < |taken| :: GapAt(taken, o)
    ensures GapSum(taken, n) == taken[n - 1].monotonic - taken[0].monotonic
  {
    assert GapAt(taken, n - 1);
    if n > 1 {
      GapsTelescope(taken, n - 1);
      assert NotBackAt(taken, n - 1);
    } else {
      assert GapSum(taken, 0) == 0;
    }
  }

  lemma {:induction false} GapsBounded(taken: seq<Taken>, n: nat, g: nat)
    requires 0 < n <= |taken|
    requires forall o | 0 <= o < |taken| :: GapAt(taken, o)
    requires forall o | 0 <= o < |taken| && taken[o].gap.Some? :: taken[o].gap.value <= g
    ensures GapSum(taken, n) <= g * (n - 1)
  {
    if n > 1 {
      GapsBounded(taken, n - 1, g);
    } else {
      assert GapAt(taken, 0);
      assert GapSum(taken, 0) == 0;
    }
  }

  lemma SampleTiming(t: Taken)
    ensures NumOrZero(SampleOf(t).monotonic) == t.monotonic
    ensures GapOf(SampleOf(t)) == if t.gap.Some? then t.gap.value else 0
  {
    hide ProcessCells, ProbeCells, SystemCells, Total, RowRecords;
  }

  lemma ElapsedAgrees(samples: seq<Sample>, taken: seq<Taken>, elapsed: u64)
    requires SamplesAre(samples, taken) && samples != [] && NeverBack(taken)
    requires forall o | 0 <= o < |taken| :: GapAt(taken, o)
    requires TimingIs(samples, elapsed)
    ensures elapsed == GapSum(taken, |taken|)
  {
    hide GapAt, NeverBack, GapSum, SampleOf;
    GapsTelescope(taken, |taken|);
    SampleTiming(taken[0]);
    SampleTiming(taken[|taken| - 1]);
  }

  lemma GapsWithin(samples: seq<Sample>, taken: seq<Taken>, g: u64)
    requires SamplesAre(samples, taken) && MaxGapIs(samples, |samples|, g)
    ensures forall o | 0 <= o < |taken| && taken[o].gap.Some? :: taken[o].gap.value <= g
  {
    hide SampleOf, GapOf;
    forall o | 0 <= o < |taken| && taken[o].gap.Some?
      ensures taken[o].gap.value <= g
    {
      SampleTiming(taken[o]);
      assert GapOf(samples[o]) <= g;
    }
  }

  lemma TimingAgrees(samples: seq<Sample>, taken: seq<Taken>, elapsed: u64, g: u64)
    requires SamplesAre(samples, taken) && samples != [] && NeverBack(taken)
    requires forall o | 0 <= o < |taken| :: GapAt(taken, o)
    requires TimingIs(samples, elapsed) && MaxGapIs(samples, |samples|, g)
    ensures elapsed == GapSum(taken, |taken|) <= g * (|taken| - 1)
  {
    hide GapAt, NeverBack, GapSum, MaxGapIs, TimingIs, SampleOf;
    ElapsedAgrees(samples, taken, elapsed);
    GapsWithin(samples, taken, g);
    GapsBounded(taken, |taken|, g);
  }

  /**
   * The summary's elapsed time is the sum of the gaps that the collector recorded, so it is at most
   * the largest gap times the number of intervals.
   */
  lemma ElapsedIsSumOfGaps(z: Setup, steps: seq<Step>, code: u32, m: Measured, s: Summary)
    requires Exec(z, steps).Some? && Exec(z, steps).value.taken != [] && NeverBack(Exec(z, steps).value.taken)
    requires var b := BundleOf(Finished(Exec(z, steps).value, code, m), NoManifest); b.samples != [] && Describes(b, s)
    ensures s.timing.elapsedNs == GapSum(Exec(z, steps).value.taken, |Exec(z, steps).value.taken|)
    ensures s.timing.elapsedNs <= s.timing.maxSampleGapNs * (s.timing.sampleCount - 1)
  {
    hide Exec, Finished, RunInv, GapAt, NeverBack, MemoryIs, CpuIs, IoIs, PopulationIs, TerminalIs, GapSum,
      TimingIs, MaxGapIs,
      SamplesAre, ValidityOf, CompletenessOf, IsV2, RetentionDegraded;
    var st := Exec(z, steps).value;
    RunKeepsAll(z, steps);
    FinishedStreams(z, st, code, m);
    RunSamples(z, st);
    SameLength(SamplesOf(st.sent), st.taken);
    TimingAgrees(SamplesOf(st.sent), st.taken, s.timing.elapsedNs, s.timing.maxSampleGapNs);
  }

  lemma SameLength(samples: seq<Sample>, taken: seq<Taken>)
    requires SamplesAre(samples, taken)
    ensures |samples| == |taken|
  {
  }

  lemma RunSamples(z: Setup, st: State)
    requires RunInv(z, st)
    ensures SamplesAre(SamplesOf(st.sent), st.taken)
    ensures forall o | 0 <= o < |st.taken| :: GapAt(st.taken, o)
  {
  }
}
