/**
 * What the validator makes of a stream that a crash cut short: declarations whose sample never reached
 * the disk are the only new reason to refuse it.
 */
module CrashVerdict {
  import opened Prelude
  import opened Records
  import opened SummarySpec
  import opened Journal
  import D = DirectRoot
  import A = DirectRootAcceptance
  import opened WindowsRun
  import opened WindowsIdentity
  import opened WindowsLedger
  import opened WindowsAcceptance
  import Accounting

  /** The bundle of the first `n` messages, as a crash leaves it: without a manifest. */
  function CutBundle(ms: seq<Message>, n: nat): Bundle
    requires n <= |ms|
  {
    BundleOf(ms[..n], NoManifest)
  }

  predicate NamesMissingSample(e: Event, b: Bundle) {
    e.MetricUnavailable? && DeclOf(e).sample == Some(|b.samples|)
  }

  /** Some declaration names the sample that would have come next. */
  predicate Dangling(b: Bundle) {
    exists e :: e in b.events && NamesMissingSample(e, b)
  }

  /** A dangling declaration is always refused. */
  lemma DanglingRefused(b: Bundle)
    requires IsV2(b) && Dangling(b)
    ensures !Accepted(b)
  {
    hide Accepted, Dangling;
    if Accepted(b) {
      NothingDangles(b);
    }
  }

  lemma NothingDangles(b: Bundle)
    requires IsV2(b) && Accepted(b)
    ensures !Dangling(b)
  {
    hide SchemaUniform, RecordsReadable, AllSamplesOk, NothingIdle, TerminalOk, ManifestOk;
    forall e | e in b.events
      ensures !NamesMissingSample(e, b)
    {
      var i :| 0 <= i < |b.events| && b.events[i] == e;
      if e.MetricUnavailable? {
        assert DeclarationOk(b.events[i], b.samples, b.processes);
      }
    }
  }

  /** In a cut write-ahead stream, a declaration for one sample names one that is there or the next. */
  lemma NamesWithin(ms: seq<Message>, n: nat, e: Event)
    requires WriteAhead(ms) && n <= |ms| && e in EventsOf(ms[..n]) && e.MetricUnavailable?
    ensures !DeclOf(e).subject.RunSubject? ==>
              DeclOf(e).sample.Some? && DeclOf(e).sample.value <= |SamplesOf(ms[..n])|
  {
    var es := EventsOf(ms[..n]);
    var k :| 0 <= k < |es| && es[k] == e;
    var i := PositionOfEvent(ms[..n], k);
    assert EntryOk(ms, i);
    OrdinalsGrow(ms, i, n);
  }

  lemma NamesPresent(ms: seq<Message>, n: nat, b: Bundle, e: Event)
    requires WriteAhead(ms) && n <= |ms| && b == CutBundle(ms, n) && e in b.events && e.MetricUnavailable?
    requires !NamesMissingSample(e, b)
    ensures !DeclOf(e).subject.RunSubject? ==> DeclOf(e).sample.Some? && DeclOf(e).sample.value < |b.samples|
  {
    hide WriteAhead, SamplesOf, EventsOf, ProcessesOf;
    NamesWithin(ms, n, e);
  }

  lemma CutStreams(ms: seq<Message>, n: nat)
    requires n <= |ms|
    ensures SamplesOf(ms[..n]) <= SamplesOf(ms) && EventsOf(ms[..n]) <= EventsOf(ms)
    ensures ProcessesOf(ms[..n]) <= ProcessesOf(ms)
  {
    OrdinalsGrow(ms, n, |ms|);
    assert ms[..|ms|] == ms;
  }

  // ---- Linux and macOS -------------------------------------------------------------------------

  lemma {:induction false} RootFirst(id: D.Identity, rounds: seq<D.Round>)
    requires |rounds| <= U64_MAX
    ensures D.Persisted(id, rounds) != [] && D.Persisted(id, rounds)[0] == ProcessMessage(D.RootRecord(id))
  {
    hide EntryMessages;
    if rounds != [] {
      var n := |rounds| - 1;
      RootFirst(id, rounds[..n]);
      assert D.Entries(rounds)[..n] == D.Entries(rounds[..n]);
    }
  }

  lemma CutProcesses(ms: seq<Message>, n: nat, root: ProcessRecord)
    requires 0 < n <= |ms| && ms[0] == ProcessMessage(root) && ProcessesOf(ms) == [root]
    ensures ProcessesOf(ms[..n]) == [root]
  {
    CutStreams(ms, n);
    OrdinalsGrow(ms, 1, n);
    RootAlone(root);
    assert ms[..1] == [ProcessMessage(root)];
  }

  /** The declarations among the first events of a run, and the exit if it is among them. */
  lemma CutTerminal(id: D.Identity, rounds: seq<D.Round>, exit: Option<Option<u32>>, events: seq<Event>)
    requires |rounds| <= U64_MAX && D.ValidIdentity(id) && events <= EventsOf(D.Finished(id, rounds, exit))
    ensures TerminalOk(events, [D.RootRecord(id)], true) && !RetentionDegraded(events)
    ensures forall e | e in events && e.MetricUnavailable? :: e in EventsOf(D.Persisted(id, rounds))
  {
    hide D.Persisted, D.Finished, D.RoundSample, D.FromRound, D.RoundEvents, TerminalOk, RetentionDegraded;
    D.FinishedStreams(id, rounds, exit);
    var es := EventsOf(D.Persisted(id, rounds));
    forall e | e in es
      ensures e.MetricUnavailable?
    {
      D.PersistedEvents(id, rounds, e);
      var o :| 0 <= o < |rounds| && D.FromRound(e, o, rounds[o]);
      D.FromRoundIsDeclaration(e, o, rounds[o]);
    }
    if |events| <= |es| {
      assert events == es[..|events|];
      A.TerminalAfterDeclarations(id, events, None, events);
    } else {
      assert events == es + [D.ExitEvent(exit.value)];
      A.TerminalAfterDeclarations(id, es, exit, events);
    }
  }

  lemma CutFromRound(id: D.Identity, rounds: seq<D.Round>, exit: Option<Option<u32>>, n: nat, b: Bundle,
                     e: Event) returns (o: nat)
    requires |rounds| <= U64_MAX && D.ValidIdentity(id) && n <= |D.Finished(id, rounds, exit)|
    requires b == CutBundle(D.Finished(id, rounds, exit), n) && b.samples != []
    requires e in b.events && e.MetricUnavailable? && !NamesMissingSample(e, b)
    ensures o < |b.samples| && o < |rounds| && D.FromRound(e, o, rounds[o])
  {
    hide D.Persisted, D.Finished, D.RoundSample, D.RoundEvents, WriteAhead, D.FromRound, SamplesOf, EventsOf,
      ProcessesOf;
    var ms := D.Finished(id, rounds, exit);
    D.FinishedStreams(id, rounds, exit);
    CutStreams(ms, n);
    CutTerminal(id, rounds, exit, b.events);
    NamesWithin(ms, n, e);
    D.PersistedEvents(id, rounds, e);
    o :| 0 <= o < |rounds| && D.FromRound(e, o, rounds[o]);
    FromRoundNames(e, o, rounds[o]);
  }

  lemma CutSettled(id: D.Identity, rounds: seq<D.Round>, exit: Option<Option<u32>>, n: nat, b: Bundle)
    requires |rounds| <= U64_MAX && D.ValidIdentity(id) && n <= |D.Finished(id, rounds, exit)|
    requires b == CutBundle(D.Finished(id, rounds, exit), n) && b.samples != [] && !Dangling(b)
    requires b.processes == [D.RootRecord(id)]
    ensures Settled(b)
  {
    hide D.Persisted, D.Finished, D.RoundSample, D.RoundEvents, WriteAhead, D.FromRound, SamplesOf, EventsOf,
      ProcessesOf,
      NamesMissingSample, DeclarationOk, ExplainsSomething;
    D.FinishedStreams(id, rounds, exit);
    CutStreams(D.Finished(id, rounds, exit), n);
    forall i | 0 <= i < |b.events| && b.events[i].MetricUnavailable?
      ensures DeclarationOk(b.events[i], b.samples, b.processes) && ExplainsSomething(b.events[i], b.samples)
    {
      var e := b.events[i];
      assert e in b.events && !NamesMissingSample(e, b);
      var o := CutFromRound(id, rounds, exit, n, b, e);
      A.DeclarationAccounts(id, o, rounds[o], e, b.samples);
    }
  }

  lemma FromRoundNames(e: Event, o: u64, r: D.Round)
    requires D.FromRound(e, o, r)
    ensures e.MetricUnavailable?
    ensures if DeclOf(e).subject.RunSubject? then o == 0 else DeclOf(e).sample == Some(o)
  {
  }

  /**
   * The verdict on a crashed Linux or macOS run, exactly: wherever the stream of a run is cut, it is
   * accepted if and only if some sample is there and no declaration names the sample after the last.
   */
  lemma DirectRootVerdict(id: D.Identity, rounds: seq<D.Round>, exit: Option<Option<u32>>, n: nat)
    requires |rounds| <= U64_MAX && D.ValidIdentity(id) && n <= |D.Finished(id, rounds, exit)|
    ensures var b := CutBundle(D.Finished(id, rounds, exit), n);
            Accepted(b) <==> b.samples != [] && !Dangling(b)
  {
    hide D.Persisted, D.RoundSample, DeclarationsOk, NothingIdle, AllSamplesOk, TerminalOk, Settled, WriteAhead,
      Dangling,
      PointsOk, FinalJobReadable, Ordered, SchemaUniform, IsV2, Accepted, AvailabilityOk;
    var ms := D.Finished(id, rounds, exit);
    var b := CutBundle(ms, n);
    D.FinishedStreams(id, rounds, exit);
    CutStreams(ms, n);
    if b.samples == [] {
      NoSamplesRefused(b);
    } else {
      var kept := rounds[..|b.samples|];
      RootFirst(id, rounds);
      NothingSampled(ms, n);
      CutProcesses(ms, n, D.RootRecord(id));
      WriteAheadPrefix(ms, n);
      forall o | 0 <= o < |b.samples|
        ensures AvailabilityOk(b.events, b.samples[o], o)
      {
        EveryPrefixAccounts(ms, n, o);
      }
      A.RunSamplesOk(kept, b);
      CutTerminal(id, rounds, exit, b.events);
      if Dangling(b) {
        DanglingRefused(b);
      } else {
        CutSettled(id, rounds, exit, n, b);
        SettledJournalDeclarations(ms[..n], b);
        RootReadable(id);
        AcceptedFromParts(b);
      }
    }
  }

  lemma CutShape(id: D.Identity, rounds: seq<D.Round>, exit: Option<Option<u32>>, n: nat, b: Bundle)
    requires |rounds| <= U64_MAX && n <= |D.Finished(id, rounds, exit)|
    requires b == CutBundle(D.Finished(id, rounds, exit), n)
    ensures |b.samples| <= |rounds|
    ensures forall o | 0 <= o < |b.samples| :: b.samples[o] == D.RoundSample(rounds[o])
    ensures b.samples != [] ==> IsV2(b)
  {
    hide D.RoundSample, D.Finished, WriteAhead;
    D.FinishedStreams(id, rounds, exit);
    CutStreams(D.Finished(id, rounds, exit), n);
    if b.samples != [] {
      RoundIsV2(rounds[0]);
      assert b.samples[0] in b.samples;
    }
  }

  lemma RoundIsV2(r: D.Round)
    ensures D.RoundSample(r).v2
  {
  }

  /** A read that failed before the cut has left an operational declaration in the cut. */
  lemma FailureInCut(id: D.Identity, rounds: seq<D.Round>, exit: Option<Option<u32>>, n: nat, b: Bundle, o: nat)
    returns (e: Event)
    requires |rounds| <= U64_MAX && D.ValidIdentity(id) && n <= |D.Finished(id, rounds, exit)|
    requires b == CutBundle(D.Finished(id, rounds, exit), n) && Accepted(b) && IsV2(b)
    requires o < |b.samples| <= |rounds| && (!rounds[o].target.Read? || !rounds[o].probe.Read?)
    ensures e in b.events && e.MetricUnavailable? && Operational(DeclOf(e).reason)
  {
    hide D.Finished, D.RoundSample, D.FromRound, D.RoundEvents, Accepted, IsV2, Dangling, CutBundle, SamplesOf,
      EventsOf;
    CutShape(id, rounds, exit, n, b);
    var m := Metric(if !rounds[o].target.Read? then ProcessDomain else ProbeDomain, UserCpuTimeNs);
    FailedCell(o, rounds[o], m);
    var i := Accounting.OmissionHasDeclaration(b, o, m, 0);
    e := b.events[i];
    CutCarries(id, rounds, exit, n, b, e);
    var q :| 0 <= q < |rounds| && D.FromRound(e, q, rounds[q]);
    MeasuredIsOperational(e, q, rounds[q], m);
  }

  lemma FailedCell(o: u64, r: D.Round, m: Metric)
    requires !r.target.Read? || !r.probe.Read?
    requires m == Metric(if !r.target.Read? then ProcessDomain else ProbeDomain, UserCpuTimeNs)
    ensures Omitted(D.RoundSample(r), m, 0)
  {
    D.RoundSampleCells(o, r, m, 0);
  }

  lemma CutCarries(id: D.Identity, rounds: seq<D.Round>, exit: Option<Option<u32>>, n: nat, b: Bundle, e: Event)
    requires |rounds| <= U64_MAX && D.ValidIdentity(id) && n <= |D.Finished(id, rounds, exit)|
    requires b == CutBundle(D.Finished(id, rounds, exit), n) && e in b.events && e.MetricUnavailable?
    ensures exists o :: 0 <= o < |rounds| && D.FromRound(e, o, rounds[o])
  {
    hide D.Finished, D.RoundSample, D.FromRound, D.RoundEvents, D.Persisted, SamplesOf, EventsOf, ProcessesOf;
    CutStreams(D.Finished(id, rounds, exit), n);
    CutTerminal(id, rounds, exit, b.events);
    D.PersistedEvents(id, rounds, e);
  }

  lemma MeasuredIsOperational(e: Event, o: u64, r: D.Round, m: Metric)
    requires D.FromRound(e, o, r) && e.MetricUnavailable? && DeclOf(e).metric == m && D.Measured(m)
    ensures Operational(DeclOf(e).reason)
  {
  }

  lemma OperationalFromFailure(e: Event, o: u64, r: D.Round)
    requires D.FromRound(e, o, r) && e.MetricUnavailable? && Operational(DeclOf(e).reason)
    ensures !r.target.Read? || !r.probe.Read?
  {
  }

  /**
   * The status of an accepted cut of a Linux or macOS stream: DECLARED_PARTIAL, and DEGRADED exactly
   * when a read failed in a round that was kept.
   */
  lemma DirectRootCutStatus(id: D.Identity, rounds: seq<D.Round>, exit: Option<Option<u32>>, n: nat)
    requires |rounds| <= U64_MAX && D.ValidIdentity(id) && n <= |D.Finished(id, rounds, exit)|
    requires Accepted(CutBundle(D.Finished(id, rounds, exit), n))
    ensures var b := CutBundle(D.Finished(id, rounds, exit), n);
            && |b.samples| <= |rounds|
            && CompletenessOf(b) == DeclaredPartial
            && (ValidityOf(b) == Degraded <==> D.AnyReadFailed(rounds[..|b.samples|]))
  {
    hide D.Finished, D.RoundSample, D.FromRound, D.RoundEvents, Accepted, IsV2, Dangling, CutBundle, SamplesOf,
      EventsOf,
      ValidityOf, RetentionDegraded;
    var b := CutBundle(D.Finished(id, rounds, exit), n);
    AcceptedSamples(b);
    CutShape(id, rounds, exit, n, b);
    A.NoSystemCells(rounds[0]);
    assert AnyOmission(b.samples, |b.samples|);
    Accounting.DegradedIffOperationalEvent(b);
    NoRetention(id, rounds, exit, n, b);
    var kept := rounds[..|b.samples|];
    if D.AnyReadFailed(kept) {
      var o :| 0 <= o < |kept| && (!kept[o].target.Read? || !kept[o].probe.Read?);
      assert kept[o] == rounds[o];
      var e := FailureInCut(id, rounds, exit, n, b, o);
    }
    if e :| e in b.events && e.MetricUnavailable? && Operational(DeclOf(e).reason) {
      NothingDangles(b);
      NotMissing(b, e);
      var o := CutFromRound(id, rounds, exit, n, b, e);
      OperationalFromFailure(e, o, rounds[o]);
      assert kept[o] == rounds[o];
    }
  }

  lemma AcceptedSamples(b: Bundle)
    requires Accepted(b)
    ensures b.samples != []
  {
  }

  lemma NotMissing(b: Bundle, e: Event)
    requires !Dangling(b) && e in b.events
    ensures !NamesMissingSample(e, b)
  {
  }

  lemma NoRetention(id: D.Identity, rounds: seq<D.Round>, exit: Option<Option<u32>>, n: nat, b: Bundle)
    requires |rounds| <= U64_MAX && D.ValidIdentity(id) && n <= |D.Finished(id, rounds, exit)|
    requires b == CutBundle(D.Finished(id, rounds, exit), n)
    ensures !RetentionDegraded(b.events)
  {
    hide D.Finished, RetentionDegraded, EventsOf, SamplesOf, ProcessesOf;
    CutStreams(D.Finished(id, rounds, exit), n);
    CutTerminal(id, rounds, exit, b.events);
  }

  lemma NoSamplesRefused(b: Bundle)
    requires b.samples == []
    ensures !Accepted(b)
  {
  }

  lemma NothingSampled(ms: seq<Message>, n: nat)
    requires n <= |ms| && SamplesOf(ms[..n]) != []
    ensures n > 0
  {
  }

  lemma RootReadable(id: D.Identity)
    ensures RecordsReadable([D.RootRecord(id)])
  {
  }

  // ---- Windows ---------------------------------------------------------------------------------

  lemma {:induction false} PrologueFirst(z: Setup, steps: seq<Step>)
    requires Exec(z, steps).Some?
    ensures Prologue(z) <= Exec(z, steps).value.sent
  {
    hide Legal, StepMessages, Moved, Prologue;
    if steps != [] {
      PrologueFirst(z, steps[..|steps| - 1]);
    }
  }

  lemma RootBeforeSamples(z: Setup, ms: seq<Message>, n: nat)
    requires Prologue(z) <= ms && n <= |ms| && SamplesOf(ms[..n]) != []
    ensures ProcessesOf(ms[..n]) != []
  {
    hide Prologue;
    var first := Prologue(z);
    StartStreams(z);
    assert ms[..|first|] == first;
    if n <= |first| {
      OrdinalsGrow(ms, n, |first|);
    } else {
      OrdinalsGrow(ms, |first|, n);
    }
  }

  /** The conditions on what the operating system reported up to the cut. */
  ghost predicate CutEnvironment(z: Setup, ps: seq<ProcessRecord>, taken: seq<Taken>) {
    && taken != []
    && (forall o | 0 <= o < |taken| :: CountersFit(taken[o]))
    && ClockOk(z, taken)
    && (forall o | 0 <= o < |taken| :: IdentifiedAt(ps, taken[o]))
  }

  /** A bundle that is a cut of a run with the root's record and at least one sample. */
  ghost predicate IsCut(z: Setup, st: State, ms: seq<Message>, n: nat, b: Bundle) {
    && RunInv(z, st) && WriteAhead(ms) && n <= |ms| && b == CutBundle(ms, n)
    && Identities(z, b.processes) && 0 < |b.samples| <= |st.taken|
    && SamplesAre(b.samples, st.taken[..|b.samples|])
    && forall e | e in b.events && e.MetricUnavailable? :: e in EventsOf(st.sent)
  }

  lemma CutIdentities(z: Setup, ps: seq<ProcessRecord>, qs: seq<ProcessRecord>)
    requires Identities(z, ps) && qs <= ps && qs != []
    ensures Identities(z, qs)
  {
    forall k | 0 <= k < |qs|
      ensures RecordAt(z, qs, k)
    {
      assert RecordAt(z, ps, k);
    }
  }

  lemma FinishedIsCut(z: Setup, steps: seq<Step>, code: u32, m: Measured, n: nat)
    requires Exec(z, steps).Some? && n <= |Finished(Exec(z, steps).value, code, m)|
    requires SamplesOf(Finished(Exec(z, steps).value, code, m)[..n]) != []
    ensures var st := Exec(z, steps).value;
            var ms := Finished(st, code, m);
            IsCut(z, st, ms, n, CutBundle(ms, n))
  {
    hide Exec, IdentityInv, LifeInv, WriteAhead, Prologue, Due, DeclarationsIn, TakenOk, SampleOf, RetentionDegraded;
    var st := Exec(z, steps).value;
    var ms := Finished(st, code, m);
    RunKeepsAll(z, steps);
    FinishedStreams(z, st, code, m);
    CutStreams(ms, n);
    PrologueFirst(z, steps);
    RootBeforeSamples(z, ms, n);
    RunIdentities(z, st);
    CutIdentities(z, ProcessesOf(st.sent), ProcessesOf(ms[..n]));
    var b := CutBundle(ms, n);
    forall e | e in b.events && e.MetricUnavailable?
      ensures e in EventsOf(st.sent)
    {
      assert e in EventsOf(ms);
    }
  }

  lemma RunIdentities(z: Setup, st: State)
    requires RunInv(z, st)
    ensures Identities(z, ProcessesOf(st.sent)) && LedgerInv(z, st) && Life(EventsOf(st.sent), 1) == []
  {
    hide LedgerInv, Identities, KnownOk, RetainedOk;
  }

  lemma CutAvailable(z: Setup, st: State, ms: seq<Message>, n: nat, b: Bundle, o: nat)
    requires IsCut(z, st, ms, n, b) && o < |b.samples|
    ensures AvailabilityOk(b.events, SampleOf(st.taken[o]), o) && b.samples[o] == SampleOf(st.taken[o])
  {
    hide RunInv, Identities, WriteAhead, AvailabilityOk, SampleOf;
    EveryPrefixAccounts(ms, n, o);
    assert st.taken[..|b.samples|][o] == st.taken[o];
  }

  lemma CutSamplesExactly(z: Setup, st: State, ms: seq<Message>, n: nat, b: Bundle)
    requires IsCut(z, st, ms, n, b)
    ensures AllSamplesOk(b.samples, |b.samples|, b.events, true) <==>
            forall o | 0 <= o < |b.samples| :: CountersFit(st.taken[o])
  {
    hide AvailabilityOk, SampleOf, SampleOk, CountersFit, IdentityInv, LifeInv, WriteAhead, Due, DeclarationsIn,
      Identities, RowsFit, GapAt,
      RetentionDegraded;
    forall o | 0 <= o < |b.samples|
      ensures SampleOk(b.samples[o], o, b.events, true) <==> CountersFit(st.taken[o])
    {
      CutAvailable(z, st, ms, n, b, o);
      assert RowsFit(st.taken[o], st.next);
      SampleExactly(st.taken[o], o, b.events, st.next);
    }
    if AllSamplesOk(b.samples, |b.samples|, b.events, true) {
      forall o | 0 <= o < |b.samples|
        ensures CountersFit(st.taken[o])
      {
        assert SampleOk(b.samples[o], o, b.events, true);
      }
    }
  }

  lemma DeclaredNames(t: Taken, o: u64, e: Event)
    requires e in Declared(t, o)
    ensures e.MetricUnavailable? && !DeclOf(e).subject.RunSubject? && DeclOf(e).sample == Some(o)
  {
    DeclaredMember(t, o, e);
  }

  /** A declaration of a cut that names no missing sample is owed for a sample that is there. */
  lemma CutDeclared(z: Setup, st: State, ms: seq<Message>, n: nat, b: Bundle, e: Event) returns (o: nat)
    requires IsCut(z, st, ms, n, b) && e in b.events && e.MetricUnavailable? && !NamesMissingSample(e, b)
    ensures o < |b.samples| <= |st.taken| <= U64_MAX && e in Declared(st.taken[o], o)
  {
    hide Declared, RunInv, WriteAhead, Identities, SamplesAre, CutBundle, NamesMissingSample, LedgerInv, DeclOf,
      EventsOf;
    NamesPresent(ms, n, b, e);
    RunIdentities(z, st);
    StreamDeclarations(z, st, e);
    TakenBound(z, st);
    o :| 0 <= o < |st.taken| && e in Declared(st.taken[o], o);
    DeclaredNames(st.taken[o], o, e);
  }

  lemma CutSettledWindows(z: Setup, st: State, ms: seq<Message>, n: nat, b: Bundle)
    requires IsCut(z, st, ms, n, b) && !Dangling(b) && CutEnvironment(z, b.processes, st.taken[..|b.samples|])
    ensures Settled(b)
  {
    hide Declared, RunInv, WriteAhead, DeclarationOk, ExplainsSomething, Identities, SampleOf, CountersFit, ClockOk,
      IdentifiedAt, SamplesAre,
      CutBundle, NamesMissingSample;
    var taken := st.taken[..|b.samples|];
    forall i | 0 <= i < |b.events| && b.events[i].MetricUnavailable?
      ensures DeclarationOk(b.events[i], b.samples, b.processes) && ExplainsSomething(b.events[i], b.samples)
    {
      var e := b.events[i];
      assert e in b.events && !NamesMissingSample(e, b);
      var o := CutDeclared(z, st, ms, n, b, e);
      assert taken[o] == st.taken[o] && IdentifiedAt(b.processes, taken[o]);
      DeclaredFits(z, b.processes, b.samples, taken, o, e);
    }
  }

  lemma NoEarlyExit(events: seq<Event>, all: seq<Event>, ps: seq<ProcessRecord>)
    requires events <= all && Count(all, RootExit()) == 0
    ensures TerminalOk(events, ps, true)
  {
    assert all[..|events|] == events;
    CountZero(all, RootExit());
    CountZero(events, RootExit());
    FirstMatchUnique(events, RootExit());
    assert forall x | x in events :: !RootExit()(x);
  }

  lemma TerminalWithExit(z: Setup, ps: seq<ProcessRecord>, events: seq<Event>, code: u32, m: Measured)
    requires Identities(z, ps) && Count(events, RootExit()) == 0
    ensures TerminalOk(events + [ExitOf(1, code, m)], ps, true) <==> RootOk(z)
  {
    var all := events + [ExitOf(1, code, m)];
    CountSnoc(events, ExitOf(1, code, m), RootExit());
    CountZero(events, RootExit());
    FirstMatchUnique(all, RootExit());
    assert all[|events|] in all;
    AuthorityExactly(z, ps, 1);
  }

  /** The events of a finished stream cut in the observation loop, after the root's exit, or not at all. */
  lemma CutEvents(st: State, code: u32, m: Measured, n: nat)
    requires n <= |Finished(st, code, m)|
    ensures |Finished(st, code, m)| == |st.sent| + 2
    ensures n <= |st.sent| ==> EventsOf(Finished(st, code, m)[..n]) <= EventsOf(st.sent)
    ensures n == |st.sent| + 1 ==> EventsOf(Finished(st, code, m)[..n]) == EventsOf(st.sent) + [ExitOf(1, code, m)]
    ensures n == |st.sent| + 2 ==>
              EventsOf(Finished(st, code, m)[..n]) == EventsOf(st.sent) + [ExitOf(1, code, m), HandleReleased(1)]
  {
    hide ExitOf, EventsOf, SamplesOf, ProcessesOf;
    var ms := Finished(st, code, m);
    var exit, release := EventMessage(ExitOf(1, code, m)), EventMessage(HandleReleased(1));
    assert ms == st.sent + [exit] + [release];
    StreamsSnoc(st.sent, exit);
    StreamsSnoc(st.sent + [exit], release);
    if n <= |st.sent| {
      assert ms[..n] == st.sent[..n];
      CutStreams(st.sent, n);
    } else if n == |st.sent| + 1 {
      assert ms[..n] == st.sent + [exit];
    } else {
      assert ms[..n] == ms;
    }
  }

  lemma CutTerminalExactly(z: Setup, st: State, code: u32, m: Measured, n: nat, b: Bundle)
    requires RunInv(z, st) && n <= |Finished(st, code, m)| && b == CutBundle(Finished(st, code, m), n)
    requires Identities(z, b.processes)
    ensures TerminalOk(b.events, b.processes, true) <==> (n > |st.sent| ==> RootOk(z))
  {
    hide RunInv, TerminalOk, RootOk, Identities, ExitOf, Finished, EventsOf, SamplesOf, ProcessesOf;
    RunIdentities(z, st);
    NoExitWithoutLife(EventsOf(st.sent));
    CutEvents(st, code, m, n);
    if n <= |st.sent| {
      NoEarlyExit(b.events, EventsOf(st.sent), b.processes);
    } else if n == |st.sent| + 1 {
      TerminalWithExit(z, b.processes, EventsOf(st.sent), code, m);
    } else {
      TerminalExactly(z, b.processes, EventsOf(st.sent), code, m);
    }
  }

  lemma CutSound(z: Setup, st: State, ms: seq<Message>, n: nat, b: Bundle)
    requires IsCut(z, st, ms, n, b) && !Dangling(b) && CutEnvironment(z, b.processes, st.taken[..|b.samples|])
    requires TerminalOk(b.events, b.processes, true)
    ensures Accepted(b)
  {
    hide WriteAhead, SampleOf, DeclarationsOk, NothingIdle, AllSamplesOk, PointsOk, Ordered, TerminalOk,
      RecordsReadable, SchemaUniform, IsV2,
      Accepted, Settled, AvailabilityOk, CountersFit, IdentifiedAt, ClockOk, Identities, Dangling, IdentityInv,
      LifeInv, Due, DeclarationsIn,
      RetentionDegraded, RowsFit, GapAt;
    var taken := st.taken[..|b.samples|];
    CutSettledWindows(z, st, ms, n, b);
    WriteAheadPrefix(ms, n);
    SettledJournalDeclarations(ms[..n], b);
    CutSamplesExactly(z, st, ms, n, b);
    assert forall o | 0 <= o < |taken| :: taken[o] == st.taken[o];
    SamplesAreV2(b, taken);
    ReadableRecords(z, b.processes);
    ClockExactly(z, b.samples, taken);
    FinalJobFits(b.samples, taken, |taken|);
    AcceptedFromParts(b);
  }

  lemma AuthorityOnRecord(z: Setup, ps: seq<ProcessRecord>, id: u64)
    requires Identities(z, ps) && Authority(ps, id)
    ensures 1 <= id <= |ps| && RecordValid(ps[id - 1])
  {
    var p :| p in ps && p.id == Num(id) && RecordValid(p);
    var k :| 0 <= k < |ps| && ps[k] == p;
    assert RecordAt(z, ps, k);
  }

  /** What explains a missing thread count is a declaration for its process. */
  lemma ExplainedByProcess(z: Setup, st: State, e: Event, o: int, p: Option<u64>)
    requires RunInv(z, st) && e in EventsOf(st.sent) && Explains(e, PROCESS_THREADS, o, p)
    ensures DeclOf(e).subject.ProcessSampleSubject? && DeclOf(e).process == p
  {
    hide RunInv, Declared, LedgerInv, EventsOf;
    RunIdentities(z, st);
    StreamDeclarations(z, st, e);
    TakenBound(z, st);
    var q :| 0 <= q < |st.taken| && e in Declared(st.taken[q], q);
    ThreadDeclaration(st.taken[q], q, e);
  }

  lemma MissingExplained(t: Taken, events: seq<Event>, o: nat, j: nat) returns (i: nat)
    requires AvailabilityOk(events, SampleOf(t), o) && Missing(t, j)
    ensures i < |events| && Explains(events[i], PROCESS_THREADS, o, Some(t.rows[j].id))
  {
    hide MetricValue, ProcessCells, ProbeCells, SystemCells, Total, CellOk, Explains;
    TakenCell(t, PROCESS_THREADS, j);
    assert CellOk(events, SampleOf(t), o, PROCESS_THREADS, j);
    OneExplanation(events, SampleOf(t), o, j);
    i := CountWitness(events, Explaining(PROCESS_THREADS, o, ObsProcess(SampleOf(t), PROCESS_THREADS, j)));
  }

  lemma MissingIsDeclared(z: Setup, st: State, ms: seq<Message>, n: nat, b: Bundle, o: nat, j: nat) returns (i: nat)
    requires IsCut(z, st, ms, n, b) && o < |b.samples| && Missing(st.taken[o], j)
    ensures i < |b.events| && b.events[i].MetricUnavailable? && DeclOf(b.events[i]).subject.ProcessSampleSubject?
    ensures DeclOf(b.events[i]).process == Some(st.taken[o].rows[j].id)
  {
    hide RunInv, Identities, WriteAhead, SamplesAre, AvailabilityOk, CutBundle, SampleOf, Applies;
    CutAvailable(z, st, ms, n, b, o);
    i := MissingExplained(st.taken[o], b.events, o, j);
    assert b.events[i] in b.events;
    ExplainedByProcess(z, st, b.events[i], o, Some(st.taken[o].rows[j].id));
  }

  lemma OneExplanation(events: seq<Event>, s: Sample, o: int, j: int)
    requires 0 <= j < ObsCount(s, PROCESS_THREADS) && CellOk(events, s, o, PROCESS_THREADS, j)
    requires MetricValue(ThreadCount, ObsLeaf(s, PROCESS_THREADS, j)).Ok?
    requires MetricValue(ThreadCount, ObsLeaf(s, PROCESS_THREADS, j)).value.None?
    ensures Count(events, Explaining(PROCESS_THREADS, o, ObsProcess(s, PROCESS_THREADS, j))) == 1
  {
  }

  lemma ThreadDeclaration(t: Taken, o: u64, e: Event)
    requires e.MetricUnavailable? && e in Declared(t, o) && DeclOf(e).metric == PROCESS_THREADS
    ensures DeclOf(e).subject.ProcessSampleSubject?
  {
    DeclaredMember(t, o, e);
  }

  lemma CutNecessary(z: Setup, st: State, ms: seq<Message>, n: nat, b: Bundle)
    requires IsCut(z, st, ms, n, b) && Accepted(b)
    ensures CutEnvironment(z, b.processes, st.taken[..|b.samples|])
    ensures TerminalOk(b.events, b.processes, true)
  {
    hide WriteAhead, SampleOf, DeclarationOk, NothingIdle, AllSamplesOk, PointsOk, Ordered, TerminalOk,
      RecordsReadable, SchemaUniform, IsV2,
      CountersFit, ClockOk, Identities, IdentityInv, LifeInv, Due, DeclarationsIn, RetentionDegraded, RowsFit,
      GapAt, FinalJobReadable;
    var taken := st.taken[..|b.samples|];
    SamplesAreV2(b, taken);
    CutSamplesExactly(z, st, ms, n, b);
    ClockExactly(z, b.samples, taken);
    forall o | 0 <= o < |taken|
      ensures IdentifiedAt(b.processes, taken[o]) && CountersFit(taken[o])
    {
      assert taken[o] == st.taken[o];
      CutIdentified(z, st, ms, n, b, o);
    }
  }

  lemma CutIdentified(z: Setup, st: State, ms: seq<Message>, n: nat, b: Bundle, o: nat)
    requires IsCut(z, st, ms, n, b) && DeclarationsOk(b) && o < |b.samples|
    ensures IdentifiedAt(b.processes, st.taken[o])
  {
    hide RunInv, Identities, WriteAhead, SamplesAre, RecordValid, Authority;
    forall j | Missing(st.taken[o], j)
      ensures 1 <= st.taken[o].rows[j].id <= |b.processes| && RecordValid(b.processes[st.taken[o].rows[j].id - 1])
    {
      var i := MissingIsDeclared(z, st, ms, n, b, o, j);
      assert DeclarationOk(b.events[i], b.samples, b.processes);
      AuthorityOnRecord(z, b.processes, st.taken[o].rows[j].id);
    }
  }

  /**
   * The verdict on a crashed Windows run, exactly: wherever its stream is cut, it is accepted if and only
   * if some sample is there, no declaration names the sample after the last, the environment behaved up
   * to the cut, and, once the root's exit is there, the root has a valid identity.
   */
  lemma WindowsVerdict(z: Setup, steps: seq<Step>, code: u32, m: Measured, n: nat)
    requires Exec(z, steps).Some? && n <= |Finished(Exec(z, steps).value, code, m)|
    ensures var st := Exec(z, steps).value;
            var b := CutBundle(Finished(st, code, m), n);
            && |b.samples| <= |st.taken|
            && (Accepted(b) <==>
                && b.samples != [] && !Dangling(b)
                && CutEnvironment(z, b.processes, st.taken[..|b.samples|])
                && (n > |st.sent| ==> RootOk(z)))
  {
    hide Exec, RunInv, WriteAhead, Accepted, Dangling, CutEnvironment, TerminalOk, RootOk, Identities, SamplesAre, IsV2;
    var st := Exec(z, steps).value;
    var ms := Finished(st, code, m);
    var b := CutBundle(ms, n);
    if b.samples == [] {
      NoSamplesRefused(b);
    } else {
      FinishedIsCut(z, steps, code, m, n);
      CutTerminalExactly(z, st, code, m, n, b);
      if Accepted(b) {
        CutNecessary(z, st, ms, n, b);
        CutIsV2(z, st, ms, n, b);
        if Dangling(b) {
          DanglingRefused(b);
        }
      } else if !Dangling(b) && CutEnvironment(z, b.processes, st.taken[..|b.samples|]) &&
                TerminalOk(b.events, b.processes, true) {
        CutSound(z, st, ms, n, b);
      }
    }
  }

  lemma CutIsV2(z: Setup, st: State, ms: seq<Message>, n: nat, b: Bundle)
    requires IsCut(z, st, ms, n, b)
    ensures IsV2(b)
  {
    hide RunInv, WriteAhead, Identities, SamplesAre, IsV2;
    SamplesAreV2(b, st.taken[..|b.samples|]);
  }

  /** A missing thread count of a kept sample is declared in the cut. */
  lemma MissingInCut(z: Setup, st: State, ms: seq<Message>, n: nat, b: Bundle, o: nat) returns (e: Event)
    requires IsCut(z, st, ms, n, b) && Accepted(b) && IsV2(b) && o < |b.samples| && ThreadMissing(st.taken[o])
    ensures e in b.events && e.MetricUnavailable?
  {
    hide RunInv, WriteAhead, Identities, SamplesAre, Accepted, IsV2, CutBundle, AvailabilityOk, SampleOf;
    CutAvailable(z, st, ms, n, b, o);
    var m, j := MissingOmitted(st.taken[o]);
    var i := Accounting.OmissionHasDeclaration(b, o, m, j);
    e := b.events[i];
  }

  lemma MissingOmitted(t: Taken) returns (m: Metric, j: nat)
    requires ThreadMissing(t)
    ensures Omitted(SampleOf(t), m, j)
  {
    hide ProcessCells, ProbeCells, SystemCells, Total;
    if t.probe.threads.None? {
      m, j := PROBE_THREADS, 0;
    } else {
      var q :| Missing(t, q);
      m, j := PROCESS_THREADS, q;
    }
    TakenCell(t, m, j);
  }

  lemma DeclarationOfCut(z: Setup, st: State, ms: seq<Message>, n: nat, b: Bundle, e: Event)
    requires IsCut(z, st, ms, n, b) && !Dangling(b) && e in b.events && e.MetricUnavailable?
    ensures AnyThreadMissing(st.taken[..|b.samples|]) && Operational(DeclOf(e).reason)
  {
    hide RunInv, WriteAhead, Identities, SamplesAre, CutBundle, Declared, Dangling, NamesMissingSample;
    NotMissing(b, e);
    var o := CutDeclared(z, st, ms, n, b, e);
    DeclaredMember(st.taken[o], o, e);
    assert st.taken[..|b.samples|][o] == st.taken[o];
    assert ThreadMissing(st.taken[o]);
  }

  /**
   * The status of an accepted cut of a Windows stream: DECLARED_PARTIAL exactly when a thread count was
   * missing from a kept sample, and DEGRADED exactly when that happened or retention degraded before the cut.
   */
  lemma WindowsCutStatus(z: Setup, steps: seq<Step>, code: u32, m: Measured, n: nat)
    requires Exec(z, steps).Some? && n <= |Finished(Exec(z, steps).value, code, m)|
    requires Accepted(CutBundle(Finished(Exec(z, steps).value, code, m), n))
    ensures var st := Exec(z, steps).value;
            var b := CutBundle(Finished(st, code, m), n);
            && |b.samples| <= |st.taken|
            && (CompletenessOf(b) == DeclaredPartial <==> AnyThreadMissing(st.taken[..|b.samples|]))
            && (ValidityOf(b) == Degraded <==>
                RetentionDegraded(b.events) || AnyThreadMissing(st.taken[..|b.samples|]))
  {
    hide Exec, RunInv, WriteAhead, Accepted, Dangling, Identities, SamplesAre, IsV2, CompletenessOf, ValidityOf,
      RetentionDegraded, ThreadMissing;
    var st := Exec(z, steps).value;
    var ms := Finished(st, code, m);
    var b := CutBundle(ms, n);
    AcceptedSamples(b);
    FinishedIsCut(z, steps, code, m, n);
    CutIsV2(z, st, ms, n, b);
    NothingDangles(b);
    Accounting.CompleteIffNoDeclarations(b);
    Accounting.DegradedIffOperationalEvent(b);
    DeclarationsOfCut(z, st, ms, n, b);
  }

  lemma DeclarationsOfCut(z: Setup, st: State, ms: seq<Message>, n: nat, b: Bundle)
    requires IsCut(z, st, ms, n, b) && Accepted(b) && IsV2(b) && !Dangling(b)
    ensures (exists e :: e in b.events && e.MetricUnavailable?) <==> AnyThreadMissing(st.taken[..|b.samples|])
    ensures forall e | e in b.events && e.MetricUnavailable? :: Operational(DeclOf(e).reason)
  {
    hide RunInv, WriteAhead, Accepted, Dangling, Identities, SamplesAre, IsV2, ThreadMissing, CutBundle, DeclOf,
      Operational;
    forall e | e in b.events && e.MetricUnavailable?
      ensures AnyThreadMissing(st.taken[..|b.samples|]) && Operational(DeclOf(e).reason)
    {
      DeclarationOfCut(z, st, ms, n, b, e);
    }
    if AnyThreadMissing(st.taken[..|b.samples|]) {
      var o :| 0 <= o < |b.samples| && ThreadMissing(st.taken[..|b.samples|][o]);
      assert st.taken[..|b.samples|][o] == st.taken[o];
      var e := MissingInCut(z, st, ms, n, b, o);
    }
  }
}
