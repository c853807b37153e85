/**
 * What the summariser makes of a Linux or macOS run: every finished run with a sample is accepted, and
 * its status is decided by the reads that failed.
 */
module DirectRootAcceptance {
  import opened Prelude
  import opened Records
  import opened SummarySpec
  import opened Journal
  import opened DirectRoot
  import Accounting

  lemma DeclarationAccounts(id: Identity, o: u64, r: Round, e: Event, samples: seq<Sample>)
    requires ValidIdentity(id) && o < |samples| && samples[o] == RoundSample(r) && FromRound(e, o, r)
    ensures e.MetricUnavailable? && DeclarationOk(e, samples, [RootRecord(id)]) && ExplainsSomething(e, samples)
  {
    RootAuthority(id);
    var s := samples[o];
    assert RowsOf(s)[0].id == Num(1);
    assert Accounts(e, samples, o, 0);
  }

  lemma RootAuthority(id: Identity)
    requires ValidIdentity(id)
    ensures Authority([RootRecord(id)], 1)
  {
    CountAt([RootRecord(id)], HasId(1), 0);
    assert RootRecord(id) in [RootRecord(id)];
  }

  lemma RoundSampleOk(s: Sample, o: nat, events: seq<Event>, r: Round)
    requires s == RoundSample(r) && AvailabilityOk(events, s, o)
    ensures SampleOk(s, o, events, true)
  {
    assert SumFirst(RowsOf(s), WorkingSetBytes, 0) == Ok(Some(0));
    assert SumFirst(RowsOf(s), PrivateBytes, 0) == Ok(Some(0));
  }

  lemma {:induction false} NoJobs(samples: seq<Sample>, n: nat)
    requires n <= |samples| && forall o | 0 <= o < |samples| :: samples[o].job.None?
    ensures JobPoints(samples, n) == [] && LastJob(samples, n) == None
  {
    if n > 0 {
      NoJobs(samples, n - 1);
    }
  }

  lemma TerminalAfterDeclarations(id: Identity, es: seq<Event>, exit: Option<Option<u32>>, all: seq<Event>)
    requires ValidIdentity(id) && forall e | e in es :: e.MetricUnavailable?
    requires all == es + (if exit.Some? then [ExitEvent(exit.value)] else [])
    ensures TerminalOk(all, [RootRecord(id)], true) && !RetentionDegraded(all)
  {
    CountNone(es, RootExit());
    if exit.Some? {
      CountSnoc(es, ExitEvent(exit.value), RootExit());
    } else {
      assert all == es;
    }
    RootAuthority(id);
    FirstMatchUnique(all, RootExit());
    assert forall e | e in all :: e in es || (exit.Some? && e == ExitEvent(exit.value));
  }

  lemma FinishedTerminal(id: Identity, rounds: seq<Round>, exit: Option<Option<u32>>)
    requires |rounds| <= U64_MAX && ValidIdentity(id)
    ensures TerminalOk(EventsOf(Finished(id, rounds, exit)), [RootRecord(id)], true)
    ensures !RetentionDegraded(EventsOf(Finished(id, rounds, exit)))
  {
    hide Persisted, Finished, RoundSample, FromRound, RoundEvents, TerminalOk, RetentionDegraded, ExitEvent;
    FinishedStreams(id, rounds, exit);
    var es := EventsOf(Persisted(id, rounds));
    forall e | e in es
      ensures e.MetricUnavailable?
    {
      PersistedEvents(id, rounds, e);
      var o :| 0 <= o < |rounds| && FromRound(e, o, rounds[o]);
      FromRoundIsDeclaration(e, o, rounds[o]);
    }
    TerminalAfterDeclarations(id, es, exit, EventsOf(Finished(id, rounds, exit)));
  }

  /**
   * Producer soundness: every run that persisted at least one sample is accepted, for every
   * sequence of read outcomes; it is always DECLARED_PARTIAL, and DEGRADED exactly when a read failed.
   */
  lemma RunIsAccepted(id: Identity, rounds: seq<Round>, exit: Option<Option<u32>>)
    requires ValidIdentity(id) && 0 < |rounds| <= U64_MAX
    ensures var b := BundleOf(Finished(id, rounds, exit), NoManifest);
            && Accepted(b) && IsV2(b)
            && CompletenessOf(b) == DeclaredPartial
            && (ValidityOf(b) == Degraded <==> AnyReadFailed(rounds))
  {
    hide Persisted, Finished, RoundSample, DeclarationsOk, NothingIdle, AllSamplesOk, TerminalOk, Settled, WriteAhead,
      PointsOk, FinalJobReadable, Ordered, SchemaUniform, IsV2, CompletenessOf, ValidityOf, Accepted, AvailabilityOk;
    var ms := Finished(id, rounds, exit);
    var b := BundleOf(ms, NoManifest);
    FinishedStreams(id, rounds, exit);
    RunIsSettled(id, rounds, exit, b);
    SettledJournalDeclarations(ms, b);
    RunSamplesOk(rounds, b);
    FinishedTerminal(id, rounds, exit);
    AcceptedFromParts(b);
    RunStatus(id, rounds, exit, b);
  }

  lemma RunIsSettled(id: Identity, rounds: seq<Round>, exit: Option<Option<u32>>, b: Bundle)
    requires ValidIdentity(id) && 0 < |rounds| <= U64_MAX
    requires b == BundleOf(Finished(id, rounds, exit), NoManifest)
    ensures Settled(b)
  {
    hide Persisted, Finished, RoundSample;
    FinishedStreams(id, rounds, exit);
    forall i | 0 <= i < |b.events| && b.events[i].MetricUnavailable?
      ensures DeclarationOk(b.events[i], b.samples, b.processes) && ExplainsSomething(b.events[i], b.samples)
    {
      var e := b.events[i];
      assert e in EventsOf(Persisted(id, rounds));
      PersistedEvents(id, rounds, e);
      var o :| 0 <= o < |rounds| && FromRound(e, o, rounds[o]);
      DeclarationAccounts(id, o, rounds[o], e, b.samples);
    }
  }

  lemma RunSamplesOk(rounds: seq<Round>, b: Bundle)
    requires 0 < |rounds| == |b.samples|
    requires forall o | 0 <= o < |rounds| :: b.samples[o] == RoundSample(rounds[o])
    requires forall o | 0 <= o < |b.samples| :: AvailabilityOk(b.events, b.samples[o], o)
    ensures IsV2(b) && SchemaUniform(b) && AllSamplesOk(b.samples, |b.samples|, b.events, true)
    ensures PointsOk(JobPoints(b.samples, |b.samples|)) && FinalJobReadable(b.samples) && Ordered(b.samples)
  {
    assert b.samples[0] in b.samples;
    forall o | 0 <= o < |b.samples|
      ensures SampleOk(b.samples[o], o, b.events, true)
    {
      RoundSampleOk(b.samples[o], o, b.events, rounds[o]);
    }
    NoJobs(b.samples, |b.samples|);
  }

  lemma RunStatus(id: Identity, rounds: seq<Round>, exit: Option<Option<u32>>, b: Bundle)
    requires ValidIdentity(id) && 0 < |rounds| <= U64_MAX
    requires b == BundleOf(Finished(id, rounds, exit), NoManifest) && Accepted(b) && IsV2(b)
    ensures CompletenessOf(b) == DeclaredPartial
    ensures ValidityOf(b) == Degraded <==> AnyReadFailed(rounds)
  {
    hide Accepted, ValidityOf, Finished, Persisted;
    FinishedStreams(id, rounds, exit);
    NoSystemCells(rounds[0]);
    assert AnyOmission(b.samples, |b.samples|);
    DegradedIffFailure(id, rounds, exit, b);
  }

  lemma NoSystemCells(r: Round)
    ensures Omitted(RoundSample(r), Metric(SystemDomain, DiskFreeBytes), 0)
  {
  }

  lemma DegradedIffFailure(id: Identity, rounds: seq<Round>, exit: Option<Option<u32>>, b: Bundle)
    requires ValidIdentity(id) && 0 < |rounds| <= U64_MAX
    requires b == BundleOf(Finished(id, rounds, exit), NoManifest) && Accepted(b) && IsV2(b)
    ensures ValidityOf(b) == Degraded <==> AnyReadFailed(rounds)
  {
    hide Accepted, ValidityOf;
    FinishedTerminal(id, rounds, exit);
    Accounting.DegradedIffOperationalEvent(b);
    OperationalIffFailure(id, rounds, exit);
  }

  lemma OperationalIffFailure(id: Identity, rounds: seq<Round>, exit: Option<Option<u32>>)
    requires |rounds| <= U64_MAX
    ensures (exists e :: e in EventsOf(Finished(id, rounds, exit)) && e.MetricUnavailable? &&
                         Operational(DeclOf(e).reason))
            <==> AnyReadFailed(rounds)
  {
    hide Persisted, Finished, RoundSample;
    FinishedStreams(id, rounds, exit);
    var es := EventsOf(Finished(id, rounds, exit));
    if o :| 0 <= o < |rounds| && (!rounds[o].target.Read? || !rounds[o].probe.Read?) {
      var e := FailureDeclared(o, rounds[o]);
      PersistedEvents(id, rounds, e);
      assert e in es;
    }
    if e :| e in es && e.MetricUnavailable? && Operational(DeclOf(e).reason) {
      PersistedEvents(id, rounds, e);
    }
  }

  lemma FailureDeclared(o: u64, r: Round) returns (e: Event)
    requires !r.target.Read? || !r.probe.Read?
    ensures e in RoundEvents(o, r) && e.MetricUnavailable? && Operational(DeclOf(e).reason)
  {
    e := if !r.target.Read? then TargetDeclaration(UserCpuTimeNs, o, r.target)
         else ProbeDeclaration(UserCpuTimeNs, o, r.probe);
  }
}
