/** The stages together: what a collector sends, what survives the transport, what the summariser makes of it. */
module Pipeline {
  import opened Prelude
  import opened Records
  import opened SummarySpec
  import opened Journal
  import Summariser
  import SummaryFields
  import EvidenceRules
  import DirectRoot
  import DirectRootAcceptance
  import DirectRootRecords
  import Collectors
  import W = WindowsRun
  import Turns = WindowsTurns
  import WindowsBehaviour
  import WindowsConservation
  import WindowsObserver
  import WindowsIdentity
  import WindowsLedger
  import WindowsAcceptance
  import T = Transport
  import N = Ndjson
  import R = Recovery
  import CrashVerdict
  import Schema

  // ---- Collect, then summarise -----------------------------------------------------------------

  /** A Linux run that ends normally with a sample always has a summary, and its status says which reads failed. */
  method SummariseLinuxRun(writer: Collectors.EvidenceWriter, id: DirectRoot.Identity, rate: int,
                           polls: seq<Collectors.Poll>)
    returns (end: Collectors.RunEnd, summary: Option<Summary>, ghost rounds: seq<DirectRoot.Round>)
    requires rate <= U64_MAX && writer.sent == [] && |polls| < U64_MAX && DirectRoot.ValidIdentity(id)
    modifies writer
    ensures WriteAhead(writer.sent)
    ensures |rounds| <= |polls|
    ensures forall o | 0 <= o < |rounds| ::
              Collectors.Usable(polls[o]) && Collectors.Captures(polls[o], rate, rounds[o])
    ensures end.Ended? ==> |rounds| < |polls| && Collectors.EndsRun(polls[|rounds|], rounds != [], end.exit)
    ensures end.Aborted? ==> writer.Full() ||
                             (|rounds| < |polls| && Collectors.FailsRun(polls[|rounds|], rounds != [], rate))
    ensures end.StillRunning? ==> |rounds| == |polls|
    ensures end.Ended? && rounds != [] ==> summary.Some?
    ensures end.Ended? && rounds != [] ==>
              summary.value.status ==
              Status(false, if DirectRoot.AnyReadFailed(rounds) then Degraded else Valid, DeclaredPartial)
    ensures end.Ended? && rounds != [] ==> summary.value.timing.sampleCount == |rounds|
    ensures end.Ended? && rounds != [] ==> summary.value.cpu.total == None
    ensures forall o | 0 <= o < |rounds| :: Collectors.PollShown(polls[o], rate, rounds[o])
    ensures end.Ended? ==> DirectRootRecords.StreamShows(id, rounds, Some(end.exit), writer.sent)
    ensures end.Ended? && rounds != [] ==> summary.value.terminal == Terminal(end.exit, None, None, None, None, None)
  {
    hide WriteAhead, DirectRoot.Finished, DirectRoot.AnyReadFailed, Accepted, DirectRoot.RoundSample,
      Collectors.Captures, Collectors.PollShown, DirectRootRecords.StreamShows, SummaryFields.Reports,
      SummaryFields.JobReported, Summariser.UnidentifiedCounted, Summariser.AnyV2,
      Collectors.EndsRun, Collectors.Usable, Collectors.FailsRun, MemoryIs, IoIs, PopulationIs, TerminalIs,
      MaxGapIs, TimingIs, PeakUtilizationIs,
      ValidityOf, CompletenessOf, RetentionDegraded, IsV2;
    end, rounds := Collectors.LinuxRun(writer, id, rate, polls);
    summary := None;
    if end.Ended? {
      var bundle := BundleOf(writer.sent, NoManifest);
      if rounds != [] {
        DirectRootAcceptance.RunIsAccepted(id, rounds, Some(end.exit));
        DirectRootAcceptance.FinishedTerminal(id, rounds, Some(end.exit));
        DirectRoot.FinishedStreams(id, rounds, Some(end.exit));
        JoblessSamples(rounds, bundle.samples);
        DirectRootAcceptance.NoJobs(bundle.samples, |bundle.samples|);
      }
      summary := Summariser.RegenerateSummary(bundle);
      if rounds != [] {
        HasV2Sample(bundle);
        LinuxTerminal(id, rounds, end.exit, writer.sent, summary.value);
      }
    }
  }

  lemma HasV2Sample(b: Bundle)
    requires IsV2(b)
    ensures Summariser.AnyV2(b.samples)
  {
  }

  /** The terminal section is the recorded exit: its code, and no counters. */
  lemma LinuxTerminal(id: DirectRoot.Identity, rounds: seq<DirectRoot.Round>, exit: Option<u32>, ms: seq<Message>,
                      s: Summary)
    requires rounds != [] && DirectRootRecords.StreamShows(id, rounds, Some(exit), ms)
    requires SamplesOf(ms) != [] && SummaryFields.Reports(BundleOf(ms, NoManifest), s)
    ensures s.terminal == Terminal(exit, None, None, None, None, None)
  {
    hide DirectRootRecords.RoundShows, DirectRootRecords.FailureDeclared, DirectRootRecords.MismatchesDeclared,
      SummaryFields.TimeReported, SummaryFields.MemoryReported, SummaryFields.JobReported, SummaryFields.PeakReported,
      SummaryFields.PopulationReported, ProcessesOf, SamplesOf, EventsOf;
    var events := EventsOf(ms);
    assert EvidenceRules.RootExited(events[|events| - 1]);
  }

  lemma JoblessSamples(rounds: seq<DirectRoot.Round>, samples: seq<Sample>)
    requires |samples| == |rounds| && forall o | 0 <= o < |rounds| :: samples[o] == DirectRoot.RoundSample(rounds[o])
    ensures forall o | 0 <= o < |samples| :: samples[o].job.None?
  {
  }

  /**
   * A Windows collection that succeeds is the run that its turns give. It has a summary exactly when the
   * environment behaved, which turns in order do; then the status is that of the run.
   */
  method SummariseWindowsRun(z: W.Setup, writer: Collectors.EvidenceWriter, turns: seq<Turns.Turn>,
                             finals: seq<u64 -> Turns.ChildStatus>,
                             code: Option<u32>, terminal: Option<W.Measured>, closes: bool)
    returns (ok: bool, summary: Option<Summary>, ghost steps: seq<W.Step>, ghost used: nat, ghost polled: nat)
    requires writer.sent == []
    requires 2 + WindowsObserver.ListedIn(turns, |turns|) <= U64_MAX && |turns| <= U64_MAX
    requires Turns.JobsMatch(z, turns)
    modifies writer
    ensures WriteAhead(writer.sent)
    ensures !ok ==> writer.Full() || Turns.Failed(z, turns, finals, used, polled, steps) ||
                    Turns.Unfinished(z, turns, finals, used, steps) ||
                    code.None? || terminal.None? || !closes || z.limit == 0
    ensures ok ==> code.Some? && terminal.Some?
    ensures ok ==> W.Exec(z, steps).Some? && W.Exec(z, steps).value.taken != []
    ensures ok ==> Turns.Ran(z, turns, finals, used, polled, steps)
    ensures ok ==> WindowsBehaviour.SamplesOfTurns(z.limit, turns, used, W.Exec(z, steps).value.taken)
    ensures ok ==> (summary.Some? <==> WindowsAcceptance.Environment(z, W.Exec(z, steps).value))
    ensures ok && WindowsBehaviour.WellBehaved(z, turns) ==> summary.Some?
    ensures ok && summary.Some? ==> 0 < used <= |turns| && WindowsBehaviour.TurnsClock(z, turns, used) &&
                                    WindowsAcceptance.RootOk(z)
    ensures ok && summary.Some? ==>
              var st := W.Exec(z, steps).value;
              summary.value.status ==
              Status(st.degraded,
                     if st.degraded || WindowsAcceptance.AnyThreadMissing(st.taken) then Degraded else Valid,
                     if WindowsAcceptance.AnyThreadMissing(st.taken) then DeclaredPartial else Complete)
    ensures ok && summary.Some? ==>
              summary.value.terminal ==
              Terminal(code, Some(terminal.value.user), Some(terminal.value.kernel), Some(terminal.value.read),
                       Some(terminal.value.write), Some("attempted_after_exit"))
    ensures ok ==> (WindowsIdentity.Conserved(EventsOf(W.Exec(z, steps).value.sent)) <==>
                    WindowsConservation.NothingRelisted(z, steps))
    ensures ok && (WindowsConservation.NoReturn(turns) || WindowsConservation.ListsRetained(z, steps)) ==>
              WindowsIdentity.Conserved(EventsOf(W.Exec(z, steps).value.sent))
  {
    hide WriteAhead, WindowsConservation.NoReturn, WindowsConservation.ListsRetained, W.Exec, W.Finished,
      WindowsAcceptance.Environment, WindowsAcceptance.AnyThreadMissing, Accepted,
      WindowsIdentity.Conserved, W.RelistsAt, Describes, WindowsObserver.ListedIn, Turns.JobsMatch, RetentionDegraded,
      Turns.Ran, Turns.Failed, Turns.Unfinished, WindowsBehaviour.WellBehaved, WindowsBehaviour.SamplesOfTurns,
      WindowsBehaviour.TurnsClock, WindowsAcceptance.RootOk, SummaryFields.Reports, SummaryFields.JobReported,
      Summariser.UnidentifiedCounted, Summariser.AnyV2, WindowsObserver.ExitShows, WindowsConservation.NothingRelisted,
      EvidenceRules.Rules, EventsOf, ProcessesOf, SamplesOf;
    ok, steps, used, polled := WindowsObserver.CollectWindows(z, writer, turns, finals, code, terminal, closes);
    summary := None;
    if ok {
      summary := Summariser.RegenerateSummary(BundleOf(writer.sent, NoManifest));
      WindowsAcceptance.AcceptedExactly(z, steps, code.value, terminal.value);
      WindowsHandles(z, turns, finals, used, polled, steps);
      WindowsEnough(z, turns, finals, used, polled, steps);
      if summary.Some? {
        AcceptedHasSamples(BundleOf(writer.sent, NoManifest));
        WindowsStatus(z, steps, code.value, terminal.value, summary.value);
        WindowsTerminal(writer.sent, code.value, terminal.value, summary.value);
      }
    }
  }

  lemma WindowsHandles(z: W.Setup, turns: seq<Turns.Turn>, finals: seq<u64 -> Turns.ChildStatus>, n: nat, m: nat,
                       steps: seq<W.Step>)
    requires W.Exec(z, steps).Some? && Turns.Ran(z, turns, finals, n, m, steps)
    requires W.Exec(z, steps).value.retained == map[]
    ensures WindowsIdentity.Conserved(EventsOf(W.Exec(z, steps).value.sent)) <==>
            WindowsConservation.NothingRelisted(z, steps)
    ensures WindowsConservation.NoReturn(turns) || WindowsConservation.ListsRetained(z, steps) ==>
              WindowsIdentity.Conserved(EventsOf(W.Exec(z, steps).value.sent))
  {
    hide WindowsConservation.NoReturn, WindowsConservation.ListsRetained, W.Exec, WindowsIdentity.Conserved,
      W.RelistsAt, Turns.Ran, EventsOf;
    WindowsIdentity.HandlesConserved(z, steps);
    if WindowsConservation.NoReturn(turns) {
      WindowsConservation.NoReturnNoRelisting(z, turns, finals, n, m, steps);
    }
    if WindowsConservation.ListsRetained(z, steps) {
      WindowsConservation.ListedIsNotRelisted(z, steps);
    }
  }

  lemma WindowsEnough(z: W.Setup, turns: seq<Turns.Turn>, finals: seq<u64 -> Turns.ChildStatus>, n: nat, m: nat,
                      steps: seq<W.Step>)
    requires W.Exec(z, steps).Some? && W.Exec(z, steps).value.taken != []
    requires z.limit >= 1 && Turns.Ran(z, turns, finals, n, m, steps)
    ensures 0 < n <= |turns|
    ensures WindowsBehaviour.SamplesOfTurns(z.limit, turns, n, W.Exec(z, steps).value.taken)
    ensures WindowsBehaviour.WellBehaved(z, turns) ==> WindowsAcceptance.Environment(z, W.Exec(z, steps).value)
    ensures WindowsAcceptance.Environment(z, W.Exec(z, steps).value) ==>
              WindowsBehaviour.TurnsClock(z, turns, n) && WindowsAcceptance.RootOk(z)
  {
    hide W.Exec, WindowsAcceptance.Environment, WindowsAcceptance.RootOk, Turns.Ran,
      WindowsBehaviour.WellBehaved, WindowsBehaviour.SamplesOfTurns, WindowsBehaviour.TurnsClock;
    WindowsBehaviour.RanSamples(z, turns, finals, n, m, steps);
    UsedTurns(z, turns, finals, n, m, steps);
    if WindowsBehaviour.WellBehaved(z, turns) {
      WindowsBehaviour.WellBehavedIsEnough(z, turns, finals, n, m, steps);
    }
    if WindowsAcceptance.Environment(z, W.Exec(z, steps).value) {
      WindowsBehaviour.AcceptedClock(z, turns, finals, n, m, steps);
    }
  }

  /** The terminal section is what the last queries of the root gave. */
  lemma WindowsTerminal(ms: seq<Message>, code: u32, m: W.Measured, s: Summary)
    requires SamplesOf(ms) != [] && SummaryFields.Reports(BundleOf(ms, NoManifest), s)
    requires |EventsOf(ms)| >= 2 && WindowsObserver.ExitShows(EventsOf(ms)[|EventsOf(ms)| - 2], 1, code, m)
    ensures s.terminal ==
            Terminal(Some(code), Some(m.user), Some(m.kernel), Some(m.read), Some(m.write),
                     Some("attempted_after_exit"))
  {
    hide SummaryFields.TimeReported, SummaryFields.MemoryReported, SummaryFields.JobReported,
      SummaryFields.PeakReported, SummaryFields.PopulationReported, ProcessesOf, SamplesOf, EventsOf;
    var events := EventsOf(ms);
    assert EvidenceRules.RootExited(events[|events| - 2]);
  }

  lemma UsedTurns(z: W.Setup, turns: seq<Turns.Turn>, finals: seq<u64 -> Turns.ChildStatus>, n: nat, m: nat,
                  steps: seq<W.Step>)
    requires Turns.Ran(z, turns, finals, n, m, steps)
    ensures 0 < n <= |turns|
  {
  }

  lemma AcceptedHasSamples(b: Bundle)
    requires Accepted(b)
    ensures b.samples != []
  {
  }

  lemma WindowsStatus(z: W.Setup, steps: seq<W.Step>, code: u32, m: W.Measured, s: Summary)
    requires W.Exec(z, steps).Some? && W.Exec(z, steps).value.taken != []
    requires WindowsAcceptance.Environment(z, W.Exec(z, steps).value)
    requires var b := BundleOf(W.Finished(W.Exec(z, steps).value, code, m), NoManifest);
             b.samples != [] && Describes(b, s)
    ensures Summariser.AnyV2(BundleOf(W.Finished(W.Exec(z, steps).value, code, m), NoManifest).samples)
    ensures var st := W.Exec(z, steps).value;
            s.status == Status(st.degraded,
                               if st.degraded || WindowsAcceptance.AnyThreadMissing(st.taken) then Degraded else Valid,
                               if WindowsAcceptance.AnyThreadMissing(st.taken) then DeclaredPartial else Complete)
  {
    hide W.Exec, W.Finished, WindowsAcceptance.Environment, WindowsAcceptance.AnyThreadMissing, RetentionDegraded,
      ValidityOf, CompletenessOf, IsV2, WindowsIdentity.IdentityInv, WindowsIdentity.LifeInv, WindowsLedger.LedgerInv,
      MemoryIs, CpuIs, IoIs, PopulationIs, TerminalIs, TimingIs, MaxGapIs;
    var st := W.Exec(z, steps).value;
    WindowsAcceptance.StatusExactly(z, steps, code, m);
    HasV2Sample(BundleOf(W.Finished(st, code, m), NoManifest));
    WindowsAcceptance.RunKeepsAll(z, steps);
    WindowsAcceptance.FinishedStreams(z, st, code, m);
    WindowsAcceptance.EndKeepsRetention(EventsOf(st.sent), code, m);
  }

  // ---- The manifest of a completed bundle ------------------------------------------------------

  /** A completed bundle is accepted again exactly when its manifest repeats the status of its own summary. */
  lemma ManifestRepeatsStatus(b: Bundle, s: Summary, validity: Text<Validity>, completeness: Text<Completeness>)
    requires b.manifest == NoManifest && Accepted(b) && IsV2(b) && Describes(b, s)
    ensures Accepted(b.(manifest := Manifest(true, validity, completeness))) <==>
            validity == Text(s.status.validity) && completeness == Text(s.status.completeness)
    ensures Describes(b.(manifest := Manifest(true, validity, completeness)), s)
  {
    hide SchemaUniform, RecordsReadable, AllSamplesOk, PointsOk, FinalJobReadable, TerminalOk, Ordered,
      RetentionDegraded,
      OperationalOmission, AnyOmission, PeakUtilizationIs, MemoryIs, PopulationIs, TerminalIs, CpuIs, IoIs,
      MaxGapIs, TimingIs;
    var c := b.(manifest := Manifest(true, validity, completeness));
    SameStatus(b, c);
    SameChecks(b, c);
  }

  lemma SameStatus(b: Bundle, c: Bundle)
    requires b.processes == c.processes && b.samples == c.samples && b.events == c.events
    ensures IsV2(b) == IsV2(c) && ValidityOf(b) == ValidityOf(c) && CompletenessOf(b) == CompletenessOf(c)
  {
  }

  lemma SameChecks(b: Bundle, c: Bundle)
    requires b.processes == c.processes && b.samples == c.samples && b.events == c.events
    ensures SchemaUniform(b) == SchemaUniform(c) && DeclarationsOk(b) == DeclarationsOk(c)
    ensures NothingIdle(b) == NothingIdle(c)
  {
    hide DeclarationOk, ExplainsSomething, SameKey;
  }

  // ---- What a crash leaves ---------------------------------------------------------------------

  /** Every sample whose record is fully on disk is accounted for by declarations that are fully on disk. */
  ghost predicate DurablyAccounted(st: T.State) {
    var ms := T.MessagesOf(T.Durable(st));
    forall o | 0 <= o < |SamplesOf(ms)| :: AvailabilityOk(EventsOf(ms), SamplesOf(ms)[o], o)
  }

  lemma CrashKeepsAccounts(capacity: nat, run: seq<T.State>, i: nat, whole: seq<Message>)
    requires T.Run(capacity, run) && i < |run|
    requires WriteAhead(whole) && T.MessagesOf(T.Sent(run[i])) <= whole
    ensures DurablyAccounted(run[i])
  {
    hide WriteAhead, T.Run, T.Durable, AvailabilityOk;
    var sent := T.MessagesOf(T.Sent(run[i]));
    WriteAheadPrefix(whole, |sent|);
    assert whole[..|sent|] == sent;
    T.CrashSafety(capacity, run, i);
  }

  /** Write-ahead safety for Linux and macOS: any capacity, interleaving, read outcomes and moment of the crash. */
  lemma DirectRootCrashSafe(capacity: nat, run: seq<T.State>, i: nat, id: DirectRoot.Identity,
                            rounds: seq<DirectRoot.Round>, exit: Option<Option<u32>>)
    requires T.Run(capacity, run) && i < |run| && |rounds| <= U64_MAX
    requires T.MessagesOf(T.Sent(run[i])) <= DirectRoot.Finished(id, rounds, exit)
    ensures DurablyAccounted(run[i])
  {
    hide T.Run, WriteAhead, DirectRoot.Finished, DurablyAccounted;
    DirectRoot.FinishedStreams(id, rounds, exit);
    CrashKeepsAccounts(capacity, run, i, DirectRoot.Finished(id, rounds, exit));
  }

  /** The same for Windows, over every run of the collector. */
  lemma WindowsCrashSafe(capacity: nat, run: seq<T.State>, i: nat, z: W.Setup, steps: seq<W.Step>, code: u32,
                         m: W.Measured)
    requires T.Run(capacity, run) && i < |run| && W.Exec(z, steps).Some?
    requires T.MessagesOf(T.Sent(run[i])) <= W.Finished(W.Exec(z, steps).value, code, m)
    ensures DurablyAccounted(run[i])
  {
    hide T.Run, WriteAhead, W.Exec, W.Finished, DurablyAccounted, WindowsAcceptance.RunInv;
    WindowsAcceptance.RunKeepsAll(z, steps);
    WindowsAcceptance.FinishedStreams(z, W.Exec(z, steps).value, code, m);
    CrashKeepsAccounts(capacity, run, i, W.Finished(W.Exec(z, steps).value, code, m));
  }

  // ---- What a finished writer leaves -----------------------------------------------------------

  /** All three streams read back whole: record for record what was sent. */
  ghost predicate ReadsBackWhole(st: T.State) {
    forall s: T.Stream :: N.Read(st.disk.Get(s)) == Ok(N.Texts(T.BodiesOn(T.Sent(st), s)))
  }

  lemma DrainedReadsBack(capacity: nat, st: T.State)
    requires T.Inv(capacity, st) && st.queue == [] && st.current.None?
    requires var ms := T.MessagesOf(T.Sent(st)); ProcessesOf(ms) != [] && SamplesOf(ms) != [] && EventsOf(ms) != []
    ensures ReadsBackWhole(st)
  {
    hide N.Read, T.Inv, T.Sent, T.BodiesOn, ProcessesOf, SamplesOf, EventsOf;
    T.StreamLengths(T.Sent(st));
    forall s: T.Stream
      ensures N.Read(st.disk.Get(s)) == Ok(N.Texts(T.BodiesOn(T.Sent(st), s)))
    {
      T.FinishedRecovery(capacity, st, s);
      assert |T.BodiesOn(T.Sent(st), s)| > 0;
    }
  }

  /** No finished Linux or macOS bundle with a sample is refused for an empty stream. */
  lemma DirectRootReadsBack(capacity: nat, st: T.State, id: DirectRoot.Identity, rounds: seq<DirectRoot.Round>,
                            exit: Option<Option<u32>>)
    requires T.Inv(capacity, st) && st.queue == [] && st.current.None? && 0 < |rounds| <= U64_MAX
    requires T.MessagesOf(T.Sent(st)) == DirectRoot.Finished(id, rounds, exit)
    ensures ReadsBackWhole(st)
  {
    hide T.Inv, T.Sent, ReadsBackWhole, DirectRoot.Finished, DirectRoot.Persisted, DirectRoot.RoundSample, WriteAhead;
    DirectRoot.FinishedStreams(id, rounds, exit);
    var e := FirstDeclaration(rounds[0]);
    DirectRoot.PersistedEvents(id, rounds, e);
    DrainedReadsBack(capacity, st);
  }

  lemma FirstDeclaration(r: DirectRoot.Round) returns (e: Event)
    ensures e in DirectRoot.RoundEvents(0, r)
  {
    var ms := DirectRoot.SemanticMismatches();
    e := DirectRoot.RunDeclaration(ms[0]);
    assert DirectRoot.Declare(ms)[0] == e;
    assert e in DirectRoot.Declare(ms);
  }

  /** Nor is any finished Windows bundle with a sample. */
  lemma WindowsReadsBack(capacity: nat, st: T.State, z: W.Setup, steps: seq<W.Step>, code: u32, m: W.Measured)
    requires T.Inv(capacity, st) && st.queue == [] && st.current.None?
    requires W.Exec(z, steps).Some? && W.Exec(z, steps).value.taken != []
    requires T.MessagesOf(T.Sent(st)) == W.Finished(W.Exec(z, steps).value, code, m)
    ensures ReadsBackWhole(st)
  {
    hide T.Inv, T.Sent, ReadsBackWhole, W.Exec, W.Finished, WriteAhead, WindowsAcceptance.RunInv;
    WindowsAcceptance.RunKeepsAll(z, steps);
    WindowsAcceptance.FinishedStreams(z, W.Exec(z, steps).value, code, m);
    NonEmptyStreams(z, W.Exec(z, steps).value);
    DrainedReadsBack(capacity, st);
  }

  lemma NonEmptyStreams(z: W.Setup, st: W.State)
    requires WindowsAcceptance.RunInv(z, st) && st.taken != []
    ensures ProcessesOf(st.sent) != [] && SamplesOf(st.sent) != []
  {
  }

  // ---- From the bytes to the summary -----------------------------------------------------------

  /** Summarising what is on disk: nothing when a stream cannot be read, otherwise the recovered bundle's summary. */
  method SummariseDisk(disk: T.Disk, manifest: Manifest) returns (r: Option<Summary>)
    ensures R.Recover(disk, manifest).Some? <==> forall s: T.Stream :: N.Read(disk.Get(s)).Ok?
    ensures r.Some? <==> R.Recover(disk, manifest).Some? && Accepted(R.Recover(disk, manifest).value)
    ensures r.Some? ==> Describes(R.Recover(disk, manifest).value, r.value)
    ensures r.Some? && Summariser.AnyV2(R.Recover(disk, manifest).value.samples) ==>
              EvidenceRules.Rules(R.Recover(disk, manifest).value) &&
              SummaryFields.Reports(R.Recover(disk, manifest).value, r.value)
    ensures r.Some? ==> SummaryFields.JobReported(R.Recover(disk, manifest).value.samples, r.value)
  {
    hide Accepted, R.Recover, Describes, N.Read, SummaryFields.Reports, SummaryFields.JobReported, Summariser.AnyV2,
      EvidenceRules.Rules;
    R.RecoverExactly(disk, manifest);
    var bundle := R.Recover(disk, manifest);
    if bundle.None? {
      return None;
    }
    r := Summariser.RegenerateSummary(bundle.value);
  }

  lemma DrainedRecovers(capacity: nat, st: T.State)
    requires T.Inv(capacity, st) && st.queue == [] && st.current.None? && R.AllFaithful(T.Sent(st))
    requires ReadsBackWhole(st)
    ensures R.Recover(st.disk, NoManifest) == Some(BundleOf(T.MessagesOf(T.Sent(st)), NoManifest))
  {
    hide N.Read, T.Inv, R.Recover, R.AllFaithful, T.TornCharacterOn, T.BodiesOn;
    R.RecoveredIsDurable(capacity, st, NoManifest);
    if R.Refused(st) {
      var s: T.Stream :| st.disk.Get(s) == [] || T.TornCharacterOn(st, s);
      T.StreamRecovery(capacity, st, s);
    }
    assert T.Durable(st) == T.Sent(st);
  }

  // ---- The collectors' messages can be written -------------------------------------------------

  lemma WritableAppend(ms: seq<Message>, ns: seq<Message>)
    requires R.AllWritable(ms) && R.AllWritable(ns)
    ensures R.AllWritable(ms + ns)
  {
    hide R.Writable;
  }

  lemma WritableEvents(es: seq<Event>)
    requires forall e | e in es :: Schema.WritableEvent(e)
    ensures R.AllWritable(AsMessages(es))
  {
    hide Schema.WritableEvent;
    forall i | 0 <= i < |es|
      ensures R.Writable(AsMessages(es)[i])
    {
      assert es[i] in es;
    }
  }

  lemma RoundWritable(o: u64, r: DirectRoot.Round)
    ensures R.AllWritable(EntryMessages(DirectRoot.RoundEntry(o, r)))
  {
    hide DirectRoot.RoundEvents, DirectRoot.RoundSample, R.Writable;
    forall e | e in DirectRoot.RoundEvents(o, r)
      ensures Schema.WritableEvent(e)
    {
      DirectRoot.RoundEventsAreFromRound(o, r, e);
      FromRoundWritable(e, o, r);
    }
    WritableEvents(DirectRoot.RoundEvents(o, r));
    RoundSampleWritable(r);
    WritableAppend(AsMessages(DirectRoot.RoundEvents(o, r)), [SampleMessage(DirectRoot.RoundSample(r))]);
  }

  lemma FromRoundWritable(e: Event, o: u64, r: DirectRoot.Round)
    requires DirectRoot.FromRound(e, o, r)
    ensures Schema.WritableEvent(e)
  {
  }

  lemma RoundSampleWritable(r: DirectRoot.Round)
    ensures R.Writable(SampleMessage(DirectRoot.RoundSample(r)))
  {
  }

  lemma {:induction false} PersistedWritable(id: DirectRoot.Identity, rounds: seq<DirectRoot.Round>)
    requires |rounds| <= U64_MAX
    ensures R.AllWritable(DirectRoot.Persisted(id, rounds))
  {
    hide DirectRoot.RoundEntry, EntryMessages;
    if rounds != [] {
      var n := |rounds| - 1;
      PersistedWritable(id, rounds[..n]);
      RoundWritable(n, rounds[n]);
      assert DirectRoot.Entries(rounds)[..n] == DirectRoot.Entries(rounds[..n]);
      WritableAppend(DirectRoot.Persisted(id, rounds[..n]), EntryMessages(DirectRoot.RoundEntry(n, rounds[n])));
    }
  }

  /** Every message of a finished Linux or macOS run has a serialised object that reads back as the message. */
  lemma DirectRootWritable(id: DirectRoot.Identity, rounds: seq<DirectRoot.Round>, exit: Option<Option<u32>>)
    requires |rounds| <= U64_MAX
    ensures R.AllWritable(DirectRoot.Finished(id, rounds, exit))
  {
    hide DirectRoot.Persisted;
    PersistedWritable(id, rounds);
    WritableAppend(DirectRoot.Persisted(id, rounds),
                   if exit.Some? then [EventMessage(DirectRoot.ExitEvent(exit.value))] else []);
  }

  lemma TakenWritable(t: W.Taken)
    ensures R.Writable(SampleMessage(W.SampleOf(t)))
  {
    hide W.Total, W.ProcessCells, W.ProbeCells, W.SystemCells, Schema.WritableCells;
    forall j | 0 <= j < |t.rows|
      ensures Schema.WritableRow(W.RowRecords(t.rows)[j])
    {
      CountersWritable(t.rows[j].counters);
    }
    CountersWritable(t.probe);
    SystemWritable(t.system);
  }

  lemma CountersWritable(m: W.Measured)
    ensures Schema.WritableCells(PROCESS_FIELDS, W.ProcessCells(m))
    ensures Schema.WritableCells(PROBE_FIELDS, W.ProbeCells(m))
  {
  }

  lemma SystemWritable(c: W.SystemCounters)
    ensures Schema.WritableCells(SYSTEM_FIELDS, W.SystemCells(c))
  {
  }

  lemma DeclaredWritable(t: W.Taken, o: u64)
    ensures forall e | e in W.Declared(t, o) :: Schema.WritableEvent(e)
  {
    forall e | e in W.Declared(t, o)
      ensures Schema.WritableEvent(e)
    {
      WindowsAcceptance.DeclaredMember(t, o, e);
    }
  }

  lemma StepWritable(z: W.Setup, st: W.State, step: W.Step)
    requires W.Legal(z, st, step)
    ensures R.AllWritable(W.StepMessages(z, st, step))
  {
    hide W.Declared, W.SampleOf, W.RowsLegal, W.GapSince;
    match step {
      case Forget(_) =>
      case Meet(pid, parent, opening) =>
        WritableEvents(W.MeetEvents(z, st, opening));
        WritableAppend([ProcessMessage(W.ChildRecord(z, st, pid, parent, opening))],
                       AsMessages(W.MeetEvents(z, st, opening)));
      case Finish(pid, code, m) =>
        WritableEvents([W.ExitOf(st.retained[pid], code, m), HandleReleased(st.retained[pid])]);
      case Take(t) =>
        DeclaredWritable(t, |st.taken|);
        WritableEvents(W.Declared(t, |st.taken|));
        TakenWritable(t);
        WritableAppend(AsMessages(W.Declared(t, |st.taken|)), [SampleMessage(W.SampleOf(t))]);
    }
  }

  lemma {:induction false} ExecWritable(z: W.Setup, steps: seq<W.Step>)
    requires W.Exec(z, steps).Some?
    ensures R.AllWritable(W.Exec(z, steps).value.sent)
  {
    hide W.Legal, W.StepMessages, W.Moved, R.AllWritable;
    if steps == [] {
      PrologueWritable(z);
    } else {
      var st, step := W.Exec(z, steps[..|steps| - 1]).value, steps[|steps| - 1];
      ExecWritable(z, steps[..|steps| - 1]);
      StepWritable(z, st, step);
      WritableAppend(st.sent, W.StepMessages(z, st, step));
    }
  }

  /** Every message of a finished Windows run has one too, the root's exit and release included. */
  lemma WindowsWritable(z: W.Setup, steps: seq<W.Step>, code: u32, m: W.Measured)
    requires W.Exec(z, steps).Some?
    ensures R.AllWritable(W.Finished(W.Exec(z, steps).value, code, m))
  {
    hide W.Exec, R.AllWritable;
    ExecWritable(z, steps);
    WritableEvents([W.ExitOf(1, code, m), HandleReleased(1)]);
    WritableAppend(W.Exec(z, steps).value.sent, AsMessages([W.ExitOf(1, code, m), HandleReleased(1)]));
  }

  lemma PrologueWritable(z: W.Setup)
    ensures R.AllWritable(W.Prologue(z))
  {
  }

  // ---- End to end ------------------------------------------------------------------------------

  /**
   * End to end for Linux and macOS: after a successful finish the bytes that the collector's packets
   * left on disk read back as the run, and it is accepted.
   */
  lemma DirectRootEndToEnd(capacity: nat, st: T.State, id: DirectRoot.Identity, rounds: seq<DirectRoot.Round>,
                           exit: Option<Option<u32>>, ds: seq<R.Details>)
    requires T.Inv(capacity, st) && st.queue == [] && st.current.None?
    requires DirectRoot.ValidIdentity(id) && 0 < |rounds| <= U64_MAX
    requires |ds| == |DirectRoot.Finished(id, rounds, exit)| && R.PlainDetails(ds)
    requires T.Sent(st) == R.Packets(DirectRoot.Finished(id, rounds, exit), ds)
    ensures var b := R.Recover(st.disk, NoManifest);
            && b == Some(BundleOf(DirectRoot.Finished(id, rounds, exit), NoManifest))
            && Accepted(b.value) && CompletenessOf(b.value) == DeclaredPartial
            && (ValidityOf(b.value) == Degraded <==> DirectRoot.AnyReadFailed(rounds))
  {
    hide T.Inv, T.Sent, ReadsBackWhole, DirectRoot.Finished, R.Recover, R.AllFaithful, R.AllWritable,
      R.PlainDetails, Accepted,
      CompletenessOf, ValidityOf, DirectRoot.AnyReadFailed, IsV2, BundleOf;
    DirectRootWritable(id, rounds, exit);
    R.PacketsAreFaithful(DirectRoot.Finished(id, rounds, exit), ds);
    DirectRootReadsBack(capacity, st, id, rounds, exit);
    DrainedRecovers(capacity, st);
    DirectRootAcceptance.RunIsAccepted(id, rounds, exit);
  }

  /** End to end for Windows: the bytes on disk read back as the run, accepted exactly when the environment behaved. */
  lemma WindowsEndToEnd(capacity: nat, st: T.State, z: W.Setup, steps: seq<W.Step>, code: u32, m: W.Measured,
                        ds: seq<R.Details>)
    requires T.Inv(capacity, st) && st.queue == [] && st.current.None?
    requires W.Exec(z, steps).Some? && W.Exec(z, steps).value.taken != []
    requires |ds| == |W.Finished(W.Exec(z, steps).value, code, m)| && R.PlainDetails(ds)
    requires T.Sent(st) == R.Packets(W.Finished(W.Exec(z, steps).value, code, m), ds)
    ensures var b := R.Recover(st.disk, NoManifest);
            && b == Some(BundleOf(W.Finished(W.Exec(z, steps).value, code, m), NoManifest))
            && (Accepted(b.value) <==> WindowsAcceptance.Environment(z, W.Exec(z, steps).value))
  {
    hide T.Inv, T.Sent, ReadsBackWhole, W.Exec, W.Finished, R.Recover, R.AllFaithful, R.AllWritable, R.PlainDetails,
      Accepted,
      BundleOf, WindowsAcceptance.Environment;
    WindowsWritable(z, steps, code, m);
    R.PacketsAreFaithful(W.Finished(W.Exec(z, steps).value, code, m), ds);
    WindowsReadsBack(capacity, st, z, steps, code, m);
    DrainedRecovers(capacity, st);
    WindowsAcceptance.AcceptedExactly(z, steps, code, m);
  }

  // ---- The verdict on a crash ------------------------------------------------------------------

  /** What a crash leaves of a collector's packets reads back as a cut of its messages, or is refused. */
  lemma CutOnDisk(capacity: nat, st: T.State, ms: seq<Message>, ds: seq<R.Details>)
    requires T.Inv(capacity, st) && |ds| == |ms| && R.AllWritable(ms) && R.PlainDetails(ds)
    requires T.Sent(st) <= R.Packets(ms, ds)
    ensures |T.Durable(st)| <= |ms|
    ensures R.Recover(st.disk, NoManifest) ==
            if R.Refused(st) then None else Some(CrashVerdict.CutBundle(ms, |T.Durable(st)|))
  {
    hide T.Inv, T.Sent, T.Durable, R.Recover, R.AllFaithful, R.AllWritable, R.PlainDetails, R.Refused;
    var all := R.Packets(ms, ds);
    R.PacketsAreFaithful(ms, ds);
    R.FaithfulPrefix(T.Sent(st), all);
    T.DurableIsPrefix(st);
    R.RecoveredIsDurable(capacity, st, NoManifest);
    var n := |T.Durable(st)|;
    assert T.Durable(st) == all[..n];
    assert T.MessagesOf(all[..n]) == T.MessagesOf(all)[..n];
  }

  /**
   * A crashed Linux or macOS run is accepted exactly when it can be read, has a sample and leaves no
   * declaration dangling; its status is then decided by the reads that failed before the crash.
   */
  lemma DirectRootCrashVerdict(capacity: nat, st: T.State, id: DirectRoot.Identity, rounds: seq<DirectRoot.Round>,
                               exit: Option<Option<u32>>, ds: seq<R.Details>)
    requires T.Inv(capacity, st) && DirectRoot.ValidIdentity(id) && |rounds| <= U64_MAX
    requires |ds| == |DirectRoot.Finished(id, rounds, exit)| && R.PlainDetails(ds)
    requires T.Sent(st) <= R.Packets(DirectRoot.Finished(id, rounds, exit), ds)
    ensures R.Recover(st.disk, NoManifest).None? <==> R.Refused(st)
    ensures !R.Refused(st) ==>
              var b := R.Recover(st.disk, NoManifest).value;
              && |b.samples| <= |rounds|
              && (Accepted(b) <==> b.samples != [] && !CrashVerdict.Dangling(b))
              && (Accepted(b) ==>
                  && CompletenessOf(b) == DeclaredPartial
                  && (ValidityOf(b) == Degraded <==> DirectRoot.AnyReadFailed(rounds[..|b.samples|])))
  {
    hide T.Inv, T.Sent, T.Durable, R.Recover, R.AllWritable, R.PlainDetails, R.Refused, Accepted, CrashVerdict.Dangling,
      DirectRoot.Finished, CrashVerdict.CutBundle, CompletenessOf, ValidityOf, DirectRoot.AnyReadFailed, IsV2;
    DirectRootWritable(id, rounds, exit);
    CutOnDisk(capacity, st, DirectRoot.Finished(id, rounds, exit), ds);
    var n := |T.Durable(st)|;
    CrashVerdict.DirectRootVerdict(id, rounds, exit, n);
    CrashVerdict.CutShape(id, rounds, exit, n, CrashVerdict.CutBundle(DirectRoot.Finished(id, rounds, exit), n));
    if Accepted(CrashVerdict.CutBundle(DirectRoot.Finished(id, rounds, exit), n)) {
      CrashVerdict.DirectRootCutStatus(id, rounds, exit, n);
    }
  }

  /** The same for a crashed Windows run, whose environment must also have behaved up to the crash. */
  lemma WindowsCrashVerdict(capacity: nat, st: T.State, z: W.Setup, steps: seq<W.Step>, code: u32, m: W.Measured,
                            ds: seq<R.Details>)
    requires T.Inv(capacity, st) && W.Exec(z, steps).Some?
    requires |ds| == |W.Finished(W.Exec(z, steps).value, code, m)| && R.PlainDetails(ds)
    requires T.Sent(st) <= R.Packets(W.Finished(W.Exec(z, steps).value, code, m), ds)
    ensures R.Recover(st.disk, NoManifest).None? <==> R.Refused(st)
    ensures !R.Refused(st) ==>
              var run := W.Exec(z, steps).value;
              var b := R.Recover(st.disk, NoManifest).value;
              && |b.samples| <= |run.taken|
              && (Accepted(b) <==>
                  && b.samples != [] && !CrashVerdict.Dangling(b)
                  && CrashVerdict.CutEnvironment(z, b.processes, run.taken[..|b.samples|])
                  && (|T.Durable(st)| > |run.sent| ==> WindowsAcceptance.RootOk(z)))
              && (Accepted(b) ==>
                  var missing := WindowsAcceptance.AnyThreadMissing(run.taken[..|b.samples|]);
                  && (CompletenessOf(b) == DeclaredPartial <==> missing)
                  && (ValidityOf(b) == Degraded <==> RetentionDegraded(b.events) || missing))
  {
    hide T.Inv, T.Sent, T.Durable, R.Recover, R.AllWritable, R.PlainDetails, R.Refused, Accepted,
      CrashVerdict.Dangling, W.Exec,
      W.Finished, CrashVerdict.CutBundle, CrashVerdict.CutEnvironment, WindowsAcceptance.RootOk, CompletenessOf,
      ValidityOf,
      RetentionDegraded, WindowsAcceptance.AnyThreadMissing;
    WindowsWritable(z, steps, code, m);
    CutOnDisk(capacity, st, W.Finished(W.Exec(z, steps).value, code, m), ds);
    var n := |T.Durable(st)|;
    CrashVerdict.WindowsVerdict(z, steps, code, m, n);
    if Accepted(CrashVerdict.CutBundle(W.Finished(W.Exec(z, steps).value, code, m), n)) {
      CrashVerdict.WindowsCutStatus(z, steps, code, m, n);
    }
  }
}
