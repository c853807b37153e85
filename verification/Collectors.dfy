/** The writer as the collectors see it, and the Linux and macOS collection loops over oracle outcomes. */
module Collectors {
  import opened Prelude
  import opened Records
  import opened Journal
  import opened DirectRoot
  import opened DirectRootRecords
  import opened Ticks

  /**
   * A writer that accepts some number of messages and then becomes unavailable. `budget` is
   * arbitrary, so a failed send may strike at any message.
   */
  class EvidenceWriter {
    const budget: nat
    var sent: seq<Message>

    constructor (budget: nat)
      ensures sent == [] && this.budget == budget
    {
      this.budget := budget;
      sent := [];
    }

    /** No further message is accepted. */
    predicate Full()
      reads this
    {
      |sent| >= budget
    }

    method Send(m: Message) returns (ok: bool)
      modifies this
      ensures ok <==> |old(sent)| < budget
      ensures sent == if ok then old(sent) + [m] else old(sent)
    {
      ok := |sent| < budget;
      if ok {
        sent := sent + [m];
      }
    }

    /** Events one after the other, stopping at the first failed send. */
    method SendEvents(es: seq<Event>) returns (ok: bool)
      modifies this
      ensures ok ==> sent == old(sent) + AsMessages(es)
      ensures !ok ==> Full()
      ensures exists k :: 0 <= k <= |es| && sent == old(sent) + AsMessages(es[..k])
    {
      ghost var before := sent;
      assert AsMessages(es[..0]) == [];
      for k := 0 to |es|
        invariant sent == before + AsMessages(es[..k])
      {
        var sentOne := Send(EventMessage(es[k]));
        if !sentOne {
          return false;
        }
        assert AsMessages(es[..k + 1]) == AsMessages(es[..k]) + [EventMessage(es[k])];
      }
      assert es[..|es|] == es;
      return true;
    }
  }

  // ---- Linux -----------------------------------------------------------------------------------

  /** One read of `/proc/<pid>/stat`, in clock ticks. */
  datatype Stat = Stat(userTicks: u64, kernelTicks: u64, threads: u32) | StatDenied | StatFailed

  predicate Convertible(s: Stat, rate: int)
    requires rate <= U64_MAX
  {
    s.Stat? ==> TicksToNs(s.userTicks, rate).Some? && TicksToNs(s.kernelTicks, rate).Some?
  }

  function ReadingOf(s: Stat, rate: int): Reading
    requires rate <= U64_MAX && Convertible(s, rate)
  {
    match s
    case Stat(user, kernel, threads) => Read(TicksToNs(user, rate).value, TicksToNs(kernel, rate).value, threads)
    case StatDenied => PermissionDenied
    case StatFailed => ReadFailed
  }

  /** What the operating system answers in one turn of the loop. */
  datatype Poll =
    | PollFailed
    | Exited(code: Option<u32>)
    | Running(target: Stat, probeIdentified: bool, probe: Stat, sameInstance: bool,
              wait: Option<Option<u32>>, wallTime: string)

  datatype RunEnd = Ended(exit: Option<u32>) | Aborted | StillRunning

  /** A turn that observed something usable. */
  predicate Usable(p: Poll) {
    p.Running? && p.probeIdentified && p.sameInstance && (p.target.Stat? || p.probe.Stat?)
  }

  /** `r` records exactly what turn `p` read. */
  predicate Captures(p: Poll, rate: int, r: Round)
    requires rate <= U64_MAX
  {
    && p.Running? && Convertible(p.target, rate) && Convertible(p.probe, rate)
    && r == Round(ReadingOf(p.target, rate), ReadingOf(p.probe, rate), p.wallTime)
  }

  /** The exact nanoseconds of both tick counts, rounded down, and the thread count; or the way the read failed. */
  predicate StatShown(s: Stat, rate: int, r: Reading) {
    match s
    case Stat(user, kernel, threads) =>
      && rate > 0 && r.Read? && r.threads == threads
      && r.user == user * 1_000_000_000 / rate && r.kernel == kernel * 1_000_000_000 / rate
    case StatDenied => r == PermissionDenied
    case StatFailed => r == ReadFailed
  }

  predicate PollShown(p: Poll, rate: int, r: Round) {
    p.Running? && StatShown(p.target, rate, r.target) && StatShown(p.probe, rate, r.probe) && r.wallTime == p.wallTime
  }

  lemma ReadingIsExact(s: Stat, rate: int)
    requires rate <= U64_MAX && Convertible(s, rate)
    ensures StatShown(s, rate, ReadingOf(s, rate))
  {
    hide TicksToNs;
    if s.Stat? {
      RateIsPositive(s.userTicks, rate);
      ConversionIsExact(s.userTicks, rate);
      ConversionIsExact(s.kernelTicks, rate);
    }
  }

  lemma RateIsPositive(ticks: u64, rate: int)
    requires rate <= U64_MAX && TicksToNs(ticks, rate).Some?
    ensures rate > 0
  {
  }

  lemma CapturedIsShown(p: Poll, rate: int, r: Round)
    requires rate <= U64_MAX && Captures(p, rate, r)
    ensures PollShown(p, rate, r)
  {
    hide Convertible, ReadingOf, StatShown;
    ReadingIsExact(p.target, rate);
    ReadingIsExact(p.probe, rate);
  }

  /** What a stat read would declare, before its ticks are converted. */
  function Unconverted(s: Stat): Reading {
    match s
    case Stat(_, _, threads) => Read(0, 0, threads)
    case StatDenied => PermissionDenied
    case StatFailed => ReadFailed
  }

  lemma SameDeclarations(o: u64, p: Poll, rate: int)
    requires rate <= U64_MAX && p.Running? && Convertible(p.target, rate) && Convertible(p.probe, rate)
    ensures RoundEvents(o, Round(Unconverted(p.target), Unconverted(p.probe), p.wallTime)) ==
            RoundEvents(o, Round(ReadingOf(p.target, rate), ReadingOf(p.probe, rate), p.wallTime))
  {
  }

  lemma PersistedGrows(id: Identity, rounds: seq<Round>, r: Round)
    requires |rounds| < U64_MAX
    ensures Persisted(id, rounds + [r]) ==
            Persisted(id, rounds) + AsMessages(RoundEvents(|rounds|, r)) + [SampleMessage(RoundSample(r))]
  {
    hide RoundEvents, RoundSample;
    var all := Entries(rounds + [r]);
    assert all[..|rounds|] == Entries(rounds);
    assert all[|rounds|] == RoundEntry(|rounds|, r);
  }

  /** Stopping anywhere inside a round keeps the write-ahead discipline. */
  lemma PartialRound(id: Identity, rounds: seq<Round>, r: Round, k: nat)
    requires |rounds| < U64_MAX && k <= |RoundEvents(|rounds|, r)|
    ensures WriteAhead(Persisted(id, rounds) + AsMessages(RoundEvents(|rounds|, r)[..k]))
  {
    hide RoundEvents;
    RunIsWriteAhead(id, rounds);
    JournalledStreams(RootRecord(id), Entries(rounds));
    var es := RoundEvents(|rounds|, r)[..k];
    forall e | e in es
      ensures Timely(e, |rounds|)
    {
      RoundEventsAreFromRound(|rounds|, r, e);
    }
    AppendDeclarations(Persisted(id, rounds), es);
  }

  lemma RootPersisted(id: Identity)
    ensures Persisted(id, []) == [] + [ProcessMessage(RootRecord(id))]
    ensures WriteAhead([]) && WriteAhead(Persisted(id, []))
  {
    RootAlone(RootRecord(id));
  }

  /** One turn that goes through: declarations, conversion, sample. */
  method PersistRound(writer: EvidenceWriter, id: Identity, p: Poll, rate: int, ghost rounds: seq<Round>, ordinal: u64)
    returns (r: Option<Round>)
    requires rate <= U64_MAX && p.Running? && ordinal == |rounds| < U64_MAX
    requires writer.sent == Persisted(id, rounds)
    modifies writer
    ensures r.Some? ==> Captures(p, rate, r.value) && writer.sent == Persisted(id, rounds + [r.value])
    ensures r.Some? ==> PollShown(p, rate, r.value)
    ensures r.None? ==> writer.Full() || !Convertible(p.target, rate) || !Convertible(p.probe, rate)
    ensures WriteAhead(writer.sent)
  {
    hide RoundEvents, RoundSample, Persisted, WriteAhead;
    var planned := Round(Unconverted(p.target), Unconverted(p.probe), p.wallTime);
    var declared := writer.SendEvents(RoundEvents(ordinal, planned));
    ghost var k :| 0 <= k <= |RoundEvents(ordinal, planned)| &&
                   writer.sent == Persisted(id, rounds) + AsMessages(RoundEvents(ordinal, planned)[..k]);
    PartialRound(id, rounds, planned, k);
    if !declared {
      return None;
    }
    if !Convertible(p.target, rate) || !Convertible(p.probe, rate) {
      return None;
    }
    SameDeclarations(ordinal, p, rate);
    var round := Round(ReadingOf(p.target, rate), ReadingOf(p.probe, rate), p.wallTime);
    var sampled := writer.Send(SampleMessage(RoundSample(round)));
    if !sampled {
      return None;
    }
    PersistedGrows(id, rounds, round);
    RunIsWriteAhead(id, rounds + [round]);
    CapturedIsShown(p, rate, round);
    return Some(round);
  }

  lemma ExitFinishes(id: Identity, rounds: seq<Round>, exit: Option<u32>)
    requires |rounds| <= U64_MAX
    ensures Finished(id, rounds, Some(exit)) == Persisted(id, rounds) + [EventMessage(ExitEvent(exit))]
  {
  }

  /** The turn that ends a run normally: the exit was polled, or the root was lost after some sample. */
  predicate EndsRun(p: Poll, sampled: bool, exit: Option<u32>) {
    p == Exited(exit) || (p.Running? && p.probeIdentified && !Usable(p) && sampled && p.wait == Some(exit))
  }

  /** The turn that fails a run: a query failed, nothing was ever observed, or the ticks cannot be converted. */
  predicate FailsRun(p: Poll, sampled: bool, rate: int)
    requires rate <= U64_MAX
  {
    || p.PollFailed?
    || (p.Running? && !p.probeIdentified)
    || (p.Running? && !Usable(p) && (!sampled || p.wait.None?))
    || (p.Running? && Usable(p) && !(Convertible(p.target, rate) && Convertible(p.probe, rate)))
  }

  /**
   * The Linux run loop. Whatever the oracles answer, what was sent obeys the write-ahead discipline;
   * when the loop ends normally, it is exactly the finished stream of the observed rounds. It fails
   * only on a poll that fails it or on a writer that accepts no more.
   */
  method LinuxRun(writer: EvidenceWriter, id: Identity, rate: int, polls: seq<Poll>)
    returns (end: RunEnd, ghost rounds: seq<Round>)
    requires rate <= U64_MAX && writer.sent == [] && |polls| < U64_MAX
    modifies writer
    ensures |rounds| <= |polls|
    ensures forall o | 0 <= o < |rounds| :: Usable(polls[o]) && Captures(polls[o], rate, rounds[o])
    ensures forall o | 0 <= o < |rounds| :: PollShown(polls[o], rate, rounds[o])
    ensures WriteAhead(writer.sent)
    ensures end.Ended? ==> StreamShows(id, rounds, Some(end.exit), writer.sent)
    ensures end.Ended? ==> writer.sent == Finished(id, rounds, Some(end.exit))
    ensures end.Ended? ==> |rounds| < |polls| && EndsRun(polls[|rounds|], rounds != [], end.exit)
    ensures end.Aborted? ==> writer.Full() || (|rounds| < |polls| && FailsRun(polls[|rounds|], rounds != [], rate))
    ensures end.StillRunning? ==> |rounds| == |polls| && writer.sent == Persisted(id, rounds)
  {
    hide RoundEvents, RoundSample, Persisted, WriteAhead, Captures, PollShown, Finished, StreamShows;
    RootPersisted(id);
    rounds := [];
    var rooted := writer.Send(ProcessMessage(RootRecord(id)));
    if !rooted {
      return Aborted, [];
    }
    var ordinal: u64 := 0;
    var exit: Option<u32> := None;
    var ended := false;
    for i := 0 to |polls|
      invariant !ended && ordinal == i == |rounds|
      invariant forall o | 0 <= o < |rounds| :: Usable(polls[o]) && Captures(polls[o], rate, rounds[o])
      invariant forall o | 0 <= o < |rounds| :: PollShown(polls[o], rate, rounds[o])
      invariant writer.sent == Persisted(id, rounds) && WriteAhead(writer.sent)
    {
      var p := polls[i];
      if p.PollFailed? {
        return Aborted, rounds;
      }
      if p.Exited? {
        exit, ended := p.code, true;
        break;
      }
      if !p.probeIdentified {
        return Aborted, rounds;
      }
      if !p.sameInstance || (!p.target.Stat? && !p.probe.Stat?) {
        if ordinal == 0 || p.wait.None? {
          return Aborted, rounds;
        }
        exit, ended := p.wait.value, true;
        break;
      }
      var round := PersistRound(writer, id, p, rate, rounds, ordinal);
      if round.None? {
        return Aborted, rounds;
      }
      rounds := rounds + [round.value];
      ordinal := ordinal + 1;
    }
    if !ended {
      return StillRunning, rounds;
    }
    FinishedStreams(id, rounds, Some(exit));
    ExitFinishes(id, rounds, exit);
    FinishedShows(id, rounds, Some(exit));
    var exitSent := writer.Send(EventMessage(ExitEvent(exit)));
    if !exitSent {
      return Aborted, rounds;
    }
    return Ended(exit), rounds;
  }

  /** The Linux attach: one observation, revalidated before anything is declared. */
  method LinuxAttach(writer: EvidenceWriter, id: Identity, rate: int, p: Poll) returns (ok: bool,
                     ghost rounds: seq<Round>)
    requires rate <= U64_MAX && writer.sent == [] && p.Running?
    modifies writer
    ensures WriteAhead(writer.sent)
    ensures ok ==> p.probeIdentified && p.sameInstance && |rounds| == 1 && Captures(p, rate, rounds[0])
    ensures ok ==> writer.sent == Finished(id, rounds, None)
    ensures ok ==> PollShown(p, rate, rounds[0]) && StreamShows(id, rounds, None, writer.sent)
    ensures !ok ==> writer.Full() || !p.probeIdentified || !p.sameInstance ||
                    !Convertible(p.target, rate) || !Convertible(p.probe, rate)
  {
    hide RoundEvents, RoundSample, StreamShows, PollShown;
    var rooted := writer.Send(ProcessMessage(RootRecord(id)));
    if !rooted {
      return false, [];
    }
    RootAlone(RootRecord(id));
    if !p.probeIdentified || !p.sameInstance {
      return false, [];
    }
    var round := PersistRound(writer, id, p, rate, [], 0);
    if round.None? {
      return false, [];
    }
    rounds := [round.value];
    assert [] + rounds == rounds;
    FinishedShows(id, rounds, None);
    return true, rounds;
  }

  // ---- macOS -----------------------------------------------------------------------------------

  /** `root_live` and the identity comparison, before and after the metric reads. */
  datatype Liveness = Live | Lost | LivenessFailed

  datatype Observation = Observed | ObservationEnded | ObservationFailed

  /** `observe_complete_sample_with`: a complete sample, or an end-of-observation event and no sample. */
  method ObserveCompleteSample(writer: EvidenceWriter, id: Identity, before: Liveness, target: Reading,
                               probeIdentified: bool, probe: Reading, after: Liveness, wallTime: string)
    returns (r: Observation)
    requires writer.sent == Persisted(id, [])
    modifies writer
    ensures WriteAhead(writer.sent)
    ensures r.Observed? ==> before.Live? && after.Live? && probeIdentified
    ensures r.Observed? ==> writer.sent == Persisted(id, [Round(target, probe, wallTime)])
    ensures r.ObservationEnded? ==> writer.sent == Persisted(id, []) + [EventMessage(OtherEvent)]
    ensures r.ObservationEnded? ==> before.Lost? || after.Lost?
    ensures r.ObservationFailed? ==>
              writer.Full() || before.LivenessFailed? || !probeIdentified || after.LivenessFailed?
  {
    hide RoundEvents, RoundSample;
    RunIsWriteAhead(id, []);
    WriteAheadSnoc(Persisted(id, []), EventMessage(OtherEvent));
    if before.LivenessFailed? {
      return ObservationFailed;
    }
    if before.Lost? {
      var noted := writer.Send(EventMessage(OtherEvent));
      return if noted then ObservationEnded else ObservationFailed;
    }
    if !probeIdentified || after.LivenessFailed? {
      return ObservationFailed;
    }
    if after.Lost? {
      var noted := writer.Send(EventMessage(OtherEvent));
      return if noted then ObservationEnded else ObservationFailed;
    }
    var round := Round(target, probe, wallTime);
    var declared := writer.SendEvents(RoundEvents(0, round));
    ghost var k :| 0 <= k <= |RoundEvents(0, round)| &&
                   writer.sent == Persisted(id, []) + AsMessages(RoundEvents(0, round)[..k]);
    PartialRound(id, [], round, k);
    if !declared {
      return ObservationFailed;
    }
    var sampled := writer.Send(SampleMessage(RoundSample(round)));
    if !sampled {
      return ObservationFailed;
    }
    PersistedGrows(id, [], round);
    assert [] + [round] == [round];
    RunIsWriteAhead(id, [round]);
    return Observed;
  }

  /** macOS run (`wait` is the child's exit, None when waiting failed) and attach (`attach` writes no exit event). */
  method MacosCollect(writer: EvidenceWriter, id: Identity, before: Liveness, target: Reading,
                      probeIdentified: bool, probe: Reading, after: Liveness, wallTime: string,
                      attach: bool, wait: Option<Option<u32>>)
    returns (ok: bool)
    requires writer.sent == []
    modifies writer
    ensures WriteAhead(writer.sent)
    ensures ok ==> before.Live? && probeIdentified && after.Live? && (attach || wait.Some?)
    ensures !ok ==> writer.Full() || !before.Live? || !probeIdentified || !after.Live? || (!attach && wait.None?)
    ensures ok ==> writer.sent == Finished(id, [Round(target, probe, wallTime)], if attach then None else wait)
    ensures ok ==> StreamShows(id, [Round(target, probe, wallTime)], if attach then None else wait, writer.sent)
  {
    hide RoundEvents, RoundSample, StreamShows;
    var rooted := writer.Send(ProcessMessage(RootRecord(id)));
    if !rooted {
      return false;
    }
    RootAlone(RootRecord(id));
    assert writer.sent == Persisted(id, []);
    var observed := ObserveCompleteSample(writer, id, before, target, probeIdentified, probe, after, wallTime);
    if !observed.Observed? {
      return false;
    }
    ghost var rounds := [Round(target, probe, wallTime)];
    FinishedShows(id, rounds, if attach then None else wait);
    if attach {
      assert Finished(id, rounds, None) == Persisted(id, rounds);
      return true;
    }
    if wait.None? {
      return false;
    }
    FinishedStreams(id, rounds, wait);
    ok := writer.Send(EventMessage(ExitEvent(wait.value)));
  }
}
