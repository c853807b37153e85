/** The Windows collector's loops. Every answer of the operating system is an argument, and may be any. */
module WindowsObserver {
  import opened Prelude
  import opened Records
  import opened Journal
  import opened Discovery
  import opened WindowsRun
  import opened WindowsIdentity
  import opened WindowsLedger
  import opened WindowsTurns
  import opened WindowsRecords
  import Collectors

  datatype Ending = Done | Aborted | StillRunning

  /** One more sample is sent: the turn's, with a row for every retained child that could be measured. */
  predicate SampleSent(turn: Turn, previous: Option<u64>, before: seq<Sample>, now: seq<Sample>,
                       retained: map<u32, u64>)
  {
    && |now| == |before| + 1 && before <= now
    && SampleShows(turn, previous, now[|before|])
    && forall p | p in retained && turn.children(retained[p]).Some? :: HasRow(now[|before|], retained[p])
  }

  lemma SampleIsSent(turn: Turn, st: State, t: Taken, previous: Option<u64>, retained: map<u32, u64>)
    requires TakenAs(turn, t) && RowsTaken(turn, retained, t.rows) && t.gap == GapSince(previous, t.monotonic)
    requires |st.taken| < U64_MAX
    ensures var all := st.sent + EntryMessages(Entry(Declared(t, |st.taken|), SampleOf(t)));
            && SampleSent(turn, previous, SamplesOf(st.sent), SamplesOf(all), retained)
            && ThreadsDeclared(EventsOf(all), SamplesOf(all)[|SamplesOf(st.sent)|], |st.taken|)
  {
    hide EventsOf, SamplesOf, EntryMessages, Declared, SampleOf, SampleShows, TakenAs, HasRow;
    var o := |st.taken|;
    EntryStreams(st.sent, Entry(Declared(t, o), SampleOf(t)));
    TakenShows(turn, previous, t);
    forall p | p in retained && turn.children(retained[p]).Some?
      ensures HasRow(SampleOf(t), retained[p])
    {
      TakenHasRow(t, Counted(retained[p], turn.children(retained[p]).value));
    }
    DeclaredShow(t, o);
    var all := st.sent + EntryMessages(Entry(Declared(t, o), SampleOf(t)));
    assert forall e | e in Declared(t, o) :: e in EventsOf(all);
  }

  /** The PIDs that the snapshots of the first `n` turns list, counted with repetition. */
  function ListedIn(turns: seq<Turn>, n: nat): nat
    requires n <= |turns|
  {
    if n == 0 then 0
    else ListedIn(turns, n - 1) + (if turns[n - 1].snapshot.Some? then |turns[n - 1].snapshot.value| else 0)
  }

  lemma CutRunIsWriteAhead(z: Setup, steps: seq<Step>, sent: seq<Message>)
    requires Exec(z, steps).Some? && sent <= Exec(z, steps).value.sent
    ensures WriteAhead(sent)
  {
    hide Exec, WriteAhead;
    RunKeepsLedger(z, steps);
    var whole := Exec(z, steps).value.sent;
    WriteAheadPrefix(whole, |sent|);
    assert sent == whole[..|sent|];
  }

  /**
   * After the first `from` events there is one for the exit of `id` with the code and the counters that its
   * status gave, followed at once by its release.
   */
  predicate ExitReported(events: seq<Event>, from: nat, id: u64, status: ChildStatus) {
    && status.Gone? && status.terminal.Some?
    && exists i | from <= i < |events| - 1 ::
         && ExitShows(events[i], id, status.code, status.terminal.value)
         && events[i + 1] == HandleReleased(id)
  }

  predicate ExitShows(e: Event, id: u64, code: u32, m: Measured) {
    && e.ExitObserved? && e.process == Num(id) && e.exitCode == Num(code)
    && e.userTime == Num(m.user) && e.kernelTime == Num(m.kernel)
    && e.readBytes == Num(m.read) && e.writeBytes == Num(m.write)
    && e.fidelity == Text("attempted_after_exit")
  }

  lemma ExitIsShown(id: u64, code: u32, m: Measured)
    ensures ExitShows(ExitOf(id, code, m), id, code, m)
  {
  }

  lemma ExitStaysReported(events: seq<Event>, more: seq<Event>, start: nat, from: nat, id: u64, status: ChildStatus)
    requires ExitReported(events, from, id, status) && events <= more && start <= from
    ensures ExitReported(more, start, id, status)
  {
    hide ExitShows;
    var i :| from <= i < |events| - 1 && ExitShows(events[i], id, status.code, status.terminal.value) &&
      events[i + 1] == HandleReleased(id);
    assert more[i] == events[i] && more[i + 1] == events[i + 1];
  }

  /** Every child that is gone, but for those still to be finalized, has its exit and release reported. */
  predicate ExitsReported(events: seq<Event>, from: nat, retained: map<u32, u64>, status: u64 -> ChildStatus,
                          pending: set<u32>)
  {
    forall p | p in retained && status(retained[p]).Gone? && p !in pending ::
      ExitReported(events, from, retained[p], status(retained[p]))
  }

  lemma OneMoreReported(events: seq<Event>, more: seq<Event>, from: nat, retained: map<u32, u64>,
                        status: u64 -> ChildStatus, pending: set<u32>, pid: u32)
    requires ExitsReported(events, from, retained, status, pending) && events <= more && from <= |events|
    requires pid in retained && ExitReported(more, |events|, retained[pid], status(retained[pid]))
    ensures ExitsReported(more, from, retained, status, pending - {pid})
  {
    hide ExitReported;
    ExitStaysReported(more, more, from, |events|, retained[pid], status(retained[pid]));
    forall p | p in retained && status(retained[p]).Gone? && p !in pending
      ensures ExitReported(more, from, retained[p], status(retained[p]))
    {
      ExitStaysReported(events, more, from, from, retained[p], status(retained[p]));
    }
  }

  lemma NoneReportedYet(events: seq<Event>, retained: map<u32, u64>, status: u64 -> ChildStatus, pending: set<u32>)
    requires forall p | p in retained && status(retained[p]).Gone? :: p in pending
    ensures ExitsReported(events, |events|, retained, status, pending)
  {
  }

  class Observer {
    const setup: Setup
    const writer: Collectors.EvidenceWriter
    var known: map<u32, u64>
    var retained: map<u32, u64>
    var next: u64
    var degraded: bool
    var index: u64
    var previous: Option<u64>
    ghost var steps: seq<Step>

    /** The fields and the messages sent are those of the run `steps`. */
    ghost predicate Valid()
      reads this, writer
    {
      && Exec(setup, steps).Some?
      && var st := Exec(setup, steps).value;
         && known == st.known && retained == st.retained && next == st.next && degraded == st.degraded
         && index == |st.taken| && previous == PreviousOf(st.taken) && writer.sent == st.sent
    }

    ghost function Run(): State
      reads this, writer
      requires Valid()
    {
      Exec(setup, steps).value
    }

    /** After a failure: the messages sent are the beginning of a run. */
    ghost predicate Cut()
      reads this, writer
    {
      Exec(setup, steps).Some? && writer.sent <= Exec(setup, steps).value.sent
    }

    constructor (setup: Setup, writer: Collectors.EvidenceWriter)
      requires writer.sent == Prologue(setup)
      ensures Valid() && this.setup == setup && this.writer == writer
      ensures steps == [] && next == 2 && index == 0
    {
      this.setup := setup;
      this.writer := writer;
      known := map[setup.rootPid := 1];
      retained := map[];
      next := 2;
      degraded := false;
      index := 0;
      previous := None;
      steps := [];
    }

    /** Drops known PIDs that the snapshot no longer lists. */
    method Forget(live: set<u32>)
      requires Valid() && setup.rootPid in live
      modifies this
      ensures Valid() && steps == old(steps) + [Step.Forget(live)]
      ensures known == map p | p in old(known) && p in live :: old(known)[p]
      ensures retained == old(retained) && next == old(next) && index == old(index)
    {
      hide Exec;
      ExecSnoc(setup, steps, Step.Forget(live));
      known := map p | p in known && p in live :: known[p];
      steps := steps + [Step.Forget(live)];
      assert writer.sent + [] == writer.sent;
    }

    /** Registers one discovered process: its record, and an announcement or a degradation. */
    method Meet(pid: u32, parent: u32, opening: Opening) returns (ok: bool)
      requires Valid() && pid !in known && next < U64_MAX
      modifies this, writer
      ensures steps == old(steps) + [Step.Meet(pid, parent, opening)]
      ensures if ok then Valid() else Cut()
      ensures !ok ==> writer.Full()
      ensures ok ==> known == old(known)[pid := old(next)] && next == old(next) + 1
      ensures ok && opening.Opened? && |old(retained)| + 1 < setup.limit ==> retained == old(retained)[pid := old(next)]
      ensures ok && !(opening.Opened? && |old(retained)| + 1 < setup.limit) ==> retained == old(retained)
      ensures index == old(index)
    {
      hide Exec, WriteAhead, After, Legal, ProcessesOf, SamplesOf, EventsOf, AsMessages;
      ghost var st := Run();
      ghost var step := Step.Meet(pid, parent, opening);
      ghost var events := MeetEvents(setup, st, opening);
      MeetEffect(setup, st, pid, parent, opening);
      ExecSnoc(setup, steps, step);
      steps := steps + [step];
      var id := next;
      next := next + 1;
      var start := if opening.Denied? then 0 else opening.startTime;
      var record := ProcessRecord(Num(id), Num(pid), Num(start), Text(setup.boot),
                                  if parent in known then Num(known[parent]) else Absent);
      MeetMessages(st.sent, record, events, Exec(setup, steps).value.sent);
      ok := writer.Send(ProcessMessage(record));
      if !ok {
        return;
      }
      known := known[pid := id];
      if opening.Denied? {
        ok := writer.Send(EventMessage(CollectorDegradation(false)));
        return;
      }
      if |retained| + 1 < setup.limit {
        retained := retained[pid := id];
        ok := writer.Send(EventMessage(ProcessObserved(id)));
      } else if !degraded {
        degraded := true;
        ok := writer.Send(EventMessage(CollectorDegradation(true)));
      }
    }

    /** Exit and release evidence for every retained child that has exited, in any order. */
    method FinalizeExitedChildren(status: u64 -> ChildStatus) returns (ok: bool)
      requires Valid()
      modifies this, writer
      ensures if ok then Valid() else Cut()
      ensures old(steps) <= steps
      ensures ok ==> FinishSegment(setup, status, steps, |old(steps)|, |steps|)
      ensures ok ==> retained == StillActive(old(retained), status) && known == old(known) && next == old(next)
      ensures ok ==> ExitsReported(EventsOf(writer.sent), |old(EventsOf(writer.sent))|, old(retained), status, {})
      ensures !ok ==> writer.Full() || FaultyStatus(status, old(retained))
      ensures index == old(index)
    {
      hide Exec, At, Valid, Cut, FinishedAs, ExitReported, ExitsReported, EventsOf;
      var exited := set p | p in retained && status(retained[p]).Gone?;
      ghost var before, start, from := retained, steps, |EventsOf(writer.sent)|;
      NoneReportedYet(EventsOf(writer.sent), before, status, exited);
      ValidAt();
      assert retained == map p | p in before && p in exited + (before.Keys - exited) :: before[p];
      while exited != {}
        invariant Valid() && start <= steps
        invariant forall k | |start| <= k < |steps| :: FinishedAs(setup, status, steps, k)
        invariant exited <= retained.Keys
        invariant forall p | p in exited :: status(before[p]).Gone?
        invariant retained == map p | p in before && (p in exited || !status(before[p]).Gone?) :: before[p]
        invariant known == old(known) && next == old(next) && index == old(index)
        invariant from <= |EventsOf(writer.sent)|
        invariant ExitsReported(EventsOf(writer.sent), from, before, status, exited)
        decreases exited
      {
        var pid :| pid in exited;
        ghost var earlier, events := steps, EventsOf(writer.sent);
        ok := FinishChild(pid, status);
        if !ok {
          return;
        }
        OneMoreReported(events, EventsOf(writer.sent), from, before, status, exited, pid);
        FinishedStable(setup, status, earlier, steps, |start|, |earlier|);
        exited := exited - {pid};
      }
      ValidAt();
      AtPrefix(setup, start, steps, |start|);
      return true;
    }

    lemma ValidAt()
      requires Valid()
      ensures At(setup, steps, |steps|) == Run() && Run().retained == retained && Run().known == known
      ensures Run().next == next
      ensures index == |Run().taken|
    {
      hide Exec;
      AtEnd(setup, steps);
    }

    method FinishChild(pid: u32, status: u64 -> ChildStatus) returns (ok: bool)
      requires Valid() && pid in retained && status(retained[pid]).Gone?
      modifies this, writer
      ensures if ok then Valid() else Cut()
      ensures old(steps) <= steps
      ensures ok ==> |steps| == |old(steps)| + 1 && FinishedAs(setup, status, steps, |old(steps)|)
      ensures ok ==> retained == old(retained) - {pid} && known == old(known) && next == old(next)
      ensures ok ==> old(EventsOf(writer.sent)) <= EventsOf(writer.sent)
      ensures ok ==> ExitReported(EventsOf(writer.sent), |old(EventsOf(writer.sent))|, old(retained)[pid],
                                  status(old(retained)[pid]))
      ensures !ok ==> writer.Full() || FaultyStatus(status, old(retained))
      ensures index == old(index)
    {
      hide Exec, EventsOf, ExitOf;
      ghost var st := Run();
      ghost var events := EventsOf(writer.sent);
      var id := retained[pid];
      var child := status(id);
      retained := retained - {pid};
      if child.terminal.None? {
        return false;
      }
      ghost var step := Step.Finish(pid, child.code, child.terminal.value);
      ExecSnoc(setup, steps, step);
      AtEnd(setup, steps);
      AtPrefix(setup, steps, steps + [step], |steps|);
      steps := steps + [step];
      FinishMessages(st.sent, id, child.code, child.terminal.value);
      ok := writer.Send(EventMessage(ExitOf(id, child.code, child.terminal.value)));
      if !ok {
        return;
      }
      if !child.closes {
        return false;
      }
      ok := writer.Send(EventMessage(HandleReleased(id)));
      if ok {
        ExitSent(st.sent, id, child.code, child.terminal.value);
        assert ExitShows(EventsOf(writer.sent)[|events|], id, child.code, child.terminal.value);
      }
    }

    /**
     * One discovery: forgets vanished PIDs, computes the descendants, and registers the new ones in
     * any order. Afterwards exactly the surviving known PIDs and the descendants are known.
     */
    method DiscoverChildren(turn: Turn) returns (ok: bool)
      requires Valid() && (turn.snapshot.Some? ==> next + |turn.snapshot.value| <= U64_MAX)
      modifies this, writer
      ensures if ok then Valid() else Cut()
      ensures old(steps) <= steps && index == old(index)
      ensures ok ==> turn.snapshot.Some? && next <= old(next) + |turn.snapshot.value|
      ensures ok ==> DiscoverySegment(setup, turn, steps, |old(steps)|, |steps|)
      ensures ok ==> forall k | |old(steps)| < k < |steps| ::
                DiscoveredAs(setup, turn.snapshot.value, ProcessesOf(writer.sent), At(setup, steps, k), steps[k])
      ensures !ok ==> writer.Full() || turn.snapshot.None?
    {
      hide Exec, LeastClosed, At, Valid, Cut, MetAs, DiscoveredAs, ProcessesOf;
      ghost var start := steps;
      ValidAt();
      if turn.snapshot.None? {
        ValidIsCut();
        return false;
      }
      var listed := turn.snapshot.value;
      var live := (set x | x in listed :: x.pid) + {setup.rootPid};
      LiveAre(listed);
      Forget(live);
      assert known.Keys == old(known).Keys * live;
      RootStaysKnown();
      var descendants := DiscoverDescendants(listed, setup.rootPid, known.Keys);
      PidsBounded(listed);
      NotLarger(descendants - {setup.rootPid}, Pids(listed));
      ok := RegisterFound(descendants, listed, turn.openings);
      if ok {
        ValidAt();
        AtPrefix(setup, start, steps, |start|);
        assert At(setup, steps, |start|).known.Keys * Live(setup, listed) == old(known).Keys * live;
        assert LeastClosed(descendants, listed, setup.rootPid,
                           At(setup, steps, |start|).known.Keys * Live(setup, listed));
        ChildrenAreRecorded(turn, |start|);
      }
    }

    lemma ChildrenAreRecorded(turn: Turn, a: nat)
      requires Valid() && turn.snapshot.Some?
      requires forall k | a < k < |steps| :: MetAs(steps[k], turn.snapshot.value, turn.openings)
      ensures forall k | a < k < |steps| ::
                DiscoveredAs(setup, turn.snapshot.value, ProcessesOf(writer.sent), At(setup, steps, k), steps[k])
    {
      hide Exec, At, ChildRecorded;
      forall k | a < k < |steps|
        ensures DiscoveredAs(setup, turn.snapshot.value, ProcessesOf(writer.sent), At(setup, steps, k), steps[k])
      {
        assert MetAs(steps[k], turn.snapshot.value, turn.openings);
        MeetIsRecorded(setup, steps, k);
      }
    }

    lemma ValidIsCut()
      requires Valid()
      ensures Cut()
    {
    }

    lemma RootStaysKnown()
      requires Valid()
      ensures setup.rootPid in known
    {
      hide Exec;
      RootKnown(setup, steps);
    }

    /** Registers a descendant unless it is the root or known already. */
    method RegisterIfNew(pid: u32, listed: seq<Listed>, openings: u32 -> Opening) returns (ok: bool)
      requires Valid() && setup.rootPid in known && (pid == setup.rootPid || next < U64_MAX)
      requires pid == setup.rootPid || pid in Pids(listed)
      modifies this, writer
      ensures if ok then Valid() else Cut()
      ensures ok ==> known.Keys == old(known).Keys + {pid}
      ensures ok ==> next <= old(next) + (if pid == setup.rootPid then 0 else 1)
      ensures steps == old(steps) || (exists step :: steps == old(steps) + [step] && MetAs(step, listed, openings))
      ensures !ok ==> writer.Full()
      ensures index == old(index)
    {
      hide Exec, Valid, Cut, ParentOf;
      if pid == setup.rootPid || pid in known {
        assert known.Keys == known.Keys + {pid};
        return true;
      }
      ok := Meet(pid, ParentOf(listed, pid), openings(pid));
      assert MetAs(steps[|old(steps)|], listed, openings);
      if ok {
        assert known.Keys == old(known).Keys + {pid};
      }
    }

    /** Registers the descendants that are not known yet, in any order. */
    method RegisterFound(descendants: set<u32>, listed: seq<Listed>, openings: u32 -> Opening) returns (ok: bool)
      requires Valid() && setup.rootPid in known && next + |descendants - {setup.rootPid}| <= U64_MAX
      requires descendants <= {setup.rootPid} + Pids(listed)
      modifies this, writer
      ensures if ok then Valid() else Cut()
      ensures old(steps) <= steps && index == old(index)
      ensures ok ==> next <= old(next) + |descendants - {setup.rootPid}|
      ensures ok ==> known.Keys == old(known).Keys + descendants
      ensures ok ==> forall k | |old(steps)| <= k < |steps| :: MetAs(steps[k], listed, openings)
      ensures !ok ==> writer.Full()
    {
      hide Exec, Valid, Cut, Registered, MetAs;
      var todo := descendants;
      NoneRegistered(known.Keys, descendants);
      while todo != {}
        invariant Valid() && old(steps) <= steps && index == old(index) && setup.rootPid in known.Keys
        invariant todo <= descendants
        invariant Registered(old(known).Keys, descendants, todo, known.Keys)
        invariant next + |todo - {setup.rootPid}| <= old(next) + |descendants - {setup.rootPid}|
        invariant forall k | |old(steps)| <= k < |steps| :: MetAs(steps[k], listed, openings)
        decreases todo
      {
        var pid :| pid in todo;
        OneFewer(todo, pid, setup.rootPid);
        RegisterOne(old(known).Keys, descendants, todo, known.Keys, pid);
        ok := RegisterIfNew(pid, listed, openings);
        if !ok {
          return;
        }
        todo := todo - {pid};
      }
      ok := true;
      AllRegistered(old(known).Keys, descendants, known.Keys);
    }

    /**
     * One sample: the root's row, then a row for every retained child whose counters can be read, in
     * any order; a declaration for each missing thread count; then the sample itself.
     */
    method TakeSample(turn: Turn) returns (ok: bool)
      requires Valid() && index < U64_MAX
      requires turn.reading.Some? ==> (turn.reading.value.job.Some? <==> setup.launched)
      modifies this, writer
      ensures if ok then Valid() else Cut()
      ensures old(steps) <= steps && index == if ok then old(index) + 1 else old(index)
      ensures retained == old(retained) && known == old(known) && next == old(next)
      ensures ok ==> |steps| == |old(steps)| + 1 && steps[|old(steps)|].Take?
      ensures ok ==> TakenAs(turn, steps[|old(steps)|].sample)
      ensures ok ==> RowsTaken(turn, retained, steps[|old(steps)|].sample.rows)
      ensures ok ==> SampleSent(turn, old(previous), old(SamplesOf(writer.sent)), SamplesOf(writer.sent), retained)
      ensures ok ==> previous == Some(turn.monotonic)
      ensures ok ==> ThreadsDeclared(EventsOf(writer.sent), SamplesOf(writer.sent)[|old(SamplesOf(writer.sent))|],
                                     old(index))
      ensures !ok ==> writer.Full() || turn.reading.None? || turn.rootGone.None?
    {
      hide Exec, After, Legal, SampleOf, Declared, SamplesOf, EventsOf, SampleSent, ThreadsDeclared;
      ghost var st, previousTime := Run(), previous;
      if turn.reading.None? {
        return false;
      }
      var reading := turn.reading.value;
      var rows := SampleRows(reading.root, turn.children);
      if turn.rootGone.None? {
        return false;
      }
      var t := Taken(rows, reading.probe, reading.system, reading.job, turn.monotonic,
                     GapSince(previous, turn.monotonic), !turn.rootGone.value, reading.wallTime);
      ghost var step := Step.Take(t);
      TakeEffect(setup, st, t, previous);
      ExecSnoc(setup, steps, step);
      steps := steps + [step];
      TakeMessages(st.sent, t, index);
      ok := Declare(t, st.sent);
      if !ok {
        return;
      }
      previous := Some(turn.monotonic);
      ok := writer.Send(SampleMessage(SampleOf(t)));
      if ok {
        SampleIsSent(turn, st, t, previousTime, retained);
        index := index + 1;
      }
    }

    /** The sampled rows, root first. */
    method SampleRows(root: Measured, children: u64 -> Option<Measured>) returns (rows: seq<Counted>)
      requires Valid()
      ensures RowsLegal(Run(), rows) && rows[0] == Counted(1, root)
      ensures forall p | p in retained && children(retained[p]).Some? ::
                Counted(retained[p], children(retained[p]).value) in rows
      ensures forall j | 0 < j < |rows| :: Some(rows[j].counters) == children(rows[j].id)
    {
      hide Exec, Valid, RetainedOk, ProcessesOf;
      ValidRetained();
      rows := [Counted(1, root)];
      var todo := retained.Keys;
      while todo != {}
        invariant todo <= retained.Keys && rows != [] && rows[0] == Counted(1, root)
        invariant forall j | 0 < j < |rows| :: rows[j].id in IdsOutside(retained, todo)
        invariant forall j, k | 0 < j < k < |rows| :: rows[j].id != rows[k].id
        invariant forall j | 0 < j < |rows| :: Some(rows[j].counters) == children(rows[j].id)
        invariant forall p | p in retained && p !in todo && children(retained[p]).Some? ::
                    Counted(retained[p], children(retained[p]).value) in rows
        decreases todo
      {
        var pid :| pid in todo;
        var counters := children(retained[pid]);
        FreshId(ProcessesOf(Run().sent), retained, todo, pid);
        if counters.Some? {
          rows := rows + [Counted(retained[pid], counters.value)];
        }
        todo := todo - {pid};
      }
      assert forall j | 0 < j < |rows| :: rows[j].id in IdsOutside(retained, {}) && rows[j].id in retained.Values;
    }

    lemma ValidRetained()
      requires Valid()
      ensures Run().retained == retained && RetainedOk(ProcessesOf(Run().sent), retained)
    {
      hide Exec;
      RunKeepsIdentity(setup, steps);
    }

    /** The declarations of one sample, row by row and then the probe's. */
    method Declare(t: Taken, ghost sent: seq<Message>) returns (ok: bool)
      requires writer.sent == sent
      modifies writer
      ensures ok ==> writer.sent == sent + AsMessages(Declared(t, index))
      ensures sent <= writer.sent <= sent + AsMessages(Declared(t, index))
      ensures !ok ==> writer.Full()
    {
      hide RowDeclaration, ProbeDeclaration;
      for j := 0 to |t.rows|
        invariant writer.sent == sent + AsMessages(RowDeclarations(t.rows, j, index))
      {
        DeclaredPrefix(t, j, index);
        if t.rows[j].counters.threads.None? {
          assert AsMessages(RowDeclarations(t.rows, j, index)) + [EventMessage(RowDeclaration(t.rows[j].id, index))] ==
                 AsMessages(RowDeclarations(t.rows, j + 1, index));
          ok := writer.Send(EventMessage(RowDeclaration(t.rows[j].id, index)));
          if !ok {
            return;
          }
        }
      }
      ok := true;
      if t.probe.threads.None? {
        assert AsMessages(RowDeclarations(t.rows, |t.rows|, index)) + [EventMessage(ProbeDeclaration(index))] ==
               AsMessages(Declared(t, index));
        ok := writer.Send(EventMessage(ProbeDeclaration(index)));
      }
    }

    lemma SentIsWriteAhead()
      requires Valid() || Cut()
      ensures WriteAhead(writer.sent)
    {
      hide Exec, WriteAhead;
      CutRunIsWriteAhead(setup, steps, writer.sent);
    }

    /** One turn: discovery, finalization, sample. */
    method ObserveOnce(turn: Turn) returns (ok: bool)
      requires Valid() && index < U64_MAX && (turn.snapshot.Some? ==> next + |turn.snapshot.value| <= U64_MAX)
      requires turn.reading.Some? ==> (turn.reading.value.job.Some? <==> setup.launched)
      modifies this, writer
      ensures if ok then Valid() else Cut()
      ensures old(steps) <= steps
      ensures ok ==> turn.snapshot.Some? && turn.rootGone.Some?
      ensures ok ==> index == old(index) + 1 && next <= old(next) + |turn.snapshot.value|
      ensures ok ==> exists b: nat, c: nat :: TurnSegment(setup, turn, steps, |old(steps)|, b, c) && c + 1 == |steps|
      ensures !ok ==> writer.Full() || FailingTurn(setup, turn, steps, |old(steps)|)
    {
      hide Exec, Valid, Cut, At, DiscoverySegment, FinishSegment, RowsTaken, FaultyStatus;
      ghost var start := steps;
      ok := DiscoverChildren(turn);
      if !ok {
        return;
      }
      ghost var met := steps;
      ValidAt();
      ok := FinalizeExitedChildren(turn.status);
      DiscoverySegmentStable(setup, turn, met, steps, |start|, |met|);
      AtPrefix(setup, met, steps, |met|);
      if !ok {
        return;
      }
      ghost var finished := steps;
      ValidAt();
      ok := TakeSample(turn);
      DiscoverySegmentStable(setup, turn, met, steps, |start|, |met|);
      FinishSegmentStable(setup, turn.status, finished, steps, |met|, |finished|);
      if ok {
        AtPrefix(setup, finished, steps, |finished|);
        assert TurnSegment(setup, turn, steps, |start|, |met|, |finished|);
      }
    }

    /**
     * The observation loop. It returns normally only when the root has exited and every retained child
     * has been released; the run is then that of the turns up to the root's exit and of some polls
     * after it. It fails only on a failing query or a writer that accepts no more, and whatever
     * happens, the messages sent obey the write-ahead discipline.
     */
    method ObserveUntilExit(turns: seq<Turn>, finals: seq<u64 -> ChildStatus>) returns (end: Ending,
                            ghost used: nat, ghost polled: nat)
      requires Valid() && steps == [] && next + ListedIn(turns, |turns|) <= U64_MAX && index + |turns| <= U64_MAX
      requires JobsMatch(setup, turns)
      modifies this, writer
      ensures if end.Aborted? then Cut() else Valid()
      ensures end.Done? ==> retained == map[] && index > 0 && Ran(setup, turns, finals, used, polled, steps)
      ensures end.Aborted? ==> writer.Full() || Failed(setup, turns, finals, used, polled, steps)
      ensures end.StillRunning? ==> Unfinished(setup, turns, finals, used, steps)
      ensures WriteAhead(writer.sent)
    {
      hide Exec, WriteAhead, Valid, Cut, TurnSegment, Observed, Awaited, FailingTurn, Unfinished, FailedPoll;
      end, used, polled := StillRunning, 0, 0;
      NothingYet(setup, turns);
      for i := 0 to |turns|
        invariant Valid() && index == old(index) + i && used == i
        invariant Observed(setup, turns, i, steps) && RootAlive(turns, i)
        invariant next + ListedIn(turns, |turns|) <= U64_MAX + ListedIn(turns, i)
        invariant end == StillRunning
      {
        ListedGrows(turns, i + 1, |turns|);
        ghost var before := steps;
        var ok := ObserveOnce(turns[i]);
        if !ok {
          SentIsWriteAhead();
          assert steps[..|before|] == before;
          return Aborted, used, polled;
        }
        used := i + 1;
        OneMoreTurn(setup, turns, i, before, steps);
        if turns[i].rootGone.value {
          end := Done;
          break;
        }
      }
      if end.Done? {
        end, polled := AwaitChildren(turns, finals, used);
      } else {
        NeverGone(setup, turns, finals, steps);
      }
      SentIsWriteAhead();
    }

    /** After the root's exit: polls the retained children until none is left. */
    method AwaitChildren(ghost turns: seq<Turn>, finals: seq<u64 -> ChildStatus>, ghost used: nat)
      returns (end: Ending, ghost polled: nat)
      requires Valid() && Observed(setup, turns, used, steps)
      requires 0 < used <= |turns| && RootAlive(turns, used - 1) && turns[used - 1].rootGone == Some(true)
      modifies this, writer
      ensures index == old(index)
      ensures if end.Aborted? then Cut() else Valid()
      ensures end.Done? ==> retained == map[] && Ran(setup, turns, finals, used, polled, steps)
      ensures end.Aborted? ==> writer.Full() || FailedPoll(setup, turns, finals, used, polled, steps)
      ensures end.StillRunning? ==> Unfinished(setup, turns, finals, used, steps)
    {
      hide Exec, Valid, Cut, FinishSegment, Observed, Awaited, RootAlive, FaultyStatus, Unfinished, At, FailedPoll;
      ghost var start := steps;
      polled := 0;
      NotPolled(setup, finals, steps);
      assert steps[..|start|] == start;
      for i := 0 to |finals|
        invariant Valid() && start <= steps && index == old(index) && polled == i
        invariant Awaited(setup, finals, i, steps, |start|)
      {
        if retained == map[] {
          assert steps[..|start|] == start;
          return Done, polled;
        }
        ghost var before := steps;
        ValidAt();
        assert before[..|start|] == start;
        assert Ran(setup, turns, finals, used, i, before);
        var ok := FinalizeExitedChildren(finals[i]);
        if !ok {
          AtPrefix(setup, before, steps, |before|);
          PollFails(setup, turns, finals, used, i, before, steps);
          return Aborted, polled;
        }
        polled := i + 1;
        OneMorePoll(setup, finals, i, before, steps, |start|);
      }
      assert steps[..|start|] == start;
      assert Ran(setup, turns, finals, used, |finals|, steps);
      end := if retained == map[] then Done else StillRunning;
      if end.StillRunning? {
        ValidRuns();
        SomeChildStays(setup, turns, finals, used, steps);
      }
    }

    lemma ValidRuns()
      requires Valid()
      ensures Exec(setup, steps).Some? && Exec(setup, steps).value.retained == retained
    {
    }
  }

  lemma NothingYet(z: Setup, turns: seq<Turn>)
    ensures Observed(z, turns, 0, [])
  {
  }

  lemma OneMoreTurn(z: Setup, turns: seq<Turn>, i: nat, before: seq<Step>, steps: seq<Step>)
    requires i < |turns| && before <= steps && Observed(z, turns, i, before)
    requires exists b: nat, c: nat :: TurnSegment(z, turns[i], steps, |before|, b, c) && c + 1 == |steps|
    ensures Observed(z, turns, i + 1, steps)
  {
    hide TurnSegment;
    assert steps[..|before|] == before;
    var b: nat, c: nat :| TurnSegment(z, turns[i], steps, |before|, b, c) && c + 1 == |steps|;
    var last := turns[i + 1 - 1];
    assert TurnSegment(z, last, steps, |before|, b, c) && c + 1 == |steps|;
  }

  lemma NotPolled(z: Setup, finals: seq<u64 -> ChildStatus>, steps: seq<Step>)
    ensures Awaited(z, finals, 0, steps, |steps|)
  {
  }

  lemma OneMorePoll(z: Setup, finals: seq<u64 -> ChildStatus>, i: nat, before: seq<Step>, steps: seq<Step>, start: nat)
    requires i < |finals| && start <= |before| && before <= steps && Awaited(z, finals, i, before, start)
    requires FinishSegment(z, finals[i], steps, |before|, |steps|)
    ensures Awaited(z, finals, i + 1, steps, start)
  {
    hide FinishSegment;
    assert steps[..|before|] == before;
    assert finals[i + 1 - 1] == finals[i];
  }

  lemma PollFails(z: Setup, turns: seq<Turn>, finals: seq<u64 -> ChildStatus>, n: nat, m: nat, before: seq<Step>,
                  steps: seq<Step>)
    requires m < |finals| && before <= steps && Ran(z, turns, finals, n, m, before)
    ensures FaultyStatus(finals[m], At(z, steps, |before|).retained) ==> FailedPoll(z, turns, finals, n, m, steps)
  {
    hide Ran, At, FaultyStatus;
    assert steps[..|before|] == before;
  }

  lemma NeverGone(z: Setup, turns: seq<Turn>, finals: seq<u64 -> ChildStatus>, steps: seq<Step>)
    requires RootAlive(turns, |turns|) && Observed(z, turns, |turns|, steps)
    ensures Unfinished(z, turns, finals, |turns|, steps)
  {
  }

  lemma SomeChildStays(z: Setup, turns: seq<Turn>, finals: seq<u64 -> ChildStatus>, n: nat, steps: seq<Step>)
    requires Ran(z, turns, finals, n, |finals|, steps) && Exec(z, steps).Some? && Exec(z, steps).value.retained != map[]
    ensures Unfinished(z, turns, finals, n, steps)
  {
    hide Exec, Ran;
  }

  function IdsOutside(retained: map<u32, u64>, todo: set<u32>): set<u64> {
    set p | p in retained && p !in todo :: retained[p]
  }

  lemma FreshId(ps: seq<ProcessRecord>, retained: map<u32, u64>, todo: set<u32>, pid: u32)
    requires RetainedOk(ps, retained) && pid in todo && pid in retained
    ensures retained[pid] !in IdsOutside(retained, todo)
    ensures IdsOutside(retained, todo - {pid}) == IdsOutside(retained, todo) + {retained[pid]}
  {
    forall p | p in retained && p !in todo
      ensures retained[p] != retained[pid]
    {
      if retained[p] == retained[pid] {
        RetainedDistinct(ps, retained, p, pid);
      }
    }
  }

  lemma LiveAre(listed: seq<Listed>)
    ensures (set x | x in listed :: x.pid) == Pids(listed)
  {
    forall x | x in listed
      ensures x.pid in Pids(listed)
    {
      var k :| 0 <= k < |listed| && listed[k] == x;
    }
  }

  lemma RootKnown(z: Setup, steps: seq<Step>)
    requires Exec(z, steps).Some?
    ensures z.rootPid in Exec(z, steps).value.known
  {
    hide Exec;
    RunKeepsIdentity(z, steps);
  }

  /** `now` is `before` and those of `descendants` that are no longer in `todo`. */
  ghost predicate Registered(before: set<u32>, descendants: set<u32>, todo: set<u32>, now: set<u32>) {
    now == before + (descendants - todo)
  }

  lemma NoneRegistered(before: set<u32>, descendants: set<u32>)
    ensures Registered(before, descendants, descendants, before)
  {
  }

  lemma AllRegistered(before: set<u32>, descendants: set<u32>, now: set<u32>)
    requires Registered(before, descendants, {}, now)
    ensures now == before + descendants
  {
  }

  lemma RegisterOne(before: set<u32>, descendants: set<u32>, todo: set<u32>, now: set<u32>, pid: u32)
    requires Registered(before, descendants, todo, now) && pid in todo && todo <= descendants
    ensures Registered(before, descendants, todo - {pid}, now + {pid})
  {
    assert descendants - (todo - {pid}) == (descendants - todo) + {pid};
  }

  lemma OneFewer(todo: set<u32>, pid: u32, root: u32)
    requires pid in todo
    ensures |(todo - {pid}) - {root}| == |todo - {root}| - (if pid == root then 0 else 1)
  {
    assert (todo - {pid}) - {root} == (todo - {root}) - {pid};
  }

  lemma TakeMessages(sent: seq<Message>, t: Taken, o: u64)
    ensures sent + EntryMessages(Entry(Declared(t, o), SampleOf(t))) ==
            sent + AsMessages(Declared(t, o)) + [SampleMessage(SampleOf(t))]
  {
    hide Declared, SampleOf;
  }

  lemma {:induction false} RowsPrefix(rows: seq<Counted>, i: nat, n: nat, o: u64)
    requires i <= n <= |rows|
    ensures RowDeclarations(rows, i, o) <= RowDeclarations(rows, n, o)
  {
    if i < n {
      RowsPrefix(rows, i, n - 1, o);
    }
  }

  lemma DeclaredPrefix(t: Taken, j: nat, o: u64)
    requires j < |t.rows|
    ensures AsMessages(RowDeclarations(t.rows, j, o)) <= AsMessages(Declared(t, o))
    ensures AsMessages(RowDeclarations(t.rows, j + 1, o)) <= AsMessages(Declared(t, o))
  {
    RowsPrefix(t.rows, j, |t.rows|, o);
    RowsPrefix(t.rows, j + 1, |t.rows|, o);
  }

  lemma {:induction false} ListedGrows(turns: seq<Turn>, i: nat, n: nat)
    requires i <= n <= |turns|
    ensures ListedIn(turns, i) <= ListedIn(turns, n)
  {
    if i < n {
      ListedGrows(turns, i, n - 1);
    }
  }

  lemma MeetEffect(z: Setup, st: State, pid: u32, parent: u32, opening: Opening)
    requires pid !in st.known && st.next < U64_MAX
    ensures Legal(z, st, Step.Meet(pid, parent, opening))
    ensures var st' := After(z, st, Step.Meet(pid, parent, opening));
            && st'.known == st.known[pid := st.next] && st'.next == st.next + 1 && st'.taken == st.taken
            && st'.retained ==
               (if opening.Opened? && CanRetain(z, st) then st.retained[pid := st.next] else st.retained)
            && st'.degraded == (st.degraded || (opening.Opened? && !CanRetain(z, st)))
            && st'.sent == st.sent + ([ProcessMessage(ChildRecord(z, st, pid, parent, opening))] +
                                      AsMessages(MeetEvents(z, st, opening)))
  {
    hide ChildRecord, MeetEvents, AsMessages;
  }

  lemma TakeEffect(z: Setup, st: State, t: Taken, previous: Option<u64>)
    requires |st.taken| < U64_MAX && RowsLegal(st, t.rows) && (t.job.Some? <==> z.launched)
    requires previous == PreviousOf(st.taken) && t.gap == GapSince(previous, t.monotonic)
    ensures var step := Step.Take(t);
            Legal(z, st, step) && After(z, st, step) ==
            st.(taken := st.taken + [t], sent := st.sent + EntryMessages(Entry(Declared(t, |st.taken|), SampleOf(t))))
  {
  }

  lemma MeetMessages(sent: seq<Message>, p: ProcessRecord, events: seq<Event>, whole: seq<Message>)
    requires |events| <= 1 && whole == sent + ([ProcessMessage(p)] + AsMessages(events))
    ensures sent <= whole && sent + [ProcessMessage(p)] <= whole
    ensures events == [] ==> whole == sent + [ProcessMessage(p)]
    ensures |events| == 1 ==> whole == sent + [ProcessMessage(p)] + [EventMessage(events[0])]
  {
  }

  lemma ExitSent(sent: seq<Message>, id: u64, code: u32, m: Measured)
    ensures var all := sent + AsMessages([ExitOf(id, code, m), HandleReleased(id)]);
            var n := |EventsOf(sent)|;
            && EventsOf(sent) <= EventsOf(all) && |EventsOf(all)| == n + 2
            && ExitShows(EventsOf(all)[n], id, code, m) && EventsOf(all)[n + 1] == HandleReleased(id)
            && ProcessesOf(all) == ProcessesOf(sent)
  {
    hide EventsOf, ExitShows;
    EventMessagesAfter(sent, [ExitOf(id, code, m), HandleReleased(id)]);
    ExitIsShown(id, code, m);
  }

  lemma FinishMessages(sent: seq<Message>, id: u64, code: u32, m: Measured)
    ensures sent + AsMessages([ExitOf(id, code, m), HandleReleased(id)]) ==
            sent + [EventMessage(ExitOf(id, code, m))] + [EventMessage(HandleReleased(id))]
  {
  }

  // ---- Whole collections -----------------------------------------------------------------------

  /** The messages before the loop: the prepared port, the root's record, the start of observation. */
  method SendPrologue(z: Setup, writer: Collectors.EvidenceWriter) returns (ok: bool)
    requires writer.sent == []
    modifies writer
    ensures ok ==> writer.sent == Prologue(z)
    ensures !ok ==> writer.Full()
    ensures WriteAhead(writer.sent)
  {
    hide WriteAhead, RootRecord;
    StartStreams(z);
    ghost var whole := Prologue(z);
    forall n | 0 <= n <= |whole|
      ensures WriteAhead(whole[..n])
    {
      WriteAheadPrefix(whole, n);
    }
    assert whole[..0] == [];
    if z.launched {
      ok := writer.Send(EventMessage(OtherEvent));
      assert whole[..1] == [EventMessage(OtherEvent)];
      if !ok {
        return;
      }
    }
    ghost var n := if z.launched then 1 else 0;
    assert writer.sent == whole[..n] && whole[..n + 1] == whole[..n] + [ProcessMessage(RootRecord(z))];
    ok := writer.Send(ProcessMessage(RootRecord(z)));
    if !ok {
      return;
    }
    assert whole == whole[..n + 1] + [EventMessage(OtherEvent)];
    ok := writer.Send(EventMessage(OtherEvent));
  }

  /** The root's exit and release; `terminal` and `closes` say how its last queries go. */
  method SendEpilogue(z: Setup, writer: Collectors.EvidenceWriter, code: Option<u32>, terminal: Option<Measured>,
                      closes: bool, ghost st: State)
    returns (ok: bool)
    requires writer.sent == st.sent && WriteAhead(st.sent)
    modifies writer
    ensures ok ==> code.Some? && terminal.Some? && writer.sent == Finished(st, code.value, terminal.value)
    ensures !ok ==> writer.Full() || code.None? || terminal.None? || !closes
    ensures WriteAhead(writer.sent)
  {
    hide WriteAhead, ExitOf;
    if code.None? || terminal.None? {
      return false;
    }
    FinishMessages(st.sent, 1, code.value, terminal.value);
    FinishIsQuiet(st.sent, 1, code.value, terminal.value);
    ghost var whole := Finished(st, code.value, terminal.value);
    WriteAheadPrefix(whole, |whole| - 1);
    assert whole[..|whole| - 1] == st.sent + [EventMessage(ExitOf(1, code.value, terminal.value))];
    ok := writer.Send(EventMessage(ExitOf(1, code.value, terminal.value)));
    if !ok || !closes {
      return false;
    }
    ok := writer.Send(EventMessage(HandleReleased(1)));
  }

  /**
   * A whole Windows run or attach. When it succeeds, the stream is the finished stream of the run that
   * the turns and the polls after the root's exit give, and every handle still kept has been released.
   * It fails only for a limit of zero, a failing query, a full writer, or answers that stop before the
   * run does; what was sent is write-ahead in any case.
   */
  method CollectWindows(z: Setup, writer: Collectors.EvidenceWriter, turns: seq<Turn>, finals: seq<u64 -> ChildStatus>,
                        code: Option<u32>, terminal: Option<Measured>, closes: bool)
    returns (ok: bool, ghost steps: seq<Step>, ghost used: nat, ghost polled: nat)
    requires writer.sent == []
    requires 2 + ListedIn(turns, |turns|) <= U64_MAX && |turns| <= U64_MAX && JobsMatch(z, turns)
    modifies writer
    ensures WriteAhead(writer.sent)
    ensures ok ==> code.Some? && terminal.Some? && Exec(z, steps).Some? && Ran(z, turns, finals, used, polled, steps)
    ensures ok ==> Exec(z, steps).value.retained == map[] && Exec(z, steps).value.taken != []
    ensures ok ==> writer.sent == Finished(Exec(z, steps).value, code.value, terminal.value)
    ensures !ok ==> writer.Full() || Failed(z, turns, finals, used, polled, steps) ||
                    Unfinished(z, turns, finals, used, steps) ||
                    code.None? || terminal.None? || !closes || z.limit == 0
    ensures ok ==> z.limit >= 1
    ensures ok ==> |ProcessesOf(writer.sent)| > 0 &&
                   ProcessesOf(writer.sent)[0] ==
                   ProcessRecord(Num(1), Num(z.rootPid), Num(z.startTime), Text(z.boot), Absent)
    ensures ok ==> var n := |EventsOf(writer.sent)|;
                   n >= 2 && ExitShows(EventsOf(writer.sent)[n - 2], 1, code.value, terminal.value) &&
                   EventsOf(writer.sent)[n - 1] == HandleReleased(1)
  {
    hide Exec, Prologue, ListedIn, JobsMatch, Ran, Failed, Unfinished;
    steps, used, polled := [], 0, 0;
    if z.limit == 0 {
      return false, steps, used, polled;
    }
    ok := SendPrologue(z, writer);
    if !ok {
      return;
    }
    var observer := new Observer(z, writer);
    var end;
    end, used, polled := observer.ObserveUntilExit(turns, finals);
    steps := observer.steps;
    if !end.Done? {
      return false, steps, used, polled;
    }
    ok := SendEpilogue(z, writer, code, terminal, closes, Exec(z, steps).value);
    if ok {
      RootIsRecorded(z, steps);
      ExitSent(Exec(z, steps).value.sent, 1, code.value, terminal.value);
    }
  }

  lemma RootIsRecorded(z: Setup, steps: seq<Step>)
    requires Exec(z, steps).Some?
    ensures var ps := ProcessesOf(Exec(z, steps).value.sent);
            |ps| > 0 && ps[0] == ProcessRecord(Num(1), Num(z.rootPid), Num(z.startTime), Text(z.boot), Absent)
  {
    hide Exec;
    RunKeepsIdentity(z, steps);
  }
}
