/** When the operating system's answers make the validator accept a Windows run. */
module WindowsBehaviour {
  import opened Prelude
  import opened Records
  import opened SummarySpec
  import opened Discovery
  import opened WindowsRun
  import opened WindowsIdentity
  import opened WindowsLedger
  import opened WindowsAcceptance
  import opened WindowsTurns

  // ---- The samples of a run are its turns' -----------------------------------------------------

  /** Rows that a turn can produce: the root's, and at most `limit - 1` others with the turn's counters. */
  predicate PossibleRows(limit: nat, turn: Turn, rows: seq<Counted>) {
    && turn.reading.Some? && rows != [] && |rows| <= limit && rows[0] == Counted(1, turn.reading.value.root)
    && DistinctRows(rows)
    && forall j | 0 < j < |rows| :: Some(rows[j].counters) == turn.children(rows[j].id)
  }

  predicate SampleOfTurn(limit: nat, turn: Turn, t: Taken) {
    TakenAs(turn, t) && PossibleRows(limit, turn, t.rows)
  }

  predicate SamplesOfTurns(limit: nat, turns: seq<Turn>, n: nat, taken: seq<Taken>) {
    |taken| == n <= |turns| && forall o | 0 <= o < n :: SampleOfTurn(limit, turns[o], taken[o])
  }

  lemma {:induction false} NoTake(z: Setup, steps: seq<Step>, a: nat, b: nat)
    requires Exec(z, steps).Some? && a <= b <= |steps| && forall k | a <= k < b :: !steps[k].Take?
    ensures At(z, steps, b).taken == At(z, steps, a).taken
    decreases b
  {
    hide Exec, At;
    if a < b {
      NoTake(z, steps, a, b - 1);
      StepAt(z, steps, b - 1);
      TakenAfter(z, At(z, steps, b - 1), steps[b - 1]);
    }
  }

  lemma {:induction false} DistinctWithin(ids: seq<u64>, s: set<u64>)
    requires forall j | 0 <= j < |ids| :: ids[j] in s
    requires forall j, k | 0 <= j < k < |ids| :: ids[j] != ids[k]
    ensures |ids| <= |s|
  {
    if ids != [] {
      var n := |ids| - 1;
      DistinctWithin(ids[..n], s - {ids[n]});
    }
  }

  lemma {:induction false} ValuesBounded(m: map<u32, u64>)
    ensures |m.Values| <= |m|
    decreases |m|
  {
    if m == map[] {
      assert m.Values == {};
    } else {
      var p :| p in m;
      var n := m - {p};
      assert n.Keys == m.Keys - {p} && |n| == |n.Keys| && |m| == |m.Keys|;
      ValuesBounded(n);
      forall v | v in m.Values
        ensures v in n.Values + {m[p]}
      {
        var q :| q in m && m[q] == v;
        assert q != p ==> q in n && n[q] == v;
      }
      NotMore(m.Values, n.Values, m[p]);
    }
  }

  lemma NotMore(a: set<u64>, b: set<u64>, v: u64)
    requires a <= b + {v}
    ensures |a| <= |b| + 1
  {
    var c := b + {v};
    assert c == a + (c - a);
    assert |c| <= |b| + 1;
  }

  lemma RowsWithinLimit(z: Setup, st: State, rows: seq<Counted>)
    requires IdentityInv(z, st) && z.limit >= 1 && RowsLegal(st, rows)
    ensures |rows| <= z.limit && DistinctRows(rows)
  {
    hide Identities, KnownOk;
    var ids := seq(|rows| - 1, j requires 0 <= j < |rows| - 1 => rows[j + 1].id);
    DistinctWithin(ids, st.retained.Values);
    ValuesBounded(st.retained);
    forall j | 0 < j < |rows|
      ensures rows[j].id != 1
    {
      var p :| p in st.retained && st.retained[p] == rows[j].id;
    }
  }

  lemma TakeOfTurn(z: Setup, turn: Turn, steps: seq<Step>, a: nat, b: nat, c: nat)
    requires Exec(z, steps).Some? && z.limit >= 1 && TurnSegment(z, turn, steps, a, b, c) && c + 1 == |steps|
    ensures SampleOfTurn(z.limit, turn, steps[c].sample)
    ensures Exec(z, steps).value.taken == At(z, steps, a).taken + [steps[c].sample]
  {
    hide Exec, At, DiscoverySegment, FinishSegment, IdentityInv;
    var st := At(z, steps, c);
    StepAt(z, steps, c);
    AtEnd(z, steps);
    RunKeepsIdentity(z, steps[..c]);
    RowsWithinLimit(z, st, steps[c].sample.rows);
    TakenAfter(z, st, steps[c]);
    QuietUntilTake(z, turn, steps, a, b, c);
    NoTake(z, steps, a, c);
  }

  lemma QuietUntilTake(z: Setup, turn: Turn, steps: seq<Step>, a: nat, b: nat, c: nat)
    requires TurnSegment(z, turn, steps, a, b, c)
    ensures a < b <= c && forall k | a <= k < c :: !steps[k].Take?
  {
    hide At, LeastClosed, RowsTaken;
    forall k | a <= k < c
      ensures !steps[k].Take?
    {
      if k > a && k < b {
        assert MetAs(steps[k], turn.snapshot.value, turn.openings);
      } else if k >= b {
        assert FinishedAs(z, turn.status, steps, k);
      }
    }
  }

  lemma LastTurn(z: Setup, turns: seq<Turn>, n: nat, steps: seq<Step>) returns (a: nat, b: nat, c: nat)
    requires n > 0 && Observed(z, turns, n, steps)
    ensures n <= |turns| && a <= |steps| && c + 1 == |steps|
    ensures TurnSegment(z, turns[n - 1], steps, a, b, c) && Observed(z, turns, n - 1, steps[..a])
  {
    var last := turns[n - 1];
    a, b, c :| TurnSegment(z, last, steps, a, b, c) && c + 1 == |steps| && Observed(z, turns, n - 1, steps[..a]);
  }

  /** Sample `o` of the observed part of a run holds what turn `o` gave. */
  lemma {:induction false} ObservedSamples(z: Setup, turns: seq<Turn>, n: nat, steps: seq<Step>)
    requires Exec(z, steps).Some? && z.limit >= 1 && Observed(z, turns, n, steps)
    ensures SamplesOfTurns(z.limit, turns, n, Exec(z, steps).value.taken)
    decreases n
  {
    hide Exec, TurnSegment, SampleOfTurn, Observed;
    if n == 0 {
      NothingObserved(z, turns, steps);
      NothingTaken(z);
    } else {
      var a, b, c := LastTurn(z, turns, n, steps);
      PrefixRuns(z, steps, a);
      ObservedSamples(z, turns, n - 1, steps[..a]);
      TakeOfTurn(z, turns[n - 1], steps, a, b, c);
    }
  }

  lemma NothingTaken(z: Setup)
    ensures Exec(z, []).Some? && Exec(z, []).value.taken == []
  {
  }

  /** Polling after the root's exit takes no sample. */
  lemma {:induction false} AwaitedSteps(z: Setup, finals: seq<u64 -> ChildStatus>, m: nat, steps: seq<Step>, start: nat)
    requires Awaited(z, finals, m, steps, start)
    ensures start <= |steps| && forall k | start <= k < |steps| :: steps[k].Finish?
    decreases m
  {
    hide At;
    if m > 0 {
      var last := finals[m - 1];
      var a: nat :| FinishSegment(z, last, steps, a, |steps|) && start <= a <= |steps| &&
                    Awaited(z, finals, m - 1, steps[..a], start);
      AwaitedSteps(z, finals, m - 1, steps[..a], start);
      forall k | start <= k < |steps|
        ensures steps[k].Finish?
      {
        if k < a {
          assert steps[..a][k] == steps[k];
        } else {
          assert FinishedAs(z, last, steps, k);
        }
      }
    }
  }

  /** The samples of a whole run are those of the turns up to the one that saw the root gone. */
  lemma RanSamples(z: Setup, turns: seq<Turn>, finals: seq<u64 -> ChildStatus>, n: nat, m: nat, steps: seq<Step>)
    requires Exec(z, steps).Some? && z.limit >= 1 && Ran(z, turns, finals, n, m, steps)
    ensures SamplesOfTurns(z.limit, turns, n, Exec(z, steps).value.taken)
  {
    hide Exec, Observed, Awaited, At;
    var start: nat :| start <= |steps| && Awaited(z, finals, m, steps, start) && Observed(z, turns, n, steps[..start]);
    AwaitedSteps(z, finals, m, steps, start);
    PrefixRuns(z, steps, start);
    ObservedSamples(z, turns, n, steps[..start]);
    NoTake(z, steps, start, |steps|);
    AtEnd(z, steps);
  }

  // ---- Identities on record --------------------------------------------------------------------

  predicate ValidId(ps: seq<ProcessRecord>, id: u64) {
    1 <= id <= |ps| && RecordValid(ps[id - 1])
  }

  predicate ValidRows(ps: seq<ProcessRecord>, rows: seq<Counted>) {
    forall j | 0 <= j < |rows| :: ValidId(ps, rows[j].id)
  }

  predicate RetainedValid(ps: seq<ProcessRecord>, retained: map<u32, u64>) {
    forall p | p in retained :: ValidId(ps, retained[p])
  }

  /** Every retained child and every sampled process has a complete identity on record. */
  predicate ValidInv(st: State) {
    var ps := ProcessesOf(st.sent);
    && ValidId(ps, 1) && RetainedValid(ps, st.retained)
    && forall o | 0 <= o < |st.taken| :: ValidRows(ps, st.taken[o].rows)
  }

  /** A process that is opened has a PID and a start time that can be read. */
  predicate ReadableStart(step: Step) {
    step.Meet? && step.opening.Opened? ==> step.pid != 0 && step.opening.startTime != 0
  }

  lemma ValidGrows(ps: seq<ProcessRecord>, p: ProcessRecord, retained: map<u32, u64>, taken: seq<Taken>)
    ensures ValidId(ps, 1) ==> ValidId(ps + [p], 1)
    ensures RetainedValid(ps, retained) ==> RetainedValid(ps + [p], retained)
    ensures (forall o | 0 <= o < |taken| :: ValidRows(ps, taken[o].rows)) ==>
              forall o | 0 <= o < |taken| :: ValidRows(ps + [p], taken[o].rows)
  {
    hide RecordValid;
    if forall o | 0 <= o < |taken| :: ValidRows(ps, taken[o].rows) {
      forall o | 0 <= o < |taken|
        ensures ValidRows(ps + [p], taken[o].rows)
      {
        assert ValidRows(ps, taken[o].rows);
      }
    }
  }

  lemma ChildValid(z: Setup, st: State, step: Step)
    requires z.boot != "" && step.Meet? && step.opening.Opened? && ReadableStart(step)
    ensures RecordValid(ChildRecord(z, st, step.pid, step.parent, step.opening))
  {
  }

  lemma MeetKeepsValid(z: Setup, st: State, step: Step)
    requires IdentityInv(z, st) && ValidInv(st) && z.boot != "" && step.Meet? && Legal(z, st, step)
    requires ReadableStart(step)
    ensures ValidInv(After(z, st, step))
  {
    hide StepMessages, StepEvents, RecordValid, Identities, KnownOk, RetainedOk, ValidRows, EventsOf, SamplesOf,
      ProcessesOf, ReadableStart;
    var ps, p := ProcessesOf(st.sent), ChildRecord(z, st, step.pid, step.parent, step.opening);
    StepStreams(z, st, step);
    ValidGrows(ps, p, st.retained, st.taken);
    if step.opening.Opened? {
      ChildValid(z, st, step);
    }
  }

  lemma TakeKeepsValid(z: Setup, st: State, t: Taken)
    requires ValidInv(st) && Legal(z, st, Take(t))
    ensures ValidRows(ProcessesOf(st.sent), t.rows)
  {
    hide RecordValid, ProcessesOf;
    forall j | 0 <= j < |t.rows|
      ensures ValidId(ProcessesOf(st.sent), t.rows[j].id)
    {
      if j > 0 {
        var p :| p in st.retained && st.retained[p] == t.rows[j].id;
      }
    }
  }

  lemma StepKeepsValid(z: Setup, st: State, step: Step)
    requires IdentityInv(z, st) && ValidInv(st) && z.boot != "" && Legal(z, st, step) && ReadableStart(step)
    ensures ValidInv(After(z, st, step))
  {
    hide StepMessages, StepEvents, ValidId, IdentityInv, ValidRows, EventsOf, SamplesOf, ProcessesOf, ReadableStart;
    if step.Meet? {
      MeetKeepsValid(z, st, step);
    } else {
      StepStreams(z, st, step);
      assert ProcessesOf(st.sent) + [] == ProcessesOf(st.sent);
      if step.Take? {
        TakeKeepsValid(z, st, step.sample);
      }
    }
  }

  lemma StartValid(z: Setup)
    requires RootOk(z)
    ensures ValidInv(Start(z))
  {
    StartStreams(z);
  }

  lemma {:induction false} RunKeepsValid(z: Setup, steps: seq<Step>)
    requires Exec(z, steps).Some? && RootOk(z) && forall k | 0 <= k < |steps| :: ReadableStart(steps[k])
    ensures ValidInv(Exec(z, steps).value)
  {
    hide Legal, After, ValidInv, ReadableStart, IdentityInv;
    if steps == [] {
      StartValid(z);
    } else {
      var n := |steps| - 1;
      RunKeepsValid(z, steps[..n]);
      RunKeepsIdentity(z, steps[..n]);
      StepKeepsValid(z, Exec(z, steps[..n]).value, steps[n]);
    }
  }

  // ---- Turns in order --------------------------------------------------------------------------

  function CpuOf(turn: Turn): int {
    if turn.reading.Some? && turn.reading.value.job.Some? then
      turn.reading.value.job.value.user + turn.reading.value.job.value.kernel
    else 0
  }

  predicate TurnStep(turns: seq<Turn>, k: int)
    requires 0 < k < |turns|
  {
    && turns[k - 1].monotonic <= turns[k].monotonic
    && (turns[k - 1].monotonic < turns[k].monotonic ==> CpuOf(turns[k - 1]) <= CpuOf(turns[k]))
  }

  /** The clock and the job's CPU of the first `n` turns, as the validator looks at them. */
  predicate TurnsClock(z: Setup, turns: seq<Turn>, n: nat)
    requires 0 < n <= |turns|
  {
    if z.launched then forall k | 0 < k < n :: TurnStep(turns, k)
    else turns[0].monotonic <= turns[n - 1].monotonic
  }

  /** Whatever rows the turn produces, their sums and the job's CPU fit a u64. */
  ghost predicate TurnFits(limit: nat, turn: Turn) {
    && CpuOf(turn) <= U64_MAX
    && forall rows | PossibleRows(limit, turn, rows) ::
         Total(rows, WorkingSetBytes, |rows|) <= U64_MAX && Total(rows, PrivateBytes, |rows|) <= U64_MAX
  }

  ghost predicate ThreadsKnown(turn: Turn) {
    forall id: u64 | turn.children(id).Some? :: turn.children(id).value.threads.Some?
  }

  predicate StartsReadable(turn: Turn) {
    turn.snapshot.Some? ==>
      forall pid | pid in Pids(turn.snapshot.value) && turn.openings(pid).Opened? ::
        pid != 0 && turn.openings(pid).startTime != 0
  }

  /**
   * Turns in order: a valid root identity, a clock and a job CPU that never go back, counters that fit,
   * and either no missing thread count among the children or a readable start time for each of them.
   */
  ghost predicate WellBehaved(z: Setup, turns: seq<Turn>) {
    && z.limit >= 1 && RootOk(z)
    && (forall k | 0 < k < |turns| :: TurnStep(turns, k))
    && (forall i | 0 <= i < |turns| :: TurnFits(z.limit, turns[i]))
    && (|| (forall i | 0 <= i < |turns| :: ThreadsKnown(turns[i]))
        || (forall i | 0 <= i < |turns| :: StartsReadable(turns[i])))
  }

  lemma {:induction false} ClockNeverBack(turns: seq<Turn>, n: nat)
    requires n < |turns| && forall k | 0 < k < |turns| :: TurnStep(turns, k)
    ensures turns[0].monotonic <= turns[n].monotonic
  {
    if n > 0 {
      ClockNeverBack(turns, n - 1);
      assert TurnStep(turns, n);
    }
  }

  /** The clock condition of the validator is the turns' own. */
  lemma ClockOfTurns(z: Setup, turns: seq<Turn>, n: nat, taken: seq<Taken>)
    requires 0 < n && SamplesOfTurns(z.limit, turns, n, taken)
    ensures ClockOk(z, taken) <==> TurnsClock(z, turns, n)
  {
    hide PossibleRows;
    assert SampleOfTurn(z.limit, turns[0], taken[0]) && SampleOfTurn(z.limit, turns[n - 1], taken[n - 1]);
    forall k | 0 < k < n
      ensures TimeStep(taken, k) <==> TurnStep(turns, k)
    {
      assert SampleOfTurn(z.limit, turns[k - 1], taken[k - 1]) && SampleOfTurn(z.limit, turns[k], taken[k]);
    }
  }

  lemma CountersOfTurn(limit: nat, turn: Turn, t: Taken)
    requires SampleOfTurn(limit, turn, t) && TurnFits(limit, turn)
    ensures CountersFit(t)
  {
    hide Total, PossibleRows;
  }

  lemma IdentifiedByThreads(z: Setup, st: State, turn: Turn, t: Taken)
    requires IdentityInv(z, st) && RootOk(z) && SampleOfTurn(z.limit, turn, t) && ThreadsKnown(turn)
    ensures IdentifiedAt(ProcessesOf(st.sent), t)
  {
    hide KnownOk, RetainedOk, DistinctRows;
    forall j | 0 < j < |t.rows|
      ensures t.rows[j].counters.threads.Some?
    {
      assert turn.children(t.rows[j].id).Some?;
    }
  }

  lemma IdentifiedByStarts(st: State, o: nat)
    requires ValidInv(st) && o < |st.taken|
    ensures IdentifiedAt(ProcessesOf(st.sent), st.taken[o])
  {
    hide RecordValid;
    assert ValidRows(ProcessesOf(st.sent), st.taken[o].rows);
    forall j | Missing(st.taken[o], j)
      ensures ValidId(ProcessesOf(st.sent), st.taken[o].rows[j].id)
    {
    }
  }

  /** Every registration of a run is one of its turns'. */
  lemma {:induction false} ObservedMeets(z: Setup, turns: seq<Turn>, n: nat, steps: seq<Step>, k: nat)
    requires Observed(z, turns, n, steps) && k < |steps| && steps[k].Meet?
    ensures exists i :: 0 <= i < n <= |turns| && turns[i].snapshot.Some? &&
                        MetAs(steps[k], turns[i].snapshot.value, turns[i].openings)
    decreases n
  {
    hide TurnSegment, MetAs, Observed;
    if n > 0 {
      var a, b, c := LastTurn(z, turns, n, steps);
      if k < a {
        ObservedMeets(z, turns, n - 1, steps[..a], k);
      } else {
        TurnMeets(z, turns[n - 1], steps, a, b, c, k);
      }
    } else {
      NothingObserved(z, turns, steps);
    }
  }

  lemma NothingObserved(z: Setup, turns: seq<Turn>, steps: seq<Step>)
    requires Observed(z, turns, 0, steps)
    ensures steps == []
  {
  }

  lemma TurnMeets(z: Setup, turn: Turn, steps: seq<Step>, a: nat, b: nat, c: nat, k: nat)
    requires TurnSegment(z, turn, steps, a, b, c) && c + 1 == |steps| && a <= k < |steps| && steps[k].Meet?
    ensures turn.snapshot.Some? && MetAs(steps[k], turn.snapshot.value, turn.openings)
  {
    hide At, LeastClosed, RowsTaken, MetAs;
    forall q | b <= q < c
      ensures steps[q].Finish?
    {
      assert FinishedAs(z, turn.status, steps, q);
    }
  }

  lemma RanMeets(z: Setup, turns: seq<Turn>, finals: seq<u64 -> ChildStatus>, n: nat, m: nat, steps: seq<Step>, k: nat)
    requires Ran(z, turns, finals, n, m, steps) && k < |steps| && steps[k].Meet?
    ensures exists i :: 0 <= i < |turns| && turns[i].snapshot.Some? &&
                        MetAs(steps[k], turns[i].snapshot.value, turns[i].openings)
  {
    hide Observed, Awaited, MetAs;
    var start: nat :| start <= |steps| && Awaited(z, finals, m, steps, start) && Observed(z, turns, n, steps[..start]);
    AwaitedSteps(z, finals, m, steps, start);
    assert k < start && steps[..start][k] == steps[k];
    ObservedMeets(z, turns, n, steps[..start], k);
  }

  lemma StartsOfTurns(z: Setup, turns: seq<Turn>, finals: seq<u64 -> ChildStatus>, n: nat, m: nat, steps: seq<Step>)
    requires Ran(z, turns, finals, n, m, steps) && forall i | 0 <= i < |turns| :: StartsReadable(turns[i])
    ensures forall k | 0 <= k < |steps| :: ReadableStart(steps[k])
  {
    hide Ran;
    forall k | 0 <= k < |steps|
      ensures ReadableStart(steps[k])
    {
      if steps[k].Meet? {
        RanMeets(z, turns, finals, n, m, steps, k);
        var i :| 0 <= i < |turns| && turns[i].snapshot.Some? &&
                 MetAs(steps[k], turns[i].snapshot.value, turns[i].openings);
        assert StartsReadable(turns[i]);
      }
    }
  }

  lemma IdentifiedOfTurns(z: Setup, turns: seq<Turn>, finals: seq<u64 -> ChildStatus>, n: nat, m: nat,
                          steps: seq<Step>, o: nat)
    requires Exec(z, steps).Some? && Ran(z, turns, finals, n, m, steps) && WellBehaved(z, turns)
    requires SamplesOfTurns(z.limit, turns, n, Exec(z, steps).value.taken) && o < n
    ensures IdentifiedAt(ProcessesOf(Exec(z, steps).value.sent), Exec(z, steps).value.taken[o])
  {
    hide Exec, Ran, TurnFits, TurnStep, SampleOfTurn, ThreadsKnown, StartsReadable, IdentityInv, ValidInv,
      ReadableStart, IdentifiedAt;
    var st := Exec(z, steps).value;
    if forall i | 0 <= i < |turns| :: ThreadsKnown(turns[i]) {
      RunKeepsIdentity(z, steps);
      IdentifiedByThreads(z, st, turns[o], st.taken[o]);
    } else {
      StartsOfTurns(z, turns, finals, n, m, steps);
      RunKeepsValid(z, steps);
      IdentifiedByStarts(st, o);
    }
  }

  /** Turns in order are an environment in which every run is accepted. */
  lemma WellBehavedIsEnough(z: Setup, turns: seq<Turn>, finals: seq<u64 -> ChildStatus>, n: nat, m: nat,
                            steps: seq<Step>)
    requires Exec(z, steps).Some? && Ran(z, turns, finals, n, m, steps) && WellBehaved(z, turns)
    ensures Exec(z, steps).value.taken != [] && Environment(z, Exec(z, steps).value)
  {
    hide Exec, TurnFits, TurnStep, SampleOfTurn, ThreadsKnown, StartsReadable, IdentifiedAt, CountersFit, ClockOk,
      Awaited, Observed;
    RanSamples(z, turns, finals, n, m, steps);
    var taken := Exec(z, steps).value.taken;
    ClockOfTurns(z, turns, n, taken);
    ClockNeverBack(turns, n - 1);
    forall o | 0 <= o < n
      ensures CountersFit(taken[o]) && IdentifiedAt(ProcessesOf(Exec(z, steps).value.sent), taken[o])
    {
      CountersOfTurn(z.limit, turns[o], taken[o]);
      IdentifiedOfTurns(z, turns, finals, n, m, steps, o);
    }
  }

  /** Only turns whose clock and job CPU are in order, under a valid root identity, are accepted. */
  lemma AcceptedClock(z: Setup, turns: seq<Turn>, finals: seq<u64 -> ChildStatus>, n: nat, m: nat, steps: seq<Step>)
    requires Exec(z, steps).Some? && Ran(z, turns, finals, n, m, steps) && z.limit >= 1
    requires Exec(z, steps).value.taken != [] && Environment(z, Exec(z, steps).value)
    ensures RootOk(z) && TurnsClock(z, turns, n)
  {
    hide Exec, TurnStep, SampleOfTurn, IdentifiedAt, CountersFit, ClockOk, Awaited, Observed;
    RanSamples(z, turns, finals, n, m, steps);
    ClockOfTurns(z, turns, n, Exec(z, steps).value.taken);
  }

  // ---- A simple sufficient condition for sums that fit -----------------------------------------

  lemma {:induction false} TotalWithin(rows: seq<Counted>, f: Field, n: nat, bound: nat)
    requires n <= |rows| && forall j | 0 <= j < n :: Counter(rows[j].counters, f) <= bound
    ensures Total(rows, f, n) <= n * bound
  {
    hide Counter;
    if n > 0 {
      TotalWithin(rows, f, n - 1, bound);
      OneMore(n, bound);
    }
  }

  lemma OneMore(n: nat, bound: nat)
    requires n > 0
    ensures (n - 1) * bound + bound == n * bound
  {
  }

  predicate Within(m: Measured, bound: nat) {
    m.workingSet <= bound && m.private <= bound
  }

  /** Counters that stay below a u64 divided by the handle limit fit in any combination. */
  lemma SmallCountersFit(limit: nat, turn: Turn, bound: nat)
    requires limit * bound <= U64_MAX && CpuOf(turn) <= U64_MAX
    requires turn.reading.Some? ==> Within(turn.reading.value.root, bound)
    requires forall id: u64 | turn.children(id).Some? :: Within(turn.children(id).value, bound)
    ensures TurnFits(limit, turn)
  {
    hide Total;
    forall rows: seq<Counted> | PossibleRows(limit, turn, rows)
      ensures Total(rows, WorkingSetBytes, |rows|) <= U64_MAX && Total(rows, PrivateBytes, |rows|) <= U64_MAX
    {
      forall j | 0 <= j < |rows|
        ensures Within(rows[j].counters, bound)
      {
        assert j > 0 ==> turn.children(rows[j].id).Some?;
      }
      TotalWithin(rows, WorkingSetBytes, |rows|, bound);
      TotalWithin(rows, PrivateBytes, |rows|, bound);
      FewerRows(|rows|, limit, bound);
    }
  }

  lemma FewerRows(n: nat, limit: nat, bound: nat)
    requires n <= limit
    ensures n * bound <= limit * bound
  {
  }
}
