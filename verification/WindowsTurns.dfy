/** What the operating system answers in the turns of the Windows loop, and which runs those answers allow. */
module WindowsTurns {
  import opened Prelude
  import opened Discovery
  import opened WindowsRun

  // ---- Answers ---------------------------------------------------------------------------------

  /** A child's exit query, and what its finalization would meet if it is gone. */
  datatype ChildStatus = Active | Gone(code: u32, terminal: Option<Measured>, closes: bool)

  datatype Reading = Reading(root: Measured, probe: Measured, system: SystemCounters, job: Option<JobCounters>,
                             wallTime: string)

  /**
   * One turn of the observation loop: the snapshot, the result of opening each PID, each retained
   * child's status and counters, the sample's readings, and the root's exit query (None if it fails).
   */
  datatype Turn = Turn(
    snapshot: Option<seq<Listed>>,
    openings: u32 -> Opening,
    status: u64 -> ChildStatus,
    monotonic: u64,
    reading: Option<Reading>,
    children: u64 -> Option<Measured>,
    rootGone: Option<bool>)

  /** Entry `i` lists its PID for the last time. */
  predicate LastEntry(snapshot: seq<Listed>, i: int) {
    0 <= i < |snapshot| && forall k | i < k < |snapshot| :: snapshot[k].pid != snapshot[i].pid
  }

  /** The snapshot's last word on a PID is that this is its parent. */
  predicate ParentListed(snapshot: seq<Listed>, pid: u32, parent: u32) {
    exists i | 0 <= i < |snapshot| :: LastEntry(snapshot, i) && snapshot[i] == Listed(pid, parent)
  }

  /** `parent_by_pid`: the last entry for a PID decides; a PID that is not listed has parent zero. */
  function ParentOf(snapshot: seq<Listed>, pid: u32): (parent: u32)
    ensures pid in Pids(snapshot) ==> ParentListed(snapshot, pid, parent)
    ensures pid !in Pids(snapshot) ==> parent == 0
  {
    if snapshot == [] then 0
    else
      var init, last := snapshot[..|snapshot| - 1], snapshot[|snapshot| - 1];
      if last.pid == pid then
        assert LastEntry(snapshot, |snapshot| - 1);
        last.parent
      else
        ListedBefore(snapshot, pid);
        ParentOf(init, pid)
  }

  lemma ListedBefore(snapshot: seq<Listed>, pid: u32)
    requires snapshot != [] && snapshot[|snapshot| - 1].pid != pid
    ensures var init := snapshot[..|snapshot| - 1];
            && (pid in Pids(init) <==> pid in Pids(snapshot))
            && forall parent: u32 :: ParentListed(init, pid, parent) ==> ParentListed(snapshot, pid, parent)
  {
    var init := snapshot[..|snapshot| - 1];
    forall parent: u32 | ParentListed(init, pid, parent)
      ensures ParentListed(snapshot, pid, parent)
    {
      var i :| 0 <= i < |init| && LastEntry(init, i) && init[i] == Listed(pid, parent);
      assert forall k | i < k < |snapshot| :: k < |init| ==> init[k].pid != pid;
      assert LastEntry(snapshot, i);
    }
    if pid in Pids(snapshot) {
      var k :| 0 <= k < |snapshot| && snapshot[k].pid == pid;
      assert init[k].pid == pid;
    }
    if pid in Pids(init) {
      var k :| 0 <= k < |init| && init[k].pid == pid;
      assert snapshot[k].pid == pid;
    }
  }

  /** A launched target's job is read with every sample; an attached one has no job. */
  predicate JobsMatch(z: Setup, turns: seq<Turn>) {
    forall i | 0 <= i < |turns| && turns[i].reading.Some? :: turns[i].reading.value.job.Some? <==> z.launched
  }

  /** The finalization of some retained child fails. */
  ghost predicate FaultyStatus(status: u64 -> ChildStatus, retained: map<u32, u64>) {
    exists p :: p in retained && status(retained[p]).Gone? &&
                !(status(retained[p]).terminal.Some? && status(retained[p]).closes)
  }

  // ---- The runs that answers allow -------------------------------------------------------------

  /** The state after the first `k` steps. */
  function At(z: Setup, steps: seq<Step>, k: nat): State
    requires k <= |steps|
  {
    var st := Exec(z, steps[..k]);
    if st.Some? then st.value else Start(z)
  }

  /** The step registers a listed process with the opening and the last parent that the turn gives for it. */
  predicate MetAs(step: Step, snapshot: seq<Listed>, openings: u32 -> Opening) {
    && step.Meet? && step.opening == openings(step.pid)
    && ParentListed(snapshot, step.pid, step.parent)
  }

  lemma MetIsListed(step: Step, snapshot: seq<Listed>, openings: u32 -> Opening)
    requires MetAs(step, snapshot, openings)
    ensures step.pid in Pids(snapshot)
  {
  }

  /** Step `k` finalizes a retained child with the exit code and the counters that its query gave. */
  predicate FinishedAs(z: Setup, status: u64 -> ChildStatus, steps: seq<Step>, k: nat)
    requires k < |steps|
  {
    var retained := At(z, steps, k).retained;
    && steps[k].Finish? && steps[k].pid in retained
    && status(retained[steps[k].pid]) == Gone(steps[k].code, Some(steps[k].terminal), true)
  }

  function StillActive(retained: map<u32, u64>, status: u64 -> ChildStatus): map<u32, u64> {
    map p | p in retained && !status(retained[p]).Gone? :: retained[p]
  }

  /** Exactly the children that are gone are finalized, in any order. */
  ghost predicate FinishSegment(z: Setup, status: u64 -> ChildStatus, steps: seq<Step>, a: nat, b: nat) {
    && a <= b <= |steps|
    && (forall k | a <= k < b :: FinishedAs(z, status, steps, k))
    && At(z, steps, b).retained == StillActive(At(z, steps, a).retained, status)
  }

  function Live(z: Setup, snapshot: seq<Listed>): set<u32> {
    Pids(snapshot) + {z.rootPid}
  }

  /** The vanished PIDs are forgotten, then exactly the new members of the least closed set are registered. */
  ghost predicate DiscoverySegment(z: Setup, turn: Turn, steps: seq<Step>, a: nat, b: nat) {
    && turn.snapshot.Some? && a < b <= |steps|
    && steps[a] == Step.Forget(Live(z, turn.snapshot.value))
    && (forall k | a < k < b :: MetAs(steps[k], turn.snapshot.value, turn.openings))
    && exists found ::
         && LeastClosed(found, turn.snapshot.value, z.rootPid,
                        At(z, steps, a).known.Keys * Live(z, turn.snapshot.value))
         && At(z, steps, b).known.Keys == At(z, steps, a).known.Keys * Live(z, turn.snapshot.value) + found
  }

  /** The root's row and a row for exactly the retained children whose counters the turn gives. */
  predicate RowsTaken(turn: Turn, retained: map<u32, u64>, rows: seq<Counted>) {
    && turn.reading.Some? && rows != [] && rows[0] == Counted(1, turn.reading.value.root)
    && (forall p | p in retained && turn.children(retained[p]).Some? ::
          Counted(retained[p], turn.children(retained[p]).value) in rows)
    && (forall j | 0 < j < |rows| :: Some(rows[j].counters) == turn.children(rows[j].id))
  }

  /** Everything else in the sample is the turn's. */
  predicate TakenAs(turn: Turn, t: Taken) {
    && turn.reading.Some? && turn.rootGone.Some?
    && t.probe == turn.reading.value.probe && t.system == turn.reading.value.system
    && t.job == turn.reading.value.job && t.wallTime == turn.reading.value.wallTime
    && t.monotonic == turn.monotonic && t.live == !turn.rootGone.value
  }

  ghost predicate TurnSegment(z: Setup, turn: Turn, steps: seq<Step>, a: nat, b: nat, c: nat) {
    && DiscoverySegment(z, turn, steps, a, b)
    && FinishSegment(z, turn.status, steps, b, c)
    && c < |steps| && steps[c].Take?
    && TakenAs(turn, steps[c].sample) && RowsTaken(turn, At(z, steps, c).retained, steps[c].sample.rows)
  }

  /** The steps are those of the first `n` turns. */
  ghost predicate Observed(z: Setup, turns: seq<Turn>, n: nat, steps: seq<Step>)
    decreases n
  {
    if n == 0 then steps == []
    else
      && n <= |turns|
      && var last := turns[n - 1];
         exists a: nat, b: nat, c: nat ::
           TurnSegment(z, last, steps, a, b, c) && c + 1 == |steps| && Observed(z, turns, n - 1, steps[..a])
  }

  /** The steps from `start` on are those of the first `m` polls after the root's exit. */
  ghost predicate Awaited(z: Setup, finals: seq<u64 -> ChildStatus>, m: nat, steps: seq<Step>, start: nat)
    decreases m
  {
    if m == 0 then |steps| == start
    else m <= |finals| && exists a: nat ::
           FinishSegment(z, finals[m - 1], steps, a, |steps|) && start <= a <= |steps| &&
           Awaited(z, finals, m - 1, steps[..a], start)
  }

  /** The root was alive in the first `n` turns. */
  predicate RootAlive(turns: seq<Turn>, n: nat) {
    n <= |turns| && forall i | 0 <= i < n :: turns[i].rootGone == Some(false)
  }

  /** The steps of a run whose root was first seen gone in turn `n - 1`, and of `m` polls after that. */
  ghost predicate Ran(z: Setup, turns: seq<Turn>, finals: seq<u64 -> ChildStatus>, n: nat, m: nat, steps: seq<Step>) {
    && 0 < n <= |turns| && RootAlive(turns, n - 1) && turns[n - 1].rootGone == Some(true)
    && exists start: nat ::
         start <= |steps| && Awaited(z, finals, m, steps, start) && Observed(z, turns, n, steps[..start])
  }

  /**
   * The turn that follows the first `a` steps fails: its snapshot, the finalization of a child that is
   * retained after its discovery, or, once the exited children are finalized, a reading of its sample.
   */
  ghost predicate FailingTurn(z: Setup, turn: Turn, steps: seq<Step>, a: nat) {
    || turn.snapshot.None?
    || exists b: nat ::
         && DiscoverySegment(z, turn, steps, a, b)
         && (|| FaultyStatus(turn.status, At(z, steps, b).retained)
             || ((turn.reading.None? || turn.rootGone.None?) &&
                 exists c: nat :: FinishSegment(z, turn.status, steps, b, c)))
  }

  /** The run fails in turn `n`, the first one not completed. */
  ghost predicate FailedTurn(z: Setup, turns: seq<Turn>, n: nat, steps: seq<Step>) {
    && n < |turns| && RootAlive(turns, n)
    && var turn := turns[n];
       exists a: nat :: a <= |steps| && Observed(z, turns, n, steps[..a]) && FailingTurn(z, turn, steps, a)
  }

  /** The run fails in poll `m` after the root's exit, on a child still retained then. */
  ghost predicate FailedPoll(z: Setup, turns: seq<Turn>, finals: seq<u64 -> ChildStatus>, n: nat, m: nat,
                             steps: seq<Step>) {
    && m < |finals|
    && var status := finals[m];
       exists a: nat ::
         a <= |steps| && Ran(z, turns, finals, n, m, steps[..a]) && FaultyStatus(status, At(z, steps, a).retained)
  }

  ghost predicate Failed(z: Setup, turns: seq<Turn>, finals: seq<u64 -> ChildStatus>, n: nat, m: nat,
                         steps: seq<Step>) {
    FailedTurn(z, turns, n, steps) || FailedPoll(z, turns, finals, n, m, steps)
  }

  /** The answers stop before the run does: the root is alive after every turn, or some child after every poll. */
  ghost predicate Unfinished(z: Setup, turns: seq<Turn>, finals: seq<u64 -> ChildStatus>, n: nat, steps: seq<Step>) {
    || (n == |turns| && RootAlive(turns, n) && Observed(z, turns, n, steps))
    || (Ran(z, turns, finals, n, |finals|, steps) && Exec(z, steps).Some? && Exec(z, steps).value.retained != map[])
  }

  // ---- Prefixes --------------------------------------------------------------------------------

  lemma {:induction false} PrefixRuns(z: Setup, steps: seq<Step>, k: nat)
    requires Exec(z, steps).Some? && k <= |steps|
    ensures Exec(z, steps[..k]).Some? && Exec(z, steps[..k]) == Some(At(z, steps, k))
    decreases |steps|
  {
    hide Legal, After;
    if k == |steps| {
      assert steps[..k] == steps;
    } else {
      var init := steps[..|steps| - 1];
      PrefixRuns(z, init, k);
      assert init[..k] == steps[..k];
    }
  }

  lemma StepAt(z: Setup, steps: seq<Step>, k: nat)
    requires Exec(z, steps).Some? && k < |steps|
    ensures Legal(z, At(z, steps, k), steps[k]) && At(z, steps, k + 1) == After(z, At(z, steps, k), steps[k])
    ensures Exec(z, steps[..k]) == Some(At(z, steps, k))
  {
    hide Legal, After;
    PrefixRuns(z, steps, k);
    PrefixRuns(z, steps, k + 1);
    assert steps[..k + 1][..k] == steps[..k];
  }

  lemma AtEnd(z: Setup, steps: seq<Step>)
    requires Exec(z, steps).Some?
    ensures At(z, steps, |steps|) == Exec(z, steps).value
  {
    hide Exec;
    assert steps[..|steps|] == steps;
  }

  lemma AtPrefix(z: Setup, steps: seq<Step>, longer: seq<Step>, k: nat)
    requires steps <= longer && k <= |steps|
    ensures At(z, longer, k) == At(z, steps, k)
  {
    hide Exec;
    assert longer[..k] == steps[..k];
  }

  lemma FinishedStable(z: Setup, status: u64 -> ChildStatus, steps: seq<Step>, longer: seq<Step>, a: nat, b: nat)
    requires steps <= longer && a <= b <= |steps|
    requires forall k | a <= k < b :: FinishedAs(z, status, steps, k)
    ensures forall k | a <= k < b :: FinishedAs(z, status, longer, k)
  {
    hide At;
    forall k | a <= k < b
      ensures FinishedAs(z, status, longer, k)
    {
      assert FinishedAs(z, status, steps, k);
      AtPrefix(z, steps, longer, k);
    }
  }

  lemma FinishSegmentStable(z: Setup, status: u64 -> ChildStatus, steps: seq<Step>, longer: seq<Step>, a: nat, b: nat)
    requires steps <= longer && FinishSegment(z, status, steps, a, b)
    ensures FinishSegment(z, status, longer, a, b)
  {
    hide At, FinishedAs;
    FinishedStable(z, status, steps, longer, a, b);
    AtPrefix(z, steps, longer, a);
    AtPrefix(z, steps, longer, b);
  }

  lemma DiscoverySegmentStable(z: Setup, turn: Turn, steps: seq<Step>, longer: seq<Step>, a: nat, b: nat)
    requires steps <= longer && DiscoverySegment(z, turn, steps, a, b)
    ensures DiscoverySegment(z, turn, longer, a, b)
  {
    hide At, LeastClosed, MetAs;
    AtPrefix(z, steps, longer, a);
    AtPrefix(z, steps, longer, b);
  }
}
