/** When the snapshots of a Windows run make sure that no handle is lost. */
module WindowsConservation {
  import opened Prelude
  import opened Discovery
  import opened WindowsRun
  import opened WindowsTurns
  import opened WindowsBehaviour

  ghost predicate NothingRelisted(z: Setup, steps: seq<Step>) {
    forall k | 0 <= k < |steps| :: !RelistsAt(z, steps, k)
  }

  lemma RelistsWhere(z: Setup, steps: seq<Step>, k: nat)
    requires Exec(z, steps).Some? && k < |steps|
    ensures RelistsAt(z, steps, k) <==> Relists(z, At(z, steps, k), steps[k])
  {
    hide Exec, Relists, Legal, After;
    StepAt(z, steps, k);
  }

  // ---- Snapshots that list whatever is retained ------------------------------------------------

  /** Every snapshot lists each PID that is retained when it is taken. */
  ghost predicate ListsRetained(z: Setup, steps: seq<Step>) {
    forall k | 0 <= k < |steps| && steps[k].Forget? :: At(z, steps, k).retained.Keys <= steps[k].live
  }

  lemma RetainedStaysKnown(z: Setup, st: State, step: Step)
    requires Legal(z, st, step) && st.retained.Keys <= st.known.Keys
    requires step.Forget? ==> st.retained.Keys <= step.live
    ensures After(z, st, step).retained.Keys <= After(z, st, step).known.Keys && !Relists(z, st, step)
  {
    hide StepMessages, RowsLegal, GapSince;
  }

  lemma {:induction false} RetainedIsKnown(z: Setup, steps: seq<Step>, k: nat)
    requires Exec(z, steps).Some? && ListsRetained(z, steps) && k <= |steps|
    ensures At(z, steps, k).retained.Keys <= At(z, steps, k).known.Keys
    ensures forall i | 0 <= i < k :: !RelistsAt(z, steps, i)
  {
    hide Exec, RelistsAt, Relists, Legal, After;
    if k == 0 {
      StartRetainsNothing(z, steps);
    } else {
      RetainedIsKnown(z, steps, k - 1);
      StepAt(z, steps, k - 1);
      RelistsWhere(z, steps, k - 1);
      RetainedStaysKnown(z, At(z, steps, k - 1), steps[k - 1]);
    }
  }

  lemma StartRetainsNothing(z: Setup, steps: seq<Step>)
    ensures At(z, steps, 0).retained == map[]
  {
    assert steps[..0] == [];
  }

  /** If every snapshot lists whatever is retained, nothing is relisted. */
  lemma ListedIsNotRelisted(z: Setup, steps: seq<Step>)
    requires Exec(z, steps).Some? && ListsRetained(z, steps)
    ensures NothingRelisted(z, steps)
  {
    hide Exec, RelistsAt;
    RetainedIsKnown(z, steps, |steps|);
  }

  // ---- Snapshots in which no PID comes back ----------------------------------------------------

  predicate Lists(turn: Turn, pid: u32) {
    turn.snapshot.Some? && pid in Pids(turn.snapshot.value)
  }

  ghost predicate ComesBack(turns: seq<Turn>, i: int, j: int, k: int, pid: u32) {
    0 <= i < j < k < |turns| && Lists(turns[i], pid) && !Lists(turns[j], pid) && Lists(turns[k], pid)
  }

  /** Once a PID has vanished from the snapshots it is not listed again: a property of the snapshots alone. */
  ghost predicate NoReturn(turns: seq<Turn>) {
    forall i, j, k, pid :: !ComesBack(turns, i, j, k, pid)
  }

  ghost predicate Seen(turns: seq<Turn>, n: nat, pid: u32) {
    exists i :: 0 <= i < n <= |turns| && Lists(turns[i], pid)
  }

  ghost predicate Gap(turns: seq<Turn>, i: int, j: int, pid: u32) {
    0 <= i < j < |turns| && Lists(turns[i], pid) && !Lists(turns[j], pid)
  }

  /** Among the first `n` turns, one lists the PID and a later one does not. */
  ghost predicate Vanished(turns: seq<Turn>, n: nat, pid: u32) {
    exists i, j :: Gap(turns, i, j, pid) && j < n
  }

  /** A retained PID was listed, and if it is no longer known it has vanished since. */
  ghost predicate RetainedSeen(turns: seq<Turn>, n: nat, st: State) {
    forall p | p in st.retained :: Seen(turns, n, p) && (p !in st.known ==> Vanished(turns, n, p))
  }

  /** The first step of a turn: what it forgets has vanished. */
  lemma ForgetKeepsSeen(z: Setup, turns: seq<Turn>, n: nat, st: State, step: Step)
    requires n < |turns| && turns[n].snapshot.Some? && step == Forget(Live(z, turns[n].snapshot.value))
    requires Legal(z, st, step)
    requires RetainedSeen(turns, n, st)
    ensures RetainedSeen(turns, n + 1, After(z, st, step))
  {
    hide StepMessages;
    var st' := After(z, st, step);
    forall p | p in st'.retained
      ensures Seen(turns, n + 1, p) && (p !in st'.known ==> Vanished(turns, n + 1, p))
    {
      var i :| 0 <= i < n && Lists(turns[i], p);
      if p !in st'.known {
        if p in st.known {
          assert Gap(turns, i, n, p);
        } else {
          var q, j :| Gap(turns, q, j, p) && j < n;
          assert Gap(turns, q, j, p) && j < n + 1;
        }
      }
    }
  }

  /** A registration in turn `n` relists nothing if no PID comes back. */
  lemma MeetKeepsSeen(z: Setup, turns: seq<Turn>, n: nat, st: State, step: Step)
    requires n < |turns| && NoReturn(turns) && step.Meet? && Lists(turns[n], step.pid) && Legal(z, st, step)
    requires RetainedSeen(turns, n + 1, st)
    ensures RetainedSeen(turns, n + 1, After(z, st, step)) && !Relists(z, st, step)
  {
    hide StepMessages, Vanished, Lists;
    if step.pid in st.retained {
      VanishedIsUnlisted(turns, n, step.pid);
    }
  }

  lemma VanishedIsUnlisted(turns: seq<Turn>, n: nat, pid: u32)
    requires n < |turns| && NoReturn(turns) && Lists(turns[n], pid)
    ensures !Vanished(turns, n + 1, pid)
  {
    forall i, j
      ensures !(Gap(turns, i, j, pid) && j < n + 1)
    {
      assert !ComesBack(turns, i, j, n, pid);
    }
  }

  lemma QuietKeepsSeen(z: Setup, turns: seq<Turn>, n: nat, st: State, step: Step)
    requires (step.Finish? || step.Take?) && Legal(z, st, step) && RetainedSeen(turns, n, st)
    ensures RetainedSeen(turns, n, After(z, st, step)) && !Relists(z, st, step)
  {
    hide StepMessages, Seen, Vanished, RowsLegal;
  }

  /** What step `k` of a turn may be. */
  lemma TurnStepKinds(z: Setup, turn: Turn, steps: seq<Step>, a: nat, b: nat, c: nat, k: nat)
    requires TurnSegment(z, turn, steps, a, b, c) && a <= k <= c
    ensures turn.snapshot.Some? && a < b <= c < |steps|
    ensures k == a ==> steps[k] == Forget(Live(z, turn.snapshot.value))
    ensures k > a ==> (steps[k].Meet? && Lists(turn, steps[k].pid)) || steps[k].Finish? || steps[k].Take?
  {
    hide At, LeastClosed, RowsTaken;
    if a < k < b {
      assert MetAs(steps[k], turn.snapshot.value, turn.openings);
    } else if b <= k < c {
      assert FinishedAs(z, turn.status, steps, k);
    }
  }

  lemma {:induction false} TurnKeepsSeen(z: Setup, turns: seq<Turn>, n: nat, steps: seq<Step>, a: nat, b: nat,
                                         c: nat, k: nat)
    requires Exec(z, steps).Some? && n < |turns| && NoReturn(turns)
    requires TurnSegment(z, turns[n], steps, a, b, c) && RetainedSeen(turns, n, At(z, steps, a))
    requires a <= k <= c < |steps|
    ensures RetainedSeen(turns, n + 1, At(z, steps, k + 1))
    ensures forall i | a <= i <= k :: !RelistsAt(z, steps, i)
    decreases k
  {
    hide Exec, At, TurnSegment, RelistsAt, Relists, Legal, After, RetainedSeen, NoReturn, Lists;
    TurnStepKinds(z, turns[n], steps, a, b, c, k);
    StepAt(z, steps, k);
    RelistsWhere(z, steps, k);
    if k == a {
      ForgetKeepsSeen(z, turns, n, At(z, steps, k), steps[k]);
      ForgetRelistsNothing(z, At(z, steps, k), steps[k]);
    } else {
      TurnKeepsSeen(z, turns, n, steps, a, b, c, k - 1);
      if steps[k].Meet? {
        MeetKeepsSeen(z, turns, n, At(z, steps, k), steps[k]);
      } else {
        QuietKeepsSeen(z, turns, n + 1, At(z, steps, k), steps[k]);
      }
    }
  }

  lemma ForgetRelistsNothing(z: Setup, st: State, step: Step)
    requires step.Forget?
    ensures !Relists(z, st, step)
  {
  }

  lemma {:induction false} ObservedKeepsSeen(z: Setup, turns: seq<Turn>, n: nat, steps: seq<Step>)
    requires Exec(z, steps).Some? && Observed(z, turns, n, steps) && NoReturn(turns)
    ensures n <= |turns| && RetainedSeen(turns, n, At(z, steps, |steps|)) && NothingRelisted(z, steps)
    decreases n
  {
    hide Exec, At, TurnSegment, RelistsAt, RetainedSeen, NoReturn, Observed;
    if n == 0 {
      NothingObserved(z, turns, steps);
      StartSeen(z, turns, steps);
    } else {
      var a, b, c := LastTurn(z, turns, n, steps);
      PrefixRuns(z, steps, a);
      ObservedKeepsSeen(z, turns, n - 1, steps[..a]);
      AtPrefix(z, steps[..a], steps, a);
      QuietUntilTake(z, turns[n - 1], steps, a, b, c);
      TurnKeepsSeen(z, turns, n - 1, steps, a, b, c, c);
      forall k | 0 <= k < |steps|
        ensures !RelistsAt(z, steps, k)
      {
        if k < a {
          RelistsEarlier(z, steps, a, k);
        }
      }
    }
  }

  lemma StartSeen(z: Setup, turns: seq<Turn>, steps: seq<Step>)
    ensures RetainedSeen(turns, 0, At(z, steps, 0))
  {
    StartRetainsNothing(z, steps);
  }

  lemma RelistsEarlier(z: Setup, steps: seq<Step>, a: nat, k: nat)
    requires k < a <= |steps|
    ensures RelistsAt(z, steps, k) <==> RelistsAt(z, steps[..a], k)
  {
    hide Exec;
    assert steps[..a][..k] == steps[..k];
  }

  /** If no PID comes back in the snapshots, nothing is relisted. */
  lemma NoReturnNoRelisting(z: Setup, turns: seq<Turn>, finals: seq<u64 -> ChildStatus>, n: nat, m: nat,
                            steps: seq<Step>)
    requires Exec(z, steps).Some? && Ran(z, turns, finals, n, m, steps) && NoReturn(turns)
    ensures NothingRelisted(z, steps)
  {
    hide Exec, Observed, Awaited, NoReturn, RelistsAt;
    var start: nat :| start <= |steps| && Awaited(z, finals, m, steps, start) && Observed(z, turns, n, steps[..start]);
    AwaitedSteps(z, finals, m, steps, start);
    PrefixRuns(z, steps, start);
    ObservedKeepsSeen(z, turns, n, steps[..start]);
    forall k | 0 <= k < |steps|
      ensures !RelistsAt(z, steps, k)
    {
      if k < start {
        RelistsEarlier(z, steps, start, k);
      } else {
        FinishRelistsNothing(z, steps, k);
      }
    }
  }

  lemma FinishRelistsNothing(z: Setup, steps: seq<Step>, k: nat)
    requires k < |steps| && steps[k].Finish?
    ensures !RelistsAt(z, steps, k)
  {
    hide Exec;
  }
}
