/** A launched run that loses a handle: the condition in the handle conservation law cannot be dropped. */
module WindowsRelisting {
  import opened Prelude
  import opened Records
  import opened WindowsRun
  import opened WindowsIdentity

  const TARGET: Setup := Setup(10, 1, "boot", 3, true)

  const ACCOUNTING: JobCounters := JobCounters(0, 0, 0, 0, 0, 0, 2)

  function Sampled(m: Measured, c: SystemCounters, gap: Option<u64>, live: bool): Taken {
    Taken([Counted(1, m)], m, c, Some(ACCOUNTING), 0, gap, live, "now")
  }

  /**
   * Process 20 is discovered and retained; the next snapshot does not list it although it is still
   * running; the one after lists it again, and the same process is registered a second time.
   */
  function RelistingRun(m: Measured, c: SystemCounters): seq<Step> {
    [Forget({10, 20}), Meet(20, 10, Opened(5)), Take(Sampled(m, c, None, true)),
     Forget({10}), Take(Sampled(m, c, Some(0), true)),
     Forget({10, 20}), Meet(20, 10, Opened(5)), Take(Sampled(m, c, Some(0), false)),
     Finish(20, 0, m)]
  }

  /** What matters of a state for the steps of this run. */
  predicate Is(st: State, known: map<u32, u64>, retained: map<u32, u64>, next: u64, samples: nat, lost: set<u64>) {
    && st.known == known && st.retained == retained && st.next == next && st.lost == lost
    && |st.taken| == samples && forall o | 0 <= o < samples :: st.taken[o].monotonic == 0
  }

  predicate Reaches(steps: seq<Step>, known: map<u32, u64>, retained: map<u32, u64>, next: u64, samples: nat,
                    lost: set<u64>) {
    var st := Exec(TARGET, steps);
    st.Some? && Is(st.value, known, retained, next, samples, lost)
  }

  lemma ThenForget(steps: seq<Step>, live: set<u32>, known: map<u32, u64>, kept: map<u32, u64>,
                   retained: map<u32, u64>, next: u64, samples: nat, lost: set<u64>)
    requires Reaches(steps, known, retained, next, samples, lost) && 10 in live
    requires kept == map p | p in known && p in live :: known[p]
    ensures Reaches(steps + [Forget(live)], kept, retained, next, samples, lost)
  {
    hide Exec, StepMessages;
    ExecSnoc(TARGET, steps, Forget(live));
  }

  lemma ThenTake(steps: seq<Step>, t: Taken, m: Measured, known: map<u32, u64>,
                 retained: map<u32, u64>, next: u64, samples: nat, lost: set<u64>)
    requires Reaches(steps, known, retained, next, samples, lost) && samples < 10
    requires t.rows == [Counted(1, m)] && t.job.Some? && t.monotonic == 0
    requires t.gap == if samples == 0 then None else Some(0)
    ensures Reaches(steps + [Take(t)], known, retained, next, samples + 1, lost)
  {
    hide Exec, StepMessages;
    ExecSnoc(TARGET, steps, Take(t));
  }

  lemma ThenMeet(steps: seq<Step>, start: u64, known: map<u32, u64>,
                 retained: map<u32, u64>, next: u64, samples: nat, lost: set<u64>)
    requires Reaches(steps, known, retained, next, samples, lost)
    requires 20 !in known && next < 10 && |retained| <= 1
    ensures Reaches(steps + [Meet(20, 10, Opened(start))], known[20 := next], retained[20 := next], next + 1, samples,
                    lost + (if 20 in retained then {retained[20]} else {}))
  {
    hide Exec, StepMessages;
    ExecSnoc(TARGET, steps, Meet(20, 10, Opened(start)));
  }

  lemma ThenFinish(steps: seq<Step>, m: Measured, known: map<u32, u64>,
                   retained: map<u32, u64>, next: u64, samples: nat, lost: set<u64>)
    requires Reaches(steps, known, retained, next, samples, lost) && 20 in retained
    ensures Reaches(steps + [Finish(20, 0, m)], known, retained - {20}, next, samples, lost)
  {
    hide Exec, StepMessages;
    ExecSnoc(TARGET, steps, Finish(20, 0, m));
  }

  lemma FirstHalf(m: Measured, c: SystemCounters)
    ensures Reaches([Forget({10, 20}), Meet(20, 10, Opened(5)), Take(Sampled(m, c, None, true)),
                     Forget({10}), Take(Sampled(m, c, Some(0), true))], map[10 := 1], map[20 := 2], 3, 2, {})
  {
    hide Exec, Reaches, Sampled;
    Beginning();
    TakenShape(m, c, None, true);
    TakenShape(m, c, Some(0), true);
    var none: set<u64> := {};
    assert none + none == none;
    var a := [Forget({10, 20})];
    var b := a + [Meet(20, 10, Opened(5))];
    var d := b + [Take(Sampled(m, c, None, true))];
    var e := d + [Forget({10})];
    ThenForget([], {10, 20}, map[10 := 1], map[10 := 1], map[], 2, 0, {});
    assert [] + a == a;
    ThenMeet(a, 5, map[10 := 1], map[], 2, 0, {});
    assert map[10 := 1][20 := 2] == map[10 := 1, 20 := 2];
    ThenTake(b, Sampled(m, c, None, true), m, map[10 := 1, 20 := 2], map[20 := 2], 3, 0, {});
    ThenForget(d, {10}, map[10 := 1, 20 := 2], map[10 := 1], map[20 := 2], 3, 1, {});
    ThenTake(e, Sampled(m, c, Some(0), true), m, map[10 := 1], map[20 := 2], 3, 1, {});
    assert e + [Take(Sampled(m, c, Some(0), true))] ==
           [Forget({10, 20}), Meet(20, 10, Opened(5)), Take(Sampled(m, c, None, true)),
            Forget({10}), Take(Sampled(m, c, Some(0), true))];
  }

  lemma Beginning()
    ensures Reaches([], map[10 := 1], map[], 2, 0, {})
  {
  }

  lemma SecondHalf(m: Measured, c: SystemCounters)
    ensures Reaches(RelistingRun(m, c), map[10 := 1, 20 := 3], map[], 4, 3, {2})
  {
    hide Exec, Reaches, Sampled;
    FirstHalf(m, c);
    var a := [Forget({10, 20}), Meet(20, 10, Opened(5)), Take(Sampled(m, c, None, true)),
              Forget({10}), Take(Sampled(m, c, Some(0), true))];
    var b := a + [Forget({10, 20})];
    var d := b + [Meet(20, 10, Opened(5))];
    var t := Sampled(m, c, Some(0), false);
    var e := d + [Take(t)];
    ThenForget(a, {10, 20}, map[10 := 1], map[10 := 1], map[20 := 2], 3, 2, {});
    ThenMeet(b, 5, map[10 := 1], map[20 := 2], 3, 2, {});
    assert map[10 := 1][20 := 3] == map[10 := 1, 20 := 3] && map[20 := 2][20 := 3] == map[20 := 3] && {} + {2} == {2};
    TakenShape(m, c, Some(0), false);
    ThenTake(d, t, m, map[10 := 1, 20 := 3], map[20 := 3], 4, 2, {2});
    ThenFinish(e, m, map[10 := 1, 20 := 3], map[20 := 3], 4, 3, {2});
    assert map[20 := 3] - {20} == map[];
    assert RelistingRun(m, c) == e + [Finish(20, 0, m)];
  }

  lemma TakenShape(m: Measured, c: SystemCounters, gap: Option<u64>, live: bool)
    ensures var t := Sampled(m, c, gap, live);
            t.rows == [Counted(1, m)] && t.job.Some? && t.monotonic == 0 && t.gap == gap
  {
  }

  /** An attach keeps no handle but the root's, so it never relists. */
  lemma AttachNeverRelists(z: Setup, st: State, step: Step)
    requires z.limit <= 1
    ensures !Relists(z, st, step)
  {
  }

  /** The relisted PID's first handle is announced and never released, though nothing is retained at the end. */
  lemma RelistingLosesHandle(m: Measured, c: SystemCounters)
    ensures Exec(TARGET, RelistingRun(m, c)).Some?
    ensures var st := Exec(TARGET, RelistingRun(m, c)).value;
            && st.retained == map[] && Life(EventsOf(st.sent), 2) == [Announced] && !Conserved(EventsOf(st.sent))
  {
    hide Exec, Life;
    SecondHalf(m, c);
    RunKeepsLife(TARGET, RelistingRun(m, c));
    var st := Exec(TARGET, RelistingRun(m, c)).value;
    assert LifeAt(EventsOf(st.sent), 2, st.retained, st.lost);
    assert Announced in Life(EventsOf(st.sent), 2);
  }
}
