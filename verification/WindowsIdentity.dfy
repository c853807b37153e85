/** Local ids, bounded retention and handle lifetimes over every run of the Windows collector. */
module WindowsIdentity {
  import opened Prelude
  import opened Records
  import opened WindowsRun

  // ---- Identities ------------------------------------------------------------------------------

  /** Record `k` has local id `k + 1`, and a parent that it names is an earlier record. */
  predicate RecordAt(z: Setup, ps: seq<ProcessRecord>, k: int)
    requires 0 <= k < |ps|
  {
    && ps[k].id.Num? && ps[k].id.n == k + 1
    && ps[k].pid.Num? && ps[k].pid.n <= U32_MAX
    && ps[k].startTime.Num? && ps[k].boot == Text(z.boot)
    && (ps[k].parent.Absent? || (ps[k].parent.Num? && 1 <= ps[k].parent.n <= k))
  }

  predicate Identities(z: Setup, ps: seq<ProcessRecord>) {
    && ps != [] && ps[0] == RootRecord(z)
    && forall k | 0 <= k < |ps| :: RecordAt(z, ps, k)
  }

  predicate Names(ps: seq<ProcessRecord>, id: u64, pid: u32) {
    1 <= id <= |ps| && ps[id - 1].pid == Num(pid)
  }

  predicate KnownOk(z: Setup, ps: seq<ProcessRecord>, known: map<u32, u64>) {
    && z.rootPid in known && known[z.rootPid] == 1
    && forall p | p in known :: Names(ps, known[p], p)
  }

  predicate RetainedOk(ps: seq<ProcessRecord>, retained: map<u32, u64>) {
    forall p | p in retained :: 2 <= retained[p] && Names(ps, retained[p], p)
  }

  predicate IdentityInv(z: Setup, st: State) {
    var ps := ProcessesOf(st.sent);
    && |ps| == st.next - 1 && st.next >= 2 && Identities(z, ps)
    && KnownOk(z, ps, st.known) && RetainedOk(ps, st.retained)
    && (z.limit >= 1 ==> 1 + |st.retained| <= z.limit)
  }

  lemma NewRecord(z: Setup, ps: seq<ProcessRecord>, p: ProcessRecord)
    requires Identities(z, ps)
    requires RecordAt(z, ps + [p], |ps|)
    ensures Identities(z, ps + [p])
  {
    forall k | 0 <= k < |ps + [p]|
      ensures RecordAt(z, ps + [p], k)
    {
      if k < |ps| {
        assert RecordAt(z, ps, k);
      }
    }
  }

  lemma NamesGrow(ps: seq<ProcessRecord>, p: ProcessRecord, m: map<u32, u64>)
    requires forall q | q in m :: Names(ps, m[q], q)
    ensures forall q | q in m :: Names(ps + [p], m[q], q)
  {
    forall q | q in m
      ensures Names(ps + [p], m[q], q)
    {
      assert Names(ps, m[q], q);
    }
  }

  /** Retained ids are distinct, because each id names one PID. */
  lemma RetainedDistinct(ps: seq<ProcessRecord>, retained: map<u32, u64>, p: u32, q: u32)
    requires RetainedOk(ps, retained) && p in retained && q in retained && retained[p] == retained[q]
    ensures p == q
  {
    assert Names(ps, retained[p], p) && Names(ps, retained[q], q);
  }

  lemma StartIdentity(z: Setup)
    ensures IdentityInv(z, Start(z))
  {
    StartStreams(z);
    assert RecordAt(z, [RootRecord(z)], 0);
  }

  lemma SizeAfterInsert(m: map<u32, u64>, pid: u32, id: u64)
    ensures |m[pid := id]| <= |m| + 1
  {
    var n := m[pid := id];
    assert n.Keys == m.Keys + {pid};
    assert |n.Keys| <= |m.Keys| + 1;
    assert |n| == |n.Keys| && |m| == |m.Keys|;
  }

  lemma SizeAfterRemove(m: map<u32, u64>, pid: u32)
    ensures |m - {pid}| <= |m|
  {
    var n := m - {pid};
    assert n.Keys == m.Keys - {pid};
    assert |n| == |n.Keys| && |m| == |m.Keys|;
    if pid in m.Keys {
      assert m.Keys == n.Keys + {pid};
    } else {
      assert m.Keys == n.Keys;
    }
  }

  lemma ChildRecordFits(z: Setup, st: State, pid: u32, parent: u32, opening: Opening)
    requires IdentityInv(z, st)
    ensures Identities(z, ProcessesOf(st.sent) + [ChildRecord(z, st, pid, parent, opening)])
  {
    var ps, record := ProcessesOf(st.sent), ChildRecord(z, st, pid, parent, opening);
    if parent in st.known {
      assert Names(ps, st.known[parent], parent);
    }
    assert RecordAt(z, ps + [record], |ps|);
    NewRecord(z, ps, record);
  }

  lemma NamesNew(ps: seq<ProcessRecord>, p: ProcessRecord, m: map<u32, u64>, pid: u32, id: u64, n: map<u32, u64>)
    requires forall q | q in m :: Names(ps, m[q], q)
    requires p.pid == Num(pid) && id == |ps| + 1 && n == m[pid := id]
    ensures forall q | q in n :: Names(ps + [p], n[q], q)
  {
    NamesGrow(ps, p, m);
  }

  lemma RetainedNew(ps: seq<ProcessRecord>, p: ProcessRecord, m: map<u32, u64>, pid: u32, id: u64)
    requires RetainedOk(ps, m)
    requires p.pid == Num(pid) && id == |ps| + 1 && id >= 2
    ensures RetainedOk(ps + [p], m) && RetainedOk(ps + [p], m[pid := id])
  {
    NamesGrow(ps, p, m);
    var n := m[pid := id];
    NamesNew(ps, p, m, pid, id, n);
    assert forall q | q in n :: n[q] == if q == pid then id else m[q];
  }

  lemma MeetIdentity(z: Setup, st: State, pid: u32, parent: u32, opening: Opening)
    requires IdentityInv(z, st) && pid !in st.known && st.next < U64_MAX
    ensures IdentityInv(z, After(z, st, Meet(pid, parent, opening)))
  {
    hide StepMessages, StepEvents, MeetEvents, Names, RetainedOk, Identities, ProcessesOf, SamplesOf, EventsOf;
    var ps, record := ProcessesOf(st.sent), ChildRecord(z, st, pid, parent, opening);
    StepStreams(z, st, Meet(pid, parent, opening));
    ChildRecordFits(z, st, pid, parent, opening);
    NamesNew(ps, record, st.known, pid, st.next, st.known[pid := st.next]);
    RetainedNew(ps, record, st.retained, pid, st.next);
    SizeAfterInsert(st.retained, pid, st.next);
  }

  lemma NamesFewer(ps: seq<ProcessRecord>, m: map<u32, u64>, n: map<u32, u64>)
    requires forall q | q in n :: q in m && n[q] == m[q]
    ensures (forall q | q in m :: Names(ps, m[q], q)) ==> forall q | q in n :: Names(ps, n[q], q)
    ensures RetainedOk(ps, m) ==> RetainedOk(ps, n)
  {
    if forall q | q in m :: Names(ps, m[q], q) {
      forall q | q in n
        ensures Names(ps, n[q], q)
      {
        assert Names(ps, m[q], q);
      }
    }
  }

  /** Every step keeps the identity invariant: ids in order, acyclic parents, the root's id, the retention limit. */
  lemma StepKeepsIdentity(z: Setup, st: State, step: Step)
    requires IdentityInv(z, st) && Legal(z, st, step)
    ensures IdentityInv(z, After(z, st, step))
  {
    hide StepMessages, StepEvents, Names, RetainedOk, Identities;
    var ps := ProcessesOf(st.sent);
    if step.Meet? {
      MeetIdentity(z, st, step.pid, step.parent, step.opening);
    } else {
      StepStreams(z, st, step);
      assert ps + [] == ps;
      if step.Finish? {
        SizeAfterRemove(st.retained, step.pid);
        NamesFewer(ps, st.retained, st.retained - {step.pid});
      } else if step.Forget? {
        NamesFewer(ps, st.known, After(z, st, step).known);
      }
    }
  }

  lemma {:induction false} RunKeepsIdentity(z: Setup, steps: seq<Step>)
    requires Exec(z, steps).Some?
    ensures IdentityInv(z, Exec(z, steps).value)
  {
    hide Legal, After, IdentityInv;
    if steps == [] {
      StartIdentity(z);
    } else {
      RunKeepsIdentity(z, steps[..|steps| - 1]);
      StepKeepsIdentity(z, Exec(z, steps[..|steps| - 1]).value, steps[|steps| - 1]);
    }
  }

  /** Parent links lead to strictly smaller ids, so no chain of them returns to where it started. */
  lemma {:induction false} AncestorsDescend(z: Setup, ps: seq<ProcessRecord>, chain: seq<u64>)
    requires Identities(z, ps) && chain != []
    requires forall k | 0 <= k < |chain| :: 1 <= chain[k] <= |ps|
    requires forall k | 0 <= k < |chain| - 1 :: ParentAt(ps, chain, k)
    ensures |chain| > 1 ==> chain[|chain| - 1] < chain[0]
    ensures |chain| <= chain[0]
  {
    if |chain| > 1 {
      assert ParentAt(ps, chain, 0);
      assert RecordAt(z, ps, chain[0] - 1);
      forall k | 0 <= k < |chain[1..]| - 1
        ensures ParentAt(ps, chain[1..], k)
      {
        assert ParentAt(ps, chain, k + 1);
      }
      AncestorsDescend(z, ps, chain[1..]);
    }
  }

  predicate ParentAt(ps: seq<ProcessRecord>, chain: seq<u64>, k: int)
    requires 0 <= k < |chain| - 1
  {
    1 <= chain[k] <= |ps| && ps[chain[k] - 1].parent == Num(chain[k + 1])
  }

  // ---- Handle lifetimes ------------------------------------------------------------------------

  datatype Stage = Announced | Exited | Released

  function StagesOf(e: Event, id: u64): seq<Stage> {
    match e
    case ProcessObserved(i) => if i == id then [Announced] else []
    case ExitObserved(p, _, _, _, _, _, _) => if p == Num(id) then [Exited] else []
    case HandleReleased(i) => if i == id then [Released] else []
    case _ => []
  }

  /** What the event stream says about one id, in order. */
  function Life(events: seq<Event>, id: u64): seq<Stage> {
    if events == [] then []
    else Life(events[..|events| - 1], id) + StagesOf(events[|events| - 1], id)
  }

  lemma LifeSnoc(es: seq<Event>, e: Event, id: u64)
    ensures Life(es + [e], id) == Life(es, id) + StagesOf(e, id)
  {
    assert (es + [e])[..|es|] == es;
  }

  lemma LifeOfNone(id: u64)
    ensures Life([], id) == []
  {
  }

  lemma {:induction false} LifeAppend(es: seq<Event>, fs: seq<Event>, id: u64)
    ensures Life(es + fs, id) == Life(es, id) + Life(fs, id)
  {
    hide Life, StagesOf;
    if fs == [] {
      LifeOfNone(id);
      assert es + fs == es && Life(es, id) + [] == Life(es, id);
    } else {
      var init, last := fs[..|fs| - 1], fs[|fs| - 1];
      LifeAppend(es, init, id);
      LifeSnoc(es + init, last, id);
      LifeSnoc(init, last, id);
      assert es + fs == es + init + [last] && fs == init + [last];
      Regroup(Life(es, id), Life(init, id), StagesOf(last, id));
    }
  }

  lemma Regroup(a: seq<Stage>, b: seq<Stage>, c: seq<Stage>)
    ensures a + b + c == a + (b + c)
  {
  }

  lemma {:induction false} SilentLife(es: seq<Event>, id: u64)
    requires forall e | e in es :: StagesOf(e, id) == []
    ensures Life(es, id) == []
  {
    if es != [] {
      var init := es[..|es| - 1];
      assert forall e | e in init :: e in es;
      assert es[|es| - 1] in es;
      SilentLife(init, id);
    }
  }

  const WHOLE_LIFE: seq<Stage> := [Announced, Exited, Released]

  /** A retained or lost handle has only been announced; any other id is unannounced or fully released. */
  predicate LifeAt(events: seq<Event>, id: u64, retained: map<u32, u64>, lost: set<u64>) {
    if id in retained.Values || id in lost then Life(events, id) == [Announced]
    else Life(events, id) == [] || Life(events, id) == WHOLE_LIFE
  }

  ghost predicate LifeInv(st: State) {
    var events := EventsOf(st.sent);
    && (forall id: u64 :: LifeAt(events, id, st.retained, st.lost))
    && (forall id: u64 | id < 2 || id >= st.next :: Life(events, id) == [])
    && (forall id | id in st.lost :: id !in st.retained.Values)
  }

  lemma {:induction false} DeclaredSilent(rows: seq<Counted>, n: nat, o: u64)
    requires n <= |rows|
    ensures forall e | e in RowDeclarations(rows, n, o) :: e.MetricUnavailable?
  {
    if n > 0 {
      DeclaredSilent(rows, n - 1, o);
    }
  }

  lemma DeclaredKinds(t: Taken, o: u64)
    ensures forall e | e in Declared(t, o) :: e.MetricUnavailable?
  {
    DeclaredSilent(t.rows, |t.rows|, o);
  }

  lemma LifeOfOne(e: Event, id: u64)
    ensures Life([e], id) == StagesOf(e, id)
  {
    assert [e][..0] == [];
  }

  lemma LifeOfTwo(e: Event, f: Event, id: u64)
    ensures Life([e, f], id) == StagesOf(e, id) + StagesOf(f, id)
  {
    assert [e, f][..1] == [e];
    LifeOfOne(e, id);
  }

  /** What one step adds to the life of an id. */
  lemma StepLife(z: Setup, st: State, step: Step, id: u64)
    requires Legal(z, st, step)
    ensures Life(EventsOf(After(z, st, step).sent), id) == Life(EventsOf(st.sent), id) +
            (if step.Meet? && step.opening.Opened? && CanRetain(z, st) && id == st.next then [Announced]
             else if step.Finish? && id == st.retained[step.pid] then [Exited, Released]
             else [])
  {
    hide After, StepEvents, LifeAt, CanRetain, Life, EventsOf;
    StepStreams(z, st, step);
    LifeAppend(EventsOf(st.sent), StepEvents(z, st, step), id);
    StepEventsLife(z, st, step, id);
  }

  lemma StepEventsLife(z: Setup, st: State, step: Step, id: u64)
    requires Legal(z, st, step)
    ensures Life(StepEvents(z, st, step), id) ==
            if step.Meet? && step.opening.Opened? && CanRetain(z, st) && id == st.next then [Announced]
            else if step.Finish? && id == st.retained[step.pid] then [Exited, Released]
            else []
  {
    hide Declared, GapSince, RowsLegal, CanRetain, MeetEvents, Life;
    match step {
      case Forget(_) =>
        SilentLife([], id);
      case Meet(_, _, opening) =>
        MeetLife(z, st, opening, id);
      case Finish(pid, code, m) =>
        LifeOfTwo(ExitOf(st.retained[pid], code, m), HandleReleased(st.retained[pid]), id);
      case Take(t) =>
        DeclaredKinds(t, |st.taken|);
        SilentLife(Declared(t, |st.taken|), id);
    }
  }

  lemma MeetLife(z: Setup, st: State, opening: Opening, id: u64)
    ensures Life(MeetEvents(z, st, opening), id) ==
            if opening.Opened? && CanRetain(z, st) && id == st.next then [Announced] else []
  {
    LifeOfOne(CollectorDegradation(false), id);
    LifeOfOne(CollectorDegradation(true), id);
    LifeOfOne(ProcessObserved(st.next), id);
  }

  lemma MeetKeepsLife(z: Setup, st: State, step: Step, id: u64)
    requires IdentityInv(z, st) && LifeInv(st) && Legal(z, st, step) && step.Meet?
    ensures var st' := After(z, st, step); LifeAt(EventsOf(st'.sent), id, st'.retained, st'.lost)
  {
    hide StepMessages, StepEvents, Life, Identities, KnownOk;
    var st' := After(z, st, step);
    StepLife(z, st, step, id);
    assert LifeAt(EventsOf(st.sent), id, st.retained, st.lost);
    if step.opening.Opened? && CanRetain(z, st) {
      ValuesAfterInsert(ProcessesOf(st.sent), st.retained, step.pid, st.next, id);
    }
  }

  lemma ValuesAfterInsert(ps: seq<ProcessRecord>, m: map<u32, u64>, pid: u32, id: u64, x: u64)
    requires RetainedOk(ps, m)
    ensures x in m[pid := id].Values <==> x == id || (x in m.Values && !(pid in m && m[pid] == x))
  {
    var n := m[pid := id];
    if x in m.Values && !(pid in m && m[pid] == x) {
      var q :| q in m && m[q] == x;
      assert n[q] == x;
    }
    if x in n.Values && x != id {
      var q :| q in n && n[q] == x;
      assert m[q] == x;
      if pid in m && m[pid] == x {
        RetainedDistinct(ps, m, pid, q);
      }
    }
    assert n[pid] == id;
  }

  lemma ValuesAfterRemove(ps: seq<ProcessRecord>, m: map<u32, u64>, pid: u32, x: u64)
    requires RetainedOk(ps, m) && pid in m
    ensures x in (m - {pid}).Values <==> x in m.Values && x != m[pid]
  {
    var n := m - {pid};
    if x in m.Values && x != m[pid] {
      var q :| q in m && m[q] == x;
      assert n[q] == x;
    }
    if x in n.Values {
      var q :| q in n && n[q] == x;
      assert m[q] == x;
      if x == m[pid] {
        RetainedDistinct(ps, m, pid, q);
      }
    }
  }

  lemma FinishKeepsLife(z: Setup, st: State, step: Step, id: u64)
    requires IdentityInv(z, st) && LifeInv(st) && Legal(z, st, step) && step.Finish?
    ensures var st' := After(z, st, step); LifeAt(EventsOf(st'.sent), id, st'.retained, st'.lost)
  {
    hide StepMessages, StepEvents, Life, Identities, KnownOk;
    StepLife(z, st, step, id);
    assert LifeAt(EventsOf(st.sent), id, st.retained, st.lost);
    ValuesAfterRemove(ProcessesOf(st.sent), st.retained, step.pid, id);
  }

  lemma QuietKeepsLife(z: Setup, st: State, step: Step, id: u64)
    requires LifeInv(st) && Legal(z, st, step) && !step.Meet? && !step.Finish?
    ensures var st' := After(z, st, step); LifeAt(EventsOf(st'.sent), id, st'.retained, st'.lost)
  {
    hide StepMessages, StepEvents, Life;
    StepLife(z, st, step, id);
    assert LifeAt(EventsOf(st.sent), id, st.retained, st.lost);
  }

  lemma LostStaysApart(z: Setup, st: State, step: Step, id: u64)
    requires IdentityInv(z, st) && LifeInv(st) && Legal(z, st, step)
    requires id in After(z, st, step).lost
    ensures id !in After(z, st, step).retained.Values
  {
    hide StepMessages, StepEvents, Identities, KnownOk;
    var ps := ProcessesOf(st.sent);
    if step.Meet? {
      ValuesAfterInsert(ps, st.retained, step.pid, st.next, id);
      LostWasAnnounced(z, st, id);
    } else if step.Finish? {
      ValuesAfterRemove(ps, st.retained, step.pid, id);
    }
  }

  lemma LostWasAnnounced(z: Setup, st: State, id: u64)
    requires IdentityInv(z, st) && LifeInv(st) && (id in st.lost || id in st.retained.Values)
    ensures 2 <= id < st.next
  {
    assert LifeAt(EventsOf(st.sent), id, st.retained, st.lost);
  }

  lemma StepKeepsLife(z: Setup, st: State, step: Step)
    requires IdentityInv(z, st) && LifeInv(st) && Legal(z, st, step)
    ensures LifeInv(After(z, st, step))
  {
    hide StepMessages, StepEvents, Identities, KnownOk, LifeAt, Life;
    var st' := After(z, st, step);
    forall id: u64
      ensures LifeAt(EventsOf(st'.sent), id, st'.retained, st'.lost)
    {
      if step.Meet? {
        MeetKeepsLife(z, st, step, id);
      } else if step.Finish? {
        FinishKeepsLife(z, st, step, id);
      } else {
        QuietKeepsLife(z, st, step, id);
      }
    }
    forall id: u64 | id < 2 || id >= st'.next
      ensures Life(EventsOf(st'.sent), id) == []
    {
      StepLife(z, st, step, id);
      if step.Finish? {
        LostWasAnnounced(z, st, st.retained[step.pid]);
      }
    }
    forall id | id in st'.lost
      ensures id !in st'.retained.Values
    {
      LostStaysApart(z, st, step, id);
    }
  }

  lemma StartLife(z: Setup)
    ensures LifeInv(Start(z))
  {
    hide EventsOf, Prologue, Life;
    StartStreams(z);
    forall id: u64
      ensures Life(EventsOf(Start(z).sent), id) == []
    {
      SilentLife(EventsOf(Start(z).sent), id);
    }
  }

  lemma {:induction false} RunKeepsLife(z: Setup, steps: seq<Step>)
    requires Exec(z, steps).Some?
    ensures LifeInv(Exec(z, steps).value)
  {
    hide Legal, After, IdentityInv, LifeInv;
    if steps == [] {
      StartLife(z);
    } else {
      var init := steps[..|steps| - 1];
      RunKeepsLife(z, init);
      RunKeepsIdentity(z, init);
      StepKeepsLife(z, Exec(z, init).value, steps[|steps| - 1]);
    }
  }

  lemma {:induction false} LostIffRelisted(z: Setup, steps: seq<Step>)
    requires Exec(z, steps).Some?
    ensures Exec(z, steps).value.lost == {} <==> forall k | 0 <= k < |steps| :: !RelistsAt(z, steps, k)
  {
    hide After, Legal, Relists;
    if steps != [] {
      var n := |steps| - 1;
      var init := steps[..n];
      LostIffRelisted(z, init);
      assert RelistsAt(z, steps, n) <==> Relists(z, Exec(z, init).value, steps[n]);
      LostStep(z, Exec(z, init).value, steps[n]);
      forall k | 0 <= k < n
        ensures RelistsAt(z, steps, k) <==> RelistsAt(z, init, k)
      {
        assert steps[..k] == init[..k];
      }
    }
  }

  lemma LostStep(z: Setup, st: State, step: Step)
    requires Legal(z, st, step)
    ensures After(z, st, step).lost == {} <==> st.lost == {} && !Relists(z, st, step)
  {
    hide StepMessages;
    if Relists(z, st, step) {
      assert st.retained[step.pid] in After(z, st, step).lost;
    }
  }

  ghost predicate Conserved(events: seq<Event>) {
    forall id: u64 | Announced in Life(events, id) :: Life(events, id) == WHOLE_LIFE
  }

  /**
   * Handle conservation, exactly: when a run has released every handle it still retained, each
   * announced id was announced once, then exited once, then was released once, if and only if no step
   * retained a process under a PID whose earlier handle was still retained.
   */
  lemma HandlesConserved(z: Setup, steps: seq<Step>)
    requires Exec(z, steps).Some? && Exec(z, steps).value.retained == map[]
    ensures Conserved(EventsOf(Exec(z, steps).value.sent)) <==> forall k | 0 <= k < |steps| :: !RelistsAt(z, steps, k)
  {
    hide Exec, Life;
    var st := Exec(z, steps).value;
    var events := EventsOf(st.sent);
    RunKeepsLife(z, steps);
    LostIffRelisted(z, steps);
    if st.lost != {} {
      var id :| id in st.lost;
      assert LifeAt(events, id, st.retained, st.lost);
      assert Announced in Life(events, id);
    } else {
      forall id: u64 | Announced in Life(events, id)
        ensures Life(events, id) == WHOLE_LIFE
      {
        assert LifeAt(events, id, st.retained, st.lost);
      }
    }
  }

  /** Whatever happens, no id is released that was not announced and seen to exit, and none twice. */
  lemma OnlyAnnouncedReleased(z: Setup, steps: seq<Step>, id: u64)
    requires Exec(z, steps).Some? && Released in Life(EventsOf(Exec(z, steps).value.sent), id)
    ensures Life(EventsOf(Exec(z, steps).value.sent), id) == WHOLE_LIFE && id >= 2
  {
    hide Exec, Life;
    var st := Exec(z, steps).value;
    RunKeepsLife(z, steps);
    assert LifeAt(EventsOf(st.sent), id, st.retained, st.lost);
  }
}
