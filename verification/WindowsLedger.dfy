/** Every missing thread count of a Windows run is declared once, before its sample, and nothing else is declared. */
module WindowsLedger {
  import opened Prelude
  import opened Records
  import opened SummarySpec
  import opened Journal
  import opened WindowsRun
  import opened WindowsIdentity

  // ---- The declarations of one sample ----------------------------------------------------------

  predicate Missing(t: Taken, j: int) {
    0 <= j < |t.rows| && t.rows[j].counters.threads.None?
  }

  predicate DistinctRows(rows: seq<Counted>) {
    forall j, k | 0 <= j < k < |rows| :: rows[j].id != rows[k].id
  }

  /** Row declarations explain one metric of one sample, and only for rows among the first `n`. */
  lemma {:induction false} RowsExplainOnlyThreads(rows: seq<Counted>, n: nat, o: u64, m: Metric, q: int, p: Option<u64>)
    requires n <= |rows|
    requires m != PROCESS_THREADS || q != o || forall j | 0 <= j < n :: p != Some(rows[j].id)
    ensures Explanations(RowDeclarations(rows, n, o), m, q, p) == 0
  {
    if n > 0 {
      RowsExplainOnlyThreads(rows, n - 1, o, m, q, p);
      var e := RowDeclaration(rows[n - 1].id, o);
      CountSnoc(RowDeclarations(rows, n - 1, o), e, Explaining(m, q, p));
      assert RowDeclarations(rows, n - 1, o) + [] == RowDeclarations(rows, n - 1, o);
    }
  }

  /** With distinct rows, row `j` is explained once if its thread count is missing and not at all otherwise. */
  lemma {:induction false} RowExplained(rows: seq<Counted>, n: nat, o: u64, j: nat)
    requires j < n <= |rows| && DistinctRows(rows)
    ensures Explanations(RowDeclarations(rows, n, o), PROCESS_THREADS, o, Some(rows[j].id)) ==
            Bit(rows[j].counters.threads.None?)
  {
    var x := Explaining(PROCESS_THREADS, o, Some(rows[j].id));
    CountSnoc(RowDeclarations(rows, n - 1, o), RowDeclaration(rows[n - 1].id, o), x);
    assert RowDeclarations(rows, n - 1, o) + [] == RowDeclarations(rows, n - 1, o);
    if j == n - 1 {
      RowsExplainOnlyThreads(rows, n - 1, o, PROCESS_THREADS, o, Some(rows[j].id));
    } else {
      RowExplained(rows, n - 1, o, j);
    }
  }

  lemma ProbeCount(t: Taken, o: u64, m: Metric, q: int, p: Option<u64>)
    ensures Explanations(if t.probe.threads.None? then [ProbeDeclaration(o)] else [], m, q, p) ==
            Bit(t.probe.threads.None? && m == PROBE_THREADS && q == o)
  {
    CountSnoc([], ProbeDeclaration(o), Explaining(m, q, p));
    assert [] + [ProbeDeclaration(o)] == [ProbeDeclaration(o)];
  }

  lemma DeclaredSplits(t: Taken, o: u64, m: Metric, q: int, p: Option<u64>)
    ensures Explanations(Declared(t, o), m, q, p) ==
            Explanations(RowDeclarations(t.rows, |t.rows|, o), m, q, p) +
            Bit(t.probe.threads.None? && m == PROBE_THREADS && q == o)
  {
    ProbeCount(t, o, m, q, p);
    CountAppend(RowDeclarations(t.rows, |t.rows|, o), if t.probe.threads.None? then [ProbeDeclaration(o)] else [],
                Explaining(m, q, p));
  }

  /** Declarations for sample `o` say nothing about another sample. */
  lemma DeclaredElsewhere(t: Taken, o: u64, m: Metric, q: int, p: Option<u64>)
    requires q != o
    ensures Explanations(Declared(t, o), m, q, p) == 0
  {
    DeclaredSplits(t, o, m, q, p);
    RowsExplainOnlyThreads(t.rows, |t.rows|, o, m, q, p);
  }

  // ---- The declarations of a run ---------------------------------------------------------------

  /** The declarations owed for the first `n` samples. */
  function Due(taken: seq<Taken>, n: nat): seq<Event>
    requires n <= |taken| <= U64_MAX
  {
    if n == 0 then [] else Due(taken, n - 1) + Declared(taken[n - 1], n - 1)
  }

  function DeclarationsIn(events: seq<Event>): seq<Event> {
    if events == [] then []
    else
      var last := events[|events| - 1];
      DeclarationsIn(events[..|events| - 1]) + (if last.MetricUnavailable? then [last] else [])
  }

  lemma {:induction false} DeclarationsAppend(es: seq<Event>, fs: seq<Event>)
    ensures DeclarationsIn(es + fs) == DeclarationsIn(es) + DeclarationsIn(fs)
  {
    if fs == [] {
      assert es + fs == es;
    } else {
      var init, last := fs[..|fs| - 1], fs[|fs| - 1];
      DeclarationsAppend(es, init);
      assert (es + fs)[..|es + fs| - 1] == es + init;
      assert (es + fs)[|es + fs| - 1] == last;
    }
  }

  lemma {:induction false} OnlyDeclarations(es: seq<Event>)
    requires forall e | e in es :: e.MetricUnavailable?
    ensures DeclarationsIn(es) == es
  {
    if es != [] {
      var init := es[..|es| - 1];
      assert forall e | e in init :: e in es;
      assert es[|es| - 1] in es;
      OnlyDeclarations(init);
    }
  }

  lemma {:induction false} NoDeclarations(es: seq<Event>)
    requires forall e | e in es :: !e.MetricUnavailable?
    ensures DeclarationsIn(es) == []
  {
    if es != [] {
      var init := es[..|es| - 1];
      assert forall e | e in init :: e in es;
      assert es[|es| - 1] in es;
      NoDeclarations(init);
    }
  }

  lemma {:induction false} ExplanationsAreDeclarations(es: seq<Event>, m: Metric, q: int, p: Option<u64>)
    ensures Explanations(DeclarationsIn(es), m, q, p) == Explanations(es, m, q, p)
  {
    if es != [] {
      var init, last := es[..|es| - 1], es[|es| - 1];
      ExplanationsAreDeclarations(init, m, q, p);
      CountSnoc(DeclarationsIn(init), last, Explaining(m, q, p));
      assert DeclarationsIn(init) + [] == DeclarationsIn(init);
    }
  }

  lemma {:induction false} DeclarationMember(es: seq<Event>, e: Event)
    ensures e in DeclarationsIn(es) <==> e in es && e.MetricUnavailable?
  {
    if es != [] {
      var init, last := es[..|es| - 1], es[|es| - 1];
      DeclarationMember(init, e);
      assert es == init + [last];
    }
  }

  /** Sample `q` is explained by its own declarations and by no others. */
  lemma {:induction false} DueExplains(taken: seq<Taken>, n: nat, m: Metric, q: int, p: Option<u64>)
    requires n <= |taken| <= U64_MAX
    ensures Explanations(Due(taken, n), m, q, p) ==
            if 0 <= q < n then Explanations(Declared(taken[q], q), m, q, p) else 0
  {
    hide Declared;
    if n > 0 {
      DueExplains(taken, n - 1, m, q, p);
      CountAppend(Due(taken, n - 1), Declared(taken[n - 1], n - 1), Explaining(m, q, p));
      if q != n - 1 {
        DeclaredElsewhere(taken[n - 1], n - 1, m, q, p);
      }
    }
  }

  lemma {:induction false} DuePrefix(taken: seq<Taken>, more: seq<Taken>, n: nat)
    requires n <= |taken| && |taken + more| <= U64_MAX
    ensures Due(taken + more, n) == Due(taken, n)
  {
    if n > 0 {
      DuePrefix(taken, more, n - 1);
    }
  }

  lemma {:induction false} DueMember(taken: seq<Taken>, n: nat, e: Event)
    requires n <= |taken| <= U64_MAX
    ensures e in Due(taken, n) <==> exists o :: 0 <= o < n && e in Declared(taken[o], o)
  {
    hide Declared;
    if n > 0 {
      DueMember(taken, n - 1, e);
    }
  }

  lemma {:induction false} RowDeclarationMember(rows: seq<Counted>, n: nat, o: u64, e: Event)
    requires n <= |rows|
    ensures e in RowDeclarations(rows, n, o) <==>
            exists j :: 0 <= j < n && rows[j].counters.threads.None? && e == RowDeclaration(rows[j].id, o)
  {
    hide RowDeclaration;
    if n > 0 {
      RowDeclarationMember(rows, n - 1, o, e);
    }
  }

  // ---- Cells -----------------------------------------------------------------------------------

  lemma ProcessCell(m: Measured, f: Field)
    requires !IsSystemField(f)
    ensures MetricValue(f, Get(ProcessCells(m), f)).Ok?
    ensures MetricValue(f, Get(ProcessCells(m), f)).value.None? <==> f.ThreadCount? && m.threads.None?
    ensures Get(ProcessCells(m), f).Absent? <==> f.ThreadCount? && m.threads.None?
  {
  }

  lemma ProbeCell(m: Measured, f: Field)
    requires !IsSystemField(f) && !IsProcessOnlyField(f)
    ensures MetricValue(f, Get(ProbeCells(m), f)).Ok?
    ensures MetricValue(f, Get(ProbeCells(m), f)).value.None? <==> f.ThreadCount? && m.threads.None?
    ensures Get(ProbeCells(m), f).Absent? <==> f.ThreadCount? && m.threads.None?
  {
  }

  lemma SystemCell(c: SystemCounters, f: Field)
    requires IsSystemField(f)
    ensures MetricValue(f, Get(SystemCells(c), f)).Ok? && MetricValue(f, Get(SystemCells(c), f)).value.Some?
    ensures !Get(SystemCells(c), f).Absent?
  {
  }

  predicate MissingCell(t: Taken, m: Metric, j: int) {
    (m == PROCESS_THREADS && Missing(t, j)) || (m == PROBE_THREADS && t.probe.threads.None?)
  }

  lemma TakenCell(t: Taken, m: Metric, j: int)
    requires Known(m) && 0 <= j < ObsCount(SampleOf(t), m)
    ensures MetricValue(m.field, ObsLeaf(SampleOf(t), m, j)).Ok?
    ensures MetricValue(m.field, ObsLeaf(SampleOf(t), m, j)).value.None? <==> MissingCell(t, m, j)
    ensures Omitted(SampleOf(t), m, j) <==> MissingCell(t, m, j)
    ensures ObsProcess(SampleOf(t), m, j) == if m.domain.ProcessDomain? then Some(t.rows[j].id) else None
  {
    hide ProcessCells, ProbeCells, SystemCells, MetricValue, Total;
    match m.domain {
      case ProcessDomain => ProcessCell(t.rows[j].counters, m.field);
      case ProbeDomain => ProbeCell(t.probe, m.field);
      case SystemDomain => SystemCell(t.system, m.field);
    }
  }

  lemma CellExplained(t: Taken, o: u64, m: Metric, j: int)
    requires DistinctRows(t.rows) && Known(m) && 0 <= j < ObsCount(SampleOf(t), m)
    ensures Explanations(Declared(t, o), m, o, ObsProcess(SampleOf(t), m, j)) == Bit(MissingCell(t, m, j))
  {
    hide RowDeclarations, Explanations, Declared, Total, ProcessCells, ProbeCells, SystemCells;
    TakenCell(t, m, j);
    var p := ObsProcess(SampleOf(t), m, j);
    DeclaredSplits(t, o, m, o, p);
    if m == PROCESS_THREADS {
      RowExplained(t.rows, |t.rows|, o, j);
    } else {
      RowsExplainOnlyThreads(t.rows, |t.rows|, o, m, o, p);
    }
  }

  /** With exactly the owed declarations before it, a sample is fully accounted for. */
  lemma TakenIsAccounted(taken: seq<Taken>, n: nat, events: seq<Event>, o: nat)
    requires o < n <= |taken| <= U64_MAX && DistinctRows(taken[o].rows)
    requires DeclarationsIn(events) == Due(taken, n)
    ensures AvailabilityOk(events, SampleOf(taken[o]), o)
  {
    hide Due, Declared, DeclarationsIn, Explanations, MetricValue, Total, ProcessCells, ProbeCells, SystemCells;
    var s := SampleOf(taken[o]);
    forall m, j | Known(m) && 0 <= j < ObsCount(s, m)
      ensures CellOk(events, s, o, m, j)
    {
      var p := ObsProcess(s, m, j);
      ExplanationsAreDeclarations(events, m, o, p);
      DueExplains(taken, n, m, o, p);
      CellExplained(taken[o], o, m, j);
      TakenCell(taken[o], m, j);
    }
  }

  // ---- The invariant ---------------------------------------------------------------------------

  predicate RowsFit(t: Taken, next: u64) {
    var rows := t.rows;
    && rows != [] && rows[0].id == 1 && DistinctRows(rows)
    && forall j | 0 <= j < |rows| :: 1 <= rows[j].id < next
  }

  predicate GapAt(taken: seq<Taken>, o: int)
    requires 0 <= o < |taken|
  {
    taken[o].gap == GapSince(PreviousOf(taken[..o]), taken[o].monotonic)
  }

  predicate SamplesAre(samples: seq<Sample>, taken: seq<Taken>) {
    |samples| == |taken| && forall o | 0 <= o < |taken| :: samples[o] == SampleOf(taken[o])
  }

  predicate TakenOk(z: Setup, taken: seq<Taken>, next: u64) {
    && |taken| <= U64_MAX
    && forall o | 0 <= o < |taken| ::
         RowsFit(taken[o], next) && GapAt(taken, o) && (taken[o].job.Some? <==> z.launched)
  }

  ghost predicate LedgerInv(z: Setup, st: State) {
    && TakenOk(z, st.taken, st.next)
    && SamplesAre(SamplesOf(st.sent), st.taken)
    && DeclarationsIn(EventsOf(st.sent)) == Due(st.taken, |st.taken|)
    && WriteAhead(st.sent)
  }

  lemma StartLedger(z: Setup)
    ensures LedgerInv(z, Start(z))
  {
    StartStreams(z);
    NoDeclarations(EventsOf(Start(z).sent));
  }

  lemma StepEventKinds(z: Setup, st: State, step: Step)
    requires Legal(z, st, step)
    ensures DeclarationsIn(StepEvents(z, st, step)) == if step.Take? then Declared(step.sample, |st.taken|) else []
  {
    if step.Take? {
      DeclaredKinds(step.sample, |st.taken|);
      OnlyDeclarations(Declared(step.sample, |st.taken|));
    } else {
      NoDeclarations(StepEvents(z, st, step));
    }
  }

  lemma DeclaredTimely(t: Taken, o: u64)
    ensures forall e | e in Declared(t, o) :: Timely(e, o)
  {
    forall e | e in Declared(t, o)
      ensures Timely(e, o)
    {
      RowDeclarationMember(t.rows, |t.rows|, o, e);
    }
  }

  lemma OthersTimely(es: seq<Event>, o: nat)
    requires forall e | e in es :: !e.MetricUnavailable?
    ensures forall e | e in es :: Timely(e, o)
  {
  }

  lemma RowsOfTake(z: Setup, st: State, t: Taken)
    requires IdentityInv(z, st) && Legal(z, st, Take(t))
    ensures RowsFit(t, st.next)
  {
    forall j | 0 <= j < |t.rows|
      ensures 1 <= t.rows[j].id < st.next
      ensures j > 0 ==> t.rows[j].id >= 2
    {
      if j > 0 {
        var p :| p in st.retained && st.retained[p] == t.rows[j].id;
        assert Names(ProcessesOf(st.sent), st.retained[p], p);
      }
    }
  }

  lemma GapStays(taken: seq<Taken>, t: Taken, o: nat)
    requires o < |taken| && GapAt(taken, o)
    ensures GapAt(taken + [t], o) && (taken + [t])[o] == taken[o]
  {
    assert (taken + [t])[..o] == taken[..o];
  }

  lemma LastGap(st: State, t: Taken)
    requires t.gap == GapSince(PreviousOf(st.taken), t.monotonic)
    ensures GapAt(st.taken + [t], |st.taken|)
  {
    assert (st.taken + [t])[..|st.taken|] == st.taken;
  }

  lemma TakenGrows(z: Setup, st: State, t: Taken)
    requires TakenOk(z, st.taken, st.next) && |st.taken| < U64_MAX
    requires RowsFit(t, st.next) && t.gap == GapSince(PreviousOf(st.taken), t.monotonic)
    requires (t.job.Some? <==> z.launched)
    ensures TakenOk(z, st.taken + [t], st.next)
  {
    hide RowsFit, GapAt, GapSince;
    var taken := st.taken + [t];
    LastGap(st, t);
    forall o | 0 <= o < |taken|
      ensures RowsFit(taken[o], st.next) && GapAt(taken, o) && (taken[o].job.Some? <==> z.launched)
    {
      if o < |st.taken| {
        GapStays(st.taken, t, o);
      }
    }
  }

  lemma MoreIds(z: Setup, taken: seq<Taken>, next: u64, more: u64)
    requires TakenOk(z, taken, next) && next <= more
    ensures TakenOk(z, taken, more)
  {
    forall o | 0 <= o < |taken|
      ensures RowsFit(taken[o], more)
    {
      assert RowsFit(taken[o], next);
    }
  }

  lemma StepKeepsTaken(z: Setup, st: State, step: Step)
    requires IdentityInv(z, st) && TakenOk(z, st.taken, st.next) && Legal(z, st, step)
    ensures TakenOk(z, After(z, st, step).taken, After(z, st, step).next)
  {
    hide StepMessages, IdentityInv, TakenOk, RowsFit, RowsLegal, GapSince;
    if step.Take? {
      RowsOfTake(z, st, step.sample);
      TakenGrows(z, st, step.sample);
    } else {
      MoreIds(z, st.taken, st.next, After(z, st, step).next);
    }
  }

  lemma DueGrows(taken: seq<Taken>, t: Taken)
    requires |taken| < U64_MAX
    ensures Due(taken + [t], |taken| + 1) == Due(taken, |taken|) + Declared(t, |taken|)
  {
    hide Declared;
    DuePrefix(taken, [t], |taken|);
  }

  lemma TakenAfter(z: Setup, st: State, step: Step)
    requires Legal(z, st, step)
    ensures After(z, st, step).taken == if step.Take? then st.taken + [step.sample] else st.taken
    ensures step.Take? ==> |st.taken| < U64_MAX
  {
  }

  lemma StepKeepsDue(z: Setup, st: State, step: Step)
    requires |st.taken| <= U64_MAX && Legal(z, st, step)
    requires DeclarationsIn(EventsOf(st.sent)) == Due(st.taken, |st.taken|)
    ensures |After(z, st, step).taken| == |st.taken| + (if step.Take? then 1 else 0) <= U64_MAX
    ensures DeclarationsIn(EventsOf(After(z, st, step).sent)) ==
            Due(After(z, st, step).taken, |After(z, st, step).taken|)
  {
    hide After, Legal, StepEvents, Declared, Due, DeclarationsIn, EventsOf;
    TakenAfter(z, st, step);
    StepStreams(z, st, step);
    DeclarationsAppend(EventsOf(st.sent), StepEvents(z, st, step));
    StepEventKinds(z, st, step);
    if step.Take? {
      DueGrows(st.taken, step.sample);
    }
  }

  lemma MeetIsQuiet(z: Setup, st: State, pid: u32, parent: u32, opening: Opening)
    requires WriteAhead(st.sent)
    ensures WriteAhead(st.sent + ([ProcessMessage(ChildRecord(z, st, pid, parent, opening))] +
                                  AsMessages(MeetEvents(z, st, opening))))
  {
    hide WriteAhead, ChildRecord;
    var p := ChildRecord(z, st, pid, parent, opening);
    var es := MeetEvents(z, st, opening);
    WriteAheadSnoc(st.sent, ProcessMessage(p));
    OthersTimely(es, |SamplesOf(st.sent + [ProcessMessage(p)])|);
    AppendDeclarations(st.sent + [ProcessMessage(p)], es);
    assert st.sent + [ProcessMessage(p)] + AsMessages(es) == st.sent + ([ProcessMessage(p)] + AsMessages(es));
  }

  lemma TakeIsAhead(z: Setup, st: State, t: Taken)
    requires LedgerInv(z, st) && IdentityInv(z, st) && Legal(z, st, Take(t))
    ensures WriteAhead(st.sent + EntryMessages(Entry(Declared(t, |st.taken|), SampleOf(t))))
  {
    hide WriteAhead, Declared, SampleOf, DeclarationsIn, Due, EntryMessages, IdentityInv, AvailabilityOk;
    var n := |st.taken|;
    var events := EventsOf(st.sent) + Declared(t, n);
    StepKeepsDue(z, st, Take(t));
    StepStreams(z, st, Take(t));
    RowsOfTake(z, st, t);
    TakenIsAccounted(st.taken + [t], n + 1, events, n);
    DeclaredTimely(t, n);
    EntryExtends(st.sent, Entry(Declared(t, n), SampleOf(t)));
  }

  lemma FinishIsQuiet(ms: seq<Message>, id: u64, code: u32, m: Measured)
    requires WriteAhead(ms)
    ensures WriteAhead(ms + AsMessages([ExitOf(id, code, m), HandleReleased(id)]))
  {
    hide WriteAhead;
    var es := [ExitOf(id, code, m), HandleReleased(id)];
    OthersTimely(es, |SamplesOf(ms)|);
    AppendDeclarations(ms, es);
  }

  /** Every step keeps the ledger: exactly the owed declarations, all written before their sample. */
  lemma StepKeepsLedger(z: Setup, st: State, step: Step)
    requires LedgerInv(z, st) && IdentityInv(z, st) && Legal(z, st, step)
    ensures LedgerInv(z, After(z, st, step))
  {
    hide WriteAhead, Due, DeclarationsIn, IdentityInv, EntryMessages, SampleOf, Declared, RowsLegal, GapSince,
      StepEvents, MeetEvents;
    StepKeepsTaken(z, st, step);
    StepKeepsDue(z, st, step);
    StepStreams(z, st, step);
    match step {
      case Forget(_) =>
        assert st.sent + [] == st.sent;
      case Meet(pid, parent, opening) =>
        MeetIsQuiet(z, st, pid, parent, opening);
      case Finish(pid, code, m) =>
        FinishIsQuiet(st.sent, st.retained[pid], code, m);
      case Take(t) =>
        TakeIsAhead(z, st, t);
    }
  }

  lemma {:induction false} RunKeepsLedger(z: Setup, steps: seq<Step>)
    requires Exec(z, steps).Some?
    ensures LedgerInv(z, Exec(z, steps).value)
  {
    hide Legal, After, IdentityInv, LedgerInv;
    if steps == [] {
      StartLedger(z);
    } else {
      var init := steps[..|steps| - 1];
      RunKeepsLedger(z, init);
      RunKeepsIdentity(z, init);
      StepKeepsLedger(z, Exec(z, init).value, steps[|steps| - 1]);
    }
  }
}
