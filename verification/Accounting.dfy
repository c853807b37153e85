/**
 * Laws of accepted v2 bundles: how omissions and declarations account for each other, what the
 * status says about the events, and that the order of events and process records is irrelevant.
 */
module Accounting {
  import opened Prelude
  import opened Records
  import opened SummarySpec

  ghost predicate AcceptedV2(b: Bundle) {
    Accepted(b) && IsV2(b)
  }

  lemma CellAccounted(b: Bundle, o: nat, m: Metric, j: nat)
    requires AcceptedV2(b) && o < |b.samples| && Known(m) && j < ObsCount(b.samples[o], m)
    ensures CellOk(b.events, b.samples[o], o, m, j)
    ensures Omitted(b.samples[o], m, j) <==>
            Explanations(b.events, m, o, ObsProcess(b.samples[o], m, j)) == 1
  {
    hide SumsOk, RowsOk, HeaderOk, DeclarationsOk, TerminalOk, ManifestOk, PointsOk, NothingIdle;
    assert SampleOk(b.samples[o], o, b.events, true);
  }

  /** Two declarations that explain the same omitted cell are one declaration. */
  lemma ExplanationIsUnique(b: Bundle, o: nat, m: Metric, j: nat, i: nat, k: nat)
    requires AcceptedV2(b) && o < |b.samples| && Omitted(b.samples[o], m, j)
    requires i < |b.events| && Explains(b.events[i], m, o, ObsProcess(b.samples[o], m, j))
    requires k < |b.events| && Explains(b.events[k], m, o, ObsProcess(b.samples[o], m, j))
    ensures i == k
  {
    CellAccounted(b, o, m, j);
    CountOneSame(b.events, Explaining(m, o, ObsProcess(b.samples[o], m, j)), i, k);
  }

  // ---- Status is a property of the events alone ------------------------------------------------

  lemma OmissionHasDeclaration(b: Bundle, o: nat, m: Metric, j: nat) returns (i: nat)
    requires AcceptedV2(b) && o < |b.samples| && Omitted(b.samples[o], m, j)
    ensures i < |b.events| && Explains(b.events[i], m, o, ObsProcess(b.samples[o], m, j))
  {
    CellAccounted(b, o, m, j);
    i := CountWitness(b.events, Explaining(m, o, ObsProcess(b.samples[o], m, j)));
  }

  lemma DeclarationHasOmission(b: Bundle, i: nat) returns (o: nat, j: nat)
    requires AcceptedV2(b) && i < |b.events| && b.events[i].MetricUnavailable?
    ensures o < |b.samples| && Accounts(b.events[i], b.samples, o, j)
  {
    assert ExplainsSomething(b.events[i], b.samples);
    var o', j' :| 0 <= o' < |b.samples| && Accounts(b.events[i], b.samples, o', j');
    o, j := o', j';
  }

  /** COMPLETE means exactly that no declaration was written. */
  lemma CompleteIffNoDeclarations(b: Bundle)
    requires AcceptedV2(b)
    ensures CompletenessOf(b) == Complete <==> forall e | e in b.events :: !e.MetricUnavailable?
  {
    if AnyOmission(b.samples, |b.samples|) {
      var o, m, j :| 0 <= o < |b.samples| && Omitted(b.samples[o], m, j);
      var i := OmissionHasDeclaration(b, o, m, j);
      assert b.events[i] in b.events;
    }
    if i :| 0 <= i < |b.events| && b.events[i].MetricUnavailable? {
      var o, j := DeclarationHasOmission(b, i);
      assert Omitted(b.samples[o], DeclOf(b.events[i]).metric, j);
    }
  }

  /** DEGRADED means exactly that retention degraded or that some declaration has an operational reason. */
  lemma DegradedIffOperationalEvent(b: Bundle)
    requires AcceptedV2(b)
    ensures ValidityOf(b) == Degraded <==>
            RetentionDegraded(b.events) ||
            exists e :: e in b.events && e.MetricUnavailable? && Operational(DeclOf(e).reason)
  {
    if i :| 0 <= i < |b.events| && b.events[i].MetricUnavailable? && Operational(DeclOf(b.events[i]).reason) {
      var o, j := DeclarationHasOmission(b, i);
      assert b.events[i] in b.events;
    }
  }

  // ---- Exact accounting of omissions -----------------------------------------------------------

  /** A RUN declaration is the only declaration on its metric, and every cell of the metric is absent. */
  lemma RunDeclarationIsExclusive(b: Bundle, i: nat)
    requires AcceptedV2(b) && i < |b.events| && b.events[i].MetricUnavailable?
    requires DeclOf(b.events[i]).subject.RunSubject?
    ensures forall k | 0 <= k < |b.events| && k != i && b.events[k].MetricUnavailable? ::
              DeclOf(b.events[k]).metric != DeclOf(b.events[i]).metric
    ensures forall o, j | 0 <= o < |b.samples| && 0 <= j < ObsCount(b.samples[o], DeclOf(b.events[i]).metric) ::
              Omitted(b.samples[o], DeclOf(b.events[i]).metric, j)
  {
    var m := DeclOf(b.events[i]).metric;
    forall k | 0 <= k < |b.events| && k != i && b.events[k].MetricUnavailable?
      ensures DeclOf(b.events[k]).metric != m
    {
      if DeclOf(b.events[k]).metric == m {
        var o, j := DeclarationHasOmission(b, k);
        ExplanationIsUnique(b, o, m, j, i, k);
      }
    }
    assert DeclarationOk(b.events[i], b.samples, b.processes);
    forall o, j | 0 <= o < |b.samples| && 0 <= j < ObsCount(b.samples[o], m)
      ensures Omitted(b.samples[o], m, j)
    {
      CellAccounted(b, o, m, j);
      CountAt(b.events, Explaining(m, o, ObsProcess(b.samples[o], m, j)), i);
    }
  }

  /** A metric cell of a run, named the way declarations name it. */
  datatype Cell = Cell(metric: Metric, ordinal: int, process: Option<u64>)

  predicate SampleScoped(e: Event) {
    e.MetricUnavailable? && !DeclOf(e).subject.RunSubject?
  }

  function ScopedDeclaration(): Event -> bool {
    (e: Event) => SampleScoped(e)
  }

  function CellOf(e: Event): Cell
    requires e.MetricUnavailable?
  {
    var d := DeclOf(e);
    Cell(d.metric, if d.sample.Some? then d.sample.value else -1, d.process)
  }

  predicate RunCovered(events: seq<Event>, m: Metric) {
    exists e :: e in events && e.MetricUnavailable? && DeclOf(e).subject.RunSubject? && DeclOf(e).metric == m
  }

  /** An absent cell that no RUN declaration covers. */
  ghost predicate OpenCell(b: Bundle, c: Cell) {
    && 0 <= c.ordinal < |b.samples|
    && !RunCovered(b.events, c.metric)
    && exists j ::
         Omitted(b.samples[c.ordinal], c.metric, j) && ObsProcess(b.samples[c.ordinal], c.metric, j) == c.process
  }

  function DeclaredCells(events: seq<Event>): set<Cell> {
    set e | e in events && SampleScoped(e) :: CellOf(e)
  }

  lemma ScopedShape(b: Bundle, i: nat)
    requires AcceptedV2(b) && i < |b.events| && SampleScoped(b.events[i])
    ensures DeclOf(b.events[i]).sample.Some?
    ensures DeclOf(b.events[i]).subject.SampleSubject? ==> !DeclOf(b.events[i]).metric.domain.ProcessDomain?
    ensures DeclOf(b.events[i]).subject.SampleSubject? || DeclOf(b.events[i]).subject.ProcessSampleSubject?
    ensures OpenCell(b, CellOf(b.events[i]))
  {
    var e := b.events[i];
    var d := DeclOf(e);
    assert DeclarationOk(e, b.samples, b.processes);
    var o, j := DeclarationHasOmission(b, i);
    if RunCovered(b.events, d.metric) {
      var r :| r in b.events && r.MetricUnavailable? && DeclOf(r).subject.RunSubject? && DeclOf(r).metric == d.metric;
      var k :| 0 <= k < |b.events| && b.events[k] == r;
      RunDeclarationIsExclusive(b, k);
    }
    assert ObsProcess(b.samples[o], d.metric, j) == d.process;
  }

  lemma OpenCellDeclared(b: Bundle, c: Cell) returns (i: nat)
    requires AcceptedV2(b) && OpenCell(b, c)
    ensures i < |b.events| && SampleScoped(b.events[i]) && CellOf(b.events[i]) == c
  {
    var j :| Omitted(b.samples[c.ordinal], c.metric, j) && ObsProcess(b.samples[c.ordinal], c.metric, j) == c.process;
    i := OmissionHasDeclaration(b, c.ordinal, c.metric, j);
    assert b.events[i] in b.events;
    assert SampleScoped(b.events[i]);
    ScopedShape(b, i);
  }

  /** The cells that sample-scoped declarations name are exactly the absent cells no RUN declaration covers. */
  lemma DeclaredCellsAreOpenCells(b: Bundle, c: Cell)
    requires AcceptedV2(b)
    ensures c in DeclaredCells(b.events) <==> OpenCell(b, c)
  {
    if c in DeclaredCells(b.events) {
      var e :| e in b.events && SampleScoped(e) && CellOf(e) == c;
      var i :| 0 <= i < |b.events| && b.events[i] == e;
      ScopedShape(b, i);
    }
    if OpenCell(b, c) {
      var i := OpenCellDeclared(b, c);
      assert b.events[i] in b.events;
    }
  }

  /** Different sample-scoped declarations name different cells. */
  lemma DeclaredCellsAreDistinct(b: Bundle, i: nat, k: nat)
    requires AcceptedV2(b) && i < |b.events| && k < |b.events|
    requires SampleScoped(b.events[i]) && SampleScoped(b.events[k])
    requires CellOf(b.events[i]) == CellOf(b.events[k])
    ensures i == k
  {
    ScopedShape(b, i);
    ScopedShape(b, k);
    var c := CellOf(b.events[i]);
    var j :| Omitted(b.samples[c.ordinal], c.metric, j) && ObsProcess(b.samples[c.ordinal], c.metric, j) == c.process;
    ExplanationIsUnique(b, c.ordinal, c.metric, j, i, k);
  }

  lemma {:induction false} DeclaredCellsCount(events: seq<Event>)
    requires forall i, k | 0 <= i < |events| && 0 <= k < |events| &&
                           SampleScoped(events[i]) && SampleScoped(events[k]) ::
               CellOf(events[i]) == CellOf(events[k]) ==> i == k
    ensures |DeclaredCells(events)| == Count(events, ScopedDeclaration())
  {
    if events != [] {
      var init, last := events[..|events| - 1], events[|events| - 1];
      DeclaredCellsCount(init);
      assert forall e :: e in events <==> e in init || e == last;
      if SampleScoped(last) {
        assert DeclaredCells(events) == DeclaredCells(init) + {CellOf(last)};
        assert CellOf(last) !in DeclaredCells(init);
      } else {
        assert DeclaredCells(events) == DeclaredCells(init);
      }
    }
  }

  /** Conservation: there are as many sample-scoped declarations as absent cells outside RUN declarations. */
  lemma OmissionsAreConserved(b: Bundle)
    requires AcceptedV2(b)
    ensures Count(b.events, ScopedDeclaration()) == |DeclaredCells(b.events)|
    ensures forall c: Cell :: c in DeclaredCells(b.events) <==> OpenCell(b, c)
    ensures forall e | e in b.events && e.MetricUnavailable? :: !DeclOf(e).subject.ProcessSubject?
  {
    forall i, k | 0 <= i < |b.events| && 0 <= k < |b.events| &&
                  SampleScoped(b.events[i]) && SampleScoped(b.events[k]) &&
                  CellOf(b.events[i]) == CellOf(b.events[k])
      ensures i == k
    {
      DeclaredCellsAreDistinct(b, i, k);
    }
    DeclaredCellsCount(b.events);
    forall c: Cell
      ensures c in DeclaredCells(b.events) <==> OpenCell(b, c)
    {
      DeclaredCellsAreOpenCells(b, c);
    }
    forall e | e in b.events && e.MetricUnavailable?
      ensures !DeclOf(e).subject.ProcessSubject?
    {
      var i :| 0 <= i < |b.events| && b.events[i] == e;
      assert DeclarationOk(b.events[i], b.samples, b.processes);
    }
  }
}
