/**
 * Determinism of the summary, and its independence of the order in which events and process
 * records were written.
 */
module Order {
  import opened Prelude
  import opened Records
  import opened SummarySpec

  /** The description fixes every field of the summary. */
  lemma SummaryIsDetermined(b: Bundle, s: Summary, t: Summary)
    requires Accepted(b) && Describes(b, s) && Describes(b, t)
    ensures s == t
  {
    PeakIsDetermined(b.samples, WorkingSetBytes, s.memory.peakWorkingSet, t.memory.peakWorkingSet);
    PeakIsDetermined(b.samples, PrivateBytes, s.memory.peakPrivate, t.memory.peakPrivate);
    TimingIsDetermined(b, s, t);
    PopulationIsDetermined(b, s, t);
    CpuIsDetermined(b.samples, s.timing.elapsedNs, s.cpu, t.cpu);
  }

  lemma PeakIsDetermined(samples: seq<Sample>, f: Field, p: Option<u64>, q: Option<u64>)
    requires PeakIs(samples, |samples|, f, p) && PeakIs(samples, |samples|, f, q)
    ensures p == q
  {
  }

  lemma TimingIsDetermined(b: Bundle, s: Summary, t: Summary)
    requires b.samples != [] && Describes(b, s) && Describes(b, t)
    ensures s.timing == t.timing
  {
  }

  lemma PopulationIsDetermined(b: Bundle, s: Summary, t: Summary)
    requires b.samples != [] && PopulationIs(b.samples, s.population) && PopulationIs(b.samples, t.population)
    ensures s.population == t.population
  {
    hide ObservedIds, RowsOf;
  }

  lemma PeakUtilizationIsDetermined(ps: seq<JobPoint>, p: Option<real>, q: Option<real>)
    requires PeakUtilizationIs(ps, p) && PeakUtilizationIs(ps, q)
    ensures p == q
  {
    if p.Some? {
      var k :| Advances(ps, k) && Utilization(ps, k) == p.value;
      if q.Some? {
        var i :| Advances(ps, i) && Utilization(ps, i) == q.value;
      }
    }
  }

  lemma CpuIsDetermined(samples: seq<Sample>, elapsed: int, c: Cpu, d: Cpu)
    requires CpuIs(samples, elapsed, c) && CpuIs(samples, elapsed, d)
    ensures c == d
  {
    PeakUtilizationIsDetermined(JobPoints(samples, |samples|), c.peak, d.peak);
  }

  // ---- Reordering ------------------------------------------------------------------------------

  /** `c` holds the same records as `b`; events and process records may be in another order. */
  ghost predicate Reordered(b: Bundle, c: Bundle) {
    && multiset(b.events) == multiset(c.events)
    && multiset(b.processes) == multiset(c.processes)
    && b.samples == c.samples && b.manifest == c.manifest
  }

  lemma SameMembers<T>(s: seq<T>, t: seq<T>)
    requires multiset(s) == multiset(t)
    ensures forall x :: x in s <==> x in t
  {
    forall x
      ensures x in s <==> x in t
    {
      assert x in s <==> x in multiset(s);
      assert x in t <==> x in multiset(t);
    }
  }

  lemma AuthorityReordered(ps: seq<ProcessRecord>, qs: seq<ProcessRecord>, id: u64)
    requires multiset(ps) == multiset(qs)
    ensures Authority(ps, id) <==> Authority(qs, id)
  {
    SameMembers(ps, qs);
    CountPermuted(ps, qs, HasId(id));
  }

  function Keyed(e: Event): Event -> bool {
    (f: Event) => SameKey(f, e)
  }

  /** No duplicate keys, said by counting. */
  lemma DistinctByCount(events: seq<Event>)
    ensures (forall i, j | 0 <= i < j < |events| :: !SameKey(events[i], events[j])) <==>
            forall e | e in events && e.MetricUnavailable? :: Count(events, Keyed(e)) == 1
  {
    if forall i, j | 0 <= i < j < |events| :: !SameKey(events[i], events[j]) {
      forall e | e in events && e.MetricUnavailable?
        ensures Count(events, Keyed(e)) == 1
      {
        var i :| 0 <= i < |events| && events[i] == e;
        CountAt(events, Keyed(e), i);
      }
    }
    if forall e | e in events && e.MetricUnavailable? :: Count(events, Keyed(e)) == 1 {
      forall i, j | 0 <= i < j < |events|
        ensures !SameKey(events[i], events[j])
      {
        if SameKey(events[i], events[j]) {
          assert events[j] in events;
          CountOneSame(events, Keyed(events[j]), i, j);
        }
      }
    }
  }

  lemma DeclarationsReordered(b: Bundle, c: Bundle)
    requires Reordered(b, c) && DeclarationsOk(b)
    ensures DeclarationsOk(c)
  {
    SameMembers(b.events, c.events);
    DistinctByCount(b.events);
    DistinctByCount(c.events);
    forall e: Event ensures Count(b.events, Keyed(e)) == Count(c.events, Keyed(e)) {
      CountPermuted(b.events, c.events, Keyed(e));
    }
    forall i | 0 <= i < |c.events| && c.events[i].MetricUnavailable?
      ensures DeclarationOk(c.events[i], c.samples, c.processes)
    {
      assert c.events[i] in c.events;
      var k :| 0 <= k < |b.events| && b.events[k] == c.events[i];
      var d := DeclOf(c.events[i]);
      if d.process.Some? {
        AuthorityReordered(b.processes, c.processes, d.process.value);
      }
    }
  }

  lemma SamplesReordered(b: Bundle, c: Bundle)
    requires Reordered(b, c) && IsV2(b) && AllSamplesOk(b.samples, |b.samples|, b.events, true)
    ensures AllSamplesOk(c.samples, |c.samples|, c.events, true)
  {
    forall m: Metric, o: int, p: Option<u64>
      ensures Explanations(b.events, m, o, p) == Explanations(c.events, m, o, p)
    {
      CountPermuted(b.events, c.events, Explaining(m, o, p));
    }
    forall o | 0 <= o < |c.samples|
      ensures SampleOk(c.samples[o], o, c.events, true)
    {
      assert SampleOk(b.samples[o], o, b.events, true);
      forall m, j | Known(m) && 0 <= j < ObsCount(c.samples[o], m)
        ensures CellOk(c.events, c.samples[o], o, m, j)
      {
        assert CellOk(b.events, b.samples[o], o, m, j);
      }
    }
  }

  lemma TerminalReordered(b: Bundle, c: Bundle)
    requires Reordered(b, c) && IsV2(b) && TerminalOk(b.events, b.processes, true)
    ensures TerminalOk(c.events, c.processes, true)
    ensures TerminalEvent(b.events, true) == TerminalEvent(c.events, true)
  {
    SameMembers(b.events, c.events);
    CountPermuted(b.events, c.events, RootExit());
    AuthorityReordered(b.processes, c.processes, 1);
    FirstMatchUnique(b.events, RootExit());
    FirstMatchUnique(c.events, RootExit());
    var s, t := TerminalEvent(b.events, true), TerminalEvent(c.events, true);
    if s.Some? {
      var i :| 0 <= i < |b.events| && b.events[i] == s.value;
      var k :| 0 <= k < |b.events| && b.events[k] == t.value;
      CountOneSame(b.events, RootExit(), i, k);
    }
  }

  lemma StatusReordered(b: Bundle, c: Bundle)
    requires Reordered(b, c)
    ensures ValidityOf(b) == ValidityOf(c) && CompletenessOf(b) == CompletenessOf(c)
    ensures RetentionDegraded(b.events) == RetentionDegraded(c.events)
  {
    SameMembers(b.events, c.events);
  }

  lemma AcceptanceReordered(b: Bundle, c: Bundle)
    requires Reordered(b, c) && IsV2(b) && Accepted(b)
    ensures Accepted(c)
  {
    hide DeclarationsOk, AllSamplesOk, TerminalOk, PointsOk, FinalJobReadable, Ordered, ValidityOf, CompletenessOf,
      RecordReadable, TerminalEvent, JobPoints;
    SameMembers(b.events, c.events);
    SameMembers(b.processes, c.processes);
    DeclarationsReordered(b, c);
    SamplesReordered(b, c);
    TerminalReordered(b, c);
    StatusReordered(b, c);
    forall i | 0 <= i < |c.processes|
      ensures RecordReadable(c.processes[i])
    {
      assert c.processes[i] in c.processes;
      var k :| 0 <= k < |b.processes| && b.processes[k] == c.processes[i];
    }
    forall i | 0 <= i < |c.events| && c.events[i].MetricUnavailable?
      ensures ExplainsSomething(c.events[i], c.samples)
    {
      assert c.events[i] in c.events;
      var k :| 0 <= k < |b.events| && b.events[k] == c.events[i];
    }
  }

  /** Reordering events and process records changes neither acceptance nor any field of the summary. */
  lemma OrderIsIrrelevant(b: Bundle, c: Bundle)
    requires Reordered(b, c) && IsV2(b)
    ensures Accepted(b) <==> Accepted(c)
    ensures Accepted(b) ==> forall s: Summary :: Describes(b, s) <==> Describes(c, s)
  {
    if Accepted(c) {
      AcceptanceReordered(c, b);
    }
    if Accepted(b) {
      AcceptanceReordered(b, c);
      TerminalReordered(b, c);
      StatusReordered(b, c);
    }
  }
}
