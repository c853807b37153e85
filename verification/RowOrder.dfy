/** The rows inside a sample: when their order can decide whether a bundle is accepted, and what it cannot change. */
module RowOrder {
  import opened Prelude
  import opened Records
  import opened SummarySpec
  import opened Folds
  import D = DirectRoot
  import W = WindowsRun
  import WindowsAcceptance

  /** The same sample with its rows in another order. */
  predicate SameRows(s: Sample, t: Sample) {
    && (s.rows.Some? <==> t.rows.Some?)
    && multiset(RowsOf(s)) == multiset(RowsOf(t))
    && t == s.(rows := t.rows)
  }

  predicate SameRowsEach(samples: seq<Sample>, others: seq<Sample>) {
    |samples| == |others| && forall o | 0 <= o < |samples| :: SameRows(samples[o], others[o])
  }

  predicate RowsReordered(b: Bundle, c: Bundle) {
    c == b.(samples := c.samples) && SameRowsEach(b.samples, c.samples)
  }

  predicate SumsReadable(s: Sample) {
    SumOf(s, WorkingSetBytes).Ok? && SumOf(s, PrivateBytes).Ok?
  }

  // ---- One sample ------------------------------------------------------------------------------

  lemma RowFrom(s: Sample, t: Sample, j: nat) returns (i: nat)
    requires SameRows(s, t) && j < |RowsOf(t)|
    ensures i < |RowsOf(s)| && RowsOf(s)[i] == RowsOf(t)[j]
  {
    assert RowsOf(t)[j] in multiset(RowsOf(t));
    assert RowsOf(t)[j] in RowsOf(s);
    i :| 0 <= i < |RowsOf(s)| && RowsOf(s)[i] == RowsOf(t)[j];
  }

  lemma RowCount(s: Sample, t: Sample)
    requires SameRows(s, t)
    ensures |RowsOf(s)| == |RowsOf(t)|
  {
    assert |multiset(RowsOf(s))| == |multiset(RowsOf(t))|;
  }

  /** Every cell of the reordered sample is a cell of the original, of the same process. */
  lemma CellFrom(s: Sample, t: Sample, m: Metric, j: nat) returns (i: nat)
    requires SameRows(s, t) && j < ObsCount(t, m)
    ensures i < ObsCount(s, m) && ObsLeaf(s, m, i) == ObsLeaf(t, m, j) && ObsProcess(s, m, i) == ObsProcess(t, m, j)
  {
    if m.domain.ProcessDomain? {
      i := RowFrom(s, t, j);
    } else {
      i := j;
    }
  }

  function HasRow(id: u64): Row -> bool {
    (r: Row) => r.id == Num(id)
  }

  lemma RowsOkKept(s: Sample, t: Sample)
    requires SameRows(s, t) && RowsOk(s)
    ensures RowsOk(t)
  {
    forall j | 0 <= j < |RowsOf(t)|
      ensures RowsOf(t)[j].id.Num?
    {
      var i := RowFrom(s, t, j);
    }
    forall j, k | 0 <= j < k < |RowsOf(t)|
      ensures RowsOf(t)[j].id != RowsOf(t)[k].id
    {
      var id := RowsOf(t)[j].id.n;
      OnceIn(s, id);
      CountPermuted(RowsOf(s), RowsOf(t), HasRow(id));
      if RowsOf(t)[k].id == Num(id) {
        CountOneSame(RowsOf(t), HasRow(id), j, k);
      }
    }
  }

  lemma OnceIn(s: Sample, id: u64)
    requires RowsOk(s)
    ensures Count(RowsOf(s), HasRow(id)) <= 1
  {
    if Count(RowsOf(s), HasRow(id)) >= 1 {
      var i := CountWitness(RowsOf(s), HasRow(id));
      CountAt(RowsOf(s), HasRow(id), i);
    }
  }

  lemma AvailabilityKept(events: seq<Event>, s: Sample, t: Sample, o: int)
    requires SameRows(s, t) && AvailabilityOk(events, s, o)
    ensures AvailabilityOk(events, t, o)
  {
    forall m, j | Known(m) && 0 <= j < ObsCount(t, m)
      ensures CellOk(events, t, o, m, j)
    {
      var i := CellFrom(s, t, m, j);
      assert CellOk(events, s, o, m, i);
    }
  }

  lemma PresentKept(s: Sample, t: Sample)
    requires SameRows(s, t) && PresentMetricsOk(s)
    ensures PresentMetricsOk(t)
  {
    forall m | Known(m)
      ensures PresentMetricOk(t, m)
    {
      assert PresentMetricOk(s, m);
      forall j | 0 <= j < ObsCount(t, m)
        ensures MetricValue(m.field, ObsLeaf(t, m, j)).Ok?
      {
        var i := CellFrom(s, t, m, j);
      }
    }
  }

  /** A sum that exists in both orders is the same in both. */
  lemma SumKept(s: Sample, t: Sample, f: Field)
    requires SameRows(s, t) && SumOf(s, f).Ok? && SumOf(t, f).Ok?
    ensures SumOf(s, f) == SumOf(t, f)
  {
    hide SumOptional, Total, AllReadable, Get;
    var rows, others := RowsOf(s), RowsOf(t);
    SumIsExact(rows, f);
    SumIsExact(others, f);
    ByMembership(rows, others, f);
    if !SomeAbsent(rows, f) {
      SameSum(rows, others, f);
    }
  }

  lemma SampleKept(events: seq<Event>, s: Sample, t: Sample, o: int, v2: bool)
    requires SameRows(s, t) && SampleOk(s, o, events, v2) && SumsReadable(t)
    ensures SampleOk(t, o, events, v2)
  {
    hide SumOf, AvailabilityOk, PresentMetricsOk, JobOk;
    RowsOkKept(s, t);
    if v2 {
      AvailabilityKept(events, s, t, o);
    } else {
      PresentKept(s, t);
    }
    SumKept(s, t, WorkingSetBytes);
    SumKept(s, t, PrivateBytes);
  }

  // ---- Whole bundles ---------------------------------------------------------------------------

  lemma SameRowsBack(b: Bundle, c: Bundle)
    requires RowsReordered(b, c)
    ensures RowsReordered(c, b)
  {
    forall o | 0 <= o < |b.samples|
      ensures SameRows(c.samples[o], b.samples[o])
    {
      assert SameRows(b.samples[o], c.samples[o]);
    }
  }

  lemma AccountsKept(e: Event, samples: seq<Sample>, others: seq<Sample>, o: int, j: int) returns (i: int)
    requires SameRowsEach(samples, others) && e.MetricUnavailable? && 0 <= o < |samples| && Accounts(e, samples, o, j)
    ensures Accounts(e, others, o, i)
  {
    assert SameRows(samples[o], others[o]);
    RowCount(samples[o], others[o]);
    i := CellFrom(others[o], samples[o], DeclOf(e).metric, j);
  }

  lemma DeclarationKept(e: Event, b: Bundle, c: Bundle)
    requires RowsReordered(b, c) && e.MetricUnavailable?
    requires DeclarationOk(e, b.samples, b.processes) && ExplainsSomething(e, b.samples)
    ensures DeclarationOk(e, c.samples, c.processes) && ExplainsSomething(e, c.samples)
  {
    hide Authority, SubjectSuits, Known;
    var d := DeclOf(e);
    if d.process.Some? && d.sample.Some? {
      var o, id := d.sample.value, d.process.value;
      assert SameRows(b.samples[o], c.samples[o]);
      var j :| 0 <= j < |RowsOf(b.samples[o])| && RowsOf(b.samples[o])[j].id == Num(id);
      var i := RowFrom(c.samples[o], b.samples[o], j);
    }
    var o, j :| 0 <= o < |b.samples| && Accounts(e, b.samples, o, j);
    var i := AccountsKept(e, b.samples, c.samples, o, j);
  }

  lemma {:induction false} PointsKept(samples: seq<Sample>, others: seq<Sample>, n: nat)
    requires SameRowsEach(samples, others) && n <= |samples|
    ensures JobPoints(samples, n) == JobPoints(others, n) && LastJob(samples, n) == LastJob(others, n)
  {
    if n > 0 {
      PointsKept(samples, others, n - 1);
      assert SameRows(samples[n - 1], others[n - 1]);
    }
  }

  lemma V2Kept(b: Bundle, c: Bundle)
    requires RowsReordered(b, c)
    ensures IsV2(b) == IsV2(c) && (SchemaUniform(b) <==> SchemaUniform(c))
  {
    forall o | 0 <= o < |b.samples|
      ensures b.samples[o].v2 == c.samples[o].v2 && b.samples[o] in b.samples && c.samples[o] in c.samples
    {
      assert SameRows(b.samples[o], c.samples[o]);
    }
  }

  lemma OmissionsKept(samples: seq<Sample>, others: seq<Sample>, events: seq<Event>)
    requires SameRowsEach(samples, others)
    ensures AnyOmission(samples, |samples|) ==> AnyOmission(others, |others|)
    ensures OperationalOmission(samples, |samples|, events) ==> OperationalOmission(others, |others|, events)
  {
    if AnyOmission(samples, |samples|) {
      var o, m, j :| 0 <= o < |samples| && Omitted(samples[o], m, j);
      assert SameRows(samples[o], others[o]);
      RowCount(samples[o], others[o]);
      var i := CellFrom(others[o], samples[o], m, j);
      assert Omitted(others[o], m, i);
    }
    if OperationalOmission(samples, |samples|, events) {
      var o, j, e :| 0 <= o < |samples| && e in events && e.MetricUnavailable? &&
        Operational(DeclOf(e).reason) && Accounts(e, samples, o, j);
      var i := AccountsKept(e, samples, others, o, j);
    }
  }

  lemma StatusKept(b: Bundle, c: Bundle)
    requires RowsReordered(b, c)
    ensures ValidityOf(b) == ValidityOf(c) && CompletenessOf(b) == CompletenessOf(c)
  {
    hide AnyOmission, OperationalOmission, IsV2, RowsReordered, RetentionDegraded;
    SameRowsBack(b, c);
    V2Kept(b, c);
    Parts(b, c);
    Parts(c, b);
    OmissionsKept(b.samples, c.samples, b.events);
    OmissionsKept(c.samples, b.samples, b.events);
  }

  lemma Parts(b: Bundle, c: Bundle)
    requires RowsReordered(b, c)
    ensures c.processes == b.processes && c.events == b.events && c.manifest == b.manifest
    ensures SameRowsEach(b.samples, c.samples)
  {
  }

  lemma EndsKept(samples: seq<Sample>, others: seq<Sample>)
    requires SameRowsEach(samples, others)
    ensures Ordered(samples) <==> Ordered(others)
    ensures samples != [] ==> samples[0].monotonic == others[0].monotonic &&
                              samples[|samples| - 1].monotonic == others[|samples| - 1].monotonic
  {
    if samples != [] {
      assert SameRows(samples[0], others[0]) && SameRows(samples[|samples| - 1], others[|samples| - 1]);
    }
  }

  lemma DeclarationsKept(b: Bundle, c: Bundle)
    requires RowsReordered(b, c) && DeclarationsOk(b) && NothingIdle(b)
    ensures DeclarationsOk(c) && NothingIdle(c)
  {
    hide DeclarationOk, ExplainsSomething, SameKey;
    forall i | 0 <= i < |c.events| && c.events[i].MetricUnavailable?
      ensures DeclarationOk(c.events[i], c.samples, c.processes) && ExplainsSomething(c.events[i], c.samples)
    {
      assert DeclarationOk(b.events[i], b.samples, b.processes) && ExplainsSomething(b.events[i], b.samples);
      DeclarationKept(b.events[i], b, c);
    }
  }

  lemma SamplesKept(b: Bundle, c: Bundle, v2: bool)
    requires RowsReordered(b, c) && AllSamplesOk(b.samples, |b.samples|, b.events, v2)
    requires forall o | 0 <= o < |c.samples| :: SumsReadable(c.samples[o])
    ensures AllSamplesOk(c.samples, |c.samples|, c.events, v2)
  {
    hide SampleOk, SumsReadable, SameRows;
    forall o | 0 <= o < |c.samples|
      ensures SampleOk(c.samples[o], o, c.events, v2)
    {
      assert SampleOk(b.samples[o], o, b.events, v2) && SameRows(b.samples[o], c.samples[o]);
      SampleKept(b.events, b.samples[o], c.samples[o], o, v2);
    }
  }

  /** A reordered bundle is accepted exactly when its sums still exist. */
  lemma AcceptedReordered(b: Bundle, c: Bundle)
    requires Accepted(b) && RowsReordered(b, c)
    ensures Accepted(c) <==> forall o | 0 <= o < |c.samples| :: SumsReadable(c.samples[o])
  {
    hide SchemaUniform, RecordsReadable, DeclarationsOk, AllSamplesOk, PointsOk, NothingIdle, FinalJobReadable,
      TerminalOk,
      Ordered, IsV2, RowsReordered, SumsReadable, ValidityOf, CompletenessOf;
    Parts(b, c);
    V2Kept(b, c);
    StatusKept(b, c);
    PointsKept(b.samples, c.samples, |b.samples|);
    EndsKept(b.samples, c.samples);
    FinalJobKept(b.samples, c.samples);
    if forall o | 0 <= o < |c.samples| :: SumsReadable(c.samples[o]) {
      SamplesKept(b, c, IsV2(b));
      if IsV2(b) {
        DeclarationsKept(b, c);
      }
    }
    if Accepted(c) {
      AcceptedSums(c);
    }
  }

  lemma FinalJobKept(samples: seq<Sample>, others: seq<Sample>)
    requires |samples| == |others| && LastJob(samples, |samples|) == LastJob(others, |others|)
    ensures FinalJobReadable(samples) <==> FinalJobReadable(others)
  {
  }

  lemma AcceptedSums(b: Bundle)
    requires Accepted(b)
    ensures forall o | 0 <= o < |b.samples| :: SumsReadable(b.samples[o])
  {
    hide SchemaUniform, RecordsReadable, DeclarationsOk, PointsOk, NothingIdle, FinalJobReadable, TerminalOk,
      Ordered, IsV2,
      ManifestOk, SumOf, HeaderOk, RowsOk, MetricsOk, JobOk;
    forall o | 0 <= o < |b.samples|
      ensures SumsReadable(b.samples[o])
    {
      assert SampleOk(b.samples[o], o, b.events, IsV2(b));
    }
  }

  // ---- The summary does not see the order ------------------------------------------------------

  predicate SameSums(samples: seq<Sample>, others: seq<Sample>, f: Field) {
    |samples| == |others| && forall o | 0 <= o < |samples| :: SumOf(samples[o], f) == SumOf(others[o], f)
  }

  lemma SumsKept(samples: seq<Sample>, others: seq<Sample>)
    requires SameRowsEach(samples, others)
    requires forall o | 0 <= o < |samples| :: SumsReadable(samples[o]) && SumsReadable(others[o])
    ensures SameSums(samples, others, WorkingSetBytes) && SameSums(samples, others, PrivateBytes)
  {
    hide SumOf, SameRows;
    forall o | 0 <= o < |samples|
      ensures SumOf(samples[o], WorkingSetBytes) == SumOf(others[o], WorkingSetBytes)
      ensures SumOf(samples[o], PrivateBytes) == SumOf(others[o], PrivateBytes)
    {
      assert SameRows(samples[o], others[o]) && SumsReadable(samples[o]) && SumsReadable(others[o]);
      SumKept(samples[o], others[o], WorkingSetBytes);
      SumKept(samples[o], others[o], PrivateBytes);
    }
  }

  lemma PeakKept(samples: seq<Sample>, others: seq<Sample>, f: Field, peak: Option<u64>)
    requires SameSums(samples, others, f) && PeakIs(samples, |samples|, f, peak)
    ensures PeakIs(others, |others|, f, peak)
  {
    hide SumOf;
    forall k | 0 <= k < |samples|
      ensures HasSum(others[k], f) <==> HasSum(samples[k], f)
      ensures SumOf(others[k], f) == SumOf(samples[k], f)
    {
    }
    if peak.Some? && peak.value != 0 {
      var k :| 0 <= k < |samples| && SumOf(samples[k], f).value.value == peak.value;
      assert SumOf(others[k], f).value.value == peak.value;
    }
  }

  lemma {:induction false} LastLiveIndexKept(samples: seq<Sample>, others: seq<Sample>, n: nat)
    requires SameRowsEach(samples, others) && n <= |samples|
    ensures LastLiveIndex(samples, n) == LastLiveIndex(others, n)
  {
    if n > 0 {
      LastLiveIndexKept(samples, others, n - 1);
      assert SameRows(samples[n - 1], others[n - 1]);
    }
  }

  lemma LastLiveKept(samples: seq<Sample>, others: seq<Sample>, f: Field, l: LastLive)
    requires SameRowsEach(samples, others) && SameSums(samples, others, f) && LastLiveIs(samples, |samples|, f, l)
    ensures LastLiveIs(others, |others|, f, l)
  {
    hide SumOf;
    LastLiveIndexKept(samples, others, |samples|);
    var k := LastLiveIndex(samples, |samples|);
    if k >= 0 {
      assert SameRows(samples[k], others[k]);
    }
  }

  lemma MemoryKept(samples: seq<Sample>, others: seq<Sample>, m: Memory)
    requires SameRowsEach(samples, others) && MemoryIs(samples, |samples|, m)
    requires SameSums(samples, others, WorkingSetBytes) && SameSums(samples, others, PrivateBytes)
    ensures MemoryIs(others, |others|, m)
  {
    hide PeakIs, LastLiveIs, SameRowsEach, SameSums;
    PeakKept(samples, others, WorkingSetBytes, m.peakWorkingSet);
    PeakKept(samples, others, PrivateBytes, m.peakPrivate);
    LastLiveKept(samples, others, WorkingSetBytes, m.lastWorkingSet);
    LastLiveKept(samples, others, PrivateBytes, m.lastPrivate);
    SameSumsLength(samples, others);
  }

  lemma SameSumsLength(samples: seq<Sample>, others: seq<Sample>)
    requires SameRowsEach(samples, others)
    ensures |samples| == |others|
  {
  }

  lemma GapsKept(samples: seq<Sample>, others: seq<Sample>, g: u64)
    requires SameRowsEach(samples, others) && MaxGapIs(samples, |samples|, g)
    ensures MaxGapIs(others, |others|, g)
  {
    forall k | 0 <= k < |samples|
      ensures GapOf(others[k]) == GapOf(samples[k])
    {
      assert SameRows(samples[k], others[k]);
    }
    if g != 0 {
      var k :| 0 <= k < |samples| && GapOf(samples[k]) == g;
      assert GapOf(others[k]) == g;
    }
  }

  lemma ObservedKept(samples: seq<Sample>, others: seq<Sample>, p: nat)
    requires SameRowsEach(samples, others) && MaxObservedIs(samples, |samples|, p)
    ensures MaxObservedIs(others, |others|, p)
  {
    forall k | 0 <= k < |samples|
      ensures |RowsOf(others[k])| == |RowsOf(samples[k])|
    {
      assert SameRows(samples[k], others[k]);
      RowCount(samples[k], others[k]);
    }
    if p != 0 {
      var k :| 0 <= k < |samples| && |RowsOf(samples[k])| == p;
      assert |RowsOf(others[k])| == p;
    }
  }

  lemma HandlesKept(samples: seq<Sample>, others: seq<Sample>, h: Option<u64>)
    requires SameRowsEach(samples, others) && MaxHandlesIs(samples, |samples|, h)
    ensures MaxHandlesIs(others, |others|, h)
  {
    forall k | 0 <= k < |samples|
      ensures HandlesOf(others[k]) == HandlesOf(samples[k]) && (HasHandles(others[k]) <==> HasHandles(samples[k]))
    {
      assert SameRows(samples[k], others[k]);
    }
    if h.Some? && h.value != 0 {
      var k :| 0 <= k < |samples| && HandlesOf(samples[k]).value.value == h.value;
      assert HandlesOf(others[k]).value.value == h.value;
    }
  }

  lemma IdsKept(s: Sample, t: Sample)
    requires SameRows(s, t)
    ensures IdsIn(s) <= IdsIn(t)
  {
    forall id | id in IdsIn(s)
      ensures id in IdsIn(t)
    {
      var j :| 0 <= j < |RowsOf(s)| && RowsOf(s)[j].id.Num? && RowsOf(s)[j].id.n == id;
      RowsBack(s, t);
      var i := RowFrom(t, s, j);
    }
  }

  lemma RowsBack(s: Sample, t: Sample)
    requires SameRows(s, t)
    ensures SameRows(t, s)
  {
  }

  lemma {:induction false} ObservedIdsKept(samples: seq<Sample>, others: seq<Sample>, n: nat)
    requires SameRowsEach(samples, others) && n <= |samples|
    ensures ObservedIds(samples, n) == ObservedIds(others, n)
  {
    hide IdsIn, SameRows;
    if n > 0 {
      ObservedIdsKept(samples, others, n - 1);
      assert SameRows(samples[n - 1], others[n - 1]);
      RowsBack(samples[n - 1], others[n - 1]);
      IdsKept(samples[n - 1], others[n - 1]);
      IdsKept(others[n - 1], samples[n - 1]);
    }
  }

  lemma PopulationKept(samples: seq<Sample>, others: seq<Sample>, p: Population)
    requires SameRowsEach(samples, others) && PopulationIs(samples, p)
    ensures PopulationIs(others, p)
  {
    hide MaxObservedIs, MaxHandlesIs, SameRowsEach, ObservedIds, LastJob;
    SameSumsLength(samples, others);
    ObservedKept(samples, others, p.maxObserved);
    HandlesKept(samples, others, p.maxProbeHandles);
    ObservedIdsKept(samples, others, |samples|);
    PointsKept(samples, others, |samples|);
  }

  /** Two accepted bundles that differ only in the order of rows have the same summary. */
  lemma SummaryKept(b: Bundle, c: Bundle, s: Summary)
    requires Accepted(b) && Accepted(c) && RowsReordered(b, c) && b.samples != [] && Describes(b, s)
    ensures c.samples != [] && Describes(c, s)
  {
    hide Accepted, RowsReordered, SumsReadable, SameSums, SameRowsEach, MemoryIs, PopulationIs, MaxGapIs,
      PeakUtilizationIs,
      ValidityOf, CompletenessOf, RetentionDegraded, IsV2, LastJob, JobPoints;
    AcceptedSums(b);
    AcceptedSums(c);
    Parts(b, c);
    SameSumsLength(b.samples, c.samples);
    SumsKept(b.samples, c.samples);
    MemoryKept(b.samples, c.samples, s.memory);
    GapsKept(b.samples, c.samples, s.timing.maxSampleGapNs);
    PopulationKept(b.samples, c.samples, s.population);
    PointsKept(b.samples, c.samples, |b.samples|);
    EndsKept(b.samples, c.samples);
    V2Kept(b, c);
    StatusKept(b, c);
  }

  // ---- When the order decides ------------------------------------------------------------------

  /** No order of the rows can make the sum of this field fail. */
  predicate OrderSafe(s: Sample, f: Field) {
    !SomeAbsent(RowsOf(s), f) || Total(RowsOf(s), f, |RowsOf(s)|) <= U64_MAX
  }

  predicate SampleOrderSafe(s: Sample) {
    OrderSafe(s, WorkingSetBytes) && OrderSafe(s, PrivateBytes)
  }

  lemma SafeSumKept(s: Sample, t: Sample, f: Field)
    requires SameRows(s, t) && SumOf(s, f).Ok? && OrderSafe(s, f)
    ensures SumOf(t, f).Ok?
  {
    hide SumOptional, Total, AllReadable, SomeAbsent;
    SameSum(RowsOf(s), RowsOf(t), f);
  }

  lemma SafeSumsKept(b: Bundle, c: Bundle)
    requires RowsReordered(b, c)
    requires forall o | 0 <= o < |b.samples| :: SumsReadable(b.samples[o]) && SampleOrderSafe(b.samples[o])
    ensures forall o | 0 <= o < |c.samples| :: SumsReadable(c.samples[o])
  {
    hide SumOf, OrderSafe, SameRows;
    forall o | 0 <= o < |c.samples|
      ensures SumsReadable(c.samples[o])
    {
      assert SameRows(b.samples[o], c.samples[o]) && SumsReadable(b.samples[o]) && SampleOrderSafe(b.samples[o]);
      SafeSumKept(b.samples[o], c.samples[o], WorkingSetBytes);
      SafeSumKept(b.samples[o], c.samples[o], PrivateBytes);
    }
  }

  /** The bundle with sample `o`'s rows in the order that overflows if any does. */
  function ValuesFirstAt(b: Bundle, o: nat, f: Field): Bundle
    requires o < |b.samples| && b.samples[o].rows.Some?
  {
    b.(samples := b.samples[o := b.samples[o].(rows := Some(ValuesFirst(RowsOf(b.samples[o]), f)))])
  }

  lemma UnsafeRefused(b: Bundle, o: nat, f: Field)
    requires Accepted(b) && o < |b.samples| && b.samples[o].rows.Some? && (f.WorkingSetBytes? || f.PrivateBytes?)
    requires !OrderSafe(b.samples[o], f)
    ensures RowsReordered(b, ValuesFirstAt(b, o, f)) && !Accepted(ValuesFirstAt(b, o, f))
  {
    hide Accepted, SumOptional, Total, SomeAbsent, ValuesFirst;
    var c := ValuesFirstAt(b, o, f);
    ValuesFirstOverflows(RowsOf(b.samples[o]), f);
    assert !SumsReadable(c.samples[o]);
    AcceptedReordered(b, c);
  }

  lemma AcceptedRows(b: Bundle)
    requires Accepted(b)
    ensures forall o | 0 <= o < |b.samples| :: b.samples[o].rows.Some?
  {
    hide SchemaUniform, RecordsReadable, DeclarationsOk, PointsOk, NothingIdle, FinalJobReadable, TerminalOk,
      Ordered, IsV2,
      ManifestOk, SumsOk, HeaderOk, MetricsOk, JobOk;
    forall o | 0 <= o < |b.samples|
      ensures b.samples[o].rows.Some?
    {
      assert SampleOk(b.samples[o], o, b.events, IsV2(b));
    }
  }

  /**
   * Row order, exactly: every reordering of an accepted bundle's rows is accepted if and only if in each
   * sample no byte count is absent, or all of them together fit a u64.
   */
  lemma RowOrderExactly(b: Bundle)
    requires Accepted(b)
    ensures (forall c | RowsReordered(b, c) :: Accepted(c)) <==>
            forall o | 0 <= o < |b.samples| :: SampleOrderSafe(b.samples[o])
  {
    hide Accepted, OrderSafe, RowsReordered, SumsReadable;
    AcceptedSums(b);
    AcceptedRows(b);
    if forall o | 0 <= o < |b.samples| :: SampleOrderSafe(b.samples[o]) {
      forall c | RowsReordered(b, c)
        ensures Accepted(c)
      {
        SafeSumsKept(b, c);
        AcceptedReordered(b, c);
      }
    } else {
      var o :| 0 <= o < |b.samples| && !SampleOrderSafe(b.samples[o]);
      UnsafeRefused(b, o, if OrderSafe(b.samples[o], WorkingSetBytes) then PrivateBytes else WorkingSetBytes);
    }
  }

  // ---- The collectors' samples -----------------------------------------------------------------

  /** A Linux or macOS sample has one row without byte counts. */
  lemma DirectRootOrderSafe(r: D.Round)
    ensures SampleOrderSafe(D.RoundSample(r))
  {
    var rows := RowsOf(D.RoundSample(r));
    assert Total(rows, WorkingSetBytes, 0) == 0 && Total(rows, PrivateBytes, 0) == 0;
  }

  /** A Windows sample has a byte count in every row. */
  lemma WindowsOrderSafe(t: W.Taken)
    ensures SampleOrderSafe(W.SampleOf(t))
  {
    hide W.ProcessCells, W.ProbeCells, W.SystemCells, W.Total;
    var rows := RowsOf(W.SampleOf(t));
    forall j | 0 <= j < |rows|
      ensures !LeafAt(rows, WorkingSetBytes, j).Absent? && !LeafAt(rows, PrivateBytes, j).Absent?
    {
      WindowsAcceptance.SumCell(t.rows[j].counters, WorkingSetBytes);
      WindowsAcceptance.SumCell(t.rows[j].counters, PrivateBytes);
    }
  }

  /** So the order in which a collector visits its processes never decides acceptance or the summary. */
  lemma CollectorOrderIsIrrelevant(b: Bundle, c: Bundle, s: Summary)
    requires Accepted(b) && RowsReordered(b, c) && b.samples != [] && Describes(b, s)
    requires forall o | 0 <= o < |b.samples| ::
               (exists r :: b.samples[o] == D.RoundSample(r)) || (exists t :: b.samples[o] == W.SampleOf(t))
    ensures Accepted(c) && c.samples != [] && Describes(c, s)
  {
    hide Accepted, RowsReordered, SampleOrderSafe, Describes, D.RoundSample, W.SampleOf;
    forall o | 0 <= o < |b.samples|
      ensures SampleOrderSafe(b.samples[o])
    {
      if r :| b.samples[o] == D.RoundSample(r) {
        DirectRootOrderSafe(r);
      } else {
        var t :| b.samples[o] == W.SampleOf(t);
        WindowsOrderSafe(t);
      }
    }
    RowOrderExactly(b);
    SummaryKept(b, c, s);
  }
}
