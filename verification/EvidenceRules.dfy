/**
 * What accepted v2 evidence looks like, written out on the fields of the records without the reader's
 * own helpers: a second account of acceptance, proved equivalent to `Accepted`.
 */
module EvidenceRules {
  import opened Prelude
  import opened Records
  import opened SummarySpec
  import opened Folds
  import SamplePass
  import Accounting

  // ---- Process records -------------------------------------------------------------------------

  /** Fields are read in order: a zero PID or start time hides what comes after it. */
  predicate RecordRule(p: ProcessRecord) {
    && p.id.Num? && p.pid.Num? && p.pid.n <= 0xFFFF_FFFF
    && (p.pid.n == 0 || (p.startTime.Num? && (p.startTime.n == 0 || p.boot.Text?)))
  }

  predicate CompleteIdentity(p: ProcessRecord) {
    && p.pid.Num? && p.pid.n > 0
    && p.startTime.Num? && p.startTime.n > 0
    && p.boot.Text? && |p.boot.value| > 0
  }

  /** Record `k` alone has the id, and it is a complete identity. */
  predicate IdentifiedBy(ps: seq<ProcessRecord>, id: Leaf, k: int) {
    && 0 <= k < |ps| && ps[k].id == id && CompleteIdentity(ps[k])
    && forall i | 0 <= i < |ps| && i != k :: ps[i].id != id
  }

  predicate Identified(ps: seq<ProcessRecord>, id: Leaf) {
    exists k | 0 <= k < |ps| :: IdentifiedBy(ps, id, k)
  }

  lemma AuthorityIsIdentity(ps: seq<ProcessRecord>, id: u64)
    ensures Authority(ps, id) <==> Identified(ps, Num(id))
  {
    if Authority(ps, id) {
      var p :| p in ps && p.id == Num(id) && RecordValid(p);
      var k :| 0 <= k < |ps| && ps[k] == p;
      CountAt(ps, HasId(id), k);
      assert forall i | 0 <= i < |ps| && i != k :: !HasId(id)(ps[i]);
      assert IdentifiedBy(ps, Num(id), k);
    }
    if k :| 0 <= k < |ps| && IdentifiedBy(ps, Num(id), k) {
      CountAt(ps, HasId(id), k);
      assert ps[k] in ps;
    }
  }

  // ---- Declarations ----------------------------------------------------------------------------

  predicate SemanticReason(e: Event)
    requires e.MetricUnavailable?
  {
    e.reason == Text(Unsupported) || e.reason == Text(NotApplicable) || e.reason == Text(SemanticMismatch)
  }

  predicate OperationalReason(e: Event)
    requires e.MetricUnavailable?
  {
    e.reason == Text(AuthorityUnavailable) || e.reason == Text(SamplingDegraded)
  }

  predicate NamesSample(e: Event, samples: seq<Sample>)
    requires e.MetricUnavailable?
  {
    e.ordinal.Num? && e.ordinal.n < |samples|
  }

  predicate NamesRow(e: Event, samples: seq<Sample>)
    requires e.MetricUnavailable? && NamesSample(e, samples)
  {
    var rows := samples[e.ordinal.n].rows;
    rows.Some? && exists j :: 0 <= j < |rows.value| && rows.value[j].id == e.processId
  }

  /** RUN goes with a semantic reason; one sample or one row of it goes with an operational one. */
  predicate DeclarationRule(e: Event, b: Bundle)
    requires e.MetricUnavailable?
  {
    && e.metric.Text? && Known(e.metric.value) && e.subject.Text?
    && match e.subject.value
       case RunSubject => SemanticReason(e)
       case SampleSubject =>
         !e.metric.value.domain.ProcessDomain? && OperationalReason(e) && NamesSample(e, b.samples)
       case ProcessSampleSubject =>
         && e.metric.value.domain.ProcessDomain? && OperationalReason(e) && NamesSample(e, b.samples)
         && e.processId.Num? && Identified(b.processes, e.processId) && NamesRow(e, b.samples)
       case _ => false
  }

  lemma DeclarationExactly(e: Event, b: Bundle)
    requires e.MetricUnavailable?
    ensures DeclarationOk(e, b.samples, b.processes) <==> DeclarationRule(e, b)
  {
    hide Authority, Identified, Known, NamesRow, InSample;
    if e.processId.Num? {
      AuthorityIsIdentity(b.processes, e.processId.n);
      if NamesSample(e, b.samples) {
        RowNamed(e, b.samples);
      }
    }
  }

  lemma RowNamed(e: Event, samples: seq<Sample>)
    requires e.MetricUnavailable? && NamesSample(e, samples) && e.processId.Num?
    ensures InSample(samples[e.ordinal.n], e.processId.n) <==> NamesRow(e, samples)
  {
    var rows := RowsOf(samples[e.ordinal.n]);
    if j :| 0 <= j < |rows| && rows[j].id == e.processId {
      assert samples[e.ordinal.n].rows.value[j].id == e.processId;
    }
  }

  // ---- Cells -----------------------------------------------------------------------------------

  /** The declaration names this cell: its metric in every sample, in this sample, or in this row of it. */
  predicate Covers(e: Event, m: Metric, o: int, id: Leaf) {
    && e.MetricUnavailable? && e.metric == Text(m)
    && (|| e.subject == Text(RunSubject)
        || (e.subject == Text(SampleSubject) && e.ordinal.Num? && e.ordinal.n == o)
        || (e.subject == Text(ProcessSampleSubject) && e.ordinal.Num? && e.ordinal.n == o && e.processId == id))
  }

  predicate NoneCovers(events: seq<Event>, m: Metric, o: int, id: Leaf) {
    forall i | 0 <= i < |events| :: !Covers(events[i], m, o, id)
  }

  predicate OneCovers(events: seq<Event>, m: Metric, o: int, id: Leaf) {
    exists i | 0 <= i < |events| :: OnlyCovers(events, m, o, id, i)
  }

  predicate OnlyCovers(events: seq<Event>, m: Metric, o: int, id: Leaf, i: int) {
    && 0 <= i < |events| && Covers(events[i], m, o, id)
    && forall k | 0 <= k < |events| && k != i :: !Covers(events[k], m, o, id)
  }

  /** A number in range that nothing covers, or an absent cell that exactly one declaration covers. */
  predicate CellRule(events: seq<Event>, m: Metric, o: int, id: Leaf, cell: Leaf) {
    match cell
    case Num(n) => (m.field.ThreadCount? || m.field.HandleCount? ==> n <= 0xFFFF_FFFF) && NoneCovers(events, m, o, id)
    case Absent => OneCovers(events, m, o, id)
    case _ => false
  }

  predicate RowCellRule(events: seq<Event>, o: int, r: Row, f: Field) {
    CellRule(events, Metric(ProcessDomain, f), o, r.id, Get(r.cells, f))
  }

  predicate OwnCellRule(events: seq<Event>, o: int, d: Domain, c: Cells, f: Field) {
    CellRule(events, Metric(d, f), o, Absent, Get(c, f))
  }

  ghost predicate CellsRule(events: seq<Event>, s: Sample, o: int)
    requires s.rows.Some?
  {
    && s.probe.Some? && s.system.Some?
    && (forall j, f | 0 <= j < |s.rows.value| && Known(Metric(ProcessDomain, f)) ::
          RowCellRule(events, o, s.rows.value[j], f))
    && (forall f | Known(Metric(ProbeDomain, f)) :: OwnCellRule(events, o, ProbeDomain, s.probe.value, f))
    && (forall f | Known(Metric(SystemDomain, f)) :: OwnCellRule(events, o, SystemDomain, s.system.value, f))
  }

  /** The ids that the cells of a metric carry: the row's own for a process metric, none otherwise. */
  predicate IdSuits(m: Metric, id: Leaf) {
    if m.domain.ProcessDomain? then id.Num? else id == Absent
  }

  lemma CoversExactly(e: Event, b: Bundle, m: Metric, o: int, id: Leaf)
    requires e.MetricUnavailable? ==> DeclarationRule(e, b)
    requires IdSuits(m, id)
    ensures Explains(e, m, o, NumOrNone(id)) <==> Covers(e, m, o, id)
  {
    hide Identified, Known, NamesRow;
  }

  ghost predicate DeclarationsRule(b: Bundle) {
    forall i | 0 <= i < |b.events| && b.events[i].MetricUnavailable? :: DeclarationRule(b.events[i], b)
  }

  lemma CoverageCounts(b: Bundle, m: Metric, o: int, id: Leaf)
    requires DeclarationsRule(b) && IdSuits(m, id)
    ensures Explanations(b.events, m, o, NumOrNone(id)) == 0 <==> NoneCovers(b.events, m, o, id)
    ensures Explanations(b.events, m, o, NumOrNone(id)) == 1 <==> OneCovers(b.events, m, o, id)
  {
    hide Covers, Explains, DeclarationRule;
    var p := Explaining(m, o, NumOrNone(id));
    forall i | 0 <= i < |b.events|
      ensures p(b.events[i]) <==> Covers(b.events[i], m, o, id)
    {
      CoversExactly(b.events[i], b, m, o, id);
    }
    CountZero(b.events, p);
    if Count(b.events, p) == 1 {
      var i := CountWitness(b.events, p);
      CountAt(b.events, p, i);
      assert OnlyCovers(b.events, m, o, id, i);
    }
    if i :| 0 <= i < |b.events| && OnlyCovers(b.events, m, o, id, i) {
      CountAt(b.events, p, i);
    }
  }

  lemma CellExactly(b: Bundle, m: Metric, o: int, id: Leaf, cell: Leaf)
    requires DeclarationsRule(b) && IdSuits(m, id)
    ensures CellRule(b.events, m, o, id, cell) <==>
            var v := MetricValue(m.field, cell);
            v.Ok? && Explanations(b.events, m, o, NumOrNone(id)) == if v.value.None? then 1 else 0
  {
    hide NoneCovers, OneCovers, Explanations;
    CoverageCounts(b, m, o, id);
  }

  lemma CellsExactly(b: Bundle, s: Sample, o: int)
    requires DeclarationsRule(b) && s.rows.Some? && forall j | 0 <= j < |s.rows.value| :: s.rows.value[j].id.Num?
    ensures AvailabilityOk(b.events, s, o) <==> CellsRule(b.events, s, o)
  {
    hide CellRule, Known, DeclarationsRule, Explanations, MetricValue, Get;
    if s.probe.Some? && s.system.Some? {
      forall m, j | Known(m) && 0 <= j < ObsCount(s, m)
        ensures CellOk(b.events, s, o, m, j) <==>
                match m.domain
                case ProcessDomain => RowCellRule(b.events, o, s.rows.value[j], m.field)
                case ProbeDomain => OwnCellRule(b.events, o, ProbeDomain, s.probe.value, m.field)
                case SystemDomain => OwnCellRule(b.events, o, SystemDomain, s.system.value, m.field)
      {
        CellExactly(b, m, o, if m.domain.ProcessDomain? then s.rows.value[j].id else Absent, ObsLeaf(s, m, j));
      }
      if AvailabilityOk(b.events, s, o) {
        CellsOkAreRuled(b, s, o);
      }
    }
  }

  lemma CellsOkAreRuled(b: Bundle, s: Sample, o: int)
    requires DeclarationsRule(b) && s.rows.Some? && forall j | 0 <= j < |s.rows.value| :: s.rows.value[j].id.Num?
    requires AvailabilityOk(b.events, s, o)
    ensures CellsRule(b.events, s, o)
  {
    hide CellRule, Known, DeclarationsRule, Explanations, MetricValue, Get;
    forall j, f | 0 <= j < |s.rows.value| && Known(Metric(ProcessDomain, f))
      ensures RowCellRule(b.events, o, s.rows.value[j], f)
    {
      assert CellOk(b.events, s, o, Metric(ProcessDomain, f), j);
      CellExactly(b, Metric(ProcessDomain, f), o, s.rows.value[j].id, Get(s.rows.value[j].cells, f));
    }
    forall f | Known(Metric(ProbeDomain, f))
      ensures OwnCellRule(b.events, o, ProbeDomain, s.probe.value, f)
    {
      assert CellOk(b.events, s, o, Metric(ProbeDomain, f), 0);
      CellExactly(b, Metric(ProbeDomain, f), o, Absent, Get(s.probe.value, f));
    }
    forall f | Known(Metric(SystemDomain, f))
      ensures OwnCellRule(b.events, o, SystemDomain, s.system.value, f)
    {
      assert CellOk(b.events, s, o, Metric(SystemDomain, f), 0);
      CellExactly(b, Metric(SystemDomain, f), o, Absent, Get(s.system.value, f));
    }
  }

  // ---- One sample ------------------------------------------------------------------------------

  /** The exact sum of the rows before the first one that lacks the count fits; without such a row it is recorded. */
  predicate SumRule(rows: seq<Row>, f: Field, recorded: Leaf) {
    var k := FirstAbsent(rows, f, |rows|);
    if Total(rows, f, k) > 0xFFFF_FFFF_FFFF_FFFF then false
    else recorded == if k == |rows| then Num(Total(rows, f, |rows|)) else Absent
  }

  predicate RowsRule(rows: seq<Row>) {
    && (forall j | 0 <= j < |rows| :: rows[j].id.Num?)
    && (forall j, k | 0 <= j < k < |rows| :: rows[j].id != rows[k].id)
  }

  predicate JobRule(j: Job) {
    j.userTime.Num? && j.kernelTime.Num? && j.userTime.n + j.kernelTime.n <= 0xFFFF_FFFF_FFFF_FFFF
  }

  ghost predicate SampleRule(s: Sample, o: int, events: seq<Event>) {
    && s.v2 && s.isSample && s.monotonic.Num? && !s.gap.Malformed?
    && s.rows.Some? && RowsRule(s.rows.value) && CellsRule(events, s, o)
    && SumRule(s.rows.value, WorkingSetBytes, s.workingSetSum) && SumRule(s.rows.value, PrivateBytes, s.privateSum)
    && (s.job.Some? ==> JobRule(s.job.value))
  }

  lemma RuledCellIsReadable(events: seq<Event>, s: Sample, o: int, j: int, f: Field)
    requires s.rows.Some? && CellsRule(events, s, o)
    requires 0 <= j < |s.rows.value| && Known(Metric(ProcessDomain, f))
    ensures Get(s.rows.value[j].cells, f).Num? || Get(s.rows.value[j].cells, f).Absent?
  {
    hide NoneCovers, OneCovers;
    assert RowCellRule(events, o, s.rows.value[j], f);
  }

  lemma SumExactly(events: seq<Event>, s: Sample, o: int, f: Field, recorded: Leaf)
    requires s.rows.Some? && CellsRule(events, s, o) && Known(Metric(ProcessDomain, f))
    ensures SumRule(s.rows.value, f, recorded) <==> SumOf(s, f).Ok? && WitnessOk(recorded, SumOf(s, f).value)
  {
    hide CellsRule, Get;
    var rows := s.rows.value;
    forall j | 0 <= j < |rows|
      ensures OptionalU64(LeafAt(rows, f, j)).Ok?
    {
      RuledCellIsReadable(events, s, o, j, f);
    }
    SumOfPrefix(rows, f, |rows|);
  }

  lemma SampleExactly(b: Bundle, s: Sample, o: int)
    requires DeclarationsRule(b)
    ensures s.v2 && SampleOk(s, o, b.events, true) <==> SampleRule(s, o, b.events)
  {
    hide DeclarationsRule, AvailabilityOk, CellsRule, SumRule, SumOf, WitnessOk, HandlesOf;
    if s.rows.Some? {
      assert RowsOf(s) == s.rows.value;
      assert RowsOk(s) <==> RowsRule(s.rows.value);
    }
    if s.rows.Some? && RowsRule(s.rows.value) {
      CellsExactly(b, s, o);
      if CellsRule(b.events, s, o) {
        SumExactly(b.events, s, o, WorkingSetBytes, s.workingSetSum);
        SumExactly(b.events, s, o, PrivateBytes, s.privateSum);
        HandlesReadable(b.events, s, o);
      }
    }
  }

  lemma HandlesReadable(events: seq<Event>, s: Sample, o: int)
    requires s.rows.Some? && CellsRule(events, s, o)
    ensures HandlesOf(s).Ok?
  {
    hide NoneCovers, OneCovers;
    assert OwnCellRule(events, o, ProbeDomain, s.probe.value, HandleCount);
  }

  // ---- Job counters over time ------------------------------------------------------------------

  /** Samples `i` and `k` carry jobs and none between them does. */
  predicate NextJob(samples: seq<Sample>, i: int, k: int) {
    && 0 <= i < k < |samples| && samples[i].job.Some? && samples[k].job.Some?
    && forall h | i < h < k :: samples[h].job.None?
  }

  predicate JobStepRule(s: Sample, t: Sample) {
    && s.monotonic.Num? && t.monotonic.Num? && s.monotonic.n <= t.monotonic.n
    && s.job.Some? && t.job.Some? && JobRule(s.job.value) && JobRule(t.job.value)
    && (s.monotonic.n < t.monotonic.n ==>
          s.job.value.userTime.n + s.job.value.kernelTime.n <= t.job.value.userTime.n + t.job.value.kernelTime.n)
  }

  ghost predicate JobsRule(samples: seq<Sample>, n: int) {
    forall i, k | NextJob(samples, i, k) && k < n :: JobStepRule(samples[i], samples[k])
  }

  /** The last of the first `n` samples with a job, or -1. */
  function LastJobIndex(samples: seq<Sample>, n: nat): (k: int)
    requires n <= |samples|
    ensures -1 <= k < n
    ensures k >= 0 ==> samples[k].job.Some?
    ensures forall i | k < i < n :: samples[i].job.None?
  {
    if n == 0 then -1 else if samples[n - 1].job.Some? then n - 1 else LastJobIndex(samples, n - 1)
  }

  predicate TimedJobs(samples: seq<Sample>, n: nat)
    requires n <= |samples|
  {
    forall o | 0 <= o < n :: samples[o].monotonic.Num? && (samples[o].job.Some? ==> JobRule(samples[o].job.value))
  }

  lemma {:induction false} LastPoint(samples: seq<Sample>, n: nat)
    requires n <= |samples| && TimedJobs(samples, n)
    ensures var k, ps := LastJobIndex(samples, n), JobPoints(samples, n);
            if k < 0 then ps == []
            else ps != [] && ps[|ps| - 1] ==
                 JobPoint(samples[k].monotonic.n,
                          samples[k].job.value.userTime.n + samples[k].job.value.kernelTime.n)
  {
    if n > 0 {
      LastPoint(samples, n - 1);
    }
  }

  lemma {:induction false} JobsExactly(samples: seq<Sample>, n: nat)
    requires n <= |samples| && TimedJobs(samples, n)
    ensures PointsOk(JobPoints(samples, n)) <==> JobsRule(samples, n)
  {
    hide PointsOk, JobsRule;
    if n == 0 {
      NoPoints(samples);
    } else {
      JobsExactly(samples, n - 1);
      if samples[n - 1].job.Some? {
        NextPoint(samples, n);
      } else {
        JobsRuleSame(samples, n);
        assert JobPoints(samples, n) == JobPoints(samples, n - 1);
      }
    }
  }

  lemma NextPoint(samples: seq<Sample>, n: nat)
    requires 0 < n <= |samples| && TimedJobs(samples, n) && samples[n - 1].job.Some?
    requires PointsOk(JobPoints(samples, n - 1)) <==> JobsRule(samples, n - 1)
    ensures PointsOk(JobPoints(samples, n)) <==> JobsRule(samples, n)
  {
    hide PointsOk, JobsRule, JobStepRule, StepOk, LastJobIndex;
    LastPoint(samples, n - 1);
    var ps, k := JobPoints(samples, n - 1), LastJobIndex(samples, n - 1);
    var point := JobPoint(samples[n - 1].monotonic.n, CpuOf(samples[n - 1].job.value));
    assert JobPoints(samples, n) == ps + [point];
    if PointsOk(ps + [point]) {
      PointsStart(ps, point);
    }
    if PointsOk(ps) {
      SamplePass.PointsSnoc(ps, point);
    }
    JobsRuleStep(samples, n, k);
    if k >= 0 {
      StepExactly(samples[k], samples[n - 1], ps[|ps| - 1], point);
    }
  }

  lemma NoPoints(samples: seq<Sample>)
    ensures PointsOk(JobPoints(samples, 0)) && JobsRule(samples, 0)
  {
  }

  lemma PointsStart(ps: seq<JobPoint>, p: JobPoint)
    requires PointsOk(ps + [p])
    ensures PointsOk(ps)
  {
    forall k | 0 < k < |ps|
      ensures StepOkAt(ps, k)
    {
      assert StepOkAt(ps + [p], k);
    }
  }

  lemma JobsRuleStep(samples: seq<Sample>, n: nat, k: int)
    requires 0 < n <= |samples| && samples[n - 1].job.Some? && k == LastJobIndex(samples, n - 1)
    ensures JobsRule(samples, n) <==>
            JobsRule(samples, n - 1) && (k >= 0 ==> JobStepRule(samples[k], samples[n - 1]))
  {
    hide JobStepRule;
    if k >= 0 {
      assert NextJob(samples, k, n - 1);
    }
    forall i, j | NextJob(samples, i, j) && j < n
      ensures j < n - 1 || (k >= 0 && i == k)
    {
    }
  }

  lemma JobsRuleSame(samples: seq<Sample>, n: nat)
    requires 0 < n <= |samples| && samples[n - 1].job.None?
    ensures JobsRule(samples, n) <==> JobsRule(samples, n - 1)
  {
    hide JobStepRule;
    forall i, j | NextJob(samples, i, j) && j < n
      ensures j < n - 1
    {
    }
  }

  lemma StepExactly(s: Sample, t: Sample, a: JobPoint, p: JobPoint)
    requires s.monotonic.Num? && t.monotonic.Num? && s.job.Some? && t.job.Some?
    requires JobRule(s.job.value) && JobRule(t.job.value)
    requires a == JobPoint(s.monotonic.n, s.job.value.userTime.n + s.job.value.kernelTime.n)
    requires p == JobPoint(t.monotonic.n, CpuOf(t.job.value))
    ensures StepOk(a, p) <==> JobStepRule(s, t)
  {
  }

  predicate FinalJobRule(samples: seq<Sample>) {
    forall k | 0 <= k < |samples| && LastWithJob(samples, k) ::
      var job := samples[k].job.value;
      && job.readBytes.Num? && job.writeBytes.Num?
      && job.readOperations.Num? && job.writeOperations.Num? && job.totalProcesses.Num?
  }

  predicate LastWithJob(samples: seq<Sample>, k: int) {
    && 0 <= k < |samples| && samples[k].job.Some?
    && forall h | k < h < |samples| :: samples[h].job.None?
  }

  lemma {:induction false} JobAtIndex(samples: seq<Sample>, n: nat)
    requires n <= |samples|
    ensures var k := LastJobIndex(samples, n); LastJob(samples, n) == if k < 0 then None else samples[k].job
  {
    if n > 0 {
      JobAtIndex(samples, n - 1);
    }
  }

  lemma FinalJobExactly(samples: seq<Sample>)
    requires TimedJobs(samples, |samples|)
    ensures FinalJobReadable(samples) <==> FinalJobRule(samples)
  {
    JobAtIndex(samples, |samples|);
    var k := LastJobIndex(samples, |samples|);
    forall i | 0 <= i < |samples|
      ensures LastWithJob(samples, i) <==> i == k
    {
    }
  }

  // ---- The root's exit -------------------------------------------------------------------------

  predicate RootExited(e: Event) {
    e.ExitObserved? && e.process == Num(1)
  }

  predicate Numeric(l: Leaf) {
    l.Absent? || l.Num?
  }

  predicate ExitRule(e: Event)
    requires e.ExitObserved?
  {
    && Numeric(e.exitCode) && (e.exitCode.Num? ==> e.exitCode.n <= 0xFFFF_FFFF)
    && Numeric(e.userTime) && Numeric(e.kernelTime) && Numeric(e.readBytes) && Numeric(e.writeBytes)
    && (e.fidelity.NoText? || e.fidelity.Text?)
  }

  predicate TerminalRule(b: Bundle) {
    && (forall i, k | 0 <= i < k < |b.events| :: !(RootExited(b.events[i]) && RootExited(b.events[k])))
    && (forall i | 0 <= i < |b.events| && RootExited(b.events[i]) ::
          Identified(b.processes, Num(1)) && ExitRule(b.events[i]))
  }

  lemma TerminalExactly(b: Bundle)
    ensures TerminalOk(b.events, b.processes, true) <==> TerminalRule(b)
  {
    hide Authority, Identified, ExitRule, TerminalReadable;
    var p := RootExit();
    AuthorityIsIdentity(b.processes, 1);
    FirstMatchUnique(b.events, p);
    assert forall e :: p(e) <==> RootExited(e);
    forall i | 0 <= i < |b.events| && RootExited(b.events[i])
      ensures ExitRule(b.events[i]) <==> TerminalReadable(b.events[i])
      ensures Count(b.events, p) >= 1
      ensures Count(b.events, p) == 1 ==> FirstMatch(b.events, p) == Some(b.events[i])
    {
      ExitExactly(b.events[i]);
      CountAt(b.events, p, i);
      assert b.events[i] in b.events;
    }
    if TerminalOk(b.events, b.processes, true) {
      forall i, k | 0 <= i < k < |b.events| && RootExited(b.events[i]) && RootExited(b.events[k])
        ensures false
      {
        CountOneSame(b.events, p, i, k);
      }
    }
    if TerminalRule(b) {
      OneRootExit(b);
    }
  }

  lemma ExitExactly(e: Event)
    requires e.ExitObserved?
    ensures ExitRule(e) <==> TerminalReadable(e)
  {
  }

  lemma OneRootExit(b: Bundle)
    requires TerminalRule(b)
    ensures Count(b.events, RootExit()) <= 1
    ensures Count(b.events, RootExit()) == 1 ==> Identified(b.processes, Num(1))
  {
    hide Identified, ExitRule;
    var p := RootExit();
    if Count(b.events, p) >= 1 {
      var i := CountWitness(b.events, p);
      assert RootExited(b.events[i]);
      CountAt(b.events, p, i);
      forall k | 0 <= k < |b.events| && k != i
        ensures !p(b.events[k])
      {
        assert !(RootExited(b.events[i]) && RootExited(b.events[k]));
      }
    }
  }

  // ---- The bundle ------------------------------------------------------------------------------

  predicate RowLeftOut(e: Event, m: Metric, o: int, rows: seq<Row>) {
    exists j | 0 <= j < |rows| :: Get(rows[j].cells, m.field).Absent? && Covers(e, m, o, rows[j].id)
  }

  predicate OwnLeftOut(e: Event, m: Metric, o: int, cells: Option<Cells>) {
    cells.Some? && Get(cells.value, m.field).Absent? && Covers(e, m, o, Absent)
  }

  /** Some absent cell of sample `o` is covered by the declaration. */
  predicate UsedIn(e: Event, m: Metric, o: int, s: Sample) {
    match m.domain
    case ProcessDomain => s.rows.Some? && RowLeftOut(e, m, o, s.rows.value)
    case ProbeDomain => OwnLeftOut(e, m, o, s.probe)
    case SystemDomain => OwnLeftOut(e, m, o, s.system)
  }

  predicate Used(e: Event, samples: seq<Sample>)
    requires e.MetricUnavailable?
  {
    e.metric.Text? && exists o | 0 <= o < |samples| :: UsedIn(e, e.metric.value, o, samples[o])
  }

  ghost predicate SamplesRule(b: Bundle) {
    forall o | 0 <= o < |b.samples| :: SampleRule(b.samples[o], o, b.events)
  }

  ghost predicate AllUsed(b: Bundle)
  {
    forall i | 0 <= i < |b.events| && b.events[i].MetricUnavailable? :: Used(b.events[i], b.samples)
  }

  lemma UsedInExactly(e: Event, b: Bundle, o: nat)
    requires e.MetricUnavailable? && DeclarationRule(e, b) && o < |b.samples|
    requires SampleRule(b.samples[o], o, b.events)
    ensures (exists j :: Accounts(e, b.samples, o, j)) <==> UsedIn(e, e.metric.value, o, b.samples[o])
  {
    hide CellsRule, SumRule, JobRule, Covers, Explains, Known, SemanticReason, OperationalReason, NamesRow, Identified;
    var m, s := e.metric.value, b.samples[o];
    SampleHasParts(b.events, s, o);
    forall j | 0 <= j < ObsCount(s, m)
      ensures var id := if m.domain.ProcessDomain? then s.rows.value[j].id else Absent;
              Accounts(e, b.samples, o, j) <==> ObsLeaf(s, m, j).Absent? && Covers(e, m, o, id)
    {
      CoversExactly(e, b, m, o, if m.domain.ProcessDomain? then s.rows.value[j].id else Absent);
    }
    if UsedIn(e, m, o, s) {
      if m.domain.ProcessDomain? {
        var j :| 0 <= j < |s.rows.value| && Get(s.rows.value[j].cells, m.field).Absent? &&
          Covers(e, m, o, s.rows.value[j].id);
        assert Accounts(e, b.samples, o, j);
      } else {
        assert Accounts(e, b.samples, o, 0);
      }
    }
  }

  lemma SampleHasParts(events: seq<Event>, s: Sample, o: int)
    requires SampleRule(s, o, events)
    ensures s.probe.Some? && s.system.Some?
  {
  }

  lemma UsedExactly(e: Event, b: Bundle)
    requires e.MetricUnavailable? && DeclarationRule(e, b) && SamplesRule(b)
    ensures ExplainsSomething(e, b.samples) <==> Used(e, b.samples)
  {
    hide SampleRule, Accounts, UsedIn, DeclarationRule;
    assert forall o | 0 <= o < |b.samples| :: SampleRule(b.samples[o], o, b.events);
    assert e.metric.Text? by { DeclarationNamesMetric(e, b); }
    if ExplainsSomething(e, b.samples) {
      var o, j :| 0 <= o < |b.samples| && Accounts(e, b.samples, o, j);
      UsedInExactly(e, b, o);
    }
    if Used(e, b.samples) {
      var o :| 0 <= o < |b.samples| && UsedIn(e, e.metric.value, o, b.samples[o]);
      UsedInExactly(e, b, o);
      var j :| Accounts(e, b.samples, o, j);
    }
  }

  lemma DeclarationNamesMetric(e: Event, b: Bundle)
    requires e.MetricUnavailable? && DeclarationRule(e, b)
    ensures e.metric.Text?
  {
  }

  lemma IdleExactly(b: Bundle)
    requires DeclarationsRule(b) && SamplesRule(b)
    ensures NothingIdle(b) <==> AllUsed(b)
  {
    hide SamplesRule, DeclarationRule, ExplainsSomething, Used;
    forall i | 0 <= i < |b.events| && b.events[i].MetricUnavailable?
      ensures ExplainsSomething(b.events[i], b.samples) <==> Used(b.events[i], b.samples)
    {
      UsedExactly(b.events[i], b);
    }
  }

  /** Two declarations under one key would both cover the cell that either is for. */
  lemma KeysAreDistinct(b: Bundle)
    requires DeclarationsRule(b) && NothingIdle(b)
    requires forall o | 0 <= o < |b.samples| :: AvailabilityOk(b.events, b.samples[o], o)
    ensures forall i, k | 0 <= i < k < |b.events| :: !SameKey(b.events[i], b.events[k])
  {
    hide DeclarationsRule;
    forall i, k | 0 <= i < k < |b.events| && SameKey(b.events[i], b.events[k])
      ensures false
    {
      assert ExplainsSomething(b.events[i], b.samples);
      var o, j :| 0 <= o < |b.samples| && Accounts(b.events[i], b.samples, o, j);
      var m := DeclOf(b.events[i]).metric;
      assert AvailabilityOk(b.events, b.samples[o], o);
      assert CellOk(b.events, b.samples[o], o, m, j);
      var p := Explaining(m, o, ObsProcess(b.samples[o], m, j));
      CountOneSame(b.events, p, i, k);
    }
  }

  // ---- Status ----------------------------------------------------------------------------------

  predicate OperationallyDegraded(e: Event) {
    e == CollectorDegradation(true) || (e.MetricUnavailable? && OperationalReason(e))
  }

  function ValidityRule(events: seq<Event>): Validity {
    if exists i | 0 <= i < |events| :: OperationallyDegraded(events[i]) then Degraded else Valid
  }

  function CompletenessRule(events: seq<Event>): Completeness {
    if exists i | 0 <= i < |events| :: events[i].MetricUnavailable? then DeclaredPartial else Complete
  }

  predicate ManifestRule(b: Bundle) {
    match b.manifest
    case NoManifest => true
    case UnreadableManifest => false
    case Manifest(v2, validity, completeness) =>
      v2 ==> validity == Text(ValidityRule(b.events)) && completeness == Text(CompletenessRule(b.events))
  }

  lemma StatusExactly(b: Bundle)
    requires Accounting.AcceptedV2(b)
    ensures ValidityOf(b) == ValidityRule(b.events) && CompletenessOf(b) == CompletenessRule(b.events)
  {
    hide Accounting.AcceptedV2, ValidityOf, CompletenessOf;
    Accounting.DegradedIffOperationalEvent(b);
    Accounting.CompleteIffNoDeclarations(b);
    DegradedEvents(b.events);
    if i :| 0 <= i < |b.events| && b.events[i].MetricUnavailable? {
      assert b.events[i] in b.events;
    }
  }

  lemma DegradedEvents(events: seq<Event>)
    ensures RetentionDegraded(events) ||
            (exists e :: e in events && e.MetricUnavailable? && Operational(DeclOf(e).reason))
            <==> ValidityRule(events) == Degraded
  {
    if e :| e in events && e.CollectorDegradation? && e.retention {
      var i :| 0 <= i < |events| && events[i] == e;
      assert OperationallyDegraded(events[i]);
    }
    if e :| e in events && e.MetricUnavailable? && Operational(DeclOf(e).reason) {
      var i :| 0 <= i < |events| && events[i] == e;
      assert OperationallyDegraded(events[i]);
    }
    if i :| 0 <= i < |events| && OperationallyDegraded(events[i]) {
      assert events[i] in events;
    }
  }

  // ---- Acceptance ------------------------------------------------------------------------------

  /** The rules of one bundle, its manifest apart. */
  ghost predicate StreamRules(b: Bundle) {
    && b.samples != []
    && (forall k | 0 <= k < |b.processes| :: RecordRule(b.processes[k]))
    && DeclarationsRule(b) && SamplesRule(b) && AllUsed(b)
    && JobsRule(b.samples, |b.samples|) && FinalJobRule(b.samples) && TerminalRule(b)
    && b.samples[0].monotonic.n <= b.samples[|b.samples| - 1].monotonic.n
  }

  ghost predicate Rules(b: Bundle) {
    StreamRules(b) && ManifestRule(b)
  }

  lemma DeclarationsExactly(b: Bundle)
    ensures (forall i | 0 <= i < |b.events| && b.events[i].MetricUnavailable? ::
               DeclarationOk(b.events[i], b.samples, b.processes)) <==> DeclarationsRule(b)
  {
    hide DeclarationOk, DeclarationRule;
    forall i | 0 <= i < |b.events| && b.events[i].MetricUnavailable?
      ensures DeclarationOk(b.events[i], b.samples, b.processes) <==> DeclarationRule(b.events[i], b)
    {
      DeclarationExactly(b.events[i], b);
    }
  }

  lemma SamplesExactly(b: Bundle)
    requires DeclarationsRule(b)
    ensures (forall s | s in b.samples :: s.v2) && AllSamplesOk(b.samples, |b.samples|, b.events, true) <==>
            SamplesRule(b)
  {
    hide SampleOk, SampleRule, DeclarationsRule;
    forall o | 0 <= o < |b.samples|
      ensures b.samples[o].v2 && SampleOk(b.samples[o], o, b.events, true) <==> SampleRule(b.samples[o], o, b.events)
    {
      SampleExactly(b, b.samples[o], o);
    }
    if SamplesRule(b) {
      forall s | s in b.samples
        ensures s.v2
      {
        var o :| 0 <= o < |b.samples| && b.samples[o] == s;
        assert SampleRule(b.samples[o], o, b.events);
      }
    }
  }

  lemma RuledSamples(b: Bundle)
    requires SamplesRule(b)
    ensures TimedJobs(b.samples, |b.samples|)
    ensures b.samples != [] ==> IsV2(b)
  {
    hide CellsRule, SumRule, RowsRule;
    forall o | 0 <= o < |b.samples|
      ensures b.samples[o].monotonic.Num? && (b.samples[o].job.Some? ==> JobRule(b.samples[o].job.value))
    {
      assert SampleRule(b.samples[o], o, b.events);
    }
    if b.samples != [] {
      assert SampleRule(b.samples[0], 0, b.events);
      assert b.samples[0] in b.samples;
    }
  }

  lemma AcceptedObeys(b: Bundle)
    requires Accounting.AcceptedV2(b)
    ensures StreamRules(b)
  {
    hide AllSamplesOk, SamplesRule, DeclarationOk, DeclarationsRule, PointsOk, JobsRule, TerminalOk, TerminalRule,
      NothingIdle, AllUsed, FinalJobReadable, FinalJobRule, ManifestOk, IsV2, SameKey;
    DeclarationsExactly(b);
    SamplesExactly(b);
    RuledSamples(b);
    IdleExactly(b);
    JobsExactly(b.samples, |b.samples|);
    FinalJobExactly(b.samples);
    TerminalExactly(b);
  }

  lemma RulesAreEnough(b: Bundle)
    requires StreamRules(b) && b.manifest == NoManifest
    ensures Accounting.AcceptedV2(b)
  {
    hide AllSamplesOk, SamplesRule, DeclarationOk, DeclarationsRule, PointsOk, JobsRule, TerminalOk, TerminalRule,
      NothingIdle, AllUsed, FinalJobReadable, FinalJobRule, IsV2, SameKey;
    DeclarationsExactly(b);
    SamplesExactly(b);
    RuledSamples(b);
    IdleExactly(b);
    JobsExactly(b.samples, |b.samples|);
    FinalJobExactly(b.samples);
    TerminalExactly(b);
    AvailabilityHolds(b);
    KeysAreDistinct(b);
  }

  lemma AvailabilityHolds(b: Bundle)
    requires AllSamplesOk(b.samples, |b.samples|, b.events, true)
    ensures forall o | 0 <= o < |b.samples| :: AvailabilityOk(b.events, b.samples[o], o)
  {
    hide AvailabilityOk, HeaderOk, RowsOk, SumsOk, HandlesOf;
    forall o | 0 <= o < |b.samples|
      ensures AvailabilityOk(b.events, b.samples[o], o)
    {
      assert SampleOk(b.samples[o], o, b.events, true);
    }
  }

  lemma SameStreams(b: Bundle)
    ensures var c := b.(manifest := NoManifest); StreamRules(c) == StreamRules(b)
  {
    hide Identified, NamesRow, SemanticReason, OperationalReason, JobsRule, FinalJobRule, SampleRule, Used, RecordRule,
      ExitRule;
    var c := b.(manifest := NoManifest);
    forall e: Event | e.MetricUnavailable?
      ensures DeclarationRule(e, c) == DeclarationRule(e, b)
    {
    }
    assert DeclarationsRule(c) == DeclarationsRule(b);
  }

  lemma SameAcceptance(b: Bundle)
    ensures var c := b.(manifest := NoManifest);
            && IsV2(c) == IsV2(b) && ValidityOf(c) == ValidityOf(b) && CompletenessOf(c) == CompletenessOf(b)
            && (IsV2(b) ==> (Accepted(b) <==> Accepted(c) && ManifestOk(b)))
  {
    hide DeclarationOk, ExplainsSomething, SameKey, AllSamplesOk, PointsOk, TerminalOk;
  }

  /** A bundle with a v2 sample is accepted exactly when it obeys the rules. */
  lemma AcceptedIffRules(b: Bundle)
    requires exists o :: 0 <= o < |b.samples| && b.samples[o].v2
    ensures Accepted(b) <==> Rules(b)
  {
    hide Accepted, StreamRules, ManifestOk, ManifestRule, ValidityOf, CompletenessOf, ValidityRule, CompletenessRule;
    var o :| 0 <= o < |b.samples| && b.samples[o].v2;
    assert b.samples[o] in b.samples;
    var c := b.(manifest := NoManifest);
    SameStreams(b);
    SameAcceptance(b);
    if Accepted(c) {
      AcceptedObeys(c);
    }
    if StreamRules(c) {
      RulesAreEnough(c);
      StatusExactly(c);
      ManifestExactly(b);
    }
  }

  lemma ManifestExactly(b: Bundle)
    requires IsV2(b) && ValidityOf(b) == ValidityRule(b.events) && CompletenessOf(b) == CompletenessRule(b.events)
    ensures ManifestOk(b) <==> ManifestRule(b)
  {
    hide ValidityOf, CompletenessOf, ValidityRule, CompletenessRule, IsV2;
  }

  // ---- What a caller sees of the pairing of reasons and subjects -------------------------------

  /**
   * In accepted v2 evidence, read off the declarations themselves: the semantic reasons occur with RUN only, the
   * operational ones with SAMPLE on a probe or system metric or with PROCESS_SAMPLE on a process metric only.
   */
  lemma ReasonsPairWithSubjects(b: Bundle, i: nat)
    requires Accounting.AcceptedV2(b) && i < |b.events| && b.events[i].MetricUnavailable?
    ensures var e := b.events[i];
            && e.metric.Text? && e.subject.Text? && e.reason.Text?
            && match e.reason.value
               case Unsupported => e.subject.value == RunSubject
               case NotApplicable => e.subject.value == RunSubject
               case SemanticMismatch => e.subject.value == RunSubject
               case OtherReason => false
               case _ =>
                 e.subject.value ==
                 if e.metric.value.domain == ProcessDomain then ProcessSampleSubject else SampleSubject
  {
    hide SamplesRule, AllUsed, JobsRule, FinalJobRule, TerminalRule, Accounting.AcceptedV2, Identified, NamesRow;
    AcceptedObeys(b);
    assert DeclarationRule(b.events[i], b);
  }

  /** One declaration that breaks the pairing makes a v2 bundle unacceptable. */
  lemma MispairedIsRefused(b: Bundle, i: nat)
    requires i < |b.events| && b.events[i].MetricUnavailable?
    requires var e := b.events[i]; e.metric.Text? && e.subject.Text? && e.reason.Text?
    requires var e := b.events[i];
             var r, s, d := e.reason.value, e.subject.value, e.metric.value.domain;
             || ((r == Unsupported || r == NotApplicable || r == SemanticMismatch) && s != RunSubject)
             || ((r == AuthorityUnavailable || r == SamplingDegraded) &&
                 s != if d == ProcessDomain then ProcessSampleSubject else SampleSubject)
    ensures (exists o :: 0 <= o < |b.samples| && b.samples[o].v2) ==> !Accepted(b)
  {
    hide Accepted;
    if Accepted(b) && exists o :: 0 <= o < |b.samples| && b.samples[o].v2 {
      var o :| 0 <= o < |b.samples| && b.samples[o].v2;
      assert b.samples[o] in b.samples;
      ReasonsPairWithSubjects(b, i);
    }
  }
}
