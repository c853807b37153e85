/**
 * The availability half of the summariser: identity authority, parsing of `metric_unavailable`
 * declarations, and the scan of every sample, metric and row against them.
 */
module Availability {
  import opened Prelude
  import opened Records
  import opened SummarySpec

  method ProcessAuthority(processes: seq<ProcessRecord>) returns (r: Option<map<u64, bool>>)
    ensures r.Some? <==> RecordsReadable(processes)
    ensures r.Some? ==> forall id: u64 :: (id in r.value && r.value[id]) <==> Authority(processes, id)
  {
    hide Authority, Count, RecordValid, HasId;
    var authority: map<u64, bool> := map[];
    NobodyYet();
    assert processes[..0] == [];
    for k := 0 to |processes|
      invariant forall i | 0 <= i < k :: RecordReadable(processes[i])
      invariant forall id: u64 :: id in authority <==> Count(processes[..k], HasId(id)) >= 1
      invariant forall id: u64 :: (id in authority && authority[id]) <==> Authority(processes[..k], id)
    {
      var record := processes[k];
      if !RecordReadable(record) {
        return None;
      }
      var id := record.id.n;
      var valid := RecordValid(record);
      assert processes[..k + 1] == processes[..k] + [record];
      forall other: u64
        ensures Count(processes[..k + 1], HasId(other)) ==
                Count(processes[..k], HasId(other)) + (if other == id then 1 else 0)
        ensures Authority(processes[..k + 1], other) <==>
                if other == id then Count(processes[..k], HasId(id)) == 0 && valid
                else Authority(processes[..k], other)
      {
        AuthoritySnoc(processes[..k], record, other);
      }
      authority := authority[id := if id in authority then false else valid];
    }
    assert processes[..|processes|] == processes;
    return Some(authority);
  }

  lemma NobodyYet()
    ensures forall id: u64 :: Count([], HasId(id)) == 0 && !Authority([], id)
  {
  }

  lemma AuthoritySnoc(ps: seq<ProcessRecord>, p: ProcessRecord, id: u64)
    requires RecordReadable(p)
    ensures Count(ps + [p], HasId(id)) == Count(ps, HasId(id)) + (if id == p.id.n then 1 else 0)
    ensures Authority(ps + [p], id) <==>
            if id == p.id.n then Count(ps, HasId(id)) == 0 && RecordValid(p) else Authority(ps, id)
  {
    CountSnoc(ps, p, HasId(id));
    var qs := ps + [p];
    assert forall q :: q in qs <==> q in ps || q == p;
    if id == p.id.n {
      CountZero(ps, HasId(id));
      assert p in qs;
      if Count(ps, HasId(id)) == 0 {
        assert forall q | q in ps :: !HasId(id)(q);
      }
    }
  }

  // ---- Parsing declarations --------------------------------------------------------------------

  /** The declarations of a stream, in order. */
  function Declarations(events: seq<Event>): seq<Decl> {
    if events == [] then []
    else
      var last := events[|events| - 1];
      Declarations(events[..|events| - 1]) + (if last.MetricUnavailable? then [DeclOf(last)] else [])
  }

  predicate HasAuthority(authority: map<u64, bool>, id: u64) {
    id in authority && authority[id]
  }

  /** One turn of the parser: the declaration, or None where the source bails out. */
  function ParseDeclaration(e: Event, samples: seq<Sample>, authority: map<u64, bool>): (r: Option<Decl>)
    requires e.MetricUnavailable?
  {
    if !e.metric.Text? || !Known(e.metric.value) || !e.subject.Text? || !e.reason.Text? then None
    else if e.reason.value.OtherReason? then None
    else
      var metric, subject, reason := e.metric.value, e.subject.value, e.reason.value;
      var needsProcess := subject.ProcessSubject? || subject.ProcessSampleSubject?;
      var needsSample := subject.SampleSubject? || subject.ProcessSampleSubject?;
      if needsProcess && RequiredU64(e.processId).Err? then None
      else if needsSample && RequiredU64(e.ordinal).Err? then None
      else
        var process := if needsProcess then Some(e.processId.n) else None;
        var sample := if needsSample then Some(e.ordinal.n) else None;
        if subject.OtherSubject? then None
        else if sample.Some? && sample.value >= |samples| then None
        else if metric.domain.ProcessDomain? && subject.SampleSubject? then None
        else if !metric.domain.ProcessDomain? && !(subject.RunSubject? || subject.SampleSubject?) then None
        else if (reason.Unsupported? || reason.NotApplicable? || reason.SemanticMismatch?) &&
                !subject.RunSubject? then None
        else if reason.AuthorityUnavailable? && !(subject.ProcessSampleSubject? || subject.SampleSubject?) then None
        else if reason.SamplingDegraded? && !(subject.ProcessSampleSubject? || subject.SampleSubject?) then None
        else if process.Some? && !HasAuthority(authority, process.value) then None
        else if process.Some? && sample.Some? && !InSample(samples[sample.value], process.value) then None
        else Some(Decl(metric, subject, reason, process, sample))
  }

  lemma ParseDeclarationIsExact(e: Event, samples: seq<Sample>, authority: map<u64, bool>,
                                processes: seq<ProcessRecord>)
    requires e.MetricUnavailable?
    requires forall id: u64 :: HasAuthority(authority, id) <==> Authority(processes, id)
    ensures ParseDeclaration(e, samples, authority).Some? <==> DeclarationOk(e, samples, processes)
    ensures ParseDeclaration(e, samples, authority).Some? ==>
              ParseDeclaration(e, samples, authority).value == DeclOf(e)
  {
  }

  ghost predicate DistinctKeys(events: seq<Event>, n: int) {
    forall i, j | 0 <= i < j < n <= |events| :: !SameKey(events[i], events[j])
  }

  method ParseUnavailable(b: Bundle, authority: map<u64, bool>) returns (r: Option<seq<Decl>>)
    requires forall id: u64 :: HasAuthority(authority, id) <==> Authority(b.processes, id)
    ensures r.Some? <==> DeclarationsOk(b)
    ensures r.Some? ==> r.value == Declarations(b.events)
  {
    var seen: set<Key> := {};
    var result: seq<Decl> := [];
    for k := 0 to |b.events|
      invariant forall i | 0 <= i < k && b.events[i].MetricUnavailable? ::
                  DeclarationOk(b.events[i], b.samples, b.processes)
      invariant forall i | 0 <= i < k && b.events[i].MetricUnavailable? :: KeyOf(DeclOf(b.events[i])) in seen
      invariant forall key | key in seen ::
                  exists i :: 0 <= i < k && b.events[i].MetricUnavailable? && KeyOf(DeclOf(b.events[i])) == key
      invariant DistinctKeys(b.events, k)
      invariant result == Declarations(b.events[..k])
    {
      var event := b.events[k];
      assert b.events[..k + 1][..k] == b.events[..k];
      if event.MetricUnavailable? {
        ParseDeclarationIsExact(event, b.samples, authority, b.processes);
        var parsed := ParseDeclaration(event, b.samples, authority);
        if parsed.None? {
          return None;
        }
        var key := KeyOf(parsed.value);
        if key in seen {
          var i :| 0 <= i < k && b.events[i].MetricUnavailable? && KeyOf(DeclOf(b.events[i])) == key;
          assert SameKey(b.events[i], b.events[k]);
          return None;
        }
        seen := seen + {key};
        result := result + [parsed.value];
      }
    }
    assert b.events[..|b.events|] == b.events;
    return Some(result);
  }

  // ---- The scan --------------------------------------------------------------------------------

  function Applying(m: Metric, ordinal: int, process: Option<u64>): Decl -> bool {
    (d: Decl) => Applies(d, m, ordinal, process)
  }

  /** Filtering the parsed declarations counts the same explanations as the event stream holds. */
  lemma {:induction false} ParsedExplanations(events: seq<Event>, m: Metric, ordinal: int, process: Option<u64>)
    ensures Count(Declarations(events), Applying(m, ordinal, process)) == Explanations(events, m, ordinal, process)
  {
    if events != [] {
      var init, last := events[..|events| - 1], events[|events| - 1];
      var p, q := Applying(m, ordinal, process), Explaining(m, ordinal, process);
      ParsedExplanations(init, m, ordinal, process);
      assert Count(events, q) == Count(init, q) + (if Explains(last, m, ordinal, process) then 1 else 0);
      if last.MetricUnavailable? {
        CountSnoc(Declarations(init), DeclOf(last), p);
        assert p(DeclOf(last)) == q(last);
      } else {
        assert Declarations(events) == Declarations(init);
      }
    }
  }

  lemma {:induction false} DeclarationSource(events: seq<Event>, d: Decl)
    ensures d in Declarations(events) <==> exists e :: e in events && e.MetricUnavailable? && DeclOf(e) == d
  {
    if events != [] {
      var init, last := events[..|events| - 1], events[|events| - 1];
      DeclarationSource(init, d);
      assert forall e :: e in events <==> e in init || e == last;
    }
  }

  /** The declarations that apply to one cell. */
  method Matching(ds: seq<Decl>, m: Metric, ordinal: nat, process: Option<u64>) returns (found: seq<Decl>)
    ensures |found| == Count(ds, Applying(m, ordinal, process))
    ensures forall d :: d in found <==> d in ds && Applies(d, m, ordinal, process)
  {
    found := [];
    for k := 0 to |ds|
      invariant |found| == Count(ds[..k], Applying(m, ordinal, process))
      invariant forall d | d in found :: d in ds && Applies(d, m, ordinal, process)
      invariant forall i | 0 <= i < k && Applies(ds[i], m, ordinal, process) :: ds[i] in found
    {
      assert ds[..k + 1] == ds[..k] + [ds[k]];
      CountSnoc(ds[..k], ds[k], Applying(m, ordinal, process));
      if Applies(ds[k], m, ordinal, process) {
        found := found + [ds[k]];
      }
    }
    assert ds[..|ds|] == ds;
  }

  /** The cell is absent and a declaration with an operational reason applies to it. */
  ghost predicate OperationalAt(events: seq<Event>, s: Sample, ordinal: int, m: Metric, j: int) {
    Omitted(s, m, j) &&
    exists e :: e in events && Explains(e, m, ordinal, ObsProcess(s, m, j)) && Operational(DeclOf(e).reason)
  }

  method CheckCell(s: Sample, ordinal: nat, m: Metric, j: nat, ds: seq<Decl>, ghost events: seq<Event>)
    returns (ok: bool, omitted: bool, operational: bool)
    requires Known(m) && j < ObsCount(s, m) && ds == Declarations(events)
    ensures ok <==> CellOk(events, s, ordinal, m, j)
    ensures ok ==> omitted == Omitted(s, m, j)
    ensures ok ==> (operational <==> OperationalAt(events, s, ordinal, m, j))
  {
    var process := ObsProcess(s, m, j);
    var value := MetricValue(m.field, ObsLeaf(s, m, j));
    if value.Err? {
      return false, false, false;
    }
    var matching := Matching(ds, m, ordinal, process);
    ParsedExplanations(events, m, ordinal, process);
    if value.value.Some? {
      return matching == [], false, false;
    }
    if |matching| != 1 {
      return false, true, false;
    }
    DeclarationSource(events, matching[0]);
    assert matching[0] in matching;
    operational := Operational(matching[0].reason);
    if OperationalAt(events, s, ordinal, m, j) {
      var e :| e in events && Explains(e, m, ordinal, process) && Operational(DeclOf(e).reason);
      DeclarationSource(events, DeclOf(e));
      assert DeclOf(e) in matching;
      assert DeclOf(e) == matching[0];
    }
    return true, true, operational;
  }

  method CheckMetric(s: Sample, ordinal: nat, m: Metric, ds: seq<Decl>, ghost events: seq<Event>)
    returns (ok: bool, omitted: bool, operational: bool)
    requires Known(m) && ds == Declarations(events)
    ensures ok <==> forall j | 0 <= j < ObsCount(s, m) :: CellOk(events, s, ordinal, m, j)
    ensures ok ==> (omitted <==> exists j :: Omitted(s, m, j))
    ensures ok ==> (operational <==> exists j :: OperationalAt(events, s, ordinal, m, j))
  {
    omitted, operational := false, false;
    for k := 0 to ObsCount(s, m)
      invariant forall j | 0 <= j < k :: CellOk(events, s, ordinal, m, j)
      invariant omitted <==> exists j :: j < k && Omitted(s, m, j)
      invariant operational <==> exists j :: j < k && OperationalAt(events, s, ordinal, m, j)
    {
      var cellOk, cellOmitted, cellOperational := CheckCell(s, ordinal, m, k, ds, events);
      if !cellOk {
        return false, false, false;
      }
      omitted := omitted || cellOmitted;
      operational := operational || cellOperational;
    }
    ok := true;
  }

  method CheckAvailability(s: Sample, ordinal: nat, ds: seq<Decl>, ghost events: seq<Event>)
    returns (ok: bool, omitted: bool, operational: bool)
    requires ds == Declarations(events)
    ensures ok <==> AvailabilityOk(events, s, ordinal)
    ensures ok ==> (omitted <==> exists m, j :: Omitted(s, m, j))
    ensures ok ==> (operational <==> exists m, j :: OperationalAt(events, s, ordinal, m, j))
  {
    if s.probe.None? || s.system.None? {
      return false, false, false;
    }
    var table := Metrics();
    forall m ensures m in table <==> Known(m) { TableIsKnown(m); }
    omitted, operational := false, false;
    for k := 0 to |table|
      invariant forall m, j | m in table[..k] && 0 <= j < ObsCount(s, m) :: CellOk(events, s, ordinal, m, j)
      invariant omitted <==> exists m, j :: m in table[..k] && Omitted(s, m, j)
      invariant operational <==> exists m, j :: m in table[..k] && OperationalAt(events, s, ordinal, m, j)
    {
      assert table[k] in table;
      assert forall m :: m in table[..k + 1] <==> m in table[..k] || m == table[k];
      var metricOk, metricOmitted, metricOperational := CheckMetric(s, ordinal, table[k], ds, events);
      if !metricOk {
        return false, false, false;
      }
      omitted := omitted || metricOmitted;
      operational := operational || metricOperational;
    }
    assert table[..|table|] == table;
    ok := true;
  }

  method ValidatePresentMetric(s: Sample, m: Metric) returns (ok: bool)
    ensures ok <==> PresentMetricOk(s, m)
  {
    for i := 0 to ObsCount(s, m)
      invariant forall j | 0 <= j < i :: MetricValue(m.field, ObsLeaf(s, m, j)).Ok?
    {
      if MetricValue(m.field, ObsLeaf(s, m, i)).Err? {
        return false;
      }
    }
    return true;
  }

  /** The historic path's check of present fields. */
  method ValidatePresentMetrics(s: Sample) returns (ok: bool)
    ensures ok <==> PresentMetricsOk(s)
  {
    hide Metrics, Known, PresentMetricOk;
    var table := Metrics();
    forall m ensures m in table <==> Known(m) { TableIsKnown(m); }
    for k := 0 to |table|
      invariant forall m | m in table[..k] :: PresentMetricOk(s, m)
    {
      assert table[k] in table;
      assert forall m :: m in table[..k + 1] <==> m in table[..k] || m == table[k];
      var metricOk := ValidatePresentMetric(s, table[k]);
      if !metricOk {
        return false;
      }
    }
    assert table[..|table|] == table;
    return true;
  }

  /** `event_explains_any`: some absent cell of some sample is covered by the declaration. */
  method EventExplainsAny(d: Decl, samples: seq<Sample>, ghost e: Event) returns (found: bool)
    requires e.MetricUnavailable? && DeclOf(e) == d && Known(d.metric)
    ensures found <==> ExplainsSomething(e, samples)
  {
    for o := 0 to |samples|
      invariant forall o', j | 0 <= o' < o :: !Accounts(e, samples, o', j)
    {
      for k := 0 to ObsCount(samples[o], d.metric)
        invariant forall j | j < k :: !Accounts(e, samples, o, j)
      {
        if ObsLeaf(samples[o], d.metric, k).Absent? &&
           Applies(d, d.metric, o, ObsProcess(samples[o], d.metric, k)) {
          assert Accounts(e, samples, o, k);
          return true;
        }
      }
    }
    return false;
  }
}
