/**
 * The summariser around the pass: the checks that need the whole bundle and the summary itself.
 * `RegenerateSummary` meets its declarative specification exactly: it returns a summary if and only
 * if the bundle is accepted.
 */
module Summariser {
  import opened Prelude
  import opened Records
  import opened SummarySpec
  import opened Availability
  import opened SamplePass
  import EvidenceRules
  import SummaryFields

  // ---- After the pass --------------------------------------------------------------------------

  method CheckExplanations(ds: seq<Decl>, b: Bundle) returns (ok: bool)
    requires ds == Declarations(b.events)
    requires DeclarationsOk(b)
    ensures ok <==> NothingIdle(b)
  {
    for k := 0 to |b.events|
      invariant forall i | 0 <= i < k && b.events[i].MetricUnavailable? :: ExplainsSomething(b.events[i], b.samples)
    {
      if b.events[k].MetricUnavailable? {
        var found := EventExplainsAny(DeclOf(b.events[k]), b.samples, b.events[k]);
        if !found {
          return false;
        }
      }
    }
    return true;
  }

  method CountMatching(events: seq<Event>) returns (n: nat)
    ensures n == Count(events, RootExit())
  {
    n := 0;
    for k := 0 to |events|
      invariant n == Count(events[..k], RootExit())
    {
      assert events[..k + 1] == events[..k] + [events[k]];
      CountSnoc(events[..k], events[k], RootExit());
      if RootExit()(events[k]) {
        n := n + 1;
      }
    }
    assert events[..|events|] == events;
  }

  method RootTerminal(events: seq<Event>, authority: map<u64, bool>, v2: bool, ghost processes: seq<ProcessRecord>)
    returns (r: Option<Terminal>)
    requires forall id: u64 :: HasAuthority(authority, id) <==> Authority(processes, id)
    ensures r.Some? <==> TerminalOk(events, processes, v2)
    ensures r.Some? ==> TerminalIs(events, v2, r.value)
  {
    var roots := CountMatching(events);
    FirstMatchUnique(events, RootExit());
    FirstMatchUnique(events, AnyExit());
    if v2 && roots > 1 {
      return None;
    }
    if v2 && roots == 1 && !HasAuthority(authority, 1) {
      return None;
    }
    var terminal := TerminalEvent(events, v2);
    if terminal.None? {
      return Some(Terminal(None, None, None, None, None, None));
    }
    var e := terminal.value;
    if !TerminalReadable(e) {
      return None;
    }
    return Some(Terminal(NumOrNone(e.exitCode), NumOrNone(e.userTime), NumOrNone(e.kernelTime),
                         NumOrNone(e.readBytes), NumOrNone(e.writeBytes),
                         if e.fidelity.Text? then Some(e.fidelity.value) else None));
  }

  lemma OperationalAgrees(samples: seq<Sample>, events: seq<Event>)
    ensures OperationalUpTo(samples, |samples|, events) <==> OperationalOmission(samples, |samples|, events)
  {
    if OperationalUpTo(samples, |samples|, events) {
      var o, m, j :| 0 <= o < |samples| && OperationalAt(events, samples[o], o, m, j);
      var e :| e in events && Explains(e, m, o, ObsProcess(samples[o], m, j)) && Operational(DeclOf(e).reason);
      assert Accounts(e, samples, o, j);
    }
    if OperationalOmission(samples, |samples|, events) {
      var o, j, e :| 0 <= o < |samples| && e in events && e.MetricUnavailable? &&
        Operational(DeclOf(e).reason) && Accounts(e, samples, o, j);
      assert OperationalAt(events, samples[o], o, DeclOf(e).metric, j);
    }
  }

  method SchemaIsV2(samples: seq<Sample>) returns (any: bool, all: bool)
    ensures any <==> exists s :: s in samples && s.v2
    ensures all <==> forall s | s in samples :: s.v2
  {
    any := exists s :: s in samples && s.v2;
    all := forall s | s in samples :: s.v2;
  }

  /** The totals of the last job object. */
  method FinalJob(job: Option<Job>, elapsed: u64, peak: Option<real>) returns (r: Option<(Cpu, Io, Option<u64>)>)
    ensures r.Some? <==> (job.Some? ==> FinalJobOk(job.value))
    ensures r.Some? ==>
              && r.value.0.peak == peak
              && (r.value.0.total.Some? <==> job.Some?)
              && (job.Some? ==> r.value.0.total.value == CpuOf(job.value))
              && r.value.0.average ==
                 (if job.Some? && elapsed > 0 then Some(CpuOf(job.value) as real / elapsed as real) else None)
              && r.value.1 == (if job.Some? then Io(NumOrNone(job.value.readBytes), NumOrNone(job.value.writeBytes),
                                                  NumOrNone(job.value.readOperations),
                                                  NumOrNone(job.value.writeOperations))
                               else Io(None, None, None, None))
              && r.value.2 == (if job.Some? then NumOrNone(job.value.totalProcesses) else None)
  {
    if job.None? {
      return Some((Cpu(None, None, peak), Io(None, None, None, None), None));
    }
    var j := job.value;
    if !FinalJobOk(j) {
      return None;
    }
    var total := j.userTime.n + j.kernelTime.n;
    var average := if elapsed > 0 then Some(total as real / elapsed as real) else None;
    return Some((Cpu(Some(total), average, peak),
                 Io(Some(j.readBytes.n), Some(j.writeBytes.n), Some(j.readOperations.n), Some(j.writeOperations.n)),
                 Some(j.totalProcesses.n)));
  }

  method ValidateManifest(b: Bundle, validity: Validity, completeness: Completeness, v2: bool) returns (ok: bool)
    requires v2 == IsV2(b) && validity == ValidityOf(b) && completeness == CompletenessOf(b)
    ensures ok <==> ManifestOk(b)
  {
    match b.manifest
    case NoManifest => return true;
    case UnreadableManifest => return false;
    case Manifest(manifestV2, manifestValidity, manifestCompleteness) =>
      if manifestV2 {
        if !v2 || manifestValidity != Text(validity) || manifestCompleteness != Text(completeness) {
          return false;
        }
      }
      return true;
  }

  /** The sections of the summary that come straight from the fold. */
  method Conclude(b: Bundle, v2: bool, a: Fold, elapsed: u64, terminal: Terminal) returns (r: Option<Summary>)
    requires b.samples != [] && v2 == IsV2(b)
    requires FoldIs(b.samples, |b.samples|, v2, b.events, a)
    requires TimingIs(b.samples, elapsed) && TerminalIs(b.events, v2, terminal)
    ensures r.Some? <==> FinalJobReadable(b.samples) && ManifestOk(b)
    ensures r.Some? ==> Describes(b, r.value)
  {
    var peak := PeakOf(a.jobs.utilizations);
    PeakOfPoints(JobPoints(b.samples, |b.samples|), a.jobs.utilizations, peak);
    var final := FinalJob(a.jobs.final, elapsed, peak);
    if final.None? {
      return None;
    }
    OperationalAgrees(b.samples, b.events);
    var retention := RetentionDegraded(b.events);
    var validity := if retention || a.operational then Degraded else Valid;
    var completeness := if a.omission then DeclaredPartial else Complete;
    var manifestOk := ValidateManifest(b, validity, completeness, v2);
    if !manifestOk {
      return None;
    }
    var distinct := |a.ids|;
    return Some(Summary(v2, Timing(elapsed, |b.samples|, a.maxGap), a.memory, final.value.0, final.value.1,
                        Population(a.maxObserved, distinct, final.value.2, Unidentified(final.value.2, distinct),
                                   a.maxHandles),
                        terminal, Status(retention, validity, completeness)));
  }

  lemma PeakOfPoints(ps: seq<JobPoint>, us: seq<real>, peak: Option<real>)
    requires UtilizationsAre(ps, us)
    requires peak.None? <==> us == []
    requires peak.Some? ==> peak.value in us && forall u | u in us :: u <= peak.value
    ensures PeakUtilizationIs(ps, peak)
  {
    if us != [] {
      assert us[0] in us;
    }
  }

  /** What is settled before the pass: the schema, the identities and the declarations. */
  ghost predicate Admissible(b: Bundle) {
    b.samples != [] && SchemaUniform(b) && RecordsReadable(b.processes) && (IsV2(b) ==> DeclarationsOk(b))
  }

  datatype Admitted = Admitted(v2: bool, authority: map<u64, bool>, declarations: seq<Decl>)

  ghost predicate AdmittedFor(b: Bundle, a: Admitted) {
    && a.v2 == IsV2(b)
    && (forall id: u64 :: HasAuthority(a.authority, id) <==> Authority(b.processes, id))
    && (a.v2 ==> a.declarations == Declarations(b.events))
  }

  method Admit(b: Bundle) returns (r: Option<Admitted>)
    ensures r.Some? <==> Admissible(b)
    ensures r.Some? ==> AdmittedFor(b, r.value)
  {
    if b.samples == [] {
      return None;
    }
    var v2, uniform := SchemaIsV2(b.samples);
    if v2 && !uniform {
      return None;
    }
    var authority := ProcessAuthority(b.processes);
    if authority.None? {
      return None;
    }
    if v2 {
      var parsed := ParseUnavailable(b, authority.value);
      if parsed.None? {
        return None;
      }
      return Some(Admitted(v2, authority.value, parsed.value));
    }
    return Some(Admitted(v2, authority.value, []));
  }

  lemma MonotonicsRead(b: Bundle)
    requires b.samples != [] && AllSamplesOk(b.samples, |b.samples|, b.events, IsV2(b))
    ensures b.samples[0].monotonic.Num? && b.samples[|b.samples| - 1].monotonic.Num?
  {
    assert SampleOk(b.samples[0], 0, b.events, IsV2(b));
    assert SampleOk(b.samples[|b.samples| - 1], |b.samples| - 1, b.events, IsV2(b));
  }

  method Reconstruct(b: Bundle, a: Admitted) returns (r: Option<Summary>)
    requires Admissible(b) && AdmittedFor(b, a)
    ensures r.Some? <==> Accepted(b)
    ensures r.Some? ==> Describes(b, r.value)
  {
    hide AllSamplesOk, FoldIs, TerminalOk, NothingIdle, DeclarationsOk, PointsOk, JobPoints, ManifestOk, Describes,
      TerminalIs, FinalJobReadable, SchemaUniform, RecordsReadable, IsV2, HasAuthority, Authority;
    var fold := FoldSamples(b.samples, a.v2, a.declarations, b.events);
    if fold.None? {
      return None;
    }
    if a.v2 {
      var explained := CheckExplanations(a.declarations, b);
      if !explained {
        return None;
      }
    }
    var terminal := RootTerminal(b.events, a.authority, a.v2, b.processes);
    if terminal.None? {
      return None;
    }
    MonotonicsRead(b);
    var first, last := b.samples[0].monotonic.n, b.samples[|b.samples| - 1].monotonic.n;
    if last < first {
      return None;
    }
    r := Conclude(b, a.v2, fold.value, last - first, terminal.value);
  }

  predicate AnyV2(samples: seq<Sample>) {
    exists o | 0 <= o < |samples| :: samples[o].v2
  }

  /** What the summary says of processes that the job counted and no row showed. */
  predicate UnidentifiedCounted(samples: seq<Sample>, p: Population) {
    && (p.withoutIdentity.Some? <==> exists o | 0 <= o < |samples| :: samples[o].job.Some?)
    && (p.withoutIdentity.Some? ==>
          && p.jobTotal.Some?
          && (p.jobTotal.value >= p.distinct ==> p.distinct + p.withoutIdentity.value == p.jobTotal.value)
          && (p.jobTotal.value < p.distinct ==> p.withoutIdentity.value == 0))
  }

  /**
   * The summariser: it returns a summary exactly for the accepted bundles, which for v2 evidence are those that
   * obey the rules; the summary describes the bundle and reports what its records hold.
   */
  method RegenerateSummary(b: Bundle) returns (r: Option<Summary>)
    ensures r.Some? <==> Accepted(b)
    ensures r.Some? ==> Describes(b, r.value)
    ensures AnyV2(b.samples) ==> (r.Some? <==> EvidenceRules.Rules(b))
    ensures r.Some? && AnyV2(b.samples) ==> SummaryFields.Reports(b, r.value)
    ensures r.Some? ==> SummaryFields.JobReported(b.samples, r.value)
    ensures r.Some? ==> UnidentifiedCounted(b.samples, r.value.population)
  {
    hide Accepted, Describes, EvidenceRules.Rules, SummaryFields.Reports, SummaryFields.JobReported, AnyV2,
      UnidentifiedCounted;
    V2Rules(b);
    AcceptedIsAdmissible(b);
    var admitted := Admit(b);
    if admitted.None? {
      return None;
    }
    r := Reconstruct(b, admitted.value);
    if r.Some? {
      FieldsReported(b, r.value);
    }
  }

  lemma AcceptedIsAdmissible(b: Bundle)
    ensures Accepted(b) ==> Admissible(b)
  {
  }

  lemma V2Rules(b: Bundle)
    ensures AnyV2(b.samples) ==> (Accepted(b) <==> EvidenceRules.Rules(b))
  {
    hide Accepted, EvidenceRules.Rules;
    if AnyV2(b.samples) {
      EvidenceRules.AcceptedIffRules(b);
    }
  }

  lemma FieldsReported(b: Bundle, s: Summary)
    requires b.samples != [] && Accepted(b) && Describes(b, s)
    ensures SummaryFields.JobReported(b.samples, s) && UnidentifiedCounted(b.samples, s.population)
    ensures AnyV2(b.samples) ==> SummaryFields.Reports(b, s)
  {
    hide Accepted, Describes, SummaryFields.Reports;
    SummaryFields.JobIsReported(b, s);
    var k := EvidenceRules.LastJobIndex(b.samples, |b.samples|);
    assert k >= 0 ==> EvidenceRules.LastWithJob(b.samples, k);
    if AnyV2(b.samples) {
      var o :| 0 <= o < |b.samples| && b.samples[o].v2;
      assert b.samples[o] in b.samples;
      SummaryFields.SummaryReports(b, s);
    }
  }
}
