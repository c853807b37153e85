/**
 * The write-ahead discipline of the collectors, as a property of the sequence of messages they put
 * on the one queue. It is prefix-closed, so it also speaks about every interrupted run.
 */
module Journal {
  import opened Prelude
  import opened Records
  import opened SummarySpec

  /** The number of samples before position `i`: the ordinal of a sample written there. */
  function OrdinalAt(ms: seq<Message>, i: nat): nat
    requires i <= |ms|
  {
    |SamplesOf(ms[..i])|
  }

  /** RUN declarations precede every sample; the others name the sample that comes next. */
  ghost predicate Timely(e: Event, ordinal: nat) {
    e.MetricUnavailable? ==>
      var d := DeclOf(e);
      if d.subject.RunSubject? then ordinal == 0
      else (d.subject.SampleSubject? || d.subject.ProcessSampleSubject?) &&
           d.sample.Some? && d.sample.value == ordinal
  }

  ghost predicate EntryOk(ms: seq<Message>, i: nat)
    requires i < |ms|
  {
    match ms[i]
    case ProcessMessage(_) => true
    case EventMessage(e) => Timely(e, OrdinalAt(ms, i))
    case SampleMessage(s) => AvailabilityOk(EventsOf(ms[..i]), s, OrdinalAt(ms, i))
  }

  /** Every sample is fully accounted for by the declarations written before it. */
  ghost predicate WriteAhead(ms: seq<Message>) {
    forall i | 0 <= i < |ms| :: EntryOk(ms, i)
  }

  lemma WriteAheadPrefix(ms: seq<Message>, n: nat)
    requires WriteAhead(ms) && n <= |ms|
    ensures WriteAhead(ms[..n])
  {
    forall i | 0 <= i < n
      ensures EntryOk(ms[..n], i)
    {
      assert EntryOk(ms, i);
      assert ms[..n][..i] == ms[..i];
    }
  }

  lemma WriteAheadSnoc(ms: seq<Message>, m: Message)
    requires WriteAhead(ms)
    requires m.EventMessage? ==> Timely(m.e, |SamplesOf(ms)|)
    requires m.SampleMessage? ==> AvailabilityOk(EventsOf(ms), m.s, |SamplesOf(ms)|)
    ensures WriteAhead(ms + [m])
  {
    var ns := ms + [m];
    assert ns[..|ms|] == ms;
    forall i | 0 <= i < |ns|
      ensures EntryOk(ns, i)
    {
      if i < |ms| {
        assert EntryOk(ms, i);
        assert ns[..i] == ms[..i];
      }
    }
  }

  function AsMessages(es: seq<Event>): (ms: seq<Message>)
    ensures |ms| == |es| && forall i | 0 <= i < |es| :: ms[i] == EventMessage(es[i])
  {
    seq(|es|, i requires 0 <= i < |es| => EventMessage(es[i]))
  }

  lemma {:induction false} AppendDeclarations(ms: seq<Message>, es: seq<Event>)
    requires WriteAhead(ms) && forall e | e in es :: Timely(e, |SamplesOf(ms)|)
    ensures WriteAhead(ms + AsMessages(es))
    ensures EventsOf(ms + AsMessages(es)) == EventsOf(ms) + es
    ensures SamplesOf(ms + AsMessages(es)) == SamplesOf(ms)
    ensures ProcessesOf(ms + AsMessages(es)) == ProcessesOf(ms)
  {
    if es == [] {
      assert ms + AsMessages(es) == ms;
    } else {
      var init, last := es[..|es| - 1], es[|es| - 1];
      assert forall e | e in init :: e in es;
      AppendDeclarations(ms, init);
      var ns := ms + AsMessages(init);
      WriteAheadSnoc(ns, EventMessage(last));
      StreamsSnoc(ns, EventMessage(last));
      assert ms + AsMessages(es) == ns + [EventMessage(last)];
    }
  }

  // ---- Positions and ordinals ------------------------------------------------------------------

  lemma {:induction false} OrdinalsGrow(ms: seq<Message>, i: nat, k: nat)
    requires i <= k <= |ms|
    ensures SamplesOf(ms[..i]) <= SamplesOf(ms[..k])
    ensures EventsOf(ms[..i]) <= EventsOf(ms[..k])
    ensures ProcessesOf(ms[..i]) <= ProcessesOf(ms[..k])
  {
    assert ms[..k] == ms[..i] + ms[i..k];
    StreamsAppend(ms[..i], ms[i..k]);
  }

  /** The sample at position `i` is the one its ordinal names, in every longer prefix. */
  lemma SampleAt(ms: seq<Message>, i: nat, n: nat)
    requires i < n <= |ms| && ms[i].SampleMessage?
    ensures OrdinalAt(ms, i) < |SamplesOf(ms[..n])|
    ensures SamplesOf(ms[..n])[OrdinalAt(ms, i)] == ms[i].s
  {
    StreamsSnoc(ms[..i], ms[i]);
    assert ms[..i + 1] == ms[..i] + [ms[i]];
    OrdinalsGrow(ms, i + 1, n);
  }

  lemma {:induction false} PositionOfSample(ms: seq<Message>, o: nat) returns (i: nat)
    requires o < |SamplesOf(ms)|
    ensures i < |ms| && ms[i].SampleMessage? && OrdinalAt(ms, i) == o && SamplesOf(ms)[o] == ms[i].s
  {
    var init, last := ms[..|ms| - 1], ms[|ms| - 1];
    if o < |SamplesOf(init)| {
      i := PositionOfSample(init, o);
      assert init[..i] == ms[..i];
    } else {
      i := |ms| - 1;
    }
  }

  lemma {:induction false} PositionOfEvent(ms: seq<Message>, k: nat) returns (i: nat)
    requires k < |EventsOf(ms)|
    ensures i < |ms| && ms[i].EventMessage? && EventsOf(ms)[k] == ms[i].e
  {
    var init, last := ms[..|ms| - 1], ms[|ms| - 1];
    if k < |EventsOf(init)| {
      i := PositionOfEvent(init, k);
    } else {
      i := |ms| - 1;
    }
  }

  // ---- Later messages never touch an earlier sample's account ----------------------------------

  lemma {:induction false} AccountIsFinal(ms: seq<Message>, i: nat, n: nat, m: Metric, p: Option<u64>)
    requires WriteAhead(ms) && i < n <= |ms| && ms[i].SampleMessage?
    ensures Explanations(EventsOf(ms[..n]), m, OrdinalAt(ms, i), p) ==
            Explanations(EventsOf(ms[..i]), m, OrdinalAt(ms, i), p)
    decreases n
  {
    var o := OrdinalAt(ms, i);
    var k := n - 1;
    assert ms[..n] == ms[..k] + [ms[k]];
    StreamsSnoc(ms[..k], ms[k]);
    if i < k {
      AccountIsFinal(ms, i, k, m, p);
      if ms[k].EventMessage? {
        assert EntryOk(ms, k);
        SampleAt(ms, i, k);
        CountSnoc(EventsOf(ms[..k]), ms[k].e, Explaining(m, o, p));
      } else {
        assert EventsOf(ms[..n]) == EventsOf(ms[..k]);
      }
    } else {
      assert EventsOf(ms[..n]) == EventsOf(ms[..k]);
    }
  }

  /** In every prefix, every sample it contains is fully and uniquely accounted for. */
  lemma EveryPrefixAccounts(ms: seq<Message>, n: nat, o: nat)
    requires WriteAhead(ms) && n <= |ms| && o < |SamplesOf(ms[..n])|
    ensures AvailabilityOk(EventsOf(ms[..n]), SamplesOf(ms[..n])[o], o)
  {
    var i := PositionOfSample(ms[..n], o);
    assert ms[..n][..i] == ms[..i];
    assert EntryOk(ms, i);
    var s := ms[i].s;
    forall m, j | Known(m) && 0 <= j < ObsCount(s, m)
      ensures CellOk(EventsOf(ms[..n]), s, o, m, j)
    {
      AccountIsFinal(ms, i, n, m, ObsProcess(s, m, j));
      assert CellOk(EventsOf(ms[..i]), s, o, m, j);
    }
  }

  // ---- Runs made of rounds ---------------------------------------------------------------------

  /** One round of a collector: the declarations it writes, then the sample. */
  datatype Entry = Entry(declarations: seq<Event>, sample: Sample)

  function EntryMessages(x: Entry): seq<Message> {
    AsMessages(x.declarations) + [SampleMessage(x.sample)]
  }

  /** The root's identity record, then the rounds. */
  function Journalled(root: ProcessRecord, entries: seq<Entry>): seq<Message> {
    if entries == [] then [ProcessMessage(root)]
    else Journalled(root, entries[..|entries| - 1]) + EntryMessages(entries[|entries| - 1])
  }

  lemma EntryStreams(ms: seq<Message>, x: Entry)
    ensures ProcessesOf(ms + EntryMessages(x)) == ProcessesOf(ms)
    ensures SamplesOf(ms + EntryMessages(x)) == SamplesOf(ms) + [x.sample]
    ensures EventsOf(ms + EntryMessages(x)) == EventsOf(ms) + x.declarations
  {
    EventMessagesStreams(x.declarations);
    StreamsAppend(ms, AsMessages(x.declarations));
    var ns := ms + AsMessages(x.declarations);
    StreamsSnoc(ns, SampleMessage(x.sample));
    assert ms + EntryMessages(x) == ns + [SampleMessage(x.sample)];
  }

  lemma {:induction false} EventMessagesStreams(es: seq<Event>)
    ensures EventsOf(AsMessages(es)) == es && SamplesOf(AsMessages(es)) == [] && ProcessesOf(AsMessages(es)) == []
  {
    if es != [] {
      var init := es[..|es| - 1];
      EventMessagesStreams(init);
      assert AsMessages(es)[..|es| - 1] == AsMessages(init);
    }
  }

  lemma EntryExtends(ms: seq<Message>, x: Entry)
    requires WriteAhead(ms) && forall e | e in x.declarations :: Timely(e, |SamplesOf(ms)|)
    requires AvailabilityOk(EventsOf(ms) + x.declarations, x.sample, |SamplesOf(ms)|)
    ensures WriteAhead(ms + EntryMessages(x))
  {
    AppendDeclarations(ms, x.declarations);
    var ns := ms + AsMessages(x.declarations);
    WriteAheadSnoc(ns, SampleMessage(x.sample));
    assert ms + EntryMessages(x) == ns + [SampleMessage(x.sample)];
  }

  lemma RootAlone(root: ProcessRecord)
    ensures ProcessesOf([ProcessMessage(root)]) == [root]
    ensures SamplesOf([ProcessMessage(root)]) == [] && EventsOf([ProcessMessage(root)]) == []
    ensures WriteAhead([ProcessMessage(root)])
  {
    assert [ProcessMessage(root)] == [] + [ProcessMessage(root)];
    StreamsSnoc([], ProcessMessage(root));
  }

  lemma {:induction false} JournalledStreams(root: ProcessRecord, entries: seq<Entry>)
    ensures ProcessesOf(Journalled(root, entries)) == [root]
    ensures |SamplesOf(Journalled(root, entries))| == |entries|
    ensures forall o | 0 <= o < |entries| :: SamplesOf(Journalled(root, entries))[o] == entries[o].sample
  {
    hide EntryMessages;
    if entries == [] {
      RootAlone(root);
    } else {
      var init, last := entries[..|entries| - 1], entries[|entries| - 1];
      JournalledStreams(root, init);
      EntryStreams(Journalled(root, init), last);
    }
  }

  lemma {:induction false} JournalledEvents(root: ProcessRecord, entries: seq<Entry>, e: Event)
    ensures e in EventsOf(Journalled(root, entries)) <==>
            exists o :: 0 <= o < |entries| && e in entries[o].declarations
  {
    hide EntryMessages, EventsOf;
    if entries == [] {
      RootAlone(root);
    } else {
      var init, last := entries[..|entries| - 1], entries[|entries| - 1];
      JournalledEvents(root, init, e);
      EntryStreams(Journalled(root, init), last);
      if o :| 0 <= o < |entries| && e in entries[o].declarations {
        assert o < |init| ==> e in init[o].declarations;
      }
    }
  }

  // ---- From the journal to acceptance ----------------------------------------------------------

  /** Every declaration of a finished run is well formed and accounts for some cell. */
  ghost predicate Settled(b: Bundle) {
    forall i | 0 <= i < |b.events| && b.events[i].MetricUnavailable? ::
      DeclarationOk(b.events[i], b.samples, b.processes) && ExplainsSomething(b.events[i], b.samples)
  }

  lemma SettledJournalDeclarations(ms: seq<Message>, b: Bundle)
    requires WriteAhead(ms) && b == BundleOf(ms, b.manifest) && Settled(b)
    ensures DeclarationsOk(b) && NothingIdle(b)
    ensures forall o | 0 <= o < |b.samples| :: AvailabilityOk(b.events, b.samples[o], o)
  {
    assert ms[..|ms|] == ms;
    forall o | 0 <= o < |b.samples|
      ensures AvailabilityOk(b.events, b.samples[o], o)
    {
      EveryPrefixAccounts(ms, |ms|, o);
    }
    forall i, k | 0 <= i < k < |b.events|
      ensures !SameKey(b.events[i], b.events[k])
    {
      if SameKey(b.events[i], b.events[k]) {
        var o, j :| 0 <= o < |b.samples| && Accounts(b.events[i], b.samples, o, j);
        var m := DeclOf(b.events[i]).metric;
        var p := ObsProcess(b.samples[o], m, j);
        assert CellOk(b.events, b.samples[o], o, m, j);
        CountOneSame(b.events, Explaining(m, o, p), i, k);
      }
    }
  }

  lemma AcceptedFromParts(b: Bundle)
    requires b.samples != [] && IsV2(b) && SchemaUniform(b) && RecordsReadable(b.processes) && b.manifest == NoManifest
    requires DeclarationsOk(b) && NothingIdle(b)
    requires AllSamplesOk(b.samples, |b.samples|, b.events, true)
    requires PointsOk(JobPoints(b.samples, |b.samples|)) && FinalJobReadable(b.samples) && Ordered(b.samples)
    requires TerminalOk(b.events, b.processes, true)
    ensures Accepted(b)
  {
  }
}
