/** From the bytes of the three streams back to typed records, as the summariser reads a bundle. */
module Recovery {
  import opened Prelude
  import opened Records
  import opened Json
  import opened JsonLaws
  import opened JsonValue
  import opened Schema
  import opened Utf8
  import Ndjson
  import T = Transport

  // ---- Reading a bundle ------------------------------------------------------------------------

  /** `read_values`: every line's value; the reader has checked that each line is JSON. */
  function Values(lines: seq<string>): Option<seq<Value>> {
    if lines == [] then Some([])
    else
      var init, last := Values(lines[..|lines| - 1]), ReadText(lines[|lines| - 1]);
      if init.None? || last.None? then None else Some(init.value + [last.value])
  }

  function StreamValues(bytes: seq<byte>): Option<seq<Value>> {
    var lines := Ndjson.Read(bytes);
    if lines.Err? then None else Values(lines.value)
  }

  function Typed<R>(vs: seq<Value>, read: Value -> R): (rs: seq<R>)
    ensures |rs| == |vs| && forall i | 0 <= i < |rs| :: rs[i] == read(vs[i])
  {
    seq(|vs|, i requires 0 <= i < |vs| => read(vs[i]))
  }

  /** The bundle on disk, or nothing when a stream cannot be read. All three files exist from the start. */
  function Recover(disk: T.Disk, manifest: Manifest): Option<Bundle> {
    var samples, processes := StreamValues(disk.samples), StreamValues(disk.processes);
    var events := StreamValues(disk.events);
    if samples.None? || processes.None? || events.None? then None
    else Some(Bundle(Typed(processes.value, ReadProcess), Typed(samples.value, ReadSample),
                     Typed(events.value, ReadEvent), manifest))
  }

  lemma {:induction false} JsonLinesHaveValues(lines: seq<string>)
    requires forall i | 0 <= i < |lines| :: IsJson(lines[i])
    ensures Values(lines).Some?
  {
    hide IsJson, ReadText;
    if lines != [] {
      JsonLinesHaveValues(lines[..|lines| - 1]);
      TextHasValue(lines[|lines| - 1]);
    }
  }

  /** A bundle is recovered exactly when the line reader accepts all three streams. */
  lemma RecoverExactly(disk: T.Disk, manifest: Manifest)
    ensures Recover(disk, manifest).Some? <==> forall s: T.Stream :: Ndjson.Read(disk.Get(s)).Ok?
  {
    hide Ndjson.Read, Values;
    forall s: T.Stream
      ensures StreamValues(disk.Get(s)).Some? <==> Ndjson.Read(disk.Get(s)).Ok?
    {
      if Ndjson.Read(disk.Get(s)).Ok? {
        Ndjson.ReadRecordsAreJson(disk.Get(s));
        JsonLinesHaveValues(Ndjson.Read(disk.Get(s)).value);
      }
    }
    assert disk.Get(T.SampleStream) == disk.samples && disk.Get(T.ProcessStream) == disk.processes &&
           disk.Get(T.EventStream) == disk.events;
  }

  // ---- Packets whose object stands for their message -------------------------------------------

  predicate Faithful(p: T.Packet) {
    match p.message
    case ProcessMessage(r) => ReadProcess(Object(p.body)) == r
    case SampleMessage(s) => ReadSample(Object(p.body)) == s
    case EventMessage(e) => ReadEvent(Object(p.body)) == e
  }

  predicate AllFaithful(ps: seq<T.Packet>) {
    forall i | 0 <= i < |ps| :: Faithful(ps[i])
  }

  function Objects(bodies: seq<Members>): (vs: seq<Value>)
    ensures |vs| == |bodies| && forall i | 0 <= i < |vs| :: vs[i] == Object(bodies[i])
  {
    seq(|bodies|, i requires 0 <= i < |bodies| => Object(bodies[i]))
  }

  /** The lines of printed records stand for exactly their objects. */
  lemma {:induction false} TextsRead(bodies: seq<Members>)
    ensures Values(Ndjson.Texts(bodies)) == Some(Objects(bodies))
  {
    hide ReadText, Record;
    var lines := Ndjson.Texts(bodies);
    if bodies == [] {
      assert lines == [] && Objects(bodies) == [];
    } else {
      var init, last := bodies[..|bodies| - 1], bodies[|bodies| - 1];
      TextsRead(init);
      RecordReads(last);
      assert lines[..|lines| - 1] == Ndjson.Texts(init) && lines[|lines| - 1] == Record(last);
      assert Objects(bodies) == Objects(init) + [Object(last)];
    }
  }

  lemma TypedSnoc<R>(vs: seq<Value>, v: Value, read: Value -> R)
    ensures Typed(vs + [v], read) == Typed(vs, read) + [read(v)]
  {
  }

  /** Read back by type, the objects of each stream are the messages of that kind, in order. */
  lemma {:induction false} StreamsReadBack(ps: seq<T.Packet>)
    requires AllFaithful(ps)
    ensures Typed(Objects(T.BodiesOn(ps, T.ProcessStream)), ReadProcess) == ProcessesOf(T.MessagesOf(ps))
    ensures Typed(Objects(T.BodiesOn(ps, T.SampleStream)), ReadSample) == SamplesOf(T.MessagesOf(ps))
    ensures Typed(Objects(T.BodiesOn(ps, T.EventStream)), ReadEvent) == EventsOf(T.MessagesOf(ps))
  {
    hide ReadProcess, ReadSample, ReadEvent;
    if ps == [] {
      assert T.MessagesOf(ps) == [];
    } else {
      var init, last := ps[..|ps| - 1], ps[|ps| - 1];
      StreamsReadBack(init);
      assert T.MessagesOf(ps) == T.MessagesOf(init) + [last.message];
      StreamsSnoc(T.MessagesOf(init), last.message);
      assert ps == init + [last];
      LastReadsBack(init, last);
    }
  }

  lemma ObjectsSnoc(ps: seq<T.Packet>, p: T.Packet, s: T.Stream)
    ensures Objects(T.BodiesOn(ps + [p], s)) ==
            Objects(T.BodiesOn(ps, s)) + (if T.StreamOf(p) == s then [Object(p.body)] else [])
  {
    T.BodiesSnoc(ps, p, s);
  }

  lemma LastReadsBack(ps: seq<T.Packet>, p: T.Packet)
    requires Faithful(p)
    ensures Typed(Objects(T.BodiesOn(ps + [p], T.ProcessStream)), ReadProcess) ==
            Typed(Objects(T.BodiesOn(ps, T.ProcessStream)), ReadProcess) +
            (if p.message.ProcessMessage? then [p.message.p] else [])
    ensures Typed(Objects(T.BodiesOn(ps + [p], T.SampleStream)), ReadSample) ==
            Typed(Objects(T.BodiesOn(ps, T.SampleStream)), ReadSample) +
            (if p.message.SampleMessage? then [p.message.s] else [])
    ensures Typed(Objects(T.BodiesOn(ps + [p], T.EventStream)), ReadEvent) ==
            Typed(Objects(T.BodiesOn(ps, T.EventStream)), ReadEvent) +
            (if p.message.EventMessage? then [p.message.e] else [])
  {
    hide ReadProcess, ReadSample, ReadEvent, T.BodiesOn;
    ObjectsSnoc(ps, p, T.ProcessStream);
    ObjectsSnoc(ps, p, T.SampleStream);
    ObjectsSnoc(ps, p, T.EventStream);
    TypedSnoc(Objects(T.BodiesOn(ps, T.ProcessStream)), Object(p.body), ReadProcess);
    TypedSnoc(Objects(T.BodiesOn(ps, T.SampleStream)), Object(p.body), ReadSample);
    TypedSnoc(Objects(T.BodiesOn(ps, T.EventStream)), Object(p.body), ReadEvent);
  }

  // ---- What is recovered -----------------------------------------------------------------------

  ghost predicate Refused(st: T.State) {
    exists s: T.Stream :: st.disk.Get(s) == [] || T.TornCharacterOn(st, s)
  }

  lemma StreamRecovered(capacity: nat, st: T.State, s: T.Stream)
    requires T.Inv(capacity, st)
    ensures StreamValues(st.disk.Get(s)) ==
            if st.disk.Get(s) == [] || T.TornCharacterOn(st, s) then None
            else Some(Objects(T.BodiesOn(T.Durable(st), s)))
  {
    hide Ndjson.Read, T.TornCharacterOn, T.BodiesOn, T.Durable, T.Inv, Values;
    T.StreamRecovery(capacity, st, s);
    TextsRead(T.BodiesOn(T.Durable(st), s));
  }

  /**
   * Recovery, exactly: wherever the writer stopped, the bundle is refused when a stream is empty or torn
   * inside a character, and otherwise it holds exactly the durable messages, record for record.
   */
  lemma RecoveredIsDurable(capacity: nat, st: T.State, manifest: Manifest)
    requires T.Inv(capacity, st) && AllFaithful(T.Sent(st))
    ensures Recover(st.disk, manifest) ==
            if Refused(st) then None else Some(BundleOf(T.MessagesOf(T.Durable(st)), manifest))
  {
    hide T.TornCharacterOn, T.BodiesOn, T.Inv, StreamValues, ReadProcess, ReadSample, ReadEvent, ProcessesOf,
      SamplesOf, EventsOf;
    T.DurableIsPrefix(st);
    FaithfulPrefix(T.Durable(st), T.Sent(st));
    StreamsReadBack(T.Durable(st));
    StreamRecovered(capacity, st, T.ProcessStream);
    StreamRecovered(capacity, st, T.SampleStream);
    StreamRecovered(capacity, st, T.EventStream);
    assert st.disk.Get(T.ProcessStream) == st.disk.processes && st.disk.Get(T.SampleStream) == st.disk.samples &&
           st.disk.Get(T.EventStream) == st.disk.events;
  }

  lemma FaithfulPrefix(ps: seq<T.Packet>, qs: seq<T.Packet>)
    requires ps <= qs && AllFaithful(qs)
    ensures AllFaithful(ps)
  {
    hide Faithful;
  }

  // ---- Records the collectors write ------------------------------------------------------------

  predicate Writable(m: Message) {
    match m
    case ProcessMessage(p) => WritableProcess(p)
    case SampleMessage(s) => WritableSample(s)
    case EventMessage(e) => WritableEvent(e)
  }

  /** What a record holds besides the fields that the summariser looks at. */
  datatype Details = Details(source: string, acquisition: string, scheduled: u64, delay: u64,
                             job: JobDetails, event: EventDetails)

  function BodyOf(m: Message, d: Details): Members
    requires Writable(m)
  {
    match m
    case ProcessMessage(p) => ProcessObject(p, d.source, d.acquisition)
    case SampleMessage(s) => SampleObject(s, d.scheduled, d.delay, d.job)
    case EventMessage(e) => EventObject(e, d.event)
  }

  /** What a collector serialises stands for its message, whatever the details. */
  lemma BodiesAreFaithful(m: Message, d: Details)
    requires Writable(m) && OtherKind(d.event.kind)
    ensures Faithful(T.Packet(m, BodyOf(m, d)))
  {
    hide ReadProcess, ReadSample, ReadEvent, ProcessObject, SampleObject, EventObject, OtherKind;
    match m
    case ProcessMessage(p) => ProcessRoundTrip(p, d.source, d.acquisition);
    case SampleMessage(s) => SampleRoundTrip(s, d.scheduled, d.delay, d.job);
    case EventMessage(e) => EventRoundTrip(e, d.event);
  }

  /** The packet that a collector puts on the queue for a message. */
  function PacketOf(m: Message, d: Details): T.Packet {
    T.Packet(m, if Writable(m) then BodyOf(m, d) else NoMembers)
  }

  function Packets(ms: seq<Message>, ds: seq<Details>): (ps: seq<T.Packet>)
    requires |ds| == |ms|
    ensures |ps| == |ms| && forall i | 0 <= i < |ps| :: ps[i] == PacketOf(ms[i], ds[i])
  {
    seq(|ms|, i requires 0 <= i < |ms| => PacketOf(ms[i], ds[i]))
  }

  predicate AllWritable(ms: seq<Message>) {
    forall i | 0 <= i < |ms| :: Writable(ms[i])
  }

  /** The details only name event kinds that the summariser does not look at. */
  predicate PlainDetails(ds: seq<Details>) {
    forall i | 0 <= i < |ds| :: OtherKind(ds[i].event.kind)
  }

  lemma PacketsAreFaithful(ms: seq<Message>, ds: seq<Details>)
    requires |ds| == |ms| && AllWritable(ms) && PlainDetails(ds)
    ensures AllFaithful(Packets(ms, ds)) && T.MessagesOf(Packets(ms, ds)) == ms
  {
    hide Writable, Faithful, BodyOf, OtherKind;
    forall i | 0 <= i < |ms|
      ensures Faithful(Packets(ms, ds)[i])
    {
      assert Writable(ms[i]) && OtherKind(ds[i].event.kind);
      BodiesAreFaithful(ms[i], ds[i]);
    }
  }
}
