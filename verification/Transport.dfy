/**
 * The bounded single-writer transport: a producer that fills one FIFO queue, a writer that takes one
 * message at a time and appends its record to one of three streams, and a crash between any two
 * steps, which may leave the last record torn at any byte.
 */
module Transport {
  import opened Prelude
  import opened Records
  import opened SummarySpec
  import opened Journal
  import opened Utf8
  import opened Json
  import opened JsonLaws
  import opened Ndjson

  /** A queued message together with the object it serialises to. */
  datatype Packet = Packet(message: Message, body: Members)

  datatype Stream = ProcessStream | SampleStream | EventStream

  function StreamOf(p: Packet): Stream {
    match p.message
    case ProcessMessage(_) => ProcessStream
    case SampleMessage(_) => SampleStream
    case EventMessage(_) => EventStream
  }

  datatype Disk = Disk(processes: seq<byte>, samples: seq<byte>, events: seq<byte>) {
    function Get(s: Stream): seq<byte> {
      match s
      case ProcessStream => processes
      case SampleStream => samples
      case EventStream => events
    }

    function Append(s: Stream, bytes: seq<byte>): Disk {
      match s
      case ProcessStream => this.(processes := processes + bytes)
      case SampleStream => this.(samples := samples + bytes)
      case EventStream => this.(events := events + bytes)
    }
  }

  /**
   * `done` are the packets whose record and newline are on disk, `current` is the one the writer
   * holds with its first `persisted` bytes on disk, `queue` are those still waiting.
   */
  datatype State = State(done: seq<Packet>, current: Option<Packet>, persisted: nat, queue: seq<Packet>, disk: Disk)

  const INITIAL: State := State([], None, 0, [], Disk([], [], []))

  function Holding(st: State): seq<Packet> {
    if st.current.Some? then [st.current.value] else []
  }

  /** Everything the producer has handed over, in order. */
  function Sent(st: State): seq<Packet> {
    st.done + Holding(st) + st.queue
  }

  // ---- Steps -----------------------------------------------------------------------------------

  predicate SendStep(capacity: nat, a: State, b: State, p: Packet) {
    |a.queue| < capacity && b == a.(queue := a.queue + [p])
  }

  predicate TakeStep(a: State, b: State) {
    a.current.None? && a.queue != [] && b == a.(current := Some(a.queue[0]), persisted := 0, queue := a.queue[1..])
  }

  /** Some more bytes of the current record, or of its newline, reach the disk. */
  predicate PersistStep(a: State, b: State, n: nat) {
    && a.current.Some?
    && a.persisted < n <= |RecordBytes(a.current.value.body)|
    && b == a.(persisted := n,
               disk := a.disk.Append(StreamOf(a.current.value), RecordBytes(a.current.value.body)[a.persisted..n]))
  }

  predicate CompleteStep(a: State, b: State) {
    && a.current.Some?
    && a.persisted == |RecordBytes(a.current.value.body)|
    && b == a.(done := a.done + [a.current.value], current := None, persisted := 0)
  }

  ghost predicate Step(capacity: nat, a: State, b: State) {
    || (exists p :: SendStep(capacity, a, b, p))
    || TakeStep(a, b)
    || (exists n :: PersistStep(a, b, n))
    || CompleteStep(a, b)
  }

  /** Any interleaving of producer and writer, stopped anywhere. */
  ghost predicate Run(capacity: nat, run: seq<State>) {
    && run != [] && run[0] == INITIAL
    && forall i | 0 <= i < |run| - 1 :: Step(capacity, run[i], run[i + 1])
  }

  // ---- The invariant ---------------------------------------------------------------------------

  function BodiesOn(ps: seq<Packet>, s: Stream): seq<Members> {
    if ps == [] then []
    else
      var last := ps[|ps| - 1];
      BodiesOn(ps[..|ps| - 1], s) + (if StreamOf(last) == s then [last.body] else [])
  }

  lemma BodiesSnoc(ps: seq<Packet>, p: Packet, s: Stream)
    ensures BodiesOn(ps + [p], s) == BodiesOn(ps, s) + (if StreamOf(p) == s then [p.body] else [])
  {
    assert (ps + [p])[..|ps|] == ps;
  }

  /** The part of the current record that is on stream `s`. */
  function Fragment(st: State, s: Stream): seq<byte>
    requires st.current.Some? ==> st.persisted <= |RecordBytes(st.current.value.body)|
  {
    if st.current.Some? && StreamOf(st.current.value) == s then RecordBytes(st.current.value.body)[..st.persisted]
    else []
  }

  ghost predicate Inv(capacity: nat, st: State) {
    && |st.queue| <= capacity
    && (st.current.Some? ==> st.persisted <= |RecordBytes(st.current.value.body)|)
    && (st.current.None? ==> st.persisted == 0)
    && forall s: Stream :: st.disk.Get(s) == StreamBytes(BodiesOn(st.done, s)) + Fragment(st, s)
  }

  lemma InvInitially(capacity: nat)
    ensures Inv(capacity, INITIAL)
  {
    hide RecordBytes;
    assert Texts([]) == [];
    assert Lines([]) == "" && Encode("") == [];
    forall s: Stream
      ensures INITIAL.disk.Get(s) == StreamBytes(BodiesOn(INITIAL.done, s)) + Fragment(INITIAL, s)
    {
      assert BodiesOn([], s) == [];
    }
  }

  /** Steps move packets along the pipe and never reorder, drop or invent one. */
  lemma StepKeepsInv(capacity: nat, a: State, b: State)
    requires Inv(capacity, a) && Step(capacity, a, b)
    ensures Inv(capacity, b)
    ensures Sent(a) <= Sent(b)
  {
    hide RecordBytes, StreamBytes;
    if p :| SendStep(capacity, a, b, p) {
      assert Sent(b) == Sent(a) + [p];
    } else if TakeStep(a, b) {
      assert a.queue == [a.queue[0]] + a.queue[1..];
      assert Sent(b) == Sent(a);
    } else if n :| PersistStep(a, b, n) {
      PersistKeepsDisk(a, b, n);
    } else {
      assert Sent(b) == Sent(a);
      CompleteKeepsDisk(a, b);
    }
  }

  lemma PersistKeepsDisk(a: State, b: State, n: nat)
    requires PersistStep(a, b, n)
    requires forall s: Stream :: a.disk.Get(s) == StreamBytes(BodiesOn(a.done, s)) + Fragment(a, s)
    ensures forall s: Stream :: b.disk.Get(s) == StreamBytes(BodiesOn(b.done, s)) + Fragment(b, s)
  {
    hide RecordBytes, StreamBytes, BodiesOn;
    var bytes := RecordBytes(a.current.value.body);
    assert bytes[..a.persisted] + bytes[a.persisted..n] == bytes[..n];
  }

  lemma CompleteKeepsDisk(a: State, b: State)
    requires CompleteStep(a, b)
    requires forall s: Stream :: a.disk.Get(s) == StreamBytes(BodiesOn(a.done, s)) + Fragment(a, s)
    ensures forall s: Stream :: b.disk.Get(s) == StreamBytes(BodiesOn(b.done, s)) + Fragment(b, s)
  {
    hide RecordBytes, StreamBytes, BodiesOn;
    var p := a.current.value;
    assert RecordBytes(p.body)[..a.persisted] == RecordBytes(p.body);
    forall s: Stream
      ensures b.disk.Get(s) == StreamBytes(BodiesOn(b.done, s)) + Fragment(b, s)
    {
      BodiesSnoc(a.done, p, s);
      StreamBytesSnoc(BodiesOn(a.done, s), p.body);
      assert BodiesOn(a.done, s) + [] == BodiesOn(a.done, s);
    }
  }

  lemma {:induction false} RunKeepsInv(capacity: nat, run: seq<State>, i: nat)
    requires Run(capacity, run) && i < |run|
    ensures Inv(capacity, run[i])
    ensures forall k | 0 <= k <= i :: Sent(run[k]) <= Sent(run[i])
  {
    hide Inv, Step, Sent;
    if i == 0 {
      InvInitially(capacity);
    } else {
      RunKeepsInv(capacity, run, i - 1);
      assert Step(capacity, run[i - 1], run[i - 1 + 1]);
      StepKeepsInv(capacity, run[i - 1], run[i]);
    }
  }

  // ---- Crash and recovery ----------------------------------------------------------------------

  /** The packets whose record text is completely on disk. */
  function Durable(st: State): seq<Packet> {
    if st.current.Some? && TextPersisted(st.current.value.body, st.persisted) then st.done + [st.current.value]
    else st.done
  }

  lemma DurableIsPrefix(st: State)
    ensures Durable(st) <= Sent(st)
  {
    hide TextPersisted;
  }

  /** The writer was cut inside a multi-byte character of a record on stream `s`. */
  ghost predicate TornCharacterOn(st: State, s: Stream) {
    && st.current.Some? && StreamOf(st.current.value) == s
    && !AtBoundary(Record(st.current.value.body) + "\n", st.persisted)
  }

  lemma EmptyStream(bodies: seq<Members>, fragment: seq<byte>)
    ensures StreamBytes(bodies) + fragment == [] <==> bodies == [] && fragment == []
  {
    hide Record, EncodeChar;
    if bodies == [] {
      assert Texts(bodies) == [] && Lines([]) == "" && Encode("") == [];
    } else {
      assert Lines(Texts(bodies)) != "";
      EncodedLengthGrows(Lines(Texts(bodies)), 0, 1);
    }
  }

  lemma ZeroBytes(s: string)
    ensures AtBoundary(s, 0)
  {
    assert s[..0] == "" && |Encode(s[..0])| == 0;
  }

  /**
   * Exact recovery: wherever the run stops, a stream is rejected when it is empty or torn inside a
   * character, and otherwise reads back as exactly the durable packets of that stream.
   */
  lemma StreamRecovery(capacity: nat, st: State, s: Stream)
    requires Inv(capacity, st)
    ensures Read(st.disk.Get(s)) ==
            if st.disk.Get(s) == [] || TornCharacterOn(st, s) then Err
            else Ok(Texts(BodiesOn(Durable(st), s)))
  {
    hide Record, RecordBytes, StreamBytes, Read, Encode, AtBoundary, BodiesOn, TextPersisted;
    var bodies := BodiesOn(st.done, s);
    EmptyStream(bodies, Fragment(st, s));
    if st.current.Some? && StreamOf(st.current.value) == s {
      var m := st.current.value.body;
      ReadTorn(bodies, m, st.persisted);
      ZeroBytes(Record(m) + "\n");
      BodiesSnoc(st.done, st.current.value, s);
      StreamBytesSnoc(bodies, m);
      RecordBytesNonempty(m);
    } else {
      if st.current.Some? {
        BodiesSnoc(st.done, st.current.value, s);
        assert bodies + [] == bodies;
      }
      assert StreamBytes(bodies) + [] == StreamBytes(bodies);
      ReadWhole(bodies);
    }
  }

  lemma RecordBytesNonempty(m: Members)
    ensures RecordBytes(m) != []
  {
    hide Record, EncodeChar;
    assert Record(m) + "\n" != "";
    EncodedLengthGrows(Record(m) + "\n", 0, 1);
  }

  function MessagesOf(ps: seq<Packet>): (ms: seq<Message>)
    ensures |ms| == |ps| && forall i | 0 <= i < |ps| :: ms[i] == ps[i].message
  {
    seq(|ps|, i requires 0 <= i < |ps| => ps[i].message)
  }

  /** Record `k` of a stream is the body of the packet that carries the k-th message of its kind. */
  lemma {:induction false} StreamLengths(ps: seq<Packet>)
    ensures |BodiesOn(ps, ProcessStream)| == |ProcessesOf(MessagesOf(ps))|
    ensures |BodiesOn(ps, SampleStream)| == |SamplesOf(MessagesOf(ps))|
    ensures |BodiesOn(ps, EventStream)| == |EventsOf(MessagesOf(ps))|
  {
    if ps != [] {
      StreamLengths(ps[..|ps| - 1]);
      assert MessagesOf(ps)[..|ps| - 1] == MessagesOf(ps[..|ps| - 1]);
    }
  }

  /**
   * Crash safety of a write-ahead producer: at every moment of every run, the durable packets are a
   * prefix of what was sent, every stream recovers exactly its share of that prefix or is rejected,
   * and each durable sample is fully and uniquely accounted for by durable declarations.
   */
  lemma CrashSafety(capacity: nat, run: seq<State>, i: nat)
    requires Run(capacity, run) && i < |run|
    requires WriteAhead(MessagesOf(Sent(run[i])))
    ensures Durable(run[i]) <= Sent(run[i])
    ensures forall s: Stream ::
              Read(run[i].disk.Get(s)) ==
              if run[i].disk.Get(s) == [] || TornCharacterOn(run[i], s) then Err
              else Ok(Texts(BodiesOn(Durable(run[i]), s)))
    ensures var ms := MessagesOf(Durable(run[i]));
            forall o | 0 <= o < |SamplesOf(ms)| :: AvailabilityOk(EventsOf(ms), SamplesOf(ms)[o], o)
    ensures |BodiesOn(Durable(run[i]), SampleStream)| == |SamplesOf(MessagesOf(Durable(run[i])))|
  {
    hide Inv, Durable, Sent, Read, TornCharacterOn, BodiesOn, AvailabilityOk, WriteAhead, Run, SamplesOf, EventsOf;
    var st := run[i];
    RunKeepsInv(capacity, run, i);
    DurableIsPrefix(st);
    StreamLengths(Durable(st));
    forall s: Stream
      ensures Read(st.disk.Get(s)) ==
              if st.disk.Get(s) == [] || TornCharacterOn(st, s) then Err else Ok(Texts(BodiesOn(Durable(st), s)))
    {
      StreamRecovery(capacity, st, s);
    }
    var all, n := MessagesOf(Sent(st)), |Durable(st)|;
    assert MessagesOf(Durable(st)) == all[..n];
    forall o | 0 <= o < |SamplesOf(all[..n])|
      ensures AvailabilityOk(EventsOf(all[..n]), SamplesOf(all[..n])[o], o)
    {
      EveryPrefixAccounts(all, n, o);
    }
  }

  /** After a successful finish the queue is drained, and every non-empty stream holds its whole projection. */
  lemma FinishedRecovery(capacity: nat, st: State, s: Stream)
    requires Inv(capacity, st) && st.queue == [] && st.current.None?
    ensures Sent(st) == st.done
    ensures Read(st.disk.Get(s)) == if BodiesOn(Sent(st), s) == [] then Err else Ok(Texts(BodiesOn(Sent(st), s)))
  {
    hide Read, BodiesOn, StreamBytes;
    assert Sent(st) == st.done;
    StreamRecovery(capacity, st, s);
    EmptyStream(BodiesOn(st.done, s), []);
    assert StreamBytes(BodiesOn(st.done, s)) + [] == StreamBytes(BodiesOn(st.done, s));
  }

  lemma RecordBytesParts(m: Members)
    ensures RecordBytes(m) == Encode(Record(m)) + Encode("\n")
    ensures Encode(Record(m)) != [] && Encode("\n") != []
  {
    hide Record, EncodeChar;
    EncodeAppend(Record(m), "\n");
    RecordOpens(m);
    EncodedLengthGrows(Record(m), 0, 1);
    EncodedLengthGrows("\n", 0, 1);
  }

  lemma AppendTwice(d: Disk, s: Stream, a: seq<byte>, b: seq<byte>)
    ensures d.Append(s, a).Append(s, b) == d.Append(s, a + b)
  {
    assert d.Get(s) + a + b == d.Get(s) + (a + b);
  }

  // ---- The writer as a program -----------------------------------------------------------------

  class Writer {
    const capacity: nat
    var done: seq<Packet>
    var current: Option<Packet>
    var persisted: nat
    var queue: seq<Packet>
    var disk: Disk

    ghost function View(): State
      reads this
    {
      State(done, current, persisted, queue, disk)
    }

    ghost predicate Valid()
      reads this
    {
      Inv(capacity, View())
    }

    /** `start`: a positive capacity and three empty streams. */
    constructor (capacity: nat)
      requires capacity > 0
      ensures Valid() && View() == INITIAL && this.capacity == capacity
    {
      this.capacity := capacity;
      done, current, persisted, queue, disk := [], None, 0, [], Disk([], [], []);
      new;
      InvInitially(capacity);
    }

    /** `send`: it fails when the queue stays full. */
    method Send(p: Packet) returns (ok: bool)
      requires Valid()
      modifies this`queue
      ensures Valid()
      ensures ok <==> |old(queue)| < capacity
      ensures if ok then SendStep(capacity, old(View()), View(), p) else View() == old(View())
    {
      ok := |queue| < capacity;
      if ok {
        queue := queue + [p];
        assert SendStep(capacity, old(View()), View(), p);
        StepKeepsInv(capacity, old(View()), View());
      }
    }

    method Receive()
      requires Valid() && current.None? && queue != []
      modifies this`current, this`persisted, this`queue
      ensures Valid() && TakeStep(old(View()), View())
      ensures Sent(View()) == Sent(old(View()))
    {
      current, persisted, queue := Some(queue[0]), 0, queue[1..];
      StepKeepsInv(capacity, old(View()), View());
      assert old(queue) == [old(queue)[0]] + queue;
    }

    /** `write_record`: the text, the newline, the flush; the streams are append-only. */
    method WriteRecord()
      requires Valid() && current.Some? && persisted == 0
      modifies this`done, this`current, this`persisted, this`disk
      ensures Valid() && current.None?
      ensures done == old(done) + [old(current).value]
      ensures disk == old(disk).Append(StreamOf(old(current).value), RecordBytes(old(current).value.body))
      ensures Sent(View()) == Sent(old(View()))
    {
      hide RecordBytes, Inv;
      var p := current.value;
      var text, newline := Encode(Record(p.body)), Encode("\n");
      ghost var bytes := RecordBytes(p.body);
      RecordBytesParts(p.body);
      disk := disk.Append(StreamOf(p), text);
      persisted := |text|;
      label written:
      assert bytes[0..|text|] == text;
      assert PersistStep(old(View()), View(), |text|);
      StepKeepsInv(capacity, old(View()), View());
      disk := disk.Append(StreamOf(p), newline);
      persisted := |text| + |newline|;
      label ended:
      assert bytes[|text|..|bytes|] == newline;
      assert PersistStep(old@written(View()), View(), |bytes|);
      StepKeepsInv(capacity, old@written(View()), View());
      AppendTwice(old(disk), StreamOf(p), text, newline);
      done, current, persisted := done + [p], None, 0;
      assert CompleteStep(old@ended(View()), View());
      StepKeepsInv(capacity, old@ended(View()), View());
    }

    /** `writer_loop` after the sender is dropped: it drains the queue in order. */
    method WriterLoop()
      requires Valid() && current.None?
      modifies this
      ensures Valid() && queue == [] && current.None?
      ensures done == Sent(old(View()))
      ensures forall s: Stream ::
                Read(disk.Get(s)) == if BodiesOn(done, s) == [] then Err else Ok(Texts(BodiesOn(done, s)))
    {
      hide Inv, Read, BodiesOn, RecordBytes;
      while queue != []
        invariant Valid() && current.None? && Sent(View()) == Sent(old(View()))
        decreases |queue|
      {
        Receive();
        WriteRecord();
      }
      forall s: Stream
        ensures Read(disk.Get(s)) == if BodiesOn(done, s) == [] then Err else Ok(Texts(BodiesOn(done, s)))
      {
        FinishedRecovery(capacity, View(), s);
      }
    }
  }
}
