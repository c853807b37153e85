/** Line-delimited streams: the reader that recovers complete records, and exactly what it recovers. */
module Ndjson {
  import opened Prelude
  import opened Utf8
  import opened Json
  import opened JsonLaws

  // ---- Physical lines --------------------------------------------------------------------------

  predicate OneLine(s: string) {
    '\n' !in s
  }

  /** `str::split('\n')`: one more piece than there are newlines. */
  function Split(s: string): (lines: seq<string>)
    ensures lines != []
  {
    if s == "" then [""]
    else if s[0] == '\n' then [""] + Split(s[1..])
    else var rest := Split(s[1..]); [[s[0]] + rest[0]] + rest[1..]
  }

  function Lines(rs: seq<string>): string {
    if rs == [] then "" else rs[0] + "\n" + Lines(rs[1..])
  }

  lemma {:induction false} LinesSnoc(rs: seq<string>, r: string)
    ensures Lines(rs + [r]) == Lines(rs) + (r + "\n")
  {
    if rs == [] {
      assert rs + [r] == [r];
      assert Lines([r]) == r + "\n" + Lines([]);
    } else {
      LinesSnoc(rs[1..], r);
      assert (rs + [r])[1..] == rs[1..] + [r];
      assert rs[0] + "\n" + (Lines(rs[1..]) + (r + "\n")) == Lines(rs) + (r + "\n");
    }
  }

  lemma {:induction false} SplitOne(s: string)
    requires OneLine(s)
    ensures Split(s) == [s]
  {
    if s != "" {
      SplitOne(s[1..]);
      assert [s[0]] + s[1..] == s;
    }
  }

  lemma {:induction false} SplitFirst(s: string, t: string)
    requires OneLine(s)
    ensures Split(s + "\n" + t) == [s] + Split(t)
  {
    if s == "" {
      assert s + "\n" + t == "\n" + t;
    } else {
      SplitFirst(s[1..], t);
      assert (s + "\n" + t)[1..] == s[1..] + "\n" + t;
      assert [s[0]] + s[1..] == s;
    }
  }

  lemma {:induction false} SplitLines(rs: seq<string>, tail: string)
    requires (forall r | r in rs :: OneLine(r)) && OneLine(tail)
    ensures Split(Lines(rs) + tail) == rs + [tail]
  {
    if rs == [] {
      assert Lines(rs) + tail == tail;
      SplitOne(tail);
    } else {
      assert Lines(rs) + tail == rs[0] + "\n" + (Lines(rs[1..]) + tail);
      SplitFirst(rs[0], Lines(rs[1..]) + tail);
      SplitLines(rs[1..], tail);
      assert [rs[0]] + (rs[1..] + [tail]) == rs + [tail];
    }
  }

  lemma {:induction false} EndsWithNewline(s: string)
    ensures (s != "" && s[|s| - 1] == '\n') <==> (|Split(s)| > 1 && Split(s)[|Split(s)| - 1] == "")
    ensures s == "" <==> Split(s) == [""]
  {
    if s != "" {
      EndsWithNewline(s[1..]);
    }
  }

  // ---- The reader ------------------------------------------------------------------------------

  function StripReturn(line: string): string {
    if line != "" && line[|line| - 1] == '\r' then line[..|line| - 1] else line
  }

  /** An interior line must be a JSON record. */
  predicate LineOk(line: string) {
    StripReturn(line) != "" && IsJson(StripReturn(line))
  }

  /** Lines `0..n` are records, and what is after the last newline, if anything, is not empty. */
  predicate Readable(lines: seq<string>)
    requires lines != []
  {
    var n := |lines| - 1;
    && (forall i | 0 <= i < n :: LineOk(lines[i]))
    && ((n > 0 && lines[n] == "") || StripReturn(lines[n]) != "")
  }

  function Strip(lines: seq<string>): (rs: seq<string>)
    ensures |rs| == |lines| && forall i | 0 <= i < |lines| :: rs[i] == StripReturn(lines[i])
  {
    seq(|lines|, i requires 0 <= i < |lines| => StripReturn(lines[i]))
  }

  /** What a readable stream yields: its interior records, and the final fragment if it is complete. */
  function RecordsIn(lines: seq<string>): seq<string>
    requires lines != []
  {
    var n := |lines| - 1;
    var tail := StripReturn(lines[n]);
    Strip(lines[..n]) + (if tail != "" && IsJson(tail) then [tail] else [])
  }

  /** The reader as a function of the bytes of the file. */
  function Read(bytes: seq<byte>): Result<seq<string>> {
    var text := Decode(bytes);
    if text.None? then Err
    else if !Readable(Split(text.value)) then Err
    else Ok(RecordsIn(Split(text.value)))
  }

  /** Every record that is read is JSON. */
  lemma ReadRecordsAreJson(bytes: seq<byte>)
    requires Read(bytes).Ok?
    ensures forall i | 0 <= i < |Read(bytes).value| :: IsJson(Read(bytes).value[i])
  {
    hide IsJson, Decode, Split;
    var lines := Split(Decode(bytes).value);
    var n := |lines| - 1;
    forall i | 0 <= i < n
      ensures IsJson(StripReturn(lines[i]))
    {
      assert LineOk(lines[i]);
    }
  }

  datatype ReadResult = Records(records: seq<string>) | InvalidUtf8 | InteriorCorruption(line: nat)

  /** The reading loop, line by line, with its two early exits. */
  method ReadCompleteRecords(bytes: seq<byte>) returns (r: ReadResult)
    ensures r.Records? <==> Read(bytes).Ok?
    ensures r.Records? ==> r.records == Read(bytes).value
    ensures r.InvalidUtf8? <==> Decode(bytes).None?
    ensures r.InteriorCorruption? ==>
              var lines := Split(Decode(bytes).value);
              && 0 < r.line <= |lines| && !LineOk(lines[r.line - 1])
              && (forall i | 0 <= i < r.line - 1 :: LineOk(lines[i]))
  {
    hide IsJson, Decode, Split;
    var decoded := Decode(bytes);
    if decoded.None? {
      return InvalidUtf8;
    }
    var text := decoded.value;
    EndsWithNewline(text);
    var hasFinalNewline := text != "" && text[|text| - 1] == '\n';
    var physicalLines := Split(text);
    var lastIndex := |physicalLines| - 1;
    var records := [];
    for index := 0 to |physicalLines|
      invariant forall i | 0 <= i < index && i < lastIndex :: LineOk(physicalLines[i])
      invariant index <= lastIndex ==> records == Strip(physicalLines[..index])
      invariant index > lastIndex ==> Readable(physicalLines) && records == RecordsIn(physicalLines)
    {
      if hasFinalNewline && index == lastIndex && physicalLines[index] == "" {
        continue;
      }
      var line := StripReturn(physicalLines[index]);
      if line == "" {
        return InteriorCorruption(index + 1);
      }
      if IsJson(line) {
        assert index < lastIndex ==> physicalLines[..index + 1] == physicalLines[..index] + [physicalLines[index]];
        records := records + [line];
      } else if index == lastIndex && !hasFinalNewline {
        // physical end of file: exactly the torn final record is dropped
      } else {
        return InteriorCorruption(index + 1);
      }
    }
    return Records(records);
  }

  // ---- What any stream yields --------------------------------------------------------------------

  /** The line is the record, with or without one carriage return after it. */
  predicate LineHolds(line: string, r: string) {
    IsJson(r) && (line == r + "\r" || (line == r && (r == "" || r[|r| - 1] != '\r')))
  }

  lemma LineHoldsExactly(line: string, r: string)
    ensures LineHolds(line, r) <==> LineOk(line) && StripReturn(line) == r
  {
    hide IsJson;
    assert !IsJson("") by { EmptyIsNotJson(); }
    assert (r + "\r")[..|r|] == r;
    if line != "" && line[|line| - 1] == '\r' {
      assert line == line[..|line| - 1] + "\r";
    }
  }

  lemma EmptyIsNotJson()
    ensures !IsJson("")
  {
  }

  /** Complete lines yield their records; what is after the last newline yields one more, or nothing, or an error. */
  lemma ReadLines(lines: seq<string>, rs: seq<string>, tail: string)
    requires |lines| == |rs| && OneLine(tail)
    requires forall i | 0 <= i < |lines| :: OneLine(lines[i]) && LineHolds(lines[i], rs[i])
    ensures var r := Read(Encode(Lines(lines) + tail));
            && (tail == "" && lines != [] ==> r == Ok(rs))
            && ((tail == "" && lines == []) || tail == "\r" ==> r == Err)
            && (forall last | LineHolds(tail, last) :: r == Ok(rs + [last]))
            && (tail != "" && tail != "\r" && (forall last :: !LineHolds(tail, last)) ==> r == Ok(rs))
  {
    hide IsJson, LineHolds, LineOk, Decode, Encode, Split, Lines;
    EncodeRoundTrip(Lines(lines) + tail);
    SplitLines(lines, tail);
    forall i | 0 <= i < |lines|
      ensures LineOk(lines[i]) && StripReturn(lines[i]) == rs[i]
    {
      LineHoldsExactly(lines[i], rs[i]);
    }
    var all := lines + [tail];
    assert all[..|lines|] == lines && Strip(lines) == rs && rs + [] == rs;
    LineHoldsExactly(tail, StripReturn(tail));
    TailIsRecord(tail);
    forall last | LineHolds(tail, last)
      ensures last == StripReturn(tail)
    {
      LineHoldsExactly(tail, last);
    }
  }

  lemma TailIsRecord(tail: string)
    ensures LineOk(tail) <==> StripReturn(tail) != "" && IsJson(StripReturn(tail))
    ensures StripReturn(tail) == "" <==> tail == "" || tail == "\r"
  {
    hide IsJson;
  }

  /** A complete line that holds no record makes the stream unreadable, whatever comes before or after it. */
  lemma CorruptLineIsRefused(lines: seq<string>, tail: string, k: nat)
    requires k < |lines| && OneLine(tail) && forall i | 0 <= i < |lines| :: OneLine(lines[i])
    requires forall r :: !LineHolds(lines[k], r)
    ensures Read(Encode(Lines(lines) + tail)) == Err
  {
    hide IsJson, LineHolds, LineOk, Decode, Encode, Split, Lines;
    EncodeRoundTrip(Lines(lines) + tail);
    SplitLines(lines, tail);
    LineHoldsExactly(lines[k], StripReturn(lines[k]));
    assert (lines + [tail])[k] == lines[k];
  }

  // ---- Recovery of what the writer wrote -------------------------------------------------------

  function Texts(bodies: seq<Members>): (rs: seq<string>)
    ensures |rs| == |bodies| && forall i | 0 <= i < |bodies| :: rs[i] == Record(bodies[i])
  {
    seq(|bodies|, i requires 0 <= i < |bodies| => Record(bodies[i]))
  }

  lemma RecordLine(m: Members)
    ensures OneLine(Record(m)) && StripReturn(Record(m)) == Record(m) && Record(m) != "" && IsJson(Record(m))
  {
    hide Print, IsJson;
    RecordIsJson(m);
    RecordOpens(m);
    PrintNoControl(Object(m));
  }

  /** Whole records followed by a fragment of the next: the fragment is kept only if it is a whole record. */
  lemma ReadWithFragment(bodies: seq<Members>, m: Members, k: nat, bytes: seq<byte>)
    requires k <= |Record(m)|
    requires Decode(bytes) == Some(Lines(Texts(bodies)) + Record(m)[..k])
    ensures Read(bytes) ==
            if k == 0 then (if bodies == [] then Err else Ok(Texts(bodies)))
            else if k == |Record(m)| then Ok(Texts(bodies) + [Record(m)])
            else Ok(Texts(bodies))
  {
    hide IsJson, Record, Decode, Lines, Split;
    var rs, tail := Texts(bodies), Record(m)[..k];
    forall i | 0 <= i < |rs|
      ensures OneLine(rs[i]) && StripReturn(rs[i]) == rs[i] && LineOk(rs[i])
    {
      RecordLine(bodies[i]);
    }
    RecordLine(m);
    FragmentLine(m, k);
    SplitLines(rs, tail);
    var lines := rs + [tail];
    assert lines[..|rs|] == rs && Strip(rs) == rs && rs + [] == rs;
    if k == |Record(m)| {
      assert tail == Record(m);
    } else if k > 0 {
      CutRecordIsNotJson(m, k);
    }
  }

  lemma FragmentLine(m: Members, k: nat)
    requires k <= |Record(m)|
    ensures OneLine(Record(m)[..k]) && StripReturn(Record(m)[..k]) == Record(m)[..k]
  {
    hide Print;
    PrintNoControl(Object(m));
  }

  /** The bytes of one record on disk. */
  function RecordBytes(m: Members): seq<byte> {
    Encode(Record(m) + "\n")
  }

  function StreamBytes(bodies: seq<Members>): seq<byte> {
    Encode(Lines(Texts(bodies)))
  }

  lemma StreamBytesSnoc(bodies: seq<Members>, m: Members)
    ensures StreamBytes(bodies + [m]) == StreamBytes(bodies) + RecordBytes(m)
    ensures Texts(bodies + [m]) == Texts(bodies) + [Record(m)]
  {
    hide Record, Lines, Encode;
    assert Texts(bodies + [m]) == Texts(bodies) + [Record(m)];
    LinesSnoc(Texts(bodies), Record(m));
    EncodeAppend(Lines(Texts(bodies)), Record(m) + "\n");
  }

  /** A finished stream reads back as all its records; an empty one is rejected. */
  lemma ReadWhole(bodies: seq<Members>)
    ensures Read(StreamBytes(bodies)) == if bodies == [] then Err else Ok(Texts(bodies))
  {
    hide Record, Lines, Read, Decode, Encode;
    EncodeRoundTrip(Lines(Texts(bodies)));
    assert Record(NoMembers)[..0] == "";
    assert Lines(Texts(bodies)) + "" == Lines(Texts(bodies));
    ReadWithFragment(bodies, NoMembers, 0, StreamBytes(bodies));
  }

  /** The record's text, without its newline, is entirely within the first `n` bytes. */
  predicate TextPersisted(m: Members, n: nat) {
    n >= |Encode(Record(m))|
  }

  /**
   * Exact recovery: after the whole records and the first `n` bytes of the next one, the stream is
   * rejected when it is empty or the cut is inside a character, and otherwise it yields the whole
   * records, plus the next one exactly when all of its text arrived.
   */
  lemma ReadTorn(bodies: seq<Members>, m: Members, n: nat)
    requires n <= |RecordBytes(m)|
    ensures Read(StreamBytes(bodies) + RecordBytes(m)[..n]) ==
            if !AtBoundary(Record(m) + "\n", n) || (bodies == [] && n == 0) then Err
            else if TextPersisted(m, n) then Ok(Texts(bodies) + [Record(m)])
            else Ok(Texts(bodies))
  {
    hide Record, Lines, Read, Decode, Encode;
    var s := Record(m) + "\n";
    var cut := RecordBytes(m)[..n];
    var k := CharsWithin(s, n);
    RecordOpens(m);
    DecodeCutText(s, n);
    DecodeEncoded(Lines(Texts(bodies)), cut);
    if AtBoundary(s, n) {
      WholeTextLength(m, n, k);
      if k <= |Record(m)| {
        assert s[..k] == Record(m)[..k];
        ReadWithFragment(bodies, m, k, StreamBytes(bodies) + cut);
      } else {
        assert s[..k] == s;
        assert cut == RecordBytes(m);
        StreamBytesSnoc(bodies, m);
        ReadWhole(bodies + [m]);
      }
    } else {
      assert Read(StreamBytes(bodies) + cut) == Err by { RejectsUndecodable(StreamBytes(bodies) + cut); }
    }
  }

  lemma RejectsUndecodable(bytes: seq<byte>)
    requires Decode(bytes).None?
    ensures Read(bytes) == Err
  {
  }

  lemma WholeTextLength(m: Members, n: nat, k: nat)
    requires k <= |Record(m) + "\n"| && |Encode((Record(m) + "\n")[..k])| == n
    ensures TextPersisted(m, n) <==> k >= |Record(m)|
    ensures n == 0 <==> k == 0
    ensures k == |Record(m) + "\n"| ==> n == |RecordBytes(m)|
  {
    hide Record, EncodeChar;
    var s := Record(m) + "\n";
    assert s[..|Record(m)|] == Record(m) && s[..|s|] == s;
    if k < |Record(m)| {
      EncodedLengthGrows(s, k, |Record(m)|);
    } else if k > |Record(m)| {
      EncodedLengthGrows(s, |Record(m)|, k);
    }
    if k > 0 {
      EncodedLengthGrows(s, 0, k);
    }
  }
}
