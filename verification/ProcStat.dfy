/** The proc(5) stat record: the identity and CPU fields the Linux observer reads from it. */
module ProcStat {
  import opened Prelude
  import opened Decimal

  datatype StatSample = StatSample(pid: u32, bootId: string, startTime: u64,
                                   userTicks: u64, kernelTicks: u64, threads: u32)

  // ---- Parsing ---------------------------------------------------------------------------------

  /** `str::find`. */
  function FirstAt(s: string, c: char): (at: Option<nat>)
    ensures at.Some? ==> at.value < |s| && s[at.value] == c
  {
    if s == "" then None
    else if s[0] == c then Some(0)
    else match FirstAt(s[1..], c)
      case None => None
      case Some(i) => Some(i + 1)
  }

  /** `str::rfind`. */
  function LastAt(s: string, c: char): (at: Option<nat>)
    ensures at.Some? ==> at.value < |s| && s[at.value] == c
  {
    if s == "" then None
    else if s[|s| - 1] == c then Some(|s| - 1)
    else LastAt(s[..|s| - 1], c)
  }

  function Trim(s: string): string {
    if s != "" && IsWhitespace(s[0]) then Trim(s[1..])
    else if s != "" && IsWhitespace(s[|s| - 1]) then Trim(s[..|s| - 1])
    else s
  }

  function WordLength(s: string): (n: nat)
    ensures n <= |s|
    ensures s != "" && !IsWhitespace(s[0]) ==> n > 0
  {
    if s == "" || IsWhitespace(s[0]) then 0 else 1 + WordLength(s[1..])
  }

  /** `str::split_whitespace`. */
  function Words(s: string): seq<string>
    decreases |s|
  {
    if s == "" then []
    else if IsWhitespace(s[0]) then Words(s[1..])
    else [s[..WordLength(s)]] + Words(s[WordLength(s)..])
  }

  const DASHES: set<nat> := {8, 13, 18, 23}

  predicate BootIdOk(id: string) {
    |id| == 36 && forall i | 0 <= i < 36 :: if i in DASHES then id[i] == '-' else IsHexDigit(id[i])
  }

  function ParseBootId(s: string): Option<string> {
    var id := if s != "" && s[|s| - 1] == '\n' then s[..|s| - 1] else s;
    if BootIdOk(id) then Some(id) else None
  }

  function NumericField(fields: seq<string>, index: nat, max: nat): Option<nat> {
    if index < |fields| then ParseUnsigned(fields[index], max) else None
  }

  /** The fields after the command name; `pid` has been read and matched. */
  function ParseFields(pid: u32, boot: string, fields: seq<string>): Option<StatSample> {
    var user := NumericField(fields, 11, U64_MAX);
    var kernel := NumericField(fields, 12, U64_MAX);
    var threads := NumericField(fields, 17, U64_MAX);
    var start := NumericField(fields, 19, U64_MAX);
    if user.None? || kernel.None? || threads.None? || threads.value > U32_MAX || start.None? then None
    else if pid == 0 || start.value == 0 || ParseBootId(boot).None? then None
    else Some(StatSample(pid, ParseBootId(boot).value, start.value, user.value, kernel.value, threads.value))
  }

  /** `parse_stat_sample`. */
  function ParseStat(expected: u32, boot: string, record: string): Option<StatSample> {
    var opener := FirstAt(record, '(');
    var closer := LastAt(record, ')');
    if expected == 0 || opener.None? || closer.None? || closer.value <= opener.value then None
    else
      var pid := ParseUnsigned(Trim(record[..opener.value]), U32_MAX);
      if pid.None? || pid.value == 0 || pid.value != expected then None
      else ParseFields(pid.value, boot, Words(record[closer.value + 1..]))
  }

  // ---- Printing --------------------------------------------------------------------------------

  /** The space-separated fields from the process state on, and the final newline. */
  function PrintFields(fields: seq<string>): string {
    if fields == [] then "\n" else " " + fields[0] + PrintFields(fields[1..])
  }

  /** The record layout of proc(5): the command name is copied without any escaping. */
  function PrintStat(pid: nat, comm: string, fields: seq<string>): string {
    Digits(pid) + " (" + comm + ")" + PrintFields(fields)
  }

  predicate FieldOk(f: string) {
    f != "" && ')' !in f && forall i | 0 <= i < |f| :: !IsWhitespace(f[i])
  }

  predicate FieldsOk(fields: seq<string>) {
    forall i | 0 <= i < |fields| :: FieldOk(fields[i])
  }

  // ---- Printed records are read back -----------------------------------------------------------

  lemma {:induction false} FirstAfter(s: string, c: char, t: string)
    requires c !in s
    ensures FirstAt(s + [c] + t, c) == Some(|s|)
  {
    if s != "" {
      assert (s + [c] + t)[1..] == s[1..] + [c] + t;
      FirstAfter(s[1..], c, t);
    }
  }

  lemma {:induction false} LastBefore(s: string, c: char, t: string)
    requires c !in t
    ensures LastAt(s + [c] + t, c) == Some(|s|)
    decreases |t|
  {
    if t == "" {
      assert s + [c] + t == s + [c];
    } else {
      var u := s + [c] + t;
      assert u[..|u| - 1] == s + [c] + t[..|t| - 1];
      LastBefore(s, c, t[..|t| - 1]);
    }
  }

  lemma {:induction false} WordLengthOf(w: string, t: string)
    requires forall i | 0 <= i < |w| :: !IsWhitespace(w[i])
    requires t == "" || IsWhitespace(t[0])
    ensures WordLength(w + t) == |w|
  {
    if w == "" {
      assert w + t == t;
    } else {
      assert (w + t)[1..] == w[1..] + t;
      WordLengthOf(w[1..], t);
    }
  }

  lemma FirstWord(w: string, t: string)
    requires w != "" && forall i | 0 <= i < |w| :: !IsWhitespace(w[i])
    requires t == "" || IsWhitespace(t[0])
    ensures Words(w + t) == [w] + Words(t)
  {
    hide WordLength;
    WordLengthOf(w, t);
    assert (w + t)[..|w|] == w && (w + t)[|w|..] == t;
  }

  lemma WordsSkip(t: string)
    ensures Words(" " + t) == Words(t)
  {
    assert (" " + t)[1..] == t;
  }

  lemma {:induction false} WordsOfFields(fields: seq<string>)
    requires FieldsOk(fields)
    ensures Words(PrintFields(fields)) == fields
    ensures PrintFields(fields) != "" && IsWhitespace(PrintFields(fields)[0])
    ensures ')' !in PrintFields(fields)
  {
    hide Words;
    if fields == [] {
      WordsOfNewline();
    } else {
      var rest := PrintFields(fields[1..]);
      WordsOfFields(fields[1..]);
      FirstWord(fields[0], rest);
      WordsSkip(fields[0] + rest);
      assert PrintFields(fields) == " " + (fields[0] + rest);
      assert fields == [fields[0]] + fields[1..];
    }
  }

  lemma WordsOfNewline()
    ensures Words("\n") == []
  {
    assert "\n"[1..] == "";
  }

  lemma TrimPid(pid: nat)
    ensures Trim(Digits(pid) + " ") == Digits(pid)
    ensures '(' !in Digits(pid) + " "
  {
    var d := Digits(pid);
    assert IsDigit(d[0]) && IsDigit(d[|d| - 1]);
    assert (d + " ")[..|d|] == d;
  }

  lemma PrintedParts(pid: nat, comm: string, fields: seq<string>)
    requires FieldsOk(fields)
    ensures var record := PrintStat(pid, comm, fields);
            var open := |Digits(pid)| + 1;
            var close := open + 1 + |comm|;
            FirstAt(record, '(') == Some(open) && LastAt(record, ')') == Some(close) &&
            record[..open] == Digits(pid) + " " && record[close + 1..] == PrintFields(fields)
  {
    hide Digits, PrintFields, FirstAt, LastAt;
    var record := PrintStat(pid, comm, fields);
    var head := Digits(pid) + " ";
    TrimPid(pid);
    WordsOfFields(fields);
    FirstAfter(head, '(', comm + ")" + PrintFields(fields));
    assert record == head + ['('] + (comm + ")" + PrintFields(fields));
    LastBefore(head + "(" + comm, ')', PrintFields(fields));
    assert record == head + "(" + comm + [')'] + PrintFields(fields);
  }

  /**
   * The round trip for every command name: with spaces, digits, newlines and any parentheses. The
   * sample is recovered exactly when the PID is the expected one and the values fit their types.
   */
  lemma StatRoundTrip(expected: u32, boot: string, pid: nat, comm: string, fields: seq<string>,
                      user: nat, kernel: nat, threads: nat, start: nat)
    requires FieldsOk(fields) && |fields| >= 20
    requires fields[11] == Digits(user) && fields[12] == Digits(kernel)
    requires fields[17] == Digits(threads) && fields[19] == Digits(start)
    ensures ParseStat(expected, boot, PrintStat(pid, comm, fields)) ==
            if expected == pid && pid != 0 && start != 0 && ParseBootId(boot).Some? &&
               user <= U64_MAX && kernel <= U64_MAX && threads <= U32_MAX && start <= U64_MAX
            then Some(StatSample(pid, ParseBootId(boot).value, start, user, kernel, threads))
            else None
  {
    hide Digits, PrintFields, PrintStat, FirstAt, LastAt, Words, Trim, ParseUnsigned, ParseBootId;
    PrintedParts(pid, comm, fields);
    TrimPid(pid);
    WordsOfFields(fields);
    ParseDecimal(pid, U32_MAX);
    ParseDecimal(user, U64_MAX);
    ParseDecimal(kernel, U64_MAX);
    ParseDecimal(threads, U64_MAX);
    ParseDecimal(start, U64_MAX);
  }

  /** A record with fewer than twenty fields after the command name is refused whatever it holds. */
  lemma ShortRecordRefused(expected: u32, boot: string, pid: nat, comm: string, fields: seq<string>)
    requires FieldsOk(fields) && |fields| < 20
    ensures ParseStat(expected, boot, PrintStat(pid, comm, fields)) == None
  {
    hide Digits, PrintFields, PrintStat, FirstAt, LastAt, Words, Trim, ParseUnsigned, ParseBootId;
    PrintedParts(pid, comm, fields);
    WordsOfFields(fields);
  }

  /** Boot identities are exactly the 36 characters of hexadecimal digits with four dashes, and one final newline. */
  lemma BootIdExactly(s: string, id: string)
    ensures ParseBootId(s) == Some(id) <==>
            && (s == id || s == id + "\n")
            && |id| == 36 && id[8] == '-' && id[13] == '-' && id[18] == '-' && id[23] == '-'
            && forall i | 0 <= i < 36 && i != 8 && i != 13 && i != 18 && i != 23 ::
                 '0' <= id[i] <= '9' || 'a' <= id[i] <= 'f' || 'A' <= id[i] <= 'F'
  {
    assert (id + "\n")[..|id|] == id;
    if s != "" && s[|s| - 1] == '\n' {
      assert s == s[..|s| - 1] + "\n";
    }
    assert forall i :: i in DASHES <==> i == 8 || i == 13 || i == 18 || i == 23;
  }

  /** A boot identity read from a record is accepted again, with or without the final newline. */
  lemma BootIdIsStable(s: string)
    requires ParseBootId(s).Some?
    ensures var id := ParseBootId(s).value;
            ParseBootId(id) == Some(id) && ParseBootId(id + "\n") == Some(id)
  {
    var id := ParseBootId(s).value;
    assert id[35] != '\n' by { assert 35 !in DASHES; }
    assert (id + "\n")[..36] == id;
  }
}
