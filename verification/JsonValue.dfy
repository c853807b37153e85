/**
 * The value that JSON text stands for. It follows the recogniser, whose lengths say where each part
 * ends; every text that the recogniser accepts has a value.
 */
module JsonValue {
  import opened Prelude
  import opened Decimal
  import opened Json
  import opened JsonLaws

  function Unescaped(c: char): char {
    match c
    case 'b' => 8 as char
    case 't' => 9 as char
    case 'n' => 10 as char
    case 'f' => 12 as char
    case 'r' => 13 as char
    case _ => c
  }

  /** One element of a string, as the character it stands for. */
  function ReadElement(s: string): char
    requires StringElement(s) > 0
  {
    if s[0] != '\\' then s[0]
    else if SimpleEscape(s[1]) then Unescaped(s[1])
    else if !HighSurrogate(UnitOf(s)) then UnitOf(s) as char
    else (0x10000 + (UnitOf(s) - 0xD800) * 0x400 + (UnitOf(s[6..]) - 0xDC00)) as char
  }

  function ReadString(s: string): Option<string> {
    if s == "" then None
    else if s[0] == '"' then Some("")
    else if StringElement(s) == 0 then None
    else
      var rest := ReadString(s[StringElement(s)..]);
      if rest.None? then None else Some([ReadElement(s)] + rest.value)
  }

  function ReadNumber(s: string): Option<Value> {
    if ParseNumber(s).None? then None
    else
      var text := s[..ParseNumber(s).value];
      Some(if AllDigits(text) then Number(NumericValue(text)) else OtherNumber)
  }

  /** What follows the comma at position `v`. */
  function Onward(s: string, v: nat): (rest: string)
    requires v < |s|
    ensures |rest| < |s|
  {
    s[v + 1 + SkipSpace(s[v + 1..])..]
  }

  function ReadValue(s: string): Option<Value>
    decreases |s|, 1
  {
    if s == "" then None
    else if s[0] == '{' then
      var w := 1 + SkipSpace(s[1..]);
      if w < |s| && s[w] == '}' then Some(Object(NoMembers))
      else
        var members := ReadMembers(s[w..]);
        if members.None? then None else Some(Object(members.value))
    else if s[0] == '[' then
      var w := 1 + SkipSpace(s[1..]);
      if w < |s| && s[w] == ']' then Some(Array(NoItems))
      else
        var items := ReadItems(s[w..]);
        if items.None? then None else Some(Array(items.value))
    else if s[0] == '"' then
      var text := ReadString(s[1..]);
      if text.None? then None else Some(String(text.value))
    else if s[0] == 't' then Some(Bool(true))
    else if s[0] == 'f' then Some(Bool(false))
    else if s[0] == 'n' then Some(Null)
    else ReadNumber(s)
  }

  function ReadItems(s: string): Option<Items>
    decreases |s|, 3
  {
    var head, v := ReadValue(s), ParseSpaced(s);
    if head.None? || v.None? || v.value >= |s| then None
    else if s[v.value] == ']' then Some(Item(head.value, NoItems))
    else
      var rest := ReadItems(Onward(s, v.value));
      if rest.None? then None else Some(Item(head.value, rest.value))
  }

  function ReadMembers(s: string): Option<Members>
    decreases |s|, 4
  {
    var k, v := ParseKey(s), ParseMember(s);
    if s == "" || k.None? || v.None? || v.value >= |s| then None
    else
      var key, value := ReadString(s[1..]), ReadValue(s[k.value..]);
      if key.None? || value.None? then None
      else if s[v.value] == '}' then Some(Member(key.value, value.value, NoMembers))
      else
        var rest := ReadMembers(Onward(s, v.value));
        if rest.None? then None else Some(Member(key.value, value.value, rest.value))
  }

  /** `serde_json::from_str` for one line. */
  function ReadText(s: string): Option<Value> {
    if IsJson(s) then ReadValue(s[SkipSpace(s)..]) else None
  }

  // ---- Printed values are read back ------------------------------------------------------------

  lemma HexReads(d: nat)
    requires d < 16
    ensures IsHexDigit(HexChar(d)) && HexValue(HexChar(d)) == d
  {
  }

  lemma ElementReads(c: char, rest: string)
    ensures StringElement(EscapeChar(c) + rest) > 0 && ReadElement(EscapeChar(c) + rest) == c
  {
    EscapedElement(c, rest);
    if c as int < 32 {
      HexReads(c as int / 16);
      HexReads(c as int % 16);
    }
  }

  /** A UTF-16 unit as an escape: four hexadecimal digits. */
  function UnitEscape(n: nat): string
    requires n < 0x10000
  {
    ['\\', 'u', HexChar(n / 0x1000), HexChar(n / 0x100 % 0x10), HexChar(n / 0x10 % 0x10), HexChar(n % 0x10)]
  }

  lemma UnitEscapeReads(n: nat, rest: string)
    requires n < 0x10000
    ensures EscapedUnit(UnitEscape(n) + rest) && UnitOf(UnitEscape(n) + rest) == n
  {
    HexReads(n / 0x1000);
    HexReads(n / 0x100 % 0x10);
    HexReads(n / 0x10 % 0x10);
    HexReads(n % 0x10);
    assert n / 0x100 == n / 0x1000 * 0x10 + n / 0x100 % 0x10;
    assert n / 0x10 == n / 0x100 * 0x10 + n / 0x10 % 0x10;
    assert n == n / 0x10 * 0x10 + n % 0x10;
  }

  /** Any character is read from its UTF-16 escape: one unit, or a pair beyond the first 65536. */
  lemma Utf16EscapeReads(c: char, rest: string)
    ensures c as int < 0x10000 ==>
              var s := UnitEscape(c as int) + rest;
              StringElement(s) == 6 && ReadElement(s) == c
    ensures c as int >= 0x10000 ==>
              var n := c as int - 0x10000;
              var s := UnitEscape(0xD800 + n / 0x400) + (UnitEscape(0xDC00 + n % 0x400) + rest);
              StringElement(s) == 12 && ReadElement(s) == c
  {
    hide UnitOf, EscapedUnit;
    if c as int < 0x10000 {
      UnitEscapeReads(c as int, rest);
    } else {
      var n := c as int - 0x10000;
      var low := UnitEscape(0xDC00 + n % 0x400) + rest;
      UnitEscapeReads(0xD800 + n / 0x400, low);
      UnitEscapeReads(0xDC00 + n % 0x400, rest);
      assert (UnitEscape(0xD800 + n / 0x400) + low)[6..] == low;
    }
  }

  /** The short escapes: themselves for a quote, a backslash and a slash, five control characters for letters. */
  lemma ShortEscapesRead(rest: string)
    ensures ReadElement("\\\"" + rest) == '"' && ReadElement("\\\\" + rest) == '\\' && ReadElement("\\/" + rest) == '/'
    ensures ReadElement("\\b" + rest) as int == 8 && ReadElement("\\t" + rest) as int == 9
    ensures ReadElement("\\n" + rest) as int == 10 && ReadElement("\\f" + rest) as int == 12
    ensures ReadElement("\\r" + rest) as int == 13
  {
  }

  lemma ReadStringStep(s: string, c: char, n: nat, rest: string)
    requires s != "" && s[0] != '"' && StringElement(s) == n > 0
    requires ReadElement(s) == c && s[n..] == rest
    ensures ReadString(s) == match ReadString(rest) case None => None case Some(t) => Some([c] + t)
  {
    hide StringElement, ReadElement;
  }

  lemma {:induction false} StringReads(s: string, rest: string)
    ensures ReadString(StringTail(s) + rest) == Some(s)
  {
    hide EscapeChar, StringElement, ReadElement, ReadString;
    if s == "" {
      EmptyString(rest);
    } else {
      var e := EscapeChar(s[0]);
      var tail := StringTail(s[1..]) + rest;
      assert StringTail(s) + rest == e + tail;
      EscapedElement(s[0], tail);
      ElementReads(s[0], tail);
      StringReads(s[1..], rest);
      assert (e + tail)[|e|..] == tail && (e + tail)[0] == e[0];
      ReadStringStep(e + tail, s[0], |e|, tail);
      assert [s[0]] + s[1..] == s;
    }
  }

  lemma EmptyString(rest: string)
    ensures StringTail("") + rest == "\"" + rest && ReadString("\"" + rest) == Some("")
  {
  }

  lemma NumberReads(n: nat, rest: string)
    requires Delimited(rest)
    ensures ReadNumber(Digits(n) + rest) == Some(Number(n))
  {
    hide ParseNumber;
    NumberComplete(n, rest);
    assert (Digits(n) + rest)[..|Digits(n)|] == Digits(n);
    ValueOfDecimal(n);
  }

  lemma {:induction false} ValueReads(v: Value, rest: string)
    requires Delimited(rest)
    ensures ReadValue(Print(v) + rest) == Some(v)
    decreases v, 1
  {
    hide ParseNumber, StringTail, PrintMembers, PrintItems, Digits, ReadNumber, ReadString, ReadItems, ReadMembers;
    var s := Print(v) + rest;
    match v
    case Null => assert s[0] == 'n';
    case Bool(b) => assert s[0] == if b then 't' else 'f';
    case Number(n) =>
      NumberReads(n, rest);
      FirstDigit(n, rest);
    case OtherNumber =>
      MinusOneReads(rest);
    case String(t) =>
      StringReads(t, rest);
      assert s[0] == '"' && s[1..] == StringTail(t) + rest;
    case Array(items) =>
      if items.Item? {
        ItemsStart(items);
        ItemsRead(items, rest);
        assert s[0] == '[' && s[1..] == PrintItems(items) + rest;
        assert s[1..][0] == PrintItems(items)[0];
      } else {
        assert s[0] == '[' && s[1..] == "]" + rest;
      }
    case Object(members) =>
      if members.Member? {
        MembersStart(members);
        MembersRead(members, rest);
        assert s[0] == '{' && s[1..] == PrintMembers(members) + rest;
        assert s[1..][0] == PrintMembers(members)[0];
      } else {
        assert s[0] == '{' && s[1..] == "}" + rest;
      }
  }

  lemma MinusOneReads(rest: string)
    requires Delimited(rest)
    ensures ReadNumber("-1" + rest) == Some(OtherNumber)
  {
    hide ParseNumber;
    MinusOneComplete(rest);
    assert ("-1" + rest)[..2] == "-1" && "-1"[0] == '-';
  }

  lemma FirstDigit(n: nat, rest: string)
    ensures Digits(n) + rest != "" && IsDigit((Digits(n) + rest)[0])
  {
  }

  lemma NothingSkipped(s: string, v: nat, rest: string)
    requires v < |s| && s[v + 1..] == rest && rest != "" && !IsSpace(rest[0])
    ensures Onward(s, v) == rest
  {
    assert SkipSpace(rest) == 0;
  }

  lemma ItemsReadStep(s: string, v: nat)
    requires ParseSpaced(s) == Some(v) && v < |s| && ReadValue(s).Some?
    ensures s[v] == ']' ==> ReadItems(s) == Some(Item(ReadValue(s).value, NoItems))
    ensures s[v] == ',' && ReadItems(Onward(s, v)).Some? ==>
              ReadItems(s) == Some(Item(ReadValue(s).value, ReadItems(Onward(s, v)).value))
  {
    hide ParseSpaced, ReadValue, Onward;
  }

  lemma {:induction false} ItemsRead(items: Items, rest: string)
    requires items.Item?
    ensures ReadItems(PrintItems(items) + rest) == Some(items)
    decreases items
  {
    hide ParseSpaced, Print, ReadItems, ReadValue, Onward;
    var p := Print(items.value);
    var s := PrintItems(items) + rest;
    if items.rest.NoItems? {
      assert s == p + ("]" + rest);
      SpacedComplete(items.value, "]" + rest);
      ValueReads(items.value, "]" + rest);
    } else {
      var tail := PrintItems(items.rest) + rest;
      assert s == p + ("," + tail);
      SpacedComplete(items.value, "," + tail);
      ValueReads(items.value, "," + tail);
      ItemsStart(items.rest);
      assert s[|p| + 1..] == tail;
      NothingSkipped(s, |p|, tail);
      ItemsRead(items.rest, rest);
    }
    ItemsReadStep(s, |p|);
  }

  lemma KeyReads(key: string, rest: string)
    requires rest != "" && !IsSpace(rest[0])
    ensures ReadString((PrintKey(key) + rest)[1..]) == Some(key)
  {
    hide StringTail, ReadString;
    assert (PrintKey(key) + rest)[1..] == StringTail(key) + (":" + rest);
    StringReads(key, ":" + rest);
  }

  lemma MembersReadStep(s: string, k: nat, v: nat, key: string, value: Value)
    requires ParseKey(s) == Some(k) && ParseMember(s) == Some(v) && v < |s|
    requires ReadString(s[1..]) == Some(key) && ReadValue(s[k..]) == Some(value)
    ensures s[v] == '}' ==> ReadMembers(s) == Some(Member(key, value, NoMembers))
    ensures s[v] == ',' && ReadMembers(Onward(s, v)).Some? ==>
              ReadMembers(s) == Some(Member(key, value, ReadMembers(Onward(s, v)).value))
  {
    hide ParseKey, ParseMember, ReadValue, ReadString, Onward;
  }

  /** The key and the value at the front of a printed member list. */
  lemma MemberReads(key: string, value: Value, after: string, s: string)
    requires after != "" && Delimited(after) && s == PrintKey(key) + Print(value) + after
    ensures ReadString(s[1..]) == Some(key)
    ensures ParseKey(s) == Some(|PrintKey(key)|) && ParseMember(s) == Some(|PrintKey(key)| + |Print(value)|)
    ensures ReadValue(s[|PrintKey(key)|..]) == Some(value)
    decreases value, 2
  {
    hide ParseKey, ParseMember, Print, PrintKey, ReadValue, ReadString;
    MemberComplete(key, value, after, s);
    assert s == PrintKey(key) + (Print(value) + after);
    PrintStart(value);
    KeyReads(key, Print(value) + after);
    KeyComplete(key, Print(value) + after);
    ValueReads(value, after);
    assert s[|PrintKey(key)|..] == Print(value) + after;
  }

  lemma {:induction false} MembersRead(ms: Members, rest: string)
    requires ms.Member?
    ensures ReadMembers(PrintMembers(ms) + rest) == Some(ms)
    decreases ms
  {
    hide ParseMember, ParseKey, Print, PrintKey, ReadMembers, ReadValue, ReadString, Onward;
    var s := PrintMembers(ms) + rest;
    var k, p := PrintKey(ms.key), Print(ms.value);
    if ms.rest.NoMembers? {
      assert s == k + p + ("}" + rest);
      MemberReads(ms.key, ms.value, "}" + rest, s);
    } else {
      var tail := PrintMembers(ms.rest) + rest;
      assert s == k + p + ("," + tail);
      MemberReads(ms.key, ms.value, "," + tail, s);
      MembersStart(ms.rest);
      assert s[|k| + |p| + 1..] == tail;
      NothingSkipped(s, |k| + |p|, tail);
      MembersRead(ms.rest, rest);
    }
    MembersReadStep(s, |k|, |k| + |p|, ms.key, ms.value);
  }

  /** The text of a record stands for exactly that record. */
  lemma RecordReads(ms: Members)
    ensures ReadText(Record(ms)) == Some(Object(ms))
  {
    hide Print, ReadValue, ParseValue;
    RecordIsJson(ms);
    PrintStart(Object(ms));
    ValueReads(Object(ms), "");
    assert Print(Object(ms)) + "" == Record(ms) && Record(ms)[0..] == Record(ms);
  }

  // ---- Whatever is recognised has a value ------------------------------------------------------

  lemma {:induction false} StringHasValue(s: string)
    requires ParseString(s).Some?
    ensures ReadString(s).Some?
  {
    hide ReadElement;
    if s[0] != '"' {
      StringHasValue(s[StringElement(s)..]);
    }
  }

  lemma SpacedNeeds(s: string)
    requires ParseSpaced(s).Some?
    ensures ParseValue(s).Some?
  {
    hide ParseValue, SkipSpace;
  }

  lemma MemberNeeds(s: string)
    requires ParseMember(s).Some?
    ensures s != "" && ParseString(s[1..]).Some? && ParseKey(s).Some? && ParseValue(s[ParseKey(s).value..]).Some?
    ensures ParseKey(s).value > 0
  {
    hide ParseSpaced, SkipSpace, ParseString;
    SpacedNeeds(s[ParseKey(s).value..]);
  }

  lemma ItemsNext(s: string, v: nat)
    requires ParseItems(s).Some? && ParseSpaced(s) == Some(v) && v < |s| && s[v] != ']'
    ensures s[v] == ',' && ParseItems(Onward(s, v)).Some?
  {
    hide ParseItems, ParseSpaced, SkipSpace;
    if s[v] == ',' {
      ItemsGoOn(s, v, v + 1 + SkipSpace(s[v + 1..]), Onward(s, v));
    } else {
      ItemsEnd(s, v);
    }
  }

  lemma MembersNext(s: string, v: nat)
    requires ParseMembers(s).Some? && ParseMember(s) == Some(v) && v < |s| && s[v] != '}'
    ensures s[v] == ',' && ParseMembers(Onward(s, v)).Some?
  {
    hide ParseMembers, ParseMember, SkipSpace;
    if s[v] == ',' {
      MembersGoOn(s, v, v + 1 + SkipSpace(s[v + 1..]), Onward(s, v));
    } else {
      MembersEnd(s, v);
    }
  }

  lemma {:induction false} ValueHasValue(s: string)
    requires ParseValue(s).Some?
    ensures ReadValue(s).Some?
    decreases |s|, 1
  {
    hide ParseNumber, ParseString, SkipSpace, ParseMembers, ParseItems, ReadMembers, ReadItems, ReadString;
    if s[0] == '{' || s[0] == '[' {
      var w := 1 + SkipSpace(s[1..]);
      if s[0] == '{' && !(w < |s| && s[w] == '}') {
        MembersHaveValues(s[w..]);
      } else if s[0] == '[' && !(w < |s| && s[w] == ']') {
        ItemsHaveValues(s[w..]);
      }
    } else if s[0] == '"' {
      StringHasValue(s[1..]);
    }
  }

  lemma {:induction false} ItemsHaveValues(s: string)
    requires ParseItems(s).Some?
    ensures ReadItems(s).Some?
    decreases |s|, 3
  {
    hide ParseItems, ParseSpaced, ParseValue, ReadValue, ReadItems, Onward;
    ItemsNeed(s);
    SpacedNeeds(s);
    ValueHasValue(s);
    var v := ParseSpaced(s).value;
    if s[v] != ']' {
      ItemsNext(s, v);
      ItemsHaveValues(Onward(s, v));
    }
    ItemsReadStep(s, v);
  }

  lemma {:induction false} MembersHaveValues(s: string)
    requires ParseMembers(s).Some?
    ensures ReadMembers(s).Some?
    decreases |s|, 4
  {
    hide ParseMembers, ParseMember, ParseKey, ParseString, ParseValue, ReadValue, ReadString, ReadMembers, Onward;
    MembersNeed(s);
    MemberNeeds(s);
    var k, v := ParseKey(s).value, ParseMember(s).value;
    StringHasValue(s[1..]);
    ValueHasValue(s[k..]);
    if s[v] != '}' {
      MembersNext(s, v);
      MembersHaveValues(Onward(s, v));
    }
    MembersReadStep(s, k, v, ReadString(s[1..]).value, ReadValue(s[k..]).value);
  }

  /** Exactly the lines that the recogniser accepts have a value. */
  lemma TextHasValue(s: string)
    ensures ReadText(s).Some? <==> IsJson(s)
  {
    hide ParseValue, ReadValue, ParseSpaced;
    if IsJson(s) {
      SpacedNeeds(s[SkipSpace(s)..]);
      ValueHasValue(s[SkipSpace(s)..]);
    }
  }
}
