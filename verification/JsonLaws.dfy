/** The recogniser accepts every printed object, and no strict prefix of one. */
module JsonLaws {
  import opened Prelude
  import opened Decimal
  import opened Json

  // ---- One turn of the two list recognisers ----------------------------------------------------

  lemma ItemsEnd(s: string, v: nat)
    requires ParseSpaced(s) == Some(v) && v < |s| && s[v] != ','
    ensures ParseItems(s) == if s[v] == ']' then Some(v + 1) else None
  {
    hide ParseSpaced, SkipSpace;
  }

  lemma ItemsGoOn(s: string, v: nat, n: nat, rest: string)
    requires ParseSpaced(s) == Some(v) && v < |s| && s[v] == ','
    requires n == v + 1 + SkipSpace(s[v + 1..]) && rest == s[n..]
    ensures ParseItems(s) == Plus(n, ParseItems(rest))
  {
    hide ParseSpaced, SkipSpace;
  }

  lemma MembersEnd(s: string, v: nat)
    requires ParseMember(s) == Some(v) && v < |s| && s[v] != ','
    ensures ParseMembers(s) == if s[v] == '}' then Some(v + 1) else None
  {
    hide ParseMember, SkipSpace;
  }

  lemma MembersGoOn(s: string, v: nat, n: nat, rest: string)
    requires ParseMember(s) == Some(v) && v < |s| && s[v] == ','
    requires n == v + 1 + SkipSpace(s[v + 1..]) && rest == s[n..]
    ensures ParseMembers(s) == Plus(n, ParseMembers(rest))
  {
    hide ParseMember, SkipSpace;
  }

  lemma MembersNeed(s: string)
    requires ParseMembers(s).Some?
    ensures ParseMember(s).Some? && ParseMember(s).value < |s|
  {
    hide ParseMember, SkipSpace;
  }

  lemma ItemsNeed(s: string)
    requires ParseItems(s).Some?
    ensures ParseSpaced(s).Some? && ParseSpaced(s).value < |s|
  {
    hide ParseSpaced, SkipSpace;
  }

  // ---- A recognised value stays recognised when text is appended -------------------------------

  lemma Drop(s: string, t: string, k: nat)
    requires k <= |s|
    ensures (s + t)[k..] == s[k..] + t
  {
  }

  lemma {:induction false} SpaceStable(s: string, t: string)
    requires SkipSpace(s) < |s|
    ensures SkipSpace(s + t) == SkipSpace(s)
  {
    if IsSpace(s[0]) {
      SpaceStable(s[1..], t);
      Drop(s, t, 1);
    }
  }

  lemma {:induction false} DigitsStable(s: string, t: string)
    requires SkipDigits(s) < |s|
    ensures SkipDigits(s + t) == SkipDigits(s)
  {
    if IsDigit(s[0]) {
      DigitsStable(s[1..], t);
      Drop(s, t, 1);
    }
  }

  lemma {:induction false} StringStable(s: string, t: string)
    requires ParseString(s).Some?
    ensures ParseString(s + t) == ParseString(s)
  {
    if s[0] != '"' {
      var n := StringElement(s);
      assert StringElement(s + t) == n;
      StringStable(s[n..], t);
      Drop(s, t, n);
    }
  }

  lemma IntegerStable(s: string, t: string)
    requires ParseInteger(s).Some? && ParseInteger(s).value < |s|
    ensures ParseInteger(s + t) == ParseInteger(s)
  {
    if s[0] != '0' {
      DigitsStable(s, t);
    }
  }

  lemma FractionStable(s: string, t: string)
    requires ParseFraction(s).Some? && ParseFraction(s).value < |s|
    ensures ParseFraction(s + t) == ParseFraction(s)
  {
    if s[0] == '.' {
      Drop(s, t, 1);
      DigitsStable(s[1..], t);
    }
  }

  lemma ExponentStable(s: string, t: string)
    requires ParseExponent(s).Some? && ParseExponent(s).value < |s|
    ensures ParseExponent(s + t) == ParseExponent(s)
  {
    if s[0] == 'e' || s[0] == 'E' {
      var sign := if |s| > 1 && (s[1] == '+' || s[1] == '-') then 2 else 1;
      Drop(s, t, sign);
      DigitsStable(s[sign..], t);
    }
  }

  lemma NumberStable(s: string, t: string)
    requires ParseNumber(s).Some? && ParseNumber(s).value < |s|
    ensures ParseNumber(s + t) == ParseNumber(s)
  {
    hide ParseInteger, ParseFraction, ParseExponent;
    var a := if s != "" && s[0] == '-' then 1 else 0;
    Drop(s, t, a);
    IntegerStable(s[a..], t);
    var b := a + ParseInteger(s[a..]).value;
    Drop(s, t, b);
    FractionStable(s[b..], t);
    var c := b + ParseFraction(s[b..]).value;
    Drop(s, t, c);
    ExponentStable(s[c..], t);
  }

  lemma KeyStable(s: string, t: string)
    requires ParseKey(s).Some? && ParseKey(s).value < |s|
    ensures ParseKey(s + t) == ParseKey(s)
  {
    hide ParseString, SkipSpace;
    Drop(s, t, 1);
    StringStable(s[1..], t);
    var k := 1 + ParseString(s[1..]).value;
    Drop(s, t, k);
    SpaceStable(s[k..], t);
    var c := k + SkipSpace(s[k..]);
    Drop(s, t, c + 1);
    SpaceStable(s[c + 1..], t);
  }

  lemma {:induction false} ValueStable(s: string, t: string)
    requires ParseValue(s).Some? && (ParseValue(s).value < |s| || s[0] == '{')
    ensures ParseValue(s + t) == ParseValue(s)
    decreases |s|, 1
  {
    hide ParseNumber, ParseString, SkipSpace, ParseMembers, ParseItems;
    assert (s + t)[0] == s[0];
    Drop(s, t, 1);
    if s[0] == '{' || s[0] == '[' {
      var w := 1 + SkipSpace(s[1..]);
      if w == |s| {
        NothingFollows();
      }
      SpaceStable(s[1..], t);
      Drop(s, t, w);
      if s[0] == '{' && s[w] != '}' {
        MembersStable(s[w..], t);
      } else if s[0] == '[' && s[w] != ']' {
        ItemsStable(s[w..], t);
      }
    } else if s[0] == '"' {
      StringStable(s[1..], t);
    } else if s[0] != 't' && s[0] != 'f' && s[0] != 'n' {
      NumberStable(s, t);
    }
  }

  lemma NothingFollows()
    ensures ParseMembers("").None? && ParseItems("").None?
  {
  }

  lemma {:induction false} SpacedStable(s: string, t: string)
    requires ParseSpaced(s).Some? && ParseSpaced(s).value < |s|
    ensures ParseSpaced(s + t) == ParseSpaced(s)
    decreases |s|, 2
  {
    hide ParseValue, SkipSpace;
    ValueStable(s, t);
    var v := ParseValue(s).value;
    Drop(s, t, v);
    SpaceStable(s[v..], t);
  }

  lemma {:induction false} ItemsStable(s: string, t: string)
    requires ParseItems(s).Some?
    ensures ParseItems(s + t) == ParseItems(s)
    decreases |s|, 3
  {
    hide ParseSpaced, ParseItems, SkipSpace;
    ItemsNeed(s);
    SpacedStable(s, t);
    var v := ParseSpaced(s).value;
    if s[v] == ',' {
      AfterComma(s, t, v);
      var n := v + 1 + SkipSpace(s[v + 1..]);
      ItemsGoOn(s, v, n, s[n..]);
      if n == |s| {
        NothingFollows();
      }
      ItemsGoOn(s + t, v, n, s[n..] + t);
      ItemsStable(s[n..], t);
    } else {
      ItemsEnd(s, v);
      ItemsEnd(s + t, v);
    }
  }

  lemma {:induction false} MemberStable(s: string, t: string)
    requires ParseMember(s).Some? && ParseMember(s).value < |s|
    ensures ParseMember(s + t) == ParseMember(s)
    decreases |s|, 3
  {
    hide ParseSpaced, ParseKey;
    KeyStable(s, t);
    var k := ParseKey(s).value;
    Drop(s, t, k);
    SpacedStable(s[k..], t);
  }

  lemma {:induction false} MembersStable(s: string, t: string)
    requires ParseMembers(s).Some?
    ensures ParseMembers(s + t) == ParseMembers(s)
    decreases |s|, 4
  {
    hide ParseMember, ParseMembers, SkipSpace;
    MembersNeed(s);
    MemberStable(s, t);
    var v := ParseMember(s).value;
    if s[v] == ',' {
      AfterComma(s, t, v);
      var n := v + 1 + SkipSpace(s[v + 1..]);
      MembersGoOn(s, v, n, s[n..]);
      if n == |s| {
        NothingFollows();
      }
      MembersGoOn(s + t, v, n, s[n..] + t);
      MembersStable(s[n..], t);
    } else {
      MembersEnd(s, v);
      MembersEnd(s + t, v);
    }
  }

  lemma AfterComma(s: string, t: string, v: nat)
    requires v < |s|
    ensures (s + t)[v + 1..] == s[v + 1..] + t
    ensures var n := v + 1 + SkipSpace(s[v + 1..]);
            n < |s| ==> SkipSpace((s + t)[v + 1..]) == SkipSpace(s[v + 1..]) && (s + t)[n..] == s[n..] + t
  {
    Drop(s, t, v + 1);
    var n := v + 1 + SkipSpace(s[v + 1..]);
    Drop(s, t, n);
    if n < |s| {
      SpaceStable(s[v + 1..], t);
    }
  }

  // ---- Printed text is recognised --------------------------------------------------------------

  /** What may follow a value in compact text. */
  predicate Delimited(rest: string) {
    rest == "" || rest[0] == ',' || rest[0] == ']' || rest[0] == '}'
  }

  lemma EscapedElement(c: char, rest: string)
    ensures EscapeChar(c) != "" && EscapeChar(c)[0] != '"'
    ensures StringElement(EscapeChar(c) + rest) == |EscapeChar(c)|
  {
  }

  lemma {:induction false} StringComplete(s: string, rest: string)
    ensures ParseString(StringTail(s) + rest) == Some(|StringTail(s)|)
  {
    hide EscapeChar, StringElement;
    if s == "" {
      assert StringTail(s) + rest == "\"" + rest;
    } else {
      var e := EscapeChar(s[0]);
      var tail := StringTail(s[1..]) + rest;
      assert StringTail(s) + rest == e + tail;
      EscapedElement(s[0], tail);
      StringComplete(s[1..], rest);
      assert (e + tail)[|e|..] == tail;
    }
  }

  lemma {:induction false} DigitsComplete(d: string, rest: string)
    requires AllDigits(d) && Delimited(rest)
    ensures SkipDigits(d + rest) == |d|
  {
    if d == "" {
      assert d + rest == rest;
    } else {
      DigitsComplete(d[1..], rest);
      assert (d + rest)[1..] == d[1..] + rest;
    }
  }

  lemma NumberComplete(n: nat, rest: string)
    requires Delimited(rest)
    ensures ParseNumber(Digits(n) + rest) == Some(|Digits(n)|)
  {
    var d := Digits(n);
    var s := d + rest;
    assert IsDigit(d[0]) && s[0] == d[0];
    DigitsComplete(d, rest);
    assert s[0..] == s;
    assert s[|d|..] == rest;
    assert ParseInteger(s) == Some(|d|);
    assert rest[0..] == rest;
  }

  lemma MinusOneComplete(rest: string)
    requires Delimited(rest)
    ensures ParseNumber("-1" + rest) == Some(2)
  {
    var s := "-1" + rest;
    assert s[1..] == "1" + rest && ("1" + rest)[1..] == rest;
    assert SkipDigits(rest) == 0;
    assert ParseInteger(s[1..]) == Some(1);
    assert s[2..] == rest && rest[0..] == rest;
  }

  lemma PrintStart(v: Value)
    ensures Print(v) != "" && !IsSpace(Print(v)[0]) && Print(v)[0] != ']' && Print(v)[0] != '}'
  {
    if v.Number? {
      assert IsDigit(Digits(v.n)[0]);
    }
  }

  lemma KeyComplete(key: string, rest: string)
    requires rest != "" && !IsSpace(rest[0])
    ensures ParseKey(PrintKey(key) + rest) == Some(|PrintKey(key)|)
  {
    hide StringTail, ParseString;
    var s := PrintKey(key) + rest;
    var k := 1 + |StringTail(key)|;
    assert s[1..] == StringTail(key) + (":" + rest);
    StringComplete(key, ":" + rest);
    assert s[k..] == ":" + rest;
    assert s[k + 1..] == rest;
  }

  lemma {:induction false} ValueComplete(v: Value, rest: string)
    requires Delimited(rest)
    ensures ParseValue(Print(v) + rest) == Some(|Print(v)|)
    decreases v, 1
  {
    hide ParseNumber, ParseString, StringTail, ParseMembers, ParseItems, PrintMembers, PrintItems, Digits;
    var s := Print(v) + rest;
    match v
    case Null => assert s[..4] == "null";
    case Bool(b) => assert s[..if b then 4 else 5] == if b then "true" else "false";
    case Number(n) =>
      NumberComplete(n, rest);
      assert IsDigit(Digits(n)[0]);
    case OtherNumber =>
      MinusOneComplete(rest);
    case String(t) =>
      StringComplete(t, rest);
      assert s[1..] == StringTail(t) + rest;
    case Array(items) =>
      if items.Item? {
        ItemsStart(items);
        ItemsComplete(items, rest);
        assert s[1..] == PrintItems(items) + rest;
      }
    case Object(members) =>
      if members.Member? {
        MembersStart(members);
        MembersComplete(members, rest);
        assert s[1..] == PrintMembers(members) + rest;
      }
  }

  lemma ItemsStart(items: Items)
    requires items.Item?
    ensures PrintItems(items) != "" && !IsSpace(PrintItems(items)[0]) && PrintItems(items)[0] != ']'
  {
    PrintStart(items.value);
  }

  lemma MembersStart(ms: Members)
    requires ms.Member?
    ensures PrintMembers(ms) != "" && PrintMembers(ms)[0] == '"'
  {
  }

  lemma SpacedComplete(v: Value, rest: string)
    requires Delimited(rest)
    ensures ParseSpaced(Print(v) + rest) == Some(|Print(v)|)
    decreases v, 2
  {
    hide ParseValue, Print;
    ValueComplete(v, rest);
    assert (Print(v) + rest)[|Print(v)|..] == rest;
  }

  lemma {:induction false} ItemsComplete(items: Items, rest: string)
    requires items.Item?
    ensures ParseItems(PrintItems(items) + rest) == Some(|PrintItems(items)|)
    decreases items
  {
    hide ParseSpaced, ParseItems, Print;
    var p := Print(items.value);
    var s := PrintItems(items) + rest;
    if items.rest.NoItems? {
      assert s == p + ("]" + rest);
      SpacedComplete(items.value, "]" + rest);
      ItemsEnd(s, |p|);
    } else {
      var tail := PrintItems(items.rest) + rest;
      assert s == p + ("," + tail);
      SpacedComplete(items.value, "," + tail);
      ItemsStart(items.rest);
      assert s[|p| + 1..] == tail;
      ItemsGoOn(s, |p|, |p| + 1, tail);
      ItemsComplete(items.rest, rest);
    }
  }

  lemma MemberComplete(key: string, value: Value, after: string, s: string)
    requires after != "" && Delimited(after) && s == PrintKey(key) + Print(value) + after
    ensures ParseMember(s) == Some(|PrintKey(key)| + |Print(value)|)
    decreases value, 3
  {
    hide ParseSpaced, ParseKey, Print, PrintKey;
    var k, p := PrintKey(key), Print(value);
    PrintStart(value);
    assert s == k + (p + after);
    KeyComplete(key, p + after);
    assert s[|k|..] == p + after;
    SpacedComplete(value, after);
  }

  lemma {:induction false} MembersComplete(ms: Members, rest: string)
    requires ms.Member?
    ensures ParseMembers(PrintMembers(ms) + rest) == Some(|PrintMembers(ms)|)
    decreases ms
  {
    hide ParseMember, ParseMembers, Print, PrintKey;
    var s := PrintMembers(ms) + rest;
    var v := |PrintKey(ms.key)| + |Print(ms.value)|;
    if ms.rest.NoMembers? {
      assert s == PrintKey(ms.key) + Print(ms.value) + ("}" + rest);
      MemberComplete(ms.key, ms.value, "}" + rest, s);
      MembersEnd(s, v);
    } else {
      var tail := PrintMembers(ms.rest) + rest;
      assert s == PrintKey(ms.key) + Print(ms.value) + ("," + tail);
      MemberComplete(ms.key, ms.value, "," + tail, s);
      MembersStart(ms.rest);
      assert s[v + 1..] == tail;
      MembersGoOn(s, v, v + 1, tail);
      MembersComplete(ms.rest, rest);
    }
  }

  // ---- Records ---------------------------------------------------------------------------------

  /** A record is printed as one compact object. */
  function Record(ms: Members): string {
    Print(Object(ms))
  }

  lemma RecordIsJson(ms: Members)
    ensures IsJson(Record(ms))
  {
    hide ParseSpaced, Print;
    SpacedComplete(Object(ms), "");
    assert Print(Object(ms)) + "" == Print(Object(ms));
    PrintStart(Object(ms));
    assert Record(ms)[0..] == Record(ms);
  }

  /** A record cut short is not JSON. */
  lemma CutRecordIsNotJson(ms: Members, k: nat)
    requires 0 < k < |Record(ms)|
    ensures !IsJson(Record(ms)[..k])
  {
    hide Print, ParseValue;
    var r := Record(ms);
    var p := r[..k];
    RecordOpens(ms);
    assert p[0] == '{' && SkipSpace(p) == 0 && p[0..] == p;
    assert p + r[k..] == r && r + "" == r;
    ValueComplete(Object(ms), "");
    if ParseValue(p).Some? {
      ValueStable(p, r[k..]);
    }
  }

  lemma RecordOpens(ms: Members)
    ensures Record(ms) != "" && Record(ms)[0] == '{'
  {
  }

  // ---- Printed text has no control characters --------------------------------------------------

  predicate NoControl(s: string) {
    forall i | 0 <= i < |s| :: s[i] as int >= 32
  }

  lemma {:induction false} EscapeNoControl(s: string)
    ensures NoControl(Escape(s))
  {
    if s != "" {
      EscapeNoControl(s[1..]);
      assert NoControl(EscapeChar(s[0]));
    }
  }

  lemma KeyNoControl(key: string)
    ensures NoControl(PrintKey(key))
  {
    EscapeNoControl(key);
  }

  lemma {:induction false} PrintNoControl(v: Value)
    ensures NoControl(Print(v))
    decreases v, 1
  {
    match v
    case Null =>
    case Bool(_) =>
    case Number(n) => assert AllDigits(Digits(n));
    case OtherNumber =>
    case String(s) => EscapeNoControl(s);
    case Array(items) => if items.Item? { ItemsNoControl(items); }
    case Object(members) => if members.Member? { MembersNoControl(members); }
  }

  lemma {:induction false} ItemsNoControl(items: Items)
    requires items.Item?
    ensures NoControl(PrintItems(items))
    decreases items
  {
    PrintNoControl(items.value);
    if items.rest.Item? {
      ItemsNoControl(items.rest);
    }
  }

  lemma {:induction false} MembersNoControl(ms: Members)
    requires ms.Member?
    ensures NoControl(PrintMembers(ms))
    decreases ms
  {
    KeyNoControl(ms.key);
    PrintNoControl(ms.value);
    if ms.rest.Member? {
      MembersNoControl(ms.rest);
    }
  }
}
