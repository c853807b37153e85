/**
 * Compact JSON objects as the writer prints them, and a recogniser for the JSON grammar (sections 2
 * to 7 of RFC 8259) as the stream reader applies it to one line.
 */
module Json {
  import opened Prelude
  import opened Decimal

  // ---- Values and the compact printer ----------------------------------------------------------

  /**
   * `OtherNumber` is a number that is no unsigned integer. No reader tells such numbers apart and no
   * collector writes one, so the printer lets minus one stand for them all.
   */
  datatype Value =
    | Null
    | Bool(b: bool)
    | Number(n: nat)
    | OtherNumber
    | String(s: string)
    | Array(items: Items)
    | Object(members: Members)
  datatype Items = NoItems | Item(value: Value, rest: Items)
  datatype Members = NoMembers | Member(key: string, value: Value, rest: Members)

  function HexChar(d: nat): char
    requires d < 16
  {
    if d < 10 then '0' + d as char else 'a' + (d - 10) as char
  }

  /** Quotes, backslashes and control characters are escaped; everything else is written as it is. */
  function EscapeChar(c: char): string {
    if c == '"' then "\\\""
    else if c == '\\' then "\\\\"
    else if c as int == 8 then "\\b"
    else if c as int == 9 then "\\t"
    else if c as int == 10 then "\\n"
    else if c as int == 12 then "\\f"
    else if c as int == 13 then "\\r"
    else if c as int < 32 then "\\u00" + [HexChar(c as int / 16), HexChar(c as int % 16)]
    else [c]
  }

  function Escape(s: string): string {
    if s == "" then "" else EscapeChar(s[0]) + Escape(s[1..])
  }

  /** A string without its opening quote. */
  function StringTail(s: string): string {
    Escape(s) + "\""
  }

  function Print(v: Value): string {
    match v
    case Null => "null"
    case Bool(b) => if b then "true" else "false"
    case Number(n) => Digits(n)
    case OtherNumber => "-1"
    case String(s) => "\"" + StringTail(s)
    case Array(items) => if items.NoItems? then "[]" else "[" + PrintItems(items)
    case Object(members) => if members.NoMembers? then "{}" else "{" + PrintMembers(members)
  }

  /** Items up to and including the closing bracket. */
  function PrintItems(items: Items): string
    requires items.Item?
  {
    Print(items.value) + (if items.rest.NoItems? then "]" else "," + PrintItems(items.rest))
  }

  function PrintKey(key: string): string {
    "\"" + StringTail(key) + ":"
  }

  /** Members up to and including the closing brace. */
  function PrintMembers(ms: Members): string
    requires ms.Member?
  {
    PrintKey(ms.key) + Print(ms.value) + (if ms.rest.NoMembers? then "}" else "," + PrintMembers(ms.rest))
  }

  // ---- The recogniser --------------------------------------------------------------------------
  // Every recogniser returns how many characters it consumes from the front of its argument.

  predicate IsSpace(c: char) {
    c == ' ' || c == '\t' || c == '\n' || c == '\r'
  }

  function SkipSpace(s: string): (n: nat)
    ensures n <= |s|
  {
    if s == "" || !IsSpace(s[0]) then 0 else 1 + SkipSpace(s[1..])
  }

  function SkipDigits(s: string): (n: nat)
    ensures n <= |s|
  {
    if s == "" || !IsDigit(s[0]) then 0 else 1 + SkipDigits(s[1..])
  }

  /** A backslash, a `u` and four hexadecimal digits. */
  predicate EscapedUnit(s: string) {
    |s| >= 6 && s[0] == '\\' && s[1] == 'u' && forall i | 2 <= i < 6 :: IsHexDigit(s[i])
  }

  function UnitOf(s: string): (n: nat)
    requires EscapedUnit(s)
    ensures n < 0x10000
  {
    ((HexValue(s[2]) * 16 + HexValue(s[3])) * 16 + HexValue(s[4])) * 16 + HexValue(s[5])
  }

  predicate HighSurrogate(n: nat) {
    0xD800 <= n < 0xDC00
  }

  predicate LowSurrogate(n: nat) {
    0xDC00 <= n < 0xE000
  }

  predicate SimpleEscape(c: char) {
    c == '"' || c == '\\' || c == '/' || c == 'b' || c == 'f' || c == 'n' || c == 'r' || c == 't'
  }

  /**
   * The length of one string element: a plain character or an escape; 0 when there is none. Escaped
   * surrogates are an element only as a pair.
   */
  function StringElement(s: string): (n: nat)
    ensures n <= |s|
  {
    if s == "" || s[0] == '"' || s[0] as int < 32 then 0
    else if s[0] != '\\' then 1
    else if |s| >= 2 && SimpleEscape(s[1]) then 2
    else if !EscapedUnit(s) || LowSurrogate(UnitOf(s)) then 0
    else if !HighSurrogate(UnitOf(s)) then 6
    else if EscapedUnit(s[6..]) && LowSurrogate(UnitOf(s[6..])) then 12
    else 0
  }

  /** The rest of a string after its opening quote, with the closing quote. */
  function ParseString(s: string): (r: Option<nat>)
    ensures r.Some? ==> 0 < r.value <= |s|
  {
    if s == "" then None
    else if s[0] == '"' then Some(1)
    else
      var n := StringElement(s);
      if n == 0 then None else Plus(n, ParseString(s[n..]))
  }

  function Plus(n: nat, r: Option<nat>): Option<nat> {
    if r.None? then None else Some(n + r.value)
  }

  function ParseInteger(s: string): (r: Option<nat>)
    ensures r.Some? ==> 0 < r.value <= |s|
  {
    if s == "" || !IsDigit(s[0]) then None
    else if s[0] == '0' then Some(1)
    else Some(SkipDigits(s))
  }

  function ParseFraction(s: string): (r: Option<nat>)
    ensures r.Some? ==> r.value <= |s|
  {
    if s == "" || s[0] != '.' then Some(0)
    else if SkipDigits(s[1..]) == 0 then None
    else Some(1 + SkipDigits(s[1..]))
  }

  function ParseExponent(s: string): (r: Option<nat>)
    ensures r.Some? ==> r.value <= |s|
  {
    if s == "" || (s[0] != 'e' && s[0] != 'E') then Some(0)
    else
      var sign := if |s| > 1 && (s[1] == '+' || s[1] == '-') then 2 else 1;
      if SkipDigits(s[sign..]) == 0 then None else Some(sign + SkipDigits(s[sign..]))
  }

  function ParseNumber(s: string): (r: Option<nat>)
    ensures r.Some? ==> 0 < r.value <= |s|
  {
    var a := if s != "" && s[0] == '-' then 1 else 0;
    var i := ParseInteger(s[a..]);
    if i.None? then None
    else
      var b := a + i.value;
      var f := ParseFraction(s[b..]);
      if f.None? then None else Plus(b + f.value, ParseExponent(s[b + f.value..]))
  }

  function ParseLiteral(s: string, word: string): (r: Option<nat>)
    ensures r.Some? ==> r.value == |word| <= |s|
  {
    if word <= s then Some(|word|) else None
  }

  function ParseValue(s: string): (r: Option<nat>)
    ensures r.Some? ==> 0 < r.value <= |s|
    decreases |s|, 1
  {
    if s == "" then None
    else if s[0] == '{' then
      var w := 1 + SkipSpace(s[1..]);
      if w < |s| && s[w] == '}' then Some(w + 1) else Plus(w, ParseMembers(s[w..]))
    else if s[0] == '[' then
      var w := 1 + SkipSpace(s[1..]);
      if w < |s| && s[w] == ']' then Some(w + 1) else Plus(w, ParseItems(s[w..]))
    else if s[0] == '"' then Plus(1, ParseString(s[1..]))
    else if s[0] == 't' then ParseLiteral(s, "true")
    else if s[0] == 'f' then ParseLiteral(s, "false")
    else if s[0] == 'n' then ParseLiteral(s, "null")
    else ParseNumber(s)
  }

  /** A value and the white space after it. */
  function ParseSpaced(s: string): (r: Option<nat>)
    ensures r.Some? ==> 0 < r.value <= |s|
    decreases |s|, 2
  {
    var v := ParseValue(s);
    if v.None? then None else Some(v.value + SkipSpace(s[v.value..]))
  }

  function ParseItems(s: string): (r: Option<nat>)
    ensures r.Some? ==> 0 < r.value <= |s|
    decreases |s|, 3
  {
    var v := ParseSpaced(s);
    if v.None? || v.value == |s| then None
    else if s[v.value] == ']' then Some(v.value + 1)
    else if s[v.value] == ',' then
      var n := v.value + 1 + SkipSpace(s[v.value + 1..]);
      Plus(n, ParseItems(s[n..]))
    else None
  }

  /** A key, its colon, and the white space around the colon. */
  function ParseKey(s: string): (r: Option<nat>)
    ensures r.Some? ==> 0 < r.value <= |s|
  {
    if s == "" || s[0] != '"' then None
    else
      var k := ParseString(s[1..]);
      if k.None? then None
      else
        var c := 1 + k.value + SkipSpace(s[1 + k.value..]);
        if c == |s| || s[c] != ':' then None else Some(c + 1 + SkipSpace(s[c + 1..]))
  }

  /** A key and its value, with the white space after it. */
  function ParseMember(s: string): (r: Option<nat>)
    ensures r.Some? ==> 0 < r.value <= |s|
    decreases |s|, 3
  {
    var k := ParseKey(s);
    if k.None? then None else Plus(k.value, ParseSpaced(s[k.value..]))
  }

  function ParseMembers(s: string): (r: Option<nat>)
    ensures r.Some? ==> 0 < r.value <= |s|
    decreases |s|, 4
  {
    var v := ParseMember(s);
    if v.None? || v.value == |s| then None
    else if s[v.value] == '}' then Some(v.value + 1)
    else if s[v.value] == ',' then
      var n := v.value + 1 + SkipSpace(s[v.value + 1..]);
      Plus(n, ParseMembers(s[n..]))
    else None
  }

  /** The whole text is one JSON value with optional white space around it. */
  predicate IsJson(s: string) {
    var w := SkipSpace(s);
    var v := ParseSpaced(s[w..]);
    v.Some? && w + v.value == |s|
  }
}
