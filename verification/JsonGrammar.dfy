/**
 * The JSON grammar of sections 2 to 7 of RFC 8259 as a property of whole texts, and the proof that the
 * recogniser accepts exactly its texts.
 */
module JsonGrammar {
  import opened Prelude
  import opened Decimal
  import opened Json
  import opened JsonLaws

  // ---- The grammar -----------------------------------------------------------------------------

  predicate Space(s: string) {
    forall i | 0 <= i < |s| :: s[i] == ' ' || s[i] == '\t' || s[i] == '\n' || s[i] == '\r'
  }

  predicate DigitRun(s: string) {
    s != "" && forall i | 0 <= i < |s| :: '0' <= s[i] <= '9'
  }

  /** No leading zeros. */
  predicate IntegerText(s: string) {
    DigitRun(s) && (s[0] == '0' ==> s == "0")
  }

  predicate FractionText(s: string) {
    s == "" || (s[0] == '.' && DigitRun(s[1..]))
  }

  predicate ExponentText(s: string) {
    || s == ""
    || ((s[0] == 'e' || s[0] == 'E') &&
        (DigitRun(s[1..]) || (|s| > 1 && (s[1] == '+' || s[1] == '-') && DigitRun(s[2..]))))
  }

  /** The integer part ends at `f`, the fraction at `e`. */
  predicate NumberParts(s: string, f: nat, e: nat) {
    f <= e <= |s| && IntegerText(s[..f]) && FractionText(s[f..e]) && ExponentText(s[e..])
  }

  ghost predicate UnsignedText(s: string) {
    exists f: nat, e: nat :: NumberParts(s, f, e)
  }

  ghost predicate NumberText(s: string) {
    UnsignedText(s) || (s != "" && s[0] == '-' && UnsignedText(s[1..]))
  }

  predicate UnitText(s: string, low: nat, high: nat) {
    && |s| == 6 && s[0] == '\\' && s[1] == 'u'
    && (forall i | 2 <= i < 6 :: '0' <= s[i] <= '9' || 'a' <= s[i] <= 'f' || 'A' <= s[i] <= 'F')
    && assert EscapedUnit(s); low <= UnitOf(s) < high
  }

  /** A character, a short escape, an escaped unit that is no surrogate, or an escaped surrogate pair. */
  predicate ElementText(s: string) {
    || (|s| == 1 && s[0] != '"' && s[0] != '\\' && s[0] as int >= 0x20)
    || (|s| == 2 && s[0] == '\\' && s[1] in ['"', '\\', '/', 'b', 'f', 'n', 'r', 't'])
    || UnitText(s, 0, 0xD800) || UnitText(s, 0xE000, 0x10000)
    || (|s| == 12 && UnitText(s[..6], 0xD800, 0xDC00) && UnitText(s[6..], 0xDC00, 0xE000))
  }

  /** The elements of a string and its closing quote. */
  ghost predicate CharsText(s: string) {
    s == "\"" || exists n | 0 < n < |s| :: ElementText(s[..n]) && CharsText(s[n..])
  }

  ghost predicate ValueText(s: string)
    decreases |s|, 0
  {
    || s == "null" || s == "true" || s == "false" || NumberText(s)
    || (s != "" && s[0] == '"' && CharsText(s[1..]))
    || (s != "" && s[0] == '[' && (ClosedBy(s[1..], "]") || NextItems(s[1..])))
    || (s != "" && s[0] == '{' && (ClosedBy(s[1..], "}") || NextMembers(s[1..])))
  }

  /** White space and then the bracket. */
  predicate ClosedBy(s: string, bracket: string) {
    exists w | 0 <= w <= |s| :: Space(s[..w]) && s[w..] == bracket
  }

  ghost predicate NextItems(s: string)
    decreases |s|, 2
  {
    exists w | 0 <= w < |s| :: Space(s[..w]) && ItemsText(s[w..])
  }

  /** Items up to and including the closing bracket. */
  ghost predicate ItemsText(s: string)
    decreases |s|, 1
  {
    exists v | 0 < v < |s| :: ValueText(s[..v]) && ItemsTail(s[v..])
  }

  ghost predicate ItemsTail(s: string)
    decreases |s|, 0
  {
    ClosedBy(s, "]") || exists w | 0 <= w < |s| :: Space(s[..w]) && s[w] == ',' && NextItems(s[w + 1..])
  }

  /** A string, a colon, and the white space around the colon. */
  ghost predicate KeyText(s: string) {
    exists q, c | 0 < q <= c < |s| ::
      s[0] == '"' && CharsText(s[1..q]) && Space(s[q..c]) && s[c] == ':' && Space(s[c + 1..])
  }

  ghost predicate NextMembers(s: string)
    decreases |s|, 2
  {
    exists w | 0 <= w < |s| :: Space(s[..w]) && MembersText(s[w..])
  }

  ghost predicate MembersText(s: string)
    decreases |s|, 1
  {
    exists k, v | 0 < k < v < |s| :: KeyText(s[..k]) && ValueText(s[k..v]) && MembersTail(s[v..])
  }

  ghost predicate MembersTail(s: string)
    decreases |s|, 0
  {
    ClosedBy(s, "}") || exists w | 0 <= w < |s| :: Space(s[..w]) && s[w] == ',' && NextMembers(s[w + 1..])
  }

  ghost predicate JsonText(s: string) {
    exists a, b | 0 <= a <= b <= |s| :: Space(s[..a]) && ValueText(s[a..b]) && Space(s[b..])
  }

  // ---- What is recognised is in the grammar ----------------------------------------------------

  lemma {:induction false} SkippedIsSpace(s: string)
    ensures Space(s[..SkipSpace(s)])
  {
    if s != "" && IsSpace(s[0]) {
      SkippedIsSpace(s[1..]);
      var n := SkipSpace(s[1..]);
      assert s[..n + 1] == [s[0]] + s[1..][..n];
    }
  }

  lemma {:induction false} SkippedAreDigits(s: string)
    ensures forall i | 0 <= i < SkipDigits(s) :: '0' <= s[i] <= '9'
  {
    if s != "" && IsDigit(s[0]) {
      SkippedAreDigits(s[1..]);
      assert forall i | 0 < i < SkipDigits(s) :: s[i] == s[1..][i - 1];
    }
  }

  lemma IntegerSound(s: string)
    requires ParseInteger(s).Some?
    ensures IntegerText(s[..ParseInteger(s).value])
  {
    SkippedAreDigits(s);
  }

  lemma FractionSound(s: string)
    requires ParseFraction(s).Some?
    ensures FractionText(s[..ParseFraction(s).value])
  {
    if s != "" && s[0] == '.' {
      SkippedAreDigits(s[1..]);
      assert s[..1 + SkipDigits(s[1..])][1..] == s[1..][..SkipDigits(s[1..])];
    }
  }

  lemma ExponentSound(s: string)
    requires ParseExponent(s).Some?
    ensures ExponentText(s[..ParseExponent(s).value])
  {
    if s != "" && (s[0] == 'e' || s[0] == 'E') {
      var sign := if |s| > 1 && (s[1] == '+' || s[1] == '-') then 2 else 1;
      var n := SkipDigits(s[sign..]);
      SkippedAreDigits(s[sign..]);
      assert s[..sign + n][sign..] == s[sign..][..n];
    }
  }

  lemma NumberSplits(s: string) returns (a: nat, f: nat, e: nat)
    requires ParseNumber(s).Some?
    ensures a <= f <= e <= ParseNumber(s).value <= |s| && a == if s != "" && s[0] == '-' then 1 else 0
    ensures ParseInteger(s[a..]) == Some(f - a) && ParseFraction(s[f..]) == Some(e - f)
    ensures ParseExponent(s[e..]) == Some(ParseNumber(s).value - e)
  {
    hide ParseInteger, ParseFraction, ParseExponent;
    a := if s != "" && s[0] == '-' then 1 else 0;
    f := a + ParseInteger(s[a..]).value;
    e := f + ParseFraction(s[f..]).value;
  }

  lemma NumberSound(s: string)
    requires ParseNumber(s).Some?
    ensures NumberText(s[..ParseNumber(s).value])
  {
    hide ParseInteger, ParseFraction, ParseExponent, ParseNumber, IntegerText, FractionText, ExponentText, NumberText;
    var a, f, e := NumberSplits(s);
    var n := ParseNumber(s).value;
    IntegerSound(s[a..]);
    FractionSound(s[f..]);
    ExponentSound(s[e..]);
    assert s[a..][..f - a] == s[a..f] && s[f..][..e - f] == s[f..e] && s[e..][..n - e] == s[e..n];
    assert s[..n] == s[..a] + s[a..f] + s[f..e] + s[e..n];
    assert s[..a] == if a == 1 then "-" else "";
    PartsMakeNumber(s[..n], s[a..f], s[f..e], s[e..n], a == 1);
  }

  lemma PartsMakeNumber(t: string, i: string, f: string, e: string, negative: bool)
    requires IntegerText(i) && FractionText(f) && ExponentText(e)
    requires t == (if negative then "-" else "") + i + f + e
    ensures NumberText(t)
  {
    hide FractionText, ExponentText;
    var rest := i + f + e;
    assert rest[0] == i[0] && i[0] != '-';
    assert negative ==> t == "-" + rest;
    assert negative ==> t[1..] == rest && t[0] == '-';
    assert !negative ==> t == rest;
    assert rest[..|i|] == i && rest[|i|..|i| + |f|] == f && rest[|i| + |f|..] == e;
    assert NumberParts(rest, |i|, |i| + |f|);
  }

  lemma ElementSound(s: string)
    requires StringElement(s) > 0
    ensures ElementText(s[..StringElement(s)])
  {
    var t := s[..StringElement(s)];
    if |t| == 6 {
      assert EscapedUnit(t) && UnitOf(t) == UnitOf(s);
    }
    if |t| == 12 {
      assert EscapedUnit(t[..6]) && UnitOf(t[..6]) == UnitOf(s);
      assert EscapedUnit(t[6..]) && UnitOf(t[6..]) == UnitOf(s[6..]);
    }
  }

  lemma {:induction false} StringSound(s: string)
    requires ParseString(s).Some?
    ensures CharsText(s[..ParseString(s).value])
  {
    hide StringElement, ElementText;
    var t := s[..ParseString(s).value];
    if s[0] == '"' {
      assert t == "\"";
    } else {
      var n := StringElement(s);
      ElementSound(s);
      StringSound(s[n..]);
      assert t[..n] == s[..n] && t[n..] == s[n..][..|t| - n];
    }
  }

  lemma KeySound(s: string)
    requires ParseKey(s).Some?
    ensures KeyText(s[..ParseKey(s).value])
  {
    hide CharsText, ParseString, SkipSpace, Space;
    var q := 1 + ParseString(s[1..]).value;
    var c := q + SkipSpace(s[q..]);
    var n := ParseKey(s).value;
    var t := s[..n];
    StringSound(s[1..]);
    SkippedIsSpace(s[q..]);
    SkippedIsSpace(s[c + 1..]);
    assert t[1..q] == s[1..][..q - 1] && t[q..c] == s[q..][..c - q];
    assert t[c + 1..] == s[c + 1..][..n - c - 1];
    assert 0 < q <= c < |t|;
  }

  lemma SpacedParts(s: string)
    requires ParseSpaced(s).Some?
    ensures ParseValue(s).Some?
    ensures var v := ParseValue(s).value; ParseSpaced(s).value == v + SkipSpace(s[v..])
  {
    hide ParseValue, SkipSpace;
  }

  lemma MemberParts(s: string)
    requires ParseMember(s).Some?
    ensures ParseKey(s).Some? && ParseSpaced(s[ParseKey(s).value..]).Some?
    ensures var k := ParseKey(s).value; ParseMember(s).value == k + ParseSpaced(s[k..]).value
  {
    hide ParseKey, ParseSpaced;
  }

  lemma {:induction false} ValueSound(s: string)
    requires ParseValue(s).Some?
    ensures ValueText(s[..ParseValue(s).value])
    decreases |s|, 1
  {
    hide ParseNumber, ParseString, SkipSpace, ParseMembers, ParseItems, NumberText, CharsText, NextItems, NextMembers,
      ClosedBy;
    var n := ParseValue(s).value;
    var t := s[..n];
    assert t[0] == s[0];
    if s[0] == '{' {
      BraceSound(s);
    } else if s[0] == '[' {
      BracketSound(s);
    } else if s[0] == '"' {
      StringSound(s[1..]);
      assert t[1..] == s[1..][..n - 1];
    } else if s[0] != 't' && s[0] != 'f' && s[0] != 'n' {
      NumberSound(s);
    }
  }

  lemma {:induction false} BraceSound(s: string)
    requires s != "" && s[0] == '{' && ParseValue(s).Some?
    ensures var t := s[..ParseValue(s).value]; ClosedBy(t[1..], "}") || NextMembers(t[1..])
    decreases |s|, 0
  {
    hide SkipSpace, ParseMembers, NextMembers, MembersText, ClosedBy, Space;
    var n := ParseValue(s).value;
    var w := 1 + SkipSpace(s[1..]);
    if w < |s| && s[w] == '}' {
      ClosedSound(s, w);
    } else {
      SkippedIsSpace(s[1..]);
      assert s[1..][..w - 1] == s[1..w];
      MembersSound(s[w..]);
      assert s[w..][..n - w] == s[w..n];
      assert s[..n][1..] == s[1..w] + s[w..n];
      MembersOpen(s[..n][1..], w - 1, s[1..w], s[w..n]);
    }
  }

  lemma {:induction false} BracketSound(s: string)
    requires s != "" && s[0] == '[' && ParseValue(s).Some?
    ensures var t := s[..ParseValue(s).value]; ClosedBy(t[1..], "]") || NextItems(t[1..])
    decreases |s|, 0
  {
    hide SkipSpace, ParseItems, NextItems, ItemsText, ClosedBy, Space;
    var n := ParseValue(s).value;
    var w := 1 + SkipSpace(s[1..]);
    if w < |s| && s[w] == ']' {
      ClosedSound(s, w);
    } else {
      SkippedIsSpace(s[1..]);
      assert s[1..][..w - 1] == s[1..w];
      ItemsSound(s[w..]);
      assert s[w..][..n - w] == s[w..n];
      assert s[..n][1..] == s[1..w] + s[w..n];
      ItemsOpen(s[..n][1..], w - 1, s[1..w], s[w..n]);
    }
  }

  lemma ClosedSound(s: string, w: nat)
    requires 0 < w < |s| && w == 1 + SkipSpace(s[1..])
    ensures ClosedBy(s[..w + 1][1..], [s[w]])
  {
    hide SkipSpace, Space;
    SkippedIsSpace(s[1..]);
    var t := s[..w + 1][1..];
    assert t[..w - 1] == s[1..][..w - 1] && t[w - 1..] == [s[w]];
  }

  lemma ItemsOpen(t: string, w: nat, before: string, rest: string)
    requires t == before + rest && |before| == w && rest != "" && Space(before) && ItemsText(rest)
    ensures NextItems(t)
  {
    hide Space, ItemsText;
    assert t[..w] == before && t[w..] == rest;
  }

  lemma MembersOpen(t: string, w: nat, before: string, rest: string)
    requires t == before + rest && |before| == w && rest != "" && Space(before) && MembersText(rest)
    ensures NextMembers(t)
  {
    hide Space, MembersText;
    assert t[..w] == before && t[w..] == rest;
  }

  lemma {:induction false} ItemsSound(s: string)
    requires ParseItems(s).Some?
    ensures ItemsText(s[..ParseItems(s).value])
    decreases |s|, 3
  {
    hide ParseValue, ParseSpaced, ParseItems, SkipSpace, ValueText, Space, ItemsTail, ItemsText;
    ItemsNeed(s);
    SpacedParts(s);
    var n, v, w := ParseItems(s).value, ParseValue(s).value, ParseSpaced(s).value;
    ValueSound(s);
    SkippedIsSpace(s[v..]);
    assert s[v..][..w - v] == s[v..w];
    if s[w] == ',' {
      var m := w + 1 + SkipSpace(s[w + 1..]);
      ItemsGoOn(s, w, m, s[m..]);
      SkippedIsSpace(s[w + 1..]);
      assert s[w + 1..][..m - w - 1] == s[w + 1..m];
      ItemsSound(s[m..]);
      assert s[m..][..n - m] == s[m..n];
      ItemsFollow(s, v, w, m, n);
    } else {
      ItemsEnd(s, w);
      TailCloses(s[v..n], w - v, "]", s[v..]);
    }
    FirstItem(s[..n], v, s[..v], s[v..n]);
  }

  lemma FirstItem(t: string, v: nat, value: string, tail: string)
    requires t == value + tail && |value| == v > 0 && tail != "" && ValueText(value) && ItemsTail(tail)
    ensures ItemsText(t)
  {
    hide ValueText, ItemsTail;
    assert t[..v] == value && t[v..] == tail;
  }

  lemma FirstMember(t: string, k: nat, v: nat, key: string, value: string, tail: string)
    requires t == key + value + tail && |key| == k > 0 && |value| == v - k > 0 && tail != ""
    requires KeyText(key) && ValueText(value) && MembersTail(tail)
    ensures MembersText(t)
  {
    hide KeyText, ValueText, MembersTail;
    assert t[..k] == key && t[k..v] == value && t[v..] == tail;
  }

  lemma TailCloses(tail: string, w: nat, bracket: string, s: string)
    requires |tail| == w + 1 && tail <= s && Space(s[..w]) && |bracket| == 1 && bracket[0] == s[w]
    ensures ClosedBy(tail, bracket)
    ensures bracket == "]" ==> ItemsTail(tail)
    ensures bracket == "}" ==> MembersTail(tail)
  {
    hide Space, NextItems, NextMembers;
    assert tail[..w] == s[..w] && tail[w..] == bracket;
  }

  lemma ItemsFollow(s: string, v: nat, w: nat, m: nat, n: nat)
    requires v <= w < m < n <= |s| && s[w] == ','
    requires Space(s[v..w]) && Space(s[w + 1..m]) && ItemsText(s[m..n])
    ensures ItemsTail(s[v..n])
  {
    hide Space, ItemsText, ClosedBy;
    var tail, next := s[v..n], s[w + 1..n];
    assert next[..m - w - 1] == s[w + 1..m] && next[m - w - 1..] == s[m..n];
    assert NextItems(next);
    assert tail[..w - v] == s[v..w] && tail[w - v] == ',' && tail[w - v + 1..] == next;
  }

  lemma MembersFollow(s: string, v: nat, w: nat, m: nat, n: nat)
    requires v <= w < m < n <= |s| && s[w] == ','
    requires Space(s[v..w]) && Space(s[w + 1..m]) && MembersText(s[m..n])
    ensures MembersTail(s[v..n])
  {
    hide Space, MembersText, ClosedBy;
    var tail, next := s[v..n], s[w + 1..n];
    assert next[..m - w - 1] == s[w + 1..m] && next[m - w - 1..] == s[m..n];
    assert NextMembers(next);
    assert tail[..w - v] == s[v..w] && tail[w - v] == ',' && tail[w - v + 1..] == next;
  }

  lemma {:induction false} MembersSound(s: string)
    requires ParseMembers(s).Some?
    ensures MembersText(s[..ParseMembers(s).value])
    decreases |s|, 4
  {
    hide ParseValue, ParseKey, ParseSpaced, ParseMember, ParseMembers, SkipSpace, ValueText, KeyText, Space,
      MembersTail, MembersText;
    MembersNeed(s);
    MemberParts(s);
    var n, k, w := ParseMembers(s).value, ParseKey(s).value, ParseMember(s).value;
    SpacedParts(s[k..]);
    var v := k + ParseValue(s[k..]).value;
    KeySound(s);
    ValueSound(s[k..]);
    assert s[k..][v - k..] == s[v..] && s[k..][..v - k] == s[k..v];
    SkippedIsSpace(s[v..]);
    assert s[v..][..w - v] == s[v..w];
    MembersTailSound(s, v, w);
    FirstMember(s[..n], k, v, s[..k], s[k..v], s[v..n]);
  }

  lemma {:induction false} MembersTailSound(s: string, v: nat, w: nat)
    requires ParseMembers(s).Some? && ParseMember(s) == Some(w) && 0 < v <= w < |s| && Space(s[v..w])
    ensures w < ParseMembers(s).value && MembersTail(s[v..ParseMembers(s).value])
    decreases |s|, 3
  {
    hide ParseMember, ParseMembers, SkipSpace, Space, MembersTail, MembersText;
    var n := ParseMembers(s).value;
    if s[w] == ',' {
      var m := w + 1 + SkipSpace(s[w + 1..]);
      MembersGoOn(s, w, m, s[m..]);
      SkippedIsSpace(s[w + 1..]);
      assert s[w + 1..][..m - w - 1] == s[w + 1..m];
      MembersSound(s[m..]);
      assert s[m..][..n - m] == s[m..n];
      MembersFollow(s, v, w, m, n);
    } else {
      MembersEnd(s, w);
      assert s[v..][..w - v] == s[v..w];
      TailCloses(s[v..n], w - v, "}", s[v..]);
    }
  }

  // ---- What is in the grammar is recognised ----------------------------------------------------

  /** White space, a comma or a closing bracket: what ends a number. */
  predicate Stops(rest: string) {
    rest == "" || IsSpace(rest[0]) || rest[0] == ',' || rest[0] == ']' || rest[0] == '}'
  }

  predicate NoDigit(rest: string) {
    rest == "" || !IsDigit(rest[0])
  }

  predicate NoSpace(rest: string) {
    rest == "" || !IsSpace(rest[0])
  }

  lemma {:induction false} SpaceTaken(w: string, rest: string)
    requires Space(w) && NoSpace(rest)
    ensures SkipSpace(w + rest) == |w|
  {
    if w == "" {
      assert w + rest == rest;
    } else {
      SpaceTaken(w[1..], rest);
      assert (w + rest)[1..] == w[1..] + rest;
    }
  }

  lemma {:induction false} DigitsTaken(d: string, rest: string)
    requires (forall i | 0 <= i < |d| :: '0' <= d[i] <= '9') && NoDigit(rest)
    ensures SkipDigits(d + rest) == |d|
  {
    if d == "" {
      assert d + rest == rest;
    } else {
      DigitsTaken(d[1..], rest);
      assert (d + rest)[1..] == d[1..] + rest;
    }
  }

  lemma IntegerTaken(i: string, rest: string)
    requires IntegerText(i) && NoDigit(rest)
    ensures ParseInteger(i + rest) == Some(|i|)
  {
    DigitsTaken(i, rest);
  }

  lemma FractionTaken(f: string, rest: string)
    requires FractionText(f) && NoDigit(rest) && (f == "" ==> rest == "" || rest[0] != '.')
    ensures ParseFraction(f + rest) == Some(|f|)
  {
    if f == "" {
      assert f + rest == rest;
    } else {
      DigitsTaken(f[1..], rest);
      assert (f + rest)[1..] == f[1..] + rest;
    }
  }

  lemma ExponentTaken(e: string, rest: string)
    requires ExponentText(e) && Stops(rest)
    ensures ParseExponent(e + rest) == Some(|e|)
  {
    var s := e + rest;
    if e == "" {
      assert s == rest;
    } else {
      var sign := if |e| > 1 && (e[1] == '+' || e[1] == '-') then 2 else 1;
      assert DigitRun(e[sign..]);
      DigitsTaken(e[sign..], rest);
      assert s[sign..] == e[sign..] + rest;
    }
  }

  lemma UnsignedTaken(t: string, rest: string)
    requires UnsignedText(t) && Stops(rest)
    ensures t != "" && IsDigit(t[0])
    ensures ParseInteger(t + rest).Some?
    ensures var b := ParseInteger(t + rest).value;
            && b <= |t| && ParseFraction((t + rest)[b..]).Some?
            && var c := b + ParseFraction((t + rest)[b..]).value;
            c <= |t| && ParseExponent((t + rest)[c..]) == Some(|t| - c)
  {
    hide ParseInteger, ParseFraction, ParseExponent, FractionText, ExponentText, Stops;
    var f: nat, e: nat :| NumberParts(t, f, e);
    var i, g, x := t[..f], t[f..e], t[e..];
    PartsTaken(i, g, x, rest);
    var s := t + rest;
    assert s == i + (g + (x + rest)) && s[f..] == g + (x + rest) && s[e..] == x + rest;
  }

  lemma PartsTaken(i: string, g: string, x: string, rest: string)
    requires IntegerText(i) && FractionText(g) && ExponentText(x) && Stops(rest)
    ensures ParseInteger(i + (g + (x + rest))) == Some(|i|)
    ensures ParseFraction(g + (x + rest)) == Some(|g|)
    ensures ParseExponent(x + rest) == Some(|x|)
  {
    hide ParseInteger, ParseFraction, ParseExponent, IntegerText;
    assert NoDigit(x + rest) && (x + rest != "" ==> (x + rest)[0] != '.') by {
      ExponentStart(x, rest);
    }
    assert g == "" ==> g + (x + rest) == x + rest;
    IntegerTaken(i, g + (x + rest));
    FractionTaken(g, x + rest);
    ExponentTaken(x, rest);
  }

  lemma ExponentStart(x: string, rest: string)
    requires ExponentText(x) && Stops(rest)
    ensures NoDigit(x + rest) && (x + rest != "" ==> (x + rest)[0] != '.')
  {
    if x == "" {
      assert x + rest == rest;
    }
  }

  lemma NumberTaken(t: string, rest: string)
    requires NumberText(t) && Stops(rest)
    ensures t != "" && (t[0] == '-' || IsDigit(t[0]))
    ensures ParseNumber(t + rest) == Some(|t|)
  {
    hide ParseInteger, ParseFraction, ParseExponent, UnsignedText;
    var s := t + rest;
    if UnsignedText(t) {
      UnsignedTaken(t, rest);
      assert s[0..] == s && s[0] == t[0];
    } else {
      var u := t[1..];
      UnsignedTaken(u, rest);
      var v := u + rest;
      assert s[1..] == v;
      var b := ParseInteger(v).value;
      var c := b + ParseFraction(v[b..]).value;
      assert s[1 + b..] == v[b..] && s[1 + c..] == v[c..];
    }
  }

  lemma ElementTaken(c: string, rest: string)
    requires ElementText(c)
    ensures c[0] != '"' && StringElement(c + rest) == |c|
  {
    var s := c + rest;
    if |c| == 6 {
      assert EscapedUnit(s) && UnitOf(s) == UnitOf(c);
    }
    if |c| == 12 {
      assert EscapedUnit(s) && UnitOf(s) == UnitOf(c[..6]);
      assert s[6..] == c[6..] + rest;
      assert EscapedUnit(s[6..]) && UnitOf(s[6..]) == UnitOf(c[6..]);
    }
  }

  lemma {:induction false} CharsTaken(t: string, rest: string)
    requires CharsText(t)
    ensures ParseString(t + rest) == Some(|t|)
  {
    hide StringElement, ElementText;
    if t != "\"" {
      var n :| 0 < n < |t| && ElementText(t[..n]) && CharsText(t[n..]);
      ElementTaken(t[..n], t[n..] + rest);
      CharsTaken(t[n..], rest);
      assert t + rest == t[..n] + (t[n..] + rest);
      assert (t + rest)[n..] == t[n..] + rest;
    }
  }

  lemma KeyTaken(t: string, rest: string)
    requires KeyText(t) && rest != "" && NoSpace(rest)
    ensures ParseKey(t + rest) == Some(|t|)
  {
    hide CharsText, ParseString, SkipSpace, Space, ParseKey;
    var q, c :| 0 < q <= c < |t| && t[0] == '"' && CharsText(t[1..q]) && Space(t[q..c]) && t[c] == ':' &&
      Space(t[c + 1..]);
    var r2 := t[c..] + rest;
    assert r2[1..] == t[c + 1..] + rest;
    KeyPartsTaken(t[1..q] + (t[q..c] + r2), t[1..q], t[q..c] + r2, t[q..c], r2, t[c + 1..], rest);
    assert t + rest == "\"" + (t[1..q] + (t[q..c] + r2));
  }

  lemma AfterQuote(t: string, k: nat)
    requires k <= |t|
    ensures ("\"" + t)[1 + k..] == t[k..]
    ensures k < |t| ==> ("\"" + t)[1 + k] == t[k]
  {
  }

  lemma AfterPrefix(a: string, b: string, s: string)
    requires s == a + b
    ensures s[|a|..] == b
    ensures b != "" ==> s[|a|] == b[0] && s[|a| + 1..] == b[1..]
  {
  }

  /** `t` is the key without its opening quote, and what follows it. */
  lemma KeyPartsTaken(t: string, chars: string, r1: string, before: string, r2: string, after: string, rest: string)
    requires CharsText(chars) && Space(before) && Space(after) && NoSpace(rest)
    requires t == chars + r1 && r1 == before + r2 && r2 != "" && r2[0] == ':' && r2[1..] == after + rest
    ensures ParseKey("\"" + t) == Some(2 + |chars| + |before| + |after|)
  {
    hide CharsText, ParseString, ParseKey, SkipSpace, Space;
    var c := |chars| + |before|;
    assert ParseString(t) == Some(|chars|) by { CharsTaken(chars, r1); }
    assert SkipSpace(r1) == |before| by { SpaceTaken(before, r2); }
    assert SkipSpace(r2[1..]) == |after| by { SpaceTaken(after, rest); }
    assert t[|chars|..] == r1 by { AfterPrefix(chars, r1, t); }
    assert t[c] == ':' && t[c + 1..] == r2[1..] by {
      assert t == (chars + before) + r2;
      AfterPrefix(chars + before, r2, t);
    }
    KeyAt(t, |chars|, c, |after|);
  }

  lemma KeyAt(t: string, k: nat, c: nat, after: nat)
    requires ParseString(t) == Some(k) && k <= |t| && c == k + SkipSpace(t[k..]) && c < |t|
    requires t[c] == ':' && SkipSpace(t[c + 1..]) == after
    ensures ParseKey("\"" + t) == Some(2 + c + after)
  {
    hide ParseString, SkipSpace, ParseKey;
    var s := "\"" + t;
    assert s[1..] == t;
    assert s[1 + k..] == t[k..] by { AfterQuote(t, k); }
    assert s[1 + c] == ':' by { AfterQuote(t, c); }
    assert s[1 + c + 1..] == t[c + 1..] by { AfterQuote(t, c + 1); }
    KeyStep(s, k, 1 + c, after);
  }

  lemma KeyStep(s: string, k: nat, c: nat, after: nat)
    requires s != "" && s[0] == '"' && ParseString(s[1..]) == Some(k) && 1 + k <= |s|
    requires c == 1 + k + SkipSpace(s[1 + k..]) && c < |s| && s[c] == ':' && after == SkipSpace(s[c + 1..])
    ensures ParseKey(s) == Some(c + 1 + after)
  {
    hide ParseString, SkipSpace;
  }

  lemma ValueStarts(t: string)
    requires ValueText(t)
    ensures t != "" && NoSpace(t) && t[0] != ']' && t[0] != '}'
  {
    hide CharsText, NextItems, NextMembers, ClosedBy, ParseNumber;
    if NumberText(t) {
      NumberTaken(t, "");
    }
  }

  lemma ItemsStarts(t: string)
    requires ItemsText(t)
    ensures t != "" && NoSpace(t) && t[0] != ']'
  {
    hide ValueText, ItemsTail;
    var v :| 0 < v < |t| && ValueText(t[..v]) && ItemsTail(t[v..]);
    ValueStarts(t[..v]);
  }

  lemma MembersStarts(t: string)
    requires MembersText(t)
    ensures t != "" && t[0] == '"'
  {
    hide ValueText, MembersTail, CharsText, Space;
    var k, v :| 0 < k < v < |t| && KeyText(t[..k]) && ValueText(t[k..v]) && MembersTail(t[v..]);
    assert t[..k][0] == '"';
  }

  lemma {:induction false} ValueTaken(t: string, rest: string)
    requires ValueText(t) && Stops(rest)
    ensures ParseValue(t + rest) == Some(|t|)
    decreases |t|, 1
  {
    hide ParseNumber, ParseString, SkipSpace, ParseMembers, ParseItems, NumberText, CharsText, NextItems, NextMembers,
      ClosedBy, Stops;
    var s := t + rest;
    if t == "null" || t == "true" || t == "false" {
      assert s[..|t|] == t;
    } else if NumberText(t) {
      NumberTaken(t, rest);
    } else {
      assert s[0] == t[0] && s[1..] == t[1..] + rest;
      if t[0] == '"' {
        CharsTaken(t[1..], rest);
      } else if t[0] == '[' {
        BracketTaken(t, rest);
      } else {
        BraceTaken(t, rest);
      }
    }
  }

  lemma ClosedTaken(u: string, bracket: string, rest: string)
    requires ClosedBy(u, bracket) && (bracket == "]" || bracket == "}")
    ensures u != "" && SkipSpace(u + rest) == |u| - 1 && u[|u| - 1] == bracket[0]
  {
    hide ClosedBy, Space, SkipSpace;
    var w := ClosedAt(u, bracket);
    SpaceTaken(u[..w], bracket + rest);
    assert u + rest == u[..w] + (bracket + rest);
  }

  lemma {:induction false} BracketTaken(t: string, rest: string)
    requires t != "" && t[0] == '[' && (ClosedBy(t[1..], "]") || NextItems(t[1..]))
    ensures ParseValue(t + rest) == Some(|t|)
    decreases |t|, 0
  {
    hide SkipSpace, ParseItems, ClosedBy, ItemsText, Space;
    var s, u := t + rest, t[1..];
    assert s[1..] == u + rest && s[0] == '[';
    if ClosedBy(u, "]") {
      ClosedTaken(u, "]", rest);
    } else {
      var w :| 0 <= w < |u| && Space(u[..w]) && ItemsText(u[w..]);
      ItemsStarts(u[w..]);
      SpaceTaken(u[..w], u[w..] + rest);
      assert u + rest == u[..w] + (u[w..] + rest);
      ItemsTaken(u[w..], rest);
      assert s[1 + w..] == u[w..] + rest;
    }
  }

  lemma {:induction false} BraceTaken(t: string, rest: string)
    requires t != "" && t[0] == '{' && (ClosedBy(t[1..], "}") || NextMembers(t[1..]))
    ensures ParseValue(t + rest) == Some(|t|)
    decreases |t|, 0
  {
    hide SkipSpace, ParseMembers, ClosedBy, MembersText, Space;
    var s, u := t + rest, t[1..];
    assert s[1..] == u + rest && s[0] == '{';
    if ClosedBy(u, "}") {
      ClosedTaken(u, "}", rest);
    } else {
      var w :| 0 <= w < |u| && Space(u[..w]) && MembersText(u[w..]);
      MembersStarts(u[w..]);
      SpaceTaken(u[..w], u[w..] + rest);
      assert u + rest == u[..w] + (u[w..] + rest);
      MembersTaken(u[w..], rest);
      assert s[1 + w..] == u[w..] + rest;
    }
  }

  lemma {:induction false} SpacedTaken(value: string, w: string, rest: string)
    requires ValueText(value) && Space(w) && rest != "" && NoSpace(rest) && Stops(rest)
    ensures ParseSpaced(value + w + rest) == Some(|value| + |w|)
    decreases |value|, 2
  {
    hide ParseValue, SkipSpace, ValueText;
    assert Stops(w + rest) by { SpaceStops(w, rest); }
    ValueTaken(value, w + rest);
    SpaceTaken(w, rest);
    assert value + w + rest == value + (w + rest);
    assert (value + w + rest)[|value|..] == w + rest;
  }

  lemma SpaceStops(w: string, rest: string)
    requires Space(w) && Stops(rest)
    ensures Stops(w + rest)
  {
    if w == "" {
      assert w + rest == rest;
    }
  }

  lemma {:induction false} ItemsTaken(t: string, rest: string)
    requires ItemsText(t)
    ensures ParseItems(t + rest) == Some(|t|)
    decreases |t|, 1
  {
    hide ParseItems, ValueText, ClosedBy, ItemsTail;
    var v :| 0 < v < |t| && ValueText(t[..v]) && ItemsTail(t[v..]);
    assert t == t[..v] + t[v..];
    ItemsTailTaken(t[..v], t[v..], rest);
  }

  lemma {:induction false} ItemsTailTaken(value: string, tail: string, rest: string)
    requires value != "" && ValueText(value) && ItemsTail(tail)
    ensures ParseItems(value + tail + rest) == Some(|value| + |tail|)
    decreases |value| + |tail|, 0
  {
    hide ParseSpaced, ParseItems, SkipSpace, ValueText, Space, NextItems, ClosedBy;
    var s, v := value + tail + rest, |value|;
    if ClosedBy(tail, "]") {
      var w := ClosedAt(tail, "]");
      SpacedTaken(value, tail[..w], "]" + rest);
      assert s == value + tail[..w] + ("]" + rest);
      ItemsEnd(s, v + w);
    } else {
      var w :| 0 <= w < |tail| && Space(tail[..w]) && tail[w] == ',' && NextItems(tail[w + 1..]);
      SpacedTaken(value, tail[..w], tail[w..] + rest);
      assert s == value + tail[..w] + (tail[w..] + rest);
      var next := tail[w + 1..] + rest;
      var m := NextItemsTaken(tail[w + 1..], rest);
      assert s[v + w + 1..] == next && s[v + w + 1 + m..] == next[m..];
      ItemsGoOn(s, v + w, v + w + 1 + m, next[m..]);
    }
  }

  lemma ClosedAt(tail: string, bracket: string) returns (w: nat)
    requires ClosedBy(tail, bracket)
    ensures w <= |tail| && Space(tail[..w]) && tail == tail[..w] + bracket
  {
    var x :| 0 <= x <= |tail| && Space(tail[..x]) && tail[x..] == bracket;
    w := x;
  }

  lemma {:induction false} NextItemsTaken(u: string, rest: string) returns (m: nat)
    requires NextItems(u)
    ensures m == SkipSpace(u + rest) && m < |u|
    ensures ParseItems((u + rest)[m..]) == Some(|u| - m)
    decreases |u|, 2
  {
    hide ParseItems, SkipSpace, ItemsText, Space;
    var w :| 0 <= w < |u| && Space(u[..w]) && ItemsText(u[w..]);
    m := w;
    ItemsStarts(u[w..]);
    SpaceTaken(u[..w], u[w..] + rest);
    assert u + rest == u[..w] + (u[w..] + rest);
    ItemsTaken(u[w..], rest);
    assert (u + rest)[w..] == u[w..] + rest;
  }

  lemma {:induction false} NextMembersTaken(u: string, rest: string) returns (m: nat)
    requires NextMembers(u)
    ensures m == SkipSpace(u + rest) && m < |u|
    ensures ParseMembers((u + rest)[m..]) == Some(|u| - m)
    decreases |u|, 2
  {
    hide ParseMembers, SkipSpace, MembersText, Space;
    var w :| 0 <= w < |u| && Space(u[..w]) && MembersText(u[w..]);
    m := w;
    MembersStarts(u[w..]);
    SpaceTaken(u[..w], u[w..] + rest);
    assert u + rest == u[..w] + (u[w..] + rest);
    MembersTaken(u[w..], rest);
    assert (u + rest)[w..] == u[w..] + rest;
  }

  lemma {:induction false} MemberTaken(key: string, value: string, w: string, rest: string)
    requires KeyText(key) && ValueText(value) && Space(w) && rest != "" && NoSpace(rest) && Stops(rest)
    ensures ParseMember(key + value + w + rest) == Some(|key| + |value| + |w|)
    decreases |value|, 3
  {
    hide ParseKey, ParseSpaced, KeyText, ValueText, Space;
    var s := key + value + w + rest;
    ValueStarts(value);
    KeyTaken(key, value + w + rest);
    SpacedTaken(value, w, rest);
    assert s == key + (value + w + rest);
    assert s[|key|..] == value + w + rest;
  }

  lemma {:induction false} MembersTaken(t: string, rest: string)
    requires MembersText(t)
    ensures ParseMembers(t + rest) == Some(|t|)
    decreases |t|, 1
  {
    hide ParseMembers, KeyText, ValueText, MembersTail;
    var k, v :| 0 < k < v < |t| && KeyText(t[..k]) && ValueText(t[k..v]) && MembersTail(t[v..]);
    assert t == t[..k] + t[k..v] + t[v..];
    MembersTailTaken(t[..k], t[k..v], t[v..], rest);
  }

  lemma {:induction false} MembersTailTaken(key: string, value: string, tail: string, rest: string)
    requires key != "" && KeyText(key) && ValueText(value) && MembersTail(tail)
    ensures ParseMembers(key + value + tail + rest) == Some(|key| + |value| + |tail|)
    decreases |key| + |value| + |tail|, 0
  {
    hide ParseMember, ParseMembers, SkipSpace, KeyText, ValueText, Space, NextMembers, ClosedBy;
    var s, v := key + value + tail + rest, |key| + |value|;
    if ClosedBy(tail, "}") {
      var w := ClosedAt(tail, "}");
      MemberTaken(key, value, tail[..w], "}" + rest);
      assert s == key + value + tail[..w] + ("}" + rest);
      MembersEnd(s, v + w);
    } else {
      var w :| 0 <= w < |tail| && Space(tail[..w]) && tail[w] == ',' && NextMembers(tail[w + 1..]);
      MemberTaken(key, value, tail[..w], tail[w..] + rest);
      assert s == key + value + tail[..w] + (tail[w..] + rest);
      var next := tail[w + 1..] + rest;
      var m := NextMembersTaken(tail[w + 1..], rest);
      assert s[v + w + 1..] == next && s[v + w + 1 + m..] == next[m..];
      MembersGoOn(s, v + w, v + w + 1 + m, next[m..]);
    }
  }

  // ---- Both directions -------------------------------------------------------------------------

  lemma RecognisedIsJson(s: string)
    requires IsJson(s)
    ensures JsonText(s)
  {
    hide SkipSpace, ParseValue, ParseSpaced, ValueText, Space;
    var a := SkipSpace(s);
    SpacedParts(s[a..]);
    var n := ParseValue(s[a..]).value;
    SkippedIsSpace(s);
    ValueSound(s[a..]);
    SkippedIsSpace(s[a..][n..]);
    assert s[a..][..n] == s[a..a + n] && s[a..][n..] == s[a + n..];
    assert s[a + n..][..|s| - a - n] == s[a + n..];
  }

  lemma JsonIsRecognised(s: string)
    requires JsonText(s)
    ensures IsJson(s)
  {
    hide SkipSpace, ParseValue, ParseSpaced, ValueText, Space, Stops;
    var a, b :| 0 <= a <= b <= |s| && Space(s[..a]) && ValueText(s[a..b]) && Space(s[b..]);
    var value, after := s[a..b], s[b..];
    assert s == s[..a] + (value + after) && s[a..] == value + after;
    ValueStarts(value);
    SpaceTaken(s[..a], value + after);
    assert after + "" == after;
    assert Stops(after) by { SpaceStops(after, ""); }
    ValueTaken(value, after);
    SpaceTaken(after, "");
    assert (value + after)[|value|..] == after;
    SpacedAt(value + after, |value|);
  }

  /** The recogniser accepts exactly the texts of the grammar. */
  lemma RecognisedExactly(s: string)
    ensures IsJson(s) <==> JsonText(s)
  {
    hide IsJson, JsonText;
    if IsJson(s) {
      RecognisedIsJson(s);
    }
    if JsonText(s) {
      JsonIsRecognised(s);
    }
  }

  lemma SpacedAt(s: string, v: nat)
    requires ParseValue(s) == Some(v) && v <= |s| && SkipSpace(s[v..]) == |s| - v
    ensures ParseSpaced(s) == Some(|s|)
  {
    hide ParseValue, SkipSpace;
  }
}
