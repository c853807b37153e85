/** UTF-8 encoding of text, and the strict decoder that the stream reader applies to a whole file. */
module Utf8 {
  import opened Prelude

  type byte = x: int | 0 <= x < 256

  function EncodeChar(c: char): (bs: seq<byte>)
    ensures 1 <= |bs| <= 4
  {
    var n := c as int;
    var n6, n12, n18 := n / 64, n / 64 / 64, n / 64 / 64 / 64;   // shifted right by 6, 12 and 18 bits
    if n < 0x80 then [n]
    else if n < 0x800 then [0xC0 + n6, 0x80 + n % 64]
    else if n < 0x1_0000 then [0xE0 + n12, 0x80 + n6 % 64, 0x80 + n % 64]
    else [0xF0 + n18, 0x80 + n12 % 64, 0x80 + n6 % 64, 0x80 + n % 64]
  }

  function Encode(s: string): seq<byte> {
    if s == "" then [] else EncodeChar(s[0]) + Encode(s[1..])
  }

  predicate Scalar(n: int) {
    0 <= n < 0xD800 || 0xE000 <= n < 0x11_0000
  }

  /** How many bytes a lead byte announces; 0 for a byte that cannot lead. */
  function Announced(lead: byte): nat {
    if lead < 0x80 then 1
    else if lead < 0xC0 then 0
    else if lead < 0xE0 then 2
    else if lead < 0xF0 then 3
    else if lead < 0xF8 then 4
    else 0
  }

  function CodePoint(bs: seq<byte>, n: nat): int
    requires 1 <= n <= 4 && n <= |bs|
  {
    var lead: int := bs[0];
    if n == 1 then lead
    else if n == 2 then (lead - 0xC0) * 64 + Continued(bs[1])
    else if n == 3 then ((lead - 0xE0) * 64 + Continued(bs[1])) * 64 + Continued(bs[2])
    else (((lead - 0xF0) * 64 + Continued(bs[1])) * 64 + Continued(bs[2])) * 64 + Continued(bs[3])
  }

  /** The payload of a continuation byte; out of range for any other byte. */
  function Continued(b: byte): int {
    var n: int := b;
    n - 0x80
  }

  /** The first character of `bs`: the announced bytes must be there and be the one shortest encoding. */
  function DecodeOne(bs: seq<byte>): (c: Option<char>)
    requires bs != []
    ensures c.Some? ==> EncodeChar(c.value) <= bs
  {
    var n := Announced(bs[0]);
    if n == 0 || |bs| < n then None
    else
      var p := CodePoint(bs, n);
      if !Scalar(p) || EncodeChar(p as char) != bs[..n] then None else Some(p as char)
  }

  /** `std::str::from_utf8`: the whole sequence or nothing. */
  function Decode(bs: seq<byte>): Option<string> {
    if bs == [] then Some("")
    else
      var first := DecodeOne(bs);
      if first.None? then None
      else
        var rest := Decode(bs[|EncodeChar(first.value)|..]);
        if rest.None? then None else Some([first.value] + rest.value)
  }

  lemma LeadAnnouncesLength(c: char)
    ensures Announced(EncodeChar(c)[0]) == |EncodeChar(c)|
    ensures CodePoint(EncodeChar(c), |EncodeChar(c)|) == c as int
  {
    hide Encode, Decode, DecodeOne;
  }

  lemma DecodeOneIsExact(c: char, rest: seq<byte>)
    ensures DecodeOne(EncodeChar(c) + rest) == Some(c)
  {
    LeadAnnouncesLength(c);
    var bs := EncodeChar(c) + rest;
    var n := |EncodeChar(c)|;
    assert bs[..n] == EncodeChar(c);
    assert CodePoint(bs, n) == CodePoint(EncodeChar(c), n);
  }

  lemma DecodeStep(c: char, tail: seq<byte>)
    ensures Decode(EncodeChar(c) + tail) ==
            if Decode(tail).None? then None else Some([c] + Decode(tail).value)
  {
    hide EncodeChar, DecodeOne;
    var bs := EncodeChar(c) + tail;
    DecodeOneIsExact(c, tail);
    assert bs[|EncodeChar(c)|..] == tail;
  }

  /** Decoding undoes encoding, and goes on with whatever follows. */
  lemma {:induction false} DecodeEncoded(s: string, rest: seq<byte>)
    ensures Decode(Encode(s) + rest) ==
            if Decode(rest).None? then None else Some(s + Decode(rest).value)
  {
    hide EncodeChar, DecodeOne, Decode;
    if s == "" {
      assert Encode(s) + rest == rest;
      if Decode(rest).Some? {
        assert s + Decode(rest).value == Decode(rest).value;
      }
    } else {
      var tail := Encode(s[1..]) + rest;
      assert Encode(s) + rest == EncodeChar(s[0]) + tail;
      DecodeStep(s[0], tail);
      DecodeEncoded(s[1..], rest);
      if Decode(rest).Some? {
        assert [s[0]] + (s[1..] + Decode(rest).value) == s + Decode(rest).value;
      }
    }
  }

  lemma EncodeRoundTrip(s: string)
    ensures Decode(Encode(s)) == Some(s)
  {
    DecodeEncoded(s, []);
    assert Encode(s) + [] == Encode(s);
    assert s + "" == s;
  }

  /** The decoder accepts encodings of text and nothing else. */
  lemma {:induction false} DecodeIsSound(bs: seq<byte>)
    ensures Decode(bs).Some? ==> Encode(Decode(bs).value) == bs
  {
    hide EncodeChar, DecodeOne;
    if bs != [] && Decode(bs).Some? {
      var c := DecodeOne(bs).value;
      var n := |EncodeChar(c)|;
      DecodeIsSound(bs[n..]);
      assert bs == bs[..n] + bs[n..];
      assert Decode(bs).value[1..] == Decode(bs[n..]).value;
    }
  }

  lemma {:induction false} EncodeAppend(s: string, t: string)
    ensures Encode(s + t) == Encode(s) + Encode(t)
  {
    hide EncodeChar;
    if s == "" {
      assert s + t == t;
    } else {
      assert (s + t)[1..] == s[1..] + t;
      EncodeAppend(s[1..], t);
    }
  }

  /** A character cut short does not decode. */
  lemma TornCharacter(c: char, k: nat)
    requires 0 < k < |EncodeChar(c)|
    ensures Decode(EncodeChar(c)[..k]).None?
  {
    LeadAnnouncesLength(c);
  }

  /** The first `n` bytes of the text end between two characters. */
  ghost predicate AtBoundary(s: string, n: int) {
    exists k :: 0 <= k <= |s| && |Encode(s[..k])| == n
  }

  /** The character index that byte position `n` has reached. */
  function CharsWithin(s: string, n: nat): (k: nat)
    ensures k <= |s|
  {
    if s == "" || n < |EncodeChar(s[0])| then 0 else 1 + CharsWithin(s[1..], n - |EncodeChar(s[0])|)
  }

  /** Cutting an encoded text after any number of bytes leaves whole characters and perhaps part of one more. */
  lemma {:induction false} CutText(s: string, n: nat) returns (k: nat)
    requires n <= |Encode(s)|
    ensures k == CharsWithin(s, n) && |Encode(s[..k])| <= n
    ensures Encode(s)[..n] == Encode(s[..k]) + Encode(s)[|Encode(s[..k])|..n]
    ensures |Encode(s[..k])| < n ==> k < |s| && n - |Encode(s[..k])| < |EncodeChar(s[k])|
    ensures |Encode(s[..k])| < n ==> Encode(s)[|Encode(s[..k])|..n] == EncodeChar(s[k])[..n - |Encode(s[..k])|]
  {
    hide EncodeChar;
    if s == "" || n < |EncodeChar(s[0])| {
      k := 0;
      assert s[..0] == "";
      if s != "" {
        assert Encode(s)[..n] == EncodeChar(s[0])[..n];
      }
    } else {
      var w := |EncodeChar(s[0])|;
      var j := CutText(s[1..], n - w);
      k := j + 1;
      assert s[..k][1..] == s[1..][..j];
      ConcatCut(EncodeChar(s[0]), Encode(s[1..]), |Encode(s[1..][..j])|, n - w);
    }
  }

  lemma ConcatCut(a: seq<byte>, b: seq<byte>, e: nat, n: nat)
    requires e <= n <= |b|
    ensures (a + b)[..|a| + n] == a + b[..n]
    ensures (a + b)[|a| + e..|a| + n] == b[e..n]
  {
  }

  lemma {:induction false} EncodedLengthGrows(s: string, i: nat, j: nat)
    requires i < j <= |s|
    ensures |Encode(s[..i])| < |Encode(s[..j])| <= |Encode(s)|
  {
    hide EncodeChar;
    assert s[..j] == s[..i] + s[i..j];
    EncodeAppend(s[..i], s[i..j]);
    assert s == s[..j] + s[j..];
    EncodeAppend(s[..j], s[j..]);
  }

  /** Decoding a cut text yields the characters before the cut, or nothing when the cut is inside a character. */
  lemma DecodeCutText(s: string, n: nat)
    requires n <= |Encode(s)|
    ensures AtBoundary(s, n) <==> |Encode(s[..CharsWithin(s, n)])| == n
    ensures Decode(Encode(s)[..n]) == if AtBoundary(s, n) then Some(s[..CharsWithin(s, n)]) else None
  {
    hide EncodeChar, Decode;
    var k := CutText(s, n);
    var e := |Encode(s[..k])|;
    if e == n {
      assert Encode(s)[..n] == Encode(s[..k]);
      EncodeRoundTrip(s[..k]);
    } else {
      var torn := EncodeChar(s[k])[..n - e];
      TornCharacter(s[k], n - e);
      DecodeEncoded(s[..k], torn);
      if i :| 0 <= i <= |s| && |Encode(s[..i])| == n {
        CutIsUnique(s, n, k, i);
      }
    }
  }

  lemma CutIsUnique(s: string, n: nat, k: nat, i: nat)
    requires k < |s| && |Encode(s[..k])| < n < |Encode(s[..k])| + |EncodeChar(s[k])| && i <= |s|
    ensures |Encode(s[..i])| != n
  {
    assert s[..k + 1] == s[..k] + [s[k]];
    EncodeAppend(s[..k], [s[k]]);
    assert [s[k]][1..] == "";
    assert Encode([s[k]]) == EncodeChar(s[k]) + Encode("");
    if i < k {
      EncodedLengthGrows(s, i, k);
    } else if i > k + 1 {
      EncodedLengthGrows(s, k + 1, i);
    }
  }
}
