/** Shared vocabulary: fixed-width integers, options, and counting over sequences. */
module Prelude {

  datatype Option<+T> = None | Some(value: T)

  datatype Result<+T> = Err | Ok(value: T)

  const U64_MAX: int := 0xFFFF_FFFF_FFFF_FFFF
  const U32_MAX: int := 0xFFFF_FFFF

  type u64 = x: int | 0 <= x <= U64_MAX
  type u32 = x: int | 0 <= x <= U32_MAX

  /** Rust's `u64::checked_add`. */
  function CheckedAdd(a: u64, b: u64): Option<u64> {
    if a + b <= U64_MAX then Some(a + b) else None
  }

  function Max(a: u64, b: u64): u64 {
    if a < b then b else a
  }

  /** Unicode White_Space, as `char::is_whitespace`. */
  predicate IsWhitespace(c: char) {
    var n := c as int;
    9 <= n <= 13 || n == 0x20 || n == 0x85 || n == 0xA0 || n == 0x1680 || 0x2000 <= n <= 0x200A ||
    n == 0x2028 || n == 0x2029 || n == 0x202F || n == 0x205F || n == 0x3000
  }

  function Bit(b: bool): nat {
    if b then 1 else 0
  }

  /** The number of elements of `s` that satisfy `p`. */
  function Count<T>(s: seq<T>, p: T -> bool): (n: nat)
    ensures n <= |s|
  {
    if s == [] then 0
    else Count(s[..|s| - 1], p) + (if p(s[|s| - 1]) then 1 else 0)
  }

  lemma {:induction false} CountSnoc<T>(s: seq<T>, x: T, p: T -> bool)
    ensures Count(s + [x], p) == Count(s, p) + (if p(x) then 1 else 0)
  {
    assert (s + [x])[..|s|] == s;
  }

  lemma {:induction false} CountAppend<T>(s: seq<T>, t: seq<T>, p: T -> bool)
    ensures Count(s + t, p) == Count(s, p) + Count(t, p)
  {
    if t == [] {
      assert s + t == s;
    } else {
      var init := t[..|t| - 1];
      CountAppend(s, init, p);
      assert s + t == (s + init) + [t[|t| - 1]];
      CountSnoc(s + init, t[|t| - 1], p);
    }
  }

  lemma {:induction false} CountZero<T>(s: seq<T>, p: T -> bool)
    ensures Count(s, p) == 0 <==> forall i | 0 <= i < |s| :: !p(s[i])
  {
    if s != [] {
      CountZero(s[..|s| - 1], p);
      var init := s[..|s| - 1];
      assert forall i | 0 <= i < |init| :: init[i] == s[i];
      if Count(s, p) == 0 {
        forall i | 0 <= i < |s|
          ensures !p(s[i])
        {
          if i < |init| {
            assert !p(init[i]);
          }
        }
      }
    }
  }

  lemma CountNone<T>(s: seq<T>, p: T -> bool)
    requires forall x | x in s :: !p(x)
    ensures Count(s, p) == 0
  {
    CountZero(s, p);
    assert forall i | 0 <= i < |s| :: s[i] in s;
  }

  /** Removing position `i` from a sequence. */
  function Without<T>(s: seq<T>, i: nat): seq<T>
    requires i < |s|
  {
    s[..i] + s[i + 1..]
  }

  lemma {:induction false} CountWithout<T>(s: seq<T>, i: nat, p: T -> bool)
    requires i < |s|
    ensures Count(s, p) == Count(Without(s, i), p) + (if p(s[i]) then 1 else 0)
  {
    assert s == (s[..i] + [s[i]]) + s[i + 1..];
    CountAppend(s[..i] + [s[i]], s[i + 1..], p);
    CountSnoc(s[..i], s[i], p);
    CountAppend(s[..i], s[i + 1..], p);
  }

  /** A match at one position, and at no other, is a count of one; two matches are a count of at least two. */
  lemma {:induction false} CountAt<T>(s: seq<T>, p: T -> bool, i: nat)
    requires i < |s| && p(s[i])
    ensures Count(s, p) >= 1
    ensures Count(s, p) == 1 <==> forall j | 0 <= j < |s| && j != i :: !p(s[j])
  {
    CountWithout(s, i, p);
    var t := Without(s, i);
    CountZero(t, p);
    assert forall j | 0 <= j < |t| :: t[j] == if j < i then s[j] else s[j + 1];
    if Count(s, p) == 1 {
      forall j | 0 <= j < |s| && j != i
        ensures !p(s[j])
      {
        var k := if j < i then j else j - 1;
        assert t[k] == s[j];
      }
    }
  }

  lemma {:induction false} CountWitness<T>(s: seq<T>, p: T -> bool) returns (i: nat)
    requires Count(s, p) >= 1
    ensures i < |s| && p(s[i])
  {
    if p(s[|s| - 1]) {
      i := |s| - 1;
    } else {
      i := CountWitness(s[..|s| - 1], p);
    }
  }

  /** Two matches at different positions are impossible when the count is one. */
  lemma CountOneSame<T>(s: seq<T>, p: T -> bool, i: nat, j: nat)
    requires Count(s, p) <= 1
    requires i < |s| && j < |s| && p(s[i]) && p(s[j])
    ensures i == j
  {
    CountAt(s, p, i);
  }

  lemma MultisetWithout<T>(t: seq<T>, i: nat)
    requires i < |t|
    ensures multiset(Without(t, i)) == multiset(t) - multiset{t[i]}
  {
    var x := t[i];
    assert t == t[..i] + ([x] + t[i + 1..]);
    assert multiset(t) == multiset(t[..i]) + multiset([x] + t[i + 1..]);
    assert multiset([x] + t[i + 1..]) == multiset{x} + multiset(t[i + 1..]);
  }

  /** The last element of a sequence has a place in every permutation of it. */
  lemma PermutedLast<T>(s: seq<T>, t: seq<T>) returns (i: nat)
    requires s != [] && multiset(s) == multiset(t)
    ensures i < |t| && t[i] == s[|s| - 1]
    ensures multiset(s[..|s| - 1]) == multiset(Without(t, i))
  {
    var n := |s| - 1;
    assert s[n] in multiset(s);
    assert s[n] in t;
    i :| 0 <= i < |t| && t[i] == s[n];
    assert Without(s, n) == s[..n];
    MultisetWithout(s, n);
    MultisetWithout(t, i);
  }

  /** Counting does not depend on order. */
  lemma {:induction false} CountPermuted<T>(s: seq<T>, t: seq<T>, p: T -> bool)
    requires multiset(s) == multiset(t)
    ensures Count(s, p) == Count(t, p)
    decreases |s|
  {
    if s == [] {
      assert |multiset(t)| == 0;
      assert t == [];
    } else {
      var i := PermutedLast(s, t);
      CountPermuted(s[..|s| - 1], Without(t, i), p);
      CountWithout(t, i, p);
    }
  }

  /** The first element of `s` that satisfies `p`. */
  function FirstMatch<T>(s: seq<T>, p: T -> bool): Option<T> {
    if s == [] then None
    else if p(s[0]) then Some(s[0])
    else FirstMatch(s[1..], p)
  }

  lemma {:induction false} FirstMatchUnique<T>(s: seq<T>, p: T -> bool)
    ensures FirstMatch(s, p).Some? ==> p(FirstMatch(s, p).value) && FirstMatch(s, p).value in s
    ensures FirstMatch(s, p).None? <==> forall x | x in s :: !p(x)
  {
    if s != [] {
      FirstMatchUnique(s[1..], p);
      assert forall x | x in s :: x == s[0] || x in s[1..];
    }
  }
}
