/**
 * What the checked folds of the summariser compute: the optional sum against exact arithmetic, and
 * the peak CPU utilisation against the average.
 */
module Folds {
  import opened Prelude
  import opened Records
  import opened SummarySpec

  // ---- The optional sum ------------------------------------------------------------------------

  function LeafAt(rows: seq<Row>, f: Field, j: int): Leaf
    requires 0 <= j < |rows|
  {
    Get(rows[j].cells, f)
  }

  /** The first of the first `n` rows that lacks the field, or `n`. */
  function FirstAbsent(rows: seq<Row>, f: Field, n: nat): (k: nat)
    requires n <= |rows|
    ensures k <= n
    ensures k < n ==> LeafAt(rows, f, k).Absent?
    ensures forall j | 0 <= j < k :: !LeafAt(rows, f, j).Absent?
  {
    if n == 0 then 0
    else
      var k := FirstAbsent(rows, f, n - 1);
      if k < n - 1 || LeafAt(rows, f, n - 1).Absent? then k else n
  }

  /** The exact, unbounded sum of the first `n` rows' values. */
  function Total(rows: seq<Row>, f: Field, n: nat): (t: nat)
    requires n <= |rows|
  {
    if n == 0 then 0 else Total(rows, f, n - 1) + NumOrZero(LeafAt(rows, f, n - 1))
  }

  lemma {:induction false} TotalGrows(rows: seq<Row>, f: Field, n: nat, m: nat)
    requires n <= m <= |rows|
    ensures Total(rows, f, n) <= Total(rows, f, m)
  {
    if n < m {
      TotalGrows(rows, f, n, m - 1);
    }
  }

  ghost predicate AllReadable(rows: seq<Row>, f: Field, n: nat)
    requires n <= |rows|
  {
    forall j | 0 <= j < n :: OptionalU64(LeafAt(rows, f, j)).Ok?
  }

  /** What the checked sum of the first `n` rows must be, in terms of exact arithmetic. */
  ghost function ExactSum(rows: seq<Row>, f: Field, n: nat): Result<Option<u64>>
    requires n <= |rows|
  {
    var k := FirstAbsent(rows, f, n);
    if !AllReadable(rows, f, n) || Total(rows, f, k) > U64_MAX then Err
    else if k < n then Ok(None)
    else Ok(Some(Total(rows, f, k)))
  }

  lemma ReadableStep(rows: seq<Row>, f: Field, n: nat)
    requires 0 < n <= |rows|
    ensures AllReadable(rows, f, n) <==> AllReadable(rows, f, n - 1) && OptionalU64(LeafAt(rows, f, n - 1)).Ok?
  {
  }

  lemma ExactSumStep(rows: seq<Row>, f: Field, n: nat, last: Leaf)
    requires 0 < n <= |rows| && last == LeafAt(rows, f, n - 1)
    ensures OptionalU64(last).Err? || ExactSum(rows, f, n - 1).Err? ==> ExactSum(rows, f, n).Err?
    ensures ExactSum(rows, f, n - 1) == Ok(None) && OptionalU64(last).Ok? ==> ExactSum(rows, f, n) == Ok(None)
    ensures ExactSum(rows, f, n - 1).Ok? && last.Absent? ==> ExactSum(rows, f, n) == Ok(None)
    ensures ExactSum(rows, f, n - 1).Ok? && ExactSum(rows, f, n - 1).value.Some? && last.Num? ==>
              ExactSum(rows, f, n) ==
              match CheckedAdd(ExactSum(rows, f, n - 1).value.value, last.n)
              case None => Err
              case Some(total) => Ok(Some(total))
  {
    hide AllReadable, Get;
    ReadableStep(rows, f, n);
    var k := FirstAbsent(rows, f, n - 1);
    TotalGrows(rows, f, k, n - 1);
    assert FirstAbsent(rows, f, n) == if k < n - 1 || last.Absent? then k else n;
    assert Total(rows, f, n) == Total(rows, f, n - 1) + NumOrZero(last);
  }

  lemma {:induction false} SumOfPrefix(rows: seq<Row>, f: Field, n: nat)
    requires n <= |rows|
    ensures SumFirst(rows, f, n) == ExactSum(rows, f, n)
  {
    if n > 0 {
      SumOfPrefix(rows, f, n - 1);
      ExactSumStep(rows, f, n, LeafAt(rows, f, n - 1));
    }
  }

  /**
   * The optional sum fails exactly when some value is malformed or the values before the first
   * absent one exceed a u64; it is absent exactly when some value is; otherwise it is exact.
   */
  lemma SumIsExact(rows: seq<Row>, f: Field)
    ensures SumOptional(rows, f).Err? <==>
            !AllReadable(rows, f, |rows|) || Total(rows, f, FirstAbsent(rows, f, |rows|)) > U64_MAX
    ensures SumOptional(rows, f) == Ok(None) ==> exists j :: 0 <= j < |rows| && LeafAt(rows, f, j).Absent?
    ensures SumOptional(rows, f).Ok? && SumOptional(rows, f).value.Some? ==>
              && SumOptional(rows, f).value.value == Total(rows, f, |rows|)
              && forall j | 0 <= j < |rows| :: LeafAt(rows, f, j).Num?
  {
    SumOfPrefix(rows, f, |rows|);
  }

  // ---- When the order of the rows matters ------------------------------------------------------

  predicate SomeAbsent(rows: seq<Row>, f: Field) {
    exists j :: 0 <= j < |rows| && LeafAt(rows, f, j).Absent?
  }

  predicate ReadableRow(r: Row, f: Field) {
    OptionalU64(Get(r.cells, f)).Ok?
  }

  predicate LacksField(r: Row, f: Field) {
    Get(r.cells, f).Absent?
  }

  /** Readability and absence are properties of the rows as a multiset. */
  lemma ReadableByMembership(rows: seq<Row>, f: Field)
    ensures AllReadable(rows, f, |rows|) <==> forall r | r in multiset(rows) :: ReadableRow(r, f)
  {
    hide Get, OptionalU64;
    if AllReadable(rows, f, |rows|) {
      forall r | r in multiset(rows)
        ensures ReadableRow(r, f)
      {
        assert r in rows;
        var j :| 0 <= j < |rows| && rows[j] == r;
        assert OptionalU64(LeafAt(rows, f, j)).Ok?;
      }
    }
    if forall r | r in multiset(rows) :: ReadableRow(r, f) {
      forall j | 0 <= j < |rows|
        ensures OptionalU64(LeafAt(rows, f, j)).Ok?
      {
        assert rows[j] in multiset(rows) && ReadableRow(rows[j], f);
      }
    }
  }

  lemma AbsentByMembership(rows: seq<Row>, f: Field)
    ensures SomeAbsent(rows, f) <==> exists r :: r in multiset(rows) && LacksField(r, f)
  {
    hide Get;
    if r :| r in multiset(rows) && LacksField(r, f) {
      assert r in rows;
      var j :| 0 <= j < |rows| && rows[j] == r;
      assert LeafAt(rows, f, j).Absent?;
    }
    if j :| 0 <= j < |rows| && LeafAt(rows, f, j).Absent? {
      assert rows[j] in multiset(rows) && LacksField(rows[j], f);
    }
  }

  lemma ByMembership(rows: seq<Row>, t: seq<Row>, f: Field)
    requires multiset(t) == multiset(rows)
    ensures AllReadable(t, f, |t|) <==> AllReadable(rows, f, |rows|)
    ensures SomeAbsent(t, f) <==> SomeAbsent(rows, f)
  {
    hide AllReadable, SomeAbsent, ReadableRow, LacksField;
    ReadableByMembership(rows, f);
    ReadableByMembership(t, f);
    AbsentByMembership(rows, f);
    AbsentByMembership(t, f);
  }

  lemma {:induction false} TotalPrefix(rows: seq<Row>, more: seq<Row>, f: Field, n: nat)
    requires n <= |rows|
    ensures Total(rows + more, f, n) == Total(rows, f, n)
  {
    if n > 0 {
      TotalPrefix(rows, more, f, n - 1);
    }
  }

  lemma {:induction false} TotalAppend(s: seq<Row>, t: seq<Row>, f: Field)
    ensures Total(s + t, f, |s + t|) == Total(s, f, |s|) + Total(t, f, |t|)
  {
    if t == [] {
      assert s + t == s;
    } else {
      var init, last := t[..|t| - 1], t[|t| - 1];
      TotalAppend(s, init, f);
      assert s + t == (s + init) + [last] && t == init + [last];
      TotalPrefix(s + init, [last], f, |s + init|);
      TotalPrefix(init, [last], f, |init|);
    }
  }

  lemma TotalWithout(rows: seq<Row>, f: Field, i: nat)
    requires i < |rows|
    ensures Total(rows, f, |rows|) == Total(Without(rows, i), f, |Without(rows, i)|) + NumOrZero(LeafAt(rows, f, i))
  {
    hide Total;
    var r := [rows[i]];
    assert rows == (rows[..i] + r) + rows[i + 1..];
    TotalAppend(rows[..i] + r, rows[i + 1..], f);
    TotalAppend(rows[..i], r, f);
    TotalAppend(rows[..i], rows[i + 1..], f);
    TotalOfOne(rows[i], f);
  }

  lemma TotalOfOne(r: Row, f: Field)
    ensures Total([r], f, 1) == NumOrZero(Get(r.cells, f))
  {
    assert Total([r], f, 0) == 0;
  }

  lemma {:induction false} TotalPermuted(s: seq<Row>, t: seq<Row>, f: Field)
    requires multiset(s) == multiset(t)
    ensures Total(s, f, |s|) == Total(t, f, |t|)
    decreases |s|
  {
    hide Total;
    if s == [] {
      assert |multiset(t)| == 0;
      assert t == [];
    } else {
      var n := |s| - 1;
      var i := PermutedLast(s, t);
      assert Without(s, n) == s[..n];
      TotalPermuted(s[..n], Without(t, i), f);
      TotalWithout(s, f, n);
      TotalWithout(t, f, i);
    }
  }

  /** Rows with a value first, in order, then the rows without one. */
  function ValuesFirst(rows: seq<Row>, f: Field): (t: seq<Row>)
    ensures multiset(t) == multiset(rows)
  {
    if rows == [] then []
    else
      var init, last := rows[..|rows| - 1], rows[|rows| - 1];
      assert rows == init + [last];
      if LacksField(last, f) then ValuesFirst(init, f) + [last] else [last] + ValuesFirst(init, f)
  }

  predicate SplitAt(t: seq<Row>, f: Field, k: int) {
    0 <= k <= |t| && forall j | 0 <= j < |t| :: LacksField(t[j], f) <==> j >= k
  }

  lemma SplitGrows(t: seq<Row>, r: Row, f: Field, k: int)
    requires SplitAt(t, f, k)
    ensures LacksField(r, f) ==> SplitAt(t + [r], f, k)
    ensures !LacksField(r, f) ==> SplitAt([r] + t, f, k + 1)
  {
    hide LacksField;
  }

  /** In that order the rows without a value all come after those with one. */
  lemma {:induction false} ValuesBeforeAbsent(rows: seq<Row>, f: Field) returns (k: nat)
    ensures SplitAt(ValuesFirst(rows, f), f, k)
  {
    hide LacksField, SplitAt;
    if rows == [] {
      k := 0;
      NothingToSplit(f);
    } else {
      var init, last := rows[..|rows| - 1], rows[|rows| - 1];
      var m := ValuesBeforeAbsent(init, f);
      SplitGrows(ValuesFirst(init, f), last, f, m);
      k := if LacksField(last, f) then m else m + 1;
    }
  }

  lemma NothingToSplit(f: Field)
    ensures SplitAt([], f, 0)
  {
  }

  lemma {:induction false} AbsentAddsNothing(rows: seq<Row>, f: Field, k: nat, n: nat)
    requires k <= n <= |rows| && forall j | k <= j < |rows| :: LeafAt(rows, f, j).Absent?
    ensures Total(rows, f, n) == Total(rows, f, k)
  {
    if k < n {
      AbsentAddsNothing(rows, f, k, n - 1);
    }
  }

  lemma {:induction false} FirstAbsentIs(rows: seq<Row>, f: Field, k: nat, n: nat)
    requires n <= |rows| && forall j | 0 <= j < |rows| :: LeafAt(rows, f, j).Absent? <==> j >= k
    ensures FirstAbsent(rows, f, n) == if k < n then k else n
  {
    hide LeafAt;
    if n > 0 {
      FirstAbsentIs(rows, f, k, n - 1);
    }
  }

  /** Values first is the order that overflows if any does. */
  lemma ValuesFirstOverflows(rows: seq<Row>, f: Field)
    requires Total(rows, f, |rows|) > U64_MAX
    ensures SumOptional(ValuesFirst(rows, f), f).Err?
  {
    hide SumOptional, Total, ValuesFirst;
    var t := ValuesFirst(rows, f);
    var k := ValuesBeforeAbsent(rows, f);
    forall j | 0 <= j < |t|
      ensures LeafAt(t, f, j).Absent? <==> j >= k
    {
      assert LacksField(t[j], f) <==> j >= k;
    }
    FirstAbsentIs(t, f, k, |t|);
    TotalPermuted(rows, t, f);
    AbsentAddsNothing(t, f, k, |t|);
    SumIsExact(t, f);
  }

  /** With an absent row in front nothing is added up. */
  lemma AbsentFirst(rows: seq<Row>, f: Field) returns (t: seq<Row>)
    requires AllReadable(rows, f, |rows|) && SomeAbsent(rows, f)
    ensures multiset(t) == multiset(rows) && SumOptional(t, f) == Ok(None)
  {
    var i :| 0 <= i < |rows| && LeafAt(rows, f, i).Absent?;
    t := [rows[i]] + Without(rows, i);
    assert rows == rows[..i] + [rows[i]] + rows[i + 1..];
    ByMembership(rows, t, f);
    assert LeafAt(t, f, 0).Absent?;
    assert FirstAbsent(t, f, |t|) == 0;
    SumIsExact(t, f);
  }

  /**
   * Row order, exactly: some reordering of the rows changes the outcome if and only if every value is
   * readable, some row lacks the field, and the exact total exceeds a u64.
   */
  lemma SumDependsOnRowOrder(rows: seq<Row>, f: Field)
    ensures (exists t :: multiset(t) == multiset(rows) && SumOptional(t, f) != SumOptional(rows, f)) <==>
            AllReadable(rows, f, |rows|) && SomeAbsent(rows, f) && Total(rows, f, |rows|) > U64_MAX
  {
    hide SumOptional, Total, AllReadable, SomeAbsent;
    if AllReadable(rows, f, |rows|) && SomeAbsent(rows, f) && Total(rows, f, |rows|) > U64_MAX {
      ValuesFirstOverflows(rows, f);
      var t := AbsentFirst(rows, f);
      if SumOptional(rows, f) == SumOptional(t, f) {
        assert SumOptional(ValuesFirst(rows, f), f) != SumOptional(rows, f);
      }
    } else {
      forall t | multiset(t) == multiset(rows)
        ensures SumOptional(t, f) == SumOptional(rows, f)
      {
        SameSum(rows, t, f);
      }
    }
  }

  /** Three rows that are summed to absent in one order and rejected for overflow in another. */
  lemma ThreeRowsInTwoOrders()
    ensures exists r: Row, s: Row, t: Row ::
              SumOptional([r, s, t], PrivateBytes) == Ok(None) && SumOptional([s, t, r], PrivateBytes) == Err
  {
    var r := Row(Num(1), map[]);
    var s := Row(Num(2), map[PrivateBytes := Num(U64_MAX)]);
    var t := Row(Num(3), map[PrivateBytes := Num(1)]);
    var rows, swapped := [r, s, t], [s, t, r];
    assert SumFirst(rows, PrivateBytes, 1) == Ok(None);
    assert SumFirst(rows, PrivateBytes, 2) == Ok(None);
    assert SumFirst(swapped, PrivateBytes, 1) == Ok(Some(U64_MAX));
    assert SumFirst(swapped, PrivateBytes, 2) == Err;
  }

  lemma SameSum(rows: seq<Row>, t: seq<Row>, f: Field)
    requires multiset(t) == multiset(rows)
    requires !(AllReadable(rows, f, |rows|) && SomeAbsent(rows, f) && Total(rows, f, |rows|) > U64_MAX)
    ensures SumOptional(t, f) == SumOptional(rows, f)
  {
    hide SumOptional, Total, AllReadable, SomeAbsent;
    ByMembership(rows, t, f);
    TotalPermuted(rows, t, f);
    SumByCase(rows, f);
    SumByCase(t, f);
  }

  /** The outcome where order cannot matter. */
  lemma SumByCase(rows: seq<Row>, f: Field)
    ensures !AllReadable(rows, f, |rows|) ==> SumOptional(rows, f) == Err
    ensures AllReadable(rows, f, |rows|) && SomeAbsent(rows, f) && Total(rows, f, |rows|) <= U64_MAX ==>
              SumOptional(rows, f) == Ok(None)
    ensures AllReadable(rows, f, |rows|) && !SomeAbsent(rows, f) ==>
              SumOptional(rows, f) ==
              if Total(rows, f, |rows|) <= U64_MAX then Ok(Some(Total(rows, f, |rows|))) else Err
  {
    hide AllReadable, Total, Get;
    var k := FirstAbsent(rows, f, |rows|);
    TotalGrows(rows, f, k, |rows|);
    SumOfPrefix(rows, f, |rows|);
  }

  // ---- CPU utilisation -------------------------------------------------------------------------

  ghost predicate StrictlyTimed(ps: seq<JobPoint>) {
    forall k | 0 < k < |ps| :: Advances(ps, k)
  }

  lemma StepBelowPeak(ps: seq<JobPoint>, k: int, peak: real)
    requires Advances(ps, k) && Utilization(ps, k) <= peak
    ensures (ps[k].cpu - ps[k - 1].cpu) as real <= peak * (ps[k].t - ps[k - 1].t) as real
  {
    var dc, dt := (ps[k].cpu - ps[k - 1].cpu) as real, (ps[k].t - ps[k - 1].t) as real;
    assert dt > 0.0;
    assert (dc / dt) * dt == dc;
    ScaleByPositive(dc / dt, peak, dt);
  }

  lemma ScaleByPositive(a: real, b: real, c: real)
    requires a <= b && c > 0.0
    ensures a * c <= b * c
  {
  }

  lemma DistributeReal(p: real, a: real, b: real)
    ensures p * a + p * b == p * (a + b)
  {
  }

  /** CPU consumed from the first point to point `n` is at most the peak utilisation times the time between them. */
  lemma {:induction false} CpuBelowPeak(ps: seq<JobPoint>, n: nat, peak: real)
    requires n < |ps| && StrictlyTimed(ps) && PeakUtilizationIs(ps, Some(peak))
    ensures (ps[n].cpu - ps[0].cpu) as real <= peak * (ps[n].t - ps[0].t) as real
  {
    if n > 0 {
      CpuBelowPeak(ps, n - 1, peak);
      assert Advances(ps, n);
      StepBelowPeak(ps, n, peak);
      var a, b := (ps[n - 1].t - ps[0].t) as real, (ps[n].t - ps[n - 1].t) as real;
      DistributeReal(peak, a, b);
      assert a + b == (ps[n].t - ps[0].t) as real;
    }
  }

  lemma {:induction false} JobOnEverySample(samples: seq<Sample>, n: nat)
    requires n <= |samples| && forall k | 0 <= k < |samples| :: samples[k].job.Some?
    ensures |JobPoints(samples, n)| == n
    ensures forall k | 0 <= k < n ::
              JobPoints(samples, n)[k] == JobPoint(NumOrZero(samples[k].monotonic), CpuOf(samples[k].job.value))
  {
    if n > 0 {
      JobOnEverySample(samples, n - 1);
    }
  }

  /**
   * When every sample carries a job and time strictly advances, the average utilisation exceeds the
   * peak by at most the CPU already on the clock at the first sample, spread over the elapsed time.
   */
  lemma AverageBelowPeak(b: Bundle, s: Summary)
    requires |b.samples| >= 2 && Describes(b, s)
    requires forall k | 0 <= k < |b.samples| :: b.samples[k].job.Some?
    requires StrictlyTimed(JobPoints(b.samples, |b.samples|))
    ensures s.timing.elapsedNs > 0 && s.cpu.average.Some? && s.cpu.peak.Some?
    ensures s.cpu.average.value <=
            s.cpu.peak.value + CpuOf(b.samples[0].job.value) as real / s.timing.elapsedNs as real
  {
    hide MaxGapIs, MemoryIs, IoIs, PopulationIs, TerminalIs, ValidityOf, CompletenessOf, RetentionDegraded, IsV2;
    var n := |b.samples|;
    JobOnEverySample(b.samples, n);
    assert LastJob(b.samples, n) == b.samples[n - 1].job;
    AverageOfPoints(JobPoints(b.samples, n), s.timing.elapsedNs, s.cpu);
  }

  lemma AverageOfPoints(ps: seq<JobPoint>, elapsed: int, c: Cpu)
    requires |ps| >= 2 && StrictlyTimed(ps)
    requires elapsed == ps[|ps| - 1].t - ps[0].t
    requires elapsed > 0 ==> c.average == Some(ps[|ps| - 1].cpu as real / elapsed as real)
    requires PeakUtilizationIs(ps, c.peak)
    ensures elapsed > 0 && c.average.Some? && c.peak.Some?
    ensures c.average.value <= c.peak.value + ps[0].cpu as real / elapsed as real
  {
    assert Advances(ps, 1);
    TimesAdvance(ps, |ps| - 1);
    CpuBelowPeak(ps, |ps| - 1, c.peak.value);
    DivideBound(ps[0].cpu as real, ps[|ps| - 1].cpu as real, c.peak.value, elapsed as real);
  }

  lemma DivideBound(first: real, last: real, peak: real, e: real)
    requires e > 0.0 && last - first <= peak * e
    ensures last / e <= peak + first / e
  {
    var p, q := last / e, first / e;
    assert p * e == last && q * e == first;
    assert (p - q - peak) * e == p * e - q * e - peak * e;
    CancelPositive(p - q - peak, e);
  }

  lemma CancelPositive(x: real, e: real)
    requires e > 0.0 && x * e <= 0.0
    ensures x <= 0.0
  {
  }

  lemma {:induction false} TimesAdvance(ps: seq<JobPoint>, n: nat)
    requires n < |ps| && StrictlyTimed(ps)
    ensures n > 0 ==> ps[0].t < ps[n].t
  {
    if n > 1 {
      TimesAdvance(ps, n - 1);
    }
    if n > 0 {
      assert Advances(ps, n);
    }
  }
}
