/** NDCG, recall, precision and coherence of a result list (packages/semantic-search/semantic_search/app.py). */
module RetrievalMetrics {
  import opened Common
  import opened Reals
  import opened Retrieval
  import StableSort

  /** All that is used of the logarithm: positive and strictly increasing from 2 on. */
  ghost predicate LogLike(log2: nat -> real) {
    (forall n: nat | n >= 2 :: log2(n) > 0.0) && (forall m: nat, n: nat | 2 <= m < n :: log2(m) < log2(n))
  }

  /** The discounted sum of `s`, whose first element stands at rank `rank`. */
  function Dcg(log2: nat -> real, s: seq<real>, rank: nat): real
    requires LogLike(log2) && rank >= 1
  {
    if s == [] then 0.0 else s[0] / log2(rank + 1) + Dcg(log2, s[1..], rank + 1)
  }

  function SortedDown(s: seq<real>): seq<real> {
    StableSort.SortDescending(Less(), s)
  }

  function CountAtLeast(s: seq<real>, t: real): nat {
    if s == [] then 0 else (if s[0] >= t then 1 else 0) + CountAtLeast(s[1..], t)
  }

  datatype Metrics = Metrics(ndcg: real, recall: real, precision: real, coherence: real)

  function ComputeMetrics(log2: nat -> real, top: seq<real>, pool: seq<real>, topK: int, threshold: real): Metrics
    requires LogLike(log2)
  {
    if top == [] then Metrics(0.0, 0.0, 0.0, 0.0)
    else
      var dcg, idcg := Dcg(log2, top, 1), Dcg(log2, SortedDown(top), 1);
      var inTop, inPool := CountAtLeast(top, threshold), CountAtLeast(pool, threshold);
      var denom := if topK < |top| then topK else |top|;
      Metrics(
        if idcg > 0.0 then Round4(dcg / idcg) else 0.0,
        if inPool > 0 then Round4(inTop as real / inPool as real) else 0.0,
        if denom > 0 then Round4(inTop as real / denom as real) else 0.0,
        Round4(Sum(top) / |top| as real))
  }

  // ---- The rearrangement inequality

  /** Insertion into a list sorted from the top. */
  function InsertDown(x: real, t: seq<real>): (r: seq<real>)
    ensures |r| == |t| + 1
  {
    if t == [] || x >= t[0] then [x] + t else [t[0]] + InsertDown(x, t[1..])
  }

  function Ideal(s: seq<real>): (r: seq<real>)
    ensures |r| == |s|
  {
    if s == [] then [] else InsertDown(s[0], Ideal(s[1..]))
  }

  lemma {:induction false} InsertDownPermutes(x: real, t: seq<real>)
    ensures multiset(InsertDown(x, t)) == multiset(t) + multiset{x}
  {
    if t != [] && x < t[0] {
      InsertDownPermutes(x, t[1..]);
      assert t == [t[0]] + t[1..];
    }
  }

  lemma {:induction false} InsertDownSorted(x: real, t: seq<real>)
    requires Descending(t)
    ensures Descending(InsertDown(x, t))
    ensures t != [] && x < t[0] ==> forall y | y in InsertDown(x, t) :: y <= t[0]
  {
    if t != [] && x < t[0] {
      var rest := t[1..];
      var r := InsertDown(x, rest);
      assert forall i, j | 0 <= i < j < |rest| :: rest[i] == t[i + 1] && rest[j] == t[j + 1];
      InsertDownSorted(x, rest);
      assert rest != [] ==> rest[0] <= t[0];
      forall y | y in r ensures y <= t[0] {
        if rest == [] || x >= rest[0] { assert y == x || y in rest; }
      }
      forall i | 0 <= i < |r| ensures r[i] <= t[0] { assert r[i] in r; }
    }
  }

  lemma {:induction false} IdealSorts(s: seq<real>)
    ensures Descending(Ideal(s)) && multiset(Ideal(s)) == multiset(s)
  {
    if s != [] {
      IdealSorts(s[1..]);
      InsertDownSorted(s[0], Ideal(s[1..]));
      InsertDownPermutes(s[0], Ideal(s[1..]));
      assert s == [s[0]] + s[1..];
    }
  }

  /** The library sort and the insertion sort used in the proof agree. */
  lemma SortedDownIsIdeal(s: seq<real>)
    ensures SortedDown(s) == Ideal(s) && Descending(SortedDown(s))
  {
    var gt := (a: real, b: real) => b < a;
    var r := SortedDown(s);
    if s == [] {
    } else {
      StableSort.SortDescendingPermutes(Less(), s);
      StableSort.SortDescendingStable(Less(), s, s[0]);
      IdealSorts(s);
      StableSort.SortedIsUnique(gt, r, Ideal(s));
    }
  }

  /** Swapping a smaller value behind a larger one never lowers the discounted sum. */
  lemma Exchange(x: real, y: real, a: real, b: real)
    requires x <= y && 0.0 < a < b
    ensures x / a + y / b <= y / a + x / b
    ensures x < y ==> x / a + y / b < y / a + x / b
  {
    var p, q := 1.0 / a, 1.0 / b;
    assert p * a == 1.0 && q * b == 1.0;
    Reciprocal(a, b);
    assert (y - x) * (p - q) >= 0.0 && (x < y ==> (y - x) * (p - q) > 0.0);
    assert x / a == x * p && y / b == y * q && y / a == y * p && x / b == x * q;
  }

  lemma Reciprocal(a: real, b: real)
    requires 0.0 < a < b
    ensures 1.0 / a > 1.0 / b
  {
    var p, q := 1.0 / a, 1.0 / b;
    assert p * a == 1.0 && q * b == 1.0;
    assert (p - q) * (a * b) == p * a * b - q * b * a == b - a;
    assert p - q > 0.0;
  }

  /** Moving a value to its sorted place does not lower the sum, and raises it when it was out of place. */
  lemma {:induction false} InsertDownGains(log2: nat -> real, x: real, t: seq<real>, rank: nat)
    requires LogLike(log2) && rank >= 1
    ensures Dcg(log2, [x] + t, rank) <= Dcg(log2, InsertDown(x, t), rank)
    ensures t != [] && x < t[0] ==> Dcg(log2, [x] + t, rank) < Dcg(log2, InsertDown(x, t), rank)
    decreases |t|
  {
    if t != [] && x < t[0] {
      var rest := t[1..];
      InsertDownGains(log2, x, rest, rank + 1);
      Exchange(x, t[0], log2(rank + 1), log2(rank + 2));
      assert ([x] + t)[1..] == t && ([x] + rest)[1..] == rest;
      assert ([t[0]] + InsertDown(x, rest))[1..] == InsertDown(x, rest);
    }
  }

  /** Of all orders of the same values the descending one has the greatest discounted sum, and it is the only one. */
  lemma {:induction false} Rearrangement(log2: nat -> real, s: seq<real>, rank: nat)
    requires LogLike(log2) && rank >= 1
    ensures Dcg(log2, s, rank) <= Dcg(log2, Ideal(s), rank)
    ensures Dcg(log2, s, rank) == Dcg(log2, Ideal(s), rank) <==> Descending(s)
    decreases |s|
  {
    if s != [] {
      var t := Ideal(s[1..]);
      Rearrangement(log2, s[1..], rank + 1);
      InsertDownGains(log2, s[0], t, rank);
      assert ([s[0]] + t)[1..] == t;
      IdealSorts(s[1..]);
      TailDescending(s);
      if Descending(s[1..]) {
        DescendingIsIdeal(s[1..]);
        if |s| == 1 || s[0] >= s[1] {
          HeadInPlace(s);
          DescendingIsIdeal(s);
        }
      }
    }
  }

  lemma TailDescending(s: seq<real>)
    requires s != []
    ensures Descending(s) ==> Descending(s[1..]) && (|s| > 1 ==> s[0] >= s[1])
  {}

  lemma HeadInPlace(s: seq<real>)
    requires s != [] && Descending(s[1..]) && (|s| > 1 ==> s[0] >= s[1])
    ensures Descending(s)
  {
    forall i, j | 0 <= i < j < |s| ensures s[i] >= s[j] {
      assert j == 1 || s[1..][0] >= s[1..][j - 1];
      if i > 0 { assert s[1..][i - 1] >= s[1..][j - 1]; }
    }
  }

  lemma {:induction false} DescendingIsIdeal(s: seq<real>)
    requires Descending(s)
    ensures Ideal(s) == s
  {
    if s != [] {
      assert forall i, j | 0 <= i < j < |s[1..]| :: s[1..][i] == s[i + 1] && s[1..][j] == s[j + 1];
      DescendingIsIdeal(s[1..]);
      assert |s| > 1 ==> s[0] >= s[1];
    }
  }

  ghost predicate SomePositive(s: seq<real>) {
    exists x :: x in s && x > 0.0
  }

  lemma {:induction false} DcgSign(log2: nat -> real, s: seq<real>, rank: nat)
    requires LogLike(log2) && rank >= 1 && forall x | x in s :: x >= 0.0
    ensures Dcg(log2, s, rank) >= 0.0
    ensures Dcg(log2, s, rank) > 0.0 <==> SomePositive(s)
  {
    if s != [] {
      assert s[0] in s;
      Ratio(s[0], log2(rank + 1));
      assert s[0] > 0.0 ==> s[0] / log2(rank + 1) > 0.0 by {
        var q := s[0] / log2(rank + 1);
        assert q * log2(rank + 1) == s[0];
      }
      forall x | x in s[1..] ensures x in s {}
      DcgSign(log2, s[1..], rank + 1);
      if SomePositive(s) {
        var x :| x in s && x > 0.0;
        assert x == s[0] || x in s[1..];
      }
    }
  }

  lemma UnroundedNdcg(log2: nat -> real, top: seq<real>)
    requires LogLike(log2) && forall x | x in top :: x >= 0.0
    ensures var dcg, idcg := Dcg(log2, top, 1), Dcg(log2, SortedDown(top), 1);
            && 0.0 <= dcg <= idcg && (idcg > 0.0 <==> SomePositive(top)) && (dcg == idcg <==> Descending(top))
  {
    SortedDownIsIdeal(top);
    IdealSorts(top);
    StableSort.SameMembers(Ideal(top), top);
    Rearrangement(log2, top, 1);
    DcgSign(log2, top, 1);
    DcgSign(log2, Ideal(top), 1);
  }

  /** Main result on NDCG: on non-negative scores it lies in [0, 1] before and after rounding; unrounded it is 1 exactly
      for a list that is sorted from the top and not all zero, and rounding keeps that 1. */
  lemma NdcgInUnit(log2: nat -> real, top: seq<real>, pool: seq<real>, topK: int, threshold: real)
    requires LogLike(log2) && forall x | x in top :: x >= 0.0
    ensures 0.0 <= ComputeMetrics(log2, top, pool, topK, threshold).ndcg <= 1.0
    ensures Descending(top) && SomePositive(top) ==> ComputeMetrics(log2, top, pool, topK, threshold).ndcg == 1.0
    ensures !SomePositive(top) ==> ComputeMetrics(log2, top, pool, topK, threshold).ndcg == 0.0
    ensures var dcg, idcg := Dcg(log2, top, 1), Dcg(log2, SortedDown(top), 1);
            (idcg > 0.0 && dcg / idcg == 1.0) <==> Descending(top) && SomePositive(top)
  {
    UnroundedNdcg(log2, top);
    var dcg, idcg := Dcg(log2, top, 1), Dcg(log2, SortedDown(top), 1);
    if idcg > 0.0 {
      RatioIsOne(dcg, idcg);
      Round4Unit(dcg / idcg);
      Round4FixesUnit();
    }
  }

  // ---- Recall and precision

  /** The places of the relevant scores. */
  ghost function Relevant(s: seq<real>, t: real): set<nat> {
    set i: nat | i < |s| && s[i] >= t
  }

  lemma {:induction false} CountAppend(s: seq<real>, x: real, t: real)
    ensures CountAtLeast(s + [x], t) == CountAtLeast(s, t) + if x >= t then 1 else 0
  {
    if s == [] {
      assert [] + [x] == [x] && [x][1..] == [];
    } else {
      assert (s + [x])[1..] == s[1..] + [x];
      CountAppend(s[1..], x, t);
    }
  }

  lemma {:induction false} CountIsRelevant(s: seq<real>, t: real)
    ensures CountAtLeast(s, t) == |Relevant(s, t)|
  {
    if s == [] {
      assert Relevant(s, t) == {};
    } else {
      var init, last := s[..|s| - 1], s[|s| - 1];
      assert s == init + [last];
      CountIsRelevant(init, t);
      CountAppend(init, last, t);
      assert Relevant(s, t) == Relevant(init, t) + if last >= t then {|init|} else {};
    }
  }

  /** Each score is discounted by the logarithm of its place, counted from 2. */
  lemma {:induction false} DcgAppend(log2: nat -> real, s: seq<real>, x: real, rank: nat)
    requires LogLike(log2) && rank >= 1
    ensures Dcg(log2, [], rank) == 0.0 && Dcg(log2, s + [x], rank) == Dcg(log2, s, rank) + x / log2(rank + |s| + 1)
  {
    if s != [] {
      assert (s + [x])[1..] == s[1..] + [x];
      DcgAppend(log2, s[1..], x, rank + 1);
    }
  }

  /** What the four values are: the share of the pool's relevant scores that were returned, the share of relevant ones
      among those returned (counted against `topK` at most), the mean, and the discounted sum over that of the
      descending order, each rounded, and 0 where there is nothing to divide by. */
  lemma MetricsMeaning(log2: nat -> real, top: seq<real>, pool: seq<real>, topK: int, threshold: real)
    requires LogLike(log2)
    ensures var m := ComputeMetrics(log2, top, pool, topK, threshold);
            var found, known := |Relevant(top, threshold)|, |Relevant(pool, threshold)|;
            var shown := if topK < |top| then topK else |top|;
            var ideal := Dcg(log2, SortedDown(top), 1);
            && (top == [] ==> m == Metrics(0.0, 0.0, 0.0, 0.0))
            && (top != [] ==>
                  && m.recall == (if known == 0 then 0.0 else Round4(found as real / known as real))
                  && m.precision == (if shown <= 0 then 0.0 else Round4(found as real / shown as real))
                  && m.coherence == Round4(Sum(top) / |top| as real)
                  && m.ndcg == (if ideal <= 0.0 then 0.0 else Round4(Dcg(log2, top, 1) / ideal)))
  {
    CountIsRelevant(top, threshold);
    CountIsRelevant(pool, threshold);
  }

  lemma {:induction false} CountPrefix(s: seq<real>, t: real, k: nat)
    requires k <= |s|
    ensures CountAtLeast(s[..k], t) <= CountAtLeast(s, t)
    ensures CountAtLeast(s, t) <= |s|
  {
    if s != [] {
      if k > 0 {
        assert s[..k][1..] == s[1..][..k - 1];
        CountPrefix(s[1..], t, k - 1);
      } else {
        CountPrefix(s[1..], t, 0);
      }
    }
  }

  lemma CountRatio(a: nat, b: nat)
    requires a <= b && b > 0
    ensures 0.0 <= Round4(a as real / b as real) <= 1.0
  {
    Ratio(a as real, b as real);
    Round4Unit(a as real / b as real);
  }

  /** On the search path, where the returned scores are the first `topK` of the pool, recall and precision lie in
      [0, 1]. */
  lemma RecallPrecisionInUnit(log2: nat -> real, pool: seq<real>, topK: int, threshold: real)
    requires LogLike(log2) && topK >= 0
    ensures var m := ComputeMetrics(log2, SliceTo(pool, topK), pool, topK, threshold);
            0.0 <= m.recall <= 1.0 && 0.0 <= m.precision <= 1.0
  {
    var k := if topK < |pool| then topK else |pool|;
    var top := SliceTo(pool, topK);
    assert top == pool[..k];
    CountPrefix(pool, threshold, k);
    CountPrefix(top, threshold, 0);
    if top != [] {
      CountRatio(CountAtLeast(top, threshold), |top|);
      if CountAtLeast(pool, threshold) > 0 { CountRatio(CountAtLeast(top, threshold), CountAtLeast(pool, threshold)); }
    }
  }

  /** Called on its own the function keeps precision in [0, 1] for all lists of `n` scores exactly when `n` does not
      exceed `topK` by more than the rounding hides (or `topK` is not positive). */
  lemma PrecisionBoundedIff(log2: nat -> real, n: nat, topK: int, threshold: real)
    requires LogLike(log2) && n > 0
    ensures (forall top: seq<real>, pool: seq<real> | |top| == n ::
               0.0 <= ComputeMetrics(log2, top, pool, topK, threshold).precision <= 1.0)
            <==> topK <= 0 || (n - topK) * 20000 <= topK
  {
    if topK <= 0 || (n - topK) * 20000 <= topK {
      forall top: seq<real>, pool: seq<real> | |top| == n
        ensures 0.0 <= ComputeMetrics(log2, top, pool, topK, threshold).precision <= 1.0
      {
        CountPrefix(top, threshold, 0);
        CountIsRelevant(top, threshold);
        PrecisionInUnitIff(log2, top, pool, topK, threshold);
      }
    } else {
      var top := seq(n, i requires 0 <= i < n => threshold);
      AllRelevant(top, threshold);
      CountIsRelevant(top, threshold);
      PrecisionInUnitIff(log2, top, [], topK, threshold);
    }
  }

  lemma {:induction false} AllRelevant(s: seq<real>, t: real)
    requires forall x | x in s :: x >= t
    ensures CountAtLeast(s, t) == |s|
  {
    if s != [] {
      forall x | x in s[1..] ensures x in s {}
      assert s[0] in s;
      AllRelevant(s[1..], t);
    }
  }

  // ---- Exactly when each of the four values lies in [0, 1]

  lemma Round4Cap(x: real)
    ensures Round4(x) <= 1.0 <==> x <= 1.00005
  {
    var n := RoundHalfEven(x * 10000.0);
    assert n as real - 0.5 <= x * 10000.0 <= n as real + 0.5;
    if x == 1.00005 { assert (10000.5).Floor == 10000; }
  }

  /** A rounded quotient lies in [0, 1] exactly when the numerator leaves the range by no more than rounding hides. */
  lemma RoundedRatio(a: real, b: real)
    requires b > 0.0
    ensures 0.0 <= Round4(a / b) <= 1.0 <==> -b <= a * 20000.0 <= 20001.0 * b
  {
    var q := a / b;
    assert q * b == a;
    Round4Sign(q);
    Round4Cap(q);
    Cancel(q, b, a, 1.00005);
    Cancel(q, b, a, -0.00005);
  }

  lemma RoundedCount(a: nat, b: nat)
    requires b > 0
    ensures 0.0 <= Round4(a as real / b as real) <= 1.0 <==> a * 20000 <= 20001 * b
  {
    RoundedRatio(a as real, b as real);
    assert (a * 20000) as real == a as real * 20000.0 && (20001 * b) as real == 20001.0 * b as real;
  }

  lemma RecallInUnitIff(log2: nat -> real, top: seq<real>, pool: seq<real>, topK: int, threshold: real)
    requires LogLike(log2) && top != []
    ensures 0.0 <= ComputeMetrics(log2, top, pool, topK, threshold).recall <= 1.0 <==>
            |Relevant(pool, threshold)| == 0
            || |Relevant(top, threshold)| * 20000 <= 20001 * |Relevant(pool, threshold)|
  {
    hide Round4;
    CountIsRelevant(top, threshold);
    CountIsRelevant(pool, threshold);
    if CountAtLeast(pool, threshold) > 0 { RoundedCount(CountAtLeast(top, threshold), CountAtLeast(pool, threshold)); }
  }

  lemma PrecisionInUnitIff(log2: nat -> real, top: seq<real>, pool: seq<real>, topK: int, threshold: real)
    requires LogLike(log2) && top != []
    ensures 0.0 <= ComputeMetrics(log2, top, pool, topK, threshold).precision <= 1.0 <==>
            var denom := if topK < |top| then topK else |top|;
            denom <= 0 || |Relevant(top, threshold)| * 20000 <= 20001 * denom
  {
    hide Round4;
    CountIsRelevant(top, threshold);
    var denom := if topK < |top| then topK else |top|;
    if denom > 0 { RoundedCount(CountAtLeast(top, threshold), denom); }
  }

  lemma CoherenceInUnitIff(log2: nat -> real, top: seq<real>, pool: seq<real>, topK: int, threshold: real)
    requires LogLike(log2) && top != []
    ensures 0.0 <= ComputeMetrics(log2, top, pool, topK, threshold).coherence <= 1.0 <==>
            -(|top| as real) <= Sum(top) * 20000.0 <= 20001.0 * |top| as real
  {
    hide Round4;
    RoundedRatio(Sum(top), |top| as real);
  }

  /** NDCG never exceeds 1, whatever the signs; it falls below 0 exactly when the ideal sum is positive and the
      actual one negative beyond rounding. */
  lemma NdcgInUnitIff(log2: nat -> real, top: seq<real>, pool: seq<real>, topK: int, threshold: real)
    requires LogLike(log2) && top != []
    ensures ComputeMetrics(log2, top, pool, topK, threshold).ndcg <= 1.0
    ensures 0.0 <= ComputeMetrics(log2, top, pool, topK, threshold).ndcg <==>
            var ideal := Dcg(log2, SortedDown(top), 1); ideal <= 0.0 || Dcg(log2, top, 1) * 20000.0 >= -ideal
  {
    hide Round4;
    var dcg, idcg := Dcg(log2, top, 1), Dcg(log2, SortedDown(top), 1);
    SortedDownIsIdeal(top);
    Rearrangement(log2, top, 1);
    if idcg > 0.0 {
      Ratio(dcg, idcg);
      Round4Monotone(dcg / idcg, 1.0);
      Round4FixesUnit();
      RoundedRatio(dcg, idcg);
    }
  }

  /** Lists on which recall, precision, coherence and NDCG leave [0, 1]. */
  lemma RecallEscapes(log2: nat -> real)
    requires LogLike(log2)
    ensures !(0.0 <= ComputeMetrics(log2, [1.0, 1.0], [1.0], 2, 0.5).recall <= 1.0)
  {
    hide ComputeMetrics;
    RecallInUnitIff(log2, [1.0, 1.0], [1.0], 2, 0.5);
    assert Relevant([1.0, 1.0], 0.5) == {0, 1} && Relevant([1.0], 0.5) == {0};
  }

  lemma PrecisionEscapes(log2: nat -> real)
    requires LogLike(log2)
    ensures !(0.0 <= ComputeMetrics(log2, [1.0, 1.0], [1.0, 1.0], 1, 0.5).precision <= 1.0)
  {
    hide ComputeMetrics;
    PrecisionInUnitIff(log2, [1.0, 1.0], [1.0, 1.0], 1, 0.5);
    assert Relevant([1.0, 1.0], 0.5) == {0, 1} && Relevant([1.0], 0.5) == {0};
  }

  lemma CoherenceEscapes(log2: nat -> real)
    requires LogLike(log2)
    ensures !(0.0 <= ComputeMetrics(log2, [5.0], [5.0], 1, 0.5).coherence <= 1.0)
  {
    hide ComputeMetrics;
    CoherenceInUnitIff(log2, [5.0], [5.0], 1, 0.5);
    assert Sum([5.0]) == 5.0;
  }

  /** The values of the binary logarithm at 2 and 3 are all that matters here. */
  lemma NdcgEscapes(log2: nat -> real)
    requires LogLike(log2) && log2(2) == 1.0 && 1.58 < log2(3) < 1.59
    ensures ComputeMetrics(log2, [-3.0, 2.0], [-3.0, 2.0], 2, 0.5).ndcg < 0.0
  {
    hide ComputeMetrics;
    hide Dcg;
    var top, ideal := [-3.0, 2.0], [2.0, -3.0];
    NdcgInUnitIff(log2, top, top, 2, 0.5);
    assert SortedDown(top) == ideal by {
      SortedDownIsIdeal(top);
      assert top[1..] == [2.0] && Ideal([2.0]) == [2.0];
    }
    DcgOfTwo(log2, -3.0, 2.0);
    DcgOfTwo(log2, 2.0, -3.0);
    ThirdRank(log2(3));
  }

  lemma DcgOfTwo(log2: nat -> real, x: real, y: real)
    requires LogLike(log2) && log2(2) == 1.0
    ensures Dcg(log2, [x, y], 1) == x + y / log2(3)
  {
    assert [x, y][1..] == [y] && x / 1.0 == x;
    assert Dcg(log2, [y], 2) == y / log2(3) + Dcg(log2, [y][1..], 3);
  }

  lemma ThirdRank(l: real)
    requires 1.58 < l < 1.59
    ensures 0.0 < 2.0 + (-3.0) / l && (-3.0 + 2.0 / l) * 20000.0 < -(2.0 + (-3.0) / l)
  {
    var p := 1.0 / l;
    assert p * l == 1.0;
    Cancel(p, l, 1.0, 0.62);
    Cancel(p, l, 1.0, 0.64);
    assert 2.0 / l == 2.0 * p && (-3.0) / l == -3.0 * p;
  }

  // ---- The search path as a whole

  /** Dedup, normalise over the whole pool, return the first `topK`, measure; an explore fallback is not measured. */
  function SearchMetrics(log2: nat -> real, items: seq<Item>, minmax: bool, topK: int, explore: bool,
                         threshold: real): Metrics
    requires LogLike(log2)
  {
    var pool := Normalise(Scores(Dedup(items, {})), minmax);
    if explore then ComputeMetrics(log2, [], [], topK, threshold)
    else ComputeMetrics(log2, SliceTo(pool, topK), pool, topK, threshold)
  }

  lemma {:induction false} SumBounds(s: seq<real>)
    requires forall x | x in s :: 0.0 <= x <= 1.0
    ensures 0.0 <= Sum(s) <= |s| as real
  {
    if s != [] {
      forall x | x in s[1..] ensures x in s {}
      assert s[0] in s;
      SumBounds(s[1..]);
    }
  }

  lemma NormaliseInUnit(raw: seq<real>, minmax: bool)
    requires minmax || forall s | s in raw :: s >= 0.0
    ensures forall x | x in Normalise(raw, minmax) :: 0.0 <= x <= 1.0
  {
    if raw != [] {
      if minmax {
        forall x | x in Normalise(raw, true) ensures 0.0 <= x <= 1.0 { MinMaxInUnit(raw, x); }
      } else {
        MaxModeInUnitIff(raw);
      }
    }
  }

  lemma NormaliseDescending(raw: seq<real>, minmax: bool)
    requires Descending(raw)
    ensures Descending(Normalise(raw, minmax))
  {
    forall i, j | 0 <= i < j < |raw| ensures Normalise(raw, minmax)[i] >= Normalise(raw, minmax)[j] {
      NormaliseKeepsOrder(raw, minmax, j, i);
    }
  }

  /** The best score becomes 1, or 0: in `max` mode 1 when it is positive, in `minmax` mode also when it is not the only
      value. */
  lemma NormaliseHead(raw: seq<real>, minmax: bool)
    requires raw != [] && Descending(raw)
    ensures Normalise(raw, minmax)[0] ==
            if raw[0] > 0.0 || (minmax && raw[0] > raw[|raw| - 1]) then 1.0 else 0.0
  {
    HeadIsMax(raw);
    LastIsMin(raw);
    Round4FixesUnit();
    var lo := raw[|raw| - 1];
    assert raw[0] >= lo;
    if minmax && raw[0] - lo > 0.0 { SelfRatio(raw[0] - lo); }
    if !minmax && raw[0] > 0.0 { SelfRatio(raw[0]); }
  }

  /** On a list sorted from the top NDCG is 1 or 0, whatever the signs. */
  lemma SortedNdcg(log2: nat -> real, top: seq<real>, pool: seq<real>, topK: int, threshold: real)
    requires LogLike(log2) && Descending(top)
    ensures ComputeMetrics(log2, top, pool, topK, threshold).ndcg ==
            if Dcg(log2, top, 1) > 0.0 then 1.0 else 0.0
  {
    SortedDownIsIdeal(top);
    DescendingIsIdeal(top);
    if Dcg(log2, top, 1) > 0.0 {
      SelfRatio(Dcg(log2, top, 1));
      Round4FixesUnit();
    }
  }

  /** What a non-empty beginning of a sorted list of unit values inherits. */
  lemma SlicedScores(pool: seq<real>, top: seq<real>)
    requires top != [] && top <= pool && Descending(pool) && forall x | x in pool :: 0.0 <= x <= 1.0
    ensures Descending(top) && (forall x | x in top :: 0.0 <= x <= 1.0)
    ensures SomePositive(top) <==> pool[0] > 0.0
  {
    forall i | 0 <= i < |top| ensures top[i] == pool[i] && top[i] in pool && top[i] <= pool[0] {}
    if pool[0] > 0.0 { assert top[0] in top; }
  }

  /** The deduplicated pool of a sorted one: sorted, headed by the best score. */
  lemma KeptScores(items: seq<Item>)
    requires items != [] && BestFirst(items)
    ensures var raw := Scores(Dedup(items, {}));
            && raw != [] && Descending(raw) && raw[0] == items[0].score
            && forall s | s in raw :: exists i :: i in items && i.score == s
  {
    var kept := Dedup(items, {});
    var raw := Scores(kept);
    assert kept != [] && kept[0] == items[0];
    assert BestFirst(kept) by { DedupKeepsBest(items); }
    forall s | s in raw ensures exists i :: i in items && i.score == s {
      var n :| 0 <= n < |raw| && raw[n] == s;
      DedupMember(items, n);
    }
  }

  lemma DedupMember(items: seq<Item>, n: nat)
    requires n < |Dedup(items, {})|
    ensures Dedup(items, {})[n] in items
  {
    hide Subsequence;
    DedupSubsequence(items, {});
    assert Dedup(items, {})[n] in Dedup(items, {});
  }

  /** Main result on the search path, for any sorted pool: recall and precision lie in [0, 1], and NDCG carries no
      information: it is 1 or 0. */
  lemma SearchPathMetrics(log2: nat -> real, items: seq<Item>, minmax: bool, topK: int, threshold: real)
    requires LogLike(log2) && items != [] && BestFirst(items) && topK >= 0
    ensures var m := SearchMetrics(log2, items, minmax, topK, false, threshold);
            && 0.0 <= m.recall <= 1.0 && 0.0 <= m.precision <= 1.0 && (m.ndcg == 0.0 || m.ndcg == 1.0)
  {
    var raw := Scores(Dedup(items, {}));
    KeptScores(items);
    var pool := Normalise(raw, minmax);
    NormaliseDescending(raw, minmax);
    RecallPrecisionInUnit(log2, pool, topK, threshold);
    var top := SliceTo(pool, topK);
    assert Descending(top);
    SortedNdcg(log2, top, pool, topK, threshold);
  }

  lemma UnitCoherence(log2: nat -> real, top: seq<real>, pool: seq<real>, topK: int, threshold: real)
    requires LogLike(log2) && top != [] && forall x | x in top :: 0.0 <= x <= 1.0
    ensures 0.0 <= ComputeMetrics(log2, top, pool, topK, threshold).coherence <= 1.0
  {
    hide Round4;
    SumBounds(top);
    RatioIsOne(Sum(top), |top| as real);
    Round4Unit(Sum(top) / |top| as real);
  }

  /** In `minmax` mode whatever the signs, and in `max` mode for scores that are not negative, coherence lies in
      [0, 1] as well, and NDCG tells only whether the best score is positive (or, in `minmax` mode, not the only
      value). */
  lemma SearchPathUnit(log2: nat -> real, items: seq<Item>, minmax: bool, topK: int, threshold: real)
    requires LogLike(log2) && items != [] && BestFirst(items) && topK >= 1
    requires minmax || forall i | i in items :: i.score >= 0.0
    ensures var m := SearchMetrics(log2, items, minmax, topK, false, threshold);
            var raw := Scores(Dedup(items, {}));
            && raw != [] && 0.0 <= m.coherence <= 1.0
            && m.ndcg == if raw[0] > 0.0 || (minmax && raw[0] > raw[|raw| - 1]) then 1.0 else 0.0
  {
    var raw := Scores(Dedup(items, {}));
    KeptScores(items);
    var pool := Normalise(raw, minmax);
    var top := SliceTo(pool, topK);
    NormaliseInUnit(raw, minmax);
    NormaliseDescending(raw, minmax);
    NormaliseHead(raw, minmax);
    hide Normalise;
    hide ComputeMetrics;
    hide Dcg;
    SlicedScores(pool, top);
    UnitCoherence(log2, top, pool, topK, threshold);
    SortedNdcg(log2, top, pool, topK, threshold);
    DcgSign(log2, top, 1);
  }
}
