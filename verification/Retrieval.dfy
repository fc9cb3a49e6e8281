/** Scores on their way out of the search (packages/semantic-search/semantic_search/app.py): one entry per domain, and
    normalisation. */
module Retrieval {
  import opened Common
  import opened Reals

  // ---- One entry per domain

  /** A pool item: its lower-cased domain name (empty when it has none) and its fused score. */
  datatype Item = Item(domain: string, score: real)

  function Dedup(items: seq<Item>, seen: set<string>): seq<Item> {
    if items == [] then []
    else if items[0].domain != "" && items[0].domain in seen then Dedup(items[1..], seen)
    else [items[0]] + Dedup(items[1..], if items[0].domain == "" then seen else seen + {items[0].domain})
  }

  method DedupDomains(items: seq<Item>) returns (kept: seq<Item>)
    ensures kept == Dedup(items, {})
  {
    var seen: set<string> := {};
    kept := [];
    for i := 0 to |items|
      invariant kept + Dedup(items[i..], seen) == Dedup(items, {})
    {
      var c := items[i];
      assert items[i..][0] == c && items[i..][1..] == items[i + 1..];
      if c.domain != "" && c.domain in seen { continue; }
      ghost var before := seen;
      if c.domain != "" { seen := seen + {c.domain}; }
      assert Dedup(items[i..], before) == [c] + Dedup(items[i + 1..], seen);
      kept := kept + [c];
    }
  }

  /** `a` arises from `b` by leaving elements out. */
  predicate Subsequence<T(==)>(a: seq<T>, b: seq<T>) {
    a == [] || (b != [] && ((a[0] == b[0] && Subsequence(a[1..], b[1..])) || Subsequence(a, b[1..])))
  }

  ghost predicate Descending(s: seq<real>) {
    forall i, j | 0 <= i < j < |s| :: s[i] >= s[j]
  }

  function Scores(items: seq<Item>): seq<real> {
    MapSeq((i: Item) => i.score, items)
  }

  lemma {:induction false} DedupSubsequence(items: seq<Item>, seen: set<string>)
    ensures Subsequence(Dedup(items, seen), items)
    ensures forall k | k in Dedup(items, seen) :: k in items && (k.domain == "" || k.domain !in seen)
  {
    if items != [] {
      var c := items[0];
      DedupSubsequence(items[1..], seen);
      DedupSubsequence(items[1..], if c.domain == "" then seen else seen + {c.domain});
      var tail := Dedup(items[1..], if c.domain == "" then seen else seen + {c.domain});
      assert ([c] + tail)[1..] == tail;
    }
  }

  lemma DedupFresh(items: seq<Item>, seen: set<string>, j: nat)
    requires j < |Dedup(items, seen)|
    ensures Dedup(items, seen)[j].domain == "" || Dedup(items, seen)[j].domain !in seen
  {
    hide *;
    DedupSubsequence(items, seen);
    assert Dedup(items, seen)[j] in Dedup(items, seen);
  }

  lemma DedupOnce(items: seq<Item>, seen: set<string>)
    requires items != []
    ensures var d := items[0].domain;
            Dedup(items, seen) == if d != "" && d in seen then Dedup(items[1..], seen)
                                  else [items[0]] + Dedup(items[1..], if d == "" then seen else seen + {d})
  {}

  /** No domain is kept twice. */
  lemma {:induction false} DedupUnique(items: seq<Item>, seen: set<string>, i: nat, j: nat)
    requires i < j < |Dedup(items, seen)| && Dedup(items, seen)[i].domain != ""
    ensures Dedup(items, seen)[i].domain != Dedup(items, seen)[j].domain
    decreases |items|
  {
    var c := items[0];
    hide *;
    DedupOnce(items, seen);
    if c.domain != "" && c.domain in seen {
      DedupUnique(items[1..], seen, i, j);
    } else {
      var seen' := if c.domain == "" then seen else seen + {c.domain};
      if i == 0 {
        DedupFresh(items[1..], seen', j - 1);
      } else {
        DedupUnique(items[1..], seen', i - 1, j - 1);
      }
    }
  }

  /** The first item of each domain represents it, and items without a domain all stay. */
  lemma {:induction false} DedupRepresents(items: seq<Item>, seen: set<string>, n: nat) returns (m: nat)
    requires n < |items| && (items[n].domain == "" || items[n].domain !in seen)
    ensures m <= n && items[m] in Dedup(items, seen) && items[m].domain == items[n].domain
    ensures items[n].domain == "" ==> m == n
    decreases |items|
  {
    var c := items[0];
    if n == 0 || (c.domain != "" && c.domain == items[n].domain) {
      m := 0;
    } else {
      var seen' := if c.domain == "" || c.domain in seen then seen else seen + {c.domain};
      var k := DedupRepresents(items[1..], seen', n - 1);
      m := k + 1;
      assert items[m] == items[1..][k];
    }
  }

  ghost predicate BestFirst(items: seq<Item>) {
    forall i, j | 0 <= i < j < |items| :: items[i].score >= items[j].score
  }

  lemma {:induction false} SubsequenceMembers<T>(a: seq<T>, b: seq<T>)
    requires Subsequence(a, b)
    ensures forall x | x in a :: x in b
    decreases |b|
  {
    if a != [] {
      if a[0] == b[0] && Subsequence(a[1..], b[1..]) {
        SubsequenceMembers(a[1..], b[1..]);
        forall x | x in a ensures x in b { assert x == a[0] || x in a[1..]; }
      } else {
        SubsequenceMembers(a, b[1..]);
      }
    }
  }

  lemma {:induction false} SubsequenceBestFirst(a: seq<Item>, b: seq<Item>)
    requires Subsequence(a, b) && BestFirst(b)
    ensures BestFirst(a)
    decreases |b|
  {
    if a != [] {
      assert BestFirst(b[1..]);
      if a[0] == b[0] && Subsequence(a[1..], b[1..]) {
        SubsequenceBestFirst(a[1..], b[1..]);
        SubsequenceMembers(a[1..], b[1..]);
        forall j | 0 < j < |a| ensures a[0].score >= a[j].score {
          assert a[j] == a[1..][j - 1] && a[j] in a[1..];
        }
        forall i, j | 0 < i < j < |a| ensures a[i].score >= a[j].score {
          assert a[1..][i - 1].score >= a[1..][j - 1].score;
        }
      } else {
        SubsequenceBestFirst(a, b[1..]);
      }
    }
  }

  /** Main result on the per-domain filter, for a pool sorted by score: what is kept is a subsequence, still sorted,
      with no domain twice; every item without a domain is kept; and every domain is represented, by an entry whose
      score is the best of that domain. */
  lemma DedupKeepsBest(items: seq<Item>)
    requires BestFirst(items)
    ensures var kept := Dedup(items, {});
            && Subsequence(kept, items) && BestFirst(kept)
            && (forall i, j | 0 <= i < j < |kept| && kept[i].domain != "" :: kept[i].domain != kept[j].domain)
            && (forall x | x in items && x.domain == "" :: x in kept)
            && (forall x | x in items :: exists k :: k in kept && k.domain == x.domain && k.score >= x.score)
  {
    var kept := Dedup(items, {});
    DedupSubsequence(items, {});
    SubsequenceBestFirst(kept, items);
    forall i, j | 0 <= i < j < |kept| && kept[i].domain != "" ensures kept[i].domain != kept[j].domain {
      DedupUnique(items, {}, i, j);
    }
    forall x | x in items
      ensures (exists k :: k in kept && k.domain == x.domain && k.score >= x.score) && (x.domain == "" ==> x in kept)
    {
      var n :| 0 <= n < |items| && items[n] == x;
      var m := DedupRepresents(items, {}, n);
      assert m == n || items[m].score >= items[n].score;
      assert items[m] in kept;
    }
  }

  // ---- Normalisation

  /** One score under the chosen mode, given the extremes of the list. */
  function NormOne(minmax: bool, lo: real, hi: real, s: real): real {
    if minmax then
      if hi - lo <= 0.0 then (if hi > 0.0 then 1.0 else 0.0) else Round4((s - lo) / (hi - lo))
    else Round4(if hi > 0.0 then s / hi else 0.0)
  }

  function Normalise(raw: seq<real>, minmax: bool): (r: seq<real>)
    ensures |r| == |raw|
  {
    if raw == [] then []
    else
      var lo, hi := MinOf(raw), MaxOf(raw);
      MapSeq(s => NormOne(minmax, lo, hi, s), raw)
  }

  lemma NormOneMonotone(minmax: bool, lo: real, hi: real, s: real, t: real)
    requires s <= t
    ensures NormOne(minmax, lo, hi, s) <= NormOne(minmax, lo, hi, t)
  {
    if minmax {
      if hi - lo > 0.0 {
        QuotientMonotone(s - lo, t - lo, hi - lo);
        Round4Monotone((s - lo) / (hi - lo), (t - lo) / (hi - lo));
      }
    } else if hi > 0.0 {
      QuotientMonotone(s, t, hi);
      Round4Monotone(s / hi, t / hi);
    }
  }

  /** Normalising never reorders. */
  lemma NormaliseKeepsOrder(raw: seq<real>, minmax: bool, i: nat, j: nat)
    requires i < |raw| && j < |raw| && raw[i] <= raw[j]
    ensures Normalise(raw, minmax)[i] <= Normalise(raw, minmax)[j]
  {
    NormOneMonotone(minmax, MinOf(raw), MaxOf(raw), raw[i], raw[j]);
  }

  /** In `minmax` mode every value lands in [0, 1]. */
  lemma MinMaxInUnit(raw: seq<real>, x: real)
    requires x in Normalise(raw, true)
    ensures 0.0 <= x <= 1.0
  {
    hide NormOne;
    var r := Normalise(raw, true);
    var i :| 0 <= i < |r| && r[i] == x;
    assert raw[i] in raw;
    MinMaxOneInUnit(MinOf(raw), MaxOf(raw), raw[i]);
  }

  lemma MinMaxOneInUnit(lo: real, hi: real, s: real)
    requires lo <= s <= hi
    ensures 0.0 <= NormOne(true, lo, hi, s) <= 1.0
  {
    hide Round4;
    if hi - lo > 0.0 {
      Ratio(s - lo, hi - lo);
      Round4Unit((s - lo) / (hi - lo));
    }
  }

  lemma RatioAboveStep(a: real, b: real)
    requires b > 0.0
    ensures a * 20000.0 >= -b <==> a / b >= -0.00005
  {
    var q := a / b;
    assert q * b == a;
    var t := q + 0.00005;
    assert t * b == a + 0.00005 * b;
    assert t >= 0.0 <==> t * b >= 0.0;
  }

  /** In `max` mode every value lands in [0, 1] exactly when no score is more than a rounding step below zero (or
      none is positive, and everything becomes 0). */
  lemma MaxModeInUnitIff(raw: seq<real>)
    requires raw != []
    ensures (forall x | x in Normalise(raw, false) :: 0.0 <= x <= 1.0)
            <==> MaxOf(raw) <= 0.0 || forall s | s in raw :: s * 20000.0 >= -MaxOf(raw)
  {
    var hi := MaxOf(raw);
    var r := Normalise(raw, false);
    forall i | 0 <= i < |r| ensures r[i] <= 1.0 && (r[i] >= 0.0 <==> hi <= 0.0 || raw[i] * 20000.0 >= -hi) {
      assert raw[i] in raw;
      MaxModeOne(raw[i], hi);
    }
    if forall x | x in r :: 0.0 <= x <= 1.0 {
      forall s | s in raw && hi > 0.0 ensures s * 20000.0 >= -hi {
        var i :| 0 <= i < |raw| && raw[i] == s;
        assert r[i] in r;
      }
    } else {
      var x :| x in r && !(0.0 <= x <= 1.0);
      var i :| 0 <= i < |r| && r[i] == x;
      assert raw[i] in raw;
    }
  }

  /** One score below zero by more than that is enough. */
  lemma MaxModeWitness()
    ensures Normalise([1.0, -1.0], false) == [1.0, -1.0]
  {
    var raw := [1.0, -1.0];
    assert MaxOf(raw) == 1.0 by { assert 1.0 in raw; }
    Round4FixesUnit();
    var n := RoundHalfEven(-10000.0);
    assert n as real - 0.5 <= -10000.0 <= n as real + 0.5;
  }

  lemma MaxModeOne(s: real, hi: real)
    requires s <= hi
    ensures var r := NormOne(false, 0.0, hi, s);
            r <= 1.0 && (r >= 0.0 <==> hi <= 0.0 || s * 20000.0 >= -hi)
  {
    Round4FixesUnit();
    if hi > 0.0 {
      Ratio(s, hi);
      RatioAboveStep(s, hi);
      Round4Monotone(s / hi, 1.0);
      Round4Sign(s / hi);
    }
  }

  lemma Round4Sign(x: real)
    ensures Round4(x) >= 0.0 <==> x >= -0.00005
  {
    var n := RoundHalfEven(x * 10000.0);
    assert n as real - 0.5 <= x * 10000.0 <= n as real + 0.5;
  }

  /** On a pool sorted by score the `max` mode may be applied before or after taking the first `k` results. */
  lemma MaxModePrefix(raw: seq<real>, k: nat)
    requires Descending(raw) && k <= |raw|
    ensures Normalise(raw[..k], false) == Normalise(raw, false)[..k]
  {
    if k > 0 {
      HeadIsMax(raw);
      HeadIsMax(raw[..k]);
    }
  }

  lemma HeadIsMax(raw: seq<real>)
    requires raw != [] && Descending(raw)
    ensures MaxOf(raw) == raw[0]
  {
    var m := MaxOf(raw);
    var i :| 0 <= i < |raw| && raw[i] == m;
    assert raw[0] in raw;
  }

  // ---- The same question for the `minmax` mode

  /** One score under `minmax` before rounding. */
  function SpreadOne(lo: real, hi: real, s: real): real {
    if hi - lo <= 0.0 then (if hi > 0.0 then 1.0 else 0.0) else (s - lo) / (hi - lo)
  }

  function Spread(raw: seq<real>): (r: seq<real>)
    ensures |r| == |raw|
  {
    if raw == [] then []
    else
      var lo, hi := MinOf(raw), MaxOf(raw);
      MapSeq(s => SpreadOne(lo, hi, s), raw)
  }

  lemma NormIsRounded(lo: real, hi: real, s: real)
    ensures NormOne(true, lo, hi, s) == Round4(SpreadOne(lo, hi, s))
  {
    Round4FixesUnit();
  }

  lemma SpreadOneFacts(lo: real, hi: real, s: real)
    requires lo < hi
    ensures SpreadOne(lo, hi, hi) == 1.0 && SpreadOne(lo, hi, lo) == 0.0
    ensures s > lo ==> SpreadOne(lo, hi, s) > 0.0
    ensures (s - lo) * 20000.0 > hi - lo ==> SpreadOne(lo, hi, s) > 0.00005
    ensures (s - lo) * 20000.0 <= hi - lo ==> SpreadOne(lo, hi, s) <= 0.00005
    ensures s >= lo ==> SpreadOne(lo, hi, s) >= 0.0
  {
    var d, q := hi - lo, SpreadOne(lo, hi, s);
    SelfRatio(d);
    assert q * d == s - lo;
    Cancel(q, d, s - lo, 0.00005);
    Cancel(q, d, s - lo, 0.0);
    assert (lo - lo) / d == 0.0;
  }

  lemma Cancel(q: real, d: real, a: real, bound: real)
    requires d > 0.0 && q * d == a
    ensures q > bound <==> a > bound * d
    ensures q == bound <==> a == bound * d
  {
    if q > bound { Gap(q - bound, d); }
    if q < bound { Gap(bound - q, d); }
  }

  lemma LastIsMin(raw: seq<real>)
    requires raw != [] && Descending(raw)
    ensures MinOf(raw) == raw[|raw| - 1]
  {
    var m := MinOf(raw);
    var i :| 0 <= i < |raw| && raw[i] == m;
    assert raw[|raw| - 1] in raw;
  }

  /** On a sorted pool the extremes are its ends. */
  lemma SpreadAt(raw: seq<real>, i: nat)
    requires Descending(raw) && i < |raw|
    ensures Spread(raw)[i] == SpreadOne(raw[|raw| - 1], raw[0], raw[i])
    ensures Normalise(raw, true)[i] == Round4(SpreadOne(raw[|raw| - 1], raw[0], raw[i]))
  {
    HeadIsMax(raw);
    LastIsMin(raw);
    NormIsRounded(raw[|raw| - 1], raw[0], raw[i]);
  }

  lemma PrefixAt(raw: seq<real>, k: nat, i: nat)
    requires Descending(raw) && i < k <= |raw|
    ensures Spread(raw[..k])[i] == SpreadOne(raw[k - 1], raw[0], raw[i])
    ensures Normalise(raw[..k], true)[i] == Round4(SpreadOne(raw[k - 1], raw[0], raw[i]))
  {
    hide *;
    assert Descending(raw[..k]) by { PrefixDescending(raw, k); }
    SpreadAt(raw[..k], i);
  }

  lemma PrefixDescending(raw: seq<real>, k: nat)
    requires Descending(raw) && k <= |raw|
    ensures Descending(raw[..k])
  {}

  /** The prefix reaches the pool's minimum, or is level and positive. */
  predicate PrefixSettled(raw: seq<real>, k: nat)
    requires 0 < k <= |raw|
  {
    raw[k - 1] == raw[|raw| - 1] || (raw[0] == raw[k - 1] && raw[0] > 0.0)
  }

  /** A settled prefix spreads like the pool, one that is not differs at its first or its last score. */
  lemma SettledOne(raw: seq<real>, k: nat, i: nat)
    requires Descending(raw) && i < k <= |raw|
    ensures PrefixSettled(raw, k) ==> SpreadOne(raw[k - 1], raw[0], raw[i]) == SpreadOne(raw[|raw| - 1], raw[0], raw[i])
    ensures !PrefixSettled(raw, k) && raw[0] > raw[k - 1] ==>
              SpreadOne(raw[k - 1], raw[0], raw[k - 1]) == 0.0 < SpreadOne(raw[|raw| - 1], raw[0], raw[k - 1])
    ensures !PrefixSettled(raw, k) && raw[0] == raw[k - 1] ==>
              SpreadOne(raw[k - 1], raw[0], raw[0]) == 0.0 && SpreadOne(raw[|raw| - 1], raw[0], raw[0]) == 1.0
  {
    var hi, cut, lo := raw[0], raw[k - 1], raw[|raw| - 1];
    assert hi >= raw[i] >= cut >= lo;
    if hi > lo { SpreadOneFacts(lo, hi, cut); }
    if hi > cut { SpreadOneFacts(cut, hi, cut); }
  }

  /** Exactly when the `minmax` mode may be applied before or after taking the first `k` scores of a sorted pool: before
      rounding, when the prefix reaches the pool's minimum, or is level and positive. */
  lemma MinMaxPrefixIff(raw: seq<real>, k: nat)
    requires Descending(raw) && 0 < k <= |raw|
    ensures Spread(raw[..k]) == Spread(raw)[..k] <==> PrefixSettled(raw, k)
  {
    hide SpreadOne;
    hide PrefixSettled;
    hide Spread;
    forall i | 0 <= i < k
      ensures Spread(raw[..k])[i] == SpreadOne(raw[k - 1], raw[0], raw[i])
      ensures Spread(raw)[i] == SpreadOne(raw[|raw| - 1], raw[0], raw[i])
      ensures PrefixSettled(raw, k) ==> Spread(raw[..k])[i] == Spread(raw)[i]
    {
      PrefixAt(raw, k, i);
      SpreadAt(raw, i);
      SettledOne(raw, k, i);
    }
    assert raw[0] >= raw[k - 1];
    SettledOne(raw, k, 0);
    var p, q := Spread(raw[..k]), Spread(raw)[..k];
    assert !PrefixSettled(raw, k) ==> p[0] != q[0] || p[k - 1] != q[k - 1];
  }

  /** Scores that all round to the same under the two minima. */
  lemma SameRounds(raw: seq<real>, k: nat)
    requires Descending(raw) && 0 < k <= |raw|
    requires forall i | 0 <= i < k ::
               Round4(SpreadOne(raw[k - 1], raw[0], raw[i])) == Round4(SpreadOne(raw[|raw| - 1], raw[0], raw[i]))
    ensures Normalise(raw[..k], true) == Normalise(raw, true)[..k]
  {
    hide *;
    forall i | 0 <= i < k ensures Normalise(raw[..k], true)[i] == Normalise(raw, true)[i] {
      PrefixAt(raw, k, i);
      SpreadAt(raw, i);
    }
  }

  /** For the rounded scores that condition suffices ... */
  lemma MinMaxPrefixSettled(raw: seq<real>, k: nat)
    requires Descending(raw) && 0 < k <= |raw| && PrefixSettled(raw, k)
    ensures Normalise(raw[..k], true) == Normalise(raw, true)[..k]
  {
    hide SpreadOne;
    hide Round4;
    forall i | 0 <= i < k
      ensures SpreadOne(raw[k - 1], raw[0], raw[i]) == SpreadOne(raw[|raw| - 1], raw[0], raw[i])
    {
      SettledOne(raw, k, i);
    }
    SameRounds(raw, k);
  }

  /** One score that rounds differently under the two minima is enough. */
  lemma DiffersAt(raw: seq<real>, k: nat, i: nat)
    requires Descending(raw) && i < k <= |raw|
    requires Round4(SpreadOne(raw[k - 1], raw[0], raw[i])) != Round4(SpreadOne(raw[|raw| - 1], raw[0], raw[i]))
    ensures Normalise(raw[..k], true) != Normalise(raw, true)[..k]
  {
    hide *;
    PrefixAt(raw, k, i);
    SpreadAt(raw, i);
    assert Normalise(raw, true)[..k][i] == Normalise(raw, true)[i];
  }

  /** ... and a drop below the prefix by more than rounding hides always shows. */
  lemma MinMaxPrefixBreaks(raw: seq<real>, k: nat)
    requires Descending(raw) && 0 < k <= |raw|
    requires raw[0] > raw[k - 1] && (raw[k - 1] - raw[|raw| - 1]) * 20000.0 > raw[0] - raw[|raw| - 1]
    ensures Normalise(raw[..k], true) != Normalise(raw, true)[..k]
  {
    assert raw[k - 1] >= raw[|raw| - 1];
    PlainDrop(raw[k - 1], raw[|raw| - 1], raw[0]);
    DiffersAt(raw, k, k - 1);
  }

  lemma PlainDrop(cut: real, lo: real, hi: real)
    requires lo <= cut < hi && (cut - lo) * 20000.0 > hi - lo
    ensures Round4(SpreadOne(cut, hi, cut)) != Round4(SpreadOne(lo, hi, cut))
  {
    SpreadOneFacts(cut, hi, cut);
    SpreadOneFacts(lo, hi, cut);
    Round4FixesUnit();
    Round4Positive(SpreadOne(lo, hi, cut));
  }

  /** A score half a rounding step above the prefix minimum is more than half a step above the pool minimum. */
  lemma HalfStepDrop(cut: real, lo: real, hi: real, mid: real)
    requires lo < cut < hi && mid == cut + (hi - cut) / 20000.0
    ensures cut <= mid <= hi && Round4(SpreadOne(cut, hi, mid)) != Round4(SpreadOne(lo, hi, mid))
  {
    SpreadOneFacts(cut, hi, mid);
    SpreadOneFacts(lo, hi, mid);
    Round4Positive(SpreadOne(cut, hi, mid));
    Round4Positive(SpreadOne(lo, hi, mid));
  }

  lemma Round4Positive(x: real)
    ensures x > 0.00005 ==> Round4(x) > 0.0
    ensures 0.0 <= x <= 0.00005 ==> Round4(x) == 0.0
  {
    var n := RoundHalfEven(x * 10000.0);
    assert n as real + 0.5 >= x * 10000.0 >= n as real - 0.5;
    assert (0.5).Floor == 0;
  }

  /** Sorted pools of one length that share the best score, the last of the first `k` and the last of all. */
  ghost predicate SameEnds(raw: seq<real>, other: seq<real>, k: nat)
    requires 0 < k <= |raw|
  {
    |other| == |raw| && Descending(other)
    && other[0] == raw[0] && other[k - 1] == raw[k - 1] && other[|raw| - 1] == raw[|raw| - 1]
  }

  /** With a score in between, the condition is exact for the rounded scores too: if it fails, some pool with the
      same ends comes out different. */
  lemma MinMaxPrefixRoundedIff(raw: seq<real>, k: nat)
    requires Descending(raw) && 3 <= k <= |raw|
    ensures (forall other | SameEnds(raw, other, k) :: Normalise(other[..k], true) == Normalise(other, true)[..k])
            <==> PrefixSettled(raw, k)
  {
    if PrefixSettled(raw, k) {
      forall other | SameEnds(raw, other, k) ensures Normalise(other[..k], true) == Normalise(other, true)[..k] {
        MinMaxPrefixSettled(other, k);
      }
    } else {
      var other := HiddenDrop(raw, k);
    }
  }

  /** The pool with `mid` between the best score and the last of the first `k`. */
  function Padded(raw: seq<real>, k: nat, mid: real): (other: seq<real>)
    requires 3 <= k <= |raw|
    ensures |other| == |raw| && other[0] == raw[0] && other[1] == mid
    ensures forall i | 0 < i < k - 1 :: other[i] == mid
    ensures forall i | k - 1 <= i < |raw| :: other[i] == raw[i]
  {
    seq(|raw|, i requires 0 <= i < |raw| => if 0 < i < k - 1 then mid else raw[i])
  }

  /** A middle score that rounds to 0 above the prefix minimum and to more above the pool minimum. */
  lemma HiddenDrop(raw: seq<real>, k: nat) returns (other: seq<real>)
    requires Descending(raw) && 3 <= k <= |raw| && !PrefixSettled(raw, k)
    ensures SameEnds(raw, other, k) && Normalise(other[..k], true) != Normalise(other, true)[..k]
  {
    var hi, cut, lo := raw[0], raw[k - 1], raw[|raw| - 1];
    assert hi >= cut >= lo;
    if hi == cut {
      other := raw;
      SettledOne(raw, k, 0);
      Round4FixesUnit();
      DiffersAt(raw, k, 0);
    } else {
      var mid := cut + (hi - cut) / 20000.0;
      HalfStepDrop(cut, lo, hi, mid);
      other := Padded(raw, k, mid);
      assert Descending(other);
      DiffersAt(other, k, 1);
    }
  }

  /** A prefix of one or two scores has nothing in between: for each pool the rounded scores agree exactly when the
      prefix is settled or the drop below it is no more than rounding hides. */
  lemma MinMaxShortPrefixIff(raw: seq<real>, k: nat)
    requires Descending(raw) && 1 <= k <= 2 && k <= |raw|
    ensures Normalise(raw[..k], true) == Normalise(raw, true)[..k] <==>
            || PrefixSettled(raw, k)
            || (raw[0] > raw[k - 1] && (raw[k - 1] - raw[|raw| - 1]) * 20000.0 <= raw[0] - raw[|raw| - 1])
  {
    var hi, cut, lo := raw[0], raw[k - 1], raw[|raw| - 1];
    assert hi >= cut >= lo;
    if PrefixSettled(raw, k) {
      MinMaxPrefixSettled(raw, k);
    } else if hi == cut {
      SettledOne(raw, k, 0);
      Round4FixesUnit();
      DiffersAt(raw, k, 0);
    } else if (cut - lo) * 20000.0 > hi - lo {
      MinMaxPrefixBreaks(raw, k);
    } else {
      HiddenDropAgrees(raw);
    }
  }

  lemma HiddenDropAgrees(raw: seq<real>)
    requires Descending(raw) && |raw| >= 2 && raw[0] > raw[1]
    requires (raw[1] - raw[|raw| - 1]) * 20000.0 <= raw[0] - raw[|raw| - 1]
    ensures Normalise(raw[..2], true) == Normalise(raw, true)[..2]
  {
    SmallDrop(raw[1], raw[|raw| - 1], raw[0]);
    SameRounds(raw, 2);
  }

  lemma SmallDrop(cut: real, lo: real, hi: real)
    requires lo <= cut < hi && (cut - lo) * 20000.0 <= hi - lo
    ensures Round4(SpreadOne(cut, hi, hi)) == Round4(SpreadOne(lo, hi, hi))
    ensures Round4(SpreadOne(cut, hi, cut)) == Round4(SpreadOne(lo, hi, cut))
  {
    SpreadOneFacts(cut, hi, cut);
    SpreadOneFacts(lo, hi, cut);
    Round4FixesUnit();
    Round4Positive(SpreadOne(lo, hi, cut));
  }

  /** A pool on which the two orders of doing things differ. */
  lemma MinMaxPrefixWitness()
    ensures Descending([3.0, 2.0, 1.0])
    ensures Normalise([3.0, 2.0, 1.0][..2], true) != Normalise([3.0, 2.0, 1.0], true)[..2]
  {
    MinMaxPrefixBreaks([3.0, 2.0, 1.0], 2);
  }
}
