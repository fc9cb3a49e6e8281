/** Runtime statistics per model from feedback signals (packages/llm-core/llm_core/signal_adapter.py). */
module SignalAdapter {
  import opened Common
  import opened Reals
  import StableSort

  // ---- The interpolated percentile

  function SortedUp(values: seq<real>): (r: seq<real>)
    ensures |r| == |values|
  {
    StableSort.SortPermutes(Less(), values);
    StableSort.SameMembers(StableSort.Sort(Less(), values), values);
    StableSort.Sort(Less(), values)
  }

  function Percentile(values: seq<real>, pct: real): (r: Option<real>)
    requires 0.0 <= pct <= 1.0
    ensures r.None? <==> values == []
  {
    if values == [] then None else Some(Interpolate(SortedUp(values), pct))
  }

  /** The rank `pct` falls on, counted from 0: its whole part. */
  function RankBelow(n: nat, pct: real): (f: nat)
    requires n >= 1 && 0.0 <= pct <= 1.0
    ensures f < n && f as real <= (n - 1) as real * pct < f as real + 1.0
  {
    var k := (n - 1) as real * pct;
    assert 0.0 <= k <= (n - 1) as real by { Scaled((n - 1) as real, pct); }
    Truncate(k)
  }

  lemma Scaled(x: real, pct: real)
    requires x >= 0.0 && 0.0 <= pct <= 1.0
    ensures 0.0 <= x * pct <= x
  {}

  function Interpolate(s: seq<real>, pct: real): real
    requires s != [] && 0.0 <= pct <= 1.0
  {
    if |s| == 1 then s[0]
    else
      var k := (|s| - 1) as real * pct;
      var f := RankBelow(|s|, pct);
      var c := if f + 1 < |s| - 1 then f + 1 else |s| - 1;
      if f == c then s[f] else s[f] + (s[c] - s[f]) * (k - f as real)
  }

  /** Interpolation between two different ranks, spelled out. */
  lemma InterpolateAt(s: seq<real>, pct: real, f: nat)
    requires s != [] && 0.0 <= pct <= 1.0 && f == RankBelow(|s|, pct) && f + 1 < |s|
    ensures Interpolate(s, pct) == s[f] + (s[f + 1] - s[f]) * ((|s| - 1) as real * pct - f as real)
  {}

  ghost predicate Ascending(s: seq<real>) {
    forall i, j | 0 <= i < j < |s| :: s[i] <= s[j]
  }

  lemma SortedUpAscends(values: seq<real>)
    ensures Ascending(SortedUp(values)) && multiset(SortedUp(values)) == multiset(values)
  {
    StableSort.SortPermutes(Less(), values);
    StableSort.SortFullySorted(Less(), values);
    var s := SortedUp(values);
    forall i, j | 0 <= i < j < |s| ensures s[i] <= s[j] { assert !Less()(s[j], s[i]); }
  }

  /** A point between two values. */
  lemma Between(a: real, b: real, t: real, u: real)
    requires a <= b && 0.0 <= t <= u <= 1.0
    ensures a <= a + (b - a) * t <= a + (b - a) * u <= b
  {
    var d := b - a;
    Product(d, t);
    Product(d, u - t);
    Product(d, 1.0 - u);
    assert d * u == d * t + d * (u - t) && d == d * u + d * (1.0 - u);
  }

  /** The result lies between the order statistics on either side of its rank. */
  lemma InterpolateBetween(s: seq<real>, pct: real)
    requires s != [] && 0.0 <= pct <= 1.0 && Ascending(s)
    ensures var f := RankBelow(|s|, pct);
            var c := if f + 1 < |s| then f + 1 else f;
            s[f] <= Interpolate(s, pct) <= s[c]
  {
    if |s| > 1 {
      var k := (|s| - 1) as real * pct;
      var f := RankBelow(|s|, pct);
      if f + 1 < |s| { Between(s[f], s[f + 1], k - f as real, k - f as real); }
    }
  }

  lemma RanksMonotone(n: nat, p: real, q: real)
    requires n >= 1 && 0.0 <= p <= q <= 1.0
    ensures RankBelow(n, p) <= RankBelow(n, q)
  {
    hide RankBelow;
    var m := (n - 1) as real;
    Product(m, q - p);
    assert m * q == m * p + m * (q - p);
  }

  lemma Offsets(x: real, y: real, f: real)
    requires f <= x <= y < f + 1.0
    ensures 0.0 <= x - f <= y - f <= 1.0
  {}

  lemma InterpolateSameRank(s: seq<real>, p: real, q: real, f: nat)
    requires s != [] && Ascending(s) && 0.0 <= p <= q <= 1.0
    requires f == RankBelow(|s|, p) == RankBelow(|s|, q) && f + 1 < |s|
    ensures Interpolate(s, p) <= Interpolate(s, q)
  {
    hide Interpolate;
    hide RankBelow;
    InterpolateAt(s, p, f);
    InterpolateAt(s, q, f);
    var m := (|s| - 1) as real;
    Product(m, q - p);
    assert m * q == m * p + m * (q - p);
    Offsets(m * p, m * q, f as real);
    Between(s[f], s[f + 1], m * p - f as real, m * q - f as real);
  }

  lemma InterpolateMonotone(s: seq<real>, p: real, q: real)
    requires s != [] && Ascending(s) && 0.0 <= p <= q <= 1.0
    ensures Interpolate(s, p) <= Interpolate(s, q)
  {
    hide Interpolate;
    hide RankBelow;
    var f, g := RankBelow(|s|, p), RankBelow(|s|, q);
    RanksMonotone(|s|, p, q);
    InterpolateBetween(s, p);
    InterpolateBetween(s, q);
    if f < g {
      assert s[f + 1] <= s[g] || f + 1 == g;
    } else if f + 1 < |s| {
      InterpolateSameRank(s, p, q, f);
    }
  }

  /** Main result on the percentile: between its neighbouring order statistics, monotone in the fraction asked for, and
      the same for every arrangement of the values. */
  lemma PercentileMeaning(values: seq<real>, other: seq<real>, p: real, q: real)
    requires values != [] && multiset(values) == multiset(other) && 0.0 <= p <= q <= 1.0
    ensures other != []
    ensures var s := SortedUp(values);
            var f := RankBelow(|s|, p);
            s[f] <= Percentile(values, p).value <= s[if f + 1 < |s| then f + 1 else f]
    ensures Percentile(values, p).value <= Percentile(values, q).value
    ensures Percentile(values, p) == Percentile(other, p)
  {
    hide Interpolate;
    hide RankBelow;
    SortedUpSame(values, other);
    SortedUpAscends(values);
    InterpolateBetween(SortedUp(values), p);
    InterpolateMonotone(SortedUp(values), p, q);
  }

  /** Sorting forgets the arrangement. */
  lemma SortedUpSame(values: seq<real>, other: seq<real>)
    requires multiset(values) == multiset(other)
    ensures SortedUp(values) == SortedUp(other) && |values| == |other|
  {
    assert |multiset(values)| == |values| && |multiset(other)| == |other|;
    SortedUpAscends(values);
    SortedUpAscends(other);
    StableSort.SortFullySorted(Less(), values);
    StableSort.SortFullySorted(Less(), other);
    StableSort.SortedIsUnique(Less(), SortedUp(values), SortedUp(other));
  }

  lemma HalfRank(n: nat)
    requires n >= 1
    ensures RankBelow(n, 0.5) == (n - 1) / 2
  {
    var k := (n - 1) as real * 0.5;
    var h := (n - 1) / 2;
    assert h as real <= k < h as real + 1.0;
  }

  /** At one half it is the median: the middle value, or the mean of the two middle ones. */
  lemma HalfIsMedian(values: seq<real>)
    requires values != []
    ensures var s, n := SortedUp(values), |values|;
            Percentile(values, 0.5).value == if n % 2 == 1 then s[n / 2] else (s[n / 2 - 1] + s[n / 2]) / 2.0
  {
    InterpolateHalf(SortedUp(values));
  }

  lemma InterpolateHalf(s: seq<real>)
    requires s != []
    ensures var n := |s|; Interpolate(s, 0.5) == if n % 2 == 1 then s[n / 2] else (s[n / 2 - 1] + s[n / 2]) / 2.0
  {
    var n := |s|;
    if n > 1 {
      hide Interpolate;
      hide RankBelow;
      HalfRank(n);
      var f := (n - 1) / 2;
      var rest := (n - 1) as real * 0.5 - f as real;
      InterpolateAt(s, 0.5, f);
      HalfOver(n);
      Halfway(s[f], s[f + 1], rest);
    }
  }

  lemma HalfOver(n: nat)
    requires n >= 1
    ensures (n - 1) as real * 0.5 - ((n - 1) / 2) as real == if n % 2 == 1 then 0.0 else 0.5
  {}

  lemma Halfway(a: real, b: real, t: real)
    ensures t == 0.0 ==> a + (b - a) * t == a
    ensures t == 0.5 ==> a + (b - a) * t == (a + b) / 2.0
  {}

  // ---- Collecting signals

  /** A metadata entry: absent, text, or some other value. */
  datatype Tag = NoTag | TextTag(text: string) | OtherTag(truthy: bool)

  /** A field of an entry: not there at all, there without a value, a number, or something that is not one. */
  datatype Value = Missing | Absent | Number(value: real) | Malformed

  datatype Signal = Signal(timestamp: Option<real>, model: Tag, modelName: Tag, value: Value, qualityScore: Value)

  predicate Truthy(t: Tag) {
    match t
    case NoTag => false
    case TextTag(s) => s != ""
    case OtherTag(b) => b
  }

  function ExtractModel(e: Signal): Option<string> {
    var t := if Truthy(e.model) then e.model else e.modelName;
    if t.TextTag? && t.text != "" then Some(t.text) else None
  }

  /** What an accepted entry does to its model's list: add a value, nothing, just create the list, or end the whole
      collection with an error. */
  datatype Reading = Take(value: real) | Skip | Touch | Abort

  /** A latency entry without the field counts as an immediate answer. */
  function ReadLatency(e: Signal): Reading {
    match e.value
    case Missing => Take(0.0)
    case Number(v) => Take(v)
    case _ => Abort
  }

  function ReadError(e: Signal): Reading {
    Take(1.0)
  }

  /** The list is created before the value is converted, so an unreadable score leaves an empty list behind. */
  function ReadQuality(e: Signal): Reading {
    match if e.value.Missing? || e.value.Absent? then e.qualityScore else e.value
    case Number(v) => Take(v)
    case Malformed => Touch
    case _ => Skip
  }

  predicate Accepted(e: Signal, cutoff: real) {
    e.timestamp.Some? && e.timestamp.value >= cutoff && ExtractModel(e).Some?
  }

  /** Which entries count and for whom: those from the cut-off on that name a model, under `model` or, where that is
      missing, empty or false, under `model_name`. */
  lemma CountedFor(e: Signal, cutoff: real, m: string)
    ensures Accepted(e, cutoff) && ExtractModel(e) == Some(m) <==>
            && (exists t :: e.timestamp == Some(t) && t >= cutoff) && m != ""
            && (e.model == TextTag(m)
                || (e.model in {NoTag, TextTag(""), OtherTag(false)} && e.modelName == TextTag(m)))
  {}

  /** What a latency entry, an error entry and a quality entry are read as.  A quality entry without a value of its own
      is read from its metadata. */
  lemma ReadingsMeaning(e: Signal)
    ensures ReadLatency(e) == (if e.value == Missing then Take(0.0) else if e.value.Number? then Take(e.value.value)
                               else Abort)
    ensures ReadError(e) == Take(1.0)
    ensures var score := if e.value in {Missing, Absent} then e.qualityScore else e.value;
            && (score.Number? ==> ReadQuality(e) == Take(score.value))
            && (score == Malformed ==> ReadQuality(e) == Touch)
            && (score in {Missing, Absent} ==> ReadQuality(e) == Skip)
  {}

  /** The values an entry contributes to model `m`. */
  function Contribution(e: Signal, cutoff: real, read: Signal -> Reading, m: string): seq<real> {
    if Accepted(e, cutoff) && ExtractModel(e) == Some(m) && read(e).Take? then [read(e).value] else []
  }

  function ValuesFor(entries: seq<Signal>, cutoff: real, read: Signal -> Reading, m: string): seq<real> {
    if entries == [] then []
    else ValuesFor(entries[..|entries| - 1], cutoff, read, m) + Contribution(entries[|entries| - 1], cutoff, read, m)
  }

  predicate Mentions(e: Signal, cutoff: real, read: Signal -> Reading, m: string) {
    Accepted(e, cutoff) && ExtractModel(e) == Some(m) && (read(e).Take? || read(e).Touch?)
  }

  ghost predicate Mentioned(entries: seq<Signal>, cutoff: real, read: Signal -> Reading, m: string) {
    exists i :: 0 <= i < |entries| && Mentions(entries[i], cutoff, read, m)
  }

  ghost predicate Aborts(entries: seq<Signal>, cutoff: real, read: Signal -> Reading) {
    exists i :: 0 <= i < |entries| && Accepted(entries[i], cutoff) && read(entries[i]).Abort?
  }

  function Get(m: map<string, seq<real>>, k: string): seq<real> {
    if k in m then m[k] else []
  }

  /** The values collected from these entries, model by model. */
  ghost predicate Grouped(groups: map<string, seq<real>>, entries: seq<Signal>, cutoff: real, read: Signal -> Reading) {
    && (forall m :: m in groups <==> Mentioned(entries, cutoff, read, m))
    && (forall m :: Get(groups, m) == ValuesFor(entries, cutoff, read, m))
  }

  /** What one more entry does to the groups. */
  function GroupOne(groups: map<string, seq<real>>, e: Signal, cutoff: real,
                    read: Signal -> Reading): map<string, seq<real>>
  {
    if !Accepted(e, cutoff) then groups
    else
      var model := ExtractModel(e).value;
      match read(e)
      case Take(v) => groups[model := Get(groups, model) + [v]]
      case Touch => groups[model := Get(groups, model)]
      case _ => groups
  }

  lemma GroupOneAt(groups: map<string, seq<real>>, e: Signal, cutoff: real, read: Signal -> Reading, m: string)
    ensures var after := GroupOne(groups, e, cutoff, read);
            && (m in after <==> m in groups || Mentions(e, cutoff, read, m))
            && Get(after, m) == Get(groups, m) + Contribution(e, cutoff, read, m)
  {}

  lemma ValuesForStep(entries: seq<Signal>, i: nat, cutoff: real, read: Signal -> Reading, m: string)
    requires i < |entries|
    ensures ValuesFor(entries[..i + 1], cutoff, read, m) ==
            ValuesFor(entries[..i], cutoff, read, m) + Contribution(entries[i], cutoff, read, m)
    ensures Mentioned(entries[..i + 1], cutoff, read, m) <==>
            Mentioned(entries[..i], cutoff, read, m) || Mentions(entries[i], cutoff, read, m)
  {
    assert entries[..i + 1][..i] == entries[..i];
    assert entries[..i + 1] == entries[..i] + [entries[i]];
    MentionedStep(entries[..i], entries[i], cutoff, read);
  }

  lemma GroupedStep(groups: map<string, seq<real>>, entries: seq<Signal>, i: nat, cutoff: real, read: Signal -> Reading)
    requires i < |entries| && Grouped(groups, entries[..i], cutoff, read)
    ensures Grouped(GroupOne(groups, entries[i], cutoff, read), entries[..i + 1], cutoff, read)
  {
    hide GroupOne;
    hide Get;
    hide ValuesFor;
    hide Mentioned;
    hide Mentions;
    hide Contribution;
    var after := GroupOne(groups, entries[i], cutoff, read);
    forall m
      ensures m in after <==> Mentioned(entries[..i + 1], cutoff, read, m)
      ensures Get(after, m) == ValuesFor(entries[..i + 1], cutoff, read, m)
    {
      GroupOneAt(groups, entries[i], cutoff, read, m);
      ValuesForStep(entries, i, cutoff, read, m);
    }
  }

  lemma AbortsStep(entries: seq<Signal>, i: nat, cutoff: real, read: Signal -> Reading)
    requires i < |entries|
    ensures Aborts(entries[..i + 1], cutoff, read) <==>
            Aborts(entries[..i], cutoff, read) || (Accepted(entries[i], cutoff) && read(entries[i]).Abort?)
  {
    assert entries[..i + 1] == entries[..i] + [entries[i]];
    MentionedStep(entries[..i], entries[i], cutoff, read);
  }

  /** Groups the accepted entries by model. */
  method Group(entries: seq<Signal>, cutoff: real, read: Signal -> Reading) returns (r: Option<map<string, seq<real>>>)
    ensures r.None? <==> Aborts(entries, cutoff, read)
    ensures r.Some? ==> Grouped(r.value, entries, cutoff, read)
  {
    hide Grouped;
    var groups: map<string, seq<real>> := map[];
    NothingGrouped(cutoff, read);
    for i := 0 to |entries|
      invariant !Aborts(entries[..i], cutoff, read) && Grouped(groups, entries[..i], cutoff, read)
    {
      var e := entries[i];
      AbortsStep(entries, i, cutoff, read);
      GroupedStep(groups, entries, i, cutoff, read);
      if !Accepted(e, cutoff) { continue; }
      var model := ExtractModel(e).value;
      match read(e) {
        case Take(v) => groups := groups[model := Get(groups, model) + [v]];
        case Touch => groups := groups[model := Get(groups, model)];
        case Skip =>
        case Abort =>
          assert Accepted(entries[i], cutoff) && read(entries[i]).Abort?;
          return None;
      }
    }
    assert entries[..|entries|] == entries;
    return Some(groups);
  }

  lemma NothingGrouped(cutoff: real, read: Signal -> Reading)
    ensures Grouped(map[], [], cutoff, read)
  {}

  lemma MentionedStep(entries: seq<Signal>, e: Signal, cutoff: real, read: Signal -> Reading)
    ensures forall m ::
              Mentioned(entries + [e], cutoff, read, m) <==>
              Mentioned(entries, cutoff, read, m) || Mentions(e, cutoff, read, m)
    ensures Aborts(entries + [e], cutoff, read) <==>
              Aborts(entries, cutoff, read) || (Accepted(e, cutoff) && read(e).Abort?)
  {
    var all := entries + [e];
    assert all[|entries|] == e;
    forall m | Mentioned(entries, cutoff, read, m) ensures Mentioned(all, cutoff, read, m) {
      var i :| 0 <= i < |entries| && Mentions(entries[i], cutoff, read, m);
      assert all[i] == entries[i];
    }
    if Aborts(entries, cutoff, read) {
      var i :| 0 <= i < |entries| && Accepted(entries[i], cutoff) && read(entries[i]).Abort?;
      assert all[i] == entries[i];
    }
  }

  datatype RuntimeStats = RuntimeStats(p50: Option<real>, errorRate: real, quality: Option<real>, sampleCount: nat)

  /** Statistics of one model: the median latency, the share of errors, the mean quality, and every sample counted. */
  function StatsOf(lat: seq<real>, errors: nat, qual: seq<real>): (r: RuntimeStats)
    ensures 0.0 <= r.errorRate <= 1.0 && (r.errorRate == 0.0 <==> errors == 0)
            && (r.errorRate == 1.0 <==> errors > 0 && lat == [])
    ensures r.sampleCount == 0 <==> lat == [] && errors == 0 && qual == []
    ensures r.p50.None? <==> lat == []
    ensures r.p50.Some? ==> MinOf(lat) <= r.p50.value <= MaxOf(lat)
    ensures r.quality.None? <==> qual == []
    ensures r.quality.Some? ==> MinOf(qual) <= r.quality.value <= MaxOf(qual)
  {
    var total := |lat| + errors;
    PercentileInRange(lat, 0.5);
    MeanInRange(qual);
    RuntimeStats(
      Percentile(lat, 0.5),
      if total > 0 then ErrorShare(errors, total) else 0.0,
      if qual == [] then None else Some(Mean(qual)),
      total + |qual|)
  }

  /** The median is the middle latency, or the mean of the two middle ones; */
  lemma MedianMeaning(lat: seq<real>, errors: nat, qual: seq<real>)
    requires lat != []
    ensures var s, n := SortedUp(lat), |lat|;
            StatsOf(lat, errors, qual).p50 ==
            Some(if n % 2 == 1 then s[n / 2] else (s[n / 2 - 1] + s[n / 2]) / 2.0)
  {
    hide SortedUp;
    StatsParts(lat, errors, qual);
    HalfIsMedian(lat);
    hide *;
  }

  /** the error rate counts errors among errors and latencies, the quality is the sum over the number, and all entries
      are samples. */
  lemma SharesMeaning(lat: seq<real>, errors: nat, qual: seq<real>)
    ensures var r, total := StatsOf(lat, errors, qual), |lat| + errors;
            && (total > 0 ==> r.errorRate * total as real == errors as real)
            && (qual != [] ==> r.quality.Some? && r.quality.value * |qual| as real == Sum(qual))
            && r.sampleCount == total + |qual|
  {
    hide *;
    StatsParts(lat, errors, qual);
    if qual != [] { MeanIs(qual); }
  }

  lemma StatsParts(lat: seq<real>, errors: nat, qual: seq<real>)
    ensures var r := StatsOf(lat, errors, qual);
            && (lat != [] ==> r.p50 == Percentile(lat, 0.5)) && r.sampleCount == |lat| + errors + |qual|
            && (|lat| + errors > 0 ==> r.errorRate == ErrorShare(errors, |lat| + errors))
            && (qual != [] ==> r.quality == Some(Mean(qual)))
  {
    hide Percentile;
    hide ErrorShare;
    hide Mean;
  }

  function Mean(s: seq<real>): real
    requires s != []
  {
    Sum(s) / |s| as real
  }

  lemma MeanIs(s: seq<real>)
    requires s != []
    ensures Mean(s) * |s| as real == Sum(s)
  {
    hide Sum;
    Cancelled(Sum(s), |s| as real);
  }

  lemma Cancelled(a: real, b: real)
    requires b > 0.0
    ensures a / b * b == a
  {}

  function ErrorShare(errors: nat, total: nat): (r: real)
    requires 0 < total && errors <= total
    ensures 0.0 <= r <= 1.0 && (r == 0.0 <==> errors == 0) && (r == 1.0 <==> errors == total)
    ensures r * total as real == errors as real
  {
    var q := errors as real / total as real;
    assert q * total as real == errors as real;
    RatioIsOne(errors as real, total as real);
    q
  }

  lemma InterpolateInRange(s: seq<real>, pct: real, lo: real, hi: real)
    requires s != [] && 0.0 <= pct <= 1.0 && Ascending(s) && forall x | x in s :: lo <= x <= hi
    ensures lo <= Interpolate(s, pct) <= hi
  {
    hide Interpolate;
    hide RankBelow;
    InterpolateBetween(s, pct);
    var f := RankBelow(|s|, pct);
    assert s[f] in s && s[if f + 1 < |s| then f + 1 else f] in s;
  }

  /** A percentile of some values is never outside their range. */
  lemma PercentileInRange(values: seq<real>, pct: real)
    requires 0.0 <= pct <= 1.0
    ensures values != [] ==> MinOf(values) <= Percentile(values, pct).value <= MaxOf(values)
  {
    if values != [] {
      var s := SortedUp(values);
      var lo, hi := MinOf(values), MaxOf(values);
      assert Ascending(s) by { SortedUpAscends(values); }
      assert forall x | x in s :: lo <= x <= hi by { SortedUpMembers(values); }
      hide *;
      InterpolateInRange(s, pct, lo, hi);
      PercentileIs(values, pct);
    }
  }

  lemma PercentileIs(values: seq<real>, pct: real)
    requires values != [] && 0.0 <= pct <= 1.0
    ensures Percentile(values, pct) == Some(Interpolate(SortedUp(values), pct))
  {}

  lemma SortedUpMembers(values: seq<real>)
    ensures forall x | x in SortedUp(values) :: x in values
  {
    StableSort.SortPermutes(Less(), values);
    StableSort.SameMembers(StableSort.Sort(Less(), values), values);
  }

  lemma {:induction false} SumInRange(s: seq<real>, lo: real, hi: real)
    requires forall x | x in s :: lo <= x <= hi
    ensures lo * |s| as real <= Sum(s) <= hi * |s| as real
  {
    if s != [] {
      forall x | x in s[1..] ensures lo <= x <= hi { assert x in s; }
      SumInRange(s[1..], lo, hi);
      assert s[0] in s;
      assert lo * |s| as real == lo + lo * |s[1..]| as real && hi * |s| as real == hi + hi * |s[1..]| as real;
    }
  }

  lemma MeanOf(s: seq<real>, lo: real, hi: real)
    requires s != [] && forall x | x in s :: lo <= x <= hi
    ensures lo <= Sum(s) / |s| as real <= hi
  {
    hide *;
    SumInRange(s, lo, hi);
    MeanBetween(Sum(s), |s| as real, lo, hi);
  }

  lemma MeanInRange(s: seq<real>)
    ensures s != [] ==> MinOf(s) <= Sum(s) / |s| as real <= MaxOf(s)
  {
    if s != [] { MeanOf(s, MinOf(s), MaxOf(s)); }
  }

  /** The three signal lists of one collection and their time limits; no store, no lists. */
  datatype Feed = Feed(latency: seq<Signal>, error: seq<Signal>, quality: seq<Signal>, latCutoff: real,
                       qualCutoff: real)

  function ModelStats(f: Feed, m: string): RuntimeStats {
    StatsOf(ValuesFor(f.latency, f.latCutoff, ReadLatency, m),
            |ValuesFor(f.error, f.latCutoff, ReadError, m)|,
            ValuesFor(f.quality, f.qualCutoff, ReadQuality, m))
  }

  ghost predicate InFeed(f: Feed, m: string) {
    || Mentioned(f.latency, f.latCutoff, ReadLatency, m)
    || Mentioned(f.error, f.latCutoff, ReadError, m)
    || Mentioned(f.quality, f.qualCutoff, ReadQuality, m)
  }

  /** Per-model statistics; nothing without a store, and nothing at all when a latency cannot be read. */
  method Collect(feed: Option<Feed>) returns (stats: map<string, RuntimeStats>)
    ensures feed.None? || Aborts(feed.value.latency, feed.value.latCutoff, ReadLatency) ==> stats == map[]
    ensures feed.Some? && !Aborts(feed.value.latency, feed.value.latCutoff, ReadLatency) ==>
              forall m ::
                (m in stats <==> InFeed(feed.value, m)) && (m in stats ==> stats[m] == ModelStats(feed.value, m))
  {
    if feed.None? { return map[]; }
    var f := feed.value;
    var lat := Group(f.latency, f.latCutoff, ReadLatency);
    if lat.None? { return map[]; }
    var err := Group(f.error, f.latCutoff, ReadError);
    var qual := Group(f.quality, f.qualCutoff, ReadQuality);
    stats := AllStats(lat.value, err.value, qual.value);
  }

  /** One unreadable latency takes the statistics of every other model with it. */
  lemma UnreadableLatencyLosesAll() returns (f: Feed)
    ensures InFeed(f, "a") && ModelStats(f, "a").p50 == Some(1.0)
    ensures Aborts(f.latency, f.latCutoff, ReadLatency)
  {
    var good := Signal(Some(0.0), TextTag("a"), NoTag, Number(1.0), Missing);
    var bad := Signal(Some(0.0), TextTag("b"), NoTag, Malformed, Missing);
    f := Feed([good, bad], [], [], 0.0, 0.0);
    assert Mentions(f.latency[0], f.latCutoff, ReadLatency, "a");
    assert Accepted(f.latency[1], f.latCutoff) && ReadLatency(f.latency[1]).Abort?;
    assert f.latency[..1] == [good] && [good][..0] == [];
    assert ValuesFor([good], 0.0, ReadLatency, "a") == [1.0];
    assert ValuesFor(f.latency, 0.0, ReadLatency, "a") == [1.0];
  }

  /** An unreadable score lists a model with no sample behind it. */
  lemma UnreadableScoreCountsNothing() returns (f: Feed)
    ensures !Aborts(f.latency, f.latCutoff, ReadLatency)
    ensures InFeed(f, "a") && ModelStats(f, "a").sampleCount == 0
  {
    var bad := Signal(Some(0.0), TextTag("a"), NoTag, Malformed, Missing);
    f := Feed([], [], [bad], 0.0, 0.0);
    assert Mentions(f.quality[0], f.qualCutoff, ReadQuality, "a");
    assert f.quality[..0] == [] && ValuesFor(f.quality[..0], f.qualCutoff, ReadQuality, "a") == [];
    assert ReadQuality(f.quality[0]).Touch? && ValuesFor(f.quality, f.qualCutoff, ReadQuality, "a") == [];
  }

  method AllStats(lat: map<string, seq<real>>, err: map<string, seq<real>>, qual: map<string, seq<real>>)
    returns (stats: map<string, RuntimeStats>)
    ensures forall m :: m in stats <==> m in lat || m in err || m in qual
    ensures forall m | m in stats :: stats[m] == StatsOf(Get(lat, m), |Get(err, m)|, Get(qual, m))
  {
    var models := lat.Keys + err.Keys + qual.Keys;
    stats := map[];
    var todo := models;
    while todo != {}
      invariant todo <= models && stats.Keys == models - todo
      invariant forall m | m in stats :: stats[m] == StatsOf(Get(lat, m), |Get(err, m)|, Get(qual, m))
      decreases todo
    {
      var m :| m in todo;
      stats := stats[m := StatsOf(Get(lat, m), |Get(err, m)|, Get(qual, m))];
      todo := todo - {m};
    }
  }

  // ---- Nothing is counted twice or lost

  /** Entries that add a value. */
  function TakenCount(entries: seq<Signal>, cutoff: real, read: Signal -> Reading): nat {
    if entries == [] then 0
    else
      var e := entries[|entries| - 1];
      TakenCount(entries[..|entries| - 1], cutoff, read) + (if Accepted(e, cutoff) && read(e).Take? then 1 else 0)
  }

  function SumOver(ms: seq<string>, f: string -> nat): nat {
    if ms == [] then 0 else f(ms[0]) + SumOver(ms[1..], f)
  }

  lemma {:induction false} SumShift(ms: seq<string>, f: string -> nat, g: string -> nat, x: string)
    requires Distinct(ms) && forall m | m in ms :: g(m) == f(m) + (if m == x then 1 else 0)
    ensures SumOver(ms, g) == SumOver(ms, f) + (if x in ms then 1 else 0)
  {
    if ms != [] {
      SumShift(ms[1..], f, g, x);
      assert ms[0] !in ms[1..];
    }
  }

  lemma {:induction false} SumAgree(ms: seq<string>, f: string -> nat, g: string -> nat)
    requires forall m | m in ms :: f(m) == g(m)
    ensures SumOver(ms, f) == SumOver(ms, g)
  {
    if ms != [] { SumAgree(ms[1..], f, g); }
  }

  function CountFor(entries: seq<Signal>, cutoff: real, read: Signal -> Reading): string -> nat {
    m => |ValuesFor(entries, cutoff, read, m)|
  }

  /** Listing every model once, the group sizes add up to the number of entries that add a value. */
  lemma {:induction false} GroupsConserve(entries: seq<Signal>, cutoff: real, read: Signal -> Reading, ms: seq<string>)
    requires Distinct(ms) && forall m | Mentioned(entries, cutoff, read, m) :: m in ms
    ensures SumOver(ms, CountFor(entries, cutoff, read)) == TakenCount(entries, cutoff, read)
  {
    if entries == [] {
      SumAgree(ms, CountFor(entries, cutoff, read), m => 0);
      SumZero(ms);
    } else {
      var init, e := entries[..|entries| - 1], entries[|entries| - 1];
      assert entries == init + [e];
      MentionedStep(init, e, cutoff, read);
      GroupsConserve(init, cutoff, read, ms);
      var f, g := CountFor(init, cutoff, read), CountFor(entries, cutoff, read);
      if Accepted(e, cutoff) && read(e).Take? {
        var x := ExtractModel(e).value;
        assert Mentions(e, cutoff, read, x);
        SumShift(ms, f, g, x);
      } else {
        SumAgree(ms, f, g);
      }
    }
  }

  lemma {:induction false} SumZero(ms: seq<string>)
    ensures SumOver(ms, m => 0) == 0
  {
    if ms != [] { SumZero(ms[1..]); }
  }

  lemma {:induction false} SumAdds(ms: seq<string>, f: string -> nat, g: string -> nat, h: string -> nat,
                                   total: string -> nat)
    requires forall m | m in ms :: total(m) == f(m) + g(m) + h(m)
    ensures SumOver(ms, total) == SumOver(ms, f) + SumOver(ms, g) + SumOver(ms, h)
  {
    if ms != [] { SumAdds(ms[1..], f, g, h, total); }
  }

  /** Main result on collection: the sample counts of all models together equal the number of latency, error and quality
      entries that were accepted with a readable value. */
  lemma SamplesConserve(f: Feed, ms: seq<string>)
    requires Distinct(ms) && forall m | InFeed(f, m) :: m in ms
    ensures SumOver(ms, m => ModelStats(f, m).sampleCount) ==
            TakenCount(f.latency, f.latCutoff, ReadLatency)
            + TakenCount(f.error, f.latCutoff, ReadError)
            + TakenCount(f.quality, f.qualCutoff, ReadQuality)
  {
    GroupsConserve(f.latency, f.latCutoff, ReadLatency, ms);
    GroupsConserve(f.error, f.latCutoff, ReadError, ms);
    GroupsConserve(f.quality, f.qualCutoff, ReadQuality, ms);
    SumAdds(ms, CountFor(f.latency, f.latCutoff, ReadLatency), CountFor(f.error, f.latCutoff, ReadError),
            CountFor(f.quality, f.qualCutoff, ReadQuality), m => ModelStats(f, m).sampleCount);
  }
}
