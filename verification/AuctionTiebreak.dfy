/** The bounded auction tie-break over ranked results (packages/semantic-search/semantic_search/app.py): reorder by
    coherence plus a small bonus, restamp the ranks.  `log1p` may be any function; only differences of its values
    count. */
module AuctionTiebreak {
  import opened Common
  import opened Reals
  import StableSort

  /** A field as it arrives: missing, a number, or something that does not convert to one. */
  datatype Raw = Missing | Number(value: real) | Malformed

  datatype Fields = Fields(coherence: Raw, timeToEnd: Raw, bids: Raw, bidCount: Raw, valuation: Raw, govalue: Raw)

  datatype TiebreakConfig = TiebreakConfig(
    enabled: bool, maxBonus: real, horizon: real, wUrgency: real, wCompetition: real, wValue: real)
  {
    /** What configuration loading enforces (the weights also sum to 1, which is not needed here). */
    predicate Valid() {
      0.0 <= maxBonus <= 1.0 && horizon > 0.0 && wUrgency >= 0.0 && wCompetition >= 0.0 && wValue >= 0.0
    }

    function WeightSum(): real {
      wUrgency + wCompetition + wValue
    }
  }

  function NumberOr0(r: Raw): real {
    if r.Number? then r.value else 0.0
  }

  function BidsOf(f: Fields): real {
    MaxReal(0.0, NumberOr0(if f.bids.Missing? then f.bidCount else f.bids))
  }

  function ValueOf(f: Fields): real {
    MaxReal(0.0, NumberOr0(if f.valuation.Missing? then f.govalue else f.valuation))
  }

  /** The list-wide quantities the bonus is measured against. */
  datatype Aggregates = Aggregates(maxBids: real, logMin: real, logSpan: real)

  function OrOne(x: real): real {
    if x == 0.0 then 1.0 else x
  }

  function Aggregate(log1p: real -> real, fs: seq<Fields>): (agg: Aggregates)
    requires fs != []
    ensures agg.maxBids > 0.0 && agg.logSpan > 0.0
  {
    var bids := MapSeq(BidsOf, fs);
    var logs := MapSeq(f => log1p(ValueOf(f)), fs);
    Aggregates(OrOne(MaxOf(bids)), MinOf(logs), OrOne(MaxOf(logs) - MinOf(logs)))
  }

  function Urgency(cfg: TiebreakConfig, f: Fields): real
    requires cfg.Valid()
  {
    if f.timeToEnd.Number? then MaxReal(0.0, MinReal(1.0, (cfg.horizon - f.timeToEnd.value) / cfg.horizon)) else 0.0
  }

  function Weighted(cfg: TiebreakConfig, urgency: real, competition: real, value: real): real {
    cfg.wUrgency * urgency + cfg.wCompetition * competition + cfg.wValue * value
  }

  /** The cap times the weighted sum of the three signals. */
  function Worth(cfg: TiebreakConfig, urgency: real, competition: real, value: real): real {
    cfg.maxBonus * Weighted(cfg, urgency, competition, value)
  }

  function Bonus(cfg: TiebreakConfig, log1p: real -> real, agg: Aggregates, f: Fields): real
    requires cfg.Valid() && agg.maxBids != 0.0 && agg.logSpan != 0.0
  {
    Worth(cfg, Urgency(cfg, f), 1.0 - BidsOf(f) / agg.maxBids, (log1p(ValueOf(f)) - agg.logMin) / agg.logSpan)
  }

  /** The sort key of one result within the list `fs`. */
  function Blended(cfg: TiebreakConfig, log1p: real -> real, fs: seq<Fields>, f: Fields): real
    requires cfg.Valid() && fs != []
  {
    NumberOr0(f.coherence) + Bonus(cfg, log1p, Aggregate(log1p, fs), f)
  }

  // ---- Sorting by a key, position as second key, both descending on (key, -position)

  datatype Keyed<T> = Keyed(key: real, negPos: int, item: T)

  function Below<T>(): (Keyed<T>, Keyed<T>) -> bool {
    (a: Keyed<T>, b: Keyed<T>) => a.key < b.key || (a.key == b.key && a.negPos < b.negPos)
  }

  function WithKeys<T>(key: T -> real, items: seq<T>): (r: seq<Keyed<T>>)
    ensures |r| == |items| && forall i | 0 <= i < |r| :: r[i] == Keyed(key(items[i]), -i, items[i])
  {
    seq(|items|, i requires 0 <= i < |items| => Keyed(key(items[i]), -i, items[i]))
  }

  function ItemOf<T>(): Keyed<T> -> T {
    (k: Keyed<T>) => k.item
  }

  function HasKey<T>(key: T -> real, k: real): T -> bool {
    (t: T) => key(t) == k
  }

  function SortByKey<T>(key: T -> real, items: seq<T>): seq<T> {
    MapSeq(ItemOf(), StableSort.SortDescending(Below(), WithKeys(key, items)))
  }

  class RankedResult {
    const fields: Fields
    var rank: int

    constructor (fields: Fields, rank: int)
      ensures this.fields == fields && this.rank == rank
    {
      this.fields := fields;
      this.rank := rank;
    }
  }

  function FieldsOf(results: seq<RankedResult>): seq<Fields> {
    MapSeq((r: RankedResult) => r.fields, results)
  }

  function KeyIn(cfg: TiebreakConfig, log1p: real -> real, fs: seq<Fields>): RankedResult -> real
    requires cfg.Valid() && fs != []
  {
    (r: RankedResult) => Blended(cfg, log1p, fs, r.fields)
  }

  function Reordered(cfg: TiebreakConfig, log1p: real -> real, results: seq<RankedResult>): seq<RankedResult>
    requires cfg.Valid() && results != []
  {
    SortByKey(KeyIn(cfg, log1p, FieldsOf(results)), results)
  }

  /** Switched off, or with fewer than two results, nothing happens; otherwise the results come back in blended order,
      stamped 1, 2, 3, ... */
  method AuctionTiebreak(results: seq<RankedResult>, cfg: Option<TiebreakConfig>, log1p: real -> real)
    returns (out: seq<RankedResult>)
    requires cfg.Some? ==> cfg.value.Valid()
    modifies results
    ensures cfg.None? || !cfg.value.enabled || |results| < 2 ==>
              out == results && forall r | r in results :: r.rank == old(r.rank)
    ensures cfg.Some? && cfg.value.enabled && |results| >= 2 ==>
              && out == Reordered(cfg.value, log1p, results)
              && (Distinct(results) ==> forall i | 0 <= i < |out| :: out[i].rank == i + 1)
  {
    if cfg.None? || !cfg.value.enabled || |results| < 2 {
      return results;
    }
    out := SortedBy(KeyIn(cfg.value, log1p, FieldsOf(results)), results);
    StampRanks(out, results);
  }

  method SortedBy(key: RankedResult -> real, results: seq<RankedResult>) returns (out: seq<RankedResult>)
    ensures out == SortByKey(key, results)
    ensures (forall r | r in out :: r in results) && (Distinct(results) ==> Distinct(out))
  {
    var keyed := WithKeys(key, results);
    keyed := StableSort.SortDescending(Below(), keyed);
    out := MapSeq(ItemOf(), keyed);
    SortByKeyPermutes(key, results);
    DistinctPermutes(results, out);
    StableSort.SameMembers(out, results);
  }

  method StampRanks(reordered: seq<RankedResult>, results: seq<RankedResult>)
    requires forall r | r in reordered :: r in results
    modifies results
    ensures Distinct(reordered) ==> forall i | 0 <= i < |reordered| :: reordered[i].rank == i + 1
  {
    for i := 0 to |reordered|
      invariant Distinct(reordered) ==> forall k | 0 <= k < i :: reordered[k].rank == k + 1
    {
      assert reordered[i] in results;
      reordered[i].rank := i + 1;
    }
  }

  // ---- Facts about sorting by a key

  lemma BelowIsTotal<T>(s: seq<Keyed<T>>)
    requires forall i, j | 0 <= i < |s| && 0 <= j < |s| && s[i].negPos == s[j].negPos :: s[i] == s[j]
    ensures StableSort.TotalOrderOn(Below(), s) && StableSort.WeakOrderOn(Below(), s)
  {}

  lemma SortByKeyPermutes<T>(key: T -> real, items: seq<T>)
    ensures multiset(SortByKey(key, items)) == multiset(items)
  {
    var keyed := WithKeys(key, items);
    StableSort.SortDescendingPermutes(Below(), keyed);
    StableSort.MapPermutes(ItemOf(), StableSort.SortDescending(Below(), keyed), keyed);
    assert MapSeq(ItemOf(), keyed) == items;
  }

  lemma DistinctPermutes<T>(a: seq<T>, b: seq<T>)
    requires multiset(a) == multiset(b)
    ensures Distinct(a) ==> Distinct(b)
  {
    if Distinct(a) {
      forall i, j | 0 <= i < j < |b| ensures b[i] != b[j] {
        DistinctCount(a, b[i]);
        TwoPlaces(b, i, j);
      }
    }
  }

  lemma TwoPlaces<T>(b: seq<T>, i: nat, j: nat)
    requires i < j < |b|
    ensures b[i] == b[j] ==> multiset(b)[b[i]] >= 2
  {
    assert b == b[..i] + [b[i]] + b[i + 1..j] + [b[j]] + b[j + 1..];
  }

  lemma {:induction false} DistinctCount<T>(a: seq<T>, x: T)
    requires Distinct(a)
    ensures multiset(a)[x] <= 1
  {
    if a != [] {
      DistinctCount(a[1..], x);
      assert a == [a[0]] + a[1..];
      if a[0] == x { assert x !in a[1..]; }
    }
  }

  /** The sorted keyed list: descending, each row carrying the key of its item. */
  lemma SortedKeyed<T>(key: T -> real, items: seq<T>)
    ensures var s := StableSort.SortDescending(Below(), WithKeys(key, items));
            && StableSort.FullyDescending(Below(), s) && |s| == |items|
            && (forall k | k in s :: k in WithKeys(key, items) && k.key == key(k.item))
  {
    var keyed := WithKeys(key, items);
    StableSort.SortDescendingMembers(Below(), keyed);
    if keyed != [] {
      BelowIsTotal(keyed);
      StableSort.SortDescendingStable(Below(), keyed, keyed[0]);
    }
  }

  lemma SortByKeyDescends<T>(key: T -> real, items: seq<T>, i: nat, j: nat)
    requires i < j < |items|
    ensures |SortByKey(key, items)| == |items|
    ensures key(SortByKey(key, items)[i]) >= key(SortByKey(key, items)[j])
  {
    var s := StableSort.SortDescending(Below(), WithKeys(key, items));
    SortedKeyed(key, items);
    assert s[i] in s && s[j] in s && !Below()(s[i], s[j]);
  }

  /** Items already in descending key order stay where they are. */
  lemma SortByKeyFixes<T>(key: T -> real, items: seq<T>)
    requires forall i, j | 0 <= i < j < |items| :: key(items[i]) >= key(items[j])
    ensures SortByKey(key, items) == items
  {
    var keyed := WithKeys(key, items);
    StableSort.SortDescendingFixes(Below(), keyed);
    assert MapSeq(ItemOf(), keyed) == items;
  }

  lemma {:induction false} FilterItems<T>(key: T -> real, k: real, s: seq<Keyed<T>>)
    requires forall x | x in s :: x.key == key(x.item)
    ensures StableSort.Filter(HasKey(key, k), MapSeq(ItemOf(), s)) ==
            MapSeq(ItemOf(), StableSort.Filter((x: Keyed<T>) => x.key == k, s))
  {
    if s != [] {
      FilterItems(key, k, s[1..]);
      assert MapSeq(ItemOf(), s) == [s[0].item] + MapSeq(ItemOf(), s[1..]);
    }
  }

  lemma {:induction false} FilterKeepsOrder<T>(p: Keyed<T> -> bool, s: seq<Keyed<T>>)
    requires forall i, j | 0 <= i < j < |s| && p(s[i]) && p(s[j]) :: s[i].negPos >= s[j].negPos
    ensures var f := StableSort.Filter(p, s); forall i, j | 0 <= i < j < |f| :: f[i].negPos >= f[j].negPos
  {
    if s != [] {
      var rest := s[1..];
      var f := StableSort.Filter(p, rest);
      assert forall i, j | 0 <= i < j < |rest| :: rest[i] == s[i + 1] && rest[j] == s[j + 1];
      FilterKeepsOrder(p, rest);
      StableSort.FilterMembers(p, rest);
      if p(s[0]) {
        forall j | 0 <= j < |f| ensures s[0].negPos >= f[j].negPos {
          assert f[j] in f;
          var m :| 0 <= m < |rest| && rest[m] == f[j];
          assert s[m + 1] == f[j];
        }
      }
    }
  }

  function Earlier<T>(): (Keyed<T>, Keyed<T>) -> bool {
    (a: Keyed<T>, b: Keyed<T>) => a.negPos > b.negPos
  }

  lemma SameKeyRows<T>(key: T -> real, items: seq<T>, k: real)
    ensures var keyed := WithKeys(key, items);
            var p := (x: Keyed<T>) => x.key == k;
            StableSort.Filter(p, StableSort.SortDescending(Below(), keyed)) == StableSort.Filter(p, keyed)
  {
    var keyed := WithKeys(key, items);
    var s := StableSort.SortDescending(Below(), keyed);
    var p := (x: Keyed<T>) => x.key == k;
    SortedKeyed(key, items);
    StableSort.SortDescendingPermutes(Below(), keyed);
    StableSort.FilterPermutes(p, s, keyed);
    StableSort.FilterMembers(p, keyed);
    forall i, j | 0 <= i < j < |s| && p(s[i]) && p(s[j]) ensures s[i].negPos >= s[j].negPos {
      assert !Below()(s[i], s[j]);
    }
    FilterKeepsOrder(p, s);
    FilterKeepsOrder(p, keyed);
    RowsAreTotal(key, items, StableSort.Filter(p, s), StableSort.Filter(p, keyed));
  }

  lemma RowsAreTotal<T>(key: T -> real, items: seq<T>, a: seq<Keyed<T>>, b: seq<Keyed<T>>)
    requires multiset(a) == multiset(b) && forall x | x in b :: x in WithKeys(key, items)
    requires forall i, j | 0 <= i < j < |a| :: a[i].negPos >= a[j].negPos
    requires forall i, j | 0 <= i < j < |b| :: b[i].negPos >= b[j].negPos
    ensures a == b
  {
    StableSort.SameMembers(a, b);
    StableSort.SortedIsUnique(Earlier(), a, b);
  }

  /** Items with the same key keep the order they came in. */
  lemma SortByKeyStable<T>(key: T -> real, items: seq<T>, k: real)
    ensures StableSort.Filter(HasKey(key, k), SortByKey(key, items)) == StableSort.Filter(HasKey(key, k), items)
  {
    var keyed := WithKeys(key, items);
    SortedKeyed(key, items);
    SameKeyRows(key, items, k);
    FilterItems(key, k, StableSort.SortDescending(Below(), keyed));
    FilterItems(key, k, keyed);
    assert MapSeq(ItemOf(), keyed) == items;
  }

  lemma SortByKeySorts<T>(key: T -> real, items: seq<T>, i: nat, j: nat, k: real)
    requires i < j < |items|
    ensures var out := SortByKey(key, items);
            && multiset(out) == multiset(items) && |out| == |items|
            && key(out[i]) >= key(out[j])
            && StableSort.Filter(HasKey(key, k), out) == StableSort.Filter(HasKey(key, k), items)
  {
    SortByKeyPermutes(key, items);
    SortByKeyDescends(key, items, i, j);
    SortByKeyStable(key, items, k);
  }

  // ---- The bonus is small

  /** Every signal lies in [0, 1] for a member of the list the aggregates were taken over. */
  lemma SignalsInUnit(cfg: TiebreakConfig, log1p: real -> real, fs: seq<Fields>, f: Fields)
    requires cfg.Valid() && f in fs
    ensures var agg := Aggregate(log1p, fs);
            && 0.0 <= Urgency(cfg, f) <= 1.0
            && 0.0 <= 1.0 - BidsOf(f) / agg.maxBids <= 1.0
            && 0.0 <= (log1p(ValueOf(f)) - agg.logMin) / agg.logSpan <= 1.0
  {
    var bids := MapSeq(BidsOf, fs);
    var logs := MapSeq(x => log1p(ValueOf(x)), fs);
    var i :| 0 <= i < |fs| && fs[i] == f;
    assert bids[i] in bids && logs[i] in logs;
    ShareInUnit(BidsOf(f), MaxOf(bids));
    ShareInUnit(log1p(ValueOf(f)) - MinOf(logs), MaxOf(logs) - MinOf(logs));
  }

  lemma ShareInUnit(a: real, greatest: real)
    requires 0.0 <= a <= greatest
    ensures 0.0 <= a / OrOne(greatest) <= 1.0
  {
    RatioIsOne(a, OrOne(greatest));
  }

  lemma WeightedMonotone(cfg: TiebreakConfig, u: real, v: real, w: real, x: real, y: real, z: real)
    requires cfg.Valid() && u <= x && v <= y && w <= z
    ensures Weighted(cfg, u, v, w) <= Weighted(cfg, x, y, z)
  {
    Larger(cfg.wUrgency, u, x);
    Larger(cfg.wCompetition, v, y);
    Larger(cfg.wValue, w, z);
  }

  lemma WorthMonotone(cfg: TiebreakConfig, u: real, v: real, w: real, x: real, y: real, z: real)
    requires cfg.Valid() && u <= x && v <= y && w <= z
    ensures Worth(cfg, u, v, w) <= Worth(cfg, x, y, z)
  {
    hide Weighted;
    WeightedMonotone(cfg, u, v, w, x, y, z);
    Larger(cfg.maxBonus, Weighted(cfg, u, v, w), Weighted(cfg, x, y, z));
  }

  lemma WorthEnds(cfg: TiebreakConfig)
    ensures Worth(cfg, 0.0, 0.0, 0.0) == 0.0 && Worth(cfg, 1.0, 1.0, 1.0) == cfg.maxBonus * cfg.WeightSum()
  {}

  lemma BonusBounded(cfg: TiebreakConfig, log1p: real -> real, fs: seq<Fields>, f: Fields)
    requires cfg.Valid() && f in fs
    ensures 0.0 <= Bonus(cfg, log1p, Aggregate(log1p, fs), f) <= cfg.maxBonus * cfg.WeightSum()
  {
    hide Aggregate;
    hide Urgency;
    hide Worth;
    var agg := Aggregate(log1p, fs);
    SignalsInUnit(cfg, log1p, fs, f);
    var u, v, w := Urgency(cfg, f), 1.0 - BidsOf(f) / agg.maxBids, (log1p(ValueOf(f)) - agg.logMin) / agg.logSpan;
    WorthEnds(cfg);
    WorthMonotone(cfg, 0.0, 0.0, 0.0, u, v, w);
    WorthMonotone(cfg, u, v, w, 1.0, 1.0, 1.0);
  }

  lemma SoonerIsUrgent(cfg: TiebreakConfig, f: Fields, g: Fields)
    requires cfg.Valid()
    requires g.timeToEnd.Number? ==> f.timeToEnd.Number? && f.timeToEnd.value <= g.timeToEnd.value
    ensures Urgency(cfg, f) >= Urgency(cfg, g)
  {
    if g.timeToEnd.Number? {
      QuotientMonotone(cfg.horizon - g.timeToEnd.value, cfg.horizon - f.timeToEnd.value, cfg.horizon);
    }
  }

  /** Ending sooner, fewer bids and a higher value never lower the bonus. */
  lemma BonusPrefers(cfg: TiebreakConfig, log1p: real -> real, agg: Aggregates, f: Fields, g: Fields)
    requires cfg.Valid() && agg.maxBids > 0.0 && agg.logSpan > 0.0
    requires forall x, y | 0.0 <= x <= y :: log1p(x) <= log1p(y)
    requires g.timeToEnd.Number? ==> f.timeToEnd.Number? && f.timeToEnd.value <= g.timeToEnd.value
    requires BidsOf(f) <= BidsOf(g) && ValueOf(f) >= ValueOf(g)
    ensures Bonus(cfg, log1p, agg, f) >= Bonus(cfg, log1p, agg, g)
  {
    hide Urgency;
    SoonerIsUrgent(cfg, f, g);
    QuotientMonotone(BidsOf(f), BidsOf(g), agg.maxBids);
    QuotientMonotone(log1p(ValueOf(g)) - agg.logMin, log1p(ValueOf(f)) - agg.logMin, agg.logSpan);
    hide Worth;
    WorthMonotone(cfg, Urgency(cfg, g), 1.0 - BidsOf(g) / agg.maxBids, (log1p(ValueOf(g)) - agg.logMin) / agg.logSpan,
                  Urgency(cfg, f), 1.0 - BidsOf(f) / agg.maxBids, (log1p(ValueOf(f)) - agg.logMin) / agg.logSpan);
  }

  // ---- What the signals are

  /** Bid counts and prices as read: the second field stands in for a missing first one, whatever is not a number counts
      as 0, and so does a negative number. */
  lemma FieldsRead(f: Fields)
    ensures f.bids.Number? ==> BidsOf(f) == if f.bids.value < 0.0 then 0.0 else f.bids.value
    ensures f.bids.Missing? && f.bidCount.Number? ==>
              BidsOf(f) == if f.bidCount.value < 0.0 then 0.0 else f.bidCount.value
    ensures f.bids.Malformed? || (f.bids.Missing? && !f.bidCount.Number?) ==> BidsOf(f) == 0.0
    ensures f.valuation.Number? ==> ValueOf(f) == if f.valuation.value < 0.0 then 0.0 else f.valuation.value
    ensures f.valuation.Missing? && f.govalue.Number? ==>
              ValueOf(f) == if f.govalue.value < 0.0 then 0.0 else f.govalue.value
    ensures f.valuation.Malformed? || (f.valuation.Missing? && !f.govalue.Number?) ==> ValueOf(f) == 0.0
    ensures f.coherence.Number? ==> NumberOr0(f.coherence) == f.coherence.value
    ensures !f.coherence.Number? ==> NumberOr0(f.coherence) == 0.0
  {}

  /** The yardsticks: the most bids of the list and the spread of its log-values, each replaced by 1 when it is 0. */
  lemma AggregateMeaning(log1p: real -> real, fs: seq<Fields>, f: Fields)
    requires f in fs
    ensures var agg := Aggregate(log1p, fs);
            && BidsOf(f) <= agg.maxBids && agg.logMin <= log1p(ValueOf(f)) <= agg.logMin + agg.logSpan
            && (exists g :: g in fs && log1p(ValueOf(g)) == agg.logMin)
            && ((exists g :: g in fs && BidsOf(g) == agg.maxBids)
                || (agg.maxBids == 1.0 && forall g | g in fs :: BidsOf(g) == 0.0))
            && ((exists g :: g in fs && log1p(ValueOf(g)) == agg.logMin + agg.logSpan)
                || (agg.logSpan == 1.0 && forall g | g in fs :: log1p(ValueOf(g)) == agg.logMin))
  {
    var logOf := (x: Fields) => log1p(ValueOf(x));
    AggregateIs(log1p, fs);
    Extremes(BidsOf, fs, f);
    Extremes(logOf, fs, f);
    assert forall g | g in fs :: BidsOf(g) >= 0.0;
    hide BidsOf;
    hide ValueOf;
    hide MapSeq;
    hide Aggregate;
    assert forall g :: logOf(g) == log1p(ValueOf(g));
  }

  lemma AggregateIs(log1p: real -> real, fs: seq<Fields>)
    requires fs != []
    ensures var bids, logs := MapSeq(BidsOf, fs), MapSeq((x: Fields) => log1p(ValueOf(x)), fs);
            Aggregate(log1p, fs) == Aggregates(OrOne(MaxOf(bids)), MinOf(logs), OrOne(MaxOf(logs) - MinOf(logs)))
  {
    assert MapSeq((x: Fields) => log1p(ValueOf(x)), fs) == MapSeq(f => log1p(ValueOf(f)), fs);
  }

  /** The ends of a mapped list are values of members, and every member's value lies between them. */
  lemma Extremes(of: Fields -> real, fs: seq<Fields>, f: Fields)
    requires f in fs
    ensures var t := MapSeq(of, fs);
            && MinOf(t) <= of(f) <= MaxOf(t)
            && (exists g :: g in fs && of(g) == MinOf(t)) && (exists g :: g in fs && of(g) == MaxOf(t))
            && (MinOf(t) == MaxOf(t) ==> forall g | g in fs :: of(g) == MinOf(t))
  {
    var t := MapSeq(of, fs);
    forall g | g in fs ensures MinOf(t) <= of(g) <= MaxOf(t) {
      var i :| 0 <= i < |fs| && fs[i] == g;
      assert t[i] in t;
    }
    var least :| 0 <= least < |t| && t[least] == MinOf(t);
    var greatest :| 0 <= greatest < |t| && t[greatest] == MaxOf(t);
    assert fs[least] in fs && fs[greatest] in fs;
  }

  /** Urgency falls from 1 to 0 in proportion to the time left, over the horizon. */
  lemma UrgencyMeaning(cfg: TiebreakConfig, f: Fields)
    requires cfg.Valid()
    ensures f.timeToEnd.Number? && 0.0 <= f.timeToEnd.value <= cfg.horizon ==>
              Urgency(cfg, f) * cfg.horizon == cfg.horizon - f.timeToEnd.value
    ensures f.timeToEnd.Number? && f.timeToEnd.value <= 0.0 ==> Urgency(cfg, f) == 1.0
    ensures !f.timeToEnd.Number? || f.timeToEnd.value >= cfg.horizon ==> Urgency(cfg, f) == 0.0
  {
    if f.timeToEnd.Number? {
      var q := (cfg.horizon - f.timeToEnd.value) / cfg.horizon;
      assert q * cfg.horizon == cfg.horizon - f.timeToEnd.value;
      Ratio(cfg.horizon - f.timeToEnd.value, cfg.horizon);
      if f.timeToEnd.value <= 0.0 { RatioAtLeastOne(cfg.horizon - f.timeToEnd.value, cfg.horizon); }
      if f.timeToEnd.value >= cfg.horizon { RatioAtMostZero(cfg.horizon - f.timeToEnd.value, cfg.horizon); }
    }
  }

  lemma RatioAtLeastOne(a: real, b: real)
    requires a >= b > 0.0
    ensures a / b >= 1.0
  {
    SelfRatio(b);
    QuotientMonotone(b, a, b);
  }

  lemma RatioAtMostZero(a: real, b: real)
    requires a <= 0.0 < b
    ensures a / b <= 0.0
  {
    QuotientMonotone(a, 0.0, b);
  }

  /** What the signals of one result are worth over those of another: the cap times the weighted differences in urgency,
      competition and value. */
  function Lead(cfg: TiebreakConfig, log1p: real -> real, agg: Aggregates, a: Fields, b: Fields): real
    requires cfg.Valid() && agg.maxBids != 0.0 && agg.logSpan != 0.0
  {
    Worth(cfg, Urgency(cfg, a) - Urgency(cfg, b), (BidsOf(b) - BidsOf(a)) / agg.maxBids,
          (log1p(ValueOf(a)) - log1p(ValueOf(b))) / agg.logSpan)
  }

  /** One result leads another by the coherence gap plus that. */
  lemma KeyDifference(cfg: TiebreakConfig, log1p: real -> real, fs: seq<Fields>, a: Fields, b: Fields)
    requires cfg.Valid() && fs != []
    ensures var agg := Aggregate(log1p, fs);
            Blended(cfg, log1p, fs, a) - Blended(cfg, log1p, fs, b) ==
            NumberOr0(a.coherence) - NumberOr0(b.coherence) + Lead(cfg, log1p, agg, a, b)
  {
    hide Aggregate;
    hide Urgency;
    hide BidsOf;
    hide ValueOf;
    var agg := Aggregate(log1p, fs);
    var m, n := BidsOf(a) / agg.maxBids, BidsOf(b) / agg.maxBids;
    var v, w := (log1p(ValueOf(a)) - agg.logMin) / agg.logSpan, (log1p(ValueOf(b)) - agg.logMin) / agg.logSpan;
    QuotientDifference(BidsOf(b), BidsOf(a), agg.maxBids);
    QuotientDifference(log1p(ValueOf(a)) - agg.logMin, log1p(ValueOf(b)) - agg.logMin, agg.logSpan);
    hide Worth;
    WorthDifference(cfg, Urgency(cfg, a), 1.0 - m, v, Urgency(cfg, b), 1.0 - n, w);
  }

  lemma QuotientDifference(a: real, b: real, d: real)
    requires d > 0.0
    ensures a / d - b / d == (a - b) / d
  {}

  lemma WorthDifference(cfg: TiebreakConfig, u: real, v: real, w: real, x: real, y: real, z: real)
    ensures Worth(cfg, u, v, w) - Worth(cfg, x, y, z) == Worth(cfg, u - x, v - y, w - z)
  {
    assert Weighted(cfg, u, v, w) - Weighted(cfg, x, y, z) == Weighted(cfg, u - x, v - y, w - z);
  }

  /** The result with the greater blended score stands first. */
  lemma HigherStandsFirst(cfg: TiebreakConfig, log1p: real -> real, results: seq<RankedResult>, i: nat, j: nat)
    requires cfg.Valid() && results != []
    requires i < |Reordered(cfg, log1p, results)| && j < |Reordered(cfg, log1p, results)|
    requires var out := Reordered(cfg, log1p, results);
             Blended(cfg, log1p, FieldsOf(results), out[i].fields) >
             Blended(cfg, log1p, FieldsOf(results), out[j].fields)
    ensures i < j
  {
    hide Blended;
    var key := KeyIn(cfg, log1p, FieldsOf(results));
    var out := Reordered(cfg, log1p, results);
    SortByKeyPermutes(key, results);
    assert |multiset(out)| == |out| && |multiset(results)| == |results|;
    if j < i { SortByKeyDescends(key, results, j, i); }
  }

  lemma ShareSign(a: real, d: real)
    requires a >= 0.0 && d > 0.0
    ensures a / d >= 0.0 && (a > 0.0 ==> a / d > 0.0)
  {
    var q := a / d;
    assert q * d == a;
  }

  lemma WeightedSign(cfg: TiebreakConfig, u: real, v: real, w: real)
    requires cfg.Valid() && u >= 0.0 && v >= 0.0 && w >= 0.0
    ensures Weighted(cfg, u, v, w) >= 0.0
    ensures (cfg.wUrgency > 0.0 && u > 0.0) || (cfg.wCompetition > 0.0 && v > 0.0) || (cfg.wValue > 0.0 && w > 0.0) ==>
              Weighted(cfg, u, v, w) > 0.0
  {
    var p, q, r := cfg.wUrgency * u, cfg.wCompetition * v, cfg.wValue * w;
    assert Weighted(cfg, u, v, w) == p + q + r;
    ProductSign(cfg.wUrgency, u);
    ProductSign(cfg.wCompetition, v);
    ProductSign(cfg.wValue, w);
    hide Weighted;
  }

  lemma ProductSign(x: real, y: real)
    requires x >= 0.0 && y >= 0.0
    ensures x * y >= 0.0 && (x > 0.0 && y > 0.0 ==> x * y > 0.0)
  {}

  lemma WorthSign(cfg: TiebreakConfig, u: real, v: real, w: real)
    requires cfg.Valid() && u >= 0.0 && v >= 0.0 && w >= 0.0
    ensures Worth(cfg, u, v, w) >= 0.0
    ensures cfg.maxBonus > 0.0
            && ((cfg.wUrgency > 0.0 && u > 0.0) || (cfg.wCompetition > 0.0 && v > 0.0) || (cfg.wValue > 0.0 && w > 0.0))
            ==> Worth(cfg, u, v, w) > 0.0
  {
    hide Weighted;
    WeightedSign(cfg, u, v, w);
    var sum := Weighted(cfg, u, v, w);
    assert Worth(cfg, u, v, w) == cfg.maxBonus * sum;
    ProductSign(cfg.maxBonus, sum);
  }

  /** The first result ends no later than the second; strictly, if it ends sooner within the horizon. */
  predicate NoLater(a: Fields, b: Fields) {
    b.timeToEnd.Number? ==> a.timeToEnd.Number? && a.timeToEnd.value <= b.timeToEnd.value
  }

  predicate Sooner(cfg: TiebreakConfig, a: Fields, b: Fields) {
    && a.timeToEnd.Number? && a.timeToEnd.value < cfg.horizon
    && (b.timeToEnd.Number? ==> b.timeToEnd.value > 0.0 && a.timeToEnd.value < b.timeToEnd.value)
  }

  lemma UrgencyFalls(cfg: TiebreakConfig, a: Fields, b: Fields)
    requires cfg.Valid() && Sooner(cfg, a, b)
    ensures Urgency(cfg, a) > Urgency(cfg, b)
  {
    hide Urgency;
    UrgencyMeaning(cfg, a);
    UrgencyMeaning(cfg, b);
    var h, u, v := cfg.horizon, Urgency(cfg, a), Urgency(cfg, b);
    if b.timeToEnd.Number? && b.timeToEnd.value < h && a.timeToEnd.value > 0.0 {
      LargerQuotient(h, u, v, a.timeToEnd.value, b.timeToEnd.value);
    } else {
      UrgencyInside(cfg, a);
      UrgencyInside(cfg, b);
    }
  }

  lemma LargerQuotient(h: real, u: real, v: real, x: real, y: real)
    requires h > 0.0 && u * h == h - x && v * h == h - y && x < y
    ensures u > v
  {
    if u <= v { Larger(h, u, v); }
  }

  /** Strictly before the end and strictly within the horizon, urgency is neither 0 nor 1. */
  lemma UrgencyInside(cfg: TiebreakConfig, f: Fields)
    requires cfg.Valid()
    ensures f.timeToEnd.Number? && f.timeToEnd.value < cfg.horizon ==> Urgency(cfg, f) > 0.0
    ensures f.timeToEnd.Number? ==> f.timeToEnd.value > 0.0 ==> Urgency(cfg, f) < 1.0
  {
    hide Urgency;
    UrgencyMeaning(cfg, f);
    var h, u := cfg.horizon, Urgency(cfg, f);
    if f.timeToEnd.Number? && 0.0 < f.timeToEnd.value < h {
      assert u * h == h - f.timeToEnd.value;
      if u <= 0.0 { Larger(h, u, 0.0); }
      if u >= 1.0 { Larger(h, 1.0, u); }
    }
  }

  /** The first result is no less coherent, ends no later, has no more bids and no lower value, and is strictly better
      in one of these that carries weight. */
  predicate Dominates(cfg: TiebreakConfig, a: Fields, b: Fields) {
    && NumberOr0(a.coherence) >= NumberOr0(b.coherence) && NoLater(a, b)
    && BidsOf(a) <= BidsOf(b) && ValueOf(a) >= ValueOf(b)
    && (|| NumberOr0(a.coherence) > NumberOr0(b.coherence)
        || (cfg.maxBonus > 0.0
            && (|| (cfg.wUrgency > 0.0 && Sooner(cfg, a, b))
                || (cfg.wCompetition > 0.0 && BidsOf(a) < BidsOf(b))
                || (cfg.wValue > 0.0 && ValueOf(a) > ValueOf(b)))))
  }

  lemma LeadOfDominant(cfg: TiebreakConfig, log1p: real -> real, agg: Aggregates, a: Fields, b: Fields)
    requires cfg.Valid() && agg.maxBids > 0.0 && agg.logSpan > 0.0
    requires Urgency(cfg, a) >= Urgency(cfg, b) && BidsOf(a) <= BidsOf(b) && log1p(ValueOf(a)) >= log1p(ValueOf(b))
    ensures Lead(cfg, log1p, agg, a, b) >= 0.0
    ensures cfg.maxBonus > 0.0
            && (|| (cfg.wUrgency > 0.0 && Urgency(cfg, a) > Urgency(cfg, b))
                || (cfg.wCompetition > 0.0 && BidsOf(a) < BidsOf(b))
                || (cfg.wValue > 0.0 && log1p(ValueOf(a)) > log1p(ValueOf(b)))) ==>
              Lead(cfg, log1p, agg, a, b) > 0.0
  {
    hide Urgency;
    hide BidsOf;
    hide ValueOf;
    var more, gain := BidsOf(b) - BidsOf(a), log1p(ValueOf(a)) - log1p(ValueOf(b));
    ShareSign(more, agg.maxBids);
    ShareSign(gain, agg.logSpan);
    hide Worth;
    WorthSign(cfg, Urgency(cfg, a) - Urgency(cfg, b), more / agg.maxBids, gain / agg.logSpan);
  }

  lemma DominantLeads(cfg: TiebreakConfig, log1p: real -> real, fs: seq<Fields>, a: Fields, b: Fields)
    requires cfg.Valid() && fs != [] && forall x, y | 0.0 <= x < y :: log1p(x) < log1p(y)
    requires Dominates(cfg, a, b)
    ensures Blended(cfg, log1p, fs, a) > Blended(cfg, log1p, fs, b)
  {
    SoonerIsUrgent(cfg, a, b);
    if Sooner(cfg, a, b) { UrgencyFalls(cfg, a, b); }
    assert 0.0 <= ValueOf(b) <= ValueOf(a);
    hide Aggregate;
    hide Urgency;
    hide Blended;
    hide BidsOf;
    hide ValueOf;
    hide Lead;
    assert log1p(ValueOf(b)) <= log1p(ValueOf(a));
    LeadOfDominant(cfg, log1p, Aggregate(log1p, fs), a, b);
    KeyDifference(cfg, log1p, fs, a, b);
  }

  /** Main result on breaking ties, for every list: a result that dominates another stands before it. */
  lemma DominantStandsFirst(cfg: TiebreakConfig, log1p: real -> real, results: seq<RankedResult>, i: nat, j: nat)
    requires cfg.Valid() && results != [] && forall x, y | 0.0 <= x < y :: log1p(x) < log1p(y)
    requires i < |Reordered(cfg, log1p, results)| && j < |Reordered(cfg, log1p, results)|
    requires Dominates(cfg, Reordered(cfg, log1p, results)[i].fields, Reordered(cfg, log1p, results)[j].fields)
    ensures i < j
  {
    var out := Reordered(cfg, log1p, results);
    assert FieldsOf(results) != [];
    hide *;
    DominantLeads(cfg, log1p, FieldsOf(results), out[i].fields, out[j].fields);
    HigherStandsFirst(cfg, log1p, results, i, j);
  }

  /** In particular, of two results alike but for the time left, the one that ends sooner, */
  lemma SoonerStandsFirst(cfg: TiebreakConfig, log1p: real -> real, results: seq<RankedResult>, i: nat, j: nat)
    requires cfg.Valid() && results != [] && forall x, y | 0.0 <= x < y :: log1p(x) < log1p(y)
    requires cfg.maxBonus > 0.0 && cfg.wUrgency > 0.0
    requires i < |Reordered(cfg, log1p, results)| && j < |Reordered(cfg, log1p, results)|
    requires var a, b := Reordered(cfg, log1p, results)[i].fields, Reordered(cfg, log1p, results)[j].fields;
             && a == b.(timeToEnd := a.timeToEnd) && a.timeToEnd.Number? && b.timeToEnd.Number?
             && a.timeToEnd.value < b.timeToEnd.value && a.timeToEnd.value < cfg.horizon && b.timeToEnd.value > 0.0
    ensures i < j
  {
    hide Reordered;
    DominantStandsFirst(cfg, log1p, results, i, j);
  }

  /** the one with fewer bids, */
  lemma FewerBidsStandFirst(cfg: TiebreakConfig, log1p: real -> real, results: seq<RankedResult>, i: nat, j: nat)
    requires cfg.Valid() && results != [] && forall x, y | 0.0 <= x < y :: log1p(x) < log1p(y)
    requires cfg.maxBonus > 0.0 && cfg.wCompetition > 0.0
    requires i < |Reordered(cfg, log1p, results)| && j < |Reordered(cfg, log1p, results)|
    requires var a, b := Reordered(cfg, log1p, results)[i].fields, Reordered(cfg, log1p, results)[j].fields;
             && a == b.(bids := a.bids) && a.bids.Number? && b.bids.Number?
             && a.bids.value < b.bids.value && b.bids.value > 0.0
    ensures i < j
  {
    hide Reordered;
    DominantStandsFirst(cfg, log1p, results, i, j);
  }

  /** and the one of higher value stands first. */
  lemma DearerStandsFirst(cfg: TiebreakConfig, log1p: real -> real, results: seq<RankedResult>, i: nat, j: nat)
    requires cfg.Valid() && results != [] && forall x, y | 0.0 <= x < y :: log1p(x) < log1p(y)
    requires cfg.maxBonus > 0.0 && cfg.wValue > 0.0
    requires i < |Reordered(cfg, log1p, results)| && j < |Reordered(cfg, log1p, results)|
    requires var a, b := Reordered(cfg, log1p, results)[i].fields, Reordered(cfg, log1p, results)[j].fields;
             && a == b.(valuation := a.valuation) && a.valuation.Number? && b.valuation.Number?
             && a.valuation.value > b.valuation.value && a.valuation.value > 0.0
    ensures i < j
  {
    hide Reordered;
    DominantStandsFirst(cfg, log1p, results, i, j);
  }

  // ---- Main results

  /** The tie-break permutes the results into descending blended order and keeps equal results in place. */
  lemma TiebreakOrders(cfg: TiebreakConfig, log1p: real -> real, results: seq<RankedResult>, i: nat, j: nat, k: real)
    requires cfg.Valid() && i < j < |results|
    ensures var out := Reordered(cfg, log1p, results);
            var key := KeyIn(cfg, log1p, FieldsOf(results));
            && multiset(out) == multiset(results) && |out| == |results|
            && key(out[i]) >= key(out[j])
            && StableSort.Filter(HasKey(key, k), out) == StableSort.Filter(HasKey(key, k), results)
  {
    var key := KeyIn(cfg, log1p, FieldsOf(results));
    SortByKeySorts(key, results, i, j, k);
  }

  /** No result is lifted over one that is more coherent by more than the bonus cap times the sum of the weights. */
  lemma CoherenceGapIsRespected(cfg: TiebreakConfig, log1p: real -> real, results: seq<RankedResult>, i: nat, j: nat)
    requires cfg.Valid() && i < j < |results|
    ensures var out := Reordered(cfg, log1p, results);
            |out| == |results| &&
            NumberOr0(out[j].fields.coherence) - NumberOr0(out[i].fields.coherence) <= cfg.maxBonus * cfg.WeightSum()
  {
    var fs := FieldsOf(results);
    var out := Reordered(cfg, log1p, results);
    SortByKeyDescends(KeyIn(cfg, log1p, fs), results, i, j);
    SortByKeyPermutes(KeyIn(cfg, log1p, fs), results);
    StableSort.SameMembers(out, results);
    FieldsMember(results, out[i]);
    FieldsMember(results, out[j]);
    SmallGap(cfg, log1p, fs, out[i].fields, out[j].fields);
  }

  const SHIPPED := TiebreakConfig(true, 0.06, 72.0, 0.5, 0.2, 0.3)

  /** With the shipped settings no result is lifted over one that is more coherent by more than 0.06. */
  lemma ShippedGap(log1p: real -> real, results: seq<RankedResult>, i: nat, j: nat)
    requires i < j < |results|
    ensures SHIPPED.Valid()
    ensures var out := Reordered(SHIPPED, log1p, results);
            |out| == |results| && NumberOr0(out[j].fields.coherence) - NumberOr0(out[i].fields.coherence) <= 0.06
  {
    ShippedBound();
    hide *;
    CoherenceGapIsRespected(SHIPPED, log1p, results, i, j);
  }

  lemma ShippedBound()
    ensures SHIPPED.Valid() && SHIPPED.maxBonus * SHIPPED.WeightSum() == 0.06
  {}

  lemma SmallGap(cfg: TiebreakConfig, log1p: real -> real, fs: seq<Fields>, a: Fields, b: Fields)
    requires cfg.Valid() && a in fs && b in fs
    requires Blended(cfg, log1p, fs, a) >= Blended(cfg, log1p, fs, b)
    ensures NumberOr0(b.coherence) - NumberOr0(a.coherence) <= cfg.maxBonus * cfg.WeightSum()
  {
    BonusBounded(cfg, log1p, fs, a);
    BonusBounded(cfg, log1p, fs, b);
  }

  lemma FieldsMember(results: seq<RankedResult>, r: RankedResult)
    requires r in results
    ensures r.fields in FieldsOf(results)
  {
    var n :| 0 <= n < |results| && results[n] == r;
    assert FieldsOf(results)[n] == r.fields;
  }

  /** The aggregates do not depend on the order of the list. */
  lemma AggregatePermutes(log1p: real -> real, a: seq<Fields>, b: seq<Fields>)
    requires a != [] && b != [] && multiset(a) == multiset(b)
    ensures Aggregate(log1p, a) == Aggregate(log1p, b)
  {
    var logOf := (f: Fields) => log1p(ValueOf(f));
    StableSort.MapPermutes(BidsOf, a, b);
    StableSort.MapPermutes(logOf, a, b);
    SameBounds(MapSeq(BidsOf, a), MapSeq(BidsOf, b));
    SameBounds(MapSeq(logOf, a), MapSeq(logOf, b));
  }

  lemma SameBounds(a: seq<real>, b: seq<real>)
    requires a != [] && b != [] && multiset(a) == multiset(b)
    ensures MaxOf(a) == MaxOf(b) && MinOf(a) == MinOf(b)
  {
    StableSort.SameMembers(a, b);
    BoundsAgreeOn(a, b);
  }

  /** Applying the tie-break to its own output changes nothing. */
  lemma TiebreakIsIdempotent(cfg: TiebreakConfig, log1p: real -> real, results: seq<RankedResult>)
    requires cfg.Valid() && results != []
    ensures var out := Reordered(cfg, log1p, results);
            out != [] && Reordered(cfg, log1p, out) == out
  {
    var key := KeyIn(cfg, log1p, FieldsOf(results));
    var out := Reordered(cfg, log1p, results);
    SortByKeyPermutes(key, results);
    StableSort.SameMembers(out, results);
    forall r: RankedResult
      ensures KeyIn(cfg, log1p, FieldsOf(out))(r) == key(r)
    {
      KeysAgree(cfg, log1p, out, results, r);
    }
    hide KeyIn;
    forall i, j | 0 <= i < j < |out| ensures key(out[i]) >= key(out[j]) {
      SortByKeyDescends(key, results, i, j);
    }
    SortByKeyFixes(KeyIn(cfg, log1p, FieldsOf(out)), out);
  }

  /** Rearranging the list does not change anybody's key. */
  lemma KeysAgree(cfg: TiebreakConfig, log1p: real -> real, a: seq<RankedResult>, b: seq<RankedResult>, r: RankedResult)
    requires cfg.Valid() && a != [] && b != [] && multiset(a) == multiset(b)
    ensures KeyIn(cfg, log1p, FieldsOf(a))(r) == KeyIn(cfg, log1p, FieldsOf(b))(r)
  {
    var fieldOf := (x: RankedResult) => x.fields;
    StableSort.MapPermutes(fieldOf, a, b);
    assert FieldsOf(a) == MapSeq(fieldOf, a) && FieldsOf(b) == MapSeq(fieldOf, b);
    AggregatePermutes(log1p, FieldsOf(a), FieldsOf(b));
  }
}
