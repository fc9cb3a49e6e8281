/** Scoring and ordering of models (packages/llm-core/llm_core/ranker.py).  Scores are exact reals. */
module Ranker {
  import opened Common
  import opened ModelRegistry
  import opened Reals
  import StableSort

  const NEUTRAL_META := Meta("", 3, 3, 3, 0.0, 0.0, 0.0)
  const SCORE_BASE := 6

  datatype RankWeights = RankWeights(capability: real, cost: real, latency: real)

  /** Normalises a raw weight table; a missing key or a non-positive sum is an error. */
  function WeightsFromDict(raw: map<string, real>): (r: Result<RankWeights, string>)
    ensures r.Ok? <==>
            "capability" in raw && "cost" in raw && "latency" in raw
            && raw["capability"] + raw["cost"] + raw["latency"] > 0.0
    ensures r.Ok? ==> r.value.capability + r.value.cost + r.value.latency == 1.0
    ensures r.Ok? ==> var total := raw["capability"] + raw["cost"] + raw["latency"];
                      r.value.capability * total == raw["capability"] && r.value.cost * total == raw["cost"]
                      && r.value.latency * total == raw["latency"]
    ensures r.Ok? ==> (r.value.cost >= 0.0 <==> raw["cost"] >= 0.0)
    ensures r.Ok? ==> (r.value.capability >= 0.0 <==> raw["capability"] >= 0.0)
    ensures r.Ok? ==> (r.value.latency >= 0.0 <==> raw["latency"] >= 0.0)
  {
    if "capability" !in raw then Err("capability")
    else if "cost" !in raw then Err("cost")
    else if "latency" !in raw then Err("latency")
    else
      var total := raw["capability"] + raw["cost"] + raw["latency"];
      if total <= 0.0 then Err("sum")
      else
        var w := RankWeights(raw["capability"] / total, raw["cost"] / total, raw["latency"] / total);
        Proportion(raw["capability"], total);
        Proportion(raw["cost"], total);
        Proportion(raw["latency"], total);
        SumsToOne(raw["capability"], raw["cost"], raw["latency"], total);
        Ok(w)
  }

  lemma Proportion(a: real, total: real)
    requires total > 0.0
    ensures a / total * total == a && (a / total >= 0.0 <==> a >= 0.0)
  {
    Ratio(a, total);
  }

  lemma SumsToOne(a: real, b: real, c: real, total: real)
    requires total > 0.0 && a + b + c == total
    ensures a / total + b / total + c / total == 1.0
  {
    assert a / total + b / total + c / total == (a + b + c) / total;
  }

  /** A negative weight is not refused, only a sum that is not positive: this table is taken as it is, and under it a
      dearer model scores higher. */
  lemma NegativeWeightAccepted()
    ensures WeightsFromDict(map["capability" := 2.0, "cost" := -1.0, "latency" := 0.0]) ==
            Ok(RankWeights(2.0, -1.0, 0.0))
  {
    var r := WeightsFromDict(map["capability" := 2.0, "cost" := -1.0, "latency" := 0.0]);
    assert r.Ok? && r.value == RankWeights(2.0 / 1.0, -1.0 / 1.0, 0.0 / 1.0);
  }

  datatype Stats = Stats(sampleCount: int, p50: Option<real>, errorRate: real)

  /** Settings, name rules, and the way the library happens to cut and merge each list it sorts. */
  datatype RankerConfig = RankerConfig(
    buckets: seq<real>, errorThreshold: real, minSamples: int, providerPref: map<string, int>, rules: NameRules,
    plan: seq<Entry> -> StableSort.Plan)
  {
    predicate Valid() {
      |buckets| == 4
    }
  }

  /** Preferences of the first `k` providers of the priority list; a provider named again takes its later place. */
  function Preferences(priority: seq<string>, k: nat): map<string, int>
    requires k <= |priority|
  {
    if k == 0 then map[] else Preferences(priority, k - 1)[priority[k - 1] := |priority| - (k - 1)]
  }

  /** What building a ranker checks and derives. */
  function MakeConfig(buckets: seq<real>, errorThreshold: real, minSamples: int, priority: seq<string>,
                      rules: NameRules, plan: seq<Entry> -> StableSort.Plan): (r: Result<RankerConfig, string>)
    ensures r.Ok? <==> |buckets| == 4 && priority != []
    ensures r.Ok? ==> r.value == RankerConfig(buckets, errorThreshold, minSamples, r.value.providerPref, rules, plan)
    ensures r.Ok? ==> r.value.Valid() && r.value.providerPref == Preferences(priority, |priority|)
  {
    if |buckets| != 4 then Err("latency_buckets_ms")
    else if priority == [] then Err("provider_tiebreak_priority")
    else Ok(RankerConfig(buckets, errorThreshold, minSamples, Preferences(priority, |priority|), rules, plan))
  }

  function PreferenceOf(prefs: map<string, int>, provider: string): int {
    if provider in prefs then prefs[provider] else 0
  }

  lemma {:induction false} PreferenceOfListed(priority: seq<string>, k: nat, i: nat)
    requires i < k <= |priority| && priority[i] !in priority[i + 1..k]
    ensures PreferenceOf(Preferences(priority, k), priority[i]) == |priority| - i
  {
    if k - 1 != i {
      assert priority[i + 1..k][k - 2 - i] == priority[k - 1];
      assert priority[i + 1..k - 1] == priority[i + 1..k][..k - 2 - i];
      PreferenceOfListed(priority, k - 1, i);
    }
  }

  lemma {:induction false} PreferenceOfOther(priority: seq<string>, k: nat, provider: string)
    requires k <= |priority| && provider !in priority
    ensures PreferenceOf(Preferences(priority, k), provider) == 0
  {
    if k > 0 { PreferenceOfOther(priority, k - 1, provider); }
  }

  /** A provider counts where it is listed last; an earlier one is preferred to a later one, and any listed one to an
      unlisted. */
  lemma EarlierIsPreferred(priority: seq<string>, i: nat, j: nat, other: string)
    requires i < j < |priority| && other !in priority
    requires priority[i] !in priority[i + 1..] && priority[j] !in priority[j + 1..]
    ensures var prefs := Preferences(priority, |priority|);
            PreferenceOf(prefs, priority[i]) > PreferenceOf(prefs, priority[j]) > PreferenceOf(prefs, other) == 0
  {
    PreferenceOfListed(priority, |priority|, i);
    PreferenceOfListed(priority, |priority|, j);
    PreferenceOfOther(priority, |priority|, other);
  }

  function LatencyToTier(cfg: RankerConfig, p50: real): (t: int)
    requires cfg.Valid()
    ensures 1 <= t <= 5
    ensures forall k | 0 <= k < t - 1 :: p50 > cfg.buckets[k]
    ensures t < 5 ==> p50 <= cfg.buckets[t - 1]
  {
    if p50 <= cfg.buckets[0] then 1
    else if p50 <= cfg.buckets[1] then 2
    else if p50 <= cfg.buckets[2] then 3
    else if p50 <= cfg.buckets[3] then 4
    else 5
  }

  /** The measured latency of a model, once enough samples stand behind it. */
  function MeasuredP50(cfg: RankerConfig, stats: map<string, Stats>, model: string): Option<real> {
    if model in stats && stats[model].sampleCount >= cfg.minSamples then stats[model].p50 else None
  }

  function EffectiveLatencyTier(cfg: RankerConfig, stats: map<string, Stats>, model: string, staticTier: int): int
    requires cfg.Valid()
  {
    match MeasuredP50(cfg, stats, model)
    case Some(p50) => LatencyToTier(cfg, p50)
    case None => staticTier
  }

  predicate IsDemoted(cfg: RankerConfig, stats: map<string, Stats>, model: string) {
    model in stats && stats[model].sampleCount >= cfg.minSamples && stats[model].errorRate > cfg.errorThreshold
  }

  function ScoreModel(cfg: RankerConfig, model: string, meta: Meta, w: RankWeights, stats: map<string, Stats>): real
    requires cfg.Valid()
  {
    Weigh(w, meta.capabilityTier as real, (SCORE_BASE - meta.costTier) as real,
          (SCORE_BASE - EffectiveLatencyTier(cfg, stats, model, meta.latencyTier)) as real)
  }

  ghost predicate TiersInRange(meta: Meta) {
    1 <= meta.capabilityTier <= 5 && 1 <= meta.costTier <= 5 && 1 <= meta.latencyTier <= 5
  }

  ghost predicate Normalised(w: RankWeights) {
    w.capability >= 0.0 && w.cost >= 0.0 && w.latency >= 0.0 && w.capability + w.cost + w.latency == 1.0
  }

  /** The weighted sum behind a score. */
  function Weigh(w: RankWeights, capability: real, cheapness: real, speed: real): real {
    w.capability * capability + w.cost * cheapness + w.latency * speed
  }

  lemma WeighMonotone(w: RankWeights, a: real, b: real, c: real, x: real, y: real, z: real)
    requires w.capability >= 0.0 && w.cost >= 0.0 && w.latency >= 0.0
    requires a <= x && b <= y && c <= z
    ensures Weigh(w, a, b, c) <= Weigh(w, x, y, z)
  {
    Larger(w.capability, a, x);
    Larger(w.cost, b, y);
    Larger(w.latency, c, z);
  }

  lemma WeighConstant(w: RankWeights, t: real)
    requires Normalised(w)
    ensures Weigh(w, t, t, t) == t
  {
    assert Weigh(w, t, t, t) == (w.capability + w.cost + w.latency) * t;
  }

  /** Under normalised weights a score is a tier again, between 1 and 5. */
  lemma ScoreInRange(cfg: RankerConfig, model: string, meta: Meta, w: RankWeights, stats: map<string, Stats>)
    requires cfg.Valid() && Normalised(w) && TiersInRange(meta)
    ensures 1.0 <= ScoreModel(cfg, model, meta, w, stats) <= 5.0
  {
    hide Weigh;
    var cap, cheap := meta.capabilityTier as real, (SCORE_BASE - meta.costTier) as real;
    var speed := (SCORE_BASE - EffectiveLatencyTier(cfg, stats, model, meta.latencyTier)) as real;
    assert 1.0 <= cap <= 5.0 && 1.0 <= cheap <= 5.0 && 1.0 <= speed <= 5.0;
    WeighConstant(w, 1.0);
    WeighConstant(w, 5.0);
    WeighMonotone(w, 1.0, 1.0, 1.0, cap, cheap, speed);
    WeighMonotone(w, cap, cheap, speed, 5.0, 5.0, 5.0);
  }

  /** More capable, in a cheaper tier, in a faster tier: none of these lowers a score. */
  lemma ScoreMonotone(cfg: RankerConfig, m: string, n: string, a: Meta, b: Meta, w: RankWeights,
                      stats: map<string, Stats>)
    requires cfg.Valid() && w.capability >= 0.0 && w.cost >= 0.0 && w.latency >= 0.0
    requires a.capabilityTier >= b.capabilityTier && a.costTier <= b.costTier
    requires EffectiveLatencyTier(cfg, stats, m, a.latencyTier) <= EffectiveLatencyTier(cfg, stats, n, b.latencyTier)
    ensures ScoreModel(cfg, m, a, w, stats) >= ScoreModel(cfg, n, b, w, stats)
  {
    hide Weigh;
    hide EffectiveLatencyTier;
    WeighMonotone(w, b.capabilityTier as real, (SCORE_BASE - b.costTier) as real,
                  (SCORE_BASE - EffectiveLatencyTier(cfg, stats, n, b.latencyTier)) as real,
                  a.capabilityTier as real, (SCORE_BASE - a.costTier) as real,
                  (SCORE_BASE - EffectiveLatencyTier(cfg, stats, m, a.latencyTier)) as real);
  }

  /** One row of the sort: score, cost and latency tie-breaks (higher is better), family, recency, preference. */
  datatype Entry = Entry(
    model: string, score: real, cost: real, latency: Option<real>, family: string, recency: Recency, pref: int)

  predicate RecencyGreater(a: Recency, b: Recency) {
    a.dotted > b.dotted
    || (a.dotted == b.dotted
        && (a.major > b.major
            || (a.major == b.major
                && (a.minor > b.minor || (a.minor == b.minor && a.date > b.date)))))
  }

  /** Three-way comparison of two rows; positive means `a` is the better one. */
  function Compare(a: Entry, b: Entry): int {
    if a.score != b.score then (if a.score > b.score then 1 else -1)
    else if a.cost != b.cost then (if a.cost > b.cost then 1 else -1)
    else if a.latency.Some? && b.latency.Some? && a.latency.value != b.latency.value then
      (if a.latency.value > b.latency.value then 1 else -1)
    else if a.family == b.family && a.family != "" then
      (if a.recency != b.recency then (if RecencyGreater(a.recency, b.recency) then 1 else -1) else 0)
    else if a.pref != b.pref then (if a.pref > b.pref then 1 else -1)
    else 0
  }

  function Worse(): (Entry, Entry) -> bool {
    (a, b) => Compare(a, b) < 0
  }

  // ---- How much of an order the comparison is

  lemma CompareAntisymmetric(a: Entry, b: Entry)
    ensures Compare(a, b) == -Compare(b, a)
  {}

  /** Where each tie-break may look: versions never decide across families, provider preference never within one, and a
      measured latency never against an unmeasured model. */
  lemma TiebreakScopes(a: Entry, b: Entry, newer: Recency, pref: int, p50: Option<real>)
    ensures a.family != b.family ==> Compare(a.(recency := newer), b) == Compare(a, b)
    ensures a.family == b.family != "" ==> Compare(a.(pref := pref), b) == Compare(a, b)
    ensures b.latency.None? ==> Compare(a.(latency := p50), b) == Compare(a, b)
  {}

  /** Scoring higher, costing less, answering faster, being newer or better placed never worsens a comparison. */
  lemma CompareMonotone(a: Entry, b: Entry, score: real, cost: real, latency: real, newer: Recency, pref: int)
    ensures score >= a.score ==> Compare(a.(score := score), b) >= Compare(a, b)
    ensures cost >= a.cost ==> Compare(a.(cost := cost), b) >= Compare(a, b)
    ensures a.latency.Some? && latency >= a.latency.value ==> Compare(a.(latency := Some(latency)), b) >= Compare(a, b)
    ensures !RecencyGreater(a.recency, newer) ==> Compare(a.(recency := newer), b) >= Compare(a, b)
    ensures pref >= a.pref ==> Compare(a.(pref := pref), b) >= Compare(a, b)
  {
    RecencyTotal(a.recency, newer);
    RecencyTotal(a.recency, b.recency);
    RecencyTotal(newer, b.recency);
  }

  lemma RecencyTotal(a: Recency, b: Recency)
    ensures a == b || RecencyGreater(a, b) || RecencyGreater(b, a)
    ensures !(RecencyGreater(a, b) && RecencyGreater(b, a))
  {}

  lemma WorseAsymmetric(s: seq<Entry>)
    ensures StableSort.AsymmetricOn(Worse(), s)
  {
    forall x, y | x in s && y in s && Worse()(x, y) ensures !Worse()(y, x) {
      CompareAntisymmetric(x, y);
    }
  }

  predicate Level(a: Entry, b: Entry) {
    a.score == b.score && a.cost == b.cost
  }

  predicate Kin(a: Entry, b: Entry) {
    a.family == b.family && a.family != ""
  }

  /** The preference of `k` lies between those of `i` and `j`, ends included. */
  predicate Between(i: Entry, k: Entry, j: Entry) {
    i.pref <= k.pref <= j.pref || j.pref <= k.pref <= i.pref
  }

  /** Three level rows whose comparisons two different tie-breaks can decide against each other: two rows of a family
      with a stranger's preference between theirs, or two measured rows and an unmeasured one that is kin to one of
      them or whose preference lies between theirs.  It takes two different preferences to break transitivity itself
      (`strict`); with three equal ones only the ties are not transitive. */
  predicate Clash(strict: bool, i: Entry, j: Entry, k: Entry) {
    var spans := Between(i, k, j) && (strict ==> i.pref != j.pref);
    && Level(i, j) && Level(i, k)
    && (|| (Kin(i, j) && !Kin(i, k) && spans)
        || (i.latency.Some? && j.latency.Some? && k.latency.None? && (Kin(i, k) || Kin(j, k) || spans)))
  }

  /** No three different rows clash.  Which of the measured latencies is the smaller and which of two versions the newer
      does not come into it. */
  ghost predicate NoClash(strict: bool, s: seq<Entry>) {
    forall i, j, k | 0 <= i < |s| && 0 <= j < |s| && 0 <= k < |s| && i != j && i != k && j != k ::
      !Clash(strict, s[i], s[j], s[k])
  }

  /** The same rows with other measurements and other versions; the same ones are measured.  Rows are taken as they
      are here: the score stays while the measurement varies, although `EntryFor` derives it from the bucket of that
      measurement. */
  predicate Variant(s: seq<Entry>, t: seq<Entry>) {
    |s| == |t| && forall n | 0 <= n < |s| :: Alike(s[n], t[n])
  }

  predicate Alike(a: Entry, b: Entry) {
    b == a.(latency := b.latency, recency := b.recency) && a.latency.Some? == b.latency.Some?
  }

  lemma ClashIgnores(strict: bool, a: Entry, b: Entry, c: Entry, x: Entry, y: Entry, z: Entry)
    requires Alike(a, x) && Alike(b, y) && Alike(c, z)
    ensures Clash(strict, a, b, c) == Clash(strict, x, y, z)
  {}

  lemma ClashVaries(strict: bool, s: seq<Entry>, t: seq<Entry>)
    requires Variant(s, t)
    ensures NoClash(strict, s) == NoClash(strict, t)
  {
    hide Clash;
    hide Alike;
    forall i, j, k | 0 <= i < |s| && 0 <= j < |s| && 0 <= k < |s|
      ensures Clash(strict, s[i], s[j], s[k]) == Clash(strict, t[i], t[j], t[k])
    {
      ClashIgnores(strict, s[i], s[j], s[k], t[i], t[j], t[k]);
    }
  }

  /** None of the three rows clashes with the other two. */
  ghost predicate Harmless(strict: bool, a: Entry, b: Entry, c: Entry) {
    && !Clash(strict, a, b, c) && !Clash(strict, a, c, b) && !Clash(strict, b, c, a)
  }

  lemma HarmlessTransitive(a: Entry, b: Entry, c: Entry)
    requires Harmless(true, a, b, c) && Compare(a, b) < 0 && Compare(b, c) < 0
    ensures Compare(a, c) < 0
  {
    RecencyTotal(a.recency, b.recency);
    RecencyTotal(b.recency, c.recency);
    RecencyTotal(a.recency, c.recency);
  }

  lemma HarmlessTies(a: Entry, b: Entry, c: Entry)
    requires Harmless(false, a, b, c) && Compare(a, b) == 0 && Compare(b, c) == 0
    ensures Compare(a, c) == 0
  {
    RecencyTotal(a.recency, b.recency);
    RecencyTotal(b.recency, c.recency);
  }

  lemma ThreeRows(strict: bool, s: seq<Entry>, x: Entry, y: Entry, z: Entry)
    requires NoClash(strict, s) && x in s && y in s && z in s && x != y && y != z && x != z
    ensures Harmless(strict, x, y, z)
  {
    var i :| 0 <= i < |s| && s[i] == x;
    var j :| 0 <= j < |s| && s[j] == y;
    var k :| 0 <= k < |s| && s[k] == z;
    assert i != j && j != k && i != k;
  }

  lemma NoClashMonotone(s: seq<Entry>)
    requires NoClash(false, s)
    ensures NoClash(true, s)
  {}

  lemma NoClashOrders(s: seq<Entry>)
    requires NoClash(true, s)
    ensures StableSort.PartialOrderOn(Worse(), s)
  {
    WorseAsymmetric(s);
    forall x, y, z | x in s && y in s && z in s && Worse()(x, y) && Worse()(y, z) ensures Worse()(x, z) {
      CompareAntisymmetric(x, y);
      ThreeRows(true, s, x, y, z);
      HarmlessTransitive(x, y, z);
    }
  }

  lemma NoClashRanks(s: seq<Entry>)
    requires NoClash(false, s)
    ensures StableSort.WeakOrderOn(Worse(), s)
  {
    NoClashMonotone(s);
    NoClashOrders(s);
    forall x, y, z | x in s && y in s && z in s && StableSort.Tie(Worse(), x, y) && StableSort.Tie(Worse(), y, z)
      ensures StableSort.Tie(Worse(), x, z)
    {
      CompareAntisymmetric(x, y);
      CompareAntisymmetric(y, z);
      CompareAntisymmetric(x, z);
      if x != y && y != z && x != z {
        ThreeRows(false, s, x, y, z);
        HarmlessTies(x, y, z);
      }
    }
  }

  /** A row with a chosen measurement (if it is measured at all) and a chosen version. */
  function Tuned(e: Entry, fast: bool, newer: bool): Entry {
    e.(latency := if e.latency.Some? then Some(if fast then 1.0 else 0.0) else None,
       recency := if newer then R1 else R0)
  }

  /** Transitivity, or for ties as well "not worse" taken transitively, fails on these three rows. */
  ghost predicate Broken(strict: bool, x: Entry, y: Entry, z: Entry) {
    if strict then Compare(x, y) < 0 && Compare(y, z) < 0 && Compare(x, z) >= 0
    else Compare(x, y) <= 0 && Compare(y, z) <= 0 && Compare(x, z) > 0
  }

  ghost predicate BrokenSomehow(strict: bool, a: Entry, b: Entry, c: Entry) {
    || Broken(strict, a, b, c) || Broken(strict, a, c, b) || Broken(strict, b, a, c)
    || Broken(strict, b, c, a) || Broken(strict, c, a, b) || Broken(strict, c, b, a)
  }

  /** Rows that clash: which of them to measure as the fastest and which to make the newest (0, 1, 2; 3 for none). */
  lemma ClashTunes(strict: bool, a: Entry, b: Entry, c: Entry) returns (fast: nat, newer: nat)
    requires Clash(strict, a, b, c)
    ensures BrokenSomehow(strict, Tuned(a, fast == 0, newer == 0), Tuned(b, fast == 1, newer == 1),
                          Tuned(c, fast == 2, newer == 2))
  {
    var low := if a.pref <= b.pref then 0 else 1;
    if Kin(a, b) && !Kin(a, c) && Between(a, c, b) && (strict ==> a.pref != b.pref) {
      fast, newer := 3, low;
    } else if Kin(a, c) && Kin(b, c) {
      fast, newer := 1, 0;
    } else if Kin(a, c) {
      fast, newer := if c.pref < b.pref then 0 else 1, if c.pref == b.pref then 0 else 3;
    } else if Kin(b, c) {
      fast, newer := if c.pref < a.pref then 1 else 0, if c.pref == a.pref then 1 else 3;
    } else {
      fast, newer := low, 3;
    }
  }

  lemma BrokenIsNoOrder(strict: bool, t: seq<Entry>, x: Entry, y: Entry, z: Entry)
    requires x in t && y in t && z in t && Broken(strict, x, y, z)
    ensures !StableSort.WeakOrderOn(Worse(), t)
    ensures strict ==> !StableSort.PartialOrderOn(Worse(), t)
  {
    if strict {
      assert Worse()(x, y) && Worse()(y, z) && !Worse()(x, z);
    } else if StableSort.WeakOrderOn(Worse(), t) {
      CompareAntisymmetric(x, y);
      CompareAntisymmetric(y, z);
      CompareAntisymmetric(x, z);
      StableSort.NotSmallerTransitive(Worse(), t, x, y, z);
    }
  }

  lemma BrokenSomehowIsNoOrder(strict: bool, t: seq<Entry>, a: Entry, b: Entry, c: Entry)
    requires a in t && b in t && c in t && BrokenSomehow(strict, a, b, c)
    ensures !StableSort.WeakOrderOn(Worse(), t) && (strict ==> !StableSort.PartialOrderOn(Worse(), t))
  {
    hide Broken;
    hide StableSort.WeakOrderOn;
    hide StableSort.PartialOrderOn;
    if Broken(strict, a, b, c) { BrokenIsNoOrder(strict, t, a, b, c); }
    if Broken(strict, a, c, b) { BrokenIsNoOrder(strict, t, a, c, b); }
    if Broken(strict, b, a, c) { BrokenIsNoOrder(strict, t, b, a, c); }
    if Broken(strict, b, c, a) { BrokenIsNoOrder(strict, t, b, c, a); }
    if Broken(strict, c, a, b) { BrokenIsNoOrder(strict, t, c, a, b); }
    if Broken(strict, c, b, a) { BrokenIsNoOrder(strict, t, c, b, a); }
  }

  /** All rows with the one at `fast` measured as the fastest and the one at `newer` the newest. */
  function TunedRows(s: seq<Entry>, fast: nat, newer: nat): (t: seq<Entry>)
    ensures |t| == |s| && Variant(s, t) && forall n | 0 <= n < |s| :: t[n] == Tuned(s[n], n == fast, n == newer)
  {
    seq(|s|, n requires 0 <= n < |s| => Tuned(s[n], n == fast, n == newer))
  }

  lemma ClashBreaks(strict: bool, s: seq<Entry>, i: nat, j: nat, k: nat) returns (t: seq<Entry>)
    requires i < |s| && j < |s| && k < |s| && i != j && i != k && j != k && Clash(strict, s[i], s[j], s[k])
    ensures Variant(s, t) && !StableSort.WeakOrderOn(Worse(), t) && (strict ==> !StableSort.PartialOrderOn(Worse(), t))
  {
    hide *;
    var f, n := ClashTunes(strict, s[i], s[j], s[k]);
    t := TunedRows(s, if f == 0 then i else if f == 1 then j else if f == 2 then k else |s|,
                   if n == 0 then i else if n == 1 then j else if n == 2 then k else |s|);
    assert t[i] == Tuned(s[i], f == 0, n == 0) && t[j] == Tuned(s[j], f == 1, n == 1)
           && t[k] == Tuned(s[k], f == 2, n == 2);
    BrokenSomehowIsNoOrder(strict, t, t[i], t[j], t[k]);
  }

  /** Exactly when the comparison is a strict partial order, whatever the measurements and versions turn out to be. */
  lemma PartialOrderIff(s: seq<Entry>)
    ensures (forall t | Variant(s, t) :: StableSort.PartialOrderOn(Worse(), t)) <==> NoClash(true, s)
  {
    if NoClash(true, s) {
      forall t | Variant(s, t) ensures StableSort.PartialOrderOn(Worse(), t) {
        ClashVaries(true, s, t);
        NoClashOrders(t);
      }
    } else {
      var i, j, k :| 0 <= i < |s| && 0 <= j < |s| && 0 <= k < |s| && i != j && i != k && j != k
          && Clash(true, s[i], s[j], s[k]);
      var t := ClashBreaks(true, s, i, j, k);
    }
  }

  /** Exactly when it is a total preorder, i.e. when a rank is a place. */
  lemma TotalPreorderIff(s: seq<Entry>)
    ensures (forall t | Variant(s, t) :: StableSort.WeakOrderOn(Worse(), t)) <==> NoClash(false, s)
  {
    if NoClash(false, s) {
      forall t | Variant(s, t) ensures StableSort.WeakOrderOn(Worse(), t) {
        ClashVaries(false, s, t);
        NoClashRanks(t);
      }
    } else {
      var i, j, k :| 0 <= i < |s| && 0 <= j < |s| && 0 <= k < |s| && i != j && i != k && j != k
          && Clash(false, s[i], s[j], s[k]);
      var t := ClashBreaks(false, s, i, j, k);
    }
  }

  /** Within one (score, cost) group either every row carries a measured latency or none does. */
  ghost predicate UniformlyMeasured(s: seq<Entry>) {
    forall a, b | a in s && b in s && a.score == b.score && a.cost == b.cost :: a.latency.Some? == b.latency.Some?
  }

  /** A family belongs to one provider preference. */
  ghost predicate FamilyFixesPreference(s: seq<Entry>) {
    forall a, b | a in s && b in s && a.family == b.family && a.family != "" :: a.pref == b.pref
  }

  /** Different families have different preferences. */
  ghost predicate PreferenceSeparatesFamilies(s: seq<Entry>) {
    forall a, b | a in s && b in s && a.family != b.family :: a.pref != b.pref
  }

  /** Three hypotheses that are simpler to check: the first two rule out circles, all three give a total preorder. */
  lemma HypothesesRuleOutClashes(s: seq<Entry>)
    requires UniformlyMeasured(s) && FamilyFixesPreference(s)
    ensures NoClash(true, s) && StableSort.PartialOrderOn(Worse(), s)
    ensures PreferenceSeparatesFamilies(s) ==> NoClash(false, s) && StableSort.WeakOrderOn(Worse(), s)
  {
    forall i, j, k | 0 <= i < |s| && 0 <= j < |s| && 0 <= k < |s|
      ensures !Clash(true, s[i], s[j], s[k]) && (PreferenceSeparatesFamilies(s) ==> !Clash(false, s[i], s[j], s[k]))
    {
      assert s[i] in s && s[j] in s && s[k] in s;
    }
    NoClashOrders(s);
    if PreferenceSeparatesFamilies(s) { NoClashRanks(s); }
  }

  const R0 := Recency(0.0, 0, 0, 0)
  const R1 := Recency(1.0, 0, 0, 0)

  /** Without uniform measurement the comparison can run in a circle: a fast measured model, an unmeasured one of a
      better-placed provider, a slow measured one of a provider better placed still. */
  lemma MixedMeasurementCycle() returns (a: Entry, b: Entry, c: Entry)
    ensures FamilyFixesPreference([a, b, c]) && PreferenceSeparatesFamilies([a, b, c])
    ensures Compare(a, c) > 0 && Compare(c, b) > 0 && Compare(b, a) > 0
  {
    a := Entry("a", 1.0, 0.0, Some(-1.0), "fa", R0, 1);
    b := Entry("b", 1.0, 0.0, None, "fb", R0, 2);
    c := Entry("c", 1.0, 0.0, Some(-2.0), "fc", R0, 3);
  }

  /** The same when one family is spread over two preferences. */
  lemma SplitFamilyCycle() returns (a: Entry, b: Entry, c: Entry)
    ensures UniformlyMeasured([a, b, c]) && PreferenceSeparatesFamilies([a, b, c])
    ensures Compare(a, b) > 0 && Compare(b, c) > 0 && Compare(c, a) > 0
  {
    a := Entry("a", 1.0, 0.0, None, "f", R1, 1);
    b := Entry("b", 1.0, 0.0, None, "f", R0, 3);
    c := Entry("c", 1.0, 0.0, None, "g", R0, 2);
  }

  const OLDER := Entry("older", 1.0, 0.0, None, "f", R0, 1)
  const OTHER := Entry("other", 1.0, 0.0, None, "g", R0, 1)
  const NEWER := Entry("newer", 1.0, 0.0, None, "f", R1, 1)

  /** The first two hypotheses alone are not enough: when two families share a preference the comparison is a partial
      order whose ties are not transitive, and the sort really does return an older model of a family ahead of a newer
      one. */
  lemma SharedPreferenceKeepsInversion()
    ensures UniformlyMeasured([OLDER, OTHER, NEWER]) && FamilyFixesPreference([OLDER, OTHER, NEWER])
    ensures Compare(OLDER, OTHER) == 0 && Compare(OTHER, NEWER) == 0 && Compare(NEWER, OLDER) > 0
    ensures StableSort.SortDescending(Worse(), [OLDER, OTHER, NEWER]) == [OLDER, OTHER, NEWER]
  {
    LevelRowsStay(OLDER, OTHER, NEWER);
    hide StableSort.SortDescending;
    assert forall a | a in [OLDER, OTHER, NEWER] :: a.latency.None? && a.pref == 1;
  }

  lemma LevelRowsStay(a: Entry, b: Entry, c: Entry)
    requires Compare(a, b) == 0 && Compare(b, c) == 0
    ensures StableSort.SortDescending(Worse(), [a, b, c]) == [a, b, c]
  {
    hide Compare;
    var s := [a, b, c];
    assert !Worse()(s[0], s[1]) && !Worse()(s[1], s[2]);
    hide StableSort.SortDescending;
    StableSort.SortDescendingFixes(Worse(), s);
  }

  // ---- What every sorted block guarantees

  /** Strictly better on score, or level on score and strictly cheaper. */
  predicate Better(a: Entry, b: Entry) {
    a.score > b.score || (a.score == b.score && a.cost > b.cost)
  }

  /** Score and cost are settled before the intransitive part of the comparison starts, so adjacent comparisons alone
      put them in order at every distance. */
  lemma {:induction false} KeysDescend(s: seq<Entry>, i: nat, j: nat)
    requires StableSort.LocallyDescending(Worse(), s)
    requires i < j < |s|
    ensures !Better(s[j], s[i])
    decreases j
  {
    assert !Worse()(s[j - 1], s[j]);
    if i < j - 1 { KeysDescend(s, i, j - 1); }
  }

  // ---- The ranking

  function MetaOf(registry: map<string, Meta>, model: string): Meta {
    if model in registry then registry[model] else NEUTRAL_META
  }

  function EntryFor(cfg: RankerConfig, registry: map<string, Meta>, w: RankWeights, stats: map<string, Stats>,
                    model: string): Entry
    requires cfg.Valid()
  {
    var meta := MetaOf(registry, model);
    Entry(model,
          ScoreModel(cfg, model, meta, w, stats),
          -meta.totalCost,
          match MeasuredP50(cfg, stats, model) { case Some(p) => Some(-p) case None => None },
          cfg.rules.family(model),
          cfg.rules.recency(model),
          PreferenceOf(cfg.providerPref, cfg.rules.provider(model)))
  }

  /** The rows of the models whose demotion status is `demoted`, in input order. */
  function Block(cfg: RankerConfig, registry: map<string, Meta>, w: RankWeights, stats: map<string, Stats>,
                 models: seq<string>, demoted: bool): seq<Entry>
    requires cfg.Valid()
  {
    MapSeq(m => EntryFor(cfg, registry, w, stats, m),
           StableSort.Filter(m => IsDemoted(cfg, stats, m) == demoted, models))
  }

  /** A block sorted from the best down. */
  function BestFirst(cfg: RankerConfig, block: seq<Entry>): seq<Entry> {
    StableSort.ListSortDescending(Worse(), cfg.plan(block), block)
  }

  function Ranked(cfg: RankerConfig, registry: map<string, Meta>, w: RankWeights, stats: map<string, Stats>,
                  models: seq<string>): seq<Entry>
    requires cfg.Valid()
  {
    BestFirst(cfg, Block(cfg, registry, w, stats, models, false))
    + BestFirst(cfg, Block(cfg, registry, w, stats, models, true))
  }

  lemma RankedNone(cfg: RankerConfig, registry: map<string, Meta>, w: RankWeights, stats: map<string, Stats>)
    requires cfg.Valid()
    ensures Ranked(cfg, registry, w, stats, []) == []
  {
    StableSort.ListSortDescendingPermutes(Worse(), cfg.plan([]), []);
    assert |multiset(BestFirst(cfg, []))| == 0;
  }

  class Ranker {
    const cfg: RankerConfig
    var unregisteredWarned: set<string>

    constructor (cfg: RankerConfig)
      requires cfg.Valid()
      ensures this.cfg == cfg && unregisteredWarned == {}
    {
      this.cfg := cfg;
      unregisteredWarned := {};
    }

    /** Orders the candidates, demoted ones last; a model the registry does not know is scored as neutral and warned
        about once. */
    method Rank(models: seq<string>, registry: map<string, Meta>, w: RankWeights, stats: map<string, Stats>)
      returns (out: seq<(string, real)>)
      requires cfg.Valid()
      modifies this`unregisteredWarned
      ensures out == MapSeq((e: Entry) => (e.model, e.score), Ranked(cfg, registry, w, stats, models))
      ensures unregisteredWarned == old(unregisteredWarned) + (set m | m in models && m !in registry)
    {
      hide Block;
      hide EntryFor;
      hide BestFirst;
      hide IsDemoted;
      var primary: seq<Entry>, demoted: seq<Entry> := [], [];
      BlockNone(cfg, registry, w, stats, false);
      BlockNone(cfg, registry, w, stats, true);
      for i := 0 to |models|
        invariant primary == Block(cfg, registry, w, stats, models[..i], false)
        invariant demoted == Block(cfg, registry, w, stats, models[..i], true)
        invariant unregisteredWarned == old(unregisteredWarned) + (set m | m in models[..i] && m !in registry)
      {
        var model := models[i];
        if model !in registry && model !in unregisteredWarned {
          unregisteredWarned := unregisteredWarned + {model};
        }
        BlockAppend(cfg, registry, w, stats, models[..i], model, false);
        BlockAppend(cfg, registry, w, stats, models[..i], model, true);
        assert models[..i + 1] == models[..i] + [model];
        var entry := EntryFor(cfg, registry, w, stats, model);
        if IsDemoted(cfg, stats, model) { demoted := demoted + [entry]; } else { primary := primary + [entry]; }
      }
      assert models[..|models|] == models;
      primary := BestFirst(cfg, primary);
      demoted := BestFirst(cfg, demoted);
      out := MapSeq((e: Entry) => (e.model, e.score), primary + demoted);
    }
  }

  lemma BlockNone(cfg: RankerConfig, registry: map<string, Meta>, w: RankWeights, stats: map<string, Stats>,
                  demoted: bool)
    requires cfg.Valid()
    ensures Block(cfg, registry, w, stats, [], demoted) == []
  {}

  lemma BlockAppend(cfg: RankerConfig, registry: map<string, Meta>, w: RankWeights, stats: map<string, Stats>,
                    models: seq<string>, model: string, demoted: bool)
    requires cfg.Valid()
    ensures Block(cfg, registry, w, stats, models + [model], demoted) ==
            Block(cfg, registry, w, stats, models, demoted)
            + (if IsDemoted(cfg, stats, model) == demoted then [EntryFor(cfg, registry, w, stats, model)] else [])
  {
    hide EntryFor;
    hide IsDemoted;
    StableSort.FilterAppend(m => IsDemoted(cfg, stats, m) == demoted, models, [model]);
  }

  // ---- What the ranking guarantees for every input

  function ModelOf(): Entry -> string {
    (e: Entry) => e.model
  }

  lemma BlockMembers(cfg: RankerConfig, registry: map<string, Meta>, w: RankWeights, stats: map<string, Stats>,
                     models: seq<string>, demoted: bool)
    requires cfg.Valid()
    ensures forall e | e in Block(cfg, registry, w, stats, models, demoted) ::
              e == EntryFor(cfg, registry, w, stats, e.model) && IsDemoted(cfg, stats, e.model) == demoted
              && e.model in models
    ensures forall m | m in models && IsDemoted(cfg, stats, m) == demoted ::
              EntryFor(cfg, registry, w, stats, m) in Block(cfg, registry, w, stats, models, demoted)
  {
    var f := StableSort.Filter(m => IsDemoted(cfg, stats, m) == demoted, models);
    var b := Block(cfg, registry, w, stats, models, demoted);
    StableSort.FilterMembers(m => IsDemoted(cfg, stats, m) == demoted, models);
    forall e | e in b
      ensures e == EntryFor(cfg, registry, w, stats, e.model) && IsDemoted(cfg, stats, e.model) == demoted
              && e.model in models
    {
      var i :| 0 <= i < |b| && b[i] == e;
      assert f[i] in f;
    }
    forall m | m in models && IsDemoted(cfg, stats, m) == demoted
      ensures EntryFor(cfg, registry, w, stats, m) in b
    {
      assert m in f;
      var i :| 0 <= i < |f| && f[i] == m;
      assert b[i] == EntryFor(cfg, registry, w, stats, m);
    }
  }

  /** What is known of the two sorted blocks: each permuted, with no adjacent inversion.  The library's sort delivers
      this for every way of cutting and merging (`RankedIsSortedBlocks`), even when the comparison runs in circles;
      other comparison sorts, such as heapsort, need not. */
  ghost predicate SortedBlocks(primary: seq<Entry>, demoted: seq<Entry>, p: seq<Entry>, d: seq<Entry>) {
    && multiset(p) == multiset(primary) && multiset(d) == multiset(demoted)
    && StableSort.LocallyDescending(Worse(), p) && StableSort.LocallyDescending(Worse(), d)
  }

  lemma RankedIsSortedBlocks(cfg: RankerConfig, registry: map<string, Meta>, w: RankWeights, stats: map<string, Stats>,
                             models: seq<string>)
    requires cfg.Valid()
    ensures var p, d := Block(cfg, registry, w, stats, models, false), Block(cfg, registry, w, stats, models, true);
            SortedBlocks(p, d, BestFirst(cfg, p), BestFirst(cfg, d))
  {
    var p, d := Block(cfg, registry, w, stats, models, false), Block(cfg, registry, w, stats, models, true);
    WorseAsymmetric(p);
    WorseAsymmetric(d);
    StableSort.ListSortDescendingPermutes(Worse(), cfg.plan(p), p);
    StableSort.ListSortDescendingPermutes(Worse(), cfg.plan(d), d);
    StableSort.ListSortDescendingLocal(Worse(), cfg.plan(p), p);
    StableSort.ListSortDescendingLocal(Worse(), cfg.plan(d), d);
  }

  /** The output order: a permutation of the candidates, every demoted model after every other, and inside each of the
      two blocks score then cost never get better further down. */
  ghost predicate WellRanked(cfg: RankerConfig, registry: map<string, Meta>, w: RankWeights, stats: map<string, Stats>,
                             models: seq<string>, out: seq<Entry>)
    requires cfg.Valid()
  {
    && multiset(MapSeq(ModelOf(), out)) == multiset(models)
    && (forall e | e in out :: e == EntryFor(cfg, registry, w, stats, e.model))
    && (forall i, j | 0 <= i < j < |out| && IsDemoted(cfg, stats, out[i].model) :: IsDemoted(cfg, stats, out[j].model))
    && (forall i, j | 0 <= i < j < |out|
                      && IsDemoted(cfg, stats, out[i].model) == IsDemoted(cfg, stats, out[j].model) ::
          !Better(out[j], out[i]))
  }

  /** Main result on the ranking, for any sort that leaves no adjacent inversion. */
  lemma AnySortRanksWell(cfg: RankerConfig, registry: map<string, Meta>, w: RankWeights, stats: map<string, Stats>,
                         models: seq<string>, p: seq<Entry>, d: seq<Entry>)
    requires cfg.Valid()
    requires SortedBlocks(Block(cfg, registry, w, stats, models, false), Block(cfg, registry, w, stats, models, true),
                          p, d)
    ensures WellRanked(cfg, registry, w, stats, models, p + d)
  {
    hide Block;
    hide EntryFor;
    hide IsDemoted;
    hide Better;
    var primary, demoted := Block(cfg, registry, w, stats, models, false), Block(cfg, registry, w, stats, models, true);
    var out := p + d;
    StableSort.SameMembers(p, primary);
    StableSort.SameMembers(d, demoted);
    BlockMembers(cfg, registry, w, stats, models, false);
    BlockMembers(cfg, registry, w, stats, models, true);
    NamesPermute(cfg, registry, w, stats, models, p, d);
    forall i | 0 <= i < |out| ensures IsDemoted(cfg, stats, out[i].model) == (i >= |p|) {
      assert if i < |p| then out[i] in primary else out[i] in demoted;
    }
    forall i, j | 0 <= i < j < |out| && (i >= |p|) == (j >= |p|) ensures !Better(out[j], out[i]) {
      if j < |p| { KeysDescend(p, i, j); } else { KeysDescend(d, i - |p|, j - |p|); }
    }
  }

  lemma NamesPermute(cfg: RankerConfig, registry: map<string, Meta>, w: RankWeights, stats: map<string, Stats>,
                     models: seq<string>, p: seq<Entry>, d: seq<Entry>)
    requires cfg.Valid()
    requires multiset(p) == multiset(Block(cfg, registry, w, stats, models, false))
    requires multiset(d) == multiset(Block(cfg, registry, w, stats, models, true))
    ensures multiset(MapSeq(ModelOf(), p + d)) == multiset(models)
  {
    var keep, drop := StableSort.Filter(m => IsDemoted(cfg, stats, m) == false, models),
                      StableSort.Filter(m => IsDemoted(cfg, stats, m) == true, models);
    var primary, demoted := Block(cfg, registry, w, stats, models, false), Block(cfg, registry, w, stats, models, true);
    StableSort.FilterPartition(m => IsDemoted(cfg, stats, m) == false, m => IsDemoted(cfg, stats, m) == true, models);
    StableSort.MapPermutes(ModelOf(), p, primary);
    StableSort.MapPermutes(ModelOf(), d, demoted);
    StableSort.MapAppend(ModelOf(), p, d);
    assert MapSeq(ModelOf(), primary) == keep;
    assert MapSeq(ModelOf(), demoted) == drop;
  }

  lemma RankedWell(cfg: RankerConfig, registry: map<string, Meta>, w: RankWeights, stats: map<string, Stats>,
                   models: seq<string>)
    requires cfg.Valid()
    ensures WellRanked(cfg, registry, w, stats, models, Ranked(cfg, registry, w, stats, models))
  {
    RankedIsSortedBlocks(cfg, registry, w, stats, models);
    AnySortRanksWell(cfg, registry, w, stats, models,
                     BestFirst(cfg, Block(cfg, registry, w, stats, models, false)),
                     BestFirst(cfg, Block(cfg, registry, w, stats, models, true)));
  }

  /** What a row holds, from the tables.  The score is the weighted sum of capability, cheapness and speed; the speed is
      the measured one wherever a median stands on enough samples; a model the registry does not know is neutral. */
  lemma EntryMeaning(cfg: RankerConfig, registry: map<string, Meta>, w: RankWeights, stats: map<string, Stats>,
                     m: string, tier: int)
    requires cfg.Valid() && IsSpeedTier(cfg, registry, stats, m, tier)
    ensures var e := EntryFor(cfg, registry, w, stats, m);
            var measured := m in stats && stats[m].sampleCount >= cfg.minSamples && stats[m].p50.Some?;
            && e.model == m && e.family == cfg.rules.family(m) && e.recency == cfg.rules.recency(m)
            && e.pref == (var of := cfg.rules.provider(m); if of in cfg.providerPref then cfg.providerPref[of] else 0)
            && e.latency == (if measured then Some(-stats[m].p50.value) else None)
            && (m in registry ==>
                  && e.score == w.capability * registry[m].capabilityTier as real
                                + w.cost * (6 - registry[m].costTier) as real + w.latency * (6 - tier) as real
                  && e.cost == -registry[m].totalCost)
            && (m !in registry ==>
                  e.score == w.capability * 3.0 + w.cost * 3.0 + w.latency * (6 - tier) as real && e.cost == 0.0)
  {
    TierIsUnique(cfg, registry, stats, m, tier);
    hide EffectiveLatencyTier;
  }

  /** The speed tier of a model: the first bucket that holds a median standing on enough samples, else the registered
      tier, else 3. */
  ghost predicate IsSpeedTier(cfg: RankerConfig, registry: map<string, Meta>, stats: map<string, Stats>, m: string,
                              tier: int)
    requires cfg.Valid()
  {
    if m in stats && stats[m].sampleCount >= cfg.minSamples && stats[m].p50.Some? then
      && 1 <= tier <= 5 && (forall k | 0 <= k < tier - 1 :: stats[m].p50.value > cfg.buckets[k])
      && (tier < 5 ==> stats[m].p50.value <= cfg.buckets[tier - 1])
    else tier == if m in registry then registry[m].latencyTier else 3
  }

  lemma TierIsUnique(cfg: RankerConfig, registry: map<string, Meta>, stats: map<string, Stats>, m: string, tier: int)
    requires cfg.Valid() && IsSpeedTier(cfg, registry, stats, m, tier)
    ensures EffectiveLatencyTier(cfg, stats, m, MetaOf(registry, m).latencyTier) == tier
  {
    hide LatencyToTier;
  }

  /** Every model whose error rate is above the threshold on enough samples stands behind every model of which that is
      not so. */
  lemma FailingComeLast(cfg: RankerConfig, registry: map<string, Meta>, w: RankWeights, stats: map<string, Stats>,
                        models: seq<string>, i: nat, j: nat)
    requires cfg.Valid()
    requires i < |Ranked(cfg, registry, w, stats, models)| && j < |Ranked(cfg, registry, w, stats, models)|
    requires var m := Ranked(cfg, registry, w, stats, models)[i].model;
             !(m in stats && stats[m].sampleCount >= cfg.minSamples && stats[m].errorRate > cfg.errorThreshold)
    requires var n := Ranked(cfg, registry, w, stats, models)[j].model;
             n in stats && stats[n].sampleCount >= cfg.minSamples && stats[n].errorRate > cfg.errorThreshold
    ensures i < j
  {
    hide Ranked;
    RankedWell(cfg, registry, w, stats, models);
  }

  /** Neighbours in the ranking, when both are failing or neither is: the higher score, then the lower total cost, then
      the lower of two measured medians, then inside a family the newer version (major number before minor, date last),
      and otherwise the preferred provider. */
  lemma NeighboursInOrder(cfg: RankerConfig, registry: map<string, Meta>, w: RankWeights, stats: map<string, Stats>,
                          models: seq<string>, i: nat)
    requires cfg.Valid() && i + 1 < |Ranked(cfg, registry, w, stats, models)|
    requires var out := Ranked(cfg, registry, w, stats, models);
             IsDemoted(cfg, stats, out[i].model) == IsDemoted(cfg, stats, out[i + 1].model)
    ensures var a, b := Ranked(cfg, registry, w, stats, models)[i], Ranked(cfg, registry, w, stats, models)[i + 1];
            a.score >= b.score && (a.score == b.score ==> a.cost >= b.cost)
            && (a.score == b.score && a.cost == b.cost ==> InTieOrder(a, b))
  {
    var p, d := Block(cfg, registry, w, stats, models, false), Block(cfg, registry, w, stats, models, true);
    var x, y := BestFirst(cfg, p), BestFirst(cfg, d);
    assert Ranked(cfg, registry, w, stats, models) == x + y;
    RankedIsSortedBlocks(cfg, registry, w, stats, models);
    BlockMembers(cfg, registry, w, stats, models, false);
    BlockMembers(cfg, registry, w, stats, models, true);
    StableSort.SameMembers(x, p);
    StableSort.SameMembers(y, d);
    hide *;
    NeighboursInBlocks(cfg, stats, x, y, i);
    NotWorse((x + y)[i], (x + y)[i + 1]);
  }

  lemma NeighboursInBlocks(cfg: RankerConfig, stats: map<string, Stats>, x: seq<Entry>, y: seq<Entry>, i: nat)
    requires StableSort.LocallyDescending(Worse(), x) && StableSort.LocallyDescending(Worse(), y)
    requires forall e | e in x :: !IsDemoted(cfg, stats, e.model)
    requires forall e | e in y :: IsDemoted(cfg, stats, e.model)
    requires i + 1 < |x + y|
    requires IsDemoted(cfg, stats, (x + y)[i].model) == IsDemoted(cfg, stats, (x + y)[i + 1].model)
    ensures !Worse()((x + y)[i], (x + y)[i + 1])
  {
    hide IsDemoted;
    hide Compare;
    if i + 1 < |x| {
      assert !Worse()(x[i], x[i + 1]);
    } else if i >= |x| {
      assert !Worse()(y[i - |x|], y[i + 1 - |x|]);
    }
  }

  /** The tie-breaks between two rows level on score and cost. */
  predicate InTieOrder(a: Entry, b: Entry) {
    if a.latency.Some? && b.latency.Some? && a.latency.value != b.latency.value then a.latency.value > b.latency.value
    else if a.family == b.family && a.family != "" then
      var x, y := a.recency, b.recency;
      && x.dotted >= y.dotted
      && (x.dotted == y.dotted ==> x.major >= y.major)
      && (x.dotted == y.dotted && x.major == y.major ==> x.minor >= y.minor)
      && (x.dotted == y.dotted && x.major == y.major && x.minor == y.minor ==> x.date >= y.date)
    else a.pref >= b.pref
  }

  lemma NotWorse(a: Entry, b: Entry)
    requires !Worse()(a, b)
    ensures a.score >= b.score && (a.score == b.score ==> a.cost >= b.cost)
    ensures a.score == b.score && a.cost == b.cost ==> InTieOrder(a, b)
  {}

  /** When no three rows of a block clash, the block comes out without a single inverted pair and models that tie
      keep the order in which they were offered. */
  lemma RankedBlockExact(cfg: RankerConfig, registry: map<string, Meta>, w: RankWeights, stats: map<string, Stats>,
                         models: seq<string>, demoted: bool, e: Entry)
    requires cfg.Valid()
    requires var b := Block(cfg, registry, w, stats, models, demoted); NoClash(false, b) && e in b
    ensures var b := Block(cfg, registry, w, stats, models, demoted);
            var out := BestFirst(cfg, b);
            && (forall i, j | 0 <= i < j < |out| :: Compare(out[i], out[j]) >= 0)
            && StableSort.TiesOf(Worse(), e, out) == StableSort.TiesOf(Worse(), e, b)
  {
    var b := Block(cfg, registry, w, stats, models, demoted);
    NoClashRanks(b);
    StableSort.ListSortDescendingStable(Worse(), cfg.plan(b), b, e);
    var out := BestFirst(cfg, b);
    forall i, j | 0 <= i < j < |out| ensures Compare(out[i], out[j]) >= 0 {
      assert !Worse()(out[i], out[j]);
    }
  }

  /** From the price list to the ranking: of two priced models with the same capability tier, the same effective latency
      tier and the same demotion status, the strictly cheaper one always comes first, provided cost does not count
      negatively. */
  lemma CheaperRanksFirst(cfg: RankerConfig, registry: map<string, Meta>, w: RankWeights, stats: map<string, Stats>,
                          models: seq<string>, pricing: map<string, Price>, lo: real, hi: real,
                          cheap: string, dear: string, i: nat, j: nat)
    requires cfg.Valid() && w.cost >= 0.0
    requires PricedEntries(registry, pricing, lo, hi)
    requires cheap in registry && dear in registry && IsPriced(pricing, cheap) && IsPriced(pricing, dear)
    requires TotalCost(pricing, cheap) < TotalCost(pricing, dear)
    requires registry[cheap].capabilityTier == registry[dear].capabilityTier
    requires EffectiveLatencyTier(cfg, stats, cheap, registry[cheap].latencyTier) ==
             EffectiveLatencyTier(cfg, stats, dear, registry[dear].latencyTier)
    requires IsDemoted(cfg, stats, cheap) == IsDemoted(cfg, stats, dear)
    requires i < |Ranked(cfg, registry, w, stats, models)| && j < |Ranked(cfg, registry, w, stats, models)|
    requires Ranked(cfg, registry, w, stats, models)[i].model == cheap
    requires Ranked(cfg, registry, w, stats, models)[j].model == dear
    ensures i < j
  {
    RankedWell(cfg, registry, w, stats, models);
    CheaperIsBetter(cfg, registry, w, stats, pricing, lo, hi, cheap, dear);
    BetterComesFirst(cfg, registry, w, stats, models, Ranked(cfg, registry, w, stats, models), i, j);
  }

  lemma BetterComesFirst(cfg: RankerConfig, registry: map<string, Meta>, w: RankWeights, stats: map<string, Stats>,
                         models: seq<string>, out: seq<Entry>, i: nat, j: nat)
    requires cfg.Valid() && WellRanked(cfg, registry, w, stats, models, out)
    requires i < |out| && j < |out| && IsDemoted(cfg, stats, out[i].model) == IsDemoted(cfg, stats, out[j].model)
    requires Better(EntryFor(cfg, registry, w, stats, out[i].model), EntryFor(cfg, registry, w, stats, out[j].model))
    ensures i < j
  {
    assert out[i] in out && out[j] in out;
    assert i != j;
  }

  lemma CheaperIsBetter(cfg: RankerConfig, registry: map<string, Meta>, w: RankWeights, stats: map<string, Stats>,
                        pricing: map<string, Price>, lo: real, hi: real, cheap: string, dear: string)
    requires cfg.Valid() && w.cost >= 0.0
    requires PricedEntries(registry, pricing, lo, hi)
    requires cheap in registry && dear in registry && IsPriced(pricing, cheap) && IsPriced(pricing, dear)
    requires TotalCost(pricing, cheap) < TotalCost(pricing, dear)
    requires registry[cheap].capabilityTier == registry[dear].capabilityTier
    requires EffectiveLatencyTier(cfg, stats, cheap, registry[cheap].latencyTier) ==
             EffectiveLatencyTier(cfg, stats, dear, registry[dear].latencyTier)
    ensures Better(EntryFor(cfg, registry, w, stats, cheap), EntryFor(cfg, registry, w, stats, dear))
  {
    var x, y := EntryFor(cfg, registry, w, stats, cheap), EntryFor(cfg, registry, w, stats, dear);
    CostTierMonotone(TotalCost(pricing, cheap), TotalCost(pricing, dear), lo, hi);
    CheaperScores(cfg, w, stats, cheap, dear, registry[cheap], registry[dear]);
    assert x.score == ScoreModel(cfg, cheap, registry[cheap], w, stats) && x.cost == -TotalCost(pricing, cheap);
    assert y.score == ScoreModel(cfg, dear, registry[dear], w, stats) && y.cost == -TotalCost(pricing, dear);
    hide *;
    BetterBy(x, y);
  }

  lemma BetterBy(x: Entry, y: Entry)
    requires x.score >= y.score && x.cost > y.cost
    ensures Better(x, y)
  {}

  lemma CheaperScores(cfg: RankerConfig, w: RankWeights, stats: map<string, Stats>, m: string, n: string, a: Meta,
                      b: Meta)
    requires cfg.Valid() && w.cost >= 0.0 && a.capabilityTier == b.capabilityTier && a.costTier <= b.costTier
    requires EffectiveLatencyTier(cfg, stats, m, a.latencyTier) == EffectiveLatencyTier(cfg, stats, n, b.latencyTier)
    ensures ScoreModel(cfg, m, a, w, stats) >= ScoreModel(cfg, n, b, w, stats)
  {
    hide EffectiveLatencyTier;
    Larger(w.cost, (SCORE_BASE - b.costTier) as real, (SCORE_BASE - a.costTier) as real);
  }
}
