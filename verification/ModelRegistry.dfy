/** Model metadata: cost tiers derived from the position of a model's rate within the priced part of the catalogue
    (packages/llm-core/llm_core/model_registry.py). */
module ModelRegistry {
  import opened Common
  import opened Reals
  import StableSort

  const TIER_MIN := 1
  const TIER_MAX := 5
  const NEUTRAL_TIER := 3
  const COST_TIER_BINS := 4

  /** A pricing row; rows that are not a dict with both rates are `Unusable`. */
  datatype Price = Rates(input: real, output: real) | Unusable

  datatype Meta = Meta(
    provider: string, capabilityTier: int, costTier: int, latencyTier: int,
    totalCost: real, inputCost: real, outputCost: real)

  datatype Recency = Recency(dotted: real, major: int, minor: int, date: int)

  /** What the service reads off a model's name.  The rules are regular expressions and prefix lists; nothing below
      depends on which ones. */
  datatype NameRules = NameRules(
    provider: string -> string, isChat: string -> bool, capability: string -> int,
    family: string -> string, recency: string -> Recency)

  function ClampTier(t: int): (r: int)
    ensures TIER_MIN <= r <= TIER_MAX
    ensures TIER_MIN <= t <= TIER_MAX ==> r == t
  {
    var capped := if t < TIER_MAX then t else TIER_MAX;
    if capped > TIER_MIN then capped else TIER_MIN
  }

  /** Cost tier of `total` when the priced rates span `lo..hi`. */
  function CostTier(total: real, lo: real, hi: real): (tier: int)
    ensures TIER_MIN <= tier <= TIER_MAX
  {
    var span := if hi > lo then hi - lo else 1.0;
    ClampTier(Truncate((total - lo) / span * COST_TIER_BINS as real) + 1)
  }

  predicate IsPriced(pricing: map<string, Price>, model: string) {
    model in pricing && pricing[model].Rates?
  }

  function TotalCost(pricing: map<string, Price>, model: string): real
    requires IsPriced(pricing, model)
  {
    pricing[model].input + pricing[model].output
  }

  /** The total rates of the priced chat models, in catalogue order. */
  function PricedTotals(rules: NameRules, pricing: map<string, Price>, models: seq<string>): (t: seq<real>)
    ensures forall m | m in models && rules.isChat(m) && IsPriced(pricing, m) :: TotalCost(pricing, m) in t
    ensures forall c | c in t ::
              exists m :: m in models && rules.isChat(m) && IsPriced(pricing, m) && TotalCost(pricing, m) == c
  {
    if models == [] then []
    else
      var rest := PricedTotals(rules, pricing, models[1..]);
      assert models == [models[0]] + models[1..];
      if rules.isChat(models[0]) && IsPriced(pricing, models[0]) then [TotalCost(pricing, models[0])] + rest else rest
  }

  function OverrideOr(overrides: map<string, int>, model: string, default: int): int {
    if model in overrides then overrides[model] else default
  }

  class ModelRegistry {
    var models: seq<string>
    const capOverrides: map<string, int>
    const latOverrides: map<string, int>
    const rules: NameRules
    var registry: map<string, Meta>

    constructor (models: seq<string>, capOverrides: map<string, int>, latOverrides: map<string, int>, rules: NameRules)
      ensures this.models == models && registry == map[]
      ensures this.capOverrides == capOverrides && this.latOverrides == latOverrides && this.rules == rules
    {
      this.models := models;
      this.capOverrides := capOverrides;
      this.latOverrides := latOverrides;
      this.rules := rules;
      registry := map[];
    }

    method UpdateModels(models: seq<string>)
      modifies this`models
      ensures this.models == models
    {
      this.models := models;
    }

    function MetaFor(pricing: map<string, Price>, model: string, lo: real, hi: real): Meta {
      var priced := IsPriced(pricing, model);
      Meta(rules.provider(model),
           ClampTier(OverrideOr(capOverrides, model, rules.capability(model))),
           if priced then CostTier(TotalCost(pricing, model), lo, hi) else NEUTRAL_TIER,
           ClampTier(OverrideOr(latOverrides, model, NEUTRAL_TIER)),
           if priced then TotalCost(pricing, model) else 0.0,
           if priced then pricing[model].input else 0.0,
           if priced then pricing[model].output else 0.0)
    }

    /** Every chat model gets an entry and nothing else does; priced ones are placed by where their total lies between
        the least and the greatest total of the priced chat models. */
    method Build(pricing: map<string, Price>)
      modifies this`registry
      ensures registry.Keys == set m | m in models && rules.isChat(m)
      ensures forall m | m in registry ::
                registry[m] ==
                MetaFor(pricing, m, LeastTotal(rules, pricing, models), GreatestTotal(rules, pricing, models))
      ensures PricedEntries(registry, pricing, LeastTotal(rules, pricing, models),
                            GreatestTotal(rules, pricing, models))
    {
      hide *;
      var lowest, highest := LeastTotal(rules, pricing, models), GreatestTotal(rules, pricing, models);
      registry := map[];
      EntriesPlaced(pricing, registry, lowest, highest);
      if models == [] { return; }
      var priced, unpriced := Classify(pricing);
      if priced == [] && unpriced == [] { return; }
      if priced != [] {
        FillPriced(pricing, priced);
      }
      ghost var before := registry;
      Fill(pricing, unpriced, 0.0, 0.0);
      UnpricedFilled(pricing, before, registry, unpriced, lowest, highest);
      EntriesPlaced(pricing, registry, lowest, highest);
    }

    /** Places the priced models over the range of their totals. */
    method FillPriced(pricing: map<string, Price>, priced: seq<string>)
      requires priced != [] && registry == map[]
      requires forall m :: m in priced <==> m in models && rules.isChat(m) && IsPriced(pricing, m)
      modifies this`registry
      ensures forall m :: m in registry <==> m in priced
      ensures forall m | m in registry ::
                registry[m] ==
                MetaFor(pricing, m, LeastTotal(rules, pricing, models), GreatestTotal(rules, pricing, models))
    {
      hide *;
      var ordered, lo, hi := SortByTotal(pricing, priced);
      BoundsAgree(rules, pricing, models, priced);
      TotalsRange(rules, pricing, models);
      Fill(pricing, ordered, lo, hi);
    }

    lemma UnpricedFilled(pricing: map<string, Price>, before: map<string, Meta>, after: map<string, Meta>,
                         unpriced: seq<string>, lo: real, hi: real)
      requires forall m | m in before :: before[m] == MetaFor(pricing, m, lo, hi)
      requires forall m | m in unpriced :: !IsPriced(pricing, m)
      requires forall m :: m in after <==> m in before || m in unpriced
      requires forall m | m in unpriced :: after[m] == MetaFor(pricing, m, 0.0, 0.0)
      requires forall m | m in before && m !in unpriced :: after[m] == before[m]
      ensures forall m | m in after :: after[m] == MetaFor(pricing, m, lo, hi)
    {
      hide *;
      forall m | m in unpriced ensures after[m] == MetaFor(pricing, m, lo, hi) {
        UnpricedIgnoresRange(pricing, m, lo, hi);
      }
    }

    lemma UnpricedIgnoresRange(pricing: map<string, Price>, m: string, lo: real, hi: real)
      requires !IsPriced(pricing, m)
      ensures MetaFor(pricing, m, 0.0, 0.0) == MetaFor(pricing, m, lo, hi)
    {}

    lemma EntriesPlaced(pricing: map<string, Price>, entries: map<string, Meta>, lo: real, hi: real)
      requires forall m | m in entries :: entries[m] == MetaFor(pricing, m, lo, hi)
      ensures PricedEntries(entries, pricing, lo, hi)
    {}

    method Fill(pricing: map<string, Price>, names: seq<string>, lo: real, hi: real)
      modifies this`registry
      ensures forall m :: m in registry <==> m in old(registry) || m in names
      ensures forall m | m in names :: registry[m] == MetaFor(pricing, m, lo, hi)
      ensures forall m | m in old(registry) && m !in names :: registry[m] == old(registry)[m]
    {
      for i := 0 to |names|
        invariant forall m :: m in registry <==> m in old(registry) || m in names[..i]
        invariant forall m | m in names[..i] :: registry[m] == MetaFor(pricing, m, lo, hi)
        invariant forall m | m in old(registry) && m !in names[..i] :: registry[m] == old(registry)[m]
      {
        registry := registry[names[i] := MetaFor(pricing, names[i], lo, hi)];
        assert names[..i + 1] == names[..i] + [names[i]];
      }
      assert names[..|names|] == names;
    }

    /** Splits the chat models into those with usable rates, once each, and the others. */
    method Classify(pricing: map<string, Price>) returns (priced: seq<string>, unpriced: seq<string>)
      ensures forall m :: m in priced <==> m in models && rules.isChat(m) && IsPriced(pricing, m)
      ensures forall m :: m in unpriced <==> m in models && rules.isChat(m) && !IsPriced(pricing, m)
      ensures Distinct(priced)
    {
      priced, unpriced := [], [];
      for i := 0 to |models|
        invariant forall m :: m in priced <==> m in models[..i] && rules.isChat(m) && IsPriced(pricing, m)
        invariant forall m :: m in unpriced <==> m in models[..i] && rules.isChat(m) && !IsPriced(pricing, m)
        invariant Distinct(priced)
      {
        if rules.isChat(models[i]) {
          if IsPriced(pricing, models[i]) {
            if models[i] !in priced { priced := priced + [models[i]]; }
          } else {
            unpriced := unpriced + [models[i]];
          }
        }
      }
      assert models[..|models|] == models;
    }
  }

  /** Least and greatest total among the priced chat models. */
  function LeastTotal(rules: NameRules, pricing: map<string, Price>, models: seq<string>): real {
    var t := PricedTotals(rules, pricing, models);
    if t == [] then 0.0 else MinOf(t)
  }

  function GreatestTotal(rules: NameRules, pricing: map<string, Price>, models: seq<string>): real {
    var t := PricedTotals(rules, pricing, models);
    if t == [] then 0.0 else MaxOf(t)
  }

  /** The cost-sorted list of priced models, and the rates at its two ends. */
  method SortByTotal(pricing: map<string, Price>, priced: seq<string>)
    returns (ordered: seq<string>, lo: real, hi: real)
    requires priced != [] && forall m | m in priced :: IsPriced(pricing, m)
    ensures multiset(ordered) == multiset(priced)
    ensures forall m :: m in ordered <==> m in priced
    ensures lo == MinOf(Totals(pricing, priced)) && hi == MaxOf(Totals(pricing, priced))
  {
    ordered := StableSort.Sort(CheaperThan(pricing), priced);
    StableSort.SortPermutes(CheaperThan(pricing), priced);
    StableSort.SameMembers(ordered, priced);
    StableSort.SortFullySorted(CheaperThan(pricing), priced);
    lo := TotalCost(pricing, ordered[0]);
    hi := TotalCost(pricing, ordered[|ordered| - 1]);
    SortedEnds(pricing, ordered);
    TotalsMembers(pricing, ordered, priced);
    TotalsMembers(pricing, priced, ordered);
    BoundsAgreeOn(Totals(pricing, ordered), Totals(pricing, priced));
  }

  lemma SortedEnds(pricing: map<string, Price>, ordered: seq<string>)
    requires ordered != [] && forall m | m in ordered :: IsPriced(pricing, m)
    requires StableSort.FullySorted(CheaperThan(pricing), ordered)
    ensures MinOf(Totals(pricing, ordered)) == TotalCost(pricing, ordered[0])
    ensures MaxOf(Totals(pricing, ordered)) == TotalCost(pricing, ordered[|ordered| - 1])
  {
    var t, n := Totals(pricing, ordered), |ordered|;
    forall k | 0 <= k < n ensures t[0] <= t[k] <= t[n - 1] {
      assert k == 0 || !CheaperThan(pricing)(ordered[k], ordered[0]);
      assert k == n - 1 || !CheaperThan(pricing)(ordered[n - 1], ordered[k]);
    }
    EndsAreBounds(t);
  }

  lemma EndsAreBounds(t: seq<real>)
    requires t != [] && forall k | 0 <= k < |t| :: t[0] <= t[k] <= t[|t| - 1]
    ensures MinOf(t) == t[0] && MaxOf(t) == t[|t| - 1]
  {
    assert t[|t| - 1] in t;
  }

  lemma TotalsMembers(pricing: map<string, Price>, a: seq<string>, b: seq<string>)
    requires (forall m | m in a :: IsPriced(pricing, m)) && (forall m | m in b :: IsPriced(pricing, m))
    requires forall m | m in a :: m in b
    ensures forall c | c in Totals(pricing, a) :: c in Totals(pricing, b)
  {
    forall c | c in Totals(pricing, a) ensures c in Totals(pricing, b) {
      var i :| 0 <= i < |a| && Totals(pricing, a)[i] == c;
      assert a[i] in b;
      var j :| 0 <= j < |b| && b[j] == a[i];
      assert Totals(pricing, b)[j] == c;
    }
  }

  function CheaperThan(pricing: map<string, Price>): (string, string) -> bool {
    (a, b) => IsPriced(pricing, a) && IsPriced(pricing, b) && TotalCost(pricing, a) < TotalCost(pricing, b)
  }

  function Totals(pricing: map<string, Price>, priced: seq<string>): (t: seq<real>)
    requires forall m | m in priced :: IsPriced(pricing, m)
    ensures |t| == |priced| && forall i | 0 <= i < |t| :: t[i] == TotalCost(pricing, priced[i])
  {
    seq(|priced|, i requires 0 <= i < |priced| => TotalCost(pricing, priced[i]))
  }

  /** Dropping repeated names does not move the two ends of the range. */
  lemma BoundsAgree(rules: NameRules, pricing: map<string, Price>, models: seq<string>, priced: seq<string>)
    requires priced != []
    requires forall m | m in priced :: m in models && rules.isChat(m) && IsPriced(pricing, m)
    requires forall m | m in models && rules.isChat(m) && IsPriced(pricing, m) :: m in priced
    ensures PricedTotals(rules, pricing, models) != []
    ensures MinOf(Totals(pricing, priced)) == MinOf(PricedTotals(rules, pricing, models))
    ensures MaxOf(Totals(pricing, priced)) == MaxOf(PricedTotals(rules, pricing, models))
  {
    var t, u := Totals(pricing, priced), PricedTotals(rules, pricing, models);
    forall c | c in t ensures c in u {
      var i :| 0 <= i < |t| && t[i] == c;
      assert priced[i] in models;
    }
    assert t[0] in u;
    forall c | c in u ensures c in t {
      var m :| m in models && rules.isChat(m) && IsPriced(pricing, m) && TotalCost(pricing, m) == c;
      var i :| 0 <= i < |priced| && priced[i] == m;
      assert t[i] == c;
    }
  }

  lemma TotalsRange(rules: NameRules, pricing: map<string, Price>, models: seq<string>)
    requires PricedTotals(rules, pricing, models) != []
    ensures LeastTotal(rules, pricing, models) == MinOf(PricedTotals(rules, pricing, models))
    ensures GreatestTotal(rules, pricing, models) == MaxOf(PricedTotals(rules, pricing, models))
  {}

  /** What `Build` leaves behind for priced models, without naming the object that built it. */
  ghost predicate PricedEntries(registry: map<string, Meta>, pricing: map<string, Price>, lo: real, hi: real) {
    forall m | m in registry && m in pricing && pricing[m].Rates? ::
      var total := pricing[m].input + pricing[m].output;
      registry[m].totalCost == total && registry[m].costTier == CostTier(total, lo, hi)
  }

  // ---- What the tiers mean

  /** A dearer model never gets a lower tier. */
  lemma CostTierMonotone(a: real, b: real, lo: real, hi: real)
    requires a <= b
    ensures CostTier(a, lo, hi) <= CostTier(b, lo, hi)
  {
    var span := if hi > lo then hi - lo else 1.0;
    assert (a - lo) / span <= (b - lo) / span;
    var x, y := (a - lo) / span * COST_TIER_BINS as real, (b - lo) / span * COST_TIER_BINS as real;
    assert x <= y;
    TruncateMonotone(x, y);
  }

  /** The range is cut into four equal parts; a part belongs to the tier above it, and the greatest total to tier 5. */
  lemma CostTierMeaning(total: real, lo: real, hi: real)
    requires lo <= total <= hi && lo < hi
    ensures var t, span := CostTier(total, lo, hi), hi - lo;
            && (t - 1) as real * span <= (total - lo) * 4.0
            && (t < 5 ==> (total - lo) * 4.0 < t as real * span)
  {
    var q := Share(total - lo, hi - lo);
    TierOfShare(total, lo, hi, q);
    hide *;
    var t := CostTier(total, lo, hi);
    InTier((t - 1) as real, t as real, total - lo, hi - lo, q);
  }

  lemma Share(part: real, whole: real) returns (q: real)
    requires 0.0 <= part <= whole && whole > 0.0
    ensures q == part / whole && q * whole == part && 0.0 <= q <= 1.0
  {
    q := part / whole;
    assert q * whole == part;
    RatioIsOne(part, whole);
  }

  lemma TierOfShare(total: real, lo: real, hi: real, q: real)
    requires lo < hi && q == (total - lo) / (hi - lo) && 0.0 <= q <= 1.0
    ensures CostTier(total, lo, hi) == (q * 4.0).Floor + 1
  {
    assert 0 <= (q * 4.0).Floor <= 4;
  }

  lemma InTier(below: real, above: real, part: real, span: real, q: real)
    requires span > 0.0 && q * span == part && below <= q * 4.0 < above
    ensures below * span <= part * 4.0 && part * 4.0 < above * span
  {
    var y := q * 4.0;
    assert y * span == part * 4.0;
    Scale(below, y, span);
    Scale(y, above, span);
  }

  lemma Scale(a: real, b: real, span: real)
    requires span > 0.0
    ensures a <= b ==> a * span <= b * span
    ensures a < b ==> a * span < b * span
  {}

  /** What an entry holds besides: the override or else the rule for capability and the override or else 3 for latency,
      both brought into 1..5, the provider, and the rates; without usable rates a model is in cost tier 3 and costs 0.
      */
  lemma MetaMeaning(r: ModelRegistry, pricing: map<string, Price>, m: string, lo: real, hi: real)
    ensures var e := r.MetaFor(pricing, m, lo, hi);
            var capability := if m in r.capOverrides then r.capOverrides[m] else r.rules.capability(m);
            var latency := if m in r.latOverrides then r.latOverrides[m] else 3;
            && e.provider == r.rules.provider(m)
            && e.capabilityTier == (if capability < 1 then 1 else if capability > 5 then 5 else capability)
            && e.latencyTier == (if latency < 1 then 1 else if latency > 5 then 5 else latency)
            && (m in pricing && pricing[m].Rates? ==>
                  e.inputCost == pricing[m].input && e.outputCost == pricing[m].output)
            && (m !in pricing || !pricing[m].Rates? ==>
                  e.costTier == 3 && e.totalCost == 0.0 && e.inputCost == 0.0 && e.outputCost == 0.0)
  {}

  /** With at least two different rates the cheapest model is in tier 1 and the dearest in tier 5; with one rate every
      priced model is in tier 1. */
  lemma CostTierExtremes(lo: real, hi: real)
    ensures CostTier(lo, lo, hi) == 1
    ensures hi > lo ==> CostTier(hi, lo, hi) == 5
  {
    var span := if hi > lo then hi - lo else 1.0;
    assert (lo - lo) / span == 0.0;
    if hi > lo {
      assert (hi - lo) / span == 1.0;
      assert Truncate(4.0) == 4;
    }
  }

  lemma TotalInRange(rules: NameRules, pricing: map<string, Price>, models: seq<string>, m: string)
    requires m in models && rules.isChat(m) && IsPriced(pricing, m)
    ensures LeastTotal(rules, pricing, models) <= TotalCost(pricing, m) <= GreatestTotal(rules, pricing, models)
  {
    var t := PricedTotals(rules, pricing, models);
    hide PricedTotals;
    assert TotalCost(pricing, m) in t;
  }

  lemma PricedAt(registry: map<string, Meta>, pricing: map<string, Price>, lo: real, hi: real, m: string)
    requires PricedEntries(registry, pricing, lo, hi) && m in registry && IsPriced(pricing, m)
    ensures registry[m].costTier == CostTier(TotalCost(pricing, m), lo, hi)
  {
    hide CostTier;
  }

  /** Main result on a built registry: among the priced chat models a dearer one never has the lower cost tier, the
      cheapest has tier 1, and the dearest has tier 5 unless all of them cost the same. */
  lemma RegistryTiers(rules: NameRules, pricing: map<string, Price>, models: seq<string>, registry: map<string, Meta>,
                      m: string, n: string)
    requires PricedEntries(registry, pricing, LeastTotal(rules, pricing, models), GreatestTotal(rules, pricing, models))
    requires registry.Keys == set x | x in models && rules.isChat(x)
    requires m in models && rules.isChat(m) && m in pricing && pricing[m].Rates?
    requires n in models && rules.isChat(n) && n in pricing && pricing[n].Rates?
    ensures TotalCost(pricing, m) <= TotalCost(pricing, n) ==> registry[m].costTier <= registry[n].costTier
    ensures TotalCost(pricing, m) == LeastTotal(rules, pricing, models) ==> registry[m].costTier == 1
    ensures TotalCost(pricing, m) < TotalCost(pricing, n) == GreatestTotal(rules, pricing, models) ==>
              registry[n].costTier == 5
    ensures LeastTotal(rules, pricing, models) <= TotalCost(pricing, m) <= GreatestTotal(rules, pricing, models)
  {
    assert IsPriced(pricing, m) && IsPriced(pricing, n);
    assert m in registry && n in registry;
    hide *;
    var lo, hi := LeastTotal(rules, pricing, models), GreatestTotal(rules, pricing, models);
    TotalInRange(rules, pricing, models, m);
    PricedAt(registry, pricing, lo, hi, m);
    PricedAt(registry, pricing, lo, hi, n);
    CostTierExtremes(lo, hi);
    if TotalCost(pricing, m) <= TotalCost(pricing, n) {
      CostTierMonotone(TotalCost(pricing, m), TotalCost(pricing, n), lo, hi);
    }
  }
}
