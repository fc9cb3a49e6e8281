/** The model provider: ranking for a task, fallback chains under cost caps, latency limits and allowlists, and their
    rebuilding whenever fresh statistics arrive (packages/llm-core/llm_core/provider.py). */
module Provider {
  import opened Common
  import opened ModelRegistry
  import opened OrderedDict
  import R = Ranker
  import Selection
  import StableSort
  import Text

  /** The selection strategy; weights are already normalised. */
  datatype Strategy = Strategy(
    enabled: bool, defaultWeights: R.RankWeights, taskWeights: map<string, R.RankWeights>,
    costCaps: map<string, int>, latencySlos: map<string, real>, allowlists: seq<(string, seq<string>)>,
    taskTypes: seq<string>, components: seq<(string, string)>, dimensions: seq<(string, string)>,
    probeMaxTier: int, probeMaxModels: nat, alwaysProbe: seq<string>)

  function WeightsFor(s: Strategy, task: string): R.RankWeights {
    if task in s.taskWeights then s.taskWeights[task] else s.defaultWeights
  }

  /** What the chains are computed from. */
  datatype Inputs = Inputs(available: seq<string>, registry: map<string, Meta>, stats: map<string, R.Stats>)

  function RankedNames(cfg: R.RankerConfig, i: Inputs, w: R.RankWeights): seq<string>
    requires cfg.Valid()
  {
    MapSeq(R.ModelOf(), R.Ranked(cfg, i.registry, w, i.stats, i.available))
  }

  function WithinCap(registry: map<string, Meta>, cap: int): string -> bool {
    m => Selection.CostTierOf(registry, m) <= cap
  }

  function AboveCap(registry: map<string, Meta>, cap: int): string -> bool {
    m => Selection.CostTierOf(registry, m) > cap
  }

  function Capped(ranked: seq<string>, registry: map<string, Meta>, cap: int): seq<string> {
    StableSort.Filter(WithinCap(registry, cap), ranked) + StableSort.Filter(AboveCap(registry, cap), ranked)
  }

  /** The model's latency was measured with enough samples and is within the limit. */
  predicate MeetsSlo(cfg: R.RankerConfig, stats: map<string, R.Stats>, maxP50: real, m: string) {
    R.MeasuredP50(cfg, stats, m).Some? && R.MeasuredP50(cfg, stats, m).value <= maxP50
  }

  function Meets(cfg: R.RankerConfig, stats: map<string, R.Stats>, maxP50: real): string -> bool {
    m => MeetsSlo(cfg, stats, maxP50, m)
  }

  function Misses(cfg: R.RankerConfig, stats: map<string, R.Stats>, maxP50: real): string -> bool {
    m => !MeetsSlo(cfg, stats, maxP50, m)
  }

  function SloChain(ranked: seq<string>, cfg: R.RankerConfig, stats: map<string, R.Stats>, maxP50: real): seq<string> {
    StableSort.Filter(Meets(cfg, stats, maxP50), ranked) + StableSort.Filter(Misses(cfg, stats, maxP50), ranked)
  }

  function AllowlistChain(ranked: seq<string>, allowlist: seq<string>): seq<string> {
    StableSort.Filter(m => m in ranked, allowlist)
  }

  /** The chain of a task before any allowlist. */
  function PreferredOrder(s: Strategy, cfg: R.RankerConfig, i: Inputs, task: string): seq<string>
    requires cfg.Valid()
  {
    var ranked := RankedNames(cfg, i, WeightsFor(s, task));
    var capped := if task in s.costCaps then Capped(ranked, i.registry, s.costCaps[task]) else ranked;
    if task in s.latencySlos then SloChain(capped, cfg, i.stats, s.latencySlos[task]) else capped
  }

  /** The allowlist in force for a task; an empty one counts as none. */
  function AllowlistFor(s: Strategy, task: string): Option<seq<string>> {
    match Lookup(s.allowlists, task)
    case Some(l) => if l == [] then None else Some(MapSeq(Text.Strip, l))
    case None => None
  }

  function ChainFor(s: Strategy, cfg: R.RankerConfig, i: Inputs, task: string): seq<string>
    requires cfg.Valid()
  {
    match AllowlistFor(s, task)
    case Some(l) => AllowlistChain(PreferredOrder(s, cfg, i, task), l)
    case None => PreferredOrder(s, cfg, i, task)
  }

  /** Every name a chain is built for with its task, in the order of assignment. */
  function Assignments(s: Strategy): seq<(string, string)> {
    MapSeq((t: string) => (t, t), s.taskTypes) + s.components + s.dimensions
  }

  /** All chains: each name has the chain for its last assignment. */
  ghost predicate AreFallbacks(s: Strategy, cfg: R.RankerConfig, i: Inputs, chains: map<string, seq<string>>,
                               pairs: seq<(string, string)>)
    requires cfg.Valid()
  {
    && (forall k :: k in chains <==> LastValue(pairs, k).Some?)
    && (forall k | k in chains :: chains[k] == ChainFor(s, cfg, i, LastValue(pairs, k).value))
  }

  class LLMProvider {
    const strategy: Strategy
    const ranker: R.Ranker
    const feedbackEnabled: bool
    var available: seq<string>
    var registry: map<string, Meta>
    var runtimeStats: map<string, R.Stats>
    var modelFallbacks: map<string, seq<string>>

    constructor (strategy: Strategy, ranker: R.Ranker, feedbackEnabled: bool, available: seq<string>,
                 registry: map<string, Meta>)
      ensures this.strategy == strategy && this.ranker == ranker && this.feedbackEnabled == feedbackEnabled
      ensures In() == Inputs(available, registry, map[]) && modelFallbacks == map[]
    {
      this.strategy := strategy;
      this.ranker := ranker;
      this.feedbackEnabled := feedbackEnabled;
      this.available := available;
      this.registry := registry;
      runtimeStats := map[];
      modelFallbacks := map[];
    }

    function In(): Inputs
      reads this
    {
      Inputs(available, registry, runtimeStats)
    }

    /** Drops the excluded models and rebuilds the metadata of the rest. */
    method BuildModelRegistry(source: ModelRegistry, pricing: map<string, Price>, excluded: set<string>)
      modifies this`available, this`registry, source
      ensures available == StableSort.Filter(m => m !in excluded, old(available)) && source.models == available
      ensures registry.Keys == set m | m in available && source.rules.isChat(m)
      ensures PricedEntries(registry, pricing, LeastTotal(source.rules, pricing, available),
                            GreatestTotal(source.rules, pricing, available))
    {
      available := StableSort.Filter(m => m !in excluded, available);
      source.UpdateModels(available);
      source.Build(pricing);
      registry := source.registry;
    }

    /** The models to time at start-up. */
    method SelectStartupProbeModels() returns (picked: seq<string>)
      ensures picked == Selection.ProbeModels(ranker.cfg.rules, registry, available, strategy.allowlists,
                                              strategy.probeMaxTier, strategy.probeMaxModels, strategy.alwaysProbe)
    {
      picked := Selection.SelectStartupProbeModels(
        ranker.cfg.rules, registry, available, strategy.allowlists, strategy.probeMaxTier, strategy.probeMaxModels,
        strategy.alwaysProbe);
    }

    method SelectModelsForTask(task: string) returns (ranked: seq<string>)
      requires ranker.cfg.Valid()
      modifies ranker
      ensures ranked == RankedNames(ranker.cfg, In(), WeightsFor(strategy, task))
      ensures ranked == RankedNames(ranker.cfg, In(), if task in strategy.taskWeights then strategy.taskWeights[task]
                                                      else strategy.defaultWeights)
    {
      if available == [] {
        R.RankedNone(ranker.cfg, registry, WeightsFor(strategy, task), runtimeStats);
        return [];
      }
      var scored := ranker.Rank(available, registry, WeightsFor(strategy, task), runtimeStats);
      ranked := MapSeq((p: (string, real)) => p.0, scored);
    }

    method BuildCappedChain(ranked: seq<string>, cap: int) returns (chain: seq<string>)
      ensures chain == Capped(ranked, registry, cap)
    {
      var preferred: seq<string>, aboveCap: seq<string> := [], [];
      for i := 0 to |ranked|
        invariant preferred == StableSort.Filter(WithinCap(registry, cap), ranked[..i])
        invariant aboveCap == StableSort.Filter(AboveCap(registry, cap), ranked[..i])
      {
        var model := ranked[i];
        StableSort.FilterAppend(WithinCap(registry, cap), ranked[..i], [model]);
        StableSort.FilterAppend(AboveCap(registry, cap), ranked[..i], [model]);
        assert ranked[..i + 1] == ranked[..i] + [model];
        if Selection.CostTierOf(registry, model) <= cap {
          preferred := preferred + [model];
        } else {
          aboveCap := aboveCap + [model];
        }
      }
      assert ranked[..|ranked|] == ranked;
      chain := preferred + aboveCap;
    }

    method BuildLatencySloChain(ranked: seq<string>, maxP50: real) returns (chain: seq<string>)
      ensures chain == SloChain(ranked, ranker.cfg, runtimeStats, maxP50)
    {
      var cfg := ranker.cfg;
      var preferred: seq<string>, lastResort: seq<string> := [], [];
      for i := 0 to |ranked|
        invariant preferred == StableSort.Filter(Meets(cfg, runtimeStats, maxP50), ranked[..i])
        invariant lastResort == StableSort.Filter(Misses(cfg, runtimeStats, maxP50), ranked[..i])
        invariant preferred == [] ==> lastResort == ranked[..i]
      {
        var model := ranked[i];
        StableSort.FilterAppend(Meets(cfg, runtimeStats, maxP50), ranked[..i], [model]);
        StableSort.FilterAppend(Misses(cfg, runtimeStats, maxP50), ranked[..i], [model]);
        assert ranked[..i + 1] == ranked[..i] + [model];
        if MeetsSlo(cfg, runtimeStats, maxP50, model) {
          preferred := preferred + [model];
        } else {
          lastResort := lastResort + [model];
        }
      }
      assert ranked[..|ranked|] == ranked;
      if preferred == [] { return ranked; }
      chain := preferred + lastResort;
    }

    method BuildChain(task: string) returns (chain: seq<string>)
      requires ranker.cfg.Valid()
      modifies ranker
      ensures chain == ChainFor(strategy, ranker.cfg, In(), task)
    {
      chain := SelectModelsForTask(task);
      if task in strategy.costCaps { chain := BuildCappedChain(chain, strategy.costCaps[task]); }
      if task in strategy.latencySlos { chain := BuildLatencySloChain(chain, strategy.latencySlos[task]); }
      var allow := AllowlistFor(strategy, task);
      if allow.Some? { chain := AllowlistChain(chain, allow.value); }
    }

    /** Rebuilds all chains at once; a disabled strategy leaves them alone. */
    method BuildTaskFallbacks()
      requires ranker.cfg.Valid()
      modifies this`modelFallbacks, ranker
      ensures In() == old(In())
      ensures !strategy.enabled ==> modelFallbacks == old(modelFallbacks)
      ensures strategy.enabled ==> AreFallbacks(strategy, ranker.cfg, In(), modelFallbacks, Assignments(strategy))
    {
      if !strategy.enabled { return; }
      var fallbacks: map<string, seq<string>> := map[];
      var pairs := Assignments(strategy);
      for i := 0 to |pairs|
        invariant AreFallbacks(strategy, ranker.cfg, In(), fallbacks, pairs[..i])
      {
        var chain := BuildChain(pairs[i].1);
        FallbacksStep(strategy, ranker.cfg, In(), fallbacks, pairs, i);
        fallbacks := fallbacks[pairs[i].0 := chain];
      }
      assert pairs[..|pairs|] == pairs;
      modelFallbacks := fallbacks;
    }

    /** Fresh statistics overwrite per model; an empty collection leaves everything as it was. */
    method MergeStats(newStats: map<string, R.Stats>)
      modifies this`runtimeStats
      ensures runtimeStats == old(runtimeStats) + newStats
    {
      if newStats != map[] { runtimeStats := runtimeStats + newStats; }
    }

    /** Merges fresh statistics over the old ones and rebuilds the chains; without a store nothing happens. */
    method RefreshRankings(newStats: map<string, R.Stats>)
      requires ranker.cfg.Valid()
      modifies this`runtimeStats, this`modelFallbacks, ranker
      ensures !feedbackEnabled ==> In() == old(In()) && modelFallbacks == old(modelFallbacks)
      ensures feedbackEnabled ==> In() == old(In()).(stats := old(runtimeStats) + newStats)
      ensures feedbackEnabled && !strategy.enabled ==> modelFallbacks == old(modelFallbacks)
      ensures feedbackEnabled && strategy.enabled ==>
                AreFallbacks(strategy, ranker.cfg, In(), modelFallbacks, Assignments(strategy))
    {
      if !feedbackEnabled { return; }
      MergeStats(newStats);
      BuildTaskFallbacks();
    }

    /** Top models of a task, spread over providers when asked to. */
    method SelectDiverseModelsForTask(task: string, count: int, requireDiversity: bool) returns (selected: seq<string>)
      requires ranker.cfg.Valid()
      modifies ranker
      ensures count > 0 && requireDiversity ==>
                selected == Selection.Diverse(ranker.cfg.rules.provider,
                                              RankedNames(ranker.cfg, In(), WeightsFor(strategy, task)), count)
      ensures count > 0 && !requireDiversity ==>
                selected == SliceTo(RankedNames(ranker.cfg, In(), WeightsFor(strategy, task)), count)
      ensures count <= 0 ==> selected == []
    {
      if count <= 0 { return []; }
      var ranked := SelectModelsForTask(task);
      selected := Selection.SelectDiverse(ranker.cfg.rules.provider, ranked, count, requireDiversity);
    }
  }

  lemma FallbacksStep(s: Strategy, cfg: R.RankerConfig, i: Inputs, chains: map<string, seq<string>>,
                      pairs: seq<(string, string)>, n: nat)
    requires cfg.Valid() && n < |pairs| && AreFallbacks(s, cfg, i, chains, pairs[..n])
    ensures AreFallbacks(s, cfg, i, chains[pairs[n].0 := ChainFor(s, cfg, i, pairs[n].1)], pairs[..n + 1])
  {
    hide ChainFor;
    assert pairs[..n + 1][..n] == pairs[..n];
    forall k
      ensures LastValue(pairs[..n + 1], k) == if k == pairs[n].0 then Some(pairs[n].1) else LastValue(pairs[..n], k) {}
  }

  /** Which task a name's chain is built for: the last dimension of that name, else the last component, else itself if
      it is a task type; other names have no chain. */
  lemma TaskOfName(s: Strategy, name: string)
    ensures LastValue(Assignments(s), name) ==
            if LastValue(s.dimensions, name).Some? then LastValue(s.dimensions, name)
            else if LastValue(s.components, name).Some? then LastValue(s.components, name)
            else if name in s.taskTypes then Some(name) else None
  {
    var own := MapSeq((t: string) => (t, t), s.taskTypes);
    LastOfJoined(own + s.components, s.dimensions, name);
    LastOfJoined(own, s.components, name);
    OwnTask(s.taskTypes, name);
  }

  lemma {:induction false} LastOfJoined(a: seq<(string, string)>, b: seq<(string, string)>, k: string)
    ensures LastValue(a + b, k) == if LastValue(b, k).Some? then LastValue(b, k) else LastValue(a, k)
  {
    if b == [] {
      assert a + b == a;
    } else {
      assert (a + b)[..|a + b| - 1] == a + b[..|b| - 1];
      LastOfJoined(a, b[..|b| - 1], k);
    }
  }

  lemma {:induction false} OwnTask(types: seq<string>, name: string)
    ensures LastValue(MapSeq((t: string) => (t, t), types), name) == if name in types then Some(name) else None
  {
    if types != [] {
      var init, last := types[..|types| - 1], types[|types| - 1];
      var own := MapSeq((t: string) => (t, t), types);
      assert types == init + [last];
      assert own[..|own| - 1] == MapSeq((t: string) => (t, t), init);
      OwnTask(init, name);
    }
  }

  // ---- Cost cap, then latency limit

  lemma {:induction false} FilterFilter<T>(p: T -> bool, q: T -> bool, both: T -> bool, s: seq<T>)
    requires forall x | x in s :: both(x) == (p(x) && q(x))
    ensures StableSort.Filter(p, StableSort.Filter(q, s)) == StableSort.Filter(both, s)
  {
    if s != [] { FilterFilter(p, q, both, s[1..]); }
  }

  function InQuadrant(cfg: R.RankerConfig, i: Inputs, cap: int, maxP50: real, slo: bool, within: bool): string -> bool {
    m => MeetsSlo(cfg, i.stats, maxP50, m) == slo && (Selection.CostTierOf(i.registry, m) <= cap) == within
  }

  /** The models that meet the limit or not, and lie within the cap or not, in rank order. */
  function Quadrant(ranked: seq<string>, cfg: R.RankerConfig, i: Inputs, cap: int, maxP50: real,
                    slo: bool, within: bool): seq<string>
  {
    StableSort.Filter(InQuadrant(cfg, i, cap, maxP50, slo, within), ranked)
  }

  /** Cap then limit gives four blocks, each in rank order: both met; fast but dear; cheap but slow; neither. */
  lemma CapThenSloBlocks(ranked: seq<string>, cfg: R.RankerConfig, i: Inputs, cap: int, maxP50: real)
    ensures SloChain(Capped(ranked, i.registry, cap), cfg, i.stats, maxP50) ==
            Quadrant(ranked, cfg, i, cap, maxP50, true, true) + Quadrant(ranked, cfg, i, cap, maxP50, true, false)
            + Quadrant(ranked, cfg, i, cap, maxP50, false, true) + Quadrant(ranked, cfg, i, cap, maxP50, false, false)
  {
    hide *;
    var a := StableSort.Filter(WithinCap(i.registry, cap), ranked);
    var b := StableSort.Filter(AboveCap(i.registry, cap), ranked);
    ChainOfCap(ranked, cfg, i, cap, maxP50);
    StableSort.FilterAppend(Meets(cfg, i.stats, maxP50), a, b);
    StableSort.FilterAppend(Misses(cfg, i.stats, maxP50), a, b);
    QuadrantIs(ranked, cfg, i, cap, maxP50, true, true);
    QuadrantIs(ranked, cfg, i, cap, maxP50, true, false);
    QuadrantIs(ranked, cfg, i, cap, maxP50, false, true);
    QuadrantIs(ranked, cfg, i, cap, maxP50, false, false);
  }

  lemma ChainOfCap(ranked: seq<string>, cfg: R.RankerConfig, i: Inputs, cap: int, maxP50: real)
    ensures var capped := StableSort.Filter(WithinCap(i.registry, cap), ranked)
                          + StableSort.Filter(AboveCap(i.registry, cap), ranked);
            SloChain(Capped(ranked, i.registry, cap), cfg, i.stats, maxP50) ==
            StableSort.Filter(Meets(cfg, i.stats, maxP50), capped)
            + StableSort.Filter(Misses(cfg, i.stats, maxP50), capped)
  {}

  lemma QuadrantIs(ranked: seq<string>, cfg: R.RankerConfig, i: Inputs, cap: int, maxP50: real, slo: bool, within: bool)
    ensures var ofCap := if within then WithinCap(i.registry, cap) else AboveCap(i.registry, cap);
            Quadrant(ranked, cfg, i, cap, maxP50, slo, within) ==
            StableSort.Filter(if slo then Meets(cfg, i.stats, maxP50) else Misses(cfg, i.stats, maxP50),
                              StableSort.Filter(ofCap, ranked))
  {
    hide MeetsSlo;
    hide Selection.CostTierOf;
    FilterFilter(if slo then Meets(cfg, i.stats, maxP50) else Misses(cfg, i.stats, maxP50),
                 if within then WithinCap(i.registry, cap) else AboveCap(i.registry, cap),
                 InQuadrant(cfg, i, cap, maxP50, slo, within), ranked);
  }

  lemma CappedPermutes(ranked: seq<string>, registry: map<string, Meta>, cap: int)
    ensures multiset(Capped(ranked, registry, cap)) == multiset(ranked)
  {
    StableSort.FilterPartition(WithinCap(registry, cap), AboveCap(registry, cap), ranked);
  }

  lemma SloPermutes(ranked: seq<string>, cfg: R.RankerConfig, stats: map<string, R.Stats>, maxP50: real)
    ensures multiset(SloChain(ranked, cfg, stats, maxP50)) == multiset(ranked)
  {
    StableSort.FilterPartition(Meets(cfg, stats, maxP50), Misses(cfg, stats, maxP50), ranked);
  }

  /** Without an allowlist a chain loses no model: it is a permutation of the available ones. */
  lemma ChainKeepsAll(s: Strategy, cfg: R.RankerConfig, i: Inputs, task: string)
    requires cfg.Valid()
    ensures multiset(PreferredOrder(s, cfg, i, task)) == multiset(i.available)
  {
    var ranked := RankedNames(cfg, i, WeightsFor(s, task));
    R.RankedWell(cfg, i.registry, WeightsFor(s, task), i.stats, i.available);
    var capped := if task in s.costCaps then Capped(ranked, i.registry, s.costCaps[task]) else ranked;
    if task in s.costCaps { CappedPermutes(ranked, i.registry, s.costCaps[task]); }
    if task in s.latencySlos { SloPermutes(capped, cfg, i.stats, s.latencySlos[task]); }
  }

  // ---- The order of a chain

  lemma {:induction false} FilterSorted<T>(lt: (T, T) -> bool, p: T -> bool, s: seq<T>)
    requires StableSort.FullySorted(lt, s)
    ensures StableSort.FullySorted(lt, StableSort.Filter(p, s))
  {
    if s != [] {
      var rest := s[1..];
      FilterSorted(lt, p, rest);
      StableSort.FilterMembers(p, rest);
      forall x | x in StableSort.Filter(p, rest) ensures !lt(x, s[0]) {
        var k :| 0 <= k < |rest| && rest[k] == x;
        assert s[k + 1] == x;
      }
    }
  }

  /** Putting one part of a sorted list before the rest makes that part the first key of its order. */
  lemma PartitionSorted<T>(lt: (T, T) -> bool, p: T -> bool, q: T -> bool, above: (T, T) -> bool, s: seq<T>)
    requires StableSort.FullySorted(lt, s)
    requires forall x | x in s :: p(x) != q(x)
    requires forall x, y | x in s && y in s :: above(x, y) == if p(x) != p(y) then p(x) else lt(x, y)
    ensures StableSort.FullySorted(above, StableSort.Filter(p, s) + StableSort.Filter(q, s))
  {
    var a, b := StableSort.Filter(p, s), StableSort.Filter(q, s);
    StableSort.FilterMembers(p, s);
    StableSort.FilterMembers(q, s);
    FilterSorted(lt, p, s);
    FilterSorted(lt, q, s);
    var out := a + b;
    forall i, j | 0 <= i < j < |out| ensures !above(out[j], out[i]) {
      assert if i < |a| then out[i] in a else out[i] in b;
      assert if j < |a| then out[j] in a else out[j] in b;
    }
  }

  /** Only the second model is demoted, or the first ranks better at the same demotion status. */
  function RankOrder(cfg: R.RankerConfig, i: Inputs, w: R.RankWeights): (string, string) -> bool
    requires cfg.Valid()
  {
    (m, n) =>
      if R.IsDemoted(cfg, i.stats, m) != R.IsDemoted(cfg, i.stats, n) then R.IsDemoted(cfg, i.stats, n)
      else R.Better(R.EntryFor(cfg, i.registry, w, i.stats, m), R.EntryFor(cfg, i.registry, w, i.stats, n))
  }

  /** The model keeps to the cost cap of the task, if there is one. */
  predicate KeepsCap(s: Strategy, i: Inputs, task: string, m: string) {
    task in s.costCaps ==> (if m in i.registry then i.registry[m].costTier else 3) <= s.costCaps[task]
  }

  /** The model keeps to the latency limit of the task, if there is one: its median, on enough samples, is within it. */
  predicate KeepsSlo(s: Strategy, cfg: R.RankerConfig, i: Inputs, task: string, m: string) {
    task in s.latencySlos ==>
      && m in i.stats && i.stats[m].sampleCount >= cfg.minSamples && i.stats[m].p50.Some?
      && i.stats[m].p50.value <= s.latencySlos[task]
  }

  function CapOrder(s: Strategy, cfg: R.RankerConfig, i: Inputs, task: string): (string, string) -> bool
    requires cfg.Valid()
  {
    (m, n) =>
      if KeepsCap(s, i, task, m) != KeepsCap(s, i, task, n) then KeepsCap(s, i, task, m)
      else RankOrder(cfg, i, if task in s.taskWeights then s.taskWeights[task] else s.defaultWeights)(m, n)
  }

  /** The latency limit decides first, then the cost cap, then demotion, then score and cost. */
  function ChainOrder(s: Strategy, cfg: R.RankerConfig, i: Inputs, task: string): (string, string) -> bool
    requires cfg.Valid()
  {
    (m, n) =>
      if KeepsSlo(s, cfg, i, task, m) != KeepsSlo(s, cfg, i, task, n) then KeepsSlo(s, cfg, i, task, m)
      else CapOrder(s, cfg, i, task)(m, n)
  }

  lemma RankedInOrder(cfg: R.RankerConfig, i: Inputs, w: R.RankWeights)
    requires cfg.Valid()
    ensures StableSort.FullySorted(RankOrder(cfg, i, w), RankedNames(cfg, i, w))
  {
    hide R.Ranked;
    hide R.EntryFor;
    hide R.IsDemoted;
    hide R.Better;
    R.RankedWell(cfg, i.registry, w, i.stats, i.available);
    var out := R.Ranked(cfg, i.registry, w, i.stats, i.available);
    forall a, b | 0 <= a < b < |out| ensures !RankOrder(cfg, i, w)(out[b].model, out[a].model) {
      assert out[a] in out && out[b] in out;
    }
  }

  lemma CappedInOrder(s: Strategy, cfg: R.RankerConfig, i: Inputs, task: string, ranked: seq<string>)
    requires cfg.Valid() && StableSort.FullySorted(RankOrder(cfg, i, WeightsFor(s, task)), ranked)
    ensures StableSort.FullySorted(CapOrder(s, cfg, i, task),
                                   if task in s.costCaps then Capped(ranked, i.registry, s.costCaps[task]) else ranked)
  {
    hide RankOrder;
    if task in s.costCaps {
      var cap := s.costCaps[task];
      PartitionSorted(RankOrder(cfg, i, WeightsFor(s, task)), WithinCap(i.registry, cap), AboveCap(i.registry, cap),
                      CapOrder(s, cfg, i, task), ranked);
    }
  }

  lemma LimitedInOrder(s: Strategy, cfg: R.RankerConfig, i: Inputs, task: string, capped: seq<string>)
    requires cfg.Valid() && StableSort.FullySorted(CapOrder(s, cfg, i, task), capped)
    ensures StableSort.FullySorted(ChainOrder(s, cfg, i, task),
                                   if task in s.latencySlos then SloChain(capped, cfg, i.stats, s.latencySlos[task])
                                   else capped)
  {
    hide CapOrder;
    if task in s.latencySlos {
      var limit := s.latencySlos[task];
      PartitionSorted(CapOrder(s, cfg, i, task), Meets(cfg, i.stats, limit), Misses(cfg, i.stats, limit),
                      ChainOrder(s, cfg, i, task), capped);
    }
  }

  /** Main result on chains: without an allowlist no model stands behind one that `ChainOrder` puts after it.  A model
      that ranks better stands behind a worse one only on account of the limit or the cap. */
  lemma ChainInOrder(s: Strategy, cfg: R.RankerConfig, i: Inputs, task: string)
    requires cfg.Valid() && !Allowlisted(s, task)
    ensures StableSort.FullySorted(ChainOrder(s, cfg, i, task), ChainFor(s, cfg, i, task))
  {
    var ranked := RankedNames(cfg, i, WeightsFor(s, task));
    var capped := if task in s.costCaps then Capped(ranked, i.registry, s.costCaps[task]) else ranked;
    assert ChainFor(s, cfg, i, task) ==
           if task in s.latencySlos then SloChain(capped, cfg, i.stats, s.latencySlos[task]) else capped;
    hide *;
    RankedInOrder(cfg, i, WeightsFor(s, task));
    CappedInOrder(s, cfg, i, task, ranked);
    LimitedInOrder(s, cfg, i, task, capped);
  }

  /** The head of a chain: no available model comes before it in that order, so it keeps to the limit if any model does,
      and to limit and cap if any model keeps to both. */
  lemma ChainWinner(s: Strategy, cfg: R.RankerConfig, i: Inputs, task: string, m: string)
    requires cfg.Valid() && !Allowlisted(s, task) && m in i.available
    ensures var chain := ChainFor(s, cfg, i, task);
            && chain != [] && !ChainOrder(s, cfg, i, task)(m, chain[0])
            && (KeepsSlo(s, cfg, i, task, m) ==> KeepsSlo(s, cfg, i, task, chain[0]))
            && (KeepsSlo(s, cfg, i, task, m) && KeepsCap(s, i, task, m) ==> KeepsCap(s, i, task, chain[0]))
  {
    var chain := ChainFor(s, cfg, i, task);
    assert chain == PreferredOrder(s, cfg, i, task);
    hide *;
    ChainInOrder(s, cfg, i, task);
    ChainKeepsAll(s, cfg, i, task);
    StableSort.SameMembers(chain, i.available);
    NotBeforeItself(s, cfg, i, task, m);
    HeadIsLeast(ChainOrder(s, cfg, i, task), chain, m);
    NotBefore(s, cfg, i, task, m, chain[0]);
  }

  lemma HeadIsLeast<T>(lt: (T, T) -> bool, s: seq<T>, x: T)
    requires StableSort.FullySorted(lt, s) && x in s && !lt(x, x)
    ensures s != [] && !lt(x, s[0])
  {
    var k :| 0 <= k < |s| && s[k] == x;
  }

  lemma NotBefore(s: Strategy, cfg: R.RankerConfig, i: Inputs, task: string, m: string, head: string)
    requires cfg.Valid() && !ChainOrder(s, cfg, i, task)(m, head)
    ensures KeepsSlo(s, cfg, i, task, m) ==> KeepsSlo(s, cfg, i, task, head)
    ensures KeepsSlo(s, cfg, i, task, m) && KeepsCap(s, i, task, m) ==> KeepsCap(s, i, task, head)
  {
    hide KeepsSlo;
    hide KeepsCap;
    hide RankOrder;
    if KeepsSlo(s, cfg, i, task, m) == KeepsSlo(s, cfg, i, task, head) {
      assert !CapOrder(s, cfg, i, task)(m, head);
    }
  }

  lemma NotBeforeItself(s: Strategy, cfg: R.RankerConfig, i: Inputs, task: string, m: string)
    requires cfg.Valid()
    ensures !ChainOrder(s, cfg, i, task)(m, m)
  {
    assert !RankOrder(cfg, i, WeightsFor(s, task))(m, m);
    assert !CapOrder(s, cfg, i, task)(m, m);
  }

  /** From the price list to the chain: of two priced models with the same capability tier and the same effective
      latency tier the strictly cheaper one stands first, unless the other has the better error or latency record.  The
      cap cannot turn them round. */
  lemma CheaperFirstInChain(s: Strategy, cfg: R.RankerConfig, i: Inputs, task: string, pricing: map<string, Price>,
                            lo: real, hi: real, cheap: string, dear: string, a: nat, b: nat)
    requires cfg.Valid() && !Allowlisted(s, task) && WeightsFor(s, task).cost >= 0.0
    requires PricedEntries(i.registry, pricing, lo, hi)
    requires cheap in i.registry && dear in i.registry && IsPriced(pricing, cheap) && IsPriced(pricing, dear)
    requires TotalCost(pricing, cheap) < TotalCost(pricing, dear)
    requires i.registry[cheap].capabilityTier == i.registry[dear].capabilityTier
    requires R.EffectiveLatencyTier(cfg, i.stats, cheap, i.registry[cheap].latencyTier) ==
             R.EffectiveLatencyTier(cfg, i.stats, dear, i.registry[dear].latencyTier)
    requires R.IsDemoted(cfg, i.stats, cheap) ==> R.IsDemoted(cfg, i.stats, dear)
    requires KeepsSlo(s, cfg, i, task, dear) ==> KeepsSlo(s, cfg, i, task, cheap)
    requires a < |ChainFor(s, cfg, i, task)| && ChainFor(s, cfg, i, task)[a] == cheap
    requires b < |ChainFor(s, cfg, i, task)| && ChainFor(s, cfg, i, task)[b] == dear
    ensures a < b
  {
    assert cheap != dear;
    CheaperKeepsCap(s, i, task, pricing, lo, hi, cheap, dear);
    R.CheaperIsBetter(cfg, i.registry, WeightsFor(s, task), i.stats, pricing, lo, hi, cheap, dear);
    hide *;
    ChainInOrder(s, cfg, i, task);
    BetterStandsFirst(s, cfg, i, task, cheap, dear);
    SmallerStandsFirst(ChainOrder(s, cfg, i, task), ChainFor(s, cfg, i, task), a, b);
  }

  lemma SmallerStandsFirst<T>(lt: (T, T) -> bool, s: seq<T>, a: nat, b: nat)
    requires StableSort.FullySorted(lt, s) && a < |s| && b < |s| && a != b && lt(s[a], s[b])
    ensures a < b
  {}

  lemma CheaperKeepsCap(s: Strategy, i: Inputs, task: string, pricing: map<string, Price>, lo: real, hi: real,
                        cheap: string, dear: string)
    requires PricedEntries(i.registry, pricing, lo, hi)
    requires cheap in i.registry && dear in i.registry && IsPriced(pricing, cheap) && IsPriced(pricing, dear)
    requires TotalCost(pricing, cheap) < TotalCost(pricing, dear)
    ensures KeepsCap(s, i, task, dear) ==> KeepsCap(s, i, task, cheap)
  {
    CostTierMonotone(TotalCost(pricing, cheap), TotalCost(pricing, dear), lo, hi);
  }

  lemma BetterStandsFirst(s: Strategy, cfg: R.RankerConfig, i: Inputs, task: string, m: string, n: string)
    requires cfg.Valid()
    requires KeepsSlo(s, cfg, i, task, n) ==> KeepsSlo(s, cfg, i, task, m)
    requires KeepsCap(s, i, task, n) ==> KeepsCap(s, i, task, m)
    requires R.IsDemoted(cfg, i.stats, m) ==> R.IsDemoted(cfg, i.stats, n)
    requires R.Better(R.EntryFor(cfg, i.registry, WeightsFor(s, task), i.stats, m),
                      R.EntryFor(cfg, i.registry, WeightsFor(s, task), i.stats, n))
    ensures ChainOrder(s, cfg, i, task)(m, n)
  {
    hide KeepsSlo;
    hide KeepsCap;
    hide R.IsDemoted;
    hide R.EntryFor;
    hide R.Better;
    assert RankOrder(cfg, i, WeightsFor(s, task))(m, n);
    assert CapOrder(s, cfg, i, task)(m, n);
  }

  // ---- Allowlists decide

  /** The task has an allowlist with something on it. */
  predicate Allowlisted(s: Strategy, task: string) {
    Lookup(s.allowlists, task).Some? && Lookup(s.allowlists, task).value != []
  }

  /** With an allowlist the chain is the allowlist restricted to the available models, whatever the weights, caps,
      limits, registry and statistics. */
  lemma AllowlistDecides(s: Strategy, cfg: R.RankerConfig, i: Inputs, task: string)
    requires cfg.Valid() && Allowlisted(s, task)
    ensures ChainFor(s, cfg, i, task) ==
            StableSort.Filter(m => m in i.available, MapSeq(Text.Strip, Lookup(s.allowlists, task).value))
  {
    var order := PreferredOrder(s, cfg, i, task);
    ChainKeepsAll(s, cfg, i, task);
    StableSort.SameMembers(order, i.available);
    StableSort.FilterAgree(m => m in order, m => m in i.available, AllowlistFor(s, task).value);
  }

  /** One round of the background refresh: the statistics collected, or an error while collecting (nothing happens), or
      one while building chains (the statistics are merged already, the old chains stay). */
  datatype Round = Collected(stats: map<string, R.Stats>) | CollectFailed | BuildFailed(stats: map<string, R.Stats>)

  function StatsAfter(stats: map<string, R.Stats>, rounds: seq<Round>): map<string, R.Stats> {
    if rounds == [] then stats
    else
      var before := StatsAfter(stats, rounds[..|rounds| - 1]);
      match rounds[|rounds| - 1]
      case Collected(latest) => before + latest
      case BuildFailed(latest) => before + latest
      case CollectFailed => before
  }

  /** The statistics behind the chains: those of the last round that built any. */
  function StatsBuilt(stats: map<string, R.Stats>, rounds: seq<Round>): map<string, R.Stats> {
    if rounds == [] then stats
    else if rounds[|rounds| - 1].Collected? then StatsAfter(stats, rounds)
    else StatsBuilt(stats, rounds[..|rounds| - 1])
  }

  /** The background refresh, any number of rounds long, whichever of them fail.  While the available models stay the
      same, the chain of a name whose task has an allowlist never changes. */
  method RefreshLoop(p: LLMProvider, rounds: seq<Round>)
    requires p.ranker.cfg.Valid() && p.feedbackEnabled && p.strategy.enabled
    requires AreFallbacks(p.strategy, p.ranker.cfg, p.In(), p.modelFallbacks, Assignments(p.strategy))
    modifies p`runtimeStats, p`modelFallbacks, p.ranker
    ensures p.In() == old(p.In()).(stats := StatsAfter(old(p.runtimeStats), rounds))
    ensures AreFallbacks(p.strategy, p.ranker.cfg, p.In().(stats := StatsBuilt(old(p.runtimeStats), rounds)),
                         p.modelFallbacks, Assignments(p.strategy))
    ensures p.modelFallbacks.Keys == old(p.modelFallbacks.Keys)
    ensures forall k | k in p.modelFallbacks
                       && Allowlisted(p.strategy, LastValue(Assignments(p.strategy), k).value) ::
              p.modelFallbacks[k] == old(p.modelFallbacks)[k]
  {
    hide AreFallbacks;
    hide Assignments;
    hide Allowlisted;
    for n := 0 to |rounds|
      invariant p.In() == old(p.In()).(stats := StatsAfter(old(p.runtimeStats), rounds[..n]))
      invariant AreFallbacks(p.strategy, p.ranker.cfg, p.In().(stats := StatsBuilt(old(p.runtimeStats), rounds[..n])),
                             p.modelFallbacks, Assignments(p.strategy))
    {
      assert rounds[..n + 1][..n] == rounds[..n];
      match rounds[n] {
        case Collected(latest) => p.RefreshRankings(latest);
        case BuildFailed(latest) => p.MergeStats(latest);
        case CollectFailed =>
      }
    }
    assert rounds[..|rounds|] == rounds;
    AllowlistedChainsAgree(p.strategy, p.ranker.cfg, old(p.In()),
                           p.In().(stats := StatsBuilt(old(p.runtimeStats), rounds)),
                           old(p.modelFallbacks), p.modelFallbacks);
  }

  /** Two sets of chains built over the same available models agree wherever an allowlist is in force. */
  lemma AllowlistedChainsAgree(s: Strategy, cfg: R.RankerConfig, i: Inputs, j: Inputs,
                               before: map<string, seq<string>>, after: map<string, seq<string>>)
    requires cfg.Valid() && i.available == j.available
    requires AreFallbacks(s, cfg, i, before, Assignments(s)) && AreFallbacks(s, cfg, j, after, Assignments(s))
    ensures before.Keys == after.Keys
    ensures forall k | k in after && Allowlisted(s, LastValue(Assignments(s), k).value) :: after[k] == before[k]
  {
    forall k | k in after && Allowlisted(s, LastValue(Assignments(s), k).value)
      ensures k in before && after[k] == before[k]
    {
      var task := LastValue(Assignments(s), k).value;
      AllowlistDecides(s, cfg, i, task);
      AllowlistDecides(s, cfg, j, task);
    }
  }
}
