# Verified model of the search service's decision logic

The repository is a search service (`packages/semantic-search`) and a library that chooses and calls language models
(`packages/llm-core`). This project models the parts of both that decide something - which model is tried first, which
filters reach the database, which result is shown where, what a trace or a health record says - and proves what those
decisions guarantee. `dafny verify dfyconfig.toml` checks everything.

One module per source component:

| module | what it is |
|---|---|
| `StableSort` | the list sort underneath every ordering, for an arbitrary comparison: runs, binary insertion, and merging for every way of cutting and merging |
| `ModelRegistry`, `Ranker`, `Selection`, `Provider` | cost tiers, model ranking, provider-diverse and start-up selection, fallback chains and their refresh |
| `SignalAdapter` | per-model statistics from feedback signals |
| `LlmClient` | the learned set of models that take no temperature, and its one retry |
| `Text`, `OrderedDict`, `SqlHint`, `FilterBridge` | the `key=value` hint, its 300-character cut, and the typed filters compiled from it |
| `ReasoningTrace` | the bounded log with its truncation marker |
| `Retrieval`, `RetrievalMetrics`, `AuctionTiebreak`, `FilterSummary` | post-processing of results |
| `ClickHouseClient` | retries, health records and the freshness probe |
| `Common`, `Reals` | shared types; rounding to four decimals, truncation, extremes over exact reals |

Classes stand for the objects whose fields the service updates; every method is proved against a function of its inputs
and the old state, and the lemmas about those functions are the results. Whatever the service cannot decide itself is a
parameter on which nothing is assumed unless a lemma says so: the rules that read a provider, family, version or
capability off a model name, the answers of remote services, `log2`, `log1p`, the number parser, the text form of
values. Floats are exact reals, integers unbounded, and calls on one object run one after the other.

## Findings

Where the code and what is said about it part, the code was modelled as it is.

- `packages/llm-core/llm_core/ranker.py:177-198`: the ranking comparison is not an order, although the class comment
  (61-68) reads as if it were. `Ranker.PartialOrderIff` and `Ranker.TotalPreorderIff` say exactly when it is, in terms of
  score, cost, who is measured, family and preference. They are exact for rows as such, whose latency may vary while the
  score stays; for the blocks that `rank` builds, where the score comes from the bucket of that very latency, their
  conditions are sufficient. `Ranker.MixedMeasurementCycle` and `Ranker.SplitFamilyCycle` are
  circles, and `Ranker.SharedPreferenceKeepsInversion` is a list the sort returns with an older model of a family ahead of
  a newer one. What survives for every input is `Ranker.RankedWell`; what the comment promises holds under the condition of
  `Ranker.RankedBlockExact`.
- `packages/llm-core/llm_core/ranker.py:28-46`: `from_dict` calls its three weights required and non-negative, but refuses
  only a missing key or a sum that is not positive; `Ranker.NegativeWeightAccepted` is a table with a negative cost weight
  that it takes. What rests on the sign of a weight says so in its hypotheses.
- `packages/semantic-search/semantic_search/app.py:4812-4818`: the comment that normalising a prefix equals the prefix of
  the normalised pool holds in `max` mode (`Retrieval.MaxModePrefix`). In `minmax` mode, which the service ships
  (`packages/semantic-search/semantic_search/config/base.yaml:2530`), it holds exactly when the prefix reaches the pool's
  minimum or is level and positive (`Retrieval.MinMaxPrefixIff`; for the rounded scores `Retrieval.MinMaxPrefixRoundedIff`
  and `Retrieval.MinMaxShortPrefixIff`);
  `Retrieval.MinMaxPrefixWitness` is a pool on which it fails.
- `packages/semantic-search/semantic_search/app.py:1968-1989`: `_normalise_scores` says it normalises to [0, 1]; in `max`
  mode that holds exactly under the condition of `Retrieval.MaxModeInUnitIff`, and fails on the list of
  `Retrieval.MaxModeWitness`.
- `packages/semantic-search/semantic_search/app.py:3011-3052`: `_compute_retrieval_metrics` says all four values are
  bounded by [0, 1]. None is for arbitrary lists: `RetrievalMetrics.RecallInUnitIff`, `RetrievalMetrics.PrecisionInUnitIff`,
  `RetrievalMetrics.CoherenceInUnitIff` and `RetrievalMetrics.NdcgInUnitIff` give the exact conditions,
  `RetrievalMetrics.RecallEscapes`, `RetrievalMetrics.PrecisionEscapes`, `RetrievalMetrics.CoherenceEscapes` and
  `RetrievalMetrics.NdcgEscapes` failing lists.
  On the search path they hold (`RetrievalMetrics.SearchPathMetrics`, `RetrievalMetrics.SearchPathUnit`), but there NDCG
  carries no information: it is 1 or 0.
- `packages/semantic-search/semantic_search/contracts.py:645-654`: a `ReasoningTrace` built from a list that already starts
  with a truncation marker forgets that marker's counter unless the condition of `ReasoningTrace.SeedKeepsCount` holds;
  `ReasoningTrace.SeedForgetsWitness` is such a list. `add` never forgets (`ReasoningTrace.AddCountsOne`).
- `packages/semantic-search/semantic_search/analytics/filter_bridge.py:12-94`: the bridge promises that unrecognised slots
  are skipped silently and says nothing of errors; an inverted range or a value with unsafe characters raises
  (`packages/semantic-search/semantic_search/analytics/query_templates.py:88-92,165-195`) and fails the whole hint
  (`FilterBridge.HintFailsIff`, `FilterBridge.InvertedRangeIsUnsatisfiable`). Which configurations keep the meaning of
  every hint, make the order of its pairs irrelevant, and lose no error is stated exactly by
  `FilterBridge.MeaningKeptIff`, `FilterBridge.OrderIrrelevantIff` and `FilterBridge.ErrorsShowIff`.
- `packages/llm-core/llm_core/signal_adapter.py:113,136-139`: one unreadable latency value ends a whole collection of
  signals with empty statistics, whereas an unreadable quality score leaves its model listed with no sample
  (`SignalAdapter.Collect`; `SignalAdapter.UnreadableLatencyLosesAll` and `SignalAdapter.UnreadableScoreCountsNothing` are
  such feeds).
- `packages/semantic-search/semantic_search/app.py:2475-2480`: a hint is joined with blanks and not quoted, so a value with
  white space in it is never read back: a fitting hint survives exactly when all its pairs are printable
  (`SqlHint.ShortHintRoundTripIff`).

## Model

| member | source | states |
|---|---|---|
| StableSort.ListSortPermutes | packages/llm-core/llm_core/ranker.py:233 | Sorting with any comparison whatever, cyclic ones included, returns the same elements, however the list is cut and merged |
| StableSort.WeaveLocallySorted | packages/llm-core/llm_core/ranker.py:233 | Merging two lists without adjacent inversions leaves none, given asymmetry and that neighbours from different lists were compared |
| StableSort.LeftStretchChecked | packages/llm-core/llm_core/ranker.py:233 | Galloping over a stretch of the left list keeps that condition if the end of the stretch was compared |
| StableSort.RightStretchChecked | packages/llm-core/llm_core/ranker.py:233 | The same for a stretch of the right list |
| StableSort.ListSortLocallySorted | packages/llm-core/llm_core/ranker.py:233 | An asymmetric comparison is enough for a result without adjacent inversions, at any length and for any plan of cutting and merging |
| StableSort.WeaveStable | packages/llm-core/llm_core/ranker.py:233 | For a total preorder a merge puts ties of the left list before ties of the right one |
| StableSort.ListSortStable | packages/llm-core/llm_core/ranker.py:233 | For a total preorder no pair is inverted at any distance and tied elements keep their input order |
| StableSort.StableSortIsUnique | packages/llm-core/llm_core/ranker.py:233 | Two sorted arrangements that keep ties in the same order are equal |
| StableSort.PlanDoesNotMatter | packages/llm-core/llm_core/ranker.py:233 | For a total preorder every plan of cutting and merging gives the result of the plain insertion sort |
| StableSort.ListSortDescendingPermutes | packages/llm-core/llm_core/ranker.py:233-234 | The descending sort returns the same elements for any comparison and plan |
| StableSort.ListSortDescendingLocal | packages/llm-core/llm_core/ranker.py:233-234 | The descending sort leaves no adjacent inversion for an asymmetric comparison and any plan |
| StableSort.ListSortDescendingStable | packages/llm-core/llm_core/ranker.py:233-234 | The descending sort is stable too: ties come out in input order, not reversed |
| StableSort.SortedIsUnique | packages/llm-core/llm_core/signal_adapter.py:56 | Under a total order two sorted arrangements of the same elements are equal, so the algorithm used cannot matter |
| ModelRegistry.ModelRegistry.constructor | packages/llm-core/llm_core/model_registry.py:75-85 | A new registry knows its models and overrides and holds no entry |
| ModelRegistry.ModelRegistry.UpdateModels | packages/llm-core/llm_core/model_registry.py:92-94 | The model set is replaced; the entries stay until the next build |
| ModelRegistry.ModelRegistry.Build | packages/llm-core/llm_core/model_registry.py:96-158 | Exactly the chat models get an entry, priced ones placed between the least and greatest total of the priced chat models, the others neutral, whatever was there before and however often a name is repeated |
| ModelRegistry.ModelRegistry.Classify | packages/llm-core/llm_core/model_registry.py:110-119 | Priced and unpriced chat models are separated completely, priced ones listed once |
| ModelRegistry.SortByTotal | packages/llm-core/llm_core/model_registry.py:124-128 | The ends of the cost-sorted list are the least and the greatest total |
| ModelRegistry.BoundsAgree | packages/llm-core/llm_core/model_registry.py:124-128 | Dropping repeated names moves neither end of the cost range |
| ModelRegistry.CostTier | packages/llm-core/llm_core/model_registry.py:128-131 | A cost tier lies in 1..5, also for a total outside the range |
| ModelRegistry.CostTierMonotone | packages/llm-core/llm_core/model_registry.py:128-131 | A dearer model never gets the lower tier |
| ModelRegistry.CostTierMeaning | packages/llm-core/llm_core/model_registry.py:128-131 | The priced range is cut into four equal parts, and tier t holds exactly the totals from (t - 1) quarters up to below t quarters, the greatest total tier 5 |
| ModelRegistry.MetaMeaning | packages/llm-core/llm_core/model_registry.py:132-157 | Capability and latency are the override or else the rule or 3, brought into 1..5; a model without usable rates is in cost tier 3 and costs 0 |
| ModelRegistry.CostTierExtremes | packages/llm-core/llm_core/model_registry.py:128-131 | The bottom of the range is tier 1; the top is tier 5 when the range is not empty |
| ModelRegistry.RegistryTiers | packages/llm-core/llm_core/model_registry.py:123-143 | In a built registry tiers follow total cost, the cheapest priced model has tier 1, and the dearest tier 5 unless all cost the same |
| Ranker.WeightsFromDict | packages/llm-core/llm_core/ranker.py:28-46 | Weights are accepted exactly when all three keys are there and the sum is positive; accepted ones are the given ones divided by their sum, so they sum to 1 and keep their signs |
| Ranker.NegativeWeightAccepted | packages/llm-core/llm_core/ranker.py:28-46 | A table with a negative weight that is accepted |
| Ranker.MakeConfig | packages/llm-core/llm_core/ranker.py:71-100 | A ranker is built exactly from four thresholds and a non-empty priority list |
| Ranker.EarlierIsPreferred | packages/llm-core/llm_core/ranker.py:92-104 | A provider counts where it is listed last; an earlier one is preferred to a later one and any listed one to an unlisted one, whose preference is 0 |
| Ranker.LatencyToTier | packages/llm-core/llm_core/ranker.py:106-116 | The tier is that of the first threshold the latency does not exceed, and 5 if it exceeds all four, sorted or not |
| Ranker.CompareAntisymmetric | packages/llm-core/llm_core/ranker.py:177-198 | Comparing the other way round negates the result |
| Ranker.ScoreInRange | packages/llm-core/llm_core/ranker.py:162-175 | Under normalised weights the score of a registered model lies between 1 and 5, so the tier reversal uses the right base |
| Ranker.ScoreMonotone | packages/llm-core/llm_core/ranker.py:162-175 | More capable, in a cheaper tier or in a faster tier never lowers a score |
| Ranker.EntryMeaning | packages/llm-core/llm_core/ranker.py:49-57 | A row from the tables: the documented score formula in full, with the bucket of a median that stands on enough samples in place of the registered tier, 3 for every tier of an unknown model, the negated total cost and median, family, version and preference |
| Ranker.TiebreakScopes | packages/llm-core/llm_core/ranker.py:179-198 | Versions never decide across families, provider preference never inside one, a measured latency never against an unmeasured model |
| Ranker.CompareMonotone | packages/llm-core/llm_core/ranker.py:177-198 | Improving any one key of a model never worsens a comparison |
| Ranker.PartialOrderIff | packages/llm-core/llm_core/ranker.py:177-198 | On rows as such, the comparison is a strict partial order, whatever latencies and versions turn out to be, if and only if no three rows clash over two different preferences |
| Ranker.TotalPreorderIff | packages/llm-core/llm_core/ranker.py:177-198 | On rows as such, it is a total preorder, whatever latencies and versions turn out to be, if and only if no three rows clash: two of a family with a stranger between them, or two measured ones with an unmeasured one that is kin or lies between |
| Ranker.ClashBreaks | packages/llm-core/llm_core/ranker.py:189-198 | From any clashing rows: latencies and versions under which the order fails |
| Ranker.HypothesesRuleOutClashes | packages/llm-core/llm_core/ranker.py:177-198 | Uniform measurement and one preference per family rule out circles; separate preferences as well rule out clashes altogether |
| Ranker.MixedMeasurementCycle | packages/llm-core/llm_core/ranker.py:189-198 | Without uniform measurement three models beat each other in a circle, the other two hypotheses holding |
| Ranker.SplitFamilyCycle | packages/llm-core/llm_core/ranker.py:192-198 | The same when a family has two preferences, the other two hypotheses holding |
| Ranker.SharedPreferenceKeepsInversion | packages/llm-core/llm_core/ranker.py:192-198 | With two families of one preference, although measurement is uniform and each family has one preference, ties are not transitive and the sort returns an older model before a newer one of its family |
| Ranker.KeysDescend | packages/llm-core/llm_core/ranker.py:185-188 | No adjacent inversion is enough for (score, cost) to be in order at every distance, despite the circles |
| Ranker.Ranker.constructor | packages/llm-core/llm_core/ranker.py:85-100 | A new ranker has warned about nothing |
| Ranker.Ranker.Rank | packages/llm-core/llm_core/ranker.py:200-235 | The returned pairs are the two sorted blocks of the specification for whatever plan the sort follows, unknown models scored as neutral, and exactly those become the models warned about |
| Ranker.RankedIsSortedBlocks | packages/llm-core/llm_core/ranker.py:232-234 | Each block comes out permuted and without adjacent inversion, at any length and for any plan |
| Ranker.AnySortRanksWell | packages/llm-core/llm_core/ranker.py:227-235 | Whatever sort leaves the blocks permuted without adjacent inversions: the candidates permuted, demoted models last, each block never improving on (score, cost) |
| Ranker.RankedWell | packages/llm-core/llm_core/ranker.py:200-235 | The same of the ranking itself, for every input, length and plan |
| Ranker.FailingComeLast | packages/llm-core/llm_core/ranker.py:131-141 | A model whose error rate is above the threshold on enough samples stands after every model of which that is not so |
| Ranker.NeighboursInOrder | packages/llm-core/llm_core/ranker.py:177-198 | Neighbours in any ranking: higher score, then lower total cost, then lower measured median, then inside a family the newer version field by field, otherwise the preferred provider |
| Ranker.RankedBlockExact | packages/llm-core/llm_core/ranker.py:227-235 | When no three rows of a block clash, no pair of it is inverted and ties keep input order |
| Ranker.CheaperIsBetter | packages/llm-core/llm_core/ranker.py:162-175 | From registry entries to rank keys: the cheaper of two otherwise equal priced models never scores less and wins the cost tie |
| Ranker.CheaperRanksFirst | packages/llm-core/llm_core/ranker.py:162-235 | From the price list to the ranking: of two priced models with equal capability, effective latency and demotion, the strictly cheaper stands first whenever the cost weight is not negative |
| Selection.SelectDiverse | packages/llm-core/llm_core/provider.py:268-294 | The two passes compute the specified selection, for any count and any ranking |
| Selection.FirstPassFacts | packages/llm-core/llm_core/provider.py:277-286 | The first pass takes as many models as there are providers (up to the count), each of another provider |
| Selection.FirstPassIsBest | packages/llm-core/llm_core/provider.py:279-286 | Each of them is the best-ranked model of its provider |
| Selection.TopUpFacts | packages/llm-core/llm_core/provider.py:287-294 | The second pass keeps the first, repeats nothing and stops short only when the ranking is exhausted |
| Selection.DiverseIsOptimal | packages/llm-core/llm_core/provider.py:268-294 | As many distinct models as asked for or ranked, covering as many providers as any choice of that size can |
| Selection.SelectStartupProbeModels | packages/llm-core/llm_core/provider.py:410-466 | The loops and the sort compute the specified probe list for every configuration |
| Selection.ProbeModelsFacts | packages/llm-core/llm_core/provider.py:424-466 | In every configuration: available models only, none twice, every discovered always-included one; with allowlists exactly the discovered listed and always-included ones |
| Selection.ProbeModelsAreShortlist | packages/llm-core/llm_core/provider.py:443-466 | Without allowlists and always-included models the probe list is the proved shortlist |
| Selection.ByFamilyRepresents | packages/llm-core/llm_core/provider.py:448-458 | One pass leaves each family its newest eligible model, and no eligible family is missing |
| Selection.ShortlistFacts | packages/llm-core/llm_core/provider.py:459-462 | The shortlist respects the budget and never holds a family twice |
| Selection.StartupProbePicks | packages/llm-core/llm_core/provider.py:444-466 | At most the allowed number of distinct available models, each within the cost tier and the newest eligible one of its family |
| Selection.StartupProbeOrder | packages/llm-core/llm_core/provider.py:459-462 | No family representative left out is in a lower cost tier than a selected one, or in the same tier and newer |
| Provider.LLMProvider.BuildModelRegistry | packages/llm-core/llm_core/provider.py:210-214 | Excluded models disappear from the available ones and the registry covers exactly the chat models among the rest |
| Provider.LLMProvider.SelectStartupProbeModels | packages/llm-core/llm_core/provider.py:424-466 | The provider probes that list over its own models, registry and strategy |
| Provider.LLMProvider.SelectModelsForTask | packages/llm-core/llm_core/provider.py:216-235 | The ranking of the available models under the weights of its task type |
| Provider.LLMProvider.BuildCappedChain | packages/llm-core/llm_core/provider.py:296-312 | Models within the cap first, the others after, each part in rank order |
| Provider.LLMProvider.BuildLatencySloChain | packages/llm-core/llm_core/provider.py:314-346 | Models measured within the limit first, the others after, each part in rank order; the early return for an empty first part changes nothing |
| Provider.LLMProvider.BuildChain | packages/llm-core/llm_core/provider.py:379-397 | Ranking, cap, limit and allowlist composed for one task |
| Provider.LLMProvider.BuildTaskFallbacks | packages/llm-core/llm_core/provider.py:360-408 | All chains replaced at once; a name assigned several tasks gets the chain of the last; a disabled strategy changes nothing |
| Provider.FallbacksStep | packages/llm-core/llm_core/provider.py:399-405 | One more assignment keeps the table right, overwriting included |
| Provider.TaskOfName | packages/llm-core/llm_core/provider.py:399-405 | A name's chain is built for its last dimension, else its last component, else for itself if it is a task type; no other name has one |
| Provider.LLMProvider.MergeStats | packages/llm-core/llm_core/provider.py:899-904 | Fresh statistics overwrite per model, none are lost, an empty collection changes nothing |
| Provider.LLMProvider.RefreshRankings | packages/llm-core/llm_core/provider.py:891-906 | New statistics overwrite per model, none are lost, and the chains are those of the merged statistics |
| Provider.LLMProvider.SelectDiverseModelsForTask | packages/llm-core/llm_core/provider.py:268-294 | Nothing for a non-positive count, otherwise a prefix of the ranking or the diverse selection from it |
| Provider.CapThenSloBlocks | packages/llm-core/llm_core/provider.py:380-386 | Cap then limit gives four rank-ordered blocks: both met, fast but dear, cheap but slow, neither |
| Provider.CappedPermutes | packages/llm-core/llm_core/provider.py:296-312 | The cap loses no model |
| Provider.SloPermutes | packages/llm-core/llm_core/provider.py:326-346 | The latency limit loses no model |
| Provider.ChainKeepsAll | packages/llm-core/llm_core/provider.py:379-397 | Without an allowlist a chain is a permutation of the available models |
| Provider.ChainInOrder | packages/llm-core/llm_core/provider.py:379-397 | Without an allowlist a chain is sorted at every distance by limit, then cap, then demotion, then score and cost: a better ranked model stands behind a worse one only on account of the limit or the cap |
| Provider.ChainWinner | packages/llm-core/llm_core/provider.py:360-371 | The head of such a chain keeps to the limit if any available model does, to limit and cap if any keeps to both, and no available model comes before it in that order |
| Provider.CheaperFirstInChain | packages/llm-core/llm_core/provider.py:379-397 | Of two priced models with equal capability and effective latency tiers the cheaper stands first in the whole chain, unless it alone is demoted or misses the limit; no cap can turn them round, provided cost does not count negatively |
| Provider.AllowlistDecides | packages/llm-core/llm_core/provider.py:348-358 | With an allowlist the chain is the allowlist restricted to available models, whatever weights, caps, limits, registry and statistics are |
| Provider.AllowlistedChainsAgree | packages/llm-core/llm_core/provider.py:387-396 | Two tables built over the same available models agree wherever an allowlist is in force |
| Provider.RefreshLoop | packages/llm-core/llm_core/provider.py:943-959 | After any number of rounds, failing ones included, the statistics are all collected ones merged in order, the chains are those of the last round that built any, and no allowlisted chain has changed |
| SignalAdapter.PercentileMeaning | packages/llm-core/llm_core/signal_adapter.py:52-64 | The percentile lies between its two neighbouring order statistics, grows with the fraction and ignores the order of the values |
| SignalAdapter.HalfIsMedian | packages/llm-core/llm_core/signal_adapter.py:52-64 | At one half it is the exact median |
| SignalAdapter.PercentileInRange | packages/llm-core/llm_core/signal_adapter.py:52-64 | A percentile never leaves the range of its values |
| SignalAdapter.Group | packages/llm-core/llm_core/signal_adapter.py:106-139 | Each model gets exactly the values of its accepted entries, in order; the pass fails exactly when an accepted value aborts it |
| SignalAdapter.AllStats | packages/llm-core/llm_core/signal_adapter.py:141-149 | Statistics for exactly the models of any of the three groupings, in whatever order they are visited |
| SignalAdapter.StatsOf | packages/llm-core/llm_core/signal_adapter.py:144-149 | The error rate lies in [0, 1], 0 exactly without errors and 1 exactly with nothing else; median and mean quality are absent exactly without values and otherwise within their range |
| SignalAdapter.MedianMeaning | packages/llm-core/llm_core/signal_adapter.py:144-149 | The latency reported is the middle one, or the mean of the two middle ones |
| SignalAdapter.SharesMeaning | packages/llm-core/llm_core/signal_adapter.py:144-149 | The error rate times errors and latencies is the errors, the quality times their number is the sum of the qualities, and every entry is a sample |
| SignalAdapter.CountedFor | packages/llm-core/llm_core/signal_adapter.py:106-135 | An entry counts for a model exactly when it is from the cut-off on and names it under `model`, or under `model_name` when the first is missing, empty or false |
| SignalAdapter.ReadingsMeaning | packages/llm-core/llm_core/signal_adapter.py:106-139 | How latency, error and quality entries are read, missing and unreadable values included |
| SignalAdapter.Collect | packages/llm-core/llm_core/signal_adapter.py:91-154 | Empty without a store or when a latency cannot be read, otherwise the statistics of exactly the models mentioned; a latency entry that lacks the field counts as 0 |
| SignalAdapter.UnreadableLatencyLosesAll | packages/llm-core/llm_core/signal_adapter.py:113 | A feed with a good latency for one model and an unreadable one for another, whose collection ends with nothing |
| SignalAdapter.UnreadableScoreCountsNothing | packages/llm-core/llm_core/signal_adapter.py:136-139 | A feed that lists a model with no sample behind it |
| SignalAdapter.GroupsConserve | packages/llm-core/llm_core/signal_adapter.py:106-139 | Group sizes add up to the number of entries that add a value |
| SignalAdapter.SamplesConserve | packages/llm-core/llm_core/signal_adapter.py:141-149 | Sample counts of all models together equal the readable accepted entries of the three kinds |
| LlmClient.LLMClient.constructor | packages/llm-core/llm_core/llm_client.py:86-88 | A new client knows its preset models and has sent nothing |
| LlmClient.LLMClient.Call | packages/llm-core/llm_core/llm_client.py:95-121 | One call is one step of the state machine: what is raised or returned, what is sent, what is learned |
| LlmClient.CallSends | packages/llm-core/llm_core/llm_client.py:95-121 | The requests one call sends: to the model the caller names or the default, with the caller's temperature or the default unless the model takes none, and a bare second one exactly after a rejection |
| LlmClient.RequestsAreAmortised | packages/llm-core/llm_core/llm_client.py:95-118 | Over any run, requests sent equal calls plus models newly learned |
| LlmClient.LearnedByRejection | packages/llm-core/llm_core/llm_client.py:108-113 | Every model learned in a run was turned down for its temperature in that run |
| LlmClient.NeverAskedAgain | packages/llm-core/llm_core/llm_client.py:104-113 | After a rejection no later request of the run carries a temperature to that model, and a preset model never gets one |
| LlmClient.TemperatureErrorsAreRetried | packages/llm-core/llm_core/llm_client.py:108-115 | The caller sees a temperature error only from a request that carried none |
| ReasoningTrace.ReasoningTrace.constructor | packages/semantic-search/semantic_search/contracts.py:630-654 | A seed is kept, cut behind a marker or dropped; a seed without marker gives the exact view of its history |
| ReasoningTrace.ReasoningTrace.Add | packages/semantic-search/semantic_search/contracts.py:656-705 | Exactly the reserved and the unknown stage are refused without effect, a disabled trace ignores everything, and otherwise the trace stays the exact view of a history one step longer |
| ReasoningTrace.ReasoningTrace.IsEmpty | packages/semantic-search/semantic_search/contracts.py:723-725 | Empty exactly when nothing was recorded |
| ReasoningTrace.CounterReadsBack | packages/semantic-search/semantic_search/contracts.py:707-721 | The printed counter is parsed back unchanged |
| ReasoningTrace.ViewStep | packages/semantic-search/semantic_search/contracts.py:685-705 | Pushing a step onto a view gives the view of the longer history, the two-round first overflow included |
| ReasoningTrace.TraceIsWindow | packages/semantic-search/semantic_search/contracts.py:645-705 | After any number of adds the trace is the whole history or a marker with the exact number lost and the last steps; direct construction gives the same |
| ReasoningTrace.WindowShows | packages/semantic-search/semantic_search/contracts.py:645-654 | The window: everything while it fits, otherwise a marker with the number of steps not shown, as text, and the last ones |
| ReasoningTrace.MarkerMeaning | packages/semantic-search/semantic_search/contracts.py:707-721 | What a marker stands for; one that does not read `dropped=` and an integer stands for nothing |
| ReasoningTrace.ShrinkKeepsCount | packages/semantic-search/semantic_search/contracts.py:687-704 | The overflow loop terminates and loses no step from the count, for any starting list |
| ReasoningTrace.AddCountsOne | packages/semantic-search/semantic_search/contracts.py:685-705 | One add is one more step represented, also behind a seeded marker |
| ReasoningTrace.SeedKeepsCount | packages/semantic-search/semantic_search/contracts.py:645-654 | Construction keeps the count exactly when the seed fits, has no marker, or has one that stands for a single step |
| ReasoningTrace.SeedForgetsWitness | packages/semantic-search/semantic_search/contracts.py:645-654 | A seed standing for seven steps whose trace stands for three |
| Text.ParseIntText | packages/semantic-search/semantic_search/contracts.py:718-721 | Printing any integer and reading it with `int` are inverse |
| Text.PrintedPlainly | packages/semantic-search/semantic_search/contracts.py:653 | Counters are printed without leading zeros, and with a minus sign exactly when negative |
| Text.IntegersAreRead | packages/semantic-search/semantic_search/contracts.py:718-721 | Exactly which texts read as an integer, underscores and signs included |
| Text.StripMeaning | packages/semantic-search/semantic_search/analytics/filter_bridge.py:34 | Stripping removes white space at both ends and nothing else |
| Text.SpaceCodes | packages/semantic-search/semantic_search/analytics/filter_bridge.py:30 | White space, code point by code point, as `str.split` takes it |
| Text.SplitJoin | packages/semantic-search/semantic_search/analytics/filter_bridge.py:30 | Splitting on white space undoes joining tokens with a blank |
| Text.SplitCut | packages/semantic-search/semantic_search/app.py:2479-2480 | Splitting a cut hint gives its whole tokens and perhaps the beginning of one more |
| Text.PairOfToken | packages/semantic-search/semantic_search/analytics/filter_bridge.py:31-34 | A token `name=value` is read back as name and value, equals signs in the value included |
| OrderedDict.LastAssignmentWins | packages/semantic-search/semantic_search/analytics/filter_bridge.py:29-34 | Assigning pairs in order leaves each key once with its last value |
| SqlHint.BuildSqlHint | packages/semantic-search/semantic_search/app.py:2456-2480 | The hint prints exactly the hard, valued, supported, not excluded entities in order, then the grouping, cut at 300 |
| SqlHint.HintPairsMeaning | packages/semantic-search/semantic_search/app.py:2461-2478 | Which pairs a hint states: one for every hard entity with a name and a value that is a supported filter other than the remaining time, list values joined by commas, and the grouping columns |
| SqlHint.PairsFollowEntities | packages/semantic-search/semantic_search/app.py:2461-2475 | Pairs are printed in the order of the entities |
| SqlHint.ParseHint | packages/semantic-search/semantic_search/analytics/filter_bridge.py:29-34 | Reading gives a dictionary without repeated names |
| SqlHint.ReadNames | packages/semantic-search/semantic_search/analytics/filter_bridge.py:30-34 | Names and values read off any text hold no white space, names no equals sign, and no name occurs twice |
| SqlHint.ShortHintRoundTrip | packages/semantic-search/semantic_search/app.py:2475-2480 | A hint that fits is read back as the last-wins dictionary of what was printed |
| SqlHint.ShortHintRoundTripIff | packages/semantic-search/semantic_search/app.py:2475-2480 | A hint that fits and names each filter once is read back as it was if and only if no value holds white space and no name white space or an equals sign |
| SqlHint.LongHintKeepsTokens | packages/semantic-search/semantic_search/app.py:2479-2480 | A cut hint keeps every token that fits, in order, and only its last token can be a fragment of the one in its place |
| FilterBridge.SlotFilter | packages/semantic-search/semantic_search/analytics/filter_bridge.py:47-92 | One slot gives the specified filter, error or nothing, and marks the specified slots |
| FilterBridge.SqlHintToFilters | packages/semantic-search/semantic_search/analytics/filter_bridge.py:12-94 | The loop with its consumed set is the specified walk; disabled or empty gives no filter |
| FilterBridge.WalkEmits | packages/semantic-search/semantic_search/analytics/filter_bridge.py:41-62 | Unless a filter is swallowed the consumed set changes nothing: the result is what the slots give one by one |
| FilterBridge.HintFailsIff | packages/semantic-search/semantic_search/analytics/query_templates.py:165-175 | The whole hint fails only if some slot cannot be made, and, unless a filter is swallowed, whenever one cannot |
| FilterBridge.ErrorsShowIff | packages/semantic-search/semantic_search/analytics/filter_bridge.py:43-62 | A configuration loses no error of any hint text if and only if no expressible base swallows the filter of another |
| FilterBridge.SwallowedErrorIsLost | packages/semantic-search/semantic_search/analytics/filter_bridge.py:47-62 | A hint whose failing slot goes unnoticed when a base swallows another |
| FilterBridge.EmittedMembers | packages/semantic-search/semantic_search/analytics/filter_bridge.py:40-94 | The filters are exactly what the slots give |
| FilterBridge.SplitAtComma | packages/semantic-search/semantic_search/analytics/filter_bridge.py:80 | A list value splits at its first comma, and not at all without one |
| FilterBridge.MembersAreListed | packages/semantic-search/semantic_search/analytics/filter_bridge.py:80 | The values of a list are exactly the stripped, non-empty texts between its commas |
| FilterBridge.PrintedListReadsBack | packages/semantic-search/semantic_search/app.py:2473-2475 | A printed list of stripped, comma-free values reads back as those values, in order |
| FilterBridge.ConstraintMeaning | packages/semantic-search/semantic_search/analytics/filter_bridge.py:43-85 | The bridge reads every slot as it is meant: spelling, mapping to a column, bound or list, defined on the text without the bridge's own functions |
| FilterBridge.IdentifierMeaning | packages/semantic-search/semantic_search/analytics/query_templates.py:69-78 | Exactly which column names are accepted |
| FilterBridge.SafeValueMeaning | packages/semantic-search/semantic_search/analytics/query_templates.py:70-92 | Exactly which texts are accepted |
| FilterBridge.LowerSlotFailsIff | packages/semantic-search/semantic_search/analytics/query_templates.py:165-177 | A lower bound fails if and only if it or its partner holds a number and the column is unusable or the two are the wrong way round |
| FilterBridge.UpperSlotFailsIff | packages/semantic-search/semantic_search/analytics/query_templates.py:165-177 | An upper bound on its own fails if and only if it holds a number and its column is unusable |
| FilterBridge.ListFailsIff | packages/semantic-search/semantic_search/analytics/query_templates.py:187-195 | A list fails if and only if it lists something and the column is unusable or a listed text unsafe |
| FilterBridge.FiltersMeanTheHint | packages/semantic-search/semantic_search/analytics/filter_bridge.py:43-94 | A row passes all filters exactly when it meets every mapped, well-formed demand of the hint, as defined on its text without the bridge, if the bounds the hint pairs may be merged |
| FilterBridge.PrintedHintMeansItsPairs | packages/semantic-search/semantic_search/app.py:2456-2480 | From printed pairs to rows: printing, cutting, parsing and compiling together keep the meaning of a hint that fits |
| FilterBridge.InvertedRangeIsUnsatisfiable | packages/semantic-search/semantic_search/analytics/query_templates.py:174-175 | An inverted range fails the whole hint, and no row could have met that hint |
| FilterBridge.MeaningKeptIff | packages/semantic-search/semantic_search/analytics/filter_bridge.py:47-79 | A configuration keeps the meaning of every hint text if and only if every expressible base has both bounds on one column, or, where its upper bound reads as a lower one, is not mapped as a lower bound |
| FilterBridge.DifferentColumnsBreakMeaning | packages/semantic-search/semantic_search/analytics/filter_bridge.py:47-62 | A hint and a row that disagree when the bounds of a base name different columns |
| FilterBridge.AmbiguousBoundBreaksMeaning | packages/semantic-search/semantic_search/analytics/filter_bridge.py:47-62 | A hint and a row that disagree when a mapped base has an upper bound that reads as a lower one |
| FilterBridge.ApartMergeable | packages/semantic-search/semantic_search/analytics/filter_bridge.py:37-38 | With suffixes that do not end in each other only the columns matter |
| FilterBridge.ShippedBridge | packages/semantic-search/semantic_search/config/base.yaml:4466-4476 | Under the shipped configuration, whatever the columns are called, every hint keeps its meaning, its order is irrelevant and no error is lost |
| FilterBridge.OneRangePerBase | packages/semantic-search/semantic_search/analytics/filter_bridge.py:47-79 | Two bounds of one base never both give a range |
| FilterBridge.OrderDoesNotMatter | packages/semantic-search/semantic_search/analytics/filter_bridge.py:43-94 | For one dictionary: unless a filter is swallowed, reordering the pairs neither makes nor mends an error and gives the same multiset of filters |
| FilterBridge.OrderIrrelevantIff | packages/semantic-search/semantic_search/analytics/filter_bridge.py:43-94 | The order of the pairs is irrelevant for every hint text if and only if no expressible base has an upper bound that reads as the lower bound of another, both being mapped |
| FilterBridge.ApartOrderIrrelevant | packages/semantic-search/semantic_search/analytics/filter_bridge.py:37-38 | With suffixes that do not end in each other the order never matters |
| FilterBridge.SwallowedDependsOnOrder | packages/semantic-search/semantic_search/analytics/filter_bridge.py:47-62 | Two hints with the same pairs, one filter against two, when a base swallows another |
| Retrieval.DedupDomains | packages/semantic-search/semantic_search/app.py:4822-4830 | The loop keeps the first entry of each domain and everything without a domain |
| Retrieval.DedupKeepsBest | packages/semantic-search/semantic_search/app.py:4819-4830 | On a sorted pool: a sorted subsequence with each domain once, represented by its best score, nothing nameless lost |
| Retrieval.NormaliseKeepsOrder | packages/semantic-search/semantic_search/app.py:1968-1989 | Normalising never reorders, rounding included |
| Retrieval.MinMaxInUnit | packages/semantic-search/semantic_search/app.py:1981-1987 | In `minmax` mode every value lies in [0, 1], for any scores |
| Retrieval.MaxModeInUnitIff | packages/semantic-search/semantic_search/app.py:1988-1989 | In `max` mode they do exactly when no score is positive or none is further below zero than rounding hides |
| Retrieval.MaxModeWitness | packages/semantic-search/semantic_search/app.py:1988-1989 | A list that `max` mode normalises to a negative value |
| Retrieval.MaxModePrefix | packages/semantic-search/semantic_search/app.py:4812-4818 | In `max` mode normalising the first k of a sorted pool equals the first k of the normalised pool |
| Retrieval.MinMaxPrefixIff | packages/semantic-search/semantic_search/app.py:4812-4818 | In `minmax` mode before rounding they agree if and only if the prefix reaches the minimum of the pool or is level and positive |
| Retrieval.MinMaxPrefixSettled | packages/semantic-search/semantic_search/app.py:4812-4818 | After rounding that condition suffices |
| Retrieval.MinMaxPrefixBreaks | packages/semantic-search/semantic_search/app.py:4812-4818 | After rounding, a drop below the prefix by more than rounding hides always shows |
| Retrieval.MinMaxPrefixRoundedIff | packages/semantic-search/semantic_search/app.py:4812-4818 | After rounding, for prefixes of three or more: they agree on all pools with the same ends if and only if the condition holds |
| Retrieval.MinMaxShortPrefixIff | packages/semantic-search/semantic_search/app.py:4812-4818 | After rounding, for prefixes of one or two, pool by pool: they agree if and only if the condition holds or the drop below the prefix is no more than rounding hides |
| Retrieval.MinMaxPrefixWitness | packages/semantic-search/semantic_search/app.py:4812-4818 | A sorted pool on which the two differ |
| RetrievalMetrics.SortedDownIsIdeal | packages/semantic-search/semantic_search/app.py:3027-3030 | The descending library sort of scores is the insertion sort of the proof |
| RetrievalMetrics.Exchange | packages/semantic-search/semantic_search/app.py:3026-3030 | Putting the larger of two scores at the better rank never lowers the sum and raises it when they differ |
| RetrievalMetrics.Rearrangement | packages/semantic-search/semantic_search/app.py:3026-3030 | The discounted sum is greatest for the descending order, and only for it |
| RetrievalMetrics.NdcgInUnit | packages/semantic-search/semantic_search/app.py:3026-3031 | On non-negative scores NDCG lies in [0, 1]; before rounding it is 1 exactly for a sorted list that is not all zero, and rounding keeps that 1 |
| RetrievalMetrics.RecallPrecisionInUnit | packages/semantic-search/semantic_search/app.py:3033-3046 | On the search path recall and precision lie in [0, 1] |
| RetrievalMetrics.MetricsMeaning | packages/semantic-search/semantic_search/app.py:3026-3052 | The four values: the rounded shares of relevant scores, counted as a set of places, the mean, and the discounted sum over that of the descending order; 0 where there is nothing to divide by |
| RetrievalMetrics.CountIsRelevant | packages/semantic-search/semantic_search/app.py:3033-3034 | The count used is the number of places whose score reaches the threshold |
| RetrievalMetrics.DcgAppend | packages/semantic-search/semantic_search/app.py:3026-3030 | One more score adds itself over the logarithm of its place, counted from 2 |
| RetrievalMetrics.PrecisionBoundedIff | packages/semantic-search/semantic_search/app.py:3036-3041 | Called on its own, precision stays in [0, 1] for all lists of n scores exactly when n exceeds `top_k` by no more than rounding hides |
| RetrievalMetrics.RecallInUnitIff | packages/semantic-search/semantic_search/app.py:3042-3046 | Recall lies in [0, 1] if and only if the pool has no relevant score or the list has no more of them than rounding hides |
| RetrievalMetrics.PrecisionInUnitIff | packages/semantic-search/semantic_search/app.py:3036-3041 | Precision does if and only if the relevant scores do not exceed the denominator by more than rounding hides |
| RetrievalMetrics.CoherenceInUnitIff | packages/semantic-search/semantic_search/app.py:3032 | Coherence does if and only if the mean leaves the range by no more than rounding hides |
| RetrievalMetrics.NdcgInUnitIff | packages/semantic-search/semantic_search/app.py:3026-3031 | NDCG never exceeds 1, whatever the signs, and is negative exactly when the ideal sum is positive and the actual one negative beyond rounding |
| RetrievalMetrics.RecallEscapes | packages/semantic-search/semantic_search/app.py:3042-3046 | Lists on which recall exceeds 1 |
| RetrievalMetrics.PrecisionEscapes | packages/semantic-search/semantic_search/app.py:3036-3041 | A list longer than `top_k` on which precision exceeds 1 |
| RetrievalMetrics.CoherenceEscapes | packages/semantic-search/semantic_search/app.py:3032 | A list on which coherence exceeds 1 |
| RetrievalMetrics.NdcgEscapes | packages/semantic-search/semantic_search/app.py:3026-3031 | A list on which NDCG is negative |
| RetrievalMetrics.SortedNdcg | packages/semantic-search/semantic_search/app.py:3026-3031 | On a list sorted from the top NDCG is 1 or 0, whatever the signs |
| RetrievalMetrics.SearchPathMetrics | packages/semantic-search/semantic_search/app.py:4822-4849 | Dedup, normalisation, cut and metrics together, for any sorted pool: recall and precision lie in [0, 1] and NDCG is 1 or 0 |
| RetrievalMetrics.SearchPathUnit | packages/semantic-search/semantic_search/app.py:4822-4849 | In `minmax` mode for any signs, in `max` mode for non-negative scores: coherence lies in [0, 1] too, and NDCG is decided by the best score, or by there being another one |
| AuctionTiebreak.AuctionTiebreak | packages/semantic-search/semantic_search/app.py:2075-2145 | Off or with fewer than two results nothing is touched; otherwise the specified order, the very objects restamped 1, 2, 3, ... |
| AuctionTiebreak.SortedBy | packages/semantic-search/semantic_search/app.py:2136-2141 | Sorting by key and negated position gives a rearrangement of the results without repetition |
| AuctionTiebreak.StampRanks | packages/semantic-search/semantic_search/app.py:2143-2144 | Distinct results end up with consecutive ranks from 1 |
| AuctionTiebreak.TiebreakOrders | packages/semantic-search/semantic_search/app.py:2136-2141 | The output is a permutation in descending blended order, results of equal blended score in original order |
| AuctionTiebreak.DominantStandsFirst | packages/semantic-search/semantic_search/app.py:2078-2084 | A result that is no less coherent, ends no later, has no more bids and no lower value stands before another when it is strictly better in one of these that carries weight |
| AuctionTiebreak.SoonerStandsFirst | packages/semantic-search/semantic_search/app.py:2078-2084 | Of two results alike but for the time left, the one that ends sooner within the horizon stands first |
| AuctionTiebreak.FewerBidsStandFirst | packages/semantic-search/semantic_search/app.py:2078-2084 | Of two alike but for the bids, the one with fewer |
| AuctionTiebreak.DearerStandsFirst | packages/semantic-search/semantic_search/app.py:2078-2084 | Of two alike but for the value, the one of higher value |
| AuctionTiebreak.KeyDifference | packages/semantic-search/semantic_search/app.py:2127-2138 | By how much one result leads another: the coherence gap plus the cap times the weighted differences of the signals |
| AuctionTiebreak.FieldsRead | packages/semantic-search/semantic_search/app.py:2097-2112 | How coherence, bids and value are read off the fields, fallback and unreadable ones included |
| AuctionTiebreak.AggregateMeaning | packages/semantic-search/semantic_search/app.py:2115-2119 | The yardsticks are the most bids and the least and greatest log-value of the list, a zero most or spread replaced by 1 |
| AuctionTiebreak.UrgencyMeaning | packages/semantic-search/semantic_search/app.py:2127-2129 | Urgency falls from 1 at the end to 0 at the horizon in proportion, and is 0 for an unreadable time |
| AuctionTiebreak.BonusBounded | packages/semantic-search/semantic_search/app.py:2127-2132 | The bonus lies between 0 and the cap times the sum of the weights, whatever the fields hold |
| AuctionTiebreak.BonusPrefers | packages/semantic-search/semantic_search/app.py:2080-2083 | Ending sooner, fewer bids and a higher value never lower the bonus |
| AuctionTiebreak.CoherenceGapIsRespected | packages/semantic-search/semantic_search/app.py:2078-2084 | No result passes one that is more coherent by more than that |
| AuctionTiebreak.ShippedGap | packages/semantic-search/semantic_search/config/base.yaml:89-100 | With the shipped settings that much is 0.06 |
| AuctionTiebreak.AggregatePermutes | packages/semantic-search/semantic_search/app.py:2115-2119 | The list-wide maxima and minima do not depend on the order |
| AuctionTiebreak.TiebreakIsIdempotent | packages/semantic-search/semantic_search/app.py:2075-2145 | Applying the tie-break to its own output changes nothing |
| FilterSummary.FindUrgent | packages/semantic-search/semantic_search/app.py:2601-2607 | How many urgency entities occur, and where the last stands |
| FilterSummary.CollapseUrgency | packages/semantic-search/semantic_search/app.py:2601-2612 | The list with all urgency entities but the last left out |
| FilterSummary.BuildHardList | packages/semantic-search/semantic_search/app.py:2590-2652 | The hard entities of a slice: snapshot collapsed, later injections joined in, collapsed again |
| FilterSummary.CollectUnique | packages/semantic-search/semantic_search/app.py:2653-2688 | First occurrences by (name, value) of the entities that qualify |
| FilterSummary.FirmMeaning | packages/semantic-search/semantic_search/app.py:2653-2673 | Exactly which entities count as hard and which as soft: named, with a value that says something, and neither slot nor chip soft |
| FilterSummary.UnionMeaning | packages/semantic-search/semantic_search/app.py:2634-2650 | Joining later injections in keeps the list, adds only firm entities of the slice and misses none of their (name, value) pairs |
| FilterSummary.RowsMeaning | packages/semantic-search/semantic_search/app.py:2663-2782 | What the summary says of an entity, data availability and parameter names included |
| FilterSummary.BuildFilterSummary | packages/semantic-search/semantic_search/app.py:2536-2809 | All four lists of the summary; all empty without an intent |
| FilterSummary.CollapseKeepsLast | packages/semantic-search/semantic_search/app.py:2601-2612 | Of the urgency entities exactly the last survives |
| FilterSummary.CollapseKeepsOthers | packages/semantic-search/semantic_search/app.py:2606-2612 | Everything else stays, in order |
| FilterSummary.SliceHasOneUrgency | packages/semantic-search/semantic_search/app.py:2634-2652 | A slice contributes at most one urgency entity: the last after the union |
| FilterSummary.IdentifiedUnique | packages/semantic-search/semantic_search/app.py:2653-2673 | No (name, value) is identified twice, everything identified is a firm candidate, and no (name, value) of a firm candidate is missing |
| FilterSummary.SoftAndGroundedUnique | packages/semantic-search/semantic_search/app.py:2660-2688 | The same for soft entries and for grounded entities |
| FilterSummary.IdentifiedPartition | packages/semantic-search/semantic_search/app.py:2782-2809 | Every identified entity is either applied by name and not listed as unapplied, or listed there exactly once |
| FilterSummary.ReasonsAreTrue | packages/semantic-search/semantic_search/app.py:2784-2809 | The reason reported for an unapplied entity is a true one, the guard's, the backend's or missing data in this order whenever those apply, and an unsupported one really had no usable slot |
| FilterSummary.AppliedExactly | packages/semantic-search/semantic_search/app.py:2675-2782 | From the slices: a name is applied exactly when the first hard entity of some (name, value) of it is marked hard, and the name is a filter slot known to the API, has data, is supported and is not dropped by the guard |
| ClickHouseClient.ClickHouseClient.constructor | packages/semantic-search/semantic_search/analytics/clickhouse_client.py:87-105 | A fresh client has sent nothing, recorded nothing and counted no success |
| ClickHouseClient.ClickHouseClient.ExecuteQuery | packages/semantic-search/semantic_search/analytics/clickhouse_client.py:199-248 | A query is one step of the state machine: result, transport calls, health records, probe |
| ClickHouseClient.ClickHouseClient.MaybeRunMvFreshnessProbe | packages/semantic-search/semantic_search/analytics/clickhouse_client.py:250-282 | The probe side of that step: counting, cadence, failure on error, unreadable or excessive lag |
| ClickHouseClient.ClickHouseClient.RecordHealth | packages/semantic-search/semantic_search/analytics/clickhouse_client.py:284-295 | One more outcome recorded, nothing else changed |
| ClickHouseClient.RetryLoopExact | packages/semantic-search/semantic_search/analytics/clickhouse_client.py:218-248 | Between one and the allowed number of attempts, all but the last retriable, the last deciding; the raise after the loop is unreachable |
| ClickHouseClient.QueryAttempts | packages/semantic-search/semantic_search/analytics/clickhouse_client.py:199-248 | When a query is rejected (blank or without a positive timeout), unavailable or tried, at most one attempt and `max_retries` more; no attempt when unavailable; exactly one health record of its own; a query error is never retried |
| ClickHouseClient.RetriesAreUsed | packages/semantic-search/semantic_search/analytics/clickhouse_client.py:215-248 | Only retriable failures: one attempt and `max_retries` more; an answer after no more than `max_retries` failures is returned |
| ClickHouseClient.ProbeLagMeaning | packages/semantic-search/semantic_search/analytics/clickhouse_client.py:36-55 | The lag is the first row's `lag_seconds`, or when that is null or missing its first numeric cell |
| ClickHouseClient.WholeQuery | packages/semantic-search/semantic_search/analytics/clickhouse_client.py:228-231 | Probe included: same result, own record first, at most twice the allowed attempts, at most one probe and only after success |
| ClickHouseClient.ProbeIsBounded | packages/semantic-search/semantic_search/analytics/clickhouse_client.py:250-282 | A success triggers at most one probe, which triggers none; it adds its own health record, and a failure on top exactly when its last answer shows no readable lag within the limit |
| ClickHouseClient.ProbesOverRun | packages/semantic-search/semantic_search/analytics/clickhouse_client.py:250-268 | Over any run n successful queries cause exactly n div interval probes |

## Left out

- Floating point: sums, ratios and comparisons are exact; rounding to four decimals is modelled as half to even over reals.
- Concurrency: locks, asyncio tasks and two calls on one object at a time; runs are sequences of calls.
- Time: clocks, latencies measured by the clients, time stamps of reasoning steps; cut-off times are parameters.
- Logging, except the ranker's set of models already warned about.
- Which plan the list sort follows: where a list of 64 or more is cut, in what order the pieces are merged and how far each
  merge gallops are decided by the library from the data. `StableSort.ListSort` takes the plan as a parameter and the
  results hold for all of them; sorts by a total preorder are modelled without one (`StableSort.PlanDoesNotMatter`).
- Name rules (`pricing.py`): provider, family, recency, capability, chat or not are arbitrary functions of the name.
- The ids of a provider priority list are taken as already stripped and lower-cased.
- Domain names arrive lower-cased in `Retrieval`; the lower-casing itself is not modelled.
- Weight tables per task are taken as already normalised in `Provider`; the normalisation itself is `Ranker.WeightsFromDict`.
- `ModelRegistry.get_meta`, `rank_candidates`, `get_ranked_models_for_task`: the same calls with other arguments.
- Malformed configuration objects (a non-list allowlist, a non-dict statistics row) and the configuration checks for them.
- Provider.RefreshLoop: does not model the timer or the stop event; the number of rounds, and which of them fail, is
  arbitrary.
- The four `call` methods of the two clients hold the same temperature code; it is modelled once, and building requests and
  reading answers are left out.
- Text.ParseInt: reads ASCII digits only; other Unicode digits, which Python also accepts, are left out.
- Detecting grouping phrases in the query text: the grouping columns are a parameter of `SqlHint.BuildSqlHint`.
- FilterBridge.MeaningKeptIff: the number parser is a parameter that need only read 1 and 2; of the
  configuration the statement needs that mapped columns are valid identifiers, since an invalid one makes every hint that
  uses it fail.
- RetrievalMetrics.SearchPathUnit: in `max` mode nothing is said of coherence when scores are negative;
  `RetrievalMetrics.CoherenceInUnitIff` decides it for the returned list.
- FilterSummary.BuildFilterSummary: leaves out the guard's relaxed block, data availability, suggestions of other
  top-level domains, the keywords and the public form of the identified list.
- `ClickHouseClient`: a missing health registry, errors of the registry, column names and latencies in the result; that a
  readiness probe sets availability is a constructor argument.
- HTTP routes, start-up, data builds, cancellation, dependency wiring, uploaders and deployment: input and output around
  the decisions modelled here.
