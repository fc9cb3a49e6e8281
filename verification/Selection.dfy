/** Choosing models from a ranking: provider-diverse selection and the models to probe at start-up
    (packages/llm-core/llm_core/provider.py). */
module Selection {
  import opened Common
  import opened ModelRegistry
  import opened OrderedDict
  import Ranker
  import StableSort
  import Text

  function Min(a: nat, b: nat): nat {
    if a < b then a else b
  }

  // ---- Provider-diverse selection

  /** The first model of each provider not in `seen`, in rank order. */
  function Leaders(provider: string -> string, ranked: seq<string>, seen: set<string>): seq<string> {
    if ranked == [] then []
    else if provider(ranked[0]) in seen then Leaders(provider, ranked[1..], seen)
    else [ranked[0]] + Leaders(provider, ranked[1..], seen + {provider(ranked[0])})
  }

  /** Tops `selected` up to `count` with the best-ranked models it does not hold yet. */
  function TopUp(selected: seq<string>, ranked: seq<string>, count: nat): seq<string>
    decreases |ranked|
  {
    if |selected| >= count || ranked == [] then selected
    else if ranked[0] in selected then TopUp(selected, ranked[1..], count)
    else TopUp(selected + [ranked[0]], ranked[1..], count)
  }

  function FirstPass(provider: string -> string, ranked: seq<string>, count: nat): seq<string> {
    var all := Leaders(provider, ranked, {});
    all[..Min(count, |all|)]
  }

  function Diverse(provider: string -> string, ranked: seq<string>, count: nat): seq<string> {
    TopUp(FirstPass(provider, ranked, count), ranked, count)
  }

  lemma LeadersStep(provider: string -> string, ranked: seq<string>, i: nat, seen: set<string>)
    requires i < |ranked|
    ensures Leaders(provider, ranked[i..], seen) ==
            if provider(ranked[i]) in seen then Leaders(provider, ranked[i + 1..], seen)
            else [ranked[i]] + Leaders(provider, ranked[i + 1..], seen + {provider(ranked[i])})
  {
    assert ranked[i..][0] == ranked[i] && ranked[i..][1..] == ranked[i + 1..];
  }

  lemma LeadersStart(provider: string -> string, ranked: seq<string>, count: nat)
    ensures var all := Leaders(provider, ranked[0..], {});
            [] + all[..Min(count, |all|)] == FirstPass(provider, ranked, count)
  {
    assert ranked[0..] == ranked;
  }

  lemma LeadersEnd(provider: string -> string, seen: set<string>)
    ensures Leaders(provider, [], seen) == []
  {}

  lemma TopUpStep(selected: seq<string>, ranked: seq<string>, i: nat, count: nat)
    requires |selected| < count && i < |ranked|
    ensures TopUp(selected, ranked[i..], count) ==
            TopUp(if ranked[i] in selected then selected else selected + [ranked[i]], ranked[i + 1..], count)
  {
    assert ranked[i..][0] == ranked[i] && ranked[i..][1..] == ranked[i + 1..];
  }

  lemma TopUpDone(selected: seq<string>, rest: seq<string>, count: nat)
    requires |selected| >= count || rest == []
    ensures TopUp(selected, rest, count) == selected
  {}

  lemma TakeNone(selected: seq<string>, rest: seq<string>, count: nat)
    requires |selected| == count || (|selected| < count && rest == [])
    ensures selected + rest[..Min(count - |selected|, |rest|)] == selected
  {}

  lemma DiverseIs(provider: string -> string, ranked: seq<string>, count: nat)
    ensures Diverse(provider, ranked, count) == TopUp(FirstPass(provider, ranked, count), ranked, count)
  {}

  lemma TakeOneMore(selected: seq<string>, model: string, rest: seq<string>, count: nat)
    requires |selected| < count
    ensures var all := [model] + rest;
            selected + all[..Min(count - |selected|, |all|)]
            == (selected + [model]) + rest[..Min(count - |selected| - 1, |rest|)]
  {}

  /** Top `count` models of a ranking, one per provider as long as providers last. */
  method SelectDiverse(provider: string -> string, ranked: seq<string>, count: int, requireDiversity: bool)
    returns (selected: seq<string>)
    ensures count <= 0 ==> selected == []
    ensures count > 0 && !requireDiversity ==> selected == SliceTo(ranked, count)
    ensures count > 0 && requireDiversity ==> selected == Diverse(provider, ranked, count)
  {
    if count <= 0 { return []; }
    if ranked == [] { return []; }
    if !requireDiversity { return SliceTo(ranked, count); }
    LeadersStart(provider, ranked, count);
    DiverseIs(provider, ranked, count);
    hide *;
    selected := [];
    var seen: set<string> := {};
    var i := 0;
    while i < |ranked|
      invariant i <= |ranked| && |selected| <= count
      invariant var rest := Leaders(provider, ranked[i..], seen);
                selected + rest[..Min(count - |selected|, |rest|)] == FirstPass(provider, ranked, count)
    {
      if |selected| >= count { break; }
      var model := ranked[i];
      LeadersStep(provider, ranked, i, seen);
      i := i + 1;
      if provider(model) in seen { continue; }
      TakeOneMore(selected, model, Leaders(provider, ranked[i..], seen + {provider(model)}), count);
      selected := selected + [model];
      seen := seen + {provider(model)};
    }
    LeadersEnd(provider, seen);
    TakeNone(selected, Leaders(provider, ranked[i..], seen), count);
    assert selected == FirstPass(provider, ranked, count);
    if |selected| < count {
      i := 0;
      assert ranked[0..] == ranked;
      while i < |ranked|
        invariant i <= |ranked| && |selected| < count
        invariant TopUp(selected, ranked[i..], count) == Diverse(provider, ranked, count)
      {
        var model := ranked[i];
        TopUpStep(selected, ranked, i, count);
        i := i + 1;
        if model in selected { continue; }
        selected := selected + [model];
        if |selected| >= count { break; }
      }
      TopUpDone(selected, ranked[i..], count);
    } else {
      TopUpDone(selected, ranked, count);
    }
  }

  function Providers(provider: string -> string, models: seq<string>): set<string> {
    set m | m in models :: provider(m)
  }

  lemma {:induction false} LeadersFacts(provider: string -> string, ranked: seq<string>, seen: set<string>)
    ensures var l := Leaders(provider, ranked, seen);
            && (forall m | m in l :: m in ranked && provider(m) !in seen)
            && Distinct(MapSeq(provider, l))
            && Providers(provider, l) == Providers(provider, ranked) - seen
  {
    if ranked != [] {
      var m, rest := ranked[0], ranked[1..];
      assert ranked == [m] + rest;
      assert Providers(provider, ranked) == Providers(provider, rest) + {provider(m)};
      if provider(m) in seen {
        LeadersFacts(provider, rest, seen);
      } else {
        LeadersFacts(provider, rest, seen + {provider(m)});
        var tail := Leaders(provider, rest, seen + {provider(m)});
        assert Leaders(provider, ranked, seen) == [m] + tail;
        hide Leaders;
        assert MapSeq(provider, [m] + tail) == [provider(m)] + MapSeq(provider, tail);
        assert Providers(provider, [m] + tail) == Providers(provider, tail) + {provider(m)};
        forall i | 0 <= i < |tail| ensures provider(tail[i]) != provider(m) { assert tail[i] in tail; }
      }
    }
  }

  lemma LeaderProvider(provider: string -> string, ranked: seq<string>, seen: set<string>, i: nat)
    requires i < |Leaders(provider, ranked, seen)|
    ensures provider(Leaders(provider, ranked, seen)[i]) !in seen
  {
    hide Leaders;
    LeadersFacts(provider, ranked, seen);
    assert Leaders(provider, ranked, seen)[i] in Leaders(provider, ranked, seen);
  }

  /** A leader is the best-ranked model of its provider. */
  lemma {:induction false} LeaderIsFirst(provider: string -> string, ranked: seq<string>, seen: set<string>, i: nat)
    returns (r: nat)
    requires i < |Leaders(provider, ranked, seen)|
    ensures r < |ranked| && ranked[r] == Leaders(provider, ranked, seen)[i]
    ensures forall q | 0 <= q < r :: provider(ranked[q]) != provider(ranked[r])
    decreases |ranked|
  {
    var m, rest := ranked[0], ranked[1..];
    LeaderProvider(provider, ranked, seen, i);
    if provider(m) in seen {
      var k := LeaderIsFirst(provider, rest, seen, i);
      r := k + 1;
    } else if i == 0 {
      r := 0;
    } else {
      var seen' := seen + {provider(m)};
      LeaderProvider(provider, rest, seen', i - 1);
      var k := LeaderIsFirst(provider, rest, seen', i - 1);
      r := k + 1;
    }
    forall q | 0 <= q < r ensures provider(ranked[q]) != provider(ranked[r]) {
      if q > 0 { assert ranked[q] == rest[q - 1]; }
    }
  }

  lemma {:induction false} TopUpFacts(selected: seq<string>, ranked: seq<string>, count: nat)
    requires Distinct(selected) && |selected| <= count
    ensures var r := TopUp(selected, ranked, count);
            && Distinct(r) && selected <= r && |r| <= count
            && (forall m | m in r :: m in selected || m in ranked)
            && (|r| < count ==> forall m | m in ranked :: m in r)
    decreases |ranked|
  {
    if |selected| < count && ranked != [] {
      var m := ranked[0];
      assert ranked == [m] + ranked[1..];
      if m in selected {
        TopUpFacts(selected, ranked[1..], count);
      } else {
        TopUpFacts(selected + [m], ranked[1..], count);
        assert m in selected + [m];
      }
    }
  }

  lemma ProvidersOfDistinct(provider: string -> string, models: seq<string>)
    requires Distinct(MapSeq(provider, models))
    ensures |Providers(provider, models)| == |models| && Distinct(models)
  {
    DistinctCardinality(MapSeq(provider, models));
    var names := MapSeq(provider, models);
    forall p ensures p in ToSet(names) <==> p in Providers(provider, models) {
      if p in names {
        var i :| 0 <= i < |names| && names[i] == p;
        assert models[i] in models;
      }
      if p in Providers(provider, models) {
        var m :| m in models && provider(m) == p;
        var i :| 0 <= i < |models| && models[i] == m;
        assert names[i] == p;
      }
    }
    assert ToSet(names) == Providers(provider, models);
    forall i, j | 0 <= i < j < |models| ensures models[i] != models[j] { assert names[i] != names[j]; }
  }

  lemma CountProviders(provider: string -> string, models: seq<string>)
    ensures |Providers(provider, models)| <= |models|
  {
    LeadersFacts(provider, models, {});
    ProvidersOfDistinct(provider, Leaders(provider, models, {}));
    LeadersShort(provider, models, {});
  }

  lemma {:induction false} LeadersShort(provider: string -> string, models: seq<string>, seen: set<string>)
    ensures |Leaders(provider, models, seen)| <= |models|
  {
    if models != [] {
      LeadersShort(provider, models[1..], seen);
      LeadersShort(provider, models[1..], seen + {provider(models[0])});
    }
  }

  lemma SubsetSize<T>(a: set<T>, b: set<T>)
    requires a <= b
    ensures |a| <= |b|
  {
    assert b == a + (b - a);
  }

  /** The first pass: as many models as there are providers to cover (up to `count`), all of different providers. */
  lemma FirstPassFacts(provider: string -> string, ranked: seq<string>, count: nat)
    ensures var f := FirstPass(provider, ranked, count);
            && |f| == Min(count, |Providers(provider, ranked)|) && |Providers(provider, f)| == |f|
            && Distinct(f) && (forall m | m in f :: m in ranked)
            && Providers(provider, f) <= Providers(provider, ranked)
  {
    var all := Leaders(provider, ranked, {});
    LeadersFacts(provider, ranked, {});
    ProvidersOfDistinct(provider, all);
    assert Providers(provider, ranked) - {} == Providers(provider, ranked);
    var f := FirstPass(provider, ranked, count);
    assert MapSeq(provider, f) == MapSeq(provider, all)[..|f|];
    ProvidersOfDistinct(provider, f);
  }

  /** Each model of the first pass is the best-ranked model of its provider. */
  lemma FirstPassIsBest(provider: string -> string, ranked: seq<string>, count: nat, i: nat) returns (r: nat)
    requires i < |FirstPass(provider, ranked, count)|
    ensures r < |ranked| && ranked[r] == FirstPass(provider, ranked, count)[i]
    ensures forall q | 0 <= q < r :: provider(ranked[q]) != provider(ranked[r])
  {
    r := LeaderIsFirst(provider, ranked, {}, i);
  }

  /** Main result on diverse selection: as many distinct models as asked for or available; as many providers as any
      choice of that size can cover; and the models of the first pass are the best-ranked of their providers. */
  lemma DiverseIsOptimal(provider: string -> string, ranked: seq<string>, count: nat, other: seq<string>)
    requires forall m | m in other :: m in ranked
    requires |other| <= count
    ensures var d := Diverse(provider, ranked, count);
            && Distinct(d) && (forall m | m in d :: m in ranked)
            && |d| == Min(count, |ToSet(ranked)|)
            && |Providers(provider, d)| == Min(count, |Providers(provider, ranked)|)
            && |Providers(provider, other)| <= |Providers(provider, d)|
            && FirstPass(provider, ranked, count) <= d
  {
    var f, d := FirstPass(provider, ranked, count), Diverse(provider, ranked, count);
    FirstPassFacts(provider, ranked, count);
    TopUpFacts(f, ranked, count);
    SizeOfDistinct(d, ranked, count);
    assert Providers(provider, f) <= Providers(provider, d) <= Providers(provider, ranked);
    SubsetSize(Providers(provider, f), Providers(provider, d));
    SubsetSize(Providers(provider, d), Providers(provider, ranked));
    CountProviders(provider, d);
    assert Providers(provider, other) <= Providers(provider, ranked);
    SubsetSize(Providers(provider, other), Providers(provider, ranked));
    CountProviders(provider, other);
  }

  lemma SizeOfDistinct(d: seq<string>, ranked: seq<string>, count: nat)
    requires Distinct(d) && |d| <= count && forall m | m in d :: m in ranked
    requires |d| < count ==> forall m | m in ranked :: m in d
    ensures |d| == Min(count, |ToSet(ranked)|)
  {
    DistinctCardinality(d);
    SubsetSize(ToSet(d), ToSet(ranked));
    if |d| < count { assert ToSet(d) == ToSet(ranked); }
  }

  // ---- Models to probe at start-up

  datatype Candidate = Candidate(model: string, recency: Recency, tier: int)

  function CostTierOf(registry: map<string, Meta>, model: string): int {
    if model in registry then registry[model].costTier else NEUTRAL_TIER
  }

  /** The family of a model, or its own name when the rules give none. */
  function FamilyOf(rules: NameRules, model: string): string {
    if rules.family(model) != "" then rules.family(model) else model
  }

  function CandidateFor(rules: NameRules, registry: map<string, Meta>, model: string): Candidate {
    Candidate(model, rules.recency(model), CostTierOf(registry, model))
  }

  /** The newest affordable model of each family, families in order of first appearance. */
  function ByFamily(rules: NameRules, registry: map<string, Meta>, models: seq<string>,
                    maxTier: int): seq<(string, Candidate)>
  {
    if models == [] then []
    else
      var before := ByFamily(rules, registry, models[..|models| - 1], maxTier);
      var c := CandidateFor(rules, registry, models[|models| - 1]);
      var fam := FamilyOf(rules, c.model);
      var prev := Lookup(before, fam);
      if c.tier <= maxTier && (prev.None? || Ranker.RecencyGreater(c.recency, prev.value.recency)) then
        Put(before, fam, c)
      else before
  }

  /** Cheaper tier first, newest first within a tier. */
  function Precedes(): (Candidate, Candidate) -> bool {
    (a: Candidate, b: Candidate) => a.tier < b.tier || (a.tier == b.tier && Ranker.RecencyGreater(a.recency, b.recency))
  }

  function SecondOf(): ((string, Candidate)) -> Candidate {
    (p: (string, Candidate)) => p.1
  }

  function NameOf(): Candidate -> string {
    (c: Candidate) => c.model
  }

  /** The candidates the probe budget admits. */
  function Shortlist(rules: NameRules, registry: map<string, Meta>, available: seq<string>, maxTier: int,
                     maxModels: int): seq<Candidate>
  {
    SliceTo(StableSort.Sort(Precedes(), MapSeq(SecondOf(), ByFamily(rules, registry, available, maxTier))), maxModels)
  }

  /** Adds the names that are non-empty, available and new. */
  function AddNew(available: seq<string>, picked: seq<string>, names: seq<string>): seq<string> {
    if names == [] then picked
    else
      var before := AddNew(available, picked, names[..|names| - 1]);
      var name := names[|names| - 1];
      if name != "" && name in available && name !in before then before + [name] else before
  }

  method AddAll(available: seq<string>, picked: seq<string>, names: seq<string>) returns (r: seq<string>)
    ensures r == AddNew(available, picked, names)
  {
    r := picked;
    for i := 0 to |names|
      invariant r == AddNew(available, picked, names[..i])
    {
      assert names[..i + 1][..i] == names[..i];
      if names[i] != "" && names[i] in available && names[i] !in r { r := r + [names[i]]; }
    }
    assert names[..|names|] == names;
  }

  function AllowlistedNames(allowlists: seq<(string, seq<string>)>): seq<string> {
    if allowlists == [] then []
    else AllowlistedNames(allowlists[..|allowlists| - 1]) + MapSeq(Text.Strip, allowlists[|allowlists| - 1].1)
  }

  /** The models to probe: with allowlists, the listed ones that were discovered; without, the cheapest newest model of
      each family within the budget; then those that are always included. */
  function ProbeModels(rules: NameRules, registry: map<string, Meta>, available: seq<string>,
                       allowlists: seq<(string, seq<string>)>, maxTier: int, maxModels: int,
                       always: seq<string>): seq<string>
  {
    var names := if allowlists != [] then AllowlistedNames(allowlists)
                 else MapSeq(NameOf(), Shortlist(rules, registry, available, maxTier, maxModels));
    AddNew(available, AddNew(available, [], names), MapSeq(Text.Strip, always))
  }

  method SelectStartupProbeModels(rules: NameRules, registry: map<string, Meta>, available: seq<string>,
                                  allowlists: seq<(string, seq<string>)>, maxTier: int, maxModels: int,
                                  always: seq<string>)
    returns (picked: seq<string>)
    ensures picked == ProbeModels(rules, registry, available, allowlists, maxTier, maxModels, always)
  {
    var names: seq<string> := [];
    if allowlists != [] {
      for i := 0 to |allowlists|
        invariant names == AllowlistedNames(allowlists[..i])
      {
        assert allowlists[..i + 1][..i] == allowlists[..i];
        names := names + MapSeq(Text.Strip, allowlists[i].1);
      }
      assert allowlists[..|allowlists|] == allowlists;
    } else {
      var byFamily := NewestPerFamily(rules, registry, available, maxTier);
      var candidates := StableSort.Sort(Precedes(), MapSeq(SecondOf(), byFamily));
      names := MapSeq(NameOf(), SliceTo(candidates, maxModels));
    }
    picked := AddAll(available, [], names);
    picked := AddAll(available, picked, MapSeq(Text.Strip, always));
  }

  method NewestPerFamily(rules: NameRules, registry: map<string, Meta>, available: seq<string>, maxTier: int)
    returns (byFamily: seq<(string, Candidate)>)
    ensures byFamily == ByFamily(rules, registry, available, maxTier)
  {
    byFamily := [];
    for i := 0 to |available|
      invariant byFamily == ByFamily(rules, registry, available[..i], maxTier)
    {
      assert available[..i + 1][..i] == available[..i];
      var c := CandidateFor(rules, registry, available[i]);
      if c.tier > maxTier { continue; }
      var fam := FamilyOf(rules, c.model);
      var prev := Lookup(byFamily, fam);
      if prev.None? || Ranker.RecencyGreater(c.recency, prev.value.recency) {
        byFamily := Put(byFamily, fam, c);
      }
    }
    assert available[..|available|] == available;
  }

  /** An available model within the cost tier; a model without metadata is in tier 3. */
  predicate Eligible(registry: map<string, Meta>, models: seq<string>, maxTier: int, m: string) {
    m in models && (if m in registry then registry[m].costTier else 3) <= maxTier
  }

  /** The model belongs to this family; one whose name tells none is a family of its own. */
  predicate InFamily(rules: NameRules, m: string, family: string) {
    if rules.family(m) == "" then family == m else family == rules.family(m)
  }

  /** A candidate stands for its family: eligible, and no eligible model of the family is newer. */
  ghost predicate Represents(rules: NameRules, registry: map<string, Meta>, models: seq<string>, maxTier: int,
                             c: Candidate)
  {
    && Eligible(registry, models, maxTier, c.model)
    && c.recency == rules.recency(c.model) && c.tier == (if c.model in registry then registry[c.model].costTier else 3)
    && forall m, family | Eligible(registry, models, maxTier, m) && InFamily(rules, m, family)
                          && InFamily(rules, c.model, family) ::
         !Ranker.RecencyGreater(rules.recency(m), c.recency)
  }

  lemma NewerTransitive(a: Recency, b: Recency, c: Recency)
    requires Ranker.RecencyGreater(b, c) && !Ranker.RecencyGreater(a, c)
    ensures !Ranker.RecencyGreater(a, b)
  {}

  lemma {:induction false} ByFamilyRepresents(rules: NameRules, registry: map<string, Meta>, models: seq<string>,
                                              maxTier: int)
    ensures var d := ByFamily(rules, registry, models, maxTier);
            && UniqueKeys(d)
            && (forall p | p in d ::
                  InFamily(rules, p.1.model, p.0) && Represents(rules, registry, models, maxTier, p.1))
            && (forall m, family | Eligible(registry, models, maxTier, m) && InFamily(rules, m, family) ::
                  Lookup(d, family).Some?)
  {
    if models != [] {
      var init, last := models[..|models| - 1], models[|models| - 1];
      assert models == init + [last];
      ByFamilyRepresents(rules, registry, init, maxTier);
      var before, d := ByFamily(rules, registry, init, maxTier), ByFamily(rules, registry, models, maxTier);
      var c := CandidateFor(rules, registry, last);
      var fam := FamilyOf(rules, last);
      LookupMember(before, fam);
      var prev := Lookup(before, fam);
      var newer := c.tier <= maxTier && (prev.None? || Ranker.RecencyGreater(c.recency, prev.value.recency));
      PutUnique(before, fam, c);
      forall p | p in d ensures InFamily(rules, p.1.model, p.0) && Represents(rules, registry, models, maxTier, p.1) {
        StillRepresents(rules, registry, init, last, maxTier, before, p);
      }
      forall m, family | Eligible(registry, models, maxTier, m) && InFamily(rules, m, family)
        ensures Lookup(d, family).Some?
      {
        if newer { LookupPut(before, fam, c, family); }
        assert m == last || Eligible(registry, init, maxTier, m);
      }
    }
  }

  lemma StillRepresents(rules: NameRules, registry: map<string, Meta>, init: seq<string>, last: string, maxTier: int,
                        before: seq<(string, Candidate)>, p: (string, Candidate))
    requires before == ByFamily(rules, registry, init, maxTier) && UniqueKeys(before)
    requires forall q | q in before ::
               InFamily(rules, q.1.model, q.0) && Represents(rules, registry, init, maxTier, q.1)
    requires forall m, family | Eligible(registry, init, maxTier, m) && InFamily(rules, m, family) ::
               Lookup(before, family).Some?
    requires p in ByFamily(rules, registry, init + [last], maxTier)
    ensures InFamily(rules, p.1.model, p.0) && Represents(rules, registry, init + [last], maxTier, p.1)
  {
    var c := CandidateFor(rules, registry, last);
    var fam := FamilyOf(rules, last);
    var prev := Lookup(before, fam);
    var models := init + [last];
    assert models[..|models| - 1] == init;
    LookupMember(before, fam);
    PutMembers(before, fam, c);
    if p in before { LookupUnique(before, p); }
    forall m, family | Eligible(registry, models, maxTier, m) && InFamily(rules, m, family)
                       && InFamily(rules, p.1.model, family)
      ensures !Ranker.RecencyGreater(rules.recency(m), p.1.recency)
    {
      if m != last {
        assert Eligible(registry, init, maxTier, m);
        if p == (fam, c) && prev.Some? && Ranker.RecencyGreater(c.recency, prev.value.recency) {
          NewerTransitive(rules.recency(m), c.recency, prev.value.recency);
        }
      }
    }
  }

  lemma {:induction false} AddNewFacts(available: seq<string>, names: seq<string>)
    ensures var r := AddNew(available, [], names);
            && Distinct(r) && |r| <= |names|
            && (forall m | m in r :: m in available && m in names && m != "")
            && (forall m | m in names && m in available && m != "" :: m in r)
  {
    if names != [] {
      var init, last := names[..|names| - 1], names[|names| - 1];
      assert names == init + [last];
      AddNewFacts(available, init);
    }
  }

  /** What the probe list holds in every configuration: available models only, none twice; every allowlisted model that
      was discovered; every always-included model that was discovered. */
  lemma ProbeModelsFacts(rules: NameRules, registry: map<string, Meta>, available: seq<string>,
                         allowlists: seq<(string, seq<string>)>, maxTier: int, maxModels: int,
                         always: seq<string>, m: string)
    ensures var picked := ProbeModels(rules, registry, available, allowlists, maxTier, maxModels, always);
            var forced := MapSeq(Text.Strip, always);
            && Distinct(picked) && (m in picked ==> m in available && m != "")
            && (m in forced && m in available && m != "" ==> m in picked)
            && (allowlists != [] ==>
                  (m in picked <==> m != "" && m in available && (m in AllowlistedNames(allowlists) || m in forced)))
  {
    var names := if allowlists != [] then AllowlistedNames(allowlists)
                 else MapSeq(NameOf(), Shortlist(rules, registry, available, maxTier, maxModels));
    var forced := MapSeq(Text.Strip, always);
    AddNewJoins(available, names, forced);
    AddNewFacts(available, names + forced);
  }

  lemma {:induction false} AddNewJoins(available: seq<string>, a: seq<string>, b: seq<string>)
    ensures AddNew(available, AddNew(available, [], a), b) == AddNew(available, [], a + b)
  {
    if b == [] {
      assert a + b == a;
    } else {
      AddNewJoins(available, a, b[..|b| - 1]);
      assert (a + b)[..|a + b| - 1] == a + b[..|b| - 1];
    }
  }

  lemma PrecedesIsWeakOrder(s: seq<Candidate>)
    ensures StableSort.WeakOrderOn(Precedes(), s)
  {}

  lemma {:induction false} SortedPrefixIsBest(sorted: seq<Candidate>, n: int, c: Candidate, u: Candidate)
    requires StableSort.FullySorted(Precedes(), sorted)
    requires c in SliceTo(sorted, n) && u in sorted && u !in SliceTo(sorted, n)
    ensures !Precedes()(u, c)
  {
    var r := SliceTo(sorted, n);
    var i :| 0 <= i < |r| && r[i] == c;
    var j :| 0 <= j < |sorted| && sorted[j] == u;
    forall k | 0 <= k < |r| ensures sorted[k] in r { assert r[k] == sorted[k]; }
    assert sorted[i] == c;
  }

  lemma NameMember(list: seq<Candidate>, c: Candidate)
    requires c in list
    ensures c.model in MapSeq(NameOf(), list)
  {
    var j :| 0 <= j < |list| && list[j] == c;
    assert MapSeq(NameOf(), list)[j] == c.model;
  }

  lemma ShortlistFacts(rules: NameRules, registry: map<string, Meta>, available: seq<string>, maxTier: int,
                       maxModels: nat)
    ensures var list := Shortlist(rules, registry, available, maxTier, maxModels);
            && |list| <= maxModels
            && (forall c | c in list :: Represents(rules, registry, available, maxTier, c))
            && (forall c, e, family | c in list && e in list && InFamily(rules, c.model, family)
                                      && InFamily(rules, e.model, family) :: c == e)
  {
    var d := ByFamily(rules, registry, available, maxTier);
    var all := MapSeq(SecondOf(), d);
    ByFamilyRepresents(rules, registry, available, maxTier);
    StableSort.SortPermutes(Precedes(), all);
    StableSort.SameMembers(StableSort.Sort(Precedes(), all), all);
    var list := Shortlist(rules, registry, available, maxTier, maxModels);
    hide ByFamily;
    hide Represents;
    hide StableSort.Sort;
    forall c | c in list ensures exists family :: (family, c) in d {
      assert c in StableSort.Sort(Precedes(), all);
      var k :| 0 <= k < |all| && all[k] == c;
      assert d[k] in d && d[k] == (d[k].0, c);
    }
    hide Shortlist;
    forall c, family | c in list && InFamily(rules, c.model, family) ensures (family, c) in d {
      var own :| (own, c) in d;
    }
    forall c, e, family | c in list && e in list && InFamily(rules, c.model, family) && InFamily(rules, e.model, family)
      ensures c == e
    {
      LookupUnique(d, (family, c));
      LookupUnique(d, (family, e));
    }
  }

  /** Without allowlists and always-included models the probe list is the shortlist. */
  lemma ProbeModelsAreShortlist(rules: NameRules, registry: map<string, Meta>, available: seq<string>, maxTier: int,
                                maxModels: nat)
    ensures ProbeModels(rules, registry, available, [], maxTier, maxModels, []) ==
            ProbePicks(rules, registry, available, maxTier, maxModels)
  {}

  function ProbePicks(rules: NameRules, registry: map<string, Meta>, available: seq<string>, maxTier: int,
                      maxModels: nat): seq<string>
  {
    AddNew(available, [], MapSeq(NameOf(), Shortlist(rules, registry, available, maxTier, maxModels)))
  }

  /** Main result on the start-up probe without allowlists and always-included models: at most `maxModels` distinct
      available models, each within the cost tier and the newest eligible one of its family, no family twice. */
  lemma StartupProbePicks(rules: NameRules, registry: map<string, Meta>, available: seq<string>, maxTier: int,
                          maxModels: nat)
    ensures var picked := ProbePicks(rules, registry, available, maxTier, maxModels);
            && |picked| <= maxModels && Distinct(picked)
            && (forall m | m in picked ::
                  Represents(rules, registry, available, maxTier, CandidateFor(rules, registry, m)))
            && (forall m, n, family | m in picked && n in picked && InFamily(rules, m, family)
                                      && InFamily(rules, n, family) :: m == n)
  {
    var list := Shortlist(rules, registry, available, maxTier, maxModels);
    var names := MapSeq(NameOf(), list);
    AddNewFacts(available, names);
    ShortlistFacts(rules, registry, available, maxTier, maxModels);
    forall m | m in names ensures CandidateFor(rules, registry, m) in list {
      var i :| 0 <= i < |names| && names[i] == m;
      assert list[i] in list && list[i] == CandidateFor(rules, registry, m);
    }
  }

  /** Every family representative is in the sorted list the shortlist is cut from. */
  lemma RankedCandidates(rules: NameRules, registry: map<string, Meta>, available: seq<string>, maxTier: int)
    ensures var all := MapSeq(SecondOf(), ByFamily(rules, registry, available, maxTier));
            var sorted := StableSort.Sort(Precedes(), all);
            && StableSort.FullySorted(Precedes(), sorted)
            && forall p | p in ByFamily(rules, registry, available, maxTier) :: p.1 in sorted
  {
    hide ByFamily;
    hide StableSort.Sort;
    var d := ByFamily(rules, registry, available, maxTier);
    var all := MapSeq(SecondOf(), d);
    StableSort.SortPermutes(Precedes(), all);
    StableSort.SameMembers(StableSort.Sort(Precedes(), all), all);
    PrecedesIsWeakOrder(all);
    StableSort.SortFullySorted(Precedes(), all);
    forall p | p in d ensures p.1 in all {
      var k :| 0 <= k < |d| && d[k] == p;
      assert all[k] == p.1;
    }
  }

  /** A picked model is on the shortlist; a named candidate on the shortlist is picked. */
  lemma PicksAreShortlisted(rules: NameRules, registry: map<string, Meta>, available: seq<string>, maxTier: int,
                            maxModels: nat, m: string, c: Candidate)
    ensures m in ProbePicks(rules, registry, available, maxTier, maxModels) ==>
              CandidateFor(rules, registry, m) in Shortlist(rules, registry, available, maxTier, maxModels)
    ensures c in Shortlist(rules, registry, available, maxTier, maxModels) && c.model != "" ==>
              c.model in ProbePicks(rules, registry, available, maxTier, maxModels)
  {
    var list := Shortlist(rules, registry, available, maxTier, maxModels);
    var names := MapSeq(NameOf(), list);
    AddNewFacts(available, names);
    ShortlistFacts(rules, registry, available, maxTier, maxModels);
    hide Shortlist;
    if m in names {
      var i :| 0 <= i < |names| && names[i] == m;
      assert list[i] in list;
    }
    if c in list { NameMember(list, c); }
  }

  /** ... and no family representative left out is cheaper than a selected one, or in the same tier and newer. */
  lemma StartupProbeOrder(rules: NameRules, registry: map<string, Meta>, available: seq<string>, maxTier: int,
                          maxModels: nat, m: string, p: (string, Candidate))
    requires m in ProbePicks(rules, registry, available, maxTier, maxModels)
    requires p in ByFamily(rules, registry, available, maxTier) && p.1.model != ""
    requires p.1.model !in ProbePicks(rules, registry, available, maxTier, maxModels)
    ensures var left, taken := p.1.model, m;
            var x, y := if left in registry then registry[left].costTier else 3,
                        if taken in registry then registry[taken].costTier else 3;
            x >= y && (x == y ==> !Ranker.RecencyGreater(rules.recency(left), rules.recency(taken)))
  {
    ByFamilyRepresents(rules, registry, available, maxTier);
    var sorted := StableSort.Sort(Precedes(), MapSeq(SecondOf(), ByFamily(rules, registry, available, maxTier)));
    assert Shortlist(rules, registry, available, maxTier, maxModels) == SliceTo(sorted, maxModels);
    hide *;
    RankedCandidates(rules, registry, available, maxTier);
    PicksAreShortlisted(rules, registry, available, maxTier, maxModels, m, p.1);
    SortedPrefixIsBest(sorted, maxModels, CandidateFor(rules, registry, m), p.1);
    NotBefore(rules, registry, available, maxTier, p.1, m);
  }

  lemma NotBefore(rules: NameRules, registry: map<string, Meta>, models: seq<string>, maxTier: int, left: Candidate,
                  taken: string)
    requires Represents(rules, registry, models, maxTier, left)
    requires !Precedes()(left, CandidateFor(rules, registry, taken))
    ensures var x, y := if left.model in registry then registry[left.model].costTier else 3,
                        if taken in registry then registry[taken].costTier else 3;
            x >= y && (x == y ==> !Ranker.RecencyGreater(rules.recency(left.model), rules.recency(taken)))
  {
    hide Ranker.RecencyGreater;
  }
}
