/** The filter summary of a query: what was identified, what is applied, and why the rest is not
    (packages/semantic-search/semantic_search/app.py). */
module FilterSummary {
  import opened Common
  import StableSort
  import Text

  const URGENCY_GROUP := {"time_remaining_max", "endTimeBefore", "endTimeAfter"}

  datatype Value = NoneValue | Flag(b: bool) | Amount(n: real) | Words(s: string) | Items(items: seq<string>)

  datatype Chip = HardChip | SoftChip | NoChip

  datatype Entity = Entity(name: string, value: Value, chip: Chip)

  /** One slice of the intent; `preGround` is the snapshot taken before grounding, when there is one. */
  datatype Slice = Slice(preGround: Option<seq<Entity>>, entities: seq<Entity>, softEntities: seq<Entity>)

  /** Everything the summary is told about slots: the text form of values (used to compare them), slots that keep a
      false value, soft slots, filter slots, slots without data, slots the backend cannot filter on, slots relaxed by
      the guard, the API parameter of a slot (and the search API's own name for it), and how values are presented. */
  datatype Rules = Rules(
    repr: Value -> string, keepsFalse: string -> bool, softNames: set<string>, filterNames: set<string>,
    unavailable: set<string>, unsupported: set<string>, guardDropped: set<string>,
    apiParam: string -> Option<string>, findParam: string -> Option<string>, transform: (string, Value) -> Value)

  predicate Inactive(r: Rules, e: Entity) {
    match e.value
    case NoneValue => true
    case Flag(b) => !b && !(e.name != "" && r.keepsFalse(e.name))
    case Amount(n) => false
    case Words(s) => Text.Strip(s) == ""
    case Items(items) => items == []
  }

  function Key(r: Rules, e: Entity): (string, string) {
    (e.name, r.repr(e.value))
  }

  function Keys(r: Rules, es: seq<Entity>): set<(string, string)> {
    set e | e in es :: Key(r, e)
  }

  predicate Urgent(e: Entity) {
    e.name in URGENCY_GROUP
  }

  /** Keeps the last entity of the urgency family and drops the others. */
  function Collapse(es: seq<Entity>): seq<Entity> {
    if es == [] then []
    else if Urgent(es[0]) && exists e :: e in es[1..] && Urgent(e) then Collapse(es[1..])
    else [es[0]] + Collapse(es[1..])
  }

  predicate AtMostOneUrgent(es: seq<Entity>) {
    forall a, b | 0 <= a < b < |es| && Urgent(es[a]) :: !Urgent(es[b])
  }

  predicate LastUrgentAt(es: seq<Entity>, last: nat) {
    last < |es| && Urgent(es[last]) && forall a | last < a < |es| :: !Urgent(es[a])
  }

  /** How many urgency entities there are, and where the last one stands. */
  method FindUrgent(es: seq<Entity>) returns (count: nat, last: nat)
    ensures count == |AllUrgent(es)|
    ensures count <= 1 ==> AtMostOneUrgent(es)
    ensures count >= 1 ==> LastUrgentAt(es, last)
  {
    count, last := 0, 0;
    for i := 0 to |es|
      invariant count == |AllUrgent(es[..i])|
      invariant count == 0 ==> forall a | 0 <= a < i :: !Urgent(es[a])
      invariant count >= 1 ==> last < i && Urgent(es[last]) && forall a | last < a < i :: !Urgent(es[a])
      invariant count == 1 ==> forall a | 0 <= a < last :: !Urgent(es[a])
    {
      assert es[..i + 1] == es[..i] + [es[i]];
      UrgentSnoc(es[..i], es[i]);
      hide AllUrgent;
      hide Urgent;
      if Urgent(es[i]) {
        count := count + 1;
        last := i;
      }
    }
    assert es[..|es|] == es;
  }

  lemma UrgentSnoc(es: seq<Entity>, e: Entity)
    ensures |AllUrgent(es + [e])| == |AllUrgent(es)| + if Urgent(e) then 1 else 0
  {
    FilterSnoc(OnEnding(), es, e);
  }

  method CollapseUrgency(es: seq<Entity>) returns (kept: seq<Entity>)
    ensures kept == Collapse(es)
  {
    var count, last := FindUrgent(es);
    if count <= 1 {
      CollapseFew(es);
      return es;
    }
    kept := [];
    CollapseNone();
    hide *;
    assert es[0..] == es && [] + Collapse(es) == Collapse(es);
    for i := 0 to |es|
      invariant kept + Collapse(es[i..]) == Collapse(es)
    {
      CollapseStep(es, i, last);
      KeepOne(kept, es[i], !Urgent(es[i]) || i == last, Collapse(es[i + 1..]));
      if !Urgent(es[i]) || i == last { kept := kept + [es[i]]; }
    }
    assert es[|es|..] == [] && kept + [] == kept;
  }

  lemma CollapseNone()
    ensures Collapse([]) == []
  {}

  lemma KeepOne(kept: seq<Entity>, e: Entity, keep: bool, rest: seq<Entity>)
    ensures kept + ((if keep then [e] else []) + rest) == (if keep then kept + [e] else kept) + rest
  {}

  lemma CollapseStep(es: seq<Entity>, i: nat, last: nat)
    requires i < |es| && LastUrgentAt(es, last)
    ensures Collapse(es[i..]) == (if !Urgent(es[i]) || i == last then [es[i]] else []) + Collapse(es[i + 1..])
  {
    var rest := es[i + 1..];
    assert es[i..] == [es[i]] + rest;
    if i < last { assert rest[last - i - 1] == es[last] && es[last] in rest; }
    if i == last {
      forall e | e in rest ensures !Urgent(e) {
        var k :| 0 <= k < |rest| && rest[k] == e;
      }
    }
  }

  lemma {:induction false} CollapseFew(es: seq<Entity>)
    requires AtMostOneUrgent(es)
    ensures Collapse(es) == es
  {
    if es != [] {
      var rest := es[1..];
      forall e | e in rest && Urgent(es[0]) ensures !Urgent(e) {
        var k :| 0 <= k < |rest| && rest[k] == e;
        assert es[k + 1] == e;
      }
      CollapseFew(rest);
      assert es == [es[0]] + rest;
    }
  }

  predicate Soft(r: Rules, e: Entity) {
    e.name in r.softNames || e.chip.SoftChip?
  }

  /** Hard entities found on the slice after the snapshot was taken and not in it yet. */
  function Union(r: Rules, hard: seq<Entity>, added: seq<Entity>): seq<Entity> {
    if added == [] then hard
    else
      var before := Union(r, hard, added[..|added| - 1]);
      var e := added[|added| - 1];
      if e.name == "" || Soft(r, e) || Key(r, e) in Keys(r, Named(before)) || Inactive(r, e) then before
      else before + [e]
  }

  function Named(es: seq<Entity>): seq<Entity> {
    StableSort.Filter((e: Entity) => e.name != "", es)
  }

  /** The hard entities of a slice: snapshot (or entities) collapsed, joined with later injections, collapsed again. */
  function HardList(r: Rules, s: Slice): seq<Entity> {
    Collapse(Union(r, Collapse(s.preGround.GetOr(s.entities)), s.entities))
  }

  method BuildHardList(r: Rules, s: Slice) returns (hard: seq<Entity>)
    ensures hard == HardList(r, s)
  {
    var base := if s.preGround.Some? then s.preGround.value else s.entities;
    hard := CollapseUrgency(base);
    ghost var start := hard;
    var seen := Keys(r, Named(hard));
    for i := 0 to |s.entities|
      invariant hard == Union(r, start, s.entities[..i]) && seen == Keys(r, Named(hard))
    {
      var ent := s.entities[i];
      assert s.entities[..i + 1][..i] == s.entities[..i];
      if ent.name == "" || Soft(r, ent) { continue; }
      if Key(r, ent) in seen { continue; }
      if Inactive(r, ent) { continue; }
      NamedAppend(r, hard, ent);
      seen := seen + {Key(r, ent)};
      hard := hard + [ent];
    }
    assert s.entities[..|s.entities|] == s.entities;
    hard := CollapseUrgency(hard);
  }

  lemma NamedAppend(r: Rules, es: seq<Entity>, e: Entity)
    requires e.name != ""
    ensures Keys(r, Named(es + [e])) == Keys(r, Named(es)) + {Key(r, e)}
  {
    StableSort.FilterAppend((x: Entity) => x.name != "", es, [e]);
    assert Named(es + [e]) == Named(es) + [e];
  }

  /** First occurrence of every (name, value). */
  function Unique(r: Rules, es: seq<Entity>): seq<Entity> {
    if es == [] then []
    else
      var before := Unique(r, es[..|es| - 1]);
      var e := es[|es| - 1];
      if Key(r, e) in Keys(r, before) then before else before + [e]
  }

  datatype Entry = Entry(name: string, value: Value, hard: bool, available: bool, api: Option<string>)

  /** A missing chip kind counts as soft here, although it does not keep the entity out of the identified list. */
  function EntryOf(r: Rules): Entity -> Entry {
    (e: Entity) => Entry(e.name, e.value, e.chip.HardChip?, e.name !in r.unavailable, r.apiParam(e.name))
  }

  predicate Counts(r: Rules, e: Entity) {
    e.name != "" && !Inactive(r, e)
  }

  function IsHard(r: Rules): Entity -> bool {
    e => Counts(r, e) && !Soft(r, e)
  }

  function IsSoft(r: Rules): Entity -> bool {
    e => Counts(r, e) && Soft(r, e)
  }

  /** All entities looked at for the identified and soft lists, slice by slice. */
  function Candidates(r: Rules, slices: seq<Slice>): seq<Entity> {
    if slices == [] then []
    else
      var s := slices[|slices| - 1];
      Candidates(r, slices[..|slices| - 1]) + (s.softEntities + HardList(r, s))
  }

  function Identified(r: Rules, slices: seq<Slice>): seq<Entity> {
    Unique(r, StableSort.Filter(IsHard(r), Candidates(r, slices)))
  }

  function SoftOnes(r: Rules, slices: seq<Slice>): seq<Entity> {
    Unique(r, StableSort.Filter(IsSoft(r), Candidates(r, slices)))
  }

  function AllEntities(slices: seq<Slice>): seq<Entity> {
    if slices == [] then [] else AllEntities(slices[..|slices| - 1]) + slices[|slices| - 1].entities
  }

  function Grounded(r: Rules, slices: seq<Slice>): seq<Entity> {
    Unique(r, StableSort.Filter(IsHard(r), AllEntities(slices)))
  }

  predicate Applies(r: Rules, e: Entity) {
    e.name !in r.guardDropped && e.name !in r.unsupported && e.chip.HardChip? && e.name !in r.unavailable
    && e.name in r.filterNames && r.apiParam(e.name).Some?
  }

  /** The grounded entities that really filter. */
  function AppliedEntities(r: Rules, slices: seq<Slice>): seq<Entity> {
    StableSort.Filter(e => Applies(r, e), Grounded(r, slices))
  }

  function Names(es: seq<Entity>): set<string> {
    set e | e in es :: e.name
  }

  datatype Reason =
    | RelaxedByGuard | BackendUnsupported | InventoryUngrounded | ColumnDataUnavailable | SoftSignal | UnsupportedSlot

  function ReasonFor(r: Rules, groundedNames: set<string>, e: Entity): Reason {
    if e.name in r.guardDropped then RelaxedByGuard
    else if e.name in r.unsupported then BackendUnsupported
    else if e.chip.HardChip? && e.name in r.filterNames && e.name !in r.unavailable && e.name !in groundedNames then
      InventoryUngrounded
    else if e.name in r.unavailable then ColumnDataUnavailable
    else if !e.chip.HardChip? then SoftSignal
    else UnsupportedSlot
  }

  datatype Applied = Applied(name: string, value: Value, api: Option<string>)
  datatype NotApplied = NotApplied(name: string, value: Value, reason: Reason)
  datatype Summary = Summary(identified: seq<Entry>, soft: seq<Entry>, applied: seq<Applied>,
                             notApplied: seq<NotApplied>)

  function AppliedRow(r: Rules): Entity -> Applied {
    (e: Entity) =>
      Applied(e.name, r.transform(e.name, e.value),
              if r.findParam(e.name).Some? then r.findParam(e.name) else r.apiParam(e.name))
  }

  function NotAppliedRow(r: Rules, groundedNames: set<string>): Entity -> NotApplied {
    (e: Entity) => NotApplied(e.name, e.value, ReasonFor(r, groundedNames, e))
  }

  function NotAppliedEntities(r: Rules, slices: seq<Slice>): seq<Entity> {
    StableSort.Filter((e: Entity) => e.name !in Names(AppliedEntities(r, slices)), Identified(r, slices))
  }

  lemma UniqueStep(r: Rules, before: seq<Entity>, e: Entity)
    ensures var u := Unique(r, before);
            Unique(r, before + [e]) == if Key(r, e) in Keys(r, u) then u else u + [e]
  {
    assert (before + [e])[..|before|] == before;
  }

  lemma FilterSnoc(p: Entity -> bool, es: seq<Entity>, e: Entity)
    ensures StableSort.Filter(p, es + [e]) == if p(e) then StableSort.Filter(p, es) + [e] else StableSort.Filter(p, es)
  {
    StableSort.FilterAppend(p, es, [e]);
    assert [e][1..] == [];
  }

  /** One more entity: skipped when `p` or an earlier key rules it out, appended otherwise. */
  lemma CollectStep(r: Rules, p: Entity -> bool, es: seq<Entity>, i: nat)
    requires i < |es|
    ensures var u := Unique(r, StableSort.Filter(p, es[..i]));
            Unique(r, StableSort.Filter(p, es[..i + 1]))
            == if p(es[i]) && Key(r, es[i]) !in Keys(r, u) then u + [es[i]] else u
  {
    var e, f := es[i], StableSort.Filter(p, es[..i]);
    assert es[..i + 1] == es[..i] + [e];
    FilterSnoc(p, es[..i], e);
    if p(e) { UniqueStep(r, f, e); }
  }

  lemma KeysAppend(r: Rules, es: seq<Entity>, e: Entity)
    ensures Keys(r, es + [e]) == Keys(r, es) + {Key(r, e)}
  {
    assert forall x :: x in es + [e] <==> x in es || x == e;
  }

  /** First occurrences of the entities that satisfy `p`. */
  method CollectUnique(r: Rules, p: Entity -> bool, es: seq<Entity>) returns (kept: seq<Entity>)
    ensures kept == Unique(r, StableSort.Filter(p, es))
  {
    kept := [];
    var seen: set<(string, string)> := {};
    for i := 0 to |es|
      invariant kept == Unique(r, StableSort.Filter(p, es[..i])) && seen == Keys(r, kept)
    {
      CollectStep(r, p, es, i);
      if !p(es[i]) { continue; }
      if Key(r, es[i]) in seen { continue; }
      KeysAppend(r, kept, es[i]);
      seen := seen + {Key(r, es[i])};
      kept := kept + [es[i]];
    }
    assert es[..|es|] == es;
  }

  /** The summary of a query; no intent, an empty summary. */
  method BuildFilterSummary(r: Rules, intent: Option<seq<Slice>>) returns (summary: Summary)
    ensures intent.None? ==> summary == Summary([], [], [], [])
    ensures intent.Some? ==>
              var slices := intent.value;
              summary == Summary(
                MapSeq(EntryOf(r), Identified(r, slices)), MapSeq(EntryOf(r), SoftOnes(r, slices)),
                MapSeq(AppliedRow(r), AppliedEntities(r, slices)),
                MapSeq(NotAppliedRow(r, Names(Grounded(r, slices))), NotAppliedEntities(r, slices)))
  {
    if intent.None? { return Summary([], [], [], []); }
    var slices := intent.value;
    var candidates: seq<Entity>, entities: seq<Entity> := [], [];
    for i := 0 to |slices|
      invariant candidates == Candidates(r, slices[..i]) && entities == AllEntities(slices[..i])
    {
      assert slices[..i + 1][..i] == slices[..i];
      var hard := BuildHardList(r, slices[i]);
      candidates := candidates + (slices[i].softEntities + hard);
      entities := entities + slices[i].entities;
    }
    assert slices[..|slices|] == slices;
    var identified := CollectUnique(r, IsHard(r), candidates);
    var soft := CollectUnique(r, IsSoft(r), candidates);
    var grounded := CollectUnique(r, IsHard(r), entities);
    var applied := StableSort.Filter(e => Applies(r, e), grounded);
    var appliedNames := Names(applied);
    var rest := StableSort.Filter((e: Entity) => e.name !in appliedNames, identified);
    assert rest == NotAppliedEntities(r, slices);
    summary := Summary(MapSeq(EntryOf(r), identified), MapSeq(EntryOf(r), soft), MapSeq(AppliedRow(r), applied),
                       MapSeq(NotAppliedRow(r, Names(grounded)), rest));
  }

  // ---- What counts as stated, hard and soft

  /** The entity names a slot and its value says something: not null, not false (but for the slots that keep it), not
      blank, not an empty list. */
  ghost predicate Stated(r: Rules, e: Entity) {
    && e.name != "" && e.value != NoneValue && e.value != Items([])
    && (e.value == Flag(false) ==> r.keepsFalse(e.name))
    && (e.value.Words? ==> !Text.AllSpace(e.value.s))
  }

  /** ... and neither its slot nor its chip makes it soft. */
  ghost predicate Firm(r: Rules, e: Entity) {
    Stated(r, e) && e.name !in r.softNames && e.chip != SoftChip
  }

  lemma FirmMeaning(r: Rules, e: Entity)
    ensures IsHard(r)(e) <==> Firm(r, e)
    ensures IsSoft(r)(e) <==> Stated(r, e) && !Firm(r, e)
    ensures e.name != "" ==> (Inactive(r, e) <==> !Stated(r, e))
  {
    if e.value.Words? { Text.StripsToNothing(e.value.s); }
  }

  /** The rows of the summary: identified and soft entities with whether their column has data and how the search API
      calls them; applied ones under the search API's own name where it has one. */
  lemma RowsMeaning(r: Rules, e: Entity)
    ensures EntryOf(r)(e) == Entry(e.name, e.value, e.chip == HardChip, !(e.name in r.unavailable), r.apiParam(e.name))
    ensures var row := AppliedRow(r)(e);
            && row.name == e.name && row.value == r.transform(e.name, e.value)
            && (r.findParam(e.name) != None ==> row.api == r.findParam(e.name))
            && (r.findParam(e.name) == None ==> row.api == r.apiParam(e.name))
  {}

  /** Joining later injections in keeps the list as it is, adds only firm entities of the slice, and misses none of
      their (name, value) pairs. */
  lemma {:induction false} UnionMeaning(r: Rules, hard: seq<Entity>, added: seq<Entity>)
    ensures var u := Union(r, hard, added);
            && hard <= u && (forall e | e in u[|hard|..] :: e in added && Firm(r, e))
            && (forall e | e in added && Firm(r, e) ::
                  exists x :: x in u && x.name == e.name && r.repr(x.value) == r.repr(e.value))
  {
    if added != [] {
      var init, e := added[..|added| - 1], added[|added| - 1];
      var before, u := Union(r, hard, init), Union(r, hard, added);
      assert added == init + [e];
      UnionMeaning(r, hard, init);
      FirmMeaning(r, e);
      StableSort.FilterMembers((x: Entity) => x.name != "", before);
      assert u == before || u == before + [e];
      forall x | x in u[|hard|..] ensures x in added && Firm(r, x) {
        assert x in before[|hard|..] || (x == e && u != before);
      }
      forall x | x in added && Firm(r, x)
        ensures exists y :: y in u && y.name == x.name && r.repr(y.value) == r.repr(x.value)
      {
        if x in init {
          var y :| y in before && y.name == x.name && r.repr(y.value) == r.repr(x.value);
          assert y in u;
        } else if u == before + [e] {
          assert u[|before|] == e;
        } else {
          var y :| y in Named(before) && Key(r, y) == Key(r, e);
          assert y in u;
        }
      }
    }
  }

  // ---- The urgency family

  /** The entity says when the auction ends. */
  function OnEnding(): Entity -> bool {
    (e: Entity) => e.name == "time_remaining_max" || e.name == "endTimeBefore" || e.name == "endTimeAfter"
  }

  function NotOnEnding(): Entity -> bool {
    (e: Entity) => e.name != "time_remaining_max" && e.name != "endTimeBefore" && e.name != "endTimeAfter"
  }

  function AllUrgent(es: seq<Entity>): seq<Entity> {
    StableSort.Filter(OnEnding(), es)
  }

  function LastOnly(es: seq<Entity>): seq<Entity> {
    if es == [] then [] else [es[|es| - 1]]
  }

  lemma UrgentExists(es: seq<Entity>)
    ensures AllUrgent(es) != [] <==> exists e :: e in es && Urgent(e)
  {
    StableSort.FilterMembers(OnEnding(), es);
    if AllUrgent(es) != [] { assert AllUrgent(es)[0] in AllUrgent(es); }
  }

  /** At most one urgency entity survives, and it is the last one there was. */
  lemma {:induction false} CollapseKeepsLast(es: seq<Entity>)
    ensures AllUrgent(Collapse(es)) == LastOnly(AllUrgent(es))
  {
    if es != [] {
      CollapseKeepsLast(es[1..]);
      UrgentExists(es[1..]);
      assert AllUrgent(es) == if Urgent(es[0]) then [es[0]] + AllUrgent(es[1..]) else AllUrgent(es[1..]);
    }
  }

  /** Everything outside the urgency family stays, in order. */
  lemma {:induction false} CollapseKeepsOthers(es: seq<Entity>)
    ensures StableSort.Filter(NotOnEnding(), Collapse(es)) == StableSort.Filter(NotOnEnding(), es)
  {
    if es != [] {
      CollapseKeepsOthers(es[1..]);
    }
  }

  /** Each slice contributes at most one urgency entity: the last one after later injections were joined in. */
  lemma SliceHasOneUrgency(r: Rules, s: Slice)
    ensures AllUrgent(HardList(r, s)) ==
            LastOnly(AllUrgent(Union(r, Collapse(s.preGround.GetOr(s.entities)), s.entities)))
    ensures |AllUrgent(HardList(r, s))| <= 1
  {
    CollapseKeepsLast(Union(r, Collapse(s.preGround.GetOr(s.entities)), s.entities));
  }

  // ---- Uniqueness and the partition

  lemma {:induction false} UniqueFacts(r: Rules, es: seq<Entity>)
    ensures var u := Unique(r, es);
            && (forall i, j | 0 <= i < j < |u| :: Key(r, u[i]) != Key(r, u[j]))
            && Keys(r, u) == Keys(r, es)
            && (forall e | e in u :: e in es)
  {
    if es != [] {
      var init, e := es[..|es| - 1], es[|es| - 1];
      assert es == init + [e];
      UniqueFacts(r, init);
      assert Keys(r, es) == Keys(r, init) + {Key(r, e)};
      var before := Unique(r, init);
      assert Keys(r, before + [e]) == Keys(r, before) + {Key(r, e)};
      forall i | 0 <= i < |before| && Key(r, e) !in Keys(r, before) ensures Key(r, before[i]) != Key(r, e) {
        assert before[i] in before;
      }
    }
  }

  /** No (name, value) is listed twice among the soft entries or the grounded entities either. */
  lemma SoftAndGroundedUnique(r: Rules, slices: seq<Slice>)
    ensures SameOnce(r, SoftOnes(r, slices)) && SameOnce(r, Grounded(r, slices))
    ensures Represents(r, SoftOnes(r, slices), Candidates(r, slices), e => Stated(r, e) && !Firm(r, e))
    ensures Represents(r, Grounded(r, slices), AllEntities(slices), e => Firm(r, e))
  {
    UniqueMeaning(r, Candidates(r, slices), IsSoft(r), e => Stated(r, e) && !Firm(r, e));
    UniqueMeaning(r, AllEntities(slices), IsHard(r), e => Firm(r, e));
  }

  /** No (name, value) occurs twice. */
  ghost predicate SameOnce(r: Rules, es: seq<Entity>) {
    forall i, j | 0 <= i < j < |es| :: es[i].name != es[j].name || r.repr(es[i].value) != r.repr(es[j].value)
  }

  /** The list holds entities of the other that satisfy `p`, and misses no (name, value) of those. */
  ghost predicate Represents(r: Rules, kept: seq<Entity>, all: seq<Entity>, p: Entity -> bool) {
    && (forall e | e in kept :: e in all && p(e))
    && (forall e | e in all && p(e) :: exists x :: x in kept && x.name == e.name && r.repr(x.value) == r.repr(e.value))
  }

  lemma UniqueMeaning(r: Rules, all: seq<Entity>, p: Entity -> bool, q: Entity -> bool)
    requires (p == IsHard(r) && forall e :: q(e) == Firm(r, e))
             || (p == IsSoft(r) && forall e :: q(e) == (Stated(r, e) && !Firm(r, e)))
    ensures var u := Unique(r, StableSort.Filter(p, all)); SameOnce(r, u) && Represents(r, u, all, q)
  {
    var f := StableSort.Filter(p, all);
    UniqueFacts(r, f);
    StableSort.FilterMembers(p, all);
    forall e ensures p(e) == q(e) { FirmMeaning(r, e); }
    var u := Unique(r, f);
    forall i, j | 0 <= i < j < |u| ensures u[i].name != u[j].name || r.repr(u[i].value) != r.repr(u[j].value) {
      assert Key(r, u[i]) != Key(r, u[j]);
    }
    forall e | e in all && p(e) ensures exists x :: x in u && x.name == e.name && r.repr(x.value) == r.repr(e.value) {
      assert e in f && Key(r, e) in Keys(r, f);
      var x :| x in u && Key(r, x) == Key(r, e);
    }
  }

  /** No (name, value) is listed twice, nothing identified is soft, and nothing that counts as hard is missing. */
  lemma IdentifiedUnique(r: Rules, slices: seq<Slice>)
    ensures var d := Identified(r, slices);
            SameOnce(r, d) && Represents(r, d, Candidates(r, slices), e => Firm(r, e))
  {
    UniqueMeaning(r, Candidates(r, slices), IsHard(r), e => Firm(r, e));
  }

  /** Occurrences of an entity's key in a list. */
  function Occurrences(r: Rules, es: seq<Entity>, k: (string, string)): nat {
    |StableSort.Filter(e => Key(r, e) == k, es)|
  }

  lemma {:induction false} KeyOnce(r: Rules, es: seq<Entity>, k: (string, string))
    requires forall i, j | 0 <= i < j < |es| :: Key(r, es[i]) != Key(r, es[j])
    ensures Occurrences(r, es, k) == if k in Keys(r, es) then 1 else 0
  {
    if es != [] {
      var rest := es[1..];
      assert es == [es[0]] + rest;
      forall i, j | 0 <= i < j < |rest|
        ensures Key(r, rest[i]) != Key(r, rest[j])
      {
        assert rest[i] == es[i + 1] && rest[j] == es[j + 1];
      }
      KeyOnce(r, rest, k);
      if Key(r, es[0]) == k {
        assert k !in Keys(r, rest) by {
          forall e | e in rest ensures Key(r, e) != k {
            var j :| 0 <= j < |rest| && rest[j] == e;
            assert es[j + 1] == e;
          }
        }
      }
    }
  }

  /** Main result on the partition: every identified entity either has its name among the applied filters, and then
      it is not listed as unapplied, or is listed there exactly once. */
  lemma IdentifiedPartition(r: Rules, slices: seq<Slice>, e: Entity)
    requires e in Identified(r, slices)
    ensures Occurrences(r, NotAppliedEntities(r, slices), Key(r, e)) ==
            if e.name in Names(AppliedEntities(r, slices)) then 0 else 1
  {
    var d := Identified(r, slices);
    var applied := Names(AppliedEntities(r, slices));
    var p := (x: Entity) => x.name !in applied;
    var rest := NotAppliedEntities(r, slices);
    IdentifiedUnique(r, slices);
    FilterUnique(r, p, d);
    StableSort.FilterMembers(p, d);
    KeyOnce(r, rest, Key(r, e));
    if e.name !in applied { assert e in rest; }
  }

  lemma {:induction false} FilterUnique(r: Rules, p: Entity -> bool, es: seq<Entity>)
    requires forall i, j | 0 <= i < j < |es| :: Key(r, es[i]) != Key(r, es[j])
    ensures var f := StableSort.Filter(p, es); forall i, j | 0 <= i < j < |f| :: Key(r, f[i]) != Key(r, f[j])
  {
    if es != [] {
      var rest := es[1..];
      forall i, j | 0 <= i < j < |rest|
        ensures Key(r, rest[i]) != Key(r, rest[j])
      {
        assert rest[i] == es[i + 1] && rest[j] == es[j + 1];
      }
      FilterUnique(r, p, rest);
      StableSort.FilterMembers(p, rest);
      var f := StableSort.Filter(p, rest);
      forall j | 0 <= j < |f| ensures Key(r, f[j]) != Key(r, es[0]) {
        assert f[j] in f;
        var m :| 0 <= m < |rest| && rest[m] == f[j];
        assert es[m + 1] == f[j];
      }
    }
  }

  /** The first of the grounded slice entities that count as hard and state this (name, value). */
  ghost predicate FirstHard(r: Rules, es: seq<Entity>, i: nat)
    requires i < |es|
  {
    && Firm(r, es[i])
    && forall j | 0 <= j < i && Firm(r, es[j]) ::
         es[j].name != es[i].name || r.repr(es[j].value) != r.repr(es[i].value)
  }

  ghost predicate IsFirstHard(r: Rules, es: seq<Entity>, n: nat, e: Entity)
    requires n <= |es|
  {
    exists i :: 0 <= i < n && es[i] == e && FirstHard(r, es, i)
  }

  lemma FirstHardStep(r: Rules, es: seq<Entity>, n: nat, e: Entity)
    requires n < |es|
    ensures IsFirstHard(r, es, n + 1, e) <==> IsFirstHard(r, es, n, e) || (es[n] == e && FirstHard(r, es, n))
  {}

  lemma KeptStep(r: Rules, es: seq<Entity>, n: nat, e: Entity)
    requires n < |es|
    ensures e in Unique(r, StableSort.Filter(IsHard(r), es[..n + 1])) <==>
            e in Unique(r, StableSort.Filter(IsHard(r), es[..n])) || (es[n] == e && FirstHard(r, es, n))
  {
    hide Unique;
    hide StableSort.Filter;
    hide IsHard;
    hide Firm;
    FirmMeaning(r, es[n]);
    CollectStep(r, IsHard(r), es, n);
    KeysOfPrefix(r, es, n);
  }

  lemma {:induction false} KeptAreFirst(r: Rules, es: seq<Entity>, n: nat, e: Entity)
    requires n <= |es|
    ensures e in Unique(r, StableSort.Filter(IsHard(r), es[..n])) <==> IsFirstHard(r, es, n, e)
  {
    if n == 0 {
      assert es[..n] == [];
    } else {
      hide *;
      KeptAreFirst(r, es, n - 1, e);
      KeptStep(r, es, n - 1, e);
      FirstHardStep(r, es, n - 1, e);
    }
  }

  /** The keys kept so far are those of the hard entities seen so far. */
  lemma KeysOfPrefix(r: Rules, es: seq<Entity>, n: nat)
    requires n < |es|
    ensures Key(r, es[n]) in Keys(r, Unique(r, StableSort.Filter(IsHard(r), es[..n]))) <==>
            exists j :: 0 <= j < n && Firm(r, es[j]) && es[j].name == es[n].name
                        && r.repr(es[j].value) == r.repr(es[n].value)
  {
    hide IsHard;
    hide Firm;
    forall j | 0 <= j < n ensures IsHard(r)(es[j]) <==> Firm(r, es[j]) { FirmMeaning(r, es[j]); }
    var f := StableSort.Filter(IsHard(r), es[..n]);
    UniqueFacts(r, f);
    StableSort.FilterMembers(IsHard(r), es[..n]);
    if e :| e in f && Key(r, e) == Key(r, es[n]) {
      var j :| 0 <= j < n && es[..n][j] == e;
      assert es[j] == e;
    }
    if j :| 0 <= j < n && Firm(r, es[j]) && es[j].name == es[n].name && r.repr(es[j].value) == r.repr(es[n].value) {
      assert es[..n][j] in f;
    }
  }

  /** From the slices to the applied filters: a name is applied exactly when some entity of it is the first hard one of
      its (name, value) over all slices and nothing stands in its way: neither dropped by the guard nor unsupported by
      the backend nor without data, marked hard, a filter slot, and known to the API. */
  lemma AppliedExactly(r: Rules, slices: seq<Slice>, name: string)
    ensures var es := AllEntities(slices);
            name in Names(AppliedEntities(r, slices)) <==>
            && (exists i :: 0 <= i < |es| && es[i].name == name && FirstHard(r, es, i) && es[i].chip == HardChip)
            && name !in r.guardDropped + r.unsupported + r.unavailable && name in r.filterNames
            && r.apiParam(name) != None
    ensures name in Names(AppliedEntities(r, slices)) ==> name in Names(Grounded(r, slices))
  {
    var es := AllEntities(slices);
    var applied := AppliedEntities(r, slices);
    if name in Names(applied) {
      var e :| e in applied && e.name == name;
      AppliedIsFirst(r, slices, e);
      var i :| 0 <= i < |es| && es[i] == e && FirstHard(r, es, i);
      assert es[i].name == name && Applies(r, es[i]);
    }
    if i :| 0 <= i < |es| && es[i].name == name && FirstHard(r, es, i) && Applies(r, es[i]) {
      assert IsFirstHard(r, es, |es|, es[i]);
      AppliedIsFirst(r, slices, es[i]);
    }
  }

  lemma AppliedIsFirst(r: Rules, slices: seq<Slice>, e: Entity)
    ensures var es := AllEntities(slices);
            e in AppliedEntities(r, slices) <==> IsFirstHard(r, es, |es|, e) && Applies(r, e)
    ensures e in AppliedEntities(r, slices) ==> e in Grounded(r, slices) && e.name in Names(Grounded(r, slices))
  {
    var es := AllEntities(slices);
    assert es[..|es|] == es;
    StableSort.FilterMembers(x => Applies(r, x), Grounded(r, slices));
    KeptAreFirst(r, es, |es|, e);
  }

  /** A reason that holds of an entity.  Unsupported means: hard, not dropped, supported, available, and yet either
      no filter slot or grounded only in forms the search API has no parameter for. */
  ghost predicate Holds(r: Rules, slices: seq<Slice>, e: Entity, why: Reason) {
    match why
    case RelaxedByGuard => e.name in r.guardDropped
    case BackendUnsupported => e.name in r.unsupported
    case ColumnDataUnavailable => e.name in r.unavailable
    case InventoryUngrounded => e.name in r.filterNames && forall g | g in Grounded(r, slices) :: g.name != e.name
    case SoftSignal => !e.chip.HardChip?
    case UnsupportedSlot =>
      && e.chip.HardChip? && e.name !in r.guardDropped && e.name !in r.unsupported && e.name !in r.unavailable
      && (e.name in r.filterNames ==>
            && e.name in Names(Grounded(r, slices))
            && forall g | g in Grounded(r, slices) && g.name == e.name :: !g.chip.HardChip? || r.apiParam(g.name).None?)
  }

  /** The reason reported for an entity that is not applied is a true one, and it is the guard's or the backend's
      whenever those apply. */
  lemma ReasonsAreTrue(r: Rules, slices: seq<Slice>, e: Entity)
    requires e in NotAppliedEntities(r, slices)
    ensures var why := ReasonFor(r, Names(Grounded(r, slices)), e);
            && Holds(r, slices, e, why)
            && (Holds(r, slices, e, RelaxedByGuard) ==> why == RelaxedByGuard)
            && (Holds(r, slices, e, BackendUnsupported) ==> why == RelaxedByGuard || why == BackendUnsupported)
            && (Holds(r, slices, e, ColumnDataUnavailable) ==>
                  why in {RelaxedByGuard, BackendUnsupported, ColumnDataUnavailable})
            && (Holds(r, slices, e, SoftSignal) ==>
                  why in {RelaxedByGuard, BackendUnsupported, ColumnDataUnavailable, SoftSignal})
  {
    var applied := AppliedEntities(r, slices);
    StableSort.FilterMembers((x: Entity) => x.name !in Names(applied), Identified(r, slices));
    StableSort.FilterMembers(x => Applies(r, x), Grounded(r, slices));
  }
}
