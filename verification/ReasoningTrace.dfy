/** The bounded reasoning trail (packages/semantic-search/semantic_search/contracts.py): an append-only log seen through
    a window, with a head marker whose counter is kept as decimal text.  Time stamps are left out. */
module ReasoningTrace {
  import opened Common
  import opened Text

  const TRUNCATED_STAGE := "_truncated"
  const DETAIL_MAX_CHARS := 256
  const DROPPED_PREFIX := "dropped="

  const STAGES := {
    "spell_correct", "cache_lookup", "qi_classify", "retrieve", "fuse", "erank", "diversify", "truncate", "egress_guard"
  }

  datatype Step = Step(stage: string, detail: string)

  datatype AddError = ReservedStage | UnknownStage

  predicate IsSentinel(s: Step) {
    s.stage == TRUNCATED_STAGE
  }

  predicate HasSentinel(steps: seq<Step>) {
    steps != [] && IsSentinel(steps[0])
  }

  ghost predicate SentinelFree(steps: seq<Step>) {
    forall s | s in steps :: !IsSentinel(s)
  }

  function Sentinel(dropped: int): Step {
    Step(TRUNCATED_STAGE, DROPPED_PREFIX + IntText(dropped))
  }

  /** The counter of the head marker; anything unreadable counts as zero. */
  function DroppedCount(steps: seq<Step>): int {
    if !HasSentinel(steps) then 0
    else
      var detail := steps[0].detail;
      if !(DROPPED_PREFIX <= detail) then 0 else ParseInt(detail[|DROPPED_PREFIX|..]).GetOr(0)
  }

  function Clip(detail: string): (r: string)
    ensures |r| <= DETAIL_MAX_CHARS
    ensures |detail| <= DETAIL_MAX_CHARS ==> r == detail
    ensures |detail| > 256 ==> |r| == 256 && r[..253] == detail[..253] && r[253..] == "..."
  {
    if |detail| > DETAIL_MAX_CHARS then detail[..DETAIL_MAX_CHARS - 3] + "..." else detail
  }

  /** A history seen through a window of `max` rows: all of it while it fits, otherwise a marker with the number of
      steps lost followed by the last `max - 1` steps. */
  function View(history: seq<Step>, max: nat): (v: seq<Step>)
    ensures |v| <= max
  {
    if max == 0 then []
    else if |history| <= max then history
    else
      var lost := |history| - (max - 1);
      [Sentinel(lost)] + history[lost..]
  }

  /** One round of the overflow loop: drop the oldest real step, put the marker right. */
  function DropOldest(working: seq<Step>): seq<Step>
    requires |working| >= 2
  {
    if HasSentinel(working) then
      var shorter := working[..1] + working[2..];
      [Sentinel(DroppedCount(shorter) + 1)] + shorter[1..]
    else [Sentinel(1)] + working[1..]
  }

  /** A round that first introduces the marker leaves the length unchanged, so the measure of the overflow loop also
      counts the missing marker. */
  function Measure(working: seq<Step>): nat {
    |working| + (if HasSentinel(working) then 0 else 1)
  }

  /** The overflow loop as a whole. */
  function Shrink(working: seq<Step>, max: nat): (r: seq<Step>)
    requires max >= 1
    ensures |r| <= max
    decreases Measure(working)
  {
    if |working| <= max then working else Shrink(DropOldest(working), max)
  }

  /** What direct construction keeps of a seed list. */
  function Seeded(seed: seq<Step>, max: nat): seq<Step> {
    if max == 0 then []
    else if |seed| > max then
      var keep := max - 1;
      [Sentinel(|seed| - keep)] + (if keep > 0 then seed[|seed| - keep..] else [])
    else seed
  }

  /** How many steps a list stands for: the ones it shows and the ones its marker says were dropped. */
  function Represented(steps: seq<Step>): int {
    if HasSentinel(steps) then DroppedCount(steps) + |steps| - 1 else |steps|
  }

  class ReasoningTrace {
    const maxSteps: nat
    var steps: seq<Step>
    ghost var history: seq<Step>

    /** The trace is exactly the view of everything recorded. */
    ghost predicate Valid()
      reads this
    {
      SentinelFree(history) && (maxSteps == 0 ==> history == [])
      && steps == View(history, maxSteps)
    }

    constructor (maxSteps: nat, seed: seq<Step>)
      ensures this.maxSteps == maxSteps
      ensures steps == Seeded(seed, maxSteps)
      ensures SentinelFree(seed) ==> Valid() && history == if maxSteps == 0 then [] else seed
    {
      this.maxSteps := maxSteps;
      history := if maxSteps == 0 then [] else seed;
      if maxSteps == 0 {
        steps := [];
      } else if |seed| > maxSteps {
        var keep := maxSteps - 1;
        var kept := if keep > 0 then seed[|seed| - keep..] else [];
        steps := [Sentinel(|seed| - keep)] + kept;
      } else {
        steps := seed;
      }
    }

    /** Records one step.  A rejected stage changes nothing; a disabled trace ignores the call before looking at it. */
    method Add(stage: string, detail: string) returns (r: Option<AddError>)
      modifies this
      ensures r == if maxSteps == 0 then None
                   else if stage == TRUNCATED_STAGE then Some(ReservedStage)
                   else if stage !in STAGES then Some(UnknownStage)
                   else None
      ensures maxSteps == 0 || r.Some? ==> steps == old(steps) && history == old(history)
      ensures maxSteps > 0 && r.None? ==>
                && steps == Shrink(old(steps) + [Step(stage, Clip(detail))], maxSteps)
                && history == old(history) + [Step(stage, Clip(detail))]
      ensures old(Valid()) ==> Valid()
    {
      hide View;
      hide Shrink;
      hide DropOldest;
      hide DroppedCount;
      if maxSteps == 0 { return None; }
      if stage == TRUNCATED_STAGE { return Some(ReservedStage); }
      if stage !in STAGES { return Some(UnknownStage); }
      var newStep := Step(stage, Clip(detail));
      var working := steps + [newStep];
      while |working| > maxSteps
        invariant steps == old(steps) && history == old(history)
        invariant Shrink(working, maxSteps) == Shrink(steps + [newStep], maxSteps)
        decreases Measure(working)
      {
        var hasSentinel := HasSentinel(working);
        var realIdx := if hasSentinel then 1 else 0;
        ghost var before := working;
        ShrinkOnce(before, maxSteps);
        working := working[..realIdx] + working[realIdx + 1..];
        ghost var shorter := working;
        var droppedBefore := DroppedCount(working);
        if hasSentinel {
          working := working[0 := Sentinel(droppedBefore + 1)];
        } else {
          working := [Sentinel(1)] + working;
        }
        RoundDropsOldest(before, shorter, working);
      }
      ShrinkNone(working, maxSteps);
      if old(Valid()) { ViewStep(history, newStep, maxSteps); }
      steps := working;
      history := history + [newStep];
      return None;
    }

    method IsEmpty() returns (empty: bool)
      ensures empty == (steps == [])
      ensures Valid() ==> (empty <==> history == [])
    {
      empty := steps == [];
    }
  }

  // ---- The window moves as the history grows

  lemma CounterReadsBack(n: int, rest: seq<Step>)
    ensures DroppedCount([Sentinel(n)] + rest) == n
  {
    var detail := ([Sentinel(n)] + rest)[0].detail;
    assert detail[|DROPPED_PREFIX|..] == IntText(n);
    ParseIntText(n);
  }

  /** No marker stands for no dropped step, and neither does one that does not read `dropped=` and an integer. */
  lemma MarkerMeaning(text: string, rest: seq<Step>, steps: seq<Step>)
    requires steps == [Step("_truncated", text)] + rest
    ensures DroppedCount(steps) ==
            if |text| < 8 || text[..8] != "dropped=" || ParseInt(text[8..]).None? then 0 else ParseInt(text[8..]).value
    ensures rest == [] || rest[0].stage != "_truncated" ==> DroppedCount(rest) == 0
  {
    hide ParseInt;
    assert steps[0].detail == text;
    assert "dropped=" <= text <==> |text| >= 8 && text[..8] == "dropped=";
  }

  lemma DropBehindMarker(n: int, rest: seq<Step>)
    requires rest != []
    ensures DropOldest([Sentinel(n)] + rest) == [Sentinel(n + 1)] + rest[1..]
  {
    var working := [Sentinel(n)] + rest;
    var shorter := working[..1] + working[2..];
    assert shorter == [Sentinel(n)] + rest[1..];
    CounterReadsBack(n, rest[1..]);
  }

  lemma DropWithoutMarker(first: Step, rest: seq<Step>)
    requires rest != [] && !IsSentinel(first)
    ensures DropOldest([first] + rest) == [Sentinel(1)] + rest
  {
    assert ([first] + rest)[1..] == rest;
  }

  lemma ShrinkOnce(working: seq<Step>, max: nat)
    requires 1 <= max < |working|
    ensures Shrink(working, max) == Shrink(DropOldest(working), max) && Measure(DropOldest(working)) < Measure(working)
  {}

  lemma ShrinkNone(working: seq<Step>, max: nat)
    requires 1 <= max && |working| <= max
    ensures Shrink(working, max) == working
  {}

  /** One round of the loop as the code does it: delete the oldest real step, then rewrite or prepend the marker. */
  lemma RoundDropsOldest(before: seq<Step>, shorter: seq<Step>, after: seq<Step>)
    requires |before| >= 2
    requires shorter == if HasSentinel(before) then before[..1] + before[2..] else before[..0] + before[1..]
    requires after == if HasSentinel(before) then shorter[0 := Sentinel(DroppedCount(shorter) + 1)]
                      else [Sentinel(1)] + shorter
    ensures after == DropOldest(before)
  {
    hide DroppedCount;
    hide Sentinel;
    if HasSentinel(before) {
      assert after == [Sentinel(DroppedCount(shorter) + 1)] + shorter[1..];
    } else {
      assert shorter == before[1..];
    }
  }

  /** A full window without a marker loses its two oldest steps to make room. */
  lemma FirstOverflow(first: Step, rest: seq<Step>)
    requires rest != [] && !IsSentinel(first)
    ensures Shrink([first] + rest, |rest|) == [Sentinel(2)] + rest[1..]
  {
    hide *;
    DropWithoutMarker(first, rest);
    DropBehindMarker(1, rest);
    ShrinkOnce([first] + rest, |rest|);
    ShrinkOnce([Sentinel(1)] + rest, |rest|);
    ShrinkNone([Sentinel(2)] + rest[1..], |rest|);
  }

  lemma ViewFits(history: seq<Step>, max: nat)
    requires |history| <= max
    ensures View(history, max) == history
  {}

  lemma ViewLost(history: seq<Step>, max: nat, lost: nat)
    requires 1 <= max < |history| && lost == |history| - (max - 1)
    ensures View(history, max) == [Sentinel(lost)] + history[lost..]
  {
    hide Sentinel;
  }

  lemma ViewFirstOverflow(history: seq<Step>, step: Step, max: nat)
    requires |history| == max >= 1 && SentinelFree(history)
    ensures Shrink(history + [step], max) == View(history + [step], max)
  {
    var longer := history + [step];
    assert history[0] in history && longer == [longer[0]] + longer[1..];
    hide Shrink;
    hide View;
    FirstOverflow(longer[0], longer[1..]);
    assert longer[1..][1..] == longer[2..];
    ViewLost(longer, max, 2);
  }

  lemma ViewLaterOverflow(history: seq<Step>, step: Step, max: nat)
    requires |history| > max >= 1
    ensures Shrink(View(history, max) + [step], max) == View(history + [step], max)
  {
    hide *;
    var longer, lost := history + [step], |history| - (max - 1);
    ViewLost(history, max, lost);
    ViewLost(longer, max, lost + 1);
    assert View(history, max) + [step] == [Sentinel(lost)] + longer[lost..];
    DropBehindMarker(lost, longer[lost..]);
    assert longer[lost..][1..] == longer[lost + 1..];
    ShrinkOnce(View(history, max) + [step], max);
    ShrinkNone(View(longer, max), max);
  }

  /** Adding a step to a view gives the view of the longer history. */
  lemma ViewStep(history: seq<Step>, step: Step, max: nat)
    requires max >= 1 && SentinelFree(history)
    ensures Shrink(View(history, max) + [step], max) == View(history + [step], max)
  {
    hide *;
    if |history| < max {
      ViewFits(history, max);
      ViewFits(history + [step], max);
      ShrinkNone(history + [step], max);
    } else if |history| == max {
      ViewFits(history, max);
      ViewFirstOverflow(history, step, max);
    } else {
      ViewLaterOverflow(history, step, max);
    }
  }

  /** Recording a list of steps one by one. */
  function AddAll(start: seq<Step>, added: seq<Step>, max: nat): seq<Step>
    requires max >= 1
  {
    if added == [] then start
    else Shrink(AddAll(start, added[..|added| - 1], max) + [added[|added| - 1]], max)
  }

  lemma SeededIsView(recorded: seq<Step>, max: nat)
    requires max >= 1
    ensures Seeded(recorded, max) == View(recorded, max)
  {}

  /** The window itself: everything while it fits, otherwise a marker that says how many steps are not shown, and the
      last ones. */
  lemma WindowShows(recorded: seq<Step>, max: nat)
    requires max >= 1
    ensures |recorded| <= max ==> View(recorded, max) == recorded
    ensures |recorded| > max ==>
              var lost := |recorded| - (max - 1);
              View(recorded, max) == [Step("_truncated", "dropped=" + IntText(lost))] + recorded[lost..]
  {
    hide IntText;
  }

  /** Whatever was recorded, in whatever number, the trace shows the window on it; building the trace directly from the
      same list gives the same state. */
  lemma {:induction false} TraceIsWindow(recorded: seq<Step>, max: nat)
    requires max >= 1 && SentinelFree(recorded)
    ensures AddAll([], recorded, max) == View(recorded, max) == Seeded(recorded, max)
  {
    hide View;
    hide Shrink;
    hide Seeded;
    SeededIsView(recorded, max);
    if recorded == [] {
      ViewFits(recorded, max);
    } else {
      var init, last := recorded[..|recorded| - 1], recorded[|recorded| - 1];
      TraceIsWindow(init, max);
      ViewStep(init, last, max);
      assert recorded == init + [last];
    }
  }

  // ---- Nothing is lost from the count

  lemma {:induction false} ShrinkKeepsCount(working: seq<Step>, max: nat)
    requires max >= 1
    ensures Represented(Shrink(working, max)) == Represented(working)
    decreases Measure(working)
  {
    if |working| > max {
      var next := DropOldest(working);
      if HasSentinel(working) {
        CounterReadsBack(DroppedCount(working) + 1, working[2..]);
      } else {
        CounterReadsBack(1, working[1..]);
      }
      ShrinkKeepsCount(next, max);
    }
  }

  /** One more step recorded is one more step represented, also for a trace that was seeded with a marker of its own. */
  lemma AddCountsOne(steps: seq<Step>, step: Step, max: nat)
    requires max >= 1 && !IsSentinel(step)
    ensures Represented(Shrink(steps + [step], max)) == Represented(steps) + 1
  {
    ShrinkKeepsCount(steps + [step], max);
    if HasSentinel(steps) { assert (steps + [step])[0] == steps[0]; }
  }

  /** Direct construction, unlike `add`, forgets the counter of a marker in its seed: the count survives exactly when
      the seed fits, carries no marker, or carries one that stands for a single step. */
  lemma SeedKeepsCount(seed: seq<Step>, max: nat)
    requires max >= 1
    ensures Represented(Seeded(seed, max)) == Represented(seed)
            <==> |seed| <= max || !HasSentinel(seed) || DroppedCount(seed) == 1
  {
    if |seed| > max {
      var keep := max - 1;
      var kept := if keep > 0 then seed[|seed| - keep..] else [];
      assert Seeded(seed, max) == [Sentinel(|seed| - keep)] + kept;
      CounterReadsBack(|seed| - keep, kept);
      assert Represented([Sentinel(|seed| - keep)] + kept) == |seed|;
    }
  }

  /** A seed whose marker stands for five steps, cut again: the new marker says two. */
  lemma SeedForgetsWitness(step: Step)
    requires !IsSentinel(step)
    ensures var seed := [Sentinel(5), step, step];
            Represented(seed) == 7 && Seeded(seed, 2) == [Sentinel(2), step] && Represented(Seeded(seed, 2)) == 3
  {
    var seed := [Sentinel(5), step, step];
    CounterReadsBack(5, [step, step]);
    assert seed == [Sentinel(5)] + [step, step];
    CounterReadsBack(2, [step]);
    assert [Sentinel(2), step] == [Sentinel(2)] + [step];
    assert seed[|seed| - 1..] == [step];
  }
}
