/** The `key=value` hint: printed from the hard entities of a query (packages/semantic-search/semantic_search/app.py)
    and read back by the filter bridge (packages/semantic-search/semantic_search/analytics/filter_bridge.py). */
module SqlHint {
  import opened Common
  import opened Text
  import opened OrderedDict
  import StableSort

  const HINT_MAX_CHARS := 300
  const EXCLUDED_NAMES := {"time_remaining_max"}
  const GROUP_BY := "group_by"

  /** An entity value after `str()`; lists keep the text of each element. */
  datatype Value = Absent | Scalar(text: string) | Many(texts: seq<string>)

  datatype Entity = Entity(name: string, value: Value, hard: bool)

  function JoinComma(ts: seq<string>): string {
    if ts == [] then [] else if |ts| == 1 then ts[0] else ts[0] + "," + JoinComma(ts[1..])
  }

  function ValueText(v: Value): string {
    match v
    case Absent => ""
    case Scalar(t) => t
    case Many(ts) => JoinComma(ts)
  }

  /** Entities that go into the hint: hard, with a value, naming a supported filter that is not on the exclude list. */
  predicate InHint(filterNames: set<string>, e: Entity) {
    e.name != "" && !e.value.Absent? && e.hard && e.name in filterNames && e.name !in EXCLUDED_NAMES
  }

  function PrintPair(p: (string, string)): string {
    p.0 + "=" + p.1
  }

  function Flatten(slices: seq<seq<Entity>>): seq<Entity> {
    if slices == [] then [] else Flatten(slices[..|slices| - 1]) + slices[|slices| - 1]
  }

  /** The pairs the hint states, in order. */
  function HintPairs(filterNames: set<string>, slices: seq<seq<Entity>>, groupBy: seq<string>): seq<(string, string)> {
    EntityPairs(filterNames, Flatten(slices)) + (if groupBy == [] then [] else [(GROUP_BY, JoinComma(groupBy))])
  }

  function EntityPairs(filterNames: set<string>, entities: seq<Entity>): seq<(string, string)> {
    MapSeq((e: Entity) => (e.name, ValueText(e.value)), StableSort.Filter(e => InHint(filterNames, e), entities))
  }

  function Cut(hint: string): string {
    if |hint| > HINT_MAX_CHARS then hint[..HINT_MAX_CHARS] else hint
  }

  /** Prints the hint of a query; no intent, no hint.  The grouping columns are those the query text asks for. */
  method BuildSqlHint(filterNames: set<string>, intent: Option<seq<seq<Entity>>>, groupBy: seq<string>)
    returns (hint: string)
    ensures intent.None? ==> hint == ""
    ensures intent.Some? ==> var full := Join(MapSeq(PrintPair, HintPairs(filterNames, intent.value, groupBy)));
                             hint == if |full| <= 300 then full else full[..300]
    ensures intent.Some? ==> hint == Cut(Join(MapSeq(PrintPair, HintPairs(filterNames, intent.value, groupBy))))
  {
    if intent.None? { return ""; }
    var slices := intent.value;
    var parts: seq<string> := [];
    for i := 0 to |slices|
      invariant parts == MapSeq(PrintPair, EntityPairs(filterNames, Flatten(slices[..i])))
    {
      assert Flatten(slices[..i]) + slices[i][..0] == Flatten(slices[..i]);
      for j := 0 to |slices[i]|
        invariant parts == MapSeq(PrintPair, EntityPairs(filterNames, Flatten(slices[..i]) + slices[i][..j]))
      {
        var ent := slices[i][j];
        PairsAppend(filterNames, Flatten(slices[..i]) + slices[i][..j], ent);
        assert Flatten(slices[..i]) + slices[i][..j + 1] == Flatten(slices[..i]) + slices[i][..j] + [ent];
        if ent.name == "" || ent.value.Absent? || !ent.hard { continue; }
        if ent.name !in filterNames { continue; }
        if ent.name in EXCLUDED_NAMES { continue; }
        parts := parts + [ent.name + "=" + ValueText(ent.value)];
      }
      assert slices[..i + 1][..i] == slices[..i];
      assert slices[i][..|slices[i]|] == slices[i];
    }
    assert slices[..|slices|] == slices;
    if groupBy != [] {
      parts := parts + [GROUP_BY + "=" + JoinComma(groupBy)];
    }
    assert parts == MapSeq(PrintPair, HintPairs(filterNames, slices, groupBy));
    hint := Join(parts);
    if |hint| > HINT_MAX_CHARS { hint := hint[..HINT_MAX_CHARS]; }
  }

  lemma PairsAppend(filterNames: set<string>, entities: seq<Entity>, e: Entity)
    ensures MapSeq(PrintPair, EntityPairs(filterNames, entities + [e])) ==
            MapSeq(PrintPair, EntityPairs(filterNames, entities))
            + (if InHint(filterNames, e) then [PrintPair((e.name, ValueText(e.value)))] else [])
  {
    StableSort.FilterAppend(x => InHint(filterNames, x), entities, [e]);
  }

  /** The dictionary read off a list of tokens; tokens without an equals sign are skipped. */
  function PairsOf(tokens: seq<string>): seq<(string, string)> {
    if tokens == [] then []
    else
      var before := PairsOf(tokens[..|tokens| - 1]);
      match PairOf(tokens[|tokens| - 1])
      case Some(p) => Put(before, p.0, p.1)
      case None => before
  }

  /** Reads a hint back into a dictionary. */
  method ParseHint(hint: string) returns (pairs: seq<(string, string)>)
    ensures pairs == PairsOf(Split(hint)) && UniqueKeys(pairs)
  {
    pairs := [];
    var tokens := Split(hint);
    for i := 0 to |tokens|
      invariant pairs == PairsOf(tokens[..i]) && UniqueKeys(pairs)
    {
      assert tokens[..i + 1][..i] == tokens[..i];
      match PairOf(tokens[i]) {
        case Some(p) =>
          PutUnique(pairs, p.0, p.1);
          pairs := Put(pairs, p.0, p.1);
        case None =>
      }
    }
    assert tokens[..|tokens|] == tokens;
  }

  // ---- What is printed

  /** The names and values of the hint: one pair for every hard entity with a name and a value that names a supported
      filter other than the remaining time, its texts joined by commas, and one for the grouping columns, if any. */
  lemma HintPairsMeaning(filterNames: set<string>, slices: seq<seq<Entity>>, groupBy: seq<string>, p: (string, string))
    ensures p in HintPairs(filterNames, slices, groupBy) <==>
            || (exists s, e ::
                  && s in slices && e in s && e.hard && e.name != "" && e.name in filterNames
                  && e.name != "time_remaining_max" && e.name == p.0
                  && (e.value == Scalar(p.1) || (e.value.Many? && p.1 == JoinComma(e.value.texts))))
            || (groupBy != [] && p == ("group_by", JoinComma(groupBy)))
  {
    var entities := Flatten(slices);
    var kept := StableSort.Filter(e => InHint(filterNames, e), entities);
    var pairs := EntityPairs(filterNames, entities);
    StableSort.FilterMembers(e => InHint(filterNames, e), entities);
    if p in pairs {
      var i :| 0 <= i < |pairs| && pairs[i] == p;
      assert kept[i] in kept;
      FlattenMember(slices, kept[i]);
    }
    if s, e :| s in slices && e in s && InHint(filterNames, e) && p == (e.name, ValueText(e.value)) {
      FlattenMember(slices, e);
      var i :| 0 <= i < |kept| && kept[i] == e;
      assert pairs[i] == p;
    }
  }

  lemma {:induction false} FlattenMember(slices: seq<seq<Entity>>, e: Entity)
    ensures e in Flatten(slices) <==> exists s :: s in slices && e in s
  {
    if slices != [] {
      var init, last := slices[..|slices| - 1], slices[|slices| - 1];
      assert slices == init + [last];
      FlattenMember(init, e);
    }
  }

  /** They are printed in the order of the entities. */
  lemma {:induction false} PairsFollowEntities(filterNames: set<string>, a: seq<Entity>, b: seq<Entity>)
    ensures EntityPairs(filterNames, a + b) == EntityPairs(filterNames, a) + EntityPairs(filterNames, b)
  {
    StableSort.FilterAppend(e => InHint(filterNames, e), a, b);
  }

  // ---- Printing, then reading

  /** Pairs the format can carry: no white space anywhere, no equals sign in the name, no empty name. */
  predicate Printable(p: (string, string)) {
    Nameable(p.0) && NoSpace(p.1)
  }

  predicate Nameable(name: string) {
    IsToken(name) && NoEquals(name)
  }

  lemma PrintedIsToken(p: (string, string))
    requires Printable(p)
    ensures IsToken(PrintPair(p)) && PairOf(PrintPair(p)) == Some(p)
  {
    PairOfToken(p.0, p.1);
  }

  lemma {:induction false} ReadPrinted(pairs: seq<(string, string)>)
    requires forall p | p in pairs :: Printable(p)
    ensures PairsOf(MapSeq(PrintPair, pairs)) == PutAll(pairs)
  {
    if pairs != [] {
      var init, last := pairs[..|pairs| - 1], pairs[|pairs| - 1];
      var tokens := MapSeq(PrintPair, pairs);
      ReadPrinted(init);
      assert tokens[..|tokens| - 1] == MapSeq(PrintPair, init);
      assert last in pairs;
      PrintedIsToken(last);
    }
  }

  /** Names and values read off tokens hold no white space, names no equals sign, and each name occurs once. */
  lemma {:induction false} ReadNames(tokens: seq<string>)
    requires forall t | t in tokens :: IsToken(t)
    ensures UniqueKeys(PairsOf(tokens))
    ensures forall p | p in PairsOf(tokens) :: NoSpace(p.0) && NoEquals(p.0) && NoSpace(p.1)
  {
    if tokens != [] {
      var init, last := tokens[..|tokens| - 1], tokens[|tokens| - 1];
      assert last in tokens;
      ReadNames(init);
      if PairOf(last).Some? {
        var p := PairOf(last).value;
        StripNoSpace(last[..FindEquals(last)]);
        StripNoSpace(last[FindEquals(last) + 1..]);
        PutUnique(PairsOf(init), p.0, p.1);
        PutMembers(PairsOf(init), p.0, p.1);
      }
    }
  }

  /** A hint that fits is read back as the dictionary of its pairs: every name once, with the value printed last. */
  lemma ShortHintRoundTrip(pairs: seq<(string, string)>, name: string)
    requires forall p | p in pairs :: Printable(p)
    requires |Join(MapSeq(PrintPair, pairs))| <= HINT_MAX_CHARS
    ensures var read := PairsOf(Split(Cut(Join(MapSeq(PrintPair, pairs)))));
            UniqueKeys(read) && read == PutAll(pairs) && Lookup(read, name) == LastValue(pairs, name)
  {
    PrintedTokens(pairs);
    SplitJoin(MapSeq(PrintPair, pairs));
    ReadPrinted(pairs);
    LastAssignmentWins(pairs, name);
  }

  /** Among hints that fit and name each filter once, exactly the printable ones survive: a value with white space in it
      is never read back. */
  lemma ShortHintRoundTripIff(pairs: seq<(string, string)>)
    requires UniqueKeys(pairs) && forall p | p in pairs :: p.0 != ""
    requires |Join(MapSeq(PrintPair, pairs))| <= HINT_MAX_CHARS
    ensures PairsOf(Split(Cut(Join(MapSeq(PrintPair, pairs))))) == pairs <==> forall p | p in pairs :: Printable(p)
  {
    var text := Cut(Join(MapSeq(PrintPair, pairs)));
    SplitTokens(text);
    ReadNames(Split(text));
    if forall p | p in pairs :: Printable(p) {
      ShortHintRoundTrip(pairs, "");
      PutAllUnique(pairs);
    }
  }

  lemma PrintedTokens(pairs: seq<(string, string)>)
    requires forall p | p in pairs :: Printable(p)
    ensures forall t | t in MapSeq(PrintPair, pairs) :: IsToken(t)
  {
    var tokens := MapSeq(PrintPair, pairs);
    forall t | t in tokens ensures IsToken(t) {
      var i :| 0 <= i < |tokens| && tokens[i] == t;
      assert pairs[i] in pairs;
      PrintedIsToken(pairs[i]);
    }
  }

  /** A hint that is cut keeps, in order, every token that fits whole; only the last token read back can be a
      fragment. */
  lemma LongHintKeepsTokens(pairs: seq<(string, string)>, k: nat)
    requires forall p | p in pairs :: Printable(p)
    requires |Join(MapSeq(PrintPair, pairs))| > HINT_MAX_CHARS
    requires k <= |pairs| && |Join(MapSeq(PrintPair, pairs)[..k])| <= HINT_MAX_CHARS
    ensures var tokens := MapSeq(PrintPair, pairs);
            var read := Split(Cut(Join(tokens)));
            && tokens[..k] <= read && |read| <= |tokens|
            && (forall i | 0 <= i < |read| - 1 :: read[i] == tokens[i])
            && (read != [] ==> read[|read| - 1] != [] && read[|read| - 1] <= tokens[|read| - 1])
  {
    var tokens := MapSeq(PrintPair, pairs);
    PrintedTokens(pairs);
    SplitCut(tokens, HINT_MAX_CHARS);
    CutKeepsPrefix(tokens, HINT_MAX_CHARS);
    CutKeepsWhatFits(tokens, HINT_MAX_CHARS, k);
  }
}
