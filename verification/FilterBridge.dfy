/** From a hint dictionary to typed filters (packages/semantic-search/semantic_search/analytics/filter_bridge.py), and
    what those filters accept. */
module FilterBridge {
  import opened Common
  import opened Text
  import opened OrderedDict
  import SqlHint
  import StableSort

  /** `columnOf` below is the attribute table of the domain configuration; attributes that are unset are missing. */
  datatype BridgeConfig = BridgeConfig(enabled: bool, slotToAttr: map<string, string>, minSuffix: string,
                                       maxSuffix: string)
  {
    predicate Valid() {
      minSuffix != "" && maxSuffix != ""
    }

    /** Neither suffix ends with the other. */
    predicate SuffixesApart() {
      !EndsWith(minSuffix, maxSuffix) && !EndsWith(maxSuffix, minSuffix)
    }
  }

  datatype Filter = Range(column: string, lo: Option<real>, hi: Option<real>) | In(column: string, values: seq<string>)

  datatype BridgeError = BadColumn | InvertedRange | UnsafeValue

  predicate EndsWith(s: string, suffix: string) {
    |suffix| <= |s| && s[|s| - |suffix|..] == suffix
  }

  function Base(slot: string, suffix: string): string
    requires EndsWith(slot, suffix)
  {
    slot[..|slot| - |suffix|]
  }

  datatype Kind = Lower(base: string) | Upper(base: string) | Plain

  function KindOf(cfg: BridgeConfig, slot: string): Kind {
    if EndsWith(slot, cfg.minSuffix) then Lower(Base(slot, cfg.minSuffix))
    else if EndsWith(slot, cfg.maxSuffix) then Upper(Base(slot, cfg.maxSuffix))
    else Plain
  }

  /** The attribute a slot maps to, the base name taking precedence; an empty name counts as unmapped for the base. */
  function AttrOf(cfg: BridgeConfig, base: string, slot: string): Option<string> {
    if base in cfg.slotToAttr && cfg.slotToAttr[base] != "" then Some(cfg.slotToAttr[base])
    else if slot in cfg.slotToAttr then Some(cfg.slotToAttr[slot])
    else None
  }

  function ColumnOf(columns: map<string, string>, attr: Option<string>): Option<string> {
    if attr.Some? && attr.value in columns then Some(columns[attr.value]) else None
  }

  function LowerColumn(cfg: BridgeConfig, columns: map<string, string>, base: string): Option<string> {
    ColumnOf(columns, AttrOf(cfg, base, base + cfg.minSuffix))
  }

  function UpperColumn(cfg: BridgeConfig, columns: map<string, string>, base: string): Option<string> {
    ColumnOf(columns, AttrOf(cfg, base, base + cfg.maxSuffix))
  }

  function PlainColumn(cfg: BridgeConfig, columns: map<string, string>, slot: string): Option<string> {
    ColumnOf(columns, if slot in cfg.slotToAttr then Some(cfg.slotToAttr[slot]) else None)
  }

  /** A pattern that ends in `$` also matches before a final line feed. */
  function Unterminated(s: string): string {
    if s != "" && s[|s| - 1] == '\n' then s[..|s| - 1] else s
  }

  predicate IdentStart(c: char) {
    'a' <= c <= 'z' || 'A' <= c <= 'Z' || c == '_'
  }

  /** A plain SQL identifier; the pattern also lets one final line feed through. */
  predicate ValidIdentifier(s: string) {
    var t := Unterminated(s);
    t != "" && IdentStart(t[0]) && forall i | 0 <= i < |t| :: IdentStart(t[i]) || IsDigit(t[i]) || t[i] == '.'
  }

  predicate SafeChar(c: char) {
    'a' <= c <= 'z' || 'A' <= c <= 'Z' || IsDigit(c) || c == ' ' || c == '_' || c == '-' || c == '.' || c == ':'
    || c == '/' || c == '@'
  }

  predicate SafeValue(s: string) {
    var t := Unterminated(s);
    t != "" && forall i | 0 <= i < |t| :: SafeChar(t[i])
  }

  /** The validation every range filter undergoes when it is made. */
  function MakeRange(column: string, lo: Option<real>, hi: Option<real>): Result<Filter, BridgeError> {
    if !ValidIdentifier(column) then Err(BadColumn)
    else if lo.Some? && hi.Some? && lo.value > hi.value then Err(InvertedRange)
    else Ok(Range(column, lo, hi))
  }

  function MakeIn(column: string, values: seq<string>): Result<Filter, BridgeError> {
    if !ValidIdentifier(column) then Err(BadColumn)
    else if exists v | v in values :: !SafeValue(v) then Err(UnsafeValue)
    else Ok(In(column, values))
  }

  /** `v.split(',')`. */
  function SplitComma(s: string): seq<string> {
    if s == [] then [[]]
    else
      var rest := SplitComma(s[1..]);
      if s[0] == ',' then [[]] + rest
      else if rest == [] then [[s[0]]]
      else [[s[0]] + rest[0]] + rest[1..]
  }

  /** The stripped, non-empty members of a comma-separated value. */
  function Members(value: string): seq<string> {
    StableSort.Filter(v => v != "", MapSeq(Strip, SplitComma(value)))
  }

  function NumberAt(num: string -> Option<real>, d: seq<(string, string)>, slot: string): Option<real> {
    match Lookup(d, slot)
    case Some(v) => num(v)
    case None => None
  }

  /** What one slot of the dictionary turns into: nothing, a filter, or the error its construction raises. */
  function Emit(cfg: BridgeConfig, columns: map<string, string>, num: string -> Option<real>,
                d: seq<(string, string)>, p: (string, string)): Option<Result<Filter, BridgeError>>
  {
    match KindOf(cfg, p.0)
    case Lower(base) =>
      var col := LowerColumn(cfg, columns, base);
      var lo, hi := num(p.1), NumberAt(num, d, base + cfg.maxSuffix);
      if col.None? || (lo.None? && hi.None?) then None else Some(MakeRange(col.value, lo, hi))
    case Upper(base) =>
      var col := UpperColumn(cfg, columns, base);
      if Lookup(d, base + cfg.minSuffix).Some? || col.None? || num(p.1).None? then None
      else Some(MakeRange(col.value, None, num(p.1)))
    case Plain =>
      var col := PlainColumn(cfg, columns, p.0);
      if col.None? || Members(p.1) == [] then None else Some(MakeIn(col.value, Members(p.1)))
  }

  /** The filters of the first `n` slots, or the first error among them. */
  function EmitFirst(cfg: BridgeConfig, columns: map<string, string>, num: string -> Option<real>,
                     d: seq<(string, string)>, n: nat): Result<seq<Filter>, BridgeError>
    requires n <= |d|
  {
    if n == 0 then Ok([]) else Combine(EmitFirst(cfg, columns, num, d, n - 1), Emit(cfg, columns, num, d, d[n - 1]))
  }

  function Combine(before: Result<seq<Filter>, BridgeError>,
                   next: Option<Result<Filter, BridgeError>>): Result<seq<Filter>, BridgeError>
  {
    if before.Err? || next.None? then before
    else if next.value.Err? then Err(next.value.error)
    else Ok(before.value + [next.value.value])
  }

  lemma {:induction false} ErrorStays(cfg: BridgeConfig, columns: map<string, string>, num: string -> Option<real>,
                                      d: seq<(string, string)>, n: nat, m: nat)
    requires n <= m <= |d| && EmitFirst(cfg, columns, num, d, n).Err?
    ensures EmitFirst(cfg, columns, num, d, m) == EmitFirst(cfg, columns, num, d, n)
    decreases m
  {
    if n < m { ErrorStays(cfg, columns, num, d, n, m - 1); }
  }

  lemma KindOfLower(cfg: BridgeConfig, base: string)
    ensures KindOf(cfg, base + cfg.minSuffix) == Lower(base)
  {
    var slot := base + cfg.minSuffix;
    assert slot[|slot| - |cfg.minSuffix|..] == cfg.minSuffix;
    assert slot[..|slot| - |cfg.minSuffix|] == base;
  }

  lemma SlotOfKind(cfg: BridgeConfig, slot: string)
    ensures KindOf(cfg, slot).Lower? ==> slot == KindOf(cfg, slot).base + cfg.minSuffix
    ensures KindOf(cfg, slot).Upper? ==> slot == KindOf(cfg, slot).base + cfg.maxSuffix
  {}

  /** The upper-bound slot of `base` also reads as a lower-bound slot (of some other base, as a rule), and is taken for
      one. */
  predicate Ambiguous(cfg: BridgeConfig, base: string) {
    EndsWith(base + cfg.maxSuffix, cfg.minSuffix)
  }

  lemma KindOfUpper(cfg: BridgeConfig, base: string)
    requires !Ambiguous(cfg, base)
    ensures KindOf(cfg, base + cfg.maxSuffix) == Upper(base)
  {
    var slot := base + cfg.maxSuffix;
    assert slot[|slot| - |cfg.maxSuffix|..] == cfg.maxSuffix;
    assert slot[..|slot| - |cfg.maxSuffix|] == base;
  }

  /** With separate suffixes no slot is ambiguous. */
  lemma ApartIsUnambiguous(cfg: BridgeConfig, base: string)
    requires cfg.SuffixesApart()
    ensures !Ambiguous(cfg, base)
  {
    var slot := base + cfg.maxSuffix;
    assert slot[|slot| - |cfg.maxSuffix|..] == cfg.maxSuffix;
    if EndsWith(slot, cfg.minSuffix) { SuffixesNest(slot, cfg.minSuffix, cfg.maxSuffix); }
  }

  /** Of two suffixes of one string, one is a suffix of the other. */
  lemma SuffixesNest(s: string, a: string, b: string)
    requires EndsWith(s, a) && EndsWith(s, b)
    ensures EndsWith(a, b) || EndsWith(b, a)
  {
    if |a| <= |b| {
      assert b[|b| - |a|..] == s[|s| - |a|..];
    } else {
      assert a[|a| - |b|..] == s[|s| - |b|..];
    }
  }

  /** The slots a filter marks as dealt with. */
  function Consumes(cfg: BridgeConfig, slot: string): set<string> {
    match KindOf(cfg, slot)
    case Lower(base) => {slot, base + cfg.maxSuffix}
    case _ => {slot}
  }

  /** The walk over the dictionary from slot `i` on, with the slots already dealt with and the filters already made. */
  function Walk(cfg: BridgeConfig, columns: map<string, string>, num: string -> Option<real>, d: seq<(string, string)>,
                i: nat, consumed: set<string>, made: seq<Filter>): Result<seq<Filter>, BridgeError>
    requires i <= |d|
    decreases |d| - i
  {
    if i == |d| then Ok(made)
    else if d[i].0 in consumed then Walk(cfg, columns, num, d, i + 1, consumed, made)
    else
      match Emit(cfg, columns, num, d, d[i])
      case None => Walk(cfg, columns, num, d, i + 1, consumed, made)
      case Some(Ok(f)) => Walk(cfg, columns, num, d, i + 1, consumed + Consumes(cfg, d[i].0), made + [f])
      case Some(Err(e)) => Err(e)
  }

  /** The body of the walk for one slot that is not dealt with yet. */
  method SlotFilter(cfg: BridgeConfig, columns: map<string, string>, num: string -> Option<real>,
                    pairs: seq<(string, string)>, slot: string, value: string)
    returns (f: Option<Result<Filter, BridgeError>>, done: set<string>)
    requires cfg.Valid()
    ensures f == Emit(cfg, columns, num, pairs, (slot, value)) && done == Consumes(cfg, slot)
  {
    done := {slot};
    if EndsWith(slot, cfg.minSuffix) {
      var base := Base(slot, cfg.minSuffix);
      assert base + cfg.minSuffix == slot;
      var maxSlot := base + cfg.maxSuffix;
      done := {slot, maxSlot};
      var col := ColumnOf(columns, AttrOf(cfg, base, slot));
      if col.None? { return None, done; }
      var minVal, maxVal := num(value), NumberAt(num, pairs, maxSlot);
      if minVal.None? && maxVal.None? { return None, done; }
      f := Some(MakeRange(col.value, minVal, maxVal));
    } else if EndsWith(slot, cfg.maxSuffix) {
      var base := Base(slot, cfg.maxSuffix);
      assert base + cfg.maxSuffix == slot;
      var minSlot := base + cfg.minSuffix;
      if Lookup(pairs, minSlot).Some? { return None, done; }
      var col := ColumnOf(columns, AttrOf(cfg, base, slot));
      if col.None? { return None, done; }
      var maxVal := num(value);
      if maxVal.None? { return None, done; }
      f := Some(MakeRange(col.value, None, maxVal));
    } else {
      var col := PlainColumn(cfg, columns, slot);
      if col.None? { return None, done; }
      var values := Members(value);
      if values == [] { return None, done; }
      f := Some(MakeIn(col.value, values));
    }
  }

  /** Parses the hint and walks over its slots. */
  method SqlHintToFilters(hint: string, cfg: BridgeConfig, columns: map<string, string>, num: string -> Option<real>)
    returns (r: Result<seq<Filter>, BridgeError>)
    requires cfg.Valid()
    ensures !cfg.enabled ==> r == Ok([])
    ensures cfg.enabled ==> r == Walk(cfg, columns, num, SqlHint.PairsOf(Split(hint)), 0, {}, [])
  {
    if !cfg.enabled || hint == "" {
      return Ok([]);
    }
    var pairs := SqlHint.ParseHint(hint);
    var filters: seq<Filter> := [];
    var consumed: set<string> := {};
    for i := 0 to |pairs|
      invariant Walk(cfg, columns, num, pairs, i, consumed, filters) == Walk(cfg, columns, num, pairs, 0, {}, [])
    {
      if pairs[i].0 in consumed { continue; }
      var f, done := SlotFilter(cfg, columns, num, pairs, pairs[i].0, pairs[i].1);
      if f.None? { continue; }
      if f.value.Err? { return Err(f.value.error); }
      filters := filters + [f.value.value];
      consumed := consumed + done;
    }
    return Ok(filters);
  }

  // ---- One step of the walk

  lemma WalkSkips(cfg: BridgeConfig, columns: map<string, string>, num: string -> Option<real>,
                  d: seq<(string, string)>, i: nat, consumed: set<string>, made: seq<Filter>)
    requires i < |d| && (d[i].0 in consumed || Emit(cfg, columns, num, d, d[i]).None?)
    ensures Walk(cfg, columns, num, d, i, consumed, made) == Walk(cfg, columns, num, d, i + 1, consumed, made)
  {}

  lemma WalkTakes(cfg: BridgeConfig, columns: map<string, string>, num: string -> Option<real>,
                  d: seq<(string, string)>, i: nat, consumed: set<string>, made: seq<Filter>, f: Filter)
    requires i < |d| && d[i].0 !in consumed && Emit(cfg, columns, num, d, d[i]) == Some(Ok(f))
    ensures Walk(cfg, columns, num, d, i, consumed, made) ==
            Walk(cfg, columns, num, d, i + 1, consumed + Consumes(cfg, d[i].0), made + [f])
  {}

  lemma WalkEnds(cfg: BridgeConfig, columns: map<string, string>, num: string -> Option<real>,
                 d: seq<(string, string)>, consumed: set<string>, made: seq<Filter>)
    ensures Walk(cfg, columns, num, d, |d|, consumed, made) == Ok(made)
  {}

  lemma WalkFails(cfg: BridgeConfig, columns: map<string, string>, num: string -> Option<real>,
                  d: seq<(string, string)>, i: nat, consumed: set<string>, made: seq<Filter>)
    requires i < |d| && d[i].0 !in consumed && Fails(cfg, columns, num, d, d[i])
    ensures Walk(cfg, columns, num, d, i, consumed, made) == Err(Emit(cfg, columns, num, d, d[i]).value.error)
  {}

  // ---- When the consumed set is redundant

  /** The lower bound of `base` consumes a slot that would give a filter of its own: the upper bound of `base` reads
      as the lower bound of another base, and both bases are mapped. */
  predicate Swallows(cfg: BridgeConfig, columns: map<string, string>, base: string) {
    && Ambiguous(cfg, base) && cfg.minSuffix != cfg.maxSuffix
    && LowerColumn(cfg, columns, base).Some?
    && LowerColumn(cfg, columns, Base(base + cfg.maxSuffix, cfg.minSuffix)).Some?
  }

  /** ... which is so for no base that the hint bounds on both sides. */
  ghost predicate NothingSwallowed(cfg: BridgeConfig, columns: map<string, string>, d: seq<(string, string)>) {
    forall base | Lookup(d, base + cfg.minSuffix).Some? && Lookup(d, base + cfg.maxSuffix).Some? ::
      !Swallows(cfg, columns, base)
  }

  /** Every consumed slot was handled earlier, does not occur, or gives nothing anyway. */
  ghost predicate Redundant(cfg: BridgeConfig, columns: map<string, string>, num: string -> Option<real>,
                            d: seq<(string, string)>, i: nat, consumed: set<string>)
    requires i <= |d|
  {
    forall s | s in consumed ::
      || (exists j :: 0 <= j < i && d[j].0 == s)
      || Lookup(d, s).None?
      || Emit(cfg, columns, num, d, (s, Lookup(d, s).value)).None?
  }

  /** The upper bound consumed along with a lower one gives nothing, unless it is swallowed. */
  lemma ConsumedGivesNothing(cfg: BridgeConfig, columns: map<string, string>, num: string -> Option<real>,
                             d: seq<(string, string)>, base: string)
    requires Lookup(d, base + cfg.minSuffix).Some? && Lookup(d, base + cfg.maxSuffix).Some?
    requires !Swallows(cfg, columns, base) && LowerColumn(cfg, columns, base).Some? && cfg.minSuffix != cfg.maxSuffix
    ensures Emit(cfg, columns, num, d, (base + cfg.maxSuffix, Lookup(d, base + cfg.maxSuffix).value)).None?
  {
    if Ambiguous(cfg, base) {
      SlotOfKind(cfg, base + cfg.maxSuffix);
    } else {
      KindOfUpper(cfg, base);
    }
  }

  lemma ConsumingIsRedundant(cfg: BridgeConfig, columns: map<string, string>, num: string -> Option<real>,
                             d: seq<(string, string)>, i: nat, consumed: set<string>)
    requires NothingSwallowed(cfg, columns, d) && UniqueKeys(d) && i < |d|
             && Redundant(cfg, columns, num, d, i, consumed)
    ensures Emit(cfg, columns, num, d, d[i]).Some? ==>
              Redundant(cfg, columns, num, d, i + 1, consumed + Consumes(cfg, d[i].0))
    ensures Redundant(cfg, columns, num, d, i + 1, consumed)
  {
    var k := KindOf(cfg, d[i].0);
    LookupUnique(d, d[i]);
    SlotOfKind(cfg, d[i].0);
    if k.Lower? && Emit(cfg, columns, num, d, d[i]).Some? && cfg.minSuffix != cfg.maxSuffix
       && Lookup(d, k.base + cfg.maxSuffix).Some?
    {
      ConsumedGivesNothing(cfg, columns, num, d, k.base);
    }
  }

  lemma {:induction false} WalkEmits(cfg: BridgeConfig, columns: map<string, string>, num: string -> Option<real>,
                                     d: seq<(string, string)>, i: nat, consumed: set<string>, made: seq<Filter>)
    requires NothingSwallowed(cfg, columns, d) && UniqueKeys(d) && i <= |d|
    requires Redundant(cfg, columns, num, d, i, consumed)
    requires EmitFirst(cfg, columns, num, d, i) == Ok(made)
    ensures Walk(cfg, columns, num, d, i, consumed, made) == EmitFirst(cfg, columns, num, d, |d|)
    decreases |d| - i
  {
    hide *;
    if i == |d| {
      WalkEnds(cfg, columns, num, d, consumed, made);
    } else {
      ConsumingIsRedundant(cfg, columns, num, d, i, consumed);
      EmitFirstNext(cfg, columns, num, d, i, made);
      if d[i].0 in consumed { ConsumedIsIdle(cfg, columns, num, d, i, consumed); }
      var e := Emit(cfg, columns, num, d, d[i]);
      if e.None? {
        WalkSkips(cfg, columns, num, d, i, consumed, made);
        WalkEmits(cfg, columns, num, d, i + 1, consumed, made);
      } else if e.value.Ok? {
        WalkTakes(cfg, columns, num, d, i, consumed, made, e.value.value);
        WalkEmits(cfg, columns, num, d, i + 1, consumed + Consumes(cfg, d[i].0), made + [e.value.value]);
      } else {
        WalkFails(cfg, columns, num, d, i, consumed, made);
        ErrorStays(cfg, columns, num, d, i + 1, |d|);
      }
    }
  }

  lemma EmitFirstNext(cfg: BridgeConfig, columns: map<string, string>, num: string -> Option<real>,
                      d: seq<(string, string)>, i: nat, made: seq<Filter>)
    requires i < |d| && EmitFirst(cfg, columns, num, d, i) == Ok(made)
    ensures EmitFirst(cfg, columns, num, d, i + 1) ==
            match Emit(cfg, columns, num, d, d[i])
            case None => Ok(made)
            case Some(Ok(f)) => Ok(made + [f])
            case Some(Err(e)) => Err(e)
    ensures EmitFirst(cfg, columns, num, d, i + 1).Err? <==> Fails(cfg, columns, num, d, d[i])
  {
    hide Emit;
  }

  lemma ConsumedIsIdle(cfg: BridgeConfig, columns: map<string, string>, num: string -> Option<real>,
                       d: seq<(string, string)>, i: nat, consumed: set<string>)
    requires UniqueKeys(d) && i < |d| && Redundant(cfg, columns, num, d, i, consumed) && d[i].0 in consumed
    ensures Emit(cfg, columns, num, d, d[i]).None?
  {
    hide Emit;
    LookupUnique(d, d[i]);
  }

  // ---- What the filters accept

  /** A table row: each column read as a number and as text. */
  datatype Row = Row(number: string -> real, text: string -> string)

  predicate Accepts(f: Filter, row: Row) {
    match f
    case Range(c, lo, hi) => (lo.Some? ==> lo.value <= row.number(c)) && (hi.Some? ==> row.number(c) <= hi.value)
    case In(c, values) => row.text(c) in values
  }

  /** What a slot asks of a row, as the bridge reads the slot; `Demands` below says the same without the bridge. */
  predicate Constraint(cfg: BridgeConfig, columns: map<string, string>, num: string -> Option<real>,
                       p: (string, string), row: Row)
  {
    match KindOf(cfg, p.0)
    case Lower(base) =>
      var col := LowerColumn(cfg, columns, base);
      col.Some? && num(p.1).Some? ==> num(p.1).value <= row.number(col.value)
    case Upper(base) =>
      var col := UpperColumn(cfg, columns, base);
      col.Some? && num(p.1).Some? ==> row.number(col.value) <= num(p.1).value
    case Plain =>
      var col := PlainColumn(cfg, columns, p.0);
      col.Some? && Members(p.1) != [] ==> row.text(col.value) in Members(p.1)
  }

  // ---- Reading a hint without the bridge

  /** The slot is spelled as this base with the suffix. */
  predicate Spelled(slot: string, base: string, suffix: string) {
    slot == base + suffix
  }

  /** The column a slot is mapped to: through the name of its base if that is mapped to something, else through its
      own. */
  ghost predicate MapsTo(cfg: BridgeConfig, columns: map<string, string>, base: string, slot: string, c: string) {
    exists a | a in columns ::
      && columns[a] == c
      && (if base in cfg.slotToAttr && cfg.slotToAttr[base] != "" then a == cfg.slotToAttr[base]
          else slot in cfg.slotToAttr && a == cfg.slotToAttr[slot])
  }

  /** `t` is what is left, stripped and not empty, of the text between two commas or an end of the value. */
  ghost predicate Listed(value: string, t: string) {
    t != "" && exists piece :: HasPiece(value, piece) && Strip(piece) == t
  }

  ghost predicate HasPiece(value: string, piece: string) {
    exists i, j :: Piece(value, i, j) && value[i..j] == piece
  }

  predicate Piece(value: string, i: int, j: int) {
    && 0 <= i <= j <= |value| && (i == 0 || value[i - 1] == ',') && (j == |value| || value[j] == ',')
    && forall k | i <= k < j :: value[k] != ','
  }

  /** What a slot asks of a row: a number spelled with the lower suffix a lower bound, one spelled with the upper suffix
      only an upper bound, anything else one of the listed values.  A slot that is not mapped, or whose value says
      nothing, asks nothing. */
  ghost predicate Demands(cfg: BridgeConfig, columns: map<string, string>, num: string -> Option<real>,
                          p: (string, string), row: Row) {
    var lower, upper := exists b :: Spelled(p.0, b, cfg.minSuffix), exists b :: Spelled(p.0, b, cfg.maxSuffix);
    && (num(p.1).Some? ==>
          && (forall b, c | Spelled(p.0, b, cfg.minSuffix) && MapsTo(cfg, columns, b, p.0, c) ::
                num(p.1).value <= row.number(c))
          && (!lower ==> forall b, c | Spelled(p.0, b, cfg.maxSuffix) && MapsTo(cfg, columns, b, p.0, c) ::
                row.number(c) <= num(p.1).value))
    && (!lower && !upper && (exists t :: Listed(p.1, t)) ==>
          forall c | MapsTo(cfg, columns, p.0, p.0, c) :: Listed(p.1, row.text(c)))
  }

  ghost predicate AllDemands(cfg: BridgeConfig, columns: map<string, string>, num: string -> Option<real>,
                             d: seq<(string, string)>, row: Row) {
    forall p | p in d :: Demands(cfg, columns, num, p, row)
  }

  lemma SpelledIs(slot: string, base: string, suffix: string)
    ensures Spelled(slot, base, suffix) <==> EndsWith(slot, suffix) && base == Base(slot, suffix)
  {
    if Spelled(slot, base, suffix) {
      assert slot[|base|..] == suffix && slot[..|base|] == base;
    }
  }

  lemma MapsToIs(cfg: BridgeConfig, columns: map<string, string>, base: string, slot: string, c: string)
    ensures MapsTo(cfg, columns, base, slot, c) <==> ColumnOf(columns, AttrOf(cfg, base, slot)) == Some(c)
    ensures MapsTo(cfg, columns, slot, slot, c) <==> PlainColumn(cfg, columns, slot) == Some(c)
  {}

  /** A list splits at its first comma. */
  lemma {:induction false} SplitAtComma(t: string, rest: string)
    requires ',' !in t
    ensures SplitComma(t) == [t]
    ensures SplitComma(t + "," + rest) == [t] + SplitComma(rest)
  {
    var s := t + "," + rest;
    if t == [] {
      assert s[1..] == rest;
    } else {
      assert s[1..] == t[1..] + "," + rest && t == [t[0]] + t[1..];
      SplitAtComma(t[1..], rest);
    }
  }

  /** Up to the first comma, or to the end. */
  function CommaFree(s: string): (n: nat)
    ensures n <= |s| && ',' !in s[..n] && (n < |s| ==> s[n] == ',')
  {
    if s == [] || s[0] == ',' then 0
    else
      assert s == [s[0]] + s[1..];
      1 + CommaFree(s[1..])
  }

  lemma PieceAfterComma(s: string, n: nat, i: int, j: int)
    requires n < |s| && s[n] == ',' && ',' !in s[..n]
    ensures i > n ==> (Piece(s, i, j) <==> Piece(s[n + 1..], i - n - 1, j - n - 1))
    ensures i <= n ==> (Piece(s, i, j) <==> i == 0 && j == n)
  {
    forall k | 0 <= k < n ensures s[k] != ',' { assert s[k] in s[..n]; }
    if i > n && 0 <= i <= j <= |s| {
      assert s[i..j] == s[n + 1..][i - n - 1..j - n - 1];
      PieceIs(s, i, j);
      PieceIs(s[n + 1..], i - n - 1, j - n - 1);
    }
  }

  lemma PieceIs(s: string, i: int, j: int)
    requires 0 <= i <= j <= |s|
    ensures Piece(s, i, j) <==> (i == 0 || s[i - 1] == ',') && (j == |s| || s[j] == ',') && ',' !in s[i..j]
  {
    assert forall k | i <= k < j :: s[k] == s[i..j][k - i];
  }

  lemma PieceOfRest(s: string, n: nat, i: int, j: int)
    requires n < |s| && s[n] == ',' && ',' !in s[..n] && Piece(s, i, j)
    ensures s[i..j] == s[..n] || HasPiece(s[n + 1..], s[i..j])
  {
    PieceAfterComma(s, n, i, j);
    if i > n { assert s[n + 1..][i - n - 1..j - n - 1] == s[i..j]; }
  }

  lemma PieceOfWhole(s: string, n: nat, i: int, j: int)
    requires n < |s| && s[n] == ',' && ',' !in s[..n] && Piece(s[n + 1..], i, j)
    ensures HasPiece(s, s[n + 1..][i..j])
  {
    PieceAfterComma(s, n, i + n + 1, j + n + 1);
    assert s[i + n + 1..j + n + 1] == s[n + 1..][i..j];
  }

  lemma PiecesAfterComma(s: string, n: nat, t: string)
    requires n < |s| && s[n] == ',' && ',' !in s[..n]
    ensures HasPiece(s, t) <==> t == s[..n] || HasPiece(s[n + 1..], t)
  {
    if HasPiece(s, t) {
      var i, j :| Piece(s, i, j) && s[i..j] == t;
      PieceOfRest(s, n, i, j);
    }
    if t == s[..n] {
      PieceAfterComma(s, n, 0, n);
      assert s[0..n] == t;
    }
    if HasPiece(s[n + 1..], t) {
      var i, j :| Piece(s[n + 1..], i, j) && s[n + 1..][i..j] == t;
      PieceOfWhole(s, n, i, j);
    }
  }

  lemma OnePiece(s: string, t: string)
    requires ',' !in s
    ensures HasPiece(s, t) <==> t == s
  {
    assert forall k | 0 <= k < |s| :: s[k] in s;
    assert Piece(s, 0, |s|) && s[0..|s|] == s;
  }

  /** The pieces are what the split returns. */
  lemma {:induction false} SplitCommaPieces(s: string, t: string)
    ensures t in SplitComma(s) <==> HasPiece(s, t)
    decreases |s|
  {
    var n := CommaFree(s);
    hide HasPiece;
    hide SplitComma;
    if n == |s| {
      assert s[..n] == s;
      SplitAtComma(s, "");
      OnePiece(s, t);
    } else {
      var rest := s[n + 1..];
      assert s == s[..n] + "," + rest;
      SplitAtComma(s[..n], rest);
      SplitCommaPieces(rest, t);
      PiecesAfterComma(s, n, t);
    }
  }

  lemma MembersAreListed(value: string, t: string)
    ensures t in Members(value) <==> Listed(value, t)
  {
    var pieces := SplitComma(value);
    var stripped := MapSeq(Strip, pieces);
    StableSort.FilterMembers(v => v != "", stripped);
    if t in stripped {
      var k :| 0 <= k < |stripped| && stripped[k] == t;
      assert pieces[k] in pieces;
      SplitCommaPieces(value, pieces[k]);
    }
    if piece :| HasPiece(value, piece) && Strip(piece) == t {
      SplitCommaPieces(value, piece);
      var k :| 0 <= k < |pieces| && pieces[k] == piece;
      assert stripped[k] == t;
    }
  }

  /** A printed list reads back as the values it was printed from. */
  lemma {:induction false} PrintedListReadsBack(ts: seq<string>)
    requires ts != [] && forall t | t in ts :: t != "" && ',' !in t && Strip(t) == t
    ensures Members(SqlHint.JoinComma(ts)) == ts
  {
    var t := ts[0];
    JoinedList(ts);
    hide *;
    if |ts| == 1 {
      SplitAtComma(t, "");
      MembersOf(t);
      assert ts == [t];
    } else {
      var rest := SqlHint.JoinComma(ts[1..]);
      forall x | x in ts[1..] ensures x in ts {}
      PrintedListReadsBack(ts[1..]);
      MembersCons(t, rest);
      assert ts == [t] + ts[1..];
    }
  }

  lemma JoinedList(ts: seq<string>)
    requires ts != []
    ensures SqlHint.JoinComma(ts) == if |ts| == 1 then ts[0] else ts[0] + "," + SqlHint.JoinComma(ts[1..])
  {}

  lemma MembersOf(t: string)
    requires t != "" && ',' !in t && Strip(t) == t
    ensures Members(t) == [t]
  {
    hide Strip;
    SplitAtComma(t, "");
    assert MapSeq(Strip, [t]) == [t];
    StableSort.FilterOne((v: string) => v != "", t);
  }

  lemma MembersCons(t: string, rest: string)
    requires t != "" && ',' !in t && Strip(t) == t
    ensures Members(t + "," + rest) == [t] + Members(rest)
  {
    hide Strip;
    hide SplitComma;
    SplitAtComma(t, rest);
    var pieces := SplitComma(rest);
    assert MapSeq(Strip, [t] + pieces) == [t] + MapSeq(Strip, pieces);
  }

  lemma BoundDemands(cfg: BridgeConfig, columns: map<string, string>, num: string -> Option<real>,
                     p: (string, string), row: Row)
    requires !KindOf(cfg, p.0).Plain?
    ensures Constraint(cfg, columns, num, p, row) <==> Demands(cfg, columns, num, p, row)
  {
    var base, lower := KindOf(cfg, p.0).base, KindOf(cfg, p.0).Lower?;
    var suffix := if lower then cfg.minSuffix else cfg.maxSuffix;
    SlotOfKind(cfg, p.0);
    forall b ensures Spelled(p.0, b, cfg.minSuffix) <==> lower && b == base
             ensures !lower ==> (Spelled(p.0, b, cfg.maxSuffix) <==> b == base)
    {
      SpelledIs(p.0, b, cfg.minSuffix);
      SpelledIs(p.0, b, cfg.maxSuffix);
    }
    var col := ColumnOf(columns, AttrOf(cfg, base, p.0));
    forall c ensures MapsTo(cfg, columns, base, p.0, c) <==> col == Some(c) { MapsToIs(cfg, columns, base, p.0, c); }
    hide MapsTo;
    hide Listed;
    hide ColumnOf;
    hide AttrOf;
    hide Spelled;
    assert Spelled(p.0, base, suffix);
  }

  lemma ListDemands(cfg: BridgeConfig, columns: map<string, string>, num: string -> Option<real>,
                    p: (string, string), row: Row)
    requires KindOf(cfg, p.0).Plain?
    ensures Constraint(cfg, columns, num, p, row) <==> Demands(cfg, columns, num, p, row)
  {
    forall t ensures t in Members(p.1) <==> Listed(p.1, t) { MembersAreListed(p.1, t); }
    assert Members(p.1) != [] ==> Members(p.1)[0] in Members(p.1);
    forall b ensures !Spelled(p.0, b, cfg.minSuffix) && !Spelled(p.0, b, cfg.maxSuffix) {
      SpelledIs(p.0, b, cfg.minSuffix);
      SpelledIs(p.0, b, cfg.maxSuffix);
    }
    forall c ensures MapsTo(cfg, columns, p.0, p.0, c) <==> PlainColumn(cfg, columns, p.0) == Some(c) {
      MapsToIs(cfg, columns, p.0, p.0, c);
    }
    hide MapsTo;
    hide Listed;
    hide Members;
    hide Spelled;
    hide PlainColumn;
  }

  /** The bridge reads every slot as it is meant. */
  lemma ConstraintMeaning(cfg: BridgeConfig, columns: map<string, string>, num: string -> Option<real>,
                          p: (string, string), row: Row)
    ensures Constraint(cfg, columns, num, p, row) <==> Demands(cfg, columns, num, p, row)
  {
    hide *;
    if KindOf(cfg, p.0).Plain? {
      ListDemands(cfg, columns, num, p, row);
    } else {
      BoundDemands(cfg, columns, num, p, row);
    }
  }

  /** The two bounds of a base name the same column. */
  predicate SameColumn(cfg: BridgeConfig, columns: map<string, string>, base: string) {
    LowerColumn(cfg, columns, base) == UpperColumn(cfg, columns, base)
  }

  /** What makes it right to merge the two bounds of a base into one range: they name the same column; a base whose
      upper bound is ambiguous must not be mapped as a lower bound at all. */
  predicate Mergeable(cfg: BridgeConfig, columns: map<string, string>, base: string) {
    if Ambiguous(cfg, base) then LowerColumn(cfg, columns, base).None? else SameColumn(cfg, columns, base)
  }

  /** ... for every base of which both bounds occur in the hint. */
  ghost predicate PairedColumns(cfg: BridgeConfig, columns: map<string, string>, d: seq<(string, string)>) {
    forall base | Lookup(d, base + cfg.minSuffix).Some? && Lookup(d, base + cfg.maxSuffix).Some? ::
      Mergeable(cfg, columns, base)
  }

  ghost predicate AllAccept(fs: seq<Filter>, row: Row) {
    forall f | f in fs :: Accepts(f, row)
  }

  ghost predicate AllConstraints(cfg: BridgeConfig, columns: map<string, string>, num: string -> Option<real>,
                                 d: seq<(string, string)>, row: Row) {
    forall p | p in d :: Constraint(cfg, columns, num, p, row)
  }

  predicate Gives(cfg: BridgeConfig, columns: map<string, string>, num: string -> Option<real>,
                  d: seq<(string, string)>, p: (string, string), f: Filter) {
    Emit(cfg, columns, num, d, p) == Some(Ok(f))
  }

  predicate Fails(cfg: BridgeConfig, columns: map<string, string>, num: string -> Option<real>,
                  d: seq<(string, string)>, p: (string, string)) {
    Emit(cfg, columns, num, d, p).Some? && Emit(cfg, columns, num, d, p).value.Err?
  }

  /** What one more slot adds. */
  lemma EmitStep(cfg: BridgeConfig, columns: map<string, string>, num: string -> Option<real>, d: seq<(string, string)>,
                 n: nat)
    requires n < |d|
    ensures EmitFirst(cfg, columns, num, d, n + 1).Ok? <==>
            EmitFirst(cfg, columns, num, d, n).Ok? && !Fails(cfg, columns, num, d, d[n])
    ensures EmitFirst(cfg, columns, num, d, n + 1).Ok? ==>
              forall f :: f in EmitFirst(cfg, columns, num, d, n + 1).value <==>
                          f in EmitFirst(cfg, columns, num, d, n).value || Gives(cfg, columns, num, d, d[n], f)
  {
    CombineStep(EmitFirst(cfg, columns, num, d, n), Emit(cfg, columns, num, d, d[n]));
  }

  lemma CombineStep(before: Result<seq<Filter>, BridgeError>, next: Option<Result<Filter, BridgeError>>)
    ensures var after := Combine(before, next);
            && (after.Ok? <==> before.Ok? && !(next.Some? && next.value.Err?))
            && (after.Ok? ==> forall f :: f in after.value <==> f in before.value || next == Some(Ok(f)))
  {}

  ghost predicate NoneFails(cfg: BridgeConfig, columns: map<string, string>, num: string -> Option<real>,
                            d: seq<(string, string)>, n: nat)
    requires n <= |d|
  {
    forall i | 0 <= i < n :: !Fails(cfg, columns, num, d, d[i])
  }

  lemma NoneFailsStep(cfg: BridgeConfig, columns: map<string, string>, num: string -> Option<real>,
                      d: seq<(string, string)>, n: nat)
    requires n < |d|
    ensures NoneFails(cfg, columns, num, d, n + 1) <==>
              NoneFails(cfg, columns, num, d, n) && !Fails(cfg, columns, num, d, d[n])
  {}

  /** An error is reported exactly when some slot emits one. */
  lemma {:induction false} ErrorIffSlotFails(cfg: BridgeConfig, columns: map<string, string>,
                                             num: string -> Option<real>,
                                             d: seq<(string, string)>, n: nat)
    requires n <= |d|
    ensures EmitFirst(cfg, columns, num, d, n).Ok? <==> NoneFails(cfg, columns, num, d, n)
  {
    hide Emit;
    if n > 0 {
      ErrorIffSlotFails(cfg, columns, num, d, n - 1);
      EmitStep(cfg, columns, num, d, n - 1);
      NoneFailsStep(cfg, columns, num, d, n - 1);
    }
  }

  /** One of the first `n` slots gives the filter. */
  ghost predicate Given(cfg: BridgeConfig, columns: map<string, string>, num: string -> Option<real>,
                        d: seq<(string, string)>, n: nat, f: Filter)
    requires n <= |d|
  {
    exists i :: 0 <= i < n && Gives(cfg, columns, num, d, d[i], f)
  }

  lemma GivenStep(cfg: BridgeConfig, columns: map<string, string>, num: string -> Option<real>,
                  d: seq<(string, string)>, n: nat, f: Filter)
    requires n < |d|
    ensures Given(cfg, columns, num, d, n + 1, f) <==>
              Given(cfg, columns, num, d, n, f) || Gives(cfg, columns, num, d, d[n], f)
  {}

  lemma NothingEmitted(cfg: BridgeConfig, columns: map<string, string>, num: string -> Option<real>,
                       d: seq<(string, string)>, f: Filter)
    ensures EmitFirst(cfg, columns, num, d, 0) == Ok([]) && !Given(cfg, columns, num, d, 0, f)
  {}

  /** The filters are exactly what the slots give. */
  lemma {:induction false} EmittedMembers(cfg: BridgeConfig, columns: map<string, string>, num: string -> Option<real>,
                                          d: seq<(string, string)>, n: nat, f: Filter)
    requires n <= |d| && EmitFirst(cfg, columns, num, d, n).Ok?
    ensures f in EmitFirst(cfg, columns, num, d, n).value <==> Given(cfg, columns, num, d, n, f)
  {
    hide *;
    if n == 0 {
      NothingEmitted(cfg, columns, num, d, f);
    } else {
      EmitStep(cfg, columns, num, d, n - 1);
      EmittedMembers(cfg, columns, num, d, n - 1, f);
      GivenStep(cfg, columns, num, d, n - 1, f);
    }
  }

  /** What an emitted filter demands follows from what the slots it was made of ask. */
  lemma EmittedFollows(cfg: BridgeConfig, columns: map<string, string>, num: string -> Option<real>,
                       d: seq<(string, string)>, p: (string, string), f: Filter, row: Row)
    requires UniqueKeys(d) && PairedColumns(cfg, columns, d) && p in d
    requires Gives(cfg, columns, num, d, p, f)
    requires AllConstraints(cfg, columns, num, d, row)
    ensures Accepts(f, row)
  {
    var k := KindOf(cfg, p.0);
    SlotOfKind(cfg, p.0);
    LookupUnique(d, p);
    if k.Lower? {
      LookupMember(d, k.base + cfg.maxSuffix);
      assert Constraint(cfg, columns, num, p, row);
      if Lookup(d, k.base + cfg.maxSuffix).Some? {
        var q := (k.base + cfg.maxSuffix, Lookup(d, k.base + cfg.maxSuffix).value);
        assert q in d && Constraint(cfg, columns, num, q, row);
        assert Mergeable(cfg, columns, k.base);
        KindOfUpper(cfg, k.base);
      }
    }
  }

  /** What a slot demands is demanded by some emitted filter. */
  lemma ConstraintIsEmitted(cfg: BridgeConfig, columns: map<string, string>, num: string -> Option<real>,
                            d: seq<(string, string)>, p: (string, string), fs: seq<Filter>, row: Row)
    requires UniqueKeys(d) && PairedColumns(cfg, columns, d) && p in d
    requires forall q | q in d :: !Fails(cfg, columns, num, d, q)
    requires forall q, f | q in d && Gives(cfg, columns, num, d, q, f) :: f in fs
    requires AllAccept(fs, row)
    ensures Constraint(cfg, columns, num, p, row)
  {
    var k := KindOf(cfg, p.0);
    SlotOfKind(cfg, p.0);
    LookupUnique(d, p);
    if k.Upper? && Lookup(d, k.base + cfg.minSuffix).Some? {
      KindOfLower(cfg, k.base);
      LookupMember(d, k.base + cfg.minSuffix);
      var q := (k.base + cfg.minSuffix, Lookup(d, k.base + cfg.minSuffix).value);
      assert q in d && Mergeable(cfg, columns, k.base) && SameColumn(cfg, columns, k.base);
      var col := UpperColumn(cfg, columns, k.base);
      if col.Some? && num(p.1).Some? {
        assert NumberAt(num, d, k.base + cfg.maxSuffix) == num(p.1);
        assert !Fails(cfg, columns, num, d, q);
        assert Gives(cfg, columns, num, d, q, Emit(cfg, columns, num, d, q).value.value);
      }
    } else if Emit(cfg, columns, num, d, p).Some? {
      assert !Fails(cfg, columns, num, d, p);
      assert Gives(cfg, columns, num, d, p, Emit(cfg, columns, num, d, p).value.value);
    }
  }

  lemma AllMeant(cfg: BridgeConfig, columns: map<string, string>, num: string -> Option<real>,
                 d: seq<(string, string)>, row: Row)
    ensures AllConstraints(cfg, columns, num, d, row) <==> AllDemands(cfg, columns, num, d, row)
  {
    hide Constraint;
    hide Demands;
    forall p | p in d ensures Constraint(cfg, columns, num, p, row) <==> Demands(cfg, columns, num, p, row) {
      ConstraintMeaning(cfg, columns, num, p, row);
    }
  }

  /** Main result on the bridge: when the bounds of every base the hint bounds on both sides may be merged, a row passes
      all filters exactly when it meets every mapped, well-formed demand of the hint. */
  lemma FiltersMeanTheHint(cfg: BridgeConfig, columns: map<string, string>, num: string -> Option<real>,
                           d: seq<(string, string)>, fs: seq<Filter>, row: Row)
    requires UniqueKeys(d) && PairedColumns(cfg, columns, d)
    requires Walk(cfg, columns, num, d, 0, {}, []) == Ok(fs)
    ensures AllAccept(fs, row) <==> AllDemands(cfg, columns, num, d, row)
  {
    AllMeant(cfg, columns, num, d, row);
    WalkEmits(cfg, columns, num, d, 0, {}, []);
    ErrorIffSlotFails(cfg, columns, num, d, |d|);
    forall f ensures f in fs <==> Given(cfg, columns, num, d, |d|, f) { EmittedMembers(cfg, columns, num, d, |d|, f); }
    if AllAccept(fs, row) {
      forall p | p in d ensures Constraint(cfg, columns, num, p, row) {
        ConstraintIsEmitted(cfg, columns, num, d, p, fs, row);
      }
    }
    if AllConstraints(cfg, columns, num, d, row) {
      forall f | f in fs ensures Accepts(f, row) {
        var i :| 0 <= i < |d| && Gives(cfg, columns, num, d, d[i], f);
        EmittedFollows(cfg, columns, num, d, d[i], f, row);
      }
    }
  }

  /** The demands of the values printed last, name by name. */
  ghost predicate LastDemands(cfg: BridgeConfig, columns: map<string, string>, num: string -> Option<real>,
                                  pairs: seq<(string, string)>, row: Row) {
    forall name ::
      LastValue(pairs, name).Some? ==> Demands(cfg, columns, num, (name, LastValue(pairs, name).value), row)
  }

  lemma DictionaryDemands(cfg: BridgeConfig, columns: map<string, string>, num: string -> Option<real>,
                          pairs: seq<(string, string)>, row: Row)
    ensures AllDemands(cfg, columns, num, PutAll(pairs), row) <==> LastDemands(cfg, columns, num, pairs, row)
  {
    var d := PutAll(pairs);
    if AllDemands(cfg, columns, num, d, row) {
      forall name | LastValue(pairs, name).Some?
        ensures Demands(cfg, columns, num, (name, LastValue(pairs, name).value), row)
      {
        LastAssignmentWins(pairs, name);
        LookupMember(d, name);
      }
    }
    if LastDemands(cfg, columns, num, pairs, row) {
      forall p | p in d ensures Demands(cfg, columns, num, p, row) {
        LastAssignmentWins(pairs, p.0);
        LookupUnique(d, p);
      }
    }
  }

  /** From printed entities to filters: when a printed hint fits, a row passes the filters read back from it exactly
      when it meets, for every name, what the value printed last asks. */
  lemma PrintedHintMeansItsPairs(cfg: BridgeConfig, columns: map<string, string>, num: string -> Option<real>,
                                 pairs: seq<(string, string)>, fs: seq<Filter>, row: Row)
    requires forall p | p in pairs :: SqlHint.Printable(p)
    requires PairedColumns(cfg, columns, PutAll(pairs))
    requires |Join(MapSeq(SqlHint.PrintPair, pairs))| <= SqlHint.HINT_MAX_CHARS
    requires var hint := SqlHint.Cut(Join(MapSeq(SqlHint.PrintPair, pairs)));
             Walk(cfg, columns, num, SqlHint.PairsOf(Split(hint)), 0, {}, []) == Ok(fs)
    ensures AllAccept(fs, row) <==> LastDemands(cfg, columns, num, pairs, row)
  {
    SqlHint.ShortHintRoundTrip(pairs, "");
    FiltersMeanTheHint(cfg, columns, num, PutAll(pairs), fs, row);
    DictionaryDemands(cfg, columns, num, pairs, row);
  }

  /** A slot whose range comes out inverted makes the whole hint fail, and no row could have met it. */
  lemma InvertedRangeIsUnsatisfiable(cfg: BridgeConfig, columns: map<string, string>, num: string -> Option<real>,
                                     d: seq<(string, string)>, p: (string, string), row: Row)
    requires UniqueKeys(d) && PairedColumns(cfg, columns, d) && p in d
    requires Emit(cfg, columns, num, d, p) == Some(Err(InvertedRange))
    ensures Walk(cfg, columns, num, d, 0, {}, []).Err?
    ensures !AllDemands(cfg, columns, num, d, row)
  {
    AllMeant(cfg, columns, num, d, row);
    FailingSlotFailsHint(cfg, columns, num, d, p);
    SlotOfKind(cfg, p.0);
    var base := KindOf(cfg, p.0).base;
    LookupUnique(d, p);
    LookupMember(d, base + cfg.maxSuffix);
    var q := (base + cfg.maxSuffix, Lookup(d, base + cfg.maxSuffix).value);
    assert Mergeable(cfg, columns, base);
    KindOfUpper(cfg, base);
    assert !Constraint(cfg, columns, num, p, row) || !Constraint(cfg, columns, num, q, row);
  }

  // ---- Which slots fail

  ghost predicate Letter(c: char) {
    65 <= c as int <= 90 || 97 <= c as int <= 122
  }

  ghost predicate Digit(c: char) {
    48 <= c as int <= 57
  }

  /** A letter or underscore, then letters, digits, underscores and dots. */
  ghost predicate PlainIdentifier(t: string) {
    && t != "" && (Letter(t[0]) || t[0] == '_')
    && forall k | 0 <= k < |t| :: Letter(t[k]) || Digit(t[k]) || t[k] in {'_', '.'}
  }

  /** Letters, digits and a few signs that cannot end a quoted text, and at least one of them. */
  ghost predicate PlainText(t: string) {
    t != "" && forall k | 0 <= k < |t| :: Letter(t[k]) || Digit(t[k]) || t[k] in {' ', '_', '-', '.', ':', '/', '@'}
  }

  /** Both patterns end in `$`, so one line feed may follow. */
  ghost predicate UpToLineFeed(s: string, t: string) {
    s == t || s == t + "\n"
  }

  lemma CharacterClasses(c: char)
    ensures IdentStart(c) <==> Letter(c) || c == '_'
    ensures IsDigit(c) <==> Digit(c)
    ensures SafeChar(c) <==> Letter(c) || Digit(c) || c in {' ', '_', '-', '.', ':', '/', '@'}
  {}

  lemma IdentifierMeaning(s: string)
    ensures ValidIdentifier(s) <==> exists t :: UpToLineFeed(s, t) && PlainIdentifier(t)
  {
    var t := Unterminated(s);
    assert UpToLineFeed(s, t);
    forall k | 0 <= k < |t|
      ensures (IdentStart(t[k]) <==> Letter(t[k]) || t[k] == '_') && (IsDigit(t[k]) <==> Digit(t[k]))
    {
      CharacterClasses(t[k]);
    }
    assert ValidIdentifier(s) <==> PlainIdentifier(t);
    if u :| UpToLineFeed(s, u) && PlainIdentifier(u) { assert u == t; }
  }

  lemma SafeValueMeaning(s: string)
    ensures SafeValue(s) <==> exists t :: UpToLineFeed(s, t) && PlainText(t)
  {
    var t := Unterminated(s);
    assert UpToLineFeed(s, t);
    forall k | 0 <= k < |t|
      ensures SafeChar(t[k]) <==> Letter(t[k]) || Digit(t[k]) || t[k] in {' ', '_', '-', '.', ':', '/', '@'}
    {
      CharacterClasses(t[k]);
    }
    assert SafeValue(s) <==> PlainText(t);
    if u :| UpToLineFeed(s, u) && PlainText(u) { assert u == t; }
  }

  /** What keeps a column or a listed text out of a statement. */
  ghost predicate Unusable(column: string) {
    forall t | UpToLineFeed(column, t) :: !PlainIdentifier(t)
  }

  ghost predicate Unsafe(value: string) {
    forall t | UpToLineFeed(value, t) :: !PlainText(t)
  }

  /** A slot spelled with the lower suffix fails when it or its upper partner holds a number, and the column cannot be
      used or the two numbers are the wrong way round. */
  lemma LowerSlotFailsIff(cfg: BridgeConfig, columns: map<string, string>, num: string -> Option<real>,
                          d: seq<(string, string)>, p: (string, string), base: string)
    requires Spelled(p.0, base, cfg.minSuffix)
    ensures var upper := Lookup(d, base + cfg.maxSuffix);
            Fails(cfg, columns, num, d, p) <==>
            exists c :: MapsTo(cfg, columns, base, p.0, c)
                        && (num(p.1).Some? || (upper.Some? && num(upper.value).Some?))
                        && (Unusable(c) || (num(p.1).Some? && upper.Some? && num(upper.value).Some?
                                            && num(p.1).value > num(upper.value).value))
  {
    KindOfLower(cfg, base);
    var col := LowerColumn(cfg, columns, base);
    forall c ensures MapsTo(cfg, columns, base, p.0, c) <==> col == Some(c) { MapsToIs(cfg, columns, base, p.0, c); }
    if col.Some? { IdentifierMeaning(col.value); }
    hide MapsTo;
    hide ValidIdentifier;
    hide LowerColumn;
    hide KindOf;
  }

  /** One spelled with the upper suffix only fails when it has no lower partner, holds a number, and its column cannot
      be used. */
  lemma UpperSlotFailsIff(cfg: BridgeConfig, columns: map<string, string>, num: string -> Option<real>,
                          d: seq<(string, string)>, p: (string, string), base: string)
    requires Spelled(p.0, base, cfg.maxSuffix) && forall b :: !Spelled(p.0, b, cfg.minSuffix)
    ensures Fails(cfg, columns, num, d, p) <==>
            exists c :: MapsTo(cfg, columns, base, p.0, c) && Unusable(c)
                        && Lookup(d, base + cfg.minSuffix).None? && num(p.1).Some?
  {
    SpelledIs(p.0, base, cfg.maxSuffix);
    if EndsWith(p.0, cfg.minSuffix) { SpelledIs(p.0, Base(p.0, cfg.minSuffix), cfg.minSuffix); }
    assert KindOf(cfg, p.0) == Upper(base);
    var col := UpperColumn(cfg, columns, base);
    forall c ensures MapsTo(cfg, columns, base, p.0, c) <==> col == Some(c) { MapsToIs(cfg, columns, base, p.0, c); }
    if col.Some? { IdentifierMeaning(col.value); }
    hide MapsTo;
    hide ValidIdentifier;
    hide UpperColumn;
    hide KindOf;
  }

  /** A list fails when it lists something and its column cannot be used or one of the texts is not safe. */
  lemma ListFailsIff(cfg: BridgeConfig, columns: map<string, string>, num: string -> Option<real>,
                     d: seq<(string, string)>, p: (string, string))
    requires forall b :: !Spelled(p.0, b, cfg.minSuffix) && !Spelled(p.0, b, cfg.maxSuffix)
    ensures Fails(cfg, columns, num, d, p) <==>
            exists c, t :: MapsTo(cfg, columns, p.0, p.0, c) && Listed(p.1, t) && (Unusable(c) || Unsafe(t))
  {
    PlainSlot(cfg, p.0);
    hide KindOf;
    hide Spelled;
    var col, values := PlainColumn(cfg, columns, p.0), Members(p.1);
    ListFails(cfg, columns, num, d, p, col, values);
    forall c ensures MapsTo(cfg, columns, p.0, p.0, c) <==> col == Some(c) { MapsToIs(cfg, columns, p.0, p.0, c); }
    forall t ensures t in values <==> Listed(p.1, t) { MembersAreListed(p.1, t); }
    hide *;
  }

  lemma PlainSlot(cfg: BridgeConfig, slot: string)
    requires forall b :: !Spelled(slot, b, cfg.minSuffix) && !Spelled(slot, b, cfg.maxSuffix)
    ensures KindOf(cfg, slot) == Plain
  {
    if EndsWith(slot, cfg.minSuffix) { SpelledIs(slot, Base(slot, cfg.minSuffix), cfg.minSuffix); }
    if EndsWith(slot, cfg.maxSuffix) { SpelledIs(slot, Base(slot, cfg.maxSuffix), cfg.maxSuffix); }
  }

  lemma ListFails(cfg: BridgeConfig, columns: map<string, string>, num: string -> Option<real>,
                  d: seq<(string, string)>, p: (string, string), col: Option<string>, values: seq<string>)
    requires KindOf(cfg, p.0) == Plain && col == PlainColumn(cfg, columns, p.0) && values == Members(p.1)
    ensures Fails(cfg, columns, num, d, p) <==>
            col.Some? && exists t :: t in values && (Unusable(col.value) || Unsafe(t))
  {
    forall t ensures SafeValue(t) <==> !Unsafe(t) { SafeValueMeaning(t); }
    if col.Some? { IdentifierMeaning(col.value); }
    assert values != [] ==> values[0] in values;
    hide Members;
    hide SafeValue;
    hide ValidIdentifier;
    hide PlainColumn;
    hide KindOf;
  }

  /** The whole hint fails only if some slot's filter cannot be made, and, unless a filter is swallowed, whenever one
      cannot. */
  lemma HintFailsIff(cfg: BridgeConfig, columns: map<string, string>, num: string -> Option<real>,
                     d: seq<(string, string)>)
    requires UniqueKeys(d)
    ensures Walk(cfg, columns, num, d, 0, {}, []).Err? ==> exists p :: p in d && Fails(cfg, columns, num, d, p)
    ensures NothingSwallowed(cfg, columns, d) ==>
              (Walk(cfg, columns, num, d, 0, {}, []).Err? <==> exists p :: p in d && Fails(cfg, columns, num, d, p))
  {
    if Walk(cfg, columns, num, d, 0, {}, []).Err? { WalkErrs(cfg, columns, num, d, 0, {}, []); }
    if NothingSwallowed(cfg, columns, d) {
      if p :| p in d && Fails(cfg, columns, num, d, p) { FailingSlotFailsHint(cfg, columns, num, d, p); }
    }
  }

  lemma {:induction false} WalkErrs(cfg: BridgeConfig, columns: map<string, string>, num: string -> Option<real>,
                                    d: seq<(string, string)>, i: nat, consumed: set<string>, made: seq<Filter>)
    requires i <= |d| && Walk(cfg, columns, num, d, i, consumed, made).Err?
    ensures exists p :: p in d && Fails(cfg, columns, num, d, p)
    decreases |d| - i
  {
    if i < |d| {
      var e := Emit(cfg, columns, num, d, d[i]);
      if d[i].0 in consumed || e.None? {
        WalkErrs(cfg, columns, num, d, i + 1, consumed, made);
      } else if e.value.Ok? {
        WalkErrs(cfg, columns, num, d, i + 1, consumed + Consumes(cfg, d[i].0), made + [e.value.value]);
      } else {
        assert Fails(cfg, columns, num, d, d[i]);
      }
    }
  }

  lemma FailingSlotFailsHint(cfg: BridgeConfig, columns: map<string, string>, num: string -> Option<real>,
                             d: seq<(string, string)>, p: (string, string))
    requires NothingSwallowed(cfg, columns, d) && UniqueKeys(d) && p in d && Fails(cfg, columns, num, d, p)
    ensures Walk(cfg, columns, num, d, 0, {}, []).Err?
  {
    WalkEmits(cfg, columns, num, d, 0, {}, []);
    ErrorIffSlotFails(cfg, columns, num, d, |d|);
    var i :| 0 <= i < |d| && d[i] == p;
    assert Fails(cfg, columns, num, d, d[i]);
  }

  // ---- Exactly which configurations keep the meaning

  /** Every hint text that goes through means what it asks. */
  ghost predicate KeepsMeaning(cfg: BridgeConfig, columns: map<string, string>, num: string -> Option<real>) {
    forall hint, fs, row | Walk(cfg, columns, num, SqlHint.PairsOf(Split(hint)), 0, {}, []) == Ok(fs) ::
      AllAccept(fs, row) <==> AllDemands(cfg, columns, num, SqlHint.PairsOf(Split(hint)), row)
  }

  /** Both bounds of the base have names a hint can carry. */
  predicate Expressible(cfg: BridgeConfig, base: string) {
    SqlHint.Nameable(base + cfg.minSuffix) && SqlHint.Nameable(base + cfg.maxSuffix)
  }

  /** A dictionary of printable pairs is read back from its printed form, whatever its length. */
  lemma PrintedDictionary(d: seq<(string, string)>)
    requires UniqueKeys(d) && forall p | p in d :: SqlHint.Printable(p)
    ensures SqlHint.PairsOf(Split(Join(MapSeq(SqlHint.PrintPair, d)))) == d
  {
    SqlHint.PrintedTokens(d);
    SplitJoin(MapSeq(SqlHint.PrintPair, d));
    SqlHint.ReadPrinted(d);
    PutAllUnique(d);
  }

  /** A dictionary on which filters and demands disagree, printed as a hint. */
  lemma PrintedWitness(cfg: BridgeConfig, columns: map<string, string>, num: string -> Option<real>,
                       d: seq<(string, string)>, fs: seq<Filter>, row: Row)
    requires UniqueKeys(d) && forall p | p in d :: SqlHint.Printable(p)
    requires Walk(cfg, columns, num, d, 0, {}, []) == Ok(fs)
    requires AllAccept(fs, row) != AllDemands(cfg, columns, num, d, row)
    ensures !KeepsMeaning(cfg, columns, num)
  {
    PrintedDictionary(d);
    assert SqlHint.PairsOf(Split(Join(MapSeq(SqlHint.PrintPair, d)))) == d;
  }

  function TwoBounds(cfg: BridgeConfig, base: string): seq<(string, string)> {
    [(base + cfg.minSuffix, "1"), (base + cfg.maxSuffix, "2")]
  }

  /** The two bounds of a base, looked up and classified. */
  lemma TwoBoundsFacts(cfg: BridgeConfig, base: string)
    requires !Ambiguous(cfg, base)
    ensures UniqueKeys(TwoBounds(cfg, base))
    ensures Lookup(TwoBounds(cfg, base), base + cfg.minSuffix) == Some("1")
    ensures Lookup(TwoBounds(cfg, base), base + cfg.maxSuffix) == Some("2")
    ensures KindOf(cfg, base + cfg.minSuffix) == Lower(base) && KindOf(cfg, base + cfg.maxSuffix) == Upper(base)
  {
    KindOfLower(cfg, base);
    KindOfUpper(cfg, base);
    var d := TwoBounds(cfg, base);
    assert d[0].0 != d[1].0;
    LookupUnique(d, d[0]);
    LookupUnique(d, d[1]);
  }

  lemma TwoBoundsUnswallowed(cfg: BridgeConfig, columns: map<string, string>, base: string)
    requires !Ambiguous(cfg, base)
    ensures NothingSwallowed(cfg, columns, TwoBounds(cfg, base))
  {
    var d := TwoBounds(cfg, base);
    TwoBoundsFacts(cfg, base);
    forall other | Lookup(d, other + cfg.minSuffix).Some? && Lookup(d, other + cfg.maxSuffix).Some?
      ensures !Ambiguous(cfg, other)
    {
      LookupMember(d, other + cfg.minSuffix);
      KindOfLower(cfg, other);
      assert other == base;
    }
  }

  lemma TwoBoundsWalk(cfg: BridgeConfig, columns: map<string, string>, num: string -> Option<real>, base: string)
    requires !Ambiguous(cfg, base) && num("1") == Some(1.0) && num("2") == Some(2.0)
    requires forall a | a in columns :: ValidIdentifier(columns[a])
    ensures Walk(cfg, columns, num, TwoBounds(cfg, base), 0, {}, []) ==
            match LowerColumn(cfg, columns, base)
            case Some(c) => Ok([Range(c, Some(1.0), Some(2.0))])
            case None => Ok([])
  {
    var d := TwoBounds(cfg, base);
    TwoBoundsFacts(cfg, base);
    TwoBoundsUnswallowed(cfg, columns, base);
    WalkEmits(cfg, columns, num, d, 0, {}, []);
    assert Emit(cfg, columns, num, d, d[1]).None?;
    assert Emit(cfg, columns, num, d, d[0]) ==
           match LowerColumn(cfg, columns, base) {
             case Some(c) => Some(Ok(Range(c, Some(1.0), Some(2.0))))
             case None => None
           };
    var before: seq<Filter> := [];
    assert EmitFirst(cfg, columns, num, d, 0) == Ok(before);
    assert forall f: Filter :: before + [f] == [f];
    assert EmitFirst(cfg, columns, num, d, 2) == EmitFirst(cfg, columns, num, d, 1);
  }

  /** A base whose bounds name different columns (or only one of which is mapped) gives a hint and a row that disagree:
      the lower bound's column takes both limits. */
  lemma DifferentColumnsBreakMeaning(cfg: BridgeConfig, columns: map<string, string>, num: string -> Option<real>,
                                     base: string)
    requires num("1") == Some(1.0) && num("2") == Some(2.0)
    requires forall a | a in columns :: ValidIdentifier(columns[a])
    requires Expressible(cfg, base) && !Ambiguous(cfg, base) && !SameColumn(cfg, columns, base)
    ensures !KeepsMeaning(cfg, columns, num)
  {
    var d := TwoBounds(cfg, base);
    TwoBoundsFacts(cfg, base);
    TwoBoundsWalk(cfg, columns, num, base);
    var lower, upper := LowerColumn(cfg, columns, base), UpperColumn(cfg, columns, base);
    var row := Row(c => if lower == Some(c) then 3.0 else if lower.None? then 5.0 else 0.0, c => "");
    var fs := match lower { case Some(c) => [Range(c, Some(1.0), Some(2.0))] case None => [] };
    assert Constraint(cfg, columns, num, d[0], row);
    if lower.Some? {
      assert fs[0] in fs && !Accepts(fs[0], row);
      assert Constraint(cfg, columns, num, d[1], row);
      assert AllConstraints(cfg, columns, num, d, row);
    } else {
      assert !Constraint(cfg, columns, num, d[1], row) && d[1] in d;
      assert AllAccept(fs, row);
    }
    AllMeant(cfg, columns, num, d, row);
    PrintedWitness(cfg, columns, num, d, fs, row);
  }

  /** The lower bound of `base` and, unless it is the same slot, the upper bound. */
  function Bounds(cfg: BridgeConfig, base: string): seq<(string, string)> {
    if cfg.minSuffix == cfg.maxSuffix then [(base + cfg.minSuffix, "1")] else TwoBounds(cfg, base)
  }

  lemma BoundsFacts(cfg: BridgeConfig, base: string)
    ensures var d := Bounds(cfg, base);
            && UniqueKeys(d) && 1 <= |d| <= 2 && d[0] == (base + cfg.minSuffix, "1")
            && Lookup(d, base + cfg.maxSuffix) == Some(if cfg.minSuffix == cfg.maxSuffix then "1" else "2")
            && (|d| == 2 ==> d[1] == (base + cfg.maxSuffix, "2"))
  {
    var d := Bounds(cfg, base);
    if cfg.minSuffix != cfg.maxSuffix {
      var lower, upper := base + cfg.minSuffix, base + cfg.maxSuffix;
      assert lower[|base|..] == cfg.minSuffix && upper[|base|..] == cfg.maxSuffix;
      LookupUnique(d, d[1]);
    }
  }

  /** A mapped base whose upper bound is ambiguous does too: the filter takes for its upper limit what the hint
      states as somebody's lower one. */
  lemma AmbiguousBoundBreaksMeaning(cfg: BridgeConfig, columns: map<string, string>, num: string -> Option<real>,
                                    base: string)
    requires num("1") == Some(1.0) && num("2") == Some(2.0)
    requires forall a | a in columns :: ValidIdentifier(columns[a])
    requires Expressible(cfg, base) && Ambiguous(cfg, base) && LowerColumn(cfg, columns, base).Some?
    ensures !KeepsMeaning(cfg, columns, num)
  {
    var d := Bounds(cfg, base);
    BoundsFacts(cfg, base);
    KindOfLower(cfg, base);
    var hi := if cfg.minSuffix == cfg.maxSuffix then 1.0 else 2.0;
    var f := Range(LowerColumn(cfg, columns, base).value, Some(1.0), Some(hi));
    assert Emit(cfg, columns, num, d, d[0]) == Some(Ok(f));
    var consumed := {} + Consumes(cfg, d[0].0);
    assert [] + [f] == [f];
    assert Walk(cfg, columns, num, d, |d|, consumed, [f]) == Ok([f]);
    assert Walk(cfg, columns, num, d, 1, consumed, [f]) == Ok([f]);
    assert Walk(cfg, columns, num, d, 0, {}, []) == Ok([f]);
    var row := Row(c => 3.0, c => "");
    assert f in [f] && !Accepts(f, row);
    assert Constraint(cfg, columns, num, d[0], row);
    assert AllConstraints(cfg, columns, num, d, row);
    AllMeant(cfg, columns, num, d, row);
    PrintedWitness(cfg, columns, num, d, [f], row);
  }

  /** A name bounded on both sides in a hint that was read is expressible. */
  lemma ReadHintNames(cfg: BridgeConfig, hint: string)
    requires cfg.Valid()
    ensures var d := SqlHint.PairsOf(Split(hint));
            && UniqueKeys(d)
            && forall base | Lookup(d, base + cfg.minSuffix).Some? && Lookup(d, base + cfg.maxSuffix).Some? ::
                  Expressible(cfg, base)
  {
    var d := SqlHint.PairsOf(Split(hint));
    SplitTokens(hint);
    SqlHint.ReadNames(Split(hint));
    forall base | Lookup(d, base + cfg.minSuffix).Some? && Lookup(d, base + cfg.maxSuffix).Some?
      ensures Expressible(cfg, base)
    {
      LookupMember(d, base + cfg.minSuffix);
      LookupMember(d, base + cfg.maxSuffix);
    }
  }

  lemma ReadHintPaired(cfg: BridgeConfig, columns: map<string, string>, hint: string)
    requires cfg.Valid() && forall base | Expressible(cfg, base) :: Mergeable(cfg, columns, base)
    ensures var d := SqlHint.PairsOf(Split(hint)); UniqueKeys(d) && PairedColumns(cfg, columns, d)
  {
    ReadHintNames(cfg, hint);
  }

  /** The filters keep the meaning of every hint text exactly when the bounds of every base that can occur may be
      merged. */
  lemma MeaningKeptIff(cfg: BridgeConfig, columns: map<string, string>, num: string -> Option<real>)
    requires cfg.Valid() && num("1") == Some(1.0) && num("2") == Some(2.0)
    requires forall a | a in columns :: ValidIdentifier(columns[a])
    ensures KeepsMeaning(cfg, columns, num) <==> forall base | Expressible(cfg, base) :: Mergeable(cfg, columns, base)
  {
    if forall base | Expressible(cfg, base) :: Mergeable(cfg, columns, base) {
      forall hint, fs, row | Walk(cfg, columns, num, SqlHint.PairsOf(Split(hint)), 0, {}, []) == Ok(fs)
        ensures AllAccept(fs, row) <==> AllDemands(cfg, columns, num, SqlHint.PairsOf(Split(hint)), row)
      {
        ReadHintPaired(cfg, columns, hint);
        FiltersMeanTheHint(cfg, columns, num, SqlHint.PairsOf(Split(hint)), fs, row);
      }
    } else {
      var base :| Expressible(cfg, base) && !Mergeable(cfg, columns, base);
      if Ambiguous(cfg, base) {
        AmbiguousBoundBreaksMeaning(cfg, columns, num, base);
      } else {
        DifferentColumnsBreakMeaning(cfg, columns, num, base);
      }
    }
  }

  /** With separate suffixes, as in the shipped configuration, what remains is that the two bounds name one column. */
  lemma ApartMergeable(cfg: BridgeConfig, columns: map<string, string>, base: string)
    requires cfg.SuffixesApart()
    ensures Mergeable(cfg, columns, base) <==> SameColumn(cfg, columns, base)
  {
    ApartIsUnambiguous(cfg, base);
  }

  // ---- One range per base, and no dependence on the order of the pairs

  lemma OneRangePerBase(cfg: BridgeConfig, columns: map<string, string>, num: string -> Option<real>,
                        d: seq<(string, string)>, p: (string, string), q: (string, string))
    requires cfg.Valid() && UniqueKeys(d) && p in d && q in d
    requires !KindOf(cfg, p.0).Plain? && !KindOf(cfg, q.0).Plain? && KindOf(cfg, p.0).base == KindOf(cfg, q.0).base
    requires Emit(cfg, columns, num, d, p).Some? && Emit(cfg, columns, num, d, q).Some?
    ensures p == q
  {
    SlotOfKind(cfg, p.0);
    SlotOfKind(cfg, q.0);
    LookupUnique(d, p);
    LookupUnique(d, q);
  }

  lemma SameLookups(d: seq<(string, string)>, e: seq<(string, string)>, k: string)
    requires UniqueKeys(d) && UniqueKeys(e) && multiset(d) == multiset(e)
    ensures Lookup(d, k) == Lookup(e, k)
  {
    StableSort.SameMembers(d, e);
    LookupMember(d, k);
    LookupMember(e, k);
    if Lookup(d, k).Some? { LookupUnique(e, (k, Lookup(d, k).value)); }
    if Lookup(e, k).Some? { LookupUnique(d, (k, Lookup(e, k).value)); }
  }

  lemma EmitPermutes(cfg: BridgeConfig, columns: map<string, string>, num: string -> Option<real>,
                     d: seq<(string, string)>, e: seq<(string, string)>, p: (string, string))
    requires UniqueKeys(d) && UniqueKeys(e) && multiset(d) == multiset(e)
    ensures Emit(cfg, columns, num, d, p) == Emit(cfg, columns, num, e, p)
  {
    var k := KindOf(cfg, p.0);
    if !k.Plain? {
      SameLookups(d, e, k.base + cfg.maxSuffix);
      SameLookups(d, e, k.base + cfg.minSuffix);
    }
  }

  function Emitting(cfg: BridgeConfig, columns: map<string, string>, num: string -> Option<real>,
                    d: seq<(string, string)>): ((string, string)) -> bool {
    (p: (string, string)) => Emit(cfg, columns, num, d, p).Some?
  }

  function Emitted(cfg: BridgeConfig, columns: map<string, string>, num: string -> Option<real>,
                   d: seq<(string, string)>): ((string, string)) -> Filter {
    (p: (string, string)) =>
      match Emit(cfg, columns, num, d, p) { case Some(Ok(f)) => f case _ => In("", []) }
  }

  lemma {:induction false} EmitFirstAsMap(cfg: BridgeConfig, columns: map<string, string>, num: string -> Option<real>,
                                          d: seq<(string, string)>, n: nat)
    requires n <= |d| && EmitFirst(cfg, columns, num, d, n).Ok?
    ensures EmitFirst(cfg, columns, num, d, n).value ==
            MapSeq(Emitted(cfg, columns, num, d), StableSort.Filter(Emitting(cfg, columns, num, d), d[..n]))
  {
    if n == 0 {
      assert d[..n] == [];
    } else {
      var p, m := Emitting(cfg, columns, num, d), Emitted(cfg, columns, num, d);
      EmittedNext(cfg, columns, num, d, n - 1);
      hide *;
      EmitFirstAsMap(cfg, columns, num, d, n - 1);
      assert d[..n] == d[..n - 1] + [d[n - 1]];
      StableSort.FilterAppend(p, d[..n - 1], [d[n - 1]]);
      StableSort.FilterOne(p, d[n - 1]);
      StableSort.MapAppend(m, StableSort.Filter(p, d[..n - 1]), if p(d[n - 1]) then [d[n - 1]] else []);
      assert MapSeq(m, [d[n - 1]]) == [m(d[n - 1])];
    }
  }

  lemma EmittedNext(cfg: BridgeConfig, columns: map<string, string>, num: string -> Option<real>,
                    d: seq<(string, string)>, n: nat)
    requires n < |d| && EmitFirst(cfg, columns, num, d, n + 1).Ok?
    ensures EmitFirst(cfg, columns, num, d, n).Ok?
    ensures EmitFirst(cfg, columns, num, d, n + 1).value ==
            EmitFirst(cfg, columns, num, d, n).value
            + if Emitting(cfg, columns, num, d)(d[n]) then [Emitted(cfg, columns, num, d)(d[n])] else []
  {
    hide Emit;
  }

  /** Both fail, or both give the same filters in some order. */
  predicate SameOutcome(r: Result<seq<Filter>, BridgeError>, s: Result<seq<Filter>, BridgeError>) {
    (r.Ok? <==> s.Ok?) && (r.Ok? && s.Ok? ==> multiset(r.value) == multiset(s.value))
  }

  /** Unless a filter is swallowed, reordering the pairs neither makes nor mends an error, and gives the same
      filters. */
  lemma OrderDoesNotMatter(cfg: BridgeConfig, columns: map<string, string>, num: string -> Option<real>,
                           d: seq<(string, string)>, e: seq<(string, string)>)
    requires NothingSwallowed(cfg, columns, d) && UniqueKeys(d) && UniqueKeys(e) && multiset(d) == multiset(e)
    ensures SameOutcome(Walk(cfg, columns, num, d, 0, {}, []), Walk(cfg, columns, num, e, 0, {}, []))
  {
    forall k ensures Lookup(d, k) == Lookup(e, k) { SameLookups(d, e, k); }
    WalkEmits(cfg, columns, num, d, 0, {}, []);
    WalkEmits(cfg, columns, num, e, 0, {}, []);
    var r, s := EmitFirst(cfg, columns, num, d, |d|), EmitFirst(cfg, columns, num, e, |e|);
    if r.Ok? { ErrorsPermute(cfg, columns, num, d, e); }
    if s.Ok? { ErrorsPermute(cfg, columns, num, e, d); }
    if r.Ok? {
      EmitFirstAsMap(cfg, columns, num, d, |d|);
      EmitFirstAsMap(cfg, columns, num, e, |e|);
      assert d[..|d|] == d && e[..|e|] == e;
      FiltersPermute(cfg, columns, num, d, e);
    }
  }

  /** No two hint texts that state the same pairs in different orders have different outcomes. */
  ghost predicate OrderIrrelevant(cfg: BridgeConfig, columns: map<string, string>, num: string -> Option<real>) {
    forall hint, other | multiset(SqlHint.PairsOf(Split(hint))) == multiset(SqlHint.PairsOf(Split(other))) ::
      SameOutcome(Walk(cfg, columns, num, SqlHint.PairsOf(Split(hint)), 0, {}, []),
                  Walk(cfg, columns, num, SqlHint.PairsOf(Split(other)), 0, {}, []))
  }

  /** The filters depend on the order of the pairs exactly when some base that can occur swallows another's filter. */
  lemma OrderIrrelevantIff(cfg: BridgeConfig, columns: map<string, string>, num: string -> Option<real>)
    requires cfg.Valid() && num("1") == Some(1.0) && num("2") == Some(2.0)
    requires forall a | a in columns :: ValidIdentifier(columns[a])
    ensures OrderIrrelevant(cfg, columns, num) <==>
            forall base | Expressible(cfg, base) :: !Swallows(cfg, columns, base)
  {
    if forall base | Expressible(cfg, base) :: !Swallows(cfg, columns, base) {
      NoSwallowOrderIrrelevant(cfg, columns, num);
    } else {
      var base :| Expressible(cfg, base) && Swallows(cfg, columns, base);
      SwallowedDependsOnOrder(cfg, columns, num, base);
    }
  }

  lemma NoSwallowOrderIrrelevant(cfg: BridgeConfig, columns: map<string, string>, num: string -> Option<real>)
    requires cfg.Valid() && forall base | Expressible(cfg, base) :: !Swallows(cfg, columns, base)
    ensures OrderIrrelevant(cfg, columns, num)
  {
    forall hint, other | multiset(SqlHint.PairsOf(Split(hint))) == multiset(SqlHint.PairsOf(Split(other)))
      ensures SameOutcome(Walk(cfg, columns, num, SqlHint.PairsOf(Split(hint)), 0, {}, []),
                          Walk(cfg, columns, num, SqlHint.PairsOf(Split(other)), 0, {}, []))
    {
      ReadHintNames(cfg, hint);
      ReadHintNames(cfg, other);
      OrderDoesNotMatter(cfg, columns, num, SqlHint.PairsOf(Split(hint)), SqlHint.PairsOf(Split(other)));
    }
  }

  /** With suffixes that do not end in each other, as in the shipped configuration, the order never matters. */
  lemma ApartOrderIrrelevant(cfg: BridgeConfig, columns: map<string, string>, num: string -> Option<real>)
    requires cfg.Valid() && cfg.SuffixesApart()
    ensures OrderIrrelevant(cfg, columns, num)
  {
    forall base ensures !Swallows(cfg, columns, base) { ApartIsUnambiguous(cfg, base); }
    NoSwallowOrderIrrelevant(cfg, columns, num);
  }

  function Swapped(cfg: BridgeConfig, base: string): seq<(string, string)> {
    [(base + cfg.maxSuffix, "2"), (base + cfg.minSuffix, "1")]
  }

  /** The bounds of a swallowing base, in either order, looked up and classified. */
  lemma SwallowingPairs(cfg: BridgeConfig, base: string)
    requires Ambiguous(cfg, base) && cfg.minSuffix != cfg.maxSuffix
    ensures UniqueKeys(TwoBounds(cfg, base)) && UniqueKeys(Swapped(cfg, base))
    ensures multiset(TwoBounds(cfg, base)) == multiset(Swapped(cfg, base))
    ensures KindOf(cfg, base + cfg.minSuffix) == Lower(base)
    ensures var inner := Base(base + cfg.maxSuffix, cfg.minSuffix);
            && KindOf(cfg, base + cfg.maxSuffix) == Lower(inner) && inner + cfg.minSuffix == base + cfg.maxSuffix
            && Lookup(Swapped(cfg, base), inner + cfg.maxSuffix).None?
            && base + cfg.minSuffix !in Consumes(cfg, base + cfg.maxSuffix)
    ensures Lookup(TwoBounds(cfg, base), base + cfg.maxSuffix) == Some("2")
    ensures Lookup(Swapped(cfg, base), base + cfg.maxSuffix) == Some("2")
  {
    var lower, upper := base + cfg.minSuffix, base + cfg.maxSuffix;
    var inner := Base(upper, cfg.minSuffix);
    assert upper[|base|..] == cfg.maxSuffix && lower[|base|..] == cfg.minSuffix;
    KindOfLower(cfg, base);
    SwallowingKind(cfg, base);
    InnerUpperIsNew(cfg, base);
    hide KindOf;
    TwoNames(lower, upper, "1", "2", inner + cfg.maxSuffix);
    TwoNames(upper, lower, "2", "1", inner + cfg.maxSuffix);
    assert lower !in {upper, inner + cfg.maxSuffix};
  }

  lemma TwoNames(a: string, b: string, x: string, y: string, other: string)
    requires a != b && other != a && other != b
    ensures UniqueKeys([(a, x), (b, y)]) && multiset([(a, x), (b, y)]) == multiset([(b, y), (a, x)])
    ensures Lookup([(a, x), (b, y)], a) == Some(x) && Lookup([(a, x), (b, y)], b) == Some(y)
    ensures Lookup([(a, x), (b, y)], other).None?
  {
    LookupUnique([(a, x), (b, y)], (a, x));
    LookupUnique([(a, x), (b, y)], (b, y));
    LookupMember([(a, x), (b, y)], other);
  }

  /** The upper slot of a swallowing base is the lower slot of its inner base, and consumes that base's upper slot. */
  lemma SwallowingKind(cfg: BridgeConfig, base: string)
    requires Ambiguous(cfg, base)
    ensures var upper := base + cfg.maxSuffix;
            var inner := Base(upper, cfg.minSuffix);
            && KindOf(cfg, upper) == Lower(inner) && inner + cfg.minSuffix == upper
            && Consumes(cfg, upper) == {upper, inner + cfg.maxSuffix}
  {
    SlotOfKind(cfg, base + cfg.maxSuffix);
  }

  /** The upper slot of the inner base is neither of the two slots: the suffixes differ in length. */
  lemma InnerUpperIsNew(cfg: BridgeConfig, base: string)
    requires Ambiguous(cfg, base) && cfg.minSuffix != cfg.maxSuffix
    ensures var next := Base(base + cfg.maxSuffix, cfg.minSuffix) + cfg.maxSuffix;
            next != base + cfg.minSuffix && next != base + cfg.maxSuffix
  {
    var upper := base + cfg.maxSuffix;
    assert upper[|base|..] == cfg.maxSuffix;
    assert |cfg.minSuffix| != |cfg.maxSuffix|;
  }

  /** The two orders of those pairs as hints: one filter against two. */
  lemma SwallowedDependsOnOrder(cfg: BridgeConfig, columns: map<string, string>, num: string -> Option<real>,
                                base: string)
    requires num("1") == Some(1.0) && num("2") == Some(2.0)
    requires forall a | a in columns :: ValidIdentifier(columns[a])
    requires Expressible(cfg, base) && Swallows(cfg, columns, base)
    ensures !OrderIrrelevant(cfg, columns, num)
  {
    var d, e := TwoBounds(cfg, base), Swapped(cfg, base);
    SwallowingPairs(cfg, base);
    PrintedDictionary(d);
    PrintedDictionary(e);
    var r := OneFilter(cfg, columns, num, base);
    var s := TwoFilters(cfg, columns, num, base);
    assert |multiset(r)| == |r| && |multiset(s)| == |s|;
    assert !SameOutcome(Walk(cfg, columns, num, d, 0, {}, []), Walk(cfg, columns, num, e, 0, {}, []));
    assert SqlHint.PairsOf(Split(Join(MapSeq(SqlHint.PrintPair, d)))) == d;
    assert SqlHint.PairsOf(Split(Join(MapSeq(SqlHint.PrintPair, e)))) == e;
  }

  lemma OneFilter(cfg: BridgeConfig, columns: map<string, string>, num: string -> Option<real>, base: string)
    returns (fs: seq<Filter>)
    requires num("1") == Some(1.0) && num("2") == Some(2.0)
    requires forall a | a in columns :: ValidIdentifier(columns[a])
    requires Swallows(cfg, columns, base)
    ensures |fs| == 1 && Walk(cfg, columns, num, TwoBounds(cfg, base), 0, {}, []) == Ok(fs)
  {
    var d := TwoBounds(cfg, base);
    SwallowingPairs(cfg, base);
    var f := Range(LowerColumn(cfg, columns, base).value, Some(1.0), Some(2.0));
    assert Emit(cfg, columns, num, d, d[0]) == Some(Ok(f));
    var consumed := {} + Consumes(cfg, d[0].0);
    fs := [] + [f];
    assert Walk(cfg, columns, num, d, 2, consumed, fs) == Ok(fs);
    assert Walk(cfg, columns, num, d, 1, consumed, fs) == Ok(fs);
  }

  lemma TwoFilters(cfg: BridgeConfig, columns: map<string, string>, num: string -> Option<real>, base: string)
    returns (fs: seq<Filter>)
    requires num("1") == Some(1.0) && num("2") == Some(2.0)
    requires forall a | a in columns :: ValidIdentifier(columns[a])
    requires Swallows(cfg, columns, base)
    ensures |fs| == 2 && Walk(cfg, columns, num, Swapped(cfg, base), 0, {}, []) == Ok(fs)
  {
    var e := Swapped(cfg, base);
    var inner := Base(base + cfg.maxSuffix, cfg.minSuffix);
    SwallowingPairs(cfg, base);
    var g := Range(LowerColumn(cfg, columns, inner).value, Some(2.0), None);
    var f := Range(LowerColumn(cfg, columns, base).value, Some(1.0), Some(2.0));
    assert Emit(cfg, columns, num, e, e[0]) == Some(Ok(g));
    assert Emit(cfg, columns, num, e, e[1]) == Some(Ok(f));
    var first := {} + Consumes(cfg, e[0].0);
    var both := first + Consumes(cfg, e[1].0);
    fs := [] + [g] + [f];
    assert Walk(cfg, columns, num, e, 2, both, fs) == Ok(fs);
    assert Walk(cfg, columns, num, e, 1, first, [] + [g]) == Ok(fs);
  }

  // ---- The same condition for errors

  /** A slot whose filter cannot be made fails every hint it stands in. */
  ghost predicate ErrorsShow(cfg: BridgeConfig, columns: map<string, string>, num: string -> Option<real>) {
    forall hint, p | p in SqlHint.PairsOf(Split(hint)) && Fails(cfg, columns, num, SqlHint.PairsOf(Split(hint)), p) ::
      Walk(cfg, columns, num, SqlHint.PairsOf(Split(hint)), 0, {}, []).Err?
  }

  /** No error is lost exactly when no base that can occur swallows another's filter. */
  lemma ErrorsShowIff(cfg: BridgeConfig, columns: map<string, string>, num: string -> Option<real>)
    requires cfg.Valid() && num("1") == Some(1.0) && num("2") == Some(2.0)
    requires forall a | a in columns :: ValidIdentifier(columns[a])
    ensures ErrorsShow(cfg, columns, num) <==> forall base | Expressible(cfg, base) :: !Swallows(cfg, columns, base)
  {
    if forall base | Expressible(cfg, base) :: !Swallows(cfg, columns, base) {
      forall hint, p | p in SqlHint.PairsOf(Split(hint)) && Fails(cfg, columns, num, SqlHint.PairsOf(Split(hint)), p)
        ensures Walk(cfg, columns, num, SqlHint.PairsOf(Split(hint)), 0, {}, []).Err?
      {
        ReadHintNames(cfg, hint);
        FailingSlotFailsHint(cfg, columns, num, SqlHint.PairsOf(Split(hint)), p);
      }
    } else {
      var base :| Expressible(cfg, base) && Swallows(cfg, columns, base);
      SwallowedErrorIsLost(cfg, columns, num, base);
    }
  }

  /** The bounds of a swallowing base, and an upper bound below the lower one of the inner base. */
  function LostError(cfg: BridgeConfig, base: string): seq<(string, string)>
    requires Ambiguous(cfg, base)
  {
    TwoBounds(cfg, base) + [(Base(base + cfg.maxSuffix, cfg.minSuffix) + cfg.maxSuffix, "1")]
  }

  lemma LostErrorFacts(cfg: BridgeConfig, base: string)
    requires Ambiguous(cfg, base) && cfg.minSuffix != cfg.maxSuffix
    ensures var d := LostError(cfg, base);
            var inner := Base(base + cfg.maxSuffix, cfg.minSuffix);
            && UniqueKeys(d) && |d| == 3 && d[0] == (base + cfg.minSuffix, "1") && d[1] == (base + cfg.maxSuffix, "2")
            && d[2] == (inner + cfg.maxSuffix, "1")
            && Lookup(d, base + cfg.maxSuffix) == Some("2") && Lookup(d, inner + cfg.maxSuffix) == Some("1")
            && (KindOf(cfg, d[2].0).Lower? ==> Lookup(d, KindOf(cfg, d[2].0).base + cfg.maxSuffix).None?)
            && (KindOf(cfg, d[2].0).Upper? ==> Lookup(d, KindOf(cfg, d[2].0).base + cfg.minSuffix).Some?)
            && !KindOf(cfg, d[2].0).Plain?
  {
    var d := LostError(cfg, base);
    var inner := Base(base + cfg.maxSuffix, cfg.minSuffix);
    SwallowingPairs(cfg, base);
    InnerUpperIsNew(cfg, base);
    assert d[0].0 != d[1].0;
    LookupUnique(d, d[1]);
    LookupUnique(d, d[2]);
    SlotOfKind(cfg, d[2].0);
    assert (inner + cfg.maxSuffix)[|inner|..] == cfg.maxSuffix && (inner + cfg.maxSuffix)[..|inner|] == inner;
    if KindOf(cfg, d[2].0).Lower? { LookupMember(d, KindOf(cfg, d[2].0).base + cfg.maxSuffix); }
    assert |cfg.minSuffix| != |cfg.maxSuffix| by {
      assert (base + cfg.maxSuffix)[|base|..] == cfg.maxSuffix;
    }
  }

  /** A hint text that reads as those pairs. */
  lemma LostErrorPrints(cfg: BridgeConfig, base: string)
    requires cfg.Valid() && Expressible(cfg, base) && Ambiguous(cfg, base) && cfg.minSuffix != cfg.maxSuffix
    ensures var d := LostError(cfg, base); SqlHint.PairsOf(Split(Join(MapSeq(SqlHint.PrintPair, d)))) == d
  {
    var inner := Base(base + cfg.maxSuffix, cfg.minSuffix);
    LostErrorFacts(cfg, base);
    assert SqlHint.Nameable(inner + cfg.maxSuffix) by {
      assert forall i | 0 <= i < |inner| :: inner[i] == (base + cfg.maxSuffix)[i];
      assert forall i | 0 <= i < |cfg.maxSuffix| :: cfg.maxSuffix[i] == (base + cfg.maxSuffix)[|base| + i];
    }
    PrintedDictionary(LostError(cfg, base));
  }

  /** What the three slots emit: a filter, an error, and nothing wrong. */
  lemma LostErrorEmits(cfg: BridgeConfig, columns: map<string, string>, num: string -> Option<real>, base: string)
    requires num("1") == Some(1.0) && num("2") == Some(2.0)
    requires forall a | a in columns :: ValidIdentifier(columns[a])
    requires Swallows(cfg, columns, base)
    ensures var d := LostError(cfg, base);
            && |d| == 3 && d[1].0 in Consumes(cfg, d[0].0) && Fails(cfg, columns, num, d, d[1])
            && Emit(cfg, columns, num, d, d[0]) ==
               Some(Ok(Range(LowerColumn(cfg, columns, base).value, Some(1.0), Some(2.0))))
            && !Fails(cfg, columns, num, d, d[2])
  {
    LostErrorFacts(cfg, base);
    SwallowingPairs(cfg, base);
  }

  lemma SwallowedErrorIsLost(cfg: BridgeConfig, columns: map<string, string>, num: string -> Option<real>, base: string)
    requires cfg.Valid() && num("1") == Some(1.0) && num("2") == Some(2.0)
    requires forall a | a in columns :: ValidIdentifier(columns[a])
    requires Expressible(cfg, base) && Swallows(cfg, columns, base)
    ensures !ErrorsShow(cfg, columns, num)
  {
    var d := LostError(cfg, base);
    var f := Range(LowerColumn(cfg, columns, base).value, Some(1.0), Some(2.0));
    var consumed := {} + Consumes(cfg, d[0].0);
    LostErrorEmits(cfg, columns, num, base);
    LostErrorPrints(cfg, base);
    assert Walk(cfg, columns, num, d, 0, {}, []).Ok? by {
      hide Walk;
      hide Emit;
      hide Consumes;
      WalkTakes(cfg, columns, num, d, 0, {}, [], f);
      WalkSkips(cfg, columns, num, d, 1, consumed, [] + [f]);
      if Emit(cfg, columns, num, d, d[2]).None? || d[2].0 in consumed {
        WalkSkips(cfg, columns, num, d, 2, consumed, [] + [f]);
        WalkEnds(cfg, columns, num, d, consumed, [] + [f]);
      } else {
        var g := Emit(cfg, columns, num, d, d[2]).value.value;
        WalkTakes(cfg, columns, num, d, 2, consumed, [] + [f], g);
        WalkEnds(cfg, columns, num, d, consumed + Consumes(cfg, d[2].0), [] + [f] + [g]);
      }
    }
    hide *;
    LosesError(cfg, columns, num, d);
  }

  lemma LosesError(cfg: BridgeConfig, columns: map<string, string>, num: string -> Option<real>,
                   d: seq<(string, string)>)
    requires SqlHint.PairsOf(Split(Join(MapSeq(SqlHint.PrintPair, d)))) == d
    requires |d| > 1 && Fails(cfg, columns, num, d, d[1]) && Walk(cfg, columns, num, d, 0, {}, []).Ok?
    ensures !ErrorsShow(cfg, columns, num)
  {
    hide Walk;
    hide Fails;
    assert d[1] in d;
  }

  lemma ErrorsPermute(cfg: BridgeConfig, columns: map<string, string>, num: string -> Option<real>,
                      d: seq<(string, string)>, e: seq<(string, string)>)
    requires UniqueKeys(d) && UniqueKeys(e) && multiset(d) == multiset(e)
    requires EmitFirst(cfg, columns, num, d, |d|).Ok?
    ensures EmitFirst(cfg, columns, num, e, |e|).Ok?
  {
    ErrorIffSlotFails(cfg, columns, num, d, |d|);
    ErrorIffSlotFails(cfg, columns, num, e, |e|);
    StableSort.SameMembers(e, d);
    forall i | 0 <= i < |e| ensures !Fails(cfg, columns, num, e, e[i]) {
      assert e[i] in d;
      var j :| 0 <= j < |d| && d[j] == e[i];
      assert !Fails(cfg, columns, num, d, d[j]);
      EmitPermutes(cfg, columns, num, d, e, e[i]);
    }
  }

  lemma FiltersPermute(cfg: BridgeConfig, columns: map<string, string>, num: string -> Option<real>,
                       d: seq<(string, string)>, e: seq<(string, string)>)
    requires UniqueKeys(d) && UniqueKeys(e) && multiset(d) == multiset(e)
    ensures multiset(MapSeq(Emitted(cfg, columns, num, d), StableSort.Filter(Emitting(cfg, columns, num, d), d))) ==
            multiset(MapSeq(Emitted(cfg, columns, num, e), StableSort.Filter(Emitting(cfg, columns, num, e), e)))
  {
    var f, g := Emitting(cfg, columns, num, d), Emitting(cfg, columns, num, e);
    var m, n := Emitted(cfg, columns, num, d), Emitted(cfg, columns, num, e);
    forall p | p in e ensures f(p) == g(p) { EmitPermutes(cfg, columns, num, d, e, p); }
    StableSort.FilterAgree(f, g, e);
    StableSort.FilterPermutes(f, d, e);
    StableSort.MapPermutes(m, StableSort.Filter(f, d), StableSort.Filter(f, e));
    var kept := StableSort.Filter(f, e);
    forall i | 0 <= i < |kept| ensures m(kept[i]) == n(kept[i]) { EmitPermutes(cfg, columns, num, d, e, kept[i]); }
    assert MapSeq(m, kept) == MapSeq(n, kept);
  }

  // ---- The shipped configuration

  const SHIPPED := BridgeConfig(
    true,
    map["tld" := "tld_column", "auction_type" := "category_column", "price" := "price_column",
        "traffic" := "traffic_column", "bid_count" := "bid_count_column", "govalue" := "score_column"],
    "_min", "_max")

  /** It maps no bound by its own name, so whatever the columns are called, every hint means what it asks, in any order
      of its pairs, and no error goes unnoticed. */
  lemma ShippedBridge(columns: map<string, string>, num: string -> Option<real>)
    requires num("1") == Some(1.0) && num("2") == Some(2.0)
    requires forall a | a in columns :: ValidIdentifier(columns[a])
    ensures SHIPPED.Valid() && SHIPPED.SuffixesApart()
    ensures KeepsMeaning(SHIPPED, columns, num) && OrderIrrelevant(SHIPPED, columns, num)
    ensures ErrorsShow(SHIPPED, columns, num)
  {
    assert "_min"[1..] == "min" && "_max"[1..] == "max";
    assert "_min"[3] == 'n' && "_max"[3] == 'x';
    forall base ensures !Ambiguous(SHIPPED, base) { ApartIsUnambiguous(SHIPPED, base); }
    forall base ensures Mergeable(SHIPPED, columns, base) { ShippedColumns(columns, base); }
    MeaningKeptIff(SHIPPED, columns, num);
    ApartOrderIrrelevant(SHIPPED, columns, num);
    ErrorsShowIff(SHIPPED, columns, num);
  }

  lemma ShippedColumns(columns: map<string, string>, base: string)
    requires !Ambiguous(SHIPPED, base)
    ensures Mergeable(SHIPPED, columns, base)
  {
    NoBoundMapped(base + "_min");
    NoBoundMapped(base + "_max");
  }

  lemma NoBoundMapped(slot: string)
    requires |slot| >= 4 && slot[|slot| - 4] == '_'
    ensures slot !in SHIPPED.slotToAttr
  {
    forall name | name in SHIPPED.slotToAttr ensures |name| < 4 || name[|name| - 4] != '_' {}
  }
}
