/** The handful of string operations the service uses, on sequences of characters: `strip`, `split`, `join`,
    `partition`, decimal printing and `int()`. */
module Text {
  import opened Common

  /** Characters for which `str.isspace()` holds. */
  predicate IsSpace(c: char) {
    var n := c as int;
    9 <= n <= 13 || 28 <= n <= 32 || n == 133 || n == 160 || n == 5760 || 8192 <= n <= 8202
    || n == 8232 || n == 8233 || n == 8239 || n == 8287 || n == 12288
  }

  predicate NoSpace(s: string) {
    forall i | 0 <= i < |s| :: !IsSpace(s[i])
  }

  function StripLeft(s: string): string {
    if s != [] && IsSpace(s[0]) then StripLeft(s[1..]) else s
  }

  function StripRight(s: string): string {
    if s != [] && IsSpace(s[|s| - 1]) then StripRight(s[..|s| - 1]) else s
  }

  function Strip(s: string): string {
    StripRight(StripLeft(s))
  }

  lemma StripNoSpace(s: string)
    requires NoSpace(s)
    ensures Strip(s) == s
  {}

  predicate AllSpace(s: string) {
    forall i | 0 <= i < |s| :: IsSpace(s[i])
  }

  lemma {:induction false} StripLeftMeaning(s: string) returns (a: string)
    ensures s == a + StripLeft(s) && AllSpace(a)
    ensures StripLeft(s) != [] ==> !IsSpace(StripLeft(s)[0])
  {
    a := [];
    if s != [] && IsSpace(s[0]) {
      var rest := StripLeftMeaning(s[1..]);
      a := [s[0]] + rest;
    }
  }

  lemma {:induction false} StripRightMeaning(s: string) returns (b: string)
    ensures s == StripRight(s) + b && AllSpace(b)
    ensures StripRight(s) != [] ==> !IsSpace(StripRight(s)[|StripRight(s)| - 1])
  {
    b := [];
    if s != [] && IsSpace(s[|s| - 1]) {
      var front := StripRightMeaning(s[..|s| - 1]);
      b := front + [s[|s| - 1]];
    }
  }

  /** Stripping takes white space off both ends and nothing else: what is left, if anything, begins and ends with
      something else. */
  lemma StripMeaning(s: string) returns (a: string, b: string)
    ensures s == a + Strip(s) + b && AllSpace(a) && AllSpace(b)
    ensures Strip(s) != [] ==> !IsSpace(Strip(s)[0]) && !IsSpace(Strip(s)[|Strip(s)| - 1])
  {
    a := StripLeftMeaning(s);
    var t := StripLeft(s);
    b := StripRightMeaning(t);
    hide StripLeft;
    hide StripRight;
    if StripRight(t) != [] { assert StripRight(t)[0] == t[0]; }
  }

  lemma StripsToNothing(s: string)
    ensures Strip(s) == [] <==> AllSpace(s)
  {
    var a, b := StripMeaning(s);
    hide Strip;
    if Strip(s) != [] { assert s[|a|] == Strip(s)[0]; }
  }

  /** White space, code point by code point. */
  lemma SpaceCodes(c: char)
    ensures IsSpace(c) <==>
            c as int in {9, 10, 11, 12, 13, 28, 29, 30, 31, 32, 133, 160, 5760, 8192, 8193, 8194, 8195, 8196, 8197,
                         8198, 8199, 8200, 8201, 8202, 8232, 8233, 8239, 8287, 12288}
  {}

  // ---- Decimal text

  predicate IsDigit(c: char) {
    '0' <= c <= '9'
  }

  function DigitChar(d: nat): (c: char)
    requires d < 10
    ensures IsDigit(c) && DigitValue(c) == d
  {
    (d + '0' as int) as char
  }

  function DigitValue(c: char): (d: nat)
    requires IsDigit(c)
    ensures d < 10
  {
    c as int - '0' as int
  }

  function NatText(n: nat): (s: string)
    ensures s != [] && forall i | 0 <= i < |s| :: IsDigit(s[i])
  {
    if n < 10 then [DigitChar(n)] else NatText(n / 10) + [DigitChar(n % 10)]
  }

  /** `str(n)`. */
  function IntText(n: int): string {
    if n < 0 then "-" + NatText(-n) else NatText(n)
  }

  /** Digits, single underscores allowed between them. */
  function ParseDigits(s: string): Option<nat> {
    if s == [] || !IsDigit(s[|s| - 1]) then None
    else if |s| == 1 then Some(DigitValue(s[0]))
    else
      var front := if s[|s| - 2] == '_' then s[..|s| - 2] else s[..|s| - 1];
      match ParseDigits(front)
      case Some(n) => Some(10 * n + DigitValue(s[|s| - 1]))
      case None => None
  }

  /** `int(s)`, `None` standing for its `ValueError`. */
  function ParseInt(s: string): Option<int> {
    var t := Strip(s);
    var signed := t != [] && (t[0] == '+' || t[0] == '-');
    match ParseDigits(if signed then t[1..] else t)
    case Some(n) => Some(if signed && t[0] == '-' then -(n as int) else n)
    case None => None
  }

  /** Digits, with single underscores between digits. */
  predicate DigitGroups(s: string) {
    && s != [] && IsDigit(s[0]) && IsDigit(s[|s| - 1])
    && forall i | 0 <= i < |s| :: IsDigit(s[i]) || (s[i] == '_' && 0 < i < |s| - 1 && IsDigit(s[i - 1]))
  }

  lemma {:induction false} DigitsAreRead(s: string)
    ensures ParseDigits(s).Some? <==> DigitGroups(s)
    decreases |s|
  {
    if |s| > 1 && IsDigit(s[|s| - 1]) {
      var front := if s[|s| - 2] == '_' then s[..|s| - 2] else s[..|s| - 1];
      DigitsAreRead(front);
      if DigitGroups(s) {
        assert IsDigit(s[|s| - 2]) || IsDigit(s[|s| - 3]);
        assert front[|front| - 1] == s[|front| - 1];
      }
    }
  }

  /** Which texts read as an integer: white space around, one sign at most, digits with single underscores between
      them. */
  lemma IntegersAreRead(s: string)
    ensures ParseInt(s).Some? <==>
            var t := Strip(s); DigitGroups(if t != [] && t[0] in {'+', '-'} then t[1..] else t)
    ensures ParseInt(s).Some? && ParseInt(s).value < 0 ==> Strip(s)[0] == '-'
    ensures ParseInt(s).Some? && Strip(s)[0] == '-' ==> ParseInt(s).value <= 0
  {
    var t := Strip(s);
    DigitsAreRead(if t != [] && t[0] in {'+', '-'} then t[1..] else t);
  }

  lemma {:induction false} ParseNatText(n: nat)
    ensures ParseDigits(NatText(n)) == Some(n)
  {
    if n >= 10 {
      ParseNatText(n / 10);
      var s := NatText(n);
      assert s[..|s| - 1] == NatText(n / 10);
    }
  }

  /** Printing an integer and parsing it back are inverse. */
  /** Numbers are printed without leading zeros, and with a minus sign exactly when negative. */
  lemma {:induction false} PrintedPlainly(n: nat)
    ensures n > 0 ==> NatText(n)[0] != '0'
    ensures n < 10 ==> |NatText(n)| == 1
    ensures n > 0 ==> IntText(0 - n) == "-" + IntText(n)
    ensures IntText(n) == NatText(n)
  {
    if n >= 10 { PrintedPlainly(n / 10); }
  }

  lemma ParseIntText(n: int)
    ensures ParseInt(IntText(n)) == Some(n)
  {
    var digits := NatText(if n < 0 then -n else n);
    var t := IntText(n);
    ParseNatText(if n < 0 then -n else n);
    assert NoSpace(t) by {
      forall i | 0 <= i < |t| ensures !IsSpace(t[i]) {
        assert IsDigit(t[i]) || t[i] == '-';
      }
    }
    StripNoSpace(t);
    if n < 0 {
      assert IntText(n)[1..] == digits;
    }
  }

  // ---- Splitting on white space, joining with one blank

  predicate IsToken(t: string) {
    t != [] && NoSpace(t)
  }

  function TokenLength(s: string): (n: nat)
    ensures n <= |s| && NoSpace(s[..n])
    ensures n < |s| ==> IsSpace(s[n])
    ensures s != [] && !IsSpace(s[0]) ==> n >= 1
  {
    if s == [] || IsSpace(s[0]) then 0 else 1 + TokenLength(s[1..])
  }

  /** `s.split()`. */
  function Split(s: string): seq<string>
    decreases |s|
  {
    if s == [] then []
    else if IsSpace(s[0]) then Split(s[1..])
    else [s[..TokenLength(s)]] + Split(s[TokenLength(s)..])
  }

  /** `" ".join(ts)`. */
  function Join(ts: seq<string>): string {
    if ts == [] then []
    else if |ts| == 1 then ts[0]
    else ts[0] + " " + Join(ts[1..])
  }

  lemma {:induction false} SplitTokens(s: string)
    ensures forall t | t in Split(s) :: IsToken(t)
    decreases |s|
  {
    if s != [] {
      if IsSpace(s[0]) { SplitTokens(s[1..]); } else { SplitTokens(s[TokenLength(s)..]); }
    }
  }

  lemma {:induction false} TokenLengthIs(t: string, rest: string)
    requires NoSpace(t) && (rest != [] ==> IsSpace(rest[0]))
    ensures TokenLength(t + rest) == |t|
  {
    if t != [] {
      assert (t + rest)[1..] == t[1..] + rest;
      TokenLengthIs(t[1..], rest);
    } else {
      assert t + rest == rest;
    }
  }

  lemma SplitFirst(t: string, rest: string)
    requires IsToken(t) && (rest != [] ==> IsSpace(rest[0]))
    ensures Split(t + rest) == [t] + Split(rest)
  {
    TokenLengthIs(t, rest);
    assert (t + rest)[..|t|] == t && (t + rest)[|t|..] == rest;
  }

  /** What is left of a list of tokens after its printed form is cut to `n` characters: whole tokens, then perhaps the
      beginning of one more. */
  function CutTokens(ts: seq<string>, n: nat): seq<string> {
    if ts == [] || n == 0 then []
    else if n <= |ts[0]| then [ts[0][..n]]
    else [ts[0]] + CutTokens(ts[1..], n - |ts[0]| - 1)
  }

  lemma {:induction false} SplitCut(ts: seq<string>, n: nat)
    requires (forall t | t in ts :: IsToken(t)) && n <= |Join(ts)|
    ensures Split(Join(ts)[..n]) == CutTokens(ts, n)
    decreases |ts|
  {
    if ts == [] || n == 0 {
      assert Join(ts)[..n] == [];
    } else if n <= |ts[0]| {
      var t := ts[0][..n];
      assert ts[0] in ts;
      assert Join(ts)[..n] == t + [];
      SplitFirst(t, []);
    } else {
      var rest := Join(ts[1..]);
      var m := n - |ts[0]| - 1;
      assert Join(ts)[..n] == ts[0] + (" " + rest[..m]);
      SplitFirst(ts[0], " " + rest[..m]);
      assert (" " + rest[..m])[1..] == rest[..m];
      SplitCut(ts[1..], m);
    }
  }

  /** Splitting undoes joining. */
  lemma SplitJoin(ts: seq<string>)
    requires forall t | t in ts :: IsToken(t)
    ensures Split(Join(ts)) == ts
  {
    SplitCut(ts, |Join(ts)|);
    assert Join(ts)[..|Join(ts)|] == Join(ts);
    CutNothing(ts);
  }

  lemma {:induction false} CutNothing(ts: seq<string>)
    requires forall t | t in ts :: IsToken(t)
    ensures CutTokens(ts, |Join(ts)|) == ts
  {
    if |ts| > 1 {
      CutNothing(ts[1..]);
    } else if |ts| == 1 {
      assert ts[0] in ts;
      assert ts[0][..|ts[0]|] == ts[0];
    }
  }

  /** All surviving tokens but the last are whole and in place, and the last is a non-empty beginning of the token in
      its place. */
  lemma {:induction false} CutKeepsPrefix(ts: seq<string>, n: nat)
    requires forall t | t in ts :: IsToken(t)
    ensures var r := CutTokens(ts, n);
            && |r| <= |ts|
            && (forall i | 0 <= i < |r| - 1 :: r[i] == ts[i])
            && (r != [] ==> r[|r| - 1] != [] && r[|r| - 1] <= ts[|r| - 1])
  {
    if ts != [] && n > 0 {
      assert ts[0] in ts;
      if n > |ts[0]| {
        CutKeepsPrefix(ts[1..], n - |ts[0]| - 1);
        var rr := CutTokens(ts[1..], n - |ts[0]| - 1);
        assert CutTokens(ts, n) == [ts[0]] + rr;
      }
    }
  }

  /** Every token that fits into the cut survives whole. */
  lemma {:induction false} CutKeepsWhatFits(ts: seq<string>, n: nat, k: nat)
    requires forall t | t in ts :: IsToken(t)
    requires k <= |ts| && |Join(ts[..k])| <= n
    ensures ts[..k] <= CutTokens(ts, n)
  {
    if k > 0 {
      assert ts[0] in ts && ts[..k][0] == ts[0] && ts[..k][1..] == ts[1..][..k - 1];
      assert k > 1 ==> |Join(ts[..k])| == |ts[0]| + 1 + |Join(ts[1..][..k - 1])|;
      assert ts[..k] == [ts[0]] + ts[1..][..k - 1];
      if n > |ts[0]| {
        var m := n - |ts[0]| - 1;
        if k == 1 { assert ts[1..][..0] == []; }
        CutKeepsWhatFits(ts[1..], m, k - 1);
        assert CutTokens(ts, n) == [ts[0]] + CutTokens(ts[1..], m);
      } else {
        assert k == 1 && ts[0][..n] == ts[0];
      }
    }
  }

  // ---- Splitting a token at its first equals sign

  function FindEquals(s: string): (n: nat)
    ensures n <= |s|
    ensures forall i | 0 <= i < n :: s[i] != '='
    ensures n < |s| ==> s[n] == '='
  {
    if s == [] || s[0] == '=' then 0 else 1 + FindEquals(s[1..])
  }

  /** Name and value of a `key=value` token; `None` when it holds no equals sign. */
  function PairOf(token: string): Option<(string, string)> {
    var n := FindEquals(token);
    if n == |token| then None else Some((Strip(token[..n]), Strip(token[n + 1..])))
  }

  predicate NoEquals(s: string) {
    forall i | 0 <= i < |s| :: s[i] != '='
  }

  lemma PairOfToken(name: string, value: string)
    requires NoSpace(name) && NoEquals(name) && NoSpace(value)
    ensures PairOf(name + "=" + value) == Some((name, value))
  {
    var t := name + "=" + value;
    assert t[|name|] == '=';
    assert FindEquals(t) == |name|;
    assert t[..|name|] == name && t[|name| + 1..] == value;
    StripNoSpace(name);
    StripNoSpace(value);
  }
}
