/** The list sort the service relies on everywhere (`list.sort`, `sorted`).  A short list, or a piece of a long one:
    find the leading run, reverse it when it is strictly descending, insert every remaining element by binary search.
    A long list: sort consecutive pieces and merge neighbours.  `lt` is an arbitrary comparison, so the facts below
    are split by how much order the comparison really has on the list at hand. */
module StableSort {
  import opened Common

  /** Two elements the comparison cannot separate. */
  predicate Tie<T>(lt: (T, T) -> bool, x: T, y: T) {
    !lt(x, y) && !lt(y, x)
  }

  ghost predicate AsymmetricOn<T>(lt: (T, T) -> bool, s: seq<T>) {
    forall x, y {:trigger lt(x, y)} | x in s && y in s && lt(x, y) :: !lt(y, x)
  }

  ghost predicate TransitiveOn<T>(lt: (T, T) -> bool, s: seq<T>) {
    forall x, y, z {:trigger lt(x, y), lt(y, z)} | x in s && y in s && z in s && lt(x, y) && lt(y, z) :: lt(x, z)
  }

  ghost predicate PartialOrderOn<T>(lt: (T, T) -> bool, s: seq<T>) {
    AsymmetricOn(lt, s) && TransitiveOn(lt, s)
  }

  /** A strict order whose ties are an equivalence, i.e. a total preorder. */
  ghost predicate WeakOrderOn<T>(lt: (T, T) -> bool, s: seq<T>) {
    && PartialOrderOn(lt, s)
    && forall x, y, z {:trigger Tie(lt, x, y), Tie(lt, y, z)}
         | x in s && y in s && z in s && Tie(lt, x, y) && Tie(lt, y, z) :: Tie(lt, x, z)
  }

  /** No element is smaller than its immediate predecessor: all a comparison sort ever checks. */
  ghost predicate LocallySorted<T>(lt: (T, T) -> bool, s: seq<T>) {
    forall i | 0 < i < |s| :: !lt(s[i], s[i - 1])
  }

  /** No inverted pair at any distance. */
  ghost predicate FullySorted<T>(lt: (T, T) -> bool, s: seq<T>) {
    forall i, j | 0 <= i < j < |s| :: !lt(s[j], s[i])
  }

  /** Every element is smaller than its immediate predecessor. */
  ghost predicate StrictlyDescending<T>(lt: (T, T) -> bool, s: seq<T>) {
    forall i | 0 < i < |s| :: lt(s[i], s[i - 1])
  }

  /** `FullySorted` and `LocallySorted` read the other way round, for the descending sort. */
  ghost predicate FullyDescending<T>(lt: (T, T) -> bool, s: seq<T>) {
    forall i, j | 0 <= i < j < |s| :: !lt(s[i], s[j])
  }

  ghost predicate LocallyDescending<T>(lt: (T, T) -> bool, s: seq<T>) {
    forall i | 0 < i < |s| :: !lt(s[i - 1], s[i])
  }

  function Reverse<T>(s: seq<T>): (r: seq<T>)
    ensures |r| == |s|
    ensures forall i | 0 <= i < |s| :: r[i] == s[|s| - 1 - i]
  {
    if s == [] then [] else Reverse(s[1..]) + [s[0]]
  }

  function Filter<T>(p: T -> bool, s: seq<T>): seq<T> {
    if s == [] then []
    else if p(s[0]) then [s[0]] + Filter(p, s[1..])
    else Filter(p, s[1..])
  }

  function TiesWith<T>(lt: (T, T) -> bool, c: T): T -> bool {
    (y: T) => Tie(lt, c, y)
  }

  /** Elements of `s` that tie with `c`, in order. */
  function TiesOf<T>(lt: (T, T) -> bool, c: T, s: seq<T>): seq<T> {
    Filter(TiesWith(lt, c), s)
  }

  /** Binary search for the insertion point of `x`: to the right of everything not greater than it. */
  function InsertPos<T>(lt: (T, T) -> bool, s: seq<T>, x: T, lo: nat, hi: nat): (p: nat)
    requires lo <= hi <= |s|
    requires lo > 0 ==> !lt(x, s[lo - 1])
    requires hi < |s| ==> lt(x, s[hi])
    ensures lo <= p <= hi
    ensures p > 0 ==> !lt(x, s[p - 1])
    ensures p < |s| ==> lt(x, s[p])
    decreases hi - lo
  {
    if lo == hi then lo
    else
      var mid := lo + (hi - lo) / 2;
      if lt(x, s[mid]) then InsertPos(lt, s, x, lo, mid) else InsertPos(lt, s, x, mid + 1, hi)
  }

  function Insert<T>(lt: (T, T) -> bool, s: seq<T>, x: T): seq<T> {
    var p := InsertPos(lt, s, x, 0, |s|);
    s[..p] + [x] + s[p..]
  }

  function InsertAll<T>(lt: (T, T) -> bool, sorted: seq<T>, rest: seq<T>): seq<T>
    decreases |rest|
  {
    if rest == [] then sorted else InsertAll(lt, Insert(lt, sorted, rest[0]), rest[1..])
  }

  /** Length of the leading stretch that never steps down. */
  function AscendingRun<T>(lt: (T, T) -> bool, s: seq<T>): (n: nat)
    requires s != []
    ensures 1 <= n <= |s|
    ensures LocallySorted(lt, s[..n])
    ensures n < |s| ==> lt(s[n], s[n - 1])
  {
    if |s| == 1 || lt(s[1], s[0]) then 1
    else
      var n := 1 + AscendingRun(lt, s[1..]);
      assert s[..n] == [s[0]] + s[1..][..n - 1];
      n
  }

  /** Length of the leading stretch that steps strictly down every time. */
  function DescendingRun<T>(lt: (T, T) -> bool, s: seq<T>): (n: nat)
    requires s != []
    ensures 1 <= n <= |s|
    ensures StrictlyDescending(lt, s[..n])
  {
    if |s| == 1 || !lt(s[1], s[0]) then 1
    else
      var n := 1 + DescendingRun(lt, s[1..]);
      assert s[..n] == [s[0]] + s[1..][..n - 1];
      n
  }

  /** The leading run: its length, and its elements in non-descending order. */
  function RunLength<T>(lt: (T, T) -> bool, s: seq<T>): (n: nat)
    requires |s| >= 2
    ensures n <= |s|
  {
    if lt(s[1], s[0]) then DescendingRun(lt, s) else AscendingRun(lt, s)
  }

  function Run<T>(lt: (T, T) -> bool, s: seq<T>): seq<T>
    requires |s| >= 2
  {
    var n := RunLength(lt, s);
    if lt(s[1], s[0]) then Reverse(s[..n]) else s[..n]
  }

  /** The sort of a list shorter than 64, and of every piece of a longer one. */
  function Sort<T>(lt: (T, T) -> bool, s: seq<T>): seq<T> {
    if |s| < 2 then s else InsertAll(lt, Run(lt, s), s[RunLength(lt, s)..])
  }

  /** `sort(reverse=True)`: reverse, sort, reverse, so that ties keep their original order. */
  function SortDescending<T>(lt: (T, T) -> bool, s: seq<T>): seq<T> {
    Reverse(Sort(lt, Reverse(s)))
  }

  // ---- Merging

  /** Two lists woven into one: each pick says which side the next element comes from, `true` for the right one. */
  function Weave<T>(a: seq<T>, b: seq<T>, picks: seq<bool>): seq<T>
    decreases |a| + |b|
  {
    if a == [] then b
    else if b == [] || picks == [] then a + b
    else if picks[0] then [b[0]] + Weave(a, b[1..], picks[1..])
    else [a[0]] + Weave(a[1..], b, picks[1..])
  }

  predicate LeftNext<T(==)>(a: seq<T>, b: seq<T>, picks: seq<bool>) {
    a != [] && (b == [] || (picks != [] && !picks[0]))
  }

  predicate RightNext<T(==)>(a: seq<T>, b: seq<T>, picks: seq<bool>) {
    b != [] && (a == [] || (picks != [] && picks[0]))
  }

  /** Wherever the result changes sides the two neighbours were compared: a right element after a left one is not
      smaller, a left element after a right one is greater.  Merging element by element from either end guarantees
      this (`HeadPicks`), and so does galloping, whose searches end between two compared neighbours
      (`LeftStretchChecked`, `RightStretchChecked`). */
  predicate Checked<T(==)>(lt: (T, T) -> bool, a: seq<T>, b: seq<T>, picks: seq<bool>)
    decreases |a| + |b|
  {
    if a == [] || b == [] then true
    else if picks == [] then false
    else if picks[0] then
      (LeftNext(a, b[1..], picks[1..]) ==> lt(b[0], a[0])) && Checked(lt, a, b[1..], picks[1..])
    else
      (RightNext(a[1..], b, picks[1..]) ==> !lt(b[0], a[0])) && Checked(lt, a[1..], b, picks[1..])
  }

  /** The picks of a merge that compares the two heads every time. */
  function HeadPicks<T(==)>(lt: (T, T) -> bool, a: seq<T>, b: seq<T>): (picks: seq<bool>)
    ensures Checked(lt, a, b, picks)
    decreases |a| + |b|
  {
    if a == [] || b == [] then []
    else if lt(b[0], a[0]) then [true] + HeadPicks(lt, a, b[1..])
    else [false] + HeadPicks(lt, a[1..], b)
  }

  /** A stretch of `k` elements copied from the left without further comparisons, as galloping does, keeps the picks
      checked if its end was compared with the head of the right list ... */
  lemma {:induction false} LeftStretchChecked<T>(lt: (T, T) -> bool, a: seq<T>, b: seq<T>, k: nat, picks: seq<bool>)
    requires k <= |a| && b != [] && Checked(lt, a[k..], b, picks)
    requires k > 0 && RightNext(a[k..], b, picks) ==> !lt(b[0], a[k - 1])
    ensures Checked(lt, a, b, seq(k, n => false) + picks)
  {
    var all := seq(k, n => false) + picks;
    if k == 0 {
      assert a[k..] == a && all == picks;
    } else {
      assert a[k..] == a[1..][k - 1..];
      assert all[1..] == seq(k - 1, n => false) + picks;
      LeftStretchChecked(lt, a[1..], b, k - 1, picks);
      if k == 1 { assert all[1..] == picks; }
    }
  }

  /** ... and the same from the right. */
  lemma {:induction false} RightStretchChecked<T>(lt: (T, T) -> bool, a: seq<T>, b: seq<T>, k: nat, picks: seq<bool>)
    requires k <= |b| && a != [] && Checked(lt, a, b[k..], picks)
    requires k > 0 && LeftNext(a, b[k..], picks) ==> lt(b[k - 1], a[0])
    ensures Checked(lt, a, b, seq(k, n => true) + picks)
  {
    var all := seq(k, n => true) + picks;
    if k == 0 {
      assert b[k..] == b && all == picks;
    } else {
      assert b[k..] == b[1..][k - 1..];
      assert all[1..] == seq(k - 1, n => true) + picks;
      RightStretchChecked(lt, a, b[1..], k - 1, picks);
      if k == 1 { assert all[1..] == picks; }
    }
  }

  function MergeRuns<T(==)>(lt: (T, T) -> bool, a: seq<T>, b: seq<T>, picks: seq<bool>): seq<T> {
    Weave(a, b, if Checked(lt, a, b, picks) then picks else HeadPicks(lt, a, b))
  }

  /** How a list was cut into pieces, in which order the pieces were merged, and how each merge went.  The library
      decides all this from the data; below it is arbitrary. */
  datatype Plan = Piece | Merge(cut: nat, left: Plan, right: Plan, picks: seq<bool>)

  /** The sort of a list of any length. */
  function ListSort<T(==)>(lt: (T, T) -> bool, plan: Plan, s: seq<T>): seq<T>
    decreases plan
  {
    match plan
    case Piece => Sort(lt, s)
    case Merge(cut, left, right, picks) =>
      if cut > |s| then Sort(lt, s)
      else MergeRuns(lt, ListSort(lt, left, s[..cut]), ListSort(lt, right, s[cut..]), picks)
  }

  function ListSortDescending<T(==)>(lt: (T, T) -> bool, plan: Plan, s: seq<T>): seq<T> {
    Reverse(ListSort(lt, plan, Reverse(s)))
  }

  // ---- Reversal and filtering

  lemma {:induction false} ReverseAppend<T>(a: seq<T>, b: seq<T>)
    ensures Reverse(a + b) == Reverse(b) + Reverse(a)
  {
    if a == [] {
      assert a + b == b;
    } else {
      assert (a + b)[1..] == a[1..] + b;
      ReverseAppend(a[1..], b);
    }
  }

  lemma ReverseReverse<T>(s: seq<T>)
    ensures Reverse(Reverse(s)) == s
  {}

  lemma {:induction false} ReverseMultiset<T>(s: seq<T>)
    ensures multiset(Reverse(s)) == multiset(s)
  {
    if s != [] {
      ReverseMultiset(s[1..]);
      assert s == [s[0]] + s[1..];
    }
  }

  lemma {:induction false} FilterAppend<T>(p: T -> bool, a: seq<T>, b: seq<T>)
    ensures Filter(p, a + b) == Filter(p, a) + Filter(p, b)
  {
    if a == [] {
      assert a + b == b;
    } else {
      assert (a + b)[1..] == a[1..] + b;
      FilterAppend(p, a[1..], b);
    }
  }

  lemma FilterOne<T>(p: T -> bool, x: T)
    ensures Filter(p, [x]) == if p(x) then [x] else []
  {}

  lemma {:induction false} FilterNone<T>(p: T -> bool, s: seq<T>)
    requires forall x | x in s :: !p(x)
    ensures Filter(p, s) == []
  {
    if s != [] { FilterNone(p, s[1..]); }
  }

  lemma {:induction false} FilterReverse<T>(p: T -> bool, s: seq<T>)
    ensures Filter(p, Reverse(s)) == Reverse(Filter(p, s))
  {
    if s != [] {
      FilterAppend(p, Reverse(s[1..]), [s[0]]);
      FilterReverse(p, s[1..]);
      ReverseAppend([s[0]], Filter(p, s[1..]));
    }
  }

  lemma SameMembers<T>(a: seq<T>, b: seq<T>)
    requires multiset(a) == multiset(b)
    ensures |a| == |b|
    ensures forall x | x in a :: x in b
    ensures forall x | x in b :: x in a
  {
    assert |multiset(a)| == |a| && |multiset(b)| == |b|;
    forall x | x in a ensures x in b { assert x in multiset(a); }
    forall x | x in b ensures x in a { assert x in multiset(b); }
  }

  lemma SplitPermutes<T>(s: seq<T>, n: nat)
    requires n <= |s|
    ensures multiset(s) == multiset(s[..n]) + multiset(s[n..])
  {
    assert s == s[..n] + s[n..];
  }

  // ---- Renaming the elements of a permutation

  lemma MapAppend<A, B>(f: A -> B, a: seq<A>, b: seq<A>)
    ensures MapSeq(f, a + b) == MapSeq(f, a) + MapSeq(f, b)
  {}

  lemma DropMatching<A>(a: seq<A>, b: seq<A>, k: nat)
    requires a != [] && k < |b| && b[k] == a[0]
    requires multiset(a) == multiset(b)
    ensures multiset(a[1..]) == multiset(b[..k] + b[k + 1..])
  {
    assert a == [a[0]] + a[1..];
    assert b == b[..k] + [a[0]] + b[k + 1..];
    assert multiset(a) == multiset{a[0]} + multiset(a[1..]);
    assert multiset(b) == multiset(b[..k]) + multiset{a[0]} + multiset(b[k + 1..]);
    assert multiset(a[1..]) == multiset(a) - multiset{a[0]};
    assert multiset(b[..k] + b[k + 1..]) == multiset(b) - multiset{a[0]};
  }

  /** The head of a list, found again in a permutation of it. */
  lemma PermutedHead<A>(a: seq<A>, b: seq<A>) returns (k: nat)
    requires a != [] && multiset(a) == multiset(b)
    ensures k < |b| && b[k] == a[0] && multiset(a[1..]) == multiset(b[..k] + b[k + 1..])
  {
    SameMembers(a, b);
    assert a[0] in b;
    k :| 0 <= k < |b| && b[k] == a[0];
    DropMatching(a, b, k);
  }

  lemma MapAround<A, B>(f: A -> B, s: seq<A>, k: nat, rest: seq<A>)
    requires k < |s| && rest == s[..k] + s[k + 1..]
    ensures multiset(MapSeq(f, s)) == multiset(MapSeq(f, rest))[f(s[k]) := multiset(MapSeq(f, rest))[f(s[k])] + 1]
  {
    MapAppend(f, s[..k], s[k + 1..]);
    assert MapSeq(f, s) == MapSeq(f, s[..k]) + [f(s[k])] + MapSeq(f, s[k + 1..]);
  }

  lemma {:induction false} MapPermutes<A, B>(f: A -> B, a: seq<A>, b: seq<A>)
    requires multiset(a) == multiset(b)
    ensures multiset(MapSeq(f, a)) == multiset(MapSeq(f, b))
    decreases |a|
  {
    assert |multiset(a)| == |a| && |multiset(b)| == |b|;
    if a != [] {
      var k := PermutedHead(a, b);
      var restA, restB := a[1..], b[..k] + b[k + 1..];
      assert a[..0] + restA == restA;
      MapAround(f, a, 0, restA);
      MapAround(f, b, k, restB);
      MapPermutes(f, restA, restB);
    }
  }

  // ---- The sort is a permutation, whatever the comparison

  lemma InsertPermutes<T>(lt: (T, T) -> bool, sorted: seq<T>, x: T)
    ensures multiset(Insert(lt, sorted, x)) == multiset(sorted) + multiset{x}
  {
    var p := InsertPos(lt, sorted, x, 0, |sorted|);
    assert sorted == sorted[..p] + sorted[p..];
  }

  lemma {:induction false} InsertAllPermutes<T>(lt: (T, T) -> bool, sorted: seq<T>, rest: seq<T>)
    ensures multiset(InsertAll(lt, sorted, rest)) == multiset(sorted) + multiset(rest)
    decreases |rest|
  {
    if rest != [] {
      InsertPermutes(lt, sorted, rest[0]);
      InsertAllPermutes(lt, Insert(lt, sorted, rest[0]), rest[1..]);
      assert rest == [rest[0]] + rest[1..];
    }
  }

  lemma RunPermutes<T>(lt: (T, T) -> bool, s: seq<T>)
    requires |s| >= 2
    ensures multiset(Run(lt, s)) == multiset(s[..RunLength(lt, s)])
    ensures forall x | x in Run(lt, s) :: x in s
  {
    var n := RunLength(lt, s);
    ReverseMultiset(s[..n]);
    SameMembers(Run(lt, s), s[..n]);
  }

  lemma SortPermutes<T>(lt: (T, T) -> bool, s: seq<T>)
    ensures multiset(Sort(lt, s)) == multiset(s)
  {
    if |s| >= 2 {
      var n := RunLength(lt, s);
      assert multiset(Run(lt, s)) == multiset(s[..n]) by { RunPermutes(lt, s); }
      InsertAllPermutes(lt, Run(lt, s), s[n..]);
      SplitPermutes(s, n);
    }
  }

  // ---- Asymmetry alone leaves no adjacent inversion

  lemma InsertLocallySorted<T>(lt: (T, T) -> bool, sorted: seq<T>, x: T)
    requires LocallySorted(lt, sorted)
    requires forall y | y in sorted && lt(x, y) :: !lt(y, x)
    ensures LocallySorted(lt, Insert(lt, sorted, x))
  {
    var p := InsertPos(lt, sorted, x, 0, |sorted|);
    var t := Insert(lt, sorted, x);
    forall i | 0 < i < |t| ensures !lt(t[i], t[i - 1]) {
      if i == p + 1 {
        assert t[i] == sorted[p] && t[i - 1] == x;
      } else if i < p {
        assert t[i] == sorted[i] && t[i - 1] == sorted[i - 1];
      } else if i > p + 1 {
        assert t[i] == sorted[i - 1] && t[i - 1] == sorted[i - 2];
      }
    }
  }

  lemma InsertMembers<T>(lt: (T, T) -> bool, sorted: seq<T>, x: T)
    ensures forall y | y in Insert(lt, sorted, x) :: y in sorted || y == x
  {}

  lemma {:induction false} InsertAllLocallySorted<T>(lt: (T, T) -> bool, ctx: seq<T>, sorted: seq<T>, rest: seq<T>)
    requires AsymmetricOn(lt, ctx)
    requires (forall y | y in sorted :: y in ctx) && (forall y | y in rest :: y in ctx)
    requires LocallySorted(lt, sorted)
    ensures LocallySorted(lt, InsertAll(lt, sorted, rest))
    decreases |rest|
  {
    if rest != [] {
      assert rest[0] in ctx;
      InsertLocallySorted(lt, sorted, rest[0]);
      InsertMembers(lt, sorted, rest[0]);
      InsertAllLocallySorted(lt, ctx, Insert(lt, sorted, rest[0]), rest[1..]);
    }
  }

  lemma ReversedRunSorted<T>(lt: (T, T) -> bool, s: seq<T>)
    requires AsymmetricOn(lt, s) && StrictlyDescending(lt, s)
    ensures LocallySorted(lt, Reverse(s))
  {
    forall i | 0 < i < |s| ensures !lt(Reverse(s)[i], Reverse(s)[i - 1]) {
      assert Reverse(s)[i] == s[|s| - 1 - i] && Reverse(s)[i - 1] == s[|s| - i];
      assert lt(s[|s| - i], s[|s| - i - 1]);
    }
  }

  lemma RunLocallySorted<T>(lt: (T, T) -> bool, s: seq<T>)
    requires |s| >= 2 && AsymmetricOn(lt, s)
    ensures LocallySorted(lt, Run(lt, s))
  {
    if lt(s[1], s[0]) {
      OrderOnSubset(lt, s, s[..RunLength(lt, s)]);
      ReversedRunSorted(lt, s[..RunLength(lt, s)]);
    }
  }

  lemma SortLocallySorted<T>(lt: (T, T) -> bool, s: seq<T>)
    requires AsymmetricOn(lt, s)
    ensures LocallySorted(lt, Sort(lt, s))
  {
    if |s| >= 2 {
      RunPermutes(lt, s);
      RunLocallySorted(lt, s);
      InsertAllLocallySorted(lt, s, Run(lt, s), s[RunLength(lt, s)..]);
    }
  }

  /** Orders restrict to fewer elements. */
  lemma OrderOnSubset<T>(lt: (T, T) -> bool, s: seq<T>, t: seq<T>)
    requires forall x | x in t :: x in s
    ensures AsymmetricOn(lt, s) ==> AsymmetricOn(lt, t)
    ensures WeakOrderOn(lt, s) ==> WeakOrderOn(lt, t)
    ensures TotalOrderOn(lt, s) ==> TotalOrderOn(lt, t)
  {}

  /** "Not smaller" is transitive in a total preorder. */
  lemma NotSmallerTransitive<T>(lt: (T, T) -> bool, s: seq<T>, x: T, y: T, z: T)
    requires WeakOrderOn(lt, s) && x in s && y in s && z in s
    requires !lt(y, x) && !lt(z, y)
    ensures !lt(z, x)
    ensures lt(x, y) || lt(y, z) ==> lt(x, z)
  {
    assert lt(x, y) || Tie(lt, x, y);
    assert lt(y, z) || Tie(lt, y, z);
    assert lt(x, z) || lt(z, x) || Tie(lt, x, z);
    assert Tie(lt, x, y) ==> Tie(lt, y, x);
    assert Tie(lt, y, z) ==> Tie(lt, z, y);
    assert Tie(lt, x, z) ==> Tie(lt, z, x);
  }

  // ---- A total preorder leaves no inversion at all, and ties keep their order

  lemma {:induction false} LocalImpliesFull<T>(lt: (T, T) -> bool, s: seq<T>)
    requires WeakOrderOn(lt, s) && LocallySorted(lt, s)
    ensures FullySorted(lt, s)
  {
    forall i, j | 0 <= i < j < |s| ensures !lt(s[j], s[i]) {
      NoInversion(lt, s, i, j);
    }
  }

  lemma {:induction false} NoInversion<T>(lt: (T, T) -> bool, s: seq<T>, i: nat, j: nat)
    requires WeakOrderOn(lt, s) && LocallySorted(lt, s)
    requires i < j < |s|
    ensures !lt(s[j], s[i])
    decreases j
  {
    if i < j - 1 {
      NoInversion(lt, s, i, j - 1);
      NotSmallerTransitive(lt, s, s[i], s[j - 1], s[j]);
    }
  }

  /** Everything to the right of the insertion point is greater than whatever ties with the new element. */
  lemma NoTiesAfter<T>(lt: (T, T) -> bool, ctx: seq<T>, tail: seq<T>, x: T, c: T)
    requires WeakOrderOn(lt, ctx) && x in ctx && c in ctx && forall y | y in tail :: y in ctx
    requires LocallySorted(lt, tail) && (tail != [] ==> lt(x, tail[0])) && Tie(lt, c, x)
    ensures TiesOf(lt, c, tail) == []
  {
    forall y | y in tail ensures !Tie(lt, c, y) {
      var k :| 0 <= k < |tail| && tail[k] == y;
      OrderOnSubset(lt, ctx, tail);
      if 0 < k { NoInversion(lt, tail, 0, k); }
      NotSmallerTransitive(lt, ctx, x, tail[0], y);
      NotSmallerTransitive(lt, ctx, c, x, y);
    }
    FilterNone(TiesWith(lt, c), tail);
  }

  lemma FilterAround<T>(p: T -> bool, l: seq<T>, x: T, r: seq<T>)
    ensures Filter(p, l + [x] + r) == Filter(p, l) + Filter(p, [x]) + Filter(p, r)
  {
    FilterAppend(p, l + [x], r);
    FilterAppend(p, l, [x]);
  }

  lemma TiesAround<T>(lt: (T, T) -> bool, c: T, l: seq<T>, x: T, r: seq<T>)
    requires Tie(lt, c, x) ==> TiesOf(lt, c, r) == []
    ensures TiesOf(lt, c, l + [x] + r) == TiesOf(lt, c, l + r) + TiesOf(lt, c, [x])
  {
    var q := TiesWith(lt, c);
    FilterAround(q, l, x, r);
    FilterAppend(q, l, r);
    var before, after := Filter(q, l), Filter(q, r);
    if Tie(lt, c, x) {
      assert before + Filter(q, [x]) + [] == before + [] + Filter(q, [x]);
    } else {
      assert Filter(q, [x]) == [];
      assert before + [] + after == before + after + [];
    }
  }

  /** One insertion puts the new element after everything it ties with. */
  lemma InsertStable<T>(lt: (T, T) -> bool, ctx: seq<T>, sorted: seq<T>, x: T, c: T)
    requires WeakOrderOn(lt, ctx) && x in ctx && c in ctx && forall y | y in sorted :: y in ctx
    requires LocallySorted(lt, sorted)
    ensures TiesOf(lt, c, Insert(lt, sorted, x)) == TiesOf(lt, c, sorted) + TiesOf(lt, c, [x])
    ensures LocallySorted(lt, Insert(lt, sorted, x))
  {
    InsertLocallySorted(lt, sorted, x);
    var p := InsertPos(lt, sorted, x, 0, |sorted|);
    if Tie(lt, c, x) { NoTiesAfter(lt, ctx, sorted[p..], x, c); }
    assert sorted == sorted[..p] + sorted[p..];
    TiesAround(lt, c, sorted[..p], x, sorted[p..]);
  }

  lemma TiesSplit<T>(lt: (T, T) -> bool, c: T, s: seq<T>)
    requires s != []
    ensures TiesOf(lt, c, s) == TiesOf(lt, c, [s[0]]) + TiesOf(lt, c, s[1..])
  {
    assert s == [s[0]] + s[1..];
    FilterAppend(TiesWith(lt, c), [s[0]], s[1..]);
  }

  lemma Regroup<T>(a: seq<T>, b: seq<T>, c: seq<T>)
    ensures (a + b) + c == a + (b + c)
  {}

  lemma InsertAllOnce<T>(lt: (T, T) -> bool, sorted: seq<T>, rest: seq<T>)
    requires rest != []
    ensures InsertAll(lt, sorted, rest) == InsertAll(lt, Insert(lt, sorted, rest[0]), rest[1..])
  {}

  lemma {:induction false} InsertAllStable<T>(lt: (T, T) -> bool, ctx: seq<T>, sorted: seq<T>, rest: seq<T>, c: T)
    requires WeakOrderOn(lt, ctx) && c in ctx
    requires (forall y | y in sorted :: y in ctx) && (forall y | y in rest :: y in ctx)
    requires LocallySorted(lt, sorted)
    ensures TiesOf(lt, c, InsertAll(lt, sorted, rest)) == TiesOf(lt, c, sorted) + TiesOf(lt, c, rest)
    decreases |rest|
  {
    if rest == [] {
      assert TiesOf(lt, c, rest) == [];
    } else {
      hide *;
      var x, tail := rest[0], rest[1..];
      assert x in ctx && forall y | y in tail :: y in rest;
      InsertStable(lt, ctx, sorted, x, c);
      InsertMembers(lt, sorted, x);
      InsertAllStable(lt, ctx, Insert(lt, sorted, x), tail, c);
      InsertAllOnce(lt, sorted, rest);
      TiesSplit(lt, c, rest);
      Regroup(TiesOf(lt, c, sorted), TiesOf(lt, c, [x]), TiesOf(lt, c, tail));
    }
  }

  lemma SortFullySorted<T>(lt: (T, T) -> bool, s: seq<T>)
    requires WeakOrderOn(lt, s)
    ensures FullySorted(lt, Sort(lt, s))
  {
    var r := Sort(lt, s);
    SortPermutes(lt, s);
    SameMembers(r, s);
    OrderOnSubset(lt, s, r);
    SortLocallySorted(lt, s);
    LocalImpliesFull(lt, r);
  }

  /** In a strictly descending run no two elements tie. */
  lemma {:induction false} DescendingHasNoTies<T>(lt: (T, T) -> bool, s: seq<T>, c: T)
    requires WeakOrderOn(lt, s + [c])
    requires StrictlyDescending(lt, s)
    ensures |TiesOf(lt, c, s)| <= 1
  {
    if s != [] {
      var q := TiesWith(lt, c);
      OrderOnSubset(lt, s + [c], s[1..] + [c]);
      DescendingHasNoTies(lt, s[1..], c);
      if q(s[0]) {
        forall y | y in s[1..] ensures !q(y) {
          var k :| 0 < k < |s| && s[k] == y;
          OrderOnSubset(lt, s + [c], s);
          StepsDown(lt, s, 0, k);
          assert y in s + [c] && s[0] in s + [c] && c in s + [c];
          NotSmallerTransitive(lt, s + [c], y, s[0], c);
        }
        FilterNone(q, s[1..]);
      }
    }
  }

  lemma {:induction false} StepsDown<T>(lt: (T, T) -> bool, s: seq<T>, i: nat, j: nat)
    requires WeakOrderOn(lt, s) && StrictlyDescending(lt, s)
    requires i < j < |s|
    ensures lt(s[j], s[i])
    decreases j
  {
    if i < j - 1 {
      StepsDown(lt, s, i, j - 1);
      assert lt(s[j], s[j - 1]);
    }
  }

  lemma RunStable<T>(lt: (T, T) -> bool, s: seq<T>, c: T)
    requires |s| >= 2 && WeakOrderOn(lt, s) && c in s
    ensures TiesOf(lt, c, Run(lt, s)) == TiesOf(lt, c, s[..RunLength(lt, s)])
  {
    if lt(s[1], s[0]) {
      var run := s[..RunLength(lt, s)];
      OrderOnSubset(lt, s, run + [c]);
      DescendingHasNoTies(lt, run, c);
      FilterReverse(TiesWith(lt, c), run);
    }
  }

  lemma SortKeepsTies<T>(lt: (T, T) -> bool, s: seq<T>, c: T)
    requires |s| >= 2 && WeakOrderOn(lt, s) && c in s
    ensures TiesOf(lt, c, Sort(lt, s)) == TiesOf(lt, c, s)
  {
    var n := RunLength(lt, s);
    var run, rest := Run(lt, s), s[n..];
    assert TiesOf(lt, c, InsertAll(lt, run, rest)) == TiesOf(lt, c, run) + TiesOf(lt, c, rest) by {
      RunPermutes(lt, s);
      RunLocallySorted(lt, s);
      InsertAllStable(lt, s, run, rest, c);
    }
    assert TiesOf(lt, c, run) == TiesOf(lt, c, s[..n]) by { RunStable(lt, s, c); }
    TiesSplitAt(lt, c, s, n);
  }

  /** The same when `c` is only comparable with the list. */
  lemma SortTiesIn<T>(lt: (T, T) -> bool, s: seq<T>, ctx: seq<T>, c: T)
    requires WeakOrderOn(lt, ctx) && c in ctx && forall x | x in s :: x in ctx
    ensures TiesOf(lt, c, Sort(lt, s)) == TiesOf(lt, c, s)
  {
    OrderOnSubset(lt, ctx, s);
    if d :| d in s && Tie(lt, c, d) {
      SortStable(lt, s, d);
      SortPermutes(lt, s);
      SameMembers(Sort(lt, s), s);
      SameTies(lt, ctx, c, d, s);
      SameTies(lt, ctx, c, d, Sort(lt, s));
    } else {
      SortPermutes(lt, s);
      SameMembers(Sort(lt, s), s);
      FilterNone(TiesWith(lt, c), s);
      FilterNone(TiesWith(lt, c), Sort(lt, s));
    }
  }

  lemma SameTies<T>(lt: (T, T) -> bool, ctx: seq<T>, c: T, d: T, s: seq<T>)
    requires WeakOrderOn(lt, ctx) && c in ctx && d in ctx && Tie(lt, c, d) && forall x | x in s :: x in ctx
    ensures TiesOf(lt, c, s) == TiesOf(lt, d, s)
  {
    forall x | x in s ensures TiesWith(lt, c)(x) == TiesWith(lt, d)(x) {
      assert Tie(lt, d, c) && (Tie(lt, c, x) ==> Tie(lt, d, x)) && (Tie(lt, d, x) ==> Tie(lt, c, x));
    }
    FilterAgree(TiesWith(lt, c), TiesWith(lt, d), s);
  }

  lemma TiesAppend<T>(lt: (T, T) -> bool, c: T, a: seq<T>, b: seq<T>)
    ensures TiesOf(lt, c, a + b) == TiesOf(lt, c, a) + TiesOf(lt, c, b)
  {
    FilterAppend(TiesWith(lt, c), a, b);
  }

  lemma TiesSplitAt<T>(lt: (T, T) -> bool, c: T, s: seq<T>, n: nat)
    requires n <= |s|
    ensures TiesOf(lt, c, s) == TiesOf(lt, c, s[..n]) + TiesOf(lt, c, s[n..])
  {
    TiesAppend(lt, c, s[..n], s[n..]);
    assert s == s[..n] + s[n..];
  }

  lemma SortStable<T>(lt: (T, T) -> bool, s: seq<T>, c: T)
    requires WeakOrderOn(lt, s) && c in s
    ensures FullySorted(lt, Sort(lt, s))
    ensures TiesOf(lt, c, Sort(lt, s)) == TiesOf(lt, c, s)
  {
    SortFullySorted(lt, s);
    if |s| >= 2 { SortKeepsTies(lt, s, c); }
  }

  /** A list without adjacent inversions is left alone. */
  lemma SortFixesSorted<T>(lt: (T, T) -> bool, s: seq<T>)
    requires LocallySorted(lt, s)
    ensures Sort(lt, s) == s
  {
    if |s| >= 2 {
      assert !lt(s[1], s[0]);
      assert AscendingRun(lt, s) == |s|;
      assert s[..|s|] == s && s[|s|..] == [];
    }
  }

  // ---- The same facts for any way of cutting and merging

  lemma {:induction false} WeavePermutes<T>(a: seq<T>, b: seq<T>, picks: seq<bool>)
    ensures multiset(Weave(a, b, picks)) == multiset(a) + multiset(b)
    decreases |a| + |b|
  {
    if a != [] && b != [] && picks != [] {
      if picks[0] {
        WeavePermutes(a, b[1..], picks[1..]);
        assert b == [b[0]] + b[1..];
      } else {
        WeavePermutes(a[1..], b, picks[1..]);
        assert a == [a[0]] + a[1..];
      }
    }
  }

  lemma {:induction false} ListSortPermutes<T>(lt: (T, T) -> bool, plan: Plan, s: seq<T>)
    ensures multiset(ListSort(lt, plan, s)) == multiset(s)
    decreases plan
  {
    SortPermutes(lt, s);
    if plan.Merge? && plan.cut <= |s| {
      var a, b := ListSort(lt, plan.left, s[..plan.cut]), ListSort(lt, plan.right, s[plan.cut..]);
      ListSortPermutes(lt, plan.left, s[..plan.cut]);
      ListSortPermutes(lt, plan.right, s[plan.cut..]);
      WeavePermutes(a, b, if Checked(lt, a, b, plan.picks) then plan.picks else HeadPicks(lt, a, b));
      SplitPermutes(s, plan.cut);
    }
  }

  lemma TailLocallySorted<T>(lt: (T, T) -> bool, s: seq<T>)
    requires s != [] && LocallySorted(lt, s)
    ensures LocallySorted(lt, s[1..])
    ensures |s| > 1 ==> !lt(s[1], s[0])
  {}

  lemma ConsLocallySorted<T>(lt: (T, T) -> bool, x: T, s: seq<T>)
    requires LocallySorted(lt, s) && (s != [] ==> !lt(s[0], x))
    ensures LocallySorted(lt, [x] + s)
  {}

  /** Merging needs nothing of the comparison but asymmetry to leave no adjacent inversion. */
  lemma {:induction false} WeaveLocallySorted<T>(lt: (T, T) -> bool, ctx: seq<T>, a: seq<T>, b: seq<T>,
                                                 picks: seq<bool>)
    requires AsymmetricOn(lt, ctx) && (forall x | x in a :: x in ctx) && (forall x | x in b :: x in ctx)
    requires LocallySorted(lt, a) && LocallySorted(lt, b) && Checked(lt, a, b, picks)
    ensures var r := Weave(a, b, picks);
            LocallySorted(lt, r)
            && (LeftNext(a, b, picks) ==> r != [] && r[0] == a[0])
            && (RightNext(a, b, picks) ==> r != [] && r[0] == b[0])
    decreases |a| + |b|
  {
    if a != [] && b != [] {
      assert a[0] in ctx && b[0] in ctx;
      if picks[0] {
        TailLocallySorted(lt, b);
        WeaveLocallySorted(lt, ctx, a, b[1..], picks[1..]);
        ConsLocallySorted(lt, b[0], Weave(a, b[1..], picks[1..]));
      } else {
        TailLocallySorted(lt, a);
        WeaveLocallySorted(lt, ctx, a[1..], b, picks[1..]);
        ConsLocallySorted(lt, a[0], Weave(a[1..], b, picks[1..]));
      }
    }
  }

  lemma {:induction false} ListSortLocallySorted<T>(lt: (T, T) -> bool, plan: Plan, s: seq<T>)
    requires AsymmetricOn(lt, s)
    ensures LocallySorted(lt, ListSort(lt, plan, s))
    decreases plan
  {
    SortLocallySorted(lt, s);
    if plan.Merge? && plan.cut <= |s| {
      var l, r := s[..plan.cut], s[plan.cut..];
      var a, b := ListSort(lt, plan.left, l), ListSort(lt, plan.right, r);
      PiecesBelong(lt, plan, s);
      ListSortLocallySorted(lt, plan.left, l);
      ListSortLocallySorted(lt, plan.right, r);
      WeaveLocallySorted(lt, s, a, b, if Checked(lt, a, b, plan.picks) then plan.picks else HeadPicks(lt, a, b));
    }
  }

  /** The two sorted parts of a merge hold elements of the list, and orders restrict to them. */
  lemma PiecesBelong<T>(lt: (T, T) -> bool, plan: Plan, s: seq<T>)
    requires plan.Merge? && plan.cut <= |s|
    ensures var l, r := s[..plan.cut], s[plan.cut..];
            && (forall x | x in ListSort(lt, plan.left, l) :: x in l && x in s)
            && (forall x | x in ListSort(lt, plan.right, r) :: x in r && x in s)
            && (AsymmetricOn(lt, s) ==> AsymmetricOn(lt, l) && AsymmetricOn(lt, r))
            && (WeakOrderOn(lt, s) ==> WeakOrderOn(lt, l) && WeakOrderOn(lt, r))
  {
    var l, r := s[..plan.cut], s[plan.cut..];
    ListSortPermutes(lt, plan.left, l);
    ListSortPermutes(lt, plan.right, r);
    SameMembers(ListSort(lt, plan.left, l), l);
    SameMembers(ListSort(lt, plan.right, r), r);
    OrderOnSubset(lt, s, l);
    OrderOnSubset(lt, s, r);
  }

  /** In a total preorder, a merge that goes on with the right list does so because its head is smaller. */
  lemma {:induction false} RightIsSmaller<T>(lt: (T, T) -> bool, ctx: seq<T>, a: seq<T>, b: seq<T>, picks: seq<bool>)
    requires WeakOrderOn(lt, ctx) && (forall x | x in a :: x in ctx) && (forall x | x in b :: x in ctx)
    requires LocallySorted(lt, b) && Checked(lt, a, b, picks)
    requires a != [] && b != [] && picks != [] && picks[0]
    ensures lt(b[0], a[0])
    decreases |b|
  {
    assert a[0] in ctx && b[0] in ctx;
    if !LeftNext(a, b[1..], picks[1..]) {
      assert b[1] in ctx;
      TailLocallySorted(lt, b);
      assert picks[1..] != [] && picks[1..][0];
      RightIsSmaller(lt, ctx, a, b[1..], picks[1..]);
      NotSmallerTransitive(lt, ctx, b[0], b[1], a[0]);
    }
  }

  /** Merging keeps ties in order: first those of the left list, then those of the right one. */
  lemma {:induction false} WeaveStable<T>(lt: (T, T) -> bool, ctx: seq<T>, a: seq<T>, b: seq<T>, picks: seq<bool>, c: T)
    requires WeakOrderOn(lt, ctx) && c in ctx && (forall x | x in a :: x in ctx) && (forall x | x in b :: x in ctx)
    requires LocallySorted(lt, a) && LocallySorted(lt, b) && Checked(lt, a, b, picks)
    ensures TiesOf(lt, c, Weave(a, b, picks)) == TiesOf(lt, c, a) + TiesOf(lt, c, b)
    decreases |a| + |b|
  {
    if a != [] && b != [] {
      if picks[0] {
        TailLocallySorted(lt, b);
        RightIsSmaller(lt, ctx, a, b, picks);
        WeaveStable(lt, ctx, a, b[1..], picks[1..], c);
        if Tie(lt, c, b[0]) {
          assert b[0] in ctx;
          NoTiesAfter(lt, ctx, a, b[0], c);
        }
        PrependTies(lt, c, b[0], a, b[1..], Weave(a, b[1..], picks[1..]));
        assert b == [b[0]] + b[1..];
      } else {
        TailLocallySorted(lt, a);
        WeaveStable(lt, ctx, a[1..], b, picks[1..], c);
        TiesAppend(lt, c, [a[0]], a[1..]);
        TiesAppend(lt, c, [a[0]], Weave(a[1..], b, picks[1..]));
        assert a == [a[0]] + a[1..];
      }
    } else if a == [] {
    } else {
      assert Weave(a, b, picks) == a;
    }
  }

  lemma PrependTies<T>(lt: (T, T) -> bool, c: T, y: T, a: seq<T>, b: seq<T>, merged: seq<T>)
    requires TiesOf(lt, c, merged) == TiesOf(lt, c, a) + TiesOf(lt, c, b)
    requires Tie(lt, c, y) ==> TiesOf(lt, c, a) == []
    ensures TiesOf(lt, c, [y] + merged) == TiesOf(lt, c, a) + TiesOf(lt, c, [y] + b)
  {
    TiesAppend(lt, c, [y], merged);
    TiesAppend(lt, c, [y], b);
    if !Tie(lt, c, y) { assert TiesOf(lt, c, [y]) == []; }
  }

  lemma MergeKeepsTies<T>(lt: (T, T) -> bool, plan: Plan, s: seq<T>, ctx: seq<T>, c: T)
    requires WeakOrderOn(lt, ctx) && c in ctx && forall x | x in s :: x in ctx
    requires plan.Merge? && plan.cut <= |s|
    ensures TiesOf(lt, c, ListSort(lt, plan, s)) ==
            TiesOf(lt, c, ListSort(lt, plan.left, s[..plan.cut]))
            + TiesOf(lt, c, ListSort(lt, plan.right, s[plan.cut..]))
  {
    var l, r := s[..plan.cut], s[plan.cut..];
    var a, b := ListSort(lt, plan.left, l), ListSort(lt, plan.right, r);
    OrderOnSubset(lt, ctx, s);
    PiecesBelong(lt, plan, s);
    ListSortLocallySorted(lt, plan.left, l);
    ListSortLocallySorted(lt, plan.right, r);
    WeaveStable(lt, ctx, a, b, if Checked(lt, a, b, plan.picks) then plan.picks else HeadPicks(lt, a, b), c);
  }

  lemma {:induction false} ListSortKeepsTies<T>(lt: (T, T) -> bool, plan: Plan, s: seq<T>, ctx: seq<T>, c: T)
    requires WeakOrderOn(lt, ctx) && c in ctx && forall x | x in s :: x in ctx
    ensures TiesOf(lt, c, ListSort(lt, plan, s)) == TiesOf(lt, c, s)
    decreases plan
  {
    if plan.Merge? && plan.cut <= |s| {
      hide *;
      var l, r := s[..plan.cut], s[plan.cut..];
      MergeKeepsTies(lt, plan, s, ctx, c);
      ListSortKeepsTies(lt, plan.left, l, ctx, c);
      ListSortKeepsTies(lt, plan.right, r, ctx, c);
      TiesSplitAt(lt, c, s, plan.cut);
    } else {
      SortTiesIn(lt, s, ctx, c);
    }
  }

  /** For a total preorder: no pair inverted at any distance, ties in input order. */
  lemma ListSortStable<T>(lt: (T, T) -> bool, plan: Plan, s: seq<T>, c: T)
    requires WeakOrderOn(lt, s) && c in s
    ensures FullySorted(lt, ListSort(lt, plan, s))
    ensures TiesOf(lt, c, ListSort(lt, plan, s)) == TiesOf(lt, c, s)
  {
    ListSortKeepsTies(lt, plan, s, s, c);
    ListSortPermutes(lt, plan, s);
    SameMembers(ListSort(lt, plan, s), s);
    OrderOnSubset(lt, s, ListSort(lt, plan, s));
    ListSortLocallySorted(lt, plan, s);
    LocalImpliesFull(lt, ListSort(lt, plan, s));
  }

  /** Two sorted arrangements of the same elements with the same ties in the same order are equal. */
  lemma {:induction false} StableSortIsUnique<T>(lt: (T, T) -> bool, a: seq<T>, b: seq<T>)
    requires multiset(a) == multiset(b) && WeakOrderOn(lt, a)
    requires FullySorted(lt, a) && FullySorted(lt, b)
    requires forall c | c in a :: TiesOf(lt, c, a) == TiesOf(lt, c, b)
    ensures a == b
    decreases |a|
  {
    if a == [] {
      assert |multiset(b)| == |b|;
    } else {
      SortedHead(lt, a, b);
      assert a[0] in a && Tie(lt, a[0], a[0]) && Tie(lt, a[0], b[0]);
      assert TiesOf(lt, a[0], a)[0] == a[0] && TiesOf(lt, a[0], b)[0] == b[0];
      DropHeads(a, b);
      TailSorted(lt, a);
      TailSorted(lt, b);
      assert WeakOrderOn(lt, a[1..]) by { OrderOnSubset(lt, a, a[1..]); }
      forall c | c in a[1..] ensures TiesOf(lt, c, a[1..]) == TiesOf(lt, c, b[1..]) {
        assert c in a && TiesOf(lt, c, a) == TiesOf(lt, c, b);
        DropTie(lt, c, a);
        DropTie(lt, c, b);
      }
      StableSortIsUnique(lt, a[1..], b[1..]);
      assert a == [a[0]] + a[1..] && b == [b[0]] + b[1..];
    }
  }

  lemma DropTie<T>(lt: (T, T) -> bool, c: T, s: seq<T>)
    requires s != []
    ensures TiesOf(lt, c, s[1..]) == if Tie(lt, c, s[0]) then TiesOf(lt, c, s)[1..] else TiesOf(lt, c, s)
  {}

  /** For a total preorder it does not matter how the list is cut and merged. */
  lemma PlanDoesNotMatter<T>(lt: (T, T) -> bool, plan: Plan, s: seq<T>)
    requires WeakOrderOn(lt, s)
    ensures ListSort(lt, plan, s) == Sort(lt, s)
  {
    var a, b := ListSort(lt, plan, s), Sort(lt, s);
    ListSortPermutes(lt, plan, s);
    SortPermutes(lt, s);
    SameMembers(a, s);
    if s == [] {
    } else {
      ListSortStable(lt, plan, s, s[0]);
      SortFullySorted(lt, s);
      OrderOnSubset(lt, s, a);
      forall c | c in a ensures TiesOf(lt, c, a) == TiesOf(lt, c, b) {
        ListSortStable(lt, plan, s, c);
        SortStable(lt, s, c);
      }
      StableSortIsUnique(lt, a, b);
    }
  }

  // ---- The same facts for the descending sort

  lemma ListSortDescendingPermutes<T>(lt: (T, T) -> bool, plan: Plan, s: seq<T>)
    ensures multiset(ListSortDescending(lt, plan, s)) == multiset(s)
  {
    ReverseMultiset(s);
    ListSortPermutes(lt, plan, Reverse(s));
    ReverseMultiset(ListSort(lt, plan, Reverse(s)));
  }

  lemma ListSortDescendingLocal<T>(lt: (T, T) -> bool, plan: Plan, s: seq<T>)
    requires AsymmetricOn(lt, s)
    ensures LocallyDescending(lt, ListSortDescending(lt, plan, s))
  {
    ReverseMultiset(s);
    SameMembers(Reverse(s), s);
    OrderOnSubset(lt, s, Reverse(s));
    ListSortLocallySorted(lt, plan, Reverse(s));
    ReverseSorted(lt, ListSort(lt, plan, Reverse(s)));
  }

  lemma ListSortDescendingStable<T>(lt: (T, T) -> bool, plan: Plan, s: seq<T>, c: T)
    requires WeakOrderOn(lt, s) && c in s
    ensures FullyDescending(lt, ListSortDescending(lt, plan, s))
    ensures TiesOf(lt, c, ListSortDescending(lt, plan, s)) == TiesOf(lt, c, s)
  {
    ReverseMultiset(s);
    SameMembers(Reverse(s), s);
    OrderOnSubset(lt, s, Reverse(s));
    ListSortStable(lt, plan, Reverse(s), c);
    ReverseSorted(lt, ListSort(lt, plan, Reverse(s)));
    var q := TiesWith(lt, c);
    FilterReverse(q, ListSort(lt, plan, Reverse(s)));
    FilterReverse(q, s);
    ReverseReverse(TiesOf(lt, c, s));
  }

  lemma ReverseSorted<T>(lt: (T, T) -> bool, s: seq<T>)
    ensures LocallySorted(lt, s) ==> LocallyDescending(lt, Reverse(s))
    ensures FullySorted(lt, s) ==> FullyDescending(lt, Reverse(s))
    ensures LocallyDescending(lt, s) ==> LocallySorted(lt, Reverse(s))
  {
    var r, n := Reverse(s), |s|;
    if LocallySorted(lt, s) {
      forall i | 0 < i < n ensures !lt(r[i - 1], r[i]) {
        assert r[i - 1] == s[n - i] && r[i] == s[n - i - 1];
      }
    }
    if LocallyDescending(lt, s) {
      forall i | 0 < i < n ensures !lt(r[i], r[i - 1]) {
        assert r[i - 1] == s[n - i] && r[i] == s[n - i - 1];
      }
    }
  }

  lemma SortDescendingPermutes<T>(lt: (T, T) -> bool, s: seq<T>)
    ensures multiset(SortDescending(lt, s)) == multiset(s)
  {
    ListSortDescendingPermutes(lt, Piece, s);
  }

  lemma SortDescendingStable<T>(lt: (T, T) -> bool, s: seq<T>, c: T)
    requires WeakOrderOn(lt, s) && c in s
    ensures FullyDescending(lt, SortDescending(lt, s))
    ensures TiesOf(lt, c, SortDescending(lt, s)) == TiesOf(lt, c, s)
  {
    ListSortDescendingStable(lt, Piece, s, c);
  }

  lemma SortDescendingFixes<T>(lt: (T, T) -> bool, s: seq<T>)
    requires LocallyDescending(lt, s)
    ensures SortDescending(lt, s) == s
  {
    ReverseSorted(lt, s);
    SortFixesSorted(lt, Reverse(s));
    ReverseReverse(s);
  }

  lemma SortDescendingMembers<T>(lt: (T, T) -> bool, s: seq<T>)
    ensures |SortDescending(lt, s)| == |s|
    ensures forall x | x in SortDescending(lt, s) :: x in s
    ensures forall x | x in s :: x in SortDescending(lt, s)
  {
    SortDescendingPermutes(lt, s);
    SameMembers(SortDescending(lt, s), s);
  }

  lemma {:induction false} FilterMembers<T>(p: T -> bool, s: seq<T>)
    ensures forall x | x in Filter(p, s) :: x in s && p(x)
    ensures forall x | x in s && p(x) :: x in Filter(p, s)
    ensures |Filter(p, s)| <= |s|
  {
    if s != [] { FilterMembers(p, s[1..]); }
  }

  lemma {:induction false} FilterCount<T>(p: T -> bool, s: seq<T>, x: T)
    ensures multiset(Filter(p, s))[x] == if p(x) then multiset(s)[x] else 0
  {
    if s != [] {
      FilterCount(p, s[1..], x);
      assert s == [s[0]] + s[1..];
    }
  }

  lemma FilterPermutes<T>(p: T -> bool, a: seq<T>, b: seq<T>)
    requires multiset(a) == multiset(b)
    ensures multiset(Filter(p, a)) == multiset(Filter(p, b))
  {
    var l, r := multiset(Filter(p, a)), multiset(Filter(p, b));
    forall x | x in l ensures l[x] == r[x] { FilterCount(p, a, x); FilterCount(p, b, x); }
    forall x | x in r ensures l[x] == r[x] { FilterCount(p, a, x); FilterCount(p, b, x); }
  }

  lemma {:induction false} FilterAgree<T>(p: T -> bool, q: T -> bool, s: seq<T>)
    requires forall x | x in s :: p(x) == q(x)
    ensures Filter(p, s) == Filter(q, s)
  {
    if s != [] { FilterAgree(p, q, s[1..]); }
  }

  /** A predicate and its negation split a list into two parts that together hold exactly its elements. */
  lemma {:induction false} FilterPartition<T>(p: T -> bool, q: T -> bool, s: seq<T>)
    requires forall x | x in s :: p(x) != q(x)
    ensures multiset(Filter(p, s)) + multiset(Filter(q, s)) == multiset(s)
  {
    if s != [] {
      FilterPartition(p, q, s[1..]);
      assert s == [s[0]] + s[1..];
    }
  }

  // ---- A total order has one sorted arrangement

  /** No two different elements tie. */
  ghost predicate TotalOrderOn<T>(lt: (T, T) -> bool, s: seq<T>) {
    PartialOrderOn(lt, s) && forall x, y | x in s && y in s && Tie(lt, x, y) :: x == y
  }

  lemma {:induction false} SortedHead<T>(lt: (T, T) -> bool, a: seq<T>, b: seq<T>)
    requires a != [] && multiset(a) == multiset(b)
    requires FullySorted(lt, a) && FullySorted(lt, b)
    ensures b != [] && b[0] in a && (a[0] == b[0] || Tie(lt, a[0], b[0]))
  {
    SameMembers(a, b);
    assert a[0] in b && b[0] in a;
    var i :| 0 <= i < |b| && b[i] == a[0];
    var j :| 0 <= j < |a| && a[j] == b[0];
  }

  lemma DropHeads<T>(a: seq<T>, b: seq<T>)
    requires a != [] && b != [] && a[0] == b[0] && multiset(a) == multiset(b)
    ensures multiset(a[1..]) == multiset(b[1..])
  {
    assert b[..0] + b[0 + 1..] == b[1..];
    DropMatching(a, b, 0);
  }

  lemma TailSorted<T>(lt: (T, T) -> bool, s: seq<T>)
    requires s != [] && FullySorted(lt, s)
    ensures FullySorted(lt, s[1..])
  {
    forall i, j | 0 <= i < j < |s[1..]| ensures !lt(s[1..][j], s[1..][i]) { assert !lt(s[j + 1], s[i + 1]); }
  }

  lemma {:induction false} SortedIsUnique<T>(lt: (T, T) -> bool, a: seq<T>, b: seq<T>)
    requires multiset(a) == multiset(b)
    requires TotalOrderOn(lt, a)
    requires FullySorted(lt, a) && FullySorted(lt, b)
    ensures a == b
    decreases |a|
  {
    if a == [] {
      assert |multiset(b)| == |b|;
    } else {
      SortedHead(lt, a, b);
      assert a[0] in a;
      DropHeads(a, b);
      TailSorted(lt, a);
      TailSorted(lt, b);
      assert TotalOrderOn(lt, a[1..]) by { OrderOnSubset(lt, a, a[1..]); }
      SortedIsUnique(lt, a[1..], b[1..]);
      assert a == [a[0]] + a[1..] && b == [b[0]] + b[1..];
    }
  }
}
