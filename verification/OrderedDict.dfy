/** A dictionary that remembers insertion order, as an association list with unique keys: overwriting a key keeps its
    position. */
module OrderedDict {
  import opened Common

  ghost predicate UniqueKeys<K, V>(d: seq<(K, V)>) {
    forall i, j | 0 <= i < j < |d| :: d[i].0 != d[j].0
  }

  function Lookup<K(==), V>(d: seq<(K, V)>, k: K): Option<V> {
    if d == [] then None else if d[0].0 == k then Some(d[0].1) else Lookup(d[1..], k)
  }

  function Put<K(==), V>(d: seq<(K, V)>, k: K, v: V): seq<(K, V)> {
    if d == [] then [(k, v)]
    else if d[0].0 == k then [(k, v)] + d[1..]
    else [d[0]] + Put(d[1..], k, v)
  }

  /** The dictionary built by assigning the pairs one after the other. */
  function PutAll<K(==), V>(pairs: seq<(K, V)>): seq<(K, V)> {
    if pairs == [] then []
    else Put(PutAll(pairs[..|pairs| - 1]), pairs[|pairs| - 1].0, pairs[|pairs| - 1].1)
  }

  /** The value of the last pair with this key. */
  function LastValue<K(==), V>(pairs: seq<(K, V)>, k: K): Option<V> {
    if pairs == [] then None
    else if pairs[|pairs| - 1].0 == k then Some(pairs[|pairs| - 1].1)
    else LastValue(pairs[..|pairs| - 1], k)
  }

  lemma {:induction false} LookupPut<K, V>(d: seq<(K, V)>, k: K, v: V, q: K)
    ensures Lookup(Put(d, k, v), q) == if q == k then Some(v) else Lookup(d, q)
  {
    if d != [] {
      if d[0].0 == k {
        assert ([(k, v)] + d[1..])[1..] == d[1..];
      } else {
        LookupPut(d[1..], k, v, q);
        assert ([d[0]] + Put(d[1..], k, v))[1..] == Put(d[1..], k, v);
      }
    }
  }

  lemma {:induction false} LookupMember<K, V>(d: seq<(K, V)>, k: K)
    ensures Lookup(d, k).Some? ==> (k, Lookup(d, k).value) in d
    ensures Lookup(d, k).None? ==> forall v :: (k, v) !in d
  {
    if d != [] { LookupMember(d[1..], k); }
  }

  lemma {:induction false} LookupUnique<K, V>(d: seq<(K, V)>, p: (K, V))
    requires UniqueKeys(d) && p in d
    ensures Lookup(d, p.0) == Some(p.1)
  {
    if d[0] != p {
      assert p in d[1..];
      var i :| 0 < i < |d| && d[i] == p;
      LookupUnique(d[1..], p);
    }
  }

  lemma {:induction false} PutUnique<K, V>(d: seq<(K, V)>, k: K, v: V)
    requires UniqueKeys(d)
    ensures UniqueKeys(Put(d, k, v))
    ensures forall i | 0 <= i < |Put(d, k, v)| ::
              Put(d, k, v)[i].0 == k || (exists j :: 0 <= j < |d| && d[j].0 == Put(d, k, v)[i].0)
  {
    if d != [] && d[0].0 != k {
      PutUnique(d[1..], k, v);
      var r := Put(d[1..], k, v);
      assert Put(d, k, v) == [d[0]] + r;
      forall i | 0 <= i < |r| ensures r[i].0 != d[0].0 {
        if r[i].0 != k {
          var j :| 0 <= j < |d[1..]| && d[1..][j].0 == r[i].0;
          assert d[j + 1].0 == r[i].0;
        }
      }
      forall i | 0 <= i < |r| && r[i].0 != k ensures exists j :: 0 <= j < |d| && d[j].0 == r[i].0 {
        var j :| 0 <= j < |d[1..]| && d[1..][j].0 == r[i].0;
        assert d[j + 1].0 == r[i].0;
      }
    }
  }

  lemma {:induction false} PutMembers<K, V>(d: seq<(K, V)>, k: K, v: V)
    requires UniqueKeys(d)
    ensures forall p | p in Put(d, k, v) :: p == (k, v) || (p in d && p.0 != k)
    ensures (k, v) in Put(d, k, v) && forall p | p in d && p.0 != k :: p in Put(d, k, v)
  {
    if d != [] {
      assert d == [d[0]] + d[1..];
      if d[0].0 == k {
        forall p | p in d[1..] ensures p.0 != k {
          var i :| 0 < i < |d| && d[i] == p;
        }
      } else {
        PutMembers(d[1..], k, v);
      }
    }
  }

  /** Assigning pairs in order leaves each key once, with the value of its last pair. */
  lemma {:induction false} LastAssignmentWins<K, V>(pairs: seq<(K, V)>, k: K)
    ensures UniqueKeys(PutAll(pairs))
    ensures Lookup(PutAll(pairs), k) == LastValue(pairs, k)
  {
    if pairs != [] {
      var init, last := pairs[..|pairs| - 1], pairs[|pairs| - 1];
      LastAssignmentWins(init, k);
      PutUnique(PutAll(init), last.0, last.1);
      LookupPut(PutAll(init), last.0, last.1, k);
    }
  }

  lemma {:induction false} PutNew<K, V>(d: seq<(K, V)>, k: K, v: V)
    requires forall i | 0 <= i < |d| :: d[i].0 != k
    ensures Put(d, k, v) == d + [(k, v)]
  {
    if d != [] {
      PutNew(d[1..], k, v);
      assert d + [(k, v)] == [d[0]] + (d[1..] + [(k, v)]);
    }
  }

  /** Assigning the entries of a dictionary in order rebuilds it. */
  lemma {:induction false} PutAllUnique<K, V>(d: seq<(K, V)>)
    requires UniqueKeys(d)
    ensures PutAll(d) == d
  {
    if d != [] {
      var init, last := d[..|d| - 1], d[|d| - 1];
      PutAllUnique(init);
      PutNew(init, last.0, last.1);
      assert d == init + [last];
    }
  }
}
