/** Insertion-ordered dictionaries, as Python's `dict` keeps them: a list of
    entries with distinct keys; assigning to a present key keeps its place,
    assigning to a new key appends it. */
module OrderedMap {
  import opened Wrappers

  type Entries<K, V> = seq<(K, V)>

  /** The keys in insertion order (`list(d.keys())`). */
  function Keys<K, V>(m: Entries<K, V>): (ks: seq<K>)
    ensures |ks| == |m|
    ensures forall i :: 0 <= i < |m| ==> ks[i] == m[i].0
  {
    seq(|m|, i requires 0 <= i < |m| => m[i].0)
  }

  predicate Distinct<K(==), V>(m: Entries<K, V>)
  {
    forall i, j :: 0 <= i < j < |m| ==> m[i].0 != m[j].0
  }

  /** `d.get(k)`: the value stored under `k`, if any. */
  function Get<K(==), V>(m: Entries<K, V>, k: K): (r: Option<V>)
    ensures r.None? <==> k !in Keys(m)
  {
    if |m| == 0 then None
    else if m[0].0 == k then Some(m[0].1)
    else
      assert Keys(m) == [m[0].0] + Keys(m[1..]);
      Get(m[1..], k)
  }

  /** `d[k] = v`. */
  function Put<K(==), V>(m: Entries<K, V>, k: K, v: V): (r: Entries<K, V>)
    ensures k in Keys(m) ==> Keys(r) == Keys(m)
    ensures k !in Keys(m) ==> Keys(r) == Keys(m) + [k]
    ensures Distinct(m) ==> Distinct(r)
  {
    if |m| == 0 then
      assert Keys([(k, v)]) == Keys(m) + [k];
      [(k, v)]
    else if m[0].0 == k then
      PutHead(m, v);
      [(k, v)] + m[1..]
    else
      var rest := Put(m[1..], k, v);
      PutStep(m, k, v, rest);
      [m[0]] + rest
  }

  /** Assigning to the first key replaces the first value. */
  lemma PutHead<K, V>(m: Entries<K, V>, v: V)
    requires |m| > 0
    ensures Keys([(m[0].0, v)] + m[1..]) == Keys(m)
    ensures Distinct(m) ==> Distinct([(m[0].0, v)] + m[1..])
  {
    var r := [(m[0].0, v)] + m[1..];
    assert r[1..] == m[1..];
    KeysCons(m);
    KeysCons(r);
    DistinctTail(m);
    DistinctCons(m[0].0, v, m[1..]);
  }

  /** Assigning to a later key keeps the first entry in front of the assignment to the rest. */
  lemma PutStep<K, V>(m: Entries<K, V>, k: K, v: V, rest: Entries<K, V>)
    requires |m| > 0 && m[0].0 != k
    requires k in Keys(m[1..]) ==> Keys(rest) == Keys(m[1..])
    requires k !in Keys(m[1..]) ==> Keys(rest) == Keys(m[1..]) + [k]
    requires Distinct(m[1..]) ==> Distinct(rest)
    ensures k in Keys(m) ==> Keys([m[0]] + rest) == Keys(m)
    ensures k !in Keys(m) ==> Keys([m[0]] + rest) == Keys(m) + [k]
    ensures Distinct(m) ==> Distinct([m[0]] + rest)
  {
    PutStepKeys(m, k, Keys(rest), Keys([m[0]] + rest));
    if Distinct(m) {
      DistinctTail(m);
      DistinctCons(m[0].0, m[0].1, rest);
    }
  }

  lemma PutStepKeys<K, V>(m: Entries<K, V>, k: K, ks: seq<K>, ks1: seq<K>)
    requires |m| > 0 && m[0].0 != k && ks1 == [m[0].0] + ks
    requires k in Keys(m[1..]) ==> ks == Keys(m[1..])
    requires k !in Keys(m[1..]) ==> ks == Keys(m[1..]) + [k]
    ensures k in Keys(m) ==> ks1 == Keys(m)
    ensures k !in Keys(m) ==> ks1 == Keys(m) + [k]
  {
    KeysCons(m);
    if k !in Keys(m[1..]) {
      assert [m[0].0] + (Keys(m[1..]) + [k]) == [m[0].0] + Keys(m[1..]) + [k];
    }
  }

  lemma KeysCons<K, V>(m: Entries<K, V>)
    requires |m| > 0
    ensures Keys(m) == [m[0].0] + Keys(m[1..])
  {}

  /** Without its first entry a map keeps distinct keys, none of them the first's. */
  lemma DistinctTail<K, V>(m: Entries<K, V>)
    requires |m| > 0
    ensures Distinct(m) ==> Distinct(m[1..]) && m[0].0 !in Keys(m[1..])
  {
    if Distinct(m) {
      forall i | 0 <= i < |m| - 1 ensures Keys(m[1..])[i] != m[0].0 {
        assert m[1..][i] == m[i + 1];
      }
    }
  }

  lemma DistinctCons<K, V>(k: K, v: V, rest: Entries<K, V>)
    ensures k !in Keys(rest) && Distinct(rest) ==> Distinct([(k, v)] + rest)
  {
    if k !in Keys(rest) && Distinct(rest) {
      var m := [(k, v)] + rest;
      forall i, j | 0 <= i < j < |m| ensures m[i].0 != m[j].0 {
        if i == 0 { assert m[j].0 == Keys(rest)[j - 1]; }
        else { assert m[i] == rest[i - 1] && m[j] == rest[j - 1]; }
      }
    }
  }

  lemma {:induction false} PutGet<K, V>(m: Entries<K, V>, k: K, v: V, q: K)
    ensures Get(Put(m, k, v), q) == if q == k then Some(v) else Get(m, q)
  {
    if |m| > 0 && m[0].0 != k {
      PutGet(m[1..], k, v, q);
      assert Put(m, k, v)[1..] == Put(m[1..], k, v);
    }
  }

  /** The effect of `for k, v in d.items(): m[k] = v`. */
  function PutAll<K(==), V>(m: Entries<K, V>, d: Entries<K, V>): Entries<K, V>
    decreases |d|
  {
    if |d| == 0 then m else PutAll(Put(m, d[0].0, d[0].1), d[1..])
  }

  function Prefix<K(==), V>(m: Entries<K, V>, d: Entries<K, V>, n: nat): Entries<K, V>
    requires n <= |d|
  {
    PutAll(m, d[..n])
  }

  /** One more step of the merge loop. */
  lemma {:induction false} PutAllSnoc<K, V>(m: Entries<K, V>, d: Entries<K, V>, n: nat)
    requires n < |d|
    ensures PutAll(m, d[..n + 1]) == Put(PutAll(m, d[..n]), d[n].0, d[n].1)
    decreases n
  {
    var m1 := Put(m, d[0].0, d[0].1);
    if n == 0 {
      assert d[..1][1..] == [] && d[..1][0] == d[0];
      assert PutAll(m, d[..1]) == PutAll(m1, []);
      assert d[..0] == [];
    } else {
      assert d[..n + 1][1..] == d[1..][..n] && d[..n + 1][0] == d[0];
      assert d[..n][1..] == d[1..][..n - 1] && d[..n][0] == d[0];
      assert PutAll(m, d[..n + 1]) == PutAll(m1, d[1..][..n]);
      assert PutAll(m, d[..n]) == PutAll(m1, d[1..][..n - 1]);
      PutAllSnoc(m1, d[1..], n - 1);
      assert d[1..][n - 1] == d[n];
    }
  }

  /** After an assignment the keys are the old ones and the assigned one. */
  lemma PutMembers<K, V>(m: Entries<K, V>, k: K, v: V, q: K)
    ensures q in Keys(Put(m, k, v)) <==> q in Keys(m) || q == k
  {
    if k !in Keys(m) {
      assert Keys(Put(m, k, v)) == Keys(m) + [k];
    }
  }

  /** Merging keeps every key it already had, in place: it only adds or overwrites. */
  lemma {:induction false} PutAllKeys<K, V>(m: Entries<K, V>, d: Entries<K, V>)
    ensures |PutAll(m, d)| >= |m|
    ensures Keys(PutAll(m, d))[..|m|] == Keys(m)
    decreases |d|
  {
    if |d| > 0 {
      var m1 := Put(m, d[0].0, d[0].1);
      PutAllKeys(m1, d[1..]);
      var ks := Keys(PutAll(m1, d[1..]));
      assert ks[..|m1|] == Keys(m1);
      assert Keys(m1)[..|m|] == Keys(m);
      assert ks[..|m|] == ks[..|m1|][..|m|];
    }
  }

  /** After a merge the keys are those of both sides. */
  lemma {:induction false} PutAllMembers<K, V>(m: Entries<K, V>, d: Entries<K, V>, k: K)
    ensures k in Keys(PutAll(m, d)) <==> k in Keys(m) || k in Keys(d)
    decreases |d|
  {
    if |d| > 0 {
      var m1 := Put(m, d[0].0, d[0].1);
      PutMembers(m, d[0].0, d[0].1, k);
      PutAllMembers(m1, d[1..], k);
      KeysCons(d);
    }
  }

  /** A merge into a map with distinct keys keeps them distinct. */
  lemma {:induction false} PutAllDistinct<K, V>(m: Entries<K, V>, d: Entries<K, V>)
    requires Distinct(m)
    ensures Distinct(PutAll(m, d))
    decreases |d|
  {
    if |d| > 0 {
      PutAllDistinct(Put(m, d[0].0, d[0].1), d[1..]);
    }
  }

  /** The value of every key after a merge: the delta's value when the delta
      has the key, the old value otherwise. */
  lemma {:induction false} PutAllGet<K, V>(m: Entries<K, V>, d: Entries<K, V>, q: K)
    requires Distinct(d)
    ensures Get(PutAll(m, d), q) == if q in Keys(d) then Get(d, q) else Get(m, q)
    decreases |d|
  {
    if |d| > 0 {
      var m1 := Put(m, d[0].0, d[0].1);
      assert Keys(d) == [d[0].0] + Keys(d[1..]);
      assert Distinct(d[1..]);
      PutAllGet(m1, d[1..], q);
      PutGet(m, d[0].0, d[0].1, q);
      if q == d[0].0 {
        assert q !in Keys(d[1..]);
      }
    }
  }

  /** Merging a map into itself changes nothing. */
  lemma {:induction false} PutAllSelf<K, V>(m: Entries<K, V>)
    requires Distinct(m)
    ensures PutAll(m, m) == m
  {
    PutAllSelfFrom(m, 0);
  }

  lemma {:induction false} PutAllSelfFrom<K, V>(m: Entries<K, V>, n: nat)
    requires Distinct(m) && n <= |m|
    ensures PutAll(m, m[n..]) == m
    decreases |m| - n
  {
    if n < |m| {
      assert Put(m, m[n].0, m[n].1) == m by { PutExisting(m, n); }
      assert m[n..][1..] == m[n + 1..];
      PutAllSelfFrom(m, n + 1);
    }
  }

  /** Assigning to a key its own value at its first occurrence changes nothing. */
  lemma {:induction false} PutExisting<K, V>(m: Entries<K, V>, n: nat)
    requires n < |m| && forall i :: 0 <= i < n ==> m[i].0 != m[n].0
    ensures Put(m, m[n].0, m[n].1) == m
    decreases n
  {
    var tail := m[1..];
    if n > 0 {
      assert m[0].0 != m[n].0;
      assert tail[n - 1] == m[n];
      forall i | 0 <= i < n - 1 ensures tail[i].0 != tail[n - 1].0 {
        assert tail[i] == m[i + 1];
      }
      PutExisting(tail, n - 1);
      assert Put(m, m[n].0, m[n].1) == [m[0]] + Put(tail, m[n].0, m[n].1);
    }
    assert [m[0]] + tail == m;
  }

  /** The value stored at a position is what `d[key]` reads. */
  lemma {:induction false} GetAt<K, V>(m: Entries<K, V>, n: nat)
    requires Distinct(m) && n < |m|
    ensures Get(m, m[n].0) == Some(m[n].1)
    decreases n
  {
    if n > 0 {
      assert m[0].0 != m[n].0;
      assert Distinct(m[1..]);
      assert m[1..][n - 1] == m[n];
      GetAt(m[1..], n - 1);
    }
  }

  /** Assigning to `k` hides whatever two maps with the same keys held under
      `k`: if they agree everywhere else, they agree after the assignment. */
  lemma {:induction false} PutOverwrites<K, V>(m1: Entries<K, V>, m2: Entries<K, V>, k: K, v: V)
    requires Distinct(m1) && Keys(m1) == Keys(m2)
    requires forall i :: 0 <= i < |m1| && m1[i].0 != k ==> m1[i] == m2[i]
    ensures Put(m1, k, v) == Put(m2, k, v)
  {
    if |m1| > 0 {
      assert m1[0].0 == Keys(m1)[0] == Keys(m2)[0] == m2[0].0;
      if m1[0].0 == k {
        forall i | 0 <= i < |m1[1..]| ensures m1[1..][i] == m2[1..][i] {
          assert m1[i + 1].0 != m1[0].0;
          assert m1[i + 1] == m2[i + 1];
        }
        assert |m1[1..]| == |m2[1..]|;
        assert m1[1..] == m2[1..];
      } else {
        assert Keys(m1[1..]) == Keys(m1)[1..] && Keys(m2[1..]) == Keys(m2)[1..];
        forall i | 0 <= i < |m1[1..]| && m1[1..][i].0 != k ensures m1[1..][i] == m2[1..][i] {
          assert m1[i + 1] == m2[i + 1];
        }
        PutOverwrites(m1[1..], m2[1..], k, v);
      }
    }
  }
}
