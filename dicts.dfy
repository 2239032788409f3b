/**
 * Python dictionaries as the scripts use them: key/value pairs in insertion
 * order, where assigning to an existing key keeps its place and assigning to a
 * new key appends it.
 */
module Dicts {
  import opened Wrappers

  predicate UniqueKeys<K(==), V>(d: seq<(K, V)>) {
    forall i, j | 0 <= i < j < |d| :: d[i].0 != d[j].0
  }

  /** `list(d)`: the keys in insertion order. */
  function KeySeq<K, V>(d: seq<(K, V)>): (r: seq<K>)
    ensures |r| == |d| && forall i | 0 <= i < |d| :: r[i] == d[i].0
  {
    seq(|d|, i requires 0 <= i < |d| => d[i].0)
  }

  /** `d.get(k)`. */
  function Lookup<K(==), V>(d: seq<(K, V)>, k: K): (r: Option<V>)
    ensures r.Some? <==> k in KeySeq(d)
  {
    if d == [] then None
    else if d[0].0 == k then Some(d[0].1)
    else
      assert KeySeq(d) == [d[0].0] + KeySeq(d[1..]);
      Lookup(d[1..], k)
  }

  /** `d[k] = v`. */
  function Put<K(==), V>(d: seq<(K, V)>, k: K, v: V): seq<(K, V)> {
    if d == [] then [(k, v)]
    else if d[0].0 == k then [(k, v)] + d[1..]
    else [d[0]] + Put(d[1..], k, v)
  }

  /** After `d[k] = v`, `k` reads `v` and every other key reads what it read before. */
  lemma {:induction false} PutLookup<K, V>(d: seq<(K, V)>, k: K, v: V, k': K)
    ensures Lookup(Put(d, k, v), k') == if k' == k then Some(v) else Lookup(d, k')
  {
    if d != [] && d[0].0 != k {
      PutLookup(d[1..], k, v, k');
      assert Put(d, k, v)[1..] == Put(d[1..], k, v);
    }
  }

  /** `d[k] = v` keeps the key order, and adds `k` at the end when it is new. */
  lemma {:induction false} PutKeys<K, V>(d: seq<(K, V)>, k: K, v: V)
    ensures KeySeq(Put(d, k, v)) == if k in KeySeq(d) then KeySeq(d) else KeySeq(d) + [k]
  {
    if d == [] {
    } else if d[0].0 == k {
      assert KeySeq(Put(d, k, v)) == [k] + KeySeq(d[1..]);
      assert KeySeq(d) == [k] + KeySeq(d[1..]);
    } else {
      PutKeys(d[1..], k, v);
      assert KeySeq(Put(d, k, v)) == [d[0].0] + KeySeq(Put(d[1..], k, v));
      assert KeySeq(d) == [d[0].0] + KeySeq(d[1..]);
    }
  }

  /** Assignment never makes a key appear twice. */
  lemma PutUnique<K, V>(d: seq<(K, V)>, k: K, v: V)
    requires UniqueKeys(d)
    ensures UniqueKeys(Put(d, k, v)) && |Put(d, k, v)| == |d| + (if k in KeySeq(d) then 0 else 1)
  {
    var r := Put(d, k, v);
    PutKeys(d, k, v);
    forall i, j | 0 <= i < j < |r| ensures r[i].0 != r[j].0 {
      assert KeySeq(r)[i] == r[i].0 && KeySeq(r)[j] == r[j].0;
      if j < |d| {
        assert KeySeq(d)[i] == d[i].0 && KeySeq(d)[j] == d[j].0;
      } else {
        assert KeySeq(d)[i] == d[i].0;
      }
    }
  }

  /** Every pair after `d[k] = v` is the new one or was there before, at the same place. */
  lemma {:induction false} PutEntries<K, V>(d: seq<(K, V)>, k: K, v: V)
    ensures forall i | 0 <= i < |Put(d, k, v)| :: Put(d, k, v)[i] == (k, v) || (i < |d| && Put(d, k, v)[i] == d[i])
  {
    if d != [] && d[0].0 != k {
      PutEntries(d[1..], k, v);
      var r := Put(d, k, v);
      forall i | 1 <= i < |r| ensures r[i] == (k, v) || (i < |d| && r[i] == d[i]) {
        assert r[i] == Put(d[1..], k, v)[i - 1];
        if i - 1 < |d[1..]| {
          assert d[1..][i - 1] == d[i];
        }
      }
    }
  }

  /** What `d.get(k)` returns is stored in `d` under `k`. */
  lemma LookupEntry<K, V>(d: seq<(K, V)>, k: K)
    requires Lookup(d, k).Some?
    ensures exists i | 0 <= i < |d| :: d[i] == (k, Lookup(d, k).value)
  {
    if d[0].0 != k {
      LookupEntry(d[1..], k);
      var i :| 0 <= i < |d[1..]| && d[1..][i] == (k, Lookup(d, k).value);
      assert d[i + 1] == d[1..][i];
    }
  }

  /** `d[k] = v` adds one entry exactly when `k` is new. */
  lemma {:induction false} PutLength<K, V>(d: seq<(K, V)>, k: K, v: V)
    ensures |Put(d, k, v)| == |d| + (if k in KeySeq(d) then 0 else 1)
  {
    if d != [] {
      assert KeySeq(d) == [d[0].0] + KeySeq(d[1..]);
      if d[0].0 != k {
        PutLength(d[1..], k, v);
      }
    }
  }

  /** Looking a key up after appending one pair. */
  lemma {:induction false} LookupSnoc<K, V>(d: seq<(K, V)>, e: (K, V), k: K)
    ensures Lookup(d + [e], k) == if Lookup(d, k).Some? then Lookup(d, k) else if e.0 == k then Some(e.1) else None
  {
    if d != [] {
      assert (d + [e])[1..] == d[1..] + [e];
      LookupSnoc(d[1..], e, k);
    }
  }
}
