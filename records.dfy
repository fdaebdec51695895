/** A JavaScript object used as a dictionary, as the keystore and the
    consensus context use them: its entries are kept in insertion order,
    which `Object.values` and `Object.keys` observe. The keys are never
    integer-like strings (addresses, network names, transaction hashes), so
    no entry is reordered by the engine. */
module Records {
  import opened Wrappers

  datatype Entry<K, V> = Entry(key: K, value: V)

  /** The entries of an object, in the order `Object.entries` lists them. */
  type Record<K, V> = seq<Entry<K, V>>

  function Keys<K, V>(r: Record<K, V>): seq<K> {
    seq(|r|, i requires 0 <= i < |r| => r[i].key)
  }

  /** `Object.values(r)`. */
  function Values<K, V>(r: Record<K, V>): seq<V> {
    seq(|r|, i requires 0 <= i < |r| => r[i].value)
  }

  /** An object never holds a key twice. */
  ghost predicate DistinctKeys<K, V>(r: Record<K, V>) {
    forall i, j :: 0 <= i < j < |r| ==> r[i].key != r[j].key
  }

  /** `r[k]`: `None` for a missing key. */
  function Get<K(==), V>(r: Record<K, V>, k: K): (v: Option<V>)
    ensures v.None? <==> k !in Keys(r)
    ensures v.Some? ==> exists i :: 0 <= i < |r| && r[i] == Entry(k, v.value)
  {
    if r == [] then None
    else if r[0].key == k then assert Keys(r)[0] == k; Some(r[0].value)
    else
      var v := Get(r[1..], k);
      assert Keys(r) == [r[0].key] + Keys(r[1..]);
      assert v.Some? ==> exists i :: 1 <= i < |r| && r[i] == Entry(k, v.value) by {
        if v.Some? {
          var i :| 0 <= i < |r[1..]| && r[1..][i] == Entry(k, v.value);
          assert r[i + 1] == Entry(k, v.value);
        }
      }
      v
  }

  /** `{ ...r, [k]: v }`: an existing key keeps its place and takes the new
      value, a new key goes last. */
  function Put<K(==), V>(r: Record<K, V>, k: K, v: V): Record<K, V> {
    if r == [] then [Entry(k, v)]
    else if r[0].key == k then [Entry(k, v)] + r[1..]
    else [r[0]] + Put(r[1..], k, v)
  }

  /** `const { [k]: _, ...rest } = r`: `rest`, which keeps the order of the
      other entries. */
  function Remove<K(==), V>(r: Record<K, V>, k: K): Record<K, V> {
    if r == [] then []
    else if r[0].key == k then Remove(r[1..], k)
    else [r[0]] + Remove(r[1..], k)
  }

  /** Reading a stored entry of an object gives its value. */
  lemma {:induction false} GetAt<K, V>(r: Record<K, V>, i: int)
    requires DistinctKeys(r) && 0 <= i < |r|
    ensures Get(r, r[i].key) == Some(r[i].value)
  {
    if i > 0 {
      assert r[1..][i - 1] == r[i];
      GetAt(r[1..], i - 1);
    }
  }

  /** After `{ ...r, [k]: v }`, `k` reads `v` and every other key reads as before. */
  lemma {:induction false} GetPut<K, V>(r: Record<K, V>, k: K, v: V, k': K)
    ensures Get(Put(r, k, v), k') == if k' == k then Some(v) else Get(r, k')
  {
    if r != [] && r[0].key != k {
      GetPut(r[1..], k, v, k');
      assert Put(r, k, v)[1..] == Put(r[1..], k, v);
    } else if r != [] {
      assert Put(r, k, v)[1..] == r[1..];
    }
  }

  /** A new key is appended; an existing one is overwritten in place. */
  lemma {:induction false} PutShape<K, V>(r: Record<K, V>, k: K, v: V)
    requires DistinctKeys(r)
    ensures k !in Keys(r) ==> Put(r, k, v) == r + [Entry(k, v)]
    ensures forall i :: 0 <= i < |r| && r[i].key == k ==> Put(r, k, v) == r[i := Entry(k, v)]
  {
    if r != [] {
      assert Keys(r)[0] == r[0].key;
      assert Keys(r[1..]) == Keys(r)[1..];
      PutShape(r[1..], k, v);
      if r[0].key != k {
        assert k !in Keys(r) ==> Put(r, k, v) == r + [Entry(k, v)] by {
          if k !in Keys(r) {
            assert [r[0]] + (r[1..] + [Entry(k, v)]) == r + [Entry(k, v)];
          }
        }
        forall i | 0 <= i < |r| && r[i].key == k
          ensures Put(r, k, v) == r[i := Entry(k, v)]
        {
          assert r[1..][i - 1] == r[i];
          assert [r[0]] + r[1..][i - 1 := Entry(k, v)] == r[i := Entry(k, v)];
        }
      } else {
        forall i | 0 <= i < |r| && r[i].key == k
          ensures Put(r, k, v) == r[i := Entry(k, v)]
        {
          assert i == 0;
        }
      }
    }
  }

  /** `{ ...r, [k]: v }` is again an object with distinct keys. */
  lemma {:induction false} PutKeepsDistinct<K, V>(r: Record<K, V>, k: K, v: V)
    requires DistinctKeys(r)
    ensures DistinctKeys(Put(r, k, v))
    ensures k in Keys(Put(r, k, v))
    ensures forall k' :: k' in Keys(r) ==> k' in Keys(Put(r, k, v))
  {
    PutShape(r, k, v);
    if k !in Keys(r) {
      var r' := r + [Entry(k, v)];
      assert Keys(r') == Keys(r) + [k];
    } else {
      var i :| 0 <= i < |r| && Keys(r)[i] == k;
      var r' := r[i := Entry(k, v)];
      assert Keys(r') == Keys(r);
    }
  }

  /** After removing `k`, `k` is missing and every other key reads as before. */
  lemma {:induction false} GetRemove<K, V>(r: Record<K, V>, k: K, k': K)
    ensures Get(Remove(r, k), k') == if k' == k then None else Get(r, k')
  {
    if r != [] {
      GetRemove(r[1..], k, k');
      if r[0].key != k {
        assert Remove(r, k)[1..] == Remove(r[1..], k);
      }
    }
  }

  /** Removing a missing key changes nothing. */
  lemma {:induction false} RemoveAbsent<K, V>(r: Record<K, V>, k: K)
    requires k !in Keys(r)
    ensures Remove(r, k) == r
  {
    if r != [] {
      assert Keys(r)[0] == r[0].key;
      assert Keys(r[1..]) == Keys(r)[1..];
      RemoveAbsent(r[1..], k);
      assert [r[0]] + r[1..] == r;
    }
  }

  /** Removing a stored key takes exactly its entry out and keeps the order
      of the rest. */
  lemma {:induction false} RemoveAt<K, V>(r: Record<K, V>, i: int)
    requires DistinctKeys(r) && 0 <= i < |r|
    ensures Remove(r, r[i].key) == r[..i] + r[i + 1..]
  {
    var k := r[i].key;
    if i == 0 {
      forall j | 0 <= j < |r[1..]| ensures Keys(r[1..])[j] != k {
        assert r[1..][j] == r[j + 1];
      }
      RemoveAbsent(r[1..], k);
    } else {
      assert r[1..][i - 1] == r[i];
      RemoveAt(r[1..], i - 1);
      assert r[1..][..i - 1] + r[1..][i..] == r[1..i] + r[i + 1..];
      assert [r[0]] + (r[1..i] + r[i + 1..]) == r[..i] + r[i + 1..];
    }
  }

  /** Removing a key leaves an object with distinct keys. */
  lemma RemoveKeepsDistinct<K, V>(r: Record<K, V>, k: K)
    requires DistinctKeys(r)
    ensures DistinctKeys(Remove(r, k))
  {
    if k !in Keys(r) {
      RemoveAbsent(r, k);
    } else {
      var i :| 0 <= i < |r| && Keys(r)[i] == k;
      RemoveAt(r, i);
      var r' := r[..i] + r[i + 1..];
      forall a, b | 0 <= a < b < |r'| ensures r'[a].key != r'[b].key {
        var a' := if a < i then a else a + 1;
        var b' := if b < i then b else b + 1;
        assert r'[a] == r[a'] && r'[b] == r[b'];
      }
    }
  }

  /** Every entry of `{ ...r, [k]: v }` is the new one or an entry of `r`. */
  lemma {:induction false} PutEntries<K, V>(r: Record<K, V>, k: K, v: V)
    ensures forall e :: e in Put(r, k, v) ==> e == Entry(k, v) || e in r
  {
    if r != [] && r[0].key != k {
      PutEntries(r[1..], k, v);
    }
  }

  /** Removing a key keeps only entries that were there, none with that key. */
  lemma {:induction false} RemoveEntries<K, V>(r: Record<K, V>, k: K)
    ensures forall e :: e in Remove(r, k) ==> e in r && e.key != k
  {
    if r != [] {
      RemoveEntries(r[1..], k);
    }
  }
}
