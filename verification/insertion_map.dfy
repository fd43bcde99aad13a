/** A JavaScript `Map`: an insertion-ordered collection of entries with
    distinct keys, represented by the sequence of its entries in iteration
    order (which is also what the spread `[...map]` yields). */
module InsertionMap {
  import opened Wrappers
  import opened Seqs

  /** The keys in iteration order (`[...map.keys()]`). */
  function Keys<K(==,!new), V(!new)>(m: seq<(K, V)>): (ks: seq<K>)
    ensures |ks| == |m|
    ensures forall i :: 0 <= i < |m| ==> ks[i] == m[i].0
  {
    seq(|m|, i requires 0 <= i < |m| => m[i].0)
  }

  /** The representation invariant of a `Map`: each key occurs once. */
  predicate Valid<K(==,!new), V(!new)>(m: seq<(K, V)>) {
    Distinct(Keys(m))
  }

  /** Keys of an entry prefix are the prefix of the keys. */
  lemma KeysDropLast<K(!new), V(!new)>(m: seq<(K, V)>)
    requires |m| > 0
    ensures Keys(DropLast(m)) == DropLast(Keys(m))
  {
  }

  /** `map.get(k)`. Over an entry list with repeated keys (the argument of
      `new Map(entries)`) this is the LAST binding of `k`, the one the
      constructed map ends up holding. */
  function Get<K(==,!new), V(!new)>(m: seq<(K, V)>, k: K): (r: Option<V>)
    ensures r.Some? <==> k in Keys(m)
    ensures r.Some? ==> (k, r.value) in m
  {
    if |m| == 0 then None
    else
      KeysDropLast(m);
      assert Keys(m) == Keys(DropLast(m)) + [Last(m).0];
      if Last(m).0 == k then Some(Last(m).1) else Get(DropLast(m), k)
  }

  /** `Get` finds the value of the last entry with the key, whatever came
      before it. */
  lemma {:induction false} GetLastBinding<K(!new), V(!new)>(es: seq<(K, V)>, i: int)
    requires 0 <= i < |es|
    requires forall j :: i < j < |es| ==> es[j].0 != es[i].0
    ensures Get(es, es[i].0) == Some(es[i].1)
    decreases |es|
  {
    if i < |es| - 1 {
      assert Last(es).0 != es[i].0;
      assert DropLast(es)[i] == es[i];
      forall j | i < j < |es| - 1 ensures DropLast(es)[j].0 != es[i].0 {
        assert DropLast(es)[j] == es[j];
      }
      GetLastBinding(DropLast(es), i);
    }
  }

  /** In a valid map, each entry is what `get` returns for its key. */
  lemma GetEntry<K(!new), V(!new)>(m: seq<(K, V)>, i: int)
    requires Valid(m) && 0 <= i < |m|
    ensures Get(m, m[i].0) == Some(m[i].1)
  {
  }

  /** Overwrites the value of every entry whose key is `k`, in place. */
  function Overwrite<K(==,!new), V(!new)>(m: seq<(K, V)>, k: K, v: V): (r: seq<(K, V)>)
    ensures Keys(r) == Keys(m)
  {
    seq(|m|, i requires 0 <= i < |m| => if m[i].0 == k then (k, v) else m[i])
  }

  lemma {:induction false} GetOverwrite<K(!new), V(!new)>(m: seq<(K, V)>, k: K, v: V, j: K)
    ensures Get(Overwrite(m, k, v), j) == if j == k && k in Keys(m) then Some(v) else Get(m, j)
    decreases |m|
  {
    if |m| > 0 {
      var r := Overwrite(m, k, v);
      assert DropLast(r) == Overwrite(DropLast(m), k, v);
      assert Last(r) == if Last(m).0 == k then (k, v) else Last(m);
      KeysDropLast(m);
      assert Keys(m) == Keys(DropLast(m)) + [Last(m).0];
      GetOverwrite(DropLast(m), k, v, j);
    }
  }

  /** `map.set(k, v)`: an existing key keeps its position and takes the new
      value; a new key is appended at the end. */
  function Set<K(==,!new), V(!new)>(m: seq<(K, V)>, k: K, v: V): (r: seq<(K, V)>)
    ensures k in Keys(m) ==> Keys(r) == Keys(m)
    ensures k !in Keys(m) ==> Keys(r) == Keys(m) + [k]
    ensures Valid(m) ==> Valid(r)
    ensures forall j :: Get(r, j) == if j == k then Some(v) else Get(m, j)
  {
    if k in Keys(m) then
      var r := Overwrite(m, k, v);
      assert forall j :: Get(r, j) == if j == k then Some(v) else Get(m, j) by {
        forall j { GetOverwrite(m, k, v, j); }
      }
      r
    else
      var r := m + [(k, v)];
      assert DropLast(r) == m;
      r
  }

  /** `map.delete(k)`: the entry for `k`, if any, goes; the rest keep their order. */
  function Delete<K(==,!new), V(!new)>(m: seq<(K, V)>, k: K): (r: seq<(K, V)>)
    ensures Keys(r) == Filter(Keys(m), NotIn({k}))
    ensures Valid(m) ==> Valid(r)
    ensures forall j :: Get(r, j) == if j == k then None else Get(m, j)
  {
    WithoutKeysProps(m, {k});
    WithoutKeys(m, {k})
  }

  /** The entries of `m` whose key is not in `ks`, in order. */
  function WithoutKeys<K(==,!new), V(!new)>(m: seq<(K, V)>, ks: set<K>): (r: seq<(K, V)>) {
    Filter(m, (e: (K, V)) => e.0 !in ks)
  }

  lemma {:induction false} WithoutKeysProps<K(!new), V(!new)>(m: seq<(K, V)>, ks: set<K>)
    ensures Keys(WithoutKeys(m, ks)) == Filter(Keys(m), NotIn(ks))
    ensures Valid(m) ==> Valid(WithoutKeys(m, ks))
    ensures forall j :: Get(WithoutKeys(m, ks), j) == if j in ks then None else Get(m, j)
  {
    WithoutKeysKeys(m, ks);
    if Valid(m) {
      FilterDistinct(Keys(m), NotIn(ks));
    }
    forall j ensures Get(WithoutKeys(m, ks), j) == if j in ks then None else Get(m, j) {
      WithoutKeysGet(m, ks, j);
    }
  }

  lemma {:induction false} WithoutKeysKeys<K(!new), V(!new)>(m: seq<(K, V)>, ks: set<K>)
    ensures Keys(WithoutKeys(m, ks)) == Filter(Keys(m), NotIn(ks))
    decreases |m|
  {
    if |m| > 0 {
      WithoutKeysKeys(DropLast(m), ks);
      KeysDropLast(m);
      var r := WithoutKeys(m, ks);
      if Last(m).0 !in ks {
        assert DropLast(r) == WithoutKeys(DropLast(m), ks);
        KeysDropLast(r);
        assert Keys(r) == Keys(DropLast(r)) + [Last(m).0];
      } else {
        assert r == WithoutKeys(DropLast(m), ks);
      }
    }
  }

  lemma {:induction false} WithoutKeysGet<K(!new), V(!new)>(m: seq<(K, V)>, ks: set<K>, j: K)
    ensures Get(WithoutKeys(m, ks), j) == if j in ks then None else Get(m, j)
    decreases |m|
  {
    if |m| > 0 {
      WithoutKeysGet(DropLast(m), ks, j);
      var r := WithoutKeys(m, ks);
      if Last(m).0 !in ks {
        assert DropLast(r) == WithoutKeys(DropLast(m), ks);
        assert Last(r) == Last(m);
      } else {
        assert r == WithoutKeys(DropLast(m), ks);
      }
    }
  }

  /** `ks.forEach(k => map.delete(k))`. */
  function DeleteAll<K(==,!new), V(!new)>(m: seq<(K, V)>, ks: seq<K>): (r: seq<(K, V)>)
    ensures r == WithoutKeys(m, Elems(ks))
  {
    if |ks| == 0 then
      assert Elems(ks) == {};
      FilterNothing(m);
      m
    else
      var r := Delete(DeleteAll(m, DropLast(ks)), Last(ks));
      assert Elems(ks) == Elems(DropLast(ks)) + {Last(ks)} by {
        assert ks == DropLast(ks) + [Last(ks)];
      }
      WithoutKeysTwice(m, Elems(DropLast(ks)), {Last(ks)});
      r
  }

  lemma {:induction false} FilterNothing<K(!new), V(!new)>(m: seq<(K, V)>)
    ensures WithoutKeys(m, {}) == m
    decreases |m|
  {
    if |m| > 0 {
      FilterNothing(DropLast(m));
    }
  }

  lemma {:induction false} WithoutKeysTwice<K(!new), V(!new)>(m: seq<(K, V)>, a: set<K>, b: set<K>)
    ensures WithoutKeys(WithoutKeys(m, a), b) == WithoutKeys(m, a + b)
    decreases |m|
  {
    if |m| > 0 {
      WithoutKeysTwice(DropLast(m), a, b);
    }
  }

  /** `es.forEach(([k, v]) => map.set(k, v))`. */
  function SetAll<K(==,!new), V(!new)>(m: seq<(K, V)>, es: seq<(K, V)>): (r: seq<(K, V)>)
    decreases |es|
  {
    if |es| == 0 then m else Set(SetAll(m, DropLast(es)), Last(es).0, Last(es).1)
  }

  /** Keys not yet present are added at the end in order of first occurrence. */
  lemma {:induction false} SetAllKeys<K(!new), V(!new)>(m: seq<(K, V)>, es: seq<(K, V)>)
    ensures Keys(SetAll(m, es)) == Keys(m) + Fresh(Keys(es), Elems(Keys(m)))
    ensures Valid(m) ==> Valid(SetAll(m, es))
    decreases |es|
  {
    if |es| > 0 {
      SetAllKeys(m, DropLast(es));
      KeysDropLast(es);
      assert Keys(es) == Keys(DropLast(es)) + [Last(es).0];
    }
  }

  /** Each key ends up bound to its last value in `es`; other keys keep theirs. */
  lemma {:induction false} SetAllGet<K(!new), V(!new)>(m: seq<(K, V)>, es: seq<(K, V)>, j: K)
    ensures Get(SetAll(m, es), j) == if j in Keys(es) then Get(es, j) else Get(m, j)
    decreases |es|
  {
    if |es| > 0 {
      SetAllGet(m, DropLast(es), j);
      KeysDropLast(es);
      assert Keys(es) == Keys(DropLast(es)) + [Last(es).0];
    }
  }

  /** `new Map(entries)`. */
  function FromEntries<K(==,!new), V(!new)>(es: seq<(K, V)>): (r: seq<(K, V)>)
    ensures Valid(r)
    ensures Keys(r) == Fresh(Keys(es), {})
    ensures forall j :: Get(r, j) == Get(es, j)
  {
    SetAllKeys([], es);
    assert Elems(Keys<K, V>([])) == {};
    assert Keys<K, V>([]) + Fresh(Keys(es), {}) == Fresh(Keys(es), {});
    forall j ensures Get(SetAll([], es), j) == Get(es, j) {
      SetAllGet([], es, j);
    }
    SetAll([], es)
  }

  /** Inserting entries in two batches is inserting their concatenation. */
  lemma {:induction false} SetAllConcat<K(!new), V(!new)>(m: seq<(K, V)>, a: seq<(K, V)>, b: seq<(K, V)>)
    ensures SetAll(m, a + b) == SetAll(SetAll(m, a), b)
    decreases |b|
  {
    if |b| == 0 {
      assert a + b == a;
    } else {
      assert DropLast(a + b) == a + DropLast(b);
      SetAllConcat(m, a, DropLast(b));
    }
  }

  /** Rebuilding a valid map from its own entries gives it back unchanged. */
  lemma {:induction false} FromOwnEntries<K(!new), V(!new)>(m: seq<(K, V)>)
    requires Valid(m)
    ensures FromEntries(m) == m
    decreases |m|
  {
    if |m| > 0 {
      KeysDropLast(m);
      FromOwnEntries(DropLast(m));
      assert Last(m).0 !in Keys(DropLast(m));
    }
  }

  /** `new Map([...a, ...b])` for maps `a` and `b`: `a`'s keys first, then
      `b`'s keys not in `a`; on a shared key `b`'s value wins. */
  lemma MergeSpread<K(!new), V(!new)>(a: seq<(K, V)>, b: seq<(K, V)>)
    requires Valid(a) && Valid(b)
    ensures Keys(FromEntries(a + b)) == Keys(a) + Filter(Keys(b), NotIn(Elems(Keys(a))))
    ensures forall j :: Get(FromEntries(a + b), j) == if j in Keys(b) then Get(b, j) else Get(a, j)
  {
    MergeSpreadKeys(a, b);
    forall j ensures Get(FromEntries(a + b), j) == if j in Keys(b) then Get(b, j) else Get(a, j) {
      MergeSpreadGet(a, b, j);
    }
  }

  lemma MergeSpreadKeys<K(!new), V(!new)>(a: seq<(K, V)>, b: seq<(K, V)>)
    requires Valid(a) && Valid(b)
    ensures Keys(FromEntries(a + b)) == Keys(a) + Filter(Keys(b), NotIn(Elems(Keys(a))))
  {
    SetAllConcat([], a, b);
    FromOwnEntries(a);
    SetAllKeys(a, b);
    FreshOfDistinct(Keys(b), Elems(Keys(a)));
  }

  lemma MergeSpreadGet<K(!new), V(!new)>(a: seq<(K, V)>, b: seq<(K, V)>, j: K)
    requires Valid(a)
    ensures Get(FromEntries(a + b), j) == if j in Keys(b) then Get(b, j) else Get(a, j)
  {
    SetAllConcat([], a, b);
    FromOwnEntries(a);
    SetAllGet(a, b, j);
  }
}
