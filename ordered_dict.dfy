/**
 * A Python `dict` as the sequence of its items in insertion order: a new
 * key is appended, an existing key keeps its place and takes the new value.
 * This is the order in which `dict.items()` hands entries to a loop.
 */
module OrderedDict {
  import opened Optional
  import opened Seqs

  type Dict<K, V> = seq<(K, V)>

  function Keys<K, V>(d: Dict<K, V>): (r: seq<K>)
    ensures |r| == |d|
    ensures forall i | 0 <= i < |d| :: r[i] == d[i].0
  {
    seq(|d|, i requires 0 <= i < |d| => d[i].0)
  }

  /** A well-formed dict lists each key once. */
  predicate Valid<K(==), V>(d: Dict<K, V>) {
    NoDuplicates(Keys(d))
  }

  /** `d.get(k)`. */
  function Get<K(==), V>(d: Dict<K, V>, k: K): (r: Option<V>)
    ensures r.None? <==> k !in Keys(d)
    ensures r.Some? ==> (k, r.value) in d
  {
    if d == [] then None
    else if d[0].0 == k then Some(d[0].1)
    else
      assert Keys(d[1..]) == Keys(d)[1..];
      Get(d[1..], k)
  }

  /** `d[k] = v`. */
  function Set<K(==), V>(d: Dict<K, V>, k: K, v: V): (r: Dict<K, V>)
    ensures |r| == if k in Keys(d) then |d| else |d| + 1
  {
    if d == [] then [(k, v)]
    else if d[0].0 == k then [(k, v)] + d[1..]
    else
      assert Keys(d[1..]) == Keys(d)[1..];
      [d[0]] + Set(d[1..], k, v)
  }

  /**
   * Where `d[k] = v` puts things: an existing key keeps its place, so the key
   * order is unchanged; a new key is appended at the end; every entry of
   * another key stays where it was.
   */
  lemma {:induction false} SetPlace<K, V>(d: Dict<K, V>, k: K, v: V)
    ensures k in Keys(d) ==> Keys(Set(d, k, v)) == Keys(d)
    ensures k !in Keys(d) ==> Set(d, k, v) == d + [(k, v)]
    ensures forall i | 0 <= i < |d| && d[i].0 != k :: Set(d, k, v)[i] == d[i]
  {
    if d == [] {
    } else if d[0].0 == k {
      var r := Set(d, k, v);
      assert r == [(k, v)] + d[1..];
      assert Keys(r) == Keys(d) by {
        forall i | 0 <= i < |d| ensures Keys(r)[i] == Keys(d)[i] {
          if i > 0 { assert r[i] == d[i]; }
        }
      }
    } else {
      var tail := Set(d[1..], k, v);
      var r := Set(d, k, v);
      assert r == [d[0]] + tail;
      assert Keys(d[1..]) == Keys(d)[1..];
      SetPlace(d[1..], k, v);
      assert k in Keys(d) <==> k in Keys(d[1..]);
      if k !in Keys(d) {
        assert [d[0]] + (d[1..] + [(k, v)]) == d + [(k, v)];
      } else {
        KeysCons(d[0], tail);
        KeysCons(d[0], d[1..]);
        assert [d[0]] + d[1..] == d;
      }
      forall i | 0 <= i < |d| && d[i].0 != k ensures r[i] == d[i] {
        if i > 0 { assert r[i] == tail[i - 1] && d[i] == d[1..][i - 1]; }
      }
    }
  }

  /** After `d[k] = v` the key reads `v`, every other key reads as before, and the key set grows by `k` only. */
  lemma SetGet<K, V>(d: Dict<K, V>, k: K, v: V, other: K)
    ensures Get(Set(d, k, v), k) == Some(v)
    ensures other != k ==> Get(Set(d, k, v), other) == Get(d, other)
    ensures forall x :: x in Keys(Set(d, k, v)) <==> x == k || x in Keys(d)
  {
    SetReads(d, k, v, other);
    SetKeys(d, k, v);
  }

  lemma {:induction false} SetReads<K, V>(d: Dict<K, V>, k: K, v: V, other: K)
    ensures Get(Set(d, k, v), k) == Some(v)
    ensures other != k ==> Get(Set(d, k, v), other) == Get(d, other)
  {
    if d != [] && d[0].0 != k {
      assert Keys(d[1..]) == Keys(d)[1..];
      SetReads(d[1..], k, v, other);
      var r := Set(d, k, v);
      assert r == [d[0]] + Set(d[1..], k, v);
      assert r[1..] == Set(d[1..], k, v);
    }
  }

  lemma {:induction false} SetKeys<K, V>(d: Dict<K, V>, k: K, v: V)
    ensures forall x :: x in Keys(Set(d, k, v)) <==> x == k || x in Keys(d)
  {
    if d == [] {
      assert Keys(Set(d, k, v)) == [k];
    } else if d[0].0 != k {
      SetKeys(d[1..], k, v);
      assert Set(d, k, v) == [d[0]] + Set(d[1..], k, v);
      KeysCons(d[0], Set(d[1..], k, v));
      KeysCons(d[0], d[1..]);
      assert [d[0]] + d[1..] == d;
    } else {
      assert Set(d, k, v) == [(k, v)] + d[1..];
      KeysCons((k, v), d[1..]);
      KeysCons(d[0], d[1..]);
      assert [d[0]] + d[1..] == d;
    }
  }

  lemma KeysCons<K, V>(p: (K, V), d: Dict<K, V>)
    ensures Keys([p] + d) == [p.0] + Keys(d)
  {
  }

  /** Setting a key keeps a dict well formed. */
  lemma {:induction false} SetValid<K, V>(d: Dict<K, V>, k: K, v: V)
    requires Valid(d)
    ensures Valid(Set(d, k, v))
  {
    if d == [] {
    } else if d[0].0 != k {
      assert Keys(d[1..]) == Keys(d)[1..];
      SetValid(d[1..], k, v);
      SetValidCons(d[0], d[1..], k, v);
    } else {
      var r := Set(d, k, v);
      assert Keys(r) == [k] + Keys(d)[1..];
      assert Keys(d) == [k] + Keys(d)[1..];
    }
  }

  lemma SetValidCons<K, V>(first: (K, V), rest: Dict<K, V>, k: K, v: V)
    requires first.0 != k && first.0 !in Keys(rest)
    requires Valid(Set(rest, k, v))
    ensures Valid(Set([first] + rest, k, v))
  {
    var tail := Set(rest, k, v);
    assert ([first] + rest)[1..] == rest;
    assert Set([first] + rest, k, v) == [first] + tail;
    SetKeys(rest, k, v);
    KeysCons(first, tail);
    ConsNoDuplicates(first.0, Keys(tail));
  }

  lemma ConsNoDuplicates<T>(x: T, s: seq<T>)
    requires x !in s && NoDuplicates(s)
    ensures NoDuplicates([x] + s)
  {
  }
}
