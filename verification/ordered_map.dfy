/** JavaScript's `Map`: entries kept in insertion order, at most one entry per
    key. `set` on a present key replaces the value in place; on an absent key
    it appends. `delete` removes the entry and keeps the others in order. */
module OrderedMap {
  import opened Wrappers

  type OMap<K, V> = seq<(K, V)>

  ghost predicate KeysDistinct<K, V>(m: OMap<K, V>)
  {
    forall i, j :: 0 <= i < j < |m| ==> m[i].0 != m[j].0
  }

  /** Position of the entry for `k`, if there is one. */
  function Find<K(==), V>(m: OMap<K, V>, k: K): (r: Option<nat>)
    ensures r.Some? ==> r.value < |m| && m[r.value].0 == k
    ensures r.Some? ==> forall j :: 0 <= j < r.value ==> m[j].0 != k
    ensures r.None? <==> forall j :: 0 <= j < |m| ==> m[j].0 != k
  {
    if |m| == 0 then None
    else if m[0].0 == k then Some(0)
    else match Find(m[1..], k)
      case None => None
      case Some(i) => Some(i + 1)
  }

  /** `map.has(k)` */
  predicate Has<K(==), V>(m: OMap<K, V>, k: K)
  {
    Find(m, k).Some?
  }

  /** `map.get(k)` on a present key. */
  function Get<K(==), V>(m: OMap<K, V>, k: K): V
    requires Has(m, k)
  {
    m[Find(m, k).value].1
  }

  /** `map.set(k, v)` */
  function Set<K(==,!new), V>(m: OMap<K, V>, k: K, v: V): (r: OMap<K, V>)
    ensures Has(m, k) ==> |r| == |m| && Keys(r) == Keys(m)
    ensures !Has(m, k) ==> r == m + [(k, v)]
    ensures Has(r, k) && Get(r, k) == v
    ensures forall k' :: k' != k ==> (Has(r, k') <==> Has(m, k'))
    ensures forall k' :: k' != k && Has(m, k') ==> Get(r, k') == Get(m, k')
    ensures KeysDistinct(m) ==> KeysDistinct(r)
  {
    match Find(m, k)
    case Some(i) =>
      var r := m[i := (k, v)];
      assert Keys(r) == Keys(m);
      FindAt(r, k, i);
      assert forall k' :: k' != k ==> Find(r, k') == Find(m, k') by {
        forall k' | k' != k
          ensures Find(r, k') == Find(m, k')
        {
          FindUnchanged(m, i, (k, v), k');
        }
      }
      r
    case None =>
      var r := m + [(k, v)];
      assert forall k' :: k' != k ==> Find(r, k') == Find(m, k') by {
        forall k' | k' != k
          ensures Find(r, k') == Find(m, k')
        {
          FindAppend(m, (k, v), k');
        }
      }
      FindAt(r, k, |m|);
      r
  }

  /** The first entry carrying `k` is the one `Find` reports. */
  lemma FindAt<K, V>(m: OMap<K, V>, k: K, i: nat)
    requires i < |m| && m[i].0 == k
    requires forall j :: 0 <= j < i ==> m[j].0 != k
    ensures Find(m, k) == Some(i)
  {
  }

  lemma FindUnchanged<K, V>(m: OMap<K, V>, i: nat, e: (K, V), k': K)
    requires i < |m| && m[i].0 == e.0 && k' != e.0
    ensures Find(m[i := e], k') == Find(m, k')
  {
    var r := m[i := e];
    assert forall j :: 0 <= j < |m| ==> (r[j].0 == k' <==> m[j].0 == k');
    match Find(m, k')
    case None =>
    case Some(p) =>
      assert r[p].0 == k';
  }

  lemma FindAppend<K, V>(m: OMap<K, V>, e: (K, V), k': K)
    requires k' != e.0
    ensures Find(m + [e], k') == Find(m, k')
  {
    var r := m + [e];
    match Find(m, k')
    case None =>
    case Some(p) =>
      assert r[p].0 == k';
  }

  /** `map.delete(k)` */
  function Delete<K(==), V>(m: OMap<K, V>, k: K): (r: OMap<K, V>)
    ensures forall j :: 0 <= j < |r| ==> r[j].0 != k
    ensures !Has(m, k) ==> r == m
  {
    if |m| == 0 then []
    else if m[0].0 == k then Delete(m[1..], k)
    else [m[0]] + Delete(m[1..], k)
  }

  /** With distinct keys, `delete` cuts out exactly the one entry for `k` and
      keeps every other entry, in its original order. */
  lemma {:induction false} DeleteCutsOut<K, V>(m: OMap<K, V>, k: K)
    requires KeysDistinct(m) && Has(m, k)
    ensures var i := Find(m, k).value; Delete(m, k) == m[..i] + m[i + 1..]
  {
    var i := Find(m, k).value;
    if i == 0 {
      assert forall j :: 0 <= j < |m[1..]| ==> m[1..][j].0 != k by {
        assert forall j :: 1 <= j < |m| ==> m[j].0 != m[0].0;
      }
      assert Find(m[1..], k).None?;
    } else {
      assert Find(m[1..], k) == Some(i - 1);
      DeleteCutsOut(m[1..], k);
      assert m[1..][..i - 1] == m[1..i];
      assert m[1..][i..] == m[i + 1..];
      assert [m[0]] + m[1..i] == m[..i];
    }
  }

  /** Adding an absent key and deleting it again gives back the map. */
  lemma SetThenDelete<K(!new), V>(m: OMap<K, V>, k: K, v: V)
    requires !Has(m, k)
    ensures Delete(Set(m, k, v), k) == m
  {
    DeleteAppended(m, k, v);
  }

  lemma {:induction false} DeleteAppended<K, V>(m: OMap<K, V>, k: K, v: V)
    requires !Has(m, k)
    ensures Delete(m + [(k, v)], k) == m
    decreases |m|
  {
    if |m| > 0 {
      assert (m + [(k, v)])[1..] == m[1..] + [(k, v)];
      assert !Has(m[1..], k) by {
        assert forall j :: 0 <= j < |m[1..]| ==> m[1..][j].0 == m[j + 1].0;
      }
      DeleteAppended(m[1..], k, v);
      assert [m[0]] + m[1..] == m;
    }
  }

  lemma DeletePreservesDistinct<K, V>(m: OMap<K, V>, k: K)
    requires KeysDistinct(m)
    ensures KeysDistinct(Delete(m, k))
  {
    if Has(m, k) {
      DeleteCutsOut(m, k);
      CutOutDistinct(m, Find(m, k).value);
    }
  }

  /** Cutting one entry out keeps the remaining keys distinct. */
  lemma CutOutDistinct<K, V>(m: OMap<K, V>, i: nat)
    requires KeysDistinct(m) && i < |m|
    ensures KeysDistinct(m[..i] + m[i + 1..])
  {
    var r := m[..i] + m[i + 1..];
    forall a, b | 0 <= a < b < |r|
      ensures r[a].0 != r[b].0
    {
      var a' := if a < i then a else a + 1;
      var b' := if b < i then b else b + 1;
      assert r[a] == m[a'] && r[b] == m[b'];
    }
  }

  /** The keys, in insertion order (`map.keys()`). */
  function Keys<K, V>(m: OMap<K, V>): (ks: seq<K>)
    ensures |ks| == |m|
    ensures forall j :: 0 <= j < |m| ==> ks[j] == m[j].0
  {
    seq(|m|, j requires 0 <= j < |m| => m[j].0)
  }

  /** The values, in insertion order (`Array.from(map.values())`). */
  function Values<K, V>(m: OMap<K, V>): (vs: seq<V>)
    ensures |vs| == |m|
    ensures forall j :: 0 <= j < |m| ==> vs[j] == m[j].1
  {
    seq(|m|, j requires 0 <= j < |m| => m[j].1)
  }

  function SumValues<K>(m: OMap<K, int>): int
  {
    if |m| == 0 then 0 else m[0].1 + SumValues(m[1..])
  }

  lemma {:induction false} SumValuesAppend<K>(m: OMap<K, int>, e: (K, int))
    ensures SumValues(m + [e]) == SumValues(m) + e.1
    decreases |m|
  {
    if |m| > 0 {
      assert (m + [e])[1..] == m[1..] + [e];
      SumValuesAppend(m[1..], e);
    }
  }

  lemma {:induction false} SumValuesUpdate<K>(m: OMap<K, int>, i: nat, e: (K, int))
    requires i < |m|
    ensures SumValues(m[i := e]) == SumValues(m) - m[i].1 + e.1
    decreases |m|
  {
    if i > 0 {
      assert m[i := e][1..] == m[1..][i - 1 := e];
      SumValuesUpdate(m[1..], i - 1, e);
    }
  }

  /** `set` changes the sum of the values by the new value minus the value it replaces. */
  lemma SumValuesSet<K(!new)>(m: OMap<K, int>, k: K, v: int)
    ensures SumValues(Set(m, k, v)) == SumValues(m) - (if Has(m, k) then Get(m, k) else 0) + v
  {
    match Find(m, k)
    case Some(i) => SumValuesUpdate(m, i, (k, v));
    case None => SumValuesAppend(m, (k, v));
  }
}
