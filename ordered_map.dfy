/**
 * A JavaScript `Map`: keys are unique and iteration follows insertion
 * order. `set` on a present key overwrites its value where it stands;
 * `set` on a new key appends; `delete` removes the one entry and keeps the
 * order of the rest.
 */
module OrderedMap {
  import opened Wrappers

  datatype Entry<K, V> = Entry(key: K, value: V)

  type OMap<K, V> = seq<Entry<K, V>>

  predicate Has<K(==), V>(m: OMap<K, V>, k: K) {
    exists i :: 0 <= i < |m| && m[i].key == k
  }

  /** The invariant of a `Map`: no key occurs twice. */
  predicate DistinctKeys<K(==), V>(m: OMap<K, V>) {
    forall i, j :: 0 <= i < j < |m| ==> m[i].key != m[j].key
  }

  /** Position of the entry for `k`, if any. */
  function IndexOf<K(==), V>(m: OMap<K, V>, k: K): (r: Option<nat>)
    ensures r.None? <==> !Has(m, k)
    ensures r.Some? ==> r.value < |m| && m[r.value].key == k &&
                        forall j :: 0 <= j < r.value ==> m[j].key != k
  {
    if m == [] then None
    else if m[0].key == k then Some(0)
    else
      match IndexOf(m[1..], k)
      case None => None
      case Some(i) => Some(i + 1)
  }

  /** The values in iteration order (`Array.from(m.values())`). */
  function Values<K, V>(m: OMap<K, V>): (r: seq<V>)
    ensures |r| == |m|
    ensures forall i :: 0 <= i < |m| ==> r[i] == m[i].value
  {
    if m == [] then [] else [m[0].value] + Values(m[1..])
  }

  /** `m.set(k, v)`. */
  function Set<K(==), V>(m: OMap<K, V>, k: K, v: V): OMap<K, V> {
    if m == [] then [Entry(k, v)]
    else if m[0].key == k then [Entry(k, v)] + m[1..]
    else [m[0]] + Set(m[1..], k, v)
  }

  /** `m.delete(k)`. */
  function Delete<K(==), V>(m: OMap<K, V>, k: K): OMap<K, V> {
    if m == [] then []
    else if m[0].key == k then m[1..]
    else [m[0]] + Delete(m[1..], k)
  }

  /** `set` overwrites the entry of a present key where it stands and
      appends an entry for a new key. */
  lemma {:induction false} SetShape<K, V>(m: OMap<K, V>, k: K, v: V)
    ensures IndexOf(m, k).None? ==> Set(m, k, v) == m + [Entry(k, v)]
    ensures IndexOf(m, k).Some? ==> Set(m, k, v) == m[IndexOf(m, k).value := Entry(k, v)]
  {
    if m != [] && m[0].key != k {
      SetShape(m[1..], k, v);
      match IndexOf(m[1..], k)
      case None =>
        assert [m[0]] + (m[1..] + [Entry(k, v)]) == m + [Entry(k, v)];
      case Some(p) =>
        assert [m[0]] + m[1..][p := Entry(k, v)] == m[p + 1 := Entry(k, v)];
    }
  }

  /** `delete` cuts out the entry of a present key and leaves the map alone
      for an absent one. */
  lemma {:induction false} DeleteShape<K, V>(m: OMap<K, V>, k: K)
    ensures IndexOf(m, k).None? ==> Delete(m, k) == m
    ensures IndexOf(m, k).Some? ==> Delete(m, k) == m[..IndexOf(m, k).value] + m[IndexOf(m, k).value + 1..]
  {
    if m != [] && m[0].key != k {
      DeleteShape(m[1..], k);
      match IndexOf(m[1..], k)
      case None =>
        assert [m[0]] + m[1..] == m;
      case Some(p) =>
        assert [m[0]] + (m[1..][..p] + m[1..][p + 1..]) == m[..p + 1] + m[p + 2..];
    }
  }

  /** After `set`, the map holds exactly one entry for `k`, carrying `v`; every
      other entry keeps its value and its position; a new key goes last. */
  lemma SetSpec<K, V>(m: OMap<K, V>, k: K, v: V)
    requires DistinctKeys(m)
    ensures var r := Set(m, k, v);
      && DistinctKeys(r)
      && |r| == (if Has(m, k) then |m| else |m| + 1)
      && (forall i :: 0 <= i < |m| ==> r[i].key == m[i].key)
      && (forall i :: 0 <= i < |m| && m[i].key != k ==> r[i] == m[i])
      && (Has(m, k) || r[|m|] == Entry(k, v))
      && (forall x :: Has(r, x) <==> Has(m, x) || x == k)
      && (forall i :: 0 <= i < |r| && r[i].key == k ==> r[i].value == v)
  {
    var r := Set(m, k, v);
    SetShape(m, k, v);
    match IndexOf(m, k)
    case None =>
      assert r[|m|].key == k;
    case Some(p) =>
      assert r[p].key == k;
      forall x | Has(m, x) ensures Has(r, x) {
        var i :| 0 <= i < |m| && m[i].key == x;
        assert r[i].key == x;
      }
  }

  /** After `delete`, `k` is gone and exactly the other entries remain, in
      their old order. */
  lemma DeleteSpec<K, V>(m: OMap<K, V>, k: K)
    requires DistinctKeys(m)
    ensures var r := Delete(m, k);
      && DistinctKeys(r)
      && |r| == (if Has(m, k) then |m| - 1 else |m|)
      && (forall e :: e in r <==> e in m && e.key != k)
      && (forall x :: Has(r, x) <==> Has(m, x) && x != k)
  {
    var r := Delete(m, k);
    DeleteShape(m, k);
    match IndexOf(m, k)
    case None =>
    case Some(p) =>
      DropAt(m, p);
  }

  /** Dropping the entry at `p` from a map with distinct keys. */
  lemma DropAt<K, V>(m: OMap<K, V>, p: nat)
    requires DistinctKeys(m) && p < |m|
    ensures var r := m[..p] + m[p + 1..];
      && DistinctKeys(r)
      && (forall e :: e in r <==> e in m && e.key != m[p].key)
      && (forall x :: Has(r, x) <==> Has(m, x) && x != m[p].key)
  {
    var r := m[..p] + m[p + 1..];
    assert forall i :: 0 <= i < |r| ==> r[i] == m[if i < p then i else i + 1];
    forall e | e in m && e.key != m[p].key ensures e in r {
      var i :| 0 <= i < |m| && m[i] == e;
      assert r[if i < p then i else i - 1] == e;
    }
    forall x | Has(m, x) && x != m[p].key ensures Has(r, x) {
      var i :| 0 <= i < |m| && m[i].key == x;
      assert r[if i < p then i else i - 1].key == x;
    }
  }

  /** Splitting off the last entry of a map with distinct keys. */
  lemma SplitLast<K, V>(m: OMap<K, V>, x: K)
    requires DistinctKeys(m) && m != []
    ensures DistinctKeys(m[..|m| - 1])
    ensures Has(m, x) <==> Has(m[..|m| - 1], x) || m[|m| - 1].key == x
    ensures m[|m| - 1].key == x ==> !Has(m[..|m| - 1], x)
  {
    var n := |m| - 1;
    var init := m[..n];
    if Has(m, x) {
      var a :| 0 <= a < |m| && m[a].key == x;
      if a < n { assert init[a] == m[a]; }
    }
    if Has(init, x) {
      var a :| 0 <= a < |init| && init[a].key == x;
      assert m[a] == init[a];
    }
  }
}
