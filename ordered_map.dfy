/**
 * A JavaScript `Map` as a value: its entries in insertion order. `set` on a
 * key already present replaces that entry's value where it stands; `set` on
 * a new key appends an entry, so iteration visits keys in the order they
 * were first inserted.
 */
module OrderedMap {
  import opened Wrappers

  /** The keys of the entries, in iteration order. */
  function Keys<K, V>(m: seq<(K, V)>): seq<K> {
    seq(|m|, i requires 0 <= i < |m| => m[i].0)
  }

  predicate Distinct<T(==)>(s: seq<T>) {
    forall i, j :: 0 <= i < j < |s| ==> s[i] != s[j]
  }

  /** `Map.prototype.get`: the value stored under `k`, if any. */
  function Get<K(==), V>(m: seq<(K, V)>, k: K): (r: Option<V>)
    ensures r.Some? <==> k in Keys(m)
    ensures r.Some? ==> (k, r.value) in m
  {
    if |m| == 0 then None
    else if m[|m| - 1].0 == k then
      assert m[|m| - 1] == (k, m[|m| - 1].1) && Keys(m)[|m| - 1] == k;
      Some(m[|m| - 1].1)
    else
      assert Keys(m[..|m| - 1]) == Keys(m)[..|m| - 1];
      Get(m[..|m| - 1], k)
  }

  /** `m.get(k) || d`: the stored value, or `d` when `k` is absent. */
  function GetOr<K(==), V>(m: seq<(K, V)>, k: K, d: V): V {
    match Get(m, k)
    case Some(v) => v
    case None => d
  }

  /** `Map.prototype.set`. */
  function Set<K(==), V>(m: seq<(K, V)>, k: K, v: V): (r: seq<(K, V)>)
    ensures Keys(r) == if k in Keys(m) then Keys(m) else Keys(m) + [k]
  {
    if |m| == 0 then [(k, v)]
    else
      var init := m[..|m| - 1];
      assert Keys(init) == Keys(m)[..|m| - 1];
      assert Keys(m) == Keys(init) + [m[|m| - 1].0];
      if m[|m| - 1].0 == k then init + [(k, v)]
      else if k !in Keys(init) then m + [(k, v)]
      else
        var r := Set(init, k, v) + [m[|m| - 1]];
        assert Keys(r) == Keys(Set(init, k, v)) + [m[|m| - 1].0];
        r
  }

  /** Every entry after a `set` was there before or is the one just set. */
  lemma {:induction false} SetMembers<K, V>(m: seq<(K, V)>, k: K, v: V)
    ensures forall e :: e in Set(m, k, v) ==> e in m || e == (k, v)
  {
    if |m| > 0 {
      var init := m[..|m| - 1];
      assert forall e :: e in init ==> e in m;
      if m[|m| - 1].0 != k && k in Keys(init) {
        SetMembers(init, k, v);
      }
    }
  }

  /** A key reads back the value just set under it. */
  lemma {:induction false} SetGet<K, V>(m: seq<(K, V)>, k: K, v: V)
    ensures Get(Set(m, k, v), k) == Some(v)
  {
    if |m| > 0 && m[|m| - 1].0 != k && k in Keys(m[..|m| - 1]) {
      var init := m[..|m| - 1];
      SetGet(init, k, v);
      var r := Set(init, k, v) + [m[|m| - 1]];
      assert r[..|r| - 1] == Set(init, k, v);
    }
  }

  /** Setting a key leaves every other key's value alone. */
  lemma {:induction false} SetOther<K, V>(m: seq<(K, V)>, k: K, v: V, k2: K)
    requires k2 != k
    ensures Get(Set(m, k, v), k2) == Get(m, k2)
  {
    if |m| > 0 {
      var init := m[..|m| - 1];
      if m[|m| - 1].0 == k {
        assert (init + [(k, v)])[..|m| - 1] == init;
      } else if k !in Keys(init) {
        assert (m + [(k, v)])[..|m|] == m;
      } else {
        SetOther(init, k, v, k2);
        var r := Set(init, k, v) + [m[|m| - 1]];
        assert r[..|r| - 1] == Set(init, k, v);
      }
    }
  }

  /** Setting a key twice is setting it to the second value. */
  lemma {:induction false} SetSet<K, V>(m: seq<(K, V)>, k: K, v1: V, v2: V)
    ensures Set(Set(m, k, v1), k, v2) == Set(m, k, v2)
  {
    if |m| > 0 {
      var init := m[..|m| - 1];
      if m[|m| - 1].0 == k {
        assert (init + [(k, v1)])[..|m| - 1] == init;
      } else if k !in Keys(init) {
        assert (m + [(k, v1)])[..|m|] == m;
      } else {
        SetSet(init, k, v1, v2);
        var r := Set(init, k, v1) + [m[|m| - 1]];
        assert r[..|r| - 1] == Set(init, k, v1);
      }
    }
  }

  /** With distinct keys, `get` finds the one entry stored under the key. */
  lemma {:induction false} GetDistinct<K, V>(m: seq<(K, V)>, k: K, v: V)
    requires Distinct(Keys(m)) && (k, v) in m
    ensures Get(m, k) == Some(v)
  {
    var n := |m|;
    var init := m[..n - 1];
    var i :| 0 <= i < n && m[i] == (k, v);
    assert Keys(m)[i] == k;
    if m[n - 1].0 == k {
      assert forall j :: 0 <= j < n - 1 ==> Keys(m)[j] != Keys(m)[n - 1];
    } else {
      assert Keys(init) == Keys(m)[..n - 1];
      assert init[i] == (k, v);
      GetDistinct(init, k, v);
    }
  }
}
