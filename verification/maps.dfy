/** The values of a `java.util.HashMap` as a bag, and `new ArrayList<>(m.values())`,
    whose order HashMap leaves unspecified. */
module Maps {

  /** The values of `m`, one copy per key. */
  ghost function Values<K, V>(m: map<K, V>): multiset<V>
    decreases |m|
  {
    if |m| == 0 then multiset{}
    else
      var k :| k in m;
      multiset{m[k]} + Values(m - {k})
  }

  /** Any key may be taken out first. */
  lemma {:induction false} ValuesRemove<K, V>(m: map<K, V>, k: K)
    requires k in m
    ensures Values(m) == multiset{m[k]} + Values(m - {k})
    decreases |m|
  {
    var j :| j in m && Values(m) == multiset{m[j]} + Values(m - {j});
    if j != k {
      var mj, mk := m - {j}, m - {k};
      RemoveBoth(m, j, k);
      ValuesRemove(mj, k);
      ValuesRemove(mk, j);
      assert mj[k] == m[k] && mk[j] == m[j];
    }
  }

  /** Removing two keys gives the same map in either order. */
  lemma RemoveBoth<K, V>(m: map<K, V>, j: K, k: K)
    ensures m - {j} - {k} == m - {k} - {j}
  {
  }

  /** Adding a new key adds its value to the bag once. */
  lemma ValuesAdd<K, V>(m: map<K, V>, k: K, v: V)
    requires k !in m
    ensures Values(m[k := v]) == Values(m) + multiset{v}
  {
    ValuesRemove(m[k := v], k);
    assert m[k := v] - {k} == m;
  }

  /** A value is in the bag exactly when some key maps to it, and the bag has
      one element per key. */
  lemma {:induction false} ValuesMembers<K, V>(m: map<K, V>)
    ensures forall v :: v in Values(m) <==> v in m.Values
    ensures |Values(m)| == |m|
    decreases |m|
  {
    if |m| > 0 {
      var k :| k in m;
      ValuesRemove(m, k);
      ValuesMembers(m - {k});
      forall v | v in m.Values ensures v in Values(m) {
        var j :| j in m && m[j] == v;
        if j != k {
          assert j in m - {k};
          assert (m - {k})[j] == v;
        }
      }
    }
  }

  /** A list holding the map's values as a bag holds exactly its values. */
  lemma ListedValues<K, V>(m: map<K, V>, r: seq<V>)
    requires multiset(r) == Values(m)
    ensures forall v :: v in r <==> v in m.Values
  {
    ValuesMembers(m);
    forall v ensures v in r <==> v in multiset(r) {
    }
  }

  /** A list whose bag is the map's values has one element per key, each a
      value of the map, and lists every key's value. */
  lemma ListedEntries<K, V>(m: map<K, V>, r: seq<V>)
    ensures multiset(r) == Values(m) ==>
      && |r| == |m|
      && (forall i :: 0 <= i < |r| ==> r[i] in m.Values)
      && (forall k :: k in m ==> m[k] in r)
  {
    if multiset(r) == Values(m) {
      ListedValues(m, r);
      ValuesMembers(m);
      assert |multiset(r)| == |r|;
      forall k | k in m ensures m[k] in r {
        assert m[k] in m.Values;
      }
    }
  }

  /** Moving one key's value from the map to the list keeps the total bag. */
  lemma MoveValue<K, V>(r: seq<V>, rest: map<K, V>, k: K)
    requires k in rest
    ensures multiset(r + [rest[k]]) + Values(rest - {k}) == multiset(r) + Values(rest)
  {
    ValuesRemove(rest, k);
    assert multiset(r + [rest[k]]) == multiset(r) + multiset{rest[k]};
  }

  /** `new ArrayList<>(m.values())`: every value once per key, in some order. */
  method ValuesList<K, V>(m: map<K, V>) returns (r: seq<V>)
    ensures multiset(r) == Values(m)
    ensures |r| == |m|
  {
    r := [];
    var rest := m;
    while |rest| > 0
      invariant multiset(r) + Values(rest) == Values(m)
      invariant |r| + |rest| == |m|
      decreases |rest|
    {
      var k :| k in rest;
      MoveValue(r, rest, k);
      r := r + [rest[k]];
      rest := rest - {k};
    }
    assert Values(rest) == multiset{};
  }
}
