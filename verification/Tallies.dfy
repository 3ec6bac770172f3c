/** Counting by key: a map that accumulates a weight per key, as the loops over a JavaScript map do. */
module Tallies {
  import opened Sums

  function GetOrZero<K>(m: map<K, real>, k: K): real {
    if k in m then m[k] else 0.0
  }

  function Plus<K>(m: map<K, real>, k: K, x: real): map<K, real> {
    m[k := GetOrZero(m, k) + x]
  }

  ghost function Keys<K, T>(s: seq<T>, key: T -> K): set<K> {
    set i | 0 <= i < |s| :: key(s[i])
  }

  /** `m` holds, per key occurring in `s`, the summed weight of its elements. */
  ghost predicate IsTally<K(!new), T>(s: seq<T>, key: T -> K, w: T -> real, m: map<K, real>) {
    && m.Keys == Keys(s, key)
    && forall k :: GetOrZero(m, k) == At(s, key, w, k)
  }

  lemma TallyNone<K(!new), T>(key: T -> K, w: T -> real)
    ensures IsTally([], key, w, map[])
  {
  }

  lemma TallySnoc<K(!new), T>(s: seq<T>, t: T, key: T -> K, w: T -> real, m: map<K, real>)
    requires IsTally(s, key, w, m)
    ensures IsTally(s + [t], key, w, Plus(m, key(t), w(t)))
  {
    var n := Plus(m, key(t), w(t));
    forall k
      ensures GetOrZero(n, k) == At(s + [t], key, w, k)
    {
      SumSnoc(s, t, Only(key, w, k));
      assert GetOrZero(n, k) == GetOrZero(m, k) + Only(key, w, k)(t);
    }
    assert (s + [t])[|s|] == t;
    assert forall i :: 0 <= i < |s| ==> (s + [t])[i] == s[i];
    hide At;
    forall k
      ensures k in n <==> k in Keys(s + [t], key)
    {
      if k == key(t) {
        assert key((s + [t])[|s|]) == k;
      } else if k in m {
        var i :| 0 <= i < |s| && key(s[i]) == k;
        assert key((s + [t])[i]) == k;
      }
    }
  }

  /** The step of a loop over `s`. */
  lemma TallyStep<K(!new), T>(s: seq<T>, i: nat, key: T -> K, w: T -> real, m: map<K, real>)
    requires i < |s| && IsTally(s[..i], key, w, m)
    ensures IsTally(s[..i + 1], key, w, Plus(m, key(s[i]), w(s[i])))
  {
    TallySnoc(s[..i], s[i], key, w, m);
    assert s[..i + 1] == s[..i] + [s[i]];
  }

  ghost function ValueOf<K>(m: map<K, real>): K -> real {
    k => GetOrZero(m, k)
  }

  /** `keys` lists the set without repetition, in some order. */
  ghost predicate Enumerates<K(!new)>(keys: seq<K>, all: set<K>) {
    Distinct(keys) && forall k :: k in keys <==> k in all
  }

  lemma EnumeratesNone<K(!new)>()
    ensures Enumerates<K>([], {})
  {
  }

  /** Listing one more key. */
  lemma EnumeratesSnoc<K(!new)>(keys: seq<K>, all: set<K>, k: K)
    requires Enumerates(keys, all)
    ensures Enumerates(if k in all then keys else keys + [k], all + {k})
  {
    if k in all {
      assert all + {k} == all;
    }
  }

  /** Listing the key of an entry that is set in a map. */
  lemma EnumeratesUpdate<K(!new), V>(keys: seq<K>, m: map<K, V>, k: K, v: V)
    requires Enumerates(keys, m.Keys)
    ensures Enumerates(if k in m then keys else keys + [k], m[k := v].Keys)
  {
    EnumeratesSnoc(keys, m.Keys, k);
    assert m[k := v].Keys == m.Keys + {k};
  }

  /** The values of a tally add up to all the weight, in whatever order its keys are listed. */
  lemma TallyTotal<K(!new), T>(s: seq<T>, key: T -> K, w: T -> real, m: map<K, real>, keys: seq<K>)
    requires IsTally(s, key, w, m) && Enumerates(keys, m.Keys)
    ensures Sum(keys, ValueOf(m)) == Sum(s, w)
  {
    forall i | 0 <= i < |keys|
      ensures ValueOf(m)(keys[i]) == At(s, key, w, keys[i])
    {
      assert GetOrZero(m, keys[i]) == At(s, key, w, keys[i]);
    }
    forall i | 0 <= i < |s|
      ensures key(s[i]) in keys
    {
      assert key(s[i]) in Keys(s, key);
    }
    SumByKey(keys, s, key, w, ValueOf(m));
  }
}
