/** Finite sums of reals over sequences, and the exchange laws every conservation argument here rests on. */
module Sums {

  ghost function Sum<T>(s: seq<T>, f: T -> real): real {
    if s == [] then 0.0 else Sum(s[..|s| - 1], f) + f(s[|s| - 1])
  }

  ghost predicate Distinct<T>(s: seq<T>) {
    forall i, j :: 0 <= i < j < |s| ==> s[i] != s[j]
  }

  /** Extending a sum by one element, in the form a loop over `s` needs it. */
  lemma SumPrefix<T>(s: seq<T>, i: nat, f: T -> real)
    requires i < |s|
    ensures Sum(s[..i + 1], f) == Sum(s[..i], f) + f(s[i])
  {
    assert s[..i + 1][..i] == s[..i];
  }

  lemma SumSnoc<T>(s: seq<T>, x: T, f: T -> real)
    ensures Sum(s + [x], f) == Sum(s, f) + f(x)
  {
    assert (s + [x])[..|s|] == s;
  }

  lemma {:induction false} SumCong<T>(s: seq<T>, f: T -> real, g: T -> real)
    requires forall i :: 0 <= i < |s| ==> f(s[i]) == g(s[i])
    ensures Sum(s, f) == Sum(s, g)
  {
    if s != [] {
      SumCong(s[..|s| - 1], f, g);
    }
  }

  /** Sums over two lists agree when their terms do, position by position. */
  lemma {:induction false} SumZip<A, B>(s: seq<A>, t: seq<B>, f: A -> real, g: B -> real)
    requires |s| == |t| && forall i :: 0 <= i < |s| ==> f(s[i]) == g(t[i])
    ensures Sum(s, f) == Sum(t, g)
  {
    if s != [] {
      SumZip(s[..|s| - 1], t[..|t| - 1], f, g);
    }
  }

  lemma {:induction false} SumLe<T>(s: seq<T>, f: T -> real, g: T -> real)
    requires forall i :: 0 <= i < |s| ==> f(s[i]) <= g(s[i])
    ensures Sum(s, f) <= Sum(s, g)
  {
    if s != [] {
      SumLe(s[..|s| - 1], f, g);
    }
  }

  lemma {:induction false} SumZero<T>(s: seq<T>, f: T -> real)
    requires forall i :: 0 <= i < |s| ==> f(s[i]) == 0.0
    ensures Sum(s, f) == 0.0
  {
    if s != [] {
      SumZero(s[..|s| - 1], f);
    }
  }

  lemma SumNonneg<T>(s: seq<T>, f: T -> real)
    requires forall i :: 0 <= i < |s| ==> f(s[i]) >= 0.0
    ensures Sum(s, f) >= 0.0
  {
    SumZero(s, x => 0.0);
    SumLe(s, x => 0.0, f);
  }

  /** One term of a sum of non-negative terms is at most the sum. */
  lemma {:induction false} SumTerm<T>(s: seq<T>, i: nat, f: T -> real)
    requires i < |s|
    requires forall k :: 0 <= k < |s| ==> f(s[k]) >= 0.0
    ensures f(s[i]) <= Sum(s, f)
  {
    if i == |s| - 1 {
      SumNonneg(s[..i], f);
    } else {
      SumTerm(s[..|s| - 1], i, f);
    }
  }

  /** A sum of zeros and ones is a natural number. */
  lemma {:induction false} SumBits<T>(s: seq<T>, f: T -> real) returns (k: nat)
    requires forall i :: 0 <= i < |s| ==> f(s[i]) == 0.0 || f(s[i]) == 1.0
    ensures Sum(s, f) == k as real
  {
    k := 0;
    if s != [] {
      k := SumBits(s[..|s| - 1], f);
      k := if f(s[|s| - 1]) == 1.0 then k + 1 else k;
    }
  }

  lemma {:induction false} SumAdd<T>(s: seq<T>, f: T -> real, g: T -> real, h: T -> real)
    requires forall i :: 0 <= i < |s| ==> h(s[i]) == f(s[i]) + g(s[i])
    ensures Sum(s, h) == Sum(s, f) + Sum(s, g)
  {
    if s != [] {
      SumAdd(s[..|s| - 1], f, g, h);
    }
  }

  lemma {:induction false} SumScale<T>(s: seq<T>, c: real, f: T -> real, h: T -> real)
    requires forall i :: 0 <= i < |s| ==> h(s[i]) == c * f(s[i])
    ensures Sum(s, h) == c * Sum(s, f)
  {
    if s != [] {
      SumScale(s[..|s| - 1], c, f, h);
    }
  }

  lemma {:induction false} SumConcat<T>(s: seq<T>, t: seq<T>, f: T -> real)
    ensures Sum(s + t, f) == Sum(s, f) + Sum(t, f)
  {
    if t == [] {
      assert s + t == s;
    } else {
      SumConcat(s, t[..|t| - 1], f);
      assert (s + t)[..|s + t| - 1] == s + t[..|t| - 1];
    }
  }

  /** Exchanging the order of summation. */
  lemma {:induction false} SumSwap<A, B>(s: seq<A>, t: seq<B>, h: (A, B) -> real)
    ensures Sum(s, a => Sum(t, b => h(a, b))) == Sum(t, b => Sum(s, a => h(a, b)))
  {
    if s == [] {
      SumZero(t, b => Sum(s, a => h(a, b)));
    } else {
      var init, last := s[..|s| - 1], s[|s| - 1];
      SumSwap(init, t, h);
      SumAdd(t, b => Sum(init, a => h(a, b)), b => h(last, b), b => Sum(s, a => h(a, b)));
    }
  }

  ghost function Row<A, B>(h: (A, B) -> real, a: A): B -> real {
    b => h(a, b)
  }

  ghost function Column<A, B>(h: (A, B) -> real, b: B): A -> real {
    a => h(a, b)
  }

  /** Double counting: row sums and column sums of one table add up to the same total. */
  lemma DoubleCount<A, B>(s: seq<A>, t: seq<B>, h: (A, B) -> real, f: A -> real, g: B -> real)
    requires forall i :: 0 <= i < |s| ==> f(s[i]) == Sum(t, Row(h, s[i]))
    requires forall j :: 0 <= j < |t| ==> g(t[j]) == Sum(s, Column(h, t[j]))
    ensures Sum(s, f) == Sum(t, g)
  {
    forall i | 0 <= i < |s|
      ensures f(s[i]) == Sum(t, b => h(s[i], b))
    {
      SumCong(t, Row(h, s[i]), b => h(s[i], b));
    }
    forall j | 0 <= j < |t|
      ensures g(t[j]) == Sum(s, a => h(a, t[j]))
    {
      SumCong(s, Column(h, t[j]), a => h(a, t[j]));
    }
    SumCong(s, f, a => Sum(t, b => h(a, b)));
    SumCong(t, g, b => Sum(s, a => h(a, b)));
    SumSwap(s, t, h);
  }

  /** A sum with a single non-zero term. */
  lemma {:induction false} SumPick<T>(s: seq<T>, k: T, f: T -> real)
    requires Distinct(s)
    requires forall i :: 0 <= i < |s| && s[i] != k ==> f(s[i]) == 0.0
    ensures Sum(s, f) == if k in s then f(k) else 0.0
  {
    if s != [] {
      var init, last := s[..|s| - 1], s[|s| - 1];
      SumPick(init, k, f);
      if last == k {
        assert k !in init;
      } else {
        assert k in s <==> k in init by { assert s == init + [last]; }
      }
    }
  }

  /** `w` restricted to the elements whose key is `k`. */
  ghost function Only<K, T>(key: T -> K, w: T -> real, k: K): T -> real {
    t => if key(t) == k then w(t) else 0.0
  }

  /** The sum of `w` over the elements of `s` whose key is `k`. */
  ghost function At<K, T>(s: seq<T>, key: T -> K, w: T -> real, k: K): real {
    Sum(s, Only(key, w, k))
  }

  /** The elements of `s` whose key is `k`, in order. */
  ghost function Select<K, T>(s: seq<T>, key: T -> K, k: K): seq<T> {
    if s == [] then [] else
      Select(s[..|s| - 1], key, k) + if key(s[|s| - 1]) == k then [s[|s| - 1]] else []
  }

  lemma SelectSnoc<K, T>(s: seq<T>, t: T, key: T -> K, k: K)
    ensures Select(s + [t], key, k) == Select(s, key, k) + if key(t) == k then [t] else []
  {
    assert (s + [t])[..|s|] == s;
  }

  lemma {:induction false} SelectSum<K, T>(s: seq<T>, key: T -> K, k: K, f: T -> real)
    ensures Sum(Select(s, key, k), f) == At(s, key, f, k)
  {
    if s != [] {
      var init, last := s[..|s| - 1], s[|s| - 1];
      SelectSum(init, key, k, f);
      if key(last) == k {
        SumSnoc(Select(init, key, k), last, f);
      } else {
        assert Select(s, key, k) == Select(init, key, k);
      }
    }
  }

  lemma {:induction false} SelectMembers<K, T>(s: seq<T>, key: T -> K, k: K)
    ensures forall t :: t in Select(s, key, k) <==> t in s && key(t) == k
    ensures Distinct(s) ==> Distinct(Select(s, key, k))
  {
    if s != [] {
      SelectMembers(s[..|s| - 1], key, k);
      assert s == s[..|s| - 1] + [s[|s| - 1]];
    }
  }

  /** Multiplication under a name, so that a proof can `hide` it and stay linear. */
  ghost function Mul(a: real, b: real): real {
    a * b
  }

  ghost function Times<T>(f: T -> real, g: T -> real): T -> real {
    t => Mul(f(t), g(t))
  }

  lemma AtScale<K, T>(s: seq<T>, key: T -> K, c: real, w: T -> real, cw: T -> real, k: K)
    requires forall i :: 0 <= i < |s| && key(s[i]) == k ==> cw(s[i]) == c * w(s[i])
    ensures At(s, key, cw, k) == c * At(s, key, w, k)
  {
    SumScale(s, c, Only(key, w, k), Only(key, cw, k));
  }

  lemma AtCong<K, T>(s: seq<T>, key: T -> K, w: T -> real, w': T -> real, k: K)
    requires forall i :: 0 <= i < |s| && key(s[i]) == k ==> w(s[i]) == w'(s[i])
    ensures At(s, key, w, k) == At(s, key, w', k)
  {
    SumCong(s, Only(key, w, k), Only(key, w', k));
  }

  /**
   * Grouping: when the distinct `keys` include the key of every element that carries weight,
   * summing per key and then over the keys gives the plain sum.
   */
  lemma SumByKey<K, T>(keys: seq<K>, s: seq<T>, key: T -> K, w: T -> real, perKey: K -> real)
    requires Distinct(keys)
    requires forall i :: 0 <= i < |s| ==> key(s[i]) in keys || w(s[i]) == 0.0
    requires forall i :: 0 <= i < |keys| ==> perKey(keys[i]) == At(s, key, w, keys[i])
    ensures Sum(keys, perKey) == Sum(s, w)
  {
    var h := (k, t) => Only(key, w, k)(t);
    SumSwap(keys, s, h);
    forall i | 0 <= i < |keys|
      ensures Sum(s, t => h(keys[i], t)) == perKey(keys[i])
    {
      SumCong(s, t => h(keys[i], t), Only(key, w, keys[i]));
    }
    SumCong(keys, k => Sum(s, t => h(k, t)), perKey);
    forall i | 0 <= i < |s|
      ensures Sum(keys, k => h(k, s[i])) == w(s[i])
    {
      SumPick(keys, key(s[i]), k => h(k, s[i]));
    }
    SumCong(s, t => Sum(keys, k => h(k, t)), w);
  }

  lemma {:induction false} SumRemove<T>(s: seq<T>, i: nat, f: T -> real)
    requires i < |s|
    ensures Sum(s, f) == Sum(s[..i] + s[i + 1..], f) + f(s[i])
  {
    SumConcat(s[..i], s[i..], f);
    SumConcat([s[i]], s[i + 1..], f);
    SumConcat(s[..i], s[i + 1..], f);
    assert s == s[..i] + s[i..];
    assert s[i..] == [s[i]] + s[i + 1..];
    SumSnoc([], s[i], f);
    assert [] + [s[i]] == [s[i]];
  }

  /** A sum does not depend on the order of its terms. */
  lemma {:induction false} SumPermutation<T>(s: seq<T>, t: seq<T>, f: T -> real)
    requires multiset(s) == multiset(t)
    ensures Sum(s, f) == Sum(t, f)
    decreases |s|
  {
    if s == [] {
      assert |multiset(t)| == 0;
    } else {
      var init, last := s[..|s| - 1], s[|s| - 1];
      assert s == init + [last];
      assert last in multiset(t);
      var i :| 0 <= i < |t| && t[i] == last;
      var left, right := t[..i], t[i + 1..];
      assert t == left + [last] + right;
      assert multiset(init) == multiset(s) - multiset{last};
      assert multiset(left) + multiset(right) == multiset(t) - multiset{last};
      SumPermutation(init, left + right, f);
      SumRemove(t, i, f);
    }
  }

  /** The indices 0..n-1. */
  ghost function Range(n: nat): (s: seq<nat>)
    ensures |s| == n && Distinct(s)
    ensures forall i :: 0 <= i < n ==> s[i] == i
    ensures forall v: nat :: v in s <==> v < n
  {
    if n == 0 then [] else Range(n - 1) + [n - 1]
  }
}
