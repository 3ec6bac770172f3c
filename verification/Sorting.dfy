/** A sort by a total preorder; elements that rank equally keep their order. */
module Sorting {

  ghost predicate IsRanking<T(!new)>(atLeast: (T, T) -> bool) {
    && (forall a, b :: atLeast(a, b) || atLeast(b, a))
    && (forall a, b, c :: atLeast(a, b) && atLeast(b, c) ==> atLeast(a, c))
  }

  ghost predicate Ranked<T>(s: seq<T>, atLeast: (T, T) -> bool) {
    forall i, j :: 0 <= i < j < |s| ==> atLeast(s[i], s[j])
  }

  /** Behind every element that ranks at least as high. */
  function Insert<T>(s: seq<T>, x: T, atLeast: (T, T) -> bool): seq<T> {
    if s == [] || atLeast(s[|s| - 1], x) then s + [x]
    else Insert(s[..|s| - 1], x, atLeast) + [s[|s| - 1]]
  }

  lemma {:induction false} InsertOk<T(!new)>(s: seq<T>, x: T, atLeast: (T, T) -> bool)
    requires IsRanking(atLeast) && Ranked(s, atLeast)
    ensures Ranked(Insert(s, x, atLeast), atLeast)
    ensures multiset(Insert(s, x, atLeast)) == multiset(s) + multiset{x}
  {
    if s == [] {
    } else if atLeast(s[|s| - 1], x) {
      hide Insert;
      InsertedLast(s, x, atLeast);
    } else {
      var init, last := s[..|s| - 1], s[|s| - 1];
      InsertOk(init, x, atLeast);
      assert s == init + [last];
      hide Insert, Ranked;
      InsertedBefore(s, init, last, x, Insert(init, x, atLeast), atLeast);
    }
  }

  lemma InsertedLast<T(!new)>(s: seq<T>, x: T, atLeast: (T, T) -> bool)
    requires IsRanking(atLeast) && Ranked(s, atLeast) && s != [] && atLeast(s[|s| - 1], x)
    ensures Ranked(s + [x], atLeast)
  {
    forall i | 0 <= i < |s|
      ensures atLeast(s[i], x)
    {
      assert i < |s| - 1 ==> atLeast(s[i], s[|s| - 1]);
    }
  }

  lemma InsertedBefore<T(!new)>(s: seq<T>, init: seq<T>, last: T, x: T, r: seq<T>, atLeast: (T, T) -> bool)
    requires IsRanking(atLeast) && s == init + [last] && Ranked(s, atLeast) && !atLeast(last, x)
    requires Ranked(r, atLeast) && multiset(r) == multiset(init) + multiset{x}
    ensures Ranked(r + [last], atLeast)
  {
    forall i | 0 <= i < |r|
      ensures atLeast(r[i], last)
    {
      assert r[i] in multiset(r);
      if r[i] != x {
        var j :| 0 <= j < |init| && init[j] == r[i];
        assert s[j] == init[j] && s[|init|] == last;
      }
    }
  }

  function Sorted<T(!new)>(s: seq<T>, atLeast: (T, T) -> bool): (r: seq<T>)
    requires IsRanking(atLeast)
    ensures Ranked(r, atLeast) && multiset(r) == multiset(s)
  {
    if s == [] then [] else
      assert s == s[..|s| - 1] + [s[|s| - 1]];
      InsertOk(Sorted(s[..|s| - 1], atLeast), s[|s| - 1], atLeast);
      Insert(Sorted(s[..|s| - 1], atLeast), s[|s| - 1], atLeast)
  }
}
