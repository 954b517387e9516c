/** Lists without duplicates, and removal by moving the last element into the gap. */
module Lists {

  ghost predicate NoDuplicates<T>(s: seq<T>) {
    forall i, j | 0 <= i < j < |s| :: s[i] != s[j]
  }

  ghost function Elements<T>(s: seq<T>): set<T> {
    set x | x in s
  }

  /** The last elements of a list, at most size of them. */
  function Latest<T>(s: seq<T>, size: nat): seq<T> {
    if |s| <= size then s else s[|s| - size..]
  }

  /** The list with elements i and j exchanged. */
  function Swap<T>(s: seq<T>, i: nat, j: nat): (r: seq<T>)
    requires i < |s| && j < |s|
    ensures |r| == |s| && multiset(r) == multiset(s)
    ensures r[i] == s[j] && r[j] == s[i] && forall k | 0 <= k < |s| && k != i && k != j :: r[k] == s[k]
  {
    s[i := s[j]][j := s[i]]
  }

  /** The list without element i: the last element takes its place. */
  function SwapRemove<T>(s: seq<T>, i: nat): (r: seq<T>)
    requires i < |s|
    ensures |r| == |s| - 1 && forall k | 0 <= k < |r| && k != i :: r[k] == s[k]
  {
    s[i := s[|s| - 1]][..|s| - 1]
  }

  lemma RemovedBySwap<T>(s: seq<T>, i: nat)
    requires i < |s|
    ensures multiset(SwapRemove(s, i)) + multiset{s[i]} == multiset(s)
  {
    var l := |s| - 1;
    var t := s[i := s[l]];
    assert t == t[..l] + [s[l]];
    assert multiset(t) == multiset(s) - multiset{s[i]} + multiset{s[l]};
  }

  lemma {:induction false} CountAtMostOne<T>(s: seq<T>, x: T)
    requires NoDuplicates(s)
    ensures multiset(s)[x] <= 1
  {
    if |s| > 0 {
      CountAtMostOne(s[1..], x);
      assert s == [s[0]] + s[1..];
    }
  }

  lemma CountOfTwo<T>(s: seq<T>, i: nat, j: nat)
    requires i < j < |s| && s[i] == s[j]
    ensures multiset(s)[s[i]] >= 2
  {
    assert s == s[..j] + [s[j]] + s[j + 1..];
    assert s[..j][i] == s[i] && s[i] in multiset(s[..j]);
  }

  /** The two parts of a list without duplicates have none either, and nothing in common. */
  lemma PartsAreDistinct<T>(a: seq<T>, b: seq<T>, whole: seq<T>)
    requires multiset(a) + multiset(b) == multiset(whole) && NoDuplicates(whole)
    ensures NoDuplicates(a) && Elements(a) !! Elements(b) && Elements(a) + Elements(b) == Elements(whole)
  {
    forall x | x in whole || x in a || x in b
      ensures multiset(a)[x] + multiset(b)[x] == multiset(whole)[x] <= 1
    {
      CountAtMostOne(whole, x);
    }
    forall i, j | 0 <= i < j < |a|
      ensures a[i] != a[j]
    {
      if a[i] == a[j] {
        CountOfTwo(a, i, j);
      }
    }
    forall x | x in whole || x in a || x in b
      ensures x in Elements(whole) <==> x in Elements(a) || x in Elements(b)
      ensures !(x in Elements(a) && x in Elements(b))
    {
      assert x in whole <==> x in multiset(whole);
      assert x in a <==> x in multiset(a);
      assert x in b <==> x in multiset(b);
    }
  }

  lemma SmallerSet<T>(a: set<T>, b: set<T>)
    requires a <= b
    ensures |a| <= |b|
  {
    assert b == a + (b - a);
  }
}
