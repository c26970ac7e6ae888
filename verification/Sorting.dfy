/** Stable sorting by an integer key, as the library's sorts leave a list, and totals that
    do not depend on the order of a list. */
module Sorting {

  function Insert<T>(x: T, s: seq<T>, key: T -> int): (r: seq<T>)
    ensures |r| == |s| + 1
  {
    if |s| == 0 then [x]
    else if key(x) < key(s[|s| - 1]) then Insert(x, s[..|s| - 1], key) + [s[|s| - 1]]
    else s + [x]
  }

  /** Insertion from the left: an element goes after its equals. */
  function SortBy<T>(s: seq<T>, key: T -> int): (r: seq<T>)
    ensures |r| == |s|
  {
    if |s| == 0 then [] else Insert(s[|s| - 1], SortBy(s[..|s| - 1], key), key)
  }

  predicate Ascending<T>(s: seq<T>, key: T -> int) {
    forall i, j :: 0 <= i < j < |s| ==> key(s[i]) <= key(s[j])
  }

  predicate StrictlyAscending<T>(s: seq<T>, key: T -> int) {
    forall i, j :: 0 <= i < j < |s| ==> key(s[i]) < key(s[j])
  }

  lemma {:induction false} InsertBounded<T>(x: T, s: seq<T>, key: T -> int, bound: int)
    requires key(x) <= bound && forall i :: 0 <= i < |s| ==> key(s[i]) <= bound
    ensures forall i :: 0 <= i < |s| + 1 ==> key(Insert(x, s, key)[i]) <= bound
  {
    if |s| > 0 { InsertBounded(x, s[..|s| - 1], key, bound); }
  }

  lemma {:induction false} InsertAscends<T>(x: T, s: seq<T>, key: T -> int)
    requires Ascending(s, key)
    ensures Ascending(Insert(x, s, key), key)
  {
    if |s| > 0 && key(x) < key(s[|s| - 1]) {
      InsertAscends(x, s[..|s| - 1], key);
      InsertBounded(x, s[..|s| - 1], key, key(s[|s| - 1]));
    }
  }

  lemma {:induction false} InsertKeeps<T>(x: T, s: seq<T>, key: T -> int)
    ensures multiset(Insert(x, s, key)) == multiset(s) + multiset{x}
  {
    if |s| > 0 {
      InsertKeeps(x, s[..|s| - 1], key);
      assert s == s[..|s| - 1] + [s[|s| - 1]];
    }
  }

  /** The result is ascending and a permutation. */
  lemma {:induction false} SortAscends<T>(s: seq<T>, key: T -> int)
    ensures Ascending(SortBy(s, key), key)
    ensures multiset(SortBy(s, key)) == multiset(s)
  {
    if |s| > 0 {
      SortAscends(s[..|s| - 1], key);
      InsertAscends(s[|s| - 1], SortBy(s[..|s| - 1], key), key);
      InsertKeeps(s[|s| - 1], SortBy(s[..|s| - 1], key), key);
      assert s == s[..|s| - 1] + [s[|s| - 1]];
    }
  }

  // --------------------------------------------------------------------- totals

  function Total<T>(s: seq<T>, weight: T -> nat): nat {
    if |s| == 0 then 0 else Total(s[..|s| - 1], weight) + weight(s[|s| - 1])
  }

  lemma TotalStep<T>(s: seq<T>, i: nat, weight: T -> nat)
    requires i < |s|
    ensures Total(s[..0], weight) == 0
    ensures Total(s[..i + 1], weight) == Total(s[..i], weight) + weight(s[i])
  {
    assert s[..i + 1][..i] == s[..i];
  }

  lemma {:induction false} TotalSplit<T>(a: seq<T>, b: seq<T>, weight: T -> nat)
    ensures Total(a + b, weight) == Total(a, weight) + Total(b, weight)
  {
    if |b| == 0 {
      assert a + b == a;
    } else {
      assert (a + b)[..|a + b| - 1] == a + b[..|b| - 1];
      TotalSplit(a, b[..|b| - 1], weight);
    }
  }

  lemma TotalWithout<T>(b: seq<T>, i: nat, weight: T -> nat)
    requires i < |b|
    ensures Total(b, weight) == Total(b[..i] + b[i + 1..], weight) + weight(b[i])
  {
    assert b == b[..i] + ([b[i]] + b[i + 1..]);
    TotalSplit(b[..i], [b[i]] + b[i + 1..], weight);
    TotalSplit([b[i]], b[i + 1..], weight);
    TotalSplit(b[..i], b[i + 1..], weight);
    assert Total([b[i]], weight) == Total([b[i]][..0], weight) + weight(b[i]);
  }

  /** A total does not depend on the order. */
  lemma {:induction false} TotalPermuted<T>(a: seq<T>, b: seq<T>, weight: T -> nat)
    requires multiset(a) == multiset(b)
    ensures Total(a, weight) == Total(b, weight)
    decreases |a|
  {
    if |a| == 0 {
      assert |multiset(a)| == |a| && |multiset(b)| == |b|;
    } else {
      var x, init := a[|a| - 1], a[..|a| - 1];
      assert a == init + [x];
      assert x in multiset(b);
      var i :| 0 <= i < |b| && b[i] == x;
      var rest := b[..i] + b[i + 1..];
      assert b == b[..i] + [x] + b[i + 1..];
      assert multiset(rest) == multiset(b) - multiset{x};
      TotalPermuted(init, rest, weight);
      TotalWithout(b, i, weight);
    }
  }

  /** A larger weight gives a larger total. */
  lemma {:induction false} TotalMonotone<T>(s: seq<T>, low: T -> nat, high: T -> nat)
    requires forall i :: 0 <= i < |s| ==> low(s[i]) <= high(s[i])
    ensures Total(s, low) <= Total(s, high)
  {
    if |s| > 0 { TotalMonotone(s[..|s| - 1], low, high); }
  }


  // -------------------------------------------------------------- distinct keys

  predicate DistinctBy<T>(s: seq<T>, key: T -> int) {
    forall i, j :: 0 <= i < j < |s| ==> key(s[i]) != key(s[j])
  }

  function WithKey<T>(key: T -> int, k: int): T -> nat {
    (x: T) => if key(x) == k then 1 else 0
  }

  lemma {:induction false} KeyPresent<T>(s: seq<T>, key: T -> int, k: int)
    ensures Total(s, WithKey(key, k)) == 0 <==> forall i :: 0 <= i < |s| ==> key(s[i]) != k
  {
    if |s| > 0 { KeyPresent(s[..|s| - 1], key, k); }
  }

  lemma {:induction false} KeysDistinct<T>(s: seq<T>, key: T -> int)
    ensures DistinctBy(s, key) <==> forall k: int :: Total(s, WithKey(key, k)) <= 1
  {
    if |s| > 0 {
      var init, last := s[..|s| - 1], s[|s| - 1];
      KeysDistinct(init, key);
      KeyPresent(init, key, key(last));
      assert forall k: int :: Total(s, WithKey(key, k)) == Total(init, WithKey(key, k)) + if key(last) == k then 1
        else 0;
      if DistinctBy(s, key) {
        forall k: int
          ensures Total(s, WithKey(key, k)) <= 1
        {
          KeyPresent(init, key, k);
        }
      }
      hide Total;
    }
  }

  /** Having distinct keys does not depend on the order. */
  lemma DistinctPermuted<T>(a: seq<T>, b: seq<T>, key: T -> int)
    requires multiset(a) == multiset(b)
    ensures DistinctBy(a, key) <==> DistinctBy(b, key)
  {
    forall k: int
      ensures Total(a, WithKey(key, k)) == Total(b, WithKey(key, k))
    {
      TotalPermuted(a, b, WithKey(key, k));
    }
    KeysDistinct(a, key);
    KeysDistinct(b, key);
    hide Total, DistinctBy, WithKey;
  }

  /** The keys of a permuted list are the permuted keys. */
  function Keys<T>(s: seq<T>, key: T -> int): (r: seq<int>)
    ensures |r| == |s|
  {
    seq<int>(|s|, i requires 0 <= i < |s| => key(s[i]))
  }

  lemma {:induction false} KeyCount<T>(s: seq<T>, key: T -> int, k: int)
    ensures multiset(Keys(s, key))[k] == Total(s, WithKey(key, k))
  {
    if |s| > 0 {
      var init := s[..|s| - 1];
      KeyCount(init, key, k);
      assert Keys(s, key) == Keys(init, key) + [key(s[|s| - 1])];
    }
  }

  lemma KeysPermuted<T>(a: seq<T>, b: seq<T>, key: T -> int)
    requires multiset(a) == multiset(b)
    ensures multiset(Keys(a, key)) == multiset(Keys(b, key))
  {
    forall k: int
      ensures multiset(Keys(a, key))[k] == multiset(Keys(b, key))[k]
    {
      KeyCount(a, key, k);
      KeyCount(b, key, k);
      TotalPermuted(a, b, WithKey(key, k));
    }
  }
}
