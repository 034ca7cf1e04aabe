/**
 * `Array.prototype.sort`, as the catalogue calls it: with no comparator on
 * strings (the default string order), and with a numeric comparator
 * `(a, b) => key(a) - key(b)`. The lists sorted never hold two elements that
 * compare equal, so the sorted result is unique and the sort's stability and
 * algorithm do not matter; an insertion sort stands for it.
 */
module Sorting {
  import Text

  // ---------------------------------------------------------------------
  // Strings in the default order

  predicate StrictlyAscending(s: seq<string>) {
    forall j, k :: 0 <= j < k < |s| ==> Text.Less(s[j], s[k])
  }

  predicate NoDuplicates<T(==)>(s: seq<T>) {
    forall j, k :: 0 <= j < k < |s| ==> s[j] != s[k]
  }

  /** A strictly ascending list holds no string twice. */
  lemma AscendingHasNoDuplicates(s: seq<string>)
    requires StrictlyAscending(s)
    ensures NoDuplicates(s)
  {
    forall j, k | 0 <= j < k < |s|
      ensures s[j] != s[k]
    {
      Text.LessIrreflexive(s[j]);
    }
  }

  function InsertString(x: string, s: seq<string>): (r: seq<string>)
    requires StrictlyAscending(s) && x !in s
    ensures StrictlyAscending(r)
    ensures multiset(r) == multiset(s) + multiset{x}
    decreases |s|
  {
    if s == [] then [x]
    else if Text.Less(s[0], x) then
      var rest := InsertString(x, s[1..]);
      assert s == [s[0]] + s[1..];
      forall k | 0 <= k < |rest| ensures Text.Less(s[0], rest[k]) {
        assert rest[k] in multiset(rest);
        if rest[k] != x {
          var i :| 0 <= i < |s[1..]| && s[1..][i] == rest[k];
          assert s[i + 1] == rest[k];
        }
      }
      ConsAscending(s[0], rest);
      [s[0]] + rest
    else
      Text.LessTotal(x, s[0]);
      forall k | 0 <= k < |s| ensures Text.Less(x, s[k]) {
        if k > 0 {
          Text.LessTransitive(x, s[0], s[k]);
        }
      }
      ConsAscending(x, s);
      [x] + s
  }

  /** A head below every element of an ascending list extends it. */
  lemma ConsAscending(h: string, rest: seq<string>)
    requires StrictlyAscending(rest)
    requires forall k :: 0 <= k < |rest| ==> Text.Less(h, rest[k])
    ensures StrictlyAscending([h] + rest)
  {
    var r := [h] + rest;
    forall j, k | 0 <= j < k < |r| ensures Text.Less(r[j], r[k]) {
      assert r[k] == rest[k - 1];
      if j > 0 {
        assert r[j] == rest[j - 1];
      }
    }
  }

  /** `strings.sort()` on a list without duplicates: strictly ascending, same elements. */
  function SortStrings(s: seq<string>): (r: seq<string>)
    requires NoDuplicates(s)
    ensures StrictlyAscending(r)
    ensures multiset(r) == multiset(s)
    decreases |s|
  {
    if s == [] then []
    else
      var rest := SortStrings(s[1..]);
      assert s == [s[0]] + s[1..];
      assert s[0] !in multiset(rest);
      InsertString(s[0], rest)
  }

  // ---------------------------------------------------------------------
  // Any elements, by an integer key

  predicate IncreasingBy<T>(s: seq<T>, key: T -> int) {
    forall j, k :: 0 <= j < k < |s| ==> key(s[j]) < key(s[k])
  }

  predicate DistinctKeys<T>(s: seq<T>, key: T -> int) {
    forall j, k :: 0 <= j < k < |s| ==> key(s[j]) != key(s[k])
  }

  function InsertBy<T>(x: T, s: seq<T>, key: T -> int): (r: seq<T>)
    requires IncreasingBy(s, key)
    requires forall k :: 0 <= k < |s| ==> key(s[k]) != key(x)
    ensures IncreasingBy(r, key)
    ensures multiset(r) == multiset(s) + multiset{x}
    decreases |s|
  {
    if s == [] then [x]
    else if key(s[0]) < key(x) then
      InsertByTail(x, s, key);
      var rest := InsertBy(x, s[1..], key);
      InsertByAboveHead(x, s, rest, key);
      [s[0]] + rest
    else
      InsertByBelowHead(x, s, key);
      [x] + s
  }

  /** The tail of an increasing list is increasing, and still has no element with the key of `x`. */
  lemma InsertByTail<T>(x: T, s: seq<T>, key: T -> int)
    requires s != [] && IncreasingBy(s, key)
    requires forall k :: 0 <= k < |s| ==> key(s[k]) != key(x)
    ensures IncreasingBy(s[1..], key)
    ensures forall k :: 0 <= k < |s[1..]| ==> key(s[1..][k]) != key(x)
  {
  }

  /** Putting the head back in front of the tail with `x` inserted. */
  lemma InsertByAboveHead<T>(x: T, s: seq<T>, rest: seq<T>, key: T -> int)
    requires s != [] && IncreasingBy(s, key) && key(s[0]) < key(x)
    requires IncreasingBy(rest, key) && multiset(rest) == multiset(s[1..]) + multiset{x}
    ensures IncreasingBy([s[0]] + rest, key)
    ensures multiset([s[0]] + rest) == multiset(s) + multiset{x}
  {
    assert s == [s[0]] + s[1..];
    AllAboveHead(x, s, rest, key);
    ConsIncreasing(s[0], rest, key);
  }

  /** An element whose key is at most the head's, and differs from it, goes in front. */
  lemma InsertByBelowHead<T>(x: T, s: seq<T>, key: T -> int)
    requires s != [] && IncreasingBy(s, key) && key(x) <= key(s[0])
    requires forall k :: 0 <= k < |s| ==> key(s[k]) != key(x)
    ensures IncreasingBy([x] + s, key)
  {
    assert key(x) < key(s[0]);
    ConsIncreasing(x, s, key);
  }

  /** A head whose key is below every key of an increasing list extends it. */
  lemma ConsIncreasing<T>(h: T, rest: seq<T>, key: T -> int)
    requires IncreasingBy(rest, key)
    requires forall k :: 0 <= k < |rest| ==> key(h) < key(rest[k])
    ensures IncreasingBy([h] + rest, key)
  {
    var r := [h] + rest;
    forall j, k | 0 <= j < k < |r| ensures key(r[j]) < key(r[k]) {
      assert r[k] == rest[k - 1];
      if j > 0 {
        assert r[j] == rest[j - 1];
      }
    }
  }

  /** What is inserted into the tail of an increasing list lies above its head. */
  lemma AllAboveHead<T>(x: T, s: seq<T>, rest: seq<T>, key: T -> int)
    requires s != [] && IncreasingBy(s, key) && key(s[0]) < key(x)
    requires multiset(rest) == multiset(s[1..]) + multiset{x}
    ensures forall k :: 0 <= k < |rest| ==> key(s[0]) < key(rest[k])
  {
    forall k | 0 <= k < |rest| ensures key(s[0]) < key(rest[k]) {
      assert rest[k] in multiset(rest);
      if rest[k] != x {
        assert rest[k] in s[1..];
        var i :| 0 <= i < |s[1..]| && s[1..][i] == rest[k];
        assert s[i + 1] == rest[k];
      }
    }
  }

  /** The head of a list with distinct keys has a key no element of the rest has. */
  lemma HeadKeyIsNew<T>(s: seq<T>, rest: seq<T>, key: T -> int)
    requires s != [] && DistinctKeys(s, key)
    requires multiset(rest) == multiset(s[1..])
    ensures forall k :: 0 <= k < |rest| ==> key(rest[k]) != key(s[0])
  {
    forall k | 0 <= k < |rest| ensures key(rest[k]) != key(s[0]) {
      assert rest[k] in multiset(s[1..]);
      var i :| 0 <= i < |s[1..]| && s[1..][i] == rest[k];
      assert s[i + 1] == rest[k];
    }
  }

  /**
   * `s.sort((a, b) => key(a) - key(b))` on a list whose keys are pairwise
   * different: strictly increasing keys, same elements.
   */
  function SortBy<T>(s: seq<T>, key: T -> int): (r: seq<T>)
    requires DistinctKeys(s, key)
    ensures IncreasingBy(r, key)
    ensures multiset(r) == multiset(s)
    decreases |s|
  {
    if s == [] then []
    else
      var rest := SortBy(s[1..], key);
      assert s == [s[0]] + s[1..];
      HeadKeyIsNew(s, rest, key);
      InsertBy(s[0], rest, key)
  }

  /** The sum of `weight` over the elements of `s`. */
  function SumBy<T>(s: seq<T>, weight: T -> int): int
    decreases |s|
  {
    if s == [] then 0 else weight(s[0]) + SumBy(s[1..], weight)
  }

  lemma {:induction false} InsertByKeepsSum<T>(x: T, s: seq<T>, key: T -> int, weight: T -> int)
    requires IncreasingBy(s, key)
    requires forall k :: 0 <= k < |s| ==> key(s[k]) != key(x)
    ensures SumBy(InsertBy(x, s, key), weight) == weight(x) + SumBy(s, weight)
    decreases |s|
  {
    if s != [] && key(s[0]) < key(x) {
      InsertByKeepsSum(x, s[1..], key, weight);
      var rest := InsertBy(x, s[1..], key);
      assert ([s[0]] + rest)[1..] == rest;
    } else if s != [] {
      assert ([x] + s)[1..] == s;
    }
  }

  /** Sorting does not change a total. */
  lemma {:induction false} SortByKeepsSum<T>(s: seq<T>, key: T -> int, weight: T -> int)
    requires DistinctKeys(s, key)
    ensures SumBy(SortBy(s, key), weight) == SumBy(s, weight)
    decreases |s|
  {
    if s != [] {
      assert DistinctKeys(s[1..], key);
      SortByKeepsSum(s[1..], key, weight);
      var rest := SortBy(s[1..], key);
      HeadKeyIsNew(s, rest, key);
      assert SortBy(s, key) == InsertBy(s[0], rest, key);
      InsertByKeepsSum(s[0], rest, key, weight);
    }
  }

  /** A total grows by the weight of what is appended. */
  lemma {:induction false} SumByAppend<T>(s: seq<T>, x: T, weight: T -> int)
    ensures SumBy(s + [x], weight) == SumBy(s, weight) + weight(x)
    decreases |s|
  {
    if s != [] {
      assert (s + [x])[1..] == s[1..] + [x];
      SumByAppend(s[1..], x, weight);
    }
  }

  /** The total of a prefix one longer. */
  lemma SumByStep<T>(s: seq<T>, n: nat, weight: T -> int)
    requires n < |s|
    ensures SumBy(s[..n + 1], weight) == SumBy(s[..n], weight) + weight(s[n])
  {
    assert s[..n + 1] == s[..n] + [s[n]];
    SumByAppend(s[..n], s[n], weight);
  }
}
