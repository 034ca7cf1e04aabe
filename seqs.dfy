/**
 * The two array operations the UI state is built from: `Array.prototype.filter`
 * with an element predicate, and `filter((_, i) => i !== index)`, which drops one
 * position. Also the map from a row of a filtered list back to its position in
 * the list it was filtered from.
 */
module Seqs {

  /** `s.filter(keep)`: the elements of `s` that satisfy `keep`, in their original order. */
  function Filter<T>(s: seq<T>, keep: T -> bool): (r: seq<T>)
    ensures |r| <= |s|
    decreases |s|
  {
    if s == [] then []
    else if keep(s[0]) then [s[0]] + Filter(s[1..], keep)
    else Filter(s[1..], keep)
  }

  /** `a` is obtained from `b` by deleting elements, without reordering the rest. */
  ghost predicate IsSubsequence<T>(a: seq<T>, b: seq<T>)
    decreases |b|
  {
    if a == [] then true
    else if b == [] then false
    else (a[0] == b[0] && IsSubsequence(a[1..], b[1..])) || IsSubsequence(a, b[1..])
  }

  lemma {:induction false} FilterIsSubsequence<T>(s: seq<T>, keep: T -> bool)
    ensures IsSubsequence(Filter(s, keep), s)
    decreases |s|
  {
    if s != [] {
      FilterIsSubsequence(s[1..], keep);
      var f := Filter(s[1..], keep);
      if keep(s[0]) {
        assert ([s[0]] + f)[1..] == f;
      }
    }
  }

  /** An element is in the result exactly when it is in the input and is kept. */
  lemma {:induction false} FilterMembership<T>(s: seq<T>, keep: T -> bool, x: T)
    ensures x in Filter(s, keep) <==> x in s && keep(x)
    decreases |s|
  {
    if s != [] {
      FilterMembership(s[1..], keep, x);
      assert x in s <==> x == s[0] || x in s[1..];
    }
  }

  /** A predicate that keeps every element keeps the sequence as it is. */
  lemma {:induction false} FilterKeepsAll<T>(s: seq<T>, keep: T -> bool)
    requires forall i :: 0 <= i < |s| ==> keep(s[i])
    ensures Filter(s, keep) == s
    decreases |s|
  {
    if s != [] {
      FilterKeepsAll(s[1..], keep);
    }
  }

  /** A predicate that keeps no element leaves nothing. */
  lemma {:induction false} FilterKeepsNone<T>(s: seq<T>, keep: T -> bool)
    requires forall i :: 0 <= i < |s| ==> !keep(s[i])
    ensures Filter(s, keep) == []
    decreases |s|
  {
    if s != [] {
      FilterKeepsNone(s[1..], keep);
    }
  }

  /** Two predicates that agree on every element filter alike. */
  lemma {:induction false} FilterSameKeep<T>(s: seq<T>, p: T -> bool, q: T -> bool)
    requires forall x :: p(x) == q(x)
    ensures Filter(s, p) == Filter(s, q)
    decreases |s|
  {
    if s != [] {
      FilterSameKeep(s[1..], p, q);
    }
  }

  // ---------------------------------------------------------------------
  // Removal by position

  /** `s.filter((_, i) => i !== index)`, written as the element-by-element filter it is. */
  function RemoveAt<T>(s: seq<T>, index: int): (r: seq<T>)
    ensures 0 <= index < |s| ==> r == s[..index] + s[index + 1..]
    ensures !(0 <= index < |s|) ==> r == s
    decreases |s|
  {
    if s == [] then []
    else if index == 0 then s[1..]
    else
      var rest := RemoveAt(s[1..], index - 1);
      if 0 < index < |s| then
        SliceOfTail(s, index);
        [s[0]] + rest
      else
        [s[0]] + rest
  }

  /** Cutting `s` around `index` is cutting its tail around `index - 1`, with the head in front. */
  lemma SliceOfTail<T>(s: seq<T>, index: int)
    requires 0 < index < |s|
    ensures s[..index] == [s[0]] + s[1..][..index - 1]
    ensures s[index + 1..] == s[1..][index..]
  {
  }

  /** Removing an in-range position takes exactly one copy of that element out. */
  lemma {:induction false} RemoveAtCount<T>(s: seq<T>, index: int)
    requires 0 <= index < |s|
    ensures multiset(RemoveAt(s, index)) + multiset{s[index]} == multiset(s)
    decreases |s|
  {
    assert s == [s[0]] + s[1..];
    if index > 0 {
      RemoveAtCount(s[1..], index - 1);
      assert RemoveAt(s, index) == [s[0]] + RemoveAt(s[1..], index - 1);
    }
  }

  // ---------------------------------------------------------------------
  // Rows of a filtered list

  /** The position in `s` of the element shown as row `row` of `Filter(s, keep)`. */
  function BackingIndex<T>(s: seq<T>, keep: T -> bool, row: nat): (i: nat)
    requires row < |Filter(s, keep)|
    ensures i < |s| && keep(s[i]) && s[i] == Filter(s, keep)[row]
    decreases |s|
  {
    if keep(s[0]) then (if row == 0 then 0 else 1 + BackingIndex(s[1..], keep, row - 1))
    else 1 + BackingIndex(s[1..], keep, row)
  }

  /** Removing a position from a non-empty sequence commutes with taking its tail. */
  lemma RemoveAtCons<T>(s: seq<T>, i: nat)
    requires 0 < |s| && i < |s| - 1
    ensures RemoveAt(s, i + 1) == [s[0]] + RemoveAt(s[1..], i)
  {
  }

  /** Filtering a list with a known first element. */
  lemma FilterCons<T>(x: T, t: seq<T>, keep: T -> bool)
    ensures Filter([x] + t, keep) == if keep(x) then [x] + Filter(t, keep) else Filter(t, keep)
  {
    assert ([x] + t)[0] == x;
    assert ([x] + t)[1..] == t;
  }

  /**
   * Deleting the backing position of a row removes exactly that row from the
   * filtered view, and nothing else.
   */
  lemma {:induction false} RemoveBackingIndex<T>(s: seq<T>, keep: T -> bool, row: nat)
    requires row < |Filter(s, keep)|
    ensures Filter(RemoveAt(s, BackingIndex(s, keep, row)), keep) == RemoveAt(Filter(s, keep), row)
    decreases |s|
  {
    if keep(s[0]) && row == 0 {
      assert RemoveAt(s, 0) == s[1..];
      assert RemoveAt([s[0]] + Filter(s[1..], keep), 0) == Filter(s[1..], keep);
    } else if keep(s[0]) {
      RemoveBackingIndex(s[1..], keep, row - 1);
      RemoveBackingKept(s, keep, row);
    } else {
      RemoveBackingIndex(s[1..], keep, row);
      RemoveBackingSkipped(s, keep, row);
    }
  }

  /** The inductive step of `RemoveBackingIndex` when the first element is kept. */
  lemma RemoveBackingKept<T>(s: seq<T>, keep: T -> bool, row: nat)
    requires s != [] && keep(s[0]) && 0 < row < |Filter(s, keep)|
    requires Filter(RemoveAt(s[1..], BackingIndex(s[1..], keep, row - 1)), keep)
             == RemoveAt(Filter(s[1..], keep), row - 1)
    ensures Filter(RemoveAt(s, BackingIndex(s, keep, row)), keep) == RemoveAt(Filter(s, keep), row)
  {
    var f := Filter(s[1..], keep);
    var j := BackingIndex(s[1..], keep, row - 1);
    var rest := RemoveAt(s[1..], j);
    assert BackingIndex(s, keep, row) == j + 1;
    RemoveAtCons(s, j);
    FilterCons(s[0], rest, keep);
    assert Filter(s, keep) == [s[0]] + f;
    RemoveAtCons([s[0]] + f, row - 1);
    assert ([s[0]] + f)[1..] == f;
  }

  /** The inductive step of `RemoveBackingIndex` when the first element is left out. */
  lemma RemoveBackingSkipped<T>(s: seq<T>, keep: T -> bool, row: nat)
    requires s != [] && !keep(s[0]) && row < |Filter(s, keep)|
    requires Filter(RemoveAt(s[1..], BackingIndex(s[1..], keep, row)), keep)
             == RemoveAt(Filter(s[1..], keep), row)
    ensures Filter(RemoveAt(s, BackingIndex(s, keep, row)), keep) == RemoveAt(Filter(s, keep), row)
  {
    var j := BackingIndex(s[1..], keep, row);
    var rest := RemoveAt(s[1..], j);
    assert BackingIndex(s, keep, row) == j + 1;
    RemoveAtCons(s, j);
    FilterCons(s[0], rest, keep);
  }

  // ---------------------------------------------------------------------
  // Mapping

  /** `s.map(f)`. */
  function Map<T, U>(s: seq<T>, f: T -> U): (r: seq<U>)
    ensures |r| == |s| && forall i :: 0 <= i < |s| ==> r[i] == f(s[i])
    decreases |s|
  {
    if s == [] then [] else Map(s[..|s| - 1], f) + [f(s[|s| - 1])]
  }

  /** Through a one-to-one `f`, `f(y)` occurs in the mapped list as often as `y` occurs in the list. */
  lemma {:induction false} MapInjectiveCount<T, U>(s: seq<T>, f: T -> U, y: T)
    requires forall a, b :: f(a) == f(b) ==> a == b
    ensures multiset(Map(s, f))[f(y)] == multiset(s)[y]
    decreases |s|
  {
    if s != [] {
      var init, last := s[..|s| - 1], s[|s| - 1];
      MapInjectiveCount(init, f, y);
      assert s == init + [last];
      assert multiset(s) == multiset(init) + multiset{last};
      assert multiset(Map(s, f)) == multiset(Map(init, f)) + multiset{f(last)};
    }
  }

  /** How many elements of `s` are mapped to `y` by `f`. */
  function CountOf<T, U(==)>(s: seq<T>, f: T -> U, y: U): (n: nat)
    ensures n <= |s|
    ensures n == 0 <==> forall i :: 0 <= i < |s| ==> f(s[i]) != y
    decreases |s|
  {
    if s == [] then 0
    else CountOf(s[..|s| - 1], f, y) + (if f(s[|s| - 1]) == y then 1 else 0)
  }

  /** The mapped list holds `y` once for every element `f` maps to `y`. */
  lemma {:induction false} MapCount<T, U>(s: seq<T>, f: T -> U, y: U)
    ensures multiset(Map(s, f))[y] == CountOf(s, f, y)
    decreases |s|
  {
    if s != [] {
      var init, last := s[..|s| - 1], s[|s| - 1];
      MapCount(init, f, y);
      assert multiset(Map(s, f)) == multiset(Map(init, f)) + multiset{f(last)};
    }
  }
}
