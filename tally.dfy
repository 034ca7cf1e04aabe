/**
 * Frequency tables: a plain object used as a `Record<key, number>` counter,
 * updated with `counts[k] = (counts[k] || 0) + n`.
 */
module Tally {

  /** `(counts[k] || 0)`: the count stored for `k`, or 0 when there is none. */
  function Get(m: map<string, nat>, k: string): nat {
    if k in m then m[k] else 0
  }

  /** `counts[k] = (counts[k] || 0) + n`. */
  function Add(m: map<string, nat>, k: string, n: nat): (r: map<string, nat>)
    ensures r.Keys == m.Keys + {k}
    ensures r[k] == Get(m, k) + n
    ensures forall j :: j in m && j != k ==> r[j] == m[j]
  {
    m[k := Get(m, k) + n]
  }

  /** Adding to a key creates at most one new entry. */
  lemma AddCard(m: map<string, nat>, k: string, n: nat)
    ensures |Add(m, k, n)| <= |m| + 1
  {
    var r := Add(m, k, n);
    if k in m {
      assert r.Keys == m.Keys;
    } else {
      assert r.Keys == m.Keys + {k};
    }
  }

  /** The sum of all values of the table. */
  ghost function MapSum(m: map<string, nat>): nat
    decreases |m|
  {
    if m == map[] then 0
    else
      var k :| k in m;
      assert |m - {k}| < |m| by {
        assert (m - {k}).Keys == m.Keys - {k};
      }
      m[k] + MapSum(m - {k})
  }

  lemma CardRemove(m: map<string, nat>, k: string)
    requires k in m
    ensures |m - {k}| == |m| - 1
  {
    assert (m - {k}).Keys == m.Keys - {k};
  }

  /** The sum does not depend on which key is taken out first. */
  lemma {:induction false} MapSumRemove(m: map<string, nat>, k: string)
    requires k in m
    ensures MapSum(m) == m[k] + MapSum(m - {k})
    decreases |m|
  {
    var j :| j in m && MapSum(m) == m[j] + MapSum(m - {j});
    if j != k {
      CardRemove(m, j);
      CardRemove(m, k);
      MapSumRemove(m - {j}, k);
      MapSumRemove(m - {k}, j);
      assert m - {j} - {k} == m - {k} - {j};
    }
  }

  /** Adding `n` to one key's count adds `n` to the total. */
  lemma MapSumAdd(m: map<string, nat>, k: string, n: nat)
    ensures MapSum(Add(m, k, n)) == MapSum(m) + n
  {
    var r := Add(m, k, n);
    MapSumRemove(r, k);
    if k in m {
      MapSumRemove(m, k);
      assert r - {k} == m - {k};
    } else {
      assert r - {k} == m;
    }
  }
}
