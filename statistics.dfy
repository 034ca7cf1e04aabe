/**
 * The charts' numbers: the frequency table of formats (`FormatStats`) and the
 * per-year counts, re-bucketed by decade when there are more than 15 distinct
 * years (`YearStats`). Both tables are plain objects used as counters; the
 * keys of `yearCounts` are the decimal strings of the years, since JavaScript
 * turns number keys into strings.
 */
module Statistics {
  import opened Media
  import Text
  import Tally
  import opened Sorting
  import Seqs

  /** One bar of the year chart: `{ year, count }`; `year` is a year or a decade label. */
  datatype Entry = Entry(year: string, count: nat)

  function Count(e: Entry): int {
    e.count
  }

  /** `Number(a.year)`: the year a per-year entry stands for. */
  function YearOf(e: Entry): int {
    Text.ParseInt(e.year)
  }

  /** `Number(a.year.replace('s', ''))`: the decade a decade entry stands for. */
  function DecadeOf(e: Entry): int {
    Text.ParseInt(Text.RemoveFirst(e.year, 's'))
  }

  /** `Math.floor(year / 10) * 10`: the first year of the decade holding `year`. */
  function Decade(year: int): (d: int)
    ensures d % 10 == 0 && d <= year < d + 10
  {
    (year / 10) * 10
  }

  /** The chart label `${decade}s` of decade `d`. */
  function DecadeLabel(d: int): string {
    Text.IntToString(d) + "s"
  }

  /** How many of the items have the year `y`. */
  function ItemsOfYear(items: seq<MusicItem>, y: int): nat {
    multiset(Years(items))[y]
  }

  /** The sum of the counts of the entries whose year falls in decade `d`. */
  function DecadeTotal(data: seq<Entry>, d: int): nat
    decreases |data|
  {
    if data == [] then 0
    else
      var last := data[|data| - 1];
      DecadeTotal(data[..|data| - 1], d) + (if Decade(YearOf(last)) == d then last.count else 0)
  }

  // ---------------------------------------------------------------------
  // Counting

  /**
   * `keys.forEach(k => { counts[k] = (counts[k] || 0) + 1 })` from an empty
   * object, the loop of both `formatCounts` and `yearCounts`: a key for
   * exactly the strings that occur, each holding how often it occurs;
   * together they count every element once.
   */
  method CountKeys(keys: seq<string>) returns (counts: map<string, nat>)
    ensures forall k :: k in counts <==> k in keys
    ensures forall k :: k in counts ==> 1 <= counts[k] == multiset(keys)[k]
    ensures Tally.MapSum(counts) == |keys|
  {
    counts := map[];
    for n := 0 to |keys|
      invariant forall k :: k in counts <==> k in keys[..n]
      invariant forall k :: k in counts ==> counts[k] == multiset(keys[..n])[k]
      invariant Tally.MapSum(counts) == n
    {
      assert keys[..n + 1] == keys[..n] + [keys[n]];
      Tally.MapSumAdd(counts, keys[n], 1);
      counts := Tally.Add(counts, keys[n], 1);
    }
    assert keys[..|keys|] == keys;
  }

  // ---------------------------------------------------------------------
  // YearStats

  /** The keys `yearCounts[item.ROK]` writes to: each year's decimal string. */
  function YearKeys(items: seq<MusicItem>): (r: seq<string>)
    ensures |r| == |items| && forall i :: 0 <= i < |items| ==> r[i] == Text.IntToString(items[i].ROK)
  {
    Seqs.Map(Years(items), Text.IntToString)
  }

  /** Counting the decimal keys counts the items of that year. */
  lemma YearKeyCount(items: seq<MusicItem>, y: int)
    ensures multiset(YearKeys(items))[Text.IntToString(y)] == ItemsOfYear(items, y)
  {
    forall a, b | Text.IntToString(a) == Text.IntToString(b) ensures a == b {
      Text.IntToStringInjective(a, b);
    }
    Seqs.MapInjectiveCount(Years(items), Text.IntToString, y);
  }

  /**
   * `yearCounts`: a key `ROK.toString()` for exactly the years that occur,
   * each holding how many items have that year; together they count every
   * item once.
   */
  method YearCounts(items: seq<MusicItem>) returns (counts: map<string, nat>)
    ensures forall k :: k in counts <==> exists i :: 0 <= i < |items| && k == Text.IntToString(items[i].ROK)
    ensures forall y :: Text.IntToString(y) in counts ==> counts[Text.IntToString(y)] == ItemsOfYear(items, y)
    ensures Tally.MapSum(counts) == |items|
  {
    var keys := YearKeys(items);
    counts := CountKeys(keys);
    forall k ensures k in counts <==> exists i :: 0 <= i < |items| && k == Text.IntToString(items[i].ROK) {
      if k in keys {
        var i :| 0 <= i < |keys| && keys[i] == k;
      }
    }
    forall y | Text.IntToString(y) in counts
      ensures counts[Text.IntToString(y)] == ItemsOfYear(items, y)
    {
      YearKeyCount(items, y);
    }
  }

  /**
   * `Object.entries(counts).map(([k, v]) => ({ year: k, count: v }))`: one
   * entry per key, holding that key's value. The order in which the object
   * yields its keys is left open; every caller sorts the result.
   */
  method Entries(m: map<string, nat>) returns (s: seq<Entry>)
    ensures |s| == |m|
    ensures forall k :: 0 <= k < |s| ==> s[k].year in m && s[k].count == m[s[k].year]
    ensures forall key :: key in m ==> exists k :: 0 <= k < |s| && s[k].year == key
    ensures forall j, k :: 0 <= j < k < |s| ==> s[j].year != s[k].year
    ensures SumBy(s, Count) == Tally.MapSum(m)
  {
    var rest := m;
    s := [];
    while rest != map[]
      invariant forall key :: key in rest ==> key in m && rest[key] == m[key]
      invariant forall k :: 0 <= k < |s| ==> s[k].year in m && s[k].year !in rest && s[k].count == m[s[k].year]
      invariant forall key :: key in m ==> key in rest || exists k :: 0 <= k < |s| && s[k].year == key
      invariant forall j, k :: 0 <= j < k < |s| ==> s[j].year != s[k].year
      invariant |s| + |rest| == |m|
      invariant SumBy(s, Count) + Tally.MapSum(rest) == Tally.MapSum(m)
      decreases |rest|
    {
      var key :| key in rest;
      var e := Entry(key, rest[key]);
      Tally.MapSumRemove(rest, key);
      Tally.CardRemove(rest, key);
      SumByAppend(s, e, Count);
      EntriesStep(m, s, rest, e);
      s := s + [e];
      rest := rest - {key};
    }
  }

  /**
   * `FormatStats`: the pie's `data`, one `{ name, value }` slice per format
   * that occurs among the items (an `Entry` whose label is the format),
   * holding how many items have that format, each format once, the slices
   * together counting every item. `format` reads the `formatKey` field of an
   * item; the empty format gets a slice too.
   */
  method FormatStats<T>(items: seq<T>, format: T -> string) returns (data: seq<Entry>)
    ensures forall k :: 0 <= k < |data| ==> 1 <= data[k].count == Seqs.CountOf(items, format, data[k].year)
    ensures forall i :: 0 <= i < |items| ==> exists k :: 0 <= k < |data| && data[k].year == format(items[i])
    ensures forall k :: 0 <= k < |data| ==> exists i :: 0 <= i < |items| && format(items[i]) == data[k].year
    ensures forall j, k :: 0 <= j < k < |data| ==> data[j].year != data[k].year
    ensures SumBy(data, Count) == |items|
  {
    var keys := Seqs.Map(items, format);
    var counts := CountKeys(keys);
    data := Entries(counts);
    forall i | 0 <= i < |items|
      ensures format(items[i]) in counts
    {
      assert keys[i] == format(items[i]);
    }
    forall f | f in counts
      ensures counts[f] == Seqs.CountOf(items, format, f)
    {
      Seqs.MapCount(items, format, f);
    }
  }

  /** Moving one key from what is left to the end of the entries keeps the loop's invariants. */
  lemma EntriesStep(m: map<string, nat>, s: seq<Entry>, rest: map<string, nat>, e: Entry)
    requires e.year in rest && e.count == rest[e.year]
    requires forall key :: key in rest ==> key in m && rest[key] == m[key]
    requires forall k :: 0 <= k < |s| ==> s[k].year in m && s[k].year !in rest && s[k].count == m[s[k].year]
    requires forall key :: key in m ==> key in rest || exists k :: 0 <= k < |s| && s[k].year == key
    requires forall j, k :: 0 <= j < k < |s| ==> s[j].year != s[k].year
    ensures var s', rest' := s + [e], rest - {e.year};
      && (forall k :: 0 <= k < |s'| ==> s'[k].year in m && s'[k].year !in rest' && s'[k].count == m[s'[k].year])
      && (forall key :: key in m ==> key in rest' || exists k :: 0 <= k < |s'| && s'[k].year == key)
      && (forall j, k :: 0 <= j < k < |s'| ==> s'[j].year != s'[k].year)
  {
    var s', rest' := s + [e], rest - {e.year};
    forall k | 0 <= k < |s'| ensures s'[k].year in m && s'[k].year !in rest' && s'[k].count == m[s'[k].year] {
      if k < |s| {
        assert s'[k] == s[k];
      }
    }
    forall key | key in m && key !in rest' ensures exists k :: 0 <= k < |s'| && s'[k].year == key {
      if key == e.year {
        assert s'[|s|].year == key;
      } else {
        var j :| 0 <= j < |s| && s[j].year == key;
        assert s'[j] == s[j];
      }
    }
    forall j, k | 0 <= j < k < |s'| ensures s'[j].year != s'[k].year {
      assert s'[j] == s[j];
      if k < |s| {
        assert s'[k] == s[k];
      }
    }
  }

  /** A key of `yearCounts` read back with `Number` gives the year it was made from. */
  lemma YearKeysDistinct(s: seq<Entry>)
    requires forall k :: 0 <= k < |s| ==> s[k].year == Text.IntToString(YearOf(s[k]))
    requires forall j, k :: 0 <= j < k < |s| ==> s[j].year != s[k].year
    ensures DistinctKeys(s, YearOf)
  {
  }

  /**
   * `s` is a table of the items' years: each entry holds the decimal string of
   * a year and how many items have it, and each year of the items has an entry.
   */
  ghost predicate YearTable(items: seq<MusicItem>, s: seq<Entry>) {
    && (forall k :: 0 <= k < |s| ==>
          s[k].year == Text.IntToString(YearOf(s[k])) && 1 <= s[k].count == ItemsOfYear(items, YearOf(s[k])))
    && (forall y :: y in Years(items) <==> exists k :: 0 <= k < |s| && YearOf(s[k]) == y)
  }

  /** The `yearCounts` entries form a table of the items' years. */
  lemma YearCountsTable(items: seq<MusicItem>, counts: map<string, nat>, s: seq<Entry>)
    requires forall k :: k in counts <==> exists i :: 0 <= i < |items| && k == Text.IntToString(items[i].ROK)
    requires forall y :: Text.IntToString(y) in counts ==> counts[Text.IntToString(y)] == ItemsOfYear(items, y)
    requires forall k :: 0 <= k < |s| ==> s[k].year in counts && s[k].count == counts[s[k].year]
    requires forall key :: key in counts ==> exists k :: 0 <= k < |s| && s[k].year == key
    ensures YearTable(items, s)
  {
    forall k | 0 <= k < |s|
      ensures s[k].year == Text.IntToString(YearOf(s[k]))
      ensures 1 <= s[k].count == ItemsOfYear(items, YearOf(s[k]))
    {
      assert s[k].year in counts;
      var i :| 0 <= i < |items| && s[k].year == Text.IntToString(items[i].ROK);
      Text.ParseIntToString(items[i].ROK);
      assert Years(items)[i] == items[i].ROK;
      assert items[i].ROK in Years(items);
    }
    forall y ensures y in Years(items) <==> exists k :: 0 <= k < |s| && YearOf(s[k]) == y {
      if y in Years(items) {
        var i :| 0 <= i < |items| && Years(items)[i] == y;
        assert items[i].ROK == y;
        assert Text.IntToString(items[i].ROK) in counts;
        var j :| 0 <= j < |s| && s[j].year == Text.IntToString(y);
        Text.ParseIntToString(y);
      }
      if exists k :: 0 <= k < |s| && YearOf(s[k]) == y {
        var k :| 0 <= k < |s| && YearOf(s[k]) == y;
        assert s[k].count >= 1;
      }
    }
  }

  /** Reordering a table of the items' years leaves it one. */
  lemma YearTablePermuted(items: seq<MusicItem>, a: seq<Entry>, b: seq<Entry>)
    requires YearTable(items, a) && multiset(a) == multiset(b)
    ensures YearTable(items, b)
  {
    forall k | 0 <= k < |b| ensures b[k] in a {
      assert b[k] in multiset(a);
    }
    forall y ensures y in Years(items) <==> exists k :: 0 <= k < |b| && YearOf(b[k]) == y {
      if y in Years(items) {
        var j :| 0 <= j < |a| && YearOf(a[j]) == y;
        assert a[j] in multiset(b);
        var k :| 0 <= k < |b| && b[k] == a[j];
      }
    }
  }

  /**
   * `data`: the per-year entries sorted by `Number(a.year) - Number(b.year)`.
   * One entry per distinct year, strictly ascending, each holding how many
   * items have that year, the counts summing to the number of items.
   */
  method YearData(items: seq<MusicItem>) returns (data: seq<Entry>)
    ensures IncreasingBy(data, YearOf)
    ensures YearTable(items, data)
    ensures SumBy(data, Count) == |items|
  {
    var counts := YearCounts(items);
    var entries := Entries(counts);
    YearCountsTable(items, counts, entries);
    YearKeysDistinct(entries);
    data := SortBy(entries, YearOf);
    SortByKeepsSum(entries, YearOf, Count);
    YearTablePermuted(items, entries, data);
  }

  // ---------------------------------------------------------------------
  // Decades

  /** Different decades get different labels. */
  lemma DecadeLabelInjective(d: int, e: int)
    requires DecadeLabel(d) == DecadeLabel(e)
    ensures d == e
  {
    var a, b := Text.IntToString(d), Text.IntToString(e);
    assert a == DecadeLabel(d)[..|a|];
    assert |a| == |b|;
    assert b == DecadeLabel(e)[..|b|];
    Text.IntToStringInjective(d, e);
  }

  /** Sorting reads a decade bucket back as its decade. */
  lemma DecadeOfLabel(d: int, count: nat)
    ensures DecadeOf(Entry(DecadeLabel(d), count)) == d
  {
    Text.IntToStringShape(d);
    Text.RemoveFirstOfSuffix(Text.IntToString(d), 's');
    Text.ParseIntToString(d);
  }

  /** `${Math.floor(Number(item.year) / 10) * 10}s`: the bucket a per-year entry goes to. */
  function BucketOf(e: Entry): string {
    DecadeLabel(Decade(YearOf(e)))
  }

  /** The bucket of every entry, in order. */
  function Buckets(data: seq<Entry>): (r: seq<string>)
    ensures |r| == |data| && forall i :: 0 <= i < |data| ==> r[i] == BucketOf(data[i])
  {
    seq(|data|, i requires 0 <= i < |data| => BucketOf(data[i]))
  }

  /** The sum of the counts of the entries that go to `bucket`. */
  function BucketTotal(data: seq<Entry>, bucket: string): nat
    decreases |data|
  {
    if data == [] then 0
    else
      var last := data[|data| - 1];
      BucketTotal(data[..|data| - 1], bucket) + (if BucketOf(last) == bucket then last.count else 0)
  }

  /** One more entry adds its count to its own bucket only. */
  lemma BucketTotalStep(data: seq<Entry>, n: nat, bucket: string)
    requires n < |data|
    ensures BucketTotal(data[..n + 1], bucket) ==
            BucketTotal(data[..n], bucket) + (if BucketOf(data[n]) == bucket then data[n].count else 0)
  {
    assert data[..n + 1][..n] == data[..n];
  }

  /** A decade's bucket collects exactly the counts of the years in that decade. */
  lemma {:induction false} BucketTotalIsDecadeTotal(data: seq<Entry>, d: int)
    ensures BucketTotal(data, DecadeLabel(d)) == DecadeTotal(data, d)
    decreases |data|
  {
    if data != [] {
      var last := data[|data| - 1];
      BucketTotalIsDecadeTotal(data[..|data| - 1], d);
      if BucketOf(last) == DecadeLabel(d) {
        DecadeLabelInjective(Decade(YearOf(last)), d);
      }
    }
  }

  /**
   * `decadeCounts`: a key `${decade}s` for exactly the buckets of the
   * entries, each holding the sum of the counts of the entries in it. There
   * are no more keys than entries, and the total is unchanged.
   */
  method DecadeCounts(data: seq<Entry>) returns (counts: map<string, nat>)
    ensures forall k :: k in counts <==> k in Buckets(data)
    ensures forall k :: k in counts ==> counts[k] == BucketTotal(data, k)
    ensures |counts| <= |data|
    ensures Tally.MapSum(counts) == SumBy(data, Count)
  {
    counts := map[];
    for n := 0 to |data|
      invariant forall k :: k in counts <==> exists i :: 0 <= i < n && BucketOf(data[i]) == k
      invariant forall k :: Tally.Get(counts, k) == BucketTotal(data[..n], k)
      invariant |counts| <= n
      invariant Tally.MapSum(counts) == SumBy(data[..n], Count)
    {
      var bucket := BucketOf(data[n]);
      var next := Tally.Add(counts, bucket, data[n].count);
      DecadeKeysStep(data, n, counts);
      DecadeTotalsStep(data, n, counts);
      DecadeSumStep(data, n, counts);
      counts := next;
    }
    assert data[..|data|] == data;
    forall k | k in Buckets(data) ensures k in counts {
      var i :| 0 <= i < |data| && Buckets(data)[i] == k;
    }
  }

  /** Adding entry `n` to the decade counter adds its label to the keys. */
  lemma DecadeKeysStep(data: seq<Entry>, n: nat, counts: map<string, nat>)
    requires n < |data|
    requires forall k :: k in counts <==> exists i :: 0 <= i < n && BucketOf(data[i]) == k
    ensures var next := Tally.Add(counts, BucketOf(data[n]), data[n].count);
      forall k :: k in next <==> exists i :: 0 <= i < n + 1 && BucketOf(data[i]) == k
  {
    var bucket := BucketOf(data[n]);
    var next := Tally.Add(counts, bucket, data[n].count);
    forall k ensures k in next <==> exists i :: 0 <= i < n + 1 && BucketOf(data[i]) == k {
      if k == bucket {
        assert BucketOf(data[n]) == k;
      } else if k in next {
        assert k in counts;
      }
    }
  }

  /** Adding entry `n` to the decade counter adds its count to its own decade only. */
  lemma DecadeTotalsStep(data: seq<Entry>, n: nat, counts: map<string, nat>)
    requires n < |data|
    requires forall k :: Tally.Get(counts, k) == BucketTotal(data[..n], k)
    ensures var next := Tally.Add(counts, BucketOf(data[n]), data[n].count);
      forall k :: Tally.Get(next, k) == BucketTotal(data[..n + 1], k)
  {
    var next := Tally.Add(counts, BucketOf(data[n]), data[n].count);
    forall k ensures Tally.Get(next, k) == BucketTotal(data[..n + 1], k) {
      BucketTotalStep(data, n, k);
    }
  }

  /** Adding entry `n` to the decade counter adds at most one key, and its count to the total. */
  lemma DecadeSumStep(data: seq<Entry>, n: nat, counts: map<string, nat>)
    requires n < |data|
    requires |counts| <= n
    requires Tally.MapSum(counts) == SumBy(data[..n], Count)
    ensures var next := Tally.Add(counts, BucketOf(data[n]), data[n].count);
      |next| <= n + 1 && Tally.MapSum(next) == SumBy(data[..n + 1], Count)
  {
    Tally.AddCard(counts, BucketOf(data[n]), data[n].count);
    Tally.MapSumAdd(counts, BucketOf(data[n]), data[n].count);
    SumByStep(data, n, Count);
  }

  /** Decade labels read back as different decades. */
  lemma DecadeKeysDistinct(s: seq<Entry>)
    requires forall k :: 0 <= k < |s| ==> s[k].year == DecadeLabel(DecadeOf(s[k]))
    requires forall j, k :: 0 <= j < k < |s| ==> s[j].year != s[k].year
    ensures DistinctKeys(s, DecadeOf)
  {
  }

  /**
   * A decade's total is positive exactly when some entry of `data` falls in
   * that decade (every entry of `data` counting at least one item).
   */
  lemma {:induction false} DecadeTotalPositive(data: seq<Entry>, d: int)
    requires forall k :: 0 <= k < |data| ==> 1 <= data[k].count
    ensures 1 <= DecadeTotal(data, d) <==> exists i :: 0 <= i < |data| && Decade(YearOf(data[i])) == d
    decreases |data|
  {
    if data != [] {
      var init := data[..|data| - 1];
      DecadeTotalPositive(init, d);
      if exists i :: 0 <= i < |init| && Decade(YearOf(init[i])) == d {
        var i :| 0 <= i < |init| && Decade(YearOf(init[i])) == d;
        assert data[i] == init[i];
      }
      if exists i :: 0 <= i < |data| && Decade(YearOf(data[i])) == d {
        var i :| 0 <= i < |data| && Decade(YearOf(data[i])) == d;
        if i < |init| {
          assert init[i] == data[i];
        }
      }
    }
  }

  /**
   * `chart` is a table of the decades of `data`: each entry holds the label
   * `${decade}s` of a decade and the positive total of the counts of that
   * decade's years, and each decade an entry of `data` falls in has an entry.
   */
  ghost predicate DecadeTable(data: seq<Entry>, chart: seq<Entry>) {
    && (forall k :: 0 <= k < |chart| ==>
          chart[k].year == DecadeLabel(DecadeOf(chart[k])) && 1 <= chart[k].count == DecadeTotal(data, DecadeOf(chart[k])))
    && (forall i :: 0 <= i < |data| ==> HasDecade(chart, Decade(YearOf(data[i]))))
  }

  /** Some entry of `chart` is labelled with decade `d`. */
  ghost predicate HasDecade(chart: seq<Entry>, d: int) {
    exists k :: 0 <= k < |chart| && DecadeOf(chart[k]) == d
  }

  /** Each `decadeCounts` entry is a decade label holding that decade's positive total. */
  lemma DecadeCountsEntries(data: seq<Entry>, counts: map<string, nat>, s: seq<Entry>)
    requires forall k :: 0 <= k < |data| ==> 1 <= data[k].count
    requires forall k :: k in counts ==> k in Buckets(data) && counts[k] == BucketTotal(data, k)
    requires forall k :: 0 <= k < |s| ==> s[k].year in counts && s[k].count == counts[s[k].year]
    ensures forall k :: 0 <= k < |s| ==>
      s[k].year == DecadeLabel(DecadeOf(s[k])) && 1 <= s[k].count == DecadeTotal(data, DecadeOf(s[k]))
  {
    forall k | 0 <= k < |s|
      ensures s[k].year == DecadeLabel(DecadeOf(s[k]))
      ensures 1 <= s[k].count == DecadeTotal(data, DecadeOf(s[k]))
    {
      assert s[k].year in Buckets(data);
      var i :| 0 <= i < |data| && Buckets(data)[i] == s[k].year;
      var d := Decade(YearOf(data[i]));
      DecadeOfLabel(d, s[k].count);
      BucketTotalIsDecadeTotal(data, d);
      DecadeTotalPositive(data, d);
    }
  }

  /** Every decade of `data` has a `decadeCounts` entry. */
  lemma DecadeCountsCover(data: seq<Entry>, s: seq<Entry>)
    requires forall key :: key in Buckets(data) ==> exists k :: 0 <= k < |s| && s[k].year == key
    ensures forall i :: 0 <= i < |data| ==> HasDecade(s, Decade(YearOf(data[i])))
  {
    forall i | 0 <= i < |data|
      ensures HasDecade(s, Decade(YearOf(data[i])))
    {
      var d := Decade(YearOf(data[i]));
      assert DecadeLabel(d) == Buckets(data)[i];
      assert DecadeLabel(d) in Buckets(data);
      var j :| 0 <= j < |s| && s[j].year == DecadeLabel(d);
      DecadeOfLabel(d, s[j].count);
      assert s[j] == Entry(DecadeLabel(d), s[j].count);
      assert DecadeOf(s[j]) == d;
    }
  }

  /** Reordering a table of decades leaves it one. */
  lemma DecadeTablePermuted(data: seq<Entry>, a: seq<Entry>, b: seq<Entry>)
    requires DecadeTable(data, a) && multiset(a) == multiset(b)
    ensures DecadeTable(data, b)
  {
    forall k | 0 <= k < |b| ensures b[k] in a {
      assert b[k] in multiset(a);
    }
    forall i | 0 <= i < |data|
      ensures HasDecade(b, Decade(YearOf(data[i])))
    {
      assert HasDecade(a, Decade(YearOf(data[i])));
      var j :| 0 <= j < |a| && DecadeOf(a[j]) == Decade(YearOf(data[i]));
      assert a[j] in multiset(b);
      var k :| 0 <= k < |b| && b[k] == a[j];
    }
  }

  /**
   * `YearStats`: the per-year `data`, and the `chartData` drawn from it. With
   * at most 15 years the chart is `data` as it is; with more, it is one entry
   * per decade, labelled `${decade}s`, holding the sum of the counts of that
   * decade's years, sorted ascending by decade, never longer than `data`.
   * Either way the counts sum to the number of items.
   */
  method YearStats(items: seq<MusicItem>) returns (data: seq<Entry>, chartData: seq<Entry>)
    ensures IncreasingBy(data, YearOf) && YearTable(items, data)
    ensures |data| <= 15 ==> chartData == data
    ensures |data| > 15 ==> IncreasingBy(chartData, DecadeOf) && DecadeTable(data, chartData)
    ensures |chartData| <= |data|
    ensures SumBy(chartData, Count) == |items|
  {
    data := YearData(items);
    chartData := data;
    if |data| > 15 {
      var counts := DecadeCounts(data);
      var entries := Entries(counts);
      DecadeCountsEntries(data, counts, entries);
      DecadeCountsCover(data, entries);
      DecadeKeysDistinct(entries);
      chartData := SortBy(entries, DecadeOf);
      SortByKeepsSum(entries, DecadeOf, Count);
      DecadeTablePermuted(data, entries, chartData);
      assert |chartData| == |multiset(chartData)| == |multiset(entries)| == |entries|;
    }
  }
}
