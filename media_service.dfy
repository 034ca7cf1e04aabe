/**
 * The facet lists offered as filter choices: the distinct formats of the music
 * and of the movies, and the distinct years of the music. Each function walks
 * the items, adds every truthy value to a `Set` (a JavaScript `Set` keeps
 * insertion order, so it is a list without duplicates here), and sorts
 * `Array.from` of it.
 */
module MediaService {
  import opened Media
  import Text
  import opened Sorting

  /** `getAllMusicFormats`: the distinct non-empty formats, in the default string order. */
  method GetAllMusicFormats(items: seq<MusicItem>) returns (r: seq<string>)
    ensures StrictlyAscending(r) && NoDuplicates(r)
    ensures forall f :: f in r <==> f != "" && exists i :: 0 <= i < |items| && items[i].FORMAT == f
    ensures |r| <= |items|
  {
    var formats: seq<string> := [];
    for n := 0 to |items|
      invariant NoDuplicates(formats)
      invariant forall f :: f in formats <==> f != "" && exists i :: 0 <= i < n && items[i].FORMAT == f
      invariant |formats| <= n
    {
      var f := items[n].FORMAT;
      if f != "" && f !in formats {
        formats := formats + [f];
      }
    }
    r := SortStrings(formats);
    SameElements(r, formats);
    AscendingHasNoDuplicates(r);
    assert |r| == |multiset(r)| == |multiset(formats)| == |formats|;
  }

  /** `getAllMovieFormats`: the same facet over the movies. */
  method GetAllMovieFormats(items: seq<MovieItem>) returns (r: seq<string>)
    ensures StrictlyAscending(r) && NoDuplicates(r)
    ensures forall f :: f in r <==> f != "" && exists i :: 0 <= i < |items| && items[i].FORMAT == f
    ensures |r| <= |items|
  {
    var formats: seq<string> := [];
    for n := 0 to |items|
      invariant NoDuplicates(formats)
      invariant forall f :: f in formats <==> f != "" && exists i :: 0 <= i < n && items[i].FORMAT == f
      invariant |formats| <= n
    {
      var f := items[n].FORMAT;
      if f != "" && f !in formats {
        formats := formats + [f];
      }
    }
    r := SortStrings(formats);
    SameElements(r, formats);
    AscendingHasNoDuplicates(r);
    assert |r| == |multiset(r)| == |multiset(formats)| == |formats|;
  }

  /** The comparator `(a, b) => parseInt(b) - parseInt(a)` as a sort key: newest first. */
  function NewestFirst(year: string): int {
    -Text.ParseInt(year)
  }

  /**
   * `getAllMusicYears`: the decimal strings of the distinct non-zero years
   * (`0` is falsy and skipped), newest first.
   */
  method GetAllMusicYears(items: seq<MusicItem>) returns (r: seq<string>)
    ensures forall y :: y in r <==> exists i :: 0 <= i < |items| && items[i].ROK != 0 && y == Text.IntToString(items[i].ROK)
    ensures forall j, k :: 0 <= j < k < |r| ==> Text.ParseInt(r[j]) > Text.ParseInt(r[k])
    ensures |r| <= |items|
  {
    var years: seq<string> := [];
    for n := 0 to |items|
      invariant forall y :: y in years <==> exists i :: 0 <= i < n && items[i].ROK != 0 && y == Text.IntToString(items[i].ROK)
      invariant forall k :: 0 <= k < |years| ==> years[k] == Text.IntToString(Text.ParseInt(years[k]))
      invariant NoDuplicates(years)
      invariant |years| <= n
    {
      if items[n].ROK != 0 {
        var y := Text.IntToString(items[n].ROK);
        if y !in years {
          Text.ParseIntToString(items[n].ROK);
          years := years + [y];
        }
      }
    }
    YearsHaveDistinctKeys(years);
    r := SortBy(years, NewestFirst);
    SameElements(r, years);
    assert |r| == |multiset(r)| == |multiset(years)| == |years|;
    NewestFirstIsDescending(r);
  }

  lemma NewestFirstIsDescending(r: seq<string>)
    requires IncreasingBy(r, NewestFirst)
    ensures forall j, k :: 0 <= j < k < |r| ==> Text.ParseInt(r[j]) > Text.ParseInt(r[k])
  {
    forall j, k | 0 <= j < k < |r| ensures Text.ParseInt(r[j]) > Text.ParseInt(r[k]) {
      assert NewestFirst(r[j]) < NewestFirst(r[k]);
    }
  }

  /** Two lists with the same multiset of elements have the same members. */
  lemma SameElements(a: seq<string>, b: seq<string>)
    requires multiset(a) == multiset(b)
    ensures forall x :: x in a <==> x in b
  {
    forall x ensures x in a <==> x in b {
      assert x in a <==> x in multiset(a);
      assert x in b <==> x in multiset(b);
    }
  }

  /** Distinct decimal renderings of integers parse to distinct numbers. */
  lemma YearsHaveDistinctKeys(years: seq<string>)
    requires NoDuplicates(years)
    requires forall k :: 0 <= k < |years| ==> years[k] == Text.IntToString(Text.ParseInt(years[k]))
    ensures DistinctKeys(years, NewestFirst)
  {
    assert forall j, k :: 0 <= j < k < |years| ==> Text.ParseInt(years[j]) != Text.ParseInt(years[k]);
  }

  /** The result of `getAllMusicFormats` for the catalogue's own example. */
  method QueenExample() returns (r: seq<string>)
    ensures r == ["CD"]
  {
    var queen := MusicItem("Queen", Wrappers.Some("A Night at the Opera"), Wrappers.None, 1975, "CD");
    r := GetAllMusicFormats([queen]);
    assert [queen][0].FORMAT == "CD";
    assert "CD" in r;
  }
}
