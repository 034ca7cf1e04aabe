/**
 * The music tab's visible list: `musicItems.filter(...)` with a search term, a
 * format, a year and an album/track type, and the index its delete buttons
 * hand to the page.
 */
module MusicTab {
  import opened Wrappers
  import opened Media
  import Text
  import Seqs

  /** The tab's four filter inputs; all start as `''`. */
  datatype Criteria = Criteria(
    searchTerm: string,
    selectedFormat: string,
    selectedYear: string,
    selectedType: string)

  const NoCriteria := Criteria("", "", "", "")

  /** `(field && field.toLowerCase().includes(term.toLowerCase()))` for a nullable field. */
  predicate FieldIncludes(field: Option<string>, term: string) {
    field.Some? && field.value != "" && Text.Includes(Text.Lower(field.value), Text.Lower(term))
  }

  /** The search dimension: an empty term, or a case-insensitive hit in SKUPINA, ALBUM or TRACK. */
  predicate SearchMatch(item: MusicItem, term: string) {
    || term == ""
    || Text.Includes(Text.Lower(item.SKUPINA), Text.Lower(term))
    || FieldIncludes(item.ALBUM, term)
    || FieldIncludes(item.TRACK, term)
  }

  /** The format dimension: only `''` accepts everything; any other value must equal FORMAT. */
  predicate FormatMatch(item: MusicItem, selected: string) {
    selected == "" || item.FORMAT == selected
  }

  /** The year dimension: only `''` accepts everything; otherwise `ROK.toString()` must equal it. */
  predicate YearMatch(item: MusicItem, selected: string) {
    selected == "" || Text.IntToString(item.ROK) == selected
  }

  /** The type dimension: `album` and `track` look at which of ALBUM and TRACK is null; anything else accepts all. */
  predicate TypeMatch(item: MusicItem, selected: string) {
    if selected == "album" then item.ALBUM.Some? && item.TRACK.None?
    else if selected == "track" then item.TRACK.Some? && item.ALBUM.None?
    else true
  }

  /** The predicate passed to `filter`: the conjunction of the four dimensions. */
  predicate Matches(item: MusicItem, c: Criteria) {
    && SearchMatch(item, c.searchTerm)
    && FormatMatch(item, c.selectedFormat)
    && YearMatch(item, c.selectedYear)
    && TypeMatch(item, c.selectedType)
  }

  function Keep(c: Criteria): MusicItem -> bool {
    item => Matches(item, c)
  }

  /** `filteredItems`. */
  function FilteredItems(items: seq<MusicItem>, c: Criteria): seq<MusicItem> {
    Seqs.Filter(items, Keep(c))
  }

  // ---------------------------------------------------------------------
  // What the filter promises

  /** The visible list is the backing list with some items left out, in the same order. */
  lemma FilteredIsSubsequence(items: seq<MusicItem>, c: Criteria)
    ensures Seqs.IsSubsequence(FilteredItems(items, c), items)
  {
    Seqs.FilterIsSubsequence(items, Keep(c));
  }

  /** An item is visible exactly when it is in the list and meets all four dimensions. */
  lemma FilteredMembership(items: seq<MusicItem>, c: Criteria, x: MusicItem)
    ensures x in FilteredItems(items, c) <==>
      && x in items
      && SearchMatch(x, c.searchTerm)
      && FormatMatch(x, c.selectedFormat)
      && YearMatch(x, c.selectedYear)
      && TypeMatch(x, c.selectedType)
  {
    Seqs.FilterMembership(items, Keep(c), x);
  }

  /** With every input still `''`, the whole list is shown. */
  lemma NoCriteriaShowsAll(items: seq<MusicItem>)
    ensures FilteredItems(items, NoCriteria) == items
  {
    Seqs.FilterKeepsAll(items, Keep(NoCriteria));
  }

  /**
   * The search matches exactly when the term is empty or its lower-cased form
   * occurs in the lower-cased SKUPINA, or in a non-null ALBUM or TRACK.
   */
  lemma SearchMatchMeaning(item: MusicItem, term: string)
    ensures SearchMatch(item, term) <==>
      || term == ""
      || Text.IsSubstring(Text.Lower(term), Text.Lower(item.SKUPINA))
      || (item.ALBUM.Some? && Text.IsSubstring(Text.Lower(term), Text.Lower(item.ALBUM.value)))
      || (item.TRACK.Some? && Text.IsSubstring(Text.Lower(term), Text.Lower(item.TRACK.value)))
  {
    var t := Text.Lower(term);
    Text.IncludesIsSubstring(Text.Lower(item.SKUPINA), t);
    if item.ALBUM.Some? {
      Text.IncludesIsSubstring(Text.Lower(item.ALBUM.value), t);
    }
    if item.TRACK.Some? {
      Text.IncludesIsSubstring(Text.Lower(item.TRACK.value), t);
    }
  }

  /** The search ignores the case of the term. */
  lemma SearchIgnoresTermCase(item: MusicItem, term: string)
    ensures SearchMatch(item, term) == SearchMatch(item, Text.Lower(term))
  {
    Text.LowerIdempotent(term);
  }

  /** Choosing a year from the year list keeps exactly the items of that year. */
  lemma YearMatchMeaning(item: MusicItem, year: int)
    ensures YearMatch(item, Text.IntToString(year)) <==> item.ROK == year
  {
    Text.IntToStringShape(year);
    if Text.IntToString(item.ROK) == Text.IntToString(year) {
      Text.IntToStringInjective(item.ROK, year);
    }
  }

  /**
   * The `album` and `track` views never share an item, and an item with both
   * or neither of ALBUM and TRACK is in neither.
   */
  lemma TypeFiltersDisjoint(items: seq<MusicItem>, c: Criteria, x: MusicItem)
    ensures !(x in FilteredItems(items, c.(selectedType := "album")) &&
              x in FilteredItems(items, c.(selectedType := "track")))
    ensures (x.ALBUM.Some? <==> x.TRACK.Some?) ==>
              x !in FilteredItems(items, c.(selectedType := "album")) &&
              x !in FilteredItems(items, c.(selectedType := "track"))
  {
    FilteredMembership(items, c.(selectedType := "album"), x);
    FilteredMembership(items, c.(selectedType := "track"), x);
  }

  // ---------------------------------------------------------------------
  // Deleting a row

  /**
   * The click path as written: the delete button of row `row` of the visible
   * list calls `onDeleteItem(row)`, and the page removes position `row` of the
   * unfiltered list.
   */
  function DeleteRowAsWritten(items: seq<MusicItem>, c: Criteria, row: nat): (r: seq<MusicItem>)
    requires row < |FilteredItems(items, c)|
    ensures |r| == |items| - 1
    ensures r == items[..row] + items[row + 1..]
  {
    Seqs.RemoveAt(items, row)
  }

  /**
   * With a filter active the button removes a different item than the one in
   * its row: row 0 of the LP view is the LP, but the CD before it is deleted.
   */
  lemma DeleteRowAsWrittenRemovesWrongItem()
    ensures var cd := MusicItem("A", Some("X"), None, 1990, "CD");
            var lp := MusicItem("B", Some("Y"), None, 1991, "LP");
            var c := NoCriteria.(selectedFormat := "LP");
            && FilteredItems([cd, lp], c) == [lp]
            && DeleteRowAsWritten([cd, lp], c, 0) == [lp]
  {
    var cd := MusicItem("A", Some("X"), None, 1990, "CD");
    var lp := MusicItem("B", Some("Y"), None, 1991, "LP");
    var c := NoCriteria.(selectedFormat := "LP");
    assert !Keep(c)(cd) && Keep(c)(lp);
    assert [cd, lp][1..] == [lp];
    assert [lp][1..] == [];
    assert Seqs.Filter([lp], Keep(c)) == [lp];
    assert FilteredItems([cd, lp], c) == [lp];
  }

  /** What the button evidently means: map the row back to its position in the unfiltered list. */
  function DeleteRowIntended(items: seq<MusicItem>, c: Criteria, row: nat): seq<MusicItem>
    requires row < |FilteredItems(items, c)|
  {
    Seqs.RemoveAt(items, Seqs.BackingIndex(items, Keep(c), row))
  }

  /**
   * The intended deletion removes one occurrence of exactly the item shown in
   * the row, and the visible list loses exactly that row.
   */
  lemma DeleteRowIntendedRemovesThatRow(items: seq<MusicItem>, c: Criteria, row: nat)
    requires row < |FilteredItems(items, c)|
    ensures var i := Seqs.BackingIndex(items, Keep(c), row);
            && items[i] == FilteredItems(items, c)[row]
            && DeleteRowIntended(items, c, row) == items[..i] + items[i + 1..]
    ensures FilteredItems(DeleteRowIntended(items, c, row), c) == Seqs.RemoveAt(FilteredItems(items, c), row)
  {
    Seqs.RemoveBackingIndex(items, Keep(c), row);
  }

  // ---------------------------------------------------------------------
  // The "all" choice

  /**
   * As written, the format and year lists' "all" entry selects the literal
   * string `"all"`, so a non-empty list of ordinary items becomes empty.
   */
  lemma AllOptionAsWrittenHidesEverything(items: seq<MusicItem>)
    requires forall i :: 0 <= i < |items| ==> items[i].FORMAT != "all"
    ensures FilteredItems(items, NoCriteria.(selectedFormat := "all")) == []
    ensures FilteredItems(items, NoCriteria.(selectedYear := "all")) == []
  {
    var cy := NoCriteria.(selectedYear := "all");
    forall i | 0 <= i < |items| ensures !Keep(cy)(items[i]) {
      Text.IntToStringShape(items[i].ROK);
    }
    Seqs.FilterKeepsNone(items, Keep(NoCriteria.(selectedFormat := "all")));
    Seqs.FilterKeepsNone(items, Keep(cy));
  }

  /** The evident intent: `"all"` in the format or year list means the same as `''`. */
  function IntendedCriteria(c: Criteria): Criteria {
    c.(selectedFormat := if c.selectedFormat == "all" then "" else c.selectedFormat,
       selectedYear := if c.selectedYear == "all" then "" else c.selectedYear)
  }

  /** With the intended reading, choosing "all" everywhere shows the whole list. */
  lemma AllOptionIntendedShowsAll(items: seq<MusicItem>)
    ensures FilteredItems(items, IntendedCriteria(Criteria("", "all", "all", "all"))) == items
  {
    assert IntendedCriteria(Criteria("", "all", "all", "all")) == Criteria("", "", "", "all");
    Seqs.FilterKeepsAll(items, Keep(Criteria("", "", "", "all")));
  }
}
