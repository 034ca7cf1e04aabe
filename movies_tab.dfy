/**
 * The movies tab's visible list: `movieItems.filter(...)` with a search term
 * and a format, and the index its delete buttons hand to the page.
 */
module MoviesTab {
  import opened Media
  import Text
  import Seqs

  /** The tab's two filter inputs; both start as `''`. */
  datatype Criteria = Criteria(searchTerm: string, selectedFormat: string)

  const NoCriteria := Criteria("", "")

  /** The search dimension: an empty term, or a case-insensitive hit in JMENO or REZIE. */
  predicate SearchMatch(item: MovieItem, term: string) {
    || term == ""
    || Text.Includes(Text.Lower(item.JMENO), Text.Lower(term))
    || Text.Includes(Text.Lower(item.REZIE), Text.Lower(term))
  }

  /** The format dimension: only `''` accepts everything; any other value must equal FORMAT. */
  predicate FormatMatch(item: MovieItem, selected: string) {
    selected == "" || item.FORMAT == selected
  }

  /** The predicate passed to `filter`: search and format together. */
  predicate Matches(item: MovieItem, c: Criteria) {
    SearchMatch(item, c.searchTerm) && FormatMatch(item, c.selectedFormat)
  }

  function Keep(c: Criteria): MovieItem -> bool {
    item => Matches(item, c)
  }

  /** `filteredItems`. */
  function FilteredItems(items: seq<MovieItem>, c: Criteria): seq<MovieItem> {
    Seqs.Filter(items, Keep(c))
  }

  // ---------------------------------------------------------------------
  // What the filter promises

  /** The visible list is the backing list with some items left out, in the same order. */
  lemma FilteredIsSubsequence(items: seq<MovieItem>, c: Criteria)
    ensures Seqs.IsSubsequence(FilteredItems(items, c), items)
    ensures |FilteredItems(items, c)| <= |items|
  {
    Seqs.FilterIsSubsequence(items, Keep(c));
  }

  /** A movie is visible exactly when it is in the list and meets both dimensions. */
  lemma FilteredMembership(items: seq<MovieItem>, c: Criteria, x: MovieItem)
    ensures x in FilteredItems(items, c) <==>
      x in items && SearchMatch(x, c.searchTerm) && FormatMatch(x, c.selectedFormat)
  {
    Seqs.FilterMembership(items, Keep(c), x);
  }

  /** With both inputs still `''`, the whole list is shown. */
  lemma NoCriteriaShowsAll(items: seq<MovieItem>)
    ensures FilteredItems(items, NoCriteria) == items
  {
    Seqs.FilterKeepsAll(items, Keep(NoCriteria));
  }

  /**
   * The search matches exactly when the term is empty or its lower-cased form
   * occurs in the lower-cased title or director.
   */
  lemma SearchMatchMeaning(item: MovieItem, term: string)
    ensures SearchMatch(item, term) <==>
      || term == ""
      || Text.IsSubstring(Text.Lower(term), Text.Lower(item.JMENO))
      || Text.IsSubstring(Text.Lower(term), Text.Lower(item.REZIE))
  {
    Text.IncludesIsSubstring(Text.Lower(item.JMENO), Text.Lower(term));
    Text.IncludesIsSubstring(Text.Lower(item.REZIE), Text.Lower(term));
  }

  // ---------------------------------------------------------------------
  // Deleting a row

  /**
   * The click path as written: the delete button of row `row` of the visible
   * list calls `onDeleteItem(row)`, and the page removes position `row` of the
   * unfiltered list.
   */
  function DeleteRowAsWritten(items: seq<MovieItem>, c: Criteria, row: nat): (r: seq<MovieItem>)
    requires row < |FilteredItems(items, c)|
    ensures |r| == |items| - 1
    ensures r == items[..row] + items[row + 1..]
  {
    Seqs.RemoveAt(items, row)
  }

  /**
   * With a search active the button can remove a different movie than the one
   * in its row: row 0 of the search for "bb" is the second movie, yet the first
   * one is deleted.
   */
  lemma DeleteRowAsWrittenRemovesWrongItem()
    ensures var a := MovieItem("a", "x", "DVD");
            var b := MovieItem("bb", "y", "DVD");
            var c := NoCriteria.(searchTerm := "bb");
            && FilteredItems([a, b], c) == [b]
            && DeleteRowAsWritten([a, b], c, 0) == [b]
  {
    var a := MovieItem("a", "x", "DVD");
    var b := MovieItem("bb", "y", "DVD");
    var c := NoCriteria.(searchTerm := "bb");
    assert Text.Lower("bb") == "bb" && Text.Lower("a") == "a" && Text.Lower("x") == "x";
    assert "a"[1..] == "" && "x"[1..] == "";
    assert !Text.Includes("", "bb");
    assert !Text.Includes("a", "bb") && !Text.Includes("x", "bb");
    assert !Keep(c)(a) && Keep(c)(b);
    assert [a, b][1..] == [b];
    assert [b][1..] == [];
    assert Seqs.Filter([b], Keep(c)) == [b];
  }

  /** What the button evidently means: map the row back to its position in the unfiltered list. */
  function DeleteRowIntended(items: seq<MovieItem>, c: Criteria, row: nat): seq<MovieItem>
    requires row < |FilteredItems(items, c)|
  {
    Seqs.RemoveAt(items, Seqs.BackingIndex(items, Keep(c), row))
  }

  /**
   * The intended deletion removes exactly the movie shown in the row from the
   * backing list, and the visible list loses exactly that row.
   */
  lemma DeleteRowIntendedRemovesThatRow(items: seq<MovieItem>, c: Criteria, row: nat)
    requires row < |FilteredItems(items, c)|
    ensures var i := Seqs.BackingIndex(items, Keep(c), row);
            && items[i] == FilteredItems(items, c)[row]
            && DeleteRowIntended(items, c, row) == items[..i] + items[i + 1..]
    ensures FilteredItems(DeleteRowIntended(items, c, row), c) == Seqs.RemoveAt(FilteredItems(items, c), row)
  {
    Seqs.RemoveBackingIndex(items, Keep(c), row);
  }

  // ---------------------------------------------------------------------
  // The "all" choice

  /**
   * As written, the format list's "all" entry selects the literal string
   * `"all"`, so a list of ordinary movies becomes empty.
   */
  lemma AllOptionAsWrittenHidesEverything(items: seq<MovieItem>)
    requires forall i :: 0 <= i < |items| ==> items[i].FORMAT != "all"
    ensures FilteredItems(items, NoCriteria.(selectedFormat := "all")) == []
  {
    Seqs.FilterKeepsNone(items, Keep(NoCriteria.(selectedFormat := "all")));
  }

  /** The evident intent: `"all"` in the format list means the same as `''`. */
  function IntendedCriteria(c: Criteria): Criteria {
    c.(selectedFormat := if c.selectedFormat == "all" then "" else c.selectedFormat)
  }

  /** With the intended reading, choosing "all" shows every movie the search keeps. */
  lemma AllOptionIntendedKeepsSearch(items: seq<MovieItem>, term: string)
    ensures FilteredItems(items, IntendedCriteria(Criteria(term, "all"))) ==
            Seqs.Filter(items, (m: MovieItem) => SearchMatch(m, term))
  {
    var c := IntendedCriteria(Criteria(term, "all"));
    assert c == Criteria(term, "");
    Seqs.FilterSameKeep(items, Keep(c), (m: MovieItem) => SearchMatch(m, term));
  }
}
