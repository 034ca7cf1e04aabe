# Media catalogue: a Dafny model

The system is a single-page catalogue of a home music and film collection.
The collection is a JSON document with two lists. `music` holds items with a
performer (SKUPINA), a nullable album and a nullable track name, a year (ROK)
and a format. `movies` holds items with a title (JMÉNO), a director (REŽIE)
and a format. The page keeps the collection in memory. Two tabs show it
through filters. Each tab offers a dialog for adding items and a delete
button on each row. The statistics panel counts the items by format and by
year, and groups the years into decades when there are many of them.

The model has one Dafny module per source file:

- `Media` holds the records. Accents are dropped from the field names, so
  `FORMAT` stands for FORMÁT, `JMENO` for JMÉNO and `REZIE` for REŽIE.
- `MediaService` builds the facet lists the filters offer. Each is a loop
  that fills a duplicate-free list and then sorts it.
- `MusicTab` and `MoviesTab` hold the filter predicates, the visible list
  and the delete click path.
- `Statistics` holds the counting loops, the `Object.entries` walk, the
  per-year table and the decade regrouping.
- `IndexPage` is a `Page` class. Its `mediaData` field is replaced by the
  four handlers, and each new value is built by a pure function.
- `AddItemModals` has two dialog classes, with the form fields and a
  `Submit` method, and the pure validation functions the methods are proved
  against.

Helper modules stand in for the JavaScript built-ins the core relies on:

- `Text`: ASCII `toLowerCase`, `includes`, the default string order of
  `sort()`, `toString` and `Number` on integers, and `replace('s', '')`.
- `Seqs`: `filter`, `map`, the removal by position and counting.
- `Sorting`: the stable sorts behind `Array.prototype.sort`.
- `Tally`: plain objects used as counters.

A JavaScript `Set` keeps its insertion order. The model therefore keeps a
set as a list without duplicates. The number-keyed `yearCounts` object has
string keys in JavaScript, so the model keys it by the decimal string of
the year.

## Model

| member | source | states |
|---|---|---|
| MediaService.GetAllMusicFormats | src/services/mediaService.ts:39-47 | the result is strictly ascending in the default string order, so it holds no format twice; a string is in it exactly when it is a non-empty FORMAT of some item; it is never longer than the item list |
| MediaService.GetAllMovieFormats | src/services/mediaService.ts:49-57 | the same over the movies |
| MediaService.GetAllMusicYears | src/services/mediaService.ts:59-67 | a string is in the result exactly when it is the decimal form of the non-zero ROK of some item, since 0 is falsy and skipped; the parsed years strictly decrease, newest first; the result is never longer than the items |
| MediaService.NewestFirstIsDescending | src/services/mediaService.ts:66 | sorting by the comparator `parseInt(b) - parseInt(a)` puts larger years first |
| MediaService.QueenExample | src/services/mediaService.ts:39-47 | the formats of a one-item list holding a CD album are exactly `["CD"]` |
| MusicTab.FilteredIsSubsequence | src/components/MusicTab.tsx:38-63 | the visible list is the backing list with some items left out, in the original order |
| MusicTab.FilteredMembership | src/components/MusicTab.tsx:38-63 | an item is visible iff it is in the list and meets the search, format, year and type conditions |
| MusicTab.NoCriteriaShowsAll | src/components/MusicTab.tsx:28-31 | with all four inputs at their initial `''`, the whole list is visible |
| MusicTab.SearchMatchMeaning | src/components/MusicTab.tsx:41-45 | the search matches iff the term is empty, or its lower-cased form is a substring of the lower-cased SKUPINA or of a non-null ALBUM or TRACK |
| MusicTab.SearchIgnoresTermCase | src/components/MusicTab.tsx:43-45 | searching for a term and for its lower-cased form give the same answer |
| MusicTab.YearMatchMeaning | src/components/MusicTab.tsx:51 | choosing the decimal string of a year keeps exactly the items of that year |
| MusicTab.TypeFiltersDisjoint | src/components/MusicTab.tsx:54-59 | the album and track views never share an item; an item with both or neither of ALBUM and TRACK is in neither |
| MusicTab.DeleteRowAsWritten | src/components/MusicTab.tsx:110-121 | the row index a delete button passes is removed from the unfiltered list, which loses exactly one item at that position |
| MusicTab.DeleteRowAsWrittenRemovesWrongItem | src/pages/Index.tsx:38-43 | with a format filter active, deleting row 0 removes the hidden item before it and keeps the one shown in that row |
| MusicTab.DeleteRowIntendedRemovesThatRow | src/components/MusicTab.tsx:110-121 | mapping the row back to its backing position removes the very item shown, and the visible list loses exactly that row |
| MusicTab.AllOptionAsWrittenHidesEverything | src/components/Filters.tsx:75-91 | choosing the "all" entry of the format list, or of the year list, empties the view of any list whose items have ordinary formats |
| MusicTab.AllOptionIntendedShowsAll | src/components/Filters.tsx:75-108 | with that reading, choosing "all" in every list shows the whole list |
| MoviesTab.FilteredIsSubsequence | src/components/MoviesTab.tsx:35-48 | the visible list is the backing list with some movies left out, in order, and no longer than it |
| MoviesTab.FilteredMembership | src/components/MoviesTab.tsx:35-48 | a movie is visible iff it is in the list and meets the search and format conditions |
| MoviesTab.NoCriteriaShowsAll | src/components/MoviesTab.tsx:28-29 | with both inputs at `''`, every movie is visible |
| MoviesTab.SearchMatchMeaning | src/components/MoviesTab.tsx:38-41 | the search matches iff the term is empty or its lower-cased form is a substring of the lower-cased title or director |
| MoviesTab.DeleteRowAsWritten | src/components/MoviesTab.tsx:88-97 | the row index is removed from the unfiltered movie list, which loses exactly one item at that position |
| MoviesTab.DeleteRowAsWrittenRemovesWrongItem | src/pages/Index.tsx:46-51 | with a search active, deleting row 0 removes the hidden first movie and keeps the one shown |
| MoviesTab.DeleteRowIntendedRemovesThatRow | src/components/MoviesTab.tsx:88-97 | mapping the row back removes the very movie shown, and the visible list loses exactly that row |
| MoviesTab.AllOptionAsWrittenHidesEverything | src/components/Filters.tsx:158 | choosing "all" in the movie format list empties the view of ordinary movies |
| MoviesTab.AllOptionIntendedKeepsSearch | src/components/Filters.tsx:158 | with that reading, choosing "all" shows exactly the movies the search keeps |
| Statistics.CountKeys | src/components/Statistics.tsx:31-35 | the counter has a key for exactly the values that occur; each holds how often its value occurs, at least once; the counts add up to the number of values |
| Statistics.FormatStats | src/components/Statistics.tsx:29-40 | every item's format has a pie slice and every slice names some item's format, the empty one included; each slice holds how many items have that format; no format twice; the slices add up to the number of items |
| Seqs.CountOf | src/components/Statistics.tsx:32-35 | the number of items with a given format is at most the number of items, and zero exactly when no item has it |
| Seqs.MapCount | src/components/Statistics.tsx:32-35 | counting a key among the mapped keys is counting the items mapped to it |
| Statistics.YearKeyCount | src/components/Statistics.tsx:79-82 | the count under a year's decimal key equals the number of items of that year |
| Statistics.YearCounts | src/components/Statistics.tsx:79-82 | a key for exactly the decimal forms of the items' years, each holding how many items have that year; the counts add up to the number of items |
| Statistics.Entries | src/components/Statistics.tsx:84-88 | one entry per key, holding that key's value; every key appears once; the entries' counts add up to the counter's total; the key order is left open |
| Statistics.YearCountsTable | src/components/Statistics.tsx:79-88 | those entries hold each year's decimal form and its positive item count, and every year of the items has one |
| Statistics.YearTablePermuted | src/components/Statistics.tsx:89 | sorting the entries keeps all of that |
| Statistics.YearData | src/components/Statistics.tsx:79-89 | `data` is strictly ascending by year, has one entry per distinct year holding that year's item count, and its counts add up to the number of items |
| Statistics.BucketTotalIsDecadeTotal | src/components/Statistics.tsx:95-98 | the total gathered under the label `${decade}s` is the sum of the counts of that decade's years |
| Statistics.DecadeCounts | src/components/Statistics.tsx:94-98 | a key for exactly the decade labels of the entries, each holding the summed counts of its years; never more keys than entries; the totals add up to the sum of the entries' counts |
| Statistics.DecadeOfLabel | src/components/Statistics.tsx:96-107 | reading a decade label back with `Number(label.replace('s', ''))` gives the decade |
| Statistics.DecadeTotalPositive | src/components/Statistics.tsx:94-98 | when every count is positive, a decade's total is positive iff some year falls in it |
| Statistics.DecadeCountsEntries | src/components/Statistics.tsx:94-104 | every decade entry is labelled `${decade}s` and holds that decade's positive total |
| Statistics.DecadeCountsCover | src/components/Statistics.tsx:94-104 | every decade an entry's year falls in has a decade entry |
| Statistics.DecadeTablePermuted | src/components/Statistics.tsx:105-109 | sorting the decade entries keeps both facts |
| Statistics.YearStats | src/components/Statistics.tsx:77-110 | `data` is the per-year table; with at most 15 years the chart is `data` itself; with more, it is the decade table sorted ascending by decade; the chart is never longer than `data` and always counts every item once |
| IndexPage.WithoutMusicAt | src/pages/Index.tsx:38-43 | an in-range index drops exactly that item, leaving the rest in order and one fewer; any other index leaves the list as it is; the movies are untouched |
| IndexPage.WithoutMovieAt | src/pages/Index.tsx:46-51 | the same for the movies, with the music untouched |
| IndexPage.WithMusic | src/pages/Index.tsx:54-59 | the old music list is kept as a prefix, the item is the new last entry, the length grows by one, and the movies are untouched |
| IndexPage.WithMovie | src/pages/Index.tsx:62-67 | the same for the movies, with the music untouched |
| IndexPage.DeleteUndoesAddMusic | src/pages/Index.tsx:38-59 | deleting at the index of the item just added gives back the previous collection |
| IndexPage.DeleteUndoesAddMovie | src/pages/Index.tsx:46-67 | the same for the movies |
| IndexPage.DeleteMusicKeepsOthers | src/pages/Index.tsx:41 | every item at a position other than the deleted one is still in the list |
| IndexPage.Page.constructor | src/pages/Index.tsx:13-14 | the collection starts with empty music and empty movies, still loading |
| IndexPage.Page.Load | src/pages/Index.tsx:17-35 | a successful load installs the fetched collection; a failed one leaves the state as it was; loading ends either way |
| IndexPage.FailedLoadExample | src/pages/Index.tsx:13-31 | a page whose load fails shows no music and no movies |
| IndexPage.Page.DeleteMusicItem | src/pages/Index.tsx:38-43 | the new state is `WithoutMusicAt` of the old one |
| IndexPage.Page.DeleteMovieItem | src/pages/Index.tsx:46-51 | the new state is `WithoutMovieAt` of the old one |
| IndexPage.Page.AddMusicItem | src/pages/Index.tsx:54-59 | the new state is `WithMusic` of the old one |
| IndexPage.Page.AddMovieItem | src/pages/Index.tsx:62-67 | the new state is `WithMovie` of the old one |
| AddItemModals.NewMusicItem | src/components/AddItemModals.tsx:30-63 | accepted iff the performer is non-empty and the name of the chosen kind is non-empty; an empty performer is reported first; an accepted item holds the performer, year and format as given, the chosen kind's name, and null for the other kind; the year is never checked |
| AddItemModals.NewMovieItem | src/components/AddItemModals.tsx:206-228 | accepted iff title and director are non-empty, an empty title reported first; an accepted movie holds the three inputs as given |
| AddItemModals.AcceptedItemHasOneType | src/components/AddItemModals.tsx:57-63 | an accepted music item is in the tab's album view iff it was entered as an album, and in its track view iff entered as a track |
| AddItemModals.AcceptedItemFoundByPerformer | src/components/AddItemModals.tsx:57-58 | an accepted music item is found by the tab's search for any part of its performer's name, in any letter case |
| AddItemModals.MusicDialog.constructor | src/components/AddItemModals.tsx:19-25 | a closed, empty form of kind album, with the current year and the first format |
| AddItemModals.MusicDialog.Submit | src/components/AddItemModals.tsx:27-78 | the result is `NewMusicItem` of the form's fields; a rejected form keeps every field; an accepted one clears the text fields, resets the year, sets the format to the first of the formats offered at that moment (or `""`), keeps the kind and closes the dialog |
| AddItemModals.MovieDialog.constructor | src/components/AddItemModals.tsx:198-201 | a closed, empty form with the first format |
| AddItemModals.MovieDialog.Submit | src/components/AddItemModals.tsx:203-241 | the result is `NewMovieItem` of the fields; a rejected form keeps every field; an accepted one clears title and director, sets the format to the first of the formats offered at that moment (or `""`) and closes the dialog |
| Text.IncludesIsSubstring | src/components/MusicTab.tsx:43 | `includes` holds iff the term occurs at some position of the string |
| Text.ParseIntToString | src/components/Statistics.tsx:89 | `Number` of the decimal form of an integer gives that integer back |
| Seqs.RemoveBackingIndex | src/pages/Index.tsx:41 | removing the backing position of a visible row removes exactly that row from the filtered view |

## Left out

- Loading and exporting the JSON file (`fetchMediaData`, `exportToJson`) are I/O. The load reaches the page only as an outcome passed to `IndexPage.Page.Load`.
- The toasts, the loading screen, the tab layout and the chart rendering are presentation only.
- `StatsCounter` only displays two numbers.
- The current year (`new Date().getFullYear()`) is a parameter of the dialog's constructor and of `MusicDialog.Submit`. The `formats` prop is a parameter of both constructors and both `Submit` methods, since the parent may pass a new list on any render.
- `onAddItem` is not called from `Submit`: the accepted item is returned, and the page's `AddMusicItem`/`AddMovieItem` append it.
- Text.Lower: `toLowerCase` is modelled on ASCII letters only; other characters are kept as they are.
- ROK is a mathematical integer. `Number(...)` of a year input that is not a number (NaN) is not modelled.
- `Object.entries` is modelled as a walk over the keys in any order. The pie slices of `Statistics.FormatStats` are therefore stated as a set of slices, not in JavaScript's key order; the year and decade charts are sorted afterwards, so their order is fully stated.
- Statistics.FormatStats: the `item[formatKey]` lookup is the projection parameter `format`; a key the items lack (an `undefined` format) is not modelled.
- Statistics.FormatStats: `formatCounts` is a plain object, so a format named after an `Object.prototype` member (`toString`, `constructor`, `__proto__`, ...) would read or write the inherited member instead of a counter. The model assumes no format has such a name. The year and decade tables are unaffected, since their keys are decimal strings and `<decade>s` labels.
- `Array.prototype.sort` is modelled as a stable insertion sort.
- Text.Less: the default string order is compared by code point. JavaScript compares UTF-16 code units, and the two orders agree only for characters in the Basic Multilingual Plane; strings with characters above U+FFFF are not ordered as JavaScript orders them.
- The dialog's `open` flag is changed elsewhere only by the dialog trigger (`onOpenChange`), which is not modelled.

## Findings

| source | as written | input that shows it | evidently intended | confidence | as-written member | corrected member |
|---|---|---|---|---|---|---|
| src/components/MusicTab.tsx:110-121, src/components/MoviesTab.tsx:88-97, src/pages/Index.tsx:41,49 | the delete button passes the row's position in the filtered list, and the page removes that position from the unfiltered list | music `[CD item, LP item]` with format filter "LP": row 0 shows the LP item, but the CD item is deleted; movies `[("a","x"), ("bb","y")]` searched for "bb" likewise | remove the item shown in the row, by its position in the unfiltered list | not executed | MusicTab.DeleteRowAsWrittenRemovesWrongItem, MoviesTab.DeleteRowAsWrittenRemovesWrongItem | MusicTab.DeleteRowIntendedRemovesThatRow, MoviesTab.DeleteRowIntendedRemovesThatRow |
| src/components/Filters.tsx:75,91,158; src/components/MusicTab.tsx:48,51; src/components/MoviesTab.tsx:44 | the "all" entry of the format and year lists sets the input to the string "all", and the filters only treat `''` as no restriction | any list whose items have ordinary formats, with "all" chosen in the format or year list: the view becomes empty | "all" shows everything, like `''` | not executed | MusicTab.AllOptionAsWrittenHidesEverything, MoviesTab.AllOptionAsWrittenHidesEverything | MusicTab.AllOptionIntendedShowsAll, MoviesTab.AllOptionIntendedKeepsSearch |
