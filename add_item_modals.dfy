/**
 * The two "add" dialogs. Each holds its form fields as state; submitting
 * either rejects the form, naming the first missing field and leaving the
 * fields as they are, or builds a new item, hands it to `onAddItem` and
 * resets the form.
 */
module AddItemModals {
  import opened Wrappers
  import opened Media
  import MusicTab
  import Text

  /** The radio choice `"album" | "track"`. */
  datatype ItemType = Album | Track

  /** Why a music form was rejected, in the order the checks run. */
  datatype MusicError = MissingPerformer | MissingAlbum | MissingTrack

  /** Why a movie form was rejected, in the order the checks run. */
  datatype MovieError = MissingTitle | MissingDirector

  /** `formats[0] || ""`: the first offered format, or `""` when there is none. */
  function DefaultFormat(formats: seq<string>): string {
    if formats == [] then "" else formats[0]
  }

  // ---------------------------------------------------------------------
  // Validation and construction

  /**
   * The outcome of submitting the music form: rejected for an empty performer
   * first, then for an empty name of the chosen kind; otherwise an item whose
   * ALBUM or TRACK, by the chosen kind, holds the name and whose other one is
   * null. The name of the other kind is ignored, and the year is taken as it
   * is, whatever its value.
   */
  function NewMusicItem(skupina: string, itemType: ItemType, albumName: string, trackName: string,
                        rok: int, format: string): (r: Result<MusicItem, MusicError>)
    ensures r.Success? <==>
      skupina != "" && (itemType == Album ==> albumName != "") && (itemType == Track ==> trackName != "")
    ensures r.Failure? ==>
      && (r.error == MissingPerformer <==> skupina == "")
      && (r.error == MissingAlbum ==> itemType == Album && albumName == "")
      && (r.error == MissingTrack ==> itemType == Track && trackName == "")
    ensures r.Success? ==>
      && r.value.SKUPINA == skupina && r.value.ROK == rok && r.value.FORMAT == format
      && (r.value.ALBUM == if itemType == Album then Some(albumName) else None)
      && (r.value.TRACK == if itemType == Track then Some(trackName) else None)
  {
    if skupina == "" then Failure(MissingPerformer)
    else if itemType == Album && albumName == "" then Failure(MissingAlbum)
    else if itemType == Track && trackName == "" then Failure(MissingTrack)
    else
      Success(MusicItem(
        SKUPINA := skupina,
        ALBUM := if itemType == Album then Some(albumName) else None,
        TRACK := if itemType == Track then Some(trackName) else None,
        ROK := rok,
        FORMAT := format))
  }

  /**
   * The outcome of submitting the movie form: rejected for an empty title
   * first, then for an empty director; otherwise a movie holding the three
   * inputs as they are.
   */
  function NewMovieItem(nazev: string, rezie: string, format: string): (r: Result<MovieItem, MovieError>)
    ensures r.Success? <==> nazev != "" && rezie != ""
    ensures r.Failure? ==>
      && (r.error == MissingTitle <==> nazev == "")
      && (r.error == MissingDirector ==> rezie == "")
    ensures r.Success? ==> r.value == MovieItem(nazev, rezie, format)
  {
    if nazev == "" then Failure(MissingTitle)
    else if rezie == "" then Failure(MissingDirector)
    else Success(MovieItem(nazev, rezie, format))
  }

  // ---------------------------------------------------------------------
  // What an accepted item looks like to the music tab

  /**
   * An accepted music item passes exactly one of the tab's two type filters:
   * the "album" filter when it was entered as an album, the "track" filter
   * when it was entered as a track.
   */
  lemma AcceptedItemHasOneType(skupina: string, itemType: ItemType, albumName: string, trackName: string,
                               rok: int, format: string)
    requires NewMusicItem(skupina, itemType, albumName, trackName, rok, format).Success?
    ensures var item := NewMusicItem(skupina, itemType, albumName, trackName, rok, format).value;
            && (MusicTab.TypeMatch(item, "album") <==> itemType == Album)
            && (MusicTab.TypeMatch(item, "track") <==> itemType == Track)
  {
    var item := NewMusicItem(skupina, itemType, albumName, trackName, rok, format).value;
    if itemType == Album {
      assert item.ALBUM.Some? && item.TRACK.None?;
    } else {
      assert item.TRACK.Some? && item.ALBUM.None?;
    }
  }

  /**
   * An accepted music item is found by the tab's search for any part of its
   * performer's name, in any letter case.
   */
  lemma AcceptedItemFoundByPerformer(skupina: string, itemType: ItemType, albumName: string, trackName: string,
                                     rok: int, format: string, term: string)
    requires NewMusicItem(skupina, itemType, albumName, trackName, rok, format).Success?
    requires Text.IsSubstring(Text.Lower(term), Text.Lower(skupina))
    ensures MusicTab.SearchMatch(NewMusicItem(skupina, itemType, albumName, trackName, rok, format).value, term)
  {
    MusicTab.SearchMatchMeaning(NewMusicItem(skupina, itemType, albumName, trackName, rok, format).value, term);
  }

  // ---------------------------------------------------------------------
  // The dialogs

  /**
   * `AddMusicItemDialog`: the form fields. The offered formats are a prop the
   * parent may change between renders, so they are passed to each operation.
   */
  class MusicDialog {
    var open: bool
    var skupina: string
    var itemType: ItemType
    var albumName: string
    var trackName: string
    var rok: int
    var format: string

    /** A closed, empty form: kind album, the current year, the first format. */
    constructor(formats: seq<string>, currentYear: int)
      ensures !open && skupina == "" && itemType == Album && albumName == "" && trackName == ""
      ensures rok == currentYear && format == DefaultFormat(formats)
    {
      open := false;
      skupina := "";
      itemType := Album;
      albumName := "";
      trackName := "";
      rok := currentYear;
      format := DefaultFormat(formats);
    }

    /**
     * `handleSubmit`. The result is what the form's fields build; a success is
     * the one item passed to `onAddItem`. A rejected form keeps every field; an
     * accepted one clears the text fields, resets the year to `currentYear` and
     * the format to the first of the formats offered now, keeps the kind and
     * closes the dialog.
     */
    method Submit(formats: seq<string>, currentYear: int) returns (r: Result<MusicItem, MusicError>)
      modifies this
      ensures r == NewMusicItem(old(skupina), old(itemType), old(albumName), old(trackName), old(rok), old(format))
      ensures r.Failure? ==>
        && open == old(open) && skupina == old(skupina) && itemType == old(itemType)
        && albumName == old(albumName) && trackName == old(trackName)
        && rok == old(rok) && format == old(format)
      ensures r.Success? ==>
        && !open && skupina == "" && albumName == "" && trackName == ""
        && itemType == old(itemType) && rok == currentYear && format == DefaultFormat(formats)
    {
      if skupina == "" {
        return Failure(MissingPerformer);
      }
      if itemType == Album && albumName == "" {
        return Failure(MissingAlbum);
      }
      if itemType == Track && trackName == "" {
        return Failure(MissingTrack);
      }
      var item := MusicItem(
        SKUPINA := skupina,
        ALBUM := if itemType == Album then Some(albumName) else None,
        TRACK := if itemType == Track then Some(trackName) else None,
        ROK := rok,
        FORMAT := format);
      r := Success(item);
      skupina := "";
      albumName := "";
      trackName := "";
      rok := currentYear;
      format := DefaultFormat(formats);
      open := false;
    }
  }

  /**
   * `AddMovieItemDialog`: the form fields. The offered formats are passed to
   * each operation, as the prop may change between renders.
   */
  class MovieDialog {
    var open: bool
    var nazev: string
    var rezie: string
    var format: string

    /** A closed, empty form with the first format selected. */
    constructor(formats: seq<string>)
      ensures !open && nazev == "" && rezie == "" && format == DefaultFormat(formats)
    {
      open := false;
      nazev := "";
      rezie := "";
      format := DefaultFormat(formats);
    }

    /**
     * `handleSubmit`. A rejected form keeps every field; an accepted one clears
     * the title and director, resets the format to the first of the formats
     * offered now and closes the dialog.
     */
    method Submit(formats: seq<string>) returns (r: Result<MovieItem, MovieError>)
      modifies this
      ensures r == NewMovieItem(old(nazev), old(rezie), old(format))
      ensures r.Failure? ==>
        open == old(open) && nazev == old(nazev) && rezie == old(rezie) && format == old(format)
      ensures r.Success? ==>
        !open && nazev == "" && rezie == "" && format == DefaultFormat(formats)
    {
      if nazev == "" {
        return Failure(MissingTitle);
      }
      if rezie == "" {
        return Failure(MissingDirector);
      }
      r := Success(MovieItem(nazev, rezie, format));
      nazev := "";
      rezie := "";
      format := DefaultFormat(formats);
      open := false;
    }
  }
}
