/**
 * The page that owns the collection: its `mediaData` state and the four
 * handlers the tabs call to delete and add items. Each handler replaces the
 * state with a value built from the previous one.
 */
module IndexPage {
  import opened Wrappers
  import opened Media
  import Seqs

  /** The state before loading finishes, and after a failed load. */
  const Empty := MediaData([], [])

  // ---------------------------------------------------------------------
  // The new values the handlers build

  /**
   * `music.filter((_, i) => i !== index)`: an index inside the list drops
   * exactly that item and keeps the others in order; any other index, negative
   * or too large, keeps the list as it is. The movies are not touched.
   */
  function WithoutMusicAt(d: MediaData, index: int): (r: MediaData)
    ensures r.movies == d.movies
    ensures 0 <= index < |d.music| ==>
      && |r.music| == |d.music| - 1
      && r.music == d.music[..index] + d.music[index + 1..]
      && multiset(r.music) + multiset{d.music[index]} == multiset(d.music)
    ensures !(0 <= index < |d.music|) ==> r.music == d.music
  {
    var music := Seqs.RemoveAt(d.music, index);
    if 0 <= index < |d.music| then
      Seqs.RemoveAtCount(d.music, index);
      d.(music := music)
    else
      d.(music := music)
  }

  /** `movies.filter((_, i) => i !== index)`, with the music untouched. */
  function WithoutMovieAt(d: MediaData, index: int): (r: MediaData)
    ensures r.music == d.music
    ensures 0 <= index < |d.movies| ==>
      && |r.movies| == |d.movies| - 1
      && r.movies == d.movies[..index] + d.movies[index + 1..]
      && multiset(r.movies) + multiset{d.movies[index]} == multiset(d.movies)
    ensures !(0 <= index < |d.movies|) ==> r.movies == d.movies
  {
    var movies := Seqs.RemoveAt(d.movies, index);
    if 0 <= index < |d.movies| then
      Seqs.RemoveAtCount(d.movies, index);
      d.(movies := movies)
    else
      d.(movies := movies)
  }

  /** `[...music, item]`: the old list is kept as a prefix and `item` is the new last entry. */
  function WithMusic(d: MediaData, item: MusicItem): (r: MediaData)
    ensures r.movies == d.movies
    ensures |r.music| == |d.music| + 1
    ensures r.music[..|d.music|] == d.music && r.music[|d.music|] == item
  {
    d.(music := d.music + [item])
  }

  /** `[...movies, item]`, with the music untouched. */
  function WithMovie(d: MediaData, item: MovieItem): (r: MediaData)
    ensures r.music == d.music
    ensures |r.movies| == |d.movies| + 1
    ensures r.movies[..|d.movies|] == d.movies && r.movies[|d.movies|] == item
  {
    d.(movies := d.movies + [item])
  }

  // ---------------------------------------------------------------------
  // How the values relate

  /** Deleting the row just added takes the collection back to what it was. */
  lemma DeleteUndoesAddMusic(d: MediaData, item: MusicItem)
    ensures WithoutMusicAt(WithMusic(d, item), |d.music|) == d
  {
    var added := WithMusic(d, item);
    assert added.music[..|d.music|] + added.music[|d.music| + 1..] == d.music;
  }

  /** Deleting the movie just added takes the collection back to what it was. */
  lemma DeleteUndoesAddMovie(d: MediaData, item: MovieItem)
    ensures WithoutMovieAt(WithMovie(d, item), |d.movies|) == d
  {
    var added := WithMovie(d, item);
    assert added.movies[..|d.movies|] + added.movies[|d.movies| + 1..] == d.movies;
  }

  /** An item present before a delete at another position is still present after it. */
  lemma DeleteMusicKeepsOthers(d: MediaData, index: int, j: int)
    requires 0 <= j < |d.music| && j != index
    ensures d.music[j] in WithoutMusicAt(d, index).music
  {
    var r := WithoutMusicAt(d, index).music;
    if 0 <= index < |d.music| {
      if j < index {
        assert r[j] == d.music[j];
      } else {
        assert r[j - 1] == d.music[j];
      }
    }
  }

  // ---------------------------------------------------------------------
  // The page

  /** The page's state: the collection and whether the initial load is still running. */
  class Page {
    var mediaData: MediaData
    var isLoading: bool

    /** The collection starts empty while the data is being loaded. */
    constructor()
      ensures mediaData == Empty && isLoading
    {
      mediaData := Empty;
      isLoading := true;
    }

    /**
     * The end of the initial load: the fetched collection on success; on a
     * failure the state stays as it was (empty, when nothing has changed it).
     * Either way loading is over.
     */
    method Load(outcome: Result<MediaData, string>)
      modifies this
      ensures outcome.Success? ==> mediaData == outcome.value
      ensures outcome.Failure? ==> mediaData == old(mediaData)
      ensures !isLoading
    {
      if outcome.Success? {
        mediaData := outcome.value;
      }
      isLoading := false;
    }

    /** `handleDeleteMusicItem`. */
    method DeleteMusicItem(index: int)
      modifies this
      ensures mediaData == WithoutMusicAt(old(mediaData), index)
      ensures isLoading == old(isLoading)
    {
      mediaData := WithoutMusicAt(mediaData, index);
    }

    /** `handleDeleteMovieItem`. */
    method DeleteMovieItem(index: int)
      modifies this
      ensures mediaData == WithoutMovieAt(old(mediaData), index)
      ensures isLoading == old(isLoading)
    {
      mediaData := WithoutMovieAt(mediaData, index);
    }

    /** `handleAddMusicItem`. */
    method AddMusicItem(item: MusicItem)
      modifies this
      ensures mediaData == WithMusic(old(mediaData), item)
      ensures isLoading == old(isLoading)
    {
      mediaData := WithMusic(mediaData, item);
    }

    /** `handleAddMovieItem`. */
    method AddMovieItem(item: MovieItem)
      modifies this
      ensures mediaData == WithMovie(old(mediaData), item)
      ensures isLoading == old(isLoading)
    {
      mediaData := WithMovie(mediaData, item);
    }
  }

  /** A page whose load failed shows an empty collection. */
  method FailedLoadExample() returns (music: nat, movies: nat)
    ensures music == 0 && movies == 0
  {
    var page := new Page();
    page.Load(Failure("unreadable"));
    music := |page.mediaData.music|;
    movies := |page.mediaData.movies|;
  }
}
