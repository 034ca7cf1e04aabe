/**
 * The records of the catalogue, with the field names the JSON document uses
 * (accents dropped: FORMAT stands for FORMÁT, JMENO for JMÉNO, REZIE for REŽIE).
 * There is no id field: an item's position in its list is its only identity.
 */
module Media {
  import opened Wrappers

  /**
   * A music entry: performer (SKUPINA), album and track names that are each
   * independently present or null, year of release (ROK) and format.
   */
  datatype MusicItem = MusicItem(
    SKUPINA: string,
    ALBUM: Option<string>,
    TRACK: Option<string>,
    ROK: int,
    FORMAT: string)

  /** A movie entry: title (JMENO), director (REZIE) and format, none of them null. */
  datatype MovieItem = MovieItem(JMENO: string, REZIE: string, FORMAT: string)

  /** The whole collection: two ordered lists. */
  datatype MediaData = MediaData(music: seq<MusicItem>, movies: seq<MovieItem>)

  /** The ROK of every music item, in order. */
  function Years(items: seq<MusicItem>): seq<int> {
    seq(|items|, i requires 0 <= i < |items| => items[i].ROK)
  }
}
