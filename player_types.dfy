/** The records the player page works with: tracks and playlists. */
module PlayerTypes {

  /** A value that may be absent (the page's `Track | null` and `undefined` results). */
  datatype Option<T> = None | Some(value: T)

  /**
   * One track. `duration` is in whole seconds and is 0 until known;
   * `isBuiltIn` marks the demo tracks that the page refuses to delete
   * (an absent flag is read as false, which is what every uploaded track carries).
   */
  datatype Track = Track(
    id: string,
    name: string,
    artist: string,
    url: string,
    duration: nat,
    isBuiltIn: bool)

  /** A named, ordered list of tracks. The creation timestamp is not modelled. */
  datatype Playlist = Playlist(id: string, name: string, tracks: seq<Track>)

  /** The key `currentTrack?.id`: absent when no track is selected. */
  function IdOf(t: Option<Track>): Option<string>
  {
    match t
    case None => None
    case Some(track) => Some(track.id)
  }

  /** No two tracks of the list share an identifier. */
  predicate UniqueTrackIds(tracks: seq<Track>)
  {
    forall i, j :: 0 <= i < j < |tracks| ==> tracks[i].id != tracks[j].id
  }

  /** No two playlists of the library share an identifier. */
  predicate UniquePlaylistIds(playlists: seq<Playlist>)
  {
    forall i, j :: 0 <= i < j < |playlists| ==> playlists[i].id != playlists[j].id
  }
}
