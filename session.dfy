/**
 * The player page's session state and the handlers that change it: the
 * library of playlists, the copy of the selected playlist, and the transport
 * (selected track, play flag, elapsed time, duration, shuffle and repeat).
 */
module PlayerSession {
  import opened PlayerTypes
  import opened TrackLists
  import opened TextFormat
  import opened Transport

  const MainPlaylistId: string := "main"
  const MainPlaylistName: string := "🎵 Главный плейлист"
  const UploadedPlaylistId: string := "uploaded"
  const UploadedPlaylistName: string := "📁 Загруженная музыка"
  const UploadedArtist: string := "Загруженный трек"
  const AudioTypePrefix: string := "audio/"

  /** The demo track numbered `n`: identifier `builtin<n>`, no source, protected from deletion. */
  function BuiltInTrack(n: nat, name: string, artist: string, duration: nat): Track
  {
    Track("builtin" + Decimal(n), name, artist, "", duration, true)
  }

  /** The demo catalogue in order: each track's name, artist and duration in seconds. */
  const BuiltInCatalogue: seq<(string, string, nat)> := [
    ("Мёртвый Анархист", "Король и Шут", 213),
    ("Золото мёртвых", "NAGART", 195),
    ("Демобилизация", "Сектор Газа", 177),
    ("Твой звонок", "Сектор Газа", 168),
    ("Лирика", "Сектор Газа", 201),
    ("Камнем по голове", "КиШ", 156),
    ("Охотник", "Король и Шут", 224),
    ("Пиво-Пиво-Пиво", "КняZz", 189),
    ("Лесник", "Король и Шут", 191),
    ("Танец злобного гения", "Король и Шут", 205),
    ("Кукла колдуна", "Король и Шут", 176),
    ("Дагон", "Король и Шут", 163),
    ("Прыгну со скалы", "Король и Шут", 184),
    ("Бомж", "Сектор Газа", 142),
    ("Дурак и молния", "Король и Шут", 198),
    ("Музыка нас связала", "Мираж", 225),
    ("Komarovo (DVRST Phonk Remix)", "DVRST, Игорь Скляр, Atomic Heart", 180),
    ("Всё, что касается", "Звери", 203),
    ("Районы-кварталы", "Звери", 218)
  ]

  /** The demo tracks every session starts with, numbered from one; none has a source, all are protected. */
  const BuiltInTracks: seq<Track> :=
    seq(|BuiltInCatalogue|, k requires 0 <= k < |BuiltInCatalogue| =>
      BuiltInTrack(k + 1, BuiltInCatalogue[k].0, BuiltInCatalogue[k].1, BuiltInCatalogue[k].2))

  /** The library's track identifiers do not include `id`: what a freshly generated identifier is assumed to be. */
  ghost predicate TrackIdUnused(playlists: seq<Playlist>, id: string)
  {
    forall i, j :: 0 <= i < |playlists| && 0 <= j < |playlists[i].tracks| ==> playlists[i].tracks[j].id != id
  }

  /** No playlist of the library has identifier `id`. */
  ghost predicate PlaylistIdUnused(playlists: seq<Playlist>, id: string)
  {
    forall i :: 0 <= i < |playlists| ==> playlists[i].id != id
  }

  /** No two track slots anywhere in the library share an identifier. */
  ghost predicate LibraryTrackIdsUnique(playlists: seq<Playlist>)
  {
    forall i, a, j, b ::
      0 <= i < |playlists| && 0 <= j < |playlists| &&
      0 <= a < |playlists[i].tracks| && 0 <= b < |playlists[j].tracks| && (i != j || a != b) ==>
        playlists[i].tracks[a].id != playlists[j].tracks[b].id
  }

  /** Every track of the selected copy is in the library playlist the copy was taken from. */
  ghost predicate CopyInLibrary(playlists: seq<Playlist>, current: Playlist)
  {
    forall i, a :: 0 <= i < |playlists| && playlists[i].id == current.id && 0 <= a < |current.tracks| ==>
      current.tracks[a] in playlists[i].tracks
  }

  /**
   * What the handlers keep true of the library and the selected copy:
   * playlist identifiers are unique, track identifiers are unique across the
   * whole library and within the copy, the selected playlist is one of the
   * library's, its copy holds only tracks of that library playlist, and it
   * holds every built-in track of it.
   */
  ghost predicate SessionInvariant(playlists: seq<Playlist>, current: Playlist)
  {
    && UniquePlaylistIds(playlists)
    && LibraryTrackIdsUnique(playlists)
    && UniqueTrackIds(current.tracks)
    && FindPlaylist(playlists, current.id).Some?
    && CopyInLibrary(playlists, current)
    && (forall i, t :: 0 <= i < |playlists| && playlists[i].id == current.id && t in playlists[i].tracks && t.isBuiltIn ==>
          t in current.tracks)
  }

  class Session {
    var playlists: seq<Playlist>
    var currentPlaylist: Playlist
    var currentTrack: Option<Track>
    var isPlaying: bool
    var currentTime: nat
    var duration: nat
    var isShuffled: bool
    var isRepeat: bool
    var newPlaylistName: string
    var showCreatePlaylist: bool

    /** The session invariant of the current state. */
    ghost predicate Valid()
      reads this
    {
      SessionInvariant(playlists, currentPlaylist)
    }

    /** The playlists and the selected copy are as before. */
    twostate predicate LibraryUnchanged()
      reads this
    {
      playlists == old(playlists) && currentPlaylist == old(currentPlaylist)
    }

    /** The new-playlist form (typed name and visibility) is as before. */
    twostate predicate FormUnchanged()
      reads this
    {
      newPlaylistName == old(newPlaylistName) && showCreatePlaylist == old(showCreatePlaylist)
    }

    /** The selected track, play flag, elapsed time and duration are as before. */
    twostate predicate TransportUnchanged()
      reads this
    {
      && currentTrack == old(currentTrack)
      && isPlaying == old(isPlaying)
      && currentTime == old(currentTime)
      && duration == old(duration)
    }

    /** Shuffle and repeat are as before. */
    twostate predicate ModesUnchanged()
      reads this
    {
      isShuffled == old(isShuffled) && isRepeat == old(isRepeat)
    }

    /** The state the page starts with. */
    constructor ()
      ensures playlists == [Playlist(MainPlaylistId, MainPlaylistName, BuiltInTracks),
                            Playlist(UploadedPlaylistId, UploadedPlaylistName, [])]
      ensures currentPlaylist == playlists[0]
      ensures currentTrack == Some(BuiltInTracks[0])
      ensures !isPlaying && currentTime == 0 && duration == 0
      ensures !isShuffled && !isRepeat
      ensures newPlaylistName == "" && !showCreatePlaylist
      ensures Valid()
    {
      playlists := [Playlist(MainPlaylistId, MainPlaylistName, BuiltInTracks),
                    Playlist(UploadedPlaylistId, UploadedPlaylistName, [])];
      currentPlaylist := Playlist(MainPlaylistId, MainPlaylistName, BuiltInTracks);
      currentTrack := Some(BuiltInTracks[0]);
      isPlaying := false;
      currentTime := 0;
      duration := 0;
      isShuffled := false;
      isRepeat := false;
      newPlaylistName := "";
      showCreatePlaylist := false;
      new;
      InitialInvariant();
    }

    /** `selectTrack`: the track becomes current with elapsed time 0 and its own duration. */
    method SelectTrack(track: Track)
      modifies this
      ensures currentTrack == Some(track) && currentTime == 0 && duration == track.duration
      ensures isPlaying == old(isPlaying)
      ensures LibraryUnchanged() && FormUnchanged() && ModesUnchanged()
      ensures old(Valid()) ==> Valid()
    {
      currentTrack := Some(track);
      currentTime := 0;
      duration := track.duration;
    }

    /** `togglePlayPause`: nothing without a current track; otherwise the play flag flips. */
    method TogglePlayPause()
      modifies this
      ensures isPlaying == if old(currentTrack).None? then old(isPlaying) else !old(isPlaying)
      ensures currentTrack == old(currentTrack) && currentTime == old(currentTime) && duration == old(duration)
      ensures LibraryUnchanged() && FormUnchanged() && ModesUnchanged()
      ensures old(Valid()) ==> Valid()
    {
      if currentTrack.None? {
        return;
      }
      isPlaying := !isPlaying;
    }

    /**
     * `playNext`. With shuffle on, `r` stands for `Math.floor(Math.random() * length)`.
     * The source fails on an empty selected playlist, so that is excluded.
     */
    method PlayNext(r: nat)
      requires |currentPlaylist.tracks| > 0
      requires isShuffled ==> r < |currentPlaylist.tracks|
      modifies this
      ensures var tracks := old(currentPlaylist.tracks);
              var next := if old(isShuffled) then tracks[r] else NextTrack(tracks, old(currentTrack));
              currentTrack == Some(next) && currentTime == 0 && duration == next.duration
      ensures isPlaying == old(isPlaying)
      ensures LibraryUnchanged() && FormUnchanged() && ModesUnchanged()
      ensures old(Valid()) ==> Valid()
    {
      var currentIndex := IndexOf(currentPlaylist.tracks, IdOf(currentTrack));
      var nextIndex: nat;
      if isShuffled {
        nextIndex := r;
      } else {
        nextIndex := NextIndex(currentIndex, |currentPlaylist.tracks|);
      }
      SelectTrack(currentPlaylist.tracks[nextIndex]);
    }

    /**
     * `playPrevious`. The source fails (index -2) unless the current track is
     * in the selected playlist, so that is required.
     */
    method PlayPrevious()
      requires IndexOf(currentPlaylist.tracks, IdOf(currentTrack)) >= 0
      modifies this
      ensures var prev := PrevTrack(old(currentPlaylist.tracks), old(currentTrack));
              currentTrack == Some(prev) && currentTime == 0 && duration == prev.duration
      ensures isPlaying == old(isPlaying)
      ensures LibraryUnchanged() && FormUnchanged() && ModesUnchanged()
      ensures old(Valid()) ==> Valid()
    {
      var currentIndex := IndexOf(currentPlaylist.tracks, IdOf(currentTrack));
      var prevIndex := PrevIndex(currentIndex, |currentPlaylist.tracks|);
      SelectTrack(currentPlaylist.tracks[prevIndex]);
    }

    /**
     * `removeTrack`. Nothing happens when the first track of the selected
     * playlist with this identifier is built in. Otherwise every track with the
     * identifier leaves the selected copy, that list is written into each
     * library playlist with the copy's identifier, and a removed current track
     * is replaced by the first remaining one, or cleared (and playback stopped)
     * when none remains. Elapsed time and duration are not reset.
     */
    method RemoveTrack(trackId: string)
      modifies this
      ensures var found := FindById(old(currentPlaylist.tracks), trackId);
              found.Some? && found.value.isBuiltIn ==> LibraryUnchanged() && TransportUnchanged()
      ensures var found := FindById(old(currentPlaylist.tracks), trackId);
              !(found.Some? && found.value.isBuiltIn) ==>
                var updated := WithoutId(old(currentPlaylist.tracks), trackId);
                && playlists == ReplaceTracks(old(playlists), old(currentPlaylist).id, updated)
                && currentPlaylist == old(currentPlaylist).(tracks := updated)
                && (if IdOf(old(currentTrack)) == Some(trackId) then
                      if |updated| > 0 then currentTrack == Some(updated[0]) && isPlaying == old(isPlaying)
                      else currentTrack == None && !isPlaying
                    else currentTrack == old(currentTrack) && isPlaying == old(isPlaying))
      ensures currentTime == old(currentTime) && duration == old(duration)
      ensures FormUnchanged()
      ensures ModesUnchanged()
      ensures old(Valid()) ==> Valid()
      ensures old(Valid()) ==> BuiltInsKept(old(playlists), playlists)
    {
      var trackToRemove := FindById(currentPlaylist.tracks, trackId);
      if trackToRemove.Some? && trackToRemove.value.isBuiltIn {
        return;
      }
      var updatedTracks := WithoutId(currentPlaylist.tracks, trackId);
      ghost var wasValid := Valid();
      ghost var library, copy := playlists, currentPlaylist;
      playlists := ReplaceTracks(playlists, currentPlaylist.id, updatedTracks);
      currentPlaylist := currentPlaylist.(tracks := updatedTracks);
      if currentTrack.Some? && currentTrack.value.id == trackId {
        if |updatedTracks| > 0 {
          currentTrack := Some(updatedTracks[0]);
        } else {
          currentTrack := None;
          isPlaying := false;
        }
      }
      if wasValid {
        RemoveKeepsInvariant(library, copy, trackId);
      }
    }

    /**
     * `createPlaylist` with `newId` for the generated identifier: nothing when
     * the typed name is blank after `trim`; otherwise one empty playlist with
     * the untrimmed name is appended and the form is reset and closed.
     */
    method CreatePlaylist(newId: string)
      modifies this
      ensures Trim(old(newPlaylistName)) == [] ==> LibraryUnchanged() && FormUnchanged()
      ensures Trim(old(newPlaylistName)) != [] ==>
                && playlists == old(playlists) + [Playlist(newId, old(newPlaylistName), [])]
                && currentPlaylist == old(currentPlaylist)
                && newPlaylistName == "" && !showCreatePlaylist
      ensures TransportUnchanged() && ModesUnchanged()
      ensures old(Valid()) && PlaylistIdUnused(old(playlists), newId) ==> Valid()
    {
      if Trim(newPlaylistName) == [] {
        return;
      }
      var newPlaylist := Playlist(newId, newPlaylistName, []);
      ghost var wasValid := Valid() && PlaylistIdUnused(playlists, newId);
      if wasValid {
        CreateKeepsInvariant(playlists, currentPlaylist, newPlaylist);
      }
      playlists := playlists + [newPlaylist];
      newPlaylistName := "";
      showCreatePlaylist := false;
    }

    /**
     * One file of `handleFileUpload`, with `newId` for the generated identifier,
     * `mimeType` for `file.type` and `url` for the object URL. Nothing happens
     * without an `uploaded` playlist or for a type not starting with `audio/`.
     * Otherwise a non-built-in track of unknown duration named after the file
     * (extension stripped) is appended to every playlist with identifier
     * `uploaded`; the selected copy becomes that one track only when the
     * `uploaded` playlist was empty and is the selected one; and the track is
     * selected only when none was.
     */
    method UploadFile(fileName: string, mimeType: string, newId: string, url: string)
      modifies this
      ensures var uploaded := FindPlaylist(old(playlists), UploadedPlaylistId);
              uploaded.None? || !StartsWith(mimeType, AudioTypePrefix) ==>
                LibraryUnchanged() && TransportUnchanged()
      ensures var uploaded := FindPlaylist(old(playlists), UploadedPlaylistId);
              uploaded.Some? && StartsWith(mimeType, AudioTypePrefix) ==>
                var track := Track(newId, StripExtension(fileName), UploadedArtist, url, 0, false);
                && playlists == AppendTrack(old(playlists), UploadedPlaylistId, track)
                && currentPlaylist == (if |uploaded.value.tracks| == 0 && old(currentPlaylist).id == UploadedPlaylistId
                                       then old(currentPlaylist).(tracks := [track])
                                       else old(currentPlaylist))
                && currentTrack == (if old(currentTrack).None? then Some(track) else old(currentTrack))
      ensures isPlaying == old(isPlaying) && currentTime == old(currentTime) && duration == old(duration)
      ensures FormUnchanged()
      ensures ModesUnchanged()
      ensures old(Valid()) && TrackIdUnused(old(playlists), newId) ==> Valid()
    {
      var uploadedPlaylist := FindPlaylist(playlists, UploadedPlaylistId);
      if uploadedPlaylist.None? {
        return;
      }
      if !StartsWith(mimeType, AudioTypePrefix) {
        return;
      }
      var track := Track(newId, StripExtension(fileName), UploadedArtist, url, 0, false);
      ghost var wasValid := Valid() && TrackIdUnused(playlists, newId);
      ghost var library, copy := playlists, currentPlaylist;
      playlists := AppendTrack(playlists, UploadedPlaylistId, track);
      if |uploadedPlaylist.value.tracks| == 0 && currentPlaylist.id == UploadedPlaylistId {
        currentPlaylist := currentPlaylist.(tracks := [track]);
      }
      if currentTrack.None? {
        currentTrack := Some(track);
      }
      if wasValid {
        UploadKeepsInvariant(library, copy, track);
      }
    }

    /** Clicking a playlist: the selected copy becomes that playlist. */
    method SelectPlaylist(k: nat)
      requires k < |playlists|
      modifies this
      ensures currentPlaylist == old(playlists)[k]
      ensures playlists == old(playlists)
      ensures FormUnchanged()
      ensures TransportUnchanged() && ModesUnchanged()
      ensures old(Valid()) ==> Valid()
    {
      ghost var wasValid := Valid();
      if wasValid {
        SelectKeepsInvariant(playlists, currentPlaylist, k);
      }
      currentPlaylist := playlists[k];
    }

    /** The shuffle button flips the shuffle flag. */
    method ToggleShuffle()
      modifies this
      ensures isShuffled == !old(isShuffled) && isRepeat == old(isRepeat)
      ensures LibraryUnchanged() && FormUnchanged() && TransportUnchanged()
      ensures old(Valid()) ==> Valid()
    {
      isShuffled := !isShuffled;
    }

    /** The repeat button flips the repeat flag. */
    method ToggleRepeat()
      modifies this
      ensures isRepeat == !old(isRepeat) && isShuffled == old(isShuffled)
      ensures LibraryUnchanged() && FormUnchanged() && TransportUnchanged()
      ensures old(Valid()) ==> Valid()
    {
      isRepeat := !isRepeat;
    }

    /** Typing into the new-playlist field. */
    method SetNewPlaylistName(name: string)
      modifies this
      ensures newPlaylistName == name
      ensures playlists == old(playlists) && currentPlaylist == old(currentPlaylist)
      ensures showCreatePlaylist == old(showCreatePlaylist)
      ensures TransportUnchanged() && ModesUnchanged()
      ensures old(Valid()) ==> Valid()
    {
      newPlaylistName := name;
    }
  }

  /** The built-in catalogue has nineteen protected tracks without a source, numbered `builtin1` to `builtin19`. */
  lemma BuiltInTracksShape()
    ensures |BuiltInTracks| == 19
    ensures forall k :: 0 <= k < |BuiltInTracks| ==> BuiltInTracks[k].id == "builtin" + Decimal(k + 1)
    ensures forall t :: t in BuiltInTracks ==> t.isBuiltIn && t.url == ""
  {
  }

  /** The built-in tracks' identifiers are distinct. */
  lemma BuiltInTracksUnique()
    ensures UniqueTrackIds(BuiltInTracks)
  {
    BuiltInTracksShape();
    forall i, j | 0 <= i < j < |BuiltInTracks| ensures BuiltInTracks[i].id != BuiltInTracks[j].id {
      DecimalRoundTrip(i + 1);
      DecimalRoundTrip(j + 1);
      assert BuiltInTracks[i].id[7..] == Decimal(i + 1);
      assert BuiltInTracks[j].id[7..] == Decimal(j + 1);
    }
  }
  /** The starting library and selection satisfy the session invariant. */
  lemma InitialInvariant()
    ensures SessionInvariant([Playlist(MainPlaylistId, MainPlaylistName, BuiltInTracks),
                              Playlist(UploadedPlaylistId, UploadedPlaylistName, [])],
                             Playlist(MainPlaylistId, MainPlaylistName, BuiltInTracks))
  {
    var playlists := [Playlist(MainPlaylistId, MainPlaylistName, BuiltInTracks),
                      Playlist(UploadedPlaylistId, UploadedPlaylistName, [])];
    BuiltInTracksShape();
    BuiltInTracksUnique();
    forall i, a, j, b |
      0 <= i < |playlists| && 0 <= j < |playlists| &&
      0 <= a < |playlists[i].tracks| && 0 <= b < |playlists[j].tracks| && (i != j || a != b)
      ensures playlists[i].tracks[a].id != playlists[j].tracks[b].id
    {
      assert i == 0 && j == 0;
      if a > b {
        assert BuiltInTracks[b].id != BuiltInTracks[a].id;
      }
    }
  }

  /** Library-wide uniqueness gives uniqueness within each playlist. */
  lemma LibraryUniqueWithin(playlists: seq<Playlist>, i: nat)
    requires LibraryTrackIdsUnique(playlists) && i < |playlists|
    ensures UniqueTrackIds(playlists[i].tracks)
  {
    forall a, b | 0 <= a < b < |playlists[i].tracks|
      ensures playlists[i].tracks[a].id != playlists[i].tracks[b].id
    {
    }
  }

  /** A rewrite that keeps every playlist's identifier keeps the library's identifiers unique and findable. */
  lemma SameIdsAfterRewrite(before: seq<Playlist>, after: seq<Playlist>)
    requires |before| == |after|
    requires forall i :: 0 <= i < |before| ==> after[i].id == before[i].id
    ensures UniquePlaylistIds(before) ==> UniquePlaylistIds(after)
    ensures forall id :: FindPlaylist(before, id).Some? ==> FindPlaylist(after, id).Some?
  {
  }

  /**
   * A track of the list `removeTrack` writes back and a track of any other
   * playlist have different identifiers: the written-back tracks come from
   * the copy, so they lie in the copy's own library playlist `k`.
   */
  lemma RemovedListApart(playlists: seq<Playlist>, current: Playlist, id: string, k: nat, a: nat, j: nat, b: nat)
    requires SessionInvariant(playlists, current)
    requires k < |playlists| && playlists[k].id == current.id
    requires j < |playlists| && j != k && b < |playlists[j].tracks|
    requires a < |WithoutId(current.tracks, id)|
    ensures WithoutId(current.tracks, id)[a].id != playlists[j].tracks[b].id
  {
    var t := WithoutId(current.tracks, id)[a];
    WithoutIdMembers(current.tracks, id);
    assert t in current.tracks;
    var a' :| 0 <= a' < |current.tracks| && current.tracks[a'] == t;
    assert t in playlists[k].tracks;
    var c :| 0 <= c < |playlists[k].tracks| && playlists[k].tracks[c] == t;
  }

  /**
   * `removeTrack` past its guard keeps the session invariant and drops no
   * built-in track from any playlist.
   */
  lemma RemoveKeepsInvariant(playlists: seq<Playlist>, current: Playlist, id: string)
    requires SessionInvariant(playlists, current)
    requires FindById(current.tracks, id).Some? ==> !FindById(current.tracks, id).value.isBuiltIn
    ensures var updated := WithoutId(current.tracks, id);
            var after := ReplaceTracks(playlists, current.id, updated);
            SessionInvariant(after, current.(tracks := updated)) && BuiltInsKept(playlists, after)
  {
    var updated := WithoutId(current.tracks, id);
    var after := ReplaceTracks(playlists, current.id, updated);
    RemoveKeepsBuiltIns(playlists, current, id);
    WithoutIdKeepsUnique(current.tracks, id);
    SameIdsAfterRewrite(playlists, after);
    RemoveKeepsLibraryUnique(playlists, current, id);
  }

  /** The library rewrite of `removeTrack` keeps track identifiers unique across the library. */
  lemma RemoveKeepsLibraryUnique(playlists: seq<Playlist>, current: Playlist, id: string)
    requires SessionInvariant(playlists, current)
    ensures LibraryTrackIdsUnique(ReplaceTracks(playlists, current.id, WithoutId(current.tracks, id)))
  {
    var updated := WithoutId(current.tracks, id);
    var after := ReplaceTracks(playlists, current.id, updated);
    WithoutIdKeepsUnique(current.tracks, id);
    var k :| 0 <= k < |playlists| && playlists[k].id == current.id;
    forall i, a, j, b |
      0 <= i < |after| && 0 <= j < |after| &&
      0 <= a < |after[i].tracks| && 0 <= b < |after[j].tracks| && (i != j || a != b)
      ensures after[i].tracks[a].id != after[j].tracks[b].id
    {
      if i == k && j == k {
        assert updated[a].id != updated[b].id by {
          if a > b { assert updated[b].id != updated[a].id; }
        }
      } else if i == k {
        RemovedListApart(playlists, current, id, k, a, j, b);
      } else if j == k {
        RemovedListApart(playlists, current, id, k, b, i, a);
      } else {
        assert after[i] == playlists[i] && after[j] == playlists[j];
      }
    }
  }

  /** Appending an empty playlist under an unused identifier keeps the session invariant. */
  lemma CreateKeepsInvariant(playlists: seq<Playlist>, current: Playlist, created: Playlist)
    requires SessionInvariant(playlists, current)
    requires created.tracks == [] && PlaylistIdUnused(playlists, created.id)
    ensures SessionInvariant(playlists + [created], current)
  {
    var after := playlists + [created];
    var p := FindPlaylist(playlists, current.id).value;
    var i :| 0 <= i < |playlists| && playlists[i] == p;
    assert after[i] == p;
    assert created.id != current.id;
    forall i, a, j, b |
      0 <= i < |after| && 0 <= j < |after| &&
      0 <= a < |after[i].tracks| && 0 <= b < |after[j].tracks| && (i != j || a != b)
      ensures after[i].tracks[a].id != after[j].tracks[b].id
    {
      assert i < |playlists| && j < |playlists|;
      assert after[i] == playlists[i] && after[j] == playlists[j];
    }
  }

  /**
   * A slot of the library after an upload holds the track that was there
   * before, or the uploaded track at the end of an `uploaded` playlist.
   */
  lemma UploadSlot(playlists: seq<Playlist>, track: Track, i: nat, a: nat)
    requires i < |playlists|
    requires a < |AppendTrack(playlists, UploadedPlaylistId, track)[i].tracks|
    ensures var after := AppendTrack(playlists, UploadedPlaylistId, track);
            if a < |playlists[i].tracks| then after[i].tracks[a] == playlists[i].tracks[a]
            else playlists[i].id == UploadedPlaylistId && a == |playlists[i].tracks| && after[i].tracks[a] == track
  {
  }

  /**
   * Uploading a non-built-in track under an unused identifier keeps the
   * session invariant, including when the selected copy is replaced by the
   * one new track.
   */
  lemma UploadKeepsInvariant(playlists: seq<Playlist>, current: Playlist, track: Track)
    requires SessionInvariant(playlists, current)
    requires TrackIdUnused(playlists, track.id) && !track.isBuiltIn
    requires FindPlaylist(playlists, UploadedPlaylistId).Some?
    ensures var after := AppendTrack(playlists, UploadedPlaylistId, track);
            var uploaded := FindPlaylist(playlists, UploadedPlaylistId).value;
            var selected := if |uploaded.tracks| == 0 && current.id == UploadedPlaylistId
                            then current.(tracks := [track]) else current;
            SessionInvariant(after, selected)
  {
    var after := AppendTrack(playlists, UploadedPlaylistId, track);
    var uploaded := FindPlaylist(playlists, UploadedPlaylistId).value;
    var selected := if |uploaded.tracks| == 0 && current.id == UploadedPlaylistId
                    then current.(tracks := [track]) else current;
    SameIdsAfterRewrite(playlists, after);
    forall i, a, j, b |
      0 <= i < |after| && 0 <= j < |after| &&
      0 <= a < |after[i].tracks| && 0 <= b < |after[j].tracks| && (i != j || a != b)
      ensures after[i].tracks[a].id != after[j].tracks[b].id
    {
      UploadSlot(playlists, track, i, a);
      UploadSlot(playlists, track, j, b);
      if a < |playlists[i].tracks| && b < |playlists[j].tracks| {
      } else if a < |playlists[i].tracks| {
        assert playlists[i].tracks[a].id != track.id;
      } else if b < |playlists[j].tracks| {
        assert playlists[j].tracks[b].id != track.id;
      }
    }
    forall i, a | 0 <= i < |after| && after[i].id == selected.id && 0 <= a < |selected.tracks|
      ensures selected.tracks[a] in after[i].tracks
    {
      if selected == current {
        assert current.tracks[a] in playlists[i].tracks;
      } else {
        assert playlists[i] == uploaded;
        assert after[i].tracks == [track];
      }
    }
    forall i, t | 0 <= i < |after| && after[i].id == selected.id && t in after[i].tracks && t.isBuiltIn
      ensures t in selected.tracks
    {
      assert t in playlists[i].tracks;
    }
  }

  /** Selecting a library playlist keeps the session invariant. */
  lemma SelectKeepsInvariant(playlists: seq<Playlist>, current: Playlist, k: nat)
    requires SessionInvariant(playlists, current) && k < |playlists|
    ensures SessionInvariant(playlists, playlists[k])
  {
    LibraryUniqueWithin(playlists, k);
    var selected := playlists[k];
    forall i, a | 0 <= i < |playlists| && playlists[i].id == selected.id && 0 <= a < |selected.tracks|
      ensures selected.tracks[a] in playlists[i].tracks
    {
      assert i == k;
    }
  }
  /**
   * The selected copy is not refreshed by an upload into a non-empty
   * `uploaded` playlist, so a later `removeTrack` there writes the stale copy
   * back into the library and the uploaded track disappears from it.
   */
  lemma StaleCopyLosesUpload(playlists: seq<Playlist>, current: Playlist, track: Track, id: string)
    requires UniquePlaylistIds(playlists)
    requires current.id == UploadedPlaylistId
    requires forall j :: 0 <= j < |current.tracks| ==> current.tracks[j].id != track.id
    ensures var afterUpload := AppendTrack(playlists, UploadedPlaylistId, track);
            var afterRemove := ReplaceTracks(afterUpload, current.id, WithoutId(current.tracks, id));
            var found := FindPlaylist(afterRemove, UploadedPlaylistId);
            FindPlaylist(playlists, UploadedPlaylistId).Some? ==> found.Some? && track !in found.value.tracks
  {
    var afterUpload := AppendTrack(playlists, UploadedPlaylistId, track);
    var updated := WithoutId(current.tracks, id);
    assert UniquePlaylistIds(afterUpload);
    FindAfterAppend(playlists, UploadedPlaylistId, track);
    FindAfterReplace(afterUpload, UploadedPlaylistId, updated);
    WithoutIdMembers(current.tracks, id);
  }
}
