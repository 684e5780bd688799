/**
 * The list operations the page's handlers are built from: `findIndex`,
 * `find`, `filter` and the `map` that rewrites one playlist of the library.
 */
module TrackLists {
  import opened PlayerTypes

  /**
   * `tracks.findIndex(t => t.id === key)`: the first position whose track
   * has the key, or -1. A key of `None` (no current track) matches nothing.
   */
  function IndexOf(tracks: seq<Track>, key: Option<string>): (r: int)
    ensures -1 <= r < |tracks|
    ensures 0 <= r ==> Some(tracks[r].id) == key
    ensures 0 <= r ==> forall j :: 0 <= j < r ==> Some(tracks[j].id) != key
    ensures r == -1 <==> forall j :: 0 <= j < |tracks| ==> Some(tracks[j].id) != key
  {
    if |tracks| == 0 then -1
    else if Some(tracks[0].id) == key then 0
    else
      var k := IndexOf(tracks[1..], key);
      if k == -1 then -1 else k + 1
  }

  /** With unique identifiers, a track is found exactly where it stands. */
  lemma IndexOfUnique(tracks: seq<Track>, i: nat)
    requires UniqueTrackIds(tracks) && i < |tracks|
    ensures IndexOf(tracks, Some(tracks[i].id)) == i
  {
  }

  /** `tracks.find(t => t.id === id)`: the first track with the identifier, if any. */
  function FindById(tracks: seq<Track>, id: string): (r: Option<Track>)
    ensures r.None? <==> forall j :: 0 <= j < |tracks| ==> tracks[j].id != id
    ensures r.Some? ==> r.value.id == id && r.value in tracks
    ensures r.Some? ==> exists i :: 0 <= i < |tracks| && r.value == tracks[i] && forall j :: 0 <= j < i ==> tracks[j].id != id
    ensures UniqueTrackIds(tracks) ==>
              forall j :: 0 <= j < |tracks| && tracks[j].id == id ==> r == Some(tracks[j])
  {
    var i := IndexOf(tracks, Some(id));
    if i == -1 then None else Some(tracks[i])
  }

  /** `tracks.filter(t => t.id !== id)`. */
  function WithoutId(tracks: seq<Track>, id: string): (r: seq<Track>)
    ensures |r| <= |tracks|
  {
    if |tracks| == 0 then []
    else (if tracks[0].id == id then [] else [tracks[0]]) + WithoutId(tracks[1..], id)
  }

  /** The filter keeps exactly the tracks whose identifier differs from `id`. */
  lemma {:induction false} WithoutIdMembers(tracks: seq<Track>, id: string)
    ensures forall t :: t in WithoutId(tracks, id) <==> t in tracks && t.id != id
  {
    if |tracks| > 0 {
      WithoutIdMembers(tracks[1..], id);
      assert tracks == [tracks[0]] + tracks[1..];
    }
  }

  /** Filtering distributes over concatenation: the kept tracks keep their relative order. */
  lemma {:induction false} WithoutIdConcat(a: seq<Track>, b: seq<Track>, id: string)
    ensures WithoutId(a + b, id) == WithoutId(a, id) + WithoutId(b, id)
  {
    if a == [] {
      assert a + b == b;
    } else {
      assert (a + b)[0] == a[0];
      assert (a + b)[1..] == a[1..] + b;
      WithoutIdConcat(a[1..], b, id);
    }
  }

  /** A list none of whose tracks carries the identifier is left as it is. */
  lemma {:induction false} WithoutIdAbsent(tracks: seq<Track>, id: string)
    requires forall j :: 0 <= j < |tracks| ==> tracks[j].id != id
    ensures WithoutId(tracks, id) == tracks
  {
    if tracks != [] {
      WithoutIdAbsent(tracks[1..], id);
    }
  }

  /**
   * With unique identifiers, removing the identifier of the track at `i`
   * removes exactly that position and leaves the rest in order.
   */
  lemma {:induction false} WithoutIdAt(tracks: seq<Track>, i: nat)
    requires UniqueTrackIds(tracks) && i < |tracks|
    ensures WithoutId(tracks, tracks[i].id) == tracks[..i] + tracks[i + 1..]
  {
    var id := tracks[i].id;
    var rest := tracks[1..];
    if i == 0 {
      assert forall j :: 0 <= j < |rest| ==> rest[j] == tracks[j + 1];
      WithoutIdAbsent(rest, id);
    } else {
      assert tracks[0].id != id;
      assert UniqueTrackIds(rest);
      assert rest[i - 1] == tracks[i];
      WithoutIdAt(rest, i - 1);
      assert rest[..i - 1] == tracks[1..i];
      assert rest[i..] == tracks[i + 1..];
      assert tracks[..i] == [tracks[0]] + tracks[1..i];
    }
  }

  /** Filtering keeps identifiers unique. */
  lemma {:induction false} WithoutIdKeepsUnique(tracks: seq<Track>, id: string)
    requires UniqueTrackIds(tracks)
    ensures UniqueTrackIds(WithoutId(tracks, id))
  {
    if tracks != [] {
      var rest := tracks[1..];
      assert UniqueTrackIds(rest);
      WithoutIdKeepsUnique(rest, id);
      WithoutIdMembers(rest, id);
      var tail := WithoutId(rest, id);
      forall t | t in tail ensures t.id != tracks[0].id {
        var k :| 0 <= k < |rest| && rest[k] == t;
        assert tracks[k + 1] == t;
      }
    }
  }

  /** `playlists.map(p => p.id === id ? { ...p, tracks } : p)`. */
  function ReplaceTracks(playlists: seq<Playlist>, id: string, tracks: seq<Track>): seq<Playlist>
  {
    seq(|playlists|, i requires 0 <= i < |playlists| =>
      if playlists[i].id == id then playlists[i].(tracks := tracks) else playlists[i])
  }

  /** `playlists.map(p => p.id === id ? { ...p, tracks: [...p.tracks, t] } : p)`. */
  function AppendTrack(playlists: seq<Playlist>, id: string, t: Track): seq<Playlist>
  {
    seq(|playlists|, i requires 0 <= i < |playlists| =>
      if playlists[i].id == id then playlists[i].(tracks := playlists[i].tracks + [t]) else playlists[i])
  }

  /** `playlists.find(p => p.id === id)`. */
  function FindPlaylist(playlists: seq<Playlist>, id: string): (r: Option<Playlist>)
    ensures r.None? <==> forall j :: 0 <= j < |playlists| ==> playlists[j].id != id
    ensures r.Some? ==> r.value.id == id && r.value in playlists
    ensures UniquePlaylistIds(playlists) ==>
              forall j :: 0 <= j < |playlists| && playlists[j].id == id ==> r == Some(playlists[j])
  {
    if |playlists| == 0 then None
    else if playlists[0].id == id then Some(playlists[0])
    else FindPlaylist(playlists[1..], id)
  }

  /** `find` returns the first playlist with the identifier, even when identifiers repeat. */
  lemma {:induction false} FindPlaylistFirst(playlists: seq<Playlist>, id: string)
    ensures var r := FindPlaylist(playlists, id);
            r.Some? ==> exists i :: 0 <= i < |playlists| && r.value == playlists[i] &&
                                   forall j :: 0 <= j < i ==> playlists[j].id != id
  {
    if |playlists| > 0 && playlists[0].id != id {
      var rest := playlists[1..];
      FindPlaylistFirst(rest, id);
      var r := FindPlaylist(rest, id);
      if r.Some? {
        var i :| 0 <= i < |rest| && r.value == rest[i] && forall j :: 0 <= j < i ==> rest[j].id != id;
        assert r.value == playlists[i + 1];
        assert forall j :: 0 <= j < i + 1 ==> playlists[j].id != id by {
          forall j | 0 < j < i + 1 ensures playlists[j].id != id {
            assert playlists[j] == rest[j - 1];
          }
        }
      }
    }
  }

  /** After the rewrite the playlist with identifier `id` is found with the new tracks. */
  lemma FindAfterReplace(playlists: seq<Playlist>, id: string, tracks: seq<Track>)
    requires UniquePlaylistIds(playlists)
    ensures var before := FindPlaylist(playlists, id);
            before.Some? ==>
              FindPlaylist(ReplaceTracks(playlists, id, tracks), id) == Some(before.value.(tracks := tracks))
  {
    var after := ReplaceTracks(playlists, id, tracks);
    if FindPlaylist(playlists, id).Some? {
      var i :| 0 <= i < |playlists| && playlists[i].id == id;
      assert UniquePlaylistIds(after);
      assert after[i] == playlists[i].(tracks := tracks);
    }
  }

  /** The rewrite of playlist `id` leaves what every other identifier finds as it was. */
  lemma FindOtherAfterReplace(playlists: seq<Playlist>, id: string, tracks: seq<Track>, other: string)
    requires UniquePlaylistIds(playlists) && other != id
    ensures FindPlaylist(ReplaceTracks(playlists, id, tracks), other) == FindPlaylist(playlists, other)
  {
    var after := ReplaceTracks(playlists, id, tracks);
    if FindPlaylist(playlists, other).Some? {
      var i :| 0 <= i < |playlists| && playlists[i].id == other;
      assert UniquePlaylistIds(after);
      assert after[i] == playlists[i];
    }
  }

  /** After the append the playlist with identifier `id` is found with `t` added at its end. */
  lemma FindAfterAppend(playlists: seq<Playlist>, id: string, t: Track)
    requires UniquePlaylistIds(playlists)
    ensures var before := FindPlaylist(playlists, id);
            before.Some? ==>
              FindPlaylist(AppendTrack(playlists, id, t), id) == Some(before.value.(tracks := before.value.tracks + [t]))
  {
    var after := AppendTrack(playlists, id, t);
    if FindPlaylist(playlists, id).Some? {
      var i :| 0 <= i < |playlists| && playlists[i].id == id;
      assert UniquePlaylistIds(after);
      assert after[i] == playlists[i].(tracks := playlists[i].tracks + [t]);
    }
  }

  /** The append to playlist `id` leaves what every other identifier finds as it was. */
  lemma FindOtherAfterAppend(playlists: seq<Playlist>, id: string, t: Track, other: string)
    requires UniquePlaylistIds(playlists) && other != id
    ensures FindPlaylist(AppendTrack(playlists, id, t), other) == FindPlaylist(playlists, other)
  {
    var after := AppendTrack(playlists, id, t);
    if FindPlaylist(playlists, other).Some? {
      var i :| 0 <= i < |playlists| && playlists[i].id == other;
      assert UniquePlaylistIds(after);
      assert after[i] == playlists[i];
    }
  }

  /** Every built-in track of every playlist is still in the same playlist afterwards. */
  ghost predicate BuiltInsKept(before: seq<Playlist>, after: seq<Playlist>)
  {
    && |after| == |before|
    && forall i, t :: 0 <= i < |before| && t in before[i].tracks && t.isBuiltIn ==> t in after[i].tracks
  }

  /**
   * The library rewrite of `removeTrack` never drops a built-in track, provided
   * the selected playlist's copy has unique identifiers and holds every built-in
   * track of the library playlists that share its identifier, and the guard did
   * not find a built-in track under `id`.
   */
  lemma RemoveKeepsBuiltIns(playlists: seq<Playlist>, current: Playlist, id: string)
    requires UniqueTrackIds(current.tracks)
    requires forall i, t :: 0 <= i < |playlists| && playlists[i].id == current.id && t in playlists[i].tracks && t.isBuiltIn ==>
               t in current.tracks
    requires FindById(current.tracks, id).Some? ==> !FindById(current.tracks, id).value.isBuiltIn
    ensures BuiltInsKept(playlists, ReplaceTracks(playlists, current.id, WithoutId(current.tracks, id)))
  {
    var updated := WithoutId(current.tracks, id);
    var after := ReplaceTracks(playlists, current.id, updated);
    WithoutIdMembers(current.tracks, id);
    forall i, t | 0 <= i < |playlists| && t in playlists[i].tracks && t.isBuiltIn
      ensures t in after[i].tracks
    {
      if playlists[i].id == current.id {
        assert t in current.tracks;
        var k :| 0 <= k < |current.tracks| && current.tracks[k] == t;
        assert FindById(current.tracks, t.id) == Some(t);
        assert t.id != id;
      }
    }
  }
}
