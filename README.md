# Music player session: a Dafny model

This project models the playlist and transport logic of the music player page `src/pages/Index.tsx`. The page is a React component. It keeps a library of playlists and a copy of the selected playlist. It also keeps the transport: selected track, play flag, elapsed time, duration, shuffle and repeat. The click handlers update this state through setters.

The model has five modules:

- `PlayerTypes` (`player_types.dfy`): the `Track` and `Playlist` records, `Option`, and the uniqueness predicates for identifiers.
- `TrackLists` (`track_lists.dfy`): the list expressions the handlers are built from. These are `findIndex`, `find`, the `filter` in `removeTrack`, and the two `map` rewrites of the library. The lemmas cover what each expression keeps, drops and finds.
- `TextFormat` (`text_format.dfy`):
  - the file-name extension strip `name.replace(/\.[^/.]+$/, '')`, stated against a predicate for where the regular expression matches;
  - `trim` and the blank-name test;
  - the `audio/` prefix test;
  - `formatTime` over whole seconds, with a round trip through a parser for `m:ss`.
- `Transport` (`transport.dfy`):
  - the next and previous positions of `playNext` and `playPrevious`, with wrap-around and the -1 of a missing track;
  - iterated `playNext`, which, when the playlist's track identifiers are unique (as `SessionInvariant` guarantees for the selected copy), returns to its start after as many calls as the list has tracks;
  - the one-second step of the simulated-playback timer and runs of it.
- `PlayerSession` (`session.dfy`):
  - the 19 built-in demo tracks and the starting state;
  - the class `Session`, whose fields are the page's state variables and whose methods are the handlers;
  - `SessionInvariant` and pure lemmas showing each handler preserves it. The invariant says playlist identifiers are unique, track identifiers are unique across the whole library, the selected playlist comes from the library, and the selected copy holds only tracks of its library playlist and all of that playlist's built-in tracks.

Values the page draws from the browser are method parameters:

- `newId` stands for the generated identifiers `Math.random().toString(36).substr(2, 9)`. A fresh identifier is not a precondition. Each invariant-preservation postcondition is conditional on the identifier being unused.
- `r` stands for `Math.floor(Math.random() * length)` of the shuffle branch. The source guarantees `r < length`, so that is a precondition.
- `mimeType` stands for `file.type`.
- `url` stands for `URL.createObjectURL(file)`.

In these places the code differs from what one would expect of a player (navigation as a no-op on an empty list, playback forced on, a fresh clock for a new track, a repeating track restarting). The model follows the code:

- Navigation on an empty playlist is not a no-op. `playNext` computes `% 0` and passes `undefined` to `selectTrack`, which then dereferences it. So `PlayNext` requires a non-empty selected copy.
- `PlayPrevious` requires the current track to be in the selected copy. Otherwise `findIndex` gives -1, the index becomes -2, and `selectTrack` receives `undefined`.
- Navigation does not force the play flag on. `selectTrack` leaves `isPlaying` as it is, and the model does the same.
- Removing the current track does not reset the elapsed time or duration. `removeTrack` calls `setCurrentTrack` directly.
- Under repeat, the simulated timer at the end of a track clears its own interval and sets the time to 0. Simulated playback therefore stops rather than restarting the track (`Transport.Tick`, `Transport.RunTimerFrom`).
- The selected playlist is a copy. Apart from selecting a playlist, which takes the library's current version (`Session.SelectPlaylist`), only two handlers refresh it:
  - `removeTrack`, which rewrites it;
  - an upload, but only when the `uploaded` playlist was empty.

  An upload into a non-empty, selected `uploaded` playlist leaves the copy stale. A later `removeTrack` there writes the stale copy back into the library and the uploaded track is lost (`PlayerSession.StaleCopyLosesUpload`). The model keeps this behaviour.

## Model

| member | source | states |
|---|---|---|
| PlayerTypes.IdOf | src/pages/Index.tsx:155 | The key `currentTrack?.id`: it is absent for no current track, so that a missing track matches no identifier in `findIndex` (lines 248, 261) or in the comparison of `removeTrack` (line 155). |
| TrackLists.IndexOf | src/pages/Index.tsx:248 | The result is -1 exactly when no track has the key. Otherwise it is the first position whose track has the key. A missing current track (key `None`) matches nothing. |
| TrackLists.IndexOfUnique | src/pages/Index.tsx:248 | With unique identifiers, looking up a track's own identifier gives that track's position. |
| TrackLists.FindById | src/pages/Index.tsx:142 | `find` returns nothing exactly when no track has the identifier. Otherwise it returns the first track with that identifier, even when identifiers repeat; with unique identifiers that is the only one. |
| TrackLists.WithoutId | src/pages/Index.tsx:145 | The filtered list is never longer than the original. |
| TrackLists.WithoutIdMembers | src/pages/Index.tsx:145 | A track is in the filtered list exactly when it was in the list and its identifier differs from the removed one. |
| TrackLists.WithoutIdConcat | src/pages/Index.tsx:145 | Filtering distributes over concatenation, so the kept tracks keep their relative order. |
| TrackLists.WithoutIdAbsent | src/pages/Index.tsx:145 | Filtering an identifier that no track carries returns the list unchanged. |
| TrackLists.WithoutIdAt | src/pages/Index.tsx:145 | With unique identifiers, removing the identifier of the track at position i gives exactly the list without position i, the rest in order. |
| TrackLists.WithoutIdKeepsUnique | src/pages/Index.tsx:145 | Filtering keeps track identifiers unique. |
| TrackLists.FindPlaylist | src/pages/Index.tsx:103 | The playlist lookup returns nothing exactly when no playlist has the identifier. Otherwise it returns a library member with that identifier, the only one when identifiers are unique. |
| TrackLists.FindPlaylistFirst | src/pages/Index.tsx:103 | The playlist `find` returns the first library playlist with the identifier, even when identifiers repeat. |
| TrackLists.ReplaceTracks | src/pages/Index.tsx:147-151 | The `removeTrack` map: every playlist with the identifier gets the new track list, the others are kept. What it does to lookups is stated by `FindAfterReplace` and `FindOtherAfterReplace`. |
| TrackLists.AppendTrack | src/pages/Index.tsx:119-123 | The upload map: every playlist with the identifier gets the track added at its end, the others are kept. What it does to lookups is stated by `FindAfterAppend` and `FindOtherAfterAppend`. |
| TrackLists.FindAfterReplace | src/pages/Index.tsx:147-151 | After the `removeTrack` map, the playlist with the selected identifier holds exactly the new track list. |
| TrackLists.FindOtherAfterReplace | src/pages/Index.tsx:147-151 | After the `removeTrack` map, every other identifier finds the same playlist as before. |
| TrackLists.FindAfterAppend | src/pages/Index.tsx:119-123 | After the upload map, the `uploaded` playlist holds its old tracks followed by the new one. |
| TrackLists.FindOtherAfterAppend | src/pages/Index.tsx:119-123 | After the upload map, every other identifier finds the same playlist as before. |
| TrackLists.RemoveKeepsBuiltIns | src/pages/Index.tsx:141-151 | Suppose the guard found no built-in track under the identifier, and the selected copy holds its library playlist's built-in tracks. Then the library rewrite keeps every built-in track of every playlist. |
| TextFormat.LastDotOrSlash | src/pages/Index.tsx:111 | Finds the last dot or slash of the name, with only extension characters after it, or reports that there is none. |
| TextFormat.ExtensionAtUnique | src/pages/Index.tsx:111 | The expression `\.[^/.]+$` matches a name at most at one position. |
| TextFormat.StripExtension | src/pages/Index.tsx:111 | If `\.[^/.]+$` matches at position p, the result is the name up to p. If it matches nowhere, the result is the whole name. |
| TextFormat.StripExtensionShape | src/pages/Index.tsx:111 | The result is the name itself, or a proper prefix of it followed by a dot and a non-empty extension free of dots and slashes. |
| TextFormat.StripExtensionExamples | src/pages/Index.tsx:111 | `song.mp3` gives `song`; `a.b.c` gives `a.b`; `file.`, `track` and `v1.0/readme` are unchanged. |
| TextFormat.StartsWith | src/pages/Index.tsx:107 | `file.type.startsWith('audio/')`: the prefix test of the type. |
| TextFormat.IsWhiteSpace | src/pages/Index.tsx:308 | The characters `trim` removes: the WhiteSpace and LineTerminator sets of the ECMAScript standard, listed exhaustively: U+0009 to U+000D (tab, line feed, vertical tab, form feed, carriage return), space, no-break space, U+FEFF, the other space separators of Unicode category Zs, and the line and paragraph separators U+2028 and U+2029. |
| TextFormat.TrimStart | src/pages/Index.tsx:308 | The leading half of `trim`. What it drops is stated by `TrimStartShape`. |
| TextFormat.TrimEnd | src/pages/Index.tsx:308 | The trailing half of `trim`. What it drops is stated by `TrimEndShape`. |
| TextFormat.Trim | src/pages/Index.tsx:308 | `String.prototype.trim`, leading then trailing. When it is empty is stated by `TrimEmptyIffBlank`. |
| TextFormat.TrimStartShape | src/pages/Index.tsx:308 | Leading trimming drops a prefix of white space only and stops at a character that is not white space. |
| TextFormat.TrimEndShape | src/pages/Index.tsx:308 | Trailing trimming drops a suffix of white space only and stops at a character that is not white space. |
| TextFormat.TrimEmptyIffBlank | src/pages/Index.tsx:308 | `!name.trim()` holds exactly when every character of the name is ECMAScript white space or a line terminator. |
| TextFormat.DigitChar | src/pages/Index.tsx:303 | A digit value below ten gives the decimal digit character with that value. |
| TextFormat.Decimal | src/pages/Index.tsx:303 | A whole number prints as one or more decimal digits without a leading zero. |
| TextFormat.DecimalRoundTrip | src/pages/Index.tsx:303 | Reading the printed digits back gives the number. |
| TextFormat.DecimalLength | src/pages/Index.tsx:303 | Values below ten print one digit; values from ten to 99 print two. |
| TextFormat.PadStart2 | src/pages/Index.tsx:304 | `padStart(2, '0')`. What it yields for seconds below 60 is stated by `PaddedSecondsRoundTrip`. |
| TextFormat.PaddedSecondsRoundTrip | src/pages/Index.tsx:303-304 | A seconds value below 60, padded with `padStart(2, '0')`, is exactly two digits that read back as the value. |
| TextFormat.FormatTime | src/pages/Index.tsx:301-305 | `formatTime` over whole seconds: minutes, a colon, and the remaining seconds padded to two digits. Its meaning is stated by `FormatTimeRoundTrip` against the separate parser `ParseTime`. |
| TextFormat.FormatTimeRoundTrip | src/pages/Index.tsx:301-305 | `formatTime(s)` parses back, as minutes, a colon and two-digit seconds below 60, to s. |
| TextFormat.FormatTimeShape | src/pages/Index.tsx:301-305 | The output is minute digits, a colon, then exactly two digits. |
| TextFormat.FormatTimeInjective | src/pages/Index.tsx:301-305 | Different times render to different strings. |
| TextFormat.FormatTimeExamples | src/pages/Index.tsx:301-305 | 213 seconds renders as `3:33` and 65 as `1:05`. |
| Transport.NextIndex | src/pages/Index.tsx:254 | `(currentIndex + 1) % length` is a valid position, including for a `findIndex` result of -1. |
| Transport.PrevIndex | src/pages/Index.tsx:262 | The previous position is a valid position. |
| Transport.NextIndexWraps | src/pages/Index.tsx:254 | The next position is one further on, or 0 after the last position. |
| Transport.NextPrevInverse | src/pages/Index.tsx:254-262 | The previous position of the next position is the start, and the next position of the previous position is the start. |
| Transport.AdvanceBy | src/pages/Index.tsx:254 | k successive next positions stay within the list. |
| Transport.AdvanceByAdd | src/pages/Index.tsx:254 | a advances followed by b advances equal a + b advances. |
| Transport.AdvanceByStraight | src/pages/Index.tsx:254 | Before the end of the list, k advances from i land on i + k. |
| Transport.AdvanceByCycle | src/pages/Index.tsx:254 | n advances through n positions return to the start. |
| Transport.NextTrack | src/pages/Index.tsx:248-257 | The track sequential `playNext` selects: the position after the `findIndex` result, wrapping. Which track that is, is stated by `NextTrackAt` and `NextTrackAbsent`. |
| Transport.PrevTrack | src/pages/Index.tsx:261-263 | The track `playPrevious` selects; it needs the current track to be found. Which track that is, is stated by `PrevTrackAt`. |
| Transport.NextTrackAt | src/pages/Index.tsx:247-258 | With shuffle off and unique identifiers, `playNext` from the track at i selects the track at (i + 1) mod n. |
| Transport.NextTrackAbsent | src/pages/Index.tsx:248-257 | When the current track is not in the selected copy (or there is none), `playNext` selects the first track. |
| Transport.PrevTrackAt | src/pages/Index.tsx:260-264 | `playPrevious` from the track at i selects i - 1, or the last track when i is 0. |
| Transport.PrevAfterNext | src/pages/Index.tsx:247-264 | `playPrevious` after `playNext` returns to the starting track. |
| Transport.NextTrackAfterAt | src/pages/Index.tsx:247-258 | k calls of `playNext` from the track at i select the track k advances further on. |
| Transport.NextTrackAfterStep | src/pages/Index.tsx:247-258 | If k - 1 calls reach the position k - 1 advances away, then k calls reach the position k advances away. |
| Transport.NextTrackCycle | src/pages/Index.tsx:247-258 | With unique track identifiers (as `SessionInvariant` guarantees for the selected copy), calling `playNext` as many times as the playlist has tracks returns to the starting track. Without them it may not: in `[A, A']` with a shared identifier both calls find position 0. |
| Transport.Tick | src/pages/Index.tsx:178-190 | The updater of the simulated-playback interval: one second more before the end; at the end, stop, and either go back to 0 under repeat or stay at the duration and request the next track. Its bounds are stated by `TickBounded`. |
| Transport.RunTimer | src/pages/Index.tsx:176-191 | Up to k ticks of a running interval, stopping at the first tick that clears it. Its runs are stated by `RunTimerFrom`. |
| Transport.TickBounded | src/pages/Index.tsx:177-191 | A tick never takes the time past the duration, stops exactly at the end, and requests the next track exactly at the end without repeat. |
| Transport.RunTimerFrom | src/pages/Index.tsx:176-191 | The timer counts one second per tick up to the duration. The tick after that stops it, either back at 0 under repeat or at the duration with the next track requested. |
| PlayerSession.BuiltInTracks | src/pages/Index.tsx:25-45 | The 19 demo tracks in catalogue order. Their shape is stated by `BuiltInTracksShape` and `BuiltInTracksUnique`. |
| PlayerSession.BuiltInTracksShape | src/pages/Index.tsx:25-45 | There are 19 demo tracks; the k-th has identifier `builtin` followed by the decimal k; all are protected and have an empty source. |
| PlayerSession.BuiltInTracksUnique | src/pages/Index.tsx:25-45 | The demo tracks' identifiers are distinct. |
| PlayerSession.LibraryTrackIdsUnique | src/pages/Index.tsx:47-61 | No two track slots anywhere in the library, in the same playlist or in different ones, share an identifier. |
| PlayerSession.CopyInLibrary | src/pages/Index.tsx:147-151 | Every track of the selected copy lies in the library playlist with the copy's identifier. This is what makes the write-back of `removeTrack` keep identifiers unique. |
| PlayerSession.SessionInvariant | src/pages/Index.tsx:47-61 | What the handlers keep true: unique playlist identifiers; unique track identifiers across the library and within the selected copy; the selected playlist's identifier is in the library; the copy holds only tracks of that library playlist and every built-in track of it. Its preservation is stated by the `…KeepsInvariant` lemmas and the `Valid()` postconditions of the methods. |
| PlayerSession.LibraryUniqueWithin | src/pages/Index.tsx:47-61 | Library-wide uniqueness of track identifiers gives uniqueness within each playlist. |
| PlayerSession.InitialInvariant | src/pages/Index.tsx:47-52 | The starting library (`main` with the demo tracks, an empty `uploaded`) and the starting selection satisfy the session invariant. |
| PlayerSession.SameIdsAfterRewrite | src/pages/Index.tsx:147-151 | A library rewrite that keeps each playlist's identifier keeps identifiers unique and keeps every identifier findable. |
| PlayerSession.RemovedListApart | src/pages/Index.tsx:145-151 | A track of the list `removeTrack` writes back and a track of any other playlist have different identifiers, because the written-back tracks lie in the copy's own library playlist. |
| PlayerSession.RemoveKeepsLibraryUnique | src/pages/Index.tsx:145-151 | The library rewrite of `removeTrack` keeps track identifiers unique across the whole library. |
| PlayerSession.RemoveKeepsInvariant | src/pages/Index.tsx:141-162 | `removeTrack` past its guard keeps the session invariant and keeps every built-in track in its playlist. |
| PlayerSession.CreateKeepsInvariant | src/pages/Index.tsx:307-319 | Appending an empty playlist under an unused identifier keeps the session invariant. |
| PlayerSession.UploadSlot | src/pages/Index.tsx:119-123 | After the upload map, every track slot holds the track it held before, or is the new last slot of an `uploaded` playlist holding the uploaded track. |
| PlayerSession.UploadKeepsInvariant | src/pages/Index.tsx:103-128 | Uploading a non-built-in track under an unused identifier keeps the session invariant. This includes the case where the selected copy becomes that one track. |
| PlayerSession.SelectKeepsInvariant | src/pages/Index.tsx:376 | Selecting any library playlist keeps the session invariant. |
| PlayerSession.StaleCopyLosesUpload | src/pages/Index.tsx:119-153 | Removal writes back the list of the selected copy of `uploaded`. A track uploaded after that copy was taken is therefore missing from the library's `uploaded` playlist afterwards. |
| PlayerSession.Session.constructor | src/pages/Index.tsx:47-61 | The library is `main` with the 19 demo tracks, then an empty `uploaded`. The copy is `main`, the first demo track is selected, everything is off, and the time and duration are 0. The invariant holds. |
| PlayerSession.Session.SelectTrack | src/pages/Index.tsx:165-168 | The track becomes current, the time is 0 and the duration is the track's own. The play flag, the library and the modes are unchanged. |
| PlayerSession.Session.TogglePlayPause | src/pages/Index.tsx:205-209 | Without a current track nothing changes; otherwise the play flag flips and nothing else changes. |
| PlayerSession.Session.PlayNext | src/pages/Index.tsx:247-258 | Selects the track at `r` under shuffle, otherwise `NextTrack` of the old copy and track. Time, duration and play flag follow `SelectTrack`. |
| PlayerSession.Session.PlayPrevious | src/pages/Index.tsx:260-264 | Selects `PrevTrack` of the old copy and track, as `SelectTrack` does. |
| PlayerSession.Session.RemoveTrack | src/pages/Index.tsx:141-163 | A built-in match changes nothing. Otherwise: the filtered list replaces the copy and every same-identifier library playlist; a removed current track gives way to the first remaining one, or to none with playing stopped; time and duration are kept; the invariant and every built-in track are preserved. |
| PlayerSession.Session.CreatePlaylist | src/pages/Index.tsx:307-319 | A blank name changes nothing. Otherwise one empty playlist with the untrimmed name is appended after the existing ones, the name is cleared and the form closed. The invariant is kept for an unused identifier. |
| PlayerSession.Session.UploadFile | src/pages/Index.tsx:99-134 | Nothing changes without an `uploaded` playlist or for a non-audio type. Otherwise the stripped-name, duration-0, non-built-in track is appended to `uploaded`; the copy becomes `[track]` only when that playlist was empty and is the copy's; the track is selected only when none was. The invariant is kept for an unused identifier. |
| PlayerSession.Session.SelectPlaylist | src/pages/Index.tsx:376 | The copy becomes the chosen library playlist; nothing else changes; the invariant is kept. |
| PlayerSession.Session.ToggleShuffle | src/pages/Index.tsx:455 | The shuffle flag flips and nothing else changes. |
| PlayerSession.Session.ToggleRepeat | src/pages/Index.tsx:493 | The repeat flag flips and nothing else changes. |
| PlayerSession.Session.SetNewPlaylistName | src/pages/Index.tsx:357 | The typed name is stored and nothing else changes. |

## Left out

- The `<audio>` element and its `timeupdate`, `loadedmetadata` and `ended` listeners (lines 67-91), and the `play`, `pause`, `load` and `src` calls inside the handlers. These are browser media I/O. The elapsed time and duration they report are not modelled.
- Scheduling by `setInterval` and `clearInterval` (lines 172-191, 213-234, 271-292) is timer concurrency. Only the per-tick arithmetic is modelled (`Transport.Tick`, `Transport.RunTimer`). The session has no tick operation.
- Transport.Tick: the variants in `togglePlayPause` and `seekTo` also clear the play flag at the end of a track. The tick outcome reports only the time, whether the timer keeps running, and whether the next track is requested.
- `seekTo` (lines 266-298): it mostly drives the timer and the audio element, so it is not modelled.
- The volume slider and `volume[0] / 100` (line 95): floating point.
- `new Date()` timestamps (lines 48-49, 314): the `createdAt` field is not part of `Playlist`.
- Uploads of several files in one event: `UploadFile` handles one file per call. React's batching of the setters across files, and the stale render-time `uploadedPlaylist` and `currentTrack` inside the loop, are not modelled. The `!files` early return and the file-input reset (lines 101, 136-138) are not modelled either.
- TextFormat.FormatTime: covers whole, non-negative seconds only. Fractional seconds, `NaN` and numbers large enough to print in exponent notation are not modelled.
- TextFormat.IsWhiteSpace: lists the white space and line terminator characters of the ECMAScript standard explicitly. JavaScript's `trim` works on UTF-16 code units, while the model has one `char` per Unicode scalar value. No white space or line terminator character lies outside the Basic Multilingual Plane, so `Trim` gives the same result either way.
- Opening and closing the create-playlist form (lines 344, 366) and all rendering (lines 322-624): user interface only.
