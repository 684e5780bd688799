/**
 * Navigation and timing arithmetic of the transport: which position of the
 * selected playlist `playNext` and `playPrevious` move to, and the one-second
 * step of the simulated playback of built-in tracks.
 */
module Transport {
  import opened PlayerTypes
  import opened TrackLists

  // ---------------------------------------------------------------------------
  // Next and previous positions
  // ---------------------------------------------------------------------------

  /**
   * `(currentIndex + 1) % length` for the sequential `playNext`. `current` is a
   * `findIndex` result, so -1 (current track not in the list) is allowed.
   */
  function NextIndex(current: int, n: nat): (k: nat)
    requires n > 0 && -1 <= current < n
    ensures k < n
  {
    (current + 1) % n
  }

  /** `currentIndex === 0 ? length - 1 : currentIndex - 1` for `playPrevious`. */
  function PrevIndex(current: nat, n: nat): (k: nat)
    requires current < n
    ensures k < n
  {
    if current == 0 then n - 1 else current - 1
  }

  /** Advancing moves one place forward and wraps from the last position to the first. */
  lemma NextIndexWraps(current: int, n: nat)
    requires n > 0 && -1 <= current < n
    ensures NextIndex(current, n) == if current == n - 1 then 0 else current + 1
  {
  }

  /** Going back undoes advancing, and advancing undoes going back. */
  lemma NextPrevInverse(i: nat, n: nat)
    requires i < n
    ensures PrevIndex(NextIndex(i, n), n) == i
    ensures NextIndex(PrevIndex(i, n), n) == i
  {
    NextIndexWraps(i, n);
    NextIndexWraps(PrevIndex(i, n), n);
  }

  /** `k` sequential advances from position `i`. */
  function AdvanceBy(i: nat, n: nat, k: nat): (r: nat)
    requires i < n
    ensures r < n
  {
    if k == 0 then i else NextIndex(AdvanceBy(i, n, k - 1), n)
  }

  /** Advancing `a` times and then `b` times is advancing `a + b` times. */
  lemma {:induction false} AdvanceByAdd(i: nat, n: nat, a: nat, b: nat)
    requires i < n
    ensures AdvanceBy(i, n, a + b) == AdvanceBy(AdvanceBy(i, n, a), n, b)
  {
    if b > 0 {
      AdvanceByAdd(i, n, a, b - 1);
    }
  }

  /** Before the end of the list is reached, `k` advances from `i` land on `i + k`. */
  lemma {:induction false} AdvanceByStraight(i: nat, n: nat, k: nat)
    requires i + k < n
    ensures AdvanceBy(i, n, k) == i + k
  {
    if k > 0 {
      AdvanceByStraight(i, n, k - 1);
      NextIndexWraps(i + k - 1, n);
    }
  }

  /** `n` advances through a list of `n` positions come back to the start. */
  lemma AdvanceByCycle(i: nat, n: nat)
    requires i < n
    ensures AdvanceBy(i, n, n) == i
  {
    var toLast := n - 1 - i;
    AdvanceByStraight(i, n, toLast);
    NextIndexWraps(n - 1, n);
    assert AdvanceBy(n - 1, n, 1) == 0;
    AdvanceByStraight(0, n, i);
    AdvanceByAdd(i, n, toLast, 1);
    AdvanceByAdd(i, n, toLast + 1, i);
  }

  // ---------------------------------------------------------------------------
  // Next and previous tracks of a playlist
  // ---------------------------------------------------------------------------

  /** The track the sequential `playNext` selects from `tracks` when `current` is selected. */
  function NextTrack(tracks: seq<Track>, current: Option<Track>): Track
    requires |tracks| > 0
  {
    tracks[NextIndex(IndexOf(tracks, IdOf(current)), |tracks|)]
  }

  /** The track `playPrevious` selects; the source fails unless the current track is in the list. */
  function PrevTrack(tracks: seq<Track>, current: Option<Track>): Track
    requires IndexOf(tracks, IdOf(current)) >= 0
  {
    tracks[PrevIndex(IndexOf(tracks, IdOf(current)), |tracks|)]
  }

  /** From the track at position `i` (identifiers unique), `playNext` moves to position `(i + 1) mod n`. */
  lemma NextTrackAt(tracks: seq<Track>, i: nat)
    requires UniqueTrackIds(tracks) && i < |tracks|
    ensures NextTrack(tracks, Some(tracks[i])) == tracks[(i + 1) % |tracks|]
  {
    IndexOfUnique(tracks, i);
  }

  /** When no selected track is in the list, `playNext` starts from its first track. */
  lemma NextTrackAbsent(tracks: seq<Track>, current: Option<Track>)
    requires |tracks| > 0
    requires forall j :: 0 <= j < |tracks| ==> Some(tracks[j].id) != IdOf(current)
    ensures NextTrack(tracks, current) == tracks[0]
  {
  }

  /** From the track at position `i`, `playPrevious` moves to `i - 1`, or to the last track from the first. */
  lemma PrevTrackAt(tracks: seq<Track>, i: nat)
    requires UniqueTrackIds(tracks) && i < |tracks|
    ensures IndexOf(tracks, Some(tracks[i].id)) >= 0
    ensures PrevTrack(tracks, Some(tracks[i])) == tracks[if i == 0 then |tracks| - 1 else i - 1]
  {
    IndexOfUnique(tracks, i);
    assert IdOf(Some(tracks[i])) == Some(tracks[i].id);
    assert PrevTrack(tracks, Some(tracks[i])) == tracks[PrevIndex(i, |tracks|)];
  }

  /** `playPrevious` after `playNext` returns to the track one started from. */
  lemma PrevAfterNext(tracks: seq<Track>, i: nat)
    requires UniqueTrackIds(tracks) && i < |tracks|
    ensures IndexOf(tracks, Some(NextTrack(tracks, Some(tracks[i])).id)) >= 0
    ensures PrevTrack(tracks, Some(NextTrack(tracks, Some(tracks[i])))) == tracks[i]
  {
    var n := |tracks|;
    IndexOfUnique(tracks, i);
    var k := NextIndex(i, n);
    IndexOfUnique(tracks, k);
    NextPrevInverse(i, n);
  }

  /** The track reached by `k` sequential `playNext` calls starting at `t`. */
  function NextTrackAfter(tracks: seq<Track>, t: Track, k: nat): Track
    requires |tracks| > 0
  {
    if k == 0 then t else NextTrack(tracks, Some(NextTrackAfter(tracks, t, k - 1)))
  }

  /** With unique identifiers, `k` calls of `playNext` from the track at `i` reach position `(i + k) mod n`. */
  lemma NextTrackAfterAt(tracks: seq<Track>, i: nat, k: nat)
    requires UniqueTrackIds(tracks) && i < |tracks|
    ensures NextTrackAfter(tracks, tracks[i], k) == tracks[AdvanceBy(i, |tracks|, k)]
  {
    if k == 0 {
      assert NextTrackAfter(tracks, tracks[i], k) == tracks[i];
    } else {
      NextTrackAfterAt(tracks, i, k - 1);
      NextTrackAfterStep(tracks, i, k);
    }
  }

  /** One more `playNext` from the track at position `j` lands on position `NextIndex(j, n)`. */
  lemma NextTrackAfterStep(tracks: seq<Track>, i: nat, k: nat)
    requires UniqueTrackIds(tracks) && i < |tracks| && k > 0
    requires NextTrackAfter(tracks, tracks[i], k - 1) == tracks[AdvanceBy(i, |tracks|, k - 1)]
    ensures NextTrackAfter(tracks, tracks[i], k) == tracks[AdvanceBy(i, |tracks|, k)]
  {
    var j := AdvanceBy(i, |tracks|, k - 1);
    IndexOfUnique(tracks, j);
    assert NextTrack(tracks, Some(tracks[j])) == tracks[NextIndex(j, |tracks|)];
  }

  /** Calling `playNext` as many times as the playlist has tracks returns to the track one started from. */
  lemma NextTrackCycle(tracks: seq<Track>, i: nat)
    requires UniqueTrackIds(tracks) && i < |tracks|
    ensures NextTrackAfter(tracks, tracks[i], |tracks|) == tracks[i]
  {
    NextTrackAfterAt(tracks, i, |tracks|);
    AdvanceByCycle(i, |tracks|);
  }

  // ---------------------------------------------------------------------------
  // One step of the simulated playback timer
  // ---------------------------------------------------------------------------

  /**
   * What one tick of the simulated-playback interval does: the new elapsed
   * time, whether the interval keeps running, and whether it asks for the
   * next track.
   */
  datatype TickOutcome = TickOutcome(time: nat, running: bool, advance: bool)

  /**
   * The `setCurrentTime` updater of the interval: at or past the track's
   * duration the interval is cleared and the time goes to 0 under repeat, or
   * stays at the duration while the next track is requested; otherwise one
   * second is added.
   */
  function Tick(prev: nat, trackDuration: nat, repeat: bool): TickOutcome
  {
    if prev >= trackDuration then
      if repeat then TickOutcome(0, false, false) else TickOutcome(trackDuration, false, true)
    else TickOutcome(prev + 1, true, false)
  }

  /** A tick never carries the time past the track's duration, and it stops exactly at the end. */
  lemma TickBounded(prev: nat, trackDuration: nat, repeat: bool)
    requires prev <= trackDuration
    ensures Tick(prev, trackDuration, repeat).time <= trackDuration
    ensures !Tick(prev, trackDuration, repeat).running <==> prev == trackDuration
    ensures Tick(prev, trackDuration, repeat).advance <==> prev == trackDuration && !repeat
  {
  }

  /** Up to `k` ticks of a running interval; a stopped interval does not tick again. */
  function RunTimer(prev: nat, trackDuration: nat, repeat: bool, k: nat): TickOutcome
    decreases k
  {
    if k == 0 then TickOutcome(prev, true, false)
    else
      var o := Tick(prev, trackDuration, repeat);
      if !o.running then o else RunTimer(o.time, trackDuration, repeat, k - 1)
  }

  /**
   * From elapsed time `prev` within the track, the interval counts one second
   * per tick up to the duration, and the tick after that stops it: back at 0
   * under repeat (with no further ticks), or at the duration with the next
   * track requested.
   */
  lemma {:induction false} RunTimerFrom(prev: nat, trackDuration: nat, repeat: bool, k: nat)
    requires prev <= trackDuration
    ensures k <= trackDuration - prev ==>
              RunTimer(prev, trackDuration, repeat, k) == TickOutcome(prev + k, true, false)
    ensures k > trackDuration - prev ==>
              RunTimer(prev, trackDuration, repeat, k) ==
                (if repeat then TickOutcome(0, false, false) else TickOutcome(trackDuration, false, true))
    decreases k
  {
    if k > 0 && prev < trackDuration {
      RunTimerFrom(prev + 1, trackDuration, repeat, k - 1);
    }
  }
}
