/** Playing the tracks of an MP4 file: which track sends the next frame, and the order of the timestamps sent. */
module Mp4Player {
  import opened Bytes
  import opened Wrappers
  import opened Mp4Tables
  import opened Mp4Cursor

  const MAX_FRAMES := 8

  /** What one turn of the send loop comes to. */
  datatype Turn = NoTrack | Ahead(wait: u32) | Busy | Ended | Sent

  /** What becomes of one frame: sent, refused by a full queue, or too big or unreadable and so passed over. */
  datatype Frame = Taken | Refused | Skipped

  /** What becomes of one turn's messages: whether the codec header is taken, if it is due, and then the frame. */
  datatype Answer = Answer(header: bool, frame: Frame)

  /** Where a timestamp comes from: a track and its clock, in ticks. */
  datatype Origin = Origin(track: nat, ticks: nat)

  ghost predicate Rising(s: seq<u32>) {
    forall i, j :: 0 <= i < j < |s| ==> s[i] <= s[j]
  }

  class Player {
    const tracks: seq<Cursor>
    /** Which of the tracks are for video. */
    const video: seq<bool>

    /** Which of the tracks still have to send their codec header. */
    var due: seq<bool>

    /** The timestamps of the frames sent since the seek, and the clock that the client decodes with each. */
    ghost var shown: seq<u32>
    ghost var decoded: seq<u32>
    /** The track and the tick of each. */
    ghost var origins: seq<Origin>
    /** The client's clock of each track. */
    ghost var clocks: seq<u32>

    constructor (tracks: seq<Cursor>, video: seq<bool>, headers: seq<bool>)
      requires |headers| == |video| == |tracks| && forall i, j :: 0 <= i < j < |tracks| ==> tracks[i] != tracks[j]
      requires forall i :: 0 <= i < |tracks| ==> TrackOk(tracks[i].track) && tracks[i].track.timeScale > 0
      requires forall i :: 0 <= i < |tracks| ==> !tracks[i].valid && !tracks[i].notFirst
      ensures this.tracks == tracks && this.video == video && due == headers && shown == [] && Valid()
    {
      this.tracks, this.video, due := tracks, video, headers;
      shown, decoded, origins, clocks := [], [], [], seq(|tracks|, _ => 0);
    }

    /**
     A track that may be played: its clock is in the time table, and where it ends up fits 32 bits of milliseconds.
     */
    static ghost predicate Playable(c: Cursor)
      reads c
    {
      exists end: nat :: EndFits(c.track, end) && c.Clocked(end)
    }

    /** The tracks are apart, and their tables and clocks can be read. */
    ghost predicate Sane()
      reads this
    {
      && |clocks| == |due| == |video| == |tracks| && |decoded| == |origins| == |shown|
      && (forall i, j :: 0 <= i < j < |tracks| ==> tracks[i] != tracks[j])
      && (forall i :: 0 <= i < |tracks| ==> TrackOk(tracks[i].track) && tracks[i].track.timeScale > 0)
    }

    /** Every timestamp is the millisecond into which its track's tick falls. */
    ghost predicate Stamped(from: seq<Origin>, stamps: seq<u32>) {
      && |from| == |stamps|
      && forall j :: 0 <= j < |stamps| ==>
        from[j].track < |tracks| && InMillisecond(tracks[from[j].track].track, from[j].ticks, stamps[j])
    }

    lemma NoneStamped()
      ensures Stamped([], [])
    {
    }

    lemma StampedMore(from: seq<Origin>, stamps: seq<u32>, k: nat, ticks: nat, stamp: u32)
      requires Stamped(from, stamps) && k < |tracks| && InMillisecond(tracks[k].track, ticks, stamp)
      ensures Stamped(from + [Origin(k, ticks)], stamps + [stamp])
    {
    }

    ghost predicate Valid()
      reads this, tracks
    {
      && Sane() && Rising(shown) && Stamped(origins, shown)
      && (forall i :: 0 <= i < |tracks| && due[i] ==> !tracks[i].notFirst)
      && (forall i :: 0 <= i < |tracks| && tracks[i].valid ==> Playable(tracks[i]))
      && (forall i :: 0 <= i < |tracks| && tracks[i].valid && |shown| > 0 ==>
            shown[|shown| - 1] <= ToRtmp(tracks[i].track, tracks[i].timestamp))
    }

    // ----- seeking -----

    /** The video track, or the number of tracks. */
    method FindVideo() returns (v: nat)
      requires |video| == |tracks|
      ensures v <= |tracks| && (v < |tracks| ==> video[v]) && forall i :: 0 <= i < v ==> !video[i]
    {
      v := 0;
      while v < |tracks| && !video[v]
        invariant v <= |tracks| && forall i :: 0 <= i < v ==> !video[i]
      {
        v := v + 1;
      }
    }

    /** What track `i` is sought to when the first video track is `v`: the target, or else where that track landed. */
    function Asked(i: nat, v: nat, target: u32, at: u32): Option<u32>
      requires i < |video|
    {
      if i == v then Some(target) else if video[i] then None else Some(at)
    }

    /**
     A seek on this track will end up in time: at its end, or later by one delta if the target is the end of a run.
     */
    static ghost predicate SeekFits(t: Track, target: u32)
      requires TrackOk(t)
    {
      var end := Ticks(t.times.value, 0) + Late(t.times.value, FromRtmp(t, target));
      EndFits(t, end)
    }

    static ghost predicate LandedAt(c: Cursor, target: u32)
      requires TrackOk(c.track)
      reads c
    {
      && c.SoughtTo(target) && (Inside(c.track, target) ==> OnTarget(c.track, target, c.pos))
      && (c.valid && SeekFits(c.track, target) ==> Playable(c))
    }

    /**
     ngx_rtmp_mp4_seek: first the video track, and then the others to where it landed, at `at`. Any seek that fits
     leaves a player that may play, the end of a run included.
     */
    method Seek(target: u32) returns (ghost v: nat, at: u32)
      requires Valid()
      modifies this, tracks
      ensures Sane() && shown == [] && v <= |tracks| && (forall i :: 0 <= i < v ==> !video[i])
              && (v < |tracks| ==> video[v])
      ensures forall i :: 0 <= i < |tracks| ==> !tracks[i].notFirst
      ensures AllTold() && due == old(due) && clocks == old(clocks)
      ensures at == if v < |tracks| then ToRtmp(tracks[v].track, tracks[v].timestamp) else target
      ensures v < |tracks| && 1000 * tracks[v].timestamp < U32 * tracks[v].track.timeScale ==>
        InMillisecond(tracks[v].track, tracks[v].timestamp, at)
      ensures forall i :: 0 <= i < |tracks| && Asked(i, v, target, at).Some? ==>
        var time := Asked(i, v, target, at).value;
        && tracks[i].SoughtTo(time)
        && (Inside(tracks[i].track, time) ==> OnTarget(tracks[i].track, time, tracks[i].pos))
      ensures (forall i :: 0 <= i < |tracks| && Asked(i, v, target, at).Some? ==>
                 SeekFits(tracks[i].track, Asked(i, v, target, at).value)) ==> Valid()
    {
      hide ToRtmp, TrackOk, Cursor.SoughtTo, Cursor.Clocked, SeekFits, EndFits, Late, FromRtmp, Inside, OnTarget;
      hide InMillisecond, Player.Stamped, Player.Playable;
      shown, decoded, origins := [], [], [];
      NoneStamped();
      v, at := SeekTracks(target);
      Reset();
      if v < |tracks| {
        ToRtmpExact(tracks[v].track, tracks[v].timestamp);
      }
    }

    /** The jumps of a seek. */
    method SeekTracks(target: u32) returns (ghost v: nat, at: u32)
      requires Sane() && forall i :: 0 <= i < |tracks| && tracks[i].valid ==> Playable(tracks[i])
      modifies tracks
      ensures v <= |tracks| && (forall i :: 0 <= i < v ==> !video[i]) && (v < |tracks| ==> video[v])
      ensures at == if v < |tracks| then ToRtmp(tracks[v].track, tracks[v].timestamp) else target
      ensures forall i :: 0 <= i < |tracks| ==>
        match Asked(i, v, target, at)
        case Some(time) => LandedAt(tracks[i], time)
        case None => tracks[i].valid ==> Playable(tracks[i])
    {
      hide ToRtmp, TrackOk, LandedAt, Playable;
      var first := FindVideo();
      v, at := first, target;
      if first < |tracks| {
        SeekOne(first, target);
        at := ToRtmp(tracks[first].track, tracks[first].timestamp);
      }
      var n := 0;
      while n < |tracks|
        invariant 0 <= n <= |tracks|
        invariant first < |tracks| ==> at == ToRtmp(tracks[first].track, tracks[first].timestamp)
        invariant first < |tracks| ==> LandedAt(tracks[first], target)
        invariant forall i :: 0 <= i < n && !video[i] ==> LandedAt(tracks[i], at)
        invariant forall i :: 0 <= i < |tracks| && video[i] && i != first && tracks[i].valid ==> Playable(tracks[i])
      {
        if !video[n] {
          SeekOne(n, at);
        }
        n := n + 1;
      }
    }

    method SeekOne(i: nat, target: u32)
      requires Sane() && i < |tracks|
      modifies tracks[i]
      ensures LandedAt(tracks[i], target)
    {
      hide TrackOk, Seekable, FromRtmp, Late, Lands, Ticks, AtRunEnd, Cursor.OnSample, Cursor.Clocked, Inside, OnTarget;
      SeekNeeds(tracks[i].track);
      var ok := tracks[i].SeekTrack(target);
      ghost var t := tracks[i].track;
      ghost var end := Ticks(t.times.value, 0) + Late(t.times.value, FromRtmp(t, target));
      assert tracks[i].valid && EndFits(t, end) ==> tracks[i].Clocked(end);
    }

    /** ngx_rtmp_mp4_reset: what is sent next does not go by the frame before. */
    method Reset()
      requires Sane()
      modifies tracks`notFirst
      ensures forall i :: 0 <= i < |tracks| ==> !tracks[i].notFirst
      ensures forall i :: 0 <= i < |tracks| ==>
        && (forall target: u32 :: old(tracks[i].SoughtTo(target)) ==> tracks[i].SoughtTo(target))
        && (old(Playable(tracks[i])) ==> Playable(tracks[i]))
    {
      hide Landed, Landing, Seekable, AtRunEnd, Sought, FromRtmp, ChunkFrom, ChunkOffset, TrackOk, EndOf, TimesOk;
      var n := 0;
      while n < |tracks|
        invariant 0 <= n <= |tracks| && forall i :: 0 <= i < n ==> !tracks[i].notFirst
      {
        tracks[n].notFirst := false;
        n := n + 1;
      }
    }

    // ----- sending -----

    /** The valid track with the earliest timestamp, the first of them on a tie. */
    method Choose() returns (best: Option<nat>, timestamp: u32)
      requires forall i :: 0 <= i < |tracks| ==> tracks[i].track.timeScale > 0
      ensures best.None? <==> forall i :: 0 <= i < |tracks| ==> !tracks[i].valid
      ensures best.Some? ==>
        && best.value < |tracks| && tracks[best.value].valid
        && timestamp == ToRtmp(tracks[best.value].track, tracks[best.value].timestamp)
        && (forall i :: 0 <= i < |tracks| && tracks[i].valid ==>
              && timestamp <= ToRtmp(tracks[i].track, tracks[i].timestamp)
              && (i < best.value ==> timestamp < ToRtmp(tracks[i].track, tracks[i].timestamp)))
    {
      timestamp := 0;
      best := None;
      var n := 0;
      while n < |tracks|
        invariant 0 <= n <= |tracks|
        invariant best.None? <==> forall i :: 0 <= i < n ==> !tracks[i].valid
        invariant best.Some? ==>
          && best.value < n && tracks[best.value].valid
          && timestamp == ToRtmp(tracks[best.value].track, tracks[best.value].timestamp)
          && (forall i :: 0 <= i < n && tracks[i].valid ==>
                && timestamp <= ToRtmp(tracks[i].track, tracks[i].timestamp)
                && (i < best.value ==> timestamp < ToRtmp(tracks[i].track, tracks[i].timestamp)))
      {
        var cursor := tracks[n];
        if cursor.valid {
          var current := ToRtmp(cursor.track, cursor.timestamp);
          if best.None? || current < timestamp {
            timestamp := current;
            best := Some(n);
          }
        }
        n := n + 1;
      }
    }

    /** The clock of track `i`, in milliseconds. */
    ghost function Clock(i: nat): u32
      requires i < |tracks| && tracks[i].track.timeScale > 0
      reads this, tracks
    {
      ToRtmp(tracks[i].track, tracks[i].timestamp)
    }

    /** The time of the sample before on track `i`, by which the next message goes. */
    ghost function LastStamp(i: nat): u32
      requires i < |tracks| && tracks[i].track.timeScale > 0
      reads this, tracks
    {
      ToRtmp(tracks[i].track, tracks[i].lastTimestamp)
    }

    /** The client has been told the time by which the next message on track `i` goes, if it goes by any. */
    ghost predicate Told(i: nat)
      requires i < |tracks| == |clocks| && tracks[i].track.timeScale > 0
      reads this, tracks
    {
      tracks[i].notFirst ==> clocks[i] == LastStamp(i)
    }

    ghost predicate AllTold()
      requires Sane()
      reads this, tracks
    {
      forall i :: 0 <= i < |tracks| && tracks[i].valid ==> Told(i)
    }

    /** The messages of one turn: the codec header if it is due, and then the frame. */
    method Offer(k: nat, timestamp: u32, answer: Answer) returns (passed: bool)
      requires Valid() && k < |tracks| && tracks[k].valid && timestamp == Clock(k)
      requires forall i :: 0 <= i < |tracks| && tracks[i].valid ==> timestamp <= Clock(i)
      modifies `due, `shown, `decoded, `origins, `clocks
      ensures Valid() && clocks == old(clocks)[k := clocks[k]]
      ensures passed <==> !((old(due)[k] && !answer.header) || answer.frame.Refused?)
      ensures shown == old(shown) + (if passed && answer.frame.Taken? then [timestamp] else [])
      ensures decoded == old(decoded) + (if passed && answer.frame.Taken? then [clocks[k]] else [])
      ensures origins == old(origins)
                         + (if passed && answer.frame.Taken? then [Origin(k, tracks[k].timestamp)] else [])
      ensures passed ==> due == old(due)[k := false]
      ensures passed && answer.frame.Taken? ==> (clocks[k] == timestamp <==> old(Told(k)))
      ensures passed && answer.frame.Skipped? ==> clocks[k] == if old(due)[k] then timestamp else old(clocks)[k]
      ensures !passed ==> Told(k) == old(Told(k))
    {
      hide ToRtmp, TrackOk, Relative, Player.Playable, Rising, InMillisecond, Player.Stamped;
      RisingMore(shown, timestamp);
      InTimeStamp(tracks[k]);
      StampedMore(origins, shown, k, tracks[k].timestamp, timestamp);
      passed := false;
      if due[k] {
        if !answer.header {
          return;
        }
        due := due[k := false];
        clocks := clocks[k := timestamp];
      }
      if answer.frame.Refused? {
        return;
      }
      passed := true;
      if answer.frame.Taken? {
        RelativeIs(clocks[k], LastStamp(k), timestamp);
        clocks := clocks[k := if tracks[k].notFirst then Relative(clocks[k], LastStamp(k), timestamp) else timestamp];
        shown, decoded := shown + [timestamp], decoded + [clocks[k]];
        origins := origins + [Origin(k, tracks[k].timestamp)];
      }
    }

    /** A track goes on to its next sample; the next message goes by the time of this one. */
    method Step(k: nat) returns (ok: bool)
      requires Valid() && k < |tracks| && tracks[k].valid && !due[k]
      modifies tracks[k]
      ensures Valid() && ok == tracks[k].valid
      ensures ok ==> tracks[k].pos == old(tracks[k].pos) + 1 && tracks[k].notFirst && LastStamp(k) == old(Clock(k))
    {
      hide ToRtmp, EndFits, TrackOk, Cursor.Clocked, Cursor.OnSample, CanStep, StepFields, Cursor.Marked, Rising;
      hide InMillisecond, Player.Stamped;
      var cursor := tracks[k];
      ghost var end: nat :| EndFits(cursor.track, end) && cursor.Clocked(end);
      ok := cursor.Next();
      InTime(cursor, end);
      ToRtmpMonotone(cursor.track, old(cursor.timestamp), cursor.timestamp, end);
    }

    /**
     One turn of the send loop: the track `best` with the earliest clock waits, or sends its codec header if that is
     due, shows its sample and steps to the next one. A frame that is refused is offered again in the next turn; one
     that is skipped is not. The client's clock is right with a frame exactly when the client has been told the time
     before it; after a frame that was skipped it has been, exactly when its clock happens to be there.
     */
    method SendFrame(end: u32, answer: Answer) returns (turn: Turn, ghost best: nat)
      requires Valid()
      modifies this, tracks
      ensures Valid()
      ensures turn.NoTrack? <==> old(forall i :: 0 <= i < |tracks| ==> !tracks[i].valid)
      ensures !turn.NoTrack? ==>
        && best < |tracks| && old(tracks[best].valid) && tracks[best].track.timeScale > 0
        && (turn.Ahead? <==> old(Clock(best)) > end) && (turn.Ahead? ==> turn.wait == old(Clock(best)) - end)
        && (turn.Busy? <==> !turn.Ahead? && ((old(due)[best] && !answer.header) || answer.frame.Refused?))
        && (turn.Sent? ==> tracks[best].valid && tracks[best].pos == old(tracks[best].pos) + 1)
        && (turn.Ended? ==> !tracks[best].valid)
        && InMillisecond(tracks[best].track, old(tracks[best].timestamp), old(Clock(best)))
        && forall i :: 0 <= i < |tracks| && i != best ==> unchanged(tracks[i])
      ensures turn.Sent? || turn.Ended? ==>
        && origins == old(origins)
                      + (if answer.frame.Taken? then [Origin(best, old(tracks[best].timestamp))] else [])
        && shown == old(shown) + (if answer.frame.Taken? then [old(Clock(best))] else [])
        && decoded == old(decoded) + (if answer.frame.Taken? then [clocks[best]] else [])
        && due == old(due)[best := false] && clocks == old(clocks)[best := clocks[best]]
        && (answer.frame.Taken? ==> (clocks[best] == old(Clock(best)) <==> old(Told(best))))
        && (answer.frame.Skipped? ==> clocks[best] == if old(due)[best] then old(Clock(best)) else old(clocks)[best])
        && (turn.Sent? ==> (Told(best) <==> clocks[best] == old(Clock(best))))
      ensures turn.NoTrack? || turn.Ahead? || turn.Busy? ==>
        && shown == old(shown) && decoded == old(decoded) && origins == old(origins)
           && (forall i :: 0 <= i < |tracks| ==> unchanged(tracks[i]))
        && forall i :: 0 <= i < |tracks| ==> Told(i) == old(Told(i))
    {
      hide ToRtmp, TrackOk, Rising, Player.Playable, InMillisecond, Player.Stamped;
      var first, timestamp := Choose();
      best := 0;
      if first.None? {
        turn := NoTrack;
        return;
      }
      best := first.value;
      InTimeStamp(tracks[best]);
      if timestamp > end {
        turn := Ahead(Wrap(timestamp - end));
        return;
      }
      var passed := Offer(first.value, timestamp, answer);
      if !passed {
        turn := Busy;
        return;
      }
      var ok := Step(first.value);
      turn := if ok then Sent else Ended;
    }

    /**
     ngx_rtmp_mp4_send: at most MAX_FRAMES frames, whatever the session accepts. As long as no frame is passed over, the
     client decodes the time of every frame.
     */
    method Send(end: u32, answers: seq<Answer>) returns (turn: Turn)
      requires Valid() && |answers| == MAX_FRAMES
      modifies this, tracks
      ensures Valid() && Rising(shown) && Stamped(origins, shown)
      ensures old(shown) <= shown && old(origins) <= origins && |shown| <= |old(shown)| + MAX_FRAMES
      ensures turn.Sent? && (forall i :: 0 <= i < |answers| ==> answers[i].frame.Taken?) ==>
        |shown| == |old(shown)| + MAX_FRAMES
      ensures old(AllTold()) && (forall i :: 0 <= i < |answers| ==> !answers[i].frame.Skipped?) ==>
        AllTold() && decoded == old(decoded) + shown[|old(shown)|..]
    {
      hide Rising, Player.Stamped, TrackOk;
      turn := Sent;
      var counter := 0;
      while turn.Sent? && counter < MAX_FRAMES
        invariant 0 <= counter <= MAX_FRAMES
        invariant Valid() && old(shown) <= shown && old(origins) <= origins && |shown| <= |old(shown)| + counter
        invariant turn.Sent? && (forall i :: 0 <= i < counter ==> answers[i].frame.Taken?) ==>
          |shown| == |old(shown)| + counter
        invariant old(AllTold()) && (forall i :: 0 <= i < |answers| ==> !answers[i].frame.Skipped?) ==>
          AllTold() && decoded == old(decoded) + shown[|old(shown)|..]
        decreases MAX_FRAMES - counter
      {
        ghost var best;
        turn, best := SendFrame(end, answers[counter]);
        counter := counter + 1;
      }
    }
  }

  lemma InTimeStamp(c: Cursor)
    requires Player.Playable(c)
    ensures InMillisecond(c.track, c.timestamp, ToRtmp(c.track, c.timestamp))
  {
    var end: nat :| EndFits(c.track, end) && c.Clocked(end);
    InTime(c, end);
    StampFits(c.track, c.timestamp, end);
  }

  lemma RisingMore(s: seq<u32>, t: u32)
    ensures Rising(s) && (|s| > 0 ==> s[|s| - 1] <= t) ==> Rising(s + [t])
  {
  }

  /** The clock that a client decodes from a message sent with the time since `last`. */
  function Relative(clock: u32, last: u32, time: u32): u32 {
    Wrap(clock + Wrap(time - last))
  }

  lemma RelativeIs(clock: u32, last: u32, time: u32)
    ensures Relative(clock, last, time) == time <==> clock == last
  {
    var q := if time >= last then 0 else 1;
    assert Wrap(time - last) == time - last + q * U32;
    var s := clock + Wrap(time - last);
    var m := if s >= U32 then 1 else 0;
    assert Wrap(s) == s - m * U32;
  }

  lemma InTime(c: Cursor, end: nat)
    requires c.Clocked(end)
    ensures c.timestamp <= end
  {
  }
}
