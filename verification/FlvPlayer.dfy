/**
 The player of recorded files: it scans the tags one by one and sends audio and video with the time since the last.
 */
module FlvPlayer {
  import opened Bytes
  import opened FlvFormat

  const BUFFER := 0x10_0000

  datatype Result = Done | Failed | Again | Passed(tag: Tag) | Sent(tag: Tag)

  /**
   The messages of one kind: the last timestamp read, whether one has been sent, and the clock that the client decodes.
   */
  datatype Lane = Lane(last: u32, started: bool, clock: u32)

  class Player {
    const file: seq<byte>
    var offset: nat
    var audio: Lane
    var video: Lane

    constructor (file: seq<byte>)
      ensures this.file == file && offset == DATA_OFFSET && !audio.started && !video.started
    {
      this.file, offset := file, DATA_OFFSET;
      audio, video := Lane(0, false, 0), Lane(0, false, 0);
    }

    function LaneOf(kind: byte): Lane
      reads this
    {
      if kind as nat == AUDIO then audio else video
    }

    /** The client's clock is the time of the last tag read. */
    ghost predicate Decoded(kind: byte)
      reads this
    {
      LaneOf(kind).started ==> LaneOf(kind).clock == LaneOf(kind).last
    }

    /**
     One tag of the file. The place in the file moves on whatever becomes of the tag, so a tag that the session refuses
     is not tried again. `accepted` says whether it takes the message.
     */
    method Send(accepted: bool) returns (r: Result)
      modifies this
      ensures r.Done? <==> old(offset) + TAG_HEADER > |file|
      ensures if r.Done? then offset == old(offset)
              else offset == old(offset) + TAG_HEADER + Body(file, old(offset)) + 4
      ensures !r.Done? ==>
        var o := old(offset); var kind := file[o]; var av := kind as nat == AUDIO || kind as nat == VIDEO;
        && (r.Sent? || r.Passed? ==>
              r.tag.kind == kind && r.tag.timestamp == Time(file, o)
              && (r.Sent? ==> o + TAG_HEADER + Body(file, o) <= |file|
                              && r.tag.body == file[o + TAG_HEADER..o + TAG_HEADER + Body(file, o)]))
        && (r.Sent? ==> av && accepted && Body(file, o) <= BUFFER)
        && (r.Passed? <==> !av || Body(file, o) > BUFFER)
        && (r.Again? ==> !accepted)
        && (r.Failed? <==> av && Body(file, o) <= BUFFER && o + TAG_HEADER + Body(file, o) > |file|)
        && (av ==> LaneOf(kind).last == Time(file, o) && LaneOf(kind).started == (old(LaneOf(kind)).started || r.Sent?))
        && (av && r.Sent? && old(Decoded(kind)) ==> Decoded(kind))
        && (av && !r.Sent? && old(Decoded(kind)) && old(LaneOf(kind)).started ==>
              (Decoded(kind) <==> old(LaneOf(kind)).last == Time(file, o)))
      ensures audio == old(audio) || (old(offset) < |file| && file[old(offset)] as nat == AUDIO)
      ensures video == old(video) || (old(offset) < |file| && file[old(offset)] as nat == VIDEO)
    {
      hide Be24;
      if offset + TAG_HEADER > |file| {
        return Done;
      }
      var kind, size: nat, time: int := file[offset], Body(file, offset), Time(file, offset);
      offset := offset + TAG_HEADER + size + 4;
      if kind as nat != AUDIO && kind as nat != VIDEO {
        return Passed(Tag(kind, time, []));
      }
      var lane := LaneOf(kind);
      var last := lane.last;
      SetLane(kind, lane.(last := time));
      if size > BUFFER {
        return Passed(Tag(kind, time, []));
      }
      var start := offset - size - 4;
      if start + size > |file| {
        return Failed;
      }
      if !accepted {
        return Again;
      }
      var clock := if lane.started then Wrap(lane.clock + Wrap(time - last)) else time;
      SetLane(kind, Lane(time, true, clock));
      Steps(lane.clock, last, time);
      return Sent(Tag(kind, time, file[start..start + size]));
    }

    method SetLane(kind: byte, lane: Lane)
      modifies `audio, `video
      ensures kind as nat == AUDIO ==> audio == lane && video == old(video)
      ensures kind as nat != AUDIO ==> video == lane && audio == old(audio)
    {
      if kind as nat == AUDIO {
        audio := lane;
      } else {
        video := lane;
      }
    }

    /** On each chunk stream the client's clock is the time of the last tag read. */
    ghost predicate AllDecoded()
      reads this
    {
      Decoded(AUDIO as byte) && Decoded(VIDEO as byte)
    }

    /** In a recorded file, one call sends the next tag as it was recorded, if it is sent at all. */
    method SendNext(ghost tags: seq<Tag>, ghost i: nat, accepted: bool) returns (r: Result)
      requires Recorded(file, tags) && i <= |tags| && AllOk(tags) && offset == OffsetOf(tags, i)
      modifies this
      ensures r.Done? <==> i == |tags|
      ensures offset == if r.Done? then OffsetOf(tags, i) else OffsetOf(tags, i + 1)
      ensures i < |tags| ==> (r.Sent? <==> Playable(tags[i]) && accepted) && (r.Sent? ==> r.tag == tags[i])
      ensures i < |tags| && r.Sent? && old(AllDecoded())
              ==> AllDecoded() && LaneOf(tags[i].kind).clock == tags[i].timestamp
      ensures r.Done? && old(AllDecoded()) ==> AllDecoded()
    {
      hide Recorded, EncodeTag, EncodeTags, OffsetOf, Body, Time;
      if i < |tags| {
        TagAhead(file, tags, i);
      } else {
        Ends(file, tags);
      }
      r := Send(accepted);
    }

    /**
     In a recorded file the scan goes from tag to tag, and what it sends is what was recorded. `clocks` are the client's
     clocks after each tag, on the chunk stream of that tag: right for as long as every tag has been sent.
     */
    method Play(ghost tags: seq<Tag>, accept: nat -> bool) returns (sent: seq<Tag>, ghost clocks: seq<u32>)
      requires Recorded(file, tags) && offset == DATA_OFFSET && !audio.started && !video.started
      modifies this
      ensures offset == |file| && sent == Kept(tags, accept, |tags|)
      ensures |clocks| == |tags| && ClocksRight(tags, accept, clocks)
    {
      hide Recorded, EncodeTag, EncodeTags, OffsetOf, Playable, Player.Decoded, AllTaken, ClocksRight;
      sent, clocks := [], [];
      var i := 0;
      Ends(file, tags);
      NothingStarted();
      NoClocks(tags, accept);
      var r := Sent(Tag(0, 0, []));
      while !r.Done?
        invariant 0 <= i == |clocks| <= |tags| && offset == OffsetOf(tags, i) && sent == Kept(tags, accept, i)
        invariant r.Done? ==> i == |tags|
        invariant AllTaken(tags, accept, i) ==> AllDecoded()
        invariant ClocksRight(tags, accept, clocks)
        decreases |tags| - i, !r.Done?
      {
        r := SendNext(tags, i, accept(i));
        if r.Sent? {
          sent := sent + [r.tag];
        }
        if !r.Done? {
          ClocksNext(tags, accept, clocks, LaneOf(tags[i].kind).clock);
          clocks := clocks + [LaneOf(tags[i].kind).clock];
          i := i + 1;
        }
      }
    }

    lemma NothingStarted()
      requires !audio.started && !video.started
      ensures AllDecoded()
    {
    }
  }

  /** Media in tags of at most 1 MB. */
  predicate Playable(t: Tag) {
    (t.kind as nat == AUDIO || t.kind as nat == VIDEO) && |t.body| <= BUFFER
  }

  /** The first `n` tags are all sent. */
  ghost predicate AllTaken(tags: seq<Tag>, accept: nat -> bool, n: nat)
    requires n <= |tags|
  {
    forall i :: 0 <= i < n ==> Playable(tags[i]) && accept(i)
  }

  /** What the player finds at the place of tag `i`, and where it goes from there. */
  lemma TagAhead(file: seq<byte>, tags: seq<Tag>, i: nat)
    requires Recorded(file, tags) && i < |tags|
    ensures AllOk(tags)
    ensures var o := OffsetOf(tags, i); var t := tags[i];
            && o + TAG_HEADER + |t.body| + 4 == OffsetOf(tags, i + 1) <= |file|
            && file[o] == t.kind && Body(file, o) == |t.body| && Time(file, o) == t.timestamp
            && file[o + TAG_HEADER..o + TAG_HEADER + |t.body|] == t.body
  {
    hide EncodeTag;
    TagIsThere(file, tags, i);
    TagReads(file, OffsetOf(tags, i), tags[i]);
    OffsetStep(tags, i);
    Ends(file, tags);
  }

  /** After each tag up to which all have been sent, the client's clock is the time of the tag. */
  ghost predicate ClocksRight(tags: seq<Tag>, accept: nat -> bool, clocks: seq<u32>) {
    |clocks| <= |tags|
    && forall i :: 0 <= i < |clocks| && AllTaken(tags, accept, i + 1) ==> clocks[i] == tags[i].timestamp
  }

  lemma NoClocks(tags: seq<Tag>, accept: nat -> bool)
    ensures ClocksRight(tags, accept, [])
  {
  }

  lemma ClocksNext(tags: seq<Tag>, accept: nat -> bool, clocks: seq<u32>, clock: u32)
    requires ClocksRight(tags, accept, clocks) && |clocks| < |tags|
    ensures AllTaken(tags, accept, |clocks| + 1)
            <==> AllTaken(tags, accept, |clocks|) && Playable(tags[|clocks|]) && accept(|clocks|)
    ensures (AllTaken(tags, accept, |clocks| + 1) ==> clock == tags[|clocks|].timestamp)
            ==> ClocksRight(tags, accept, clocks + [clock])
  {
  }

  lemma Ends(file: seq<byte>, tags: seq<Tag>)
    requires Recorded(file, tags)
    ensures AllOk(tags) && OffsetOf(tags, 0) == DATA_OFFSET && OffsetOf(tags, |tags|) == |file|
  {
    assert tags[..0] == [] && tags[..|tags|] == tags;
  }

  /** Of the first `n` tags, those that are media, not too big, and accepted. */
  function Kept(tags: seq<Tag>, accept: nat -> bool, n: nat): seq<Tag>
    requires n <= |tags|
  {
    if n == 0 then []
    else Kept(tags, accept, n - 1) + (if Playable(tags[n - 1]) && accept(n - 1) then [tags[n - 1]] else [])
  }

  /**
   In the order of the file, `kept` has every tag of audio or video of at most 1 MB that is accepted, once, and no
   other: `from` are their places among the first `n`.
   */
  ghost predicate Picked(tags: seq<Tag>, accept: nat -> bool, n: nat, from: seq<nat>, kept: seq<Tag>)
    requires n <= |tags|
  {
    && |from| == |kept| && (forall j, k :: 0 <= j < k < |from| ==> from[j] < from[k])
    && (forall j :: 0 <= j < |from| ==> from[j] < n && kept[j] == tags[from[j]])
    && (forall i: nat :: i < n ==>
          (i in from <==> (tags[i].kind == 8 || tags[i].kind == 9) && |tags[i].body| <= 1024 * 1024 && accept(i)))
  }

  lemma {:induction false} KeptExact(tags: seq<Tag>, accept: nat -> bool, n: nat) returns (from: seq<nat>)
    requires n <= |tags|
    ensures Picked(tags, accept, n, from, Kept(tags, accept, n))
  {
    hide Picked, Kept, Playable;
    KeptNext(tags, accept, n);
    if n == 0 {
      from := [];
    } else {
      from := KeptExact(tags, accept, n - 1);
      PickNext(tags, accept, n - 1, from, Kept(tags, accept, n - 1));
      if Playable(tags[n - 1]) && accept(n - 1) {
        from := from + [n - 1];
      }
    }
  }

  lemma KeptNext(tags: seq<Tag>, accept: nat -> bool, n: nat)
    requires n <= |tags|
    ensures n == 0 ==> Kept(tags, accept, n) == [] && Picked(tags, accept, 0, [], [])
    ensures n > 0 && Playable(tags[n - 1]) && accept(n - 1) ==>
      Kept(tags, accept, n) == Kept(tags, accept, n - 1) + [tags[n - 1]]
    ensures n > 0 && !(Playable(tags[n - 1]) && accept(n - 1)) ==> Kept(tags, accept, n) == Kept(tags, accept, n - 1)
  {
  }

  lemma PickNext(tags: seq<Tag>, accept: nat -> bool, n: nat, from: seq<nat>, kept: seq<Tag>)
    requires n < |tags| && Picked(tags, accept, n, from, kept)
    ensures if Playable(tags[n]) && accept(n) then Picked(tags, accept, n + 1, from + [n], kept + [tags[n]])
            else Picked(tags, accept, n + 1, from, kept)
  {
    forall i: nat | i <= n
      ensures i in from + [n] <==> i in from || i == n
    {
    }
    assert n !in from;
  }

  lemma Steps(clock: u32, last: u32, time: u32)
    ensures clock == last ==> Wrap(clock + Wrap(time - last)) == time
  {
    var q := if time >= last then 0 else 1;
    assert Wrap(time - last) == time - last + q * U32;
  }
}
