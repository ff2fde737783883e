/** The recorder: it writes the frames of a stream as tags, and in append mode goes on where the file ends. */
module FlvRecorder {
  import opened Bytes
  import opened FlvFormat

  const U31 := 0x8000_0000

  datatype Frame = Frame(kind: byte, timestamp: u32, body: seq<byte>)

  /** A frame that comes in, with the codec headers that go before it; a skipped frame is not recorded itself. */
  datatype Arrival = Arrival(frame: Frame, headers: seq<Frame>, skipped: bool)
  {
    predicate Sane() {
      && |frame.body| < U24
      && forall i :: 0 <= i < |headers| ==> |headers[i].body| < U24 && headers[i].timestamp == frame.timestamp
    }

    function Frames(): seq<Frame> {
      headers + if skipped then [] else [frame]
    }
  }

  /** The time of a frame in the file: what has passed since `epoch`, nothing if that is negative in 32 bits. */
  function RecordTime(timestamp: u32, epoch: u32): u32 {
    var t := Wrap(timestamp - epoch);
    if t >= U31 then 0 else t
  }

  function TagOf(f: Frame, epoch: u32): Tag {
    Tag(f.kind, RecordTime(f.timestamp, epoch), f.body)
  }

  /** Bytes written over those at an offset. */
  function WriteAt(file: seq<byte>, offset: nat, s: seq<byte>): (r: seq<byte>)
    requires offset <= |file|
    ensures offset == |file| ==> r == file + s
  {
    if offset + |s| <= |file| then file[..offset] + s + file[offset + |s|..] else file[..offset] + s
  }

  /** The media in a file, as its header tells. */
  function Mark(video: bool, audio: bool): byte {
    (if video then 1 else 0) + (if audio then 4 else 0)
  }

  /** Where a file that is opened to append goes on, and at what time. */
  function AppendPoint(file: seq<byte>): (p: (nat, u32))
    ensures p.0 <= |file|
  {
    var size := |file|;
    if size < 4 then (size, 0)
    else
      var tag: nat := Be32(file, size - 4);
      if tag == 0 || Wrap(tag + 4) > size then (0, 0)
      else
        var o := size - tag - 4;
        if o < 0 || o + 8 > size then (size, 0)
        else if tag != Be24(file, o + 1) + TAG_HEADER then (size, 0)
        else (size, file[o + 7] as int * U24 + Be24(file, o + 4))
  }

  /**
   Appending to a recorded file goes on at its end and at the time of its last tag; a file without tags starts over.
   */
  lemma AppendPointIsLast(file: seq<byte>, tags: seq<Tag>)
    requires Recorded(file, tags)
    ensures AppendPoint(file) == if tags == [] then (0, 0) else (|file|, tags[|tags| - 1].timestamp)
  {
    if tags == [] {
      assert file == Header(file[4]);
    } else {
      LastTagReads(file, tags);
    }
  }

  lemma LastTagReads(file: seq<byte>, tags: seq<Tag>)
    requires Recorded(file, tags) && tags != []
    ensures var t := tags[|tags| - 1]; var o := |file| - TAG_HEADER - |t.body| - 4;
            && o >= 0 && |t.body| < U24 && Be32(file, |file| - 4) == TAG_HEADER + |t.body|
            && Body(file, o) == |t.body| && Time(file, o) == t.timestamp
  {
    hide EncodeTag, EncodeTags;
    var i := |tags| - 1;
    TagIsThere(file, tags, i);
    OffsetStep(tags, i);
    TagReads(file, OffsetOf(tags, i), tags[i]);
  }

  lemma NoTags(file: seq<byte>, tags: seq<Tag>)
    requires Recorded(file, tags)
    ensures tags == [] ==> |file| == DATA_OFFSET
  {
  }

  lemma NothingYet()
    ensures AppendPoint([]) == (0, 0)
  {
  }

  class Recorder {
    var file: seq<byte>
    var open: bool
    var offset: nat
    var epoch: u32
    var timeShift: u32
    var initialized: bool
    var video: bool
    var audio: bool
    var nframes: nat
    const maxSize: nat
    const maxFrames: nat
    /** The tags in the file. */
    ghost var tags: seq<Tag>

    constructor (maxSize: nat, maxFrames: nat)
      ensures this.maxSize == maxSize && this.maxFrames == maxFrames && Valid() && !open && tags == []
    {
      this.maxSize, this.maxFrames := maxSize, maxFrames;
      file, open, offset, epoch, timeShift := [], false, 0, 0, 0;
      initialized, video, audio, nframes, tags := false, false, false, 0, [];
    }

    /** Either nothing has been recorded, or the file holds exactly the tags; an open file is written at its end. */
    ghost predicate Valid()
      reads this
    {
      && (|file| == 0 || Recorded(file, tags)) && (|file| == 0 ==> tags == [])
      && (open && initialized ==> Recorded(file, tags) && offset == |file|)
      && (open && !initialized ==> if tags == [] then offset == timeShift == 0 && |file| <= DATA_OFFSET
                                   else offset == |file| && timeShift == tags[|tags| - 1].timestamp)
    }

    /** Opens the file, to append to what it holds or from scratch. */
    method Open(append: bool)
      requires Valid() && !open
      modifies this
      ensures Valid() && open && !initialized && nframes == 0
      ensures tags == (if append then old(tags) else []) && file == (if append then old(file) else [])
      ensures timeShift == if |tags| > 0 then tags[|tags| - 1].timestamp else 0
    {
      hide Recorded, AppendPoint;
      initialized, video, audio, nframes := false, false, false, 0;
      epoch, timeShift, offset := 0, 0, 0;
      open := true;
      if !append {
        file, tags := [], [];
        return;
      }
      if |file| > 0 {
        AppendPointIsLast(file, tags);
        NoTags(file, tags);
      } else {
        NothingYet();
      }
      offset, timeShift := FindEnd();
    }

    /** The size of the file and the time of its last tag, found by the size at its end. */
    method FindEnd() returns (size: nat, time: u32)
      ensures (size, time) == AppendPoint(file)
    {
      hide Be24, Be32;
      size, time := |file|, 0;
      if size < 4 {
        return;
      }
      var tagSize: nat := Be32(file, size - 4);
      if tagSize == 0 || Wrap(tagSize + 4) > size {
        return 0, 0;
      }
      var o := size - tagSize - 4;
      if o < 0 || o + 8 > size || tagSize != Be24(file, o + 1) + TAG_HEADER {
        return;
      }
      time := file[o + 7] as int * U24 + Be24(file, o + 4);
    }

    /** One tag at the end of the file. A full file is closed. */
    method WriteFrame(f: Frame, counts: nat)
      requires Valid() && open && initialized && |f.body| < U24
      modifies this
      ensures Valid() && tags == old(tags) + [TagOf(f, old(epoch))]
      ensures (epoch, initialized) == (old(epoch), old(initialized)) && nframes == old(nframes) + counts
      ensures !open <==> (maxSize != 0 && offset >= maxSize) || (maxFrames != 0 && nframes >= maxFrames)
      ensures (video, audio) == (old(video) || f.kind as nat == VIDEO, old(audio) || f.kind as nat != VIDEO)
      ensures !open ==> |file| > 4 && file[4] == (if video then 1 else 0) + (if audio then 4 else 0)
    {
      hide Recorded, EncodeTag, RecordTime;
      if f.kind as nat == VIDEO {
        video := true;
      } else {
        audio := true;
      }
      ghost var tag := TagOf(f, epoch);
      Grown(file, tags, tag);
      WriteTag(f, RecordTime(f.timestamp, epoch));
      tags := tags + [tag];
      NotEmpty(file, tags);
      nframes := nframes + counts;
      if (maxSize != 0 && offset >= maxSize) || (maxFrames != 0 && nframes >= maxFrames) {
        Close();
      }
    }

    /** The header, the body and the size of a tag, one after the other. */
    method WriteTag(f: Frame, time: u32)
      requires offset == |file| && |f.body| < U24
      modifies `file, `offset
      ensures file == old(file) + EncodeTag(Tag(f.kind, time, f.body)) && offset == |file|
    {
      var head := [f.kind] + PutBe24(|f.body|) + PutBe24(time % U24) + [time / U24] + [0, 0, 0];
      assert head == TagHeader(Tag(f.kind, time, f.body));
      Append(head);
      Append(f.body);
      Append(PutBe32(TAG_HEADER + |f.body|));
    }

    method Append(s: seq<byte>)
      requires offset <= |file|
      modifies `file, `offset
      ensures file == WriteAt(old(file), old(offset), s) && offset == old(offset) + |s|
      ensures old(offset) == |old(file)| ==> file == old(file) + s && offset == |file|
    {
      file := WriteAt(file, offset, s);
      offset := offset + |s|;
    }

    /** Closing puts the media that were recorded into the header. */
    method Close()
      requires Valid() && open
      modifies `file, `open
      ensures Valid() && !open && tags == old(tags) && |file| == |old(file)|
      ensures if initialized then |file| > 4 && file[4] == (if video then 1 else 0) + (if audio then 4 else 0)
              else file == old(file)
    {
      if initialized {
        var av := Mark(video, audio);
        HeaderMarked(file, tags, av);
        file := WriteAt(file, 4, [av]);
      }
      open := false;
    }

    /** The first frame of a session sets the epoch, so that it is recorded at the time where the file goes on. */
    method Start(timestamp: u32)
      requires Valid() && open && !initialized
      modifies `initialized, `epoch, `file, `offset
      ensures Valid() && open && initialized && epoch == Wrap(timestamp - timeShift)
    {
      initialized := true;
      epoch := Wrap(timestamp - timeShift);
      if offset == 0 {
        HeaderStarts(file, tags, 0x05);
        file := WriteAt(file, 0, Header(0x05));
        offset := offset + DATA_OFFSET;
      }
    }

    /**
     A frame of the stream, after the codec headers that go before it, which count for nothing. A frame for which the
     recording cannot start yet is skipped, but not the headers.
     */
    method Record(a: Arrival)
      requires Valid() && a.Sane()
      modifies this
      ensures Valid()
      ensures !old(open) ==> tags == old(tags) && file == old(file) && !open
      ensures old(open) ==> epoch == if old(initialized) then old(epoch) else Wrap(a.frame.timestamp - old(timeShift))
      ensures old(open) ==>
        if open then
          && initialized && tags == old(tags) + TagsOf(a.Frames(), epoch)
          && nframes == old(nframes) + if a.skipped then 0 else 1
        else old(tags) <= tags <= old(tags) + TagsOf(a.Frames(), epoch) && (maxSize != 0 || maxFrames != 0)
    {
      hide Recorded, TagOf;
      if !open {
        return;
      }
      if !initialized {
        Start(a.frame.timestamp);
      }
      WriteAll(a.Frames(), !a.skipped);
    }

    /**
     A session from its opening to its closing. When its frames come in order and stay below 2^31 in the file, the file
     stays in order, and it has all of the session unless a limit is set.
     */
    method Session(arrivals: seq<Arrival>, append: bool)
      requires Valid() && !open && InOrder(if append then tags else [])
      requires Steady(arrivals, if append then LastTime(tags) else 0)
      modifies this
      ensures Valid() && !open && InOrder(tags)
      ensures var was := if append then old(tags) else []; var all := was + SessionTags(arrivals, LastTime(was));
              was <= tags <= all && (maxSize == maxFrames == 0 ==> tags == all)
      ensures LastTime(tags) <= EndTime(arrivals, if append then LastTime(old(tags)) else 0)
    {
      hide Recorded, TagsOf, InOrder, Steady, SessionTags, TimeOf, Arrival.Sane, Arrival.Frames, AppendPoint;
      Open(append);
      ghost var was, shift := tags, LastTime(tags);
      SessionTagsUpTo(arrivals, shift, 0);
      var n := 0;
      while n < |arrivals|
        invariant n <= |arrivals| && InSession(arrivals, shift, was, n)
      {
        RecordNext(arrivals, n, shift, was);
        n := n + 1;
      }
      assert arrivals[..n] == arrivals;
      if open {
        Close();
      }
    }

    /** After `n` arrivals of a session that goes on behind the tags `was` at time `shift`. */
    ghost predicate InSession(arrivals: seq<Arrival>, shift: u32, was: seq<Tag>, n: nat)
      reads this
      requires n <= |arrivals|
    {
      && Valid() && InOrder(tags) && LastTime(tags) <= (if n == 0 then shift else TimeOf(arrivals, shift, n - 1))
      && (open && n == 0 ==> !initialized && timeShift == shift)
      && (open && n > 0 ==> initialized && epoch == Wrap(arrivals[0].frame.timestamp - shift))
      && (open ==> tags == was + SessionTags(arrivals[..n], shift))
      && (!open ==> was <= tags <= was + SessionTags(arrivals, shift) && (maxSize != 0 || maxFrames != 0))
    }

    method RecordNext(arrivals: seq<Arrival>, n: nat, ghost shift: u32, ghost was: seq<Tag>)
      requires n < |arrivals| && Steady(arrivals, shift) && InSession(arrivals, shift, was, n)
      modifies this
      ensures InSession(arrivals, shift, was, n + 1)
    {
      hide Recorded, TagsOf, InOrder, Steady, SessionTags, TimeOf, Arrival.Sane, Arrival.Frames, Valid, LastTime, Wrap;
      SteadyAt(arrivals, shift, n);
      SessionTagsUpTo(arrivals, shift, n);
      SessionTagsUpTo(arrivals, shift, n + 1);
      ghost var before, at := tags, open;
      Record(arrivals[n]);
      if at {
        ArrivalInOrder(before, tags, arrivals, shift, n);
        ghost var step := TagsOf(arrivals[n].Frames(), Wrap(arrivals[0].frame.timestamp - shift));
        Between(was, SessionTags(arrivals[..n], shift), before, tags, step, SessionTags(arrivals, shift));
      }
    }

    /**
     A run of sessions, each appended to what the ones before left: the file is in order all along, and without a limit
     it holds all of every session.
     */
    method Sessions(runs: seq<seq<Arrival>>)
      requires Valid() && !open && InOrder(tags) && AllSteady(runs, LastTime(tags))
      modifies this
      ensures Valid() && !open && InOrder(tags) && old(tags) <= tags
      ensures maxSize == maxFrames == 0 ==> tags == AllSessions(old(tags), runs)
    {
      hide InOrder, Valid, SessionTags, Steady, LastTime, EndTime;
      var n := 0;
      while n < |runs|
        invariant 0 <= n <= |runs| && Valid() && !open && InOrder(tags) && old(tags) <= tags
        invariant AllSteady(runs[n..], LastTime(tags))
        invariant maxSize == maxFrames == 0 ==> AllSessions(tags, runs[n..]) == AllSessions(old(tags), runs)
      {
        ghost var shift := LastTime(tags);
        assert runs[n..][0] == runs[n] && runs[n..][1..] == runs[n + 1..];
        Session(runs[n], true);
        EarlierIsSteady(runs[n + 1..], EndTime(runs[n], shift), LastTime(tags));
        n := n + 1;
      }
    }

    /** Tags one after the other until the file is full; `framed` says that the last of them counts as a frame. */
    method WriteAll(fs: seq<Frame>, framed: bool)
      requires Valid() && open && initialized && forall i :: 0 <= i < |fs| ==> |fs[i].body| < U24
      modifies this
      ensures Valid() && epoch == old(epoch) && initialized
      ensures old(tags) <= tags <= old(tags) + TagsOf(fs, epoch)
      ensures open ==> tags == old(tags) + TagsOf(fs, epoch)
      ensures if open then nframes == old(nframes) + if framed && fs != [] then 1 else 0
              else maxSize != 0 || maxFrames != 0
    {
      hide Recorded, TagOf;
      var n := 0;
      while n < |fs| && open
        invariant 0 <= n <= |fs| && Valid() && initialized && epoch == old(epoch)
        invariant tags == old(tags) + TagsOf(fs[..n], epoch)
        invariant nframes == old(nframes) + if framed && 0 < n == |fs| then 1 else 0
        invariant !open ==> maxSize != 0 || maxFrames != 0
      {
        assert TagsOf(fs[..n + 1], epoch) == TagsOf(fs[..n], epoch) + [TagOf(fs[n], epoch)];
        WriteFrame(fs[n], if framed && n == |fs| - 1 then 1 else 0);
        n := n + 1;
      }
      TagsPrefix(fs, n, epoch);
    }
  }

  lemma TagsPrefix(fs: seq<Frame>, n: nat, epoch: u32)
    requires n <= |fs|
    ensures TagsOf(fs[..n], epoch) <= TagsOf(fs, epoch) && (n == |fs| ==> TagsOf(fs[..n], epoch) == TagsOf(fs, epoch))
  {
  }

  function TagsOf(fs: seq<Frame>, epoch: u32): (r: seq<Tag>)
    ensures |r| == |fs| && forall i :: 0 <= i < |fs| ==> r[i] == TagOf(fs[i], epoch)
  {
    seq(|fs|, i requires 0 <= i < |fs| => TagOf(fs[i], epoch))
  }

  lemma Grown(file: seq<byte>, tags: seq<Tag>, t: Tag)
    requires Recorded(file, tags) && TagOk(t)
    ensures Recorded(file + EncodeTag(t), tags + [t])
  {
    assert (tags + [t])[..|tags|] == tags;
    var all := file + EncodeTag(t);
    assert all[..DATA_OFFSET] == file[..DATA_OFFSET];
    assert all[DATA_OFFSET..] == file[DATA_OFFSET..] + EncodeTag(t);
  }

  lemma NotEmpty(file: seq<byte>, tags: seq<Tag>)
    requires Recorded(file, tags)
    ensures |file| > 0
  {
  }

  lemma HeaderMarked(file: seq<byte>, tags: seq<Tag>, av: byte)
    requires Recorded(file, tags)
    ensures Recorded(WriteAt(file, 4, [av]), tags) && |WriteAt(file, 4, [av])| == |file|
  {
    var r := WriteAt(file, 4, [av]);
    assert r[..DATA_OFFSET] == file[..4] + [av] + file[5..DATA_OFFSET];
    assert file[..4] == file[..DATA_OFFSET][..4] && file[5..DATA_OFFSET] == file[..DATA_OFFSET][5..];
    assert r[..DATA_OFFSET] == Header(av);
    assert r[DATA_OFFSET..] == file[DATA_OFFSET..];
  }

  lemma HeaderStarts(file: seq<byte>, tags: seq<Tag>, media: byte)
    requires tags == [] && |file| <= DATA_OFFSET
    ensures Recorded(WriteAt(file, 0, Header(media)), tags)
  {
    assert WriteAt(file, 0, Header(media)) == Header(media);
  }

  // ----- the order of the file -----

  /** The times in the file do not decrease. */
  predicate InOrder(tags: seq<Tag>) {
    forall i, j :: 0 <= i < j < |tags| ==> tags[i].timestamp <= tags[j].timestamp
  }

  /** The time of the last tag, at which a session that is appended goes on. */
  function LastTime(tags: seq<Tag>): u32 {
    if |tags| > 0 then tags[|tags| - 1].timestamp else 0
  }

  /** The time in the file of arrival `i`: where the file goes on, and what has passed since the first arrival. */
  function TimeOf(arrivals: seq<Arrival>, shift: u32, i: nat): nat
    requires i < |arrivals|
  {
    shift + Wrap(arrivals[i].frame.timestamp - arrivals[0].frame.timestamp)
  }

  /** The times do not decrease and stay below 2^31. */
  ghost predicate Steady(arrivals: seq<Arrival>, shift: u32) {
    && (forall i :: 0 <= i < |arrivals| ==> arrivals[i].Sane() && TimeOf(arrivals, shift, i) < U31)
    && (forall i, j :: 0 <= i < j < |arrivals| ==> TimeOf(arrivals, shift, i) <= TimeOf(arrivals, shift, j))
  }

  /** Where the next session goes on at the latest. */
  function EndTime(arrivals: seq<Arrival>, shift: u32): nat {
    if arrivals == [] then shift else TimeOf(arrivals, shift, |arrivals| - 1)
  }

  ghost predicate AllSteady(runs: seq<seq<Arrival>>, shift: nat) {
    runs == [] || (shift < U31 && Steady(runs[0], shift) && AllSteady(runs[1..], EndTime(runs[0], shift)))
  }

  /** The tags of a session, each at its time in the file. */
  function SessionTags(arrivals: seq<Arrival>, shift: u32): seq<Tag> {
    if arrivals == [] then []
    else
      SessionTags(arrivals[..|arrivals| - 1], shift)
      + TagsOf(arrivals[|arrivals| - 1].Frames(), Wrap(arrivals[0].frame.timestamp - shift))
  }

  /** The tags after these sessions, each of which goes on at the time of the last tag before it. */
  function AllSessions(tags: seq<Tag>, runs: seq<seq<Arrival>>): seq<Tag>
    decreases |runs|
  {
    if runs == [] then tags else AllSessions(tags + SessionTags(runs[0], LastTime(tags)), runs[1..])
  }

  lemma {:induction false} SessionTagsUpTo(arrivals: seq<Arrival>, shift: u32, n: nat)
    requires n <= |arrivals|
    ensures n == 0 ==> SessionTags(arrivals[..n], shift) == []
    ensures n < |arrivals| ==>
      SessionTags(arrivals[..n + 1], shift)
      == SessionTags(arrivals[..n], shift) + TagsOf(arrivals[n].Frames(), Wrap(arrivals[0].frame.timestamp - shift))
    ensures SessionTags(arrivals[..n], shift) <= SessionTags(arrivals, shift)
    decreases |arrivals| - n
  {
    hide Wrap, TagsOf, Arrival.Frames;
    if n < |arrivals| {
      var upTo := arrivals[..n + 1];
      assert upTo[..n] == arrivals[..n] && upTo[n] == arrivals[n] && upTo[0] == arrivals[0];
      SessionTagsUpTo(arrivals, shift, n + 1);
    } else {
      assert arrivals[..n] == arrivals;
    }
  }

  /** Tags between what was there and all that is to come. */
  lemma Between(was: seq<Tag>, mid: seq<Tag>, before: seq<Tag>, after: seq<Tag>, step: seq<Tag>, all: seq<Tag>)
    requires before == was + mid && before <= after <= before + step && mid + step <= all
    ensures was <= after <= was + all && (after == before + step ==> after == was + (mid + step))
  {
    assert before + step == was + (mid + step);
  }

  lemma SteadyAt(arrivals: seq<Arrival>, shift: u32, n: nat)
    requires Steady(arrivals, shift) && n < |arrivals|
    ensures arrivals[n].Sane() && shift <= TimeOf(arrivals, shift, n) < U31
    ensures n > 0 ==> TimeOf(arrivals, shift, n - 1) <= TimeOf(arrivals, shift, n)
  {
  }

  /** A session that starts no later than another with the same frames is as steady. */
  lemma {:induction false} EarlierIsSteady(runs: seq<seq<Arrival>>, late: nat, early: nat)
    requires AllSteady(runs, late) && early <= late
    ensures AllSteady(runs, early)
    decreases |runs|
  {
    if runs != [] {
      var r := runs[0];
      assert forall i :: 0 <= i < |r| ==> TimeOf(r, early, i) == TimeOf(r, late, i) - (late - early);
      EarlierIsSteady(runs[1..], EndTime(r, late), EndTime(r, early));
    }
  }

  /** What arrival `n` adds to a file in order is at its own time, and not before what is there. */
  lemma ArrivalInOrder(before: seq<Tag>, after: seq<Tag>, arrivals: seq<Arrival>, shift: u32, n: nat)
    requires Steady(arrivals, shift) && n < |arrivals| && InOrder(before)
    requires LastTime(before) <= if n == 0 then shift else TimeOf(arrivals, shift, n - 1)
    requires before <= after <= before + TagsOf(arrivals[n].Frames(), Wrap(arrivals[0].frame.timestamp - shift))
    ensures InOrder(after) && LastTime(after) <= TimeOf(arrivals, shift, n)
  {
    hide RecordTime;
    var a := arrivals[n];
    var t := TimeOf(arrivals, shift, n);
    RecordTimeExact(a.frame.timestamp, arrivals[0].frame.timestamp, shift);
    forall i | |before| <= i < |after| ensures after[i].timestamp == t {
      assert a.Frames()[i - |before|].timestamp == a.frame.timestamp;
    }
  }

  /**
   A frame is recorded at the time where the file goes on and what has passed since the first frame, as long as that is
   below 2^31; after that at 0.
   */
  lemma RecordTimeExact(timestamp: u32, first: u32, shift: u32)
    requires shift < U31 && shift + Wrap(timestamp - first) < U32
    ensures var t := shift + Wrap(timestamp - first);
            RecordTime(timestamp, Wrap(first - shift)) == if t < U31 then t else 0
  {
    var e, d := Wrap(first - shift), Wrap(timestamp - first);
    var q := if first >= shift then 0 else 1;
    assert e == first - shift + q * U32;
    var m := if timestamp >= first then 0 else 1;
    assert d == timestamp - first + m * U32;
    assert timestamp - e == shift + d - (m + q) * U32;
  }

  /**
   What one arrival adds to the file: its headers and then, unless it is skipped, the frame, with their kinds and
   bodies, at the time where the file goes on and what has passed since the first frame.
   */
  lemma ArrivalTags(a: Arrival, first: u32, shift: u32)
    requires a.Sane() && shift + Wrap(a.frame.timestamp - first) < U31
    ensures var r, t := TagsOf(a.Frames(), Wrap(first - shift)), shift + Wrap(a.frame.timestamp - first);
            && |r| == |a.headers| + (if a.skipped then 0 else 1)
            && (forall i :: 0 <= i < |a.headers| ==> r[i] == Tag(a.headers[i].kind, t, a.headers[i].body))
            && (!a.skipped ==> r[|a.headers|] == Tag(a.frame.kind, t, a.frame.body))
  {
    hide RecordTime;
    RecordTimeExact(a.frame.timestamp, first, shift);
  }
}
