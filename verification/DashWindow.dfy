/**
 The fragments of a DASH stream: a ring of start times and durations, and the samples of the fragment that is open.
 */
module DashWindow {
  import opened Arithmetic
  import opened Bytes

  const U31 := 0x8000_0000
  const MAX_SAMPLES := 1024
  const MAX_MDAT := 10 * 1024 * 1024

  datatype Frag = Frag(timestamp: u32, duration: u32)
  datatype Sample = Sample(timestamp: u32, duration: u32, size: nat, key: bool)

  /** `earliest` and `latest` are the first and the last timestamp in the fragment. */
  datatype Track = Track(active: bool, samples: seq<Sample>, mdatSize: nat, earliest: u32, latest: u32)

  const EMPTY := Track(true, [], 0, 0, 0)

  /** How far a timestamp is from another, as a signed 32-bit number. */
  function Distance(timestamp: u32, start: u32): int {
    var d := Wrap(timestamp - start);
    if d < U31 then d else d - U32
  }

  function End(f: Frag): u32 {
    Wrap(f.timestamp + f.duration)
  }

  lemma EndExact(timestamp: u32, start: u32)
    ensures End(Frag(start, Wrap(timestamp - start))) == timestamp && Distance(start, start) == 0
    ensures Distance(timestamp, start) >= 0 ==> Distance(timestamp, start) == Wrap(timestamp - start)
  {
    var q := if timestamp >= start then 0 else 1;
    assert Wrap(timestamp - start) == timestamp - start + q * U32;
  }

  /** The distance is the one in the signed range that leads from the start to the timestamp. */
  lemma DistanceIs(timestamp: u32, start: u32, d: int)
    ensures d == Distance(timestamp, start) <==> -U31 <= d < U31 && Wrap(start + d) == timestamp
  {
    var e := Distance(timestamp, start);
    var q := if timestamp >= start then 0 else 1;
    assert Wrap(timestamp - start) == timestamp - start + q * U32;
    assert -U31 <= e < U31 && Wrap(start + e) == timestamp;
    if -U31 <= d < U31 && Wrap(start + d) == timestamp {
      var k, l := (start + d) / U32, (start + e) / U32;
      assert d - e == (k - l) * U32;
    }
  }

  // ----- the samples of a track -----

  function ByteSum(samples: seq<Sample>): nat {
    if samples == [] then 0 else ByteSum(samples[..|samples| - 1]) + samples[|samples| - 1].size
  }

  /** The bytes are those of the samples, of which there are not too many; `earliest` is the time of the first. */
  ghost predicate Sound(t: Track) {
    && |t.samples| <= MAX_SAMPLES && t.mdatSize == ByteSum(t.samples)
    && (|t.samples| > 0 ==> t.earliest == t.samples[0].timestamp)
  }

  /**
   Track `r` is track `t` with one more sample, up to which the one before it lasts, if there was room for it; it ends
   at the new sample in any case.
   */
  ghost predicate Stored(t: Track, timestamp: u32, size: nat, key: bool, r: Track) {
    var n := |t.samples|;
    && r.active == t.active && r.latest == timestamp
    && (if n < MAX_SAMPLES then
          && |r.samples| == n + 1 && r.samples[n] == Sample(timestamp, 0, size, key)
          && (n > 0 ==> r.samples[n - 1] == t.samples[n - 1].(duration := Wrap(timestamp - t.samples[n - 1].timestamp)))
          && (forall i :: 0 <= i < n - 1 ==> r.samples[i] == t.samples[i])
          && r.mdatSize == t.mdatSize + size && r.earliest == r.samples[0].timestamp
        else r.samples == t.samples && r.mdatSize == t.mdatSize && r.earliest == t.earliest)
  }

  // ----- the ring -----

  /** Fragment `k` of the stream is in slot `k` modulo the size of the ring. */
  function SlotOf(size: nat, k: nat): (i: nat)
    requires size > 0
    ensures i < size
  {
    k % size
  }

  /** The ring holds the closed fragments but for those that the one now open, or a later one, has overwritten. */
  ghost predicate RingHolds(ring: seq<Frag>, closed: seq<Frag>) {
    |ring| > 0 && forall k :: 0 <= k < |closed| && |closed| < k + |ring| ==> ring[SlotOf(|ring|, k)] == closed[k]
  }

  /** Fewer than a ring's length apart, two fragments are in different slots. */
  lemma SlotsDiffer(size: nat, j: nat, k: nat)
    requires size > 0 && j < k < j + size
    ensures SlotOf(size, j) != SlotOf(size, k)
  {
    if SlotOf(size, j) == SlotOf(size, k) {
      var q, p := k / size, j / size;
      DivBasics(k, size);
      DivBasics(j, size);
      Distribute(q, -p, size);
      assert (q - p) * size == k - j;
      if q - p >= 1 {
        MulLe(1, q - p, size);
      } else {
        MulLe(0, p - q, size);
      }
    }
  }

  /** Writing to the slot of the open fragment leaves the closed ones as they are. */
  lemma OpenSlotApart(ring: seq<Frag>, closed: seq<Frag>, f: Frag)
    requires RingHolds(ring, closed)
    ensures RingHolds(ring[SlotOf(|ring|, |closed|) := f], closed)
  {
    forall k | 0 <= k < |closed| && |closed| < k + |ring|
      ensures SlotOf(|ring|, k) != SlotOf(|ring|, |closed|)
    {
      SlotsDiffer(|ring|, k, |closed|);
    }
  }

  /** The open fragment is closed. */
  lemma ClosedNext(ring: seq<Frag>, closed: seq<Frag>)
    requires RingHolds(ring, closed)
    ensures RingHolds(ring, closed + [ring[SlotOf(|ring|, |closed|)]])
  {
  }

  /** What the playlist lists, from slot `frag` on. */
  function Listed(ring: seq<Frag>, frag: nat, nfrags: nat): (r: seq<Frag>)
    requires |ring| > 0
    ensures |r| == nfrags && forall i :: 0 <= i < nfrags ==> r[i] == ring[SlotOf(|ring|, frag + i)]
  {
    seq(nfrags, i requires 0 <= i < nfrags => ring[SlotOf(|ring|, frag + i)])
  }

  /** The playlist lists exactly the latest fragments closed, at most as many as the window has room for, in order. */
  lemma ListedAreLatest(ring: seq<Frag>, closed: seq<Frag>, frag: nat, nfrags: nat)
    requires RingHolds(ring, closed) && frag + nfrags == |closed| && nfrags < |ring|
    ensures Listed(ring, frag, nfrags) == closed[|closed| - nfrags..]
  {
  }

  /** A fragment that a boundary not in the past has closed ends where the next one starts. */
  ghost predicate Gapless(closed: seq<Frag>, joined: seq<bool>, open: bool, current: Frag) {
    && |joined| == |closed|
    && (forall k :: 0 <= k < |closed| - 1 && joined[k] ==> End(closed[k]) == Start(closed, k + 1))
    && (|closed| > 0 && joined[|closed| - 1] ==> open && End(closed[|closed| - 1]) == current.timestamp)
  }

  /** Closing without a next fragment joins nothing. */
  lemma GaplessClosed(closed: seq<Frag>, joined: seq<bool>, current: Frag)
    requires Gapless(closed, joined, true, current)
    ensures |joined| == |closed| && forall next :: Gapless(closed + [current], joined + [false], false, next)
  {
    forall k | 0 <= k < |closed| && (joined + [false])[k]
      ensures End(closed[k]) == (closed + [current])[k + 1].timestamp
    {
      if k < |closed| - 1 {
        assert End(closed[k]) == Start(closed, k + 1);
      }
    }
  }

  lemma LastNotJoined(closed: seq<Frag>, joined: seq<bool>, open: bool, current: Frag)
    requires Gapless(closed, joined, open, current)
    ensures |joined| == |closed| && (!open && |closed| > 0 ==> !joined[|closed| - 1])
  {
  }

  function Start(closed: seq<Frag>, k: nat): u32
    requires k < |closed|
  {
    closed[k].timestamp
  }

  /** Every sample lies less than twice the fragment length after the start. */
  predicate Near(samples: seq<Sample>, start: u32, fraglen: nat) {
    forall i :: 0 <= i < |samples| ==> Distance(samples[i].timestamp, start) < 2 * fraglen
  }

  /** The whole state of a stream; `closed` and `joined` tell of the fragments closed so far. */
  datatype State = State(win: nat, fraglen: nat, ring: seq<Frag>, frag: nat, nfrags: nat, id: nat, open: bool,
                         hasVideo: bool, hasAudio: bool, audio: Track, video: Track,
                         closed: seq<Frag>, joined: seq<bool>)
  {
    /** The fragment that samples go to. */
    function Current(): Frag
      requires |ring| > 0
    {
      ring[SlotOf(|ring|, frag + nfrags)]
    }

    function SetCurrent(f: Frag): State
      requires |ring| > 0
    {
      this.(ring := ring[SlotOf(|ring|, frag + nfrags) := f])
    }

    ghost predicate Ok() {
      && |ring| == 2 * win + 1 && fraglen > 0
      && frag + nfrags == id == |closed| && nfrags == (if id < win then id else win)
      && RingHolds(ring, closed) && Gapless(closed, joined, open, Current())
      && audio.active == video.active == open
      && Contiguous(audio.samples) && Contiguous(video.samples) && Sound(audio) && Sound(video)
      && (open ==> Near(audio.samples, Current().timestamp, fraglen)
                   && Near(video.samples, Current().timestamp, fraglen))
    }

    /** Closing moves the window on by one fragment. */
    function Closed(): State
      requires |ring| > 0
    {
      if !open then this
      else
        var slides := nfrags == win;
        State(win, fraglen, ring, if slides then frag + 1 else frag, if slides then nfrags else nfrags + 1,
              id + 1, false, hasVideo, hasAudio, audio.(active := false), video.(active := false),
              closed + [Current()], joined + [false])
    }

    function Opened(): State {
      if open then this else this.(audio := EMPTY, video := EMPTY, open := true)
    }

    /** The open fragment starts, joined to the one before if that ends there. */
    function Started(timestamp: u32, join: bool): State
      requires |ring| > 0 && (join ==> |joined| > 0)
    {
      SetCurrent(Current().(timestamp := timestamp)).(joined := if join then joined[|joined| - 1 := true] else joined)
    }

    function Measured(duration: u32): State
      requires |ring| > 0
    {
      SetCurrent(Current().(duration := duration))
    }

    /** The open fragment reaches to `timestamp`, unless that is before its start. */
    function Extended(timestamp: u32): State
      requires |ring| > 0
    {
      if Distance(timestamp, Current().timestamp) >= 0 then Measured(Wrap(timestamp - Current().timestamp)) else this
    }

    predicate Big() {
      audio.mdatSize >= MAX_MDAT || video.mdatSize >= MAX_MDAT
    }

    predicate CutsAt(key: bool, timestamp: u32)
      requires |ring| > 0
    {
      Cuts(open, hasVideo, hasAudio, key, Distance(timestamp, Current().timestamp), fraglen, Big())
    }

    /** The open fragment, if there is one, is closed and the next one starts. */
    function Recut(timestamp: u32, join: bool): State
      requires |ring| > 0 && (join ==> open)
    {
      Closed().Opened().Started(timestamp, join)
    }

    /** After ngx_rtmp_dash_update_fragments. */
    function Updated(key: bool, timestamp: u32): State
      requires |ring| > 0
    {
      var join := open && Distance(timestamp, Current().timestamp) >= 0;
      if CutsAt(key, timestamp) then Extended(timestamp).Recut(timestamp, join) else Extended(timestamp)
    }

    function Appended(isVideo: bool, key: bool, timestamp: u32, size: nat): State {
      if isVideo then this.(video := Grown(video, timestamp, size, key))
      else this.(audio := Grown(audio, timestamp, size, key))
    }
  }

  /** Closing lists the latest fragments; what was open is the last of them. */
  lemma ClosedOk(s: State)
    requires s.Ok()
    ensures var r := s.Closed();
            && r.Ok() && !r.open && Listed(r.ring, r.frag, r.nfrags) == r.closed[|r.closed| - r.nfrags..]
            && |r.joined| == |r.closed| && (|r.joined| > 0 ==> !r.joined[|r.joined| - 1]) && r.fraglen == s.fraglen
            && (if s.open then r.closed == s.closed + [s.Current()] && r.joined == s.joined + [false]
                else r.closed == s.closed && r.joined == s.joined)
  {
    hide Near, RingHolds, Gapless, Listed, SlotOf, Contiguous;
    if s.open {
      ClosedNext(s.ring, s.closed);
      GaplessClosed(s.closed, s.joined, s.Current());
    } else {
      LastNotJoined(s.closed, s.joined, s.open, s.Current());
    }
    ClosedListed(s);
  }

  lemma ClosedListed(s: State)
    requires s.Ok()
    ensures var r := s.Closed();
            |r.closed| >= r.nfrags && Listed(r.ring, r.frag, r.nfrags) == r.closed[|r.closed| - r.nfrags..]
  {
    hide Near, RingHolds, Gapless, Listed, SlotOf, Contiguous;
    var r := s.Closed();
    ClosedNext(s.ring, s.closed);
    ListedAreLatest(r.ring, r.closed, r.frag, r.nfrags);
  }

  lemma NotEmpty(s: State)
    requires s.Ok()
    ensures |s.ring| > 0 && s.fraglen > 0
  {
  }

  lemma ClosedCounts(s: State)
    requires s.Ok()
    ensures |s.Closed().ring| == |s.ring| && (s.open ==> |s.Closed().joined| == |s.joined| + 1)
  {
  }

  lemma MeasuredOk(s: State, duration: u32)
    requires s.Ok()
    ensures s.Measured(duration).Ok() && s.Measured(duration).Current() == s.Current().(duration := duration)
  {
    hide Near, RingHolds, SlotOf, Contiguous;
    OpenSlotApart(s.ring, s.closed, s.Current().(duration := duration));
  }

  lemma OpenedOk(s: State)
    requires s.Ok() && !s.open
    ensures var r := s.Opened();
            && r.Ok() && r.Current() == s.Current() && r.open && r.audio == EMPTY && r.video == EMPTY
            && (r.closed, r.joined, r.fraglen) == (s.closed, s.joined, s.fraglen)
  {
    hide RingHolds, SlotOf;
  }

  lemma StartedOk(s: State, timestamp: u32, join: bool)
    requires s.Ok() && s.open && s.audio == EMPTY && s.video == EMPTY && (|s.joined| > 0 ==> !s.joined[|s.joined| - 1])
    requires join ==> |s.closed| > 0 && End(s.closed[|s.closed| - 1]) == timestamp
    ensures |s.joined| == |s.closed| && s.Started(timestamp, join).Ok()
    ensures var r := s.Started(timestamp, join);
            && r.Current().timestamp == timestamp && r.open && r.audio == EMPTY && r.video == EMPTY
            && r.closed == s.closed && r.fraglen == s.fraglen
            && r.joined == if join then s.joined[|s.joined| - 1 := true] else s.joined
  {
    hide RingHolds, SlotOf, End, Contiguous;
    OpenSlotApart(s.ring, s.closed, s.Current().(timestamp := timestamp));
  }

  lemma ExtendedOk(s: State, timestamp: u32)
    requires s.Ok()
    ensures var m := s.Extended(timestamp); var d := Distance(timestamp, s.Current().timestamp);
            && m.Ok() && |m.ring| == |s.ring| && m.fraglen == s.fraglen && m.open == s.open
            && (m.closed, m.joined, m.audio, m.video) == (s.closed, s.joined, s.audio, s.video)
            && m.Current() == (if d >= 0 then s.Current().(duration := d) else s.Current())
            && (d >= 0 ==> End(m.Current()) == timestamp)
  {
    hide Near, RingHolds, Gapless, SlotOf, Distance, Contiguous, End;
    var start := s.Current().timestamp;
    EndExact(timestamp, start);
    if Distance(timestamp, start) >= 0 {
      MeasuredOk(s, Wrap(timestamp - start));
    }
  }

  /** The open fragment after an update: every sample is to lie near its start. */
  ghost predicate Fresh(s: State, timestamp: u32, r: State)
    requires |r.ring| > 0
  {
    r.Ok() && r.open && Distance(timestamp, r.Current().timestamp) < 2 * s.fraglen
  }

  /** What a cut at a sample closes, and whether what it closes reaches to the sample. */
  ghost predicate CutAt(s: State, timestamp: u32, r: State)
    requires |s.ring| > 0 && |r.ring| > 0
  {
    var d := Distance(timestamp, s.Current().timestamp);
    && r.Current().timestamp == timestamp && r.audio == EMPTY && r.video == EMPTY
    && (if s.open then
          && r.joined == s.joined + [d >= 0]
          && r.closed == s.closed + [s.Current().(duration := if d >= 0 then d else s.Current().duration)]
        else r.closed == s.closed && r.joined == s.joined)
  }

  ghost predicate Uncut(s: State, r: State)
    requires |s.ring| > 0 && |r.ring| > 0
  {
    && r.Current().timestamp == s.Current().timestamp
    && (r.closed, r.joined, r.audio, r.video) == (s.closed, s.joined, s.audio, s.video)
  }

  /**
   Before a sample is added, the stream is cut if it must be; then the sample lies less than twice the fragment length
   after the start of the open fragment, and a fragment cut at a sample that was not in the past reaches to that sample.
   */
  lemma UpdatedOk(s: State, key: bool, timestamp: u32)
    requires s.Ok() && (s.hasVideo || s.hasAudio)
    ensures |s.ring| > 0 && |s.Updated(key, timestamp).ring| > 0
    ensures var r := s.Updated(key, timestamp);
            Fresh(s, timestamp, r) && if s.CutsAt(key, timestamp) then CutAt(s, timestamp, r) else Uncut(s, r)
  {
    hide Cuts, Distance, State.Ok, State.Recut, State.Extended, State.Current;
    NotEmpty(s);
    var d := Distance(timestamp, s.Current().timestamp);
    CutRule(s.open, s.hasVideo, s.hasAudio, key, d, s.fraglen, s.Big());
    ExtendedOk(s, timestamp);
    EndExact(timestamp, timestamp);
    NotEmpty(s.Extended(timestamp));
    if s.CutsAt(key, timestamp) {
      CutOk(s.Extended(timestamp), timestamp, s.open && d >= 0);
      NotEmpty(s.Updated(key, timestamp));
    }
  }

  lemma OkFacts(s: State)
    requires s.Ok()
    ensures |s.ring| > 0 && |s.joined| == |s.closed|
  {
  }

  lemma CutOk(s: State, timestamp: u32, join: bool)
    requires s.Ok() && (join ==> s.open && End(s.Current()) == timestamp)
    ensures var r := s.Recut(timestamp, join);
            && r.Ok() && r.open && r.Current().timestamp == timestamp && r.audio == EMPTY && r.video == EMPTY
            && r.fraglen == s.fraglen
            && if s.open then r.closed == s.closed + [s.Current()] && r.joined == s.joined + [join]
               else r.closed == s.closed && r.joined == s.joined
  {
    hide Near, RingHolds, SlotOf, End, Contiguous, Gapless, Listed, State.Closed, State.Opened, State.Started,
         State.Current;
    OkFacts(s);
    ClosedOk(s);
    OpenedOk(s.Closed());
    StartedOk(s.Closed().Opened(), timestamp, join);
  }

  lemma AppendedOk(s: State, isVideo: bool, key: bool, timestamp: u32, size: nat)
    requires s.Ok() && s.open && Distance(timestamp, s.Current().timestamp) < 2 * s.fraglen
    ensures s.Appended(isVideo, key, timestamp, size).Ok()
  {
    hide RingHolds, Gapless, SlotOf, Distance, Contiguous, Near, Grown, Sound;
    var t := if isVideo then s.video else s.audio;
    GrownContiguous(t, timestamp, size, key);
    GrownStores(t, timestamp, size, key);
    GrownNear(t, timestamp, size, key, s.Current().timestamp, s.fraglen);
  }

  class Stream {
    const win: nat
    const fraglen: nat
    const frags: array<Frag>
    var frag: nat
    var nfrags: nat
    var id: nat
    var open: bool
    var hasVideo: bool
    var hasAudio: bool
    var audio: Track
    var video: Track
    /** The fragments closed so far, and which of them were joined to the next. */
    ghost var closed: seq<Frag>
    ghost var joined: seq<bool>

    constructor (win: nat, fraglen: nat)
      requires fraglen > 0
      ensures Valid() && fresh(frags) && this.win == win && this.fraglen == fraglen && closed == [] && !open
    {
      this.win, this.fraglen := win, fraglen;
      frags := new Frag[2 * win + 1](_ => Frag(0, 0));
      frag, nfrags, id := 0, 0, 0;
      open, hasVideo, hasAudio := false, false, false;
      audio, video := EMPTY.(active := false), EMPTY.(active := false);
      closed, joined := [], [];
    }

    ghost function V(): State
      reads this, frags
    {
      State(win, fraglen, frags[..], frag, nfrags, id, open, hasVideo, hasAudio, audio, video, closed, joined)
    }

    ghost predicate Valid()
      reads this, frags
    {
      V().Ok()
    }

    /** The slot of fragment `n` of the window. */
    function GetFrag(n: nat): (i: nat)
      requires frags.Length > 0
      reads this
      ensures i < frags.Length
    {
      SlotOf(frags.Length, frag + n)
    }

    method NextFrag()
      modifies `frag, `nfrags
      ensures if old(nfrags) == win then frag == old(frag) + 1 && nfrags == old(nfrags)
              else frag == old(frag) && nfrags == old(nfrags) + 1
    {
      if nfrags == win {
        frag := frag + 1;
      } else {
        nfrags := nfrags + 1;
      }
    }

    /** Closes the open fragment; the playlist then lists the latest of the closed ones. */
    method CloseFragments() returns (listed: seq<Frag>)
      requires Valid()
      modifies this`frag, this`nfrags, this`id, this`open, this`audio, this`video, this`closed, this`joined
      ensures Valid() && V() == old(V()).Closed()
      ensures old(open) ==> listed == closed[|closed| - nfrags..]
    {
      hide Listed, SlotOf, Gapless, RingHolds, Near, Contiguous, State.Ok;
      ghost var s := V();
      NotEmpty(s);
      ClosedOk(s);
      listed := [];
      if !open {
        return;
      }
      video := video.(active := false);
      audio := audio.(active := false);
      closed, joined := closed + [frags[GetFrag(nfrags)]], joined + [false];
      NextFrag();
      listed := Listed(frags[..], frag, nfrags);
      id := id + 1;
      open := false;
      assert V() == s.Closed();
    }

    method OpenFragments()
      requires frags.Length > 0
      modifies this`open, this`audio, this`video
      ensures V() == old(V()).Opened()
    {
      if open {
        return;
      }
      video := EMPTY;
      audio := EMPTY;
      open := true;
    }

    /** Writes the slot of the open fragment. */
    method Put(f: Frag)
      requires frags.Length > 0
      modifies frags
      ensures V() == old(V()).SetCurrent(f)
    {
      frags[GetFrag(nfrags)] := f;
    }

    /** Cuts the stream before a sample if it must be cut there. */
    method UpdateFragments(key: bool, timestamp: u32)
      requires Valid() && (hasVideo || hasAudio)
      modifies this`frag, this`nfrags, this`id, this`open, this`audio, this`video, this`closed, this`joined, frags
      ensures Valid() && V() == old(V()).Updated(key, timestamp)
      ensures |frags[..]| > 0 && Fresh(old(V()), timestamp, V())
      ensures if old(V()).CutsAt(key, timestamp) then CutAt(old(V()), timestamp, V()) else Uncut(old(V()), V())
    {
      hide SlotOf, Gapless, RingHolds, Near, Contiguous, Distance, Listed, State.Recut, State.Ok;
      ghost var s := V();
      UpdatedOk(s, key, timestamp);
      NotEmpty(s);
      var f := frags[GetFrag(nfrags)];
      var d := Distance(timestamp, f.timestamp);
      var boundary, hit := key, -d > 1000;
      if d >= 0 {
        MeasuredOk(s, Wrap(timestamp - f.timestamp));
        Put(f.(duration := Wrap(timestamp - f.timestamp)));
        hit := d >= fraglen;
        if d >= 2 * fraglen {
          boundary := true;
        }
      }
      if hasVideo && !hit {
        boundary := false;
      }
      if !hasVideo && hasAudio {
        boundary := hit;
      }
      if audio.mdatSize >= MAX_MDAT || video.mdatSize >= MAX_MDAT || !open {
        boundary := true;
      }
      assert boundary == s.CutsAt(key, timestamp);
      if boundary {
        EndExact(timestamp, f.timestamp);
        Recut(timestamp, open && d >= 0);
      }
    }

    /** Closes the open fragment, if there is one, and starts the next one at `timestamp`. */
    method Recut(timestamp: u32, ghost join: bool)
      requires Valid() && (join ==> open && End(V().Current()) == timestamp)
      modifies this`frag, this`nfrags, this`id, this`open, this`audio, this`video, this`closed, this`joined, frags
      ensures Valid() && V() == old(V()).Recut(timestamp, join)
    {
      hide SlotOf, Gapless, RingHolds, Near, Contiguous, Listed, End, State.Closed, State.Ok;
      ghost var s := V();
      CutOk(s, timestamp, join);
      OkFacts(s);
      ClosedOk(s);
      var listed := CloseFragments();
      ClosedCounts(s);
      OpenFragments();
      Put(frags[GetFrag(nfrags)].(timestamp := timestamp));
      if join {
        joined := joined[|joined| - 1 := true];
      }
      assert V() == s.Closed().Opened().Started(timestamp, join);
    }

    /** A sample of `size` bytes goes to its track, once the stream has been cut if it must be. */
    method Append(isVideo: bool, key: bool, timestamp: u32, size: nat)
      requires Valid() && (if isVideo then hasVideo else hasAudio)
      modifies this`frag, this`nfrags, this`id, this`open, this`audio, this`video, this`closed, this`joined, frags
      ensures Valid() && V() == old(V()).Updated(key, timestamp).Appended(isVideo, key, timestamp, size)
      ensures var cut := old(V()).CutsAt(key, timestamp);
        && Stored(if cut then EMPTY else if isVideo then old(video) else old(audio), timestamp, size, key,
                  if isVideo then video else audio)
        && (if isVideo then audio else video) == if cut then EMPTY else if isVideo then old(audio) else old(video)
    {
      hide SlotOf, Gapless, RingHolds, Near, Contiguous, Cuts, Distance, Listed, Grown, State.Updated, Sound, Stored;
      UpdatedOk(V(), key, timestamp);
      UpdateFragments(key, timestamp);
      AppendedOk(V(), isVideo, key, timestamp, size);
      GrownStores(if isVideo then video else audio, timestamp, size, key);
      if isVideo {
        video := AddSample(video, key, timestamp, size);
      } else {
        audio := AddSample(audio, key, timestamp, size);
      }
    }

    static method AddSample(track: Track, key: bool, timestamp: u32, size: nat) returns (t: Track)
      ensures t == Grown(track, timestamp, size, key)
    {
      t := track;
      if |t.samples| == 0 {
        t := t.(earliest := timestamp);
      }
      t := t.(latest := timestamp);
      if |t.samples| < MAX_SAMPLES {
        var n := |t.samples|;
        var samples := t.samples + [Sample(timestamp, 0, size, key)];
        if n > 0 {
          samples := samples[n - 1 := samples[n - 1].(duration := Wrap(timestamp - samples[n - 1].timestamp))];
        }
        t := t.(samples := samples, mdatSize := t.mdatSize + size);
      }
      assert t.samples == Grown(track, timestamp, size, key).samples;
    }

    method Audio(timestamp: u32, size: nat)
      requires Valid()
      modifies this, frags
      ensures Valid()
      ensures V() == old(V()).(hasAudio := true).Updated(false, timestamp).Appended(false, false, timestamp, size)
      ensures |old(frags[..])| > 0
      ensures var cut := old(V()).(hasAudio := true).CutsAt(false, timestamp);
              && Stored(if cut then EMPTY else old(audio), timestamp, size, false, audio)
              && video == if cut then EMPTY else old(video)
    {
      hide SlotOf, Gapless, RingHolds, Near, Contiguous, Cuts, Distance, Grown, State.Updated, State.Appended;
      hide Sound, Stored;
      hasAudio := true;
      Append(false, false, timestamp, size);
    }

    method Video(key: bool, timestamp: u32, size: nat)
      requires Valid()
      modifies this, frags
      ensures Valid() && V() == old(V()).(hasVideo := true).Updated(key, timestamp).Appended(true, key, timestamp, size)
      ensures |old(frags[..])| > 0
      ensures var cut := old(V()).(hasVideo := true).CutsAt(key, timestamp);
              && Stored(if cut then EMPTY else old(video), timestamp, size, key, video)
              && audio == if cut then EMPTY else old(audio)
    {
      hide SlotOf, Gapless, RingHolds, Near, Contiguous, Cuts, Distance, Grown, State.Updated, State.Appended;
      hide Sound, Stored;
      hasVideo := true;
      Append(true, key, timestamp, size);
    }
  }

  /** A track with one more sample, as long as it has room; the sample before it gets its duration. */
  function Grown(t: Track, timestamp: u32, size: nat, key: bool): (r: Track)
    ensures r.active == t.active
  {
    var n := |t.samples|;
    var marked := t.(earliest := if n == 0 then timestamp else t.earliest, latest := timestamp);
    if n >= MAX_SAMPLES then marked
    else
      var samples := if n == 0 then [] else
                       t.samples[..n - 1]
                       + [t.samples[n - 1].(duration := Wrap(timestamp - t.samples[n - 1].timestamp))];
      marked.(samples := samples + [Sample(timestamp, 0, size, key)], mdatSize := t.mdatSize + size)
  }

  lemma GrownNear(t: Track, timestamp: u32, size: nat, key: bool, start: u32, fraglen: nat)
    requires Near(t.samples, start, fraglen) && Distance(timestamp, start) < 2 * fraglen
    ensures Near(Grown(t, timestamp, size, key).samples, start, fraglen)
  {
    hide Distance;
  }

  /** A track grows by exactly the sample, and stays sound. */
  lemma GrownStores(t: Track, timestamp: u32, size: nat, key: bool)
    requires Sound(t)
    ensures Stored(t, timestamp, size, key, Grown(t, timestamp, size, key)) && Sound(Grown(t, timestamp, size, key))
  {
    hide ByteSum;
    if |t.samples| < MAX_SAMPLES {
      GrownBytes(t, timestamp, size, key);
    }
  }

  lemma GrownBytes(t: Track, timestamp: u32, size: nat, key: bool)
    requires |t.samples| < MAX_SAMPLES
    ensures ByteSum(Grown(t, timestamp, size, key).samples) == ByteSum(t.samples) + size
  {
    hide ByteSum, Wrap;
    var n, last := |t.samples|, Sample(timestamp, 0, size, key);
    var r := Grown(t, timestamp, size, key).samples;
    BytesMore(r[..n], last);
    assert r == r[..n] + [last];
    if n > 0 {
      var init := t.samples[..n - 1];
      BytesMore(init, t.samples[n - 1]);
      BytesMore(init, r[n - 1]);
      assert t.samples == init + [t.samples[n - 1]];
      assert r[..n] == init + [r[n - 1]];
    } else {
      assert r[..n] == t.samples;
    }
  }

  lemma BytesMore(samples: seq<Sample>, last: Sample)
    ensures ByteSum(samples + [last]) == ByteSum(samples) + last.size
  {
    assert (samples + [last])[..|samples|] == samples;
  }

  /** All samples but the last reach to the next one. */
  ghost predicate Contiguous(samples: seq<Sample>) {
    forall i, j :: 0 <= i && j == i + 1 && j < |samples| ==>
      samples[i].duration == Wrap(samples[j].timestamp - samples[i].timestamp)
  }

  lemma GrownContiguous(t: Track, timestamp: u32, size: nat, key: bool)
    requires Contiguous(t.samples)
    ensures Contiguous(Grown(t, timestamp, size, key).samples)
  {
  }

  /** What is not cut stays short. */
  lemma CutRule(open: bool, hasVideo: bool, hasAudio: bool, key: bool, d: int, fraglen: nat, big: bool)
    requires fraglen > 0 && (hasVideo || hasAudio)
    ensures !Cuts(open, hasVideo, hasAudio, key, d, fraglen, big) ==> open && d < 2 * fraglen
  {
  }

  /** Whether the stream is cut before a sample at distance `d` from the start of the fragment. */
  predicate Cuts(open: bool, hasVideo: bool, hasAudio: bool, key: bool, d: int, fraglen: nat, big: bool) {
    var hit := if d >= 0 then d >= fraglen else -d > 1000;
    var long := d >= 0 && d >= 2 * fraglen;
    if !open || big then true
    else if !hasVideo && hasAudio then hit
    else if hasVideo && !hit then false
    else key || long
  }

  /**
   A sample at distance `d` from the start of the open fragment cuts it exactly when a track is full of bytes; or, with
   video, when it has twice its length, or at a key frame once it has its length or the timestamps jump back by more
   than a second; or, with audio alone, then in any case. Without an open fragment one is started.
   */
  lemma CutExact(s: State, key: bool, timestamp: u32, d: int)
    requires |s.ring| > 0 && s.fraglen > 0 && (s.hasVideo || s.hasAudio)
    requires -U31 <= d < U31 && Wrap(s.Current().timestamp + d) == timestamp
    ensures s.CutsAt(key, timestamp) <==>
      || !s.open || s.audio.mdatSize >= MAX_MDAT || s.video.mdatSize >= MAX_MDAT
      || (s.hasVideo && d >= 2 * s.fraglen)
      || ((key || !s.hasVideo) && (d >= s.fraglen || d < -1000))
  {
    hide Distance;
    DistanceIs(timestamp, s.Current().timestamp, d);
  }
}
