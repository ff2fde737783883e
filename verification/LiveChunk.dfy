/**
 One subscriber's share of a live stream: the clock of each chunk stream, what it has missed, and what one frame of the
 publisher does to them.
 */
module LiveChunk {
  import opened Bytes
  import opened Wrappers

  datatype Config = Config(sync: nat, interleave: bool, waitKey: bool, waitVideo: bool, idleStreams: bool)

  /** A chunk stream of a subscriber or a publisher. `clock` is what the client at the far end has decoded. */
  datatype Chunk = Chunk(active: bool, timestamp: u32, dropped: u32, clock: u32)

  const RESET := Chunk(false, 0, 0, 0)

  /** A session's part in the live module; `finalized` sessions wait for their close. */
  datatype Ctx = Ctx(stream: Option<nat>, publishing: bool, active: bool, paused: bool, finalized: bool,
                     metaVersion: nat, ndropped: nat, video: Chunk, audio: Chunk)
  {
    /** cs[0] is for video, or for everything when frames are interleaved; cs[1] is for audio. */
    function Cs(second: bool): Chunk {
      if second then audio else video
    }

    function With(second: bool, cs: Chunk): Ctx {
      if second then this.(audio := cs) else this.(video := cs)
    }

    /** Both chunk streams wait for an absolute frame. */
    predicate Waiting() {
      !video.active && video.dropped == 0 && !audio.active && audio.dropped == 0
    }

    function Stopped(): (c: Ctx)
      ensures c.Waiting() && c.stream == stream && c.paused == paused && c.publishing == publishing
    {
      this.(video := video.(active := false, dropped := 0), audio := audio.(active := false, dropped := 0))
    }
  }

  /** A frame with what the codec context holds for it. */
  datatype Frame = Frame(video: bool, timestamp: u32, key: bool, mandatory: bool, header: bool, coheader: bool,
                         meta: Option<nat>)

  /** Which of the messages for one subscriber its queue accepts. */
  datatype Answers = Answers(meta: bool, header: bool, coheader: bool, absolute: bool, dummy: bool, relative: bool)

  datatype Outcome = Skipped | Refused | Absolute | Relative | Dropped

  function Second(conf: Config, f: Frame): bool {
    !(conf.interleave || f.video)
  }

  /** The timestamp a frame is relative to. */
  function Base(pub: Chunk, f: Frame): u32 {
    if pub.active then pub.timestamp else f.timestamp
  }

  function Delta(pub: Chunk, f: Frame): u32 {
    Wrap(f.timestamp - Base(pub, f))
  }

  /** The publisher's chunk stream after a frame. */
  function Published(pub: Chunk, f: Frame): Chunk {
    pub.(active := true, timestamp := f.timestamp)
  }

  /**
   The publisher's clock is the subscriber's clock and what it has missed; a chunk stream at rest has missed nothing.
   */
  predicate Synced(pub: Chunk, cs: Chunk) {
    if cs.active then pub.active && Wrap(cs.timestamp + cs.dropped) == pub.timestamp else cs.dropped == 0
  }

  /** The client's clock is the one the server keeps for it. */
  predicate Decoded(cs: Chunk) {
    cs.active ==> cs.clock == cs.timestamp
  }

  /** The one case in which the client's clock goes astray: an empty audio message sent after an absolute frame. */
  predicate Astray(conf: Config, pub: Chunk, f: Frame, a: Answers, other: bool, outcome: Outcome) {
    outcome.Absolute? && conf.waitVideo && f.video && !other && a.dummy && Delta(pub, f) != 0
  }

  /** A chunk stream that must start with an absolute message: it is at rest, or it has missed too much. */
  predicate Starts(conf: Config, cs: Chunk) {
    !cs.active || 0 < conf.sync < cs.dropped
  }

  /** A frame that no chunk stream may start with; `other` says whether the other chunk stream is active. */
  predicate Held(conf: Config, f: Frame, other: bool) {
    || f.mandatory
    || (conf.waitVideo && !f.video && !(Second(conf, f) && other))
    || (conf.waitKey && !f.key && (conf.interleave || f.video))
  }

  /** The queue accepts what a chunk stream starts with: the codec headers if there are any, or else the frame. */
  predicate Opened(f: Frame, a: Answers) {
    if f.header || f.coheader then (f.header ==> a.header) && (f.coheader ==> a.coheader) else a.absolute
  }

  /** What becomes of a frame for a subscriber with chunk stream `cs`. */
  function Fate(conf: Config, f: Frame, a: Answers, other: bool, cs: Chunk): Outcome {
    if Starts(conf, cs) && Held(conf, f, other) then Skipped
    else if Starts(conf, cs) && !Opened(f, a) then Refused
    else if Starts(conf, cs) && !f.header && !f.coheader then Absolute
    else if a.relative then Relative
    else Dropped
  }

  /** Adding the frame's delta to a clock, or to what it has missed, brings their sum from the base to the frame. */
  lemma ClockMoves(ts: u32, dropped: u32, base: u32, frame: u32)
    ensures Wrap(ts + dropped) == base ==>
      Wrap(Wrap(ts + Wrap(frame - base)) + dropped) == frame && Wrap(frame - Wrap(ts + Wrap(frame - base))) == dropped
    ensures Wrap(frame - base) == 0 <==> frame == base
    ensures Wrap(dropped + ts) == Wrap(ts + dropped) && Wrap(ts + 0) == ts && Wrap(0 + ts) == ts
    ensures Wrap(Wrap(ts + Wrap(frame - base)) + dropped) == Wrap(dropped + Wrap(ts + Wrap(frame - base)))
  {
    var d := Wrap(frame - base);
    var q := if frame >= base then 0 else 1;
    assert d == frame - base + q * U32;
    if Wrap(ts + dropped) == base {
      var m := if ts + dropped >= U32 then 1 else 0;
      var n := if ts + d >= U32 then 1 else 0;
      assert ts + dropped == base + m * U32;
      assert Wrap(ts + d) == ts + d - n * U32;
      assert Wrap(ts + d) + dropped == frame + (q + m - n) * U32;
    }
  }

  /** A subscriber too far behind starts over with an absolute frame. */
  method Resync(conf: Config, pub: Chunk, cs: Chunk) returns (r: Chunk)
    ensures Synced(pub, cs) ==> Synced(pub, r)
    ensures r.active <==> !Starts(conf, cs)
    ensures r == cs || (cs.active && r == cs.(active := false, dropped := 0))
  {
    r := cs;
    if r.active && conf.sync != 0 && r.dropped > conf.sync {
      r := r.(active := false, dropped := 0);
    }
  }

  /** The first message of a chunk stream: codec headers at the base of the frame, or the frame itself. */
  method SendAbsolute(pub: Chunk, f: Frame, a: Answers, dummy: bool, cs: Chunk) returns (r: Chunk, outcome: Outcome)
    requires !cs.active
    ensures r.dropped == cs.dropped && r.active == Opened(f, a)
    ensures outcome == if !Opened(f, a) then Refused else if f.header || f.coheader then Relative else Absolute
    ensures outcome.Absolute? ==> r.active && r.timestamp == f.timestamp
                                  && (r.clock == r.timestamp <==> !(dummy && a.dummy && Base(pub, f) != f.timestamp))
    ensures outcome.Relative? ==> r.active && r.timestamp == r.clock == Base(pub, f)
  {
    r := cs;
    var base := Base(pub, f);
    if f.header || f.coheader {
      if f.header {
        if !a.header {
          return r, Refused;
        }
        r := r.(clock := base);
      }
      if f.coheader {
        if !a.coheader {
          return r, Refused;
        }
        r := r.(clock := base);
      } else if dummy && a.dummy {
        r := r.(clock := base);
      }
      return r.(timestamp := base, active := true), Relative;
    }
    if !a.absolute {
      return r, Refused;
    }
    r := r.(clock := f.timestamp, timestamp := f.timestamp, active := true);
    if dummy && a.dummy {
      r := r.(clock := base);
    }
    return r, Absolute;
  }

  /** The frame itself as a delta on the clock: delivered, or missed. */
  method SendRelative(pub: Chunk, f: Frame, accepted: bool, cs: Chunk) returns (r: Chunk)
    requires cs.active
    ensures r.active
    ensures Wrap(cs.timestamp + cs.dropped) == Base(pub, f) ==> Synced(Published(pub, f), r)
    ensures accepted ==> r.dropped == cs.dropped
    ensures accepted && Wrap(cs.timestamp + cs.dropped) == Base(pub, f) ==> Wrap(f.timestamp - r.timestamp) == r.dropped
    ensures Decoded(cs) ==> Decoded(r)
  {
    hide Wrap, Base;
    ClockMoves(cs.timestamp, cs.dropped, Base(pub, f), f.timestamp);
    ClockMoves(cs.dropped, cs.timestamp, Base(pub, f), f.timestamp);
    if accepted {
      return cs.(timestamp := Wrap(cs.timestamp + Delta(pub, f)), clock := Wrap(cs.clock + Delta(pub, f)));
    }
    return cs.(dropped := Wrap(cs.dropped + Delta(pub, f)));
  }

  /**
   What becomes of a frame on a chunk stream: the chunk stream stays in step with the publisher's and within the sync
   limit, and the client's clock stays right if and only if no dummy audio misleads it.
   */
  ghost predicate FrameSent(conf: Config, pub: Chunk, f: Frame, a: Answers, other: bool, cs: Chunk, r: Chunk,
                            outcome: Outcome) {
    && outcome == Fate(conf, f, a, other, cs)
    && (r.active <==> !(outcome.Skipped? || outcome.Refused?))
    && (Synced(pub, cs) ==>
          && Synced(Published(pub, f), r)
          && (outcome.Absolute? ==> r.timestamp == f.timestamp)
          && (outcome.Relative? && conf.sync != 0 ==> Wrap(f.timestamp - r.timestamp) <= conf.sync))
    && (Decoded(cs) ==> (Decoded(r) <==> !Astray(conf, pub, f, a, other, outcome)))
  }

  /**
   What starts a chunk stream, and that nothing is passed over once it runs. At rest, or with more missed than the
   limit, it goes active with a frame that is no header, that need not wait for the video, and that is a key frame if
   video is on the chunk stream and keys are waited for, when the queue takes what comes first; the frame is passed over
   otherwise.
   */
  ghost predicate StartRule(conf: Config, f: Frame, a: Answers, other: bool, cs: Chunk, r: Chunk, outcome: Outcome) {
    var rest := !cs.active || (conf.sync != 0 && cs.dropped > conf.sync);
    var waits := conf.waitVideo && !f.video && (conf.interleave || !other);
    var unfit := conf.waitKey && !f.key && (conf.interleave || f.video);
    var first := if f.header || f.coheader then (f.header ==> a.header) && (f.coheader ==> a.coheader) else a.absolute;
    && (rest && conf.waitKey && (conf.interleave || f.video) && r.active ==> f.key)
    && (rest && !f.mandatory && !waits && !unfit ==> !outcome.Skipped? && (r.active <==> first))
    && (rest && (f.mandatory || waits || unfit) ==> outcome.Skipped?)
    && (r.active <==> !outcome.Skipped? && !outcome.Refused?)
    && (!rest ==> r.active)
    && (r.active ==>
          outcome == if rest && !f.header && !f.coheader then Absolute else if a.relative then Relative else Dropped)
  }

  /** One frame on one chunk stream; `other` says whether the subscriber's other chunk stream is active. */
  method SendFrame(conf: Config, pub: Chunk, f: Frame, a: Answers, other: bool, cs: Chunk)
    returns (r: Chunk, outcome: Outcome)
    ensures FrameSent(conf, pub, f, a, other, cs, r, outcome) && StartRule(conf, f, a, other, cs, r, outcome)
  {
    hide Wrap;
    BaseIs(pub, f);
    r := Resync(conf, pub, cs);
    if !r.active {
      if f.mandatory {
        return r, Skipped;
      }
      // when the video shares the chunk stream, it is not active here
      var videoActive := Second(conf, f) && other;
      if conf.waitVideo && !f.video && !videoActive {
        return r, Skipped;
      }
      if conf.waitKey && !f.key && (conf.interleave || f.video) {
        return r, Skipped;
      }
      r, outcome := SendAbsolute(pub, f, a, conf.waitVideo && f.video && !other, r);
      if outcome != Relative {
        return;
      }
    }
    r := SendRelative(pub, f, a.relative, r);
    outcome := if a.relative then Relative else Dropped;
  }

  /** Where a subscriber is, and as what. */
  predicate SameStanding(a: Ctx, b: Ctx) {
    b.stream == a.stream && b.publishing == a.publishing && b.active == a.active && b.paused == a.paused
  }

  /**
   One frame for one subscriber: video, or everything if frames are interleaved, goes to its first chunk stream, and
   audio to its second. `pub` is the publisher's chunk stream before the frame.
   */
  ghost predicate Given(conf: Config, pub: Chunk, f: Frame, a: Answers, c: Ctx, r: Ctx, outcome: Outcome) {
    var first := conf.interleave || f.video;
    var cs, cs', other := if first then c.video else c.audio, if first then r.video else r.audio,
                          if first then c.audio else c.video;
    && SameStanding(c, r) && (if first then r.audio else r.video) == other
    && r.finalized == (c.finalized || (outcome.Dropped? && f.mandatory))
    && r.ndropped == c.ndropped + (if outcome.Dropped? then 1 else 0)
    && r.metaVersion == (if f.meta.Some? && a.meta then f.meta.value else c.metaVersion)
    && FrameSent(conf, pub, f, a, other.active, cs, cs', outcome)
    && StartRule(conf, f, a, other.active, cs, cs', outcome)
  }

  /** One frame for one subscriber. */
  method Deliver(conf: Config, pub: Chunk, f: Frame, a: Answers, ctx: Ctx) returns (r: Ctx, outcome: Outcome)
    requires conf.interleave || !f.coheader
    ensures Given(conf, pub, f, a, ctx, r, outcome)
  {
    hide FrameSent, StartRule, SameStanding, Ctx.With, Noted, Missed;
    var second := Second(conf, f);
    r := Noted(ctx, f, a);
    OneChunk(ctx, f, a, second, r.Cs(second));
    var cs;
    cs, outcome := SendFrame(conf, pub, f, a, r.Cs(!second).active, r.Cs(second));
    OneChunk(ctx, f, a, second, cs);
    r := r.With(second, cs);
    if outcome.Dropped? {
      r := Missed(r, f);
    }
  }

  /** The metadata of a version that the subscriber has not got goes first. */
  function Noted(ctx: Ctx, f: Frame, a: Answers): Ctx {
    if f.meta.Some? && f.meta.value != ctx.metaVersion && a.meta then ctx.(metaVersion := f.meta.value) else ctx
  }

  /** A frame is dropped: the loss of a header is fatal. */
  function Missed(ctx: Ctx, f: Frame): Ctx {
    ctx.(ndropped := ctx.ndropped + 1, finalized := ctx.finalized || f.mandatory)
  }

  lemma OneChunk(ctx: Ctx, f: Frame, a: Answers, second: bool, cs: Chunk)
    ensures Noted(ctx, f, a).Cs(second) == ctx.Cs(second) && Noted(ctx, f, a).Cs(!second) == ctx.Cs(!second)
    ensures var r := Noted(ctx, f, a).With(second, cs); var d := Missed(r, f);
            && r.Cs(second) == d.Cs(second) == cs && r.Cs(!second) == d.Cs(!second) == ctx.Cs(!second)
            && SameStanding(ctx, r) && SameStanding(ctx, d)
            && r.metaVersion == d.metaVersion == (if f.meta.Some? && a.meta then f.meta.value else ctx.metaVersion)
            && r.ndropped == ctx.ndropped && r.finalized == ctx.finalized
            && d.ndropped == ctx.ndropped + 1 && d.finalized == (ctx.finalized || f.mandatory)
  {
  }

  /**
   With wait_video, a key frame at 140 after the publisher's last one at 100 starts a subscriber; the empty audio
   message behind it takes the client's clock to 100 while the server goes on from 140.
   */
  method AstrayExample() returns (r: Chunk, outcome: Outcome)
    ensures outcome == Absolute && r.timestamp == 140 && r.clock != 140
  {
    var conf := Config(0, false, false, true, false);
    var pub := Chunk(true, 100, 0, 0);
    var f := Frame(true, 140, true, false, false, false, None);
    r, outcome := SendFrame(conf, pub, f, Answers(true, true, true, true, true, true), false, RESET);
  }

  lemma BaseIs(pub: Chunk, f: Frame)
    ensures Delta(pub, f) == 0 <==> f.timestamp == Base(pub, f)
    ensures Wrap(Base(pub, f) + 0) == Base(pub, f) && Wrap(f.timestamp + 0) == f.timestamp
    ensures forall cs: Chunk :: cs.active && Synced(pub, cs) ==> Wrap(cs.timestamp + cs.dropped) == Base(pub, f)
  {
    ClockMoves(f.timestamp, 0, Base(pub, f), f.timestamp);
  }
}
