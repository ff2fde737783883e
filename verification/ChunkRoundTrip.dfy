/** Chunk streams cut by the sender and interleaved in any order come out of the receiver as they went in. */
module ChunkRoundTrip {
  import opened Arithmetic
  import opened Bytes
  import opened Wrappers
  import opened ChunkFormat
  import opened ChunkLayout

  /** The receiver's record of a stream between messages, after message `o` following record `st`. */
  function After(cfg: Config, st: Stream, o: Outgoing): Stream
    requires |o.payload| < U24
  {
    Stream(o.h.timestamp, |o.payload|, o.h.typ, o.h.msid,
           if o.Fmt() == 0 then 0 else o.Time(), 0, o.Ext() && cfg.timeFix, [])
  }

  /** The receiver's record when `sent` bytes of `o` have arrived: the timestamp moves only at the end. */
  function During(cfg: Config, st: Stream, o: Outgoing, sent: nat): Stream
    requires |o.payload| < U24 && sent <= |o.payload|
  {
    After(cfg, st, o).(timestamp := if o.Fmt() == 0 then o.Time() else st.timestamp,
                       len := sent, payload := o.payload[..sent])
  }

  /** The header of the message before, where it is used, tells what the receiver's record `st` holds. */
  predicate Known(st: Stream, o: Outgoing) {
    && (o.Relative() ==> st.msid == o.h.msid && st.timestamp == o.lh.value.timestamp)
    && (o.Fmt() >= 2 ==> st.typ == o.h.typ && st.mlen == |o.payload|)
  }

  /** `o` can follow record `st`: the sizes fit, and a format 3 start finds nothing pending. */
  predicate Follows(cfg: Config, st: Stream, o: Outgoing) {
    && Sendable(o.h.csid) && o.h.csid < cfg.maxStreams
    && |o.payload| < U24 && |o.payload| <= cfg.maxMessage
    && Known(st, o)
    && (o.Fmt() == 3 ==> st.dtime == 0 && !st.ext)
  }

  predicate Script(cfg: Config, st: Stream, csid: nat, msgs: seq<Outgoing>)
    decreases |msgs|
  {
    msgs == [] ||
    (msgs[0].h.csid == csid && Follows(cfg, st, msgs[0]) && Script(cfg, After(cfg, st, msgs[0]), csid, msgs[1..]))
  }

  /** A sender's chunk stream: the messages to send, the first of which has `sent` bytes out already. */
  datatype Lane = Lane(known: Stream, msgs: seq<Outgoing>, sent: nat)

  ghost predicate LaneOk(cfg: Config, csid: nat, lane: Lane) {
    && Script(cfg, lane.known, csid, lane.msgs)
    && lane.known.len == 0 && lane.known.payload == []
    && (lane.sent > 0 ==> lane.msgs != [] && lane.sent < |lane.msgs[0].payload|)
  }

  /** The receiver's record of a stream that is in step with lane `lane`. */
  function RecordOf(cfg: Config, csid: nat, lane: Lane): Stream
    requires LaneOk(cfg, csid, lane)
  {
    if lane.sent == 0 then lane.known else During(cfg, lane.known, lane.msgs[0], lane.sent)
  }

  predicate Ends(cfg: Config, lane: Lane)
    requires lane.msgs != []
  {
    |lane.msgs[0].payload| - lane.sent <= cfg.chunkSize
  }

  function NextChunk(cfg: Config, csid: nat, lane: Lane): seq<byte>
    requires LaneOk(cfg, csid, lane) && lane.msgs != []
  {
    ChunkAt(cfg.timeFix, cfg.chunkSize, lane.msgs[0], lane.sent)
  }

  function Advance(cfg: Config, csid: nat, lane: Lane): (lane': Lane)
    requires cfg.Valid() && LaneOk(cfg, csid, lane) && lane.msgs != []
    ensures LaneOk(cfg, csid, lane')
  {
    if Ends(cfg, lane) then Lane(After(cfg, lane.known, lane.msgs[0]), lane.msgs[1..], 0)
    else lane.(sent := lane.sent + cfg.chunkSize)
  }

  function Delivered(o: Outgoing): Message
    requires |o.payload| < U24
  {
    Message(o.h.csid, o.h.typ, o.h.msid, |o.payload|, o.h.timestamp, o.payload)
  }

  // ----- headers -----

  lemma BasicRoundTrip(fmt: nat, csid: nat, tail: seq<byte>)
    requires fmt <= 3 && Sendable(csid)
    ensures ReadBasic(BasicHeader(fmt, csid) + tail) == Basic(fmt, csid, |BasicHeader(fmt, csid)|)
  {
    var b := BasicHeader(fmt, csid);
    var s := b + tail;
    assert s[0] == b[0];
    if csid >= 64 {
      assert s[1] == b[1];
      if csid >= 320 {
        assert s[2] == b[2];
      }
    }
  }

  lemma FirstHeaderFields(o: Outgoing, tail: seq<byte>)
    requires Sendable(o.h.csid) && |o.payload| < U24
    ensures var s := FirstHeader(o) + tail; var at := |BasicHeader(o.Fmt(), o.h.csid)|;
            && ReadBasic(s) == Basic(o.Fmt(), o.h.csid, at)
            && |FirstHeader(o)| == at + FieldSize(o.Fmt()) + (if o.Ext() then 4 else 0)
            && (o.Fmt() <= 2 ==> Be24(s, at) == if o.Ext() then 0xff_ffff else o.Time())
            && (o.Fmt() <= 1 ==> Be24(s, at + 3) == |o.payload| && s[at + 6] == o.h.typ)
            && (o.Fmt() == 0 ==> Le32(s, at + 7) == o.h.msid)
            && (o.Ext() ==> Be32(s, at + FieldSize(o.Fmt())) == o.Time())
  {
    hide BasicHeader, PutBe24, PutBe32, PutLe32, Be24, Be32, Le32, ReadBasic;
    var b, t, k, m := BasicHeader(o.Fmt(), o.h.csid), TimeField(o), KindField(o), MsidField(o);
    var e := if o.Ext() then PutBe32(o.Time()) else [];
    var at := |b|;
    var s := b + t + k + m + e + tail;
    assert FirstHeader(o) + tail == s;
    Slices(b, t, k, m, e, tail);
    BasicRoundTrip(o.Fmt(), o.h.csid, t + k + m + e + tail);
    if o.Fmt() <= 2 {
      Be24RoundTrip(if o.Ext() then 0xff_ffff else o.Time(), s, at);
    }
    if o.Fmt() <= 1 {
      KindFieldRead(o, s, at + 3);
    }
    if o.Fmt() == 0 {
      Le32RoundTrip(o.h.msid, s, at + 7);
    }
    if o.Ext() {
      Be32RoundTrip(o.Time(), s, at + FieldSize(o.Fmt()));
    }
  }

  lemma Slices(b: seq<byte>, t: seq<byte>, k: seq<byte>, m: seq<byte>, e: seq<byte>, tail: seq<byte>)
    ensures var s := b + t + k + m + e + tail; var i := |b|; var j := i + |t|; var l := j + |k|; var n := l + |m|;
            && s == b + (t + k + m + e + tail)
            && s[i..j] == t && s[j..l] == k && s[l..n] == m && s[n..n + |e|] == e
  {
  }

  lemma KindFieldRead(o: Outgoing, s: seq<byte>, i: nat)
    requires o.Fmt() <= 1 && |o.payload| < U24 && i + 4 <= |s| && s[i..i + 4] == KindField(o)
    ensures Be24(s, i) == |o.payload| && s[i + 3] == o.h.typ
  {
    hide PutBe24, Be24;
    var mlen := PutBe24(|o.payload|);
    assert s[i..i + 3] == s[i..i + 4][..3] == mlen;
    assert s[i + 3] == s[i..i + 4][3];
    Be24RoundTrip(|o.payload|, s, i);
  }

  lemma FirstHeaderRead(cfg: Config, streams: seq<Stream>, o: Outgoing, tail: seq<byte>)
    requires |streams| == cfg.maxStreams && o.h.csid < cfg.maxStreams
    requires Follows(cfg, streams[o.h.csid], o)
    requires streams[o.h.csid].len == 0 && streams[o.h.csid].payload == []
    ensures ReadHeader(cfg, streams, FirstHeader(o) + tail)
            == Header(|FirstHeader(o)|, o.h.csid, During(cfg, streams[o.h.csid], o, 0))
  {
    FirstHeaderFields(o, tail);
  }

  /** A later header of the message changes nothing in the receiver's record. */
  lemma NextHeaderRead(cfg: Config, streams: seq<Stream>, st: Stream, o: Outgoing, sent: nat, tail: seq<byte>)
    requires |streams| == cfg.maxStreams && o.h.csid < cfg.maxStreams
    requires Follows(cfg, st, o) && 0 < sent <= |o.payload|
    requires streams[o.h.csid] == During(cfg, st, o, sent)
    ensures ReadHeader(cfg, streams, NextHeader(cfg.timeFix, o) + tail)
            == Header(|NextHeader(cfg.timeFix, o)|, o.h.csid, During(cfg, st, o, sent))
  {
    hide BasicHeader, PutBe32, ReadBasic;
    var e := if o.Ext() && cfg.timeFix then PutBe32(o.Time()) else [];
    var b := BasicHeader(3, o.h.csid);
    var s := NextHeader(cfg.timeFix, o) + tail;
    assert s == b + (e + tail);
    BasicRoundTrip(3, o.h.csid, e + tail);
    if o.Ext() && cfg.timeFix {
      assert s == b + e + tail;
      Middle(b, e, tail);
      Be32RoundTrip(o.Time(), s, |b|);
    }
  }

  lemma DueIsTimestamp(cfg: Config, st: Stream, o: Outgoing, sent: nat)
    requires Follows(cfg, st, o) && sent <= |o.payload|
    ensures Due(During(cfg, st, o, sent)) == o.h.timestamp
  {
  }

  lemma ParseOne(cfg: Config, streams: seq<Stream>, header: seq<byte>, csid: nat, st: Stream,
                 data: seq<byte>, tail: seq<byte>)
    requires |streams| == cfg.maxStreams && csid < cfg.maxStreams
    requires ReadHeader(cfg, streams, header + data + tail) == Header(|header|, csid, st)
    requires |data| == Take(cfg, st)
    ensures ParseChunk(cfg, streams, header + data + tail)
            == Chunk(|header + data|,
                     streams[csid := if Missing(st) > cfg.chunkSize then Grow(cfg, st, data) else Reset(st)],
                     if Missing(st) > cfg.chunkSize then [] else [Finished(csid, st, data)])
  {
    hide ReadHeader;
    Middle(header, data, tail);
  }

  /** The receiver's record when the payload from `sent` on arrives, up to a chunk of it. */
  lemma RecordStep(cfg: Config, csid: nat, lane: Lane, data: seq<byte>)
    requires cfg.Valid() && LaneOk(cfg, csid, lane) && lane.msgs != []
    requires var o := lane.msgs[0];
             data == o.payload[lane.sent..Min(lane.sent + cfg.chunkSize, |o.payload|)]
    ensures var o := lane.msgs[0]; var st := During(cfg, lane.known, o, lane.sent);
            && |data| == Take(cfg, st)
            && Ends(cfg, lane) == (Missing(st) <= cfg.chunkSize)
            && (if Ends(cfg, lane)
                then Reset(st) == RecordOf(cfg, csid, Advance(cfg, csid, lane))
                     && Finished(csid, st, data) == Delivered(o)
                else Grow(cfg, st, data) == RecordOf(cfg, csid, Advance(cfg, csid, lane)))
  {
    var o, sent := lane.msgs[0], lane.sent;
    var st := During(cfg, lane.known, o, sent);
    assert Missing(st) == |o.payload| - sent;
    DueIsTimestamp(cfg, lane.known, o, sent);
    if Ends(cfg, lane) {
      assert st.payload + data == o.payload;
    } else {
      assert st.payload + data == o.payload[..sent + cfg.chunkSize];
    }
  }

  /** Reading the next chunk of a lane moves the receiver exactly as sending it moved the lane. */
  lemma ChunkStep(cfg: Config, streams: seq<Stream>, csid: nat, lane: Lane, tail: seq<byte>)
    requires cfg.Valid() && |streams| == cfg.maxStreams && csid < cfg.maxStreams
    requires LaneOk(cfg, csid, lane) && lane.msgs != []
    requires streams[csid] == RecordOf(cfg, csid, lane)
    ensures ParseChunk(cfg, streams, NextChunk(cfg, csid, lane) + tail)
            == Chunk(|NextChunk(cfg, csid, lane)|,
                     streams[csid := RecordOf(cfg, csid, Advance(cfg, csid, lane))],
                     if Ends(cfg, lane) then [Delivered(lane.msgs[0])] else [])
  {
    hide FirstHeader, NextHeader, ReadHeader, ParseChunk, Advance, Ends, Grow, Reset, Finished, Missing, Take;
    var o, sent := lane.msgs[0], lane.sent;
    var header := if sent == 0 then FirstHeader(o) else NextHeader(cfg.timeFix, o);
    var data := o.payload[sent..Min(sent + cfg.chunkSize, |o.payload|)];
    assert header + data + tail == header + (data + tail);
    if sent == 0 {
      FirstHeaderRead(cfg, streams, o, data + tail);
    } else {
      NextHeaderRead(cfg, streams, lane.known, o, sent, data + tail);
    }
    RecordStep(cfg, csid, lane, data);
    ParseOne(cfg, streams, header, csid, During(cfg, lane.known, o, sent), data, tail);
  }

  // ----- interleaved chunk streams -----

  ghost predicate LanesOk(cfg: Config, lanes: map<nat, Lane>) {
    forall c :: c in lanes ==> LaneOk(cfg, c, lanes[c])
  }

  /** Every lane's receiver record is in step with it. */
  ghost predicate InStep(cfg: Config, lanes: map<nat, Lane>, streams: seq<Stream>)
    requires LanesOk(cfg, lanes)
  {
    |streams| == cfg.maxStreams
    && forall c :: c in lanes ==> c < |streams| && streams[c] == RecordOf(cfg, c, lanes[c])
  }

  /** The chunk streams in the order in which each sends its next chunk. */
  ghost predicate Picks(cfg: Config, lanes: map<nat, Lane>, picks: seq<nat>)
    requires cfg.Valid() && LanesOk(cfg, lanes)
    decreases |picks|
  {
    picks == [] ||
    (var c := picks[0];
     c in lanes && lanes[c].msgs != [] && Picks(cfg, lanes[c := Advance(cfg, c, lanes[c])], picks[1..]))
  }

  ghost function Wire(cfg: Config, lanes: map<nat, Lane>, picks: seq<nat>): seq<byte>
    requires cfg.Valid() && LanesOk(cfg, lanes) && Picks(cfg, lanes, picks)
    decreases |picks|
  {
    if picks == [] then [] else
    var c := picks[0];
    NextChunk(cfg, c, lanes[c]) + Wire(cfg, lanes[c := Advance(cfg, c, lanes[c])], picks[1..])
  }

  /** The messages completed by those chunks, in the order of their last chunks. */
  ghost function Completed(cfg: Config, lanes: map<nat, Lane>, picks: seq<nat>): seq<Message>
    requires cfg.Valid() && LanesOk(cfg, lanes) && Picks(cfg, lanes, picks)
    decreases |picks|
  {
    if picks == [] then [] else
    var c := picks[0];
    (if Ends(cfg, lanes[c]) then [Delivered(lanes[c].msgs[0])] else [])
    + Completed(cfg, lanes[c := Advance(cfg, c, lanes[c])], picks[1..])
  }

  ghost function LanesAfter(cfg: Config, lanes: map<nat, Lane>, picks: seq<nat>): (lanes': map<nat, Lane>)
    requires cfg.Valid() && LanesOk(cfg, lanes) && Picks(cfg, lanes, picks)
    ensures LanesOk(cfg, lanes') && lanes'.Keys == lanes.Keys
    decreases |picks|
  {
    if picks == [] then lanes else
    var c := picks[0];
    LanesAfter(cfg, lanes[c := Advance(cfg, c, lanes[c])], picks[1..])
  }

  /** The round trip: whatever the interleaving, the receiver delivers the completed messages and stays in step. */
  lemma {:induction false} RoundTrip(cfg: Config, lanes: map<nat, Lane>, streams: seq<Stream>, picks: seq<nat>)
    requires cfg.Valid() && LanesOk(cfg, lanes) && InStep(cfg, lanes, streams) && Picks(cfg, lanes, picks)
    ensures var o := Run(cfg, streams, Wire(cfg, lanes, picks));
            && o.open && o.rest == [] && o.msgs == Completed(cfg, lanes, picks)
            && InStep(cfg, LanesAfter(cfg, lanes, picks), o.streams)
    decreases |picks|
  {
    hide ParseChunk, RecordOf, Advance, LaneOk, Ends;
    if picks != [] {
      var c := picks[0];
      var lanes' := lanes[c := Advance(cfg, c, lanes[c])];
      var rest := Wire(cfg, lanes', picks[1..]);
      ChunkStep(cfg, streams, c, lanes[c], rest);
      var chunk := NextChunk(cfg, c, lanes[c]);
      var s := chunk + rest;
      assert s[|chunk|..] == rest;
      var streams' := streams[c := RecordOf(cfg, c, lanes'[c])];
      RoundTrip(cfg, lanes', streams', picks[1..]);
    } else {
      assert ParseChunk(cfg, streams, []) == More by { EmptyIsMore(cfg, streams); }
    }
  }

  function OnStream(msgs: seq<Message>, csid: nat): seq<Message> {
    if msgs == [] then [] else
    (if msgs[0].csid == csid then [msgs[0]] else []) + OnStream(msgs[1..], csid)
  }

  lemma Associative<T>(a: seq<T>, b: seq<T>, c: seq<T>)
    ensures a + (b + c) == (a + b) + c
  {
  }

  lemma {:induction false} OnStreamAppend(a: seq<Message>, b: seq<Message>, csid: nat)
    ensures OnStream(a + b, csid) == OnStream(a, csid) + OnStream(b, csid)
  {
    if a == [] {
      assert a + b == b;
    } else {
      assert (a + b)[0] == a[0] && (a + b)[1..] == a[1..] + b;
      OnStreamAppend(a[1..], b, csid);
      var first := if a[0].csid == csid then [a[0]] else [];
      Associative(first, OnStream(a[1..], csid), OnStream(b, csid));
    }
  }

  function AllDelivered(cfg: Config, st: Stream, csid: nat, msgs: seq<Outgoing>): seq<Message>
    requires Script(cfg, st, csid, msgs)
    decreases |msgs|
  {
    if msgs == [] then [] else [Delivered(msgs[0])] + AllDelivered(cfg, After(cfg, st, msgs[0]), csid, msgs[1..])
  }

  /** On each chunk stream the deliveries are the scripted messages in order, up to what is still to be sent. */
  lemma {:induction false} EachStreamInOrder(cfg: Config, lanes: map<nat, Lane>, picks: seq<nat>, csid: nat)
    requires cfg.Valid() && LanesOk(cfg, lanes) && Picks(cfg, lanes, picks) && csid in lanes
    ensures var left := LanesAfter(cfg, lanes, picks)[csid];
            OnStream(Completed(cfg, lanes, picks), csid) + AllDelivered(cfg, left.known, csid, left.msgs)
            == AllDelivered(cfg, lanes[csid].known, csid, lanes[csid].msgs)
    decreases |picks|
  {
    hide Completed, LanesAfter, AllDelivered, OnStream, Advance, Ends, Delivered, Script, LaneOk;
    if picks == [] {
      NoPicks(cfg, lanes, csid);
    } else {
      var c := picks[0];
      var lanes' := lanes[c := Advance(cfg, c, lanes[c])];
      EachStreamInOrder(cfg, lanes', picks[1..], csid);
      LaneFacts(cfg, c, lanes[c]);
      LaneFacts(cfg, csid, LanesAfter(cfg, lanes, picks)[csid]);
      var done := if Ends(cfg, lanes[c]) then [Delivered(lanes[c].msgs[0])] else [];
      var rest, left := Completed(cfg, lanes', picks[1..]), LanesAfter(cfg, lanes, picks)[csid];
      CompletedFirst(cfg, lanes, picks);
      OnStreamAppend(done, rest, csid);
      LaneStep(cfg, c, lanes[c]);
      Own(done, c, csid);
      var all := AllDelivered(cfg, left.known, csid, left.msgs);
      assert OnStream(done, csid) + OnStream(rest, csid) + all == OnStream(done, csid) + (OnStream(rest, csid) + all);
    }
  }

  lemma LaneFacts(cfg: Config, csid: nat, lane: Lane)
    requires LaneOk(cfg, csid, lane)
    ensures Script(cfg, lane.known, csid, lane.msgs)
    ensures lane.msgs != [] ==> lane.sent <= |lane.msgs[0].payload| < U24 && Sendable(lane.msgs[0].h.csid)
  {
  }

  lemma NoPicks(cfg: Config, lanes: map<nat, Lane>, csid: nat)
    requires cfg.Valid() && LanesOk(cfg, lanes)
    ensures Completed(cfg, lanes, []) == [] && LanesAfter(cfg, lanes, []) == lanes && OnStream([], csid) == []
  {
  }

  lemma CompletedFirst(cfg: Config, lanes: map<nat, Lane>, picks: seq<nat>)
    requires cfg.Valid() && LanesOk(cfg, lanes) && Picks(cfg, lanes, picks) && picks != []
    ensures var c := picks[0]; var lanes' := lanes[c := Advance(cfg, c, lanes[c])];
            && Completed(cfg, lanes, picks)
               == (if Ends(cfg, lanes[c]) then [Delivered(lanes[c].msgs[0])] else [])
                  + Completed(cfg, lanes', picks[1..])
            && LanesAfter(cfg, lanes, picks) == LanesAfter(cfg, lanes', picks[1..])
  {
  }

  /** A lane's next chunk delivers the first of its messages or none. */
  lemma LaneStep(cfg: Config, csid: nat, lane: Lane)
    requires cfg.Valid() && LaneOk(cfg, csid, lane) && lane.msgs != []
    ensures var next := Advance(cfg, csid, lane);
            AllDelivered(cfg, lane.known, csid, lane.msgs)
            == (if Ends(cfg, lane) then [Delivered(lane.msgs[0])] else [])
               + AllDelivered(cfg, next.known, csid, next.msgs)
    ensures Delivered(lane.msgs[0]).csid == csid
  {
  }

  lemma Own(done: seq<Message>, c: nat, csid: nat)
    requires |done| <= 1 && forall i :: 0 <= i < |done| ==> done[i].csid == c
    ensures OnStream(done, csid) == if c == csid then done else []
  {
    if |done| == 1 {
      assert done[1..] == [];
      assert OnStream([], csid) == [];
      assert done == [done[0]];
    }
  }

  /** A lane's chunks are the chunks of its messages, each cut from its first byte on, in order. */
  ghost function LaneChunks(cfg: Config, csid: nat, lane: Lane): seq<seq<byte>>
    requires cfg.Valid() && LaneOk(cfg, csid, lane)
    decreases |lane.msgs|
  {
    if lane.msgs == [] then [] else
    ChunksFrom(cfg.timeFix, cfg.chunkSize, lane.msgs[0], lane.sent)
    + LaneChunks(cfg, csid, Lane(After(cfg, lane.known, lane.msgs[0]), lane.msgs[1..], 0))
  }

  lemma LaneChunksUnfold(cfg: Config, csid: nat, lane: Lane)
    requires cfg.Valid() && LaneOk(cfg, csid, lane) && lane.msgs != []
    ensures var o := lane.msgs[0];
            && lane.sent <= |o.payload| < U24 && Sendable(o.h.csid)
            && LaneOk(cfg, csid, Lane(After(cfg, lane.known, o), lane.msgs[1..], 0))
    ensures var o := lane.msgs[0];
            LaneChunks(cfg, csid, lane)
            == ChunksFrom(cfg.timeFix, cfg.chunkSize, o, lane.sent)
               + LaneChunks(cfg, csid, Lane(After(cfg, lane.known, o), lane.msgs[1..], 0))
  {
  }

  lemma NextChunkIsFirst(cfg: Config, csid: nat, lane: Lane)
    requires cfg.Valid() && LaneOk(cfg, csid, lane) && lane.msgs != []
    ensures LaneChunks(cfg, csid, lane)
            == [NextChunk(cfg, csid, lane)] + LaneChunks(cfg, csid, Advance(cfg, csid, lane))
  {
    hide LaneOk, LaneChunks, ChunksFrom, ChunkAt, After;
    LaneChunksUnfold(cfg, csid, lane);
    var o := lane.msgs[0];
    var chunk, next := NextChunk(cfg, csid, lane), Advance(cfg, csid, lane);
    ChunksUnfold(cfg.timeFix, cfg.chunkSize, o, lane.sent);
    if Ends(cfg, lane) {
      Push(chunk, [], LaneChunks(cfg, csid, next));
    } else {
      LaneChunksUnfold(cfg, csid, next);
      var rest := LaneChunks(cfg, csid, Lane(After(cfg, lane.known, o), lane.msgs[1..], 0));
      Push(chunk, ChunksFrom(cfg.timeFix, cfg.chunkSize, o, next.sent), rest);
    }
  }

  lemma Push<T>(x: T, a: seq<T>, b: seq<T>)
    ensures ([x] + a) + b == [x] + (a + b) && [x] + [] == [x] && [] + b == b
  {
  }

  /** Fresh sender and receiver, every chunk of every script sent: each stream delivers its whole script. */
  lemma FreshRoundTrip(cfg: Config, lanes: map<nat, Lane>, picks: seq<nat>)
    requires cfg.Valid() && LanesOk(cfg, lanes) && Picks(cfg, lanes, picks)
    requires forall c :: c in lanes ==> c < cfg.maxStreams && lanes[c].known == IDLE && lanes[c].sent == 0
    requires forall c :: c in lanes ==> LanesAfter(cfg, lanes, picks)[c].msgs == []
    ensures var o := Run(cfg, seq(cfg.maxStreams, _ => IDLE), Wire(cfg, lanes, picks));
            && o.open && o.rest == []
            && forall c :: c in lanes ==> OnStream(o.msgs, c) == AllDelivered(cfg, IDLE, c, lanes[c].msgs)
  {
    hide Run, Wire, Completed, LanesAfter, Picks, InStep, OnStream, AllDelivered;
    var streams := seq(cfg.maxStreams, _ => IDLE);
    FreshInStep(cfg, lanes, streams);
    RoundTrip(cfg, lanes, streams, picks);
    var msgs := Run(cfg, streams, Wire(cfg, lanes, picks)).msgs;
    forall c | c in lanes
      ensures OnStream(msgs, c) == AllDelivered(cfg, IDLE, c, lanes[c].msgs)
    {
      EachStreamInOrder(cfg, lanes, picks, c);
      NothingLeft(cfg, c, LanesAfter(cfg, lanes, picks)[c]);
      assert OnStream(msgs, c) + [] == OnStream(msgs, c);
    }
  }

  lemma FreshInStep(cfg: Config, lanes: map<nat, Lane>, streams: seq<Stream>)
    requires LanesOk(cfg, lanes) && streams == seq(cfg.maxStreams, _ => IDLE)
    requires forall c :: c in lanes ==> c < cfg.maxStreams && lanes[c].known == IDLE && lanes[c].sent == 0
    ensures InStep(cfg, lanes, streams)
  {
  }

  lemma NothingLeft(cfg: Config, csid: nat, lane: Lane)
    requires LaneOk(cfg, csid, lane)
    ensures Script(cfg, lane.known, csid, lane.msgs)
    ensures lane.msgs == [] ==> AllDelivered(cfg, lane.known, csid, lane.msgs) == []
  {
  }

  // ----- the one header format that can lose the message -----

  /**
   A message that starts with format 3 carries no time field: the receiver reuses the delta it has pending,
   and expects an extended timestamp if the message before had one. The first chunk is read as the start of
   this message, with its own time, exactly when no delta and no extended timestamp are pending.
   */
  lemma FormatThreeStart(cfg: Config, streams: seq<Stream>, o: Outgoing, tail: seq<byte>)
    requires cfg.Valid() && |streams| == cfg.maxStreams && Sendable(o.h.csid) && o.h.csid < cfg.maxStreams
    requires |o.payload| < U24 && |o.payload| <= cfg.maxMessage
    requires Known(streams[o.h.csid], o) && o.Fmt() == 3
    requires streams[o.h.csid].len == 0 && streams[o.h.csid].payload == []
    ensures var st := streams[o.h.csid];
            var h := ReadHeader(cfg, streams, FirstHeader(o) + tail);
            (h.Header? && h.size == |FirstHeader(o)| && Due(h.st) == o.h.timestamp)
            <==> st.dtime == 0 && !st.ext
  {
    FirstHeaderFields(o, tail);
  }

  /** A message at the time of the one before, which came 5 after its own: it is taken to be 5 later. */
  lemma FormatThreeExample()
    ensures var cfg := Config(4, 100, 128, false);
            var st := Stream(1000, 1, 8, 1, 5, 0, false, []);
            var o := Outgoing(Head(3, 1000, 0, 8, 1), Some(Head(3, 1000, 1, 8, 1)), [7]);
            && o.Fmt() == 3 && Known(st, o)
            && var h := ReadHeader(cfg, [IDLE, IDLE, IDLE, st], FirstHeader(o)); h.Header? && Due(h.st) == 1005
  {
    var o := Outgoing(Head(3, 1000, 0, 8, 1), Some(Head(3, 1000, 1, 8, 1)), [7]);
    assert FirstHeader(o) == [3 * 64 + 3];
  }
}
