/**
 The RTMP chunk format as the receiver reads it (sections 5.3.1.1 to 5.3.1.3 of
 the RTMP 1.0 specification), as a pure parser of one flat byte string.
 The receiver in ChunkReceiver.dfy is proved to compute this parser whatever the read sizes.
 */
module ChunkFormat {
  import opened Bytes

  /** max_streams, max_message, the chunk size in force and publish_time_fix. */
  datatype Config = Config(maxStreams: nat, maxMessage: nat, chunkSize: nat, timeFix: bool)
  {
    ghost predicate Valid() {
      0 < chunkSize < U32
    }
  }

  /** A message as handed to the message handlers. */
  datatype Message = Message(csid: nat, typ: byte, msid: u32, mlen: u32, timestamp: u32, payload: seq<byte>)

  /** What the receiver remembers of one chunk stream; `payload` is what the message in progress has so far. */
  datatype Stream = Stream(timestamp: u32, mlen: u32, typ: byte, msid: u32,
                           dtime: u32, len: u32, ext: bool, payload: seq<byte>)

  const IDLE := Stream(0, 0, 0, 0, 0, 0, false, [])

  datatype Basic = BasicShort | Basic(fmt: nat, csid: nat, size: nat)

  function ReadBasic(s: seq<byte>): (r: Basic)
    ensures r.Basic? ==> 1 <= r.size <= |s| && r.size <= 3 && 2 <= r.csid && r.fmt <= 3
  {
    if |s| < 1 then BasicShort else
    var low := s[0] % 64;
    if low == 0 then
      if |s| < 2 then BasicShort else Basic(s[0] / 64, 64 + s[1] as int, 2)
    else if low == 1 then
      if |s| < 3 then BasicShort else Basic(s[0] / 64, 64 + s[1] as int + 256 * s[2] as int, 3)
    else
      Basic(s[0] / 64, low, 1)
  }

  function FieldSize(fmt: nat): (n: nat)
    ensures n <= 11
  {
    if fmt == 0 then 11 else if fmt == 1 then 7 else if fmt == 2 then 3 else 0
  }

  /** A whole header: its size, its chunk stream, and that stream's record once the header is applied. */
  datatype Header = HeaderShort | HeaderBad | Header(size: nat, csid: nat, st: Stream)

  /** The fields a header of format `fmt` replaces, and the time it leaves pending when a message starts. */
  function Apply(cfg: Config, st: Stream, fmt: nat, s: seq<byte>, at: nat, ext: bool, time: u32): (r: Stream)
    requires at + FieldSize(fmt) <= |s|
    ensures r.payload == st.payload && r.len == st.len
  {
    var st1 := if fmt <= 1 then st.(mlen := Be24(s, at + 3), typ := s[at + 6]) else st;
    var st2 := if fmt == 0 then st1.(msid := Le32(s, at + 7)) else st1;
    if st.len != 0 then st2
    else if fmt != 0 then st2.(ext := ext && cfg.timeFix, dtime := time)
    else st2.(ext := ext && cfg.timeFix, dtime := 0, timestamp := time)
  }

  function ReadHeader(cfg: Config, streams: seq<Stream>, s: seq<byte>): (r: Header)
    requires |streams| == cfg.maxStreams
    ensures r.Header? ==> 1 <= r.size <= |s| && r.size <= 18 && 2 <= r.csid < |streams|
    ensures r.Header? ==> r.st.payload == streams[r.csid].payload && r.st.len == streams[r.csid].len
    ensures r.Header? ==> ReadBasic(s).Basic? && r.csid == ReadBasic(s).csid
  {
    match ReadBasic(s)
    case BasicShort => HeaderShort
    case Basic(fmt, csid, at) =>
      if csid >= cfg.maxStreams then HeaderBad else
      var st := streams[csid];
      var n := at + FieldSize(fmt);
      if |s| < n then HeaderShort else
      var short: u32 := if fmt <= 2 then Be24(s, at) else st.dtime;
      var ext := if fmt <= 2 then short == 0xff_ffff else st.ext;
      if ext && |s| < n + 4 then HeaderShort else
      var time := if ext then Be32(s, n) else short;
      var st' := Apply(cfg, st, fmt, s, at, ext, time);
      if st'.mlen > cfg.maxMessage then HeaderBad else
      Header(if ext then n + 4 else n, csid, st')
  }

  /** Bytes of the message still missing, in the unsigned arithmetic of the source. */
  function Missing(st: Stream): u32 {
    Wrap(st.mlen - st.len)
  }

  function Take(cfg: Config, st: Stream): nat {
    if Missing(st) > cfg.chunkSize then cfg.chunkSize else Missing(st)
  }

  /** The stream after a chunk that does not end its message. */
  function Grow(cfg: Config, st: Stream, data: seq<byte>): Stream {
    st.(len := Wrap(st.len + cfg.chunkSize), payload := st.payload + data)
  }

  /** The time a message is delivered with: its absolute time, or the last one plus the pending delta. */
  function Due(st: Stream): u32 {
    Wrap(st.timestamp + st.dtime)
  }

  /** The stream after the chunk that ends its message. */
  function Reset(st: Stream): Stream {
    st.(len := 0, timestamp := Due(st), payload := [])
  }

  function Finished(csid: nat, st: Stream, data: seq<byte>): Message {
    Message(csid, st.typ, st.msid, st.mlen, Due(st), st.payload + data)
  }

  datatype Chunk = More | Bad | Chunk(size: nat, streams: seq<Stream>, out: seq<Message>)

  /** One chunk off the front of `s`, or the verdict that more bytes are needed or that the session ends. */
  function ParseChunk(cfg: Config, streams: seq<Stream>, s: seq<byte>): (r: Chunk)
    requires |streams| == cfg.maxStreams
    ensures r.Chunk? ==> 1 <= r.size <= |s| && |r.streams| == |streams|
  {
    match ReadHeader(cfg, streams, s)
    case HeaderShort => More
    case HeaderBad => Bad
    case Header(n, csid, st) =>
      var take := Take(cfg, st);
      if |s| - n < take then More else
      var data := s[n..n + take];
      if Missing(st) > cfg.chunkSize then
        Chunk(n + take, streams[csid := Grow(cfg, st, data)], [])
      else
        Chunk(n + take, streams[csid := Reset(st)], [Finished(csid, st, data)])
  }

  /** All that a byte string makes the receiver do; `open` is false once the session is finalized. */
  datatype Outcome = Outcome(open: bool, streams: seq<Stream>, msgs: seq<Message>, rest: seq<byte>)

  function Prepend(msgs: seq<Message>, o: Outcome): Outcome {
    o.(msgs := msgs + o.msgs)
  }

  lemma PrependLaws(a: seq<Message>, b: seq<Message>, o: Outcome)
    ensures Prepend([], o) == o && Prepend(a, Prepend(b, o)) == Prepend(a + b, o)
    ensures Prepend(a, o).msgs == a + o.msgs && Prepend(a, o).open == o.open
    ensures o.msgs == [] ==> Prepend(a, o) == o.(msgs := a)
  {
    assert [] + o.msgs == o.msgs && a + (b + o.msgs) == (a + b) + o.msgs;
    assert o.msgs == [] ==> a + o.msgs == a;
  }

  function Run(cfg: Config, streams: seq<Stream>, s: seq<byte>): (o: Outcome)
    requires |streams| == cfg.maxStreams
    ensures |o.streams| == |streams|
    decreases |s|
  {
    match ParseChunk(cfg, streams, s)
    case More => Outcome(true, streams, [], s)
    case Bad => Outcome(false, streams, [], [])
    case Chunk(n, streams', out) => Prepend(out, Run(cfg, streams', s[n..]))
  }

  /** Going on with further bytes; a finalized session ignores them. */
  function Continue(cfg: Config, o: Outcome, t: seq<byte>): Outcome
    requires |o.streams| == cfg.maxStreams
  {
    if o.open then Prepend(o.msgs, Run(cfg, o.streams, o.rest + t)) else o
  }

  /** A verdict other than `More` is not changed by the bytes that follow. */
  lemma ParseChunkStable(cfg: Config, streams: seq<Stream>, s: seq<byte>, t: seq<byte>)
    requires |streams| == cfg.maxStreams
    requires !ParseChunk(cfg, streams, s).More?
    ensures ParseChunk(cfg, streams, s + t) == ParseChunk(cfg, streams, s)
  {
    ReadHeaderStable(cfg, streams, s, t);
    var h := ReadHeader(cfg, streams, s);
    if h.Header? {
      var take := Take(cfg, h.st);
      assert (s + t)[h.size..h.size + take] == s[h.size..h.size + take];
    }
  }

  lemma ReadBasicStable(s: seq<byte>, t: seq<byte>)
    requires !ReadBasic(s).BasicShort?
    ensures ReadBasic(s + t) == ReadBasic(s)
  {
  }

  lemma ApplyStable(cfg: Config, st: Stream, fmt: nat, s: seq<byte>, t: seq<byte>, at: nat, ext: bool, time: u32)
    requires at + FieldSize(fmt) <= |s|
    ensures Apply(cfg, st, fmt, s + t, at, ext, time) == Apply(cfg, st, fmt, s, at, ext, time)
  {
  }

  lemma ReadHeaderStable(cfg: Config, streams: seq<Stream>, s: seq<byte>, t: seq<byte>)
    requires |streams| == cfg.maxStreams
    requires !ReadHeader(cfg, streams, s).HeaderShort?
    ensures ReadHeader(cfg, streams, s + t) == ReadHeader(cfg, streams, s)
  {
    ReadBasicStable(s, t);
    var Basic(fmt, csid, at) := ReadBasic(s);
    if csid < cfg.maxStreams {
      var st := streams[csid];
      var n := at + FieldSize(fmt);
      var short: u32 := if fmt <= 2 then Be24(s, at) else st.dtime;
      var ext := if fmt <= 2 then short == 0xff_ffff else st.ext;
      if fmt <= 2 {
        assert Be24(s + t, at) == Be24(s, at);
      }
      if ext {
        assert Be32(s + t, n) == Be32(s, n);
      }
      ApplyStable(cfg, st, fmt, s, t, at, ext, if ext then Be32(s, n) else short);
    }
  }

  lemma PrependContinue(cfg: Config, out: seq<Message>, o: Outcome, t: seq<byte>)
    requires |o.streams| == cfg.maxStreams
    ensures Continue(cfg, Prepend(out, o), t) == Prepend(out, Continue(cfg, o, t))
  {
    hide Run;
    if o.open {
      PrependLaws(out, o.msgs, Run(cfg, o.streams, o.rest + t));
    }
  }

  lemma RunStep(cfg: Config, streams: seq<Stream>, s: seq<byte>)
    requires |streams| == cfg.maxStreams
    requires ParseChunk(cfg, streams, s).Chunk?
    ensures var c := ParseChunk(cfg, streams, s);
            Run(cfg, streams, s) == Prepend(c.out, Run(cfg, c.streams, s[c.size..]))
  {
  }

  /** Reading a byte string in two parts does what reading it whole does: no byte is lost or read twice. */
  lemma {:induction false} RunSplit(cfg: Config, streams: seq<Stream>, s: seq<byte>, t: seq<byte>)
    requires |streams| == cfg.maxStreams
    ensures Run(cfg, streams, s + t) == Continue(cfg, Run(cfg, streams, s), t)
    decreases |s|
  {
    hide ParseChunk;
    var c := ParseChunk(cfg, streams, s);
    if c.More? {
      var o := Run(cfg, streams, s + t);
      assert [] + o.msgs == o.msgs;
    } else {
      ParseChunkStable(cfg, streams, s, t);
      if c.Chunk? {
        RunStep(cfg, streams, s);
        RunStep(cfg, streams, s + t);
        assert (s + t)[c.size..] == s[c.size..] + t;
        RunSplit(cfg, c.streams, s[c.size..], t);
        PrependContinue(cfg, c.out, Run(cfg, c.streams, s[c.size..]), t);
      }
    }
  }

  lemma EmptyIsMore(cfg: Config, streams: seq<Stream>)
    requires |streams| == cfg.maxStreams
    ensures ParseChunk(cfg, streams, []) == More
  {
  }

  lemma RunMore(cfg: Config, streams: seq<Stream>, s: seq<byte>)
    requires |streams| == cfg.maxStreams && ParseChunk(cfg, streams, s).More?
    ensures Run(cfg, streams, s) == Outcome(true, streams, [], s)
  {
  }

  lemma RunBad(cfg: Config, streams: seq<Stream>, s: seq<byte>, t: seq<byte>)
    requires |streams| == cfg.maxStreams && ParseChunk(cfg, streams, s).Bad?
    ensures Run(cfg, streams, s + t) == Outcome(false, streams, [], [])
  {
    hide ReadHeader;
    ParseChunkStable(cfg, streams, s, t);
  }

  /** Taking the first chunk of `s` leaves the rest to be read as before, with `t` after it. */
  lemma RunChunk(cfg: Config, streams: seq<Stream>, s: seq<byte>, t: seq<byte>)
    requires |streams| == cfg.maxStreams && ParseChunk(cfg, streams, s).Chunk?
    ensures var c := ParseChunk(cfg, streams, s);
            Run(cfg, streams, s + t) == Prepend(c.out, Run(cfg, c.streams, s[c.size..] + t))
  {
    hide ParseChunk, Run;
    var c := ParseChunk(cfg, streams, s);
    ParseChunkStable(cfg, streams, s, t);
    RunStep(cfg, streams, s + t);
    assert (s + t)[c.size..] == s[c.size..] + t;
  }

  /** What `Run` leaves unread does not hold a whole chunk. */
  lemma {:induction false} RunStops(cfg: Config, streams: seq<Stream>, s: seq<byte>)
    requires |streams| == cfg.maxStreams
    ensures var o := Run(cfg, streams, s); o.open ==> ParseChunk(cfg, o.streams, o.rest).More?
    decreases |s|
  {
    match ParseChunk(cfg, streams, s)
    case More =>
    case Bad =>
    case Chunk(n, streams', _) => RunStops(cfg, streams', s[n..]);
  }

  /**
   The session ends exactly at a chunk of a chunk stream beyond the last, or at a whole header of a message, the length
   of which is in it for formats 0 and 1 and was given before for the others, longer than the limit.
   */
  lemma BadExact(cfg: Config, streams: seq<Stream>, s: seq<byte>)
    requires |streams| == cfg.maxStreams
    ensures ParseChunk(cfg, streams, s).Bad? <==>
      match ReadBasic(s)
      case BasicShort => false
      case Basic(fmt, csid, at) =>
        csid >= cfg.maxStreams
        || (!ReadHeader(cfg, streams, s).HeaderShort?
            && cfg.maxMessage < if fmt <= 1 then Be24(s, at + 3) else streams[csid].mlen)
  {
  }

  /** No message longer than the limit is delivered, whatever the bytes. */
  lemma {:induction false} MessagesFit(cfg: Config, streams: seq<Stream>, s: seq<byte>)
    requires |streams| == cfg.maxStreams
    ensures forall i :: 0 <= i < |Run(cfg, streams, s).msgs| ==> Run(cfg, streams, s).msgs[i].mlen <= cfg.maxMessage
    decreases |s|
  {
    var c := ParseChunk(cfg, streams, s);
    if c.Chunk? {
      ChunkFits(cfg, streams, s);
      RunStep(cfg, streams, s);
      MessagesFit(cfg, c.streams, s[c.size..]);
    }
  }

  lemma ChunkFits(cfg: Config, streams: seq<Stream>, s: seq<byte>)
    requires |streams| == cfg.maxStreams && ParseChunk(cfg, streams, s).Chunk?
    ensures var out := ParseChunk(cfg, streams, s).out; |out| <= 1 && (|out| == 1 ==> out[0].mlen <= cfg.maxMessage)
  {
    hide Apply, Be24, Be32;
  }
}
