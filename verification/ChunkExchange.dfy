/** Sender and receiver put together: what a session accepts is, message by message, what its peer is delivered. */
module ChunkExchange {
  import opened Bytes
  import opened Pointers
  import opened Wrappers
  import opened ChunkFormat
  import opened ChunkLayout
  import opened ChunkRoundTrip
  import ChunkReceiver
  import OutputPath
  import OutputSession
  import OutputWorld
  import SharedStore

  /** The chunks of a message, one after the other. */
  ghost function MessageBytes(cfg: Config, o: Outgoing): seq<byte>
    requires cfg.Valid() && Sendable(o.h.csid)
  {
    Flatten(ChunksFrom(cfg.timeFix, cfg.chunkSize, o, 0))
  }

  /** Each message can follow what the receiver knows of its chunk stream after the ones before it. */
  ghost predicate Sequel(cfg: Config, streams: seq<Stream>, os: seq<Outgoing>)
    decreases |os|
  {
    os == [] ||
    (var o := os[0];
     && |streams| == cfg.maxStreams && o.h.csid < cfg.maxStreams
     && streams[o.h.csid].len == 0 && streams[o.h.csid].payload == []
     && Follows(cfg, streams[o.h.csid], o)
     && Sequel(cfg, streams[o.h.csid := After(cfg, streams[o.h.csid], o)], os[1..]))
  }

  ghost function SequelBytes(cfg: Config, streams: seq<Stream>, os: seq<Outgoing>): (r: seq<seq<byte>>)
    requires cfg.Valid() && Sequel(cfg, streams, os)
    ensures |r| == |os|
    decreases |os|
  {
    if os == [] then [] else
    [MessageBytes(cfg, os[0])]
    + SequelBytes(cfg, streams[os[0].h.csid := After(cfg, streams[os[0].h.csid], os[0])], os[1..])
  }

  ghost function SequelMessages(cfg: Config, streams: seq<Stream>, os: seq<Outgoing>): (r: seq<Message>)
    requires Sequel(cfg, streams, os)
    ensures |r| == |os|
    decreases |os|
  {
    if os == [] then [] else
    [Delivered(os[0])] + SequelMessages(cfg, streams[os[0].h.csid := After(cfg, streams[os[0].h.csid], os[0])], os[1..])
  }

  /** A chunk is read, and what follows it is read from there. */
  lemma ChunkRead(cfg: Config, streams: seq<Stream>, csid: nat, lane: Lane, more: seq<byte>)
    requires cfg.Valid() && |streams| == cfg.maxStreams && csid < cfg.maxStreams
    requires LaneOk(cfg, csid, lane) && lane.msgs != [] && streams[csid] == RecordOf(cfg, csid, lane)
    ensures |lane.msgs[0].payload| < U24
    ensures Run(cfg, streams, NextChunk(cfg, csid, lane) + more)
            == Prepend(if Ends(cfg, lane) then [Delivered(lane.msgs[0])] else [],
                       Run(cfg, streams[csid := RecordOf(cfg, csid, Advance(cfg, csid, lane))], more))
  {
    hide RecordOf, ParseChunk, Run, Advance, LaneOk, Ends, Delivered, NextChunk, Prepend;
    LaneFacts(cfg, csid, lane);
    var chunk := NextChunk(cfg, csid, lane);
    ChunkStep(cfg, streams, csid, lane, more);
    RunStep(cfg, streams, chunk + more);
    assert (chunk + more)[|chunk|..] == more;
  }

  /** The chunks of a message that are still to come are read as that message. */
  lemma {:induction false} MessageRead(cfg: Config, streams: seq<Stream>, csid: nat, lane: Lane, tail: seq<byte>)
    requires cfg.Valid() && |streams| == cfg.maxStreams && csid < cfg.maxStreams
    requires LaneOk(cfg, csid, lane) && |lane.msgs| == 1 && streams[csid] == RecordOf(cfg, csid, lane)
    ensures lane.sent <= |lane.msgs[0].payload| < U24 && Sendable(lane.msgs[0].h.csid)
    ensures var o := lane.msgs[0];
            Run(cfg, streams, Flatten(ChunksFrom(cfg.timeFix, cfg.chunkSize, o, lane.sent)) + tail)
            == Prepend([Delivered(o)], Run(cfg, streams[csid := After(cfg, lane.known, o)], tail))
    decreases |lane.msgs[0].payload| - lane.sent
  {
    hide RecordOf, Run, After, LaneOk, Prepend, Delivered, ChunkAt, ChunksFrom, Flatten;
    LaneFacts(cfg, csid, lane);
    var o := lane.msgs[0];
    var chunk, next := NextChunk(cfg, csid, lane), Advance(cfg, csid, lane);
    var rest := if Ends(cfg, lane) then [] else ChunksFrom(cfg.timeFix, cfg.chunkSize, o, next.sent);
    ChunksUnfold(cfg.timeFix, cfg.chunkSize, o, lane.sent);
    FlattenFirst(chunk, rest);
    assert chunk + Flatten(rest) + tail == chunk + (Flatten(rest) + tail);
    ChunkRead(cfg, streams, csid, lane, Flatten(rest) + tail);
    if Ends(cfg, lane) {
      assert Flatten(rest) + tail == tail;
      RecordAtRest(cfg, csid, next);
    } else {
      var streams' := streams[csid := RecordOf(cfg, csid, next)];
      MessageRead(cfg, streams', csid, next, tail);
      assert streams'[csid := After(cfg, lane.known, o)] == streams[csid := After(cfg, lane.known, o)];
      PrependLaws([], [], Run(cfg, streams', Flatten(rest) + tail));
    }
  }

  lemma RecordAtRest(cfg: Config, csid: nat, lane: Lane)
    requires LaneOk(cfg, csid, lane) && lane.sent == 0
    ensures RecordOf(cfg, csid, lane) == lane.known
  {
  }

  /** The first of the messages, alone on its chunk stream. */
  lemma FirstAlone(cfg: Config, streams: seq<Stream>, os: seq<Outgoing>)
    requires cfg.Valid() && Sequel(cfg, streams, os) && os != []
    ensures var o := os[0]; var lane := Lane(streams[o.h.csid], [o], 0);
            && Sendable(o.h.csid) && |o.payload| < U24
            && LaneOk(cfg, o.h.csid, lane) && RecordOf(cfg, o.h.csid, lane) == streams[o.h.csid]
  {
    assert [os[0]][1..] == [];
  }

  /** A sequence of messages, on whatever chunk streams, is read as exactly these messages in this order. */
  lemma {:induction false} SequelRead(cfg: Config, streams: seq<Stream>, os: seq<Outgoing>)
    requires cfg.Valid() && |streams| == cfg.maxStreams && Sequel(cfg, streams, os)
    ensures var o := Run(cfg, streams, Flatten(SequelBytes(cfg, streams, os)));
            o.open && o.rest == [] && o.msgs == SequelMessages(cfg, streams, os)
    decreases |os|
  {
    hide Run, After, Follows, RecordOf, LaneOk, Delivered;
    if os == [] {
      EmptyIsMore(cfg, streams);
      RunMore(cfg, streams, []);
    } else {
      var o := os[0];
      FirstAlone(cfg, streams, os);
      var streams' := streams[o.h.csid := After(cfg, streams[o.h.csid], o)];
      var bytes := SequelBytes(cfg, streams', os[1..]);
      FlattenFirst(MessageBytes(cfg, o), bytes);
      MessageRead(cfg, streams, o.h.csid, Lane(streams[o.h.csid], [o], 0), Flatten(bytes));
      SequelRead(cfg, streams', os[1..]);
    }
  }

  /** What the receiver knows of its chunk streams after these messages. */
  ghost function StreamsAfter(cfg: Config, streams: seq<Stream>, os: seq<Outgoing>): (r: seq<Stream>)
    requires Sequel(cfg, streams, os)
    ensures |r| == |streams|
    decreases |os|
  {
    if os == [] then streams else
    StreamsAfter(cfg, streams[os[0].h.csid := After(cfg, streams[os[0].h.csid], os[0])], os[1..])
  }

  /** A message that can follow the last one adds its chunks behind the bytes of those before. */
  lemma {:induction false} SequelAppend(cfg: Config, streams: seq<Stream>, os: seq<Outgoing>, o: Outgoing)
    requires cfg.Valid() && Sequel(cfg, streams, os) && Sequel(cfg, StreamsAfter(cfg, streams, os), [o])
    ensures Sendable(o.h.csid) && Sequel(cfg, streams, os + [o])
    ensures SequelBytes(cfg, streams, os + [o]) == SequelBytes(cfg, streams, os) + [MessageBytes(cfg, o)]
    decreases |os|
  {
    hide After, Follows, MessageBytes, Delivered;
    FirstAlone(cfg, StreamsAfter(cfg, streams, os), [o]);
    if os == [] {
      assert os + [o] == [o] && [o][1..] == [];
    } else {
      FirstAlone(cfg, streams, os);
      var streams' := streams[os[0].h.csid := After(cfg, streams[os[0].h.csid], os[0])];
      SequelAppend(cfg, streams', os[1..], o);
      assert (os + [o])[0] == os[0] && (os + [o])[1..] == os[1..] + [o];
      assert SequelBytes(cfg, streams, os + [o])
             == [MessageBytes(cfg, os[0])] + (SequelBytes(cfg, streams', os[1..]) + [MessageBytes(cfg, o)]);
    }
  }

  /**
   Part of the bytes is read as a first part of the messages, and a session that stays open to the end is open there.
   */
  lemma PrefixRead(cfg: Config, streams: seq<Stream>, part: seq<byte>, whole: seq<byte>)
    requires |streams| == cfg.maxStreams && part <= whole
    ensures Run(cfg, streams, part).msgs <= Run(cfg, streams, whole).msgs
    ensures Run(cfg, streams, whole).open ==> Run(cfg, streams, part).open
  {
    hide Run;
    RunSplit(cfg, streams, part, whole[|part|..]);
    assert part + whole[|part|..] == whole;
  }

  lemma NoneToAppend(size: nat)
    requires size > 0
    ensures forall out: OutputPath.Output :: out.size == size ==> !out.TailFull([])
  {
    assert Cut(size, []) == [[]];
  }

  lemma ChainIsMessage(out: OutputPath.Output, chain: nat, cfg: Config, o: Outgoing)
    requires chain in out.live && cfg.Valid() && Sendable(o.h.csid)
    requires SharedStore.Parts(out.mem, out.live[chain]) == ChunksFrom(cfg.timeFix, cfg.chunkSize, o, 0)
    ensures SharedStore.ChainBytes(out.mem, out.live[chain]) == MessageBytes(cfg, o)
  {
  }

  lemma ChainIsPayload(out: OutputPath.Output, chain: nat, z: seq<byte>)
    requires out.size > 0 && out.Filled(chain, z, false)
    ensures chain in out.live && SharedStore.ChainBytes(out.mem, out.live[chain]) == z
  {
    CutFlatten(out.size, z);
  }

  /** What goes out for a message: its chunks, or the bare payload when its chunk stream is not one of the session's. */
  ghost function Outgo(cfg: Config, o: Outgoing): seq<byte>
    requires cfg.Valid() && 2 <= o.h.csid && cfg.maxStreams <= 65600
  {
    if o.h.csid < cfg.maxStreams then MessageBytes(cfg, o) else o.payload
  }

  /** A message in shared buffers, and headed if it can be. */
  method Prepare(out: OutputPath.Output, cfg: Config, h: Head, lh: Option<Head>, input: seq<seq<byte>>)
    returns (chain: nat)
    requires out.Valid() && cfg.Valid() && out.size == cfg.chunkSize
    requires 2 <= h.csid && cfg.maxStreams <= 65600 && |input| > 0 && |Flatten(input)| < U32
    modifies out`mem, out`free, out`freeList, out`live, out`owner, out`held, out`owned
    ensures out.Valid() && out.owned == old(out.owned) + multiset{chain} && chain in out.live
    ensures SharedStore.ChainBytes(out.mem, out.live[chain]) == Outgo(cfg, Outgoing(h, lh, Flatten(input)))
  {
    hide OutputPath.Output.Valid, OutputPath.Output.Filled, OutputPath.Output.TailFull, OutputPath.Output.S;
    hide ChunksFrom, Headed, MessageBytes, SharedStore.ChainBytes, SharedStore.Parts, OutputSession.NoEmpty, Flatten;
    chain := out.AppendSharedBufs(Null, input, []);
    NoneToAppend(out.size);
    assert [] + Flatten(input) == Flatten(input);
    ChainIsPayload(out, chain, Flatten(input));
    var ok := out.PrepareMessage(cfg.maxStreams, cfg.timeFix, h, lh, chain, Flatten(input), false);
    if ok {
      ChainIsMessage(out, chain, cfg, Outgoing(h, lh, Flatten(input)));
    }
  }

  /**
   A message on its way out: put into shared buffers, headed, queued and let go. When it is accepted, the session is to
   send exactly its chunks behind what it had accepted before; when it is not, nothing changes for any session. The
   callers do not ask whether it could be headed.
   */
  method Publish(out: OutputPath.Output, i: nat, cfg: Config, h: Head, lh: Option<Head>, input: seq<seq<byte>>,
                 priority: nat) returns (ok: bool)
    requires out.Valid() && i < |out.sessions| && cfg.Valid() && out.size == cfg.chunkSize
    requires 2 <= h.csid && cfg.maxStreams <= 65600 && |input| > 0 && |Flatten(input)| < U32
    modifies out
    ensures out.Valid() && |out.sessions| == |old(out.sessions)| && out.owned == old(out.owned)
            && out.taken == old(out.taken)
    ensures ok ==> i < |old(out.accepted)|
                   && out.accepted == old(out.accepted)[i := old(out.accepted)[i]
                                                             + [Outgo(cfg, Outgoing(h, lh, Flatten(input)))]]
    ensures !ok ==> out.accepted == old(out.accepted) && out.sessions == old(out.sessions)
  {
    hide OutputPath.Output.Valid, OutputPath.Output.S, OutputPath.Output.W, Outgo, SharedStore.ChainBytes, Flatten;
    hide OutputWorld.Shaped, OutputSession.Share, OutputSession.NoEmpty, OutputSession.NoneEmpty;
    ghost var bytes := Outgo(cfg, Outgoing(h, lh, Flatten(input)));
    var chain := Prepare(out, cfg, h, lh, input);
    assert chain in out.owned;
    ok := out.SendMessage(i, chain, priority);
    assert ok ==> out.accepted == old(out.accepted)[i := old(out.accepted)[i] + [bytes]];
    out.Release(chain);
  }

  ghost function Fresh(cfg: Config): seq<Stream> {
    seq(cfg.maxStreams, _ => IDLE)
  }

  /**
   The peer of a session, reading in pieces of any size what the session's socket took: it is delivered a first part
   of the messages the session accepted, and all of them when the session has no more to send.
   */
  method Receive(cfg: Config, out: OutputPath.Output, i: nat, sock: ChunkReceiver.Socket, ghost os: seq<Outgoing>)
    returns (r: ChunkReceiver.Receiver)
    requires cfg.Valid() && cfg.maxStreams > 0 && sock.Valid() && Sequel(cfg, Fresh(cfg), os)
    requires out.Valid() && i < |out.sessions| && i < |out.accepted| && i < |out.taken|
    requires out.accepted[i] == SequelBytes(cfg, Fresh(cfg), os) && Flatten(sock.incoming) == out.taken[i]
    modifies sock
    ensures r.open && r.delivered <= SequelMessages(cfg, Fresh(cfg), os)
    ensures out.sessions[i].chain == Null && out.sessions[i].pos == out.sessions[i].last
            ==> r.delivered == SequelMessages(cfg, Fresh(cfg), os)
  {
    hide Run, Flatten, SequelBytes, SequelMessages, Sequel, OutputWorld.World.Ok;
    hide ChunkReceiver.Receiver.Valid, ChunkReceiver.Receiver.Waiting, ChunkReceiver.Receiver.V;
    SequelRead(cfg, Fresh(cfg), os);
    TakenIsPrefix(out, i);
    PrefixRead(cfg, Fresh(cfg), out.taken[i], Flatten(out.accepted[i]));
    if out.sessions[i].chain == Null && out.sessions[i].pos == out.sessions[i].last {
      out.W().Drained(out.size, out.queue, i);
    }
    r := new ChunkReceiver.Receiver(cfg);
    assert [] + Flatten(sock.incoming) == Flatten(sock.incoming);
    r.Recv(sock);
    assert [] + r.delivered == r.delivered;
  }

  lemma TakenIsPrefix(out: OutputPath.Output, i: nat)
    requires out.Valid() && i < |out.sessions| && i < |out.accepted| && i < |out.taken|
    ensures out.taken[i] <= Flatten(out.accepted[i])
  {
    assert out.W().SessionGood(out.queue, i);
  }

  /** Chunk streams interleaved in any way and read in pieces of any size: each delivers its messages in order. */
  method ReceiveWire(cfg: Config, sock: ChunkReceiver.Socket, ghost lanes: map<nat, Lane>, ghost picks: seq<nat>)
    returns (r: ChunkReceiver.Receiver)
    requires cfg.Valid() && cfg.maxStreams > 0 && sock.Valid() && LanesOk(cfg, lanes) && Picks(cfg, lanes, picks)
    requires forall c :: c in lanes ==> c < cfg.maxStreams && lanes[c].known == IDLE && lanes[c].sent == 0
    requires forall c :: c in lanes ==> LanesAfter(cfg, lanes, picks)[c].msgs == []
    requires Flatten(sock.incoming) == Wire(cfg, lanes, picks)
    modifies sock
    ensures r.open
    ensures forall c :: c in lanes ==> OnStream(r.delivered, c) == AllDelivered(cfg, IDLE, c, lanes[c].msgs)
  {
    hide Run, Flatten, Wire, LanesOk, LanesAfter, AllDelivered, OnStream;
    hide ChunkReceiver.Receiver.Valid, ChunkReceiver.Receiver.Waiting, ChunkReceiver.Receiver.V;
    FreshRoundTrip(cfg, lanes, picks);
    r := new ChunkReceiver.Receiver(cfg);
    assert [] + Flatten(sock.incoming) == Flatten(sock.incoming);
    r.Recv(sock);
    assert [] + r.delivered == r.delivered;
  }
}
