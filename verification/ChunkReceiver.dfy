/**
 The receiving side of a session: circular buffer chains per chunk stream, the chain of free buffers on
 stream 0, and the read loop over reads of any size. Every step is proved against ChunkFormat's parser.
 */
module ChunkReceiver {
  import opened Bytes
  import opened Pointers
  import opened BufferArena
  import opened ChunkFormat
  import opened ReceiverState

  /** The peer's bytes, split as the successive reads will find them. */
  class Socket {
    var incoming: seq<seq<byte>>

    ghost predicate Valid()
      reads this
    {
      forall i :: 0 <= i < |incoming| ==> incoming[i] != []
    }

    method Recv(room: nat) returns (got: seq<byte>)
      requires room > 0 && Valid()
      modifies this
      ensures Valid() && |got| <= room && (got == [] <==> old(incoming) == [])
      ensures got + Flatten(incoming) == Flatten(old(incoming))
    {
      if incoming == [] {
        return [];
      }
      var r := incoming[0];
      assert r != [];
      if |r| <= room {
        got, incoming := r, incoming[1..];
      } else {
        got := r[..room];
        incoming := [r[room..]] + incoming[1..];
        assert incoming[1..] == old(incoming)[1..];
        assert got + r[room..] == r;
      }
    }
  }

  /** The bytes of a null-terminated chain, as a message handler finds them. */
  method Collect(mem: Arena, size: nat, head: Ptr, ghost links: seq<nat>) returns (payload: seq<byte>)
    requires Chain(mem, size, links, Null) && head == First(links)
    ensures payload == Content(mem, links)
  {
    hide Content;
    payload := [];
    var l := head;
    ghost var i := 0;
    NoContent(mem, links);
    while l != Null
      invariant i <= |links| && l == (if i < |links| then At(links[i]) else Null)
      invariant payload == Content(mem, links[..i])
      decreases |links| - i
    {
      ContentNext(mem, links, i);
      var c := mem[l.addr];
      assert c.Sane(size) && c.next == NextOf(links, i, Null);
      payload := payload + c.data[c.pos..c.last];
      l := c.next;
      i := i + 1;
    }
    assert links[..i] == links;
  }

  datatype Verdict = Again | Fail | Ready

  lemma NoBasic(cfg: Config, streams: seq<Stream>, s: seq<byte>)
    requires |streams| == cfg.maxStreams && ReadBasic(s).BasicShort?
    ensures ParseChunk(cfg, streams, s).More?
  {
  }

  class Receiver {
    const cfg: Config
    const size: nat
    var mem: Arena
    /** The `in` fields of the in_streams entries: the last link of a ring, on stream 0 the first free link. */
    var heads: seq<Ptr>
    var streams: seq<Record>
    var csid: nat
    var open: bool
    var delivered: seq<Message>

    ghost var chains: seq<seq<nat>>
    ghost var owner: seq<nat>
    ghost var spec: seq<Stream>
    ghost var pending: seq<byte>
    /** All the bytes received in this session. */
    ghost var input: seq<byte>

    ghost function V(): View
      reads this
    {
      View(mem, heads, streams, csid, chains, owner, spec, pending)
    }

    ghost predicate Valid()
      reads this
    {
      size == cfg.chunkSize + MAX_CHUNK_HEADER && V().Good(cfg)
    }

    constructor (cfg: Config)
      requires cfg.Valid() && cfg.maxStreams > 0
      ensures this.cfg == cfg && open && delivered == [] && csid == 0
      ensures Waiting() && mem == []
      ensures pending == input == [] && spec == seq(cfg.maxStreams, _ => IDLE) && Tracks()
    {
      EmptyIsMore(cfg, seq(cfg.maxStreams, _ => IDLE));
      RunMore(cfg, seq(cfg.maxStreams, _ => IDLE), []);
      this.cfg := cfg;
      size := cfg.chunkSize + MAX_CHUNK_HEADER;
      mem, owner, pending, input := [], [], [], [];
      heads := seq(cfg.maxStreams, _ => Null);
      chains := seq(cfg.maxStreams, _ => []);
      streams := seq(cfg.maxStreams, _ => Record(0, 0, 0, 0, 0, 0, 0, false));
      spec := seq(cfg.maxStreams, _ => IDLE);
      csid, open, delivered := 0, true, [];
    }

    /** The buffer to read into: the current stream's, a free one, or a new one. */
    method EnsureBuf() returns (b: nat)
      requires Valid()
      modifies `mem, `heads, `chains, `owner
      ensures Valid() && chains[csid] != [] && b == V().Addr() && b < |mem|
      ensures |mem| >= |old(mem)| && mem[..|old(mem)|] == old(mem)
      ensures old(V().Filling(cfg)) ==> V().Filling(cfg)
      ensures old(chains[csid]) != [] ==> V() == old(V())
    {
      ghost var v := V();
      v.Inside(cfg);
      if heads[csid] == Null {
        var c := Cell(seq(size, _ => 0), 0, 0, Null);
        v.AllocatedGood(cfg, c);
        mem, heads := mem + [c], heads[0 := At(|mem|)];
        chains, owner := chains[0 := [|v.mem|]], owner + [0];
        assert V() == v.Allocated(c);
      }
      V().Inside(cfg);
      b := heads[csid].addr;
    }

    /** Bytes read with the last chunk are the start of the next: move them to a free buffer, or down in their own. */
    method Reuse(from: nat, pos: nat, n: nat)
      requires Valid() && csid == 0 && from < |mem| && pos + n <= |mem[from].data|
      requires pending == mem[from].data[pos..pos + n]
      modifies `mem, `heads, `chains, `owner
      ensures Valid() && V().Filling(cfg) && chains[csid] != [] && csid == 0
    {
      V().CellSane(cfg, from);
      var b := EnsureBuf();
      ghost var v := V();
      v.Inside(cfg);
      var c := mem[b];
      var c' := c.(data := mem[from].data[pos..pos + n] + c.data[n..], pos := 0, last := n);
      v.PutGood(cfg, c', streams[0]);
      mem := mem[b := c'];
      assert V() == v.Put(c', streams[0]);
    }

    /** Move the buffer being filled to the ring of its stream. */
    method LinkOrphan(id: nat)
      requires Valid() && V().Filling(cfg) && csid == 0 && chains[0] != []
      requires 1 <= id < |chains| && ReadBasic(pending).Basic? && ReadBasic(pending).csid == id
      modifies `mem, `heads, `chains, `owner, `csid, `streams
      ensures Valid() && V().Filling(cfg) && csid == id && chains[id] != [] && V().Current().pos == 0
    {
      hide View.Good, View.Filling, View.Whole, View.Current;
      ghost var v := V();
      v.OrphanGood(cfg, id);
      var b := heads[0].addr;
      heads := heads[0 := mem[b].next];
      csid := id;
      if heads[id] == Null {
        mem := mem[b := mem[b].(next := At(b))];
      } else {
        var tail := heads[id].addr;
        mem := mem[b := mem[b].(next := mem[tail].next)];
        mem := mem[tail := mem[tail].(next := At(b))];
      }
      heads := heads[id := At(b)];
      streams := streams[id := streams[id].(csid := id)];
      chains, owner := chains[0 := chains[0][1..]][id := chains[id] + [b]], owner[b := id];
      assert V() == v.Orphan(id);
    }

    /** Read what the socket has; false when it has nothing. `reset` empties the buffer first. */
    method ReadMore(sock: Socket, reset: bool) returns (data: seq<byte>)
      requires Valid() && sock.Valid()
      requires if reset then csid == 0 && pending == []
               else V().Filling(cfg) && ParseChunk(cfg, spec, pending).More?
      modifies `mem, `heads, `chains, `owner, `pending, sock
      ensures Valid() && V().Filling(cfg) && sock.Valid()
      ensures data == [] <==> old(sock.incoming) == []
      ensures data + Flatten(sock.incoming) == Flatten(old(sock.incoming))
      ensures pending == old(pending) + data && chains[csid] != []
    {
      hide View.Good, View.Filling, View.Current, ParseChunk, Flatten;
      var b := EnsureBuf();
      V().AddrOk(cfg);
      V().GoodSizes(cfg);
      if reset {
        V().EmptiedOk(cfg);
        mem := mem[b := mem[b].(pos := 0, last := 0)];
        V().AddrOk(cfg);
        EmptyIsMore(cfg, spec);
      }
      V().Room(cfg);
      var c := mem[b];
      data := sock.Recv(size - c.last);
      if data != [] {
        ghost var v := V();
        v.AppendedOk(cfg, data);
        mem := mem[b := c.(data := c.data[..c.last] + data + c.data[c.last + |data|..], last := c.last + |data|)];
        pending := pending + data;
        assert V() == v.Appended(data);
      }
    }

    /** Read the fields of a message header from `at` on into the current stream's record, as far as they are there. */
    method ReadFields(s: seq<byte>, fmt: nat, at: nat, ghost w: seq<byte>)
      returns (ok: bool, p: nat, ext: bool, time: u32)
      requires csid < |streams| && fmt <= 3 && at <= |s|
      modifies `streams
      ensures |streams| == |old(streams)| && streams == old(streams)[csid := streams[csid]]
      ensures streams[csid].csid == old(streams[csid].csid)
      ensures FieldsRead(cfg, old(streams[csid]).Abs(w), s, fmt, at, ok, p, ext, time, streams[csid].Abs(w))
      ensures !ok ==> Agrees(fmt, streams[csid].Abs(w), old(streams[csid]).Abs(w))
    {
      hide Be24, Be32, Le32, Wrap;
      ok, p, ext, time := false, at, streams[csid].ext, streams[csid].dtime;
      if fmt <= 2 {
        if |s| - p < 3 {
          return;
        }
        time := Be24(s, p);
        p := p + 3;
        ext := time == 0xff_ffff;
        if fmt <= 1 {
          if |s| - p < 4 {
            return;
          }
          streams := streams[csid := streams[csid].(mlen := Be24(s, p), typ := s[p + 3])];
          p := p + 4;
          if fmt == 0 {
            if |s| - p < 4 {
              return;
            }
            streams := streams[csid := streams[csid].(msid := Le32(s, p))];
            p := p + 4;
          }
        }
      }
      if ext {
        if |s| - p < 4 {
          return;
        }
        time := Be32(s, p);
        p := p + 4;
      }
      ok := true;
      if streams[csid].len == 0 {
        streams := streams[csid := streams[csid].(ext := ext && cfg.timeFix)];
        if fmt != 0 {
          streams := streams[csid := streams[csid].(dtime := time)];
        } else {
          streams := streams[csid := streams[csid].(timestamp := time, dtime := 0)];
        }
      }
    }

    /** The first one to three bytes of a header. */
    static method BasicFields(s: seq<byte>) returns (ok: bool, fmt: nat, id: nat, p: nat)
      requires s != []
      ensures ok == ReadBasic(s).Basic? && (ok ==> ReadBasic(s) == Basic(fmt, id, p))
    {
      fmt, id, p := s[0] / 64, (s[0] % 64) as int, 1;
      if id == 0 {
        if |s| - p < 1 {
          return false, fmt, id, p;
        }
        id, p := 64 + s[1] as int, 2;
      } else if id == 1 {
        if |s| - p < 2 {
          return false, fmt, id, p;
        }
        id, p := 64 + s[1] as int + 256 * s[2] as int, 3;
      }
      ok := true;
    }

    /** Parse the header at the start of the buffer being filled. */
    method ParseHeader() returns (v: Verdict)
      requires Valid() && V().Filling(cfg) && chains[csid] != [] && V().Current().pos == 0 && pending != []
      modifies `mem, `heads, `chains, `owner, `csid, `streams, `open
      ensures v.Fail? ==> !open && ParseChunk(cfg, spec, pending).Bad?
      ensures !v.Fail? ==> open == old(open) && Valid() && V().Filling(cfg) && chains[csid] != []
      ensures v.Again? ==> ParseChunk(cfg, spec, pending).More?
      ensures v.Ready? ==> csid != 0 && V().Current().pos != 0
    {
      hide View.Whole, View.Addr, Wrap, ReadBasic;
      V().Inside(cfg);
      var s := mem[heads[csid].addr].data[..mem[heads[csid].addr].last];
      var ok, fmt, id, p := BasicFields(s);
      if !ok {
        NoBasic(cfg, spec, s);
        return Again;
      }
      if id >= cfg.maxStreams {
        open := false;
        return Fail;
      }
      if csid == 0 {
        LinkOrphan(id);
      }
      v := Fields(s, fmt, p);
    }

    /** The rest of the header, once its stream is known. */
    method Fields(s: seq<byte>, fmt: nat, at: nat) returns (v: Verdict)
      requires Valid() && V().Filling(cfg) && csid != 0 && V().Current().pos == 0
      requires s == pending && ReadBasic(s) == Basic(fmt, csid, at)
      modifies `mem, `streams, `open
      ensures v.Fail? ==> !open && ParseChunk(cfg, spec, pending).Bad?
      ensures !v.Fail? ==> open == old(open) && Valid() && V().Filling(cfg)
      ensures v.Again? ==> ParseChunk(cfg, spec, pending).More?
      ensures v.Ready? ==> V().Current().pos != 0
    {
      hide View.Good, View.Filling, View.Whole, View.Current, View.Addr, FieldsRead, Agrees, ParseChunk, ReadBasic;
      ghost var view := V();
      view.CurrentIs(cfg);
      var b := heads[csid].addr;
      var c := mem[b];
      var ok, p, ext, time := ReadFields(s, fmt, at, view.Whole());
      view.HeaderStored(cfg, ok, p, ext, time, streams[csid]);
      if !ok {
        assert V() == view.Put(c, streams[csid]);
        return Again;
      }
      mem := mem[b := c.(pos := p)];
      if streams[csid].mlen > cfg.maxMessage {
        open := false;
        return Fail;
      }
      assert V() == view.Put(c.(pos := p), streams[csid]);
      return Ready;
    }

    /** End the chunk being filled when all of it is there; the bytes after it are then at `pos` of buffer `from`. */
    method TakeChunk() returns (done: bool, from: nat, pos: nat, n: nat)
      requires Valid() && V().Filling(cfg) && csid != 0 && V().Current().pos != 0
      modifies `mem, `heads, `chains, `owner, `csid, `streams, `delivered, `spec, `pending
      ensures !done ==> V() == old(V()) && delivered == old(delivered) && ParseChunk(cfg, spec, pending).More?
      ensures done ==>
        && Valid() && csid == 0 && from < |mem| && pos + n <= |mem[from].data|
        && pending == mem[from].data[pos..pos + n]
        && var c := ParseChunk(cfg, old(spec), old(pending));
           c.Chunk? && spec == c.streams && delivered == old(delivered) + c.out && pending == old(pending)[c.size..]
    {
      hide View.Good, View.Whole, View.Current, View.Addr, ReadHeader, ParseChunk, Wrap, Grow;
      ghost var view := V();
      view.Sizes(cfg);
      from := heads[csid].addr;
      var c, r := mem[from], streams[csid];
      ghost var st := r.Abs(view.Whole());
      ChunkFromHeader(cfg, spec, pending, c.pos, csid, st);
      var have := c.last - c.pos;
      var missing := Wrap(r.mlen - r.len);
      if have < if missing > cfg.chunkSize then cfg.chunkSize else missing {
        return false, from, 0, 0;
      }
      done := true;
      if missing > cfg.chunkSize {
        pos, n := c.pos + cfg.chunkSize, have - cfg.chunkSize;
        Fragment(from, c, r, st);
      } else {
        pos, n := c.pos + missing, have - missing;
        Deliver(from, c, r, st, missing);
      }
    }

    method Fragment(b: nat, c: Cell, r: Record, ghost st: Stream)
      requires Valid() && V().Filling(cfg) && csid != 0 && V().Current().pos != 0
      requires b == V().Addr() && c == V().Current() && r == streams[csid] && st == r.Abs(V().Whole())
      requires c.pos + cfg.chunkSize <= c.last
      modifies `mem, `csid, `streams, `spec, `pending
      ensures Valid() && csid == 0 && b < |mem| && mem[b].data == c.data
      ensures c.last == |old(pending)|
      ensures var last := c.pos + cfg.chunkSize;
              && spec == old(spec)[old(csid) := Grow(cfg, st, old(pending)[c.pos..last])]
              && pending == old(pending)[last..]
    {
      hide View.Good, View.Filling, View.Whole, View.Current, View.Addr;
      V().Sizes(cfg);
      V().FragmentedGood(cfg, c, r, st);
      var last := c.pos + cfg.chunkSize;
      mem := mem[b := c.(last := last)];
      streams := streams[csid := r.(len := Wrap(r.len + cfg.chunkSize))];
      spec := spec[csid := Grow(cfg, st, pending[c.pos..last])];
      csid, pending := 0, pending[last..];
    }

    method Deliver(b: nat, c: Cell, r: Record, ghost st: Stream, take: nat)
      requires Valid() && V().Filling(cfg) && csid != 0 && V().Current().pos != 0
      requires b == V().Addr() && c == V().Current() && r == streams[csid] && st == r.Abs(V().Whole())
      requires c.pos + take <= c.last
      modifies `mem, `heads, `chains, `owner, `csid, `streams, `delivered, `spec, `pending
      ensures Valid() && csid == 0 && b < |mem| && mem[b].data == c.data
      ensures c.last == |old(pending)|
      ensures spec == old(spec)[old(csid) := Reset(st)] && pending == old(pending)[c.pos + take..]
      ensures delivered == old(delivered) + [Finished(old(csid), st, old(pending)[c.pos..c.pos + take])]
    {
      hide View.Good, View.Filling, View.Whole, View.Current, View.Addr, Chain, Content, Freed, First, Reset, Wrap;
      V().Sizes(cfg);
      V().FinalizedGood(cfg, c, r, st, take);
      var last := c.pos + take;
      var head := c.next;
      mem := mem[b := c.(last := last, next := Null)];
      var r' := r.(len := 0, timestamp := Wrap(r.timestamp + r.dtime));
      var payload := Collect(mem, size, head, chains[csid]);
      delivered := delivered + [Message(r.csid, r.typ, r.msid, r.mlen, r'.timestamp, payload)];
      mem := mem[b := mem[b].(next := heads[0])];
      assert mem == old(mem)[b := c.(last := last, next := old(heads)[0])];
      heads := heads[0 := head][csid := Null];
      streams := streams[csid := r'];
      chains, owner := chains[0 := chains[csid] + chains[0]][csid := []], Freed(owner, csid);
      spec := spec[csid := Reset(st)];
      csid, pending := 0, pending[last..];
    }

    /** Nothing received is left to be parsed, and the next bytes go where the unfinished chunk is. */
    ghost predicate Waiting()
      reads this
    {
      Valid() && V().Filling(cfg) && ParseChunk(cfg, spec, pending).More?
    }

    /**
     Between two turns of the read loop: bytes read with the last chunk are still in its buffer (`carry`),
     or that chunk was the end of what was read (`reset`), or a chunk is unfinished.
     */
    ghost predicate BetweenTurns(carry: bool, reset: bool, from: nat, pos: nat, n: nat)
      reads this
    {
      && Valid() && open
      && if carry then
           csid == 0 && n > 0 && from < |mem| && pos + n <= |mem[from].data| && pending == mem[from].data[pos..pos + n]
         else if reset then csid == 0 && pending == []
         else Waiting()
    }

    /** What the parser makes of the bytes left, those still in the socket included. */
    ghost function Ahead(sock: Socket): Outcome
      reads this, sock
      requires Valid()
    {
      V().GoodSizes(cfg);
      Run(cfg, spec, pending + Flatten(sock.incoming))
    }

    /** The whole session so far is the parser's run on all its bytes, however they were split into reads. */
    ghost predicate Tracks()
      reads this
    {
      var o := Run(cfg, seq(cfg.maxStreams, _ => IDLE), input);
      o.open == open && o.msgs == delivered && (open ==> o == Outcome(true, spec, delivered, pending))
    }

    /** Bytes to parse: those carried over, or else those that the socket has. */
    method Refill(sock: Socket, carry: bool, reset: bool, from: nat, pos: nat, n: nat) returns (dry: bool)
      requires BetweenTurns(carry, reset, from, pos, n) && sock.Valid()
      modifies `mem, `heads, `chains, `owner, `pending, sock
      ensures Valid() && sock.Valid()
      ensures if dry then Waiting() && sock.incoming == [] && old(Ahead(sock)) == Outcome(true, spec, [], pending)
              else V().Filling(cfg) && chains[csid] != [] && pending != []
                   && pending + Flatten(sock.incoming) == old(pending + Flatten(sock.incoming))
                   && |Flatten(sock.incoming)| <= old(|Flatten(sock.incoming)|)
                   && (!carry ==> |Flatten(sock.incoming)| < old(|Flatten(sock.incoming)|))
    {
      hide View.Good, View.Filling, View.Current, ParseChunk, Run, View.Addr, View.Whole;
      V().GoodSizes(cfg);
      if carry {
        Reuse(from, pos, n);
        return false;
      }
      ghost var all := pending + Flatten(sock.incoming);
      var data := ReadMore(sock, reset);
      assert all == pending + Flatten(sock.incoming);
      if data == [] {
        EmptyIsMore(cfg, spec);
        assert all == pending == old(pending);
        RunMore(cfg, spec, pending);
        return true;
      }
      return false;
    }

    /** One turn of the read loop. */
    method Turn(sock: Socket, carry: bool, reset: bool, from: nat, pos: nat, n: nat)
      returns (stop: bool, carry': bool, reset': bool, from': nat, pos': nat, n': nat, ghost out: seq<Message>)
      requires BetweenTurns(carry, reset, from, pos, n) && sock.Valid()
      modifies this, sock
      ensures delivered == old(delivered) + out && input == old(input)
      ensures stop && !open ==> out == [] && !old(Ahead(sock)).open && old(Ahead(sock)).msgs == []
      ensures stop && open ==> out == [] && Waiting() && sock.Valid() && sock.incoming == []
                               && old(Ahead(sock)) == Outcome(true, spec, [], pending)
      ensures !stop ==> BetweenTurns(carry', reset', from', pos', n') && sock.Valid()
                        && old(Ahead(sock)) == Prepend(out, Ahead(sock))
      ensures !stop ==>
        var unread, unread0 := |Flatten(sock.incoming)|, old(|Flatten(sock.incoming)|);
        || unread + |pending| < unread0 + old(|pending|)
        || (unread + |pending| == unread0 + old(|pending|)
            && (unread < unread0 || (unread == unread0 && carry && !carry')))
    {
      hide View.Good, View.Filling, View.Current, View.Addr, ParseChunk, Run, Flatten;
      stop, carry', reset', from', pos', n', out := false, false, false, 0, 0, 0, [];
      V().GoodSizes(cfg);
      stop := Refill(sock, carry, reset, from, pos, n);
      if stop {
        return;
      }
      V().AddrOk(cfg);
      if mem[heads[csid].addr].pos == 0 {
        var v := ParseHeader();
        if v.Fail? {
          RunBad(cfg, spec, pending, Flatten(sock.incoming));
          stop := true;
          return;
        }
        if v.Again? {
          return;
        }
      }
      ghost var spec0, pending0 := spec, pending;
      var done;
      done, from', pos', n' := TakeChunk();
      if done {
        RunChunk(cfg, spec0, pending0, Flatten(sock.incoming));
        out := ParseChunk(cfg, spec0, pending0).out;
        carry', reset' := n' > 0, n' == 0;
      }
    }

    /** The read loop. */
    method ReadAll(sock: Socket) returns (ghost msgs: seq<Message>)
      requires open && Waiting() && sock.Valid()
      modifies this, sock
      ensures input == old(input) && delivered == old(delivered) + msgs
      ensures var o := old(Ahead(sock));
              && open == o.open && msgs == o.msgs
              && (open ==> Waiting() && sock.Valid() && sock.incoming == [] && spec == o.streams && pending == o.rest)
    {
      hide View.Good, View.Filling, View.Current, ParseChunk, Run, Prepend, Flatten;
      ghost var goal := Ahead(sock);
      PrependLaws([], [], goal);
      var carry, reset, stop := false, false, false;
      var from: nat, pos: nat, n: nat := 0, 0, 0;
      msgs := [];
      while !stop
        invariant delivered == old(delivered) + msgs && input == old(input)
        invariant !stop ==> BetweenTurns(carry, reset, from, pos, n) && sock.Valid()
                            && goal == Prepend(msgs, Ahead(sock))
        invariant stop && !open ==> !goal.open && goal.msgs == msgs
        invariant stop && open ==> Waiting() && sock.Valid() && sock.incoming == []
                                   && goal == Outcome(true, spec, msgs, pending)
        decreases !stop, |Flatten(sock.incoming)| + |pending|, |Flatten(sock.incoming)|, if carry then 1 else 0
      {
        ghost var out, ahead := [], Ahead(sock);
        stop, carry, reset, from, pos, n, out := Turn(sock, carry, reset, from, pos, n);
        PrependLaws(msgs, out, ahead);
        if !stop {
          PrependLaws(msgs, out, Ahead(sock));
        }
        msgs := msgs + out;
      }
    }

    /**
     The read handler: read and parse until the socket has no more. Whatever the sizes of the reads, the messages
     delivered and the state left are those of the pure parser on all the bytes received.
     */
    method Recv(sock: Socket)
      requires open && Waiting() && sock.Valid() && Tracks()
      modifies this, sock
      ensures Tracks() && input == old(input) + Flatten(old(sock.incoming))
      ensures var o := Run(cfg, old(spec), old(pending) + Flatten(old(sock.incoming)));
              && open == o.open && delivered == old(delivered) + o.msgs
              && (open ==> Waiting() && sock.Valid() && sock.incoming == [] && spec == o.streams && pending == o.rest)
    {
      hide View.Good, View.Filling, View.Current, ParseChunk, Run, Flatten;
      RunSplit(cfg, seq(cfg.maxStreams, _ => IDLE), input, Flatten(sock.incoming));
      ghost var _ := ReadAll(sock);
      input := input + Flatten(old(sock.incoming));
    }
  }
}
