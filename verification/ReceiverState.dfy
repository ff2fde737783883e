/**
 The receiver's state as a value: what holds of it between reads, and what each step of the read loop keeps.
 ChunkReceiver.dfy performs the steps.
 */
module ReceiverState {
  import opened Bytes
  import opened Pointers
  import opened BufferArena
  import opened ChunkFormat

  const MAX_CHUNK_HEADER := 18

  /** The header and counters of an in_streams entry; its `in` field is kept in `heads`. */
  datatype Record = Record(csid: nat, timestamp: u32, mlen: u32, typ: byte, msid: u32,
                           dtime: u32, len: u32, ext: bool)
  {
    ghost function Abs(payload: seq<byte>): Stream {
      Stream(timestamp, mlen, typ, msid, dtime, len, ext, payload)
    }
  }

  /** Equal but for the fields that a header of format `fmt` overwrites. */
  ghost predicate Agrees(fmt: nat, a: Stream, b: Stream) {
    && a.(mlen := b.mlen, typ := b.typ, msid := b.msid) == b
    && (fmt >= 2 ==> a.mlen == b.mlen && a.typ == b.typ)
    && (fmt >= 1 ==> a.msid == b.msid)
  }

  /** A header whose fields were partly stored already is applied as if they were not. */
  lemma ApplyAgrees(cfg: Config, a: Stream, b: Stream, fmt: nat, s: seq<byte>, at: nat, ext: bool, time: u32)
    requires at + FieldSize(fmt) <= |s| && fmt <= 3 && Agrees(fmt, a, b)
    ensures Apply(cfg, a, fmt, s, at, ext, time) == Apply(cfg, b, fmt, s, at, ext, time)
  {
  }

  /** The outcome of reading the fields one by one is that of the parser. */
  ghost predicate FieldsRead(cfg: Config, st: Stream, s: seq<byte>, fmt: nat, at: nat,
                             ok: bool, p: nat, ext: bool, time: u32, st': Stream) {
    var n := at + FieldSize(fmt);
    if |s| < n then !ok
    else
      var short: u32 := if fmt <= 2 then Be24(s, at) else st.dtime;
      && ext == (if fmt <= 2 then short == 0xff_ffff else st.ext)
      && (ok <==> ext ==> |s| >= n + 4)
      && (ok ==> p == (if ext then n + 4 else n) && time == (if ext then Be32(s, n) else short)
                 && st' == Apply(cfg, st, fmt, s, at, ext, time))
  }

  lemma HeaderFrom(cfg: Config, spec: seq<Stream>, st: Stream, s: seq<byte>,
                   ok: bool, p: nat, ext: bool, time: u32, st': Stream)
    requires |spec| == cfg.maxStreams
    requires ReadBasic(s).Basic? && ReadBasic(s).csid < cfg.maxStreams
    requires Agrees(ReadBasic(s).fmt, st, spec[ReadBasic(s).csid])
    requires FieldsRead(cfg, st, s, ReadBasic(s).fmt, ReadBasic(s).size, ok, p, ext, time, st')
    ensures ReadHeader(cfg, spec, s)
            == if !ok then HeaderShort
               else if st'.mlen > cfg.maxMessage then HeaderBad
               else Header(p, ReadBasic(s).csid, st')
  {
    var Basic(fmt, csid, at) := ReadBasic(s);
    if ok {
      ApplyAgrees(cfg, st, spec[csid], fmt, s, at, ext, time);
    }
  }

  lemma ChunkFromHeader(cfg: Config, spec: seq<Stream>, s: seq<byte>, at: nat, csid: nat, st: Stream)
    requires |spec| == cfg.maxStreams && ReadHeader(cfg, spec, s) == Header(at, csid, st)
    ensures ParseChunk(cfg, spec, s)
            == if |s| - at < Take(cfg, st) then More
               else var data := s[at..at + Take(cfg, st)];
                 if Missing(st) > cfg.chunkSize
                 then Chunk(at + Take(cfg, st), spec[csid := Grow(cfg, st, data)], [])
                 else Chunk(at + Take(cfg, st), spec[csid := Reset(st)], [Finished(csid, st, data)])
  {
  }

  lemma ShortHeader(cfg: Config, streams: seq<Stream>, s: seq<byte>)
    requires |streams| == cfg.maxStreams && ReadHeader(cfg, streams, s).HeaderShort?
    ensures |s| < MAX_CHUNK_HEADER
  {
  }

  /** All that the receiver holds, with the parser's state before the bytes in `pending`. */
  datatype View = View(mem: Arena, heads: seq<Ptr>, streams: seq<Record>, csid: nat,
                       chains: seq<seq<nat>>, owner: seq<nat>, spec: seq<Stream>, pending: seq<byte>)
  {
    /** Stream `n` holds whole chunks only, and its record and ring are what the parser says. */
    ghost predicate Same(n: nat)
      requires n < |chains| == |streams| == |spec|
    {
      streams[n].Abs(Content(mem, chains[n])) == spec[n]
    }

    ghost predicate Good(cfg: Config) {
      && cfg.Valid() && ChainsOk(mem, cfg.chunkSize + MAX_CHUNK_HEADER, chains, heads, owner)
      && |streams| == |spec| == |chains| == cfg.maxStreams && csid < |chains|
      && (csid != 0 ==> chains[csid] != [] && streams[csid].csid == csid)
      && forall n :: 1 <= n < |chains| && n != csid ==> Same(n)
    }

    /** The current stream's ring but for the buffer being filled. */
    ghost function Whole(): seq<byte>
      requires csid < |chains| && chains[csid] != []
    {
      Content(mem, chains[csid][..|chains[csid]| - 1])
    }

    /** The buffer being filled: the current ring's last, or before the stream is known the first free one. */
    ghost function Addr(): nat
      requires csid < |chains| && chains[csid] != []
    {
      if csid == 0 then chains[0][0] else chains[csid][|chains[csid]| - 1]
    }

    ghost function Current(): Cell
      requires csid < |chains| && chains[csid] != []
    {
      if Addr() < |mem| then mem[Addr()] else Cell([], 0, 0, Null)
    }

    /** That buffer holds the bytes received since the last whole chunk, header first. */
    ghost predicate Filling(cfg: Config)
      requires Good(cfg)
    {
      if chains[csid] == [] then pending == []
      else
        var c := Current();
        pending == c.data[..c.last] &&
        if csid == 0 then c.pos == 0
        else if c.pos == 0 then
          && ReadBasic(pending).Basic? && ReadBasic(pending).csid == csid
          && Agrees(ReadBasic(pending).fmt, streams[csid].Abs(Whole()), spec[csid])
        else
          ReadHeader(cfg, spec, pending) == Header(c.pos, csid, streams[csid].Abs(Whole()))
    }

    lemma Inside(cfg: Config)
      requires Good(cfg)
      ensures forall i :: 0 <= i < |chains[csid]| ==>
        chains[csid][i] < |mem| && mem[chains[csid][i]].Sane(cfg.chunkSize + MAX_CHUNK_HEADER)
      ensures chains[csid] != [] ==> heads[csid] == At(Addr())
      ensures chains[csid] == [] ==> heads[csid] == Null
    {
      assert ChainOk(mem, cfg.chunkSize + MAX_CHUNK_HEADER, csid, chains[csid], heads[csid]);
    }

    /** Where the chunk being filled is, once its stream is known. */
    lemma CurrentIs(cfg: Config)
      requires Good(cfg) && Filling(cfg) && csid != 0
      ensures |streams| == |chains| && csid < |chains| == |heads| && chains[csid] != [] && streams[csid].csid == csid
      ensures heads[csid] == At(Addr()) && Addr() < |mem| && Current() == mem[Addr()]
    {
      Inside(cfg);
      assert chains[csid][|chains[csid]| - 1] < |mem|;
    }

    lemma AnyPending(cfg: Config, s: seq<byte>)
      requires Good(cfg)
      ensures this.(pending := s).Good(cfg)
      ensures chains[csid] != [] ==>
        this.(pending := s).Whole() == Whole() && this.(pending := s).Current() == Current()
    {
      var v := this.(pending := s);
      forall n | 1 <= n < |chains| && n != csid ensures v.Same(n) {
        assert Same(n);
      }
    }

    /** While a chunk is unfinished its buffer has room: a chunk and the largest header fit. */
    lemma Room(cfg: Config)
      requires Good(cfg) && Filling(cfg) && chains[csid] != [] && ParseChunk(cfg, spec, pending).More?
      ensures Addr() < |mem| && mem[Addr()] == Current()
      ensures Current().last < |Current().data| == cfg.chunkSize + MAX_CHUNK_HEADER
    {
      Inside(cfg);
      if ReadHeader(cfg, spec, pending).HeaderShort? {
        ShortHeader(cfg, spec, pending);
      }
    }

    /** A new buffer. */
    ghost function Allocated(c: Cell): View
      requires |chains| == |heads| > 0
    {
      this.(mem := mem + [c], heads := heads[0 := At(|mem|)], chains := chains[0 := [|mem|]], owner := owner + [0])
    }

    lemma AllocatedGood(cfg: Config, c: Cell)
      requires Good(cfg) && csid == 0 && chains[0] == []
      requires c.Sane(cfg.chunkSize + MAX_CHUNK_HEADER) && c.next == Null && c.pos == c.last == 0
      ensures Allocated(c).Good(cfg)
      ensures Filling(cfg) ==> Allocated(c).Filling(cfg)
    {
      AllocOk(mem, c, cfg.chunkSize + MAX_CHUNK_HEADER, chains, heads, owner);
      var v := Allocated(c);
      forall n | 1 <= n < |chains| ensures v.Same(n) {
        assert Same(n) && ChainOk(mem, cfg.chunkSize + MAX_CHUNK_HEADER, n, chains[n], heads[n]);
        ContentKept(mem, v.mem, chains[n]);
      }
    }

    /** The buffer being filled moved to the ring of stream `id`. */
    ghost function Orphan(id: nat): View
      requires id < |chains| == |heads| == |streams| && chains[0] != [] && chains[0][0] < |mem|
      requires heads[id].At? ==> heads[id].addr < |mem|
      requires |mem| == |owner|
    {
      var b := chains[0][0];
      View(Relinked(mem, b, heads[id]), heads[0 := mem[b].next][id := At(b)],
           streams[id := streams[id].(csid := id)], id,
           chains[0 := chains[0][1..]][id := chains[id] + [b]], owner[b := id], spec, pending)
    }

    lemma OrphanGood(cfg: Config, id: nat)
      requires Good(cfg) && Filling(cfg) && csid == 0 && chains[0] != []
      requires 1 <= id < |chains| && ReadBasic(pending).Basic? && ReadBasic(pending).csid == id
      ensures id < |heads| == |streams| == |chains| && |mem| == |owner| && chains[0][0] < |mem|
      ensures heads[id].At? ==> heads[id].addr < |mem| && heads[id].addr != chains[0][0]
      ensures Orphan(id).Good(cfg) && Orphan(id).Filling(cfg)
      ensures Orphan(id).chains[id] != [] && Orphan(id).Current().pos == 0 && heads[0] == At(chains[0][0])
    {
      hide ChainsOk, SameBytes, Relinked, ReadBasic;
      var size := cfg.chunkSize + MAX_CHUNK_HEADER;
      GoodSizes(cfg);
      OrphanOk(mem, size, chains, heads, owner, id);
      Inside(cfg);
      var v := Orphan(id);
      var b := chains[0][0];
      forall n | 1 <= n < |chains| && n != id ensures v.Same(n) {
        assert Same(n) && SameBytes(mem, v.mem, chains[n]);
        ContentKept(mem, v.mem, chains[n]);
      }
      assert Same(id) && v.chains[id][..|v.chains[id]| - 1] == chains[id];
      ContentKept(mem, v.mem, chains[id]);
      OnlyNext(v.mem[b], mem[b]);
    }

    static lemma OnlyNext(c: Cell, d: Cell)
      requires c.(next := Null) == d.(next := Null)
      ensures c.data == d.data && c.pos == d.pos && c.last == d.last
    {
      assert c.(next := Null).data == c.data && d.(next := Null).data == d.data;
      assert c.(next := Null).pos == c.pos && d.(next := Null).pos == d.pos;
      assert c.(next := Null).last == c.last && d.(next := Null).last == d.last;
    }

    /** The current buffer, and the record of its stream, replaced. */
    ghost function Put(c: Cell, r: Record): View
      requires csid < |chains| == |streams| && chains[csid] != []
    {
      if Addr() < |mem| then this.(mem := mem[Addr() := c], streams := streams[csid := r]) else this
    }

    lemma PutGood(cfg: Config, c: Cell, r: Record)
      requires Good(cfg) && chains[csid] != []
      requires c.Sane(cfg.chunkSize + MAX_CHUNK_HEADER)
      requires c.next == Current().next && (csid != 0 ==> r.csid == csid)
      ensures Put(c, r).Good(cfg) && Put(c, r).Current() == c && Addr() < |mem|
      ensures csid != 0 ==> Put(c, r).Whole() == Whole()
    {
      hide ChainsOk, ChainOk, Content;
      var size := cfg.chunkSize + MAX_CHUNK_HEADER;
      Inside(cfg);
      ChainOf(mem, size, chains, heads, owner, csid);
      var a, v := Addr(), Put(c, r);
      FillOk(mem, a, c, size, chains, heads, owner);
      forall n | 1 <= n < |chains| && n != csid ensures v.Same(n) {
        assert Same(n);
        ChainOf(mem, size, chains, heads, owner, n);
        assert forall i :: 0 <= i < |chains[n]| ==> chains[n][i] != a;
        ContentKept(mem, v.mem, chains[n]);
      }
      if csid != 0 {
        ContentKept(mem, v.mem, chains[csid][..|chains[csid]| - 1]);
      }
    }

    /** Storing what was read of a header keeps the state good, and says what the parser says of it. */
    lemma HeaderStored(cfg: Config, ok: bool, p: nat, ext: bool, time: u32, r: Record)
      requires Good(cfg) && Filling(cfg) && csid != 0 && Current().pos == 0 && r.csid == csid
      requires FieldsRead(cfg, streams[csid].Abs(Whole()), pending, ReadBasic(pending).fmt, ReadBasic(pending).size,
                          ok, p, ext, time, r.Abs(Whole()))
      requires !ok ==> Agrees(ReadBasic(pending).fmt, r.Abs(Whole()), streams[csid].Abs(Whole()))
      ensures !ok ==> Put(Current(), r).Good(cfg) && Put(Current(), r).Filling(cfg)
                      && ParseChunk(cfg, spec, pending).More?
      ensures ok && r.mlen > cfg.maxMessage ==> ParseChunk(cfg, spec, pending).Bad?
      ensures ok && r.mlen <= cfg.maxMessage ==>
        var v := Put(Current().(pos := p), r);
        v.Good(cfg) && v.Filling(cfg) && v.Current().pos != 0
    {
      HeaderFrom(cfg, spec, streams[csid].Abs(Whole()), pending, ok, p, ext, time, r.Abs(Whole()));
      Inside(cfg);
      var c := if ok then Current().(pos := p) else Current();
      hide FieldsRead, Apply;
      if !ok || r.mlen <= cfg.maxMessage {
        PutGood(cfg, c, r);
        assert Put(c, r).pending == pending;
      }
    }

    /** Emptying the buffer being filled between chunks. */
    lemma EmptiedOk(cfg: Config)
      requires Good(cfg) && csid == 0 && chains[0] != [] && pending == []
      ensures Addr() < |mem|
      ensures this.(mem := mem[Addr() := mem[Addr()].(pos := 0, last := 0)]).Good(cfg)
      ensures this.(mem := mem[Addr() := mem[Addr()].(pos := 0, last := 0)]).Filling(cfg)
    {
      AddrOk(cfg);
      CellSane(cfg, Addr());
      var c := Current().(pos := 0, last := 0);
      PutGood(cfg, c, streams[0]);
      assert Put(c, streams[0]) == this.(mem := mem[Addr() := c]);
    }

    ghost predicate Fits(data: seq<byte>) {
      csid < |chains| && chains[csid] != [] && Addr() < |mem| && mem[Addr()].last + |data| <= |mem[Addr()].data|
    }

    ghost function Appended(data: seq<byte>): View
      requires Fits(data)
    {
      var c := mem[Addr()];
      var c' := c.(data := c.data[..c.last] + data + c.data[c.last + |data|..], last := c.last + |data|);
      this.(mem := mem[Addr() := c'], pending := pending + data)
    }

    /** Storing further bytes after those of the buffer being filled. */
    lemma AppendedOk(cfg: Config, data: seq<byte>)
      requires Good(cfg) && Filling(cfg) && Fits(data)
      ensures Appended(data).Good(cfg) && Appended(data).Filling(cfg)
    {
      hide View.Good, View.Whole, View.Put, ReadHeader, ReadBasic, Content;
      GoodSizes(cfg);
      AddrOk(cfg);
      CellSane(cfg, Addr());
      var c := Current();
      var c' := c.(data := c.data[..c.last] + data + c.data[c.last + |data|..], last := c.last + |data|);
      assert c'.data[..c'.last] == c.data[..c.last] + data;
      var v1 := this.(mem := mem[Addr() := c']);
      assert Put(c', streams[csid]) == v1 by { PutSame(c'); }
      PutGood(cfg, c', streams[csid]);
      var v := v1.(pending := pending + data);
      v1.AnyPending(cfg, pending + data);
      if csid != 0 {
        if c.pos == 0 {
          ReadBasicStable(pending, data);
        } else {
          ReadHeaderStable(cfg, spec, pending, data);
        }
      }
    }

    lemma PutSame(c: Cell)
      requires csid < |chains| == |streams| && chains[csid] != [] && Addr() < |mem|
      ensures Put(c, streams[csid]) == this.(mem := mem[Addr() := c])
    {
      assert streams[csid := streams[csid]] == streams;
    }

    lemma GoodSizes(cfg: Config)
      requires Good(cfg)
      ensures csid < |chains| == |heads| == |streams| == |spec| == cfg.maxStreams && |mem| == |owner|
      ensures csid != 0 ==> chains[csid] != [] && streams[csid].csid == csid
    {
    }

    /** A chunk that does not end its message is in: the stream's record and the parser's move on. */
    ghost function Settled(r: Record, st: Stream): View
      requires csid < |streams| == |spec|
    {
      this.(csid := 0, streams := streams[csid := r], spec := spec[csid := st])
    }

    lemma SettledGood(cfg: Config, r: Record, st: Stream)
      requires Good(cfg) && csid != 0
      requires r.Abs(Whole() + Held(mem, Addr())) == st
      ensures Settled(r, st).Good(cfg)
    {
      var v := Settled(r, st);
      assert Content(mem, chains[csid]) == Whole() + Held(mem, Addr());
      hide Content;
      forall n | 1 <= n < |chains| ensures v.Same(n) {
        assert n != csid ==> Same(n);
      }
    }

    /** The message on the current ring is delivered: its buffers go before the free ones. */
    ghost function Released(r: Record, st: Stream): View
      requires 1 <= csid < |chains| == |streams| == |spec| == |heads| && chains[csid] != [] && Addr() < |mem|
    {
      View(mem[Addr() := mem[Addr()].(next := heads[0])],
           heads[0 := First(chains[csid])][csid := Null], streams[csid := r], 0,
           chains[0 := chains[csid] + chains[0]][csid := []], Freed(owner, csid), spec[csid := st], pending)
    }

    lemma ReleasedGood(cfg: Config, r: Record, st: Stream)
      requires Good(cfg) && csid != 0
      requires r.Abs([]) == st
      ensures Addr() < |mem|
      ensures Released(r, st).Good(cfg)
    {
      var size := cfg.chunkSize + MAX_CHUNK_HEADER;
      Inside(cfg);
      var v := Released(r, st);
      assert heads[0] == First(chains[0]) by { Heads(mem, size, chains, heads); }
      ReleaseOk(mem, v.mem, size, chains, heads, owner, csid);
      forall n | 1 <= n < |chains| ensures v.Same(n) {
        if n != csid {
          assert Same(n) && ChainOk(mem, size, n, chains[n], heads[n]);
          ContentKept(mem, v.mem, chains[n]);
        }
      }
    }

    lemma AddrOk(cfg: Config)
      requires Good(cfg) && chains[csid] != []
      ensures csid < |heads| && heads[csid] == At(Addr()) && Addr() < |mem| && Current() == mem[Addr()]
      ensures Filling(cfg) && Current().pos != 0 ==> csid != 0
    {
      Inside(cfg);
    }

    lemma CellSane(cfg: Config, a: nat)
      requires Good(cfg) && a < |mem|
      ensures mem[a].Sane(cfg.chunkSize + MAX_CHUNK_HEADER)
    {
      var n := owner[a];
      assert a in chains[n] && ChainOk(mem, cfg.chunkSize + MAX_CHUNK_HEADER, n, chains[n], heads[n]);
    }

    lemma Sizes(cfg: Config)
      requires Good(cfg) && csid != 0
      ensures csid < |chains| == |heads| == |streams| == |spec| == cfg.maxStreams && chains[csid] != []
              && Addr() < |mem|
      ensures streams[csid].csid == csid && heads[csid] == At(Addr())
      ensures Current() == mem[Addr()] && Current().Sane(cfg.chunkSize + MAX_CHUNK_HEADER)
      ensures Filling(cfg) ==> pending == Current().data[..Current().last]
    {
      Inside(cfg);
    }

    /** What cutting the current buffer to `take` bytes of payload leaves in it and on its ring. */
    lemma Cut(cfg: Config, take: nat, r: Record)
      requires Good(cfg) && Filling(cfg) && csid != 0 && Current().pos != 0
      requires Current().pos + take <= Current().last && r.csid == csid
      ensures var c := Current(); var c' := c.(last := c.pos + take); var v := Put(c', r);
              && Addr() < |mem| && v == this.(mem := mem[Addr() := c'], streams := streams[csid := r])
              && v.Good(cfg) && v.Addr() == Addr() && v.Whole() == Whole()
              && Held(v.mem, Addr()) == pending[c.pos..c.pos + take]
    {
      hide View.Good, View.Filling, View.Whole;
      Sizes(cfg);
      var c := Current();
      var c' := c.(last := c.pos + take);
      PutGood(cfg, c', r);
      assert Held(Put(c', r).mem, Addr()) == c.data[c.pos..c.pos + take];
      assert pending[c.pos..c.pos + take] == c.data[c.pos..c.pos + take];
    }

    /** The state after a chunk that does not end its message. */
    lemma FragmentedGood(cfg: Config, c: Cell, r: Record, st: Stream)
      requires Good(cfg) && Filling(cfg) && csid != 0 && Current().pos != 0 && c == Current()
      requires r == streams[csid] && st == r.Abs(Whole())
      requires c.pos + cfg.chunkSize <= c.last
      ensures Addr() < |mem| && c.last == |pending| && chains[csid] != []
      ensures var last := c.pos + cfg.chunkSize;
              this.(mem := mem[Addr() := c.(last := last)], csid := 0,
                    streams := streams[csid := r.(len := Wrap(r.len + cfg.chunkSize))],
                    spec := spec[csid := Grow(cfg, st, pending[c.pos..last])], pending := pending[last..]).Good(cfg)
    {
      hide View.Good, View.Filling, View.Whole, View.Addr, View.Put, View.Current, Held;
      Sizes(cfg);
      var last := c.pos + cfg.chunkSize;
      var r' := r.(len := Wrap(r.len + cfg.chunkSize));
      Cut(cfg, cfg.chunkSize, r');
      var v1 := Put(c.(last := last), r');
      var st' := Grow(cfg, st, pending[c.pos..last]);
      v1.SettledGood(cfg, r', st');
      v1.Settled(r', st').AnyPending(cfg, pending[last..]);
      assert v1.streams[csid := r'] == v1.streams;
    }

    /** The state after a chunk that ends its message. */
    lemma FinalizedGood(cfg: Config, c: Cell, r: Record, st: Stream, take: nat)
      requires Good(cfg) && Filling(cfg) && csid != 0 && Current().pos != 0 && c == Current()
      requires r == streams[csid] && st == r.Abs(Whole())
      requires c.pos + take <= c.last
      ensures Addr() < |mem| && c.last == |pending| && chains[csid] != [] && csid < |heads|
      ensures var last := c.pos + take;
              View(mem[Addr() := c.(last := last, next := heads[0])],
                   heads[0 := First(chains[csid])][csid := Null],
                   streams[csid := r.(len := 0, timestamp := Due(st))], 0,
                   chains[0 := chains[csid] + chains[0]][csid := []], Freed(owner, csid),
                   spec[csid := Reset(st)], pending[last..]).Good(cfg)
      ensures var mem' := mem[Addr() := c.(last := c.pos + take, next := Null)];
              && c.next == First(chains[csid]) && Chain(mem', cfg.chunkSize + MAX_CHUNK_HEADER, chains[csid], Null)
              && Content(mem', chains[csid]) == Whole() + pending[c.pos..c.pos + take]
    {
      hide View.Good, View.Filling, View.Whole, View.Addr, View.Put, View.Current, Held, Content, Chain, Freed;
      Sizes(cfg);
      var last := c.pos + take;
      var r' := r.(len := 0, timestamp := Due(st));
      Cut(cfg, take, r');
      var v1 := Put(c.(last := last), r');
      v1.OpenMessage(cfg);
      assert v1.mem[Addr() := c.(last := last, next := Null)] == mem[Addr() := c.(last := last, next := Null)];
      v1.ReleasedGood(cfg, r', Reset(st));
      v1.Released(r', Reset(st)).AnyPending(cfg, pending[last..]);
      assert v1.mem[Addr() := c.(last := last, next := heads[0])] == mem[Addr() := c.(last := last, next := heads[0])];
      assert v1.streams[csid := r'] == v1.streams;
    }

    /** The current ring cut open is the chain its message is read from. */
    lemma OpenMessage(cfg: Config)
      requires Good(cfg) && csid != 0
      ensures Addr() < |mem|
      ensures var ring := chains[csid]; var mem' := mem[Addr() := mem[Addr()].(next := Null)];
              && mem[Addr()].next == First(ring) && Chain(mem', cfg.chunkSize + MAX_CHUNK_HEADER, ring, Null)
              && Content(mem', ring) == Whole() + Held(mem, Addr())
    {
      Inside(cfg);
      OpenRing(mem, cfg.chunkSize + MAX_CHUNK_HEADER, csid, chains[csid], heads[csid]);
    }
  }
}
