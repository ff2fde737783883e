/** How the sender cuts a message into chunks and heads them: the values that OutputPath.dfy writes into buffers. */
module ChunkLayout {
  import opened Arithmetic
  import opened Bytes
  import opened Wrappers

  /** A message header, as callers fill it in; `mlen` is read only from the header of the message before. */
  datatype Head = Head(csid: nat, timestamp: u32, mlen: nat, typ: byte, msid: u32)

  /** One call of prepare_message: the header, the header of the message before on this chunk stream, the payload. */
  datatype Outgoing = Outgoing(h: Head, lh: Option<Head>, payload: seq<byte>)
  {
    /** Whether only the change against the message before is sent. */
    predicate Relative() {
      lh.Some? && lh.value.csid != 0 && h.msid == lh.value.msid
    }

    function Fmt(): (fmt: nat)
      ensures fmt <= 3
    {
      if !Relative() then 0
      else if h.typ != lh.value.typ || |payload| == 0 || |payload| != lh.value.mlen then 1
      else if h.timestamp != lh.value.timestamp then 2
      else 3
    }

    function Time(): u32 {
      if Relative() then Wrap(h.timestamp - lh.value.timestamp) else h.timestamp
    }

    predicate Ext() {
      Time() >= 0xff_ffff
    }
  }

  /**
   What the first header leaves out: nothing without a message before on the same message stream; and behind one, the
   stream id, with type and length if they are its own too and there is a payload, and with the time if that is as well.
   */
  lemma LeavesOut(o: Outgoing)
    ensures o.Fmt() == 0 <==> o.lh.None? || o.lh.value.csid == 0 || o.lh.value.msid != o.h.msid
    ensures o.Fmt() >= 2 <==>
      && o.Fmt() != 0 && o.lh.value.typ == o.h.typ && o.lh.value.mlen == |o.payload| && o.payload != []
    ensures o.Fmt() == 3 <==> o.Fmt() >= 2 && o.lh.value.timestamp == o.h.timestamp
    ensures o.Time() == if o.Fmt() == 0 then o.h.timestamp else Wrap(o.h.timestamp - o.lh.value.timestamp)
  {
  }

  /** The chunk stream ids that the three-byte basic header can carry. */
  predicate Sendable(csid: nat) {
    2 <= csid <= 65599
  }

  function BasicHeader(fmt: nat, csid: nat): (s: seq<byte>)
    requires fmt <= 3 && Sendable(csid)
    ensures 1 <= |s| <= 3
  {
    if csid <= 63 then [fmt * 64 + csid]
    else if csid < 320 then [fmt * 64, csid - 64]
    else [fmt * 64 + 1, (csid - 64) % 256, (csid - 64) / 256]
  }

  function TimeField(o: Outgoing): (s: seq<byte>)
    ensures |s| == if o.Fmt() <= 2 then 3 else 0
  {
    if o.Fmt() <= 2 then PutBe24(if o.Ext() then 0xff_ffff else o.Time()) else []
  }

  function KindField(o: Outgoing): (s: seq<byte>)
    ensures |s| == if o.Fmt() <= 1 then 4 else 0
  {
    if o.Fmt() <= 1 then PutBe24(Wrap(|o.payload|)) + [o.h.typ] else []
  }

  function MsidField(o: Outgoing): (s: seq<byte>)
    ensures |s| == if o.Fmt() == 0 then 4 else 0
  {
    if o.Fmt() == 0 then PutLe32(o.h.msid) else []
  }

  function FirstHeader(o: Outgoing): (s: seq<byte>)
    requires Sendable(o.h.csid)
    ensures 1 <= |s| <= 18
  {
    BasicHeader(o.Fmt(), o.h.csid) + TimeField(o) + KindField(o) + MsidField(o)
    + (if o.Ext() then PutBe32(o.Time()) else [])
  }

  /** `timeFix` is play_time_fix: repeat the extended timestamp in every chunk, against the standard. */
  function NextHeader(timeFix: bool, o: Outgoing): (s: seq<byte>)
    requires Sendable(o.h.csid)
    ensures 1 <= |s| <= 7
  {
    BasicHeader(3, o.h.csid) + (if o.Ext() && timeFix then PutBe32(o.Time()) else [])
  }

  /** The chunk that carries the payload from offset `sent`. */
  function ChunkAt(timeFix: bool, size: nat, o: Outgoing, sent: nat): seq<byte>
    requires Sendable(o.h.csid) && sent <= |o.payload|
  {
    (if sent == 0 then FirstHeader(o) else NextHeader(timeFix, o))
    + o.payload[sent..Min(sent + size, |o.payload|)]
  }

  /** A payload cut into full pieces and a last one, which is empty only for an empty payload. */
  function Cut(size: nat, s: seq<byte>): (ps: seq<seq<byte>>)
    requires size > 0
    ensures |ps| >= 1
    ensures forall i :: 0 <= i < |ps| - 1 ==> |ps[i]| == size
    ensures |ps[|ps| - 1]| <= size
    decreases |s|
  {
    if |s| <= size then [s] else [s[..size]] + Cut(size, s[size..])
  }

  /** The chunks still to be sent when the first `sent` payload bytes are out. */
  function ChunksFrom(timeFix: bool, size: nat, o: Outgoing, sent: nat): (cs: seq<seq<byte>>)
    requires size > 0 && Sendable(o.h.csid) && sent <= |o.payload|
    decreases |o.payload| - sent
  {
    [ChunkAt(timeFix, size, o, sent)]
    + (if |o.payload| - sent <= size then [] else ChunksFrom(timeFix, size, o, sent + size))
  }

  lemma ChunksUnfold(timeFix: bool, size: nat, o: Outgoing, sent: nat)
    requires size > 0 && Sendable(o.h.csid) && sent <= |o.payload|
    ensures ChunksFrom(timeFix, size, o, sent)
            == [ChunkAt(timeFix, size, o, sent)]
               + (if |o.payload| - sent <= size then [] else ChunksFrom(timeFix, size, o, sent + size))
  {
  }

  function Prefixed(h: seq<byte>, parts: seq<seq<byte>>): (r: seq<seq<byte>>)
    ensures |r| == |parts| && forall i :: 0 <= i < |parts| ==> r[i] == h + parts[i]
  {
    if parts == [] then [] else [h + parts[0]] + Prefixed(h, parts[1..])
  }

  /** The parts of a message, each headed as a chunk. */
  function Headed(timeFix: bool, o: Outgoing, parts: seq<seq<byte>>): (r: seq<seq<byte>>)
    requires Sendable(o.h.csid) && |parts| > 0
  {
    [FirstHeader(o) + parts[0]] + Prefixed(NextHeader(timeFix, o), parts[1..])
  }

  lemma CutUnfold(size: nat, s: seq<byte>)
    requires size > 0
    ensures |s| <= size ==> Cut(size, s) == [s]
    ensures |s| > size ==> Cut(size, s) == [s[..size]] + Cut(size, s[size..])
  {
  }

  lemma PrefixedUnfold(h: seq<byte>, p: seq<byte>, parts: seq<seq<byte>>)
    ensures Prefixed(h, [p] + parts) == [h + p] + Prefixed(h, parts)
  {
    assert ([p] + parts)[1..] == parts;
  }

  lemma {:induction false} PrefixedIsChunks(timeFix: bool, size: nat, o: Outgoing, sent: nat)
    requires size > 0 && Sendable(o.h.csid) && 0 < sent < |o.payload|
    ensures ChunksFrom(timeFix, size, o, sent) == Prefixed(NextHeader(timeFix, o), Cut(size, o.payload[sent..]))
    decreases |o.payload| - sent
  {
    hide NextHeader, FirstHeader, Cut, Prefixed;
    var s, h := o.payload[sent..], NextHeader(timeFix, o);
    CutUnfold(size, s);
    if |s| > size {
      PrefixedIsChunks(timeFix, size, o, sent + size);
      assert s[..size] == o.payload[sent..sent + size] && s[size..] == o.payload[sent + size..];
      PrefixedUnfold(h, s[..size], Cut(size, s[size..]));
    } else {
      assert o.payload[sent..|o.payload|] == s;
      PrefixedUnfold(h, s, []);
      assert Prefixed(h, []) == [] && [s] + [] == [s];
    }
  }

  /** Heading the pieces of a cut payload gives the message's chunks. */
  lemma HeadedIsChunks(timeFix: bool, size: nat, o: Outgoing)
    requires size > 0 && Sendable(o.h.csid)
    ensures Headed(timeFix, o, Cut(size, o.payload)) == ChunksFrom(timeFix, size, o, 0)
  {
    hide NextHeader, FirstHeader;
    if |o.payload| > size {
      PrefixedIsChunks(timeFix, size, o, size);
      assert o.payload[0..size] == o.payload[..size];
    } else {
      assert o.payload[0..|o.payload|] == o.payload;
    }
  }

  lemma {:induction false} CutFlatten(size: nat, s: seq<byte>)
    requires size > 0
    ensures Flatten(Cut(size, s)) == s
    decreases |s|
  {
    hide Flatten;
    if |s| > size {
      CutFlatten(size, s[size..]);
      var rest := Cut(size, s[size..]);
      FlattenFirst(s[..size], rest);
      assert s[..size] + s[size..] == s;
    } else {
      FlattenFirst(s, []);
      assert [s] + [] == [s];
    }
  }

  lemma FlattenFirst(piece: seq<byte>, rest: seq<seq<byte>>)
    ensures Flatten([piece] + rest) == piece + Flatten(rest) && Flatten<byte>([]) == []
  {
    assert ([piece] + rest)[1..] == rest;
  }

  /** Filling the last piece, and starting a new one when it is full, cuts the longer payload. */
  lemma {:induction false} CutGrows(size: nat, s: seq<byte>, t: seq<byte>)
    requires size > 0
    ensures var ps := Cut(size, s); var k := |ps| - 1;
            && (|ps[k]| + |t| <= size ==> Cut(size, s + t) == ps[k := ps[k] + t])
            && (|ps[k]| == size && 0 < |t| <= size ==> Cut(size, s + t) == ps + [t])
    decreases |s|
  {
    hide Cut;
    CutUnfold(size, s);
    CutUnfold(size, s + t);
    if |s| > size {
      CutGrows(size, s[size..], t);
      assert (s + t)[..size] == s[..size] && (s + t)[size..] == s[size..] + t;
      LastIsLater(s[..size], Cut(size, s[size..]), t);
    } else if |s| == size && 0 < |t| <= size {
      assert (s + t)[..size] == s && (s + t)[size..] == t;
      CutUnfold(size, t);
    }
  }

  lemma LastIsLater(p: seq<byte>, qs: seq<seq<byte>>, t: seq<byte>)
    requires |qs| > 0
    ensures var k := |qs| - 1; var ps := [p] + qs;
            ps[k + 1] == qs[k] && [p] + qs[k := qs[k] + t] == ps[k + 1 := ps[k + 1] + t] && [p] + (qs + [t]) == ps + [t]
  {
  }
}
