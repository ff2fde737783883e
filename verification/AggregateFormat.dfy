/** Aggregate messages (section 7.1.6 of the RTMP 1.0 specification) as one flat byte string. */
module AggregateFormat {
  import opened Bytes
  import opened Wrappers

  /** A message inside an aggregate: `timestamp` is its own, or, once delivered, the one it is delivered with. */
  datatype Sub = Sub(kind: byte, msid: u32, timestamp: u32, payload: seq<byte>)

  datatype Outcome = Finished | Malformed | Refused

  /** The messages delivered, and how it ends. */
  datatype Split = Split(subs: seq<Sub>, outcome: Outcome)

  const HEADER := 11
  const BACK_POINTER := 4

  /** The 24-bit timestamp with its extension as the most significant byte. */
  function TimeAt(s: seq<byte>, i: nat): u32
    requires i + 4 <= |s|
  {
    s[i + 3] as int * 0x100_0000 + Be24(s, i)
  }

  /** The message that `s` starts with, the first one being at time `base`. */
  function First(s: seq<byte>, base: u32, h: u32): Sub
    requires |s| >= HEADER && |s| - HEADER > Be24(s, 1)
  {
    Sub(s[0], Be24(s, 8), Wrap(h + TimeAt(s, 4) - base), s[HEADER..HEADER + Be24(s, 1)])
  }

  function BaseOf(s: seq<byte>, base: Option<u32>): u32
    requires |s| >= HEADER
  {
    if base.Some? then base.value else TimeAt(s, 4)
  }

  /**
   The messages of the aggregate `s` with timestamp `h`, of which `n` have been delivered before. The handler of the
   k-th message accepts it if `accept(k)`. A body must be followed by something, as its back pointer is.
   */
  function Splitting(s: seq<byte>, base: Option<u32>, h: u32, n: nat, accept: nat -> bool): Split
    decreases |s|
  {
    if |s| == 0 then Split([], Finished)
    else if |s| < HEADER || |s| - HEADER <= Be24(s, 1) then Split([], Malformed)
    else
      var b := BaseOf(s, base);
      var sub := First(s, b, h);
      var rest := s[HEADER + Be24(s, 1)..];
      if !accept(n) then Split([sub], Refused)
      else if |rest| < BACK_POINTER then Split([sub], Finished)
      else
        var r := Splitting(rest[BACK_POINTER..], Some(b), h, n + 1, accept);
        Split([sub] + r.subs, r.outcome)
  }

  // ----- well-formed aggregates -----

  /** A message with its header and its back pointer, which says how long the two are. */
  function Encode(m: Sub): seq<byte>
    requires |m.payload| < U24 && m.msid < U24
  {
    [m.kind] + PutBe24(|m.payload|) + PutBe24(m.timestamp % U24) + [m.timestamp / U24] + PutBe24(m.msid)
    + m.payload + PutBe32(HEADER + |m.payload|)
  }

  ghost predicate Fits(ms: seq<Sub>) {
    forall i :: 0 <= i < |ms| ==> |ms[i].payload| < U24 && ms[i].msid < U24
  }

  function EncodeAll(ms: seq<Sub>): seq<byte>
    requires Fits(ms)
  {
    if ms == [] then [] else Encode(ms[0]) + EncodeAll(ms[1..])
  }

  /** The messages with their timestamps moved from the time of the first one to the time of the aggregate. */
  function Moved(ms: seq<Sub>, base: u32, h: u32): (r: seq<Sub>)
    ensures |r| == |ms|
    ensures forall i :: 0 <= i < |ms| ==> r[i] == ms[i].(timestamp := Wrap(h + ms[i].timestamp - base))
  {
    if ms == [] then [] else [ms[0].(timestamp := Wrap(h + ms[0].timestamp - base))] + Moved(ms[1..], base, h)
  }

  /** The messages as they are delivered from an aggregate with timestamp `h`. */
  ghost function Shifted(ms: seq<Sub>, h: u32): seq<Sub> {
    if ms == [] then [] else Moved(ms, ms[0].timestamp, h)
  }

  ghost predicate AllAccepted(ms: seq<Sub>, accept: nat -> bool) {
    forall k :: 0 <= k < |ms| ==> accept(k)
  }

  lemma EncodeReads(m: Sub, rest: seq<byte>)
    requires |m.payload| < U24 && m.msid < U24
    ensures var s := Encode(m) + rest; var k := HEADER + |m.payload|;
            && |s| == k + BACK_POINTER + |rest| && s[0] == m.kind && Be24(s, 1) == |m.payload|
            && TimeAt(s, 4) == m.timestamp && Be24(s, 8) == m.msid
            && s[HEADER..k] == m.payload && s[k..][BACK_POINTER..] == rest
  {
    var len, low, id := PutBe24(|m.payload|), PutBe24(m.timestamp % U24), PutBe24(m.msid);
    var s := Encode(m) + rest;
    assert s[1..1 + 3] == len && s[4..4 + 3] == low && s[8..8 + 3] == id;
    Be24RoundTrip(|m.payload|, s, 1);
    Be24RoundTrip(m.timestamp % U24, s, 4);
    Be24RoundTrip(m.msid, s, 8);
    assert s[7] == m.timestamp / U24;
  }

  lemma SplitOne(m: Sub, rest: seq<byte>, base: Option<u32>, h: u32, n: nat, accept: nat -> bool)
    requires |m.payload| < U24 && m.msid < U24 && accept(n)
    ensures var b := if base.Some? then base.value else m.timestamp;
            var r := Splitting(rest, Some(b), h, n + 1, accept);
            Splitting(Encode(m) + rest, base, h, n, accept)
            == Split([m.(timestamp := Wrap(h + m.timestamp - b))] + r.subs, r.outcome)
  {
    hide Encode, TimeAt, Be24;
    EncodeReads(m, rest);
  }

  /** Splitting a well-formed aggregate gives back exactly its messages, at their distance from the first one. */
  lemma {:induction false} SplitsAll(ms: seq<Sub>, base: Option<u32>, h: u32, n: nat, accept: nat -> bool)
    requires Fits(ms) && forall k :: n <= k < n + |ms| ==> accept(k)
    ensures Splitting(EncodeAll(ms), base, h, n, accept)
            == Split(if ms == [] then []
                     else Moved(ms, if base.Some? then base.value else ms[0].timestamp, h), Finished)
    decreases |ms|
  {
    hide Encode, Splitting, Wrap;
    if ms == [] {
      NothingToSplit(base, h, n, accept);
    } else {
      var b := if base.Some? then base.value else ms[0].timestamp;
      SplitOne(ms[0], EncodeAll(ms[1..]), base, h, n, accept);
      SplitsAll(ms[1..], Some(b), h, n + 1, accept);
      if ms[1..] == [] {
        assert Moved(ms[1..], b, h) == [];
      }
    }
  }

  lemma NothingToSplit(base: Option<u32>, h: u32, n: nat, accept: nat -> bool)
    ensures Splitting([], base, h, n, accept) == Split([], Finished)
  {
  }

  /**
   Any bytes at all: a message is taken off exactly if its header is there and more than its body, the first one at the
   time of the aggregate; nothing left is a good end, and anything else a bad one.
   */
  lemma SplitStops(s: seq<byte>, base: Option<u32>, h: u32, n: nat, accept: nat -> bool)
    ensures var r := Splitting(s, base, h, n, accept);
            && (r.subs != [] <==> |s| >= 11 && |s| > 11 + Be24(s, 1))
            && (r.subs == [] ==> r.outcome == if s == [] then Finished else Malformed)
            && (r.subs != [] ==>
                  && r.subs[0].kind == s[0] && r.subs[0].msid == Be24(s, 8)
                  && r.subs[0].payload == s[11..11 + Be24(s, 1)] && (base.None? ==> r.subs[0].timestamp == h)
                  && (!accept(n) ==> |r.subs| == 1 && r.outcome == Refused))
  {
    hide Be24, TimeAt;
  }
}
