/** The handler of aggregate messages: it cuts the chain of buffers at the end of each message and mends it again. */
module Aggregate {
  import opened Bytes
  import opened Wrappers
  import opened AggregateFormat

  /** A buffer in the chain; `next` beyond the last link is the null pointer. */
  datatype Link = Link(data: seq<byte>, pos: nat, last: nat, next: nat)

  /** The links are in order, and each holds what lies between `pos` and `last`. */
  ghost predicate Chained(links: seq<Link>) {
    forall i :: 0 <= i < |links| ==> links[i].next == i + 1 && links[i].pos <= links[i].last <= |links[i].data|
  }

  function Held(l: Link): seq<byte> {
    if l.pos <= l.last <= |l.data| then l.data[l.pos..l.last] else []
  }

  /** What the chain that starts at link `i` holds. */
  function Content(links: seq<Link>, i: nat): seq<byte>
    decreases |links| - i
  {
    if i >= |links| then []
    else if links[i].next <= i then Held(links[i])
    else Held(links[i]) + Content(links, links[i].next)
  }

  /** Nothing has changed but read positions. */
  ghost predicate SameButPos(before: seq<Link>, after: seq<Link>) {
    |after| == |before| && forall i :: 0 <= i < |before| ==> after[i].(pos := 0) == before[i].(pos := 0)
  }

  /** Links before `i` do not matter. */
  lemma ContentAhead(a: seq<Link>, b: seq<Link>, i: nat)
    requires |a| == |b| && forall j :: i <= j < |a| ==> a[j] == b[j]
    ensures Content(a, i) == Content(b, i)
    decreases |a| - i
  {
    if i < |a| && a[i].next > i {
      ContentAhead(a, b, a[i].next);
    }
  }

  class Handler {
    var links: seq<Link>
    /** The messages delivered so far. */
    var delivered: seq<Sub>

    constructor (links: seq<Link>)
      requires Chained(links)
      ensures this.links == links && delivered == []
    {
      this.links, delivered := links, [];
    }

    /** The next byte; empty buffers are passed over. */
    method Fetch(i: nat) returns (ok: bool, j: nat, b: byte)
      requires Chained(links)
      modifies `links
      ensures Chained(links) && SameButPos(old(links), links)
      ensures ok <==> |old(Content(links, i))| > 0
      ensures ok ==> [b] + Content(links, j) == old(Content(links, i))
    {
      hide Content;
      j, b := i, 0;
      while j < |links| && links[j].pos >= links[j].last
        invariant links == old(links) && Content(links, j) == Content(links, i)
        decreases |links| - j
      {
        Skipped(links, j);
        j := links[j].next;
      }
      if j >= |links| {
        NothingThere(links, j);
        return false, j, b;
      }
      b := links[j].data[links[j].pos];
      Taken(links, j);
      links := links[j := links[j].(pos := links[j].pos + 1)];
      return true, j, b;
    }

    /** `n` bytes, the most significant first. */
    method FetchUint(i: nat, n: nat) returns (ok: bool, j: nat, v: u32)
      requires Chained(links) && 1 <= n <= 4
      modifies `links
      ensures Chained(links) && SameButPos(old(links), links)
      ensures ok <==> |old(Content(links, i))| >= n
      ensures ok ==> v == Value(old(Content(links, i))[..n]) && Content(links, j) == old(Content(links, i))[n..]
    {
      hide Content;
      ghost var s := Content(links, i);
      var k := n;
      j := i;
      v := 0;
      while k > 0
        invariant 0 <= k <= n && Chained(links) && SameButPos(old(links), links)
        invariant |s| >= n - k && Content(links, j) == s[n - k..]
        invariant v == Value(s[..n - k]) && v < Power(n - k)
      {
        var b;
        ok, j, b := Fetch(j);
        if !ok {
          return;
        }
        NextByte(s, n - k, b, Content(links, j));
        Append(s, n - k);
        v := v * 0x100 + b;
        k := k - 1;
      }
      return true, j, v;
    }

    /**
     Limits the chain: the link where more than `mlen` bytes have been passed, and how many have been passed there.
     */
    method Limit(i: nat, mlen: nat) returns (cl: nat, len: nat)
      requires Chained(links)
      ensures cl < |links| <==> |Content(links, i)| > mlen
      ensures cl < |links| ==> i <= cl && Ends(links, i, cl, mlen, len)
    {
      hide Content, Upto, Held;
      len := 0;
      cl := i;
      Passing(links, i, i);
      while cl < |links|
        invariant i <= cl && len <= mlen && (cl <= |links| || cl == i)
        invariant Upto(links, i, cl) + Content(links, cl) == Content(links, i) && |Upto(links, i, cl)| == len
        decreases |links| - cl
      {
        Passing(links, i, cl);
        len := len + (links[cl].last - links[cl].pos);
        if len > mlen {
          break;
        }
        cl := links[cl].next;
      }
      NothingThere(links, cl);
    }

    /** Hands one message on: the chain is cut behind its body, given to the handler, and mended. */
    method Deliver(i: nat, cl: nat, len: nat, mlen: nat, kind: byte, msid: u32, timestamp: u32)
      requires Chained(links) && i <= cl < |links| && Ends(links, i, cl, mlen, len)
      modifies this
      ensures Chained(links) && SameButPos(old(links), links)
      ensures Content(links, cl) == old(Content(links, i))[mlen..]
      ensures delivered == old(delivered) + [Sub(kind, msid, timestamp, old(Content(links, i))[..mlen])]
    {
      hide Content, Ends, Mended;
      CutBehind(links, i, cl, mlen, len);
      var next, last := links[cl].next, links[cl].last;
      links := links[cl := links[cl].(next := |links|, last := last - (len - mlen))];
      delivered := delivered + [Sub(kind, msid, timestamp, Content(links, i))];
      links := links[cl := links[cl].(next := next, pos := links[cl].last, last := last)];
      MendedIs(old(links), links, cl, last - (len - mlen));
    }

    /** The header of a message: 11 bytes. `started` says that there was a first one. */
    method ReadHeader(i: nat) returns (ok: bool, started: bool, j: nat, kind: byte, mlen: u32, timestamp: u32,
                                       msid: u32)
      requires Chained(links)
      modifies `links
      ensures Chained(links) && SameButPos(old(links), links)
      ensures started == (|old(Content(links, i))| > 0) && ok == (|old(Content(links, i))| >= HEADER)
      ensures ok ==>
        var s := old(Content(links, i));
        && kind == s[0] && mlen == Be24(s, 1) && timestamp == TimeAt(s, 4) && msid == Be24(s, 8)
        && Content(links, j) == s[HEADER..]
    {
      hide Content, Value;
      ghost var s := Content(links, i);
      mlen, timestamp, msid := 0, 0, 0;
      started, j, kind := Fetch(i);
      ok := started;
      if !ok {
        return;
      }
      assert Content(links, j) == s[1..];
      ok, j, mlen := FetchUint(j, 3);
      if !ok {
        return;
      }
      assert s[1..][..3] == s[1..4] && s[1..][3..] == s[4..];
      ok, j, timestamp := FetchUint(j, 3);
      if !ok {
        return;
      }
      assert s[4..][..3] == s[4..7] && s[4..][3..] == s[7..];
      var high;
      ok, j, high := Fetch(j);
      if !ok {
        return;
      }
      assert Content(links, j) == s[8..];
      ok, j, msid := FetchUint(j, 3);
      if !ok {
        return;
      }
      assert s[8..][..3] == s[8..11] && s[8..][3..] == s[11..];
      HeaderValues(s);
      timestamp := high * 0x100_0000 + timestamp;
    }

    /** One round of the handler: a message is taken off and handed on, or there is an end to it. */
    method Round(i: nat, base: Option<u32>, h: u32, accepted: bool)
      returns (end: Option<Outcome>, j: nat, base': u32)
      requires Chained(links)
      modifies this
      ensures Chained(links) && SameButPos(old(links), links)
      ensures Rounded(old(Content(links, i)), base, h, accepted, delivered, old(delivered), end,
                      Content(links, j), base')
    {
      hide Content, TimeAt, Be24, SameButPos, Chained, Ends, Value;
      ghost var s := Content(links, i);
      var ok, started, kind, mlen, timestamp, msid;
      ok, started, j, kind, mlen, timestamp, msid := ReadHeader(i);
      ghost var header := links;
      if !ok {
        return Some(if started then Malformed else Finished), j, 0;
      }
      base' := if base.Some? then base.value else timestamp;
      var cl, len := Limit(j, mlen);
      if cl >= |links| {
        return Some(Malformed), j, base';
      }
      Deliver(j, cl, len, mlen, kind, msid, Wrap(h + timestamp - base'));
      SameThroughout(old(links), header, links);
      ghost var mended := links;
      assert s[HEADER..][..mlen] == s[HEADER..HEADER + mlen] && s[HEADER..][mlen..] == s[HEADER + mlen..];
      if !accepted {
        return Some(Refused), cl, base';
      }
      var previous;
      ok, j, previous := FetchUint(cl, BACK_POINTER);
      SameThroughout(old(links), mended, links);
      end := if ok then None else Some(Finished);
    }

    /** ngx_rtmp_aggregate_message_handler, for a message with timestamp `h`. */
    method Handle(i: nat, h: u32, accept: nat -> bool) returns (outcome: Outcome)
      requires Chained(links)
      modifies this
      ensures Chained(links) && SameButPos(old(links), links)
      ensures var r := Splitting(old(Content(links, i)), None, h, 0, accept);
              delivered == old(delivered) + r.subs && outcome == r.outcome
      ensures forall ms :: Fits(ms) && EncodeAll(ms) == old(Content(links, i)) && AllAccepted(ms, accept) ==>
        delivered == old(delivered) + Shifted(ms, h) && outcome == Finished
    {
      hide Content, Splitting, Rounded, EncodeAll;
      var j: nat, base: Option<u32>, n: nat := i, None, 0;
      ghost var s := Content(links, i);
      forall ms | Fits(ms) && EncodeAll(ms) == s && AllAccepted(ms, accept)
        ensures Splitting(s, None, h, 0, accept) == Split(Shifted(ms, h), Finished)
      {
        SplitsAll(ms, None, h, 0, accept);
      }
      Tail(s, h, accept, delivered);
      while j < |links|
        invariant Chained(links) && SameButPos(old(links), links)
        invariant Remaining(s, h, accept, old(delivered), Content(links, j), base, n, delivered)
        decreases |Content(links, j)|
      {
        ghost var rest, done := Content(links, j), delivered;
        var end, base';
        end, j, base' := Round(j, base, h, accept(n));
        RoundSplits(rest, base, h, n, accept, delivered, done, end, Content(links, j), base');
        if end.Some? {
          return end.value;
        }
        base := Some(base');
        n := n + 1;
      }
      NothingThere(links, j);
      NothingToSplit(base, h, n, accept);
      return Finished;
    }
  }

  lemma Skipped(links: seq<Link>, j: nat)
    requires Chained(links) && j < |links| && links[j].pos >= links[j].last
    ensures Content(links, j) == Content(links, links[j].next)
  {
  }

  lemma NextByte(s: seq<byte>, k: nat, b: byte, after: seq<byte>)
    requires k <= |s| && [b] + after == s[k..]
    ensures k < |s| && b == s[k] && after == s[k + 1..]
  {
    var rest := s[k..];
    assert |rest| == 1 + |after|;
    assert rest[0] == b && rest[1..] == after;
  }

  /** The first byte of a link that holds one. */
  lemma Taken(links: seq<Link>, j: nat)
    requires Chained(links) && j < |links| && links[j].pos < links[j].last
    ensures var l := links[j];
            Content(links, j) == [l.data[l.pos]] + Content(links[j := l.(pos := l.pos + 1)], j)
  {
    hide Content;
    var l := links[j];
    var after := links[j := l.(pos := l.pos + 1)];
    Passing(links, j, j);
    Passing(after, j, j);
    ContentAhead(links, after, j + 1);
    assert Held(l) == [l.data[l.pos]] + Held(after[j]);
  }

  lemma SameThroughout(a: seq<Link>, b: seq<Link>, c: seq<Link>)
    requires SameButPos(a, b) && SameButPos(b, c)
    ensures SameButPos(a, c)
  {
  }

  /** The number that a byte string spells. */
  function Value(s: seq<byte>): nat {
    if s == [] then 0 else Value(s[..|s| - 1]) * 0x100 + s[|s| - 1] as nat
  }

  function Power(k: nat): nat {
    if k == 0 then 1 else if k == 1 then 0x100 else if k == 2 then 0x1_0000 else if k == 3 then U24 else U32
  }

  lemma Append(s: seq<byte>, k: nat)
    requires k < |s| && k < 4
    ensures Value(s[..k + 1]) == Value(s[..k]) * 0x100 + s[k] as nat
    ensures Value(s[..k]) < Power(k) ==> Value(s[..k + 1]) < Power(k + 1)
  {
    assert s[..k + 1][..k] == s[..k];
  }

  /** What links `i` to `j - 1` hold. */
  function Upto(links: seq<Link>, i: nat, j: nat): seq<byte>
    requires j <= |links| || j <= i
    decreases j
  {
    if j <= i then [] else Upto(links, i, j - 1) + Held(links[j - 1])
  }

  /**
   `cl` is the link in which the first `mlen` bytes end with some left over, `len` bytes having been counted with it.
   */
  ghost predicate Ends(links: seq<Link>, i: nat, cl: nat, mlen: nat, len: nat)
    requires cl < |links|
  {
    && len == |Upto(links, i, cl + 1)| && |Upto(links, i, cl)| <= mlen < len
    && Upto(links, i, cl + 1) + Content(links, cl + 1) == Content(links, i)
  }

  lemma Passing(links: seq<Link>, i: nat, j: nat)
    requires Chained(links) && i <= j
    ensures j < |links| ==>
      && Upto(links, i, j + 1) == Upto(links, i, j) + Held(links[j])
      && Content(links, j) == Held(links[j]) + Content(links, j + 1)
      && |Held(links[j])| == links[j].last - links[j].pos
    ensures j == i ==> Upto(links, i, j) == []
  {
  }

  lemma NothingThere(links: seq<Link>, j: nat)
    ensures j >= |links| ==> Content(links, j) == []
  {
  }

  lemma UptoSame(a: seq<Link>, b: seq<Link>, i: nat, j: nat)
    requires |a| == |b| && j <= |a| && forall k :: i <= k < j ==> a[k] == b[k]
    ensures Upto(a, i, j) == Upto(b, i, j)
    decreases j
  {
    if j > i {
      UptoSame(a, b, i, j - 1);
    }
  }

  /** A chain whose link `cl` is the last one. */
  lemma {:induction false} ContentCut(links: seq<Link>, i: nat, cl: nat)
    requires i <= cl < |links| && links[cl].next == |links|
    requires forall k :: i <= k < cl ==> links[k].next == k + 1
    ensures Content(links, i) == Upto(links, i, cl) + Held(links[cl])
    decreases cl
  {
    if i < cl {
      UptoContent(links, i, cl);
    }
  }

  lemma {:induction false} UptoContent(links: seq<Link>, i: nat, j: nat)
    requires i <= j <= |links| && forall k :: i <= k < j ==> links[k].next == k + 1
    ensures Content(links, i) == Upto(links, i, j) + Content(links, j)
    decreases j
  {
    hide Held;
    if i < j {
      UptoContent(links, i, j - 1);
      var a, h, b := Upto(links, i, j - 1), Held(links[j - 1]), Content(links, j);
      assert Content(links, j - 1) == h + b;
      assert a + (h + b) == (a + h) + b;
    }
  }

  /** The chain behind a body that ends at `cut` in link `cl`. */
  function Mended(links: seq<Link>, cl: nat, cut: nat): seq<Link>
    requires cl < |links|
  {
    links[cl := links[cl].(pos := cut)]
  }

  lemma MendedIs(links: seq<Link>, after: seq<Link>, cl: nat, cut: nat)
    requires cl < |links|
    ensures after == links[cl := links[cl].(pos := cut)] ==> after == Mended(links, cl, cut)
  {
  }

  /** The cut chain holds the body, and the mended one what follows it. */
  lemma CutBehind(links: seq<Link>, i: nat, cl: nat, mlen: nat, len: nat)
    requires Chained(links) && i <= cl < |links| && Ends(links, i, cl, mlen, len)
    ensures links[cl].pos <= links[cl].last - (len - mlen) <= links[cl].last
    ensures var cut := links[cl].last - (len - mlen);
            && Content(links[cl := links[cl].(next := |links|, last := cut)], i) == Content(links, i)[..mlen]
            && Content(Mended(links, cl, cut), cl) == Content(links, i)[mlen..]
            && Chained(Mended(links, cl, cut)) && SameButPos(links, Mended(links, cl, cut))
  {
    hide Content, Upto;
    Passing(links, i, cl);
    var l := links[cl];
    var cut := l.last - (len - mlen);
    var short, mended := links[cl := l.(next := |links|, last := cut)], links[cl := l.(pos := cut)];
    UptoSame(links, short, i, cl);
    ContentCut(short, i, cl);
    Passing(mended, cl, cl);
    ContentAhead(links, mended, cl + 1);
    CutBytes(Upto(links, i, cl), l.data, l.pos, cut, l.last, Content(links, cl + 1), mlen);
  }

  lemma CutBytes(before: seq<byte>, data: seq<byte>, pos: nat, cut: nat, last: nat, rest: seq<byte>, mlen: nat)
    requires pos <= cut <= last <= |data| && |before| + cut - pos == mlen
    ensures var all := before + data[pos..last] + rest;
            all[..mlen] == before + data[pos..cut] && all[mlen..] == data[cut..last] + rest
  {
    assert data[pos..last] == data[pos..cut] + data[cut..last];
    assert before + data[pos..last] + rest == (before + data[pos..cut]) + (data[cut..last] + rest);
  }

  lemma HeaderValues(s: seq<byte>)
    requires |s| >= HEADER
    ensures Value(s[1..4]) == Be24(s, 1) && Value(s[4..7]) == Be24(s, 4) && Value(s[8..11]) == Be24(s, 8)
  {
    ThreeBytes(s[1..4]);
    ThreeBytes(s[4..7]);
    ThreeBytes(s[8..11]);
  }

  lemma ThreeBytes(s: seq<byte>)
    requires |s| == 3
    ensures Value(s) == s[0] as nat * 0x1_0000 + s[1] as nat * 0x100 + s[2] as nat
  {
    assert s[..2][..1] == s[..1] && s[..1][..0] == [];
    assert Value(s[..1]) == s[0] as nat;
    assert Value(s[..2]) == s[0] as nat * 0x100 + s[1] as nat;
  }

  /** What is still to be delivered, after `done`, is what splitting the rest gives. */
  ghost predicate Remaining(s: seq<byte>, h: u32, accept: nat -> bool, before: seq<Sub>,
                            rest: seq<byte>, base: Option<u32>, n: nat, done: seq<Sub>)
  {
    var all, r := Splitting(s, None, h, 0, accept), Splitting(rest, base, h, n, accept);
    before + all.subs == done + r.subs && all.outcome == r.outcome
  }

  lemma Tail(s: seq<byte>, h: u32, accept: nat -> bool, before: seq<Sub>)
    ensures Remaining(s, h, accept, before, s, None, 0, before)
  {
  }

  /** What one round makes of the rest `s` of an aggregate. */
  ghost predicate Rounded(s: seq<byte>, base: Option<u32>, h: u32, accepted: bool, now: seq<Sub>, before: seq<Sub>,
                          end: Option<Outcome>, rest: seq<byte>, base': u32)
  {
    if |s| == 0 then now == before && end == Some(Finished)
    else if |s| < HEADER || |s| - HEADER <= Be24(s, 1) then now == before && end == Some(Malformed)
    else
      var k := HEADER + Be24(s, 1);
      && base' == BaseOf(s, base) && now == before + [First(s, base', h)]
      && (if !accepted then end == Some(Refused)
          else if |s| - k < BACK_POINTER then end == Some(Finished)
          else end.None? && rest == s[k..][BACK_POINTER..])
  }

  lemma RoundSplits(s: seq<byte>, base: Option<u32>, h: u32, n: nat, accept: nat -> bool, now: seq<Sub>,
                    before: seq<Sub>, end: Option<Outcome>, rest: seq<byte>, base': u32)
    requires Rounded(s, base, h, accept(n), now, before, end, rest, base')
    ensures var r := Splitting(s, base, h, n, accept);
            if end.Some? then now == before + r.subs && end.value == r.outcome
            else
              var r' := Splitting(rest, Some(base'), h, n + 1, accept);
              |rest| < |s| && before + r.subs == now + r'.subs && r.outcome == r'.outcome
  {
    hide Be24, TimeAt, First, BaseOf;
    if end.None? {
      var r' := Splitting(rest, Some(base'), h, n + 1, accept);
      var sub := First(s, base', h);
      assert before + ([sub] + r'.subs) == (before + [sub]) + r'.subs;
    }
  }
}
