/** One session's output queue over the shared store: what it still has to send, and what other steps leave alone. */
module OutputSession {
  import opened Bytes
  import opened Pointers
  import opened SharedStore
  import opened OutputQueue

  /** out, out_pos, out_last, out_chain and out_bpos of a session. */
  datatype Session = Session(out: seq<nat>, pos: nat, last: nat, chain: Ptr, bpos: nat)

  ghost function Heads(q: nat, s: Session): seq<nat>
    requires |s.out| == q && s.pos < q && s.last < q
  {
    Queued(q, s.out, s.pos, s.last)
  }

  /** The link being sent has something left, unless it holds nothing at all. */
  predicate Ready(l: Link, bpos: nat) {
    l.pos <= bpos <= l.last <= |l.data| && (bpos < l.last || l.pos == l.last)
  }

  /** The queued chains are live; the link being sent is link `k` of the first. */
  ghost predicate SessionOk(st: Store, q: nat, s: Session, k: nat) {
    && |s.out| == q && s.pos < q && s.last < q
    && (forall i :: 0 <= i < |Heads(q, s)| ==> Heads(q, s)[i] in st.live)
    && (s.chain != Null ==>
          && |Heads(q, s)| > 0
          && var links := st.live[Heads(q, s)[0]];
             && k < |links| && s.chain == At(links[k]) && links[k] < |st.mem|
             && Ready(st.mem[links[k]], s.bpos))
  }

  /** What is left of the link being sent. */
  ghost function LinkRest(st: Store, s: Session): seq<byte>
    requires s.chain != Null && s.chain.addr < |st.mem| && Ready(st.mem[s.chain.addr], s.bpos)
  {
    st.mem[s.chain.addr].data[s.bpos..st.mem[s.chain.addr].last]
  }

  ghost function AllBytes(st: Store, hs: seq<nat>): seq<byte> {
    if hs == [] then [] else
    (if hs[0] in st.live then ChainBytes(st.mem, st.live[hs[0]]) else []) + AllBytes(st, hs[1..])
  }

  /** The bytes still to be sent: the rest of the link being sent, of its chain, and the chains queued after it. */
  ghost function Rest(st: Store, q: nat, s: Session, k: nat): seq<byte>
    requires SessionOk(st, q, s, k)
  {
    var hs := Heads(q, s);
    if s.chain == Null then AllBytes(st, hs)
    else
      LinkRest(st, s) + Flatten(Parts(st.mem, st.live[hs[0]])[k + 1..]) + AllBytes(st, hs[1..])
  }

  lemma PartsKept(st: Store, st': Store, g: nat)
    requires st.Keeps(st', g)
    ensures Parts(st'.mem, st'.live[g]) == Parts(st.mem, st.live[g])
    ensures forall i :: 0 <= i < |st.live[g]| ==>
      st'.mem[st.live[g][i]].(ref := 0) == st.mem[st.live[g][i]].(ref := 0)
  {
    var links := st.live[g];
    forall i | 0 <= i < |links| ensures st'.mem[links[i]].Held() == st.mem[links[i]].Held() {
      var l, l' := st.mem[links[i]], st'.mem[links[i]];
      assert l'.(ref := 0).Held() == l'.Held() && l.(ref := 0).Held() == l.Held();
    }
  }

  lemma {:induction false} AllBytesKept(st: Store, st': Store, hs: seq<nat>)
    requires forall i :: 0 <= i < |hs| ==> st.Keeps(st', hs[i])
    ensures AllBytes(st', hs) == AllBytes(st, hs)
  {
    if hs != [] {
      PartsKept(st, st', hs[0]);
      KeepsLive(st, st', hs[0]);
      AllBytesKept(st, st', hs[1..]);
    }
  }

  /** A step that keeps the chains a session has queued keeps what it still has to send. */
  lemma SessionKept(st: Store, st': Store, q: nat, s: Session, k: nat)
    requires SessionOk(st, q, s, k)
    requires forall i :: 0 <= i < |Heads(q, s)| ==> st.Keeps(st', Heads(q, s)[i])
    ensures SessionOk(st', q, s, k) && Rest(st', q, s, k) == Rest(st, q, s, k)
  {
    hide Queued, Store.Keeps, Parts, ChainBytes;
    var hs := Heads(q, s);
    forall i | 0 <= i < |hs| ensures hs[i] in st'.live && hs[i] in st.live && st'.live[hs[i]] == st.live[hs[i]] {
      KeepsLive(st, st', hs[i]);
    }
    AllBytesKept(st, st', hs);
    if s.chain != Null {
      AllBytesKept(st, st', hs[1..]);
      PartsKept(st, st', hs[0]);
      KeepsLive(st, st', hs[0]);
      var a := s.chain.addr;
      assert a == st.live[hs[0]][k];
      var l, l' := st.mem[a], st'.mem[a];
      assert l'.(ref := 0).data == l'.data && l'.(ref := 0).pos == l'.pos && l'.(ref := 0).last == l'.last;
      assert l.(ref := 0).data == l.data && l.(ref := 0).pos == l.pos && l.(ref := 0).last == l.last;
    }
  }

  lemma KeepsLive(st: Store, st': Store, g: nat)
    requires st.Keeps(st', g)
    ensures g in st.live && g in st'.live && st'.live[g] == st.live[g]
    ensures forall i :: 0 <= i < |st.live[g]| ==> st.live[g][i] < |st.mem| && st.live[g][i] < |st'.mem|
  {
  }

  lemma {:induction false} AllBytesAppend(st: Store, a: seq<nat>, b: seq<nat>)
    ensures AllBytes(st, a + b) == AllBytes(st, a) + AllBytes(st, b)
  {
    if a == [] {
      assert a + b == b;
    } else {
      assert (a + b)[1..] == a[1..] + b;
      AllBytesAppend(st, a[1..], b);
    }
  }

  lemma FlattenAt(ps: seq<seq<byte>>, k: nat)
    requires k < |ps|
    ensures Flatten(ps[k..]) == ps[k] + Flatten(ps[k + 1..])
  {
    assert ps[k..][0] == ps[k] && ps[k..][1..] == ps[k + 1..];
  }

  /** Starting on the oldest queued message. */
  lemma Started(st: Store, size: nat, q: nat, s: Session, k: nat)
    requires st.Ok(size) && SessionOk(st, q, s, k) && s.chain == Null && |Heads(q, s)| > 0
    ensures Heads(q, s)[0] < |st.mem|
    ensures var h := Heads(q, s)[0]; var s' := s.(chain := At(h), bpos := st.mem[h].pos);
            SessionOk(st, q, s', 0) && Rest(st, q, s', 0) == Rest(st, q, s, k)
  {
    hide Store.Placed, Store.Chained, Store.Counted, Queued, Chain, Parts;
    var h := Heads(q, s)[0];
    st.OkParts(size);
    st.ChainOf(h);
    var links := st.live[h];
    var ps := Parts(st.mem, links);
    PartIs(st, size, links, 0);
    FlattenAt(ps, 0);
    assert ps[0..] == ps;
    var rest := AllBytes(st, Heads(q, s)[1..]);
    assert (ps[0] + Flatten(ps[1..])) + rest == ps[0] + Flatten(ps[1..]) + rest;
  }

  lemma PartIs(st: Store, size: nat, links: seq<nat>, k: nat)
    requires k < |links| && st.Ok(size) && links[k] < |st.mem|
    ensures Parts(st.mem, links)[k] == st.mem[links[k]].data[st.mem[links[k]].pos..st.mem[links[k]].last]
    ensures st.mem[links[k]].Sane(size)
  {
  }

  /** The socket took `n` bytes, and not all of the link. */
  lemma Advanced(st: Store, q: nat, s: Session, k: nat, n: nat)
    requires SessionOk(st, q, s, k) && s.chain != Null && s.bpos + n < st.mem[s.chain.addr].last
    ensures var s' := s.(bpos := s.bpos + n); var l := st.mem[s.chain.addr];
            SessionOk(st, q, s', k) && Rest(st, q, s, k) == l.data[s.bpos..s.bpos + n] + Rest(st, q, s', k)
  {
    hide Queued, Parts;
    var l := st.mem[s.chain.addr];
    var a, b := l.data[s.bpos..s.bpos + n], l.data[s.bpos + n..l.last];
    var c, d := Flatten(Parts(st.mem, st.live[Heads(q, s)[0]])[k + 1..]), AllBytes(st, Heads(q, s)[1..]);
    assert l.data[s.bpos..l.last] == a + b;
    assert (a + b) + c + d == a + (b + c + d);
  }

  lemma NextIs(mem: seq<Link>, links: seq<nat>, k: nat)
    requires Chain(mem, links) && k < |links|
    ensures links[k] < |mem| && mem[links[k]].next == NextOf(links, k)
  {
  }

  /** The rest of a link is sent and its chain has another. */
  lemma NextLink(st: Store, size: nat, q: nat, s: Session, k: nat)
    requires st.Ok(size) && SessionOk(st, q, s, k) && s.chain != Null
    ensures var links := st.live[Heads(q, s)[0]];
            && st.mem[s.chain.addr].next == NextOf(links, k)
            && (k + 1 < |links| ==>
                  links[k + 1] < |st.mem| &&
                  var s' := s.(chain := At(links[k + 1]), bpos := st.mem[links[k + 1]].pos);
                  SessionOk(st, q, s', k + 1) && Rest(st, q, s, k) == LinkRest(st, s) + Rest(st, q, s', k + 1))
  {
    hide Store.Placed, Store.Chained, Store.Counted, Store.Ok, Queued, Chain, Parts, Flatten, AllBytes;
    var links := st.live[Heads(q, s)[0]];
    st.OkParts(size);
    st.ChainOf(Heads(q, s)[0]);
    NextIs(st.mem, links, k);
    if k + 1 < |links| {
      var ps := Parts(st.mem, links);
      PartIs(st, size, links, k + 1);
      FlattenAt(ps, k + 1);
      var rest, more := AllBytes(st, Heads(q, s)[1..]), Flatten(ps[k + 2..]);
      assert LinkRest(st, s) + (ps[k + 1] + more) + rest == LinkRest(st, s) + (ps[k + 1] + more + rest);
    }
  }

  /** The rest of a message is sent: the next one is up. */
  lemma LastLink(st: Store, q: nat, s: Session, k: nat)
    requires SessionOk(st, q, s, k) && s.chain != Null
    requires k + 1 == |st.live[Heads(q, s)[0]]|
    ensures s.pos != s.last && (s.pos + 1) % q < q
    ensures var s' := s.(chain := Null, pos := (s.pos + 1) % q);
            && SessionOk(st, q, s', 0) && Rest(st, q, s, k) == LinkRest(st, s) + Rest(st, q, s', 0)
            && Heads(q, s) == [s.out[s.pos]] + Heads(q, s') && (s'.pos == s'.last <==> Heads(q, s') == [])
  {
    hide Queued, Parts;
    Pop(q, s.out, s.pos, s.last);
    var s' := s.(chain := Null, pos := (s.pos + 1) % q);
    assert Heads(q, s)[1..] == Heads(q, s');
    forall i | 0 <= i < |Heads(q, s')| ensures Heads(q, s')[i] in st.live {
      assert Heads(q, s')[i] == Heads(q, s)[i + 1];
    }
    assert Parts(st.mem, st.live[Heads(q, s)[0]])[k + 1..] == [];
    assert LinkRest(st, s) + [] == LinkRest(st, s);
  }

  /** The slots that are to stay free for messages of a higher priority, and the one that always does. */
  predicate Share(q: nat, s: Session, prio: nat)
    requires s.pos < q && s.last < q
  {
    Count(q, s.pos, s.last) + Spare(q, prio) < q
  }

  function Enqueued(q: nat, s: Session, h: nat): (s': Session)
    requires |s.out| == q && s.pos < q && s.last < q
    ensures |s'.out| == q && s'.pos < q && s'.last < q
  {
    s.(out := s.out[s.last := h], last := (s.last + 1) % q)
  }

  /** A message is queued. */
  lemma Pushed(st: Store, q: nat, s: Session, k: nat, h: nat, prio: nat)
    requires SessionOk(st, q, s, k) && h in st.live
    requires SIZE_T % q == 0 && q <= SIZE_T && Accepts(q, s.pos, s.last, prio)
    ensures var s' := Enqueued(q, s, h);
            && SessionOk(st, q, s', k) && Rest(st, q, s', k) == Rest(st, q, s, k) + ChainBytes(st.mem, st.live[h])
            && Heads(q, s') == Heads(q, s) + [h] && Share(q, s', prio)
  {
    hide Queued, Parts, ChainBytes, Count;
    Push(q, s.out, s.pos, s.last, prio, h);
    var s' := Enqueued(q, s, h);
    var hs := Heads(q, s);
    AllBytesAppend(st, hs, [h]);
    assert AllBytes(st, [h]) == ChainBytes(st.mem, st.live[h]) + [];
    forall i | 0 <= i < |Heads(q, s')| ensures Heads(q, s')[i] in st.live {
      assert Heads(q, s')[i] == if i < |hs| then hs[i] else h;
    }
    if s.chain != Null {
      assert Heads(q, s')[1..] == hs[1..] + [h] && Heads(q, s')[0] == hs[0];
      AllBytesAppend(st, hs[1..], [h]);
    }
  }

  // ----- links without bytes -----

  /** Every link of chain `h` from the `k`-th on holds something. */
  ghost predicate NoEmptyFrom(st: Store, h: nat, k: nat) {
    h in st.live && forall j :: k <= j < |st.live[h]| ==>
      st.live[h][j] < |st.mem| && st.mem[st.live[h][j]].pos < st.mem[st.live[h][j]].last
  }

  ghost predicate NoEmpty(st: Store, h: nat) {
    NoEmptyFrom(st, h, 0)
  }

  /** The link of its `i`-th message that the session is to send first. */
  function FirstAhead(s: Session, k: nat, i: nat): nat {
    if i == 0 && s.chain != Null then k else 0
  }

  /** Every link that the session has still to send, from link `k` of its oldest message on, holds something. */
  ghost predicate NoneEmpty(st: Store, q: nat, s: Session, k: nat)
    requires |s.out| == q && s.pos < q && s.last < q
  {
    forall i :: 0 <= i < |Heads(q, s)| ==> NoEmptyFrom(st, Heads(q, s)[i], FirstAhead(s, k, i))
  }

  lemma KeepsNoEmpty(st: Store, st': Store, h: nat, k: nat)
    requires st.Keeps(st', h)
    ensures NoEmptyFrom(st, h, k) <==> NoEmptyFrom(st', h, k)
  {
    forall j | 0 <= j < |st.live[h]|
      ensures st'.mem[st.live[h][j]].pos == st.mem[st.live[h][j]].pos
      ensures st'.mem[st.live[h][j]].last == st.mem[st.live[h][j]].last
    {
      var l, l' := st.mem[st.live[h][j]], st'.mem[st.live[h][j]];
      assert l'.(ref := 0).pos == l'.pos && l'.(ref := 0).last == l'.last;
      assert l.(ref := 0).pos == l.pos && l.(ref := 0).last == l.last;
    }
  }

  /** In a queue without empty links the link being sent has something left. */
  lemma NoneEmptyIsLeft(st: Store, q: nat, s: Session, k: nat)
    requires SessionOk(st, q, s, k) && NoneEmpty(st, q, s, k) && s.chain != Null
    ensures s.bpos < st.mem[s.chain.addr].last
  {
    hide Queued;
    assert NoEmptyFrom(st, Heads(q, s)[0], FirstAhead(s, k, 0));
  }

  lemma NoEmptyNext(st: Store, h: nat, k: nat)
    requires h in st.live && k < |st.live[h]| && st.live[h][k] < |st.mem|
    requires st.mem[st.live[h][k]].pos < st.mem[st.live[h][k]].last
    ensures NoEmptyFrom(st, h, k) <==> NoEmptyFrom(st, h, k + 1)
  {
    if NoEmptyFrom(st, h, k + 1) {
      forall j | k <= j < |st.live[h]|
        ensures st.live[h][j] < |st.mem| && st.mem[st.live[h][j]].pos < st.mem[st.live[h][j]].last
      {
        assert j == k || k + 1 <= j;
      }
    }
  }

  /** A link that has been sent held something, so it does not matter to what lies ahead. */
  lemma AheadNext(st: Store, q: nat, s: Session, s': Session, k: nat)
    requires SessionOk(st, q, s, k) && s.chain != Null && s.bpos < st.mem[s.chain.addr].last
    requires s' == s.(chain := s'.chain, bpos := s'.bpos) && s'.chain != Null
    ensures NoneEmpty(st, q, s, k) <==> NoneEmpty(st, q, s', k + 1)
  {
    hide Queued, NoEmptyFrom;
    var hs := Heads(q, s);
    assert Heads(q, s') == hs;
    NoEmptyNext(st, hs[0], k);
    forall i | 0 <= i < |hs|
      ensures NoEmptyFrom(st, hs[i], FirstAhead(s, k, i)) <==> NoEmptyFrom(st, hs[i], FirstAhead(s', k + 1, i))
    {
      if i == 0 {
        assert FirstAhead(s, k, i) == k && FirstAhead(s', k + 1, i) == k + 1;
      } else {
        assert FirstAhead(s, k, i) == FirstAhead(s', k + 1, i);
      }
    }
  }

  /** The same for the last link of a message. */
  lemma AheadPopped(st: Store, st': Store, q: nat, s: Session, s': Session, k: nat)
    requires SessionOk(st, q, s, k) && s.chain != Null && s.bpos < st.mem[s.chain.addr].last
    requires k + 1 == |st.live[Heads(q, s)[0]]|
    requires |s'.out| == q && s'.pos < q && s'.last < q && s'.chain == Null
    requires Heads(q, s) == [Heads(q, s)[0]] + Heads(q, s')
    requires forall i :: 0 <= i < |Heads(q, s')| ==> st.Keeps(st', Heads(q, s')[i])
    ensures NoneEmpty(st, q, s, k) <==> NoneEmpty(st', q, s', 0)
  {
    hide Queued, Store.Keeps;
    var hs, hs' := Heads(q, s), Heads(q, s');
    assert NoEmptyFrom(st, hs[0], k);
    forall i | 0 <= i < |hs'|
      ensures hs[i + 1] == hs'[i] && FirstAhead(s, k, i + 1) == FirstAhead(s', 0, i) == 0
      ensures NoEmptyFrom(st, hs[i + 1], 0) <==> NoEmptyFrom(st', hs'[i], 0)
    {
      KeepsNoEmpty(st, st', hs'[i], 0);
    }
    if NoneEmpty(st', q, s', 0) {
      forall i | 0 <= i < |hs| ensures NoEmptyFrom(st, hs[i], FirstAhead(s, k, i)) {
        if i > 0 {
          assert NoEmptyFrom(st', hs'[i - 1], FirstAhead(s', 0, i - 1));
        }
      }
    } else {
      var i :| 0 <= i < |hs'| && !NoEmptyFrom(st', hs'[i], FirstAhead(s', 0, i));
      assert !NoEmptyFrom(st, hs[i + 1], FirstAhead(s, k, i + 1));
    }
  }

  /** A message with and without empty links is queued. */
  lemma AheadPushed(st: Store, st': Store, q: nat, s: Session, k: nat, h: nat)
    requires |s.out| == q && s.pos < q && s.last < q && (s.chain != Null ==> |Heads(q, s)| > 0)
    requires Heads(q, Enqueued(q, s, h)) == Heads(q, s) + [h]
    requires forall i :: 0 <= i < |Heads(q, s)| ==> st.Keeps(st', Heads(q, s)[i])
    requires st.Keeps(st', h)
    ensures NoneEmpty(st', q, Enqueued(q, s, h), k) <==> NoneEmpty(st, q, s, k) && NoEmpty(st, h)
  {
    hide Queued, Store.Keeps;
    var s' := Enqueued(q, s, h);
    var hs, hs' := Heads(q, s), Heads(q, s');
    forall i | 0 <= i < |hs'|
      ensures FirstAhead(s', k, i) == (if i < |hs| then FirstAhead(s, k, i) else 0)
      ensures hs'[i] == (if i < |hs| then hs[i] else h)
      ensures NoEmptyFrom(st', hs'[i], FirstAhead(s', k, i)) <==> NoEmptyFrom(st, hs'[i], FirstAhead(s', k, i))
    {
      KeepsNoEmpty(st, st', hs'[i], FirstAhead(s', k, i));
    }
    if NoneEmpty(st', q, s', k) {
      assert NoEmptyFrom(st', hs'[|hs|], FirstAhead(s', k, |hs|));
      forall i | 0 <= i < |hs| ensures NoEmptyFrom(st, hs[i], FirstAhead(s, k, i)) {
        assert NoEmptyFrom(st', hs'[i], FirstAhead(s', k, i));
      }
    } else {
      var i :| 0 <= i < |hs'| && !NoEmptyFrom(st', hs'[i], FirstAhead(s', k, i));
      if i < |hs| {
        assert !NoEmptyFrom(st, hs[i], FirstAhead(s, k, i));
      }
    }
  }
}
