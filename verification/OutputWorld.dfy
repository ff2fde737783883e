/**
 Every session's queue over one shared store. In each state reached, a chain's count is the number of references its
 makers keep plus the queue slots of all sessions that hold it, and each session has sent, in order, exactly what it
 accepted up to what it still holds.
 */
module OutputWorld {
  import opened Bytes
  import opened Pointers
  import opened SharedStore
  import opened OutputQueue
  import opened OutputSession

  ghost predicate Shaped(q: nat, s: Session) {
    |s.out| == q && s.pos < q && s.last < q
  }

  /** The queue slots of all sessions that hold each chain. */
  ghost function Slots(q: nat, ss: seq<Session>): multiset<nat> {
    if ss == [] then multiset{} else
    Slots(q, ss[1..]) + (if Shaped(q, ss[0]) then multiset(Heads(q, ss[0])) else multiset{})
  }

  lemma {:induction false} SlotsUpdate(q: nat, ss: seq<Session>, i: nat, s: Session)
    requires i < |ss| && Shaped(q, ss[i]) && Shaped(q, s)
    ensures Slots(q, ss[i := s]) + multiset(Heads(q, ss[i])) == Slots(q, ss) + multiset(Heads(q, s))
  {
    if i == 0 {
      assert ss[0 := s][1..] == ss[1..];
    } else {
      assert ss[i := s][1..] == ss[1..][i - 1 := s] && ss[1..][i - 1] == ss[i] && ss[i := s][0] == ss[0];
      SlotsUpdate(q, ss[1..], i - 1, s);
      var h0 := if Shaped(q, ss[0]) then multiset(Heads(q, ss[0])) else multiset{};
      Rearrange(Slots(q, ss[1..][i - 1 := s]), Slots(q, ss[1..]), multiset(Heads(q, ss[i])), multiset(Heads(q, s)), h0);
    }
  }

  lemma Rearrange(a: multiset<nat>, b: multiset<nat>, x: multiset<nat>, y: multiset<nat>, c: multiset<nat>)
    requires a + x == b + y
    ensures (a + c) + x == (b + c) + y
  {
    assert (a + c) + x == (a + x) + c && (b + c) + y == (b + y) + c;
  }

  lemma Cancel(a: multiset<nat>, b: multiset<nat>, x: multiset<nat>)
    requires a + x == b + x
    ensures a == b
  {
    forall e ensures a[e] == b[e] {
      assert (a + x)[e] == (b + x)[e];
    }
  }

  lemma {:induction false} SlotsCover(q: nat, ss: seq<Session>, i: nat, k: nat)
    requires i < |ss| && Shaped(q, ss[i]) && k < |Heads(q, ss[i])|
    ensures Slots(q, ss)[Heads(q, ss[i])[k]] > 0
  {
    if i == 0 {
      assert Heads(q, ss[0])[k] in multiset(Heads(q, ss[0]));
    } else {
      assert ss[1..][i - 1] == ss[i];
      SlotsCover(q, ss[1..], i - 1, k);
    }
  }

  lemma {:induction false} SlotsAtLeast(q: nat, ss: seq<Session>, i: nat)
    requires i < |ss| && Shaped(q, ss[i])
    ensures multiset(Heads(q, ss[i])) <= Slots(q, ss)
  {
    if i > 0 {
      assert ss[1..][i - 1] == ss[i];
      SlotsAtLeast(q, ss[1..], i - 1);
    }
  }

  /** ngx_rtmp_free_shared_chain: one reference less, and the chain goes to the free list with the last. */
  ghost function Put(st: Store, h: nat): Store {
    if st.held[h] > 1 && h < |st.mem| && st.mem[h].ref > 0 then st.Dropped(h)
    else if h in st.live && |st.live[h]| > 0 && h < |st.mem| && st.Tail(h) < |st.mem| == |st.owner| then st.Freed(h)
    else st
  }

  lemma PutOk(st: Store, size: nat, h: nat)
    requires st.Ok(size) && h in st.held
    ensures Put(st, h).Ok(size) && Put(st, h).held == st.held - multiset{h}
    ensures forall g :: g in st.held - multiset{h} ==> st.Keeps(Put(st, h), g)
  {
    hide Store.Placed, Store.Chained, Store.Keeps;
    assert forall g :: g in st.held ==> g in st.live;
    if st.held[h] > 1 {
      st.DroppedOk(size, h);
    } else {
      st.FreedOk(size, h);
    }
  }

  datatype World = World(st: Store, sessions: seq<Session>, steps: seq<nat>, owned: multiset<nat>,
                         accepted: seq<seq<seq<byte>>>, taken: seq<seq<byte>>)
  {
    ghost predicate SessionGood(q: nat, i: nat)
      requires i < |sessions| == |steps| == |accepted| == |taken|
    {
      && SessionOk(st, q, sessions[i], steps[i])
      && taken[i] + Rest(st, q, sessions[i], steps[i]) == Flatten(accepted[i])
    }

    ghost predicate Ok(size: nat, q: nat) {
      && q > 0 && SIZE_T % q == 0 && q <= SIZE_T
      && st.Ok(size) && st.held == owned + Slots(q, sessions)
      && |sessions| == |steps| == |accepted| == |taken|
      && forall i :: 0 <= i < |sessions| ==> SessionGood(q, i)
    }

    /** A step of the store that keeps every queued chain, and accounts for its references. */
    ghost function Moved(st': Store, owned': multiset<nat>): World {
      this.(st := st', owned := owned')
    }

    lemma MovedOk(size: nat, q: nat, st': Store, owned': multiset<nat>)
      requires Ok(size, q) && st'.Ok(size) && st'.held == owned' + Slots(q, sessions)
      requires forall g :: g in Slots(q, sessions) ==> st.Keeps(st', g)
      ensures Moved(st', owned').Ok(size, q)
    {
      hide Store.Ok, Store.Keeps, SessionOk, Rest, Slots, Flatten;
      var w := Moved(st', owned');
      forall i | 0 <= i < |sessions| ensures w.SessionGood(q, i) {
        assert SessionGood(q, i);
        SessionKeptBy(q, i, st');
      }
    }

    lemma SessionKeptBy(q: nat, i: nat, st': Store)
      requires i < |sessions| == |steps| && SessionOk(st, q, sessions[i], steps[i])
      requires forall g :: g in Slots(q, sessions) ==> st.Keeps(st', g)
      ensures SessionOk(st', q, sessions[i], steps[i])
      ensures Rest(st', q, sessions[i], steps[i]) == Rest(st, q, sessions[i], steps[i])
    {
      hide Store.Keeps, Rest, Slots;
      forall k | 0 <= k < |Heads(q, sessions[i])| ensures st.Keeps(st', Heads(q, sessions[i])[k]) {
        SlotsCover(q, sessions, i, k);
      }
      SessionKept(st, st', q, sessions[i], steps[i]);
    }

    /** Session `i` takes a step on its own that queues and frees nothing. */
    ghost function Stepped(i: nat, s: Session, k: nat, sent: seq<byte>): World
      requires i < |sessions| == |steps| == |taken|
    {
      this.(sessions := sessions[i := s], steps := steps[i := k], taken := taken[i := taken[i] + sent])
    }

    lemma SteppedOk(size: nat, q: nat, i: nat, s: Session, k: nat, sent: seq<byte>)
      requires Ok(size, q) && i < |sessions|
      requires SessionOk(st, q, s, k) && SessionOk(st, q, sessions[i], steps[i])
      requires Heads(q, s) == Heads(q, sessions[i])
      requires Rest(st, q, sessions[i], steps[i]) == sent + Rest(st, q, s, k)
      ensures Stepped(i, s, k, sent).Ok(size, q)
    {
      hide Store.Ok, Slots, Rest, Flatten;
      var w := Stepped(i, s, k, sent);
      SlotsUpdate(q, sessions, i, s);
      Cancel(Slots(q, w.sessions), Slots(q, sessions), multiset(Heads(q, s)));
      forall j | 0 <= j < |sessions| ensures w.SessionGood(q, j) {
        assert SessionGood(q, j);
        if j == i {
          assert (taken[i] + sent) + Rest(st, q, s, k) == taken[i] + (sent + Rest(st, q, s, k));
        }
      }
    }

    /** Session `i` queues chain `h` as message number |accepted[i]|. */
    ghost function Sent(q: nat, i: nat, h: nat): World
      requires i < |sessions| == |accepted| && Shaped(q, sessions[i])
      requires h in st.live && h < |st.mem|
    {
      this.(st := st.Acquired(h), sessions := sessions[i := Enqueued(q, sessions[i], h)],
            accepted := accepted[i := accepted[i] + [ChainBytes(st.mem, st.live[h])]])
    }

    /** A chain somebody holds is live. */
    lemma HeldLive(size: nat, q: nat, h: nat)
      requires Ok(size, q) && (h in owned || h in Slots(q, sessions))
      ensures h in st.held && h in st.live && h < |st.mem| && |st.live[h]| > 0
    {
      hide Slots;
      assert h in st.held;
      st.ChainOf(h);
    }

    lemma SentOk(size: nat, q: nat, i: nat, h: nat, prio: nat)
      requires Ok(size, q) && i < |sessions| && h in owned
      requires SessionOk(st, q, sessions[i], steps[i]) && Accepts(q, sessions[i].pos, sessions[i].last, prio)
      ensures h in st.live && h < |st.mem| && Sent(q, i, h).Ok(size, q) && Share(q, Sent(q, i, h).sessions[i], prio)
      ensures Heads(q, Sent(q, i, h).sessions[i]) == Heads(q, sessions[i]) + [h]
    {
      hide Store.Ok, Store.Keeps, Slots, Rest, ChainBytes, Queued, SessionOk, Store.Acquired, Enqueued, Share, Flatten;
      HeldLive(size, q, h);
      st.AcquiredOk(size, h);
      AcquiredHeld(h);
      IsShaped(st, q, sessions[i], steps[i]);
      var st', w := st.Acquired(h), Sent(q, i, h);
      forall g | g in Slots(q, sessions) ensures st.Keeps(st', g) {
        HeldLive(size, q, g);
      }
      assert SessionGood(q, i);
      SessionKeptBy(q, i, st');
      SentSession(st, st', q, sessions[i], steps[i], h, prio);
      Extends(taken[i], Rest(st, q, sessions[i], steps[i]), accepted[i], ChainBytes(st.mem, st.live[h]));
      SlotsUpdate(q, sessions, i, w.sessions[i]);
      SlotsPush(Slots(q, w.sessions), Slots(q, sessions), Heads(q, sessions[i]), h);
      forall j | 0 <= j < |sessions| ensures w.SessionGood(q, j) {
        assert SessionGood(q, j);
        if j != i {
          SessionKeptBy(q, j, st');
        }
      }
    }

    lemma Basics(size: nat, q: nat, i: nat, h: nat)
      requires Ok(size, q) && i < |sessions| && h in owned
      ensures SessionOk(st, q, sessions[i], steps[i]) && Shaped(q, sessions[i])
      ensures |sessions| == |steps| == |accepted| == |taken| && q > 0 && SIZE_T % q == 0 && q <= SIZE_T
      ensures h in st.live && h < |st.mem|
    {
      assert SessionGood(q, i);
      HeldLive(size, q, h);
    }

    lemma SentBytes(size: nat, q: nat, i: nat, h: nat)
      requires Ok(size, q) && i < |sessions| && Shaped(q, sessions[i]) && h in st.live && h < |st.mem|
      ensures ChainBytes(st.Acquired(h).mem, st.live[h]) == ChainBytes(st.mem, st.live[h])
    {
      hide Parts, Slots, Store.Ok, Store.Counted, Flatten;
      st.OkParts(size);
      st.AcquiredOk(size, h);
      PartsKept(st, st.Acquired(h), h);
    }

    lemma Lengths(size: nat, q: nat)
      requires Ok(size, q)
      ensures |sessions| == |steps| == |accepted| == |taken|
    {
    }

    /** Session `i` is in the middle of a link. */
    ghost predicate InLink(i: nat)
      requires i < |sessions|
    {
      && sessions[i].chain != Null && sessions[i].chain.addr < |st.mem|
      && Ready(st.mem[sessions[i].chain.addr], sessions[i].bpos)
    }

    lemma Something(size: nat, q: nat, i: nat)
      requires Ok(size, q) && i < |sessions| && sessions[i].chain != Null
      ensures Shaped(q, sessions[i]) && InLink(i) && |sessions| == |steps|
      ensures NoneEmpty(st, q, sessions[i], steps[i]) ==> sessions[i].bpos < st.mem[sessions[i].chain.addr].last
    {
      hide NoneEmpty;
      assert SessionGood(q, i);
      if NoneEmpty(st, q, sessions[i], steps[i]) {
        NoneEmptyIsLeft(st, q, sessions[i], steps[i]);
      }
    }

    lemma Beginning(size: nat, q: nat, i: nat)
      requires Ok(size, q) && i < |sessions| && sessions[i].chain == Null && sessions[i].pos != sessions[i].last
      ensures Shaped(q, sessions[i]) && |sessions| == |steps| == |accepted| == |taken|
      ensures var s := sessions[i]; s.out[s.pos] < |st.mem|
      ensures var s := sessions[i]; var h := s.out[s.pos];
              Stepped(i, s.(chain := At(h), bpos := st.mem[h].pos), 0, []).Ok(size, q)
    {
      hide Store.Ok, Slots, Rest;
      assert SessionGood(q, i);
      var s := sessions[i];
      Pop(q, s.out, s.pos, s.last);
      Started(st, size, q, s, steps[i]);
      var s' := s.(chain := At(s.out[s.pos]), bpos := st.mem[s.out[s.pos]].pos);
      assert Heads(q, s') == Heads(q, s);
      assert Rest(st, q, s, steps[i]) == [] + Rest(st, q, s', 0);
      SteppedOk(size, q, i, s', 0, []);
    }

    lemma Taking(size: nat, q: nat, i: nat, n: nat)
      requires Ok(size, q) && i < |sessions| && InLink(i)
      requires n < st.mem[sessions[i].chain.addr].last - sessions[i].bpos
      ensures |sessions| == |steps| == |accepted| == |taken|
      ensures var s := sessions[i]; var l := st.mem[s.chain.addr];
              && s.bpos + n <= |l.data|
              && Stepped(i, s.(bpos := s.bpos + n), steps[i], l.data[s.bpos..s.bpos + n]).Ok(size, q)
    {
      hide Store.Ok, Slots, Rest;
      assert SessionGood(q, i);
      var s := sessions[i];
      Advanced(st, q, s, steps[i], n);
      var s' := s.(bpos := s.bpos + n);
      assert Heads(q, s') == Heads(q, s);
      SteppedOk(size, q, i, s', steps[i], st.mem[s.chain.addr].data[s.bpos..s.bpos + n]);
    }

    /** The socket took the rest of the link: the next link is up, or the message is done. */
    lemma LinkEnds(size: nat, q: nat, i: nat)
      requires Ok(size, q) && i < |sessions| && InLink(i)
      ensures |sessions| == |steps| == |accepted| == |taken| && Shaped(q, sessions[i]) && st.Ok(size)
      ensures var s := sessions[i]; var next := st.mem[s.chain.addr].next; var rest := LinkRest(st, s);
              if next == Null then
                var s' := s.(chain := Null, pos := (s.pos + 1) % q);
                && s.out[s.pos] in st.held && Shaped(q, s') && Heads(q, s) == [s.out[s.pos]] + Heads(q, s')
                && Popped(i, s.out[s.pos], s', accepted[i], rest).Ok(size, q)
              else
                && next.addr < |st.mem|
                && Stepped(i, s.(chain := next, bpos := st.mem[next.addr].pos), steps[i] + 1, rest).Ok(size, q)
    {
      hide Store.Ok, Slots, Rest, Put, LinkRest;
      assert SessionGood(q, i);
      var s := sessions[i];
      NextLink(st, size, q, s, steps[i]);
      var links := st.live[Heads(q, s)[0]];
      if steps[i] + 1 < |links| {
        var s' := s.(chain := At(links[steps[i] + 1]), bpos := st.mem[links[steps[i] + 1]].pos);
        assert Heads(q, s') == Heads(q, s);
        SteppedOk(size, q, i, s', steps[i] + 1, LinkRest(st, s));
      } else {
        LastLink(st, q, s, steps[i]);
        PoppedOk(size, q, i, s.out[s.pos], s.(chain := Null, pos := (s.pos + 1) % q), accepted[i], LinkRest(st, s));
      }
    }

    lemma StoreOk(size: nat, q: nat)
      requires Ok(size, q)
      ensures st.Ok(size)
    {
    }

    /** What session `i` has taken and, were it to go on, would still take. */
    ghost function Cut(q: nat, i: nat): seq<seq<byte>>
      requires i < |sessions| == |taken| && Shaped(q, sessions[i])
    {
      [taken[i] + AllBytes(st, Heads(q, sessions[i]))]
    }

    /** Session `i` forgets how far it is in its oldest message. */
    ghost function Abandoned(q: nat, i: nat): World
      requires i < |sessions| == |taken| == |accepted| && Shaped(q, sessions[i])
    {
      this.(sessions := sessions[i := sessions[i].(chain := Null)], accepted := accepted[i := Cut(q, i)])
    }

    lemma Abandon(size: nat, q: nat, i: nat)
      requires Ok(size, q) && i < |sessions|
      ensures |sessions| == |steps| == |accepted| == |taken| && Shaped(q, sessions[i])
      ensures Abandoned(q, i).Ok(size, q)
    {
      hide Store.Ok, Slots, SessionOk, Rest, Flatten, AllBytes, Queued;
      assert SessionGood(q, i);
      IsShaped(st, q, sessions[i], steps[i]);
      AbandonSession(st, q, sessions[i], steps[i]);
      var w := Abandoned(q, i);
      var s := w.sessions[i];
      SlotsUpdate(q, sessions, i, s);
      Cancel(Slots(q, w.sessions), Slots(q, sessions), multiset(Heads(q, s)));
      FlattenOne(taken[i] + AllBytes(st, Heads(q, s)));
      forall j | 0 <= j < |sessions| ensures w.SessionGood(q, j) {
        assert SessionGood(q, j);
      }
    }

    static lemma AbandonSession(st: Store, q: nat, s: Session, k: nat)
      requires SessionOk(st, q, s, k)
      ensures var s' := s.(chain := Null);
              Heads(q, s') == Heads(q, s) && SessionOk(st, q, s', k) && Rest(st, q, s', k) == AllBytes(st, Heads(q, s))
    {
    }

    /** What is left of a closing session once its oldest message is dropped. */
    ghost function Left(q: nat, i: nat): seq<seq<byte>>
      requires i < |sessions| == |taken| && Shaped(q, sessions[i]) && sessions[i].pos != sessions[i].last && q > 0
    {
      var s' := sessions[i].(pos := (sessions[i].pos + 1) % q);
      [taken[i] + AllBytes(st, if Shaped(q, s') then Heads(q, s') else [])]
    }

    lemma Dropping(size: nat, q: nat, i: nat)
      requires Ok(size, q) && i < |sessions| && sessions[i].chain == Null && sessions[i].pos != sessions[i].last
      ensures |sessions| == |steps| == |accepted| == |taken| && Shaped(q, sessions[i]) && st.Ok(size)
      ensures var s := sessions[i]; var s' := s.(pos := (s.pos + 1) % q);
              && s.out[s.pos] in st.held && Shaped(q, s') && |Heads(q, s')| < |Heads(q, s)|
              && Popped(i, s.out[s.pos], s', Left(q, i), []).Ok(size, q)
    {
      hide Store.Ok, Slots, Put, Queued, SessionOk, Rest, Flatten, AllBytes;
      assert SessionGood(q, i);
      var s := sessions[i];
      var s' := s.(pos := (s.pos + 1) % q);
      IsShaped(st, q, s, steps[i]);
      DropSession(st, q, s, steps[i]);
      FlattenOne(taken[i] + AllBytes(st, Heads(q, s')));
      assert [] + Rest(st, q, s', 0) == Rest(st, q, s', 0);
      PoppedOk(size, q, i, s.out[s.pos], s', Left(q, i), []);
    }

    static lemma DropSession(st: Store, q: nat, s: Session, k: nat)
      requires q > 0 && SessionOk(st, q, s, k) && s.chain == Null && s.pos != s.last
      ensures Shaped(q, s)
      ensures var s' := s.(pos := (s.pos + 1) % q);
              && Shaped(q, s') && Heads(q, s) == [s.out[s.pos]] + Heads(q, s')
              && SessionOk(st, q, s', 0) && Rest(st, q, s', 0) == AllBytes(st, Heads(q, s'))
    {
      hide Queued, AllBytes;
      var s' := s.(pos := (s.pos + 1) % q);
      Pop(q, s.out, s.pos, s.last);
      forall j | 0 <= j < |Heads(q, s')| ensures Heads(q, s')[j] in st.live {
        assert Heads(q, s')[j] == Heads(q, s)[j + 1];
      }
    }

    lemma Drained(size: nat, q: nat, i: nat)
      requires Ok(size, q) && i < |sessions| && sessions[i].chain == Null && sessions[i].pos == sessions[i].last
      ensures |sessions| == |steps| == |accepted| == |taken| && Flatten(accepted[i]) == taken[i]
    {
      assert SessionGood(q, i);
      assert Heads(q, sessions[i]) == [];
      assert taken[i] + [] == taken[i];
    }

    lemma AcquiredHeld(h: nat)
      requires h < |st.mem|
      ensures st.Acquired(h).held == st.held + multiset{h} && st.Acquired(h).live == st.live
    {
    }

    /** Session `i` is done with chain `h`, its oldest: the slot's reference goes. */
    ghost function Popped(i: nat, h: nat, s: Session, acc: seq<seq<byte>>, sent: seq<byte>): World
      requires i < |sessions| == |accepted| == |steps| == |taken|
    {
      this.(st := Put(st, h), sessions := sessions[i := s], steps := steps[i := 0], accepted := accepted[i := acc],
            taken := taken[i := taken[i] + sent])
    }

    lemma PoppedOk(size: nat, q: nat, i: nat, h: nat, s: Session, acc: seq<seq<byte>>, sent: seq<byte>)
      requires Ok(size, q) && i < |sessions|
      requires SessionOk(st, q, sessions[i], steps[i]) && SessionOk(st, q, s, 0)
      requires Heads(q, sessions[i]) == [h] + Heads(q, s)
      requires taken[i] + (sent + Rest(st, q, s, 0)) == Flatten(acc)
      ensures h in st.held && Popped(i, h, s, acc, sent).Ok(size, q)
    {
      hide Store.Ok, Store.Keeps, Slots, Rest, Queued, SessionOk, Put, Flatten;
      IsShaped(st, q, sessions[i], steps[i]);
      IsShaped(st, q, s, 0);
      var w0 := this.(sessions := sessions[i := s], steps := steps[i := 0], accepted := accepted[i := acc],
                      taken := taken[i := taken[i] + sent]);
      SlotsUpdate(q, sessions, i, s);
      SlotsPush(Slots(q, sessions), Slots(q, w0.sessions), Heads(q, s), h) by {
        assert multiset([h] + Heads(q, s)) == multiset(Heads(q, s) + [h]);
      }
      assert h in st.held;
      PutOk(st, size, h);
      var st', w := Put(st, h), Popped(i, h, s, acc, sent);
      assert st'.held == owned + Slots(q, w.sessions);
      forall j | 0 <= j < |sessions| ensures w.SessionGood(q, j) {
        assert SessionGood(q, j);
        w0.SessionKeptBy(q, j, st');
        if j == i {
          assert (taken[i] + sent) + Rest(st, q, s, 0) == taken[i] + (sent + Rest(st, q, s, 0));
        }
      }
    }

    /** What lies ahead is without empty links exactly if it is so when the oldest message has gone. */
    lemma NoneEmptyPopped(size: nat, q: nat, i: nat, h: nat, s: Session)
      requires Ok(size, q) && i < |sessions| && InLink(i) && st.mem[sessions[i].chain.addr].next == Null
      requires sessions[i].bpos < st.mem[sessions[i].chain.addr].last
      requires Shaped(q, sessions[i]) && Shaped(q, s) && s.chain == Null && h in st.held
      requires Heads(q, sessions[i]) == [h] + Heads(q, s) && |steps| == |sessions|
      ensures NoneEmpty(st, q, sessions[i], steps[i]) <==> NoneEmpty(Put(st, h), q, s, 0)
    {
      hide Store.Ok, Slots, Queued, Put, NoneEmpty, Store.Keeps;
      assert SessionGood(q, i);
      PutOk(st, size, h);
      SlotsAtLeast(q, sessions, i);
      var hs := Heads(q, sessions[i]);
      assert hs[0] == h;
      LastOfChain(size, q, i);
      forall k | 0 <= k < |Heads(q, s)| ensures st.Keeps(Put(st, h), Heads(q, s)[k]) {
        assert multiset(hs) == multiset{h} + multiset(Heads(q, s));
        assert Heads(q, s)[k] in multiset(Heads(q, s));
      }
      AheadPopped(st, Put(st, h), q, sessions[i], s, steps[i]);
    }

    /** A link without a next is the last of its chain. */
    lemma LastOfChain(size: nat, q: nat, i: nat)
      requires Ok(size, q) && i < |sessions| && InLink(i) && st.mem[sessions[i].chain.addr].next == Null
      ensures Shaped(q, sessions[i]) && |sessions| == |steps| && |Heads(q, sessions[i])| > 0
      ensures var h := Heads(q, sessions[i])[0]; h in st.live && steps[i] + 1 == |st.live[h]|
    {
      hide Slots, Queued, Store.Counted;
      assert SessionGood(q, i);
      st.OkParts(size);
      st.ChainOf(Heads(q, sessions[i])[0]);
      NextIs(st.mem, st.live[Heads(q, sessions[i])[0]], steps[i]);
    }

    /** What lies ahead is without empty links exactly if it is so behind the link that has been sent. */
    lemma NoneEmptyNext(size: nat, q: nat, i: nat, s: Session)
      requires Ok(size, q) && i < |sessions| && InLink(i) && sessions[i].bpos < st.mem[sessions[i].chain.addr].last
      requires s == sessions[i].(chain := s.chain, bpos := s.bpos) && s.chain != Null
      ensures Shaped(q, s) && |sessions| == |steps|
      ensures NoneEmpty(st, q, sessions[i], steps[i]) <==> NoneEmpty(st, q, s, steps[i] + 1)
    {
      hide NoneEmpty, Store.Ok, Slots, Rest, Flatten, Queued;
      assert SessionGood(q, i);
      AheadNext(st, q, sessions[i], s, steps[i]);
    }

    /** A queue is without empty links exactly if it was so before a message came, and the message is. */
    lemma NoneEmptySent(size: nat, q: nat, i: nat, h: nat)
      requires Ok(size, q) && i < |sessions| && Shaped(q, sessions[i]) && h in st.live && h < |st.mem|
      requires Heads(q, Enqueued(q, sessions[i], h)) == Heads(q, sessions[i]) + [h]
      ensures |sessions| == |steps|
      ensures NoneEmpty(st.Acquired(h), q, Enqueued(q, sessions[i], h), steps[i])
              <==> NoneEmpty(st, q, sessions[i], steps[i]) && NoEmpty(st, h)
    {
      hide Store.Ok, Slots, Queued, NoEmpty, NoneEmpty, Store.Acquired, Enqueued, Store.Keeps;
      st.AcquiredOk(size, h);
      assert SessionGood(q, i);
      forall k | 0 <= k < |Heads(q, sessions[i])| ensures st.Keeps(st.Acquired(h), Heads(q, sessions[i])[k]) {
        SlotsCover(q, sessions, i, k);
        HeldLive(size, q, Heads(q, sessions[i])[k]);
      }
      AheadPushed(st, st.Acquired(h), q, sessions[i], steps[i], h);
    }

    /** A new link, a chain of its own that its maker holds. */
    lemma AllocatedOk(size: nat, q: nat, l: Link)
      requires Ok(size, q) && l.Sane(size) && l.next == Null && l.ref == 1
      ensures var a := st.Next(); var w := Moved(st.Allocated(l), owned + multiset{a});
              && w.Ok(size, q) && a !in st.live && a < |w.st.mem| && w.st.mem[a] == l
              && w.st.live == st.live[a := [a]] && Slots(q, sessions)[a] == 0 && w.st.held[a] == 1
      ensures forall g :: g in st.live ==> st.Keeps(st.Allocated(l), g)
    {
      hide Store.Ok, Store.Keeps, Slots, Store.Allocated, Store.Next;
      st.AllocatedOk(size, l);
      var a := st.Next();
      forall g | g in Slots(q, sessions) ensures g in st.live {
        HeldLive(size, q, g);
      }
      NotHeld(size, a);
      assert (owned + Slots(q, sessions)) + multiset{a} == (owned + multiset{a}) + Slots(q, sessions);
      MovedOk(size, q, st.Allocated(l), owned + multiset{a});
    }

    lemma NotHeld(size: nat, a: nat)
      requires st.Ok(size) && a !in st.live
      ensures st.held[a] == 0
    {
    }

    /** A chain only its maker holds grows by a link. */
    lemma ExtendedOk(size: nat, q: nat, h: nat, a: nat)
      requires Ok(size, q) && h in owned && a in owned && h != a && st.live[a] == [a] && st.held[a] == 1
      requires Slots(q, sessions)[h] == 0
      ensures h in st.live && |st.live[h]| > 0 && st.Tail(h) < |st.mem| == |st.owner| && a < |st.owner|
      ensures Moved(st.Extended(h, a), owned - multiset{a}).Ok(size, q)
    {
      hide Store.Ok, Store.Keeps, Slots, Store.Extended;
      HeldLive(size, q, h);
      HeldLive(size, q, a);
      st.ExtendedOk(size, h, a);
      ExtendedHeld(h, a);
      assert Slots(q, sessions)[a] == 0;
      forall g | g in Slots(q, sessions) ensures g in st.live && g != h && g != a {
        HeldLive(size, q, g);
      }
      MovedOk(size, q, st.Extended(h, a), owned - multiset{a});
    }

    lemma ExtendedHeld(h: nat, a: nat)
      requires h in st.live && |st.live[h]| > 0 && st.Tail(h) < |st.mem| && a < |st.owner|
      ensures st.Extended(h, a).held == st.held - multiset{a}
    {
    }

    /** A link of a chain that no session has queued is rewritten. */
    lemma WrittenOk(size: nat, q: nat, h: nat, k: nat, l: Link)
      requires Ok(size, q) && h in owned && Slots(q, sessions)[h] == 0
      requires h in st.live && k < |st.live[h]|
      requires var a := st.live[h][k];
               a < |st.mem| && l.Sane(size) && l.next == st.mem[a].next && l.ref == st.mem[a].ref
      ensures Moved(st.Written(st.live[h][k], l), owned).Ok(size, q)
    {
      hide Store.Ok, Store.Keeps, Slots;
      var a := st.live[h][k];
      st.WrittenOk(size, a, l);
      forall g | g in Slots(q, sessions) ensures g in st.live && a !in st.live[g] {
        HeldLive(size, q, g);
        OnOneChain(size, g, h, k);
      }
      MovedOk(size, q, st.Written(a, l), owned);
    }

    lemma OnOneChain(size: nat, g: nat, h: nat, k: nat)
      requires st.Ok(size) && g in st.live && h in st.live && g != h && k < |st.live[h]|
      ensures st.live[h][k] !in st.live[g]
    {
      hide Chain, Store.Counted;
      st.ChainOf(g);
      st.ChainOf(h);
    }

    /** A maker lets go of a chain. */
    lemma ReleasedOk(size: nat, q: nat, h: nat)
      requires Ok(size, q) && h in owned
      ensures h in st.held && Moved(Put(st, h), owned - multiset{h}).Ok(size, q)
    {
      hide Store.Ok, Store.Keeps, Slots, Put;
      assert h in st.held;
      PutOk(st, size, h);
      assert st.held - multiset{h} == (owned - multiset{h}) + Slots(q, sessions);
      MovedOk(size, q, Put(st, h), owned - multiset{h});
    }
  }

  /** A session that queues chain `h` is to send its bytes behind the others. */
  lemma SentSession(st: Store, st': Store, q: nat, s: Session, k: nat, h: nat, prio: nat)
    requires SessionOk(st, q, s, k) && SessionOk(st', q, s, k) && Rest(st', q, s, k) == Rest(st, q, s, k)
    requires SIZE_T % q == 0 && q <= SIZE_T && Accepts(q, s.pos, s.last, prio)
    requires st.Keeps(st', h)
    ensures var s' := Enqueued(q, s, h);
            && h in st.live && SessionOk(st', q, s', k) && Heads(q, s') == Heads(q, s) + [h] && Share(q, s', prio)
            && Rest(st', q, s', k) == Rest(st, q, s, k) + ChainBytes(st.mem, st.live[h])
  {
    hide SessionOk, Rest, Queued, Parts, Accepts, Share, Enqueued;
    PartsKept(st, st', h);
    KeepsLive(st, st', h);
    Pushed(st', q, s, k, h, prio);
  }

  lemma Extends(taken: seq<byte>, rest: seq<byte>, acc: seq<seq<byte>>, more: seq<byte>)
    requires taken + rest == Flatten(acc)
    ensures taken + (rest + more) == Flatten(acc + [more])
  {
    FlattenAppend(acc, [more]);
    FlattenOne(more);
    assert taken + (rest + more) == (taken + rest) + more;
  }

  lemma IsShaped(st: Store, q: nat, s: Session, k: nat)
    requires SessionOk(st, q, s, k)
    ensures Shaped(q, s)
  {
  }

  lemma SlotsPush(a: multiset<nat>, b: multiset<nat>, hs: seq<nat>, h: nat)
    requires a + multiset(hs) == b + multiset(hs + [h])
    ensures a == b + multiset{h}
  {
    assert b + multiset(hs + [h]) == (b + multiset{h}) + multiset(hs);
    Cancel(a, b + multiset{h}, multiset(hs));
  }
}
