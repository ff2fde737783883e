/**
 The sending side of a server: shared buffers allocated, filled, headed, queued to any number of sessions, written
 to their sockets in parts, and freed with their last reference.
 */
module OutputPath {
  import opened Bytes
  import opened Pointers
  import opened Wrappers
  import opened ChunkLayout
  import opened SharedStore
  import opened OutputQueue
  import opened OutputSession
  import opened OutputWorld

  /** A peer whose socket takes, at each write, at most the listed numbers of bytes, and then no more. */
  class Peer {
    var windows: seq<nat>
    /** The bytes it took so far, and whether it took none of those last offered. */
    var took: nat
    var blocked: bool

    method Send(n: nat) returns (m: nat)
      modifies this
      ensures m <= n && (m > 0 ==> |windows| < |old(windows)|)
      ensures took == old(took) + m && blocked == (m == 0 < n)
    {
      m := 0;
      if windows != [] {
        m := if windows[0] < n then windows[0] else n;
        windows := windows[1..];
      }
      took, blocked := took + m, m == 0 < n;
    }
  }

  class Output {
    const size: nat
    const queue: nat
    var mem: seq<Link>
    var free: Ptr
    var sessions: seq<Session>

    ghost var freeList: seq<nat>
    ghost var live: map<nat, seq<nat>>
    ghost var owner: seq<Ptr>
    ghost var held: multiset<nat>
    /** The references kept by whoever made a chain, each to be let go by FreeSharedChain. */
    ghost var owned: multiset<nat>
    ghost var steps: seq<nat>
    /** Per session: the messages accepted for it, and the bytes its socket has taken. */
    ghost var accepted: seq<seq<seq<byte>>>
    ghost var taken: seq<seq<byte>>

    ghost function S(): Store
      reads this
    {
      Store(mem, free, freeList, live, owner, held)
    }

    ghost function W(): World
      reads this
    {
      World(S(), sessions, steps, owned, accepted, taken)
    }

    ghost predicate Valid()
      reads this
    {
      W().Ok(size, queue)
    }

    constructor (size: nat, queue: nat, nsessions: nat)
      requires queue > 0 && SIZE_T % queue == 0 && queue <= SIZE_T
      ensures Valid() && this.size == size && this.queue == queue
      ensures owned == multiset{} && accepted == seq(nsessions, _ => []) && taken == seq(nsessions, _ => [])
    {
      this.size, this.queue := size, queue;
      mem, free, freeList, live, owner, held, owned := [], Null, [], map[], [], multiset{}, multiset{};
      var idle := Session(seq(queue, _ => 0), 0, 0, Null, 0);
      sessions, steps := seq(nsessions, _ => idle), seq(nsessions, _ => 0);
      accepted, taken := seq(nsessions, _ => []), seq(nsessions, _ => []);
      new;
      NothingOk(size, queue, nsessions);
    }

    /** A buffer with one reference, from the free list when it has one. */
    method AllocSharedBuf() returns (a: nat)
      requires Valid()
      modifies `mem, `free, `freeList, `live, `owner, `held, `owned
      ensures Valid() && a !in old(live) && live == old(live)[a := [a]] && owned == old(owned) + multiset{a}
      ensures Slots(queue, sessions)[a] == 0 && held[a] == 1
      ensures a < |mem| && mem[a].pos == mem[a].last == HEADROOM && |mem[a].data| == HEADROOM + size
      ensures forall g :: g in old(live) ==> old(S()).Keeps(S(), g)
    {
      hide World.Ok, Store.Ok, Store.Keeps, Store.Allocated, Store.Next, Slots;
      ghost var w := W();
      ghost var l;
      a, l := TakeLink();
      w.AllocatedOk(size, queue, l);
      owned := owned + multiset{a};
      assert W() == w.Moved(w.st.Allocated(l), owned);
    }

    method TakeLink() returns (a: nat, ghost l: Link)
      requires Valid()
      modifies `mem, `free, `freeList, `live, `owner, `held
      ensures a == old(S()).Next() && S() == old(S()).Allocated(l)
      ensures l.Sane(size) && l.next == Null && l.ref == 1 && l.pos == l.last == HEADROOM
    {
      hide World.Ok, Store.Ok;
      FreeIsFirst();
      if free != Null {
        a := free.addr;
        l := Link(mem[a].data, HEADROOM, HEADROOM, Null, 1);
        free := mem[a].next;
        mem := mem[a := Link(mem[a].data, HEADROOM, HEADROOM, Null, 1)];
        freeList, owner := freeList[1..], owner[a := At(a)];
      } else {
        a := |mem|;
        l := Link(seq(HEADROOM + size, _ => 0), HEADROOM, HEADROOM, Null, 1);
        mem := mem + [Link(seq(HEADROOM + size, _ => 0), HEADROOM, HEADROOM, Null, 1)];
        owner := owner + [At(a)];
      }
      live, held := live[a := [a]], held + multiset{a};
    }

    lemma FreeIsFirst()
      requires Valid()
      ensures free == First(freeList) && |owner| == |mem|
      ensures freeList != [] ==> freeList[0] < |mem| && mem[freeList[0]].Sane(size)
    {
      S().FreeOf();
    }

    /** Let one reference go; with the last, walk to the chain's end and put it before the free list. */
    method FreeSharedChain(h: nat)
      requires S().Ok(size) && h in held
      modifies `mem, `free, `freeList, `live, `owner, `held
      ensures S() == Put(old(S()), h) && S().Ok(size)
    {
      hide Store.Ok, Store.Keeps, Link.Sane, Link.Held, Chain, Parts;
      ghost var s := S();
      PutOk(s, size, h);
      CountIs(h);
      mem := mem[h := mem[h].(ref := mem[h].ref - 1)];
      held := held - multiset{h};
      if mem[h].ref > 0 {
        return;
      }
      ghost var links := live[h];
      var cl := EndOf(h, links);
      mem := mem[cl := mem[cl].(next := free)];
      free, freeList, live := At(h), links + freeList, live - {h};
      owner := Disowned(owner, h);
      assert cl == s.Tail(h);
      assert S() == s.Freed(h);
    }

    /** The last link of a chain. */
    method EndOf(h: nat, ghost links: seq<nat>) returns (a: nat)
      requires |links| > 0 && links[0] == h
      requires forall i :: 0 <= i < |links| ==> links[i] < |mem| && mem[links[i]].next == NextOf(links, i)
      ensures a == links[|links| - 1]
    {
      a := h;
      ghost var i := 0;
      while mem[a].next != Null
        invariant i < |links| && a == links[i]
        decreases |links| - i
      {
        a := mem[a].next.addr;
        i := i + 1;
      }
    }

    lemma CountIs(h: nat)
      requires S().Ok(size) && h in held
      ensures h in live && |live[h]| > 0 && live[h][0] == h && h < |mem| == |owner| && mem[h].ref == held[h]
      ensures forall i :: 0 <= i < |live[h]| ==> live[h][i] < |mem| && mem[live[h][i]].next == NextOf(live[h], i)
    {
      S().ChainOf(h);
    }

    /** ngx_rtmp_send_message without the immediate write: queue a chain the caller holds, or drop it. */
    method SendMessage(i: nat, h: nat, priority: nat) returns (ok: bool)
      requires Valid() && i < |sessions| && h in owned
      modifies `mem, `held, `sessions, `accepted
      ensures Valid() && h in live && |sessions| == |old(sessions)| == |old(accepted)|
      ensures old(Shaped(queue, sessions[i])) && Shaped(queue, sessions[i])
      ensures Heads(queue, sessions[i]) == old(Heads(queue, sessions[i])) + if ok then [h] else []
      ensures priority == 0 ==> (!ok <==> old(|Heads(queue, sessions[i])|) + 1 == queue)
      ensures priority == 1 ==> (ok <==> old(|Heads(queue, sessions[i])|) + 1 + queue / 4 < queue)
      ensures priority == 2 ==> (ok <==> old(|Heads(queue, sessions[i])|) + 1 + 2 * queue / 4 < queue)
      ensures priority >= 3 ==> (ok <==> old(|Heads(queue, sessions[i])|) + 1 + 3 * queue / 4 < queue)
      ensures !ok ==> W() == old(W()) && accepted == old(accepted) && sessions == old(sessions)
      ensures ok ==> h in old(live) && ChainBytes(mem, live[h]) == old(ChainBytes(mem, live[h]))
      ensures ok ==>
        && accepted == old(accepted)[i := old(accepted)[i] + [ChainBytes(mem, live[h])]]
        && Share(queue, sessions[i], priority)
        && (QueueNoneEmpty(W(), i) <==> old(QueueNoneEmpty(W(), i) && NoEmpty(S(), h)))
    {
      hide World.Ok, Store.Ok, Slots, ChainBytes, Count, Queued, Store.Keeps, NoneEmpty, NoEmpty, Share;
      hide Accepts, Occupied;
      ghost var w := W();
      w.Basics(size, queue, i, h);
      var s := sessions[i];
      AcceptsExact(queue, s.pos, s.last, priority);
      if !Accepts(queue, s.pos, s.last, priority) {
        return false;
      }
      w.SentOk(size, queue, i, h, priority);
      w.SentBytes(size, queue, i, h);
      w.NoneEmptySent(size, queue, i, h);
      accepted := accepted[i := accepted[i] + [ChainBytes(mem, live[h])]];
      sessions := sessions[i := s.(out := s.out[s.last := h], last := (s.last + 1) % queue)];
      mem := mem[h := mem[h].(ref := mem[h].ref + 1)];
      held := held + multiset{h};
      assert W() == w.Sent(queue, i, h);
      return true;
    }

    /** Nothing but session `i` differs, and it has at most sent more of what it accepted. */
    ghost predicate OnlySent(w: World, i: nat)
      reads this
    {
      && |sessions| == |w.sessions| && |taken| == |w.taken| && i < |taken| && i < |sessions| && accepted == w.accepted
         && owned == w.owned
      && w.taken[i] <= taken[i] && taken == w.taken[i := taken[i]] && sessions == w.sessions[i := sessions[i]]
      && (QueueNoneEmpty(w, i) <==> QueueNoneEmpty(W(), i))
    }

    /** Session `i` has no empty link ahead. */
    ghost predicate QueueNoneEmpty(w: World, i: nat)
    {
      && i < |w.sessions| && i < |w.steps| && Shaped(queue, w.sessions[i])
      && NoneEmpty(w.st, queue, w.sessions[i], w.steps[i])
    }

    /**
     ngx_rtmp_send: write until the socket takes no more or all that was accepted is out. A link without bytes stops it
     too, and nothing else does, because nothing to write looks like a socket that takes nothing.
     */
    method WriteEvent(i: nat, peer: Peer)
      requires Valid() && i < |sessions|
      modifies `mem, `free, `sessions, `freeList, `live, `owner, `held, `steps, `taken, peer
      ensures Valid() && OnlySent(old(W()), i)
      ensures |taken[i]| - |old(taken)[i]| == peer.took - old(peer.took)
      ensures sessions[i].chain == Null ==> i < |accepted| && taken[i] == Flatten(accepted[i])
      ensures sessions[i].chain != Null ==>
        peer.blocked || (sessions[i].chain.addr < |mem|
                         && mem[sessions[i].chain.addr].pos == mem[sessions[i].chain.addr].last)
      ensures sessions[i].chain == Null ==> old(QueueNoneEmpty(W(), i))
      ensures old(QueueNoneEmpty(W(), i)) ==> sessions[i].chain == Null || peer.blocked
    {
      hide World.Ok, NoneEmpty, Shaped;
      ghost var w := W();
      w.Lengths(size, queue);
      if sessions[i].chain == Null && sessions[i].pos != sessions[i].last {
        Begin(i);
      }
      while sessions[i].chain != Null
        invariant Valid() && OnlySent(w, i)
        invariant |taken[i]| - |w.taken[i]| == peer.took - old(peer.took)
        invariant sessions[i].chain == Null ==> sessions[i].pos == sessions[i].last
        decreases |peer.windows|
      {
        W().Something(size, queue, i);
        var n := peer.Send(mem[sessions[i].chain.addr].last - sessions[i].bpos);
        if n == 0 {
          return;
        }
        Took(i, n);
      }
      W().Drained(size, queue, i);
      NothingAhead(i);
    }

    lemma NothingAhead(i: nat)
      requires Valid() && i < |sessions| && sessions[i].chain == Null && sessions[i].pos == sessions[i].last
      ensures QueueNoneEmpty(W(), i)
    {
      assert W().SessionGood(queue, i);
      assert Heads(queue, sessions[i]) == [];
    }

    /** Start on the oldest queued message. */
    method Begin(i: nat)
      requires Valid() && i < |sessions| && sessions[i].chain == Null && sessions[i].pos != sessions[i].last
      modifies `sessions, `steps
      ensures Valid() && OnlySent(old(W()), i) && taken == old(taken) && sessions[i].chain != Null
    {
      hide World.Ok, NoneEmpty;
      ghost var w := W();
      w.Beginning(size, queue, i);
      var s := sessions[i];
      var h := s.out[s.pos];
      sessions := sessions[i := s.(chain := At(h), bpos := mem[h].pos)];
      steps := steps[i := 0];
      assert taken[i] + [] == taken[i] && taken == taken[i := taken[i]];
      assert W() == w.Stepped(i, sessions[i], 0, []);
      SameQueue(w, i);
    }

    /** A step that moves neither the store nor what lies ahead leaves it as filled as it was. */
    lemma SameQueue(w: World, i: nat)
      requires i < |sessions| && i < |w.sessions| && i < |steps| && i < |w.steps| && W().st == w.st
      requires sessions[i].out == w.sessions[i].out && sessions[i].pos == w.sessions[i].pos
      requires sessions[i].last == w.sessions[i].last
      requires FirstAhead(sessions[i], steps[i], 0) == FirstAhead(w.sessions[i], w.steps[i], 0)
      ensures QueueNoneEmpty(w, i) <==> QueueNoneEmpty(W(), i)
    {
      hide Queued, NoEmptyFrom;
      if Shaped(queue, sessions[i]) {
        var hs := Heads(queue, sessions[i]);
        assert hs == Heads(queue, w.sessions[i]);
        forall k | 0 <= k < |hs|
          ensures FirstAhead(sessions[i], steps[i], k) == FirstAhead(w.sessions[i], w.steps[i], k)
        {
        }
      }
    }

    /** The socket took `n` bytes: go on in the link, to the next link, or to the next message. */
    method Took(i: nat, n: nat)
      requires Valid() && i < |sessions| && W().InLink(i)
               && 0 < n <= mem[sessions[i].chain.addr].last - sessions[i].bpos
      modifies `mem, `free, `sessions, `freeList, `live, `owner, `held, `steps, `taken
      ensures Valid() && OnlySent(old(W()), i) && |taken[i]| == |old(taken)[i]| + n
      ensures sessions[i].chain == Null ==> sessions[i].pos == sessions[i].last
    {
      hide World.Ok, NoneEmpty, Shaped;
      ghost var w := W();
      w.Lengths(size, queue);
      var s := sessions[i];
      var l := mem[s.chain.addr];
      if s.bpos + n == l.last {
        LinkDone(i);
        return;
      }
      w.Taking(size, queue, i, n);
      taken := taken[i := taken[i] + l.data[s.bpos..s.bpos + n]];
      sessions := sessions[i := s.(bpos := s.bpos + n)];
      assert W() == w.Stepped(i, sessions[i], steps[i], l.data[s.bpos..s.bpos + n]) by {
        assert steps == steps[i := steps[i]];
      }
      SameQueue(w, i);
    }

    /** The socket took the rest of the link. */
    method LinkDone(i: nat)
      requires Valid() && i < |sessions| && W().InLink(i) && sessions[i].bpos < mem[sessions[i].chain.addr].last
      modifies `mem, `free, `sessions, `freeList, `live, `owner, `held, `steps, `taken
      ensures Valid() && OnlySent(old(W()), i)
      ensures |taken[i]| == |old(taken)[i]| + old(mem[sessions[i].chain.addr].last - sessions[i].bpos)
      ensures sessions[i].chain == Null ==> sessions[i].pos == sessions[i].last
    {
      hide World.Ok, NoneEmpty, Shaped;
      if mem[sessions[i].chain.addr].next == Null {
        MessageDone(i);
        if sessions[i].pos != sessions[i].last {
          Begin(i);
        }
      } else {
        GoOn(i);
      }
    }

    /** The chain has another link. */
    method GoOn(i: nat)
      requires Valid() && i < |sessions| && W().InLink(i) && mem[sessions[i].chain.addr].next != Null
      requires sessions[i].bpos < mem[sessions[i].chain.addr].last
      modifies `sessions, `steps, `taken
      ensures Valid() && OnlySent(old(W()), i) && sessions[i].chain != Null
      ensures |taken[i]| == |old(taken)[i]| + old(mem[sessions[i].chain.addr].last - sessions[i].bpos)
    {
      hide World.Ok, Put, Store.Ok, Slots, NoneEmpty;
      ghost var w := W();
      w.LinkEnds(size, queue, i);
      var s := sessions[i];
      var l := mem[s.chain.addr];
      taken := taken[i := taken[i] + l.data[s.bpos..l.last]];
      sessions := sessions[i := s.(chain := l.next, bpos := mem[l.next.addr].pos)];
      steps := steps[i := steps[i] + 1];
      assert W() == w.Stepped(i, sessions[i], steps[i], l.data[s.bpos..l.last]);
      w.NoneEmptyNext(size, queue, i, sessions[i]);
    }

    /** A whole message is written: its slot's reference goes, and the next slot is up. */
    method MessageDone(i: nat)
      requires Valid() && i < |sessions| && W().InLink(i) && mem[sessions[i].chain.addr].next == Null
      requires sessions[i].bpos < mem[sessions[i].chain.addr].last
      modifies `mem, `free, `sessions, `freeList, `live, `owner, `held, `steps, `taken
      ensures Valid() && OnlySent(old(W()), i) && sessions[i].chain == Null
      ensures |taken[i]| == |old(taken)[i]| + old(mem[sessions[i].chain.addr].last - sessions[i].bpos)
    {
      hide World.Ok, Put, Store.Ok, Slots, NoneEmpty;
      ghost var w := W();
      w.LinkEnds(size, queue, i);
      var s := sessions[i];
      var l := mem[s.chain.addr];
      ghost var h, s' := s.out[s.pos], s.(chain := Null, pos := (s.pos + 1) % queue);
      w.NoneEmptyPopped(size, queue, i, h, s');
      taken := taken[i := taken[i] + l.data[s.bpos..l.last]];
      FreeSharedChain(s.out[s.pos]);
      sessions := sessions[i := s.(chain := Null, pos := (s.pos + 1) % queue)];
      steps := steps[i := 0];
      assert accepted == accepted[i := accepted[i]];
      assert W() == w.Popped(i, h, s', accepted[i], l.data[s.bpos..l.last]);
    }

    /** The maker of a chain lets it go. */
    method Release(h: nat)
      requires Valid() && h in owned
      modifies `mem, `free, `freeList, `live, `owner, `held, `owned
      ensures Valid() && owned == old(owned) - multiset{h}
    {
      hide World.Ok, Put, Slots;
      ghost var w := W();
      w.ReleasedOk(size, queue, h);
      assert S().Ok(size) by { w.StoreOk(size, queue); }
      FreeSharedChain(h);
      owned := owned - multiset{h};
      assert W() == w.Moved(S(), owned);
    }

    /** The session closes: every message still queued is let go. What it was sent is then all it will be sent. */
    method CloseSession(i: nat)
      requires Valid() && i < |sessions|
      modifies `mem, `free, `sessions, `freeList, `live, `owner, `held, `steps, `accepted
      ensures Valid() && |sessions| == |old(sessions)| && taken == old(taken) && owned == old(owned)
      ensures sessions[i].pos == sessions[i].last && sessions[i].chain == Null
      ensures i < |accepted| && Flatten(accepted[i]) == (if i < |taken| then taken[i] else [])
      ensures |accepted| == |old(accepted)|
      ensures forall j :: 0 <= j < |sessions| && j != i ==> sessions[j] == old(sessions)[j]
      ensures forall j :: 0 <= j < |accepted| && j != i ==> accepted[j] == old(accepted)[j]
    {
      hide World.Ok, Put, Slots, Store.Ok, Rest;
      ghost var w := W();
      w.Abandon(size, queue, i);
      accepted := accepted[i := w.Cut(queue, i)];
      sessions := sessions[i := sessions[i].(chain := Null)];
      assert W() == w.Abandoned(queue, i);
      while sessions[i].pos != sessions[i].last
        invariant Valid() && Others(w, i) && sessions[i].chain == Null && taken == w.taken && owned == w.owned
        invariant Shaped(queue, sessions[i])
        decreases |Heads(queue, sessions[i])|
      {
        DropOldest(i);
      }
      W().Drained(size, queue, i);
    }

    /** Nothing differs in the other sessions. */
    ghost predicate Others(w: World, i: nat)
      reads this
    {
      && |sessions| == |w.sessions| && |accepted| == |w.accepted| && i < |sessions| && i < |accepted|
      && sessions == w.sessions[i := sessions[i]] && accepted == w.accepted[i := accepted[i]]
    }

    /** The oldest message of a closing session goes. */
    method DropOldest(i: nat)
      requires Valid() && i < |sessions| && sessions[i].chain == Null && sessions[i].pos != sessions[i].last
      requires Shaped(queue, sessions[i])
      modifies `mem, `free, `sessions, `freeList, `live, `owner, `held, `steps, `accepted
      ensures Valid() && Others(old(W()), i) && sessions[i].chain == Null
      ensures Shaped(queue, sessions[i]) && |Heads(queue, sessions[i])| < old(|Heads(queue, sessions[i])|)
    {
      hide World.Ok, Put, Slots, Store.Ok, Rest;
      ghost var v := W();
      v.Dropping(size, queue, i);
      var s := sessions[i];
      FreeSharedChain(s.out[s.pos]);
      sessions := sessions[i := s.(pos := (s.pos + 1) % queue)];
      steps := steps[i := 0];
      accepted := accepted[i := v.Left(queue, i)];
      assert taken[i] + [] == taken[i];
      assert taken == taken[i := taken[i] + []];
      assert W() == v.Popped(i, s.out[s.pos], sessions[i], accepted[i], []);
    }

    /** Chain `h` is its maker's alone: no session has queued it. */
    ghost predicate Mine(h: nat)
      reads this
    {
      h in owned && h in live && |live[h]| > 0 && Slots(queue, sessions)[h] == 0
    }

    /** Write `l` over link `k` of chain `h`, keeping its place and count. */
    method Rewrite(h: nat, a: nat, l: Link, ghost k: nat)
      requires Valid() && Mine(h) && k < |live[h]| && a == live[h][k] && a < |mem|
      requires l.Sane(size) && l.next == mem[a].next && l.ref == mem[a].ref
      modifies `mem
      ensures Valid() && mem == old(mem)[a := l] && Parts(mem, live[h]) == Parts(old(mem), live[h])[k := l.Held()]
    {
      hide World.Ok, Slots, Store.Ok;
      ghost var w := W();
      w.WrittenOk(size, queue, h, k, l);
      w.StoreOk(size, queue);
      PartsStored(S(), size, h, k, l);
      mem := mem[a := l];
      assert W() == w.Moved(w.st.Written(a, l), owned);
    }

    /** Put a new link at the end of chain `h`. */
    method Grow(h: nat, tail: nat) returns (a: nat)
      requires Valid() && Mine(h) && tail == S().Tail(h) && tail < |mem|
      modifies `mem, `free, `freeList, `live, `owner, `held, `owned
      ensures Valid() && Mine(h) && owned == old(owned)
      ensures live[h] == old(live[h]) + [a] && a < |mem|
      ensures mem[a].pos == mem[a].last == HEADROOM && |mem[a].data| == HEADROOM + size
      ensures Parts(mem, live[h]) == Parts(old(mem), old(live[h])) + [[]]
      ensures forall k :: 0 <= k < |old(live[h])| ==>
        && old(live[h])[k] < |mem| && old(live[h])[k] < |old(mem)|
        && mem[old(live[h])[k]].pos == old(mem)[old(live[h])[k]].pos
      ensures forall g :: g in old(live) && g != h ==> g in live && live[g] == old(live)[g]
    {
      hide World.Ok, Slots, Store.Ok, Store.Extended, Store.Keeps, Parts, Chain;
      a := AllocSharedBuf();
      ghost var w := W();
      w.StoreOk(size, queue);
      w.st.ExtendedOk(size, h, a);
      PartsKept(old(S()), w.st, h);
      Grown(old(S()), w.st, size, h, a);
      ExtendedParts(w.st, h, a);
      Attach(h, tail, a);
    }

    /** Chain `a`, a single link, becomes the end of chain `h`. */
    method Attach(h: nat, tail: nat, a: nat)
      requires Valid() && Mine(h) && h != a && a in owned && a in live && live[a] == [a] && held[a] == 1
      requires tail == S().Tail(h) && tail < |mem| && a < |owner|
      modifies `mem, `live, `owner, `held, `owned
      ensures Valid() && S() == old(S()).Extended(h, a) && owned == old(owned) - multiset{a}
    {
      hide World.Ok, Slots, Store.Ok, Parts, Chain;
      ghost var w := W();
      w.ExtendedOk(size, queue, h, a);
      mem := mem[tail := mem[tail].(next := At(a))];
      live, owner, held, owned := (live - {a})[h := live[h] + [a]], owner[a := At(h)], held - multiset{a},
        owned - multiset{a};
      assert W() == w.Moved(w.st.Extended(h, a), owned);
    }

    /** Chain `h` holds payload `z`, cut into full links; `extra` when a new link is still empty. */
    ghost predicate Filled(h: nat, z: seq<byte>, extra: bool)
      reads this
      requires size > 0
    {
      && Mine(h) && HoldsCut(size, Parts(mem, live[h]), z, extra)
      && forall k :: 0 <= k < |live[h]| ==> live[h][k] < |mem| && mem[live[h][k]].pos == HEADROOM
    }

    /** Store `t` after what the last link of chain `h` has. */
    method Copy(h: nat, a: nat, t: seq<byte>, ghost z: seq<byte>, ghost extra: bool)
      requires Valid() && size > 0 && Filled(h, z, extra) && a == S().Tail(h) && a < |mem|
      requires |t| <= |mem[a].data| - mem[a].last
      modifies `mem
      ensures Valid() && Filled(h, z + t, extra && t == []) && a < |mem|
      ensures mem[a].last == old(mem[a].last) + |t| && |mem[a].data| == |old(mem[a].data)|
    {
      hide World.Ok, Slots, Store.Ok, Cut;
      TailSane(h);
      ghost var k := |live[h]| - 1;
      var l := mem[a];
      var l' := l.(data := l.data[..l.last] + t + l.data[l.last + |t|..], last := l.last + |t|);
      assert l'.Held() == l.Held() + t;
      Rewrite(h, a, l', k);
      CutFills(size, Parts(old(mem), live[h]), z, t, extra);
    }

    lemma TailSane(h: nat)
      requires Valid() && Mine(h)
      ensures S().Tail(h) < |mem| && mem[S().Tail(h)].Sane(size)
      ensures Parts(mem, live[h])[|live[h]| - 1] == mem[S().Tail(h)].Held()
      ensures forall k :: 0 <= k < |live[h]| ==> live[h][k] < |mem| && mem[live[h][k]].next == NextOf(live[h], k)
    {
      S().ChainOf(h);
    }

    /** Whether payload `x` leaves the last link of its chain full. */
    ghost predicate TailFull(x: seq<byte>)
      requires size > 0
    {
      var ps := Cut(size, x);
      |ps[|ps| - 1]| == size
    }

    /** A new chain for the first of the bytes. */
    method NewChain() returns (h: nat)
      requires Valid() && size > 0
      modifies `mem, `free, `freeList, `live, `owner, `held, `owned
      ensures Valid() && Filled(h, [], false) && owned == old(owned) + multiset{h}
      ensures h == S().Tail(h) && h < |mem|
    {
      hide World.Ok, Slots;
      h := AllocSharedBuf();
      EmptyChain(size, mem, h);
    }

    /** A full chain gets an empty link. */
    method NewLink(h: nat, tail: nat, ghost z: seq<byte>) returns (a: nat)
      requires Valid() && size > 0 && Filled(h, z, false) && tail == S().Tail(h) && tail < |mem| && TailFull(z)
      modifies `mem, `free, `freeList, `live, `owner, `held, `owned
      ensures Valid() && Filled(h, z, true) && owned == old(owned)
      ensures a == S().Tail(h) && a < |mem| && mem[a].last == HEADROOM && |mem[a].data| == HEADROOM + size
    {
      hide World.Ok, Slots, Cut;
      a := Grow(h, tail);
      forall k | 0 <= k < |live[h]| ensures live[h][k] < |mem| && mem[live[h][k]].pos == HEADROOM {
        assert k < |live[h]| - 1 ==> live[h][k] == old(live[h])[k];
      }
    }

    /** Walk to the last link. */
    method LastOf(h: nat) returns (a: nat)
      requires Valid() && Mine(h)
      ensures a == S().Tail(h) && a < |mem|
    {
      hide World.Ok;
      TailSane(h);
      HeadFirst(h);
      a := EndOf(h, live[h]);
    }

    lemma HeadFirst(h: nat)
      requires Valid() && Mine(h)
      ensures live[h][0] == h
    {
    }

    /**
     Append the input buffers' bytes to chain `head`, or to a new one. The chain is then the payload cut at the
     buffer size; one case leaves an empty link behind it: nothing appended to a chain whose last link is full.
     */
    method AppendSharedBufs(head: Ptr, input: seq<seq<byte>>, ghost x: seq<byte>) returns (h: nat)
      requires Valid() && size > 0 && |input| > 0
      requires if head == Null then x == [] else Filled(head.addr, x, false)
      modifies `mem, `free, `freeList, `live, `owner, `held, `owned
      ensures Valid() && (head != Null ==> h == head.addr)
      ensures owned == old(owned) + if head == Null then multiset{h} else multiset{}
      ensures Filled(h, x + Flatten(input), Flatten(input) == [] && TailFull(x))
    {
      hide World.Ok, Slots, Cut, Flatten;
      var a: nat;
      if head == Null {
        h := NewChain();
        a := h;
      } else {
        h := head.addr;
        a := LastOf(h);
      }
      var i: nat, p: nat, done := 0, 0, false;
      ghost var y: seq<byte> := [];
      assert x + y == x;
      Unread(input);
      while !done
        invariant Valid() && owned == old(owned) + if head == Null then multiset{h} else multiset{}
        invariant !done ==> Filled(h, x + y, false) && a == S().Tail(h) && a < |mem|
        invariant !done ==> i < |input| && p <= |input[i]| && Flatten(input) == y + Ahead(input, i, p)
        invariant !done ==> y == [] || p < |input[i]|
        invariant done ==> Filled(h, x + Flatten(input), Flatten(input) == [] && TailFull(x))
        decreases !done, |input| - i, if i < |input| then |input[i]| - p else 0
      {
        done, a, i, p, y := FillLink(h, a, input, i, p, x, y);
      }
    }

    /** Fill the last link, a new one when it is full, as far as the input and the link go. */
    method FillLink(h: nat, tail: nat, input: seq<seq<byte>>, i0: nat, p0: nat, ghost x: seq<byte>, ghost y0: seq<byte>)
      returns (done: bool, a: nat, i: nat, p: nat, ghost y: seq<byte>)
      requires Valid() && size > 0 && Filled(h, x + y0, false) && tail == S().Tail(h) && tail < |mem|
      requires i0 < |input| && p0 <= |input[i0]| && Flatten(input) == y0 + Ahead(input, i0, p0)
      requires y0 == [] || p0 < |input[i0]|
      modifies `mem, `free, `freeList, `live, `owner, `held, `owned
      ensures Valid() && owned == old(owned)
      ensures done ==> Filled(h, x + Flatten(input), Flatten(input) == [] && TailFull(x))
      ensures !done ==> Filled(h, x + y, false) && a == S().Tail(h) && a < |mem|
      ensures !done ==> i < |input| && p < |input[i]| && Flatten(input) == y + Ahead(input, i, p)
      ensures !done ==> i > i0 || (i == i0 && p > p0)
    {
      hide World.Ok, Slots, Cut, Flatten, TailFull, Ahead, HoldsCut, Parts, Output.W;
      done, a, i, p, y := false, tail, i0, p0, y0;
      Room(h, x + y, false);
      ghost var grown := mem[a].last == |mem[a].data|;
      if mem[a].last == |mem[a].data| {
        a := NewLink(h, a, x + y);
      }
      ghost var extra := grown;
      while |mem[a].data| - mem[a].last >= |input[i]| - p
        invariant Valid() && owned == old(owned) && Filled(h, x + y, extra) && a == S().Tail(h) && a < |mem|
        invariant i0 <= i < |input| && (if i == i0 then p == p0 else p == 0) && p <= |input[i]|
        invariant Flatten(input) == y + Ahead(input, i, p)
        invariant extra <==> grown && y == y0
        invariant |y| >= |y0| && (i > i0 && p0 < |input[i0]| ==> |y| > |y0|)
        invariant i == i0 ==> y == y0 && mem[a].last < |mem[a].data|
        decreases |input| - i
      {
        Copy(h, a, input[i][p..], x + y, extra);
        Next(input, i, p, y);
        Longer(x, y, input[i][p..]);
        extra := extra && input[i][p..] == [];
        y := y + input[i][p..];
        i, p := i + 1, 0;
        if i == |input| {
          Whole(x, y0, y, grown, extra);
          done := true;
          return;
        }
      }
      Room(h, x + y, extra);
      var room := |mem[a].data| - mem[a].last;
      Copy(h, a, input[i][p..p + room], x + y, extra);
      Part(input, i, p, room, y);
      Longer(x, y, input[i][p..p + room]);
      y := y + input[i][p..p + room];
      p := p + room;
    }

    lemma Whole(x: seq<byte>, y0: seq<byte>, y: seq<byte>, grown: bool, extra: bool)
      requires size > 0 && (grown <==> TailFull(x + y0)) && (extra <==> grown && y == y0) && |y| >= |y0|
      requires y0 != [] ==> |y| > |y0|
      ensures extra <==> y == [] && TailFull(x)
    {
      if y0 == [] {
        assert x + y0 == x;
      }
    }

    /** An empty last link has room for a whole piece; a full one ends a piece. */
    lemma Room(h: nat, z: seq<byte>, extra: bool)
      requires Valid() && size > 0 && Filled(h, z, extra)
      ensures var l := mem[S().Tail(h)];
              && l.Sane(size) && (extra ==> |l.data| - l.last == size)
              && (!extra ==> (l.last == |l.data| <==> TailFull(z)))
    {
      hide World.Ok, Cut;
      TailSane(h);
    }

    /**
     Head every link of a chain, growing each buffer downwards into its headroom. A chain that holds a cut payload
     then holds the payload's chunks.
     */
    method PrepareMessage(maxStreams: nat, timeFix: bool, h: Head, lh: Option<Head>, out: nat,
                          ghost payload: seq<byte>, ghost extra: bool) returns (ok: bool)
      requires Valid() && size > 0 && Filled(out, payload, extra) && |payload| < U32
      requires 2 <= h.csid && maxStreams <= 65600
      modifies `mem
      ensures Valid() && out in live && (ok <==> h.csid < maxStreams) && (!ok ==> mem == old(mem))
      ensures ok ==> Parts(mem, live[out]) == Headed(timeFix, Outgoing(h, lh, payload), Parts(old(mem), live[out]))
      ensures ok && !extra ==> Parts(mem, live[out]) == ChunksFrom(timeFix, size, Outgoing(h, lh, payload), 0)
      ensures ok ==> NoEmpty(S(), out)
    {
      hide World.Ok, Slots, Cut, Headed, ChunksFrom, FirstHeader, NextHeader, HoldsCut, Chain, Flatten, Parts,
           HeadedTo, Output.W;
      if h.csid >= maxStreams {
        return false;
      }
      ghost var o := Outgoing(h, lh, payload);
      ghost var parts := Parts(mem, live[out]);
      CutTotal(size, parts, payload, extra);
      var mlen := MessageSize(out);
      var hdr, th := FormatHeaders(timeFix, h, lh, mlen, o);
      HeadAll(out, hdr, th);
      HeadedWhole(timeFix, o, parts);
      if !extra {
        HeadedIsChunks(timeFix, size, o);
      }
      HeadedNoEmpty(out, timeFix, o, parts);
      ok := true;
    }

    lemma HeadedNoEmpty(out: nat, timeFix: bool, o: Outgoing, parts: seq<seq<byte>>)
      requires Valid() && Mine(out) && Sendable(o.h.csid) && |parts| > 0
      requires Parts(mem, live[out]) == Headed(timeFix, o, parts)
      ensures NoEmpty(S(), out)
    {
      hide World.Ok, Slots, FirstHeader, NextHeader;
      AllSane(out);
      forall k | 0 <= k < |live[out]| ensures mem[live[out][k]].pos < mem[live[out][k]].last {
        assert |Parts(mem, live[out])[k]| == mem[live[out][k]].last - mem[live[out][k]].pos;
        assert |Headed(timeFix, o, parts)[k]| > 0;
      }
    }

    /** Head the first link with `hdr` and the others with `th`. */
    method HeadAll(out: nat, hdr: seq<byte>, th: seq<byte>)
      requires Valid() && Mine(out) && |hdr| <= HEADROOM && |th| <= HEADROOM
      requires forall k :: 0 <= k < |live[out]| ==> live[out][k] < |mem| && mem[live[out][k]].pos == HEADROOM
      modifies `mem
      ensures Valid() && Mine(out)
      ensures Parts(mem, live[out]) == HeadedTo(hdr, th, Parts(old(mem), live[out]), |live[out]|)
    {
      hide World.Ok, Slots, Parts, HeadedTo, Chain, Output.W, Link.Held, Store.Tail, Link.Sane;
      ghost var parts := Parts(mem, live[out]);
      TailSane(out);
      HeadFirst(out);
      AllSane(out);
      var next := mem[out].next;
      assert next == NextOf(live[out], 0);
      HeadedFirst(mem, live[out], hdr, th);
      Prefix(out, out, hdr, 0);
      forall j | 1 <= j < |live[out]| ensures live[out][j] < |mem| && mem[live[out][j]].pos == HEADROOM {
        assert live[out][j] != live[out][0];
      }
      HeadRest(out, next, hdr, th, parts);
    }

    /** Head the links after the first. */
    method HeadRest(out: nat, next: Ptr, ghost hdr: seq<byte>, th: seq<byte>, ghost parts: seq<seq<byte>>)
      requires Valid() && Mine(out) && |th| <= HEADROOM && next == NextOf(live[out], 0)
      requires Parts(mem, live[out]) == HeadedTo(hdr, th, parts, 1)
      requires forall j :: 1 <= j < |live[out]| ==> live[out][j] < |mem| && mem[live[out][j]].pos == HEADROOM
      modifies `mem
      ensures Valid() && Mine(out) && Parts(mem, live[out]) == HeadedTo(hdr, th, parts, |live[out]|)
    {
      hide World.Ok, Slots, Parts, HeadedTo, Chain, Link.Held, Flatten, Untouched;
      TailSane(out);
      AllSane(out);
      ghost var links, k := live[out], 1;
      UntouchedFirst(mem, links);
      var cl := next;
      while cl != Null
        invariant Valid() && Mine(out) && live[out] == links && 1 <= k <= |links| && |mem| == |old(mem)|
        invariant cl == (if k < |links| then At(links[k]) else Null)
        invariant Untouched(old(mem), mem, links, k)
        invariant Parts(mem, links) == HeadedTo(hdr, th, parts, k)
        decreases |links| - k
      {
        ghost var was := mem;
        UntouchedAt(old(mem), was, links, k);
        var next := mem[cl.addr].next;
        HeadedNext(mem, links, hdr, th, parts, k);
        Prefix(out, cl.addr, th, k);
        UntouchedNext(old(mem), was, mem, links, k);
        k := k + 1;
        cl := next;
      }
    }

    /** Put `s` before the bytes of link `k`. */
    method Prefix(h: nat, a: nat, s: seq<byte>, ghost k: nat)
      requires Valid() && Mine(h) && k < |live[h]| && a == live[h][k] && a < |mem| && mem[a].pos == HEADROOM
      requires |s| <= HEADROOM && mem[a].Sane(size)
      modifies `mem
      ensures Valid() && Mine(h) && |mem| == |old(mem)|
      ensures forall b :: 0 <= b < |mem| && b != a ==> mem[b] == old(mem)[b]
      ensures Parts(mem, live[h]) == Parts(old(mem), live[h])[k := s + old(mem)[a].Held()]
    {
      hide World.Ok, Slots;
      var l := mem[a];
      var l' := l.(data := l.data[..l.pos - |s|] + s + l.data[l.pos..], pos := l.pos - |s|);
      BytesBefore(l.data, l.pos, l.last, s);
      Rewrite(h, a, l', k);
    }

    /** The bytes of a chain, counted link by link. */
    method MessageSize(h: nat) returns (mlen: nat)
      requires Valid() && Mine(h)
      ensures mlen == |Flatten(Parts(mem, live[h]))|
    {
      hide World.Ok, Slots, Parts, Chain, Link.Held;
      HeadFirst(h);
      mlen := 0;
      var l := At(h);
      ghost var k, parts := 0, Parts(mem, live[h]);
      while l != Null
        invariant k <= |live[h]| && l == (if k < |live[h]| then At(live[h][k]) else Null)
        invariant mlen == |Flatten(parts[..k])|
        decreases |live[h]| - k
      {
        Counted(h, k);
        mlen := mlen + (mem[l.addr].last - mem[l.addr].pos);
        l := mem[l.addr].next;
        k := k + 1;
      }
      assert parts[..k] == parts;
    }

    /** What link `k` adds to the bytes of its chain, and the link after it. */
    lemma Counted(h: nat, k: nat)
      requires Valid() && Mine(h) && k < |live[h]|
      ensures var a := live[h][k];
              && a < |mem| && mem[a].pos <= mem[a].last && mem[a].next == NextOf(live[h], k)
              && |Flatten(Parts(mem, live[h])[..k + 1])|
                 == |Flatten(Parts(mem, live[h])[..k])| + (mem[a].last - mem[a].pos)
    {
      hide World.Ok, Slots, Chain, Flatten;
      TailSane(h);
      AllSane(h);
      UpTo(Parts(mem, live[h]), k);
    }

    static lemma UpTo(parts: seq<seq<byte>>, k: nat)
      requires k < |parts|
      ensures |Flatten(parts[..k + 1])| == |Flatten(parts[..k])| + |parts[k]|
    {
      FlattenAppend(parts[..k], [parts[k]]);
      FlattenOne(parts[k]);
      assert parts[..k] + [parts[k]] == parts[..k + 1];
    }

    lemma AllSane(h: nat)
      requires Valid() && Mine(h)
      ensures forall k :: 0 <= k < |live[h]| ==> live[h][k] < |mem| && mem[live[h][k]].Sane(size)
      ensures forall i, j :: 0 <= i < j < |live[h]| ==> live[h][i] != live[h][j]
    {
      S().ChainOf(h);
    }
  }

  /** The headers of a message's first chunk and of its further ones, built field by field. */
  method FormatHeaders(timeFix: bool, h: Head, lh: Option<Head>, mlen: nat, ghost o: Outgoing)
    returns (hdr: seq<byte>, th: seq<byte>)
    requires o.h == h && o.lh == lh && |o.payload| == mlen < U32 && Sendable(h.csid)
    ensures hdr == FirstHeader(o) && th == NextHeader(timeFix, o)
  {
    hide PutBe24, PutBe32, PutLe32, BasicHeader;
    var fmt, timestamp := 0, h.timestamp;
    if lh.Some? && lh.value.csid != 0 && h.msid == lh.value.msid {
      fmt := fmt + 1;
      if h.typ == lh.value.typ && mlen != 0 && mlen == lh.value.mlen {
        fmt := fmt + 1;
        if h.timestamp == lh.value.timestamp {
          fmt := fmt + 1;
        }
      }
      timestamp := Wrap(h.timestamp - lh.value.timestamp);
    }
    assert fmt == o.Fmt() && timestamp == o.Time();
    var ext: u32 := 0;
    if timestamp >= 0xff_ffff {
      ext, timestamp := timestamp, 0xff_ffff;
    }
    hdr, th := FormatBasic(fmt, h.csid);
    if fmt <= 2 {
      hdr := hdr + PutBe24(timestamp);
      if fmt <= 1 {
        hdr := hdr + (PutBe24(mlen) + [h.typ]);
        if fmt == 0 {
          hdr := hdr + PutLe32(h.msid);
        }
      }
    }
    HeaderFields(o, hdr);
    if ext != 0 {
      hdr := hdr + PutBe32(ext);
      if timeFix {
        th := th + PutBe32(ext);
      }
    }
  }

  lemma HeaderFields(o: Outgoing, hdr: seq<byte>)
    requires Sendable(o.h.csid)
    requires var b := BasicHeader(o.Fmt(), o.h.csid);
             hdr == if o.Fmt() == 0 then b + TimeField(o) + KindField(o) + MsidField(o)
                    else if o.Fmt() == 1 then b + TimeField(o) + KindField(o)
                    else if o.Fmt() == 2 then b + TimeField(o) else b
    ensures FirstHeader(o) == hdr + (if o.Ext() then PutBe32(o.Time()) else [])
    ensures NextHeader(true, o) == BasicHeader(3, o.h.csid) + (if o.Ext() then PutBe32(o.Time()) else [])
  {
    hide BasicHeader, PutBe24, PutBe32, PutLe32;
    var b := BasicHeader(o.Fmt(), o.h.csid);
    assert b + [] == b && (b + TimeField(o)) + [] == b + TimeField(o);
    assert (b + TimeField(o) + KindField(o)) + [] == b + TimeField(o) + KindField(o);
  }

  /** The basic header, and the one of the further chunks: the same with the format bits set. */
  method FormatBasic(fmt: nat, csid: nat) returns (b: seq<byte>, th: seq<byte>)
    requires fmt <= 3 && Sendable(csid)
    ensures b == BasicHeader(fmt, csid) && th == BasicHeader(3, csid)
  {
    if csid <= 63 {
      b := [fmt * 64 + csid];
    } else if csid < 320 {
      b := [fmt * 64, csid - 64];
    } else {
      b := [fmt * 64 + 1, (csid - 64) % 256, (csid - 64) / 256];
    }
    th := [192 + b[0] % 64] + b[1..];
  }

  /** The bytes of the input from offset `p` of buffer `i` on. */
  ghost function Ahead(input: seq<seq<byte>>, i: nat, p: nat): seq<byte>
    requires i < |input| && p <= |input[i]|
  {
    input[i][p..] + Flatten(input[i + 1..])
  }

  lemma Unread(input: seq<seq<byte>>)
    requires |input| > 0
    ensures Flatten(input) == [] + Ahead(input, 0, 0)
  {
  }

  /** What is left once input `i` is read to its end. */
  lemma Next(input: seq<seq<byte>>, i: nat, p: nat, y: seq<byte>)
    requires i < |input| && p <= |input[i]| && Flatten(input) == y + Ahead(input, i, p)
    ensures i + 1 < |input| ==> Flatten(input) == (y + input[i][p..]) + Ahead(input, i + 1, 0)
    ensures i + 1 == |input| ==> Flatten(input) == y + input[i][p..]
  {
    if i + 1 < |input| {
      assert input[i + 1..][1..] == input[i + 2..];
      assert input[i + 1][0..] == input[i + 1];
      assert Ahead(input, i, p) == input[i][p..] + Ahead(input, i + 1, 0);
      assert y + Ahead(input, i, p) == (y + input[i][p..]) + Ahead(input, i + 1, 0);
    } else {
      assert Flatten(input[i + 1..]) == [];
    }
  }

  lemma Longer(x: seq<byte>, y: seq<byte>, t: seq<byte>)
    ensures (x + y) + t == x + (y + t)
    ensures t == [] <==> y + t == y
  {
    if t != [] {
      assert |y + t| > |y|;
    } else {
      assert y + t == y;
    }
  }

  /** What is left once `n` more bytes of input `i` are read. */
  lemma Part(input: seq<seq<byte>>, i: nat, p: nat, n: nat, y: seq<byte>)
    requires i < |input| && p + n <= |input[i]| && Flatten(input) == y + Ahead(input, i, p)
    ensures Flatten(input) == (y + input[i][p..p + n]) + Ahead(input, i, p + n)
  {
    hide Flatten;
    assert input[i][p..] == input[i][p..p + n] + input[i][p + n..];
    Regroup(y, input[i][p..p + n], input[i][p + n..], Flatten(input[i + 1..]));
  }

  lemma Regroup(y: seq<byte>, m: seq<byte>, t: seq<byte>, rest: seq<byte>)
    ensures y + ((m + t) + rest) == (y + m) + (t + rest)
  {
  }

  /** A server without messages. */
  lemma NothingOk(size: nat, q: nat, n: nat)
    requires q > 0 && SIZE_T % q == 0 && q <= SIZE_T
    ensures var idle := Session(seq(q, _ => 0), 0, 0, Null, 0);
            World(Store([], Null, [], map[], [], multiset{}), seq(n, _ => idle), seq(n, _ => 0), multiset{},
                  seq(n, _ => []), seq(n, _ => [])).Ok(size, q)
  {
    var idle := Session(seq(q, _ => 0), 0, 0, Null, 0);
    var st := Store([], Null, [], map[], [], multiset{});
    NoSlots(q, seq(n, _ => idle));
    assert SessionOk(st, q, idle, 0) && Rest(st, q, idle, 0) == [];
    assert Flatten<byte>([]) == [];
  }

  /** Bytes written right before others are in front of them. */
  lemma BytesBefore(data: seq<byte>, pos: nat, last: nat, s: seq<byte>)
    requires |s| <= pos <= last <= |data|
    ensures var d := data[..pos - |s|] + s + data[pos..];
            |d| == |data| && d[pos - |s|..last] == s + data[pos..last]
  {
    var d := data[..pos - |s|] + s + data[pos..];
    var a, b := d[pos - |s|..last], s + data[pos..last];
    assert |a| == |b|;
    forall i | 0 <= i < |a| ensures a[i] == b[i] {
      assert a[i] == d[pos - |s| + i];
    }
  }

  /** A chain of one empty link. */
  lemma EmptyChain(size: nat, mem: seq<Link>, a: nat)
    requires size > 0 && a < |mem| && mem[a].pos == mem[a].last <= |mem[a].data|
    ensures Parts(mem, [a]) == [[]] && HoldsCut(size, Parts(mem, [a]), [], false)
  {
    assert Cut(size, []) == [[]];
    assert mem[a].Held() == [];
  }

  /** The first `k` parts headed. */
  ghost function HeadedTo(hdr: seq<byte>, th: seq<byte>, parts: seq<seq<byte>>, k: nat): (r: seq<seq<byte>>)
    ensures |r| == |parts|
  {
    seq(|parts|, i requires 0 <= i < |parts| =>
      (if i >= k then [] else if i == 0 then hdr else th) + parts[i])
  }

  lemma HeadedNext(mem: seq<Link>, links: seq<nat>, hdr: seq<byte>, th: seq<byte>, parts: seq<seq<byte>>, k: nat)
    requires Parts(mem, links) == (if k == 0 then parts else HeadedTo(hdr, th, parts, k))
    requires k < |links| == |parts| && links[k] < |mem|
    ensures Parts(mem, links)[k := (if k == 0 then hdr else th) + mem[links[k]].Held()]
            == HeadedTo(hdr, th, parts, k + 1)
  {
    var a := Parts(mem, links)[k := (if k == 0 then hdr else th) + mem[links[k]].Held()];
    var b := HeadedTo(hdr, th, parts, k + 1);
    assert Parts(mem, links)[k] == mem[links[k]].Held();
    forall i | 0 <= i < |a| ensures a[i] == b[i] {
      assert [] + parts[i] == parts[i];
    }
  }

  /** The links from the `k`-th on are as they were. */
  ghost predicate Untouched(was: seq<Link>, mem: seq<Link>, links: seq<nat>, k: nat) {
    |mem| == |was| && forall j :: k <= j < |links| ==> links[j] < |mem| && mem[links[j]] == was[links[j]]
  }

  lemma UntouchedFirst(mem: seq<Link>, links: seq<nat>)
    requires forall j :: 0 <= j < |links| ==> links[j] < |mem|
    ensures Untouched(mem, mem, links, 1)
  {
  }

  lemma UntouchedAt(was: seq<Link>, mem: seq<Link>, links: seq<nat>, k: nat)
    requires Untouched(was, mem, links, k) && k < |links|
    ensures |mem| == |was| && links[k] < |mem| && mem[links[k]] == was[links[k]]
  {
  }

  lemma UntouchedNext(was: seq<Link>, mem: seq<Link>, mem': seq<Link>, links: seq<nat>, k: nat)
    requires Untouched(was, mem, links, k) && k < |links| && |mem'| == |mem|
    requires forall i, j :: 0 <= i < j < |links| ==> links[i] != links[j]
    requires forall b :: 0 <= b < |mem| && b != links[k] ==> mem'[b] == mem[b]
    ensures Untouched(was, mem', links, k + 1)
  {
  }

  lemma HeadedFirst(mem: seq<Link>, links: seq<nat>, hdr: seq<byte>, th: seq<byte>)
    requires |links| > 0 && links[0] < |mem|
    ensures Parts(mem, links)[0 := hdr + mem[links[0]].Held()] == HeadedTo(hdr, th, Parts(mem, links), 1)
  {
    HeadedNext(mem, links, hdr, th, Parts(mem, links), 0);
  }

  lemma HeadedWhole(timeFix: bool, o: Outgoing, parts: seq<seq<byte>>)
    requires Sendable(o.h.csid) && |parts| > 0
    ensures HeadedTo(FirstHeader(o), NextHeader(timeFix, o), parts, |parts|) == Headed(timeFix, o, parts)
  {
    hide FirstHeader, NextHeader;
    var a, b := HeadedTo(FirstHeader(o), NextHeader(timeFix, o), parts, |parts|), Headed(timeFix, o, parts);
    forall i | 0 <= i < |a| ensures a[i] == b[i] {
      if i > 0 {
        assert b[i] == NextHeader(timeFix, o) + parts[1..][i - 1];
      }
    }
  }

  lemma CutTotal(size: nat, parts: seq<seq<byte>>, z: seq<byte>, extra: bool)
    requires size > 0 && HoldsCut(size, parts, z, extra)
    ensures Flatten(parts) == z && |parts| > 0 && (!extra ==> parts == Cut(size, z))
  {
    CutFlatten(size, z);
    if extra {
      FlattenAppend(Cut(size, z), [[]]);
      FlattenOne<byte>([]);
    }
  }

  ghost predicate HoldsCut(size: nat, parts: seq<seq<byte>>, z: seq<byte>, extra: bool)
    requires size > 0
  {
    var ps := Cut(size, z);
    if extra then |ps[|ps| - 1]| == size && parts == ps + [[]] else parts == ps
  }

  /** Adding `t` to the last part keeps the parts a cut. */
  lemma CutFills(size: nat, parts: seq<seq<byte>>, z: seq<byte>, t: seq<byte>, extra: bool)
    requires size > 0 && HoldsCut(size, parts, z, extra) && |parts| > 0 && |parts[|parts| - 1]| + |t| <= size
    ensures var k := |parts| - 1;
            HoldsCut(size, parts[k := parts[k] + t], z + t, extra && t == [])
  {
    hide Cut;
    CutGrows(size, z, t);
    var ps, k := Cut(size, z), |parts| - 1;
    if extra {
      assert k == |ps| && parts[k] == [] && parts[k] + t == t;
      if t == [] {
        assert z + t == z && parts[k := t] == parts;
      } else {
        assert parts[k := t] == ps + [t];
      }
    }
  }

  /** Extending chain `h` by the empty link `a`, after an allocation that kept it. */
  lemma ExtendedParts(s: Store, h: nat, a: nat)
    requires h in s.live && |s.live[h]| > 0 && s.Tail(h) < |s.mem| && a < |s.owner| && h != a
    ensures var e := s.Extended(h, a);
            && h in e.live && e.live[h] == s.live[h] + [a] && |e.mem| == |s.mem|
            && forall g :: g in s.live && g != h && g != a ==> g in e.live && e.live[g] == s.live[g]
  {
  }

  lemma Grown(s0: Store, s: Store, size: nat, h: nat, a: nat)
    requires s0.Keeps(s, h) && s.Ok(size) && h in s.live && a in s.live && h != a
    requires |s.live[h]| > 0 && s.Tail(h) < |s.mem| && a < |s.owner| == |s.mem| && s.mem[a].pos == s.mem[a].last
    ensures var e := s.Extended(h, a);
            && e.mem[a] == s.mem[a] && e.mem[a].Held() == []
            && forall k :: 0 <= k < |s0.live[h]| ==>
                 && s0.live[h][k] < |s0.mem| && s0.live[h][k] < |e.mem|
                 && e.mem[s0.live[h][k]].pos == s0.mem[s0.live[h][k]].pos
  {
    hide Store.Counted, Chain;
    s.ChainOf(h);
    s.ChainOf(a);
    forall k | 0 <= k < |s0.live[h]|
      ensures s0.live[h][k] < |s0.mem| && s.mem[s0.live[h][k]].pos == s0.mem[s0.live[h][k]].pos
    {
      var l, l' := s0.mem[s0.live[h][k]], s.mem[s0.live[h][k]];
      assert l'.(ref := 0).pos == l'.pos && l.(ref := 0).pos == l.pos;
    }
  }

  lemma PartsStored(s: Store, size: nat, h: nat, k: nat, l: Link)
    requires s.Ok(size) && h in s.live && k < |s.live[h]|
    ensures s.live[h][k] < |s.mem|
    ensures Parts(s.mem[s.live[h][k] := l], s.live[h]) == Parts(s.mem, s.live[h])[k := l.Held()]
  {
    hide Store.Counted;
    s.ChainOf(h);
  }

  lemma NoSlots(q: nat, ss: seq<Session>)
    requires forall i :: 0 <= i < |ss| ==> Shaped(q, ss[i]) && ss[i].pos == ss[i].last
    ensures Slots(q, ss) == multiset{}
  {
  }
}
