/**
 The input buffers of a session as cells of an arena: an address is an index, so chains can be relinked,
 shared or lost exactly as pointers can.
 */
module BufferArena {
  import opened Bytes
  import opened Pointers

  /** A chain link together with its buffer; `data` is the memory from the buffer's start to its end. */
  datatype Cell = Cell(data: seq<byte>, pos: nat, last: nat, next: Ptr)
  {
    ghost predicate Sane(size: nat) {
      pos <= last <= |data| == size
    }
  }

  type Arena = seq<Cell>

  ghost predicate InArena(mem: Arena, size: nat, links: seq<nat>) {
    forall i :: 0 <= i < |links| ==> links[i] < |mem| && mem[links[i]].Sane(size)
  }

  ghost predicate Distinct(links: seq<nat>) {
    forall i, j :: 0 <= i < j < |links| ==> links[i] != links[j]
  }

  function NextOf(links: seq<nat>, i: nat, after: Ptr): Ptr {
    if i + 1 < |links| then At(links[i + 1]) else after
  }

  /** Each link's `next` is the one after it, and the last one's is `after`. */
  ghost predicate Linked(mem: Arena, links: seq<nat>, after: Ptr)
    requires forall i :: 0 <= i < |links| ==> links[i] < |mem|
  {
    forall i :: 0 <= i < |links| ==> mem[links[i]].next == NextOf(links, i, after)
  }

  ghost predicate Chain(mem: Arena, size: nat, links: seq<nat>, after: Ptr) {
    InArena(mem, size, links) && Distinct(links) && Linked(mem, links, after)
  }

  function Last(links: seq<nat>): Ptr {
    if |links| == 0 then Null else At(links[|links| - 1])
  }

  /** The free chain (stream 0) ends in null and is held by its first link; a ring is held by its last one. */
  ghost predicate ChainOk(mem: Arena, size: nat, n: nat, links: seq<nat>, head: Ptr) {
    if n == 0 then Chain(mem, size, links, Null) && head == First(links)
    else Chain(mem, size, links, First(links)) && head == Last(links)
  }

  function Held(mem: Arena, a: nat): seq<byte> {
    if a < |mem| && mem[a].pos <= mem[a].last <= |mem[a].data| then mem[a].data[mem[a].pos..mem[a].last] else []
  }

  /** The bytes between `pos` and `last` of the links, in order. */
  ghost function Content(mem: Arena, links: seq<nat>): seq<byte> {
    if links == [] then [] else Content(mem, links[..|links| - 1]) + Held(mem, links[|links| - 1])
  }

  lemma ContentNext(mem: Arena, links: seq<nat>, i: nat)
    requires i < |links|
    ensures Content(mem, links[..i + 1]) == Content(mem, links[..i]) + Held(mem, links[i])
  {
    assert links[..i + 1][..i] == links[..i];
  }

  lemma NoContent(mem: Arena, links: seq<nat>)
    ensures Content(mem, links[..0]) == []
  {
  }

  /** The same buffer contents; only `next` may differ. */
  ghost predicate SameBytes(mem: Arena, mem': Arena, links: seq<nat>) {
    forall i :: 0 <= i < |links| ==>
      links[i] < |mem| && links[i] < |mem'| && mem'[links[i]].(next := Null) == mem[links[i]].(next := Null)
  }

  lemma {:induction false} ContentKept(mem: Arena, mem': Arena, links: seq<nat>)
    requires SameBytes(mem, mem', links)
    ensures Content(mem', links) == Content(mem, links)
  {
    if links != [] {
      var k := |links| - 1;
      ContentKept(mem, mem', links[..k]);
      var c, c' := mem[links[k]], mem'[links[k]];
      assert c'.(next := Null) == c.(next := Null);
      assert c'.(next := Null).data == c'.data && c'.(next := Null).pos == c'.pos && c'.(next := Null).last == c'.last;
    }
  }

  /** Writing cells outside a chain keeps it. */
  ghost predicate SameCells(mem: Arena, mem': Arena, links: seq<nat>) {
    forall i :: 0 <= i < |links| ==>
      links[i] < |mem| && links[i] < |mem'| && mem'[links[i]] == mem[links[i]]
  }

  lemma ChainKept(mem: Arena, mem': Arena, size: nat, n: nat, links: seq<nat>, head: Ptr)
    requires ChainOk(mem, size, n, links, head) && SameCells(mem, mem', links)
    ensures ChainOk(mem', size, n, links, head)
  {
  }

  /** Every cell is at exactly one place: on the chain of its owner, once. */
  ghost predicate Partition(chains: seq<seq<nat>>, owner: seq<nat>) {
    && (forall a :: 0 <= a < |owner| ==> owner[a] < |chains| && a in chains[owner[a]])
    && (forall n, i :: 0 <= n < |chains| && 0 <= i < |chains[n]| ==>
          chains[n][i] < |owner| && owner[chains[n][i]] == n)
  }

  /** A session's chains: those of the in_streams entries, whose `in` fields are `heads`. */
  ghost predicate ChainsOk(mem: Arena, size: nat, chains: seq<seq<nat>>, heads: seq<Ptr>, owner: seq<nat>) {
    && |chains| == |heads| > 0 && |owner| == |mem| && Partition(chains, owner)
    && forall n :: 0 <= n < |chains| ==> ChainOk(mem, size, n, chains[n], heads[n])
  }

  /** One of the chains: its links are its own. */
  lemma ChainOf(mem: Arena, size: nat, chains: seq<seq<nat>>, heads: seq<Ptr>, owner: seq<nat>, n: nat)
    requires ChainsOk(mem, size, chains, heads, owner) && n < |chains|
    ensures |heads| == |chains| && |owner| == |mem| && ChainOk(mem, size, n, chains[n], heads[n])
    ensures forall i :: 0 <= i < |chains[n]| ==> chains[n][i] < |mem| && owner[chains[n][i]] == n
    ensures heads[n] == if n == 0 then First(chains[n]) else Last(chains[n])
    ensures forall i, j :: 0 <= i < j < |chains[n]| ==> chains[n][i] != chains[n][j]
  {
    assert ChainOk(mem, size, n, chains[n], heads[n]);
  }

  lemma Others(mem: Arena, mem': Arena, size: nat, chains: seq<seq<nat>>, heads: seq<Ptr>, owner: seq<nat>, n: nat)
    requires ChainsOk(mem, size, chains, heads, owner) && n < |chains|
    requires |mem| <= |mem'|
    requires forall a :: 0 <= a < |mem| && owner[a] != n ==> mem'[a] == mem[a]
    ensures forall m :: 0 <= m < |chains| && m != n ==>
      ChainOk(mem', size, m, chains[m], heads[m])
  {
    forall m | 0 <= m < |chains| && m != n
      ensures ChainOk(mem', size, m, chains[m], heads[m])
    {
      ChainKept(mem, mem', size, m, chains[m], heads[m]);
    }
  }

  /** Moving the first free cell to the end of ring `n`. */
  lemma LinkOrphanOk(mem: Arena, mem': Arena, size: nat, chains: seq<seq<nat>>, heads: seq<Ptr>, owner: seq<nat>,
                     n: nat)
    requires ChainsOk(mem, size, chains, heads, owner) && 1 <= n < |chains| && chains[0] != []
    requires |mem'| == |mem|
    requires var b := chains[0][0];
             && mem'[b] == mem[b].(next := First(chains[n] + [b]))
             && forall a :: 0 <= a < |mem| && a != b ==>
                  mem'[a] == if At(a) == Last(chains[n]) then mem[a].(next := At(b)) else mem[a]
    ensures var b := chains[0][0];
            ChainsOk(mem', size, chains[0 := chains[0][1..]][n := chains[n] + [b]],
                     heads[0 := mem[b].next][n := At(b)], owner[b := n])
  {
    var b := chains[0][0];
    Heads(mem, size, chains, heads);
    PopAndPush(mem, mem', size, chains, heads, owner, n);
    PartitionMoved(chains, owner, n);
    hide Chain, ChainOk, Partition, First, Last;
    var chains', heads' := chains[0 := chains[0][1..]][n := chains[n] + [b]], heads[0 := mem[b].next][n := At(b)];
    forall m | 0 <= m < |chains| ensures ChainOk(mem', size, m, chains'[m], heads'[m]) {
      if 0 < m != n {
        assert chains'[m] == chains[m] && heads'[m] == heads[m];
      }
    }
  }

  /** Cell `b` put after a ring's last cell `tail`. */
  ghost function Relinked(mem: Arena, b: nat, tail: Ptr): (r: Arena)
    requires b < |mem| && (tail.At? ==> tail.addr < |mem|)
    ensures |r| == |mem|
  {
    if tail == Null then mem[b := mem[b].(next := At(b))]
    else mem[b := mem[b].(next := mem[tail.addr].next)][tail.addr := mem[tail.addr].(next := At(b))]
  }

  lemma OrphanOk(mem: Arena, size: nat, chains: seq<seq<nat>>, heads: seq<Ptr>, owner: seq<nat>, n: nat)
    requires ChainsOk(mem, size, chains, heads, owner) && 1 <= n < |chains| && chains[0] != []
    ensures var b := chains[0][0];
            && b < |mem| && heads[0] == At(b) && (heads[n].At? ==> heads[n].addr < |mem| && heads[n].addr != b)
            && var mem' := Relinked(mem, b, heads[n]);
            && ChainsOk(mem', size, chains[0 := chains[0][1..]][n := chains[n] + [b]],
                        heads[0 := mem[b].next][n := At(b)], owner[b := n])
            && mem'[b].(next := Null) == mem[b].(next := Null)
            && forall m :: 0 <= m < |chains| ==> SameBytes(mem, mem', chains[m])
  {
    hide ChainsOk, Chain, ChainOk, Partition;
    var b, ring := chains[0][0], chains[n];
    ChainOf(mem, size, chains, heads, owner, 0);
    ChainOf(mem, size, chains, heads, owner, n);
    assert owner[b] == 0 && (ring != [] ==> owner[ring[|ring| - 1]] == n);
    RingLast(mem, size, n, ring, heads[n]);
    LinkOrphanOk(mem, Relinked(mem, b, heads[n]), size, chains, heads, owner, n);
    forall m | 0 <= m < |chains| ensures SameBytes(mem, Relinked(mem, b, heads[n]), chains[m]) {
      ChainOf(mem, size, chains, heads, owner, m);
    }
  }

  /** The last link of a ring is followed by the first. */
  lemma RingLast(mem: Arena, size: nat, n: nat, ring: seq<nat>, head: Ptr)
    requires n > 0 && ChainOk(mem, size, n, ring, head)
    ensures head == Last(ring)
    ensures ring != [] ==> head.addr < |mem| && mem[head.addr].next == First(ring)
  {
  }

  lemma PopAndPush(mem: Arena, mem': Arena, size: nat, chains: seq<seq<nat>>, heads: seq<Ptr>, owner: seq<nat>, n: nat)
    requires ChainsOk(mem, size, chains, heads, owner) && 1 <= n < |chains| && chains[0] != []
    requires |mem'| == |mem|
    requires var b := chains[0][0];
             && mem'[b] == mem[b].(next := First(chains[n] + [b]))
             && forall a :: 0 <= a < |mem| && a != b ==>
                  mem'[a] == if At(a) == Last(chains[n]) then mem[a].(next := At(b)) else mem[a]
    ensures var b := chains[0][0];
            && ChainOk(mem', size, 0, chains[0][1..], mem[b].next)
            && ChainOk(mem', size, n, chains[n] + [b], At(b))
    ensures forall m :: 1 <= m < |chains| && m != n ==>
      ChainOk(mem', size, m, chains[m], heads[m])
  {
    hide ChainsOk, Chain, ChainOk, Partition;
    var b, free, ring := chains[0][0], chains[0], chains[n];
    ChainOf(mem, size, chains, heads, owner, 0);
    ChainOf(mem, size, chains, heads, owner, n);
    forall i | 0 <= i < |free| - 1
      ensures mem'[free[1..][i]] == mem[free[1..][i]]
    {
      assert free[1..][i] == free[i + 1] && free[i + 1] != b;
    }
    PopOk(mem, mem', size, free);
    LastMoved(mem, mem', ring, owner, n, b);
    CellOf(mem, size, 0, free, heads[0]);
    PushOk(mem, mem', size, n, ring, b);
    forall m | 1 <= m < |chains| && m != n
      ensures ChainOk(mem', size, m, chains[m], heads[m])
    {
      ChainOf(mem, size, chains, heads, owner, m);
      assert forall i :: 0 <= i < |chains[m]| ==> chains[m][i] != b && At(chains[m][i]) != Last(ring);
      ChainKept(mem, mem', size, m, chains[m], heads[m]);
    }
  }

  lemma CellOf(mem: Arena, size: nat, n: nat, links: seq<nat>, head: Ptr)
    requires ChainOk(mem, size, n, links, head)
    ensures forall i :: 0 <= i < |links| ==> links[i] < |mem| && mem[links[i]].Sane(size)
  {
  }

  /** Only the last link of a ring is told of the new one. */
  lemma LastMoved(mem: Arena, mem': Arena, ring: seq<nat>, owner: seq<nat>, n: nat, b: nat)
    requires |mem'| == |mem| == |owner| && n > 0 && b < |mem| && owner[b] == 0
    requires forall i :: 0 <= i < |ring| ==> ring[i] < |mem| && owner[ring[i]] == n
    requires forall i, j :: 0 <= i < j < |ring| ==> ring[i] != ring[j]
    requires forall a :: 0 <= a < |mem| && a != b ==>
      mem'[a] == if At(a) == Last(ring) then mem[a].(next := At(b)) else mem[a]
    ensures b !in ring
    ensures forall i :: 0 <= i < |ring| ==>
      mem'[ring[i]] == if i == |ring| - 1 then mem[ring[i]].(next := At(b)) else mem[ring[i]]
  {
  }

  lemma Heads(mem: Arena, size: nat, chains: seq<seq<nat>>, heads: seq<Ptr>)
    requires |chains| == |heads|
    requires forall n :: 0 <= n < |chains| ==> ChainOk(mem, size, n, chains[n], heads[n])
    ensures forall n :: 0 <= n < |chains| ==> heads[n] == if n == 0 then First(chains[n]) else Last(chains[n])
  {
  }

  lemma PopOk(mem: Arena, mem': Arena, size: nat, free: seq<nat>)
    requires ChainOk(mem, size, 0, free, First(free)) && free != []
    requires SameCells(mem, mem', free[1..])
    ensures ChainOk(mem', size, 0, free[1..], mem[free[0]].next)
  {
    var tail := free[1..];
    assert mem[free[0]].next == First(tail);
    forall i | 0 <= i < |tail|
      ensures mem'[tail[i]].next == NextOf(tail, i, Null)
    {
      assert tail[i] == free[i + 1];
    }
  }

  lemma PushOk(mem: Arena, mem': Arena, size: nat, n: nat, ring: seq<nat>, b: nat)
    requires n > 0 && ChainOk(mem, size, n, ring, Last(ring))
    requires b < |mem| == |mem'| && b !in ring && mem[b].Sane(size)
    requires mem'[b] == mem[b].(next := First(ring + [b]))
    requires forall i :: 0 <= i < |ring| ==>
      mem'[ring[i]] == if i == |ring| - 1 then mem[ring[i]].(next := At(b)) else mem[ring[i]]
    ensures ChainOk(mem', size, n, ring + [b], At(b))
  {
    assert InArena(mem', size, ring);
    PushLinked(mem, mem', ring, b);
    Snoc(mem', size, ring, b);
    hide Linked, InArena, Distinct;
  }

  lemma Snoc(mem: Arena, size: nat, links: seq<nat>, b: nat)
    requires InArena(mem, size, links) && Distinct(links)
    requires b < |mem| && mem[b].Sane(size) && b !in links
    ensures InArena(mem, size, links + [b]) && Distinct(links + [b])
  {
  }

  lemma PushLinked(mem: Arena, mem': Arena, ring: seq<nat>, b: nat)
    requires forall i :: 0 <= i < |ring| ==> ring[i] < |mem|
    requires Linked(mem, ring, First(ring))
    requires b < |mem| == |mem'| && b !in ring
    requires mem'[b].next == First(ring + [b])
    requires forall i :: 0 <= i < |ring| ==>
      mem'[ring[i]] == if i == |ring| - 1 then mem[ring[i]].(next := At(b)) else mem[ring[i]]
    ensures Linked(mem', ring + [b], First(ring + [b]))
  {
    var all := ring + [b];
    forall i | 0 <= i < |all| ensures mem'[all[i]].next == NextOf(all, i, First(all)) {
      if i < |ring| {
        assert all[i] == ring[i];
        assert i + 1 < |ring| ==> NextOf(ring, i, First(ring)) == At(all[i + 1]);
      }
    }
  }

  lemma PartitionMoved(chains: seq<seq<nat>>, owner: seq<nat>, n: nat)
    requires Partition(chains, owner) && 1 <= n < |chains| && chains[0] != [] && Distinct(chains[0])
    ensures var b := chains[0][0];
            Partition(chains[0 := chains[0][1..]][n := chains[n] + [b]], owner[b := n])
  {
    var b := chains[0][0];
    var chains', owner' := chains[0 := chains[0][1..]][n := chains[n] + [b]], owner[b := n];
    forall a | 0 <= a < |owner'| ensures a in chains'[owner'[a]] {
      assert a in chains[owner[a]];
      if a == b {
        assert chains'[n][|chains[n]|] == b;
      } else if owner[a] == n {
        var i :| 0 <= i < |chains[n]| && chains[n][i] == a;
        assert chains'[n][i] == a;
      }
    }
  }

  /** A ring cut open at its last cell is a null-terminated chain with the same bytes. */
  lemma OpenRing(mem: Arena, size: nat, n: nat, ring: seq<nat>, head: Ptr)
    requires n > 0 && ring != [] && ChainOk(mem, size, n, ring, head)
    ensures var a := ring[|ring| - 1]; var mem' := mem[a := mem[a].(next := Null)];
            && mem[a].next == First(ring) && Chain(mem', size, ring, Null)
            && Content(mem', ring) == Content(mem, ring)
  {
    hide ChainOk, Chain, Content, SameBytes;
    RingOf(mem, size, n, ring, head);
    var a := ring[|ring| - 1];
    var mem' := mem[a := mem[a].(next := Null)];
    Opened(mem, mem', size, ring, a);
    ContentKept(mem, mem', ring);
  }

  lemma RingOf(mem: Arena, size: nat, n: nat, ring: seq<nat>, head: Ptr)
    requires n > 0 && ring != [] && ChainOk(mem, size, n, ring, head)
    ensures Chain(mem, size, ring, First(ring)) && ring[|ring| - 1] < |mem|
    ensures mem[ring[|ring| - 1]].next == First(ring)
  {
    assert mem[ring[|ring| - 1]].next == NextOf(ring, |ring| - 1, First(ring));
  }

  /** Cutting behind the last link. */
  lemma Opened(mem: Arena, mem': Arena, size: nat, ring: seq<nat>, a: nat)
    requires Chain(mem, size, ring, First(ring)) && ring != [] && a == ring[|ring| - 1] < |mem|
    requires mem' == mem[a := mem[a].(next := Null)]
    ensures Chain(mem', size, ring, Null) && SameBytes(mem, mem', ring)
  {
    hide First;
  }

  /** Putting ring `n` before the free chain. */
  lemma ReleaseOk(mem: Arena, mem': Arena, size: nat, chains: seq<seq<nat>>, heads: seq<Ptr>, owner: seq<nat>, n: nat)
    requires ChainsOk(mem, size, chains, heads, owner) && 1 <= n < |chains| && chains[n] != []
    requires |mem'| == |mem|
    requires forall a :: 0 <= a < |mem| ==>
      mem'[a] == if At(a) == Last(chains[n]) then mem[a].(next := First(chains[0])) else mem[a]
    ensures ChainsOk(mem', size, chains[0 := chains[n] + chains[0]][n := []],
                     heads[0 := First(chains[n])][n := Null], Freed(owner, n))
  {
    Heads(mem, size, chains, heads);
    RingAndFree(mem, mem', size, chains, heads, owner, n);
    Others(mem, mem', size, chains, heads, owner, n);
    PartitionFreed(chains, owner, n);
    EmptyOk(mem', size, n);
    hide Chain, ChainOk, Freed, Partition, First, Last;
    var chains', heads' := chains[0 := chains[n] + chains[0]][n := []], heads[0 := First(chains[n])][n := Null];
    forall m | 0 <= m < |chains| ensures ChainOk(mem', size, m, chains'[m], heads'[m]) {
      if 0 < m != n {
        assert chains'[m] == chains[m] && heads'[m] == heads[m];
      }
    }
  }

  lemma RingAndFree(mem: Arena, mem': Arena, size: nat, chains: seq<seq<nat>>, heads: seq<Ptr>, owner: seq<nat>, n: nat)
    requires ChainsOk(mem, size, chains, heads, owner) && 1 <= n < |chains| && chains[n] != []
    requires |mem'| == |mem|
    requires forall a :: 0 <= a < |mem| ==>
      mem'[a] == if At(a) == Last(chains[n]) then mem[a].(next := First(chains[0])) else mem[a]
    ensures ChainOk(mem', size, 0, chains[n] + chains[0], First(chains[n]))
    ensures forall a :: 0 <= a < |mem| && owner[a] != n ==> mem'[a] == mem[a]
  {
    var ring, free := chains[n], chains[0];
    assert ChainOk(mem, size, n, ring, heads[n]) && ChainOk(mem, size, 0, free, heads[0]);
    assert forall i :: 0 <= i < |ring| ==> owner[ring[i]] == n;
    assert forall i :: 0 <= i < |free| ==> owner[free[i]] == 0;
    JoinOk(mem, mem', size, n, ring, free);
  }

  lemma EmptyOk(mem: Arena, size: nat, n: nat)
    ensures ChainOk(mem, size, n, [], Null)
  {
  }

  lemma JoinOk(mem: Arena, mem': Arena, size: nat, n: nat, ring: seq<nat>, free: seq<nat>)
    requires n > 0 && ring != [] && ChainOk(mem, size, n, ring, Last(ring)) && ChainOk(mem, size, 0, free, First(free))
    requires forall i, j :: 0 <= i < |ring| && 0 <= j < |free| ==> ring[i] != free[j]
    requires |mem'| == |mem| && SameCells(mem, mem', free)
    requires forall i :: 0 <= i < |ring| ==>
      mem'[ring[i]] == if i == |ring| - 1 then mem[ring[i]].(next := First(free)) else mem[ring[i]]
    ensures ChainOk(mem', size, 0, ring + free, First(ring))
  {
    var all := ring + free;
    assert First(all) == First(ring);
    forall i | 0 <= i < |all|
      ensures mem'[all[i]].next == NextOf(all, i, Null)
    {
      if i >= |ring| {
        assert all[i] == free[i - |ring|];
        assert mem'[free[i - |ring|]] == mem[free[i - |ring|]];
      } else {
        assert all[i] == ring[i];
      }
    }
  }

  ghost function Freed(owner: seq<nat>, n: nat): seq<nat> {
    seq(|owner|, a requires 0 <= a < |owner| => if owner[a] == n then 0 else owner[a])
  }

  lemma PartitionFreed(chains: seq<seq<nat>>, owner: seq<nat>, n: nat)
    requires Partition(chains, owner) && 1 <= n < |chains|
    ensures Partition(chains[0 := chains[n] + chains[0]][n := []], Freed(owner, n))
  {
  }

  /** A new cell, free. */
  lemma AllocOk(mem: Arena, c: Cell, size: nat, chains: seq<seq<nat>>, heads: seq<Ptr>, owner: seq<nat>)
    requires ChainsOk(mem, size, chains, heads, owner) && chains[0] == []
    requires c.Sane(size) && c.next == Null
    ensures ChainsOk(mem + [c], size, chains[0 := [|mem|]], heads[0 := At(|mem|)], owner + [0])
    ensures forall m :: 1 <= m < |chains| ==>
      ChainOk(mem + [c], size, m, chains[m], heads[m])
  {
    hide Partition, Chain;
    Others(mem, mem + [c], size, chains, heads, owner, 0);
    PartitionGrown(chains, owner);
    OneCell(mem, c, size);
  }

  lemma OneCell(mem: Arena, c: Cell, size: nat)
    requires c.Sane(size) && c.next == Null
    ensures Chain(mem + [c], size, [|mem|], Null)
  {
  }

  lemma PartitionGrown(chains: seq<seq<nat>>, owner: seq<nat>)
    requires Partition(chains, owner) && |chains| > 0 && chains[0] == []
    ensures Partition(chains[0 := [|owner|]], owner + [0])
  {
  }

  /** Filling a cell: its chain stays, whatever bytes it then holds. */
  lemma FillOk(mem: Arena, a: nat, c: Cell, size: nat, chains: seq<seq<nat>>, heads: seq<Ptr>, owner: seq<nat>)
    requires ChainsOk(mem, size, chains, heads, owner) && a < |mem|
    requires c.Sane(size) && c.next == mem[a].next
    ensures ChainsOk(mem[a := c], size, chains, heads, owner)
  {
    hide Chain, ChainOk, Partition;
    var n := OwnerOf(mem, size, chains, heads, owner, a);
    Others(mem, mem[a := c], size, chains, heads, owner, n);
    ChainFilled(mem, a, c, size, n, chains[n], heads[n]);
  }

  lemma OwnerOf(mem: Arena, size: nat, chains: seq<seq<nat>>, heads: seq<Ptr>, owner: seq<nat>, a: nat) returns (n: nat)
    requires ChainsOk(mem, size, chains, heads, owner) && a < |mem|
    ensures n < |chains| && n == owner[a] && ChainOk(mem, size, n, chains[n], heads[n])
  {
    n := owner[a];
  }

  lemma ChainFilled(mem: Arena, a: nat, c: Cell, size: nat, n: nat, links: seq<nat>, head: Ptr)
    requires ChainOk(mem, size, n, links, head) && a < |mem| && c.Sane(size) && c.next == mem[a].next
    ensures ChainOk(mem[a := c], size, n, links, head)
  {
  }
}
