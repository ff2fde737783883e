/**
 The shared output buffers of a server: links with a reference count on each chain's head, and a free list.
 Addresses are indices, so sharing and reuse are those of the pointers. Each step keeps every link at exactly one
 place and every reference counted.
 */
module SharedStore {
  import opened Bytes
  import opened Pointers

  const HEADROOM := 18

  /** A shared link with its buffer and, in front of it, its reference count. */
  datatype Link = Link(data: seq<byte>, pos: nat, last: nat, next: Ptr, ref: nat)
  {
    ghost predicate Sane(size: nat) {
      pos <= last <= |data| == HEADROOM + size
    }

    function Held(): seq<byte> {
      if pos <= last <= |data| then data[pos..last] else []
    }
  }

  function NextOf(links: seq<nat>, i: nat): Ptr {
    if i + 1 < |links| then At(links[i + 1]) else Null
  }

  ghost predicate Chain(mem: seq<Link>, links: seq<nat>) {
    && (forall i :: 0 <= i < |links| ==> links[i] < |mem| && mem[links[i]].next == NextOf(links, i))
    && (forall i, j :: 0 <= i < j < |links| ==> links[i] != links[j])
  }

  /** The bytes a chain sends, link by link. */
  ghost function Parts(mem: seq<Link>, links: seq<nat>): (r: seq<seq<byte>>)
    ensures |r| == |links|
  {
    seq(|links|, i requires 0 <= i < |links| => if links[i] < |mem| then mem[links[i]].Held() else [])
  }

  ghost function ChainBytes(mem: seq<Link>, links: seq<nat>): seq<byte> {
    Flatten(Parts(mem, links))
  }

  ghost function Disowned(owner: seq<Ptr>, h: nat): seq<Ptr> {
    seq(|owner|, a requires 0 <= a < |owner| => if owner[a] == At(h) then Null else owner[a])
  }

  /** Links `links` are the same but perhaps for the count. */
  ghost predicate SameLinks(mem: seq<Link>, mem': seq<Link>, links: seq<nat>) {
    forall i :: 0 <= i < |links| ==>
      links[i] < |mem| && links[i] < |mem'| && mem'[links[i]].(ref := 0) == mem[links[i]].(ref := 0)
  }

  lemma ChainKept(mem: seq<Link>, mem': seq<Link>, links: seq<nat>)
    requires Chain(mem, links) && SameLinks(mem, mem', links)
    ensures Chain(mem', links) && Parts(mem', links) == Parts(mem, links)
  {
    forall i | 0 <= i < |links|
      ensures mem'[links[i]].next == mem[links[i]].next && mem'[links[i]].Held() == mem[links[i]].Held()
    {
      var l, l' := mem[links[i]], mem'[links[i]];
      assert l'.(ref := 0).next == l'.next && l'.(ref := 0).Held() == l'.Held();
      assert l.(ref := 0).next == l.next && l.(ref := 0).Held() == l.Held();
    }
  }

  /** A chain without its first link. */
  lemma ChainTail(mem: seq<Link>, mem': seq<Link>, links: seq<nat>)
    requires Chain(mem, links) && links != []
    requires forall i :: 0 < i < |links| ==> links[i] < |mem'| && links[i] < |mem| && mem'[links[i]] == mem[links[i]]
    ensures Chain(mem', links[1..]) && links[0] < |mem| && mem[links[0]].next == First(links[1..])
  {
    var rest := links[1..];
    forall i | 0 <= i < |rest| ensures rest[i] < |mem'| && mem'[rest[i]].next == NextOf(rest, i) {
      assert rest[i] == links[i + 1] && mem[links[i + 1]].next == NextOf(links, i + 1);
    }
    assert mem[links[0]].next == NextOf(links, 0);
  }

  lemma ChainOne(mem: seq<Link>, a: nat)
    ensures a < |mem| && mem[a].next == Null ==> Chain(mem, [a])
  {
  }

  lemma NoChain(mem: seq<Link>, mem': seq<Link>)
    ensures Chain(mem, []) && Chain(mem', [])
  {
  }

  /**
   The store: its links and free list, with where every link is (`owner`: the head of its live chain, or Null when
   free) and a multiset of every reference held on a head, by whoever made or queued it.
   */
  datatype Store = Store(mem: seq<Link>, free: Ptr, freeList: seq<nat>, live: map<nat, seq<nat>>,
                         owner: seq<Ptr>, held: multiset<nat>)
  {
    /** Every link is on exactly one live chain or on the free list, once. */
    ghost predicate Placed() {
      && |owner| == |mem|
      && (forall a :: 0 <= a < |mem| ==>
            match owner[a] case Null => a in freeList case At(h) => h in live && a in live[h])
      && (forall i :: 0 <= i < |freeList| ==> freeList[i] < |mem| && owner[freeList[i]] == Null)
      && (forall h, i :: h in live && 0 <= i < |live[h]| ==> live[h][i] < |mem| && owner[live[h][i]] == At(h))
    }

    ghost predicate Chained() {
      && Chain(mem, freeList) && free == First(freeList)
      && forall h :: h in live ==> |live[h]| > 0 && live[h][0] == h && Chain(mem, live[h])
    }

    /** A head's count is the number of references held on it; a chain nobody holds is not live. */
    ghost predicate Counted()
      requires Placed() && Chained()
    {
      && (forall h :: h in live ==> mem[h].ref == held[h] > 0)
      && (forall h :: h in held ==> h in live)
    }

    ghost predicate Ok(size: nat) {
      && Placed() && Chained() && Counted()
      && forall a :: 0 <= a < |mem| ==> mem[a].Sane(size)
    }

    /** Chain `g` is live in both stores, with the same links and bytes. */
    ghost predicate Keeps(other: Store, g: nat) {
      g in live && g in other.live && other.live[g] == live[g] && SameLinks(mem, other.mem, live[g])
    }

    /** Taking the first free link, or a new one, as a chain of its own with one reference. */
    ghost function Allocated(l: Link): Store {
      if freeList == [] then
        Store(mem + [l], free, [], live[|mem| := [|mem|]], owner + [At(|mem|)], held + multiset{|mem|})
      else
        var a := freeList[0];
        if a < |mem| && a < |owner| then
          Store(mem[a := l], mem[a].next, freeList[1..], live[a := [a]], owner[a := At(a)], held + multiset{a})
        else this
    }

    ghost function Next(): nat {
      if freeList == [] then |mem| else freeList[0]
    }

    lemma NextIsNew(size: nat)
      requires Ok(size)
      ensures Next() !in live && held[Next()] == 0
      ensures forall h, i :: h in live && 0 <= i < |live[h]| ==> live[h][i] != Next()
      ensures freeList != [] ==> Next() < |mem| == |owner|
    {
      forall h | h in live ensures h != Next() {
        assert live[h][0] == h;
      }
    }

    lemma FreeDistinct(size: nat)
      requires Ok(size)
      ensures forall i, j :: 0 <= i < j < |freeList| ==> freeList[i] != freeList[j]
    {
    }

    lemma PlacedParts(size: nat)
      requires Ok(size)
      ensures Placed()
    {
    }

    lemma AllocatedPlaced(size: nat, l: Link)
      requires Ok(size) && (freeList != [] ==> l.next == Null)
      ensures Allocated(l).Placed()
    {
      hide Store.Ok, Store.Chained, Store.Counted, Chain;
      NextIsNew(size);
      FreeDistinct(size);
      PlacedParts(size);
      var a, s := Next(), Allocated(l);
      forall b | 0 <= b < |s.mem|
        ensures match s.owner[b] case Null => b in s.freeList case At(h) => h in s.live && b in s.live[h]
      {
        if b == a {
          assert s.live[a][0] == a;
        } else if owner[b] == Null {
          var i :| 0 <= i < |freeList| && freeList[i] == b;
          assert s.freeList[i - 1] == b;
        }
      }
      forall i | 0 <= i < |s.freeList|
        ensures s.freeList[i] < |s.mem| && s.owner[s.freeList[i]] == Null
      {
        assert s.freeList[i] == freeList[i + 1] && freeList[i + 1] != freeList[0];
      }
    }

    lemma AllocatedChained(size: nat, l: Link)
      requires Ok(size) && l.next == Null
      ensures Allocated(l).Chained()
    {
      hide Chain, Store.Placed, Store.Counted;
      NextIsNew(size);
      FreeOf();
      var a, s := Next(), Allocated(l);
      if freeList != [] {
        FreeDistinct(size);
        assert forall i :: 0 < i < |freeList| ==> freeList[i] != freeList[0];
        ChainTail(mem, s.mem, freeList);
      } else {
        NoChain(mem, s.mem);
      }
      forall h | h in live ensures Chain(s.mem, live[h]) {
        ChainOf(h);
        ChainKept(mem, s.mem, live[h]);
      }
      ChainOne(s.mem, a);
    }

    lemma AllocatedOk(size: nat, l: Link)
      requires Ok(size) && l.Sane(size) && l.next == Null && l.ref == 1
      ensures Allocated(l).Ok(size) && Next() !in live
      ensures var a := Next();
              && a < |Allocated(l).mem| && |Allocated(l).mem| >= |mem| && Allocated(l).mem[a] == l
              && Allocated(l).live == live[a := [a]] && Allocated(l).held == held + multiset{a}
      ensures forall g :: g in live ==> Keeps(Allocated(l), g)
    {
      hide Store.Placed, Store.Chained, Store.Counted;
      NextIsNew(size);
      AllocatedPlaced(size, l);
      AllocatedChained(size, l);
      AllocatedCounted(size, l);
      Lengths();
      forall g | g in live ensures Keeps(Allocated(l), g) {
        ChainOf(g);
      }
    }

    lemma AllocatedCounted(size: nat, l: Link)
      requires Ok(size) && l.next == Null && l.ref == 1
      requires Allocated(l).Placed() && Allocated(l).Chained()
      ensures Allocated(l).Counted()
    {
      hide Chain, Store.Placed, Store.Chained;
      NextIsNew(size);
      HeadsInside();
    }

    lemma Lengths()
      requires Placed()
      ensures |mem| == |owner|
    {
    }

    lemma HeadsInside()
      requires Placed() && Chained()
      ensures forall h :: h in live ==> h < |mem|
    {
      forall h | h in live ensures h < |mem| {
        assert live[h][0] == h;
      }
    }

    /** One more reference on head `h`. */
    ghost function Acquired(h: nat): Store
      requires h < |mem|
    {
      this.(mem := mem[h := mem[h].(ref := mem[h].ref + 1)], held := held + multiset{h})
    }

    lemma AcquiredOk(size: nat, h: nat)
      requires Ok(size) && h in live
      ensures h < |mem| && Acquired(h).Ok(size)
      ensures forall g :: g in live ==> Keeps(Acquired(h), g)
    {
      hide Store.Chained, Store.Placed, Chain, Parts;
      HeadsInside();
      PlacedKept(Acquired(h).mem);
      RefKept(Acquired(h).mem);
    }

    lemma PlacedKept(mem': seq<Link>)
      requires Placed() && |mem'| == |mem|
      ensures this.(mem := mem').Placed()
      ensures forall n: multiset<nat> :: this.(mem := mem', held := n).Placed()
    {
    }

    /** Changing counts only moves no link and no byte. */
    lemma RefKept(mem': seq<Link>)
      requires Placed() && Chained() && |mem'| == |mem|
      requires forall a :: 0 <= a < |mem| ==> mem'[a].(ref := 0) == mem[a].(ref := 0)
      ensures forall n: multiset<nat> :: this.(mem := mem', held := n).Chained()
      ensures forall h :: h in live ==> Chain(mem', live[h]) && SameLinks(mem, mem', live[h])
    {
      ChainKept(mem, mem', freeList);
      forall h | h in live ensures Chain(mem', live[h]) && SameLinks(mem, mem', live[h]) {
        ChainKept(mem, mem', live[h]);
      }
    }

    /** One reference less on head `h`, which keeps others. */
    ghost function Dropped(h: nat): Store
      requires h < |mem| && mem[h].ref > 0
    {
      this.(mem := mem[h := mem[h].(ref := mem[h].ref - 1)], held := held - multiset{h})
    }

    lemma DroppedOk(size: nat, h: nat)
      requires Ok(size) && h in live && held[h] > 1
      ensures h < |mem| && mem[h].ref == held[h] && Dropped(h).Ok(size)
      ensures forall g :: g in live ==> Keeps(Dropped(h), g)
    {
      hide Store.Chained, Store.Placed, Chain, Parts;
      HeadsInside();
      PlacedKept(Dropped(h).mem);
      RefKept(Dropped(h).mem);
    }

    ghost function Tail(h: nat): nat
      requires h in live && |live[h]| > 0
    {
      live[h][|live[h]| - 1]
    }

    /** The last reference on head `h` is gone: its links go before the free ones. */
    ghost function Freed(h: nat): Store
      requires h in live && |live[h]| > 0 && h < |mem| && Tail(h) < |mem| && |owner| == |mem|
    {
      var mem1 := mem[h := mem[h].(ref := 0)];
      Store(mem1[Tail(h) := mem1[Tail(h)].(next := free)], At(h), live[h] + freeList, live - {h},
            Disowned(owner, h), held - multiset{h})
    }

    lemma HeadInside(h: nat)
      requires Placed() && Chained() && h in live
      ensures |live[h]| > 0 && h < |mem| && Tail(h) < |mem| == |owner|
    {
      assert live[h][0] == h;
    }

    /** What the invariant says of one live chain. */
    lemma ChainOf(h: nat)
      requires Placed() && Chained() && h in live
      ensures |live[h]| > 0 && live[h][0] == h && Chain(mem, live[h]) && |owner| == |mem|
      ensures forall i :: 0 <= i < |live[h]| ==> live[h][i] < |mem| && owner[live[h][i]] == At(h)
    {
    }

    lemma FreeOf()
      requires Placed() && Chained()
      ensures Chain(mem, freeList) && free == First(freeList) && |owner| == |mem|
      ensures forall i :: 0 <= i < |freeList| ==> freeList[i] < |mem| && owner[freeList[i]] == Null
    {
    }

    lemma FreedPlaced(size: nat, h: nat)
      requires Ok(size) && h in live
      requires |live[h]| > 0 && h < |mem| && Tail(h) < |mem| && |owner| == |mem|
      ensures Freed(h).Placed()
    {
      var s := Freed(h);
      forall a | 0 <= a < |mem|
        ensures match s.owner[a] case Null => a in s.freeList case At(g) => g in s.live && a in s.live[g]
      {
        if owner[a] == At(h) {
          assert a in live[h];
        }
      }
    }

    lemma FreedSplice(size: nat, h: nat)
      requires Ok(size) && h in live
      requires |live[h]| > 0 && h < |mem| && Tail(h) < |mem| && |owner| == |mem|
      ensures Chain(Freed(h).mem, live[h] + freeList)
    {
      hide Store.Counted, Store.Placed, Store.Chained, Store.Ok, Chain;
      OkParts(size);
      ChainOf(h);
      FreeOf();
      SpliceMem(mem, Freed(h).mem, live[h], freeList);
    }

    lemma OkParts(size: nat)
      requires Ok(size)
      ensures Placed() && Chained() && Counted()
    {
    }

    lemma FreedOthers(size: nat, h: nat, g: nat)
      requires Ok(size) && h in live && g in live && g != h
      requires |live[h]| > 0 && h < |mem| && Tail(h) < |mem| && |owner| == |mem|
      ensures Chain(Freed(h).mem, live[g]) && SameLinks(mem, Freed(h).mem, live[g])
    {
      hide Store.Counted, Parts;
      assert forall i :: 0 <= i < |live[g]| ==> owner[live[g][i]] == At(g);
      assert owner[live[h][0]] == At(h) && owner[Tail(h)] == At(h);
      ChainKept(mem, Freed(h).mem, live[g]);
    }

    lemma FreedOk(size: nat, h: nat)
      requires Ok(size) && h in live && held[h] == 1
      ensures |live[h]| > 0 && h < |mem| && Tail(h) < |mem| && |owner| == |mem| && mem[h].ref == 1
      ensures Freed(h).Ok(size)
      ensures forall g :: g in live && g != h ==> Keeps(Freed(h), g)
    {
      hide Store.Placed, Store.Counted, Chain, Parts;
      HeadInside(h);
      FreedPlaced(size, h);
      FreedSplice(size, h);
      FreedCounted(size, h);
      forall g | g in live && g != h ensures Chain(Freed(h).mem, live[g]) && Keeps(Freed(h), g) {
        FreedOthers(size, h, g);
      }
    }

    lemma FreedCounted(size: nat, h: nat)
      requires Ok(size) && h in live && held[h] == 1
      requires |live[h]| > 0 && h < |mem| && Tail(h) < |mem| && |owner| == |mem|
      ensures mem[h].ref == 1
      ensures Freed(h).Placed() && Freed(h).Chained() ==> Freed(h).Counted()
    {
      hide Chain;
      HeadsInside();
    }

    /** Link `a`, a chain of its own, put at the end of chain `h`. */
    ghost function Extended(h: nat, a: nat): Store
      requires h in live && |live[h]| > 0 && Tail(h) < |mem| && a < |owner|
    {
      this.(mem := mem[Tail(h) := mem[Tail(h)].(next := At(a))], live := (live - {a})[h := live[h] + [a]],
            owner := owner[a := At(h)], held := held - multiset{a})
    }

    lemma ExtendedPlaced(size: nat, h: nat, a: nat)
      requires Ok(size) && h in live && a in live && h != a && live[a] == [a]
      requires |live[h]| > 0 && Tail(h) < |mem| == |owner| && a < |owner|
      ensures Extended(h, a).Placed()
    {
      hide Store.Counted, Store.Chained, Chain, Link.Sane;
      var s := Extended(h, a);
      forall b | 0 <= b < |mem|
        ensures match s.owner[b] case Null => b in s.freeList case At(g) => g in s.live && b in s.live[g]
      {
        if b == a {
          assert s.live[h][|live[h]|] == a;
        } else if owner[b] == At(h) {
          var i :| 0 <= i < |live[h]| && live[h][i] == b;
          assert s.live[h][i] == b;
        }
      }
      assert owner[live[a][0]] == At(a);
    }

    lemma ExtendedChain(size: nat, h: nat, a: nat)
      requires Ok(size) && h in live && a in live && h != a && live[a] == [a]
      requires |live[h]| > 0 && Tail(h) < |mem| == |owner| && a < |owner|
      ensures Chain(Extended(h, a).mem, live[h] + [a])
      ensures Parts(Extended(h, a).mem, live[h] + [a]) == Parts(mem, live[h]) + [mem[a].Held()]
    {
      hide Store.Counted, Store.Placed, Store.Chained, Store.Ok, Chain;
      OkParts(size);
      ChainOf(h);
      ChainOf(a);
      assert [a][0] == a && Parts(mem, [a]) == [mem[a].Held()];
      SpliceMem(mem, Extended(h, a).mem, live[h], [a]);
    }

    lemma ExtendedOk(size: nat, h: nat, a: nat)
      requires Ok(size) && h in live && a in live && h != a && live[a] == [a] && held[a] == 1
      ensures |live[h]| > 0 && Tail(h) < |mem| == |owner| && a < |owner|
      ensures Extended(h, a).Ok(size)
      ensures Parts(Extended(h, a).mem, live[h] + [a]) == Parts(mem, live[h]) + [mem[a].Held()]
      ensures forall g :: g in live && g != h && g != a ==> Keeps(Extended(h, a), g)
    {
      hide Store.Placed, Store.Chained, Store.Counted, Chain, Parts;
      OkParts(size);
      HeadInside(h);
      HeadInside(a);
      ExtendedPlaced(size, h, a);
      ExtendedChain(size, h, a);
      forall g | g in live && g != h && g != a
        ensures Chain(Extended(h, a).mem, live[g]) && Keeps(Extended(h, a), g)
      {
        ExtendedOthers(size, h, a, g);
      }
      ExtendedFree(size, h, a);
      ExtendedChained(size, h, a);
      ExtendedCounted(size, h, a);
      ExtendedSane(size, h, a);
    }

    lemma ExtendedChained(size: nat, h: nat, a: nat)
      requires Ok(size) && h in live && a in live && h != a && live[a] == [a]
      requires |live[h]| > 0 && Tail(h) < |mem| == |owner| && a < |owner|
      requires Chain(Extended(h, a).mem, live[h] + [a]) && Chain(Extended(h, a).mem, freeList)
      requires forall g :: g in live && g != h && g != a ==> Chain(Extended(h, a).mem, live[g])
      ensures Extended(h, a).Chained()
    {
      hide Chain, Store.Placed, Parts;
    }

    lemma ExtendedCounted(size: nat, h: nat, a: nat)
      requires Ok(size) && h in live && a in live && h != a && live[a] == [a] && held[a] == 1
      requires |live[h]| > 0 && Tail(h) < |mem| == |owner| && a < |owner|
      requires Extended(h, a).Placed() && Extended(h, a).Chained()
      ensures Extended(h, a).Counted()
    {
      hide Chain, Parts, Store.Placed, Store.Chained, Link.Sane;
      HeadsInside();
    }

    lemma ExtendedSane(size: nat, h: nat, a: nat)
      requires Ok(size) && h in live && a in live
      requires |live[h]| > 0 && Tail(h) < |mem| == |owner| && a < |owner|
      ensures forall b :: 0 <= b < |Extended(h, a).mem| ==> Extended(h, a).mem[b].Sane(size)
    {
      hide Chain, Store.Placed, Store.Chained, Store.Counted, Parts;
    }

    lemma ExtendedOthers(size: nat, h: nat, a: nat, g: nat)
      requires Ok(size) && h in live && a in live && g in live && g != h
      requires |live[h]| > 0 && Tail(h) < |mem| == |owner| && a < |owner|
      ensures Chain(Extended(h, a).mem, live[g]) && SameLinks(mem, Extended(h, a).mem, live[g])
    {
      hide Store.Counted, Parts;
      assert forall i :: 0 <= i < |live[g]| ==> owner[live[g][i]] == At(g);
      assert owner[Tail(h)] == At(h);
      ChainKept(mem, Extended(h, a).mem, live[g]);
    }

    lemma ExtendedFree(size: nat, h: nat, a: nat)
      requires Ok(size) && h in live
      requires |live[h]| > 0 && Tail(h) < |mem| == |owner| && a < |owner|
      ensures Chain(Extended(h, a).mem, freeList)
    {
      hide Store.Counted, Parts;
      assert forall i :: 0 <= i < |freeList| ==> owner[freeList[i]] == Null;
      assert owner[Tail(h)] == At(h);
      ChainKept(mem, Extended(h, a).mem, freeList);
    }

    /** Link `a` rewritten in place: its buffer and bounds change, its place and count do not. */
    ghost function Written(a: nat, l: Link): Store
      requires a < |mem|
    {
      this.(mem := mem[a := l])
    }

    lemma WrittenOk(size: nat, a: nat, l: Link)
      requires Ok(size) && a < |mem| && l.Sane(size) && l.next == mem[a].next && l.ref == mem[a].ref
      ensures Written(a, l).Ok(size)
      ensures forall g :: g in live && a !in live[g] ==> Keeps(Written(a, l), g)
    {
      hide Store.Placed, Store.Chained, Store.Counted, Parts;
      OkParts(size);
      PlacedKept(Written(a, l).mem);
      WrittenChained(a, l);
      WrittenCounted(a, l);
      forall g | g in live && a !in live[g] ensures Keeps(Written(a, l), g) {
        ChainOf(g);
      }
    }

    lemma WrittenChained(a: nat, l: Link)
      requires Placed() && Chained() && a < |mem| && l.next == mem[a].next
      ensures Written(a, l).Chained()
    {
      hide Chain, Store.Placed;
      forall h | h in live
        ensures Chain(mem[a := l], live[h])
      {
        RewrittenChain(mem, a, l, live[h]);
      }
      RewrittenChain(mem, a, l, freeList);
    }

    lemma WrittenCounted(a: nat, l: Link)
      requires Placed() && Chained() && Counted() && a < |mem| && l.ref == mem[a].ref
      requires Written(a, l).Placed() && Written(a, l).Chained()
      ensures Written(a, l).Counted()
    {
      hide Chain;
      HeadsInside();
    }
  }

  lemma RewrittenChain(mem: seq<Link>, a: nat, l: Link, links: seq<nat>)
    requires Chain(mem, links) && a < |mem| && l.next == mem[a].next
    ensures Chain(mem[a := l], links)
  {
  }

  lemma SpliceMem(mem: seq<Link>, mem': seq<Link>, a: seq<nat>, b: seq<nat>)
    requires |a| > 0 && Chain(mem, a) && Chain(mem, b) && |mem'| == |mem|
    requires forall i, j :: 0 <= i < |a| && 0 <= j < |b| ==> a[i] != b[j]
    requires forall i :: 0 <= i < |b| ==> mem'[b[i]] == mem[b[i]]
    requires forall i :: 0 <= i < |a| ==>
      mem'[a[i]].next == (if i == |a| - 1 then First(b) else mem[a[i]].next) && mem'[a[i]].Held() == mem[a[i]].Held()
    ensures Chain(mem', a + b) && Parts(mem', a + b) == Parts(mem, a) + Parts(mem, b)
  {
    hide Link.Held;
    SplicedChain(mem', a, b);
    SplicedParts(mem, mem', a, b);
  }

  lemma SplicedParts(mem: seq<Link>, mem': seq<Link>, a: seq<nat>, b: seq<nat>)
    requires |mem'| == |mem| && forall i :: 0 <= i < |a| ==> a[i] < |mem| && mem'[a[i]].Held() == mem[a[i]].Held()
    requires forall i :: 0 <= i < |b| ==> b[i] < |mem| && mem'[b[i]].Held() == mem[b[i]].Held()
    ensures Parts(mem', a + b) == Parts(mem, a) + Parts(mem, b)
  {
    hide Link.Held;
    var p, q := Parts(mem', a + b), Parts(mem, a) + Parts(mem, b);
    forall i | 0 <= i < |p| ensures p[i] == q[i] {
      assert (a + b)[i] == if i < |a| then a[i] else b[i - |a|];
    }
  }

  /** Two disjoint chains, the first's last link pointing at the second, are one chain. */
  lemma SplicedChain(mem: seq<Link>, a: seq<nat>, b: seq<nat>)
    requires |a| > 0
    requires forall i :: 0 <= i < |a| ==>
      a[i] < |mem| && mem[a[i]].next == if i == |a| - 1 then First(b) else NextOf(a, i)
    requires forall i, j :: 0 <= i < j < |a| ==> a[i] != a[j]
    requires Chain(mem, b)
    requires forall i, j :: 0 <= i < |a| && 0 <= j < |b| ==> a[i] != b[j]
    ensures Chain(mem, a + b)
  {
    var all := a + b;
    forall i | 0 <= i < |all| ensures all[i] < |mem| && mem[all[i]].next == NextOf(all, i) {
      if i < |a| {
        assert all[i] == a[i];
      } else {
        assert all[i] == b[i - |a|] && mem[b[i - |a|]].next == NextOf(b, i - |a|);
      }
    }
  }
}
