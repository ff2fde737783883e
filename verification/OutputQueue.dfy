/** The circular queue of a session's outgoing messages: its arithmetic, and what a push and a pop do to it. */
module OutputQueue {
  /** size_t wraps here. */
  const SIZE_T := 0x1_0000_0000_0000_0000

  /** Messages queued, as the sender computes it: an unsigned subtraction, then the queue size. */
  function Occupied(q: nat, pos: nat, last: nat): nat
    requires q > 0
  {
    (last as int - pos) % SIZE_T % q
  }

  /** Messages in the slots from `pos` up to `last`, going round. */
  function Count(q: nat, pos: nat, last: nat): nat
    requires pos < q && last < q
  {
    if pos <= last then last - pos else last + q - pos
  }

  lemma ModOfSum(x: int, q: nat, k: int)
    requires q > 0
    ensures (x + q * k) % q == x % q
    decreases if k < 0 then -k else k
  {
    if k > 0 {
      ModOfSum(x + q, q, k - 1);
      assert x + q * k == (x + q) + q * (k - 1);
      assert (x + q) % q == x % q by { ModPlus(x, q); }
    } else if k < 0 {
      ModOfSum(x, q, k + 1);
      var y := x + q * k;
      assert y + q == x + q * (k + 1);
      ModPlus(y, q);
    }
  }

  lemma ModPlus(x: int, q: nat)
    requires q > 0
    ensures (x + q) % q == x % q
  {
    var d, m := x / q, x % q;
    assert x + q == q * (d + 1) + m;
    ModUnique(x + q, q, d + 1, m);
  }

  lemma ModUnique(x: int, q: nat, d: int, m: int)
    requires q > 0 && x == q * d + m && 0 <= m < q
    ensures x % q == m && x / q == d
  {
    var e := x / q - d;
    assert q * e == m - x % q;
    MulSign(q, e);
  }

  lemma MulSign(q: nat, e: int)
    ensures e > 0 ==> q * e >= q
    ensures e < 0 ==> q * e <= 0 - q
  {
  }

  /** The subtraction is right for every pair of positions exactly when the queue size divides the wrap. */
  lemma OccupiedExact(q: nat)
    requires q > 0
    ensures (forall pos, last :: 0 <= pos < q && 0 <= last < q ==> Occupied(q, pos, last) == Count(q, pos, last))
            <==> SIZE_T % q == 0 && q <= SIZE_T
  {
    if SIZE_T % q == 0 && q <= SIZE_T {
      forall pos, last | 0 <= pos < q && 0 <= last < q
        ensures Occupied(q, pos, last) == Count(q, pos, last)
      {
        OccupiedIsCount(q, pos, last);
      }
    } else if q > SIZE_T {
      assert Occupied(q, 0, SIZE_T) == 0 % q by { ModUnique(SIZE_T, SIZE_T, 1, 0); }
      ModUnique(0, q, 0, 0);
      assert Count(q, 0, SIZE_T) == SIZE_T;
    } else {
      ModUnique(SIZE_T, 1, SIZE_T, 0);
      assert q > 1;
      ModUnique(-1, SIZE_T, -1, SIZE_T - 1);
      assert Occupied(q, 1, 0) == (SIZE_T - 1) % q;
      if (SIZE_T - 1) % q == q - 1 {
        var d := (SIZE_T - 1) / q;
        assert SIZE_T == q * (d + 1) + 0;
        ModUnique(SIZE_T, q, d + 1, 0);
      }
      assert Count(q, 1, 0) == q - 1;
    }
  }

  /** A queue of three slots: one message across the wrap is counted as two. */
  lemma QueueOfThree()
    ensures Count(3, 2, 0) == 1 && Occupied(3, 2, 0) == 2
  {
    assert 0x1_0000_0000_0000_0000 - 2 == 3 * 0x5555_5555_5555_5554 + 2;
  }

  lemma OccupiedIsCount(q: nat, pos: nat, last: nat)
    requires q > 0 && SIZE_T % q == 0 && q <= SIZE_T && pos < q && last < q
    ensures Occupied(q, pos, last) == Count(q, pos, last)
  {
    if pos <= last {
      ModUnique(last - pos, SIZE_T, 0, last - pos);
      ModUnique(last - pos, q, 0, last - pos);
    } else {
      ModUnique(last - pos, SIZE_T, -1, SIZE_T + last - pos);
      var k := SIZE_T / q;
      assert SIZE_T == q * k;
      ModOfSum(last - pos, q, k);
      ModUnique(last - pos, q, -1, q + last - pos);
    }
  }

  /** The slots kept free for messages of a higher priority. */
  function Spare(q: nat, prio: nat): nat {
    (if prio > 3 then 3 else prio) * q / 4
  }

  /** Whether a message of priority `prio` is queued; larger numbers are dropped sooner, and one slot stays free. */
  predicate Accepts(q: nat, pos: nat, last: nat, prio: nat)
    requires q > 0
  {
    Occupied(q, pos, last) + 1 + Spare(q, prio) < q
  }

  /** Priority 0 is refused by the last free slot only; 1, 2 and from 3 on need so many quarters of the queue free. */
  lemma AcceptsExact(q: nat, pos: nat, last: nat, prio: nat)
    requires q > 0 && SIZE_T % q == 0 && q <= SIZE_T && pos < q && last < q
    ensures prio == 0 ==> (Accepts(q, pos, last, prio) <==> Count(q, pos, last) + 1 != q)
    ensures prio == 1 ==> (Accepts(q, pos, last, prio) <==> Count(q, pos, last) + 1 + q / 4 < q)
    ensures prio == 2 ==> (Accepts(q, pos, last, prio) <==> Count(q, pos, last) + 1 + 2 * q / 4 < q)
    ensures prio >= 3 ==> (Accepts(q, pos, last, prio) <==> Count(q, pos, last) + 1 + 3 * q / 4 < q)
  {
    hide Occupied;
    OccupiedIsCount(q, pos, last);
  }

  /** What is accepted at one priority is accepted at every smaller number. */
  lemma AcceptsSmaller(q: nat, pos: nat, last: nat, prio: nat, smaller: nat)
    requires q > 0 && SIZE_T % q == 0 && q <= SIZE_T && pos < q && last < q
    requires smaller <= prio && Accepts(q, pos, last, prio)
    ensures Accepts(q, pos, last, smaller)
  {
    hide Accepts;
    AcceptsExact(q, pos, last, prio);
    AcceptsExact(q, pos, last, smaller);
  }

  function Slot(q: nat, pos: nat, i: nat): (s: nat)
    requires pos < q && i < q
    ensures s < q
  {
    if pos + i < q then pos + i else pos + i - q
  }

  /** The queued messages, oldest first. */
  function Queued(q: nat, out: seq<nat>, pos: nat, last: nat): (r: seq<nat>)
    requires |out| == q && pos < q && last < q
    ensures |r| == Count(q, pos, last)
  {
    seq(Count(q, pos, last), i requires 0 <= i < Count(q, pos, last) => out[Slot(q, pos, i)])
  }

  /** Stepping a position, as the code does it with a remainder. */
  lemma StepIs(q: nat, p: nat)
    requires p < q
    ensures (p + 1) % q == if p + 1 == q then 0 else p + 1
  {
    if p + 1 == q {
      ModUnique(p + 1, q, 1, 0);
    } else {
      ModUnique(p + 1, q, 0, p + 1);
    }
  }

  /** An accepted message goes last, and its slot leaves the queue short of full by its priority's share. */
  lemma Push(q: nat, out: seq<nat>, pos: nat, last: nat, prio: nat, h: nat)
    requires q > 0 && SIZE_T % q == 0 && q <= SIZE_T && |out| == q && pos < q && last < q && Accepts(q, pos, last, prio)
    ensures var last' := (last + 1) % q;
            && last' < q && Queued(q, out[last := h], pos, last') == Queued(q, out, pos, last) + [h]
            && Count(q, pos, last') + Spare(q, prio) < q
  {
    hide Occupied, Spare;
    OccupiedIsCount(q, pos, last);
    StepIs(q, last);
    QueuedMore(q, out, pos, last, h);
  }

  lemma QueuedMore(q: nat, out: seq<nat>, pos: nat, last: nat, h: nat)
    requires |out| == q && pos < q && last < q && Count(q, pos, last) + 1 < q
    ensures var last' := if last + 1 == q then 0 else last + 1;
            && Count(q, pos, last') == Count(q, pos, last) + 1
            && Queued(q, out[last := h], pos, last') == Queued(q, out, pos, last) + [h]
  {
    var last', c := if last + 1 == q then 0 else last + 1, Count(q, pos, last);
    var a, b := Queued(q, out[last := h], pos, last'), Queued(q, out, pos, last) + [h];
    forall i | 0 <= i < c + 1 ensures a[i] == b[i] {
      if i == c {
        assert Slot(q, pos, c) == last;
      } else {
        assert Slot(q, pos, i) != last;
      }
    }
  }

  lemma Pop(q: nat, out: seq<nat>, pos: nat, last: nat)
    requires |out| == q && pos < q && last < q && pos != last
    ensures var pos' := (pos + 1) % q;
            && pos' < q && Queued(q, out, pos, last) == [out[pos]] + Queued(q, out, pos', last)
            && (pos' == last <==> Queued(q, out, pos', last) == [])
  {
    StepIs(q, pos);
    var pos' := (pos + 1) % q;
    var a, b := Queued(q, out, pos, last), [out[pos]] + Queued(q, out, pos', last);
    forall i | 0 <= i < |a| ensures a[i] == b[i] {
      if i > 0 {
        assert Slot(q, pos, i) == Slot(q, pos', i - 1);
      }
    }
  }
}
