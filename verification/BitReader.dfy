/**
 The bit reader of the codec headers, most significant bit first, with the Exp-Golomb code of ITU-T H.264, section 9.1.
 */
module BitReader {
  import opened Arithmetic
  import opened Bytes

  const U64 := 0x1_0000_0000_0000_0000

  function Pow2(n: nat): (r: nat)
    ensures r > 0
  {
    if n == 0 then 1 else 2 * Pow2(n - 1)
  }

  /** Bit `i` of a byte string. */
  function Bit(s: seq<byte>, i: nat): (b: nat)
    requires i < 8 * |s|
    ensures b < 2
  {
    s[i / 8] as nat / Pow2(7 - i % 8) % 2
  }

  /** The number spelled by the `n` bits from bit `p` on. */
  function BitValue(s: seq<byte>, p: nat, n: nat): (v: nat)
    requires p + n <= 8 * |s|
    ensures v < Pow2(n)
    decreases n
  {
    if n == 0 then 0 else 2 * BitValue(s, p, n - 1) + Bit(s, p + n - 1)
  }

  /** Reading in two goes is reading in one. */
  lemma {:induction false} BitValueSplit(s: seq<byte>, p: nat, a: nat, b: nat)
    requires p + a + b <= 8 * |s|
    ensures BitValue(s, p, a + b) == BitValue(s, p, a) * Pow2(b) + BitValue(s, p + a, b)
    decreases b
  {
    hide Bit;
    if b == 0 {
      assert BitValue(s, p + a, 0) == 0 && Pow2(0) == 1;
    } else {
      BitValueSplit(s, p, a, b - 1);
      var x, y := BitValue(s, p, a), Pow2(b - 1);
      assert Pow2(b) == 2 * y;
      Associate(x, 2, y);
      Associate(2, x, y);
    }
  }

  /** The bits `offs` to `offs + d - 1` of a byte, by shifting and masking. */
  function Masked(v: nat, offs: nat, d: nat): nat
    requires offs + d <= 8
  {
    Digits(v, Pow2(8 - offs - d), Pow2(d))
  }

  /** Shifted and masked. */
  function Digits(v: nat, m: nat, c: nat): nat
    requires m > 0 && c > 0
  {
    v / m % c
  }

  lemma {:induction false} MaskedIs(s: seq<byte>, pos: nat, offs: nat, d: nat)
    requires pos < |s| && offs + d <= 8
    ensures Masked(s[pos] as nat, offs, d) == BitValue(s, 8 * pos + offs, d)
    decreases d
  {
    hide Bit, Pow2, Masked;
    MaskStep(s[pos] as nat, offs, d);
    if d > 0 {
      MaskedIs(s, pos, offs, d - 1);
      BitAt(s, pos, offs + d - 1);
      assert BitValue(s, 8 * pos + offs, d) == 2 * BitValue(s, 8 * pos + offs, d - 1) + Bit(s, 8 * pos + offs + d - 1);
    }
  }

  /** One more bit of a byte. */
  lemma MaskStep(v: nat, offs: nat, d: nat)
    requires offs + d <= 8
    ensures d == 0 ==> Masked(v, offs, d) == 0
    ensures d > 0 ==> Masked(v, offs, d) == 2 * Masked(v, offs, d - 1) + Digits(v, Pow2(8 - offs - d), 2)
  {
    hide Pow2, Digits;
    if d == 0 {
      NoDigits(v, Pow2(8 - offs));
    } else {
      var k := 8 - offs - d;
      PowStep(k);
      PowStep(d - 1);
      HalfStep(v, Pow2(k), Pow2(d - 1));
    }
  }

  lemma HalfStep(v: nat, m: nat, c: nat)
    requires m > 0 && c > 0
    ensures Digits(v, m, 2 * c) == 2 * Digits(v, 2 * m, c) + Digits(v, m, 2)
  {
    DivTwice(v, m);
    ModTwice(v / m, c);
  }

  lemma NoDigits(v: nat, m: nat)
    requires m > 0
    ensures Pow2(0) == 1 && Digits(v, m, Pow2(0)) == 0
  {
  }

  lemma PowStep(k: nat)
    ensures Pow2(k + 1) == 2 * Pow2(k) && Pow2(k) >= 1
  {
  }

  lemma BitAt(s: seq<byte>, pos: nat, o: nat)
    requires pos < |s| && o < 8
    ensures 8 * pos + o < 8 * |s| && Bit(s, 8 * pos + o) == s[pos] as nat / Pow2(7 - o) % 2
  {
    assert (8 * pos + o) / 8 == pos && (8 * pos + o) % 8 == o;
  }

  class Reader {
    const buf: seq<byte>
    var pos: nat
    var offs: nat
    var err: bool

    constructor (buf: seq<byte>)
      ensures this.buf == buf && Valid() && At() == 0 && !err
    {
      this.buf, pos, offs, err := buf, 0, 0, false;
    }

    ghost predicate Valid()
      reads this
    {
      pos <= |buf| && offs < 8 && (pos == |buf| ==> offs == 0)
    }

    /** The number of the next bit. */
    ghost function At(): (p: nat)
      requires Valid()
      reads this
      ensures p <= 8 * |buf|
    {
      8 * pos + offs
    }

    /**
     The value of the next `n` bits, modulo the width of the result, so exact up to 64 bits. If there are not so many,
     it is 0 and the reader is at its end, with its error mark set.
     */
    method Read(n: nat) returns (v: nat)
      requires Valid()
      modifies this
      ensures Valid()
      ensures if old(At()) + n <= 8 * |buf|
              then v == BitValue(buf, old(At()), n) % U64 && At() == old(At()) + n && err == old(err)
              else v == 0 && At() == 8 * |buf| && err
    {
      hide BitValue, Masked, Shifted;
      ghost var p := At();
      var left := n;
      v := 0;
      NoBits(buf, p);
      while left > 0
        invariant Valid() && 0 <= left <= n && err == old(err)
        invariant At() == p + (n - left) && v == BitValue(buf, p, n - left) % U64
      {
        if pos >= |buf| {
          err := true;
          return 0;
        }
        var d: nat := if offs + left > 8 then 8 - offs else left;
        More(buf, p, n - left, d, v);
        MaskedIs(buf, pos, offs, d);
        v := Shifted(v, d) + Masked(buf[pos] as nat, offs, d);
        offs := offs + d;
        left := left - d;
        if offs == 8 {
          pos := pos + 1;
          offs := 0;
        }
      }
    }

    /** The number of zero bits before the next one bit, or before the end. */
    ghost function Zeros(): (z: nat)
      requires Valid()
      reads this
    {
      ZerosFrom(buf, At())
    }

    /**
     An unsigned Exp-Golomb code with a prefix of less than 64 zeros: the number whose code the next bits are. A code
     that is cut short sets the error mark; after an error the value is 0, and one bit is read.
     */
    method ReadGolomb() returns (v: nat)
      requires Valid()
      modifies this
      ensures Valid() && (old(err) ==> err)
      ensures var p, z := old(At()), old(Zeros());
              if old(err) then v == 0 && At() == if p < 8 * |buf| then p + 1 else p
              else if p + 2 * z + 1 <= 8 * |buf| then
                && !err && At() == p + 2 * z + 1
                && (z < 64 ==> v == Pow2(z) + BitValue(buf, p + z + 1, z) - 1 < U64 - 1)
              else err
      ensures !old(err) ==> Decodes(buf, old(At()), v, At(), err)
    {
      hide BitValue, Bit, Pow2, ZerosFrom, Code, Decodes, Reader.At, Reader.Valid;
      ghost var p := At();
      OneBit(buf, p);
      var n := 0;
      var b := Read(1);
      while b == 0 && !err
        invariant Valid() && 0 <= n && p + n <= 8 * |buf| && AllZero(buf, p, n) && (old(err) ==> err)
        invariant if old(err) then n == 0 && At() == (if p < 8 * |buf| then p + 1 else p)
                  else if err then p + n == 8 * |buf|
                  else p + n < 8 * |buf| && At() == p + n + 1 && b == Bit(buf, p + n)
        decreases 8 * |buf| - n, !err
      {
        OneBit(buf, p + n + 1);
        n := n + 1;
        b := Read(1);
      }
      if old(err) {
        NoBits(buf, At());
      } else {
        ZerosAre(buf, p, n);
      }
      Short(buf, p + n + 1, n);
      var r := Read(n);
      v := Code(n, r);
      if !old(err) {
        CodesRead(buf, p, v, At(), err);
      }
    }
  }

  ghost predicate AllZero(s: seq<byte>, p: nat, n: nat) {
    p + n <= 8 * |s| && forall i :: p <= i < p + n ==> Bit(s, i) == 0
  }

  lemma {:induction false} ZerosAre(s: seq<byte>, p: nat, n: nat)
    requires AllZero(s, p, n) && (p + n < 8 * |s| ==> Bit(s, p + n) == 1)
    ensures ZerosFrom(s, p) == n
    decreases n
  {
    hide Bit;
    if n > 0 {
      ZerosAre(s, p + 1, n - 1);
    }
  }

  /** The number with `n` bits of prefix and with suffix `r`, in the width of the result: `Pow2(n) - 1 + r`. */
  function Code(n: nat, r: nat): (v: nat)
    ensures n == r == 0 ==> v == 0
  {
    (Pow2(n) + r + (U64 - 1)) % U64
  }

  /**
   A value of less than 64 bits, and the number that a code with that suffix stands for, fit the width of the result.
   */
  lemma Short(s: seq<byte>, p: nat, n: nat)
    ensures p + n <= 8 * |s| && n < 64 ==>
      && BitValue(s, p, n) % U64 == BitValue(s, p, n) && Pow2(n) + BitValue(s, p, n) <= U64 - 1
      && Code(n, BitValue(s, p, n)) == Pow2(n) + BitValue(s, p, n) - 1
  {
    hide Bit, BitValue, Pow2;
    if p + n <= 8 * |s| && n < 64 {
      Width(n);
      var v := BitValue(s, p, n);
      assert v < Pow2(n) && Pow2(n) >= 1;
      Modulo(v, U64, 0);
      Modulo(Pow2(n) + v - 1, U64, 1);
    }
  }

  lemma Modulo(v: nat, m: nat, q: nat)
    requires v < m
    ensures v % m == v && (v + q * m) % m == v
  {
    DivIs(v, m, 0, v);
    DivIs(v + q * m, m, q, v);
  }

  lemma Width(n: nat)
    requires n < 64
    ensures 2 * Pow2(n) <= U64
    decreases 64 - n
  {
    if n < 63 {
      Width(n + 1);
    } else {
      Powers();
      Product(8, 8);
      Product(16, 16);
      Product(32, 31);
    }
  }

  lemma Product(a: nat, b: nat)
    ensures Pow2(a + b) == Pow2(a) * Pow2(b)
  {
    if b > 0 {
      Product(a, b - 1);
      Associate(2, Pow2(a), Pow2(b - 1));
      Associate(Pow2(a), 2, Pow2(b - 1));
    }
  }

  function ZerosFrom(s: seq<byte>, p: nat): (z: nat)
    requires p <= 8 * |s|
    ensures p + z <= 8 * |s|
    decreases 8 * |s| - p
  {
    if p == 8 * |s| || Bit(s, p) == 1 then 0 else 1 + ZerosFrom(s, p + 1)
  }

  lemma NoBits(s: seq<byte>, p: nat)
    requires p <= 8 * |s|
    ensures BitValue(s, p, 0) == 0
  {
  }

  lemma OneBit(s: seq<byte>, p: nat)
    ensures p < 8 * |s| ==> BitValue(s, p, 1) == Bit(s, p)
  {
    if p < 8 * |s| {
      assert BitValue(s, p, 0) == 0;
    }
  }

  /** A shift to the left, in the width of the result. */
  function Shifted(v: nat, d: nat): nat {
    v * Pow2(d) % U64
  }

  /** `d` more bits. */
  lemma More(s: seq<byte>, p: nat, n: nat, d: nat, v: nat)
    requires p + n + d <= 8 * |s| && d <= 8 && v == BitValue(s, p, n) % U64
    ensures Shifted(v, d) + BitValue(s, p + n, d) == BitValue(s, p, n + d) % U64
  {
    hide BitValue;
    var m := Wide(d);
    BitValueSplit(s, p, n, d);
    ShiftModulo(BitValue(s, p, n), m, Pow2(d), BitValue(s, p + n, d));
  }

  /** The rest of the width of a number that is shifted by `d`. */
  lemma Wide(d: nat) returns (m: nat)
    requires d <= 8
    ensures m > 0 && m * Pow2(d) == U64
  {
    m := if d == 0 then U64 else if d == 1 then U64 / 2 else if d == 2 then U64 / 4 else if d == 3 then U64 / 8
         else if d == 4 then U64 / 16 else if d == 5 then U64 / 32 else if d == 6 then U64 / 64
         else if d == 7 then U64 / 128 else U64 / 256;
    Powers();
  }

  lemma Powers()
    ensures Pow2(0) == 1 && Pow2(1) == 2 && Pow2(2) == 4 && Pow2(3) == 8 && Pow2(4) == 16
    ensures Pow2(5) == 32 && Pow2(6) == 64 && Pow2(7) == 128 && Pow2(8) == 256
  {
    assert Pow2(4) == 2 * Pow2(3) && Pow2(3) == 2 * Pow2(2);
    assert Pow2(6) == 2 * Pow2(5) && Pow2(5) == 2 * Pow2(4);
    assert Pow2(8) == 2 * Pow2(7) && Pow2(7) == 2 * Pow2(6);
  }

  // ----- the code -----

  function Binary(m: nat): (b: seq<nat>)
    requires m >= 1
    ensures |b| >= 1 && b[0] == 1
  {
    if m == 1 then [1] else Binary(m / 2) + [m % 2]
  }

  /** The code of `k`: k + 1 in binary, behind one zero for each of its digits but the first. */
  function Ue(k: nat): seq<nat> {
    seq(|Binary(k + 1)| - 1, _ => 0) + Binary(k + 1)
  }

  ghost predicate BitsAt(s: seq<byte>, p: nat, bits: seq<nat>) {
    p + |bits| <= 8 * |s| && forall i :: 0 <= i < |bits| ==> Bit(s, p + i) == bits[i]
  }

  lemma LastBit(s: seq<byte>, p: nat, n: nat)
    requires p + n <= 8 * |s| && n > 0
    ensures BitValue(s, p, n) == 2 * BitValue(s, p, n - 1) + Bit(s, p + n - 1)
  {
  }

  lemma {:induction false} BinaryValue(s: seq<byte>, p: nat, m: nat)
    requires m >= 1 && BitsAt(s, p, Binary(m))
    ensures BitValue(s, p, |Binary(m)|) == m
    decreases m
  {
    hide Bit, Pow2, BitValue;
    if m == 1 {
      OneBit(s, p);
      assert Bit(s, p + 0) == 1;
    } else {
      var b := Binary(m / 2);
      assert Binary(m) == b + [m % 2];
      LastBit(s, p, |b| + 1);
      forall i | 0 <= i < |b| ensures Bit(s, p + i) == b[i] {
        assert Bit(s, p + i) == Binary(m)[i];
      }
      BinaryValue(s, p, m / 2);
      assert Bit(s, p + |b|) == Binary(m)[|b|];
    }
  }

  /** A code in the input is what the reader takes it for: it inverts the code of every number below 2^64 - 1. */
  lemma GolombInverts(s: seq<byte>, p: nat, k: nat)
    requires BitsAt(s, p, Ue(k))
    ensures var z := |Binary(k + 1)| - 1;
            && ZerosFrom(s, p) == z && |Ue(k)| == 2 * z + 1
            && Pow2(z) + BitValue(s, p + z + 1, z) - 1 == k
  {
    hide Bit, BitValue, Pow2, Binary;
    var b := Binary(k + 1);
    var z := |b| - 1;
    forall i | p <= i < p + z
      ensures Bit(s, i) == 0
    {
      assert Bit(s, p + (i - p)) == Ue(k)[i - p];
    }
    forall i | 0 <= i < |b|
      ensures Bit(s, p + z + i) == b[i]
    {
      assert Bit(s, p + (z + i)) == Ue(k)[z + i];
    }
    assert Bit(s, p + z + 0) == 1;
    ZerosAre(s, p, z);
    BinaryValue(s, p + z, k + 1);
    BitValueSplit(s, p + z, 1, z);
    OneBit(s, p + z);
  }

  /** If the bits from `p` on are the code of a number below 2^64 - 1, it is `v`, and the code ends at `end`. */
  ghost predicate Decodes(s: seq<byte>, p: nat, v: nat, end: nat, err: bool) {
    forall k: nat :: k < U64 - 1 && BitsAt(s, p, Ue(k)) ==> v == k && end == p + |Ue(k)| && !err
  }

  /** The zeros in front and as many bits behind the one give the number whose code they are. */
  lemma CodesRead(s: seq<byte>, p: nat, v: nat, end: nat, err: bool)
    requires p <= 8 * |s|
    requires var z := ZerosFrom(s, p);
             p + 2 * z + 1 <= 8 * |s| ==>
               && !err && end == p + 2 * z + 1
               && (z < 64 ==> v == Pow2(z) + BitValue(s, p + z + 1, z) - 1)
    ensures Decodes(s, p, v, end, err)
  {
    hide Bit, BitValue, Pow2, Binary, Ue, ZerosFrom, BitsAt;
    forall k: nat | k < U64 - 1 && BitsAt(s, p, Ue(k))
      ensures v == k && end == p + |Ue(k)| && !err
    {
      CodeFits(s, p, k);
      GolombInverts(s, p, k);
      BinaryShort(k + 1);
    }
  }

  lemma CodeFits(s: seq<byte>, p: nat, k: nat)
    requires BitsAt(s, p, Ue(k))
    ensures p + |Ue(k)| <= 8 * |s|
  {
  }

  /** A number below 2^64 has at most 64 digits. */
  lemma BinaryShort(m: nat)
    requires 1 <= m < U64
    ensures |Binary(m)| <= 64
  {
    BinaryLeast(m);
    if |Binary(m)| > 64 {
      PowersGrow(64, |Binary(m)| - 1);
      SixtyFour();
    }
  }

  lemma SixtyFour()
    ensures Pow2(64) == U64
  {
    Powers();
    Product(8, 8);
    Product(16, 16);
    Product(32, 32);
  }

  lemma {:induction false} PowersGrow(a: nat, b: nat)
    requires a <= b
    ensures Pow2(a) <= Pow2(b)
    decreases b - a
  {
    if a < b {
      PowersGrow(a, b - 1);
    }
  }

  lemma {:induction false} BinaryLeast(m: nat)
    requires m >= 1
    ensures Pow2(|Binary(m)| - 1) <= m
    decreases m
  {
    if m > 1 {
      BinaryLeast(m / 2);
    }
  }
}
