/** Bytes, fixed-width unsigned integers and the byte orders the server writes by hand. */
module Bytes {
  type byte = b: int | 0 <= b < 0x100
  type u32 = v: int | 0 <= v < U32

  const U24 := 0x100_0000
  const U32 := 0x1_0000_0000

  /** C's arithmetic on uint32_t. */
  function Wrap(x: int): (r: u32)
    ensures 0 <= x < U32 ==> r == x
  {
    x % U32
  }

  /** The low 24 bits, most significant byte first. */
  function PutBe24(v: u32): (s: seq<byte>)
    ensures |s| == 3
  {
    [v / 0x1_0000 % 0x100, v / 0x100 % 0x100, v % 0x100]
  }

  function PutBe32(v: u32): (s: seq<byte>)
    ensures |s| == 4
  {
    [v / 0x100_0000] + PutBe24(v)
  }

  /** Least significant byte first: the byte order of the message stream id. */
  function PutLe32(v: u32): (s: seq<byte>)
    ensures |s| == 4
  {
    [v % 0x100, v / 0x100 % 0x100, v / 0x1_0000 % 0x100, v / 0x100_0000]
  }

  function Be24(s: seq<byte>, i: nat): (v: u32)
    requires i + 3 <= |s|
    ensures v < U24
  {
    s[i] as int * 0x1_0000 + s[i + 1] as int * 0x100 + s[i + 2] as int
  }

  function Be32(s: seq<byte>, i: nat): u32
    requires i + 4 <= |s|
  {
    s[i] as int * 0x100_0000 + Be24(s, i + 1)
  }

  function Le32(s: seq<byte>, i: nat): u32
    requires i + 4 <= |s|
  {
    s[i] as int + s[i + 1] as int * 0x100 + s[i + 2] as int * 0x1_0000 + s[i + 3] as int * 0x100_0000
  }

  function Be16(s: seq<byte>, i: nat): (v: nat)
    requires i + 2 <= |s|
    ensures v < 0x1_0000
  {
    s[i] as int * 0x100 + s[i + 1] as int
  }

  function PutBe16(v: nat): (s: seq<byte>)
    ensures |s| == 2
  {
    [v / 0x100 % 0x100, v % 0x100]
  }

  lemma Be16RoundTrip(v: nat, s: seq<byte>, i: nat)
    requires v < 0x1_0000
    requires i + 2 <= |s| && s[i..i + 2] == PutBe16(v)
    ensures Be16(s, i) == v
  {
    assert s[i..i + 2][0] == s[i] && s[i..i + 2][1] == s[i + 1];
  }

  lemma Be24RoundTrip(v: u32, s: seq<byte>, i: nat)
    requires v < U24
    requires i + 3 <= |s| && s[i..i + 3] == PutBe24(v)
    ensures Be24(s, i) == v
  {
    var t := s[i..i + 3];
    assert t[0] == s[i] && t[1] == s[i + 1] && t[2] == s[i + 2];
    LowDigits(v);
  }

  lemma LowDigits(v: nat)
    requires v < U24
    ensures v / 0x1_0000 % 0x100 * 0x1_0000 + v / 0x100 % 0x100 * 0x100 + v % 0x100 == v
  {
    var w := v / 0x100;
    assert v / 0x1_0000 == w / 0x100;
  }

  lemma Be32RoundTrip(v: u32, s: seq<byte>, i: nat)
    requires i + 4 <= |s| && s[i..i + 4] == PutBe32(v)
    ensures Be32(s, i) == v
  {
    var t := s[i..i + 4];
    assert t[0] == s[i] && t[1] == s[i + 1] && t[2] == s[i + 2] && t[3] == s[i + 3];
    Digits(v);
  }

  lemma Le32RoundTrip(v: u32, s: seq<byte>, i: nat)
    requires i + 4 <= |s| && s[i..i + 4] == PutLe32(v)
    ensures Le32(s, i) == v
  {
    var t := s[i..i + 4];
    assert t[0] == s[i] && t[1] == s[i + 1] && t[2] == s[i + 2] && t[3] == s[i + 3];
    Digits(v);
  }

  /** A 32-bit number is the sum of its bytes. */
  lemma Digits(v: u32)
    ensures v == v / 0x100_0000 * 0x100_0000 + v / 0x1_0000 % 0x100 * 0x1_0000 + v / 0x100 % 0x100 * 0x100 + v % 0x100
  {
    var a, b, c := v / 0x100, v / 0x1_0000, v / 0x100_0000;
    assert v == a * 0x100 + v % 0x100;
    assert a / 0x100 == b && a == b * 0x100 + a % 0x100;
    assert b / 0x100 == c && b == c * 0x100 + b % 0x100;
  }

  lemma Middle(a: seq<byte>, b: seq<byte>, c: seq<byte>)
    ensures (a + b + c)[|a|..|a| + |b|] == b
  {
  }

  function Flatten<T>(ss: seq<seq<T>>): seq<T>
  {
    if ss == [] then [] else ss[0] + Flatten(ss[1..])
  }

  lemma FlattenAppend<T>(a: seq<seq<T>>, b: seq<seq<T>>)
    ensures Flatten(a + b) == Flatten(a) + Flatten(b)
  {
    if a == [] {
      assert a + b == b;
    } else {
      assert (a + b)[1..] == a[1..] + b;
    }
  }

  lemma FlattenOne<T>(s: seq<T>)
    ensures Flatten([s]) == s
  {
    assert Flatten([s]) == s + Flatten([]);
  }
}
