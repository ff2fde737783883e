/** The digests of the handshake, for any keyed hash function. */
module HandshakeDigest {
  import opened Bytes
  import opened Wrappers

  const KEYLEN := 32
  /** A challenge without its version byte. */
  const PACKET := 1536

  /** HMAC-SHA256 stands for any function of a key and a message with a 32-byte result. */
  type Hash = (seq<byte>, seq<byte>) -> seq<byte>

  function Hmac(hash: Hash, key: seq<byte>, s: seq<byte>): (d: seq<byte>)
    ensures |d| == KEYLEN && (|hash(key, s)| == KEYLEN ==> d == hash(key, s))
  {
    var d := hash(key, s);
    if |d| == KEYLEN then d else seq(KEYLEN, _ => 0)
  }

  /** The digest of a packet, or, given the place of a digest in it, of all the rest. */
  function MakeDigest(hash: Hash, key: seq<byte>, s: seq<byte>, skip: Option<nat>): (d: seq<byte>)
    requires skip.Some? ==> skip.value + KEYLEN <= |s|
    ensures |d| == KEYLEN
  {
    Hmac(hash, key, if skip.Some? then s[..skip.value] + s[skip.value + KEYLEN..] else s)
  }

  /** The sum of bytes `i` to `j - 1`. */
  function Sum(s: seq<byte>, i: nat, j: nat): nat
    requires i <= j <= |s|
  {
    if i == j then 0 else Sum(s, i, j - 1) + s[j - 1] as nat
  }

  /** Where a reader looks for a digest: behind the four bytes from `base` on, by their sum. */
  function Place(s: seq<byte>, base: nat): (offs: nat)
    requires base + 4 <= |s|
    ensures base + 4 <= offs < base + 4 + 728
  {
    Sum(s, base, base + 4) % 728 + base + 4
  }

  /** Where a writer puts a digest: its four bytes are the ninth to the twelfth from `base` on. */
  function WritePlace(s: seq<byte>, base: nat): (offs: nat)
    requires base + 12 <= |s|
    ensures base + 12 <= offs < base + 12 + 728
  {
    Sum(s, base + 8, base + 12) % 728 + base + 12
  }

  /**
   The writer's place by one base is the reader's by the base 8 further on, as long as those four bytes are the same.
   */
  lemma PlacesAgree(s: seq<byte>, r: seq<byte>, base: nat)
    requires base + 12 <= |s| && base + 12 <= |r| && r[base + 8..base + 12] == s[base + 8..base + 12]
    ensures Place(r, base + 8) == WritePlace(s, base)
  {
    forall i | base + 8 <= i < base + 12 ensures r[i] == s[i] {
      assert r[i] == r[base + 8..base + 12][i - base - 8];
    }
    SameSum(s, r, base + 8, base + 12);
  }

  lemma {:induction false} SameSum(s: seq<byte>, r: seq<byte>, i: nat, j: nat)
    requires i <= j <= |s| && j <= |r| && forall k :: i <= k < j ==> r[k] == s[k]
    ensures Sum(r, i, j) == Sum(s, i, j)
  {
    if i < j {
      SameSum(s, r, i, j - 1);
    }
  }

  /** The place found by base `base`, if the digest there is that of the rest of the packet. */
  function FindDigest(hash: Hash, key: seq<byte>, s: seq<byte>, base: nat): (r: Option<nat>)
    requires |s| == PACKET && base + 4 + 728 + KEYLEN <= PACKET
    ensures r.Some? ==> r.value + KEYLEN <= PACKET
  {
    var offs := Place(s, base);
    if MakeDigest(hash, key, s, Some(offs)) == s[offs..offs + KEYLEN] then Some(offs) else None
  }

  /** The packet with the digest that a writer puts into it by base 0. */
  function WithDigest(hash: Hash, key: seq<byte>, s: seq<byte>): (r: seq<byte>)
    requires |s| == PACKET
    ensures |r| == PACKET && r[..12] == s[..12]
  {
    var offs := WritePlace(s, 0);
    s[..offs] + MakeDigest(hash, key, s, Some(offs)) + s[offs + KEYLEN..]
  }

  /** What was written by base 0 is found by base 8, in the place where it was written. */
  lemma DigestFound(hash: Hash, key: seq<byte>, s: seq<byte>)
    requires |s| == PACKET
    ensures FindDigest(hash, key, WithDigest(hash, key, s), 8) == Some(WritePlace(s, 0))
  {
    hide Place, WritePlace;
    var r, offs := WithDigest(hash, key, s), WritePlace(s, 0);
    assert r[8..12] == r[..12][8..12] == s[8..12];
    PlacesAgree(s, r, 0);
    assert r[..offs] + r[offs + KEYLEN..] == s[..offs] + s[offs + KEYLEN..];
    assert r[offs..offs + KEYLEN] == MakeDigest(hash, key, s, Some(offs));
  }

  /** The reader tries base 772 first, and then base 8. */
  function Digest(hash: Hash, key: seq<byte>, s: seq<byte>): (r: Option<nat>)
    requires |s| == PACKET
    ensures r.Some? ==> r.value + KEYLEN <= PACKET
  {
    var r := FindDigest(hash, key, s, 772);
    if r.Some? then r else FindDigest(hash, key, s, 8)
  }

  /** The place that the four bytes from `base` on tell. */
  lemma {:induction false} PlaceIs(s: seq<byte>, base: nat)
    requires base + 4 <= |s|
    ensures Place(s, base)
            == (s[base] as nat + s[base + 1] as nat + s[base + 2] as nat + s[base + 3] as nat) % 728 + base + 4
  {
    assert Sum(s, base, base + 3) == Sum(s, base, base + 2) + s[base + 2] as nat;
    assert Sum(s, base, base + 1) == s[base] as nat;
  }

  /** The packet carries, at place `at`, the hash of the rest of it. */
  predicate Carries(hash: Hash, key: seq<byte>, s: seq<byte>, at: nat)
    requires at + KEYLEN <= |s|
  {
    hash(key, s[..at] + s[at + KEYLEN..]) == s[at..at + KEYLEN]
  }

  /** A digest is found by a base exactly if the packet carries it there; by base 772 first, and then by base 8. */
  lemma DigestExact(hash: Hash, key: seq<byte>, s: seq<byte>)
    requires |s| == PACKET && forall m :: |hash(key, m)| == KEYLEN
    ensures var early, late := Place(s, 8), Place(s, 772);
            && FindDigest(hash, key, s, 8) == (if Carries(hash, key, s, early) then Some(early) else None)
            && FindDigest(hash, key, s, 772) == (if Carries(hash, key, s, late) then Some(late) else None)
            && Digest(hash, key, s) == if Carries(hash, key, s, late) then Some(late)
                                       else if Carries(hash, key, s, early) then Some(early)
                                       else None
  {
    hide Place;
  }

  /** Writing changes nothing but the place that the bytes 8 to 11 tell, where the packet then carries its digest. */
  lemma WrittenExact(hash: Hash, key: seq<byte>, s: seq<byte>)
    requires |s| == PACKET && forall m :: |hash(key, m)| == KEYLEN
    ensures var r, at := WithDigest(hash, key, s), Place(s, 8);
            r[..at] == s[..at] && r[at + KEYLEN..] == s[at + KEYLEN..] && Carries(hash, key, r, at)
  {
    hide Place, WritePlace, Carries, FindDigest, Digest;
    PlacesAgree(s, s, 0);
    DigestFound(hash, key, s);
    DigestExact(hash, key, WithDigest(hash, key, s));
  }
}
