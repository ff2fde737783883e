/** The handshake: a server and a client that send each other a challenge and a response through one buffer each. */
module Handshake {
  import opened Bytes
  import opened Wrappers
  import opened HandshakeDigest

  const BUFSIZE := 1537

  // stages of a server
  const SERVER_RECV_CHALLENGE := 1
  const SERVER_SEND_CHALLENGE := 2
  const SERVER_SEND_RESPONSE := 3
  const SERVER_RECV_RESPONSE := 4
  const SERVER_DONE := 5
  // stages of a client
  const CLIENT_SEND_CHALLENGE := 6
  const CLIENT_RECV_CHALLENGE := 7
  const CLIENT_RECV_RESPONSE := 8
  const CLIENT_SEND_RESPONSE := 9
  const CLIENT_DONE := 10

  const SERVER_PARTIAL_KEY: seq<byte> :=
    [0x47, 0x65, 0x6e, 0x75, 0x69, 0x6e, 0x65, 0x20, 0x41, 0x64, 0x6f, 0x62, 0x65, 0x20, 0x46, 0x6c,
     0x61, 0x73, 0x68, 0x20, 0x4d, 0x65, 0x64, 0x69, 0x61, 0x20, 0x53, 0x65, 0x72, 0x76, 0x65, 0x72,
     0x20, 0x30, 0x30, 0x31]
  const CLIENT_PARTIAL_KEY: seq<byte> :=
    [0x47, 0x65, 0x6e, 0x75, 0x69, 0x6e, 0x65, 0x20, 0x41, 0x64, 0x6f, 0x62, 0x65, 0x20, 0x46, 0x6c,
     0x61, 0x73, 0x68, 0x20, 0x50, 0x6c, 0x61, 0x79, 0x65, 0x72, 0x20, 0x30, 0x30, 0x31]
  const COMMON_KEY: seq<byte> :=
    [0xf0, 0xee, 0xc2, 0x4a, 0x80, 0x68, 0xbe, 0xe8, 0x2e, 0x00, 0xd0, 0xd1, 0x02, 0x9e, 0x7e, 0x57,
     0x6e, 0xec, 0x5d, 0x2d, 0x29, 0x80, 0x6f, 0xab, 0x93, 0xb8, 0xe6, 0x36, 0xcf, 0xeb, 0x31, 0xae]
  const SERVER_VERSION: seq<byte> := [0x0d, 0x0e, 0x0a, 0x0d]
  const CLIENT_VERSION: seq<byte> := [0x0c, 0x00, 0x0d, 0x0e]

  function PartialKey(isServer: bool): seq<byte> {
    if isServer then SERVER_PARTIAL_KEY else CLIENT_PARTIAL_KEY
  }

  function FullKey(isServer: bool): seq<byte> {
    PartialKey(isServer) + COMMON_KEY
  }

  /** A challenge that its receiver accepts as a new-style one, signed with `key`. */
  predicate Good(hash: Hash, key: seq<byte>, c: seq<byte>) {
    |c| == BUFSIZE && c[0] == 3 && c[5..9] != [0, 0, 0, 0] && FindDigest(hash, key, c[1..], 8).Some?
  }

  /** The key for the response to challenge `c`: made from the digest found in it, if it is a new-style one. */
  function KeyOf(hash: Hash, isServer: bool, c: seq<byte>): Option<seq<byte>>
    requires |c| == BUFSIZE
  {
    var o := Digest(hash, PartialKey(!isServer), c[1..]);
    if c[5..9] == [0, 0, 0, 0] || o.None? then None
    else Some(Hmac(hash, FullKey(isServer), c[1..][o.value..o.value + KEYLEN]))
  }

  /**
   Each side looks for the digest that the other makes with its partial key, and makes its own key from it by its full
   one.
   */
  lemma KeyExact(hash: Hash, c: seq<byte>)
    requires |c| == BUFSIZE && forall key, m :: |hash(key, m)| == KEYLEN
    ensures KeyOf(hash, true, c).Some? <==> c[5..9] != [0, 0, 0, 0] && Digest(hash, CLIENT_PARTIAL_KEY, c[1..]).Some?
    ensures KeyOf(hash, false, c).Some? <==> c[5..9] != [0, 0, 0, 0] && Digest(hash, SERVER_PARTIAL_KEY, c[1..]).Some?
    ensures KeyOf(hash, true, c).Some? ==>
      var o := Digest(hash, CLIENT_PARTIAL_KEY, c[1..]).value;
      KeyOf(hash, true, c).value == hash(SERVER_PARTIAL_KEY + COMMON_KEY, c[1 + o..1 + o + KEYLEN])
    ensures KeyOf(hash, false, c).Some? ==>
      var o := Digest(hash, SERVER_PARTIAL_KEY, c[1..]).value;
      KeyOf(hash, false, c).value == hash(CLIENT_PARTIAL_KEY + COMMON_KEY, c[1 + o..1 + o + KEYLEN])
  {
    hide Digest;
    var server, client := Digest(hash, SERVER_PARTIAL_KEY, c[1..]), Digest(hash, CLIENT_PARTIAL_KEY, c[1..]);
    if server.Some? {
      Shifted(c, server.value, KEYLEN);
    }
    if client.Some? {
      Shifted(c, client.value, KEYLEN);
    }
  }

  /** A response that ends in the digest of the rest of it. */
  predicate Signed(hash: Hash, key: Option<seq<byte>>, r: seq<byte>) {
    |r| == PACKET && key.Some? && r[PACKET - KEYLEN..] == Hmac(hash, key.value, r[..PACKET - KEYLEN])
  }

  class Peer {
    const hash: Hash
    const isServer: bool
    const buf: array<byte>
    const epoch: u32
    const random: nat -> byte
    var drawn: nat
    var stage: nat
    var pos: nat
    var last: nat
    var oldStyle: bool
    var digest: Option<seq<byte>>
    var failed: bool
    /** All that has gone out and come in, and the challenge and the response that it is to consist of. */
    ghost var sent: seq<byte>
    ghost var received: seq<byte>
    ghost var challenge: seq<byte>
    ghost var response: seq<byte>

    predicate Sending()
      reads this
    {
      stage == SERVER_SEND_CHALLENGE || stage == SERVER_SEND_RESPONSE || stage == CLIENT_SEND_CHALLENGE
      || stage == CLIENT_SEND_RESPONSE
    }

    predicate Receiving()
      reads this
    {
      stage == SERVER_RECV_CHALLENGE || stage == SERVER_RECV_RESPONSE || stage == CLIENT_RECV_CHALLENGE
      || stage == CLIENT_RECV_RESPONSE
    }

    predicate Done()
      reads this
    {
      stage == SERVER_DONE || stage == CLIENT_DONE
    }

    /** The bytes that this peer is still to send in all. */
    function ToSend(): int
      reads this
    {
      if stage == SERVER_RECV_CHALLENGE then BUFSIZE + PACKET
      else if stage == SERVER_SEND_CHALLENGE || stage == CLIENT_SEND_CHALLENGE then last - pos + PACKET
      else if stage == SERVER_SEND_RESPONSE || stage == CLIENT_SEND_RESPONSE then last - pos
      else if stage == CLIENT_RECV_CHALLENGE || stage == CLIENT_RECV_RESPONSE then PACKET
      else 0
    }

    function ToReceive(): int
      reads this
    {
      if stage == CLIENT_SEND_CHALLENGE then BUFSIZE + PACKET
      else if stage == SERVER_RECV_CHALLENGE || stage == CLIENT_RECV_CHALLENGE then BUFSIZE - last + PACKET
      else if stage == SERVER_SEND_CHALLENGE || stage == SERVER_SEND_RESPONSE then PACKET
      else if stage == SERVER_RECV_RESPONSE || stage == CLIENT_RECV_RESPONSE then BUFSIZE - last
      else 0
    }

    /** The stages after the own challenge has gone out. */
    predicate Challenged()
      reads this
    {
      stage == SERVER_SEND_RESPONSE || stage == SERVER_RECV_RESPONSE || stage == SERVER_DONE
      || (CLIENT_RECV_CHALLENGE <= stage <= CLIENT_DONE)
    }

    /** The stages in which the peer's challenge has been read. */
    predicate Keyed()
      reads this
    {
      (SERVER_SEND_CHALLENGE <= stage <= SERVER_DONE) || (CLIENT_RECV_RESPONSE <= stage <= CLIENT_DONE)
    }

    predicate Answering()
      reads this
    {
      stage == SERVER_SEND_RESPONSE || stage == CLIENT_SEND_RESPONSE
    }

    predicate Answered()
      reads this
    {
      stage == SERVER_RECV_RESPONSE || stage == SERVER_DONE || stage == CLIENT_DONE
    }

    /**
     New-style, the response is signed with the key for the peer's challenge; it goes out behind the own challenge.
     */
    ghost predicate Responds()
      reads this, buf
      requires buf.Length == BUFSIZE
    {
      && (Keyed() && !oldStyle ==>
            |received| >= BUFSIZE && digest == KeyOf(hash, isServer, received[..BUFSIZE]) && digest.Some?)
      && (Answering() ==>
            && |response| == PACKET && buf[1..] == response && 1 <= pos <= BUFSIZE
            && sent == challenge + response[..pos - 1])
      && (Answered() ==> |response| == PACKET && sent == challenge + response)
      && (Answering() || Answered() ==> oldStyle || Signed(hash, digest, response))
    }

    ghost predicate Valid()
      reads this, buf
    {
      && buf.Length == BUFSIZE && pos <= last <= BUFSIZE
      && (if isServer then SERVER_RECV_CHALLENGE <= stage <= SERVER_DONE
          else CLIENT_SEND_CHALLENGE <= stage <= CLIENT_DONE)
      && (Receiving() ==> last < BUFSIZE) && (Sending() ==> pos < last == BUFSIZE)
      && |sent| + ToSend() == BUFSIZE + PACKET && |received| + ToReceive() == BUFSIZE + PACKET
      && (stage == SERVER_RECV_CHALLENGE || stage == CLIENT_RECV_CHALLENGE ==> pos == 0 && received == buf[..last])
      && (stage == SERVER_SEND_CHALLENGE || stage == CLIENT_SEND_CHALLENGE
          ==> sent == buf[..pos] && challenge == buf[..])
      && (Challenged() ==> |challenge| == BUFSIZE && challenge <= sent)
      && Responds()
    }

    method FillRandom()
      requires buf.Length == BUFSIZE && last <= BUFSIZE
      modifies this`last, this`drawn, buf
      ensures last == BUFSIZE && buf[..old(last)] == old(buf[..last])
      ensures drawn == old(drawn) + BUFSIZE - old(last)
      ensures forall i :: old(last) <= i < BUFSIZE ==> buf[i] == random(old(drawn) + i - old(last))
    {
      while last != BUFSIZE
        invariant old(last) <= last <= BUFSIZE && buf[..old(last)] == old(buf[..last])
        invariant drawn == old(drawn) + last - old(last)
        invariant forall i :: old(last) <= i < last ==> buf[i] == random(old(drawn) + i - old(last))
        decreases BUFSIZE - last
      {
        buf[last] := random(drawn);
        drawn := drawn + 1;
        last := last + 1;
      }
    }

    /** Bytes into the buffer from `last` on. */
    method Put(s: seq<byte>)
      requires buf.Length == BUFSIZE && last + |s| <= BUFSIZE
      modifies this`last, buf
      ensures last == old(last) + |s| && buf[..last] == old(buf[..last]) + s
      ensures buf[last..] == old(buf[..])[last..]
    {
      var n := 0;
      var at := last;
      ghost var was := buf[..];
      while n < |s|
        invariant 0 <= n <= |s| && last == old(last) == at
        invariant forall i :: 0 <= i < BUFSIZE ==> buf[i] == if at <= i < at + n then s[i - at] else was[i]
      {
        buf[at + n] := s[n];
        n := n + 1;
      }
      last := last + |s|;
      assert buf[..last] == buf[..at] + buf[at..at + |s|];
    }

    /**
     A challenge: the version of the protocol, the time, the version of the program, random bytes, and the digest of it
     all.
     */
    method CreateChallenge(version: seq<byte>, key: seq<byte>)
      requires buf.Length == BUFSIZE && |version| == 4
      modifies this`last, this`pos, this`drawn, buf
      ensures pos == 0 && last == BUFSIZE
      ensures buf[..9] == [3] + PutBe32(epoch) + version && FindDigest(hash, key, buf[1..], 8).Some?
      ensures version != [0, 0, 0, 0] ==> Good(hash, key, buf[..])
    {
      hide Place, WritePlace, MakeDigest;
      pos, last := 0, 0;
      Put([3]);
      Put(PutBe32(epoch));
      Put(version);
      FillRandom();
      ghost var s := buf[1..];
      var head := [3] + PutBe32(epoch) + version;
      assert buf[..9] == head && head[5..9] == version;
      assert s[4..8] == buf[5..9] == buf[..9][5..9];
      WriteDigest(key);
      DigestFound(hash, key, s);
      assert buf[..][1..] == buf[1..];
      assert buf[..][5..9] == buf[1..][4..8] == WithDigest(hash, key, s)[..12][4..8] == s[4..8] == version;
      assert buf[..9] == [buf[0]] + buf[1..][..12][..8] == [3] + s[..12][..8] == head;
    }

    /** The digest goes to its place in the packet behind the first byte. */
    method WriteDigest(key: seq<byte>)
      requires buf.Length == BUFSIZE
      modifies this`last, buf
      ensures last == old(last) && buf[0] == old(buf[0]) && buf[1..] == WithDigest(hash, key, old(buf[1..]))
    {
      hide MakeDigest;
      var s := buf[1..];
      var sum := 0;
      for n := 8 to 12
        invariant sum == Sum(s, 8, n)
      {
        sum := sum + s[n] as nat;
      }
      var offs := sum % 728 + 12;
      assert offs == WritePlace(s, 0);
      var at := last;
      last := 1 + offs;
      Put(MakeDigest(hash, key, s, Some(offs)));
      last := at;
      assert buf[1..] == s[..offs] + MakeDigest(hash, key, s, Some(offs)) + s[offs + KEYLEN..];
    }

    /** Reads the peer's challenge: an old-style one has no program version or no digest. */
    method ParseChallenge(peerKey: seq<byte>, key: seq<byte>) returns (ok: bool)
      requires buf.Length == BUFSIZE && pos == 0 && last == BUFSIZE
      modifies this`pos, this`last, this`oldStyle, this`digest
      ensures ok <==> buf[0] == 3
      ensures Good(hash, peerKey, buf[..]) ==> ok && oldStyle == old(oldStyle) && digest.Some?
      ensures oldStyle == (old(oldStyle)
                           || (ok && (buf[5..9] == [0, 0, 0, 0] || Digest(hash, peerKey, buf[1..]).None?)))
      ensures digest == if !ok || buf[5..9] == [0, 0, 0, 0] || Digest(hash, peerKey, buf[1..]).None? then old(digest)
                        else var o := Digest(hash, peerKey, buf[1..]).value;
                             Some(Hmac(hash, key, buf[1..][o..o + KEYLEN]))
    {
      hide FindDigest;
      if buf[0] as nat != 3 {
        return false;
      }
      pos := pos + 1;
      assert buf[..][5..9] == buf[5..9] && buf[..][1..] == buf[1..];
      if buf[5..9] == [0, 0, 0, 0] {
        oldStyle := true;
        return true;
      }
      var s := buf[1..];
      var offs := FindDigest(hash, peerKey, s, 772);
      if offs.None? {
        offs := FindDigest(hash, peerKey, s, 8);
      }
      if offs.None? {
        oldStyle := true;
        return true;
      }
      pos := pos + offs.value;
      last := pos + KEYLEN;
      digest := Some(MakeDigest(hash, key, buf[pos..last], None));
      ghost var all := buf[..];
      assert s == all[1..] && buf[pos..last] == all[pos..last];
      Shifted(all, offs.value, KEYLEN);
      return true;
    }

    /** A response: random bytes, signed with the key made from the peer's digest if there was one. */
    method CreateResponse()
      requires buf.Length == BUFSIZE
      modifies this`last, this`pos, this`drawn, buf
      ensures pos == 1 && last == BUFSIZE
      ensures digest.Some? ==> Signed(hash, digest, buf[1..])
    {
      hide Hmac;
      pos, last := 1, 1;
      FillRandom();
      if digest.Some? {
        var s := buf[1..];
        last := BUFSIZE - KEYLEN;
        var d := MakeDigest(hash, digest.value, s, Some(PACKET - KEYLEN));
        ghost var head := buf[..last];
        assert head[1..] == s[..PACKET - KEYLEN] && s[..PACKET - KEYLEN] + s[PACKET..] == s[..PACKET - KEYLEN];
        Put(d);
        assert buf[..last] == buf[..] == head + d;
        assert buf[1..] == buf[..][1..] == head[1..] + d;
      }
    }

    /** A client that is about to send its challenge. */
    constructor Client(hash: Hash, epoch: u32, random: nat -> byte)
      ensures Valid() && !isServer && !failed && !oldStyle && fresh(buf)
      ensures this.hash == hash && Good(hash, PartialKey(false), challenge) && sent == [] && received == []
      ensures ToSend() == ToReceive() == BUFSIZE + PACKET
    {
      this.hash, this.epoch, this.random, isServer := hash, epoch, random, false;
      buf := new byte[BUFSIZE];
      stage, drawn, pos, last := CLIENT_SEND_CHALLENGE, 0, 0, 0;
      oldStyle, failed, digest := false, false, None;
      sent, received, challenge, response := [], [], [], [];
      new;
      CreateChallenge(CLIENT_VERSION, PartialKey(false));
      challenge := buf[..];
    }

    /** A server that waits for a challenge. */
    constructor Server(hash: Hash, epoch: u32, random: nat -> byte)
      ensures Valid() && isServer && !failed && !oldStyle && fresh(buf)
      ensures this.hash == hash && sent == [] && received == [] && stage == SERVER_RECV_CHALLENGE
      ensures ToSend() == ToReceive() == BUFSIZE + PACKET
    {
      this.hash, this.epoch, this.random, isServer := hash, epoch, random, true;
      buf := new byte[BUFSIZE];
      stage, drawn, pos, last := SERVER_RECV_CHALLENGE, 0, 0, 0;
      oldStyle, failed, digest := false, false, None;
      sent, received, challenge, response := [], [], [], [];
    }

    /** One round of the receiving loop: the connection gives some bytes, and a full buffer ends the stage. */
    method Receive(chunk: seq<byte>)
      requires Valid() && !failed && Receiving() && 0 < |chunk| <= BUFSIZE - last
      modifies this, buf
      ensures !failed ==> Valid() && received == old(received) + chunk && sent == old(sent)
      ensures !failed ==> ToReceive() == old(ToReceive()) - |chunk| && ToSend() == old(ToSend())
      ensures old(Challenged()) ==> challenge == old(challenge)
      ensures !failed && !oldStyle && stage == SERVER_SEND_CHALLENGE && old(stage) == SERVER_RECV_CHALLENGE ==>
        Good(hash, PartialKey(true), challenge)
      ensures (var c := old(received) + chunk;
               |c| >= BUFSIZE ==> Good(hash, PartialKey(!isServer), c[..BUFSIZE]))
                 ==> !failed && oldStyle == old(oldStyle)
    {
      hide Good, KeyOf, Signed;
      ghost var was := received;
      Put(chunk);
      received := received + chunk;
      assert |was| >= BUFSIZE ==> received[..BUFSIZE] == was[..BUFSIZE];
      if last == BUFSIZE {
        assert buf[..last] == buf[..];
        assert !Keyed() ==> received[..BUFSIZE] == buf[..];
        Received();
        assert Answering() ==> sent == challenge + response[..0];
      }
    }

    /** The buffer is full: what comes next. */
    method Received()
      requires buf.Length == BUFSIZE && Receiving() && last == BUFSIZE && !failed
      requires stage == SERVER_RECV_CHALLENGE || stage == CLIENT_RECV_CHALLENGE ==> pos == 0
      requires isServer <==> stage <= SERVER_DONE
      modifies this`stage, this`pos, this`last, this`drawn, this`oldStyle, this`digest, this`failed, this`challenge,
               this`response, buf
      ensures stage == old(stage) + 1
      ensures stage == SERVER_SEND_CHALLENGE || stage == CLIENT_RECV_RESPONSE ==>
        failed || oldStyle || (digest == KeyOf(hash, isServer, old(buf[..])) && digest.Some?)
      ensures stage != SERVER_SEND_CHALLENGE && stage != CLIENT_RECV_RESPONSE ==> digest == old(digest)
      ensures stage == SERVER_SEND_CHALLENGE && !failed && oldStyle ==> challenge == old(buf[..])
      ensures if stage == CLIENT_SEND_RESPONSE then
                buf[1..] == response && (digest.Some? ==> Signed(hash, digest, response))
              else response == old(response)
      ensures !failed ==>
        if stage == SERVER_SEND_CHALLENGE then pos == 0 && last == BUFSIZE && challenge == buf[..]
        else if stage == CLIENT_RECV_RESPONSE then pos == last == 1
        else if stage == CLIENT_SEND_RESPONSE then pos == 1 && last == BUFSIZE
        else stage == SERVER_DONE && pos == old(pos) && last == BUFSIZE
      ensures stage != SERVER_SEND_CHALLENGE ==> challenge == old(challenge)
      ensures failed || oldStyle != old(oldStyle) ==> stage == SERVER_SEND_CHALLENGE || stage == CLIENT_RECV_RESPONSE
      ensures Good(hash, PartialKey(!isServer), old(buf[..])) ==> !failed && oldStyle == old(oldStyle)
      ensures stage == SERVER_SEND_CHALLENGE && !failed && !oldStyle ==> Good(hash, PartialKey(true), challenge)
    {
      hide Good, FindDigest, Digest;
      assert PartialKey(!isServer) == if isServer then CLIENT_PARTIAL_KEY else SERVER_PARTIAL_KEY;
      stage := stage + 1;
      if stage == SERVER_SEND_CHALLENGE {
        var ok := ParseChallenge(CLIENT_PARTIAL_KEY, FullKey(true));
        if !ok {
          failed := true;
          return;
        }
        if oldStyle {
          pos, last := 0, BUFSIZE;
        } else {
          CreateChallenge(SERVER_VERSION, PartialKey(true));
        }
        challenge := buf[..];
      } else if stage == CLIENT_RECV_RESPONSE {
        var ok := ParseChallenge(SERVER_PARTIAL_KEY, FullKey(false));
        if !ok {
          failed := true;
          return;
        }
        pos, last := 1, 1;
      } else if stage == CLIENT_SEND_RESPONSE {
        CreateResponse();
        response := buf[1..];
      }
    }

    /** One round of the sending loop: the connection takes `n` bytes, and an empty buffer ends the stage. */
    method Send(n: nat) returns (chunk: seq<byte>)
      requires Valid() && !failed && Sending() && 0 < n <= last - pos
      modifies this, buf
      ensures Valid() && failed == old(failed) && oldStyle == old(oldStyle)
      ensures |chunk| == n && sent == old(sent) + chunk && received == old(received) && challenge == old(challenge)
      ensures ToSend() == old(ToSend()) - n && ToReceive() == old(ToReceive())
    {
      hide Good, KeyOf, Signed;
      chunk := buf[pos..pos + n];
      assert buf[..pos + n] == buf[..pos] + chunk;
      if Answering() {
        Further(challenge, response, buf[..], pos, n);
      }
      pos := pos + n;
      sent := sent + chunk;
      if pos == last {
        assert buf[..pos] == buf[..];
        Sent();
      }
    }

    /** The buffer is sent: what comes next. */
    method Sent()
      requires buf.Length == BUFSIZE && Sending() && pos == last == BUFSIZE
      modifies this`stage, this`pos, this`last, this`drawn, this`response, buf
      ensures stage == old(stage) + 1
      ensures if stage == SERVER_SEND_RESPONSE then
                && response == buf[1..]
                && if oldStyle then buf[..] == old(buf[..]) else digest.Some? ==> Signed(hash, digest, response)
              else response == old(response)
      ensures if stage == SERVER_SEND_RESPONSE then pos == 1 && last == BUFSIZE
              else if stage == SERVER_RECV_RESPONSE then pos == last == 1
              else if stage == CLIENT_RECV_CHALLENGE then pos == last == 0
              else stage == CLIENT_DONE && pos == last == BUFSIZE
      ensures stage != SERVER_SEND_RESPONSE ==> buf[..] == old(buf[..])
    {
      stage := stage + 1;
      if stage == SERVER_SEND_RESPONSE {
        if oldStyle {
          pos, last := 1, BUFSIZE;
        } else {
          CreateResponse();
        }
        response := buf[1..];
      } else if stage == SERVER_RECV_RESPONSE {
        pos, last := 1, 1;
      } else if stage == CLIENT_RECV_CHALLENGE {
        pos, last := 0, 0;
      }
    }
  }

  /** The part of a response that goes out next. */
  lemma Further(challenge: seq<byte>, response: seq<byte>, s: seq<byte>, p: nat, n: nat)
    requires 1 <= p && p + n <= |s| && s[1..] == response
    ensures (challenge + response[..p - 1]) + s[p..p + n] == challenge + response[..p + n - 1]
  {
    Shifted(s, p - 1, n);
    assert response[..p + n - 1] == response[..p - 1] + response[p - 1..p - 1 + n];
  }

  lemma Shifted(s: seq<byte>, o: nat, n: nat)
    requires 1 + o + n <= |s|
    ensures s[1 + o..1 + o + n] == s[1..][o..o + n]
  {
    var a, b := s[1 + o..1 + o + n], s[1..][o..o + n];
    assert |a| == |b| == n;
    assert forall i :: 0 <= i < n ==> a[i] == s[1 + o + i] == b[i];
  }
}
