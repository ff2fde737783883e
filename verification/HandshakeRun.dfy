/**
 A client and a server joined by two channels that keep the order of their bytes, whatever is read and written at a
 time.
 */
module HandshakeRun {
  import opened Arithmetic
  import opened Bytes
  import opened HandshakeDigest
  import opened Handshake

  /** What may happen next. */
  datatype Step = ClientSends | ClientReceives | ServerSends | ServerReceives

  class Connection {
    const client: Peer
    const server: Peer
    var toServer: seq<byte>
    var toClient: seq<byte>

    constructor (hash: Hash, clientEpoch: u32, serverEpoch: u32, clientRandom: nat -> byte, serverRandom: nat -> byte)
      ensures Valid() && fresh(client) && fresh(server) && fresh(client.buf) && fresh(server.buf)
              && Left() == 4 * (BUFSIZE + PACKET)
    {
      client := new Peer.Client(hash, clientEpoch, clientRandom);
      server := new Peer.Server(hash, serverEpoch, serverRandom);
      toServer, toClient := [], [];
    }

    /**
     What has been sent is what has been received and what is on its way; what one is still to receive is what the other
     is still to send and what is on its way; and the handshake is a new-style one that has not failed.
     */
    ghost predicate Valid()
      reads this, client, server, client.buf, server.buf
    {
      && client != server && client.buf != server.buf && !client.isServer && server.isServer
         && client.hash == server.hash
      && client.Valid() && server.Valid()
      && client.sent == server.received + toServer && server.sent == client.received + toClient
      && client.ToSend() + |toServer| == server.ToReceive() && server.ToSend() + |toClient| == client.ToReceive()
      && !client.failed && !server.failed && !client.oldStyle && !server.oldStyle
      && Good(client.hash, PartialKey(false), client.challenge)
      && (server.stage != SERVER_RECV_CHALLENGE ==> Good(client.hash, PartialKey(true), server.challenge))
    }

    ghost function Left(): int
      reads this, client, server
    {
      client.ToSend() + client.ToReceive() + server.ToSend() + server.ToReceive()
    }

    /** The most bytes that a step can move; 0 if it cannot happen. */
    function Room(step: Step): nat
      requires client.pos <= client.last <= BUFSIZE && server.pos <= server.last <= BUFSIZE
      reads this, client, server
    {
      match step
      case ClientSends => if client.Sending() then client.last - client.pos else 0
      case ServerSends => if server.Sending() then server.last - server.pos else 0
      case ClientReceives => if client.Receiving() then Min(|toClient|, BUFSIZE - client.last) else 0
      case ServerReceives => if server.Receiving() then Min(|toServer|, BUFSIZE - server.last) else 0
    }

    /** As long as the handshake is not over on both sides, something can happen. */
    lemma NoDeadlock() returns (step: Step)
      requires Valid() && !(client.Done() && server.Done())
      ensures Room(step) > 0
    {
      if client.Sending() {
        step := ClientSends;
      } else if server.Sending() {
        step := ServerSends;
      } else if client.Receiving() && |toClient| > 0 {
        step := ClientReceives;
      } else {
        step := ServerReceives;
      }
    }

    /** `n` bytes are taken from one side, or given to the other. */
    method Move(step: Step, n: nat)
      requires Valid() && 0 < n <= Room(step)
      modifies this, client, server, client.buf, server.buf
      ensures Valid() && Left() == old(Left()) - n
    {
      match step
      case ClientSends => FromClient(n);
      case ServerSends => FromServer(n);
      case ClientReceives => ToTheClient(n);
      case ServerReceives => ToTheServer(n);
    }

    method FromClient(n: nat)
      requires Valid() && client.Sending() && 0 < n <= client.last - client.pos
      modifies this`toServer, client, client.buf
      ensures Valid() && Left() == old(Left()) - n
    {
      hide Good, Signed, KeyOf, Peer.Valid, Peer.ToSend, Peer.ToReceive;
      var chunk := client.Send(n);
      toServer := toServer + chunk;
    }

    method FromServer(n: nat)
      requires Valid() && server.Sending() && 0 < n <= server.last - server.pos
      modifies this`toClient, server, server.buf
      ensures Valid() && Left() == old(Left()) - n
    {
      hide Good, Signed, KeyOf, Peer.Valid, Peer.ToSend, Peer.ToReceive;
      var chunk := server.Send(n);
      toClient := toClient + chunk;
    }

    method ToTheClient(n: nat)
      requires Valid() && client.Receiving() && 0 < n <= |toClient| && n <= BUFSIZE - client.last
      modifies this`toClient, client, client.buf
      ensures Valid() && Left() == old(Left()) - n
    {
      hide Good, Signed, KeyOf, Peer.Responds, Peer.Keyed;
      FirstIsChallenge(server);
      Starts(server.sent, client.received, toClient, n);
      client.Receive(toClient[..n]);
      toClient := toClient[n..];
    }

    method ToTheServer(n: nat)
      requires Valid() && server.Receiving() && 0 < n <= |toServer| && n <= BUFSIZE - server.last
      modifies this`toServer, server, server.buf
      ensures Valid() && Left() == old(Left()) - n
    {
      hide Good, Signed, KeyOf, Peer.Responds, Peer.Keyed;
      FirstIsChallenge(client);
      Starts(client.sent, server.received, toServer, n);
      server.Receive(toServer[..n]);
      toServer := toServer[n..];
    }

    /** Any run, step by step as `schedule` says wherever that can happen, ends with both sides done. */
    method Run(schedule: nat -> (Step, nat))
      requires Valid()
      modifies this, client, server, client.buf, server.buf
      ensures Valid() && client.Done() && server.Done()
      ensures |client.sent| == |client.received| == |server.sent| == |server.received| == BUFSIZE + PACKET
      ensures client.received == server.sent && server.received == client.sent
      ensures Signed(client.hash, KeyOf(client.hash, false, server.sent[..BUFSIZE]), client.sent[BUFSIZE..])
      ensures Signed(client.hash, KeyOf(client.hash, true, client.sent[..BUFSIZE]), server.sent[BUFSIZE..])
    {
      hide Good, Signed, KeyOf, Connection.Room;
      var i := 0;
      while !(client.Done() && server.Done())
        invariant Valid() && 0 <= i
        decreases Left()
      {
        var step, n := schedule(i).0, schedule(i).1;
        if Room(step) == 0 {
          step := Enabled();
        }
        Move(step, if 0 < n <= Room(step) then n else Room(step));
        i := i + 1;
      }
    }

    method Enabled() returns (step: Step)
      requires Valid() && !(client.Done() && server.Done())
      ensures Room(step) > 0
    {
      ghost var some := NoDeadlock();
      if Room(ClientSends) > 0 {
        return ClientSends;
      } else if Room(ServerSends) > 0 {
        return ServerSends;
      } else if Room(ClientReceives) > 0 {
        return ClientReceives;
      }
      return ServerReceives;
    }
  }

  /** A peer that has sent a whole buffer has sent its challenge first. */
  lemma FirstIsChallenge(p: Peer)
    requires p.Valid()
    ensures |p.sent| >= BUFSIZE ==>
      p.sent[..BUFSIZE] == p.challenge && p.stage != SERVER_RECV_CHALLENGE
  {
  }

  /** The bytes received are the first of those sent. */
  lemma Starts(sent: seq<byte>, received: seq<byte>, way: seq<byte>, n: nat)
    requires sent == received + way && n <= |way|
    ensures received + way[..n] <= sent && sent == (received + way[..n]) + way[n..]
    ensures |received| + n >= BUFSIZE ==> (received + way[..n])[..BUFSIZE] == sent[..BUFSIZE]
  {
  }
}
