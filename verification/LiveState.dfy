/**
 The streams of a live application: a hash table of named streams, the members of each stream, and what holds between a
 publisher and its subscribers.
 */
module LiveState {
  import opened Wrappers
  import opened LiveChunk

  /** `members` is the list of contexts, the latest to join first. A stream off the table waits in the free list. */
  datatype Stream = Stream(name: string, members: seq<nat>, active: bool, publishing: bool)

  const FRESH := Ctx(None, false, false, false, false, 0, 0, RESET, RESET)

  // ----- the registry -----

  function BucketOf(hash: string -> nat, nbuckets: nat, name: string): (b: nat)
    requires nbuckets > 0
    ensures b < nbuckets
  {
    hash(name) % nbuckets
  }

  ghost predicate InBounds(streams: seq<Stream>, list: seq<nat>) {
    forall i :: 0 <= i < |list| ==> list[i] < |streams|
  }

  /** A bucket holds only streams that have members and hash there, with distinct names. */
  ghost predicate BucketOk(hash: string -> nat, nbuckets: nat, streams: seq<Stream>, b: nat, list: seq<nat>)
    requires nbuckets > 0
  {
    && InBounds(streams, list)
    && (forall i :: 0 <= i < |list| ==>
          |streams[list[i]].members| > 0 && BucketOf(hash, nbuckets, streams[list[i]].name) == b)
    && (forall i, j :: 0 <= i < j < |list| ==> streams[list[i]].name != streams[list[j]].name)
  }

  ghost predicate Placed(hash: string -> nat, s: Stream, buckets: seq<seq<nat>>, free: seq<nat>, k: nat)
    requires |buckets| > 0
  {
    if |s.members| > 0 then k in buckets[BucketOf(hash, |buckets|, s.name)] else k in free
  }

  lemma BucketKept(hash: string -> nat, nbuckets: nat, before: seq<Stream>, after: seq<Stream>, b: nat, list: seq<nat>)
    requires nbuckets > 0 && BucketOk(hash, nbuckets, before, b, list) && |before| <= |after|
    requires forall k :: k in list ==> after[k] == before[k]
    ensures BucketOk(hash, nbuckets, after, b, list)
  {
  }

  lemma BucketGrows(hash: string -> nat, nbuckets: nat, streams: seq<Stream>, b: nat, list: seq<nat>, k: nat)
    requires nbuckets > 0 && BucketOk(hash, nbuckets, streams, b, list) && k < |streams|
    requires |streams[k].members| > 0 && BucketOf(hash, nbuckets, streams[k].name) == b
    requires forall l :: l in list ==> streams[l].name != streams[k].name
    ensures BucketOk(hash, nbuckets, streams, b, list + [k])
  {
  }

  lemma BucketShrinks(hash: string -> nat, nbuckets: nat, streams: seq<Stream>, b: nat, list: seq<nat>, i: nat)
    requires nbuckets > 0 && BucketOk(hash, nbuckets, streams, b, list) && i < |list|
    ensures BucketOk(hash, nbuckets, streams, b, list[..i] + list[i + 1..])
    ensures forall l :: l in list[..i] + list[i + 1..] <==> l in list && l != list[i]
  {
    var rest := list[..i] + list[i + 1..];
    forall l | l in list && l != list[i]
      ensures l in rest
    {
      var m :| 0 <= m < |list| && list[m] == l;
      assert rest[if m < i then m else m - 1] == l;
    }
  }

  /** Every stream is in exactly one place: on the table when it has members, in the free list once when it has none. */
  ghost predicate RegistryOk(hash: string -> nat, streams: seq<Stream>, buckets: seq<seq<nat>>, free: seq<nat>) {
    && |buckets| > 0
    && (forall b :: 0 <= b < |buckets| ==> BucketOk(hash, |buckets|, streams, b, buckets[b]))
    && (forall k :: 0 <= k < |streams| ==> Placed(hash, streams[k], buckets, free, k))
    && InBounds(streams, free)
    && (forall i :: 0 <= i < |free| ==> |streams[free[i]].members| == 0)
    && (forall i, j :: 0 <= i < j < |free| ==> free[i] != free[j])
  }

  /** The table is a map: no two streams with members have the same name. */
  lemma NamesDistinct(hash: string -> nat, streams: seq<Stream>, buckets: seq<seq<nat>>, free: seq<nat>, k: nat, l: nat)
    requires RegistryOk(hash, streams, buckets, free)
    requires k < |streams| && l < |streams| && |streams[k].members| > 0 && |streams[l].members| > 0
    requires streams[k].name == streams[l].name
    ensures k == l
  {
    var list := buckets[BucketOf(hash, |buckets|, streams[k].name)];
    assert k in list && l in list;
  }

  /** Only the members of one stream on the table change, and some remain: the registry stays. */
  lemma RegistryKept(hash: string -> nat, streams: seq<Stream>, buckets: seq<seq<nat>>, free: seq<nat>, k: nat,
                     s: Stream)
    requires RegistryOk(hash, streams, buckets, free) && k < |streams|
    requires s.name == streams[k].name && (|s.members| > 0 <==> |streams[k].members| > 0)
    ensures RegistryOk(hash, streams[k := s], buckets, free)
  {
  }

  /** The name is on the table, for stream `k`. */
  predicate Named(streams: seq<Stream>, k: nat, name: string) {
    k < |streams| && |streams[k].members| > 0 && streams[k].name == name
  }

  // ----- contexts and members -----

  /** Members and contexts point at each other. */
  ghost predicate LinksOk(ctxs: seq<Ctx>, streams: seq<Stream>) {
    && (forall k, i :: 0 <= k < |streams| && 0 <= i < |streams[k].members| ==>
          && streams[k].members[i] < |ctxs|
          && ctxs[streams[k].members[i]].stream == Some(k))
    && (forall k, i, j :: 0 <= k < |streams| && 0 <= i < j < |streams[k].members| ==>
          streams[k].members[i] != streams[k].members[j])
    && (forall c :: 0 <= c < |ctxs| && ctxs[c].stream.Some? ==>
          ctxs[c].stream.value < |streams| && c in streams[ctxs[c].stream.value].members)
  }

  // ----- a publisher and its subscribers -----

  /** What holds of a subscriber that is not being finalized. */
  predicate SubOk(conf: Config, active: bool, c: Ctx) {
    && (!c.active || !active || c.paused ==> c.Waiting())
    && (active && !c.paused ==> c.active)
    && (!conf.waitVideo ==> Decoded(c.video) && Decoded(c.audio))
  }

  /** The bounded drift: on each chunk stream the publisher's clock is the subscriber's and what it has missed. */
  predicate PairOk(p: Ctx, c: Ctx) {
    Synced(p.video, c.video) && Synced(p.audio, c.audio)
  }

  predicate IsSub(c: Ctx) {
    !c.publishing && !c.finalized
  }

  ghost predicate PublisherOk(ctxs: seq<Ctx>, s: Stream) {
    && (forall c :: c in s.members ==> c < |ctxs|)
    && (forall p, q :: p in s.members && q in s.members && ctxs[p].publishing && ctxs[q].publishing ==> p == q)
    && (forall p :: p in s.members && ctxs[p].publishing ==> s.publishing && ctxs[p].active == s.active)
    && (s.publishing ==> exists p :: p in s.members && ctxs[p].publishing)
    && (s.active ==> s.publishing)
  }

  ghost predicate SubsOk(conf: Config, ctxs: seq<Ctx>, s: Stream) {
    && (forall c :: c in s.members ==> c < |ctxs|)
    && (forall c :: c in s.members && IsSub(ctxs[c]) ==> SubOk(conf, s.active, ctxs[c]))
    && (forall p, c :: p in s.members && c in s.members && ctxs[p].publishing && IsSub(ctxs[c]) ==>
          PairOk(ctxs[p], ctxs[c]))
  }

  ghost predicate StreamOk(conf: Config, ctxs: seq<Ctx>, s: Stream) {
    PublisherOk(ctxs, s) && SubsOk(conf, ctxs, s)
  }

  ghost predicate AllOk(conf: Config, ctxs: seq<Ctx>, streams: seq<Stream>) {
    forall k :: 0 <= k < |streams| ==> StreamOk(conf, ctxs, streams[k])
  }

  lemma StreamKept(conf: Config, before: seq<Ctx>, after: seq<Ctx>, s: Stream)
    requires StreamOk(conf, before, s)
    requires forall c :: c in s.members ==> c < |after| && after[c] == before[c]
    ensures StreamOk(conf, after, s)
  {
  }

  /** A waiting subscriber is in step with any publisher. */
  lemma WaitingInStep(p: Ctx, c: Ctx)
    requires c.Waiting()
    ensures PairOk(p, c) && Decoded(c.video) && Decoded(c.audio)
  {
  }

  // ----- going active and inactive -----

  /** ngx_rtmp_live_set_status on a subscriber: it starts over, unless a notice to it is refused. */
  function StatusSet(c: Ctx, active: bool, refused: bool): (r: Ctx)
    ensures (r.stream, r.publishing, r.paused) == (c.stream, c.publishing, c.paused)
    ensures r.finalized == (c.finalized || (c.active != active && refused))
  {
    if c.active == active then c
    else if refused then c.(active := active, finalized := true)
    else c.Stopped().(active := active)
  }

  lemma StatusSetIs(c: Ctx, active: bool, refused: bool)
    ensures var r := StatusSet(c, active, refused);
            && r.active == active && r.metaVersion == c.metaVersion && r.ndropped == c.ndropped
            && (if c.active == active || refused then r.video == c.video && r.audio == c.audio else r.Waiting())
  {
  }

  function StatusesSet(ctxs: seq<Ctx>, members: seq<nat>, active: bool, refused: set<nat>): (r: seq<Ctx>)
    ensures |r| == |ctxs|
    ensures forall c :: 0 <= c < |ctxs| ==>
      r[c] == if c in members && !ctxs[c].publishing then StatusSet(ctxs[c], active, c in refused) else ctxs[c]
  {
    seq(|ctxs|, c requires 0 <= c < |ctxs| =>
      if c in members && !ctxs[c].publishing then StatusSet(ctxs[c], active, c in refused) else ctxs[c])
  }

  /** Whatever it was doing, a subscriber of a stream that goes active or inactive waits for an absolute frame. */
  lemma StatusSetOk(conf: Config, was: bool, active: bool, c: Ctx, refused: bool)
    requires IsSub(c) ==> SubOk(conf, was, c)
    requires was != active
    ensures var r := StatusSet(c, active, refused); IsSub(r) ==> SubOk(conf, active, r) && r.Waiting()
  {
  }

  /** The publisher goes active or inactive, and its subscribers with it. */
  lemma StatusesSetOk(conf: Config, ctxs: seq<Ctx>, s: Stream, p: nat, active: bool, refused: set<nat>)
    requires StreamOk(conf, ctxs, s) && p in s.members && ctxs[p].publishing && s.active != active
    ensures StreamOk(conf, StatusesSet(ctxs[p := ctxs[p].(active := active)], s.members, active, refused),
                     s.(active := active))
  {
    var mid := ctxs[p := ctxs[p].(active := active)];
    var r := StatusesSet(mid, s.members, active, refused);
    forall c | c in s.members && IsSub(r[c])
      ensures SubOk(conf, active, r[c]) && r[c].Waiting()
    {
      StatusSetOk(conf, s.active, active, mid[c], c in refused);
    }
    forall q, c | q in s.members && c in s.members && r[q].publishing && IsSub(r[c])
      ensures PairOk(r[q], r[c])
    {
      WaitingInStep(r[q], r[c]);
    }
    assert forall c :: c in s.members ==> r[c].publishing == ctxs[c].publishing;
    assert PublisherOk(r, s.(active := active)) by {
      assert p in s.members && r[p].publishing;
    }
  }

  // ----- joining and leaving -----

  /** A subscriber joins: it waits, and it is active if the stream is. */
  lemma SubscriberJoins(conf: Config, ctxs: seq<Ctx>, s: Stream, c: nat, sub: Ctx)
    requires StreamOk(conf, ctxs, s) && c < |ctxs| && c !in s.members
    requires !sub.publishing && (IsSub(sub) ==> sub.Waiting() && sub.active == s.active && !sub.paused)
    ensures StreamOk(conf, ctxs[c := sub], s.(members := [c] + s.members))
  {
    var after, joined := ctxs[c := sub], s.(members := [c] + s.members);
    forall p, d | p in joined.members && d in joined.members && after[p].publishing && IsSub(after[d])
      ensures PairOk(after[p], after[d])
    {
      if d == c {
        WaitingInStep(after[p], after[d]);
      }
    }
    if s.publishing {
      var p :| p in s.members && ctxs[p].publishing;
      assert p in joined.members && after[p].publishing;
    }
  }

  /** A publisher joins a stream that has none: all its subscribers are waiting. */
  lemma PublisherJoins(conf: Config, ctxs: seq<Ctx>, s: Stream, c: nat, pub: Ctx)
    requires StreamOk(conf, ctxs, s) && c < |ctxs| && c !in s.members && !s.publishing
    requires pub.publishing && !pub.active
    ensures StreamOk(conf, ctxs[c := pub], s.(members := [c] + s.members, publishing := true))
  {
    var after, joined := ctxs[c := pub], s.(members := [c] + s.members, publishing := true);
    assert c in joined.members && after[c].publishing;
    forall p, d | p in joined.members && d in joined.members && after[p].publishing && IsSub(after[d])
      ensures PairOk(after[p], after[d])
    {
      assert p == c && d in s.members;
      WaitingInStep(after[p], after[d]);
    }
  }

  function Without(members: seq<nat>, c: nat): (r: seq<nat>)
    ensures forall d :: d in r <==> d in members && d != c
    ensures |r| <= |members|
  {
    if members == [] then []
    else if members[0] == c then Without(members[1..], c)
    else [members[0]] + Without(members[1..], c)
  }

  /** A subscriber leaves. */
  lemma SubscriberLeaves(conf: Config, ctxs: seq<Ctx>, s: Stream, c: nat)
    requires StreamOk(conf, ctxs, s) && c in s.members && !ctxs[c].publishing
    ensures StreamOk(conf, ctxs, s.(members := Without(s.members, c)))
  {
    var left := s.(members := Without(s.members, c));
    if s.publishing {
      var p :| p in s.members && ctxs[p].publishing;
      assert p in left.members;
    }
  }

  /** The publisher leaves: the stream has none, and it goes inactive. */
  lemma PublisherLeaves(conf: Config, ctxs: seq<Ctx>, s: Stream, p: nat, refused: set<nat>)
    requires StreamOk(conf, ctxs, s) && p in s.members && ctxs[p].publishing
    ensures var rest := Without(s.members, p);
            var after := if s.active then StatusesSet(ctxs[p := ctxs[p].(active := false)], rest, false, refused)
                         else ctxs;
            StreamOk(conf, after, Stream(s.name, rest, false, false))
  {
    var rest := Without(s.members, p);
    if s.active {
      var mid := ctxs[p := ctxs[p].(active := false)];
      var after := StatusesSet(mid, rest, false, refused);
      forall c | c in rest && IsSub(after[c])
        ensures SubOk(conf, false, after[c])
      {
        StatusSetOk(conf, true, false, mid[c], c in refused);
      }
    }
  }

  lemma WithoutDistinct(members: seq<nat>, c: nat)
    requires forall i, j :: 0 <= i < j < |members| ==> members[i] != members[j]
    ensures var r := Without(members, c); forall i, j :: 0 <= i < j < |r| ==> r[i] != r[j]
  {
    if members != [] {
      WithoutDistinct(members[1..], c);
      var rest := Without(members[1..], c);
      forall j | 0 <= j < |rest|
        ensures rest[j] != members[0]
      {
        assert rest[j] in rest;
      }
    }
  }

  lemma WithoutAt(before: seq<nat>, c: nat, after: seq<nat>)
    requires c !in before && c !in after
    ensures Without(before + [c] + after, c) == before + after
  {
    var members := before + [c] + after;
    if before == [] {
      WithoutNone(after, c);
      assert members[0] == c && members[1..] == after && before + after == after;
    } else {
      WithoutAt(before[1..], c, after);
      assert members[0] == before[0] && members[1..] == before[1..] + [c] + after;
      assert [before[0]] + (before[1..] + after) == before + after;
    }
  }

  lemma WithoutNone(members: seq<nat>, c: nat)
    requires c !in members
    ensures Without(members, c) == members
  {
  }

  /** The sessions that play a stream without a publisher are finalized. */
  function AllFinalized(ctxs: seq<Ctx>, members: seq<nat>): (r: seq<Ctx>)
    ensures |r| == |ctxs|
    ensures forall c :: 0 <= c < |ctxs| ==>
      r[c] == if c in members && !ctxs[c].publishing then ctxs[c].(finalized := true) else ctxs[c]
  {
    seq(|ctxs|, c requires 0 <= c < |ctxs| =>
      if c in members && !ctxs[c].publishing then ctxs[c].(finalized := true) else ctxs[c])
  }

  lemma AllFinalizedOk(conf: Config, ctxs: seq<Ctx>, s: Stream)
    requires StreamOk(conf, ctxs, s)
    ensures StreamOk(conf, AllFinalized(ctxs, s.members), s)
  {
    var r := AllFinalized(ctxs, s.members);
    assert forall c :: c in s.members ==> r[c].publishing == ctxs[c].publishing && r[c].active == ctxs[c].active;
  }

  /** A member is gone from stream `k`, which is `s` now, and from no other. */
  lemma MemberLeaves(conf: Config, ctxs: seq<Ctx>, streams: seq<Stream>, k: nat, c: nat, after: seq<Ctx>, s: Stream)
    requires LinksOk(ctxs, streams) && AllOk(conf, ctxs, streams)
    requires k < |streams| && c in streams[k].members && c < |ctxs|
    requires |after| == |ctxs| && after[c].stream.None?
    requires forall d :: 0 <= d < |ctxs| && d != c ==> after[d].stream == ctxs[d].stream
    requires forall d :: 0 <= d < |ctxs| && d !in streams[k].members ==> after[d] == ctxs[d]
    requires s.members == Without(streams[k].members, c) && StreamOk(conf, after, s)
    ensures LinksOk(after, streams[k := s]) && AllOk(conf, after, streams[k := s])
  {
    hide StreamOk;
    WithoutDistinct(streams[k].members, c);
    forall l | 0 <= l < |streams| && l != k
      ensures StreamOk(conf, after, streams[l])
    {
      OtherMembers(ctxs, streams, k, l);
      StreamKept(conf, ctxs, after, streams[l]);
    }
    LinksLeave(ctxs, streams, k, c, after, s);
  }

  /** Streams have no members in common. */
  lemma OtherMembers(ctxs: seq<Ctx>, streams: seq<Stream>, k: nat, l: nat)
    requires LinksOk(ctxs, streams) && k < |streams| && l < |streams| && k != l
    ensures forall d :: d in streams[l].members ==> d < |ctxs| && d !in streams[k].members
  {
    forall d | d in streams[l].members
      ensures d < |ctxs| && d !in streams[k].members
    {
      var i :| 0 <= i < |streams[l].members| && streams[l].members[i] == d;
      forall j | 0 <= j < |streams[k].members|
        ensures streams[k].members[j] != d
      {
        assert ctxs[streams[k].members[j]].stream == Some(k);
      }
    }
  }

  lemma LinksLeave(ctxs: seq<Ctx>, streams: seq<Stream>, k: nat, c: nat, after: seq<Ctx>, s: Stream)
    requires LinksOk(ctxs, streams) && k < |streams| && c in streams[k].members && c < |ctxs|
    requires |after| == |ctxs| && after[c].stream.None?
    requires forall d :: 0 <= d < |ctxs| && d != c ==> after[d].stream == ctxs[d].stream
    requires s.members == Without(streams[k].members, c)
    requires forall i, j :: 0 <= i < j < |s.members| ==> s.members[i] != s.members[j]
    ensures LinksOk(after, streams[k := s])
  {
    assert ctxs[c].stream == Some(k) by {
      var i :| 0 <= i < |streams[k].members| && streams[k].members[i] == c;
    }
    forall i | 0 <= i < |s.members|
      ensures s.members[i] < |after| && after[s.members[i]].stream == Some(k)
    {
      assert s.members[i] in streams[k].members && s.members[i] != c;
    }
  }

  /** Nothing changes but the state of the members of stream `k`. */
  lemma MembersChange(conf: Config, ctxs: seq<Ctx>, streams: seq<Stream>, k: nat, after: seq<Ctx>, s: Stream)
    requires LinksOk(ctxs, streams) && AllOk(conf, ctxs, streams) && k < |streams|
    requires |after| == |ctxs| && forall d :: 0 <= d < |ctxs| ==> after[d].stream == ctxs[d].stream
    requires forall d :: 0 <= d < |ctxs| && d !in streams[k].members ==> after[d] == ctxs[d]
    requires s.members == streams[k].members && StreamOk(conf, after, s)
    ensures LinksOk(after, streams[k := s]) && AllOk(conf, after, streams[k := s])
  {
    hide StreamOk;
    forall l | 0 <= l < |streams| && l != k
      ensures StreamOk(conf, after, streams[l])
    {
      OtherMembers(ctxs, streams, k, l);
      StreamKept(conf, ctxs, after, streams[l]);
    }
  }

  /** One subscriber changes and stays in step with the publisher. */
  lemma SubscriberChanges(conf: Config, ctxs: seq<Ctx>, s: Stream, c: nat, sub: Ctx)
    requires StreamOk(conf, ctxs, s) && c in s.members && !ctxs[c].publishing && !sub.publishing
    requires IsSub(sub) ==> SubOk(conf, s.active, sub)
    requires IsSub(sub) ==> forall p :: p in s.members && ctxs[p].publishing ==> PairOk(ctxs[p], sub)
    ensures StreamOk(conf, ctxs[c := sub], s)
  {
    var after := ctxs[c := sub];
    if s.publishing {
      var p :| p in s.members && ctxs[p].publishing;
      assert after[p].publishing;
    }
  }

  /** Pausing makes a subscriber wait, and so does unpausing unless it was not paused. */
  lemma PauseInStep(conf: Config, active: bool, p: Ctx, c: Ctx, pause: bool, refused: bool)
    requires IsSub(c) ==> SubOk(conf, active, c) && PairOk(p, c)
    ensures var r := StatusSet(c.(paused := pause), !pause, refused);
            IsSub(r) ==> SubOk(conf, active, r) && PairOk(p, r)
  {
  }

  lemma PauseSub(conf: Config, active: bool, c: Ctx, pause: bool, refused: bool)
    requires IsSub(c) ==> SubOk(conf, active, c)
    ensures var r := StatusSet(c.(paused := pause), !pause, refused); IsSub(r) ==> SubOk(conf, active, r)
  {
  }

  /** The publisher changes in nothing that its subscribers depend on. */
  lemma PublisherChanges(conf: Config, ctxs: seq<Ctx>, s: Stream, c: nat, pub: Ctx)
    requires StreamOk(conf, ctxs, s) && c in s.members && ctxs[c].publishing && pub.publishing
    requires (pub.active, pub.video, pub.audio) == (ctxs[c].active, ctxs[c].video, ctxs[c].audio)
    ensures StreamOk(conf, ctxs[c := pub], s)
  {
    assert ctxs[c := pub][c].publishing;
  }

  // ----- one frame -----

  /** A subscriber of an active stream is in step with its publisher, or is being finalized. */
  predicate SubInStep(conf: Config, p: Ctx, c: Ctx) {
    IsSub(c) ==> SubOk(conf, true, c) && PairOk(p, c)
  }

  /** The publisher once its frame is under way. */
  function Sending(conf: Config, p: Ctx, f: Frame): (r: Ctx)
    ensures (r.stream, r.publishing, r.active, r.paused) == (p.stream, p.publishing, p.active, p.paused)
  {
    p.With(Second(conf, f), Published(p.Cs(Second(conf, f)), f))
  }

  /** A subscriber that does not get the frame. */
  lemma PassedOver(conf: Config, p: Ctx, c: Ctx, f: Frame)
    requires SubInStep(conf, p, c) && c.paused
    ensures SubInStep(conf, Sending(conf, p, f), c)
  {
  }

  /** A subscriber that does: its chunk stream is in step with the publisher's, and the other one is as before. */
  lemma Served(conf: Config, p: Ctx, c: Ctx, f: Frame, a: Answers, r: Ctx, outcome: Outcome)
    requires SubInStep(conf, p, c) && !c.paused && !c.publishing
    requires (r.publishing, r.active, r.paused) == (c.publishing, c.active, c.paused) && (c.finalized ==> r.finalized)
    requires r.Cs(!Second(conf, f)) == c.Cs(!Second(conf, f))
    requires Synced(p.Cs(Second(conf, f)), c.Cs(Second(conf, f))) ==>
      Synced(Published(p.Cs(Second(conf, f)), f), r.Cs(Second(conf, f)))
    requires !conf.waitVideo && Decoded(c.Cs(Second(conf, f))) ==> Decoded(r.Cs(Second(conf, f)))
    ensures SubInStep(conf, Sending(conf, p, f), r)
  {
    hide Synced, Decoded;
  }

  /** In step after the frame, one by one: the whole stream is. */
  lemma AllServed(conf: Config, ctxs: seq<Ctx>, s: Stream, c: nat, after: seq<Ctx>)
    requires StreamOk(conf, ctxs, s) && c in s.members && ctxs[c].publishing && s.active
    requires |after| == |ctxs| && after[c].publishing && after[c].active == ctxs[c].active
    requires forall d :: d in s.members && d != c ==> after[d].publishing == ctxs[d].publishing
    requires forall d :: d in s.members && d != c ==> SubInStep(conf, after[c], after[d])
    ensures StreamOk(conf, after, s)
  {
    hide SubOk, PairOk;
  }
}
