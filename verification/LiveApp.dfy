/** The live application: sessions publish and play streams by name, pause, send frames and leave. */
module LiveApp {
  import opened Bytes
  import opened Wrappers
  import opened LiveChunk
  import opened LiveState

  class App {
    const conf: Config
    const hash: string -> nat
    var ctxs: seq<Ctx>
    var streams: seq<Stream>
    var buckets: seq<seq<nat>>
    var free: seq<nat>

    constructor (conf: Config, hash: string -> nat, nbuckets: nat)
      requires nbuckets > 0
      ensures this.conf == conf && this.hash == hash && Valid() && ctxs == []
    {
      this.conf, this.hash := conf, hash;
      ctxs, streams, free := [], [], [];
      buckets := seq(nbuckets, _ => []);
    }

    /** The registry, the links and every stream are in order. */
    ghost predicate Valid()
      reads this
    {
      && RegistryOk(hash, streams, buckets, free)
      && LinksOk(ctxs, streams)
      && AllOk(conf, ctxs, streams)
    }

    /** A session connects. */
    method Connect() returns (c: nat)
      requires Valid()
      modifies `ctxs
      ensures Valid() && c == |old(ctxs)| && ctxs == old(ctxs) + [FRESH]
    {
      c := |ctxs|;
      ctxs := ctxs + [FRESH];
      forall k | 0 <= k < |streams|
        ensures StreamOk(conf, ctxs, streams[k])
      {
        StreamKept(conf, old(ctxs), ctxs, streams[k]);
      }
    }

    // ----- the registry -----

    /** Looks a name up in its bucket. */
    method Find(name: string) returns (i: Option<nat>)
      requires |buckets| > 0 && InBounds(streams, buckets[BucketOf(hash, |buckets|, name)])
      ensures var list := buckets[BucketOf(hash, |buckets|, name)];
              if i.Some? then i.value < |list| && streams[list[i.value]].name == name
              else forall n :: 0 <= n < |list| ==> streams[list[n]].name != name
    {
      var list := buckets[BucketOf(hash, |buckets|, name)];
      var n := 0;
      while n < |list|
        invariant 0 <= n <= |list|
        invariant forall m :: 0 <= m < n ==> streams[list[m]].name != name
      {
        if streams[list[n]].name == name {
          return Some(n);
        }
        n := n + 1;
      }
      return None;
    }

    /** A new stream at the end of its bucket, on a record from the free list if there is one. It has no member yet. */
    method Create(name: string) returns (k: nat)
      requires |buckets| > 0 && InBounds(streams, free)
      modifies `streams, `buckets, `free
      ensures k == if |old(free)| > 0 then old(free)[0] else |old(streams)|
      ensures free == if |old(free)| > 0 then old(free)[1..] else []
      ensures streams == WithRecord(old(streams), old(free), Stream(name, [], false, false))
      ensures var b := BucketOf(hash, |old(buckets)|, name); buckets == old(buckets)[b := old(buckets)[b] + [k]]
    {
      var b := BucketOf(hash, |buckets|, name);
      if |free| > 0 {
        k := free[0];
        free := free[1..];
        streams := streams[k := Stream(name, [], false, false)];
      } else {
        k := |streams|;
        streams := streams + [Stream(name, [], false, false)];
      }
      buckets := buckets[b := buckets[b] + [k]];
    }

    /**
     The stream of a name; when there is none and `create`, a new record at the end of the bucket, with no member yet.
     */
    method GetStream(name: string, create: bool) returns (k: Option<nat>)
      requires RegistryOk(hash, streams, buckets, free)
      modifies `streams, `buckets, `free
      ensures k.Some? && Named(old(streams), k.value, name) ==>
        && streams == old(streams) && buckets == old(buckets) && free == old(free)
        && forall l: nat :: Named(old(streams), l, name) ==> l == k.value
      ensures (forall l: nat :: !Named(old(streams), l, name)) || (k.Some? && Named(old(streams), k.value, name))
      ensures k.Some? && !Named(old(streams), k.value, name) ==>
        create && Created(hash, name, old(streams), old(buckets), old(free), streams, buckets, free, k.value)
      ensures k.None? ==> !create && streams == old(streams) && buckets == old(buckets) && free == old(free)
    {
      hide RegistryOk;
      FoundIsNamed(hash, streams, buckets, free);
      OnBucket(hash, streams, buckets, free, name);
      var i := Find(name);
      if i.Some? {
        return Some(buckets[BucketOf(hash, |buckets|, name)][i.value]);
      }
      if !create {
        return None;
      }
      var l := Create(name);
      return Some(l);
    }

    // ----- going active and inactive -----

    /** One subscriber; `refused` says that its queue refuses a notice. */
    method SetSubscriber(c: nat, active: bool, refused: bool)
      requires c < |ctxs|
      modifies `ctxs
      ensures ctxs == old(ctxs)[c := StatusSet(old(ctxs)[c], active, refused)]
    {
      if ctxs[c].active == active {
        return;
      }
      ctxs := ctxs[c := ctxs[c].(active := active)];
      if refused {
        ctxs := ctxs[c := ctxs[c].(finalized := true)];
        return;
      }
      ctxs := ctxs[c := ctxs[c].Stopped()];
    }

    /** ngx_rtmp_live_set_status; `refused` are the sessions whose queues refuse a notice. */
    method SetStatus(c: nat, active: bool, refused: set<nat>)
      requires c < |ctxs| && ctxs[c].stream.Some? && ctxs[c].stream.value < |streams|
      requires forall m :: m in streams[ctxs[c].stream.value].members ==> m < |ctxs|
      modifies `ctxs, `streams
      ensures var k := old(ctxs)[c].stream.value; var s := old(streams)[k];
              && streams == old(streams)[k := StatusStream(old(ctxs), s, c, active)]
              && ctxs == StatusCtxs(old(ctxs), s, c, active, refused)
    {
      hide StatusSet;
      SameStatus(ctxs[c], c in refused);
      if ctxs[c].active == active {
        assert ctxs[c := ctxs[c]] == ctxs;
        assert streams[ctxs[c].stream.value := streams[ctxs[c].stream.value]] == streams;
        return;
      }
      if !ctxs[c].publishing {
        SetSubscriber(c, active, c in refused);
        assert streams[ctxs[c].stream.value := streams[ctxs[c].stream.value]] == streams;
        return;
      }
      ctxs := ctxs[c := ctxs[c].(active := active)];
      var k := ctxs[c].stream.value;
      streams := streams[k := streams[k].(active := active)];
      var members := streams[k].members;
      ghost var mid := ctxs;
      var n := 0;
      while n < |members|
        modifies `ctxs
        invariant 0 <= n <= |members|
        invariant ctxs == StatusesSet(mid, members[..n], active, refused)
      {
        assert members[n] in members;
        SetNext(mid, members, n, active, refused);
        if !ctxs[members[n]].publishing {
          SetSubscriber(members[n], active, members[n] in refused);
        }
        n := n + 1;
      }
      assert members[..n] == members;
    }

    // ----- joining -----

    /** The session becomes the first member of stream `k`. */
    method Enter(c: nat, k: nat, publisher: bool, refused: set<nat>)
      requires LinksOk(ctxs, streams) && AllOk(conf, ctxs, streams)
      requires c < |ctxs| && k < |streams| && ctxs[c] == FRESH.(finalized := ctxs[c].finalized)
      requires publisher ==> !streams[k].publishing
      modifies `ctxs, `streams
      ensures LinksOk(ctxs, streams) && AllOk(conf, ctxs, streams)
      ensures |ctxs| == |old(ctxs)| && forall d :: 0 <= d < |ctxs| && d != c ==> ctxs[d] == old(ctxs)[d]
      ensures ctxs[c] == Entered(old(ctxs)[c].finalized, old(streams)[k], k, publisher, c in refused)
      ensures var s := old(streams)[k];
              streams == old(streams)[k := s.(members := [c] + s.members, publishing := s.publishing || publisher)]
    {
      hide LinksOk, StreamOk, AllOk;
      Apart(ctxs, streams, c);
      if publisher {
        streams := streams[k := streams[k].(publishing := true)];
      }
      ctxs := ctxs[c := ctxs[c].(stream := Some(k), publishing := publisher)];
      streams := streams[k := streams[k].(members := [c] + streams[k].members)];
      if !publisher && streams[k].active {
        SetStatus(c, true, refused);
      }
      MemberJoins(conf, old(ctxs), old(streams), k, c, ctxs[c]);
      ghost var s := old(streams)[k];
      assert streams == old(streams)[k := s.(members := [c] + s.members, publishing := s.publishing || publisher)];
      assert ctxs == old(ctxs)[c := ctxs[c]];
    }

    /**
     A session publishes or plays a stream. A publisher needs a name that nobody publishes, a player one that somebody
     publishes, unless idle streams are allowed.
     */
    method Join(c: nat, name: string, publisher: bool, refused: set<nat>) returns (joined: bool)
      requires Valid() && c < |ctxs|
      modifies `ctxs, `streams, `buckets, `free
      ensures Valid() && |ctxs| == |old(ctxs)|
      ensures forall d :: 0 <= d < |ctxs| && d != c ==> ctxs[d] == old(ctxs)[d]
      ensures old(ctxs)[c].stream.Some? ==> !joined && ctxs == old(ctxs)
      ensures old(ctxs)[c].stream.None? ==>
        (joined <==> if publisher then forall k: nat :: Named(old(streams), k, name) ==> !old(streams)[k].publishing
                     else conf.idleStreams
                          || exists k: nat :: Named(old(streams), k, name) && old(streams)[k].publishing)
      ensures if joined then
                && ctxs[c].stream.Some? && Named(streams, ctxs[c].stream.value, name)
                && (var k := ctxs[c].stream.value;
                    && ctxs[c] == Entered(old(ctxs)[c].finalized, streams[k], k, publisher, c in refused)
                    && streams[k].members[0] == c)
                && (forall k: nat :: Named(old(streams), k, name) ==>
                      ctxs[c].stream.value == k && streams[k].members == [c] + old(streams)[k].members)
              else streams == old(streams) && buckets == old(buckets) && free == old(free)
      ensures !joined && old(ctxs)[c].stream.None? ==>
        ctxs[c] == FRESH.(finalized := old(ctxs)[c].finalized || !publisher)
    {
      hide RegistryOk, StreamOk, LinksOk, BucketOf, AllOk;
      if ctxs[c].stream.Some? {
        return false;
      }
      ctxs := ctxs[c := FRESH.(finalized := ctxs[c].finalized)];
      RestKept(conf, old(ctxs), ctxs, streams, c);
      NewRecord(hash, conf, ctxs, streams, buckets, free, name);
      var found := GetStream(name, publisher || conf.idleStreams);
      if found.None? {
        ctxs := ctxs[c := ctxs[c].(finalized := true)];
        RestKept(conf, old(ctxs), ctxs, streams, c);
        return false;
      }
      var k := found.value;
      if !(publisher || streams[k].publishing || conf.idleStreams) {
        ctxs := ctxs[c := ctxs[c].(finalized := true)];
        RestKept(conf, old(ctxs), ctxs, streams, c);
        return false;
      }
      if publisher && streams[k].publishing {
        return false;
      }
      ghost var s := streams;
      Enter(c, k, publisher, refused);
      Registered(hash, name, old(streams), old(buckets), old(free), s, buckets, free, k, streams[k]);
      assert streams == s[k := streams[k]];
      return true;
    }

    // ----- leaving -----

    method FinalizeMembers(k: nat)
      requires k < |streams| && forall m :: m in streams[k].members ==> m < |ctxs|
      modifies `ctxs
      ensures ctxs == AllFinalized(old(ctxs), streams[k].members)
    {
      hide AllFinalized;
      var members := streams[k].members;
      ghost var was := ctxs;
      FinalizeNone(was);
      var n := 0;
      while n < |members|
        invariant 0 <= n <= |members|
        invariant ctxs == AllFinalized(was, members[..n])
      {
        assert members[n] in members;
        FinalizeNext(was, members, n);
        if !ctxs[members[n]].publishing {
          ctxs := ctxs[members[n] := ctxs[members[n]].(finalized := true)];
        }
        n := n + 1;
      }
      assert members[..n] == members;
    }

    /** Takes a session off the list of its stream. */
    method Unlink(c: nat, k: nat)
      requires k < |streams| && c in streams[k].members
      requires forall i, j :: 0 <= i < j < |streams[k].members| ==> streams[k].members[i] != streams[k].members[j]
      modifies `streams
      ensures streams == old(streams)[k := old(streams)[k].(members := Without(old(streams)[k].members, c))]
    {
      var members := streams[k].members;
      var n := 0;
      while members[n] != c
        invariant 0 <= n < |members| && c !in members[..n]
        decreases |members| - n
      {
        assert forall i :: 0 <= i < |members| && members[i] == c ==> n < i;
        n := n + 1;
      }
      WithoutAt(members[..n], c, members[n + 1..]);
      assert members == members[..n] + [c] + members[n + 1..];
      streams := streams[k := streams[k].(members := members[..n] + members[n + 1..])];
    }

    /**
     What becomes of the members when `c` leaves: a publisher stops the stream and, unless idle streams are allowed, its
     players.
     */
    method Leave(c: nat, refused: set<nat>)
      requires LinksOk(ctxs, streams) && AllOk(conf, ctxs, streams)
      requires c < |ctxs| && ctxs[c].stream.Some?
      modifies `ctxs, `streams
      ensures |ctxs| == |old(ctxs)| && ctxs[c].stream == old(ctxs)[c].stream && ctxs[c].stream.value < |streams|
      ensures LinksOk(ctxs[c := ctxs[c].(stream := None)], streams)
      ensures AllOk(conf, ctxs[c := ctxs[c].(stream := None)], streams)
      ensures var k := old(ctxs)[c].stream.value; var s := old(streams)[k];
              && c in s.members
              && streams == old(streams)[k := Stream(s.name, Without(s.members, c),
                                                     s.active && !old(ctxs)[c].publishing,
                                                     s.publishing && !old(ctxs)[c].publishing)]
              && (old(ctxs)[c].publishing && !conf.idleStreams ==>
                    forall d :: d in Without(s.members, c) ==> d < |ctxs| && ctxs[d].finalized)
              && ctxs == Left(conf, old(ctxs), s, c, refused)
    {
      hide StreamOk, AllOk, StatusSet, LinksOk, StatusesSet, AllFinalized;
      Member(conf, ctxs, streams, c);
      var k := ctxs[c].stream.value;
      if streams[k].publishing && ctxs[c].publishing {
        streams := streams[k := streams[k].(publishing := false)];
      }
      Unlink(c, k);
      if ctxs[c].publishing || streams[k].active {
        SetStatus(c, false, refused);
      }
      if ctxs[c].publishing && !conf.idleStreams {
        FinalizeMembers(k);
      }
      ghost var s := old(streams)[k];
      assert streams == old(streams)[k := LeftStream(old(ctxs), s, c)];
      assert ctxs == Left(conf, old(ctxs), s, c, refused);
      LeftOk(conf, old(ctxs), old(streams), k, c, refused);
    }

    /** A session leaves its stream; the last one takes the stream off the table. */
    method Close(c: nat, refused: set<nat>)
      requires Valid() && c < |ctxs|
      modifies `ctxs, `streams, `buckets, `free
      ensures Valid() && |ctxs| == |old(ctxs)| && ctxs[c].stream.None?
      ensures old(ctxs)[c].stream.None? ==>
        ctxs == old(ctxs) && streams == old(streams) && buckets == old(buckets) && free == old(free)
      ensures old(ctxs)[c].stream.Some? ==>
        var k := old(ctxs)[c].stream.value; var s := old(streams)[k]; var rest := Without(s.members, c);
        && streams == old(streams)[k := LeftStream(old(ctxs), s, c)]
        && (old(ctxs)[c].publishing && !conf.idleStreams ==> forall d :: d in rest ==> d < |ctxs| && ctxs[d].finalized)
        && (var left := Left(conf, old(ctxs), s, c, refused); c < |left| && ctxs == left[c := left[c].(stream := None)])
        && free == if |rest| == 0 then [k] + old(free) else old(free)
    {
      hide StreamOk, AllOk, LinksOk, RegistryOk, BucketOf, Left;
      if ctxs[c].stream.None? {
        return;
      }
      var k := ctxs[c].stream.value;
      Member(conf, ctxs, streams, c);
      Leave(c, refused);
      if |streams[k].members| > 0 {
        RegistryKept(hash, old(streams), buckets, free, k, streams[k]);
        ctxs := ctxs[c := ctxs[c].(stream := None)];
        return;
      }
      EmptiedFound(hash, old(streams), buckets, free, k, streams[k]);
      var found := Find(streams[k].name);
      if found.None? {
        assert false;
      }
      var b := BucketOf(hash, |buckets|, streams[k].name);
      var list := buckets[b];
      DeletedOk(hash, old(streams), buckets, free, b, found.value, streams[k]);
      buckets := buckets[b := list[..found.value] + list[found.value + 1..]];
      free := [k] + free;
      ctxs := ctxs[c := ctxs[c].(stream := None)];
    }

    // ----- pausing, and the notices of the publisher -----

    /** `notified` says that the session takes the notice. */
    method Pause(c: nat, pause: bool, notified: bool, refused: set<nat>)
      requires Valid() && c < |ctxs|
      modifies `ctxs, `streams
      ensures Valid() && |ctxs| == |old(ctxs)|
      ensures ctxs[c].paused == if old(ctxs)[c].stream.Some? && notified then pause else old(ctxs)[c].paused
      ensures if old(ctxs)[c].stream.None? || !notified then ctxs == old(ctxs) && streams == old(streams)
              else
                && var k := old(ctxs)[c].stream.value; var was := old(ctxs)[c := old(ctxs)[c].(paused := pause)];
                && streams == old(streams)[k := StatusStream(was, old(streams)[k], c, !pause)]
                && ctxs == StatusCtxs(was, old(streams)[k], c, !pause, refused)
    {
      hide StreamOk, AllOk, LinksOk, RegistryOk;
      if ctxs[c].stream.None? || !notified {
        return;
      }
      PausedOk(conf, ctxs, streams, c, pause, refused);
      Member(conf, ctxs, streams, c);
      ctxs := ctxs[c := ctxs[c].(paused := pause)];
      SetStatus(c, !pause, refused);
      var k := ctxs[c].stream.value;
      RegistryKept(hash, old(streams), buckets, free, k, streams[k]);
      assert streams == old(streams)[k := streams[k]];
    }

    /** The publisher says that its stream begins or ends. */
    method Notice(c: nat, begin: bool, refused: set<nat>)
      requires Valid() && c < |ctxs|
      modifies `ctxs, `streams
      ensures Valid() && |ctxs| == |old(ctxs)|
      ensures old(ctxs)[c].stream.None? || !old(ctxs)[c].publishing ==> ctxs == old(ctxs) && streams == old(streams)
      ensures ctxs[c].stream == old(ctxs)[c].stream && ctxs[c].publishing == old(ctxs)[c].publishing
      ensures ctxs[c].stream.Some? && ctxs[c].publishing ==>
        var k := ctxs[c].stream.value;
        && k < |streams| && streams[k].active == begin && k < |old(streams)|
        && ctxs == StatusCtxs(old(ctxs), old(streams)[k], c, begin, refused)
        && streams == old(streams)[k := StatusStream(old(ctxs), old(streams)[k], c, begin)]
    {
      hide StreamOk, AllOk, LinksOk, RegistryOk;
      if ctxs[c].stream.None? || !ctxs[c].publishing {
        return;
      }
      PublisherSets(conf, ctxs, streams, c, begin, refused);
      Member(conf, ctxs, streams, c);
      SetStatus(c, begin, refused);
      var k := ctxs[c].stream.value;
      RegistryKept(hash, old(streams), buckets, free, k, streams[k]);
      assert streams == old(streams)[k := streams[k]];
    }

    // ----- frames -----

    /** The body of the broadcast loop: the frame `f` of the publisher `p`, which is `p` no longer, for member `m`. */
    method Serve(m: nat, ghost p: Ctx, cs: Chunk, f: Frame, a: Answers) returns (outcome: Outcome)
      requires m < |ctxs| && !ctxs[m].publishing && cs == p.Cs(Second(conf, f)) && (conf.interleave || !f.coheader)
      requires SubInStep(conf, p, ctxs[m])
      modifies `ctxs
      ensures |ctxs| == |old(ctxs)| && forall d :: 0 <= d < |ctxs| && d != m ==> ctxs[d] == old(ctxs)[d]
      ensures ctxs[m].stream == old(ctxs)[m].stream && !ctxs[m].publishing
      ensures SubInStep(conf, Sending(conf, p, f), ctxs[m])
      ensures Heard(conf, cs, f, a, old(ctxs)[m], ctxs[m], outcome)
      ensures IsSub(ctxs[m]) ==> Bounded(conf, f, ctxs[m], outcome)
    {
      hide SubOk, PairOk, Synced, Decoded, Wrap, Fate, StartRule;
      if ctxs[m].paused {
        PassedOver(conf, p, ctxs[m], f);
        return Skipped;
      }
      var r;
      r, outcome := Deliver(conf, cs, f, a, ctxs[m]);
      NoDummy(conf, cs, f, a, ctxs[m], outcome);
      SubSynced(conf, p, ctxs[m], f);
      Served(conf, p, ctxs[m], f, a, r, outcome);
      ctxs := ctxs[m := r];
    }

    /** The broadcast loop: one frame of publisher `c`, which `answers` gives the members of its stream. */
    method Broadcast(c: nat, k: nat, f: Frame, answers: nat -> Answers) returns (outcomes: seq<Outcome>)
      requires LinksOk(ctxs, streams) && AllOk(conf, ctxs, streams)
      requires c < |ctxs| && ctxs[c].stream == Some(k) && k < |streams| && ctxs[c].publishing && streams[k].active
      requires conf.interleave || !f.coheader
      modifies `ctxs
      ensures LinksOk(ctxs, streams) && AllOk(conf, ctxs, streams) && |ctxs| == |old(ctxs)|
      ensures ctxs[c] == Sending(conf, old(ctxs)[c], f)
      ensures AllBounded(conf, f, ctxs, streams[k].members, outcomes)
      ensures AllHeard(conf, f, answers, old(ctxs), ctxs, streams[k].members, c, outcomes)
    {
      hide IsSub, Second, Ctx.With, Ctx.Cs, Published, AllHeard;
      hide StreamOk, LinksOk, AllOk, SubInStep, Bounded, Heard, Wrap, Progress, AllBounded, Sending;
      Member(conf, ctxs, streams, c);
      var members := streams[k].members;
      ghost var was, p := ctxs, ctxs[c];
      var cs := ctxs[c].Cs(Second(conf, f));
      ctxs := ctxs[c := ctxs[c].With(Second(conf, f), Published(cs, f))];
      SendingIs(conf, p, f);
      ProgressStart(conf, f, was, ctxs, members, c, Sending(conf, p, f));
      HeardStart(conf, f, answers, was, ctxs, members, c);
      outcomes := [];
      var n := 0;
      while n < |members|
        invariant 0 <= n == |outcomes| <= |members|
        invariant Progress(conf, Sending(conf, p, f), was, ctxs, members, c, n)
        invariant AllBounded(conf, f, ctxs, members[..n], outcomes)
        invariant AllHeard(conf, f, answers, was, ctxs, members[..n], c, outcomes)
      {
        var m := members[n];
        ghost var now := ctxs;
        assert m in members;
        InStep(conf, was, streams[k], c, m);
        ProgressAt(conf, Sending(conf, p, f), was, ctxs, members, c, n);
        var outcome := Skipped;
        if m != c {
          outcome := Serve(m, p, cs, f, answers(m));
        }
        ProgressStep(conf, f, Sending(conf, p, f), was, now, ctxs, members, c, n, outcomes, outcome);
        HeardStep(conf, f, answers, was, now, ctxs, members, c, n, outcomes, outcome);
        outcomes := outcomes + [outcome];
        n := n + 1;
      }
      assert members[..n] == members;
      ProgressEnd(conf, Sending(conf, p, f), was, ctxs, members, c);
      AllServed(conf, was, streams[k], c, ctxs);
      MembersChange(conf, was, streams, k, ctxs, streams[k]);
      assert streams[k := streams[k]] == streams;
    }

    /** A frame: the publisher's stream starts if it has not, and everyone else hears it. */
    method Av(c: nat, f: Frame, answers: nat -> Answers, refused: set<nat>) returns (outcomes: seq<Outcome>)
      requires Valid() && c < |ctxs|
      requires conf.interleave || !f.coheader
      modifies `ctxs, `streams
      ensures Valid() && |ctxs| == |old(ctxs)|
      ensures old(ctxs)[c].stream.None? || !old(ctxs)[c].publishing ==> ctxs == old(ctxs) && streams == old(streams)
      ensures ctxs[c].stream.Some? && ctxs[c].publishing ==>
        var k := ctxs[c].stream.value;
        && k < |streams| && streams[k].active
        && (var cs := if conf.interleave || f.video then ctxs[c].video else ctxs[c].audio;
            cs.active && cs.timestamp == f.timestamp)
        && AllBounded(conf, f, ctxs, streams[k].members, outcomes)
        && k < |old(streams)| && var s := old(streams)[k];
        && streams == (if s.active then old(streams) else old(streams)[k := StatusStream(old(ctxs), s, c, true)])
        && AllHeard(conf, f, answers, if s.active then old(ctxs) else StatusCtxs(old(ctxs), s, c, true, refused),
                    ctxs, streams[k].members, c, outcomes)
    {
      hide StreamOk, AllOk, LinksOk, RegistryOk, AllBounded, AllHeard, StatusStream, StatusCtxs;
      outcomes := [];
      if ctxs[c].stream.None? || !ctxs[c].publishing {
        return;
      }
      var k := ctxs[c].stream.value;
      Member(conf, ctxs, streams, c);
      if !streams[k].active {
        Notice(c, true, refused);
        Member(conf, ctxs, streams, c);
      }
      outcomes := Broadcast(c, k, f, answers);
    }
  }

  /** A record from the head of the free list, or else a new one. */
  function WithRecord(streams: seq<Stream>, free: seq<nat>, s: Stream): seq<Stream>
    requires InBounds(streams, free)
  {
    if |free| > 0 then streams[free[0] := s] else streams + [s]
  }

  /** The table with a new record for a name, at the end of its bucket. */
  ghost predicate Created(hash: string -> nat, name: string, streams: seq<Stream>, buckets: seq<seq<nat>>,
                          free: seq<nat>, streams': seq<Stream>, buckets': seq<seq<nat>>, free': seq<nat>, k: nat)
    requires |buckets| > 0 && InBounds(streams, free)
  {
    && k == (if |free| > 0 then free[0] else |streams|)
    && free' == (if |free| > 0 then free[1..] else [])
    && streams' == WithRecord(streams, free, Stream(name, [], false, false))
    && var b := BucketOf(hash, |buckets|, name); buckets' == buckets[b := buckets[b] + [k]]
  }

  /** Once a first or further member has joined, the table is in order. */
  lemma Registered(hash: string -> nat, name: string, streams: seq<Stream>, buckets: seq<seq<nat>>, free: seq<nat>,
                   streams': seq<Stream>, buckets': seq<seq<nat>>, free': seq<nat>, k: nat, s: Stream)
    requires RegistryOk(hash, streams, buckets, free)
    requires k < |streams'| && |s.members| > 0 && s.name == streams'[k].name
    requires if Named(streams, k, name) then streams' == streams && buckets' == buckets && free' == free
             else (forall l: nat :: !Named(streams, l, name))
                  && Created(hash, name, streams, buckets, free, streams', buckets', free', k)
    ensures RegistryOk(hash, streams'[k := s], buckets', free')
  {
    if Named(streams, k, name) {
      RegistryKept(hash, streams, buckets, free, k, s);
    } else {
      assert streams'[k] == Stream(name, [], false, false);
      CreatedOk(hash, streams, buckets, free, s);
      assert WithRecord(streams, free, s) == streams'[k := s];
    }
  }

  /** A new stream whose first member joins is on the table, and the rest of the table is as before. */
  lemma CreatedOk(hash: string -> nat, streams: seq<Stream>, buckets: seq<seq<nat>>, free: seq<nat>, s: Stream)
    requires RegistryOk(hash, streams, buckets, free) && |s.members| > 0
    ensures InBounds(streams, free)
    requires forall k: nat :: !Named(streams, k, s.name)
    ensures var k := if |free| > 0 then free[0] else |streams|;
            var b := BucketOf(hash, |buckets|, s.name);
            RegistryOk(hash, WithRecord(streams, free, s), buckets[b := buckets[b] + [k]],
                       if |free| > 0 then free[1..] else [])
  {
    hide BucketOk, BucketOf;
    var k := if |free| > 0 then free[0] else |streams|;
    var b := BucketOf(hash, |buckets|, s.name);
    var streams' := WithRecord(streams, free, s);
    var buckets' := buckets[b := buckets[b] + [k]];
    var free' := if |free| > 0 then free[1..] else [];
    forall a | 0 <= a < |buckets|
      ensures BucketOk(hash, |buckets|, streams', a, buckets'[a])
    {
      OnTable(hash, streams, buckets, a);
      BucketKept(hash, |buckets|, streams, streams', a, buckets[a]);
      if a == b {
        assert forall l :: l in buckets[b] ==> !Named(streams, l, s.name);
        BucketGrows(hash, |buckets|, streams', b, buckets[b], k);
      }
    }
    forall l | 0 <= l < |streams'|
      ensures Placed(hash, streams'[l], buckets', free', l)
    {
      if l != k {
        assert Placed(hash, streams[l], buckets, free, l);
        if |streams[l].members| == 0 {
          var i :| 0 <= i < |free| && free[i] == l;
          assert free'[i - 1] == l;
        }
      } else {
        assert buckets'[b][|buckets[b]|] == k;
      }
    }
  }

  lemma OnTable(hash: string -> nat, streams: seq<Stream>, buckets: seq<seq<nat>>, b: nat)
    requires |buckets| > 0 && b < |buckets| && BucketOk(hash, |buckets|, streams, b, buckets[b])
    ensures forall l :: l in buckets[b] ==> l < |streams| && |streams[l].members| > 0
                                            && BucketOf(hash, |buckets|, streams[l].name) == b
  {
  }

  /** The last member leaves: the stream goes from the table to the free list. */
  lemma DeletedOk(hash: string -> nat, streams: seq<Stream>, buckets: seq<seq<nat>>, free: seq<nat>, b: nat, i: nat,
                  s: Stream)
    requires RegistryOk(hash, streams, buckets, free)
    requires b < |buckets| && i < |buckets[b]| && |s.members| == 0
    ensures buckets[b][i] < |streams|
    ensures var k := buckets[b][i];
            RegistryOk(hash, streams[k := s], buckets[b := buckets[b][..i] + buckets[b][i + 1..]], [k] + free)
  {
    hide BucketOk, BucketOf;
    var list := buckets[b];
    OnTable(hash, streams, buckets, b);
    var k := list[i];
    assert k in list;
    var streams' := streams[k := s];
    var list' := list[..i] + list[i + 1..];
    var buckets' := buckets[b := list'];
    BucketShrinks(hash, |buckets|, streams, b, list, i);
    forall a | 0 <= a < |buckets|
      ensures BucketOk(hash, |buckets|, streams', a, buckets'[a])
    {
      OnTable(hash, streams, buckets, a);
      BucketKept(hash, |buckets|, streams, streams', a, buckets'[a]);
    }
    forall l | 0 <= l < |streams'|
      ensures Placed(hash, streams'[l], buckets', [k] + free, l)
    {
      assert Placed(hash, streams[l], buckets, free, l);
    }
    assert forall m :: 0 <= m < |free| ==> free[m] != k;
  }

  /** What is delivered is never further behind than the sync limit, and an absolute frame not at all. */
  ghost predicate Bounded(conf: Config, f: Frame, c: Ctx, outcome: Outcome) {
    var cs := c.Cs(Second(conf, f));
    && (outcome.Absolute? ==> cs.timestamp == f.timestamp)
    && (outcome.Relative? && conf.sync != 0 ==> Wrap(f.timestamp - cs.timestamp) <= conf.sync)
  }

  ghost predicate AllBounded(conf: Config, f: Frame, ctxs: seq<Ctx>, members: seq<nat>, outcomes: seq<Outcome>) {
    && |outcomes| == |members|
    && forall i :: 0 <= i < |members| ==>
         members[i] < |ctxs| && (IsSub(ctxs[members[i]]) ==> Bounded(conf, f, ctxs[members[i]], outcomes[i]))
  }

  /** One frame for one member: one that is paused does not hear it and stays as it is. */
  ghost predicate Heard(conf: Config, pub: Chunk, f: Frame, a: Answers, c: Ctx, r: Ctx, outcome: Outcome) {
    if c.paused then outcome.Skipped? && r == c else Given(conf, pub, f, a, c, r, outcome)
  }

  /** Every member but the publisher `c` heard the frame, or missed it, as its own state and queue have it. */
  ghost predicate AllHeard(conf: Config, f: Frame, answers: nat -> Answers, was: seq<Ctx>, now: seq<Ctx>,
                           members: seq<nat>, c: nat, outcomes: seq<Outcome>) {
    && |outcomes| == |members| && |now| == |was| && c < |was|
    && var pub := if conf.interleave || f.video then was[c].video else was[c].audio;
    forall i :: 0 <= i < |members| && members[i] != c ==>
      && members[i] < |was|
      && Heard(conf, pub, f, answers(members[i]), was[members[i]], now[members[i]], outcomes[i])
  }

  /**
   The bounded drift, in every state that the operations above reach: an unfinalized subscriber's clock and what it has
   missed make the publisher's clock, or it waits for an absolute frame and has missed nothing.
   */
  lemma DriftBounded(app: App, p: nat, c: nat)
    requires app.Valid() && p < |app.ctxs| && c < |app.ctxs| && app.ctxs[p].stream.Some?
    requires app.ctxs[c].stream == app.ctxs[p].stream && app.ctxs[p].publishing && IsSub(app.ctxs[c])
    ensures forall second: bool ::
      && Synced(app.ctxs[p].Cs(second), app.ctxs[c].Cs(second))
      && (!app.conf.waitVideo ==> Decoded(app.ctxs[c].Cs(second)))
    ensures app.streams[app.ctxs[p].stream.value].active && !app.ctxs[c].paused ==> app.ctxs[c].active
  {
    hide Synced, Decoded;
    Member(app.conf, app.ctxs, app.streams, p);
    Member(app.conf, app.ctxs, app.streams, c);
  }

  /** The first `n` members have been served; the others are as they were. */
  ghost predicate Progress(conf: Config, pub: Ctx, was: seq<Ctx>, now: seq<Ctx>, members: seq<nat>, c: nat, n: nat) {
    && |now| == |was| && c < |now| && now[c] == pub
    && (forall d :: 0 <= d < |now| ==> now[d].stream == was[d].stream && now[d].publishing == was[d].publishing)
    && (forall d :: 0 <= d < |now| && d !in members ==> now[d] == was[d])
    && (forall i :: n <= i < |members| && members[i] != c ==> members[i] < |now| && now[members[i]] == was[members[i]])
    && (forall i :: 0 <= i < n <= |members| && members[i] != c ==>
          members[i] < |now| && SubInStep(conf, pub, now[members[i]]))
  }

  lemma SendingIs(conf: Config, p: Ctx, f: Frame)
    ensures Sending(conf, p, f) == p.With(Second(conf, f), Published(p.Cs(Second(conf, f)), f))
  {
  }

  lemma ProgressStart(conf: Config, f: Frame, was: seq<Ctx>, now: seq<Ctx>, members: seq<nat>, c: nat, pub: Ctx)
    requires c < |was| && now == was[c := pub] && pub.stream == was[c].stream && pub.publishing == was[c].publishing
    requires c in members && forall m :: m in members ==> m < |was|
    ensures Progress(conf, pub, was, now, members, c, 0) && AllBounded(conf, f, now, members[..0], [])
  {
    assert forall i :: 0 <= i < |members| ==> members[i] in members;
  }

  lemma ProgressAt(conf: Config, pub: Ctx, was: seq<Ctx>, now: seq<Ctx>, members: seq<nat>, c: nat, n: nat)
    requires Progress(conf, pub, was, now, members, c, n) && n < |members|
    ensures |now| == |was| && c < |now|
            && (members[n] != c ==> members[n] < |now| && now[members[n]] == was[members[n]])
  {
  }

  lemma ProgressStep(conf: Config, f: Frame, pub: Ctx, was: seq<Ctx>, now: seq<Ctx>, after: seq<Ctx>, members: seq<nat>,
                     c: nat, n: nat, outcomes: seq<Outcome>, outcome: Outcome)
    requires Progress(conf, pub, was, now, members, c, n) && n < |members| && |after| == |now|
    requires forall i, j :: 0 <= i < j < |members| ==> members[i] != members[j]
    requires members[n] < |now| && forall d :: 0 <= d < |now| && d != members[n] ==> after[d] == now[d]
    requires if members[n] == c then after == now && outcome == Skipped
             else after[members[n]].stream == was[members[n]].stream
                  && after[members[n]].publishing == was[members[n]].publishing
                  && SubInStep(conf, pub, after[members[n]])
                  && (IsSub(after[members[n]]) ==> Bounded(conf, f, after[members[n]], outcome))
    requires AllBounded(conf, f, now, members[..n], outcomes)
    ensures Progress(conf, pub, was, after, members, c, n + 1)
    ensures AllBounded(conf, f, after, members[..n + 1], outcomes + [outcome])
  {
    hide SubInStep;
  }

  lemma HeardStart(conf: Config, f: Frame, answers: nat -> Answers, was: seq<Ctx>, now: seq<Ctx>, members: seq<nat>,
                   c: nat)
    requires |now| == |was| && c < |was|
    ensures AllHeard(conf, f, answers, was, now, members[..0], c, [])
    ensures was[c].Cs(Second(conf, f)) == if conf.interleave || f.video then was[c].video else was[c].audio
  {
  }

  lemma HeardStep(conf: Config, f: Frame, answers: nat -> Answers, was: seq<Ctx>, now: seq<Ctx>, after: seq<Ctx>,
                  members: seq<nat>, c: nat, n: nat, outcomes: seq<Outcome>, outcome: Outcome)
    requires n < |members| && |after| == |now| == |was| && c < |was|
    requires forall i, j :: 0 <= i < j < |members| ==> members[i] != members[j]
    requires members[n] < |now| && forall d :: 0 <= d < |now| && d != members[n] ==> after[d] == now[d]
    requires members[n] != c ==>
      Heard(conf, if conf.interleave || f.video then was[c].video else was[c].audio, f, answers(members[n]),
            was[members[n]], after[members[n]], outcome)
    requires AllHeard(conf, f, answers, was, now, members[..n], c, outcomes)
    ensures AllHeard(conf, f, answers, was, after, members[..n + 1], c, outcomes + [outcome])
  {
    hide Heard;
  }

  lemma ProgressEnd(conf: Config, pub: Ctx, was: seq<Ctx>, now: seq<Ctx>, members: seq<nat>, c: nat)
    requires Progress(conf, pub, was, now, members, c, |members|)
    ensures |now| == |was| && c < |now| && now[c] == pub
    ensures forall d :: 0 <= d < |now| ==> now[d].stream == was[d].stream && now[d].publishing == was[d].publishing
    ensures forall d :: 0 <= d < |now| && d !in members ==> now[d] == was[d]
    ensures forall d :: d in members && d != c ==> d < |now| && SubInStep(conf, pub, now[d])
  {
    hide SubInStep;
  }

  /** The publisher and one subscriber of an active stream. */
  lemma InStep(conf: Config, ctxs: seq<Ctx>, s: Stream, c: nat, m: nat)
    requires StreamOk(conf, ctxs, s) && s.active && c in s.members && ctxs[c].publishing && m in s.members
    ensures m < |ctxs| && (m != c ==> !ctxs[m].publishing)
    ensures SubInStep(conf, ctxs[c], ctxs[m])
  {
  }

  lemma NoDummy(conf: Config, pub: Chunk, f: Frame, a: Answers, ctx: Ctx, outcome: Outcome)
    ensures !conf.waitVideo ==> !Astray(conf, pub, f, a, ctx.Cs(!Second(conf, f)).active, outcome)
  {
  }

  lemma SubSynced(conf: Config, p: Ctx, c: Ctx, f: Frame)
    ensures PairOk(p, c) ==> Synced(p.Cs(Second(conf, f)), c.Cs(Second(conf, f)))
  {
  }

  // The members and the stream after ngx_rtmp_live_set_status on `c`.

  function StatusCtxs(ctxs: seq<Ctx>, s: Stream, c: nat, active: bool, refused: set<nat>): seq<Ctx>
    requires c < |ctxs|
  {
    if !ctxs[c].publishing then ctxs[c := StatusSet(ctxs[c], active, c in refused)]
    else if ctxs[c].active == active then ctxs
    else StatusesSet(ctxs[c := ctxs[c].(active := active)], s.members, active, refused)
  }

  function StatusStream(ctxs: seq<Ctx>, s: Stream, c: nat, active: bool): Stream
    requires c < |ctxs|
  {
    if ctxs[c].publishing && ctxs[c].active != active then s.(active := active) else s
  }

  /**
   A subscriber changes alone; a publisher takes the subscribers of its stream with it, who start over or, if a notice
   to them is refused, are finalized.
   */
  lemma StatusIs(ctxs: seq<Ctx>, s: Stream, c: nat, active: bool, refused: set<nat>)
    requires c < |ctxs|
    ensures |StatusCtxs(ctxs, s, c, active, refused)| == |ctxs|
    ensures StatusCtxs(ctxs, s, c, active, refused)[c].active == active
    ensures forall d :: 0 <= d < |ctxs| && d != c ==>
      var r := StatusCtxs(ctxs, s, c, active, refused)[d];
      if ctxs[c].publishing && ctxs[c].active != active && d in s.members && !ctxs[d].publishing then
        && r.active == active && r.paused == ctxs[d].paused
        && (ctxs[d].active != active ==> if d in refused then r.finalized else r.Waiting())
      else r == ctxs[d]
  {
    hide StatusSet;
    forall d | 0 <= d < |ctxs| {
      StatusSetIs(ctxs[d], active, d in refused);
    }
  }

  /** The publisher starts or stops the stream. */
  lemma PublisherSets(conf: Config, ctxs: seq<Ctx>, streams: seq<Stream>, c: nat, active: bool, refused: set<nat>)
    requires LinksOk(ctxs, streams) && AllOk(conf, ctxs, streams)
    requires c < |ctxs| && ctxs[c].stream.Some? && ctxs[c].publishing
    ensures ctxs[c].stream.value < |streams|
    ensures var k := ctxs[c].stream.value;
            var after := StatusCtxs(ctxs, streams[k], c, active, refused);
            var now := streams[k := StatusStream(ctxs, streams[k], c, active)];
            && |after| == |ctxs| && LinksOk(after, now) && AllOk(conf, after, now)
            && now[k].active == active && after[c].publishing && after[c].stream == Some(k)
            && now[k].members == streams[k].members && now[k].name == streams[k].name
  {
    hide StreamOk, LinksOk, AllOk, StatusSet;
    Member(conf, ctxs, streams, c);
    var k := ctxs[c].stream.value;
    var s := streams[k];
    if ctxs[c].active != active {
      StatusesSetOk(conf, ctxs, s, c, active, refused);
    }
    MembersChange(conf, ctxs, streams, k, StatusCtxs(ctxs, s, c, active, refused), StatusStream(ctxs, s, c, active));
  }

  lemma PausedOk(conf: Config, ctxs: seq<Ctx>, streams: seq<Stream>, c: nat, pause: bool, refused: set<nat>)
    requires LinksOk(ctxs, streams) && AllOk(conf, ctxs, streams) && c < |ctxs| && ctxs[c].stream.Some?
    ensures ctxs[c].stream.value < |streams|
    ensures var k := ctxs[c].stream.value; var s := streams[k];
            var mid := ctxs[c := ctxs[c].(paused := pause)];
            var after, now := StatusCtxs(mid, s, c, !pause, refused), streams[k := StatusStream(mid, s, c, !pause)];
            LinksOk(after, now) && AllOk(conf, after, now) && now[k].members == s.members && now[k].name == s.name
  {
    hide StreamOk, LinksOk, AllOk, StatusSet, SubOk, PairOk;
    Member(conf, ctxs, streams, c);
    var k := ctxs[c].stream.value;
    var s := streams[k];
    var mid := ctxs[c := ctxs[c].(paused := pause)];
    if ctxs[c].publishing {
      PublisherChanges(conf, ctxs, s, c, mid[c]);
      MembersChange(conf, ctxs, streams, k, mid, s);
      assert streams[k := s] == streams;
      PublisherSets(conf, mid, streams, c, !pause, refused);
    } else {
      PausedSub(conf, ctxs, s, c, pause, c in refused);
      MembersChange(conf, ctxs, streams, k, StatusCtxs(mid, s, c, !pause, refused), s);
    }
  }

  lemma PausedSub(conf: Config, ctxs: seq<Ctx>, s: Stream, c: nat, pause: bool, refused: bool)
    requires StreamOk(conf, ctxs, s) && c in s.members && !ctxs[c].publishing
    ensures c < |ctxs|
    ensures var paused := ctxs[c].(paused := pause);
            StreamOk(conf, ctxs[c := paused][c := StatusSet(paused, !pause, refused)], s)
  {
    hide SubOk, PairOk, StatusSet;
    var sub := StatusSet(ctxs[c].(paused := pause), !pause, refused);
    PauseSub(conf, s.active, ctxs[c], pause, refused);
    forall p | p in s.members && ctxs[p].publishing
      ensures IsSub(sub) ==> PairOk(ctxs[p], sub)
    {
      PauseInStep(conf, s.active, ctxs[p], ctxs[c], pause, refused);
    }
    SubscriberChanges(conf, ctxs, s, c, sub);
    assert ctxs[c := ctxs[c].(paused := pause)][c := sub] == ctxs[c := sub];
  }

  lemma SameStatus(c: Ctx, refused: bool)
    ensures StatusSet(c, c.active, refused) == c
  {
  }

  lemma FinalizeNone(ctxs: seq<Ctx>)
    ensures AllFinalized(ctxs, []) == ctxs
  {
  }

  lemma FinalizeNext(was: seq<Ctx>, members: seq<nat>, n: nat)
    requires n < |members| && members[n] < |was|
    ensures var m := members[n]; var now := AllFinalized(was, members[..n]);
            && |now| == |was|
            && AllFinalized(was, members[..n + 1])
               == if now[m].publishing then now else now[m := now[m].(finalized := true)]
  {
    assert members[..n + 1] == members[..n] + [members[n]];
  }

  lemma SetNext(mid: seq<Ctx>, members: seq<nat>, n: nat, active: bool, refused: set<nat>)
    requires n < |members| && members[n] < |mid|
    ensures var m := members[n]; var now := StatusesSet(mid, members[..n], active, refused);
            StatusesSet(mid, members[..n + 1], active, refused)
            == if now[m].publishing then now else now[m := StatusSet(now[m], active, m in refused)]
  {
    var m := members[n];
    assert members[..n + 1] == members[..n] + [m];
    assert StatusSet(mid[m], active, m in refused)
           == StatusSet(StatusSet(mid[m], active, m in refused), active, m in refused);
  }

  /** A session without a stream is a member of none. */
  lemma Apart(ctxs: seq<Ctx>, streams: seq<Stream>, c: nat)
    requires LinksOk(ctxs, streams) && c < |ctxs| && ctxs[c].stream.None?
    ensures forall k, m :: 0 <= k < |streams| && m in streams[k].members ==> m < |ctxs| && m != c
  {
  }

  /** What a bucket lists are the streams that a name can find. */
  lemma OnBucket(hash: string -> nat, streams: seq<Stream>, buckets: seq<seq<nat>>, free: seq<nat>, name: string)
    requires RegistryOk(hash, streams, buckets, free)
    ensures |buckets| > 0 && InBounds(streams, buckets[BucketOf(hash, |buckets|, name)])
    ensures var list := buckets[BucketOf(hash, |buckets|, name)];
            && (forall n :: 0 <= n < |list| && streams[list[n]].name == name ==> Named(streams, list[n], name))
            && (forall l: nat :: Named(streams, l, name) ==> exists n :: 0 <= n < |list| && list[n] == l)
  {
    var b := BucketOf(hash, |buckets|, name);
    assert BucketOk(hash, |buckets|, streams, b, buckets[b]);
    forall l: nat | Named(streams, l, name)
      ensures l in buckets[b]
    {
      assert Placed(hash, streams[l], buckets, free, l);
    }
  }

  lemma FoundIsNamed(hash: string -> nat, streams: seq<Stream>, buckets: seq<seq<nat>>, free: seq<nat>)
    requires RegistryOk(hash, streams, buckets, free)
    ensures |buckets| > 0 && InBounds(streams, free)
    ensures forall b :: 0 <= b < |buckets| ==> InBounds(streams, buckets[b])
    ensures forall k: nat, l: nat, name :: Named(streams, k, name) && Named(streams, l, name) ==> k == l
  {
    forall k: nat, l: nat, name | Named(streams, k, name) && Named(streams, l, name)
      ensures k == l
    {
      NamesDistinct(hash, streams, buckets, free, k, l);
    }
    assert forall b :: 0 <= b < |buckets| ==> BucketOk(hash, |buckets|, streams, b, buckets[b]);
  }

  /** A session outside all streams changes: nothing else does. */
  lemma RestKept(conf: Config, before: seq<Ctx>, after: seq<Ctx>, streams: seq<Stream>, c: nat)
    requires LinksOk(before, streams) && c < |before| && before[c].stream.None?
    requires AllOk(conf, before, streams)
    requires |after| == |before| && after[c].stream.None?
    requires forall d :: 0 <= d < |before| && d != c ==> after[d] == before[d]
    ensures LinksOk(after, streams)
    ensures AllOk(conf, after, streams)
  {
    forall k | 0 <= k < |streams|
      ensures StreamOk(conf, after, streams[k])
    {
      StreamKept(conf, before, after, streams[k]);
    }
  }

  /** An empty record, new or from the free list, changes nothing for the members of other streams. */
  lemma NewRecord(hash: string -> nat, conf: Config, ctxs: seq<Ctx>, streams: seq<Stream>, buckets: seq<seq<nat>>,
                  free: seq<nat>, name: string)
    requires RegistryOk(hash, streams, buckets, free) && LinksOk(ctxs, streams)
    ensures InBounds(streams, free)
    requires AllOk(conf, ctxs, streams)
    ensures var after := WithRecord(streams, free, Stream(name, [], false, false));
            LinksOk(ctxs, after) && AllOk(conf, ctxs, after)
  {
    hide StreamOk, RegistryOk;
    FreeIsEmpty(hash, streams, buckets, free);
    var empty := Stream(name, [], false, false);
    var after := WithRecord(streams, free, empty);
    EmptyOk(conf, ctxs, empty);
    forall k | 0 <= k < |after|
      ensures StreamOk(conf, ctxs, after[k])
    {
      assert after[k] == empty || after[k] == streams[k];
    }
    assert forall k :: 0 <= k < |after| ==> |after[k].members| == 0 || (k < |streams| && after[k] == streams[k]);
    assert forall k :: 0 <= k < |streams| ==> |streams[k].members| == 0 || after[k] == streams[k];
  }

  lemma EmptyOk(conf: Config, ctxs: seq<Ctx>, s: Stream)
    requires |s.members| == 0 && !s.active && !s.publishing
    ensures StreamOk(conf, ctxs, s)
  {
  }

  lemma FreeIsEmpty(hash: string -> nat, streams: seq<Stream>, buckets: seq<seq<nat>>, free: seq<nat>)
    requires RegistryOk(hash, streams, buckets, free)
    ensures InBounds(streams, free) && forall i :: 0 <= i < |free| ==> |streams[free[i]].members| == 0
  {
  }

  lemma LinksJoin(ctxs: seq<Ctx>, streams: seq<Stream>, k: nat, c: nat, ctx: Ctx, joined: Stream)
    requires LinksOk(ctxs, streams) && k < |streams| && c < |ctxs| && ctxs[c].stream.None? && ctx.stream == Some(k)
    requires joined.members == [c] + streams[k].members
    ensures LinksOk(ctxs[c := ctx], streams[k := joined])
  {
    Apart(ctxs, streams, c);
    var after, now := streams[k := joined], ctxs[c := ctx];
    forall l, i | 0 <= l < |after| && 0 <= i < |after[l].members|
      ensures after[l].members[i] < |now| && now[after[l].members[i]].stream == Some(l)
    {
      if l != k || i > 0 {
        var were := streams[l].members;
        assert after[l].members[i] == were[if l == k then i - 1 else i];
        assert after[l].members[i] in were;
      }
    }
    forall i | 0 < i < |joined.members|
      ensures joined.members[i] == streams[k].members[i - 1] && joined.members[i] != c
    {
      assert streams[k].members[i - 1] in streams[k].members;
    }
    forall d | 0 <= d < |now| && now[d].stream.Some?
      ensures now[d].stream.value < |after| && d in after[now[d].stream.value].members
    {
      if d == c {
        assert joined.members[0] == c;
      }
    }
  }

  /** A session joins a stream, at the head of its list. */
  lemma MemberJoins(conf: Config, ctxs: seq<Ctx>, streams: seq<Stream>, k: nat, c: nat, ctx: Ctx)
    requires LinksOk(ctxs, streams) && AllOk(conf, ctxs, streams)
    requires k < |streams| && c < |ctxs| && ctxs[c].stream.None? && ctx.stream == Some(k)
    requires if ctx.publishing then !streams[k].publishing && !ctx.active
             else IsSub(ctx) ==> ctx.Waiting() && ctx.active == streams[k].active && !ctx.paused
    ensures var s := streams[k];
            var joined := s.(members := [c] + s.members, publishing := s.publishing || ctx.publishing);
            LinksOk(ctxs[c := ctx], streams[k := joined]) && AllOk(conf, ctxs[c := ctx], streams[k := joined])
  {
    hide StreamOk, LinksOk;
    Apart(ctxs, streams, c);
    var s := streams[k];
    var joined := s.(members := [c] + s.members, publishing := s.publishing || ctx.publishing);
    LinksJoin(ctxs, streams, k, c, ctx, joined);
    if ctx.publishing {
      PublisherJoins(conf, ctxs, s, c, ctx);
    } else {
      SubscriberJoins(conf, ctxs, s, c, ctx);
    }
    forall l | 0 <= l < |streams| && l != k
      ensures StreamOk(conf, ctxs[c := ctx], streams[l])
    {
      StreamKept(conf, ctxs, ctxs[c := ctx], streams[l]);
    }
  }

  /** A session that has just joined stream `k`; a player of an active stream hears of it at once. */
  function Entered(finalized: bool, s: Stream, k: nat, publisher: bool, refused: bool): Ctx {
    var c := FRESH.(finalized := finalized, stream := Some(k), publishing := publisher);
    if !publisher && s.active then StatusSet(c, true, refused) else c
  }

  /** Whoever has just joined waits for its first frame, and is as active as the stream if it plays. */
  lemma EnteredIs(finalized: bool, s: Stream, k: nat, publisher: bool, refused: bool)
    ensures var r := Entered(finalized, s, k, publisher, refused);
            && r.stream == Some(k) && r.publishing == publisher && r.Waiting() && !r.paused
            && r.active == (!publisher && s.active)
            && r.finalized == (finalized || (!publisher && s.active && refused))
  {
  }

  // What is left when `c` leaves the stream `s`.

  function LeftStream(ctxs: seq<Ctx>, s: Stream, c: nat): Stream
    requires c < |ctxs|
  {
    Stream(s.name, Without(s.members, c), s.active && !ctxs[c].publishing, s.publishing && !ctxs[c].publishing)
  }

  function Left(conf: Config, ctxs: seq<Ctx>, s: Stream, c: nat, refused: set<nat>): seq<Ctx>
    requires c < |ctxs|
  {
    var rest := Without(s.members, c);
    if !ctxs[c].publishing then
      if s.active then ctxs[c := StatusSet(ctxs[c], false, c in refused)] else ctxs
    else
      var mid := if ctxs[c].active then StatusesSet(ctxs[c := ctxs[c].(active := false)], rest, false, refused)
                 else ctxs;
      if conf.idleStreams then mid else AllFinalized(mid, rest)
  }

  /** A player leaves alone; a publisher stops its players, and finalizes them unless idle streams are allowed. */
  lemma LeftIs(conf: Config, ctxs: seq<Ctx>, s: Stream, c: nat, refused: set<nat>)
    requires c < |ctxs|
    ensures var r := Left(conf, ctxs, s, c, refused);
            && |r| == |ctxs| && (ctxs[c].publishing || s.active ==> !r[c].active)
            && (!ctxs[c].publishing ==>
                  r[c].finalized == (ctxs[c].finalized || (s.active && ctxs[c].active && c in refused)))
            && (forall d :: 0 <= d < |r| && d != c && !(ctxs[c].publishing && d in s.members && !ctxs[d].publishing) ==>
                  r[d] == ctxs[d])
            && (forall d :: 0 <= d < |r| && d != c && ctxs[c].publishing && d in s.members && !ctxs[d].publishing ==>
                  && (ctxs[c].active ==> !r[d].active)
                  && (r[d].finalized <==> ctxs[d].finalized || !conf.idleStreams
                                          || (ctxs[c].active && ctxs[d].active && d in refused)))
  {
    hide StatusSet, StatusesSet, AllFinalized, Without, Ctx.Waiting;
    forall d | 0 <= d < |ctxs| {
      StatusSetIs(ctxs[d], false, d in refused);
    }
    assert forall d :: d in s.members && d != c ==> d in Without(s.members, c);
  }

  lemma LeftOk(conf: Config, ctxs: seq<Ctx>, streams: seq<Stream>, k: nat, c: nat, refused: set<nat>)
    requires LinksOk(ctxs, streams) && AllOk(conf, ctxs, streams) && c < |ctxs| && ctxs[c].stream == Some(k)
    ensures k < |streams|
    ensures var left := Left(conf, ctxs, streams[k], c, refused);
            var after := left[c := left[c].(stream := None)];
            && |left| == |ctxs| && left[c].stream == Some(k) && c in streams[k].members
            && (ctxs[c].publishing && !conf.idleStreams ==>
                  forall d :: d in Without(streams[k].members, c) ==> d < |left| && left[d].finalized)
            && LinksOk(after, streams[k := LeftStream(ctxs, streams[k], c)])
            && AllOk(conf, after, streams[k := LeftStream(ctxs, streams[k], c)])
  {
    hide StreamOk, LinksOk, AllOk, StatusesSet, AllFinalized, StatusSet, Without;
    Member(conf, ctxs, streams, c);
    var s := streams[k];
    var left := Left(conf, ctxs, s, c, refused);
    var after := left[c := left[c].(stream := None)];
    var rest := LeftStream(ctxs, s, c);
    if ctxs[c].publishing {
      PublisherLeaves(conf, ctxs, s, c, refused);
      var mid := if ctxs[c].active then StatusesSet(ctxs[c := ctxs[c].(active := false)], rest.members, false, refused)
                 else ctxs;
      AllFinalizedOk(conf, mid, rest);
    } else {
      SubscriberLeaves(conf, ctxs, s, c);
      StreamKept(conf, ctxs, left, rest);
    }
    StreamKept(conf, left, after, rest);
    MemberLeaves(conf, ctxs, streams, k, c, after, rest);
  }

  /** A stream that has just lost its last member is still found under its name, and only there. */
  lemma EmptiedFound(hash: string -> nat, streams: seq<Stream>, buckets: seq<seq<nat>>, free: seq<nat>, k: nat,
                     s: Stream)
    requires RegistryOk(hash, streams, buckets, free) && k < |streams| && |streams[k].members| > 0
    requires s.name == streams[k].name
    ensures |buckets| > 0
    ensures var list := buckets[BucketOf(hash, |buckets|, s.name)];
            && InBounds(streams[k := s], list) && k in list
            && forall n :: 0 <= n < |list| && streams[k := s][list[n]].name == s.name ==> list[n] == k
  {
    assert Placed(hash, streams[k], buckets, free, k);
    OnBucket(hash, streams, buckets, free, s.name);
    FoundIsNamed(hash, streams, buckets, free);
    assert Named(streams, k, s.name);
  }

  /** A session that has a stream is one of its members, and a publishing one is its only publisher. */
  lemma Member(conf: Config, ctxs: seq<Ctx>, streams: seq<Stream>, c: nat)
    requires LinksOk(ctxs, streams) && AllOk(conf, ctxs, streams) && c < |ctxs| && ctxs[c].stream.Some?
    ensures var k := ctxs[c].stream.value;
            && k < |streams| && c in streams[k].members && StreamOk(conf, ctxs, streams[k])
            && (forall m :: m in streams[k].members ==> m < |ctxs| && ctxs[m].stream == Some(k))
            && (forall i, j :: 0 <= i < j < |streams[k].members| ==> streams[k].members[i] != streams[k].members[j])
            && (ctxs[c].publishing ==> streams[k].publishing && streams[k].active == ctxs[c].active)
            && (ctxs[c].publishing ==> forall m :: m in streams[k].members && m != c ==> !ctxs[m].publishing)
  {
    hide SubsOk;
  }
}
