/**
 The sample tables of an MP4 track and, for every sample index, what they say of that sample
 (sections 8.6.1.2, 8.6.1.3, 8.6.2, 8.7.3, 8.7.4 and 8.7.5 of ISO/IEC 14496-12).
 */
module Mp4Tables {
  import opened Arithmetic
  import opened Bytes
  import opened Wrappers

  datatype TimeEntry = TimeEntry(count: nat, delta: nat)
  datatype ChunkEntry = ChunkEntry(first: nat, perChunk: nat)
  datatype DelayEntry = DelayEntry(count: nat, offset: nat)
  /** `fixed` is the size of every sample, unless it is 0. */
  datatype Sizes = Sizes(fixed: nat, entries: seq<nat>)

  // ----- decoding times: runs of (count, delta) -----

  datatype TimePos = TimePos(time: nat, run: nat, count: nat)

  /** The samples of run `k` and all later runs. */
  function Samples(times: seq<TimeEntry>, k: nat): nat
    requires k <= |times|
    decreases |times| - k
  {
    if k == |times| then 0 else times[k].count + Samples(times, k + 1)
  }

  /** The duration of run `k` and all later runs. */
  function Ticks(times: seq<TimeEntry>, k: nat): nat
    requires k <= |times|
    decreases |times| - k
  {
    if k == |times| then 0 else times[k].count * times[k].delta + Ticks(times, k + 1)
  }

  ghost predicate TimesOk(times: seq<TimeEntry>) {
    forall i :: 0 <= i < |times| ==> times[i].count >= 1
  }

  /** The `n`-th sample from the start of run `k`, which starts at time `start`. */
  function TimeFrom(times: seq<TimeEntry>, k: nat, start: nat, n: nat): (p: TimePos)
    requires k <= |times| && n <= Samples(times, k)
    ensures k <= p.run <= |times| && p.time <= start + Ticks(times, k)
    ensures p.run < |times| ==> p.count < times[p.run].count
    ensures p.run == |times| ==> n == Samples(times, k)
    decreases |times| - k
  {
    if k == |times| then TimePos(start, k, 0)
    else if n < times[k].count then MulLe(n, times[k].count, times[k].delta); TimePos(start + n * times[k].delta, k, n)
    else TimeFrom(times, k + 1, start + times[k].count * times[k].delta, n - times[k].count)
  }

  function TimeAt(times: seq<TimeEntry>, n: nat): TimePos
    requires n <= Samples(times, 0)
  {
    TimeFrom(times, 0, 0, n)
  }

  /** One sample on: the time fields after ngx_rtmp_mp4_next_time. */
  function StepTime(times: seq<TimeEntry>, p: TimePos): TimePos
    requires p.run < |times|
  {
    if p.count + 1 >= times[p.run].count then TimePos(p.time + times[p.run].delta, p.run + 1, 0)
    else TimePos(p.time + times[p.run].delta, p.run, p.count + 1)
  }

  lemma TimeFromUnfold(times: seq<TimeEntry>, k: nat, start: nat, n: nat)
    requires k < |times|
    ensures Samples(times, k) == times[k].count + Samples(times, k + 1)
    ensures n < times[k].count ==> TimeFrom(times, k, start, n) == TimePos(start + n * times[k].delta, k, n)
    ensures times[k].count <= n <= Samples(times, k) ==>
      TimeFrom(times, k, start, n)
      == TimeFrom(times, k + 1, start + times[k].count * times[k].delta, n - times[k].count)
  {
  }

  lemma {:induction false} TimeStep(times: seq<TimeEntry>, k: nat, start: nat, n: nat)
    requires TimesOk(times) && k <= |times| && n < Samples(times, k)
    ensures var p := TimeFrom(times, k, start, n);
            p.run < |times| && TimeFrom(times, k, start, n + 1) == StepTime(times, p)
    decreases |times| - k
  {
    hide TimeFrom, Samples, Ticks;
    NoSamplesLeft(times);
    if k < |times| {
      TimeFromUnfold(times, k, start, n);
      if n >= times[k].count {
        TimeFromUnfold(times, k, start, n + 1);
        TimeStep(times, k + 1, start + times[k].count * times[k].delta, n - times[k].count);
      } else {
        StepInRun(times, k, start, n);
      }
    }
  }

  lemma StepInRun(times: seq<TimeEntry>, k: nat, start: nat, n: nat)
    requires TimesOk(times) && k < |times| && n < times[k].count
    ensures n + 1 <= Samples(times, k)
    ensures TimeFrom(times, k, start, n).run < |times|
    ensures TimeFrom(times, k, start, n + 1) == StepTime(times, TimeFrom(times, k, start, n))
  {
    hide TimeFrom, Samples, Ticks;
    TimeFromUnfold(times, k, start, n);
    TimeFromUnfold(times, k, start, n + 1);
    OneMore(n, times[k].delta);
    if n + 1 == times[k].count {
      FirstOfRun(times, k + 1, start + times[k].count * times[k].delta);
    }
  }

  lemma OneMore(n: nat, d: nat)
    ensures (n + 1) * d == n * d + d
  {
  }

  lemma NoSamplesLeft(times: seq<TimeEntry>)
    ensures Samples(times, |times|) == 0
  {
  }

  lemma FirstOfRun(times: seq<TimeEntry>, k: nat, start: nat)
    requires TimesOk(times) && k <= |times|
    ensures TimeFrom(times, k, start, 0) == TimePos(start, k, 0)
  {
  }

  /** The run a seek to time `t` stops at: its index, its start time and its first sample. */
  datatype Run = NoRun | Run(index: nat, start: nat, first: nat)

  /** The first run, from `k` on, that ends at or after `t`. */
  function FindRun(times: seq<TimeEntry>, k: nat, start: nat, first: nat, t: nat): (r: Run)
    requires k <= |times| && start <= t
    ensures r.Run? ==> k <= r.index < |times| && start <= r.start <= t && first <= r.first
                       && t <= r.start + times[r.index].count * times[r.index].delta
    decreases |times| - k
  {
    if k == |times| then NoRun
    else if start + times[k].count * times[k].delta >= t then Run(k, start, first)
    else FindRun(times, k + 1, start + times[k].count * times[k].delta, first + times[k].count, t)
  }

  lemma FindRunUnfold(times: seq<TimeEntry>, k: nat, start: nat, n: nat, t: nat)
    requires k < |times| && start <= t
    ensures var end := start + times[k].count * times[k].delta;
            && (end >= t ==> FindRun(times, k, start, n, t) == Run(k, start, n))
            && (end < t ==> FindRun(times, k, start, n, t) == FindRun(times, k + 1, end, n + times[k].count, t))
  {
  }

  lemma NoRunLeft(times: seq<TimeEntry>, start: nat, first: nat, t: nat)
    requires start <= t
    ensures FindRun(times, |times|, start, first, t).NoRun?
  {
  }

  function RunOf(times: seq<TimeEntry>, t: nat): Run {
    FindRun(times, 0, 0, 0, t)
  }

  /** `t` is the very end of the run that the seek stops at. */
  predicate AtRunEnd(times: seq<TimeEntry>, t: nat) {
    var r := RunOf(times, t);
    r.Run? && t == r.start + times[r.index].count * times[r.index].delta
  }

  /** The sample a seek to `t` counts to: the last one that starts at or before `t`, or the first of the next run. */
  function SampleFor(times: seq<TimeEntry>, t: nat): nat
    requires RunOf(times, t).Run? && times[RunOf(times, t).index].delta != 0
  {
    var r := RunOf(times, t);
    r.first + (t - r.start) / times[r.index].delta
  }

  /** Sample `j` of the run found, `j` up to the run's count: inside the run, or the first of the next one. */
  lemma {:induction false} InRun(times: seq<TimeEntry>, k: nat, start: nat, first: nat, t: nat, j: nat)
    requires TimesOk(times) && k <= |times| && start <= t && FindRun(times, k, start, first, t).Run?
    requires j <= times[FindRun(times, k, start, first, t).index].count
    ensures var r := FindRun(times, k, start, first, t); var e := times[r.index]; var n := r.first - first + j;
            && n <= Samples(times, k)
            && TimeFrom(times, k, start, n)
               == (if j < e.count then TimePos(r.start + j * e.delta, r.index, j)
                   else TimePos(r.start + e.count * e.delta, r.index + 1, 0))
    decreases |times| - k
  {
    hide TimeFrom, FindRun, Samples, Ticks;
    if k == |times| {
      NoRunLeft(times, start, first, t);
    } else {
      var c, end := times[k].count, start + times[k].count * times[k].delta;
      FindRunUnfold(times, k, start, first, t);
      TimeFromUnfold(times, k, start, FindRun(times, k, start, first, t).first - first + j);
      if end < t {
        InRun(times, k + 1, end, first + c, t, j);
      } else if j == c {
        FirstOfRun(times, k + 1, end);
      }
    }
  }

  /** No two samples have the same place in the runs. */
  lemma PlaceMoves(times: seq<TimeEntry>, n: nat)
    requires TimesOk(times) && n < Samples(times, 0)
    ensures var p, q := TimeAt(times, n), TimeAt(times, n + 1); p.run != q.run || p.count != q.count
  {
    TimeStep(times, 0, 0, n);
  }

  // ----- sync samples -----

  ghost predicate KeysOk(keys: seq<nat>, n: nat) {
    && (forall i :: 0 <= i < |keys| ==> 1 <= keys[i] <= n)
    && (forall i, j :: 0 <= i < j < |keys| ==> keys[i] < keys[j])
  }

  /** The first entry, from `k` on, for a sample number beyond `n`, that is for sample index `n` or a later one. */
  function KeyFrom(keys: seq<nat>, k: nat, n: nat): (i: nat)
    requires k <= |keys|
    ensures k <= i <= |keys|
    ensures forall j :: k <= j < i ==> keys[j] <= n
    ensures i < |keys| ==> keys[i] > n
    decreases |keys| - k
  {
    if k == |keys| || keys[k] > n then k else KeyFrom(keys, k + 1, n)
  }

  function KeyIndex(keys: seq<nat>, n: nat): (i: nat)
    ensures i <= |keys|
  {
    KeyFrom(keys, 0, n)
  }

  /** Sample index `n` carries the key mark: sample numbers count from 1. */
  predicate IsKey(keys: seq<nat>, n: nat) {
    var i := KeyIndex(keys, n);
    i < |keys| && keys[i] == n + 1
  }

  /** The mark is set exactly for the sample numbers in the table. */
  lemma KeyExact(keys: seq<nat>, n: nat, total: nat)
    requires KeysOk(keys, total)
    ensures IsKey(keys, n) <==> n + 1 in keys
  {
    var i := KeyIndex(keys, n);
    forall j | i < j < |keys|
      ensures keys[j] > n + 1
    {
      Rises(keys, i, j, total);
    }
  }

  lemma Rises(keys: seq<nat>, i: nat, j: nat, total: nat)
    requires KeysOk(keys, total) && i <= j < |keys|
    ensures keys[i] + (j - i) <= keys[j]
    decreases j - i
  {
    if i < j {
      Rises(keys, i + 1, j, total);
    }
  }

  /** Between one sync sample and the next the index does not move. */
  lemma KeyIndexIs(keys: seq<nat>, n: nat, i: nat, total: nat)
    requires KeysOk(keys, total) && i <= |keys|
    requires (i > 0 ==> keys[i - 1] <= n) && (i < |keys| ==> keys[i] > n)
    ensures KeyIndex(keys, n) == i
  {
    var k := KeyIndex(keys, n);
    if k < i {
      Rises(keys, k, i - 1, total);
    }
  }

  /** What ngx_rtmp_mp4_next_key leaves at sample `n + 1`. */
  lemma KeyStep(keys: seq<nat>, n: nat, total: nat)
    requires KeysOk(keys, total)
    ensures KeyIndex(keys, n + 1) == KeyIndex(keys, n) + (if IsKey(keys, n) then 1 else 0)
  {
    var i := KeyIndex(keys, n);
    if IsKey(keys, n) {
      if i + 1 < |keys| {
        Rises(keys, i, i + 1, total);
      }
      KeyIndexIs(keys, n + 1, i + 1, total);
    } else {
      KeyIndexIs(keys, n + 1, i, total);
    }
  }

  // ----- chunks -----

  datatype ChunkPos = ChunkPos(chunk: nat, entry: nat, count: nat)

  ghost predicate ChunksOk(chunks: seq<ChunkEntry>) {
    && |chunks| >= 1 && chunks[0].first == 1
    && (forall i :: 0 <= i < |chunks| ==> chunks[i].perChunk >= 1)
    && (forall i, j :: 0 <= i < j < |chunks| ==> chunks[i].first < chunks[j].first)
  }

  ghost predicate SpansFit(chunks: seq<ChunkEntry>) {
    forall k :: 0 <= k && k + 1 < |chunks| ==> Span(chunks, k) < U32
  }

  /** The samples of entry `k`, when another entry follows it. */
  function Span(chunks: seq<ChunkEntry>, k: nat): int
    requires k + 1 < |chunks|
  {
    (chunks[k + 1].first - chunks[k].first) * chunks[k].perChunk
  }

  /** The `n`-th sample from the start of entry `k`: its chunk, the entry for that chunk and its number in the chunk. */
  function ChunkFrom(chunks: seq<ChunkEntry>, k: nat, n: nat): (p: ChunkPos)
    requires ChunksOk(chunks) && k < |chunks|
    ensures k <= p.entry < |chunks| && p.count < chunks[p.entry].perChunk && p.count <= n
    ensures chunks[p.entry].first <= p.chunk
    ensures p.entry + 1 < |chunks| ==> p.chunk < chunks[p.entry + 1].first
    decreases |chunks| - k
  {
    if k + 1 < |chunks| && Span(chunks, k) <= n then
      SpanPositive(chunks, k);
      ChunkFrom(chunks, k + 1, n - Span(chunks, k))
    else
      BeforeNext(chunks, k, n);
      Within(chunks, k, n)
  }

  lemma BeforeNext(chunks: seq<ChunkEntry>, k: nat, n: nat)
    requires ChunksOk(chunks) && k < |chunks| && (k + 1 < |chunks| ==> n < Span(chunks, k))
    ensures k + 1 < |chunks| ==> Within(chunks, k, n).chunk < chunks[k + 1].first
  {
    if k + 1 < |chunks| {
      DivBelow(n, chunks[k + 1].first - chunks[k].first, chunks[k].perChunk);
    }
  }

  function Within(chunks: seq<ChunkEntry>, k: nat, n: nat): (p: ChunkPos)
    requires k < |chunks| && chunks[k].perChunk >= 1
    ensures p.entry == k && p.count < chunks[k].perChunk && p.count <= n && chunks[k].first <= p.chunk
  {
    DivBasics(n, chunks[k].perChunk);
    ChunkPos(chunks[k].first + n / chunks[k].perChunk, k, n % chunks[k].perChunk)
  }

  lemma SpanPositive(chunks: seq<ChunkEntry>, k: nat)
    requires ChunksOk(chunks) && k + 1 < |chunks|
    ensures Span(chunks, k) > 0
  {
    MulLe(1, chunks[k + 1].first - chunks[k].first, chunks[k].perChunk);
  }

  /** One sample on: the chunk fields after ngx_rtmp_mp4_next_chunk. */
  function StepChunk(chunks: seq<ChunkEntry>, p: ChunkPos): ChunkPos
    requires p.entry < |chunks|
  {
    if p.count + 1 >= chunks[p.entry].perChunk then
      ChunkPos(p.chunk + 1,
               if p.entry + 1 < |chunks| && p.chunk + 1 >= chunks[p.entry + 1].first then p.entry + 1 else p.entry,
               0)
    else p.(count := p.count + 1)
  }

  lemma {:induction false} ChunkStep(chunks: seq<ChunkEntry>, k: nat, n: nat)
    requires ChunksOk(chunks) && k < |chunks|
    ensures ChunkFrom(chunks, k, n + 1) == StepChunk(chunks, ChunkFrom(chunks, k, n))
    decreases |chunks| - k
  {
    hide ChunksOk, StepChunk, Within;
    if k + 1 < |chunks| && Span(chunks, k) <= n {
      SpanPositive(chunks, k);
      ChunkStep(chunks, k + 1, n - Span(chunks, k));
    } else {
      StepWithin(chunks, k, n);
      if k + 1 < |chunks| && n + 1 == Span(chunks, k) {
        FirstOfEntry(chunks, k + 1);
      }
    }
  }

  /** One sample on inside entry `k`, or from its last sample to the first of the next entry. */
  lemma StepWithin(chunks: seq<ChunkEntry>, k: nat, n: nat)
    requires ChunksOk(chunks) && k < |chunks| && (k + 1 < |chunks| ==> n < Span(chunks, k))
    ensures StepChunk(chunks, Within(chunks, k, n))
            == if k + 1 < |chunks| && n + 1 == Span(chunks, k) then ChunkPos(chunks[k + 1].first, k + 1, 0)
               else Within(chunks, k, n + 1)
  {
    var c := chunks[k].perChunk;
    DivStep(n, c);
    if k + 1 < |chunks| {
      var m := chunks[k + 1].first - chunks[k].first;
      DivBelow(n, m, c);
      if n + 1 == Span(chunks, k) {
        DivIs(n + 1, c, m, 0);
      } else {
        DivBelow(n + 1, m, c);
      }
    }
  }

  lemma FirstOfEntry(chunks: seq<ChunkEntry>, k: nat)
    requires ChunksOk(chunks) && k < |chunks|
    ensures ChunkFrom(chunks, k, 0) == ChunkPos(chunks[k].first, k, 0)
  {
    if k + 1 < |chunks| {
      SpanPositive(chunks, k);
    }
    DivIs(0, chunks[k].perChunk, 0, 0);
  }

  // ----- sizes -----

  function SizeOf(sizes: Sizes, n: nat): nat
    requires sizes.fixed != 0 || n < |sizes.entries|
  {
    if sizes.fixed != 0 then sizes.fixed else sizes.entries[n]
  }

  /** The bytes of samples `lo` to `hi - 1`. */
  function ByteSum(sizes: Sizes, lo: nat, hi: nat): nat
    requires lo <= hi && (sizes.fixed != 0 || hi <= |sizes.entries|)
    decreases hi - lo
  {
    if lo == hi then 0 else SizeOf(sizes, lo) + ByteSum(sizes, lo + 1, hi)
  }

  lemma {:induction false} BytesEnd(sizes: Sizes, lo: nat, hi: nat)
    requires lo <= hi && (sizes.fixed != 0 || hi < |sizes.entries|)
    ensures ByteSum(sizes, lo, hi + 1) == ByteSum(sizes, lo, hi) + SizeOf(sizes, hi)
    decreases hi - lo
  {
    if lo < hi {
      BytesEnd(sizes, lo + 1, hi);
    }
  }

  lemma {:induction false} BytesFixed(sizes: Sizes, lo: nat, hi: nat)
    requires lo <= hi && sizes.fixed != 0
    ensures ByteSum(sizes, lo, hi) == sizes.fixed * (hi - lo)
    decreases hi - lo
  {
    if lo < hi {
      BytesFixed(sizes, lo + 1, hi);
    }
  }

  // ----- composition delays -----

  datatype DelayPos = DelayPos(run: nat, count: nat, delay: nat)

  function Delayed(delays: seq<DelayEntry>, k: nat): nat
    requires k <= |delays|
    decreases |delays| - k
  {
    if k == |delays| then 0 else delays[k].count + Delayed(delays, k + 1)
  }

  ghost predicate DelaysOk(delays: seq<DelayEntry>, n: nat) {
    && (forall i :: 0 <= i < |delays| ==> delays[i].count >= 1)
    && n <= Delayed(delays, 0) < U32
  }

  function DelayFrom(delays: seq<DelayEntry>, k: nat, n: nat): (p: DelayPos)
    requires k <= |delays| && n < Delayed(delays, k)
    ensures k <= p.run < |delays| && p.count < delays[p.run].count && p.delay == delays[p.run].offset
    decreases |delays| - k
  {
    if n < delays[k].count then DelayPos(k, n, delays[k].offset)
    else DelayFrom(delays, k + 1, n - delays[k].count)
  }

  /** One sample on: the delay fields after ngx_rtmp_mp4_next_delay. */
  lemma {:induction false} DelayStep(delays: seq<DelayEntry>, k: nat, n: nat)
    requires (forall i :: 0 <= i < |delays| ==> delays[i].count >= 1)
    requires k <= |delays| && n + 1 < Delayed(delays, k)
    ensures var p := DelayFrom(delays, k, n);
            DelayFrom(delays, k, n + 1)
            == (if p.count + 1 < delays[p.run].count then p.(count := p.count + 1)
                else DelayPos(p.run + 1, 0, DelayFrom(delays, k, n + 1).delay))
    decreases |delays| - k
  {
    var c := delays[k].count;
    if n >= c {
      DelayStep(delays, k + 1, n - c);
    } else if n + 1 == c {
      assert DelayFrom(delays, k, n + 1) == DelayFrom(delays, k + 1, 0);
    }
  }

  // ----- a track -----

  /** The tables of a track; a table that the file does not have is None. */
  datatype Track = Track(timeScale: nat,
                         times: Option<seq<TimeEntry>>, delays: Option<seq<DelayEntry>>, keys: Option<seq<nat>>,
                         chunks: Option<seq<ChunkEntry>>, sizes: Option<Sizes>,
                         offsets: Option<seq<nat>>, offsets64: Option<seq<nat>>)

  /** The number of samples. */
  function Count(t: Track): nat {
    if t.times.None? then 0 else Samples(t.times.value, 0)
  }

  /** Where chunk `chunk` starts in the file, chunks being numbered from 1; the 32-bit table goes first. */
  function ChunkOffset(t: Track, chunk: nat): Option<nat> {
    if chunk < 1 then None
    else if t.offsets.Some? then (if chunk <= |t.offsets.value| then Some(t.offsets.value[chunk - 1]) else None)
    else if t.offsets64.Some? && chunk <= |t.offsets64.value| then Some(t.offsets64.value[chunk - 1])
    else None
  }

  /** Well-formed tables: every sample has an entry wherever it needs one, and the totals fit 32 bits. */
  ghost predicate TrackOk(t: Track) {
    && t.times.Some? && TimesOk(t.times.value) && Ticks(t.times.value, 0) < U32
    && (t.keys.Some? ==> KeysOk(t.keys.value, Count(t)))
    && t.chunks.Some? && ChunksOk(t.chunks.value) && SpansFit(t.chunks.value)
    && (forall n :: 0 <= n < Count(t) ==> ChunkOffset(t, ChunkFrom(t.chunks.value, 0, n).chunk).Some?)
    && t.sizes.Some? && (t.sizes.value.fixed == 0 ==> |t.sizes.value.entries| == Count(t))
    && (t.delays.Some? ==> DelaysOk(t.delays.value, Count(t)))
  }

  /** All that the tables say of sample `n`. */
  datatype Sample = Sample(time: TimePos, key: bool, keyPos: nat, chunk: ChunkPos,
                           offset: nat, size: nat, sizePos: nat, delay: DelayPos)

  function KeyPosAt(t: Track, n: nat): nat {
    if t.keys.Some? then KeyIndex(t.keys.value, n) else 0
  }

  predicate KeyAt(t: Track, n: nat) {
    t.keys.Some? && IsKey(t.keys.value, n)
  }

  function SizePosAt(t: Track, n: nat): nat
    requires t.sizes.Some?
  {
    if t.sizes.value.fixed != 0 then 0 else n
  }

  ghost function OffsetAt(t: Track, n: nat): nat
    requires TrackOk(t) && n < Count(t)
  {
    var c := ChunkFrom(t.chunks.value, 0, n);
    ChunkOffset(t, c.chunk).value + ByteSum(t.sizes.value, n - c.count, n)
  }

  function DelayAt(t: Track, n: nat): DelayPos
    requires t.delays.Some? ==> n < Delayed(t.delays.value, 0)
  {
    if t.delays.Some? then DelayFrom(t.delays.value, 0, n) else DelayPos(0, 0, 0)
  }

  ghost function SampleAt(t: Track, n: nat): Sample
    requires TrackOk(t) && n < Count(t)
  {
    Sample(TimeAt(t.times.value, n), KeyAt(t, n), KeyPosAt(t, n), ChunkFrom(t.chunks.value, 0, n),
           OffsetAt(t, n), SizeOf(t.sizes.value, n), SizePosAt(t, n), DelayAt(t, n))
  }

  /** Inside a chunk, one sample ends where the next begins. */
  lemma OffsetStep(t: Track, n: nat)
    requires TrackOk(t) && n + 1 < Count(t)
    ensures var c := ChunkFrom(t.chunks.value, 0, n + 1);
            OffsetAt(t, n + 1) == if c.count == 0 then ChunkOffset(t, c.chunk).value
                                  else OffsetAt(t, n) + SizeOf(t.sizes.value, n)
  {
    ChunkStep(t.chunks.value, 0, n);
    var c := ChunkFrom(t.chunks.value, 0, n);
    BytesEnd(t.sizes.value, n - c.count, n);
  }

  // ----- where a seek lands -----

  /** The first sync sample at or after sample `n`; `n` itself if there is none. */
  function NextSync(t: Track, n: nat): (m: nat)
    ensures n <= m
  {
    if t.keys.Some? && KeyIndex(t.keys.value, n) < |t.keys.value| then t.keys.value[KeyIndex(t.keys.value, n)] - 1
    else n
  }

  /**
   The sample sought is the next one with the key mark, if any sync sample follows, and the one asked for otherwise.
   */
  lemma NextSyncIsNearest(t: Track, n: nat)
    requires TrackOk(t) && t.keys.Some?
    ensures KeyAt(t, NextSync(t, n)) <==> exists s :: s in t.keys.value && s > n
    ensures (forall s :: s in t.keys.value ==> s <= n) ==> NextSync(t, n) == n
    ensures forall s :: s in t.keys.value && s > n ==> s > NextSync(t, n)
  {
    var keys, m := t.keys.value, NextSync(t, n);
    var k := KeyIndex(keys, n);
    if k < |keys| {
      assert keys[k] in keys;
      KeyIndexIs(keys, m, k, Count(t));
    }
  }

  /**
   The time fields once a seek to `t` has walked to sample `n`. A target on the end of a run leaves the cursor past
   the run's last sample but still in the run, and the walk goes on from there one sample late.
   */
  function Sought(times: seq<TimeEntry>, t: nat, n: nat): TimePos
    requires n <= Samples(times, 0) && RunOf(times, t).Run?
    requires AtRunEnd(times, t) ==> n >= 1
  {
    var r := RunOf(times, t);
    if !AtRunEnd(times, t) then TimeAt(times, n)
    else if n == r.first + times[r.index].count then TimePos(TimeAt(times, n).time, r.index, times[r.index].count)
    else var p := TimeAt(times, n - 1); p.(time := Wrap(p.time + times[r.index].delta))
  }

  /** The seek agrees with the tables exactly when its target is not the end of a run. */
  lemma SoughtExact(times: seq<TimeEntry>, t: nat, n: nat)
    requires TimesOk(times) && RunOf(times, t).Run? && times[RunOf(times, t).index].delta != 0
    requires SampleFor(times, t) <= n <= Samples(times, 0)
    ensures AtRunEnd(times, t) ==> n >= 1
    ensures Sought(times, t, n) == TimeAt(times, n) <==> !AtRunEnd(times, t)
  {
    if AtRunEnd(times, t) {
      EndOfRun(times, t);
      var r := RunOf(times, t);
      InRun(times, 0, 0, 0, t, times[r.index].count);
      PlaceMoves(times, n - 1);
    }
  }

  lemma EndOfRun(times: seq<TimeEntry>, t: nat)
    requires TimesOk(times) && RunOf(times, t).Run? && times[RunOf(times, t).index].delta != 0
    ensures var r := RunOf(times, t); var e := times[r.index];
            && SampleFor(times, t) <= r.first + e.count
            && (AtRunEnd(times, t) <==> SampleFor(times, t) == r.first + e.count)
            && (AtRunEnd(times, t) ==> SampleFor(times, t) >= 1)
  {
    var r := RunOf(times, t);
    var e := times[r.index];
    var q := (t - r.start) / e.delta;
    DivBasics(t - r.start, e.delta);
    if AtRunEnd(times, t) {
      DivIs(t - r.start, e.delta, e.count, 0);
    } else {
      DivBelow(t - r.start, e.count, e.delta);
    }
  }

  /** A seek finds a run exactly up to the end of the track. */
  lemma {:induction false} RunFound(times: seq<TimeEntry>, k: nat, start: nat, first: nat, t: nat)
    requires k <= |times| && start <= t
    ensures FindRun(times, k, start, first, t).Run? <==> k < |times| && t <= start + Ticks(times, k)
    decreases |times| - k
  {
    hide FindRun;
    if k == |times| {
      NoRunLeft(times, start, first, t);
    } else {
      var end := start + times[k].count * times[k].delta;
      FindRunUnfold(times, k, start, first, t);
      if end < t {
        RunFound(times, k + 1, end, first + times[k].count, t);
      }
    }
  }

  /**
   The sample that a seek asks for is the one whose time the target is in, from its start up to the start of the next;
   at the end of a run it is the first sample after it, which starts at the target.
   */
  lemma SampleForIs(times: seq<TimeEntry>, t: nat)
    requires TimesOk(times) && RunOf(times, t).Run? && times[RunOf(times, t).index].delta != 0
    ensures var n := SampleFor(times, t);
            && n <= Samples(times, 0) && TimeAt(times, n).time <= t
            && (if AtRunEnd(times, t) then TimeAt(times, n).time == t
                else n < Samples(times, 0) && t < TimeAt(times, n + 1).time)
  {
    hide TimeFrom, FindRun, Samples, Ticks;
    EndOfRun(times, t);
    var r := RunOf(times, t);
    var e := times[r.index];
    var j := (t - r.start) / e.delta;
    DivBasics(t - r.start, e.delta);
    OneMore(j, e.delta);
    InRun(times, 0, 0, 0, t, j);
    if !AtRunEnd(times, t) {
      InRun(times, 0, 0, 0, t, j + 1);
    }
  }

  // ----- the two clocks -----

  function ToRtmp(t: Track, time: nat): u32
    requires t.timeScale > 0
  {
    Wrap(time * 1000 / t.timeScale)
  }

  function FromRtmp(t: Track, time: u32): u32 {
    Wrap(time * t.timeScale / 1000)
  }

  /** A track that ends at time `end` does so within 32 bits, of ticks and of milliseconds. */
  predicate EndFits(t: Track, end: nat) {
    t.timeScale > 0 && end < U32 && end * 1000 / t.timeScale < U32
  }

  /** Tick number `ticks` falls into millisecond `ms`. */
  predicate InMillisecond(t: Track, ticks: nat, ms: nat) {
    ms * t.timeScale <= 1000 * ticks < (ms + 1) * t.timeScale
  }

  /** The time `ms`, in milliseconds, falls into tick number `ticks`. */
  predicate InTick(t: Track, ms: nat, ticks: nat) {
    1000 * ticks <= ms * t.timeScale < 1000 * (ticks + 1)
  }

  /** A timestamp is the millisecond into which the tick falls, exactly as long as that fits 32 bits. */
  lemma ToRtmpExact(t: Track, ticks: nat)
    requires t.timeScale > 0
    ensures InMillisecond(t, ticks, ToRtmp(t, ticks)) <==> 1000 * ticks < U32 * t.timeScale
  {
    var n, q := 1000 * ticks, 1000 * ticks / t.timeScale;
    DivBasics(n, t.timeScale);
    Distribute(q, 1, t.timeScale);
    if n < U32 * t.timeScale {
      DivBelow(n, U32, t.timeScale);
    } else {
      MulLe(Wrap(q) + 1, U32, t.timeScale);
    }
  }

  /** The ticks of a time in milliseconds are those into which it falls, exactly as long as they fit 32 bits. */
  lemma FromRtmpExact(t: Track, ms: u32)
    ensures InTick(t, ms, FromRtmp(t, ms)) <==> ms * t.timeScale < 1000 * U32
  {
    var n := ms * t.timeScale;
    assert n >= 0 by { MulLe(0, ms, t.timeScale); }
    InThousands(n);
  }

  lemma InThousands(n: nat)
    ensures 1000 * Wrap(n / 1000) <= n < 1000 * (Wrap(n / 1000) + 1) <==> n < 1000 * U32
  {
  }

  /**
   Milliseconds to ticks and back are never late. They are early by the part of a tick that is lost, rounded up to whole
   milliseconds, and so exact only for times on a tick.
   */
  lemma ThereAndBack(t: Track, ms: u32)
    requires t.timeScale > 0 && ms * t.timeScale < 1000 * U32
    ensures var back, lost := ToRtmp(t, FromRtmp(t, ms)), ms * t.timeScale % 1000;
            && back <= ms && (back == ms <==> lost == 0)
            && (ms - back - 1) * t.timeScale < lost <= (ms - back) * t.timeScale
  {
    var ticks := FromRtmp(t, ms);
    var back, lost := ToRtmp(t, ticks), ms * t.timeScale % 1000;
    FromRtmpExact(t, ms);
    assert 1000 * ticks + lost == ms * t.timeScale;
    assert 1000 * ticks < U32 * t.timeScale by {
      MulLe(ms + 1, U32, t.timeScale);
      Distribute(ms, 1, t.timeScale);
    }
    ToRtmpExact(t, ticks);
    Distribute(ms - back, back, t.timeScale);
    Distribute(ms - back - 1, back + 1, t.timeScale);
    if back > ms {
      MulLe(ms + 1, back, t.timeScale);
      Distribute(ms, 1, t.timeScale);
    }
    if back < ms {
      MulLe(1, ms - back, t.timeScale);
    }
  }

  /** At 44100 ticks a second, 1 ms comes back as 0 ms, which is more than the one tick that is lost. */
  lemma BackExample(t: Track)
    requires t.timeScale == 44100
    ensures FromRtmp(t, 1) == 44 && ToRtmp(t, 44) == 0 && InTick(t, 1, 44) && !InMillisecond(t, 44, 1)
  {
    assert 1 * t.timeScale / 1000 == 44;
    assert 44 * 1000 / t.timeScale == 0;
  }

  lemma StampFits(t: Track, ticks: nat, end: nat)
    requires EndFits(t, end) && ticks <= end
    ensures InMillisecond(t, ticks, ToRtmp(t, ticks))
  {
    var q := end * 1000 / t.timeScale;
    DivBasics(end * 1000, t.timeScale);
    Distribute(q, 1, t.timeScale);
    MulLe(q + 1, U32, t.timeScale);
    ToRtmpExact(t, ticks);
  }

  lemma ToRtmpMonotone(t: Track, a: nat, b: nat, end: nat)
    requires EndFits(t, end) && a <= b <= end
    ensures ToRtmp(t, a) <= ToRtmp(t, b)
  {
    DivMonotone(a * 1000, b * 1000, t.timeScale);
    DivMonotone(b * 1000, end * 1000, t.timeScale);
  }

  // ----- where a clock ends -----

  /** What is still to pass, wherever in a run the count stands: a run that is not left yet has one sample at least. */
  function Left(times: seq<TimeEntry>, p: TimePos): nat
    requires p.run <= |times|
  {
    if p.run == |times| then 0
    else
      var e := times[p.run];
      (if p.count < e.count then e.count - p.count else 1) * e.delta + Ticks(times, p.run + 1)
  }

  /** The time at which a clock at `p` ends up. */
  function EndOf(times: seq<TimeEntry>, p: TimePos): nat
    requires p.run <= |times|
  {
    p.time + Left(times, p)
  }

  /** A step does not change where the clock ends up. */
  lemma EndStays(times: seq<TimeEntry>, p: TimePos)
    requires TimesOk(times) && p.run < |times|
    ensures var q := StepTime(times, p); q.run <= |times| && p.time <= q.time <= EndOf(times, q) == EndOf(times, p)
  {
    var e := times[p.run];
    if p.count + 1 < e.count {
      Distribute(1, e.count - p.count - 1, e.delta);
    }
  }

  /** On the samples of the track, it ends up at the end of the track. */
  lemma {:induction false} EndOnTime(times: seq<TimeEntry>, k: nat, start: nat, n: nat)
    requires TimesOk(times) && k <= |times| && n <= Samples(times, k)
    ensures EndOf(times, TimeFrom(times, k, start, n)) == start + Ticks(times, k)
    decreases |times| - k
  {
    if k < |times| {
      var e := times[k];
      if n < e.count {
        Distribute(n, e.count - n, e.delta);
      } else {
        EndOnTime(times, k + 1, start + e.count * e.delta, n - e.count);
      }
    }
  }

  /** How late a clock is that was sought to `t`: by the delta of the run whose end `t` is. */
  function Late(times: seq<TimeEntry>, t: nat): nat {
    if AtRunEnd(times, t) then times[RunOf(times, t).index].delta else 0
  }

  /** A clock that was sought ends up late by exactly that, as long as it does not wrap. */
  lemma SoughtEnds(times: seq<TimeEntry>, t: nat, n: nat)
    requires TimesOk(times) && RunOf(times, t).Run? && times[RunOf(times, t).index].delta != 0
    requires SampleFor(times, t) <= n <= Samples(times, 0) && Ticks(times, 0) + Late(times, t) < U32
    ensures AtRunEnd(times, t) ==> n >= 1
    ensures var p := Sought(times, t, n); p.run <= |times| && EndOf(times, p) == Ticks(times, 0) + Late(times, t)
  {
    hide TimeFrom, FindRun, Samples, SampleFor, TimesOk;
    EndOfRun(times, t);
    EndOnTime(times, 0, 0, n);
    if AtRunEnd(times, t) {
      var r := RunOf(times, t);
      if n == r.first + times[r.index].count {
        InRun(times, 0, 0, 0, t, times[r.index].count);
      } else {
        EndOnTime(times, 0, 0, n - 1);
      }
    }
  }
}
