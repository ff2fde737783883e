/** The sample cursor of an MP4 track: the seeks that jump through the tables and the steps that go one sample on. */
module Mp4Cursor {
  import opened Arithmetic
  import opened Bytes
  import opened Wrappers
  import opened Mp4Tables

  class Cursor {
    const track: Track
    var timestamp: u32
    var lastTimestamp: u32
    var offset: nat
    var size: nat
    var key: bool
    var delay: nat
    var notFirst: bool
    var valid: bool
    var pos: nat
    var keyPos: nat
    var chunk: nat
    var chunkPos: nat
    var chunkCount: nat
    var timePos: nat
    var timeCount: nat
    var delayPos: nat
    var delayCount: nat
    var sizePos: nat

    constructor (t: Track)
      ensures track == t && !valid && !notFirst && pos == 0 && timestamp == 0
    {
      track := t;
      timestamp, lastTimestamp, offset, size, key, delay := 0, 0, 0, 0, false, 0;
      notFirst, valid, pos, keyPos := false, false, 0, 0;
      chunk, chunkPos, chunkCount, timePos, timeCount := 0, 0, 0, 0, 0;
      delayPos, delayCount, sizePos := 0, 0, 0;
    }

    ghost function Time(): TimePos
      reads this
    {
      TimePos(timestamp, timePos, timeCount)
    }

    ghost function Chunk(): ChunkPos
      reads this
    {
      ChunkPos(chunk, chunkPos, chunkCount)
    }

    ghost function Delay(): DelayPos
      reads this
    {
      DelayPos(delayPos, delayCount, delay)
    }

    /** Every field but the two that only remember the past: last_timestamp and not_first. */
    ghost function Fields(): Sample
      reads this
    {
      Sample(Time(), key, keyPos, Chunk(), offset, size, sizePos, Delay())
    }

    /** The cursor holds what the tables say of sample `pos`. */
    ghost predicate OnSample()
      reads this
    {
      TrackOk(track) && pos < Count(track) && Fields() == SampleAt(track, pos)
    }

    /** The clock is in the time table, on a sample or past the end of a run, and will end up at time `end`. */
    ghost predicate Clocked(end: nat)
      reads this
    {
      && track.times.Some? && TimesOk(track.times.value)
      && timePos <= |track.times.value| && EndOf(track.times.value, Time()) == end < U32
    }

    /** The key mark and the place in the sync table are those of sample `pos`. */
    ghost predicate Marked()
      reads this
    {
      && (track.keys.Some? ==> KeysOk(track.keys.value, Count(track)))
      && key == KeyAt(track, pos) && keyPos == KeyPosAt(track, pos)
    }

    /**
     Where a jump to `target` leaves the cursor: on the next sync sample, with all that the tables say of it but for the
     clock after the end of a run. Past the last sample it is valid only if the sizes are fixed and the chunk table goes
     on.
     */
    ghost predicate SoughtTo(target: u32)
      requires TrackOk(track)
      reads this
    {
      var t := FromRtmp(track, target);
      && (!Seekable(track.times.value, t) ==> !valid)
      && (Seekable(track.times.value, t) ==>
            && pos == Landing(track, t) <= Count(track) && Marked()
            && (AtRunEnd(track.times.value, t) ==> pos >= 1) && Time() == Sought(track.times.value, t, pos)
            && if pos < Count(track) then valid && Fields() == Landed(track, t)
               else valid == (track.sizes.value.fixed != 0
                              && ChunkOffset(track, ChunkFrom(track.chunks.value, 0, pos).chunk).Some?))
    }

    // ----- times -----

    method NextTime() returns (ok: bool)
      modifies `timestamp, `lastTimestamp, `notFirst, `pos, `timePos, `timeCount
      ensures ok == CanTime(track, old(Fields()))
      ensures ok ==> Fields() == Timed(track, old(Fields())) && pos == old(pos) + 1
      ensures ok ==> lastTimestamp == old(timestamp) && notFirst
      ensures !ok ==> unchanged(this)
    {
      if track.times.None? || timePos >= |track.times.value| {
        return false;
      }
      var te := track.times.value[timePos];
      lastTimestamp := timestamp;
      timestamp := Wrap(timestamp + te.delta);
      notFirst := true;
      timeCount := timeCount + 1;
      pos := pos + 1;
      if timeCount >= te.count {
        timePos := timePos + 1;
        timeCount := 0;
      }
      return true;
    }

    method SeekTime(t: u32) returns (ok: bool)
      requires track.times.Some? && TimesOk(track.times.value) && Ticks(track.times.value, 0) < U32
      requires timestamp == 0 && pos == 0 && timePos == 0 && timeCount == 0
      modifies `timestamp, `pos, `timePos, `timeCount
      ensures ok == Seekable(track.times.value, t)
      ensures ok ==> pos == SampleFor(track.times.value, t) <= Count(track)
      ensures ok ==> (AtRunEnd(track.times.value, t) ==> pos >= 1) && Time() == Sought(track.times.value, t, pos)
    {
      hide TimeFrom, Sought, AtRunEnd, SampleFor, TrackOk, FindRun, RunOf, Ticks, Samples, Times32;
      var times := track.times.value;
      SeekStart(times, t);
      while timePos < |times|
        invariant timePos <= |times| && timeCount == 0 && timestamp <= t
        invariant timestamp + Ticks(times, timePos) < U32
        invariant RunOf(times, t) == FindRun(times, timePos, timestamp, pos, t)
        decreases |times| - timePos
      {
        SeekStep(times, timePos, timestamp, pos, t);
        var te := times[timePos];
        var dt := Times32(te.delta, te.count);
        if Wrap(timestamp + dt) >= t {
          if te.delta == 0 {
            return false;
          }
          SoughtStart(times, t);
          timeCount := (t - timestamp) / te.delta;
          timestamp := Wrap(timestamp + Times32(te.delta, timeCount));
          pos := pos + timeCount;
          break;
        }
        timestamp := Wrap(timestamp + dt);
        pos := pos + te.count;
        timePos := timePos + 1;
      }
      if timePos >= |times| {
        NoRunLeft(times, timestamp, pos, t);
        return false;
      }
      return true;
    }

    // ----- sync samples -----

    method NextKey() returns (ok: bool)
      modifies `key, `keyPos
      ensures ok && Fields() == Keyed(track, old(Fields()), pos)
    {
      if track.keys.None? {
        return true;
      }
      if key {
        keyPos := keyPos + 1;
      }
      if keyPos >= |track.keys.value| {
        key := false;
        return true;
      }
      key := pos + 1 == track.keys.value[keyPos];
      return true;
    }

    method SeekKey(ghost t: u32) returns (ok: bool)
      requires TrackOk(track) && Seekable(track.times.value, t)
      requires pos == SampleFor(track.times.value, t) <= Count(track)
      requires Time() == Sought(track.times.value, t, pos)
      requires keyPos == 0 && !key
      modifies `key, `keyPos, `timestamp, `lastTimestamp, `notFirst, `pos, `timePos, `timeCount
      ensures ok
      ensures pos == NextSync(track, old(pos)) <= Count(track)
      ensures Time() == Sought(track.times.value, t, pos)
      ensures key == KeyAt(track, pos) && keyPos == KeyPosAt(track, pos)
    {
      hide TimeFrom, FindRun, Samples, Sought, SampleFor, AtRunEnd, KeyFrom, KeyIndex, IsKey, TrackOk, KeysOk, TimesOk;
      TrackFacts(track);
      if track.keys.None? {
        return true;
      }
      var keys := track.keys.value;
      KeySearch(keys, 0, pos);
      while keyPos < |keys|
        modifies `keyPos
        invariant keyPos <= |keys| && KeyIndex(keys, pos) == KeyFrom(keys, keyPos, pos)
      {
        KeySearch(keys, keyPos, pos);
        if keys[keyPos] > pos {
          break;
        }
        keyPos := keyPos + 1;
      }
      KeySearch(keys, keyPos, pos);
      KeyMissed(keys, pos);
      if keyPos >= |keys| {
        return true;
      }
      KeyInTrack(keys, keyPos, Count(track));
      ghost var from := pos;
      var dpos: int := keys[keyPos] - pos - 1;
      key := true;
      Walk(dpos, t);
      KeyReached(keys, from, pos, keyPos, Count(track));
      return true;
    }

    /** The last loop of the seek: `dpos` samples on, one by one. */
    method Walk(dpos: nat, ghost t: u32)
      requires track.times.Some? && TimesOk(track.times.value) && Ticks(track.times.value, 0) < U32
      requires Seekable(track.times.value, t) && SampleFor(track.times.value, t) == pos
      requires pos + dpos <= Samples(track.times.value, 0) && Time() == Sought(track.times.value, t, pos)
      modifies `timestamp, `lastTimestamp, `notFirst, `pos, `timePos, `timeCount
      ensures pos == old(pos) + dpos && Time() == Sought(track.times.value, t, pos)
    {
      hide TimeFrom, FindRun, Samples, Sought, SampleFor, AtRunEnd;
      SoughtDefined(track.times.value, t, pos);
      var left: nat := dpos;
      while left > 0
        invariant left + pos == old(pos) + dpos && old(pos) <= pos
        invariant AtRunEnd(track.times.value, t) ==> pos >= 1
        invariant Time() == Sought(track.times.value, t, pos)
      {
        SoughtStep(track.times.value, t, pos);
        var _ := NextTime();
        left := left - 1;
      }
    }

    // ----- chunks -----

    method UpdateOffset() returns (ok: bool)
      modifies `offset, `size
      ensures ok <==> ChunkOffset(track, chunk).Some?
      ensures if ok then offset == ChunkOffset(track, chunk).value && size == 0 else unchanged(this)
    {
      if chunk < 1 {
        return false;
      }
      var index := chunk - 1;
      if track.offsets.Some? {
        if index >= |track.offsets.value| {
          return false;
        }
        offset := track.offsets.value[index];
        size := 0;
        return true;
      }
      if track.offsets64.Some? {
        if index >= |track.offsets64.value| {
          return false;
        }
        offset := track.offsets64.value[index];
        size := 0;
        return true;
      }
      return false;
    }

    method NextChunk() returns (ok: bool)
      modifies `chunk, `chunkPos, `chunkCount, `offset, `size
      ensures ok == CanChunk(track, old(Fields()))
      ensures ok ==> Fields() == Chunked(track, old(Fields()))
    {
      if track.chunks.None? {
        return true;
      }
      var chunks := track.chunks.value;
      if chunkPos >= |chunks| {
        return false;
      }
      var newChunk;
      chunkCount := chunkCount + 1;
      if chunkCount >= chunks[chunkPos].perChunk {
        chunkCount := 0;
        chunk := chunk + 1;
        if chunkPos + 1 < |chunks| {
          if chunk >= chunks[chunkPos + 1].first {
            chunkPos := chunkPos + 1;
          }
        }
        newChunk := true;
      } else {
        newChunk := false;
      }
      if newChunk {
        ok := UpdateOffset();
        return;
      }
      return true;
    }

    method SeekChunk() returns (ok: bool)
      requires chunk == 0 && chunkPos == 0 && chunkCount == 0
      requires track.chunks.Some? && |track.chunks.value| > 0
               ==> ChunksOk(track.chunks.value) && SpansFit(track.chunks.value)
      modifies `chunk, `chunkPos, `chunkCount, `offset, `size
      ensures track.chunks.None? || |track.chunks.value| == 0 ==>
        ok && Chunk() == ChunkPos(1, 0, 0) && offset == old(offset) && size == old(size)
      ensures track.chunks.Some? && |track.chunks.value| > 0 ==>
        && Chunk() == ChunkFrom(track.chunks.value, 0, pos)
        && (ok <==> ChunkOffset(track, chunk).Some?)
        && (ok ==> offset == ChunkOffset(track, chunk).value && size == 0)
    {
      hide ChunkOffset, ChunkFrom, ChunksOk, SpansFit, Span, Wrap;
      if track.chunks.None? || |track.chunks.value| == 0 {
        chunk := 1;
        return true;
      }
      var chunks := track.chunks.value;
      var base: nat := 0;
      while chunkPos + 1 < |chunks|
        modifies `chunkPos
        invariant chunkPos < |chunks| && base <= pos
        invariant ChunkFrom(chunks, 0, pos) == ChunkFrom(chunks, chunkPos, pos - base)
      {
        var dpos := Wrap((chunks[chunkPos + 1].first - chunks[chunkPos].first) * chunks[chunkPos].perChunk);
        SpanStep(chunks, chunkPos, pos - base);
        if base + dpos > pos {
          break;
        }
        base := base + dpos;
        chunkPos := chunkPos + 1;
      }
      var ce := chunks[chunkPos];
      EntryOk(chunks, chunkPos);
      if ce.perChunk == 0 {
        return false;
      }
      EntryFound(chunks, chunkPos, pos - base);
      var dchunk := (pos - base) / ce.perChunk;
      chunk := ce.first + dchunk;
      chunkCount := pos - base - dchunk * ce.perChunk;
      ok := UpdateOffset();
    }

    // ----- sizes -----

    method NextSize() returns (ok: bool)
      modifies `offset, `size, `sizePos
      ensures ok == CanSize(track, old(Fields()))
      ensures ok ==> Fields() == Sized(track, old(Fields()))
    {
      offset := offset + size;
      if track.sizes.None? {
        return false;
      }
      var sizes := track.sizes.value;
      if sizes.fixed != 0 {
        size := sizes.fixed;
        return true;
      }
      sizePos := sizePos + 1;
      if sizePos >= |sizes.entries| {
        return false;
      }
      size := sizes.entries[sizePos];
      return true;
    }

    method SeekSize() returns (ok: bool)
      requires sizePos == 0
      modifies `offset, `size, `sizePos
      ensures ok <==> chunkCount <= pos && track.sizes.Some?
                      && (track.sizes.value.fixed == 0 ==> pos < |track.sizes.value.entries|)
      ensures ok ==> && offset == old(offset) + ByteSum(track.sizes.value, pos - chunkCount, pos)
                     && size == SizeOf(track.sizes.value, pos) && sizePos == SizePosAt(track, pos)
      ensures !ok ==> unchanged(this)
    {
      if chunkCount > pos || track.sizes.None? {
        return false;
      }
      var sizes := track.sizes.value;
      if sizes.fixed != 0 {
        size := sizes.fixed;
        offset := offset + size * chunkCount;
        BytesFixed(sizes, pos - chunkCount, pos);
        return true;
      }
      if pos >= |sizes.entries| {
        return false;
      }
      var p := 1;
      while p <= chunkCount
        invariant 1 <= p <= chunkCount + 1
        invariant offset == old(offset) + ByteSum(sizes, pos - (p - 1), pos)
      {
        offset := offset + sizes.entries[pos - p];
        p := p + 1;
      }
      sizePos := pos;
      size := sizes.entries[sizePos];
      return true;
    }

    // ----- composition delays -----

    method NextDelay() returns (ok: bool)
      modifies `delay, `delayPos, `delayCount
      ensures ok && Fields() == Postponed(track, old(Fields()))
    {
      if track.delays.None? {
        return true;
      }
      var delays := track.delays.value;
      if delayPos >= |delays| {
        return true;
      }
      delayCount := delayCount + 1;
      if delayCount >= delays[delayPos].count {
        delayPos := delayPos + 1;
        delayCount := 0;
      }
      if delayPos >= |delays| {
        return true;
      }
      delay := delays[delayPos].offset;
      return true;
    }

    method SeekDelay() returns (ok: bool)
      requires delayPos == 0 && delayCount == 0 && delay == 0
      requires track.delays.Some? ==> Delayed(track.delays.value, 0) < U32
      modifies `delay, `delayPos, `delayCount
      ensures ok
      ensures (track.delays.Some? ==> pos < Delayed(track.delays.value, 0)) ==> Delay() == DelayAt(track, pos)
    {
      if track.delays.None? {
        return true;
      }
      var delays := track.delays.value;
      var base: u32 := 0;
      while delayPos < |delays|
        invariant delayPos <= |delays| && base <= pos && delayCount == 0 && delay == 0
        invariant base + Delayed(delays, delayPos) == Delayed(delays, 0)
        invariant pos < Delayed(delays, 0) ==> DelayFrom(delays, 0, pos) == DelayFrom(delays, delayPos, pos - base)
        decreases |delays| - delayPos
      {
        var dpos := delays[delayPos].count;
        if Wrap(base + dpos) > pos {
          delayCount := pos - base;
          delay := delays[delayPos].offset;
          break;
        }
        delayPos := delayPos + 1;
        base := Wrap(base + dpos);
      }
      return true;
    }

    // ----- one sample on, and the jump -----

    /** The five steps in the order of the source, up to the first that fails. */
    method Steps() returns (ok: bool)
      modifies `timestamp, `lastTimestamp, `notFirst, `pos, `timePos, `timeCount, `key, `keyPos,
               `chunk, `chunkPos, `chunkCount, `offset, `size, `sizePos, `delay, `delayPos, `delayCount
      ensures ok == CanStep(track, old(Fields()), old(pos))
      ensures ok ==> Fields() == StepFields(track, old(Fields()), old(pos))
      ensures if CanTime(track, old(Fields()))
              then && pos == old(pos) + 1 && lastTimestamp == old(timestamp) && notFirst
                   && Time() == Timed(track, old(Fields())).time
              else pos == old(pos) && Time() == old(Time())
      ensures if CanTime(track, old(Fields()))
              then var s := Keyed(track, Timed(track, old(Fields())), old(pos) + 1); key == s.key && keyPos == s.keyPos
              else key == old(key) && keyPos == old(keyPos)
    {
      hide ChunkOffset, CanTime, Timed, Keyed, CanChunk, Chunked, CanSize, Sized, Postponed, Cursor.Chunk, Cursor.Delay;
      ok := NextTime();
      if ok {
        ok := NextKey();
      }
      if ok {
        ok := NextChunk();
      }
      if ok {
        ok := NextSize();
      }
      if ok {
        ok := NextDelay();
      }
    }

    /** One sample on: inside the track, from what the tables say of one sample to what they say of the next. */
    method Next() returns (ok: bool)
      modifies this
      ensures ok == valid == CanStep(track, old(Fields()), old(pos))
      ensures ok ==> pos == old(pos) + 1 && Fields() == StepFields(track, old(Fields()), old(pos))
      ensures ok ==> lastTimestamp == old(timestamp) && notFirst
      ensures old(OnSample()) && old(pos) + 1 < Count(track) ==> ok && OnSample() && pos == old(pos) + 1
      ensures forall end: nat :: old(Clocked(end)) ==> Clocked(end) && timestamp >= old(timestamp)
      ensures old(Marked()) ==> Marked()
    {
      hide SampleAt, TrackOk, TimeAt, CanStep, StepFields, EndOf, KeyAt, KeyPosAt, KeysOk, TimesOk, StepTime;
      if track.times.Some? && TimesOk(track.times.value) && timePos < |track.times.value| {
        EndStays(track.times.value, Time());
      }
      if Marked() && CanTime(track, Fields()) {
        MarkMoves(track, Timed(track, Fields()), pos);
      }
      if OnSample() && pos + 1 < Count(track) {
        StepAgrees(track, pos);
      }
      CanStepNeeds(track, Fields(), pos);
      ok := Steps();
      valid := ok;
    }

    method Clear()
      modifies this
      ensures Time() == TimePos(0, 0, 0) && Chunk() == ChunkPos(0, 0, 0) && Delay() == DelayPos(0, 0, 0)
      ensures !key && keyPos == offset == size == sizePos == 0
      ensures pos == 0 && lastTimestamp == 0 && !notFirst && !valid
    {
      ClearPlace();
      timestamp, lastTimestamp, timePos, timeCount := 0, 0, 0, 0;
      key, keyPos, pos, notFirst, valid := false, 0, 0, false, false;
    }

    method ClearPlace()
      modifies `offset, `size, `delay, `chunk, `chunkPos, `chunkCount, `delayPos, `delayCount, `sizePos
      ensures Chunk() == ChunkPos(0, 0, 0) && Delay() == DelayPos(0, 0, 0) && offset == size == sizePos == 0
    {
      offset, size, sizePos := 0, 0, 0;
      chunk, chunkPos, chunkCount := 0, 0, 0;
      delay, delayPos, delayCount := 0, 0, 0;
    }

    /** The seeks that find the sample. */
    method SeekSample(t: u32) returns (ok: bool)
      requires TrackOk(track) && Time() == TimePos(0, 0, 0) && pos == 0 && !key && keyPos == 0
      modifies `key, `keyPos, `timestamp, `lastTimestamp, `notFirst, `pos, `timePos, `timeCount
      ensures ok == Seekable(track.times.value, t)
      ensures ok ==> pos == Landing(track, t) <= Count(track) && Marked()
      ensures ok ==> (AtRunEnd(track.times.value, t) ==> pos >= 1) && Time() == Sought(track.times.value, t, pos)
      ensures ok ==>
        var end := Ticks(track.times.value, 0) + Late(track.times.value, t); end < U32 ==> Clocked(end)
    {
      hide TrackOk, Seekable, RunOf, SampleFor, Sought, KeyAt, KeyPosAt, NextSync, AtRunEnd, Samples, Ticks, TimesOk,
           KeysOk;
      SeekNeeds(track);
      ok := SeekTime(t);
      if ok {
        ok := SeekKey(t);
        TrackFacts(track);
        EndsUp(track, t, pos);
      }
    }

    /** The seeks that place the sample found in the file. */
    method SeekPlace() returns (ok: bool)
      requires TrackOk(track)
      requires Chunk() == ChunkPos(0, 0, 0) && sizePos == 0 && Delay() == DelayPos(0, 0, 0)
      modifies `chunk, `chunkPos, `chunkCount, `offset, `size, `sizePos, `delay, `delayPos, `delayCount
      ensures pos < Count(track) ==>
        ok && Fields() == SampleAt(track, pos).(time := Time(), key := key, keyPos := keyPos)
      ensures pos == Count(track) ==>
        ok == (track.sizes.value.fixed != 0 && ChunkOffset(track, ChunkFrom(track.chunks.value, 0, pos).chunk).Some?)
    {
      hide TrackOk, TimesOk, KeysOk, ChunksOk, SpansFit, ChunkFrom, ChunkOffset, Delayed, TimeAt, KeyAt, KeyPosAt,
           DelayAt, DelaysOk, ByteSum;
      SeekNeeds(track);
      PlaceOf(track, pos);
      ok := SeekChunk();
      if ok {
        ok := SeekSize();
      }
      if ok {
        ok := SeekDelay();
      }
    }

    /**
     The jump to a time. It lands when a run ends at or after the target and has a duration; the clock then ends up late
     by the delta of the run whose end the target is, if it is one, and not otherwise. With a target that is inside, it
     lands on the sync sample for the sample shown at the target.
     */
    method SeekTrack(target: u32) returns (ok: bool)
      requires TrackOk(track)
      modifies this
      ensures ok == valid && SoughtTo(target)
      ensures var t := FromRtmp(track, target);
              Lands(track, t) ==> ok && (OnSample() <==> !AtRunEnd(track.times.value, t))
      ensures var t := FromRtmp(track, target); var end := Ticks(track.times.value, 0) + Late(track.times.value, t);
              Seekable(track.times.value, t) && end < U32 ==> Clocked(end)
      ensures Inside(track, target) ==> OnTarget(track, target, pos)
      ensures target * track.timeScale < 1000 * U32 <==> InTick(track, target, FromRtmp(track, target))
    {
      hide SampleAt, TrackOk, Seekable, FromRtmp, RunOf, SampleFor, Sought, KeyAt, KeyPosAt, SizePosAt, NextSync,
           AtRunEnd, ChunkFrom, Delayed, Samples, Ticks, TimesOk, KeysOk, ChunksOk, SpansFit, DelayAt;
      hide Inside, OnTarget, InTick, EndOf, Late, Left;
      Clear();
      SeekNeeds(track);
      var t := FromRtmp(track, target);
      FromRtmpExact(track, target);
      if Inside(track, target) {
        LandsInTime(track, target);
      }
      ok := SeekSample(t);
      if ok {
        LandsOn(track, t);
        ok := SeekPlace();
      }
      if ok {
        valid := true;
      }
    }
  }

  function WrapTime(p: TimePos): TimePos {
    p.(time := Wrap(p.time))
  }

  // What each of the five steps does to the fields, and when it fails.

  predicate CanTime(t: Track, s: Sample) {
    t.times.Some? && s.time.run < |t.times.value|
  }

  function Timed(t: Track, s: Sample): Sample
    requires CanTime(t, s)
  {
    s.(time := WrapTime(StepTime(t.times.value, s.time)))
  }

  function Keyed(t: Track, s: Sample, n: nat): Sample {
    if t.keys.None? then s
    else
      var keyPos := if s.key then s.keyPos + 1 else s.keyPos;
      s.(keyPos := keyPos, key := keyPos < |t.keys.value| && t.keys.value[keyPos] == n + 1)
  }

  predicate CanChunk(t: Track, s: Sample) {
    t.chunks.Some? ==> && s.chunk.entry < |t.chunks.value|
                       && var c := StepChunk(t.chunks.value, s.chunk); c.count != 0 || ChunkOffset(t, c.chunk).Some?
  }

  function Chunked(t: Track, s: Sample): Sample
    requires CanChunk(t, s)
  {
    if t.chunks.None? then s
    else
      var c := StepChunk(t.chunks.value, s.chunk);
      if c.count == 0 then s.(chunk := c, offset := ChunkOffset(t, c.chunk).value, size := 0) else s.(chunk := c)
  }

  predicate CanSize(t: Track, s: Sample) {
    t.sizes.Some? && (t.sizes.value.fixed == 0 ==> s.sizePos + 1 < |t.sizes.value.entries|)
  }

  function Sized(t: Track, s: Sample): Sample
    requires CanSize(t, s)
  {
    var sizePos := if t.sizes.value.fixed != 0 then s.sizePos else s.sizePos + 1;
    s.(offset := s.offset + s.size, size := SizeOf(t.sizes.value, sizePos), sizePos := sizePos)
  }

  function StepDelay(t: Track, d: DelayPos): DelayPos {
    if t.delays.None? || d.run >= |t.delays.value| then d
    else if d.count + 1 < t.delays.value[d.run].count then DelayPos(d.run, d.count + 1, t.delays.value[d.run].offset)
    else DelayPos(d.run + 1, 0, if d.run + 1 < |t.delays.value| then t.delays.value[d.run + 1].offset else d.delay)
  }

  function Postponed(t: Track, s: Sample): Sample {
    s.(delay := StepDelay(t, s.delay))
  }

  /** ngx_rtmp_mp4_next succeeds at sample `n`. */
  predicate CanStep(t: Track, s: Sample, n: nat) {
    && CanTime(t, s)
    && CanChunk(t, Keyed(t, Timed(t, s), n + 1))
    && CanSize(t, Chunked(t, Keyed(t, Timed(t, s), n + 1)))
  }

  /** The fields after ngx_rtmp_mp4_next from the fields `s` at sample `n`. */
  function StepFields(t: Track, s: Sample, n: nat): Sample
    requires CanStep(t, s, n)
  {
    Postponed(t, Sized(t, Chunked(t, Keyed(t, Timed(t, s), n + 1))))
  }

  lemma CanStepNeeds(t: Track, s: Sample, n: nat)
    ensures CanStep(t, s, n) ==> CanTime(t, s)
  {
  }

  /** Stepping from what the tables say of sample `n` gives what they say of sample `n + 1`. */
  lemma StepAgrees(t: Track, n: nat)
    requires TrackOk(t) && n + 1 < Count(t)
    ensures CanStep(t, SampleAt(t, n), n) && StepFields(t, SampleAt(t, n), n) == SampleAt(t, n + 1)
  {
    hide TimeFrom, ChunkFrom, OffsetAt, KeyAt, KeyPosAt, DelayAt, StepDelay, SizeOf, SizePosAt, StepTime;
    hide Keyed, CanChunk, Chunked, CanSize, Sized;
    var s := SampleAt(t, n);
    TimeGrows(t, n);
    var timed := s.(time := TimeAt(t.times.value, n + 1));
    MarkMoves(t, timed, n);
    PlaceAgrees(t, Keyed(t, timed, n + 1), n);
    DelayAgrees(t, n);
  }

  /** The chunk step and the size step lead from the place of sample `n` to that of sample `n + 1`. */
  lemma PlaceAgrees(t: Track, s: Sample, n: nat)
    requires TrackOk(t) && n + 1 < Count(t)
    requires s.chunk == ChunkFrom(t.chunks.value, 0, n) && s.offset == OffsetAt(t, n)
    requires s.size == SizeOf(t.sizes.value, n) && s.sizePos == SizePosAt(t, n)
    ensures CanChunk(t, s) && CanSize(t, Chunked(t, s))
    ensures Sized(t, Chunked(t, s))
            == s.(chunk := ChunkFrom(t.chunks.value, 0, n + 1), offset := OffsetAt(t, n + 1),
                  size := SizeOf(t.sizes.value, n + 1), sizePos := SizePosAt(t, n + 1))
  {
    hide TimeFrom, ChunkFrom, ChunkOffset, OffsetAt, StepChunk;
    ChunkStep(t.chunks.value, 0, n);
    OffsetStep(t, n);
  }

  lemma DelayAgrees(t: Track, n: nat)
    requires t.delays.Some? ==> DelaysOk(t.delays.value, n + 2)
    ensures t.delays.Some? ==> n + 1 < Delayed(t.delays.value, 0)
    ensures DelayAt(t, n + 1) == StepDelay(t, DelayAt(t, n))
  {
    if t.delays.Some? {
      DelayStep(t.delays.value, 0, n);
    }
  }

  /** The key step follows the sync table. */
  lemma MarkMoves(t: Track, s: Sample, n: nat)
    requires s.key == KeyAt(t, n) && s.keyPos == KeyPosAt(t, n)
    requires t.keys.Some? ==> KeysOk(t.keys.value, Count(t))
    ensures Keyed(t, s, n + 1) == s.(key := KeyAt(t, n + 1), keyPos := KeyPosAt(t, n + 1))
  {
    hide KeyFrom, KeysOk;
    if t.keys.Some? {
      KeyStep(t.keys.value, n, Count(t));
    }
  }

  lemma EndsUp(t: Track, target: nat, n: nat)
    requires TrackOk(t) && Seekable(t.times.value, target)
    requires SampleFor(t.times.value, target) <= n <= Count(t)
    ensures var times := t.times.value; var end := Ticks(times, 0) + Late(times, target);
            && TimesOk(times) && (AtRunEnd(times, target) ==> n >= 1)
            && (end < U32 ==> var p := Sought(times, target, n); p.run <= |times| && EndOf(times, p) == end)
  {
    hide RunOf, SampleFor, Ticks, EndOf;
    SoughtDefined(t.times.value, target, SampleFor(t.times.value, target));
    if Ticks(t.times.value, 0) + Late(t.times.value, target) < U32 {
      SoughtEnds(t.times.value, target, n);
    }
  }

  lemma TimeGrows(t: Track, n: nat)
    requires TrackOk(t) && n < Count(t)
    ensures var p := TimeAt(t.times.value, n);
            && p.run < |t.times.value|
            && TimeAt(t.times.value, n + 1) == StepTime(t.times.value, p)
            && StepTime(t.times.value, p).time < U32
  {
    TimeStep(t.times.value, 0, 0, n);
  }

  /** The seek finds a run, and its samples have a duration. */
  predicate Seekable(times: seq<TimeEntry>, t: nat) {
    RunOf(times, t).Run? && times[RunOf(times, t).index].delta != 0
  }

  lemma TrackFacts(t: Track)
    requires TrackOk(t)
    ensures t.times.Some? && TimesOk(t.times.value) && Ticks(t.times.value, 0) < U32
    ensures t.keys.Some? ==> KeysOk(t.keys.value, Count(t))
  {
  }

  lemma SoughtDefined(times: seq<TimeEntry>, t: nat, n: nat)
    requires TimesOk(times) && Seekable(times, t) && n == SampleFor(times, t)
    ensures AtRunEnd(times, t) ==> n >= 1
  {
    EndOfRun(times, t);
  }

  lemma KeyInTrack(keys: seq<nat>, k: nat, total: nat)
    requires KeysOk(keys, total) && k < |keys|
    ensures 1 <= keys[k] <= total
  {
  }

  lemma KeySearch(keys: seq<nat>, k: nat, n: nat)
    requires k <= |keys|
    ensures KeyIndex(keys, n) == KeyFrom(keys, 0, n)
    ensures k == |keys| || keys[k] > n ==> KeyFrom(keys, k, n) == k
    ensures k < |keys| && keys[k] <= n ==> KeyFrom(keys, k, n) == KeyFrom(keys, k + 1, n)
  {
  }

  lemma KeyMissed(keys: seq<nat>, n: nat)
    ensures KeyIndex(keys, n) == |keys| ==> !IsKey(keys, n)
  {
  }

  /** The sample numbered by entry `k` is the next sync sample, and it carries the mark. */
  lemma KeyReached(keys: seq<nat>, from: nat, n: nat, k: nat, total: nat)
    requires KeysOk(keys, total) && k < |keys| && k == KeyIndex(keys, from) && from <= n == keys[k] - 1
    ensures KeyIndex(keys, n) == k && IsKey(keys, n)
  {
    KeyIndexIs(keys, n, k, total);
  }

  lemma EntryOk(chunks: seq<ChunkEntry>, k: nat)
    requires ChunksOk(chunks) && k < |chunks|
    ensures chunks[k].perChunk >= 1
  {
  }

  /** Whether the `n`-th sample from entry `k` belongs to a later entry. */
  lemma SpanStep(chunks: seq<ChunkEntry>, k: nat, n: nat)
    requires ChunksOk(chunks) && SpansFit(chunks) && k + 1 < |chunks|
    ensures var d := (chunks[k + 1].first - chunks[k].first) * chunks[k].perChunk;
            && 0 < d < U32 && d == Span(chunks, k)
            && (d <= n ==> ChunkFrom(chunks, k, n) == ChunkFrom(chunks, k + 1, n - d))
  {
    SpanPositive(chunks, k);
    assert Span(chunks, k) < U32;
  }

  lemma EntryFound(chunks: seq<ChunkEntry>, k: nat, n: nat)
    requires ChunksOk(chunks) && k < |chunks| && (k + 1 < |chunks| ==> n < Span(chunks, k))
    ensures chunks[k].perChunk >= 1
    ensures var q := n / chunks[k].perChunk;
            && q >= 0 && n - q * chunks[k].perChunk >= 0
            && ChunkFrom(chunks, k, n) == ChunkPos(chunks[k].first + q, k, n - q * chunks[k].perChunk)
  {
    var c := chunks[k].perChunk;
    DivBasics(n, c);
  }

  lemma WrapOnce(a: nat, b: nat, c: nat)
    ensures Wrap(Wrap(a + b) + c) == Wrap(a + c + b)
  {
    var q := (a + b) / U32;
    assert Wrap(a + b) + c == a + b + c - q * U32;
  }

  lemma SoughtStep(times: seq<TimeEntry>, t: nat, n: nat)
    requires TimesOk(times) && Ticks(times, 0) < U32 && Seekable(times, t)
    requires SampleFor(times, t) <= n < Samples(times, 0)
    ensures AtRunEnd(times, t) ==> n >= 1
    ensures var p, q := Sought(times, t, n), Sought(times, t, n + 1);
            && p.run < |times|
            && q == WrapTime(StepTime(times, p))
  {
    hide FindRun, TimeFrom, Samples, SampleFor, Wrap;
    EndOfRun(times, t);
    TimeStep(times, 0, 0, n);
    if AtRunEnd(times, t) {
      var r := RunOf(times, t);
      InRun(times, 0, 0, 0, t, times[r.index].count);
      TimeStep(times, 0, 0, n - 1);
      LateStep(times, TimeAt(times, n - 1), times[r.index].delta);
    } else {
      NoWrap(TimeAt(times, n + 1).time);
    }
  }

  lemma NoWrap(v: nat)
    ensures v < U32 ==> Wrap(v) == v
  {
  }

  /** A clock that is ahead by `d` stays ahead by `d`. */
  lemma LateStep(times: seq<TimeEntry>, p: TimePos, d: nat)
    requires p.run < |times|
    ensures var q := StepTime(times, p);
            WrapTime(StepTime(times, p.(time := Wrap(p.time + d)))) == q.(time := Wrap(q.time + d))
  {
    WrapOnce(p.time, d, times[p.run].delta);
  }

  lemma SeekStart(times: seq<TimeEntry>, t: nat)
    ensures RunOf(times, t) == FindRun(times, 0, 0, 0, t)
    ensures forall r :: r == RunOf(times, t) && r.Run? ==> r.index < |times|
  {
  }

  /** A product in 32 bits. */
  function Times32(a: nat, b: nat): u32 {
    Wrap(a * b)
  }

  lemma SeekStep(times: seq<TimeEntry>, k: nat, start: nat, n: nat, t: nat)
    requires k < |times| && start <= t && start + Ticks(times, k) < U32
    ensures var dt := Times32(times[k].delta, times[k].count);
            && start + dt < U32
            && (if start + dt >= t then FindRun(times, k, start, n, t) == Run(k, start, n)
                else start + dt + Ticks(times, k + 1) < U32
                     && FindRun(times, k, start, n, t)
                        == FindRun(times, k + 1, start + dt, n + times[k].count, t))
  {
    hide FindRun, Ticks;
    TicksUnfold(times, k);
    FindRunUnfold(times, k, start, n, t);
  }

  /** The ticks of a run, as the seek computes them. */
  lemma TicksUnfold(times: seq<TimeEntry>, k: nat)
    requires k < |times| && Ticks(times, k) < U32
    ensures var dt := Times32(times[k].delta, times[k].count);
            dt == times[k].count * times[k].delta && Ticks(times, k) == dt + Ticks(times, k + 1)
  {
    MulCommutes(times[k].delta, times[k].count);
    NoWrap(times[k].delta * times[k].count);
  }

  lemma MulCommutes(a: nat, b: nat)
    ensures a * b == b * a >= 0
  {
  }

  /** The time fields right after the jump. */
  lemma SoughtStart(times: seq<TimeEntry>, t: u32)
    requires TimesOk(times) && RunOf(times, t).Run? && times[RunOf(times, t).index].delta != 0
    ensures var r := RunOf(times, t); var d := times[r.index].delta; var q := (t - r.start) / d;
            && q >= 0 && r.start + Times32(d, q) <= t
            && SampleFor(times, t) <= Samples(times, 0)
            && (AtRunEnd(times, t) ==> SampleFor(times, t) >= 1)
            && SampleFor(times, t) == r.first + q
            && Sought(times, t, SampleFor(times, t)) == TimePos(r.start + Times32(d, q), r.index, q)
  {
    hide FindRun, TimeFrom, Samples;
    var r := RunOf(times, t);
    var e := times[r.index];
    var q := (t - r.start) / e.delta;
    DivBasics(t - r.start, e.delta);
    MulCommutes(e.delta, q);
    NoWrap(e.delta * q);
    EndOfRun(times, t);
    InRun(times, 0, 0, 0, t, q);
  }

  // ----- where a jump lands, in time -----

  /** Time `ms` is in sample `n`, from its start up to the start of the next. */
  ghost predicate ShownAt(t: Track, n: nat, ms: nat) {
    && t.times.Some? && n < Count(t)
    && 1000 * TimeAt(t.times.value, n).time <= ms * t.timeScale < 1000 * TimeAt(t.times.value, n + 1).time
  }

  /** Sample `m` is the first sync sample from sample `n` on, or `n` itself if none follows. */
  ghost predicate SyncFrom(t: Track, n: nat, m: nat) {
    && n <= m && (m == n || (t.keys.Some? && m + 1 in t.keys.value))
    && (t.keys.Some? ==> forall s :: s in t.keys.value && s > n ==> s > m)
  }

  /** Sample `m` is the sync sample for the sample shown at `ms`. */
  ghost predicate OnTarget(t: Track, ms: nat, m: nat) {
    exists n :: ShownAt(t, n, ms) && SyncFrom(t, n, m)
  }

  /** Time `ms` in ticks fits 32 bits, is in the track, and is not the end of a run. */
  predicate Inside(t: Track, ms: u32) {
    var ticks := FromRtmp(t, ms);
    && ms * t.timeScale < 1000 * U32
    && t.times.Some? && Seekable(t.times.value, ticks) && !AtRunEnd(t.times.value, ticks)
  }

  /** The jump lands on the sync sample for the sample that is shown at the target. */
  lemma LandsInTime(t: Track, ms: u32)
    requires TrackOk(t) && Inside(t, ms)
    ensures Seekable(t.times.value, FromRtmp(t, ms))
    ensures OnTarget(t, ms, Landing(t, FromRtmp(t, ms)))
  {
    hide FindRun, TimeFrom, Samples, ToRtmp, FromRtmp, AtRunEnd, KeyFrom;
    var times, ticks := t.times.value, FromRtmp(t, ms);
    FromRtmpExact(t, ms);
    SampleForIs(times, ticks);
    var n := SampleFor(times, ticks);
    if t.keys.Some? {
      NextSyncIsNearest(t, n);
      var k := KeyIndex(t.keys.value, n);
      assert k < |t.keys.value| ==> t.keys.value[k] in t.keys.value;
    }
    assert ShownAt(t, n, ms) && SyncFrom(t, n, Landing(t, ticks));
  }

  // ----- the jump and the steps agree -----

  /** The sample that a seek to `t` lands on. */
  function Landing(t: Track, target: nat): nat
    requires t.times.Some? && Seekable(t.times.value, target)
  {
    NextSync(t, SampleFor(t.times.value, target))
  }

  /** The target is inside the track, not its very end. */
  predicate Lands(t: Track, target: nat) {
    t.times.Some? && Seekable(t.times.value, target) && Landing(t, target) < Count(t)
  }

  ghost function Landed(t: Track, target: nat): Sample
    requires TrackOk(t) && Lands(t, target)
  {
    SoughtDefined(t.times.value, target, SampleFor(t.times.value, target));
    SampleAt(t, Landing(t, target)).(time := Sought(t.times.value, target, Landing(t, target)))
  }

  lemma SeekNeeds(t: Track)
    requires TrackOk(t)
    ensures t.times.Some? && TimesOk(t.times.value) && Ticks(t.times.value, 0) < U32
    ensures t.chunks.Some? && |t.chunks.value| > 0 && ChunksOk(t.chunks.value) && SpansFit(t.chunks.value)
    ensures t.sizes.Some? && (t.sizes.value.fixed == 0 ==> |t.sizes.value.entries| == Count(t))
    ensures t.delays.Some? ==> Delayed(t.delays.value, 0) < U32
    ensures AtRunEnd(t.times.value, 0) ==> RunOf(t.times.value, 0).Run?
  {
  }

  lemma PlaceOf(t: Track, n: nat)
    requires TrackOk(t)
    ensures n < Count(t) ==>
      var c := ChunkFrom(t.chunks.value, 0, n);
      && ChunkOffset(t, c.chunk).Some? && c.count <= n
      && (t.sizes.value.fixed == 0 ==> n < |t.sizes.value.entries|)
      && OffsetAt(t, n) == ChunkOffset(t, c.chunk).value + ByteSum(t.sizes.value, n - c.count, n)
      && (t.delays.Some? ==> n < Delayed(t.delays.value, 0))
  {
    hide ChunkFrom, ChunkOffset, ByteSum, Delayed;
  }

  lemma LandsOn(t: Track, target: nat)
    requires TrackOk(t) && Seekable(t.times.value, target)
    ensures Lands(t, target) ==>
      var n := Landing(t, target);
      && SampleFor(t.times.value, target) <= n
      && SampleAt(t, n).time == TimeAt(t.times.value, n)
      && SampleAt(t, n).key == KeyAt(t, n) && SampleAt(t, n).keyPos == KeyPosAt(t, n)
      && (AtRunEnd(t.times.value, target) ==> n >= 1)
      && (Sought(t.times.value, target, n) == TimeAt(t.times.value, n) <==> !AtRunEnd(t.times.value, target))
  {
    hide TimeFrom, ChunkFrom, DelayFrom, KeyFrom, ChunkOffset, RunOf, AtRunEnd, ByteSum;
    if Lands(t, target) {
      SoughtExact(t.times.value, target, Landing(t, target));
    }
  }

  /** The fields after `k` steps from the fields `s` at sample `n`. */
  function Stepped(t: Track, s: Sample, n: nat, k: nat): Option<Sample>
    decreases k
  {
    if k == 0 then Some(s)
    else if !CanStep(t, s, n) then None
    else Stepped(t, StepFields(t, s, n), n + 1, k - 1)
  }

  lemma {:induction false} StepsReach(t: Track, n: nat, k: nat)
    requires TrackOk(t) && n + k < Count(t)
    ensures Stepped(t, SampleAt(t, n), n, k) == Some(SampleAt(t, n + k))
    decreases k
  {
    hide SampleAt, StepFields, CanStep, TrackOk;
    if k > 0 {
      StepAgrees(t, n);
      StepsReach(t, n + 1, k - 1);
    }
  }

  /**
   Seek refines stepping: stepping sample by sample from where a seek to 0 lands reaches exactly the fields of a seek
   to the target, if and only if the target is not the end of a run.
   */
  lemma SeekIsStepping(t: Track, target: nat)
    requires TrackOk(t) && Lands(t, 0) && Lands(t, target)
    ensures Landing(t, 0) <= Landing(t, target)
    ensures Stepped(t, Landed(t, 0), Landing(t, 0), Landing(t, target) - Landing(t, 0)) == Some(Landed(t, target))
            <==> !AtRunEnd(t.times.value, target)
  {
    hide SampleAt, StepFields, CanStep, TimeFrom, Sought, KeyFrom, Samples, Ticks, Stepped;
    ZeroIsFirst(t.times.value);
    LandsOn(t, 0);
    LandsOn(t, target);
    NextSyncMonotone(t, SampleFor(t.times.value, target));
    StepsReach(t, Landing(t, 0), Landing(t, target) - Landing(t, 0));
  }

  lemma ZeroIsFirst(times: seq<TimeEntry>)
    requires TimesOk(times) && Seekable(times, 0)
    ensures SampleFor(times, 0) == 0 && !AtRunEnd(times, 0)
  {
    var r := RunOf(times, 0);
    DivIs(0, times[r.index].delta, 0, 0);
    MulLe(1, times[r.index].count, times[r.index].delta);
  }

  lemma NextSyncMonotone(t: Track, n: nat)
    requires TrackOk(t)
    ensures NextSync(t, 0) <= NextSync(t, n)
  {
    if t.keys.Some? && |t.keys.value| > 0 {
      var k := KeyIndex(t.keys.value, n);
      Rises(t.keys.value, 0, if k < |t.keys.value| then k else k - 1, Count(t));
    }
  }

  /** Two samples of 10 ticks, then two of 20: after a seek to 20 the next step gives 30 where the table says 40. */
  lemma RunEndExample()
    ensures var times := [TimeEntry(2, 10), TimeEntry(2, 20)];
            && AtRunEnd(times, 20) && SampleFor(times, 20) == 2
            && Sought(times, 20, 2) == TimePos(20, 0, 2) && TimeAt(times, 2) == TimePos(20, 1, 0)
            && Sought(times, 20, 3).time == 30 && TimeAt(times, 3).time == 40
  {
    var times := [TimeEntry(2, 10), TimeEntry(2, 20)];
    assert Samples(times, 2) == 0 && Samples(times, 1) == 2 && Samples(times, 0) == 4;
    assert RunOf(times, 20) == Run(0, 0, 0);
    assert TimeAt(times, 2) == TimeFrom(times, 1, 20, 0);
    assert TimeAt(times, 3) == TimeFrom(times, 1, 20, 1);
  }

  /**
   At the last sample the step fails, except when all samples have one size and the chunk entries still promise another
   sample: then the cursor goes past the end of the track.
   */
  lemma LastStep(t: Track)
    requires TrackOk(t) && Count(t) > 0
    ensures var n := Count(t) - 1; var c := StepChunk(t.chunks.value, ChunkFrom(t.chunks.value, 0, n));
            CanStep(t, SampleAt(t, n), n) <==>
              t.sizes.value.fixed != 0 && (c.count != 0 || ChunkOffset(t, c.chunk).Some?)
  {
    hide ChunkFrom, OffsetAt, TimeFrom, DelayFrom, KeyFrom;
    TimeGrows(t, Count(t) - 1);
  }

  /** One sample of 10 ticks and 5 bytes in a chunk that is to hold two: the cursor steps to a second one. */
  lemma LastStepExample()
    ensures var t := Track(1, Some([TimeEntry(1, 10)]), None, None, Some([ChunkEntry(1, 2)]), Some(Sizes(5, [])),
                           Some([100]), None);
            TrackOk(t) && Count(t) == 1 && CanStep(t, SampleAt(t, 0), 0)
  {
    var t := Track(1, Some([TimeEntry(1, 10)]), None, None, Some([ChunkEntry(1, 2)]), Some(Sizes(5, [])), Some([100]),
                   None);
    assert Samples(t.times.value, 1) == 0 && Samples(t.times.value, 0) == 1;
    assert Ticks(t.times.value, 1) == 0 && Ticks(t.times.value, 0) == 10;
    assert ChunkFrom(t.chunks.value, 0, 0) == ChunkPos(1, 0, 0);
    LastStep(t);
  }

  /**
   Wherever a cursor stands, past the end of a run too, its key mark is set exactly when the sync table lists its
   sample.
   */
  lemma MarkExact(c: Cursor)
    requires c.Marked() && c.track.keys.Some?
    ensures c.key <==> c.pos + 1 in c.track.keys.value
  {
    KeyExact(c.track.keys.value, c.pos, Count(c.track));
  }
}
