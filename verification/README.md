# A verified model of an RTMP server's core

The repository is an RTMP media server module for nginx, written as in-place state machines over buffer chains. This
project models its hard parts and proves what they are for.

| part | files | main results |
|---|---|---|
| chunk layer, wire format | ChunkFormat, ChunkLayout, ChunkRoundTrip | printer and parser undo each other over any interleaving of chunk streams; parsing does not depend on where reads break |
| chunk layer, receiver | Pointers, BufferArena, ReceiverState, ChunkReceiver | the read loop over circular buffer chains computes the pure parser; every input buffer is in one place; reads always have room |
| output path | SharedStore, OutputQueue, OutputSession, OutputWorld, OutputPath | reference counts are conserved over all sessions; each peer gets the accepted messages in order across partial writes; a write event stops only blocked or drained |
| both ends together | ChunkExchange | what a session accepts is, message by message, what its peer is delivered, whatever is written and read at a time |
| MP4 cursor | Mp4Tables, Mp4Cursor, Mp4Player | seeking by jumps equals stepping by samples, exactly when the target is not the end of a run; every timestamp is the millisecond of its tick, and playout is in time order after any seek |
| live fan-out | LiveChunk, LiveState, LiveApp | what starts a subscriber and that nothing is passed over after that; bounded drift of every subscriber; the registry is a map of names; one publisher at most |
| AMF0 | AmfFormat, AmfRoundTrip, AmfChain, AmfExchange, AmfSkip, AmfCrash | schema-driven reading undoes writing; both work on any buffer sizes as on a flat string; exactly which inputs run into a null pointer |
| containers | AggregateFormat, Aggregate, FlvFormat, FlvRecorder, FlvPlayer, FlvExchange, DashWindow | aggregates split exactly; any number of sessions append in order, and what was recorded is what is played; the DASH window lists the latest fragments |
| small machines | Bytes, Arithmetic, Wrappers, BitReader, HandshakeDigest, Handshake, HandshakeRun | Exp-Golomb codes invert; the two-party handshake always finishes |

Each method that the source writes as a loop over mutable state is a method of a class here, proved against a pure
specification function; what the source promises is then proved of that function. Integers are unbounded in the model
and every 32-bit or 64-bit wrap-around is written out. `dafny verify dfyconfig.toml` checks everything.

## Where the code differs from what one would expect

- `ngx_rtmp_mp4_module.c:1376` compares with `>=`, so a seek to exactly the end of an stts run leaves the cursor past the
  last sample of a run that it has not left, and the clock is off by one delta from there on when the deltas differ.
  `Mp4Cursor.SeekIsStepping` holds exactly outside this case, and `Mp4Cursor.RunEndExample` is a concrete table. Playout
  after such a seek is still in order (`Mp4Player.Player.Seek`, `Mp4Player.Player.Send`).
- Milliseconds converted to ticks and back are early by the lost part of a tick rounded up, which can be more than a tick
  (`Mp4Tables.ThereAndBack`, `Mp4Tables.BackExample`).
- With samples of one fixed size, `next_size` never fails, so the cursor can step past the last sample while the chunk
  table has room (`Mp4Cursor.LastStep`, `Mp4Cursor.LastStepExample`).
- `ngx_rtmp_handler.c:715` counts the queue with a wrapping subtraction, which is right for every pair of positions
  exactly when the queue size divides 2^64 (`OutputQueue.OccupiedExact`, `OutputQueue.QueueOfThree`).
- A link without bytes in a queued chain would stall its session, because a write of nothing looks like a socket that
  takes nothing (`OutputPath.Output.WriteEvent`); a headed chain contains none (`OutputPath.Output.PrepareMessage`).
- A message that started with format 3 would be given the old delta again (`ChunkRoundTrip.FormatThreeStart`,
  `ChunkRoundTrip.FormatThreeExample`); callers in the core never make one, because the header they pass has length 0.
- `ngx_rtmp_amf.c:331` looks at the flags of an element without asking whether there is one: the null pointer is read
  exactly at an input that ends where the value of an unknown key, or of an item beyond the elements, should start
  (`AmfCrash.CrashExact`, `AmfCrash.UnknownKeyExample`, `AmfCrash.ShortArrayExample`).
- A frame of an MP4 file that is passed over is not made up for in the next message's delta, so the client's clock stays
  behind by it (`Mp4Player.Player.SendFrame`).
- An element that is read without a type and has another flag too is refused, because the flag stays in its type
  (`AmfChain.Reader.ReadOne`).
- With `wait_video`, an empty audio message after an absolute frame takes the client's clock off the server's
  (`LiveChunk.SendFrame`, `LiveChunk.AstrayExample`).
- A tag that the session refuses is passed over for good, because the place in the file moves on first
  (`FlvPlayer.Player.Send`).
- The last body of an aggregate must be followed by at least one byte, and stream ids are read as three bytes
  (`AggregateFormat.SplitsAll`, `Aggregate.Handler.Limit`).

## Model

| member | source | states |
|---|---|---|
| `ChunkRoundTrip.RoundTrip` | ngx_rtmp_handler.c:192-486 | The round trip: for any set of chunk streams, cut and headed by the sender and interleaved chunk by chunk in any order that keeps each stream's own, the receiver's parser reads the whole wire, delivers exactly the completed messages in the order of their last chunks (type, stream id, length, absolute timestamp modulo 2^32, payload), and ends in step with every sender |
| `ChunkRoundTrip.EachStreamInOrder` | ngx_rtmp_handler.c:565-706 | On each chunk stream, what is delivered followed by what is still to be sent is the scripted list of messages, whatever the interleaving |
| `ChunkRoundTrip.FreshRoundTrip` | ngx_rtmp_handler.c:192-486 | A fresh sender and a fresh receiver: once every chunk is sent, each chunk stream has delivered its whole script in order and no byte is left over |
| `ChunkRoundTrip.ChunkStep` | ngx_rtmp_handler.c:299-484 | Reading the next chunk of a stream, whatever follows it, moves the receiver's record exactly as sending it moved the sender, and delivers the message when and only when this was its last chunk |
| `ChunkRoundTrip.FirstHeaderFields` | ngx_rtmp_handler.c:643-699 | Every field of a first header (basic header of one to three bytes, time, length, type, stream id, extended time) is found by the reader where it looks for it, with the value the sender meant |
| `ChunkRoundTrip.NextHeaderRead` | ngx_rtmp_handler.c:656-705 | A later header of a message, with or without the repeated extended timestamp, changes nothing in the receiver's record |
| `ChunkRoundTrip.NextChunkIsFirst` | ngx_rtmp_handler.c:701-705 | The chunks of the interleaving model are those of the sender's layout: a stream's chunk list is its next chunk followed by the list after it |
| `ChunkRoundTrip.FormatThreeStart` | ngx_rtmp_handler.c:353-420 | A message that starts with format 3 is read with its own timestamp if and only if the receiver has no delta and no extended timestamp pending; otherwise the old delta is applied again |
| `ChunkRoundTrip.FormatThreeExample` | ngx_rtmp_handler.c:353-420 | A message at the time of the one before, which came 5 after its own: it is taken to be 5 later |
| `ChunkFormat.RunSplit` | ngx_rtmp_handler.c:219-485 | Read-boundary independence of the parser: parsing a byte string in two parts gives the messages, the records and the unread rest of parsing it whole, so no byte is lost or read twice |
| `ChunkFormat.ParseChunkStable` | ngx_rtmp_handler.c:299-443 | A verdict on a chunk other than 'more bytes needed' is not changed by the bytes that follow |
| `ChunkFormat.RunStops` | ngx_rtmp_handler.c:439-443 | What the parser leaves unread does not hold a whole chunk |
| `ChunkFormat.RunBad` | ngx_rtmp_handler.c:324-436 | A chunk stream id or a message length over the limit ends the session, and whatever follows is ignored |
| `ChunkFormat.BadExact` | ngx_rtmp_handler.c:325-437 | The session ends exactly at a chunk stream id beyond the last, or at a whole header of a message whose length, read from it or given before, is above the limit |
| `ChunkFormat.MessagesFit` | ngx_rtmp_handler.c:431-437 | Whatever the bytes, no message longer than the limit is delivered |
| `ChunkLayout.HeadedIsChunks` | ngx_rtmp_handler.c:701-705 | Heading the pieces of a cut payload gives the message's chunks, each one covering the next full piece |
| `ChunkLayout.LeavesOut` | ngx_rtmp_handler.c:594-610 | What the first header leaves out: the stream id exactly behind a message of the same message stream, type and length if they are that message's too and there is a payload, and the time if it is as well |
| `ChunkLayout.CutFlatten` | ngx_rtmp_shared.c:78-126 | The pieces of a cut payload are the payload, no byte lost, added or moved |
| `ChunkLayout.CutGrows` | ngx_rtmp_shared.c:97-121 | Filling the last piece, and starting a new one only when it is full, cuts the longer payload: the incremental cut equals the cut of the whole |
| `ChunkReceiver.Receiver.Recv` | ngx_rtmp_handler.c:192-486 | Whatever the sizes of the reads: over the whole session the messages delivered, the records and the bytes kept are those of the pure parser run on all bytes received; the session closes exactly when the parser says so |
| `ChunkExchange.Publish` | ngx_rtmp_flv_module.c:506-511 | Sender's half of the composed path: a message put into shared buffers, headed, queued and let go; when accepted the session is to send exactly its chunks behind all it had accepted before, the makers' references are as before, and when refused nothing changes for any session; with a chunk stream id that is too big the bare payload goes out, because the callers do not ask |
| `ChunkExchange.Receive` | ngx_rtmp_handler.c:192-562 | Both halves composed: the peer of a session, reading in pieces of any size what the session's socket took, is delivered a first part of the messages the session accepted, in order, and all of them once the session has nothing left to send |
| `ChunkExchange.ReceiveWire` | ngx_rtmp_handler.c:192-486 | The imperative receiver on any interleaving of chunk streams, read in pieces of any size: each chunk stream delivers its whole script in order |
| `ChunkExchange.SequelRead` | ngx_rtmp_handler.c:565-706 | Messages sent one after the other on any chunk streams are parsed to exactly these messages in this order, nothing left over |
| `ChunkExchange.SequelAppend` | ngx_rtmp_handler.c:709-733 | A message that can follow the ones accepted adds its chunks behind their bytes, so successive sends compose |
| `ChunkReceiver.Receiver.ReadAll` | ngx_rtmp_handler.c:219-485 | The read loop terminates with the socket dry, having delivered what the parser makes of the bytes kept and all bytes read |
| `ChunkReceiver.Receiver.Turn` | ngx_rtmp_handler.c:219-485 | One turn of the loop: what the parser makes of the bytes ahead is what this turn delivers followed by what it makes of the bytes still ahead, and a measure on unread and kept bytes decreases |
| `ChunkReceiver.Receiver.Refill` | ngx_rtmp_handler.c:238-272 | Bytes carried over from the last chunk are used first; otherwise the socket is read, with room to read into, and nothing is lost |
| `ChunkReceiver.Receiver.Reuse` | ngx_rtmp_handler.c:238-245 | Bytes read past a chunk are moved to a free buffer, or down in their own, and are the start of the next chunk |
| `ChunkReceiver.Receiver.EnsureBuf` | ngx_rtmp_handler.c:221-236 | The current stream always has a buffer afterwards: its own, a used one from stream 0, or a new one; no other buffer changes |
| `ChunkReceiver.Receiver.LinkOrphan` | ngx_rtmp_handler.c:333-351 | Moving the buffer being filled from stream 0 to the ring of the stream its header names keeps every chain in order and every byte in place |
| `ChunkReceiver.Receiver.ParseHeader` | ngx_rtmp_handler.c:299-436 | Parsing at the start of a buffer: failure exactly when the parser says the chunk is bad, waiting only when the parser says more is needed; the fields stored by a half-received header do not change what the parser makes of the whole one |
| `ChunkReceiver.Receiver.ReadFields` | ngx_rtmp_handler.c:353-406 | The header fields stored so far agree with the parser's, also when the header breaks off in the middle and is read again later |
| `ChunkReceiver.Receiver.TakeChunk` | ngx_rtmp_handler.c:439-484 | A chunk is ended if and only if the parser finds a whole one; its message, if it completes one, is delivered and the bytes behind it are still there |
| `ChunkReceiver.Receiver.Deliver` | ngx_rtmp_handler.c:454-484 | The message handed on is read from the stream's ring cut open at its last link, and has exactly the bytes of all its chunks; afterwards the ring is on the free chain |
| `ChunkReceiver.Collect` | ngx_rtmp_handler.c:455-462 | What a handler reads by walking the null-terminated chain is the content of the ring in arrival order |
| `BufferArena.OrphanOk` | ngx_rtmp_handler.c:333-349 | The relinking writes keep the partition of all input buffers into the free chain and the rings: the moved buffer is last on its ring, and no other chain changes |
| `BufferArena.PopAndPush` | ngx_rtmp_handler.c:333-349 | Popping the free chain and pushing to a circular one, link by link, gives a null-terminated chain one shorter and a ring one longer |
| `BufferArena.ReleaseOk` | ngx_rtmp_handler.c:475-482 | Putting a whole ring before the free chain keeps every buffer in exactly one place |
| `BufferArena.OpenRing` | ngx_rtmp_handler.c:456-458 | A ring cut at its last link is a null-terminated chain with the same bytes |
| `BufferArena.LinkOrphanOk` | ngx_rtmp_handler.c:333-349 | The ownership invariant (every buffer in exactly one chain, once) survives the move between chains |
| `ReceiverState.View.Room` | ngx_rtmp_handler.c:219-272 | A buffer of chunk size plus 18 is never full while its chunk is unfinished, so the socket is never read with no room |
| `ReceiverState.View.HeaderStored` | ngx_rtmp_handler.c:396-437 | Storing a complete header makes the record, with the payload in the ring, the parser's record |
| `ReceiverState.View.FragmentedGood` | ngx_rtmp_handler.c:447-453 | After a chunk that does not end its message, the state again stands for the parser's state |
| `ReceiverState.View.FinalizedGood` | ngx_rtmp_handler.c:454-484 | After the last chunk of a message, the state again stands for the parser's state, and the opened chain held the whole payload |
| `OutputPath.Output.WriteEvent` | ngx_rtmp_handler.c:489-562 | The bytes a socket has taken plus the rest of the current link, of its chain and of the queued chains are always the accepted messages in order; a write event sends exactly the bytes the peer took; it stops when the socket takes no more, or at a link without bytes, and drains the queue only if no link ahead is without bytes; so with a socket that takes everything it drains if and only if no link ahead is empty, and otherwise it stands at the empty link |
| `OutputPath.Output.SendMessage` | ngx_rtmp_handler.c:709-733 | With n messages queued, priority 0 is refused exactly when one slot is left, and priority p of 1 to 3, larger ones counting as 3, is accepted exactly when n + 1 + p * queue / 4 is less than the queue; an accepted message goes behind the others with one more reference and its bytes behind the accepted ones, and the queue is without empty links ahead exactly if it was and the message has none; otherwise nothing at all changes |
| `OutputQueue.AcceptsExact` | ngx_rtmp_handler.c:715-728 | What each priority needs free, in quarters of the queue, for every pair of ring positions |
| `OutputQueue.AcceptsSmaller` | ngx_rtmp_handler.c:717-728 | What is accepted at one priority is accepted at every smaller number, the more important ones |
| `OutputPath.Output.FreeSharedChain` | ngx_rtmp_shared.c:60-75 | One reference less; with the last one, and not before, the whole chain goes to the front of the free list |
| `OutputPath.Output.AllocSharedBuf` | ngx_rtmp_shared.c:12-57 | A link from the free list, or a new one, becomes a chain of its own with one reference, with headroom for a header; every live chain keeps its links and bytes |
| `OutputPath.Output.AppendSharedBufs` | ngx_rtmp_shared.c:78-126 | The chain holds the old payload followed by the input, cut at the chunk size; the one exception, an empty last link, arises exactly when nothing is appended to a chain whose last link is full |
| `OutputPath.Output.FillLink` | ngx_rtmp_shared.c:97-121 | One filling of the last link takes the next bytes of the input in order, across input buffers, and leaves the chain a cut of what was taken |
| `OutputPath.Output.PrepareMessage` | ngx_rtmp_handler.c:565-706 | The links of a cut payload, headed in place by growing each buffer down into its headroom, are exactly the message's chunks in the sense of the round trip, and none is without bytes; refused exactly for a chunk stream id that is too big |
| `OutputPath.FormatHeaders` | ngx_rtmp_handler.c:590-699 | The headers built field by field are those the round trip reads back, for every combination of formats, id sizes and extended time |
| `OutputPath.Output.MessageSize` | ngx_rtmp_handler.c:590-596 | Walking the chain counts the bytes it holds |
| `OutputPath.Output.HeadRest` | ngx_rtmp_handler.c:701-705 | Every link after the first gets the short header, and no link is skipped or headed twice |
| `OutputPath.Output.CloseSession` | ngx_rtmp_init.c:301-304 | Closing lets every queued message go and no other reference; the session has then been sent exactly what it had taken, and for every other session the queue, the bytes taken and the messages accepted are unchanged |
| `OutputPath.Output.Release` | ngx_rtmp_shared.c:60-75 | The maker of a chain lets go of it while sessions may still hold it: their output is unchanged |
| `OutputQueue.OccupiedExact` | ngx_rtmp_handler.c:715 | The wrapping subtraction counts the queued messages for every pair of positions if and only if the queue size divides 2^64, that is, for powers of two |
| `OutputQueue.QueueOfThree` | ngx_rtmp_handler.c:715 | A queue of three slots: one message across the wrap is counted as two |
| `OutputQueue.Push` | ngx_rtmp_handler.c:715-731 | An accepted message goes last in the ring and leaves it short of full by its priority's share, so full never looks empty |
| `OutputQueue.Pop` | ngx_rtmp_handler.c:545-551 | Taking the oldest message leaves the others in order, and the positions meet exactly when none is left |
| `OutputWorld.World.SentOk` | ngx_rtmp_handler.c:709-731 | Queueing keeps the conservation law: every head's count is its makers' references plus the queue slots of all sessions that hold it |
| `OutputWorld.World.PoppedOk` | ngx_rtmp_handler.c:541-554 | Dropping a finished message's reference keeps the conservation law and every other session's bytes |
| `OutputWorld.World.LinkEnds` | ngx_rtmp_handler.c:540-555 | At the end of a link: the next link, or the next message, carries on with the bytes exactly where they broke off |
| `OutputWorld.World.Abandon` | ngx_rtmp_init.c:301-304 | A session that closes in the middle of a message still holds that message's reference, which is then released with the rest |
| `OutputWorld.World.Drained` | ngx_rtmp_handler.c:489-562 | A session with nothing queued has been sent all it accepted |
| `SharedStore.Store.AllocatedOk` | ngx_rtmp_shared.c:12-57 | Every link is on exactly one live chain or on the free list, once, after an allocation too |
| `SharedStore.Store.FreedOk` | ngx_rtmp_shared.c:60-75 | Splicing a chain before the free list keeps every link in exactly one place and every other chain's links and bytes |
| `SharedStore.Store.ExtendedOk` | ngx_rtmp_shared.c:91-105 | Adding a link to a chain keeps the placement and the counts, and adds its bytes at the end |
| `SharedStore.Store.WrittenOk` | ngx_rtmp_shared.c:107-119 | Writing into a link's buffer changes no chain's links, no count, and no bytes of any other chain |
| `Mp4Cursor.SeekIsStepping` | ngx_rtmp_mp4_module.c:1929-1943 | Seek refines stepping: stepping sample by sample from where a seek to 0 lands reaches exactly the fields of a seek to the target (time, key mark, chunk, offset, size, delay and all table positions), if and only if the target is not the end of an stts run |
| `Mp4Cursor.Cursor.SeekTrack` | ngx_rtmp_mp4_module.c:2065-2086 | The ticks asked for are those into which the target falls, exactly as long as they fit 32 bits; with a target inside the track the jump lands on the first sync sample from the sample on whose time the target is in, with every field that the tables give for it, except that a target on the end of a run leaves the clock late by that run's delta, now and at the end of the walk; past the last sample the clock and the key mark are those of the place, and the cursor claims to be valid only with fixed sizes and a chunk table that goes on |
| `Mp4Cursor.LandsInTime` | ngx_rtmp_mp4_module.c:1357-1415 | Milliseconds to ticks, the division in the run and the search for the sync sample, put together: in milliseconds, the target is between the start of the sample sought and the start of the next one, and the landing is the nearest sync sample from it on |
| `Mp4Cursor.Cursor.Next` | ngx_rtmp_mp4_module.c:1928-1943 | Inside the track, a step goes from what the tables say of one sample to what they say of the next; it succeeds exactly when all the tables allow it; from wherever the clock is, the end of a run included, it never goes back and ends up at the same time, and an exact key mark stays exact |
| `Mp4Cursor.Cursor.NextTime` | ngx_rtmp_mp4_module.c:1309-1354 | The clock fields after a step, and failure exactly past the last run |
| `Mp4Cursor.Cursor.SeekTime` | ngx_rtmp_mp4_module.c:1357-1415 | The jump through the runs stops at the first run that ends at or after the target and counts to the last sample that starts by then; it fails for a run without duration |
| `Mp4Cursor.Cursor.SeekKey` | ngx_rtmp_mp4_module.c:1772-1823 | The jump goes on to the nearest sync sample, and the time fields have moved with it |
| `Mp4Cursor.Cursor.NextChunk` | ngx_rtmp_mp4_module.c:1483-1541 | The chunk fields after a step, with the offset reread exactly at the start of a chunk |
| `Mp4Cursor.Cursor.SeekChunk` | ngx_rtmp_mp4_module.c:1544-1597 | The chunk, the entry and the sample's number in the chunk found by division are those found by counting through the entries |
| `Mp4Cursor.Cursor.SeekSize` | ngx_rtmp_mp4_module.c:1661-1728 | The offset has moved by the sizes of the samples before it in its chunk, for fixed and listed sizes |
| `Mp4Cursor.Cursor.SeekDelay` | ngx_rtmp_mp4_module.c:1878-1925 | The delay of the sample found by run lengths |
| `Mp4Cursor.StepAgrees` | ngx_rtmp_mp4_module.c:1928-1943 | The five steps together take everything the tables say of sample n to everything they say of sample n + 1 |
| `Mp4Cursor.StepsReach` | ngx_rtmp_mp4_module.c:1928-1943 | Any number of steps inside the track arrives at the sample that many places on, with all its fields |
| `Mp4Cursor.SoughtStep` | ngx_rtmp_mp4_module.c:1357-1415 | The clock after a seek to the end of a run stays one step off for the whole walk that follows |
| `Mp4Cursor.RunEndExample` | ngx_rtmp_mp4_module.c:1376 | A concrete table where a seek to the end of a run makes the next sample's time 30 where the table says 40 |
| `Mp4Cursor.LastStep` | ngx_rtmp_mp4_module.c:1600-1657 | At the last sample the step fails, unless all samples have one size and the chunk tables promise another sample: then, and only then, the cursor goes past the end of the track |
| `Mp4Cursor.LastStepExample` | ngx_rtmp_mp4_module.c:1600-1657 | One sample of fixed size whose chunk has room for two: the step past it succeeds |
| `Mp4Cursor.MarkExact` | ngx_rtmp_mp4_module.c:1731-1768 | Wherever a cursor stands, after a seek to the end of a run too, its key mark is set if and only if the sync table lists its sample's number (every sample without a table); what it needs is left by every seek and kept by every step |
| `Mp4Tables.SoughtExact` | ngx_rtmp_mp4_module.c:1376 | The clock of a seek agrees with the table if and only if the target is not the end of a run |
| `Mp4Tables.SampleForIs` | ngx_rtmp_mp4_module.c:1372-1400 | The sample found by division is the one whose time the target is in, from its start up to the start of the next; at a run end it is the first sample after it |
| `Mp4Tables.RunFound` | ngx_rtmp_mp4_module.c:1372-1400 | A run is found exactly for targets up to the duration of the track |
| `Mp4Tables.SoughtEnds` | ngx_rtmp_mp4_module.c:1357-1415 | The clock after a seek plus what is left of the runs is the track's duration, or one delta more when the target is the end of a run, as long as that does not wrap |
| `Mp4Tables.EndStays` | ngx_rtmp_mp4_module.c:1309-1354 | Where a clock will end up is kept by every step, whether it is on a sample or past the end of a run, and the clock does not go back |
| `Mp4Tables.TimeStep` | ngx_rtmp_mp4_module.c:1309-1354 | Stepping through the runs follows the closed form of the time table |
| `Mp4Tables.InRun` | ngx_rtmp_mp4_module.c:1372-1400 | Jumping into a run by division and multiplication finds the place that counting finds |
| `Mp4Tables.KeyStep` | ngx_rtmp_mp4_module.c:1731-1768 | The sync table index moves by one exactly after a sync sample |
| `Mp4Tables.NextSyncIsNearest` | ngx_rtmp_mp4_module.c:1772-1823 | The sample sought carries the key mark if and only if a sync sample follows, and then it is the nearest one; otherwise it is the sample asked for |
| `Mp4Tables.ChunkStep` | ngx_rtmp_mp4_module.c:1483-1541 | Stepping through chunks follows the closed form by entries, also from the last sample of an entry to the first of the next |
| `Mp4Tables.OffsetStep` | ngx_rtmp_mp4_module.c:1600-1657 | Inside a chunk one sample starts where the last one ends; a new chunk starts where the offset table says |
| `Mp4Tables.DelayStep` | ngx_rtmp_mp4_module.c:1826-1875 | Stepping through the delay runs follows the closed form |
| `Mp4Tables.ToRtmpMonotone` | ngx_rtmp_mp4_module.c:209-214 | Later times in a track never have earlier millisecond stamps, in 32 bits, as long as the time where the clock ends up fits |
| `Mp4Tables.ToRtmpExact` | ngx_rtmp_mp4_module.c:209-214 | A timestamp is the millisecond into which the tick falls, stamp * scale <= 1000 * ticks < (stamp + 1) * scale, if and only if that fits 32 bits |
| `Mp4Tables.FromRtmpExact` | ngx_rtmp_mp4_module.c:217-221 | The ticks are those into which the time in milliseconds falls, if and only if they fit 32 bits |
| `Mp4Tables.ThereAndBack` | ngx_rtmp_mp4_module.c:209-221 | Milliseconds to ticks and back are never late, and early by exactly the lost part of a tick rounded up to whole milliseconds, so exact if and only if the time is on a tick |
| `Mp4Tables.BackExample` | ngx_rtmp_mp4_module.c:209-221 | At 44100 ticks a second 1 ms comes back as 0 ms, more than one tick early |
| `Mp4Player.Player.Choose` | ngx_rtmp_mp4_module.c:2133-2150 | The track chosen is valid and has the earliest clock, the first of equals; none exactly when no track is valid |
| `Mp4Player.Player.SendFrame` | ngx_rtmp_mp4_module.c:2127-2300 | One turn, after any seek that fits: which track, why it waits or ends, and that only this track steps, by one sample; the timestamp shown is the millisecond into which the track's tick falls, and the timestamps stay non-decreasing across all tracks; the clock that the client decodes with a frame is the frame's time exactly when the client has been told the time of the sample before, which after a skipped frame it has exactly when its clock happens to be there |
| `Mp4Player.Player.Offer` | ngx_rtmp_mp4_module.c:2180-2303 | The codec header if it is due and then the frame: what is refused leaves the frame to be offered again and what the client has been told as it was; a frame taken by its distance from the last one gives the right clock exactly when the client's clock was at that last one |
| `Mp4Player.Player.Send` | ngx_rtmp_mp4_module.c:2090-2305 | Over the whole run since a seek, one to the end of a run included, every timestamp sent is the millisecond into which its track's tick falls, and on all tracks together they are non-decreasing; at most the frame limit per call, and exactly so many when all are taken; and as long as no frame is passed over the client decodes the time of every frame, whatever is refused and offered again |
| `Mp4Player.Player.Seek` | ngx_rtmp_mp4_module.c:2440-2490 | The first video track is sought to the target and every track without video to the millisecond where it landed, each with the result of its jump, on the sync sample for the sample shown at its target; nothing is shown yet and the next message of each track goes by no other, so the clocks are right from there on; if every such jump ends up in time, late by one delta at a run end, the player may play on |
| `LiveApp.DriftBounded` | ngx_rtmp_live_module.c:769-1010 | In every state that the operations reach: on each chunk stream of an unfinalized subscriber the publisher's clock is the subscriber's clock plus what it has missed modulo 2^32, or it is at rest and has missed nothing; without wait_video the client has decoded the very clock the server keeps |
| `LiveApp.App.Av` | ngx_rtmp_live_module.c:695-1037 | A frame keeps the registry, the links and the bounded drift; every member gets it as Deliver says, or, paused, does not and stays as it is, by its own state and queue, for the frame that starts the stream by its state after the start; and what is delivered lags by at most the sync limit |
| `LiveApp.App.Broadcast` | ngx_rtmp_live_module.c:848-1010 | Every member but the publisher gets the frame as Deliver says for its own state and queue, one at a time: a paused one stays as it is, one at rest starts exactly with what may start it, and one that runs is never passed over; no other session changes |
| `LiveChunk.Deliver` | ngx_rtmp_live_module.c:855-1010 | One frame for one subscriber: at rest, or past the sync limit, its chunk stream starts exactly with a frame that is no header, need not wait for the video and, where keys are waited for, is a key frame, if the queue takes what comes first, and any other frame is passed over; once it runs nothing is; with its drop count, its meta version, its finalization for a lost mandatory packet, and its clocks; the other chunk stream stays |
| `LiveChunk.SendFrame` | ngx_rtmp_live_module.c:869-1010 | After a frame the publisher's clock is again the subscriber's plus what it missed; a delivered relative frame lags by at most the sync limit; the client's clock is right after it if and only if no dummy audio with another time followed an absolute frame |
| `LiveChunk.AstrayExample` | ngx_rtmp_live_module.c:972-982 | A concrete key frame at 140 after one at 100 with wait_video: the client's clock ends at 100 while the server goes on from 140 |
| `LiveChunk.SendRelative` | ngx_rtmp_live_module.c:987-1009 | A relative frame moves the clock when accepted and the drop account when not, by the same delta, modulo 2^32 |
| `LiveChunk.SendAbsolute` | ngx_rtmp_live_module.c:916-984 | The first message: codec headers at the base, or the frame itself; active exactly when every message it starts with is accepted |
| `LiveChunk.Resync` | ngx_rtmp_live_module.c:869-877 | A subscriber starts over exactly when it has missed more than the sync limit, and has then missed nothing |
| `LiveApp.App.Join` | ngx_rtmp_live_module.c:486-563 | Joined exactly when a publisher finds nobody publishing, or a player finds a publisher or idle streams are allowed; the stream is the one of that name, old or new, the session is its first member, and nobody else changes |
| `LiveApp.EnteredIs` | ngx_rtmp_live_module.c:509-561 | Whoever has just joined waits for its first frame and is as active as the stream if it plays, finalized only if it was or refuses the notice |
| `LiveApp.App.Close` | ngx_rtmp_live_module.c:566-648 | The session leaves; a publisher's leaving stops the stream and finalizes its players unless idle streams are allowed; the last member's leaving takes the stream off the table to the free list |
| `LiveApp.LeftIs` | ngx_rtmp_live_module.c:593-621 | A player leaves alone; a publisher stops exactly the players of its stream, and finalizes them unless idle streams are allowed |
| `LiveApp.App.Pause` | ngx_rtmp_live_module.c:651-692 | A paused subscriber waits with nothing missed, and starts over when it goes on; a publisher's pause sets the status of all |
| `LiveApp.App.Notice` | ngx_rtmp_live_module.c:444-483 | Only the publisher starts or stops the stream, and every subscriber with it |
| `LiveApp.App.SetStatus` | ngx_rtmp_live_module.c:281-360 | The recursion over the members, as one new state: a status that does not change changes nothing, a refused notice finalizes |
| `LiveApp.StatusIs` | ngx_rtmp_live_module.c:281-360 | A subscriber changes alone; a publisher takes the subscribers of its stream with it, who start over or, if a notice to them is refused, are finalized; nobody else changes |
| `LiveApp.App.GetStream` | ngx_rtmp_live_module.c:221-261 | Found exactly when the name is on the table, and then it is the only one of that name; created at the end of its bucket on a free record if there is one |
| `LiveApp.App.Find` | ngx_rtmp_live_module.c:236-240 | The bucket search finds a stream of the name if there is one |
| `LiveApp.Registered` | ngx_rtmp_live_module.c:221-261 | After a first or further member has joined, the buckets are again a map from distinct names to streams with members, disjoint from the free list |
| `LiveApp.CreatedOk` | ngx_rtmp_live_module.c:247-259 | A new stream whose first member joins is on the table once, and the rest of the table is as before |
| `LiveApp.DeletedOk` | ngx_rtmp_live_module.c:628-640 | The emptied stream is off the table and on the free list once, and no other stream moved |
| `LiveState.NamesDistinct` | ngx_rtmp_live_module.c:221-261 | No two streams with members have the same name |
| `LiveState.PublisherJoins` | ngx_rtmp_live_module.c:533-551 | A publisher may join a stream that has none: publishing then holds exactly because one member publishes |
| `LiveState.PublisherLeaves` | ngx_rtmp_live_module.c:593-621 | When the publisher leaves, the stream is neither publishing nor active and its subscribers wait with nothing missed |
| `LiveState.StatusesSetOk` | ngx_rtmp_live_module.c:325-337 | When the publisher goes active or inactive every subscriber's drift account starts over in step |
| `LiveState.MemberLeaves` | ngx_rtmp_live_module.c:597-602 | Taking one session off its stream's list keeps the links of all others |
| `AmfRoundTrip.RoundTrip` | ngx_rtmp_amf.c:530-647 | Reading undoes writing: what the writer makes of any elements, nested to any depth, read with a schema of suiting types, stops exactly behind the encoding, and each value arrives: the bytes of a number or boolean at the start of a big enough cell of its type, a string as far as it fits with its zero, the fields of an object or mixed array in the elements for either, the items of an array; a value of another type leaves the element as it was |
| `AmfRoundTrip.FillArrives` | ngx_rtmp_amf.c:301-456 | What arrives of one written value in one element, at any depth, said in bytes: which types go for each other, and that the rest of a cell stays |
| `AmfRoundTrip.FilledByName` | ngx_rtmp_amf.c:228-236 | Whatever the order of the keys on either side, a field gets the value written under its name, and a field whose name was not written keeps its own |
| `AmfRoundTrip.ArrivedByName` | ngx_rtmp_amf.c:228-236 | The same in bytes: whatever the order of the keys, what arrives in a field is what was written under its name, and nothing in one whose name was not written |
| `AmfRoundTrip.EltRoundTrip` | ngx_rtmp_amf.c:310-464 | One element with anything after it: read into its place, or, without a place or with a place of another type, passed over with exactly its encoding consumed |
| `AmfRoundTrip.ContextRoundTrip` | ngx_rtmp_amf.c:338-350 | An element with the CONTEXT flag gets the input from the value on, exactly if it has a place for that and the type is its own, and the value is passed over |
| `AmfRoundTrip.ValueRoundTrip` | ngx_rtmp_amf.c:353-456 | Every kind of value, nested values included, is read back from its encoding and the rest of the input is untouched |
| `AmfRoundTrip.FieldsRoundTrip` | ngx_rtmp_amf.c:172-246 | An object's fields and end mark, read into any schema |
| `AmfRoundTrip.ItemsRoundTrip` | ngx_rtmp_amf.c:249-269 | A strict array's items, by index; items beyond the schema are passed over |
| `AmfRoundTrip.StringArrives` | ngx_rtmp_amf.c:367-392 | A string arrives as the longest prefix that its cell holds together with a terminating zero |
| `AmfRoundTrip.TextIs` | ngx_rtmp_amf.c:570-584 | The string written is as many bytes of its cell as are asked for, or those before the first zero |
| `AmfRoundTrip.SameNameIs` | ngx_rtmp_amf.c:230-233 | The name comparison is equality for names without a zero |
| `AmfCrash.CrashExact` | ngx_rtmp_amf.c:329-335 | The flags of an element that there is not are read, through a null pointer, if and only if passing over the input by lengths alone comes, by fields, items or variants at any depth, to its end where the value of a key that no element has, or of an item beyond the elements, should start |
| `AmfCrash.ReadCrashExact` | ngx_rtmp_amf.c:310-464 | The same of a whole read: if and only if one of the elements, none of those before it ending the read, comes to such a place |
| `AmfSkip.BehindIs` | ngx_rtmp_amf.c:310-464 | An element is read exactly when it is whole by its lengths, and what is left is what is behind it, whatever has been stored where before |
| `AmfSkip.OrdinaryBehind` | ngx_rtmp_amf.c:310-464 | Elements that have their type in the input and may not be missing have no part in that: they are passed over as if there were none |
| `AmfCrash.UnknownKeyExample` | ngx_rtmp_amf.c:228-246 | An object whose last key is unknown and has no value |
| `AmfCrash.ShortArrayExample` | ngx_rtmp_amf.c:249-269 | A strict array of one item, cut off before it, read without a schema |
| `AmfChain.Reader.Get` | ngx_rtmp_amf.c:66-113 | The next n bytes whatever the buffer sizes, empty buffers included; a failed get leaves the position as it was |
| `AmfChain.Reader.ReadOne` | ngx_rtmp_amf.c:310-464 | Reading over a chain of buffers is reading the flat byte string, result, position, failure and null dereference alike, an element without a type but with another flag being refused; the recursion terminates on the bytes left |
| `AmfChain.Reader.ReadObject` | ngx_rtmp_amf.c:172-246 | The fields over a chain are the fields of the flat string, for keys cut by buffer ends and longer than any name |
| `AmfChain.Reader.ReadArray` | ngx_rtmp_amf.c:249-269 | The items over a chain are the items of the flat string |
| `AmfChain.Reader.ReadAny` | ngx_rtmp_amf.c:272-297 | A variant goes to the last element of exactly its type, as in the flat string |
| `AmfFormat.VariantExact` | ngx_rtmp_amf.c:286-293 | The element found for a variant has exactly its type and no flag, and it is the last such one if there is any |
| `AmfChain.Reader.Read` | ngx_rtmp_amf.c:310-464 | The whole read over a chain is the whole read of the flat string |
| `AmfExchange.Exchange` | ngx_rtmp_amf.c:310-647 | Writer and reader composed: what is written over a chain of buffers of any sizes is read back into suiting elements, not a byte left over, and every value arrives in its element byte for byte |
| `AmfChain.Writer.Put` | ngx_rtmp_amf.c:116-169 | Bytes are appended across buffers of any sizes; it fails only when the allocator has nothing left |
| `AmfChain.Writer.Write` | ngx_rtmp_amf.c:530-647 | The writer's chain gains exactly the encoding; it fails only when there is none or the allocator has nothing left |
| `AmfChain.Writer.WriteObject` | ngx_rtmp_amf.c:467-500 | Fields, empty key and end mark, over any buffer sizes |
| `AggregateFormat.SplitsAll` | ngx_rtmp_receive.c:260-364 | Splitting a well-formed aggregate gives back exactly its messages: types, payloads, stream ids, and timestamps moved from the first message's time to the aggregate's |
| `AggregateFormat.SplitOne` | ngx_rtmp_receive.c:276-361 | One message with its back pointer off the front, whatever follows |
| `AggregateFormat.SplitStops` | ngx_rtmp_receive.c:276-361 | Any bytes at all: a message is taken off exactly if its header is there and more than its body, the first one with the aggregate's own timestamp; nothing left is a good end and anything else a bad one; a refused message is the last |
| `Aggregate.Handler.Handle` | ngx_rtmp_receive.c:260-364 | The handler on any chain of buffers delivers what the pure splitting of its bytes delivers and ends as it does; in particular a well-formed aggregate whose messages are all accepted is delivered whole, at the moved times; the chain is restored but for read positions, also when a message is refused |
| `Aggregate.Handler.Round` | ngx_rtmp_receive.c:276-361 | One round takes one message off the front of the chain, or ends for the reason the splitting ends for |
| `Aggregate.Handler.Deliver` | ngx_rtmp_receive.c:330-347 | The chain cut at the message's end holds exactly its body, and the mended chain exactly what follows |
| `Aggregate.Handler.Limit` | ngx_rtmp_receive.c:311-328 | The link found is the one in which the body ends with something left over; none exactly when the body is not followed by anything |
| `Aggregate.Handler.FetchUint` | ngx_rtmp_receive.c:241-256 | A big-endian number of one to four bytes across any links; it fails exactly when there are not so many bytes |
| `Aggregate.Handler.Fetch` | ngx_rtmp_receive.c:216-230 | The next byte, past empty buffers |
| `Aggregate.CutBehind` | ngx_rtmp_receive.c:330-347 | Cutting a link and moving its position splits the chain's bytes in two at the right place |
| `BitReader.Reader.Read` | ngx_rtmp_bitop.c:22-52 | The value of the next n bits, most significant first, and n bits on; with too few bits the result is 0 and the reader is at its end with the error mark |
| `BitReader.BitValueSplit` | ngx_rtmp_bitop.c:22-52 | Reading a + b bits at once is reading a and then b: v(a+b) = v(a) * 2^b + v(b) |
| `BitReader.MaskedIs` | ngx_rtmp_bitop.c:37-43 | Shifting and masking a byte gives the value of those bits |
| `BitReader.Reader.ReadGolomb` | ngx_rtmp_bitop.c:55-63 | The code of any number k below 2^64 - 1 is read as k and the reader stands behind it; any prefix of less than 64 zeros gives 2^z + suffix - 1 exactly, without wrap-around; a code that is cut short sets the error mark; it always terminates |
| `BitReader.GolombInverts` | ngx_rtmp_bitop.c:55-63 | What prefix and suffix give is k, if the bits are the ue(v) code of k of section 9.1 of ITU-T H.264: the code inverts for every number |
| `FlvPlayer.Player.Play` | ngx_rtmp_flv_module.c:427-503 | The scan of a recorded file from offset 13 goes from tag to tag to the very end, and what it sends is what was recorded, in order: type, 32-bit timestamp, body up to 1 MB; after each tag up to which all have been sent, the client's clock on that tag's chunk stream is the time of the tag |
| `FlvPlayer.KeptExact` | ngx_rtmp_flv_module.c:427-503 | What the scan sends, said by places in the file: in order and once each, exactly the tags of audio or video of at most 1 MB that the session accepts |
| `FlvExchange.RecordAndPlay` | ngx_rtmp_flv_module.c:427-503 | Recorder and player composed: a session recorded without limits and played from the start of the file sends the session's frames and codec headers in order, except those that are not media, are over 1 MB or are refused, with the clocks right for as long as nothing is missing |
| `FlvPlayer.Player.Send` | ngx_rtmp_flv_module.c:427-519 | One tag: sent, passed over, refused or failed for exactly the stated reason; the place moves on in each case; after a tag that was read but not sent the client's clock is right if and only if the tag had the same time |
| `FlvRecorder.Recorder.Record` | ngx_rtmp_record_module.c:1085-1180 | Recording keeps the file a header followed by exactly the tags recorded so far, at their times since the session's epoch; a full file is closed with a prefix of them |
| `FlvRecorder.Recorder.Open` | ngx_rtmp_record_module.c:505-583 | Reopening a recorded file of any size to append goes on at its end, at the time of its last tag, and opening it from scratch empties it |
| `FlvRecorder.Recorder.Session` | ngx_rtmp_record_module.c:1085-1180 | A session from its opening to its closing: when its frames come in order and stay below 2^31 in the file, the file stays in order, and without a limit it holds all of the session's tags at their times, behind what it held before |
| `FlvRecorder.Recorder.Sessions` | ngx_rtmp_record_module.c:505-583 | Any number of sessions, each appended to what the ones before left: the file is in non-decreasing time order all along, keeps what it had, and without a limit holds exactly the tags of all sessions one after the other |
| `FlvRecorder.Recorder.WriteFrame` | ngx_rtmp_record_module.c:871-969 | The writes append exactly one tag; the file is closed exactly when it has reached its size or its frames, and its header then tells the media recorded |
| `FlvRecorder.Recorder.Start` | ngx_rtmp_record_module.c:1089-1100 | The first frame sets the epoch so that it is recorded at the time where the file goes on; an empty file gets its header |
| `FlvRecorder.AppendPointIsLast` | ngx_rtmp_record_module.c:529-575 | On a recorded file of any size the backward search finds the end and the last tag's timestamp; a file without tags starts over |
| `FlvRecorder.RecordTimeExact` | ngx_rtmp_record_module.c:893-900 | A frame is recorded at the file's time plus what has passed in its session as long as that is below 2^31, and at 0 after that |
| `FlvRecorder.ArrivalTags` | ngx_rtmp_record_module.c:1085-1180 | One arrival adds its headers and then, unless it is skipped, its frame, with their kinds and bodies, at the time where the file goes on and what has passed since the first frame |
| `FlvFormat.TagIsThere` | ngx_rtmp_record_module.c:903-958 | In a recorded file each tag is where the tags before it end |
| `FlvFormat.TagReads` | ngx_rtmp_flv_module.c:440-450 | What the player reads at a tag's place is what the recorder wrote there |
| `DashWindow.Stream.UpdateFragments` | dash/ngx_rtmp_dash_module.c:979-1039 | The decision to cut and its effect on the ring, the counters and both tracks; the sample then starts the fragment or lies less than twice the fragment length after its start, a fragment cut at a sample not in the past reaches to that sample, and without a cut nothing is closed; with the invariant: frag + nfrags = id, the ring holds the latest closed fragments, joined fragments end where the next starts, and kept samples lie near |
| `DashWindow.Stream.CloseFragments` | dash/ngx_rtmp_dash_module.c:629-653 | The playlist lists exactly the last min(id, winfrags) closed fragments in order, never the open slot |
| `DashWindow.Stream.Append` | dash/ngx_rtmp_dash_module.c:1042-1100 | After the cut, a track with room has the sample (its time, no duration yet, its size and mark) behind the others, the one before it lasts up to it, earlier ones are as they were, and the bytes are more by its size; a full track keeps its samples and bytes; the track ends at the sample and starts at its first one, and its bytes are always the sum of its samples' sizes; the other track is what the cut left |
| `DashWindow.UpdatedOk` | dash/ngx_rtmp_dash_module.c:979-1039 | Before a sample is added the stream is cut if it must be: then the sample starts the fragment, or lies less than twice the fragment length after its start; a fragment cut at a sample not in the past reaches to that sample |
| `DashWindow.ClosedOk` | dash/ngx_rtmp_dash_module.c:629-653 | Closing moves the window on and lists the latest fragments, the one just closed last |
| `DashWindow.StartedOk` | dash/ngx_rtmp_dash_module.c:1031-1038 | The new fragment starts at the sample; a fragment joined to it ends there |
| `DashWindow.ListedAreLatest` | dash/ngx_rtmp_dash_module.c:172-198 | The slots from frag on hold exactly the latest closed fragments |
| `DashWindow.SlotsDiffer` | dash/ngx_rtmp_dash_module.c:172-180 | Fewer than 2 * winfrags + 1 fragments apart, two fragments never share a slot |
| `DashWindow.CutExact` | dash/ngx_rtmp_dash_module.c:994-1030 | At the distance d that leads, in 32 bits, from the start of the open fragment to the sample, the fragment is cut if and only if a track has 10 MB, or with video it has twice its length, or it has its length or the timestamps jump back by more than a second, at a key frame or with audio alone; without an open fragment one is started |
| `DashWindow.GrownContiguous` | dash/ngx_rtmp_dash_module.c:1069-1096 | All samples but the last reach to the next one |
| `DashWindow.GrownStores` | dash/ngx_rtmp_dash_module.c:1064-1097 | A track grows by exactly the sample if it has room, and its bytes and its earliest time stay those of its samples |
| `HandshakeRun.Connection.Run` | ngx_rtmp_handshake.c:375-630 | Client and server joined by two FIFO channels, with any splitting of reads and writes: both reach their final stage after exactly 1537 + 1536 bytes each way, each has received what the other sent, and each response is signed with the key that the other side's challenge determines |
| `HandshakeRun.Connection.NoDeadlock` | ngx_rtmp_handshake.c:375-576 | As long as the handshake is not over on both sides, some side can send or receive |
| `HandshakeRun.Connection.Move` | ngx_rtmp_handshake.c:375-576 | Every step keeps the invariant of the composed protocol (bytes sent are bytes received plus bytes on the way; no side fails or falls back to the old style) and uses up exactly the bytes it moves |
| `Handshake.Peer.Receive` | ngx_rtmp_handshake.c:402-487 | Some bytes arrive; a full buffer ends the stage; a peer's good challenge makes neither a failure nor a fallback, and determines the key of the response |
| `Handshake.Peer.Send` | ngx_rtmp_handshake.c:517-576 | Some bytes leave; an empty buffer ends the stage; what has been sent is the own challenge and then the response, signed for the challenge received |
| `Handshake.Peer.CreateChallenge` | ngx_rtmp_handshake.c:258-276 | The challenge has the protocol version, the epoch, the program version and a digest that the other side finds |
| `Handshake.Peer.ParseChallenge` | ngx_rtmp_handshake.c:279-330 | Accepted exactly for protocol version 3; old style exactly for a zero program version or a missing digest; otherwise the response key is made from the digest found, at the first base tried |
| `Handshake.KeyExact` | ngx_rtmp_handshake.c:279-330 | Each side looks for the digest made with the other's partial key and hashes it with its own full key, exactly if there is one and the program version is not zero |
| `Handshake.Peer.CreateResponse` | ngx_rtmp_handshake.c:333-353 | The response ends in the digest of all before it, under the key made from the peer's digest |
| `Handshake.Peer.WriteDigest` | ngx_rtmp_handshake.c:169-188 | The digest written in place, computed over all bytes but its own, at the place the writer reckons from bytes 8 to 11 by itself |
| `HandshakeDigest.DigestFound` | ngx_rtmp_handshake.c:143-188 | What is written at the writer's base 0 is found at the reader's base 8, for any keyed hash: writing the digest does not move its own place |
| `HandshakeDigest.PlacesAgree` | ngx_rtmp_handshake.c:143-188 | The writer's place by a base (the sum of four bytes at base + 8, modulo 728, plus base + 12) is the reader's by the base 8 further on, as long as those four bytes are the same |
| `HandshakeDigest.PlaceIs` | ngx_rtmp_handshake.c:143-166 | The place looked at is the sum of the four bytes from the base on, modulo 728, behind them |
| `HandshakeDigest.DigestExact` | ngx_rtmp_handshake.c:143-166 | A digest is found by a base exactly if the packet carries at that place the keyed hash of the rest of it; base 772 goes before base 8 |
| `HandshakeDigest.WrittenExact` | ngx_rtmp_handshake.c:169-188 | Writing changes nothing but the place that bytes 8 to 11 tell, and the packet then carries the keyed hash of the rest there |

## Left out

- Sockets, timers, event posting, files, mmap, logging, fork and exec, nginx pools: reads, writes, allocation and the answers of message queues are inputs of the model; relay, exec, auto-push, netcall, notify, control, access, limit, log and stat modules, HLS and configuration merging are not modelled.
- Chunk-size change: the chunk size is one and fixed for a run (ngx_rtmp_handler.c:813-898), as are play_time_fix on the sender and publish_time_fix on the receiver, which are taken to be equal in the round trip.
- ChunkReceiver.Receiver.Recv: acknowledgements, byte counters, bandwidth, ping, read errors and a message handler that fails are left out; a read never finds the connection closed.
- ChunkReceiver, BufferArena, OutputPath, SharedStore: links are indices into a sequence of cells and `next` is an index or null, so aliasing, cycles and sharing are modelled and raw addresses are not; buffers have the sizes the source gives them, and allocation does not fail.
- OutputPath.Output.SendMessage: the immediate write and the cork threshold at the end of the source's function are not part of it; a write is a separate step (WriteEvent) that may come at any time.
- OutputPath.Output.WriteEvent: write errors, timeouts and the posted dry events are left out, and the whole event is one step.
- OutputPath.Output.CloseSession: only the release of the queue is modelled, not the pools and buffers freed beside it; an abandoned session's pointer into its current chain is forgotten.
- SharedStore: the reference count does not overflow its machine width.
- OutputPath.Output.PrepareMessage: requires a chunk stream id of at least 2 and a `max_streams` of at most 65600, the ids a basic header can carry, and payloads below 2^32 bytes (below 2^24 in the round trip).
- Mp4Tables: box parsing and byte order of the tables; stz2, which the source marks as unfinished; a file without an stsc or stts table (the methods' error paths cover their absence, the theorems require well-formed tables whose totals fit 32 bits).
- Mp4Cursor.Cursor.SeekTrack: `last_timestamp` and `not_first` are kept by the steps but not compared after a seek; of a seek beyond the last sample, the chunk and size fields are left out.
- Mp4Player.Player.SendFrame: the contents of the codec header, the bytes in front of a frame and the reading of the file; what becomes of each message is an input, and audio and video are on chunk streams of their own.
- LiveApp: timers, the idle timeout, bandwidth accounting, silent members, status texts; the bucket hash is any function; names are shorter than the record's 256 bytes, as the callers' arrays are; lists of members are sequences, so relinking of `next` pointers shows as removal from a sequence.
- LiveChunk.Deliver: interleaved streams are the only ones with a co-header, as in the source; the priority given to the queue is behind the answer.
- AmfChain.Reader.ReadOne: destination buffers are values in the returned schema, written back only when the read succeeds; a string destination of no bytes is left alone (the source requires one byte at least); an element without a type of its own reads its known type. Where the source looks through a null pointer at the flags of an element that there is not, the model has an outcome of its own, `Crashed`, and nothing after it.
- AmfRoundTrip.RoundTrip: the server's own integers (INT8, INT16, INT32) are covered without a type mark at the top level, as they are used; names in objects are non-empty and below 2^16 bytes, as the format requires.
- Aggregate.Handler.Handle: the handler of a sub-message does not itself change the chain; the stream id is read as the three bytes the source reads.
- ChunkExchange.Publish: requires what PrepareMessage requires; whether the message can follow the ones before on its chunk stream is for the caller to see to, as in the source.
- AmfExchange.Exchange: says nothing of a write that fails, which Writer.Write does.
- BitReader.Reader.ReadGolomb: the value of a code with a prefix of 64 zeros or more, which exceeds the result's width (the source shifts by more than the width there).
- FlvRecorder.Recorder.Record: which frames are recorded (key frames, codec headers, manual mode) and file errors are inputs or left out; an I/O error in the middle of a tag is not modelled.
- FlvPlayer.Player.Play: seeking by the metadata index and the scheduling of the next send; the scan starts at offset 13.
- DashWindow.Stream.UpdateFragments: a timestamp exactly 2^31 before the fragment's start counts as a jump back by more than a second; the source negates an `int32_t` there, which overflows (dash/ngx_rtmp_dash_module.c:1009).
- DashWindow.Stream.Append: the media bytes, the composition delay of a sample, the files, the playlist text and failures to open or write them; a sample's size is what the source's buffer of fixed size holds of it.
- HandshakeRun.Connection.Run: HMAC is any keyed function with a 32-byte result and the random bytes are arbitrary; I/O errors and timeouts are left out, and so is the old-style handshake in the composed run, since both sides here sign.
