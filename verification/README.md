# A verified model of the talko chat server's core

The server is a reactor: an epoll loop per thread, TCP connections with buffered output, a
binary wire codec, timers, a thread pool, an asynchronous logger and a cache of users and friends
kept beside a MySQL store. This project models that core in Dafny and proves what it promises over
whole runs. Check it with `dafny verify dfyconfig.toml`.

| file | models | main results |
|---|---|---|
| `Common.dfy` | | optional values, associativity |
| `Bytes.dfy` | network-order integers, decimal text | round trips, lengths, prefixes |
| `ByteBuffer.dfy` | `byte_buffer.h` | the in-place buffer is a byte sequence; exact bound on its store |
| `Poller.dfy` | `epoll_poller.cpp`, `channel.cpp` | channel index, map and kernel set agree after any calls |
| `TcpConnection.dfy` | `tcp_connect.cpp`, `Channel::handle_event` | from `send()` to the socket, byte stream conserved in every run; one close; exactly when the half-close comes after the last byte and after the last message sent |
| `TcpServer.dfy` | `tcp_server.cpp` | one destruction per close; when names are distinct and, exactly then, no close forgotten |
| `Checksum.dfy` | `checksum` | RFC 1071 laws for data of any length, and exactly when the 32-bit accumulator suffices |
| `Varint.dfy` | `write7BitEncoded`, `read7BitEncoded` | round trip, prefix-free, 64-bit writer feeds 32-bit reader |
| `ProtocolStream.dfy` | `BinaryStreamWriter`, `BinaryStreamReader` | whole messages read back as written |
| `Friendship.dfy`, `UserManager.dfy` | `user_manager.cpp` | every relationship change commutes with loading |
| `IdAllocation.dfy` | `addUser`, `addGroup` | exactly when concurrent calls cache the ids they insert |
| `EventLoop.dfy` | functor queue and eventfd | order, next batch, no lost wakeup, under any interleaving |
| `ThreadPool.dfy` | thread pool | first in first out, when the destructor drains, its termination |
| `TimerQueue.dfy` | `timer.cpp`, `timer_queue.cpp` | run counts, no drift, which due timers a pass reaches |
| `BinaryDump.dfy` | `log_output_binary`, `form_log` | fixed buffer never overrun, chunks do not show, dump decodes to the dumped bytes |
| `LogWriter.dfy` | `write2file`, `write_thread_proc` | exactly when files hold a prefix of the log and exit leaves nothing behind; roll sizes |
| `StringUtil.dfy` | `split`, `replace` | both in terms of leftmost pieces |

How the model is built:

- Where the original updates an object, there is a class (or a loop over an array or sequence)
  whose methods are proved equal to functions on values; the laws over whole runs are lemmas about
  those functions.
- A system call is an input of the step that makes it, restricted to what the kernel can answer:
  `write` returns at most the length given, nothing but a reset after a half-close; `epoll_ctl` ADD
  fails on a present descriptor and MOD or DEL on an absent one, and ADD and MOD may also be
  refused (`refuse`). An SQL statement is an atomic table update that a flag lets succeed or fail.
- Concurrent parts are state machines whose steps are the critical sections; a theorem about a run
  quantifies over every interleaving. Each method of `TcpConnection` is one atomic step.
- What a model's histories record (messages taken over, tasks accepted, lines logged, functors
  queued) is tied to the events of the run themselves, so that no step can drop a request unseen.
- Integers are unbounded except where width is the point: the 32-bit checksum accumulator, the
  32- and 64-bit varints, two's-complement fields, the length word, the 32-bit line counter, the
  eventfd counter.

In one place the model does not follow the code as written: `bb_append` (byte_buffer.h:187) passes a
count where the write position is meant, and the copy target is modelled as the write position, the
only reading under which it is an append.

Elsewhere, where code and stated intention differ, the model follows the code:

- `releaseFriendRelationshipInDBAndMemory` changes only the database, because `deleteFriendToUser`
  loops over copies (user_manager.cpp:343).
- A timer added with count 0 repeats forever, and a repeating timer keeps its old place in the set.
- Several promised laws hold only under a condition. The lemma that states the condition, in both
  directions, ends in `Iff`; a lemma beside it gives an input or a run outside of it
  (`HalfCloseMayFollowHangup`, `HalfCloseMayOvertakeSend`, `TruncatedNameLosesClose`,
  `LongDataMayCheckWrong`, `LongDataMayDependOnByteOrder`, `LongLengthWraps`, `StepMayBeLost`,
  `UnnamedTeamMissesRename`, `TwoCallsMayCacheOneId`, `RefusedAddStaysAbsent`, `DisablingTwiceRegisters`,
  `PollMaySleepOnFunctor`, `NoWorkerLosesTasks`, `RepeatingTimerHidesDueOne`,
  `SameSecondRollLosesLine`, `RepeatedSecondLosesOlderFile`).

## Model

| member | source | states |
|---|---|---|
| Bytes.IntRoundTrip | server/src/network/inet_endian.h:10-62 | a signed integer of any width, written in network order and read back, is unchanged |
| Bytes.IntRoundTripBack | server/src/network/inet_endian.h:10-62 | any bytes are those of the integer they are read as |
| Bytes.BigEndianAt | server/src/network/inet_endian.h:10-62 | the most significant byte comes first |
| Bytes.EncodedIsTwosComplement | server/src/network/inet_endian.h:10-62 | the bytes of an integer denote it modulo 256 to the power n |
| Bytes.DecimalRoundTrip | server/src/network/protocol_stream.cpp:349-363 | the decimal text of a number denotes that number |
| Bytes.DecimalPrefix | server/src/network/tcp_server.cpp:77-80 | every non-empty proper prefix of a decimal text is the text of a smaller positive number |
| ByteBuffers.Apply | server/src/network/byte_buffer.h:102-234 | every operation keeps read index at most write index, within the store, the read index short of the end |
| ByteBuffers.StoreBounded | server/src/network/byte_buffer.h:183-205 | if readable plus requested bytes stay within m, the store never exceeds 1032 bytes (m at most 1024) or 2m + 6 bytes in any run |
| ByteBuffers.StoreBoundAttained | server/src/network/byte_buffer.h:409-431 | for every m some run within that demand ends with a store of exactly that size |
| ByteBuffers.StoreNeverShrinks | server/src/network/byte_buffer.h:409-431 | without shrink, no run of operations gives store back |
| ByteBuffers.RoomInFront | server/src/network/byte_buffer.h:409-431 | 8 bytes are free in front after emptying, compacting or renewing; what shrinking leaves; otherwise only prepending and retrieving change the room in front |
| ByteBuffers.MoveDown | server/src/network/byte_buffer.h:425-429 | the overlapping forward copy moves the block intact and leaves what precedes it alone |
| ByteBuffers.Store | server/src/network/byte_buffer.h:372-375 | copying data in changes exactly its range |
| ByteBuffers.ByteBuffer.constructor | server/src/network/byte_buffer.h:24-30 | starts empty with 8 prependable and 1024 writable bytes, whatever size was asked for |
| ByteBuffers.ByteBuffer.Swap | server/src/network/byte_buffer.h:32-37 | exchanges contents and layout |
| ByteBuffers.ByteBuffer.Retrieve | server/src/network/byte_buffer.h:102-117 | drops exactly len bytes from the front, or refuses and changes nothing |
| ByteBuffers.ByteBuffer.RetrieveAll | server/src/network/byte_buffer.h:152-156 | empties the buffer |
| ByteBuffers.ByteBuffer.RetrieveAsString | server/src/network/byte_buffer.h:163-171 | returns the front and keeps the rest; empty result if there are too few bytes |
| ByteBuffers.ByteBuffer.MakeZoom | server/src/network/byte_buffer.h:409-431 | growing or compacting makes room without changing content; the early return is unreachable |
| ByteBuffers.ByteBuffer.CheckWritable | server/src/network/byte_buffer.h:196-205 | afterwards len bytes are writable, content unchanged |
| ByteBuffers.ByteBuffer.Append | server/src/network/byte_buffer.h:183-189 | content is the old content followed by the data |
| ByteBuffers.ByteBuffer.StoreAtEnd | server/src/network/byte_buffer.h:183-189 | the copy at the write index extends the content by the data |
| ByteBuffers.ByteBuffer.Written | server/src/network/byte_buffer.h:217-224 | extends the content by len bytes, or refuses |
| ByteBuffers.ByteBuffer.Unwrite | server/src/network/byte_buffer.h:226-234 | cuts len bytes off the end, or refuses |
| ByteBuffers.ByteBuffer.Prepend | server/src/network/byte_buffer.h:367-376 | content is the data followed by the old content, or refused exactly when it does not fit in front |
| ByteBuffers.ByteBuffer.Shrink | server/src/network/byte_buffer.h:378-385 | a new store with the same content |
| ByteBuffers.ByteBuffer.AppendInt | server/src/network/byte_buffer.h:236-260 | the bytes added decode to the integer |
| ByteBuffers.ByteBuffer.PrependInt | server/src/network/byte_buffer.h:341-365 | the bytes put in front decode to the integer; silently nothing when there is no room |
| ByteBuffers.ByteBuffer.PeekInt | server/src/network/byte_buffer.h:298-339 | decodes the front, or -1 for too few bytes |
| ByteBuffers.ByteBuffer.ReadInt | server/src/network/byte_buffer.h:266-296 | decodes and drops the front; -1 and no change for too few bytes |
| Polling.SetMaskKeepsAgreement | server/src/network/epoll_poller.cpp:93-155 | any enable or disable keeps index, map and kernel set in agreement, whatever the kernel refuses |
| Polling.RemoveKeepsAgreement | server/src/network/epoll_poller.cpp:158-179 | so does remove, and a channel without events ends in no map entry |
| Polling.OpenKeepsAgreement | server/src/network/channel.cpp:16-27 | so does a new channel |
| Polling.RunsKeepAgreement | server/src/network/channel.cpp:33-72 | agreement holds after any sequence of create, enable, disable and remove calls |
| Polling.WithoutRefusalsAddedMeansRegistered | server/src/network/epoll_poller.cpp:127-154 | in any run without refusals, added means registered with exactly the current mask, and conversely |
| Polling.SetMaskEffect | server/src/network/epoll_poller.cpp:93-155 | a successful change of an added channel to no events takes it out of the interest set and makes it deleted; any other leaves it there with exactly the new mask and makes it added; nothing else changes |
| Polling.RegisteredStays | server/src/network/epoll_poller.cpp:127-154 | of a registered channel, dropping all interest always succeeds and any other change keeps it registered, even one refused |
| Polling.RegisteredIffInterestedIff | server/src/network/epoll_poller.cpp:93-155 | without refusals, mapped channels are in the interest set exactly if they want something, throughout a run, iff no call takes all interest from a channel that has none registered |
| Polling.DisablingTwiceRegisters | server/src/network/epoll_poller.cpp:97-130 | disabling a channel twice registers it again, wanting nothing |
| Polling.ControlSurprisedIff | server/src/network/epoll_poller.cpp:181-203 | ADD never finds the descriptor present; MOD and DEL find it absent iff the kernel refused the channel's ADD; exactly when the call succeeds |
| Polling.RefusedAddStaysAbsent | server/src/network/epoll_poller.cpp:93-155 | after a refused ADD the channel counts as added and every later change fails |
| Polling.EpollPoller.NewChannel | server/src/network/channel.cpp:16-27 | a fresh channel is new and has no events |
| Polling.EpollPoller.Control | server/src/network/epoll_poller.cpp:181-203 | one epoll_ctl call with the channel's mask |
| Polling.EpollPoller.UpdateChannel | server/src/network/epoll_poller.cpp:93-155 | the map, index and kernel set change by the specified update |
| Polling.EpollPoller.SetMask | server/src/network/channel.cpp:63-66 | mask and registration change together and stay in agreement; what success means for index and interest set |
| Polling.EpollPoller.EnableReading | server/src/network/channel.cpp:33-37 | read interest on, agreement kept |
| Polling.EpollPoller.DisableReading | server/src/network/channel.cpp:39-43 | read interest off, agreement kept |
| Polling.EpollPoller.EnableWriting | server/src/network/channel.cpp:45-49 | write interest on, agreement kept |
| Polling.EpollPoller.DisableWriting | server/src/network/channel.cpp:51-55 | write interest off, agreement kept |
| Polling.EpollPoller.DisableAll | server/src/network/channel.cpp:57-61 | no interest, agreement kept; a registered channel leaves the interest set |
| Polling.EpollPoller.RemoveChannel | server/src/network/epoll_poller.cpp:158-179 | a channel without events ends new and in no map entry |
| Polling.EpollPoller.Forget | server/src/network/epoll_poller.cpp:158-179 | map entry, registration and index go together |
| Polling.EpollPoller.FillActiveChannels | server/src/network/epoll_poller.cpp:79-91 | every reported event reaches its channel, in order; the early return is never taken |
| Connections.StreamConserved | server/src/network/tcp_connect.cpp:110-171 | in every run, bytes on the socket followed by the output buffer are the messages taken over, in order: those handed over and not refused; what other threads sent while connected was handed over, in order, or waits in a functor |
| Connections.SendsReachTheStream | server/src/network/tcp_connect.cpp:65-171 | the same from any reachable state: from `send()` on any thread, through the functors, to socket and buffer |
| Connections.RunQueues | server/src/network/tcp_connect.cpp:65-82 | messages sent off the loop thread are handed over once and in order, whatever happens in between |
| Connections.TakenWholeIff | server/src/network/tcp_connect.cpp:110-171 | a message is taken over whole iff the connection is not closed and it is not the first to be written into a reset; otherwise it leaves no trace; after a half-close every message is refused |
| Connections.ReachableStates | server/src/network/tcp_connect.cpp:359-384 | close callback and down notification fire once when disconnected and never before; write interest exactly while output is pending; no shutdown is forgotten |
| Connections.EventsDecide | server/src/network/tcp_connect.cpp:218-384 | in every run: closed, once, exactly if some event broke the connection; reported up, once, exactly if its first registration succeeded; half-closed exactly if some step half-closes; as many bytes on the wire as the kernel took |
| Connections.StepMeans | server/src/network/tcp_connect.cpp:110-384 | for each event: the phase it leads to, the bytes the kernel takes, whether it half-closes, whether it reports up |
| Connections.ForceCloseTaskCloses | server/src/network/tcp_connect.cpp:229-237 | the functor of a forced close closes, once, and sends and half-closes nothing |
| Connections.ForceCloseEndsInClose | server/src/network/tcp_connect.cpp:218-237 | a forced close of an open connection ends in one close when the loop has run the functors then queued, whatever else happens |
| Connections.RunsMoveForward | server/src/network/tcp_connect.cpp:218-237 | the phase never goes back, wire bytes are never taken back, none follow a half-close |
| Connections.HalfCloseAfterLastByteIff | server/src/network/tcp_connect.cpp:184-192 | at the half-close all bytes taken over are on the wire iff the connection was open or had nothing unsent; and nothing given to `send()` is left behind iff, besides, no functor holds a message |
| Connections.HalfCloseMayFollowHangup | server/src/network/tcp_connect.cpp:173-182 | a concrete run in which a late shutdown functor half-closes with output unsent |
| Connections.HalfCloseMayOvertakeSend | server/src/network/tcp_connect.cpp:336-339 | a run in which a message sent before the shutdown is overtaken by the half-close and can only be refused |
| Connections.DrainEndsInHalfClose | server/src/network/tcp_connect.cpp:326-341 | after shutdown, as many positive writes as there are bytes end in the half-close, all bytes sent |
| Connections.DispatchClosesOnce | server/src/network/channel.cpp:74-111 | one poll event closes at most once however many handlers it calls, and sends nothing after closing; one that closes nothing writes if it can and does nothing else |
| Connections.TcpConnection.constructor | server/src/network/tcp_connect.cpp:21-37 | starts connecting, empty, with a new channel |
| Connections.TcpConnection.SendInLoop | server/src/network/tcp_connect.cpp:110-171 | direct write, partial write, buffering and drop act as specified on the stream |
| Connections.TcpConnection.Send | server/src/network/tcp_connect.cpp:65-82 | sends or queues only while connected |
| Connections.TcpConnection.Buffer | server/src/network/tcp_connect.cpp:156-170 | appends the remainder and turns write interest on |
| Connections.TcpConnection.ShutdownInLoop | server/src/network/tcp_connect.cpp:184-192 | half-closes unless output is pending |
| Connections.TcpConnection.Shutdown | server/src/network/tcp_connect.cpp:173-182 | moves a connected connection to disconnecting and half-closes now or later |
| Connections.TcpConnection.ForceClose | server/src/network/tcp_connect.cpp:218-226 | queues a forced close for an open connection |
| Connections.TcpConnection.HandleClose | server/src/network/tcp_connect.cpp:359-384 | closes once, clears interest, notifies |
| Connections.TcpConnection.HandleWrite | server/src/network/tcp_connect.cpp:320-357 | moves what the kernel takes from buffer to wire, clears write interest when empty, closes on failure |
| Connections.TcpConnection.Drain | server/src/network/tcp_connect.cpp:326-341 | moves exactly n bytes to the wire; when none are left, write interest goes and a waiting shutdown is carried out |
| Connections.TcpConnection.HandleRead | server/src/network/tcp_connect.cpp:298-318 | no data or an error closes |
| Connections.TcpConnection.HandleEvent | server/src/network/channel.cpp:74-111 | the handlers of one event, in the original order; once disconnected, channel and poller stay as they are |
| Connections.TcpConnection.RunTask | server/src/network/tcp_connect.cpp:229-237 | the oldest queued functor runs as the step of its kind; once disconnected, channel and poller stay as they are |
| Connections.TcpConnection.ConnEstablished | server/src/network/tcp_connect.cpp:261-283 | connects once; a failed registration closes at once |
| Connections.TcpConnection.ConnDestroyed | server/src/network/tcp_connect.cpp:285-296 | notifies only a connection still connected; afterwards the channel is in no poller map entry, unless a shutdown was under way, and then the poller is untouched |
| Connections.TcpConnection.ClosedIsUnknown | server/src/network/tcp_connect.cpp:359-384 | a connection that was up and is closed has no entry in the interest set, so no event reaches it |
| Servers.NamesDistinctIff | server/src/network/tcp_server.cpp:77-80 | the first n names are distinct iff n is at most 1 or the newest suffix fits 31 characters |
| Servers.DestroyedAtMostOnce | server/src/network/tcp_server.cpp:97-119 | in every run each connection is destroyed at most once, only after its one close, with no interest left |
| Servers.EveryCloseIsAnsweredIff | server/src/network/tcp_server.cpp:103-119 | every close is answered in every run of at most n connections iff n is at most 1 or the n-th name is not truncated |
| Servers.TruncatedNameLosesClose | server/src/network/tcp_server.cpp:107-115 | the run in which two connections share a truncated name and the second is never destroyed |
| Servers.RemoveBoth | server/src/network/tcp_server.cpp:107-115 | of two connections of one name, both queued for removal, the second is forgotten |
| Servers.EveryCloseIsAnswered | server/src/network/tcp_server.cpp:103-119 | in one run, while names are distinct: each closed connection is in exactly one of removal queued, destruction queued, destroyed |
| Servers.MoveKeepsInv | server/src/network/tcp_server.cpp:73-119 | every step of server or connection keeps disposals at most closes |
| Servers.MoveKeepsComplete | server/src/network/tcp_server.cpp:103-119 | with distinct names every step keeps disposals equal to closes; EveryCloseIsAnsweredIff shows that without them it does not |
| Servers.ConnRunsItsEvents | server/src/network/tcp_server.cpp:73-119 | whatever the server does, each connection runs exactly the events meant for it |
| Servers.MovesCount | server/src/network/tcp_server.cpp:73-119 | connections made, removals run and destructions run are as many as the moves that do them; each close queues one removal |
| Servers.TcpServer.NewConn | server/src/network/tcp_server.cpp:73-95 | names, numbers and maps the new connection; keeps one disposal per close |
| Servers.TcpServer.OnConn | server/src/network/tcp_server.cpp:91-101 | a close of the connection queues its removal; keeps one disposal per close |
| Servers.TcpServer.RemoveConnInLoop | server/src/network/tcp_server.cpp:103-119 | unmaps the name and queues destruction, only if the name was mapped |
| Servers.TcpServer.DestroyConn | server/src/network/tcp_server.cpp:117-118 | runs the queued destruction; keeps one disposal per close |
| Checksums.Checksum | server/src/network/protocol_stream.cpp:21-38 | complement of the one's complement value of the 32-bit sum; the fold loop ends |
| Checksums.Accumulate | server/src/network/protocol_stream.cpp:23-32 | the accumulator is the wrapped sum of the words and the odd byte |
| Checksums.FoldStep | server/src/network/protocol_stream.cpp:34-35 | folding keeps the one's complement value and shrinks the number |
| Checksums.OddByteIsPadded | server/src/network/protocol_stream.cpp:29-32 | a last odd byte counts as if a zero byte followed |
| Checksums.AccumulatorNeverOverflows | server/src/network/protocol_stream.cpp:23-32 | up to 65537 terms there is no overflow |
| Checksums.OverflowPossibleIff | server/src/network/protocol_stream.cpp:23-32 | data of n terms can overflow iff n exceeds 65537 |
| Checksums.ChecksumExactIff | server/src/network/protocol_stream.cpp:21-38 | for every length an int can hold, the result is the Internet checksum iff the plain sum fits 32 bits |
| Checksums.LongDataMayCheckWrong | server/src/network/protocol_stream.cpp:21-38 | 65538 words of all ones have a wrong checksum |
| Checksums.SelfCheck | server/src/network/protocol_stream.cpp:21-38 | data of any even length with its checksum word appended checks to zero, and with no other word, up to the two zeros where adding them does not wrap |
| Checksums.SingleWordErrorDetected | server/src/network/protocol_stream.cpp:21-38 | in data of any length, changing one word changes the checksum, unless by all bits |
| Checksums.ByteOrderIndependentIff | server/src/network/protocol_stream.cpp:26-27 | swapping the bytes of all words swaps the bytes of the checksum, iff the lost carries stand in the ratio 256 and not just one sum wraps to zero; so always while no sum overflows |
| Checksums.LongDataMayDependOnByteOrder | server/src/network/protocol_stream.cpp:26-27 | 65538 words of all ones are their own byte swap, their checksum is not |
| Varints.RoundTrip | server/src/network/protocol_stream.cpp:41-84 | decoding a code followed by anything gives the value and stops right after the code |
| Varints.EncodeAt | server/src/network/protocol_stream.cpp:41-66 | groups of seven bits, least significant first, all but the last marked as followed |
| Varints.PrefixFree | server/src/network/protocol_stream.cpp:41-66 | no code is a prefix of another |
| Varints.EncodeLength | server/src/network/protocol_stream.cpp:41-66 | n bytes suffice exactly below 128 to the power n |
| Varints.Encode32Length | server/src/network/protocol_stream.cpp:40-52 | 1 to 5 bytes for 32-bit values |
| Varints.Encode64Length | server/src/network/protocol_stream.cpp:54-66 | 1 to 10 bytes for 64-bit values |
| Varints.Write7BitEncoded32 | server/src/network/protocol_stream.cpp:41-52 | appends the code of a 32-bit value |
| Varints.Write7BitEncoded64 | server/src/network/protocol_stream.cpp:55-66 | appends the code of a 64-bit value |
| Varints.Read7BitEncoded | server/src/network/protocol_stream.cpp:69-102 | the loop yields the code's value in 32 or 64 bits |
| Varints.Width64WriterFeedsWidth32Reader | server/src/network/protocol_stream.cpp:260-290 | below 2^32 the length WriteCString writes is what the 32-bit reader reads, in at most 5 bytes |
| ProtocolStreams.DecimalTextRoundTrip | server/src/network/protocol_stream.cpp:210-220 | atoll of the "%ld" text of any integer is that integer |
| ProtocolStreams.StringReadsBack | server/src/network/protocol_stream.cpp:143-168 | a string below 2^32 bytes reads back whole and the cursor ends behind it |
| ProtocolStreams.StringReadsBackIff | server/src/network/protocol_stream.cpp:143-168 | a string of any length reads back iff it is shorter than 2^32 bytes |
| ProtocolStreams.LengthReadsBackIff | server/src/network/protocol_stream.cpp:260-290 | a length reads back iff it is below 2^32 |
| ProtocolStreams.LongLengthWraps | server/src/network/protocol_stream.cpp:260-290 | from 2^32 up to 2^35 a length is read modulo 2^32 |
| ProtocolStreams.NumberTextLimitIff | server/src/network/protocol_stream.cpp:210-220 | a text is taken for a number iff it has at most 128 bytes |
| ProtocolStreams.WireFormat | server/src/network/protocol_stream.cpp:308-396 | the bytes of each kind of field: two's complement over its width, the character, length and text |
| ProtocolStreams.CursorStaysInside | server/src/network/protocol_stream.cpp:117-248 | the cursor moves forward and stays within the data; fields of fixed width are refused in place exactly if they do not fit |
| ProtocolStreams.ReadIsThere | server/src/network/protocol_stream.cpp:117-248 | writing a field read again gives the bytes read; a string read is what stands there |
| ProtocolStreams.FieldReadsBack | server/src/network/protocol_stream.cpp:196-248 | any field reads back as written wherever it stands |
| ProtocolStreams.MessageRoundTrip | server/src/network/protocol_stream.cpp:308-396 | any list of fields, flushed, reads back equal and ends at the end; the first four bytes are the length, the payload is untouched |
| ProtocolStreams.FlushSetsLength | server/src/network/protocol_stream.cpp:391-396 | flushing puts the length in front and changes nothing else |
| ProtocolStreams.BinaryStreamWriter.WriteCString | server/src/network/protocol_stream.cpp:315-328 | appends length code and bytes |
| ProtocolStreams.BinaryStreamWriter.WriteInt32 | server/src/network/protocol_stream.cpp:341-348 | appends the four bytes of the field |
| ProtocolStreams.BinaryStreamWriter.WriteShort | server/src/network/protocol_stream.cpp:364-371 | appends the two bytes of the field |
| ProtocolStreams.BinaryStreamWriter.WriteChar | server/src/network/protocol_stream.cpp:372-379 | appends the byte |
| ProtocolStreams.BinaryStreamWriter.WriteInt64 | server/src/network/protocol_stream.cpp:349-363 | appends the decimal text as a string |
| ProtocolStreams.BinaryStreamWriter.Flush | server/src/network/protocol_stream.cpp:391-396 | overwrites the first four bytes with the length, nothing else |
| ProtocolStreams.BinaryStreamReader.ReadLengthWithoutOffset | server/src/network/protocol_stream.cpp:260-290 | finds exactly the lengths that end within the data; bytes beyond it never matter |
| ProtocolStreams.BinaryStreamReader.ReadString | server/src/network/protocol_stream.cpp:117-168 | value and cursor in all cases, including the cursor left behind the length of a cut-off string |
| ProtocolStreams.BinaryStreamReader.ReadInt32 | server/src/network/protocol_stream.cpp:196-209 | reads four bytes or fails in place |
| ProtocolStreams.BinaryStreamReader.ReadShort | server/src/network/protocol_stream.cpp:221-235 | reads two bytes or fails in place |
| ProtocolStreams.BinaryStreamReader.ReadChar | server/src/network/protocol_stream.cpp:236-248 | reads one byte or fails in place |
| ProtocolStreams.BinaryStreamReader.ReadInt64 | server/src/network/protocol_stream.cpp:210-220 | reads a decimal text of at most 128 bytes |
| ProtocolStreams.BinaryStreamReader.IsEnd | server/src/network/protocol_stream.cpp:291-295 | true exactly when nothing is left |
| Friendships.ChangeCommutesWithLoading | server/src/service/user_manager.cpp:150-308 | any change applied to table and cached user leaves the list equal, by friend id, to what loading rebuilds |
| Friendships.BefriendCommutes | server/src/service/user_manager.cpp:228-258 | inserting the row and adding in memory |
| Friendships.UnfriendCommutes | server/src/service/user_manager.cpp:259-305 | deleting the row and deleting in memory |
| Friendships.EditCommutes | server/src/service/user_manager.cpp:535-752 | renaming or deleting a team, moving a friend, changing a mark name |
| Friendships.EditInTable | server/src/service/user_manager.cpp:644-752 | a mark name or team change is seen by the acting user, of that friend, and is exactly the name given; nobody sees another change |
| Friendships.EditInCache | server/src/service/user_manager.cpp:644-752 | the same of a cached list |
| Friendships.RenameInTable | server/src/service/user_manager.cpp:590-642 | a rename is seen by the acting user, of the friends stored in that team |
| Friendships.RenameInCache | server/src/service/user_manager.cpp:590-642 | the same of a cached list |
| Friendships.FriendsInTable | server/src/service/user_manager.cpp:150-224 | new friends see each other in the default team without mark name, released ones do not, nobody else sees a change |
| Friendships.FriendsInCache | server/src/service/user_manager.cpp:226-308 | the same of a cached list |
| Friendships.RenameInStepIff | server/src/service/user_manager.cpp:590-642 | whatever names the table holds, a rename keeps cache and table in step iff each stored name agrees with its cached entry on it: no empty name replaces another, no empty one is taken for the renamed default team |
| Friendships.NamedRenameInStepIff | server/src/service/user_manager.cpp:590-642 | in a table without empty names: iff the new name is not empty or nobody is in the old team |
| Friendships.UnnamedTeamMissesRename | server/src/service/user_manager.cpp:961-964 | a row with an empty name, loaded as the default team, that a rename of that team misses |
| Friendships.DeletingTeamIsSound | server/src/service/user_manager.cpp:535-588 | deleting a team agrees for every stored name |
| Friendships.MoveInStepIff | server/src/service/user_manager.cpp:701-752 | a move keeps them in step iff the team has a name or there is no such friend |
| Friendships.HalfRenameInStepIff | server/src/service/user_manager.cpp:607-623 | if only the first UPDATE succeeds they stay in step iff both names load alike or no row stores the old one on the user's first side |
| Friendships.NamedHalfRenameInStepIff | server/src/service/user_manager.cpp:607-623 | in a table without empty names: iff no friend with a larger id is in the old team, or the new name loads back as the old |
| Friendships.ReleaseAloneLeavesStaleIff | server/src/service/user_manager.cpp:188-224 | release alone leaves a cached list stale iff the two were friends |
| Friendships.StepMayBeLost | server/src/service/user_manager.cpp:188-752 | a cached user with one friend for whom rename, move, half-executed rename, release and caching the friend empty each lose step |
| Friendships.EmptyListMatchesIff | server/src/service/user_manager.cpp:37-44 | an empty list is right iff no relationship names the user |
| Friendships.RegisterInStepIff | server/src/service/user_manager.cpp:116-147 | caching a new user keeps the cache in step iff the id is new and no relationship names it |
| Friendships.ChangeKeepsInStep | server/src/service/user_manager.cpp:226-308 | the same for the whole cache |
| Friendships.CacheStaysInStep | server/src/service/user_manager.cpp:930-994 | over any run of registrations and changes, reloading any user would rebuild the cached list |
| Friendships.FriendshipIsSymmetric | server/src/service/user_manager.cpp:149-160 | cached friendship is symmetric and is the presence of the pair's row |
| UserManagers.LoadRelationshipFromDb | server/src/service/user_manager.cpp:930-994 | whatever order the rows come in, the list matches the table |
| UserManagers.UserManager.constructor | server/src/service/user_manager.cpp:24-47 | after init the cache is in step with the table iff no relationship names a user whose query failed |
| UserManagers.UserManager.LoadUsersFromDb | server/src/service/user_manager.cpp:68-105 | both id counters end at the maximum of their range |
| UserManagers.UserManager.AddUser | server/src/service/user_manager.cpp:116-147 | one call at a time: below the group boundary the new id is always free; exactly when the counters stay upper bounds |
| UserManagers.UserManager.AddGroup | server/src/service/user_manager.cpp:754-789 | one call at a time: a new group id is always free |
| IdAllocations.CachedIsInsertedIff | server/src/service/user_manager.cpp:126-135 | under any interleaving of calls, the ids cached are the ids inserted, each as often, iff no successful call was overtaken by another's increment between its loads of the counter |
| IdAllocations.EveryCallItsAccount | server/src/service/user_manager.cpp:765-774 | under any interleaving, the new accounts are those of the calls that succeeded, one each |
| IdAllocations.TwoCallsMayCacheOneId | server/src/service/user_manager.cpp:126-135 | two calls after which two cached users share an id and an account has none |
| UserManagers.UserManager.MakeFriendRelationshipInDB | server/src/service/user_manager.cpp:150-186 | inserts the ordered pair's row; refused for equal ids and existing pairs |
| UserManagers.UserManager.AddFriendInMemory | server/src/service/user_manager.cpp:228-258 | each side gets the other; true iff both are cached |
| UserManagers.UserManager.DeleteFriendInMemory | server/src/service/user_manager.cpp:259-305 | each side loses the other; true iff both were listed |
| UserManagers.UserManager.DeleteFriendToUser | server/src/service/user_manager.cpp:338-382 | reports whether both are listed and changes nothing |
| UserManagers.UserManager.ReleaseFriendRelationshipInDBAndMemory | server/src/service/user_manager.cpp:188-224 | deletes the row, leaves the cache |
| UserManagers.UserManager.IsFriend | server/src/service/user_manager.cpp:384-402 | while in step, true iff the pair has a row |
| UserManagers.UserManager.ModifyTeamName | server/src/service/user_manager.cpp:590-642 | table and cache after success, first-statement and second-statement failure; for a cached user, in step afterwards iff the rename agrees with every stored name |
| UserManagers.UserManager.DeleteTeam | server/src/service/user_manager.cpp:535-588 | the same with the default team; always stays in step |
| UserManagers.UserManager.EditFriend | server/src/service/user_manager.cpp:644-752 | mark name or team of one friend, on the acting user's side of the row, becomes exactly the name given; stays in step |
| EventLoops.RunAtMostOnceInOrder | server/src/network/event_loop.cpp:389-405 | under any interleaving what has run is a prefix of what was queued |
| EventLoops.RunInNextBatch | server/src/network/event_loop.cpp:160-171 | each functor runs in the first batch after it was queued, never in the one running then |
| EventLoops.WakeupReachesPoll | server/src/network/event_loop.cpp:338-387 | a waiting functor whose wakeup was sent finds the eventfd readable, or the loop between clearing it and the swap |
| EventLoops.NoFunctorStranded | server/src/network/event_loop.cpp:98-118 | a waiting functor without wakeup is about to get one, or the loop queued it itself: behind its poll, so that the swap comes first, or in its timers or frame functor |
| EventLoops.PollWakesIff | server/src/network/event_loop.cpp:338-387 | the poll returns for the eventfd iff a wakeup was written since it was last cleared; otherwise every waiting functor is of the kinds above |
| EventLoops.PollMaySleepOnFunctor | server/src/network/event_loop.cpp:160-171 | a run in which the loop polls without wakeup while its own functor waits |
| EventLoops.CallsDecideWakeups | server/src/network/event_loop.cpp:160-171 | what is queued is what `queue_in_loop` was called with; each waiting functor has its wakeup sent or owed exactly if the call came from another thread or during a batch |
| EventLoops.CallOwesWakeup | server/src/network/event_loop.cpp:160-171 | such a call leaves its thread owing the wakeup, and doing nothing else until it is sent |
| EventLoops.PollSleepsOnlyOn | server/src/network/event_loop.cpp:98-118 | a poll sleeps only on functors whose thread is about to wake it and on those queued in timers or frame functor, never on one queued during a batch |
| EventLoops.LoopGoesRound | server/src/network/event_loop.cpp:90-124 | timers, poll, wakeup channel, swap, batch, frame functor: in this order, round after round |
| EventLoops.StepKeepsInv | server/src/network/event_loop.cpp:90-124 | every step of any thread keeps order, batch numbers and wakeups |
| ThreadPools.FirstInFirstOut | server/src/service/whisp_thread_pool.cpp:5-24 | accepted is taken followed by queued; each taken one is in hand or finished exactly once |
| ThreadPools.AcceptedUntilStop | server/src/service/whisp_thread_pool.h:27-46 | exactly the tasks enqueued before stop are accepted, in order; as many workers as given at first and by growing |
| ThreadPools.DestructorDrainsIff | server/src/service/whisp_thread_pool.cpp:27-40 | when all workers have exited, everything accepted has finished iff there is a worker or nothing was accepted |
| ThreadPools.NoWorkerLosesTasks | server/src/service/whisp_thread_pool.cpp:5-6 | with no worker an accepted job is lost |
| ThreadPools.DestructorTerminates | server/src/service/whisp_thread_pool.cpp:27-40 | after stop the workers take a bounded number of steps |
| ThreadPools.StuckMeansDrainedIff | server/src/service/whisp_thread_pool.cpp:8-21 | after stop, when no worker can move, all have exited, and everything accepted has finished iff there is a worker or nothing was accepted |
| ThreadPools.StepKeepsInv | server/src/service/whisp_thread_pool.h:27-46 | every step keeps the accounting, rejected calls included, growing too |
| TimerQueues.RunsStayLawful | server/src/network/timer_queue.cpp:104-146 | in any run: runs never exceed the count, erased at exactly the count-th run, once a pass, j-th run not before start + (j-1) * interval |
| TimerQueues.RunIsLawful | server/src/network/timer.cpp:25-42 | one run of a due timer keeps its law or spends it |
| TimerQueues.InsertedAt | server/src/network/timer_queue.cpp:280-302 | a timer is put behind those not after it, before the first that is, and nothing else moves |
| TimerQueues.PassIsLawful | server/src/network/timer_queue.cpp:121-146 | one pass keeps every timer's law and erases exactly the spent |
| TimerQueues.PassRunsPrefix | server/src/network/timer_queue.cpp:127-146 | a pass runs each timer of the due prefix once and leaves the rest unchanged |
| TimerQueues.AllDueCalledIff | server/src/network/timer_queue.cpp:127-146 | a pass calls as many callbacks as are due iff none that is due stands behind a timer that is not; never more |
| TimerQueues.FreshQueueCallsAllDue | server/src/network/timer_queue.cpp:280-302 | while no timer has repeated, a pass calls every callback that is due |
| TimerQueues.RepeatingTimerHidesDueOne | server/src/network/timer.cpp:41 | a concrete queue in which a due timer is missed |
| TimerQueues.NonPositiveCountNeverEnds | server/src/network/timer.cpp:32-39 | a run ends a timer iff its count is positive and this is its last run |
| TimerQueues.TimerQueue.AddTimer | server/src/network/timer_queue.cpp:104-109 | inserts by key, keeps all laws |
| TimerQueues.TimerQueue.RemoveTimer | server/src/network/timer_queue.cpp:177-193 | removes the timer, keeps all laws |
| TimerQueues.TimerQueue.CancelTimer | server/src/network/timer_queue.cpp:195-207 | sets the cancel flag, keeps all laws |
| TimerQueues.TimerQueue.DoTimer | server/src/network/timer_queue.cpp:121-146 | the erasing loop is one pass, keeps all laws |
| BinaryDumps.DumpDecodes | server/src/log/whisp_log.cpp:372-402 | for any buffer, stripping headers and blanks from the dump gives its bytes under consecutive line numbers |
| BinaryDumps.DumpIsForm | server/src/log/whisp_log.cpp:372-402 | chunks do not show: the dump of any buffer is the text of one unlimited chunk |
| BinaryDumps.FormConcat | server/src/log/whisp_log.cpp:412-444 | the text of whole lines followed by more is the two texts with a newline between, numbered on |
| BinaryDumps.SeparatorShape | server/src/log/whisp_log.cpp:420-436 | where lines and half lines start, in terms of remainders |
| BinaryDumps.HexDigitIs | server/src/log/whisp_log.cpp:418 | digits are those of 0123456789abcdef |
| BinaryDumps.FormLength | server/src/log/whisp_log.cpp:412-444 | a chunk's text stays within two characters a byte, a blank per 16 and 12 a line, and holds no zero |
| BinaryDumps.NumbersAt | server/src/log/whisp_log.cpp:404-410 | the i-th line carries the counter value index + i |
| BinaryDumps.Strcat | server/src/log/whisp_log.cpp:427-431 | the C string ends exactly at the write index, so the header lands there |
| BinaryDumps.FormLog | server/src/log/whisp_log.cpp:412-444 | the length guard never cuts a chunk, all writes stay inside, the C string is the whole chunk |
| BinaryDumps.LogOutputBinary | server/src/log/whisp_log.cpp:372-402 | the chunk loop produces the whole dump |
| LogWriters.FilesHoldPrefixIff | server/src/log/whisp_log.cpp:533-583 | in every run, files and queue together are the accepted lines in order iff every roll falls in a second that names no file yet; always, each line is on file, queued or truncated exactly once |
| LogWriters.AcceptsEveryLine | server/src/log/whisp_log.cpp:259-262 | every line handed to the log is accepted, in order; each write takes one; the writer leaves only when told |
| LogWriters.FilesRollAtSize | server/src/log/whisp_log.cpp:533-583 | each file was below the roll size before its last line, and every file but the open one has reached it |
| LogWriters.ExitWritesEverythingIff | server/src/log/whisp_log.cpp:563-570 | leaving through the exit flag means every line accepted by then is on file, iff every roll fell in a second that named no file yet |
| LogWriters.StepLosesIff | server/src/log/whisp_log.cpp:539-560 | a step loses lines iff it rolls in a second that names a file, however old |
| LogWriters.SameSecondRollLosesLine | server/src/log/whisp_log.cpp:539-560 | a run of one line, rolled twice in a second, that loses it |
| LogWriters.RepeatedSecondLosesOlderFile | server/src/log/whisp_log.cpp:494-504 | a run in which local time repeats and the file of an earlier second loses its line |
| LogWriters.StepKeepsInv | server/src/log/whisp_log.cpp:533-583 | every step keeps the account of lines and the roll sizes |
| LogWriters.Write2File | server/src/log/whisp_log.cpp:506-525 | after any fwrite calls the file has grown by exactly the first bytes of the data, as many as were taken; the loop has ended iff that is all of them |
| LogWriters.WhispLog.LogOutput | server/src/log/whisp_log.cpp:259-262 | queues the line |
| LogWriters.WhispLog.RollIfNeeded | server/src/log/whisp_log.cpp:538-561 | starts a new file exactly when there is none or the roll size is reached |
| LogWriters.WhispLog.WriteNextLine | server/src/log/whisp_log.cpp:572-582 | the oldest line moves from queue to the open file's end |
| StringUtils.JoinOfPieces | server/src/common/stringutil.cpp:4-31 | joining the pieces with the delimiter restores the string |
| StringUtils.PiecesAreFree | server/src/common/stringutil.cpp:4-31 | no piece contains the delimiter |
| StringUtils.PiecesOfJoinIff | server/src/common/stringutil.cpp:4-31 | splitting a join gives the parts back iff no delimiter shows up early |
| StringUtils.FindIsLeftmost | server/src/common/stringutil.cpp:15 | nothing occurs before what is found |
| StringUtils.Split | server/src/common/stringutil.cpp:4-31 | ends, and appends exactly the non-empty pieces |
| StringUtils.NonEmptyKeeps | server/src/common/stringutil.cpp:4-31 | of the pieces exactly those of positive length are kept, each as often |
| StringUtils.NonEmptyConcat | server/src/common/stringutil.cpp:4-31 | and in their order |
| StringUtils.Replace | server/src/common/stringutil.cpp:53-68 | ends even when the new text contains the old, and is leftmost replacement on the original |
| StringUtils.ReplaceIsSplitAndJoin | server/src/common/stringutil.cpp:53-68 | replacing is joining the pieces with the new text |
| StringUtils.ReplaceChangesDelimiter | server/src/common/stringutil.cpp:53-68 | replacing one delimiter by another keeps the pieces iff they stay separable; by itself keeps the string |

## Left out

- `bb_read_fd`: its platform branches are swapped; input arrival is not modelled. The CRLF, EOL and string searches of `ByteBuffer` only add easy members.
- Sizes of 2 GiB and more: `socks_write` and `bb_2_string_piece` cast lengths to `int`; the model's lengths are unbounded.
- Callbacks that call back into the connection from inside a method are taken as the next step; the message, write-complete and high-water callbacks are not recorded.
- Two threads inside `shutdown` or `force_close` at once: both check and then set without compare-and-swap; each is modelled as one step.
- `TcpServer::stop` and the destructors of server, connection, loop and timer queue, including descriptors reused after a connection object is gone.
- `run_in_loop` on the loop thread calls its functor at once; only the queued path is modelled. The poll timeout that picks up functors the loop thread queues for itself is not.
- The lvalue `add_timer` overload, which drops the count; callbacks that add or remove timers during a pass; timer destruction; 64-bit overflow of times.
- The shrinking branch of the pool's `resize`, which joins one end of the worker list and drops the other.
- ProtocolStreams.BinaryStreamReader.ReadLengthWithoutOffset: excludes five continuation bytes in a row, for which the original decodes past its own local array.
- ProtocolStreams.BinaryStreamReader.ReadString: reads its length that way and excludes the same bytes.
- ProtocolStreams.BinaryStreamReader.ReadInt64: the same; and texts that denote numbers beyond 64 bits, and texts of exactly 128 bytes, have no defined value in the original; the model gives the number.
- Null-flag variants of the stream writer, `WriteDouble`, `ReadAll`, `Clear`.
- Varints.Read7BitEncoded: codes longer than 5 (or 10) bytes shift beyond the word in the original and are excluded.
- The other columns of `t_user`, user and friend queries by name, chat messages, and the text of SQL statements (quoting, collation): a row is identified by its pair of ids, which the table is taken to hold once.
- UserManagers.UserManager.AddUser: one step, as if calls did not overlap; overlapping calls are modelled apart, in `IdAllocation.dfy`. Ids are unbounded; the original's are 32 bits wide.
- UserManagers.UserManager.AddGroup: the same.
- Lines already in a log file of the same name when the process starts, and other processes writing to it.
- LogWriters.WhispLog.WriteNextLine: describes a write that ends; a file that accepts nothing forever keeps the original's loop going forever.
- FATAL lines, which the calling thread writes itself; an unnamed log; a failure to create the file, which ends the thread; line prefixes and truncation.
- StringUtils.Split: an empty delimiter never lets the original's loop end and is excluded. `cut` and the trim functions only add easy members.
- zlib, MySQL pools and data access objects, configuration, registration, sessions, acceptor, socket calls, daemon and main: wrappers over code that is not part of this model.
