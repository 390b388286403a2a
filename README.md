# sonic-bmp collector core, modelled in Dafny

The collector accepts BMP (BGP Monitoring Protocol) sessions from routers.
Each connection gets a thread that pumps the router's socket through a fixed
circular buffer into a pipe read by the BMP parser thread. The parser's
events reach a message-bus backend, `MsgBusImpl_redis`. That backend turns
peer up/down and unicast prefix add/delete events into rows of the state
database. It writes through `RedisManager`, which only writes tables that the
configuration database has enabled.

The model has four modules:

- `Strings` (`strings.dfy`) holds the decimal text of `std::to_string` with
  its parser. It also holds separator-joined composite keys and the split
  that inverts them.
- `ClientThread` (`client_thread.dfy`) holds the connection pump. The
  cursor arithmetic (`write_buf_pos`, `read_buf_pos`, `wrap_state`) is
  stated on a `Cursors` value by pure functions. Lemmas show that each step
  keeps the queue of buffered bytes in order. The class `SocketBuffer` holds
  the `array<byte>` buffer, and its methods are proved against those
  functions. `RunClientThread` runs the loop over a sequence of poll
  outcomes. It proves that the bytes handed to the reader are a prefix of
  the bytes read, and that at most the buffer size is in flight.
  `ClientThreadInfo` holds the `closing` guard, which makes teardown run
  exactly once, and the reader-thread pointer, which is unset until the
  reader thread is created.
- `Redis` (`redis_manager.dfy`) holds the class `RedisManager`. It keeps the
  set of enabled tables and the separator. Every call it makes into the
  database client is logged as a `StoreOp`. `Apply`/`ApplyAll` give those
  calls their effect on a map from key to row. Each row is a hash from field
  name to value, which a write updates field by field (`Merge`). The module also holds the
  subscription loop that enables and disables one table.
- `MsgBusRedis` (`msgbus_redis.dfy`) holds the class `MsgBusImplRedis` with
  the event handlers, and the row and key layouts they produce.

Behaviour of the code worth knowing:

- The buffer holds all `bmp_buffer_size` bytes before it wraps; no slot is
  kept free. The fill guard for the unwrapped case is
  `write_buf_pos < size`, so the writer may reach the very end
  (`FullBufferHoldsSize`).
- Wrapping the read cursor is only safe because, in every loop turn, the
  fill phase runs before the drain phase. An unwrapped buffer with both
  cursors at the end is always wrapped by the writer first. If the read wrap
  ran there, stale bytes would come back as queued data
  (`UnguardedReadWrapResurrects`). The methods carry this ordering as the
  `ReadWrapSafe` precondition.
- On a unicast prefix DEL, the deleted key is built as
  `table + sep + prefix/len + sep + "BGP_NEIGHBOR" + peer`, with no separator
  before the peer address. The ADD row lives at
  `table + sep + prefix/len + sep + "BGP_NEIGHBOR" + sep + peer`, so a DEL
  never removes the row its ADD wrote (`DelKeyMissesAddKey`,
  `WithdrawnPrefixStays`). The model keeps the key as written.
- A peer-down event only rewrites the neighbour row with the three error
  fields added. No RIB rows of that peer are removed.
- Rows are hashes updated field by field, and a peer-up event never clears
  the error fields. A peer that comes back up therefore keeps the stale
  `bgp_err_code`, `bgp_err_subcode` and `error_text` of its last down event
  (`PeerUpKeepsDownErrors`).
- `addFieldValues` is never cleared between RIB entries. The i-th write of
  one ADD event (counting from 0) therefore passes the ten attribute fields
  `i + 1` times (`AccumulatedRepeats`). In the stored hash the repeats
  collapse, so each row holds every attribute field once
  (`AccumulatedRowSettles`).

## Model

| member | source | states |
|---|---|---|
| Strings.Decimal | Server/src/redis/MsgBusImpl_redis.cpp:62 | the decimal text of a number is non-empty, all digits, and has no leading zero |
| Strings.DecimalRoundTrip | Server/src/redis/MsgBusImpl_redis.cpp:62-67 | a number printed with `std::to_string` parses back to the same number |
| Strings.SplitJoinKey | Server/src/RedisManager.cpp:73-78 | a key joined with a one-character separator splits back into exactly its parts, when no part contains the separator |
| ClientThread.Buffered | Server/src/client_thread.cpp:113-118 | the number of queued bytes is between 0 and the buffer size in both wrap states |
| ClientThread.Live | Server/src/client_thread.cpp:113-120 | the queued bytes, read from the read cursor to the write cursor across the wrap, number exactly `Buffered` |
| ClientThread.FillSpan | Server/src/client_thread.cpp:140-146 | the length asked of `read` is positive, fits in the free space, stays within the array, and when wrapped keeps the writer strictly behind the reader |
| ClientThread.DrainLimit | Server/src/client_thread.cpp:208-216 | the length handed to `write` is positive, at most 8192, at most what is queued, within the array, and is 8192 unless it reaches the write cursor or the buffer end |
| ClientThread.FillAppends | Server/src/client_thread.cpp:127-163 | a read of n bytes into the fill span keeps the cursor invariant, grows the queue by n, and appends exactly the bytes read |
| ClientThread.DrainTakesOldest | Server/src/client_thread.cpp:186-221 | a write of n bytes takes the n oldest queued bytes, shrinks the queue by n, and leaves the rest in order |
| ClientThread.WriteWrapKeeps | Server/src/client_thread.cpp:167-173 | resetting the write cursor at the end of the buffer sets the wrap flag and keeps the queue unchanged |
| ClientThread.ReadWrapKeeps | Server/src/client_thread.cpp:224-229 | resetting the read cursor at the end of the buffer clears the wrap flag and keeps the queue, when the reader is not at the end of an unwrapped non-empty buffer |
| ClientThread.UnguardedReadWrapResurrects | Server/src/client_thread.cpp:224-229 | at the end of a drained, unwrapped buffer the read-wrap branch is reachable and would turn an empty queue into the whole stale buffer |
| ClientThread.FullBufferHoldsSize | Server/src/client_thread.cpp:127-128 | an unwrapped buffer can hold all `size` bytes, and then no fill is attempted |
| ClientThread.SocketBuffer.constructor | Server/src/client_thread.cpp:113-120 | a fresh buffer of the configured size, with both cursors at 0, not wrapped, and an empty queue |
| ClientThread.SocketBuffer.Close | Server/src/client_thread.cpp:149-158 | closing both pipe ends and the socket stops the loop and keeps the cursors and queue |
| ClientThread.SocketBuffer.Store | Server/src/client_thread.cpp:160-163 | bytes read at the write cursor advance it by their count and are appended to the queue |
| ClientThread.SocketBuffer.Take | Server/src/client_thread.cpp:218-221 | bytes written from the read cursor are the oldest n queued bytes, and the cursor advances by n |
| ClientThread.SocketBuffer.WrapWrite | Server/src/client_thread.cpp:167-173 | the write cursor restarts at 0 with the buffer wrapped and the queue unchanged |
| ClientThread.SocketBuffer.WrapRead | Server/src/client_thread.cpp:224-229 | the read cursor restarts at 0 with the wrap cleared and the queue unchanged |
| ClientThread.SocketBuffer.FillPhase | Server/src/client_thread.cpp:127-173 | per branch: no space means no read and a write wrap at the end; idle polls change nothing; a hangup or a read of 0 bytes closes everything; a read appends the first `min(offered, span)` bytes; a running loop leaves the read wrap safe |
| ClientThread.SocketBuffer.DrainPhase | Server/src/client_thread.cpp:186-229 | per branch: nothing to send means a read wrap at the end; idle polls change nothing; a hangup closes everything; a write sends the oldest `min(room, limit)` bytes, and the queue equals what was sent plus what is left |
| ClientThread.SocketBuffer.Turn | Server/src/client_thread.cpp:125-230 | one loop turn keeps the buffer valid; old queue plus bytes read equals bytes sent plus new queue; a stopped loop has closed socket and pipes |
| ClientThread.ClientThreadInfo.constructor | Server/src/client_thread.cpp:76-80 | a connection starts not closing, with the thread running and the reader-thread pointer not yet set |
| ClientThread.ClientThreadInfo.AttachReader | Server/src/client_thread.cpp:108-111 | creating the reader thread sets the pointer to a running thread and changes nothing else |
| ClientThread.ClientThreadInfo.Cancel | Server/src/client_thread.cpp:31-60 | the cancel handler tears down once: on the first call it closes both pipe ends, closes the router socket only when its descriptor is non-zero, and joins and releases the reader; a second call changes nothing; the cursors and queue are untouched |
| ClientThread.ClientThreadInfo.Finish | Server/src/client_thread.cpp:251-271 | the thread end marks the thread stopped and joins and releases the reader unless a teardown already ran; teardown has run exactly once |
| ClientThread.RunClientThread | Server/src/client_thread.cpp:70-275 | over any sequence of poll outcomes or a cancel, the bytes delivered to the reader are a prefix of the bytes read, at most the buffer size is undelivered, and teardown runs exactly once |
| Redis.AppendSeparated | Server/src/RedisManager.cpp:73-77 | appending each key part followed by the separator yields at least one separator's worth of text for a non-empty key list |
| Redis.AppendSeparatedIsJoin | Server/src/RedisManager.cpp:73-77 | the appended key parts are the separator-joined key followed by one trailing separator |
| Redis.FullKeyIsJoinIff | Server/src/RedisManager.cpp:73-78 | erasing the last character gives the joined key if and only if the separator is one character long |
| Redis.BuildFullKey | Server/src/RedisManager.cpp:72-78 | the key loop and erase compute `FullKey`, which is the separator-joined key when the separator is one character |
| Redis.MergeLastWins | Server/src/RedisManager.cpp:82 | writing fields into a row's hash keeps the old fields, adds the written ones, gives each written field the last value written to it, and leaves every other field unchanged |
| Redis.MergeTwice | Server/src/RedisManager.cpp:82 | writing the same fields into a row twice leaves it as writing them once did |
| Redis.MergeAppend | Server/src/RedisManager.cpp:82 | writing one field list and then another is the same as writing their concatenation |
| Redis.FlushEachClears | Server/src/RedisManager.cpp:213-236 | flushing a list of tables removes exactly the rows whose key starts with one of those tables plus the separator, and keeps every other row unchanged |
| Redis.LastSetDecides | Server/src/RedisManager.cpp:150-158 | after a stream of notifications the table is enabled exactly when the last SET among them carried "true" |
| Redis.RedisManager.constructor | Server/src/RedisManager.cpp:16-21 | a manager starts with the configured separator, no table enabled, nothing written, and the router connected |
| Redis.RedisManager.WriteBMPTable | Server/src/RedisManager.cpp:65-84 | the write succeeds if and only if the table is enabled, and then sets exactly one row at the built key; otherwise nothing is written |
| Redis.RedisManager.RemoveBMPTable | Server/src/RedisManager.cpp:92-96 | deletes exactly the given raw keys, whatever table is enabled, and reports success |
| Redis.RedisManager.DisconnectBMP | Server/src/RedisManager.cpp:103-107 | closes the router connection and touches neither tables nor database |
| Redis.RedisManager.EnableTable | Server/src/RedisManager.cpp:192-195 | adds the table to the enabled set, idempotently, without touching the database |
| Redis.RedisManager.DisableTable | Server/src/RedisManager.cpp:202-205 | removes the table from the enabled set and flushes it once |
| Redis.RedisManager.ResetBMPTable | Server/src/RedisManager.cpp:213-222 | flushes the table once, enabled or not, and leaves the enabled set alone |
| Redis.RedisManager.ResetAllTables | Server/src/RedisManager.cpp:231-236 | flushes every enabled table exactly once, in some order, and keeps them all enabled |
| Redis.RedisManager.HandleConfig | Server/src/RedisManager.cpp:147-162 | SET with "true" enables the table; any other SET disables and flushes it and disconnects the router; anything else changes nothing |
| Redis.RedisManager.SubscriberWorker | Server/src/RedisManager.cpp:126-168 | over any sequence of select outcomes, only the watched table's state changes; it ends as the last SET decided; it is flushed once per disabling SET; and the router is disconnected if any SET disabled it |
| MsgBusRedis.PeerFieldsLayout | Server/src/redis/MsgBusImpl_redis.cpp:56-86 | the neighbour row has the nine common fields in the source's order, plus the three error fields on peer down only |
| MsgBusRedis.PeerFieldsReadBack | Server/src/redis/MsgBusImpl_redis.cpp:61-82 | the peer address is stored as given; the peer ASN, remote port, local ASN, local port and, on peer down, the error code and subcode parse back to the event's numbers |
| MsgBusRedis.PeerFieldsWrites | Server/src/redis/MsgBusImpl_redis.cpp:61-86 | a peer-up row writes no error field and writes `local_asn` once; on a peer-down row the error code and error text are the last writes of their fields |
| MsgBusRedis.PeerUpKeepsDownErrors | Server/src/redis/MsgBusImpl_redis.cpp:53-88 | in any database, a peer-down row followed by a peer-up row for the same peer keeps the down event's error code and error text, and carries the new local ASN |
| MsgBusRedis.RibKeyPartSplits | Server/src/redis/MsgBusImpl_redis.cpp:107-109 | the prefix key part splits at its last '/' back into the prefix and its length |
| MsgBusRedis.AttrFields | Server/src/redis/MsgBusImpl_redis.cpp:117-126 | one RIB entry adds the ten attribute fields, named in the source's order |
| MsgBusRedis.AttrFieldsReadBack | Server/src/redis/MsgBusImpl_redis.cpp:119-122 | the AS path count, origin AS and local preference parse back from their fields |
| MsgBusRedis.AccumulatedRepeats | Server/src/redis/MsgBusImpl_redis.cpp:100-126 | after k entries the field list holds 10k fields: the attribute fields repeated k times |
| MsgBusRedis.AccumulatedRowSettles | Server/src/redis/MsgBusImpl_redis.cpp:100-137 | for any k > 0, writing the accumulated list into a row leaves the same row as writing the ten attribute fields once |
| MsgBusRedis.AddKeySegments | Server/src/redis/MsgBusImpl_redis.cpp:128-137 | with a one-character separator, an ADD row's key splits into table, prefix/len, "BGP_NEIGHBOR" and the peer address |
| MsgBusRedis.DelKeySegments | Server/src/redis/MsgBusImpl_redis.cpp:144-157 | with a one-character separator, a DEL key splits into only three segments, the last being "BGP_NEIGHBOR" fused with the peer address |
| MsgBusRedis.DelKeyMissesAddKey | Server/src/redis/MsgBusImpl_redis.cpp:128-157 | for every separator, the key a prefix DEL deletes differs from the key its ADD wrote |
| MsgBusRedis.WithdrawnPrefixStays | Server/src/redis/MsgBusImpl_redis.cpp:115-165 | in any database, after an ADD row and then the DEL of the same prefix, the row is still present, and every field the ADD wrote holds the last value written to it |
| MsgBusRedis.MsgBusImplRedis.constructor | Server/src/redis/MsgBusImpl_redis.cpp:30-40 | the backend owns a fresh manager with the configured separator and nothing enabled or written |
| MsgBusRedis.MsgBusImplRedis.UpdatePeer | Server/src/redis/MsgBusImpl_redis.cpp:53-88 | writes exactly one neighbour row, keyed by the peer address, with the peer fields, if and only if the neighbour table is enabled |
| MsgBusRedis.MsgBusImplRedis.UpdateUnicastPrefix | Server/src/redis/MsgBusImpl_redis.cpp:94-167 | no attributes means nothing is written; an ADD writes one row per entry, in order, with the accumulated fields, if the direction's table is enabled; a DEL issues one delete of all the built keys, or nothing for an empty list |
| MsgBusRedis.MsgBusImplRedis.UpdateRouter | Server/src/redis/MsgBusImpl_redis.cpp:179-183 | a router INIT flushes every enabled table once and keeps them enabled; any other code changes nothing |
| MsgBusRedis.MsgBusImplRedis.UpdateIgnored | Server/src/redis/MsgBusImpl_redis.cpp:173-243 | `update_Collector` (173-174) and the handlers at 189-243 change nothing; `update_Router`, between them, is `UpdateRouter` |

## Left out

- Sockets, `poll`, `read` and `write` are inputs to the model (`SocketEvent`, `PipeEvent`). A `poll` that returns -1 is treated like a ready descriptor in the source; the model has no separate outcome for it.
- The pump loop runs until the sequence of ticks ends, or until a hangup, a zero-length read or a cancel. `bmp_run` is shared with the reader thread (client_thread.cpp:110), which may clear it between turns and so end the loop without closing anything. The end of the ticks stands for that stop as well. A router that never hangs up is modelled by a finite prefix of its turns.
- Cancellation is only modelled at turn boundaries, as the `CancelRequest` tick. The cancel path in the source also skips freeing the buffer; memory is not modelled.
- ClientThread.ClientThreadInfo.Cancel: a cancel between the arming of the handler (client_thread.cpp:90) and the creation of the reader thread (line 110) would read the uninitialised `bmp_reader_thread` at line 52. The model requires the pointer to be set, and `RunClientThread` only accepts cancels after the attach.
- ClientThread.ClientThreadInfo.Finish: an exception thrown in client_thread.cpp:94-110 would reach line 263 with `bmp_reader_thread` still uninitialised. The model requires the pointer to be set, and the exceptions are not modelled.
- ClientThread.ClientThreadInfo.Cancel: the 50 ms pause and the reader thread's own work are not modelled; joining is a flag. The router socket descriptor is an input of the cancel. The model does not connect it to `DisconnectBMP`, which closes the socket and sets the descriptor to 0 from the subscriber thread.
- ClientThread.RunClientThread: the parser thread, the `MsgBusImpl_redis` it feeds, and the exceptions caught around the loop are not modelled.
- The database client library is not part of this model. Its `set`, `del` and `getKeys`-then-`del` calls are recorded as `StoreOp`s. `Apply` gives their effect on a map from key to row. A table's keys are taken to be the keys that start with the table name and the separator. `set` is taken to write each field into the row's hash in order.
- The key separator comes from the database configuration. It is taken to be non-empty; with an empty separator `WriteBMPTable` would erase a character of the key itself.
- Redis.RedisManager.SubscriberWorker: the `exit_` flag, the thread per table (`ReadBMPTable`), `ExitRedisManager` and the destructor's joins are not modelled. The loop runs over a finite sequence of `select` outcomes.
- Redis.RedisManager.ResetAllTables: the iteration order of the `std::unordered_set` of enabled tables is not modelled; the ghost `order` says only that each enabled table is flushed once.
- Redis.RedisManager.WriteBMPTable: requires a non-empty key list for an enabled table. With no keys, `fullKey.erase(fullKey.size() - 1)` (RedisManager.cpp:78) would throw `std::out_of_range`; every caller passes one or three key parts.
- MsgBusRedis.MsgBusImplRedis.constructor: the subscription threads it starts through `ReadBMPTable` and the logger setup are not modelled.
- `GetKeySeparator` is read as the manager's `separator` field.
- Integer fields (ASNs, ports, prefix lengths, error codes) are unbounded naturals; their C++ widths do not affect the text `std::to_string` prints for them.
- Logging is not modelled.
- MsgBusRedis.MsgBusImplRedis.UpdatePeer: the source dereferences the peer-up event on both codes. The model requires it to be present, and requires the peer-down event on a DOWN.
