# Live audio broadcaster: listener fan-out and start-once producer

This project models, in Dafny, the core of a small live audio broadcaster
written in Python. It has two variants.

- `app.py` (module `Fanout` in `fanout.dfy`). An uploader POSTs an audio
  stream to `/source`. Every listener connected to `/live` owns a bounded
  asyncio queue of pending chunks, with room for `LISTENER_QUEUE_MAXSIZE = 50`
  chunks. `broadcast_chunk` ignores an empty chunk. Otherwise it pushes the
  chunk into every registered queue. When a queue is full, its oldest chunk is
  dropped first, so a slow listener loses old audio instead of holding up the
  others. A new listener starts with an empty queue: it hears only what is
  broadcast after it joins. The listener generator yields queued chunks in
  FIFO order until it meets a `None` sentinel. Its `finally` block then
  removes the queue from the set, if it is still there.
- `server.py` (module `Server` in `server.dfy`). The
  server keeps a set of Socket.IO session ids. The first connection starts the
  producer, and the `broadcast_started` flag stops it from ever being started
  again. The producer reads the audio file in `CHUNK_SIZE = 16 * 1024` byte
  pieces and emits each one. It sets `broadcast_finished` at the end of the
  file, or at once when the file does not exist. `/listeners` reports the
  number of sessions and both flags.

`common.dfy` holds the byte type `Bytes` and `Option`, which both modules use,
and the helpers `Flatten` and `Min`, which only `server.dfy` uses.

How the model is built:

- Each block that app.py runs under `LISTENERS_LOCK` with no `await`
  inside is one atomic method.
- A listener queue is a class `BoundedQueue`. The listener set is a
  `set<BoundedQueue>` in class `Broadcaster`, so queues keep their identity
  like asyncio objects do.
- The drop-oldest push is specified by the function `Offer`. `Newest`
  ("keep the `m` most recent") is an independent reference definition for it.
- The server's globals are the fields of class `Server`.
- `start_background_task(producer)` is a launch counter. The producer task
  itself is the method `Producer`, which a run counter allows once per launch.
- `socketio.emit` appends to the `emitted` log.
- The audio file is an `Option<Bytes>`: `None` means the file does not exist.

## Model

| member | source | states |
|---|---|---|
| Fanout.Offer | app.py:36-45 | one queue's push: appended when the queue has room, head dropped first when it is full; a queue that keeps within its size stays within it (`maxsize == 0` is asyncio's unbounded queue) |
| Fanout.OfferKeepsNewest | app.py:37-45 | after a push the chunk is the newest entry and the kept entries keep their order; a bounded queue holds exactly the `maxsize` most recent entries of old contents plus the chunk; an unbounded one just appends |
| Fanout.NewestOfNewest | app.py:35-45 | keeping the newest `m`, appending more, and keeping the newest `m` again equals keeping the newest `m` of everything |
| Fanout.OfferAll | app.py:35-45 | any number of pushes keeps a bounded queue within its size |
| Fanout.OfferAllSnoc | app.py:70-73 | one more broadcast extends the queue's history by exactly one push |
| Fanout.OfferAllKeepsNewest | app.py:35-45 | after any sequence of broadcasts a queue holds the 50 (its size) most recent of its old contents followed by the broadcast chunks, in broadcast order |
| Fanout.LateJoinSeesOnlyLaterChunks | app.py:90-94 | a queue that joins empty holds, after any broadcasts, only the most recent chunks broadcast since it joined, never an earlier one |
| Fanout.NeverConsumingListener | app.py:38-45 | with room for 2, chunks 1, 2, 3 pushed to a listener that never reads leave 2 and 3 |
| Fanout.Broadcasts | app.py:70-73 | the entries the `/source` loop broadcasts for an upload, never more than the chunks that arrived |
| Fanout.BroadcastsSkipsOnlyEmpty | app.py:70-73 | the `/source` loop broadcasts every non-empty chunk of the upload and nothing else, and never more chunks than arrived |
| Fanout.BroadcastsSnoc | app.py:71-74 | one more arriving chunk is broadcast exactly when it is non-empty |
| Fanout.BroadcastsAppend | app.py:70-73 | splitting an upload anywhere splits its broadcasts at the same place: each chunk is broadcast once, in arrival order |
| Fanout.BroadcastsCount | app.py:68-74 | the number of broadcasts equals the number of non-empty chunks in the upload, repeated identical chunks included |
| Fanout.TakeUntilEnd | app.py:99-103 | the generator yields the queued chunks in FIFO order up to the first `None` sentinel; it stops short of the queue's end exactly when a sentinel is queued |
| Fanout.TakeUntilEndSplits | app.py:99-103 | the yielded chunks, then the sentinel (if any), then what is left make up exactly the old queue contents |
| Fanout.TakeUntilEndIsPrefix | app.py:99-103 | a data prefix that stops at the first sentinel or at the end is the generator's output |
| Fanout.BoundedQueue.constructor | app.py:90 | a new queue is empty and has the configured size |
| Fanout.BoundedQueue.PutNowait | app.py:37 | `put_nowait` appends when the queue is not full, and otherwise fails (`QueueFull`) without changing it |
| Fanout.BoundedQueue.GetNowait | app.py:41 | `get_nowait` removes and returns the head; on an empty queue it fails (`QueueEmpty`) and changes nothing |
| Fanout.BoundedQueue.Get | app.py:100 | `await q.get()` on a non-empty queue removes and returns the head |
| Fanout.Broadcaster.constructor | app.py:20 | `LISTENERS` starts empty and the registry invariant holds |
| Fanout.Broadcaster.Register | app.py:90-94 | a fresh empty queue of size 50 is added; no other queue or member changes |
| Fanout.Broadcaster.Deregister | app.py:107-110 | the queue is removed if present; removing an absent queue leaves the set unchanged, so repeating it is a no-op |
| Fanout.Broadcaster.Deliver | app.py:36-47 | one queue's put / drop-oldest / put always delivers, and leaves the queue as `Offer` says |
| Fanout.Broadcaster.RemoveDead | app.py:48-51 | the cleanup removes exactly the listed queues that are still registered |
| Fanout.Broadcaster.Broadcast | app.py:29-51 | an empty chunk changes nothing; otherwise every registered queue is pushed as `Offer` says, all stay within 50, and the listener set is unchanged |
| Fanout.Broadcaster.Source | app.py:60-81 | `chunk_count` is the number of broadcast entries, which is the number of non-empty chunks; every queue ends as the fold of `Offer` over them; the set is unchanged |
| Fanout.Broadcaster.Drain | app.py:97-110 | the generator yields `TakeUntilEnd` of the queue; on the sentinel it stops and deregisters, otherwise it drains the queue and stays registered |
| Server.Read | server.py:34 | `f.read(n)` returns the next `min(n, remaining)` bytes of the file |
| Server.Chunks | server.py:34-46 | the pieces the producer emits for a file; there are none exactly when the file is empty |
| Server.ChunksReassemble | server.py:34-46 | the emitted pieces joined together are the file; each is non-empty and at most `CHUNK_SIZE` bytes, and all but the last are full size |
| Server.ChunkCount | server.py:34-46 | the number of pieces is the least that holds the file (`ceil(len / CHUNK_SIZE)`) |
| Server.ChunksFrom | server.py:46 | reading at the current position takes the next piece off the front of the rest of the file |
| Server.Server.constructor | server.py:15-17 | no listeners, both flags false, producer not launched and not run, nothing emitted |
| Server.Server.Connect | server.py:63-72 | the id is added and nothing else is added or removed; the producer is launched exactly when the flag was false; afterwards the flag is set and there has been exactly one launch |
| Server.Server.Disconnect | server.py:76-79 | the id is removed if present; an absent id leaves the set unchanged; flags and log are untouched |
| Server.Server.GetListeners | server.py:58-59 | the count is the size of the listener set, with the current values of both flags |
| Server.Server.Producer | server.py:20-49 | runs once, as the launched task; a missing file sets `broadcast_finished` and emits nothing; otherwise the emitted log is exactly `Chunks(file, CHUNK_SIZE)`, `bytes_sent` equals the file length, and `broadcast_finished` is set |

Every method of a class keeps its class invariant `Valid()`. For `Broadcaster`
it says every registered queue has size 50 and stays within it. For `Server` it
says the producer has been launched once if `broadcast_started` is set and
never otherwise, that it has run at most as often as it was launched, that
`broadcast_finished` is set exactly when it has run, and that nothing is
emitted before it runs.

## Left out

- The web wiring is not modelled: the FastAPI and Flask apps, CORS, the HTML
  routes, `StreamingResponse`, `FileResponse` and `socketio.run`. It is
  transport plumbing that calls into the modelled operations.
- Concurrency is not modelled. `asyncio.Lock` and eventlet scheduling are
  replaced by atomic sequential steps.
- Fanout.Broadcaster.Source: it assumes no listener joins or leaves while an
  upload is in progress. In app.py, other coroutines may run at each
  `await` between two broadcasts.
- Fanout.Broadcaster.Source: a connection error from `request.stream()` ends
  the loop exactly like the end of the upload. `stream` stands for the chunks
  that arrived before either.
- Fanout.Broadcaster.Drain: an `await q.get()` on an empty queue suspends
  the generator. The model returns at that point with `ended` false and the
  queue still registered. Cancellation on disconnect runs the same `finally`
  block, which is `Deregister`.
- Nothing in `app.py` ever enqueues the `None` sentinel. The model keeps the
  sentinel because the generator tests for it, but no operation produces it.
- Fanout.Broadcaster.Broadcast: it requires the registry invariant, namely
  that every queue in `LISTENERS` was created by `live` with size 50 and kept
  within it. Under that invariant the second `put_nowait` cannot fail, so
  `to_remove` is always empty. The cleanup path is modelled but proved dead.
- Server.Server.Producer: it requires a launch that has not run yet, because
  server.py runs `producer` only as the task that the first connection
  launches (server.py:70-72).
- The producer's real-time pacing is not modelled: `BPS_ESTIMATE`,
  `time.time()`, the float division and `socketio.sleep`. These are wall-clock
  time and floating point, and they do not change what is emitted.
- A file that exists but cannot be opened or read is not modelled. In
  server.py that raises inside the background task, and `broadcast_finished` is
  never set. Only "exists" and "does not exist" are modelled.
- Logging is not modelled: the `print` calls and the `CHUNK_LOG_INTERVAL`
  check.
- `MEDIA_TYPE` and `AUDIO_FILE` are left out. They are opaque strings.
- app.py has no per-chunk sequence numbers, no end-of-stream `close()`, no
  rejection of a second producer and no overflow counter, and the model adds
  none.
