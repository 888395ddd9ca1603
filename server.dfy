/**
 * The Socket.IO variant of the broadcaster (server.py): a set of connected
 * session ids, a producer that is started at most once (by the first
 * connection), and the producer's loop that replays an audio file in
 * fixed-size pieces.
 *
 * The file is an abstract byte sequence (`None` when it does not exist), each
 * `socketio.emit` appends its piece to the `emitted` log, and
 * `start_background_task(producer)` is recorded by counting launches; the
 * producer itself runs as the separate step `Producer`.
 */
module Server {

  import opened Common

  /** `CHUNK_SIZE`: bytes per read from the audio file. */
  const ChunkSize: nat := 16 * 1024

  /** A Socket.IO session id (`request.sid`). */
  type Sid = string

  /** `f.read(n)` on a regular file positioned at `pos`: up to `n` bytes,
      fewer only at the end of the file, and none once it is reached. */
  function Read(file: Bytes, pos: nat, n: nat): (r: Bytes)
    requires pos <= |file|
    ensures |r| == Min(n, |file| - pos)
    ensures r == file[pos..pos + |r|]
  {
    file[pos..pos + Min(n, |file| - pos)]
  }

  /** The pieces the producer emits for `file`, in file order. */
  function Chunks(file: Bytes, n: nat): (r: seq<Bytes>)
    requires n > 0
    ensures r == [] <==> file == []
    decreases |file|
  {
    if file == [] then []
    else
      var piece := Read(file, 0, n);
      [piece] + Chunks(file[|piece|..], n)
  }

  /** The emitted pieces put back together are the file, in order; none is
      empty, none is longer than `n`, and all but the last are exactly `n`
      bytes long. */
  lemma {:induction false} ChunksReassemble(file: Bytes, n: nat)
    requires n > 0
    ensures Flatten(Chunks(file, n)) == file
    ensures forall i :: 0 <= i < |Chunks(file, n)| ==> 0 < |Chunks(file, n)[i]| <= n
    ensures forall i :: 0 <= i < |Chunks(file, n)| - 1 ==> |Chunks(file, n)[i]| == n
    decreases |file|
  {
    if file != [] {
      var piece := Read(file, 0, n);
      var rest := file[|piece|..];
      ChunksReassemble(rest, n);
      var r := Chunks(file, n);
      assert r == [piece] + Chunks(rest, n);
      assert r[1..] == Chunks(rest, n);
      assert file == piece + rest;
      forall i | 0 < i < |r|
        ensures r[i] == Chunks(rest, n)[i - 1]
      {
      }
    }
  }

  /** The producer emits `ceil(|file| / n)` pieces: as few as hold the file. */
  lemma {:induction false} ChunkCount(file: Bytes, n: nat)
    requires n > 0
    ensures |Chunks(file, n)| * n - n < |file| <= |Chunks(file, n)| * n
    decreases |file|
  {
    if file != [] {
      var k := Min(n, |file|);
      var rest := Chunks(file[k..], n);
      ChunkCount(file[k..], n);
      assert |Chunks(file, n)| == 1 + |rest|;
      assert (1 + |rest|) * n == n + |rest| * n;
    }
  }

  /** Reading at `pos` takes the next piece off the front of what is left. */
  lemma ChunksFrom(file: Bytes, pos: nat, n: nat)
    requires n > 0 && pos < |file|
    ensures Chunks(file[pos..], n)
         == [Read(file, pos, n)] + Chunks(file[pos + |Read(file, pos, n)|..], n)
  {
    var rest := file[pos..];
    var piece := Read(file, pos, n);
    assert Read(rest, 0, n) == piece;
    assert rest[|piece|..] == file[pos + |piece|..];
  }

  /** The answer of `/listeners`. */
  datatype Stats = Stats(count: nat, broadcastStarted: bool, broadcastFinished: bool)

  class Server {
    /** `listeners`: the ids of the connected sessions. */
    var listeners: set<Sid>
    var broadcastStarted: bool
    var broadcastFinished: bool
    /** How many times `start_background_task(producer)` was called. */
    var producerLaunches: nat
    /** How many launched producer tasks have run. */
    var producerRuns: nat
    /** Every piece passed to `socketio.emit`, in order. */
    var emitted: seq<Bytes>

    /** The producer has been launched exactly when the flag is set, so at
        most once; it runs at most once per launch, and it is what emits and
        finishes the broadcast. */
    ghost predicate Valid()
      reads this
    {
      && producerLaunches == (if broadcastStarted then 1 else 0)
      && producerRuns <= producerLaunches
      && (broadcastFinished <==> producerRuns == 1)
      && (producerRuns == 0 ==> emitted == [])
    }

    constructor ()
      ensures Valid()
      ensures listeners == {} && !broadcastStarted && !broadcastFinished
      ensures producerLaunches == 0 && producerRuns == 0 && emitted == []
    {
      listeners := {};
      broadcastStarted, broadcastFinished := false, false;
      producerLaunches, producerRuns := 0, 0;
      emitted := [];
    }

    /** `handle_connect`: register the session, and start the producer if
        no connection has started it yet. */
    method Connect(sid: Sid) returns (launched: bool)
      requires Valid()
      modifies this
      ensures Valid()
      ensures listeners == old(listeners) + {sid}
      ensures broadcastStarted && producerLaunches == 1
      ensures launched <==> !old(broadcastStarted)
      ensures broadcastFinished == old(broadcastFinished) && emitted == old(emitted)
      ensures producerRuns == old(producerRuns)
    {
      listeners := listeners + {sid};
      launched := !broadcastStarted;
      if launched {
        broadcastStarted := true;
        producerLaunches := producerLaunches + 1;
      }
    }

    /** `handle_disconnect`: `discard`, so an unknown id changes nothing. */
    method Disconnect(sid: Sid)
      requires Valid()
      modifies this
      ensures Valid()
      ensures listeners == old(listeners) - {sid}
      ensures sid !in old(listeners) ==> listeners == old(listeners)
      ensures broadcastStarted == old(broadcastStarted) && broadcastFinished == old(broadcastFinished)
      ensures producerLaunches == old(producerLaunches) && emitted == old(emitted)
      ensures producerRuns == old(producerRuns)
    {
      listeners := listeners - {sid};
    }

    /** `get_listeners`: the number of connected sessions and both flags. */
    method GetListeners() returns (stats: Stats)
      ensures stats.count == |listeners|
      ensures stats.broadcastStarted == broadcastStarted
      ensures stats.broadcastFinished == broadcastFinished
    {
      stats := Stats(|listeners|, broadcastStarted, broadcastFinished);
    }

    /** `producer`, without its pacing, run as the task that the first
        connection launched: a missing file finishes the broadcast with
        nothing emitted; otherwise every piece read is emitted, in order, and
        the broadcast is finished at the end of the file.  `bytesSent` is the
        producer's running byte count on exit. */
    method Producer(file: Option<Bytes>) returns (bytesSent: nat)
      requires Valid() && producerRuns < producerLaunches
      modifies this
      ensures Valid() && broadcastFinished && producerRuns == 1
      ensures listeners == old(listeners) && broadcastStarted
      ensures producerLaunches == old(producerLaunches)
      ensures file == None ==> emitted == [] && bytesSent == 0
      ensures file != None ==>
        emitted == Chunks(file.value, ChunkSize) && bytesSent == |file.value|
    {
      producerRuns := producerRuns + 1;
      if file == None {
        broadcastFinished := true;
        return 0;
      }
      var data := file.value;
      bytesSent := 0;
      var chunk := Read(data, 0, ChunkSize);
      while chunk != []
        invariant bytesSent <= |data|
        invariant chunk == Read(data, bytesSent, ChunkSize)
        invariant emitted + Chunks(data[bytesSent..], ChunkSize) == Chunks(data, ChunkSize)
        invariant listeners == old(listeners) && broadcastStarted && !broadcastFinished
        invariant producerLaunches == old(producerLaunches) == 1 && producerRuns == 1
        decreases |data| - bytesSent
      {
        assert bytesSent < |data|;
        ChunksFrom(data, bytesSent, ChunkSize);
        ghost var later := Chunks(data[bytesSent + |chunk|..], ChunkSize);
        assert emitted + [chunk] + later == Chunks(data, ChunkSize);
        emitted := emitted + [chunk];
        bytesSent := bytesSent + |chunk|;
        chunk := Read(data, bytesSent, ChunkSize);
      }
      assert data[bytesSent..] == [];
      broadcastFinished := true;
    }
  }
}
