/**
 * The listener fan-out of the live audio broadcaster (app.py).
 *
 * One producer uploads an audio stream; every listener owns a bounded FIFO
 * queue of pending chunks.  `broadcast_chunk` pushes each non-empty chunk into
 * every registered queue, dropping the oldest pending chunk when a queue is
 * full, so that a slow listener loses old audio instead of making memory grow.
 *
 * Each block that app.py runs while holding `LISTENERS_LOCK` (and that
 * contains no `await`) is modelled as one atomic method.
 */
module Fanout {

  import opened Common

  /** `LISTENER_QUEUE_MAXSIZE`: how many recent chunks a listener queue keeps. */
  const ListenerQueueMaxsize: nat := 50

  /** What a listener queue can hold: a chunk, or the `None` end sentinel that
      the listener generator stops at. */
  datatype Entry = Data(bytes: Bytes) | End

  // ---------------------------------------------------------------------------
  // Specification of the drop-oldest push
  // ---------------------------------------------------------------------------

  /** The `m` most recent elements of `s` (all of them when there are fewer). */
  function Newest<T>(s: seq<T>, m: nat): seq<T>
  {
    if |s| <= m then s else s[|s| - m..]
  }

  /** Taking the newest `m` twice, with more elements appended in between, is
      the same as taking the newest `m` once at the end. */
  lemma NewestOfNewest<T>(s: seq<T>, t: seq<T>, m: nat)
    ensures Newest(Newest(s, m) + t, m) == Newest(s + t, m)
  {
    var n := Newest(s, m);
    if |s| > m {
      var k := |s| - m;
      assert n == s[k..];
      assert n + t == (s + t)[k..];
      if |n + t| > m {
        assert (n + t)[|n + t| - m..] == (s + t)[|s + t| - m..];
      }
    }
  }

  /** The state of one listener queue after the locked body of
      `broadcast_chunk` pushes `x` into it: appended when there is room,
      otherwise the head is dropped first.  `maxsize == 0` is asyncio's
      "unbounded".  The queue's own invariant (never over its size) is
      required; under it the second `put_nowait` always succeeds. */
  function Offer(items: seq<Entry>, maxsize: nat, x: Entry): (r: seq<Entry>)
    requires maxsize == 0 || |items| <= maxsize
    ensures maxsize == 0 || |r| <= maxsize
  {
    if maxsize > 0 && |items| >= maxsize then items[1..] + [x] else items + [x]
  }

  /** What a push means: `x` becomes the newest entry, the entries kept stay
      in their order, and a bounded queue keeps exactly its `maxsize` most
      recent entries. */
  lemma OfferKeepsNewest(items: seq<Entry>, maxsize: nat, x: Entry)
    requires maxsize == 0 || |items| <= maxsize
    ensures var r := Offer(items, maxsize, x);
      && 0 < |r| <= |items| + 1 && r[|r| - 1] == x
      && r[..|r| - 1] == items[|items| + 1 - |r|..]
    ensures maxsize > 0 ==> Offer(items, maxsize, x) == Newest(items + [x], maxsize)
    ensures maxsize == 0 ==> Offer(items, maxsize, x) == items + [x]
  {
    var r := Offer(items, maxsize, x);
    var s := items + [x];
    if maxsize > 0 && |items| >= maxsize {
      assert r == s[1..];
    } else {
      assert r == s;
    }
  }

  /** A queue's state after a sequence of pushes, first to last. */
  function OfferAll(items: seq<Entry>, maxsize: nat, xs: seq<Entry>): (r: seq<Entry>)
    requires maxsize == 0 || |items| <= maxsize
    ensures maxsize == 0 || |r| <= maxsize
    decreases |xs|
  {
    if xs == [] then items else OfferAll(Offer(items, maxsize, xs[0]), maxsize, xs[1..])
  }

  /** Pushing one more entry extends the fold by one step. */
  lemma {:induction false} OfferAllSnoc(items: seq<Entry>, maxsize: nat, xs: seq<Entry>, x: Entry)
    requires maxsize == 0 || |items| <= maxsize
    ensures OfferAll(items, maxsize, xs + [x]) == Offer(OfferAll(items, maxsize, xs), maxsize, x)
    decreases |xs|
  {
    if xs == [] {
      assert xs + [x] == [x];
    } else {
      assert (xs + [x])[1..] == xs[1..] + [x];
      OfferAllSnoc(Offer(items, maxsize, xs[0]), maxsize, xs[1..], x);
    }
  }

  /** Bounded drop-oldest: after any number of pushes a bounded queue holds
      exactly the `maxsize` most recent entries of its old contents followed
      by the pushed ones, in their original order. */
  lemma {:induction false} OfferAllKeepsNewest(items: seq<Entry>, maxsize: nat, xs: seq<Entry>)
    requires 0 < maxsize && |items| <= maxsize
    ensures OfferAll(items, maxsize, xs) == Newest(items + xs, maxsize)
    decreases |xs|
  {
    if xs == [] {
      assert items + xs == items;
    } else {
      var x, rest := xs[0], xs[1..];
      var next := Offer(items, maxsize, x);
      calc {
        OfferAll(items, maxsize, xs);
        OfferAll(next, maxsize, rest);
        { OfferAllKeepsNewest(next, maxsize, rest); }
        Newest(next + rest, maxsize);
        { OfferKeepsNewest(items, maxsize, x); }
        Newest(Newest(items + [x], maxsize) + rest, maxsize);
        { NewestOfNewest(items + [x], rest, maxsize); }
        Newest(items + [x] + rest, maxsize);
        { assert items + [x] + rest == items + xs; }
        Newest(items + xs, maxsize);
      }
    }
  }

  /** Live join: a queue registered empty holds, after any pushes, only the
      most recent of the entries pushed since it joined, in order; nothing
      from before it joined. */
  lemma LateJoinSeesOnlyLaterChunks(maxsize: nat, xs: seq<Entry>)
    requires 0 < maxsize
    ensures OfferAll([], maxsize, xs) == Newest(xs, maxsize)
    ensures forall e :: e in OfferAll([], maxsize, xs) ==> e in xs
  {
    OfferAllKeepsNewest([], maxsize, xs);
    assert [] + xs == xs;
  }

  /** A listener that never consumes, with room for two, given chunks 1, 2, 3
      keeps 2 and 3. */
  lemma NeverConsumingListener(c1: Bytes, c2: Bytes, c3: Bytes)
    ensures OfferAll([], 2, [Data(c1), Data(c2), Data(c3)]) == [Data(c2), Data(c3)]
  {
    LateJoinSeesOnlyLaterChunks(2, [Data(c1), Data(c2), Data(c3)]);
  }

  // ---------------------------------------------------------------------------
  // Specification of the `/source` loop and of the listener generator
  // ---------------------------------------------------------------------------

  /** The chunks of an upload that the `/source` handler broadcasts: the
      non-empty ones, in order, each wrapped as a queue entry. */
  function Broadcasts(stream: seq<Bytes>): (r: seq<Entry>)
    ensures |r| <= |stream|
  {
    if stream == [] then []
    else if stream[|stream| - 1] == [] then Broadcasts(stream[..|stream| - 1])
    else Broadcasts(stream[..|stream| - 1]) + [Data(stream[|stream| - 1])]
  }

  /** The source loop skips exactly the empty chunks: everything it
      broadcasts is a non-empty chunk of the upload, and every non-empty
      chunk of the upload is broadcast. */
  lemma {:induction false} BroadcastsSkipsOnlyEmpty(stream: seq<Bytes>)
    ensures |Broadcasts(stream)| <= |stream|
    ensures forall e :: e in Broadcasts(stream) ==> e.Data? && e.bytes != [] && e.bytes in stream
    ensures forall c :: c in stream && c != [] ==> Data(c) in Broadcasts(stream)
  {
    if stream != [] {
      var front, last := stream[..|stream| - 1], stream[|stream| - 1];
      BroadcastsSkipsOnlyEmpty(front);
      assert stream == front + [last];
      forall c | c in stream && c != []
        ensures Data(c) in Broadcasts(stream)
      {
        if c != last {
          assert c in front;
        }
      }
    }
  }

  /** How many chunks of an upload are non-empty, counted from the front. */
  function NonEmptyCount(stream: seq<Bytes>): nat
  {
    if stream == [] then 0
    else (if stream[0] == [] then 0 else 1) + NonEmptyCount(stream[1..])
  }

  /** Splitting an upload anywhere splits what is broadcast at the same
      place: every chunk is broadcast once, in arrival order. */
  lemma {:induction false} BroadcastsAppend(a: seq<Bytes>, b: seq<Bytes>)
    ensures Broadcasts(a + b) == Broadcasts(a) + Broadcasts(b)
    decreases |b|
  {
    if b == [] {
      assert a + b == a;
    } else {
      var front, last := b[..|b| - 1], b[|b| - 1];
      assert b == front + [last];
      assert a + b == (a + front) + [last];
      BroadcastsSnoc(a + front, last);
      BroadcastsSnoc(front, last);
      BroadcastsAppend(a, front);
    }
  }

  /** `chunk_count`: as many chunks are broadcast as the upload has
      non-empty chunks, repeated identical chunks included. */
  lemma {:induction false} BroadcastsCount(stream: seq<Bytes>)
    ensures |Broadcasts(stream)| == NonEmptyCount(stream)
    decreases |stream|
  {
    if stream != [] {
      var head, tail := stream[0], stream[1..];
      assert stream == [head] + tail;
      BroadcastsAppend([head], tail);
      BroadcastsSnoc([], head);
      assert [] + [head] == [head];
      BroadcastsCount(tail);
    }
  }

  /** One more chunk of the upload is broadcast exactly when it is non-empty. */
  lemma BroadcastsSnoc(stream: seq<Bytes>, c: Bytes)
    ensures Broadcasts(stream + [c]) ==
      if c == [] then Broadcasts(stream) else Broadcasts(stream) + [Data(c)]
  {
    assert (stream + [c])[..|stream|] == stream;
  }

  /** What the listener generator yields from the given queue contents: the
      chunks in front of the first `None` sentinel, in FIFO order. */
  function TakeUntilEnd(items: seq<Entry>): (r: seq<Bytes>)
    ensures |r| <= |items|
    ensures forall i :: 0 <= i < |r| ==> items[i] == Data(r[i])
    ensures |r| < |items| <==> End in items
    ensures |r| < |items| ==> items[|r|] == End
  {
    if items == [] || items[0] == End then []
    else [items[0].bytes] + TakeUntilEnd(items[1..])
  }

  /** The generator's output is exactly what was queued: the yielded chunks,
      then (if the sentinel was reached) the sentinel, then what it left. */
  lemma {:induction false} TakeUntilEndSplits(items: seq<Entry>)
    ensures End !in items ==> items == DataEntries(TakeUntilEnd(items))
    ensures End in items ==>
      var n := |TakeUntilEnd(items)|;
      items == DataEntries(TakeUntilEnd(items)) + [End] + items[n + 1..]
  {
    var r := TakeUntilEnd(items);
    var d := DataEntries(r);
    assert items[..|r|] == d;
    if End in items {
      assert items == items[..|r|] + [End] + items[|r| + 1..];
    } else {
      assert items == items[..|r|];
    }
  }

  /** Chunks wrapped as queue entries. */
  function DataEntries(cs: seq<Bytes>): (r: seq<Entry>)
    ensures |r| == |cs|
    ensures forall i :: 0 <= i < |cs| ==> r[i] == Data(cs[i])
  {
    if cs == [] then [] else [Data(cs[0])] + DataEntries(cs[1..])
  }

  // ---------------------------------------------------------------------------
  // The per-listener queue (asyncio.Queue with a maxsize)
  // ---------------------------------------------------------------------------

  /** A listener queue.  `live` creates each one with
      `maxsize=LISTENER_QUEUE_MAXSIZE`; `maxsize == 0` means unbounded. */
  class BoundedQueue {
    const maxsize: nat
    var items: seq<Entry>

    ghost predicate Valid()
      reads this
    {
      maxsize == 0 || |items| <= maxsize
    }

    /** asyncio's `full()`. */
    predicate Full()
      reads this
    {
      maxsize > 0 && |items| >= maxsize
    }

    constructor (maxsize: nat)
      ensures this.maxsize == maxsize && items == []
      ensures Valid()
    {
      this.maxsize := maxsize;
      items := [];
    }

    /** `put_nowait`: `ok` is false where asyncio raises `QueueFull`. */
    method PutNowait(x: Entry) returns (ok: bool)
      modifies this
      ensures ok == !old(Full())
      ensures items == if ok then old(items) + [x] else old(items)
    {
      ok := !Full();
      if ok {
        items := items + [x];
      }
    }

    /** `get_nowait`: `None` where asyncio raises `QueueEmpty`. */
    method GetNowait() returns (x: Option<Entry>)
      modifies this
      ensures old(items) == [] ==> x == None && items == []
      ensures old(items) != [] ==> x == Some(old(items)[0]) && items == old(items)[1..]
    {
      if items == [] {
        x := None;
      } else {
        x := Some(items[0]);
        items := items[1..];
      }
    }

    /** `await get()` when something is queued (the case in which it returns
        without suspending). */
    method Get() returns (x: Entry)
      requires items != []
      modifies this
      ensures x == old(items)[0] && items == old(items)[1..]
    {
      x := items[0];
      items := items[1..];
    }
  }

  // ---------------------------------------------------------------------------
  // The listener registry and the fan-out (`LISTENERS`)
  // ---------------------------------------------------------------------------

  class Broadcaster {
    /** `LISTENERS`: the queues of the connected listeners. */
    var listeners: set<BoundedQueue>

    /** Every registered queue was created with the configured size and keeps
        within it. */
    ghost predicate Valid()
      reads this, listeners
    {
      forall q :: q in listeners ==> q.maxsize == ListenerQueueMaxsize && q.Valid()
    }

    constructor ()
      ensures listeners == {} && Valid()
    {
      listeners := {};
    }

    /** `live`, lines registering the listener: a fresh empty queue is added to
        the set, and no other queue is touched. */
    method Register() returns (q: BoundedQueue)
      requires Valid()
      modifies this
      ensures Valid()
      ensures fresh(q) && q.items == [] && q.maxsize == ListenerQueueMaxsize
      ensures listeners == old(listeners) + {q}
      ensures forall p :: p in old(listeners) ==> p.items == old(p.items)
    {
      q := new BoundedQueue(ListenerQueueMaxsize);
      listeners := listeners + {q};
    }

    /** The generator's `finally` block: remove the queue if it is still
        registered.  Removing an absent queue changes nothing, so repeating
        it is a no-op. */
    method Deregister(q: BoundedQueue)
      requires Valid()
      modifies this
      ensures Valid()
      ensures listeners == old(listeners) - {q}
      ensures q !in old(listeners) ==> listeners == old(listeners)
    {
      if q in listeners {
        listeners := listeners - {q};
      }
    }

    /** `broadcast_chunk`: an empty chunk changes nothing; otherwise every
        registered queue receives the chunk at its tail, dropping its oldest
        entry if it was full.  Membership does not change, because the
        drop always makes room for the second `put_nowait`. */
    method Broadcast(chunk: Bytes)
      requires Valid()
      modifies this, listeners
      ensures Valid()
      ensures listeners == old(listeners)
      ensures chunk == [] ==> forall q :: q in listeners ==> q.items == old(q.items)
      ensures chunk != [] ==> forall q :: q in listeners ==>
        q.items == Offer(old(q.items), q.maxsize, Data(chunk))
    {
      if chunk == [] {
        return;
      }
      ghost var registered := listeners;
      var pending := listeners;
      var toRemove: seq<BoundedQueue> := [];
      while pending != {}
        invariant pending <= registered && listeners == registered
        invariant toRemove == []
        invariant forall q :: q in registered && q !in pending ==>
          q.items == Offer(old(q.items), q.maxsize, Data(chunk))
        invariant forall q :: q in pending ==> q.items == old(q.items)
        decreases pending
      {
        var q :| q in pending;
        var delivered := Deliver(q, Data(chunk));
        if !delivered {
          toRemove := toRemove + [q];
        }
        pending := pending - {q};
      }
      assert (set q | q in toRemove) == {};
      RemoveDead(toRemove);
    }

    /** The body of the fan-out loop for one queue: `put_nowait`, and on
        `QueueFull` drop the head with `get_nowait` and `put_nowait` again.
        `delivered` is false where the second put would raise, which cannot
        happen while the queue keeps within its size. */
    static method Deliver(q: BoundedQueue, x: Entry) returns (delivered: bool)
      requires q.Valid()
      modifies q
      ensures q.Valid() && delivered
      ensures q.items == Offer(old(q.items), q.maxsize, x)
    {
      delivered := q.PutNowait(x);
      if !delivered {
        var _ := q.GetNowait();
        delivered := q.PutNowait(x);
      }
    }

    /** The cleanup at the end of `broadcast_chunk`: drop each listed queue
        that is still registered. */
    method RemoveDead(dead: seq<BoundedQueue>)
      requires Valid()
      modifies this
      ensures Valid()
      ensures listeners == old(listeners) - set q | q in dead
    {
      for i := 0 to |dead|
        invariant Valid()
        invariant listeners == old(listeners) - set j | 0 <= j < i :: dead[j]
      {
        if dead[i] in listeners {
          listeners := listeners - {dead[i]};
        }
      }
    }

    /** The `/source` handler: broadcast every chunk of the upload, skipping
        empty ones, and report how many were broadcast.  A connection error
        ends the loop exactly like the end of the upload, so `stream` is what
        arrived before either. */
    method Source(stream: seq<Bytes>) returns (chunkCount: nat)
      requires Valid()
      modifies this, listeners
      ensures Valid()
      ensures listeners == old(listeners)
      ensures chunkCount == |Broadcasts(stream)| == NonEmptyCount(stream)
      ensures forall q :: q in listeners ==>
        q.items == OfferAll(old(q.items), q.maxsize, Broadcasts(stream))
    {
      chunkCount := 0;
      var i := 0;
      while i < |stream|
        invariant 0 <= i <= |stream|
        invariant Valid() && listeners == old(listeners)
        invariant chunkCount == |Broadcasts(stream[..i])|
        invariant forall q :: q in listeners ==>
          q.items == OfferAll(old(q.items), q.maxsize, Broadcasts(stream[..i]))
      {
        var chunk := stream[i];
        ghost var sent := Broadcasts(stream[..i]);
        assert stream[..i + 1] == stream[..i] + [chunk];
        BroadcastsSnoc(stream[..i], chunk);
        if chunk != [] {
          forall q | q in listeners
            ensures OfferAll(old(q.items), q.maxsize, sent + [Data(chunk)])
                 == Offer(q.items, q.maxsize, Data(chunk))
          {
            OfferAllSnoc(old(q.items), q.maxsize, sent, Data(chunk));
          }
          Broadcast(chunk);
          chunkCount := chunkCount + 1;
        }
        i := i + 1;
      }
      assert stream[..i] == stream;
      BroadcastsCount(stream);
    }

    /** The listener generator: yield queued chunks in FIFO order until the
        `None` sentinel, then deregister.  When the queue runs empty first the
        generator is suspended in `await q.get()`: `ended` is false and the
        queue stays registered (a later disconnect runs `Deregister`). */
    method Drain(q: BoundedQueue) returns (yielded: seq<Bytes>, ended: bool)
      requires Valid()
      modifies this, q
      ensures Valid()
      ensures yielded == TakeUntilEnd(old(q.items))
      ensures ended <==> End in old(q.items)
      ensures q.items == if ended then old(q.items)[|yielded| + 1..] else []
      ensures listeners == if ended then old(listeners) - {q} else old(listeners)
    {
      yielded := [];
      ended := false;
      while q.items != []
        invariant Valid() && listeners == old(listeners)
        invariant |yielded| + |q.items| <= |old(q.items)|
        invariant DataEntries(yielded) == old(q.items)[..|yielded|]
        invariant q.items == old(q.items)[|yielded|..]
        invariant !ended
        decreases |q.items|
      {
        var x := q.Get();
        if x == End {
          ended := true;
          break;
        }
        yielded := yielded + [x.bytes];
      }
      TakeUntilEndIsPrefix(old(q.items), yielded, ended);
      if ended {
        Deregister(q);
      }
    }
  }

  /** `TakeUntilEnd` is determined by its contract: a data prefix that stops
      at the first sentinel or at the end. */
  lemma {:induction false} TakeUntilEndIsPrefix(items: seq<Entry>, yielded: seq<Bytes>, ended: bool)
    requires |yielded| + (if ended then 1 else 0) <= |items|
    requires DataEntries(yielded) == items[..|yielded|]
    requires ended ==> items[|yielded|] == End
    requires !ended ==> |yielded| == |items|
    ensures yielded == TakeUntilEnd(items)
    ensures ended <==> End in items
    decreases |yielded|
  {
    if yielded != [] {
      assert items[0] == Data(yielded[0]);
      assert DataEntries(yielded[1..]) == items[1..][..|yielded| - 1];
      TakeUntilEndIsPrefix(items[1..], yielded[1..], ended);
      assert yielded == [yielded[0]] + yielded[1..];
    }
  }
}
