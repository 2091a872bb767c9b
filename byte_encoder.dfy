/** A byte encoder driven on a single thread through its listener: bytes go in
    through `Push`, the encoding hands finished chunks to `PushChunk`, and a
    one-chunk mailbox (`slot`) passes each chunk to whoever pulls it. The two
    stream adapters install a listener that drains the mailbox as soon as it
    fills: the input adapter into a queue of chunks that `Read` serves byte by
    byte, the output adapter into a sink. */
module ByteEncoding {
  import opened Wrappers

  /** The listener in place: none, the input adapter's, or the output adapter's. */
  datatype Listener = NoListener | ChunkQueue | SinkWriter

  /** A chunk held by the input adapter, with the index of its next byte. */
  datatype Chunk = Chunk(data: seq<int>, pos: nat)

  /** What one `Read` of the input adapter gives: a byte, the end of the
      stream (`-1` in the source), or the usage error raised when the adapter
      must push into an encoder that was closed behind its back. */
  datatype ReadResult = Byte(b: int) | EndOfStream | PushAfterClose

  /** The bytes of `cs`, chunk after chunk. */
  function Flatten(cs: seq<seq<int>>): seq<int>
  {
    if cs == [] then [] else Flatten(cs[..|cs| - 1]) + cs[|cs| - 1]
  }

  /** Appending a chunk appends its bytes. */
  lemma FlattenSnoc(cs: seq<seq<int>>, c: seq<int>)
    ensures Flatten(cs + [c]) == Flatten(cs) + c
  {
    assert (cs + [c])[..|cs|] == cs;
  }

  /** The bytes a write-then-close adds to the sink: the writes add the
      chunks they emitted, the close emits the rest of the batch, so the
      sink gains the chunks emitted by both. */
  lemma ClosedBatch(e0: seq<seq<int>>, e1: seq<seq<int>>, e2: seq<seq<int>>, s0: seq<int>, s1: seq<int>, p1: seq<int>, s2: seq<int>)
    requires e0 <= e1 && s1 == s0 + Flatten(e1[|e0|..])
    requires p1 == [] ==> e2 == e1 && s2 == s1
    requires p1 != [] ==> e2 == e1 + [p1] && s2 == s1 + p1
    ensures e0 <= e2 && s2 == s1 + p1 && s2 == s0 + Flatten(e2[|e0|..])
  {
    if p1 != [] {
      assert e2[|e0|..] == e1[|e0|..] + [p1];
      FlattenSnoc(e1[|e0|..], p1);
    }
  }

  /** What follows a prefix is the rest. */
  lemma SuffixAfter<T>(a: seq<T>, b: seq<T>)
    ensures (a + b)[|a|..] == b
  {
  }

  /** Joining two runs of chunks joins their bytes. */
  lemma {:induction false} FlattenAppend(a: seq<seq<int>>, b: seq<seq<int>>)
    ensures Flatten(a + b) == Flatten(a) + Flatten(b)
    decreases |b|
  {
    if b != [] {
      var b0 := b[..|b| - 1];
      assert a + b == (a + b0) + [b[|b| - 1]];
      FlattenSnoc(a + b0, b[|b| - 1]);
      FlattenSnoc(b0, b[|b| - 1]);
      assert b == b0 + [b[|b| - 1]];
      FlattenAppend(a, b0);
    } else {
      assert a + b == a;
    }
  }

  /** The bytes of a chunk not yet read. */
  function Rest(c: Chunk): seq<int>
  {
    if c.pos <= |c.data| then c.data[c.pos..] else []
  }

  /** The bytes of a queue not yet read, in queue order. */
  function Unread(q: seq<Chunk>): seq<int>
  {
    if q == [] then [] else Rest(q[0]) + Unread(q[1..])
  }

  /** A chunk in front of a queue is read first. */
  lemma UnreadCons(c: Chunk, q: seq<Chunk>)
    ensures Unread([c] + q) == Rest(c) + Unread(q)
  {
    assert ([c] + q)[1..] == q;
  }

  /** Every queued chunk still has a byte to give: a chunk is removed as soon
      as its cursor reaches its end, and only non-empty chunks are queued. */
  predicate QueueInvariant(q: seq<Chunk>)
  {
    forall i :: 0 <= i < |q| ==> q[i].pos < |q[i].data|
  }

  /** A queue with a chunk in front keeps the invariant exactly when the
      chunk has a byte to give and the rest of the queue keeps it. */
  lemma QueueInvariantCons(c: Chunk, q: seq<Chunk>)
    ensures QueueInvariant([c] + q) <==> c.pos < |c.data| && QueueInvariant(q)
  {
    var r := [c] + q;
    assert r[0] == c;
    assert forall i :: 0 <= i < |q| ==> r[i + 1] == q[i];
    assert forall i :: 1 <= i < |r| ==> r[i] == q[i - 1];
  }

  /** What the input adapter's listener adds to the queue for a pulled chunk:
      a copy with its cursor at 0, unless the chunk is empty. */
  function Enqueued(data: seq<int>): (q: seq<Chunk>)
    ensures QueueInvariant(q)
    ensures Unread(q) == data
  {
    if |data| == 0 then [] else [Chunk(data, 0)]
  }

  /** One step of `read()`: move the head chunk's cursor past the byte it
      serves and drop the chunk once it is used up. */
  function Advance(q: seq<Chunk>): seq<Chunk>
    requires q != []
  {
    var c := Chunk(q[0].data, q[0].pos + 1);
    if c.pos == |c.data| then q[1..] else [c] + q[1..]
  }

  /** A step of `read()` keeps every cursor inside its chunk, and either
      keeps the queue's length or drops exactly its head. */
  lemma AdvanceKeepsQueue(q: seq<Chunk>)
    requires q != [] && QueueInvariant(q)
    ensures QueueInvariant(Advance(q))
    ensures |Advance(q)| == |q| || Advance(q) == q[1..]
  {
    var c, tail := Chunk(q[0].data, q[0].pos + 1), q[1..];
    assert q == [q[0]] + tail;
    QueueInvariantCons(q[0], tail);
    if c.pos < |c.data| {
      QueueInvariantCons(c, tail);
    }
  }

  /** A step of `read()` removes exactly the served byte from the front of
      the unread bytes. */
  lemma AdvanceServesHead(q: seq<Chunk>)
    requires q != [] && QueueInvariant(q)
    ensures Unread(q) == [q[0].data[q[0].pos]] + Unread(Advance(q))
  {
    var c, tail := Chunk(q[0].data, q[0].pos + 1), q[1..];
    assert Unread(q) == Rest(q[0]) + Unread(tail);
    RestNext(q[0]);
    if c.pos == |c.data| {
      assert Rest(c) == [];
    } else {
      UnreadCons(c, tail);
      ConsAssoc(q[0].data[q[0].pos], Rest(c), Unread(tail));
    }
  }

  /** Moving a cursor by one skips exactly the byte under it. */
  lemma RestNext(c: Chunk)
    requires c.pos < |c.data|
    ensures Rest(c) == [c.data[c.pos]] + Rest(Chunk(c.data, c.pos + 1))
  {
  }

  /** Prepending an element commutes with appending. */
  lemma ConsAssoc<T>(x: T, a: seq<T>, b: seq<T>)
    ensures ([x] + a) + b == [x] + (a + b)
  {
  }

  class ByteEncoder {
    /** Set by the first `Close` and never reset. */
    var closed: bool
    /** The one-chunk mailbox (`outgoingData`; `None` is `null`). */
    var slot: Option<seq<int>>
    var listener: Listener

    /** The encoding: bytes are batched into chunks of `chunkSize` bytes, and
        `Flush` emits whatever is left over (chunk size 1 is the identity
        encoding, one chunk per byte). */
    const chunkSize: nat
    var pending: seq<int>

    /** The input adapter: the source bytes not yet read, the queue of
        chunks, and the count of bytes pushed from the source. */
    var source: seq<int>
    var chunks: seq<Chunk>
    var ctr: nat

    /** The output adapter's sink. */
    var sink: seq<int>

    /** Every chunk handed to `PushChunk` so far, in order. */
    ghost var emitted: seq<seq<int>>
    /** How many times a listener was told that the encoder closed. */
    ghost var closeNotices: nat

    ghost predicate Valid()
      reads this
    {
      && 1 <= chunkSize
      && |pending| < chunkSize
      && (closed ==> pending == [])
      && QueueInvariant(chunks)
    }

    /** Every byte the encoding has accepted: those already emitted as
        chunks, then those still pending. */
    ghost function Accepted(): seq<int>
      reads this
    {
      Flatten(emitted) + pending
    }

    /** The bytes the input adapter has still to serve, in order. */
    ghost function Pipeline(): seq<int>
      reads this
    {
      Unread(chunks) + pending + source
    }

    /** The input adapter is in charge: its listener is in place, nothing is
        stuck in the mailbox, the encoder is closed only once the source is
        used up, and an empty queue means the stream has ended. */
    ghost predicate InputReady()
      reads this
    {
      && listener == ChunkQueue
      && slot == None
      && (closed ==> source == [])
      && (chunks == [] ==> closed)
    }

    /** What handing `data` to `PushChunk` does, by listener: with none the
        chunk stays in the mailbox; the input adapter's listener pulls it and
        queues a copy; the output adapter's listener pulls it and writes its
        bytes to the sink. */
    twostate predicate ChunkDelivered(data: seq<int>)
      reads this
    {
      && emitted == old(emitted) + [data]
      && match listener
         case NoListener => slot == Some(data) && chunks == old(chunks) && sink == old(sink)
         case ChunkQueue => slot == None && chunks == old(chunks) + Enqueued(data) && sink == old(sink)
         case SinkWriter => slot == None && chunks == old(chunks) && sink == old(sink) + data
    }

    constructor (chunkSize: nat)
      requires 1 <= chunkSize
      ensures Valid() && this.chunkSize == chunkSize
      ensures !closed && slot == None && listener == NoListener && pending == []
      ensures source == [] && chunks == [] && ctr == 0 && sink == []
      ensures emitted == [] && closeNotices == 0
    {
      this.chunkSize := chunkSize;
      closed, slot, listener, pending := false, None, NoListener, [];
      source, chunks, ctr, sink := [], [], 0, [];
      emitted, closeNotices := [], 0;
    }

    /** Replaces the listener; a chunk already in the mailbox is not
        announced to the new one. */
    method SetListener(l: Listener)
      modifies this`listener
      ensures listener == l
    {
      listener := l;
    }

    method GetDataListener() returns (l: Listener)
      ensures l == listener
    {
      l := listener;
    }

    /** Takes the mailbox's chunk, or `None` once the encoder is closed and
        the mailbox empty. Waiting for a chunk is not modelled, so the
        mailbox must be full or the encoder closed. */
    method Pull() returns (r: Option<seq<int>>)
      requires slot.Some? || closed
      modifies this`slot
      ensures r == old(slot) && slot == None
    {
      r := slot;
      slot := None;
    }

    /** Never waits. Gives the mailbox's chunk if there is one, an empty
        chunk if the encoder is still open, and `None` if it is closed; the
        mailbox is empty afterwards. */
    method PullImmediately() returns (r: Option<seq<int>>)
      modifies this`slot
      ensures slot == None
      ensures old(slot).Some? ==> r == old(slot)
      ensures old(slot).None? && !closed ==> r == Some([])
      ensures old(slot).None? && closed ==> r == None
    {
      r := slot;
      slot := None;
      if r == None && !closed {
        return Some([]);
      }
    }

    /** Puts `data` in the mailbox and tells the listener. Waiting for the
        mailbox to empty is not modelled, so it must be empty. */
    method PushChunk(data: seq<int>)
      requires Valid() && slot == None
      modifies this
      ensures Valid() && ChunkDelivered(data)
      ensures closed == old(closed) && listener == old(listener) && pending == old(pending)
      ensures source == old(source) && ctr == old(ctr) && closeNotices == old(closeNotices)
    {
      slot := Some(data);
      emitted := emitted + [data];
      ChunkAvailable();
    }

    /** `listener.chunkAvailable`: tells the listener in place that the
        mailbox holds a chunk. */
    method ChunkAvailable()
      requires Valid() && slot.Some?
      modifies this`slot, this`chunks, this`sink
      ensures Valid()
      ensures listener == NoListener ==> slot == old(slot) && chunks == old(chunks) && sink == old(sink)
      ensures listener == ChunkQueue ==> slot == None && chunks == old(chunks) + Enqueued(old(slot).value) && sink == old(sink)
      ensures listener == SinkWriter ==> slot == None && chunks == old(chunks) && sink == old(sink) + old(slot).value
    {
      match listener
      case NoListener =>
      case ChunkQueue => QueueChunk();
      case SinkWriter => WriteToSink();
    }

    /** The input adapter's listener: pulls the chunk and queues a copy with
        its cursor at 0, unless the chunk is empty. */
    method QueueChunk()
      requires Valid() && slot.Some?
      modifies this`slot, this`chunks
      ensures Valid() && slot == None && chunks == old(chunks) + Enqueued(old(slot).value)
    {
      var pulled := Pull();
      if |pulled.value| != 0 {
        chunks := chunks + [Chunk(pulled.value, 0)];
      }
    }

    /** The output adapter's listener: pulls the chunk and writes it to the
        sink, byte by byte in index order. */
    method WriteToSink()
      requires slot.Some?
      modifies this`slot, this`sink
      ensures slot == None && sink == old(sink) + old(slot).value
    {
      var chunk := Pull();
      for a := 0 to |chunk.value|
        invariant slot == None && sink == old(sink) + chunk.value[..a]
      {
        sink := sink + [chunk.value[a]];
      }
    }

    /** The encoding's `push`: refused once the encoder is closed (the
        source's `IllegalStateException`), otherwise the byte joins the
        pending batch, which becomes a chunk when it is full. A full mailbox
        would make the emitting push wait, which is not modelled. */
    method Push(b: int) returns (ok: bool)
      requires Valid()
      requires !closed && |pending| + 1 == chunkSize ==> slot == None
      modifies this
      ensures Valid()
      ensures ok == !old(closed)
      ensures !ok ==> unchanged(this)
      ensures ok ==> Accepted() == old(Accepted()) + [b]
      ensures ok && |old(pending)| + 1 < chunkSize ==>
                pending == old(pending) + [b] && unchanged(this`slot, this`chunks, this`sink, this`emitted)
      ensures ok && |old(pending)| + 1 == chunkSize ==> pending == [] && ChunkDelivered(old(pending) + [b])
      ensures closed == old(closed) && listener == old(listener)
      ensures source == old(source) && ctr == old(ctr) && closeNotices == old(closeNotices)
    {
      if closed {
        return false;
      }
      ok := true;
      pending := pending + [b];
      if |pending| == chunkSize {
        var c := pending;
        pending := [];
        PushChunk(c);
        assert (emitted[..|emitted| - 1]) == old(emitted);
      }
    }

    /** The encoding's `flush`, called only by the first `Close`: the
        pending bytes, if any, become one last chunk. */
    method Flush()
      requires Valid() && !closed
      requires pending != [] ==> slot == None
      modifies this
      ensures Valid() && pending == [] && Accepted() == old(Accepted())
      ensures old(pending) == [] ==> unchanged(this)
      ensures old(pending) != [] ==> ChunkDelivered(old(pending))
      ensures closed == old(closed) && listener == old(listener)
      ensures source == old(source) && ctr == old(ctr) && closeNotices == old(closeNotices)
    {
      if pending != [] {
        var c := pending;
        pending := [];
        PushChunk(c);
        assert (emitted[..|emitted| - 1]) == old(emitted);
      }
    }

    /** Closes the encoder. A second call does nothing. The first flushes the
        pending bytes while the encoder is still open, then marks it closed,
        then tells the listener once. */
    method Close()
      requires Valid()
      requires !closed && pending != [] ==> slot == None
      modifies this
      ensures Valid() && closed && pending == []
      ensures old(closed) ==> unchanged(this)
      ensures !old(closed) ==> Accepted() == old(Accepted()) && listener == old(listener)
      ensures !old(closed) && old(pending) == [] ==> unchanged(this`slot, this`chunks, this`sink, this`emitted)
      ensures !old(closed) && old(pending) != [] ==> ChunkDelivered(old(pending))
      ensures !old(closed) ==> closeNotices == old(closeNotices) + (if listener == NoListener then 0 else 1)
      ensures source == old(source) && ctr == old(ctr)
    {
      if closed {
        return;
      }
      Flush();
      closed := true;
      if listener != NoListener {
        // Both listeners' `encoderClosed` do nothing else.
        closeNotices := closeNotices + 1;
      }
    }

    // -------------------------------------------------------------------------
    // The output adapter and `encode`.

    /** Installs the listener that writes every chunk to the sink, whose
        current contents are `out`. The stream it returns forwards `write`
        to `Push` and `close` to `Close`. */
    method CreateOutputStream(out: seq<int>)
      modifies this`listener, this`sink
      ensures listener == SinkWriter && sink == out
    {
      listener := SinkWriter;
      sink := out;
    }

    /** The output adapter's `write(byte[])`, inherited from `OutputStream`:
        `write(int)`, that is `Push`, for each byte in turn. The first push
        into a closed encoder is refused and stops the loop. */
    method WriteAll(data: seq<int>) returns (ok: bool)
      requires Valid() && slot == None && listener == SinkWriter
      modifies this
      ensures Valid() && slot == None && listener == SinkWriter && closed == old(closed)
      ensures ok <==> !old(closed) || data == []
      ensures old(closed) ==> unchanged(this)
      ensures !old(closed) ==> sink + pending == old(sink) + old(pending) + data
      ensures !old(closed) ==> old(emitted) <= emitted && sink == old(sink) + Flatten(emitted[|old(emitted)|..])
      ensures chunks == old(chunks) && source == old(source) && ctr == old(ctr) && closeNotices == old(closeNotices)
    {
      ghost var sent: seq<seq<int>> := [];
      for i := 0 to |data|
        invariant Valid() && slot == None && listener == SinkWriter && closed == old(closed)
        invariant old(closed) ==> i == 0 && unchanged(this)
        invariant emitted == old(emitted) + sent
        invariant sink == old(sink) + Flatten(sent)
        invariant sink + pending == old(sink) + old(pending) + data[..i]
        invariant chunks == old(chunks) && source == old(source) && ctr == old(ctr) && closeNotices == old(closeNotices)
      {
        ghost var sink0, pending0 := sink, pending;
        var pushed := Push(data[i]);
        if !pushed {
          return false;
        }
        if |pending0| + 1 == chunkSize {
          FlattenSnoc(sent, pending0 + [data[i]]);
          sent := sent + [pending0 + [data[i]]];
        }
        assert data[..i + 1] == data[..i] + [data[i]];
        assert sink + pending == (sink0 + pending0) + [data[i]];
      }
      SuffixAfter(old(emitted), sent);
      assert data[..|data|] == data;
      return true;
    }

    /** The inner `try`-with-resources block of `encode(byte[])`: writes
        `data` through the output adapter and then closes it, whether or not
        the writes were refused. */
    method WriteThenClose(data: seq<int>) returns (ok: bool)
      requires Valid() && slot == None && listener == SinkWriter
      modifies this
      ensures Valid() && closed && listener == SinkWriter && slot == None
      ensures ok <==> !old(closed) || data == []
      ensures old(closed) ==> unchanged(this)
      ensures !old(closed) ==> sink == old(sink) + old(pending) + data
      ensures !old(closed) ==> old(emitted) <= emitted && sink == old(sink) + Flatten(emitted[|old(emitted)|..])
      ensures chunks == old(chunks) && source == old(source) && ctr == old(ctr)
      ensures closeNotices == old(closeNotices) + (if old(closed) then 0 else 1)
    {
      ok := WriteAll(data);
      ghost var before, sink0, pending0 := emitted, sink, pending;
      Close();
      if !old(closed) {
        ClosedBatch(old(emitted), before, emitted, old(sink), sink0, pending0, sink);
      }
    }

    /** `encode(byte[])`: writes every byte through the output adapter into
        an empty sink, closes, and returns what reached the sink: the
        pending bytes and then `data`, as the chunks emitted during the call.
        On a closed encoder any byte is refused (`None`). */
    method Encode(data: seq<int>) returns (r: Option<seq<int>>)
      requires Valid() && slot == None
      modifies this
      ensures Valid() && closed && listener == SinkWriter && slot == None
      ensures !old(closed) ==> r == Some(old(pending) + data)
      ensures !old(closed) ==> old(emitted) <= emitted && r.value == Flatten(emitted[|old(emitted)|..])
      ensures !old(closed) ==> Accepted() == old(Accepted()) + data
      ensures old(closed) ==> r == (if data == [] then Some([]) else None)
      ensures old(closed) ==> emitted == old(emitted) && pending == old(pending)
      ensures r.Some? ==> sink == r.value
      ensures chunks == old(chunks) && source == old(source) && ctr == old(ctr)
      ensures closeNotices == old(closeNotices) + (if old(closed) then 0 else 1)
    {
      CreateOutputStream([]);
      var ok := WriteThenClose(data);
      if !ok {
        return None;
      }
      r := Some(sink);
      if !old(closed) {
        assert sink == old(pending) + data;
        assert emitted == old(emitted) + emitted[|old(emitted)|..];
        FlattenAppend(old(emitted), emitted[|old(emitted)|..]);
      }
    }

    // -------------------------------------------------------------------------
    // The input adapter.

    /** One turn of `queueNext`'s loop while the source has a byte left:
        reads it, pushes it and counts it. A refused push leaves the byte
        read but not counted. */
    method PushSourceByte() returns (ok: bool)
      requires Valid() && listener == ChunkQueue && slot == None && chunks == [] && source != []
      modifies this
      ensures Valid() && listener == ChunkQueue && slot == None
      ensures ok == !old(closed) && closed == old(closed)
      ensures source == old(source[1..])
      ensures ok ==> Pipeline() == old(Pipeline()) && ctr == old(ctr) + 1
      ensures !ok ==> ctr == old(ctr) && chunks == []
      ensures sink == old(sink) && closeNotices == old(closeNotices)
      ensures chunks == [] ==> emitted == old(emitted)
      ensures chunks != [] ==> emitted == old(emitted) + [Unread(chunks)]
    {
      var z := source[0];
      source := source[1..];
      ghost var pending0, rest := pending, source;
      assert old(Pipeline()) == pending0 + [z] + rest;
      ok := Push(z);
      if !ok {
        return;
      }
      if |pending0| + 1 == chunkSize {
        assert Unread(chunks) == pending0 + [z];
      } else {
        assert chunks == [] && pending == pending0 + [z];
      }
      assert Unread(chunks) + pending == pending0 + [z];
      ctr := ctr + 1;
    }

    /** Pushes source bytes until a chunk is queued; at the end of the source
        closes the encoder instead. Fails (`false`) only if it must push into
        an encoder that is already closed. */
    method QueueNext() returns (ok: bool)
      requires Valid() && listener == ChunkQueue && slot == None
      modifies this
      ensures Valid() && listener == ChunkQueue && slot == None
      ensures old(chunks) != [] ==> ok && unchanged(this)
      ensures ok ==> chunks != [] || (closed && source == [])
      ensures ok ==> Pipeline() == old(Pipeline())
      ensures !ok ==> old(closed) && closed
      ensures old(closed) ==> closed
      ensures (!old(closed) || old(source) == []) ==> ok
      ensures old(closed) && old(chunks) == [] && old(source) != [] ==> !ok
      ensures !ok ==> source == old(source)[1..] && ctr == old(ctr)
      ensures !old(closed) && closed ==> source == []
      ensures |source| <= |old(source)| && ctr <= old(ctr) + |old(source)| - |source|
      ensures sink == old(sink)
      ensures closeNotices == old(closeNotices) + (if !old(closed) && closed then 1 else 0)
      ensures old(emitted) <= emitted
      ensures emitted == old(emitted) ==> chunks == old(chunks)
      ensures !ok ==> emitted == old(emitted)
      ensures emitted != old(emitted) ==> old(chunks) == [] && Unread(chunks) == Flatten(emitted[|old(emitted)|..])
    {
      if chunks != [] {
        return true;
      }
      if closed {
        // A closed encoder gets one turn of the loop: `close` again at the
        // end of the source, otherwise a refused push.
        if source == [] {
          Close();
          return true;
        }
        ok := PushSourceByte();
        return;
      }
      ghost var sent: seq<seq<int>> := [];
      while chunks == []
        invariant Valid() && listener == ChunkQueue && slot == None && !closed
        invariant Pipeline() == old(Pipeline())
        invariant |source| <= |old(source)| && ctr <= old(ctr) + |old(source)| - |source|
        invariant sink == old(sink) && closeNotices == old(closeNotices)
        invariant emitted == old(emitted) + sent
        invariant chunks == [] <==> sent == []
        invariant sent != [] ==> Unread(chunks) == Flatten(sent)
        decreases |source|
      {
        if source == [] {
          ghost var pending0 := pending;
          Close();
          if pending0 != [] {
            assert Unread(chunks) == pending0;
            FlattenSnoc([], pending0);
            sent := sent + [pending0];
          }
          SuffixAfter(old(emitted), sent);
          return true;
        }
        // The encoder is open, so the push is accepted.
        var _ := PushSourceByte();
        if chunks != [] {
          FlattenSnoc([], Unread(chunks));
          sent := [Unread(chunks)];
        }
      }
      SuffixAfter(old(emitted), sent);
      return true;
    }

    /** Creates the input adapter over `src`: installs the queueing listener
        and fills the queue at once. */
    method CreateInputStream(src: seq<int>) returns (ok: bool)
      requires Valid() && slot == None
      modifies this
      ensures Valid() && listener == ChunkQueue && slot == None
      ensures ok <==> !old(closed) || src == []
      ensures ok ==> Pipeline() == old(pending) + src
      ensures old(closed) ==> closed
      ensures !old(closed) ==> InputReady()
      ensures sink == old(sink)
      ensures closeNotices == old(closeNotices) + (if !old(closed) && closed then 1 else 0)
      ensures old(emitted) <= emitted
      ensures emitted == old(emitted) ==> chunks == []
      ensures emitted != old(emitted) ==> Unread(chunks) == Flatten(emitted[|old(emitted)|..])
    {
      source, chunks, ctr, listener := src, [], 0, ChunkQueue;
      assert Valid() && slot == None && chunks == [] && Pipeline() == old(pending) + src;
      ghost var e0 := emitted;
      ok := QueueNext();
      assert e0 == old(emitted);
      if !old(closed) {
        assert ok && (closed ==> source == []);
      }
    }

    /** `read()`: the next byte of the head chunk, refilling the queue from
        the source when it runs dry; the end of the stream once the queue is
        empty. */
    method Read() returns (r: ReadResult)
      requires Valid() && listener == ChunkQueue && slot == None
      modifies this
      ensures Valid() && listener == ChunkQueue && slot == None
      ensures r == EndOfStream <==> old(chunks) == []
      ensures r == EndOfStream ==> unchanged(this)
      ensures r.Byte? ==> r.b == old(chunks[0].data[chunks[0].pos]) && [r.b] + Pipeline() == old(Pipeline())
      ensures r.Byte? ==> chunks != [] || (closed && source == [])
      ensures r == PushAfterClose ==> old(closed)
      ensures old(closed) ==> closed
      ensures old(InputReady()) ==> InputReady() && r != PushAfterClose
      ensures sink == old(sink)
      ensures closeNotices == old(closeNotices) + (if !old(closed) && closed then 1 else 0)
      ensures old(emitted) <= emitted
      ensures r.Byte? && emitted == old(emitted) ==> [r.b] + Unread(chunks) == Unread(old(chunks))
      ensures emitted != old(emitted) ==> r.Byte? && Unread(old(chunks)) == [r.b] && Unread(chunks) == Flatten(emitted[|old(emitted)|..])
    {
      if chunks == [] {
        return EndOfStream;
      }
      var value := chunks[0].data[chunks[0].pos];
      AdvanceKeepsQueue(chunks);
      AdvanceServesHead(chunks);
      chunks := Advance(chunks);
      assert Unread(old(chunks)) == [value] + Unread(chunks);
      ghost var rest := Pipeline();
      assert old(Pipeline()) == [value] + rest;
      if chunks == [] {
        var ok := QueueNext();
        if !ok {
          return PushAfterClose;
        }
        assert Pipeline() == rest;
      }
      return Byte(value);
    }

    /** Calls `read()` until the end of the stream: a ready stream yields
        exactly the bytes it still has to serve, in order. */
    method ReadToEnd() returns (out: seq<int>)
      requires Valid() && InputReady()
      modifies this
      ensures out == old(Pipeline())
      ensures Valid() && InputReady() && closed && chunks == [] && pending == [] && source == []
      ensures sink == old(sink)
      ensures closeNotices == old(closeNotices) + (if old(closed) then 0 else 1)
    {
      out := [];
      while true
        invariant Valid() && InputReady() && out + Pipeline() == old(Pipeline())
        invariant sink == old(sink) && (old(closed) ==> closed)
        invariant closeNotices == old(closeNotices) + (if !old(closed) && closed then 1 else 0)
        decreases |Pipeline()|
      {
        ghost var before := Pipeline();
        var r := Read();
        if r == EndOfStream {
          assert chunks == [] && pending == [] && source == [];
          assert Pipeline() == [];
          return;
        }
        assert r.Byte? && [r.b] + Pipeline() == before;
        assert (out + [r.b]) + Pipeline() == out + before;
        out := out + [r.b];
      }
    }
  }

  /** Reading a fresh input adapter to its end gives back exactly the source
      bytes, in order, whatever the chunk size. */
  method StreamRoundTrip(chunkSize: nat, src: seq<int>) returns (out: seq<int>)
    requires 1 <= chunkSize
    ensures out == src
  {
    var e := new ByteEncoder(chunkSize);
    var _ := e.CreateInputStream(src);
    assert e.Pipeline() == src by {
      assert [] + src == src;
    }
    out := e.ReadToEnd();
  }

  /** `encode` on a fresh encoder returns its input unchanged, whatever the
      chunk size. */
  method EncodeRoundTrip(chunkSize: nat, data: seq<int>) returns (r: Option<seq<int>>)
    requires 1 <= chunkSize
    ensures r == Some(data)
  {
    var e := new ByteEncoder(chunkSize);
    r := e.Encode(data);
    assert [] + data == data;
  }

  /** Without a listener, the identity encoding hands bytes 1, 2 and 3 over
      one pull at a time; after `Close` every non-waiting pull reports the
      encoder closed, and a further push is refused. */
  method MailboxScenario() returns (got: seq<Option<seq<int>>>, after: Option<seq<int>>, refused: bool)
    ensures got == [Some([1]), Some([2]), Some([3])]
    ensures after == None && refused
  {
    var e := new ByteEncoder(1);
    got := [];
    var b := 1;
    while b <= 3
      invariant 1 <= b <= 4 && e.Valid() && !e.closed && e.slot == None && e.listener == NoListener
      invariant e.pending == [] && |got| == b - 1
      invariant forall j :: 0 <= j < |got| ==> got[j] == Some([j + 1])
    {
      var _ := e.Push(b);
      assert [] + [b] == [b];
      var c := e.Pull();
      got := got + [c];
      b := b + 1;
    }
    e.Close();
    after := e.PullImmediately();
    var again := e.PullImmediately();
    assert again == None;
    var ok := e.Push(4);
    refused := !ok;
  }
}
