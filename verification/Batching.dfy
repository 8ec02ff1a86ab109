/** Batched fixed-size records: packed into a buffer by the writer, sent as data chunks, and
    iterated on the receiving side. */
module Batching {
  import opened Words
  import opened RowMajor
  import opened Bytes
  import opened Lists
  import opened Packet

  // ----- Records in a byte string ----------------------------------------------------------

  /** The whole records of `size` bytes at the front of `data`. */
  function Chunks(data: Bytes, size: nat): seq<Bytes>
    requires size > 0
  {
    if |data| < size then [] else [data[..size]] + Chunks(data[size..], size)
  }

  ghost predicate AllSized(recs: seq<Bytes>, size: nat) {
    forall i :: 0 <= i < |recs| ==> |recs[i]| == size
  }

  lemma {:induction false} JoinedSize(recs: seq<Bytes>, size: nat)
    requires AllSized(recs, size)
    ensures |Flatten(recs)| == Area(|recs|, size)
    decreases |recs|
  {
    if recs != [] { JoinedSize(recs[..|recs| - 1], size); }
  }

  lemma FlattenFront<T>(lists: seq<seq<T>>)
    requires lists != []
    ensures Flatten(lists) == lists[0] + Flatten(lists[1..])
  {
    assert lists == [lists[0]] + lists[1..];
    FlattenConcat([lists[0]], lists[1..]);
    FlattenOneMore([], lists[0]);
    assert [] + [lists[0]] == [lists[0]];
  }

  /** Cutting joined records gives the records back; an incomplete one at the end is ignored. */
  lemma {:induction false} ChunksIgnoreTail(recs: seq<Bytes>, tail: Bytes, size: nat)
    requires size > 0 && AllSized(recs, size) && |tail| < size
    ensures Chunks(Flatten(recs) + tail, size) == recs
    decreases |recs|
  {
    if recs == [] {
      assert Flatten(recs) + tail == tail;
    } else {
      FlattenFront(recs);
      var data := Flatten(recs) + tail;
      ConcatAssociates(recs[0], Flatten(recs[1..]), tail);
      assert data[..size] == recs[0] && data[size..] == Flatten(recs[1..]) + tail;
      ChunksIgnoreTail(recs[1..], tail, size);
    }
  }

  /** Round trip: cutting joined records gives the records back. */
  lemma ChunksOfJoined(recs: seq<Bytes>, size: nat)
    requires size > 0 && AllSized(recs, size)
    ensures Chunks(Flatten(recs), size) == recs
  {
    ChunksIgnoreTail(recs, [], size);
    assert Flatten(recs) + [] == Flatten(recs);
  }

  /** Iterates over the records of a byte slice. */
  class RecordIter {
    const data: Bytes
    const size: nat
    var offset: nat

    ghost predicate Valid()
      reads this
    {
      size > 0 && offset <= |data|
    }

    /** Records not yet returned. */
    ghost function Rest(): seq<Bytes>
      requires Valid()
      reads this
    {
      Chunks(data[offset..], size)
    }

    constructor (data: Bytes, size: nat)
      requires size > 0
      ensures Valid() && this.data == data && this.size == size && Rest() == Chunks(data, size)
    {
      this.data, this.size, offset := data, size, 0;
      new;
      assert data[0..] == data;
    }

    method Next() returns (record: Option<Bytes>)
      requires Valid()
      modifies `offset
      ensures Valid()
      ensures old(Rest()) == [] ==> record == None && offset == old(offset)
      ensures old(Rest()) != [] ==> record == Some(old(Rest())[0]) && Rest() == old(Rest())[1..]
    {
      var end := offset + size;
      if end > |data| {
        return None;
      }
      record := Some(data[offset..end]);
      assert data[offset..][..size] == data[offset..end] && data[offset..][size..] == data[end..];
      offset := end;
    }
  }

  // ----- Sending ---------------------------------------------------------------------------

  const TX_BUFFER: nat := 512

  /** The largest payload one message can carry. */
  const MAX_PAYLOAD: nat := TX_BUFFER - HEADER_SIZE

  /** The sender of a role: frames messages of its job in one buffer and hands them to a reliable
      channel, here the list `sent`. */
  class SpaceCompTx {
    const job: u16
    const buf: array<u8>
    var sent: seq<Bytes>

    ghost predicate Valid()
      reads this
    {
      buf.Length == TX_BUFFER
    }

    constructor (job: u16)
      ensures Valid() && fresh(buf) && this.job == job && sent == []
    {
      this.job := job;
      buf := new u8[TX_BUFFER](_ => 0);
      sent := [];
    }

    /** Builds a message in the buffer and sends it, unless the buffer is too small for it. */
    method Post(op: OpCode, data: Bytes) returns (ok: bool)
      requires Valid()
      modifies `sent, buf
      ensures ok <==> |data| <= 508
      ensures sent == if ok then old(sent) + [Frame(op, job, data)] else old(sent)
    {
      if HEADER_SIZE + |data| > buf.Length {
        return false;
      }
      var header := [Code(op), 0] + BigEndian(job, 2);
      forall i | 0 <= i < HEADER_SIZE {
        buf[i] := header[i];
      }
      ghost var filled := buf[..];
      forall i | HEADER_SIZE <= i < HEADER_SIZE + |data| {
        buf[i] := data[i - HEADER_SIZE];
      }
      assert buf[..HEADER_SIZE + |data|] == header + data;
      sent := sent + [buf[..HEADER_SIZE + |data|]];
      return true;
    }

    /** Sends a data chunk to the next stage. */
    method Send(data: Bytes) returns (ok: bool)
      requires Valid()
      modifies `sent, buf
      ensures ok <==> |data| <= 508
      ensures sent == if ok then old(sent) + [Frame(DataChunk, job, data)] else old(sent)
    {
      ok := Post(DataChunk, data);
    }

    /** Signals the end of data. */
    method Done() returns (ok: bool)
      requires Valid()
      modifies `sent, buf
      ensures ok && sent == old(sent) + [Frame(PhaseDone, job, [])]
    {
      ok := Post(PhaseDone, []);
    }
  }

  /** The frames of a list of batches. */
  function BatchFrames(job: u16, batches: seq<seq<Bytes>>): (frames: seq<Bytes>)
    ensures |frames| == |batches|
    ensures forall i :: 0 <= i < |batches| ==> frames[i] == Frame(DataChunk, job, Flatten(batches[i]))
  {
    seq(|batches|, i requires 0 <= i < |batches| => Frame(DataChunk, job, Flatten(batches[i])))
  }

  /** Packs records into a buffer and sends it whenever it is full. */
  class BufWriter {
    const tx: SpaceCompTx
    const buf: array<u8>
    const size: nat
    var len: nat
    ghost const start: seq<Bytes>        // what had been sent before this writer was made
    ghost var flushed: seq<seq<Bytes>>   // the records of every message this writer has sent
    ghost var pending: seq<Bytes>        // the records in the buffer

    function Capacity(): nat
      requires size > 0
    {
      RowOf(buf.Length, size)
    }

    ghost predicate Valid()
      reads this, tx, buf
    {
      && tx.Valid() && buf != tx.buf && size > 0 && Capacity() > 0
      && len == |pending| <= Capacity() && AllSized(pending, size)
      && Area(len, size) <= buf.Length && buf[..Area(len, size)] == Flatten(pending)
      && tx.sent == start + BatchFrames(tx.job, flushed)
      && forall i :: 0 <= i < |flushed| ==> AllSized(flushed[i], size) && Area(|flushed[i]|, size) <= MAX_PAYLOAD
    }

    /** Every record accepted so far, in order. */
    ghost function Written(): seq<Bytes>
      reads this
    {
      Flatten(flushed) + pending
    }

    constructor (tx: SpaceCompTx, buf: array<u8>, size: nat)
      requires tx.Valid() && buf != tx.buf && 0 < size <= buf.Length
      ensures Valid() && this.tx == tx && this.buf == buf && this.size == size
      ensures Written() == [] && len == 0 && start == tx.sent && flushed == []
    {
      this.tx, this.buf, this.size, len := tx, buf, size, 0;
      start, flushed, pending := tx.sent, [], [];
      new;
      assert tx.sent == start + BatchFrames(tx.job, flushed);
      CapacityAtLeastOne(buf.Length, size);
    }

    /** Appends a record; sends the buffer if that fills it.  Fails only when the full buffer is
        too large for one message. */
    method Write(record: Bytes) returns (ok: bool)
      requires Valid() && len < Capacity() && |record| == size
      modifies this, tx`sent, tx.buf, buf
      ensures Valid()
      ensures Written() == old(Written()) + [record]
      ensures ok ==> len < Capacity()
      ensures ok <==> old(len) + 1 < Capacity() || Area(Capacity(), size) <= MAX_PAYLOAD
      ensures old(len) + 1 < Capacity() || !ok ==> pending == old(pending) + [record] && flushed == old(flushed)
    {
      Append(record);
      assert Written() == old(Written()) + [record];
      if len >= Capacity() {
        ok := Flush();
      } else {
        ok := true;
      }
    }

    /** Copies a record behind those in the buffer. */
    method Append(record: Bytes)
      requires Valid() && len < Capacity() && |record| == size
      modifies this`len, this`pending, buf
      ensures Valid() && len == old(len) + 1 && pending == old(pending) + [record]
    {
      CapacityFits(buf.Length, size, len + 1);
      var offset := len * size;
      AreaIsProduct(len, size);
      forall i | offset <= i < offset + size {
        buf[i] := record[i - offset];
      }
      FlattenOneMore(pending, record);
      assert buf[..offset + size] == Flatten(pending) + record;
      pending := pending + [record];
      len := len + 1;
    }

    /** Sends the records in the buffer as one message, if there are any. */
    method Flush() returns (ok: bool)
      requires Valid()
      modifies this`len, this`flushed, this`pending, tx`sent, tx.buf
      ensures Valid() && Written() == old(Written())
      ensures ok <==> Area(old(len), size) <= MAX_PAYLOAD
      ensures ok ==> len == 0 && pending == []
      ensures ok ==> flushed == if old(len) == 0 then old(flushed) else old(flushed) + [old(pending)]
      ensures !ok ==> len == old(len) && pending == old(pending) && flushed == old(flushed)
    {
      if len == 0 {
        return true;
      }
      var payloadLen := len * size;
      AreaIsProduct(len, size);
      ok := tx.Send(buf[..payloadLen]);
      if !ok {
        return;
      }
      FlattenOneMore(flushed, pending);
      SentGrows(start, tx.job, flushed, pending);
      assert old(Written()) == Flatten(flushed + [pending]) + [];
      flushed, pending, len := flushed + [pending], [], 0;
    }
  }

  lemma CapacityAtLeastOne(n: nat, size: nat)
    requires 0 < size <= n
    ensures RowOf(n, size) > 0
  {
  }

  /** The first `k` records fit the buffer as long as `k` is within capacity. */
  lemma CapacityFits(n: nat, size: nat, k: nat)
    requires size > 0 && k <= RowOf(n, size)
    ensures Area(k, size) <= n
  {
    CellAddress(n, size);
    AreaMonotone(k, RowOf(n, size), size);
  }

  lemma BatchFramesGrow(job: u16, batches: seq<seq<Bytes>>, batch: seq<Bytes>)
    ensures BatchFrames(job, batches + [batch]) == BatchFrames(job, batches) + [Frame(DataChunk, job, Flatten(batch))]
  {
  }

  lemma SentGrows(start: seq<Bytes>, job: u16, batches: seq<seq<Bytes>>, batch: seq<Bytes>)
    ensures (start + BatchFrames(job, batches)) + [Frame(DataChunk, job, Flatten(batch))]
         == start + BatchFrames(job, batches + [batch])
  {
    BatchFramesGrow(job, batches, batch);
  }

  // ----- End to end ------------------------------------------------------------------------

  /** The records a receiver with a buffer of `room` bytes reads from one message of its job:
      the payload is cut to the buffer, then cut into records. */
  function RecordsOf(frame: Bytes, job: u16, room: nat, size: nat): seq<Bytes>
    requires size > 0
  {
    match Parse(frame)
    case None => []
    case Some(m) => if m.op == Some(DataChunk) && m.job == job then Chunks(Take(m.payload, room), size) else []
  }

  function AllRecords(frames: seq<Bytes>, job: u16, room: nat, size: nat): seq<Bytes>
    requires size > 0
  {
    if frames == [] then []
    else AllRecords(frames[..|frames| - 1], job, room, size) + RecordsOf(frames[|frames| - 1], job, room, size)
  }

  /** Messages of another job or of another kind hold no records for a receiver. */
  lemma OthersHoldNoRecords(op: OpCode, id: u16, payload: Bytes, job: u16, room: nat, size: nat)
    requires size > 0 && (id != job || op != DataChunk)
    ensures RecordsOf(Frame(op, id, payload), job, room, size) == []
  {
    ParseFrame(op, id, payload);
  }

  lemma BatchRoundTrip(batch: seq<Bytes>, job: u16, room: nat, size: nat)
    requires size > 0 && AllSized(batch, size) && Area(|batch|, size) <= room
    ensures RecordsOf(Frame(DataChunk, job, Flatten(batch)), job, room, size) == batch
  {
    ParseFrame(DataChunk, job, Flatten(batch));
    JoinedSize(batch, size);
    ChunksOfJoined(batch, size);
  }

  /** Batching is lossless: whatever way the records were cut into messages, a receiver with room
      for each message reads exactly the records that were written, in order. */
  lemma {:induction false} BatchingIsLossless(batches: seq<seq<Bytes>>, job: u16, room: nat, size: nat)
    requires size > 0
    requires forall i :: 0 <= i < |batches| ==> AllSized(batches[i], size) && Area(|batches[i]|, size) <= room
    ensures AllRecords(BatchFrames(job, batches), job, room, size) == Flatten(batches)
    decreases |batches|
  {
    if batches != [] {
      var n := |batches| - 1;
      BatchingIsLossless(batches[..n], job, room, size);
      BatchRoundTrip(batches[n], job, room, size);
      BatchFramesGrow(job, batches[..n], batches[n]);
      assert batches == batches[..n] + [batches[n]];
      var frames := BatchFrames(job, batches);
      assert frames[..n] == BatchFrames(job, batches[..n]);
    }
  }

  /** A writer that has been flushed has sent its records: whoever receives its messages reads
      exactly what was written, in order. */
  lemma FlushedWriterIsLossless(writer: BufWriter, room: nat)
    requires writer.Valid() && writer.pending == [] && room >= MAX_PAYLOAD
    ensures |writer.start| <= |writer.tx.sent|
    ensures AllRecords(writer.tx.sent[|writer.start|..], writer.tx.job, room, writer.size) == writer.Written()
  {
    assert writer.tx.sent[|writer.start|..] == BatchFrames(writer.tx.job, writer.flushed);
    BatchingIsLossless(writer.flushed, writer.tx.job, room, writer.size);
  }
}
