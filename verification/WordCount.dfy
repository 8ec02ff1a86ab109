/** The word-count application: its records, its map and its reduce. */
module WordCount {
  import opened Words
  import opened RowMajor
  import opened Bytes
  import opened Lists
  import opened Text
  import opened Transport
  import opened Batching
  import Protocol
  import Node

  // ----- Records ---------------------------------------------------------------------------

  const RECORD_SIZE: nat := MAX_WORD + 4

  function Zeros(n: nat): (r: Bytes)
    ensures |r| == n && forall k :: 0 <= k < n ==> r[k] == 0
  {
    seq(n, _ => 0)
  }

  /** A word in a field of sixteen bytes: cut if it is longer, zeros behind it if it is shorter. */
  function Padded(w: Bytes): (key: Bytes)
    ensures |key| == MAX_WORD
  {
    Take(w, MAX_WORD) + Zeros(SaturatingSub(MAX_WORD, |w|))
  }

  function Record(w: Bytes, count: u32): (r: Bytes)
    ensures |r| == RECORD_SIZE
  {
    Padded(w) + BigEndian(count, 4)
  }

  function KeyOf(r: Bytes): Bytes {
    Take(r, MAX_WORD)
  }

  function CountOf(r: Bytes): u32 {
    if |r| == RECORD_SIZE then FromBig(r[MAX_WORD..]) % U32_RANGE else 0
  }

  /** The bytes of a record: the word, zeros up to sixteen bytes, and the count in network order. */
  lemma RecordLayout(w: Bytes, count: u32)
    requires |w| <= 16
    ensures Record(w, count) == w + Zeros(16 - |w|)
      + [count / 0x100_0000, count / 0x1_0000 % 0x100, count / 0x100 % 0x100, count % 0x100]
  {
    FourBytes(count);
    assert Take(w, MAX_WORD) == w;
  }

  lemma RecordRoundTrip(w: Bytes, count: u32)
    ensures KeyOf(Record(w, count)) == Padded(w) && CountOf(Record(w, count)) == count
  {
    var r := Record(w, count);
    assert r[..MAX_WORD] == Padded(w) && r[MAX_WORD..] == BigEndian(count, 4);
    RangeValues();
    BigRoundTrip(count, 4);
  }

  ghost predicate NulFree(data: Bytes) {
    forall k :: 0 <= k < |data| ==> data[k] != 0
  }

  lemma ShorterPads(v: Bytes, w: Bytes)
    requires |v| < |w| <= MAX_WORD && NulFree(w)
    ensures Padded(v) != Padded(w)
  {
    assert Padded(v)[|v|] == 0 && Padded(w)[|v|] == w[|v|];
  }

  /** Words without a zero byte keep apart when padded. */
  lemma PaddedIsInjective(v: Bytes, w: Bytes)
    requires Keeps(v) && Keeps(w) && NulFree(v) && NulFree(w)
    ensures Padded(v) == Padded(w) <==> v == w
  {
    if |v| < |w| {
      ShorterPads(v, w);
    } else if |w| < |v| {
      ShorterPads(w, v);
    } else {
      assert Padded(v)[..|v|] == v && Padded(w)[..|w|] == w;
    }
  }

  // ----- Map -------------------------------------------------------------------------------

  /** One record with count one for each word. */
  function WordRecords(words: seq<Bytes>): (r: seq<Bytes>)
    ensures |r| == |words| && AllSized(r, RECORD_SIZE)
    ensures forall k :: 0 <= k < |r| ==> r[k] == Record(words[k], 1)
  {
    seq(|words|, k requires 0 <= k < |words| => Record(words[k], 1))
  }

  /** The most records one message holds. */
  const MAX_WORDS: nat := 25

  /** The map sends the words of a chunk in one message, and fails if they do not fit it. */
  function MapText(data: Bytes): Protocol.MapResult {
    var words := WordsOf(data);
    if |words| > MAX_WORDS then Protocol.MapResult([], false)
    else Protocol.MapResult(if words == [] then [] else [Flatten(WordRecords(words))], true)
  }

  lemma SizeOf(k: nat)
    ensures Area(k, RECORD_SIZE) == 20 * k
  {
    AreaIsProduct(k, RECORD_SIZE);
  }

  lemma CapacityOf(n: nat)
    ensures RowOf(n, RECORD_SIZE) == n / 20
  {
    RowColAreDivMod(n, RECORD_SIZE);
  }

  lemma {:induction false} KeptOneMore(pieces: seq<Bytes>, p: Bytes)
    ensures Kept(pieces + [p]) == Kept(pieces) + if Keeps(p) then [p] else []
    decreases |pieces|
  {
    if pieces == [] {
      assert pieces + [p] == [p] + pieces;
      KeptFront(p, pieces);
    } else {
      KeptOneMore(pieces[1..], p);
      assert pieces + [p] == [pieces[0]] + (pieces[1..] + [p]);
      KeptFront(pieces[0], pieces[1..] + [p]);
    }
  }

  lemma WordRecordsOneMore(words: seq<Bytes>, w: Bytes)
    ensures WordRecords(words + [w]) == WordRecords(words) + [Record(w, 1)]
  {
  }

  lemma {:induction false} KeptGrows(pieces: seq<Bytes>, k: nat)
    requires k <= |pieces|
    ensures |Kept(pieces[..k])| <= |Kept(pieces)|
    decreases |pieces| - k
  {
    if k < |pieces| {
      KeptGrows(pieces, k + 1);
      KeptOneMore(pieces[..k], pieces[k]);
      assert pieces[..k + 1] == pieces[..k] + [pieces[k]];
    } else {
      assert pieces[..k] == pieces;
    }
  }

  /** Writes the words among the pieces; they stay in the buffer as long as it is not full. */
  method WriteWords(writer: BufWriter, pieces: seq<Bytes>) returns (ok: bool)
    requires writer.Valid() && writer.size == RECORD_SIZE && writer.Capacity() == 204
    requires writer.pending == [] && writer.flushed == []
    modifies writer, writer.tx`sent, writer.tx.buf, writer.buf
    ensures writer.Valid() && writer.flushed == []
    ensures ok ==> writer.pending == WordRecords(Kept(pieces))
    ensures !ok ==> |Kept(pieces)| >= 204
  {
    SizeOf(204);
    for p := 0 to |pieces|
      invariant writer.Valid() && writer.flushed == [] && writer.len < 204
      invariant writer.pending == WordRecords(Kept(pieces[..p]))
    {
      var word := pieces[p];
      assert pieces[..p + 1] == pieces[..p] + [word];
      KeptOneMore(pieces[..p], word);
      if |word| == 0 || |word| > MAX_WORD {
        continue;
      }
      WordRecordsOneMore(Kept(pieces[..p]), word);
      ok := writer.Write(Record(word, 1));
      if !ok {
        KeptGrows(pieces, p + 1);
        return false;
      }
    }
    assert pieces[..|pieces|] == pieces;
    ok := true;
  }

  lemma OneBatch(job: u16, batch: seq<Bytes>)
    ensures BatchFrames(job, [batch]) == Node.DataFrames(job, [Flatten(batch)])
    ensures BatchFrames(job, []) == Node.DataFrames(job, [])
  {
  }

  method Map(data: Bytes, tx: SpaceCompTx) returns (ok: bool)
    requires tx.Valid()
    modifies tx`sent, tx.buf
    ensures ok == MapText(data).ok
    ensures tx.sent == old(tx.sent) + Node.DataFrames(tx.job, MapText(data).chunks)
  {
    var buf := new u8[4096](_ => 0);
    var writer := new BufWriter(tx, buf, RECORD_SIZE);
    CapacityOf(4096);
    OneBatch(tx.job, WordRecords(WordsOf(data)));
    ok := WriteWords(writer, Split(data));
    if ok {
      SizeOf(writer.len);
      ok := writer.Flush();
    }
  }

  /** `n` words of one letter. */
  function Letters(n: nat): (data: Bytes)
    ensures |data| == 2 * n
  {
    if n == 0 then [] else [0x61, 0x20] + Letters(n - 1)
  }

  lemma {:induction false} LettersHold(n: nat)
    ensures |WordsOf(Letters(n))| == n
  {
    var data := Letters(n);
    if n == 0 {
      assert Split(data) == [[]] + [];
      KeptFront([], []);
    } else {
      LettersHold(n - 1);
      assert data[1..][0] == 0x20;
      assert FirstSpace(data[1..]) == 0 && FirstSpace(data) == 1;
      assert data[2..] == Letters(n - 1);
      KeptFront(data[..1], Split(data[2..]));
    }
  }

  /** The collectors cut their text into chunks of 256 bytes, and the map fails on some of them:
      any that hold between 26 and 128 words of one letter. */
  lemma ShippedChunksCanFail(n: nat)
    requires 25 < n <= 128
    ensures |Letters(n)| <= 256 && !MapText(Letters(n)).ok
  {
    LettersHold(n);
  }

  // ----- Reduce ----------------------------------------------------------------------------

  const MAX_KEYS: nat := 64

  const RECV_BUFFER: nat := 512

  /** A map of limited size that remembers the order in which its keys came. */
  datatype Counts = Counts(keys: seq<Bytes>, totals: map<Bytes, u32>)

  /** Adds to the count of a key; a new key is dropped when the map is full. */
  function Bump(c: Counts, key: Bytes, n: u32): Counts {
    if key in c.totals then c.(totals := c.totals[key := (c.totals[key] + n) % U32_RANGE])
    else if |c.keys| < MAX_KEYS then Counts(c.keys + [key], c.totals[key := n])
    else c
  }

  /** The map after a list of records. */
  function Tally(records: seq<Bytes>): Counts {
    if records == [] then Counts([], map[])
    else
      var last := records[|records| - 1];
      Bump(Tally(records[..|records| - 1]), KeyOf(last), CountOf(last))
  }

  lemma TallyOneMore(records: seq<Bytes>, r: Bytes)
    ensures Tally(records + [r]) == Bump(Tally(records), KeyOf(r), CountOf(r))
  {
    assert (records + [r])[..|records|] == records;
  }

  /** What to add up for a key: the counts of its records, or their number. */
  datatype Measure = ByCount | ByRecord

  function Share(r: Bytes, key: Bytes, m: Measure): nat {
    if KeyOf(r) != key then 0 else if m.ByCount? then CountOf(r) else 1
  }

  function Sum(records: seq<Bytes>, key: Bytes, m: Measure): nat {
    if records == [] then 0
    else Sum(records[..|records| - 1], key, m) + Share(records[|records| - 1], key, m)
  }

  ghost predicate Distinct(keys: seq<Bytes>) {
    forall i, j :: 0 <= i < j < |keys| ==> keys[i] != keys[j]
  }

  ghost predicate IsMap(c: Counts) {
    && |c.keys| <= MAX_KEYS && Distinct(c.keys)
    && forall key :: key in c.totals <==> key in c.keys
  }

  /** The count of a key is right, or the map was full when the key first came. */
  ghost predicate Accounts(c: Counts, records: seq<Bytes>, key: Bytes) {
    if key in c.totals then
      c.totals[key] == Sum(records, key, ByCount) % U32_RANGE && Sum(records, key, ByRecord) > 0
    else
      (Sum(records, key, ByRecord) == 0 && Sum(records, key, ByCount) == 0) || |c.keys| == MAX_KEYS
  }

  lemma BumpIsMap(c: Counts, key: Bytes, n: u32)
    requires IsMap(c)
    ensures IsMap(Bump(c, key, n))
  {
    var c' := Bump(c, key, n);
    forall k ensures k in c'.totals <==> k in c'.keys {
      assert k in c.totals <==> k in c.keys;
    }
  }

  lemma BumpAccounts(c: Counts, records: seq<Bytes>, r: Bytes, key: Bytes)
    requires IsMap(c) && Accounts(c, records, key)
    ensures Accounts(Bump(c, KeyOf(r), CountOf(r)), records + [r], key)
  {
    SumOneMore(records, r, key, ByCount);
    SumOneMore(records, r, key, ByRecord);
    if KeyOf(r) == key && key in c.totals {
      WrapsOnce(Sum(records, key, ByCount), CountOf(r));
    }
  }

  lemma SumOneMore(records: seq<Bytes>, r: Bytes, key: Bytes, m: Measure)
    ensures Sum(records + [r], key, m) == Sum(records, key, m) + Share(r, key, m)
  {
    assert (records + [r])[..|records|] == records;
  }

  lemma WrapsOnce(sum: nat, n: nat)
    ensures (sum % U32_RANGE + n) % U32_RANGE == (sum + n) % U32_RANGE
  {
  }

  /** The map holds at most 64 keys; the count of each is the sum of its records modulo 2^32; a
      key that came and is not there found the map full. */
  lemma {:induction false} TallyIsSound(records: seq<Bytes>, key: Bytes)
    ensures IsMap(Tally(records)) && Accounts(Tally(records), records, key)
    decreases |records|
  {
    if records != [] {
      var n := |records| - 1;
      TallyIsSound(records[..n], key);
      BumpIsMap(Tally(records[..n]), KeyOf(records[n]), CountOf(records[n]));
      BumpAccounts(Tally(records[..n]), records[..n], records[n], key);
      assert records == records[..n] + [records[n]];
    }
  }

  /** A key keeps the place at which it came in. */
  lemma {:induction false} KeysKeepTheirPlace(records: seq<Bytes>, k: nat)
    requires k <= |records|
    ensures Tally(records[..k]).keys <= Tally(records).keys
    decreases |records|
  {
    if k < |records| {
      var n := |records| - 1;
      KeysKeepTheirPlace(records[..n], k);
      assert records[..n][..k] == records[..k];
    } else {
      assert records[..k] == records;
    }
  }

  lemma TallyAtMost(records: seq<Bytes>, key: Bytes)
    ensures (if key in Tally(records).totals then Tally(records).totals[key] else 0) <= Sum(records, key, ByCount)
  {
    TallyIsSound(records, key);
  }

  /** The keys that occur. */
  ghost function Seen(records: seq<Bytes>): set<Bytes> {
    set i | 0 <= i < |records| :: KeyOf(records[i])
  }

  lemma {:induction false} SeenIsCounted(records: seq<Bytes>, key: Bytes)
    ensures key in Seen(records) <==> Sum(records, key, ByRecord) > 0
    decreases |records|
  {
    if records != [] {
      var n := |records| - 1;
      SeenIsCounted(records[..n], key);
      assert Seen(records) == Seen(records[..n]) + {KeyOf(records[n])};
    }
  }

  ghost function KeySet(keys: seq<Bytes>): set<Bytes> {
    set k | k in keys
  }

  lemma {:induction false} KeySetSize(keys: seq<Bytes>)
    requires Distinct(keys)
    ensures |KeySet(keys)| == |keys|
    decreases |keys|
  {
    if keys != [] {
      var n := |keys| - 1;
      KeySetSize(keys[..n]);
      assert KeySet(keys) == KeySet(keys[..n]) + {keys[n]};
      assert keys[n] !in keys[..n];
    }
  }

  lemma SubsetSize(a: set<Bytes>, b: set<Bytes>)
    requires a <= b
    ensures |a| <= |b| && (|a| == |b| ==> a == b)
  {
    var rest := b - a;
    assert b == a + rest;
  }

  /** No key is lost if and only if at most 64 different ones occur. */
  lemma TallyIsComplete(records: seq<Bytes>)
    ensures KeySet(Tally(records).keys) == Seen(records) <==> |Seen(records)| <= 64
  {
    var c, seen := Tally(records), Seen(records);
    TallyIsSound(records, []);
    KeySetSize(c.keys);
    forall key | key in c.keys ensures key in seen {
      TallyIsSound(records, key);
      SeenIsCounted(records, key);
    }
    SubsetSize(KeySet(c.keys), seen);
    if |c.keys| < MAX_KEYS {
      forall key | key in seen ensures key in c.keys {
        TallyIsSound(records, key);
        SeenIsCounted(records, key);
      }
      assert KeySet(c.keys) == seen;
    }
  }

  /** With at most 64 keys and no wrap-around, every count is the sum of the key's records. */
  lemma FewKeysCountExactly(records: seq<Bytes>, key: Bytes)
    requires |Seen(records)| <= 64 && Sum(records, key, ByCount) < U32_RANGE
    ensures var totals := Tally(records).totals;
      if Sum(records, key, ByRecord) == 0 then key !in totals
      else key in totals && totals[key] == Sum(records, key, ByCount)
  {
    TallyIsComplete(records);
    TallyIsSound(records, key);
    SeenIsCounted(records, key);
    assert key in KeySet(Tally(records).keys) <==> key in Seen(records);
  }

  /** The records in a list of payloads, each cut to the receive buffer. */
  function RecordsIn(payloads: seq<Bytes>): seq<Bytes> {
    if payloads == [] then []
    else RecordsIn(payloads[..|payloads| - 1]) + Chunks(Take(payloads[|payloads| - 1], RECV_BUFFER), RECORD_SIZE)
  }

  lemma RecordsInOneMore(payloads: seq<Bytes>, p: Bytes)
    ensures RecordsIn(payloads + [p]) == RecordsIn(payloads) + Chunks(Take(p, RECV_BUFFER), RECORD_SIZE)
  {
    assert (payloads + [p])[..|payloads|] == payloads;
  }

  /** Counts the records of one received batch. */
  method CountBatch(counts: Counts, batch: Bytes, ghost before: seq<Bytes>) returns (after: Counts)
    requires counts == Tally(before)
    ensures after == Tally(before + Chunks(batch, RECORD_SIZE))
  {
    after := counts;
    var records := Chunks(batch, RECORD_SIZE);
    assert before + records[..0] == before;
    for k := 0 to |records|
      invariant after == Tally(before + records[..k])
    {
      after := Bump(after, KeyOf(records[k]), CountOf(records[k]));
      TallyOneMore(before + records[..k], records[k]);
      assert before + records[..k + 1] == (before + records[..k]) + [records[k]];
    }
    assert records[..|records|] == records;
  }

  /** The result: one record for each key, in the order in which the keys came. */
  function Result(c: Counts): (r: seq<Bytes>)
    requires IsMap(c)
    ensures |r| == |c.keys| && AllSized(r, RECORD_SIZE)
    ensures forall k :: 0 <= k < |r| ==> r[k] == Record(c.keys[k], c.totals[c.keys[k]])
  {
    seq(|c.keys|, k requires 0 <= k < |c.keys| => Record(c.keys[k], c.totals[c.keys[k]]))
  }

  method WriteResult(writer: BufWriter, counts: Counts)
    requires IsMap(counts) && writer.Valid() && writer.Written() == [] && writer.len == 0
    requires writer.size == RECORD_SIZE && writer.Capacity() == 25
    modifies writer, writer.tx`sent, writer.tx.buf, writer.buf
    ensures writer.Valid() && writer.Written() == Result(counts) && writer.len < 25
  {
    SizeOf(25);
    var result := Result(counts);
    for k := 0 to |counts.keys|
      invariant writer.Valid() && writer.len < 25 && writer.Written() == result[..k]
    {
      var record := Record(counts.keys[k], counts.totals[counts.keys[k]]);
      assert result[..k + 1] == result[..k] + [record];
      var _ := writer.Write(record);
    }
    assert result[..|counts.keys|] == result;
  }

  /** The batches make up the result, and each fits a message. */
  ghost predicate Reports(batches: seq<seq<Bytes>>, counts: Counts) {
    && IsMap(counts) && Flatten(batches) == Result(counts)
    && forall i :: 0 <= i < |batches| ==>
        AllSized(batches[i], RECORD_SIZE) && Area(|batches[i]|, RECORD_SIZE) <= MAX_PAYLOAD
  }

  /** Sends the result in as many messages as it needs. */
  method Report(counts: Counts, tx: SpaceCompTx, buf: array<u8>) returns (ghost batches: seq<seq<Bytes>>)
    requires IsMap(counts) && tx.Valid() && buf != tx.buf && buf.Length == RECV_BUFFER
    modifies tx`sent, tx.buf, buf
    ensures tx.sent == old(tx.sent) + BatchFrames(tx.job, batches) && Reports(batches, counts)
  {
    var writer := new BufWriter(tx, buf, RECORD_SIZE);
    CapacityOf(buf.Length);
    WriteResult(writer, counts);
    SizeOf(writer.len);
    var _ := writer.Flush();
    batches := writer.flushed;
  }

  /** One turn of the reducer's loop: receives a chunk, if there is one, and counts its records. */
  method CountNext(rx: SpaceCompRx, buf: array<u8>, counts: Counts, ghost got: seq<Bytes>)
      returns (after: Counts, last: Received, ghost now: seq<Bytes>)
    requires rx.Valid() && buf.Length == RECV_BUFFER && counts == Tally(RecordsIn(got))
    modifies rx, buf
    ensures rx.Valid() && after == Tally(RecordsIn(now))
    ensures now + (if last.Data? then Delivered(rx.pending, rx.job, rx.Left()) else [])
         == got + Delivered(old(rx.pending), rx.job, old(rx.Left()))
    ensures last.Data? ==>
      |rx.pending| < |old(rx.pending)|
      && Stop(rx.pending, rx.job, rx.Left()) == Stop(old(rx.pending), rx.job, old(rx.Left()))
    ensures !last.Data? ==> (last.Blocked? <==> Stop(old(rx.pending), rx.job, old(rx.Left())) == Waiting)
  {
    CallByCall(rx.pending, rx.job, rx.Left());
    ghost var poll := Receive(rx.pending, rx.job, rx.Left());
    last := rx.Recv(buf);
    if last.Data? {
      var payload := buf[..last.len];
      assert payload == Take(poll.outcome.payload, RECV_BUFFER);
      after := CountBatch(counts, payload, RecordsIn(got));
      now := got + [poll.outcome.payload];
      RecordsInOneMore(got, poll.outcome.payload);
      ConcatAssociates(got, [poll.outcome.payload], Delivered(rx.pending, rx.job, rx.Left()));
    } else {
      after, now := counts, got;
    }
  }

  /** Counts the records of every chunk until a call does not return one. */
  method CountAll(rx: SpaceCompRx, buf: array<u8>) returns (counts: Counts, last: Received)
    requires rx.Valid() && buf.Length == RECV_BUFFER
    modifies rx, buf
    ensures counts == Tally(RecordsIn(Delivered(old(rx.pending), rx.job, old(rx.Left()))))
    ensures last.Blocked? <==> Stop(old(rx.pending), rx.job, old(rx.Left())) == Waiting
  {
    counts := Counts([], map[]);
    ghost var got: seq<Bytes> := [];
    while true
      invariant rx.Valid() && counts == Tally(RecordsIn(got))
      invariant got + Delivered(rx.pending, rx.job, rx.Left()) == Delivered(old(rx.pending), rx.job, old(rx.Left()))
      invariant Stop(rx.pending, rx.job, rx.Left()) == Stop(old(rx.pending), rx.job, old(rx.Left()))
      decreases |rx.pending|
    {
      counts, last, got := CountNext(rx, buf, counts, got);
      if !last.Data? {
        assert got + [] == got;
        return;
      }
    }
  }

  /** The reducer: counts every record of the job and reports the counts when the phase has ended
      or the endpoint has failed.  When it reports that it is waiting, its receive call has not
      returned yet. */
  method Reduce(rx: SpaceCompRx, tx: SpaceCompTx) returns (waiting: bool, ghost batches: seq<seq<Bytes>>)
    requires rx.Valid() && tx.Valid()
    modifies rx, tx`sent, tx.buf
    ensures waiting <==> Stop(old(rx.pending), rx.job, old(rx.Left())) == Waiting
    ensures tx.sent == old(tx.sent) + BatchFrames(tx.job, batches)
    ensures if waiting then batches == []
            else Reports(batches, Tally(RecordsIn(Delivered(old(rx.pending), rx.job, old(rx.Left())))))
  {
    var buf := new u8[RECV_BUFFER](_ => 0);
    ghost var records := RecordsIn(Delivered(rx.pending, rx.job, rx.Left()));
    var counts, last := CountAll(rx, buf);
    if last.Blocked? {
      return true, [];
    }
    TallyIsSound(records, []);
    batches := Report(counts, tx, buf);
    waiting := false;
  }
}
