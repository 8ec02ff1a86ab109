/** From the collectors' data to the reducers' results, through every run of a job. */
module Pipeline {
  import opened Words
  import RowMajor
  import opened Bytes
  import opened Lists
  import opened Text
  import opened Transport
  import Coordinator
  import Node
  import Roles
  import opened Protocol
  import opened Runs
  import opened Batching
  import opened WordCount
  import Components
  import Clustering
  import Thermal
  import Windows
  import TileDetection
  import TileWire
  import Tiling

  // ----- Word count: the weight of a key ---------------------------------------------------

  /** How many of the words have this padded form. */
  function TimesKey(words: seq<Bytes>, key: Bytes): nat {
    if words == [] then 0
    else TimesKey(words[..|words| - 1], key) + if Padded(words[|words| - 1]) == key then 1 else 0
  }

  /** What a message brings the reducer for a key. */
  function RecordShare(s: Signal, key: Bytes, m: Measure): nat {
    if s.Chunk? then Sum(Chunks(Take(s.payload, RECV_BUFFER), RECORD_SIZE), key, m) else 0
  }

  /** What a collector's message holds of a key. */
  function TextShare(s: Signal, key: Bytes): nat {
    if s.Chunk? then TimesKey(WordsOf(s.payload), key) else 0
  }

  function RecordWeight(key: Bytes, m: Measure): Signal -> nat {
    s => RecordShare(s, key, m)
  }

  function TextWeight(key: Bytes): Signal -> nat {
    s => TextShare(s, key)
  }

  lemma {:induction false} SumConcat(a: seq<Bytes>, b: seq<Bytes>, key: Bytes, m: Measure)
    ensures Sum(a + b, key, m) == Sum(a, key, m) + Sum(b, key, m)
    decreases |b|
  {
    if b == [] {
      assert a + b == a;
    } else {
      var n := |b| - 1;
      SumConcat(a, b[..n], key, m);
      SumOneMore(a + b[..n], b[n], key, m);
      assert a + b == (a + b[..n]) + [b[n]];
    }
  }

  /** The records a reducer reads weigh what the messages bring. */
  lemma {:induction false} RecordsWeigh(signals: seq<Signal>, key: Bytes, m: Measure)
    ensures Sum(RecordsIn(Payloads(signals)), key, m) == Weigh(signals, RecordWeight(key, m))
    decreases |signals|
  {
    if signals != [] {
      var front, last := signals[..|signals| - 1], signals[|signals| - 1];
      RecordsWeigh(front, key, m);
      if last.Chunk? {
        RecordsInOneMore(Payloads(front), last.payload);
        SumConcat(RecordsIn(Payloads(front)), Chunks(Take(last.payload, RECV_BUFFER), RECORD_SIZE), key, m);
      } else {
        assert Payloads(signals) == Payloads(front);
      }
    }
  }

  /** One more word adds one to its own key. */
  lemma WordRecordsSumOneMore(front: seq<Bytes>, w: Bytes, key: Bytes, m: Measure)
    ensures Sum(WordRecords(front + [w]), key, m)
      == Sum(WordRecords(front), key, m) + if Padded(w) == key then 1 else 0
  {
    WordRecordsOneMore(front, w);
    SumOneMore(WordRecords(front), Record(w, 1), key, m);
    RecordRoundTrip(w, 1);
  }

  lemma {:induction false} WordRecordsSum(words: seq<Bytes>, key: Bytes, m: Measure)
    ensures Sum(WordRecords(words), key, m) == TimesKey(words, key)
    decreases |words|
  {
    if words != [] {
      var front, w := words[..|words| - 1], words[|words| - 1];
      WordRecordsSum(front, key, m);
      assert words == front + [w];
      WordRecordsSumOneMore(front, w, key, m);
    }
  }

  /** One message carries the words of a chunk to the reducer unchanged. */
  lemma MessageKeepsWords(words: seq<Bytes>, key: Bytes, m: Measure)
    requires |words| <= MAX_WORDS
    ensures RecordShare(Chunk(Flatten(WordRecords(words))), key, m) == TimesKey(words, key)
  {
    JoinedSize(WordRecords(words), RECORD_SIZE);
    SizeOf(|words|);
    ChunksOfJoined(WordRecords(words), RECORD_SIZE);
    WordRecordsSum(words, key, m);
  }

  ghost predicate IsMapText(mapFn: Bytes -> MapResult) {
    forall p :: mapFn(p) == MapText(p)
  }

  lemma OneReply(p: Bytes, f: Signal -> nat)
    ensures Weigh(AsChunks([p]), f) == f(Chunk(p)) && Weigh(AsChunks([]), f) == 0
  {
    assert AsChunks([p]) == [] + [Chunk(p)];
    WeighOneMore([], Chunk(p), f);
  }

  lemma ReplyKeepsWords(data: Bytes, key: Bytes, m: Measure)
    requires MapText(data).ok
    ensures Weigh(AsChunks(MapText(data).chunks), RecordWeight(key, m)) == TimesKey(WordsOf(data), key)
  {
    var words := WordsOf(data);
    MessageKeepsWords(words, key, m);
    OneReply(Flatten(WordRecords(words)), RecordWeight(key, m));
  }

  lemma MapTransforms(mapFn: Bytes -> MapResult, key: Bytes, m: Measure)
    requires IsMapText(mapFn)
    ensures Transforms(mapFn, RecordWeight(key, m), TextWeight(key))
  {
    forall s | !Fails(mapFn, s) ensures Weigh(Reply(mapFn, s), RecordWeight(key, m)) == TextWeight(key)(s) {
      if s.Chunk? { ReplyKeepsWords(s.payload, key, m); }
    }
  }

  // ----- Word count: texts without zero bytes ----------------------------------------------

  ghost predicate PlainText(scripts: seq<seq<Signal>>) {
    forall i, k :: 0 <= i < |scripts| && 0 <= k < |scripts[i]| && scripts[i][k].Chunk? ==>
      NulFree(scripts[i][k].payload)
  }

  lemma {:induction false} PiecesAreNulFree(data: Bytes, k: nat)
    requires NulFree(data) && k < |Split(data)|
    ensures NulFree(Split(data)[k])
    decreases |data|
  {
    var n := FirstSpace(data);
    if n < |data| && k > 0 {
      PiecesAreNulFree(data[n + 1..], k - 1);
    }
  }

  lemma {:induction false} TimesOneMore(words: seq<Bytes>, v: Bytes, w: Bytes)
    ensures Times(words + [v], w) == Times(words, w) + if v == w then 1 else 0
    decreases |words|
  {
    if words == [] {
      assert words + [v] == [v] && [v][1..] == [];
    } else {
      TimesOneMore(words[1..], v, w);
      assert (words + [v])[1..] == words[1..] + [v];
    }
  }

  lemma {:induction false} TimesKeyIsTimes(words: seq<Bytes>, w: Bytes)
    requires Keeps(w) && NulFree(w)
    requires forall k :: 0 <= k < |words| ==> Keeps(words[k]) && NulFree(words[k])
    ensures TimesKey(words, Padded(w)) == Times(words, w)
    decreases |words|
  {
    if words != [] {
      var front, last := words[..|words| - 1], words[|words| - 1];
      TimesKeyIsTimes(front, w);
      TimesOneMore(front, last, w);
      assert words == front + [last];
      PaddedIsInjective(last, w);
    }
  }

  /** In a text without zero bytes the key of a word is found as often as the word stands there. */
  lemma TextShareIsOccurrences(data: Bytes, w: Bytes)
    requires NulFree(data) && IsWord(w) && NulFree(w)
    ensures TextShare(Chunk(data), Padded(w)) == |Positions(data, w)|
  {
    var words := WordsOf(data);
    forall k | 0 <= k < |words| ensures Keeps(words[k]) && NulFree(words[k]) {
      var at := KeptComesFrom(Split(data), k);
      PiecesAreNulFree(data, at);
    }
    TimesKeyIsTimes(words, w);
    SplitIsExact(data, w);
  }

  /** The number of places where `w` stands in the collectors' chunks. */
  ghost function PlacesIn(s: Signal, w: Bytes): nat {
    if s.Chunk? then |Positions(s.payload, w)| else 0
  }

  ghost function Places(w: Bytes): Signal -> nat {
    s => PlacesIn(s, w)
  }

  ghost function Occurrences(scripts: seq<seq<Signal>>, w: Bytes): nat {
    Total(ScriptPlaces(scripts, w))
  }

  ghost function ScriptPlaces(scripts: seq<seq<Signal>>, w: Bytes): (r: seq<nat>)
    ensures |r| == |scripts| && forall i :: 0 <= i < |r| ==> r[i] == Weigh(scripts[i], Places(w))
  {
    seq(|scripts|, i requires 0 <= i < |scripts| => Weigh(scripts[i], Places(w)))
  }

  lemma {:induction false} WeighAgree(signals: seq<Signal>, f: Signal -> nat, g: Signal -> nat)
    requires forall k :: 0 <= k < |signals| ==> f(signals[k]) == g(signals[k])
    ensures Weigh(signals, f) == Weigh(signals, g)
    decreases |signals|
  {
    if signals != [] { WeighAgree(signals[..|signals| - 1], f, g); }
  }

  lemma TextWeighsOccurrences(scripts: seq<seq<Signal>>, w: Bytes)
    requires PlainText(scripts) && IsWord(w) && NulFree(w)
    ensures Total(ScriptWeights(scripts, TextWeight(Padded(w)))) == Occurrences(scripts, w)
  {
    var f, g := TextWeight(Padded(w)), Places(w);
    forall i | 0 <= i < |scripts| ensures Weigh(scripts[i], f) == Weigh(scripts[i], g) {
      var script := scripts[i];
      forall k | 0 <= k < |script| ensures f(script[k]) == g(script[k]) {
        if script[k].Chunk? {
          assert NulFree(scripts[i][k].payload);
          TextShareIsOccurrences(script[k].payload, w);
        }
      }
      WeighAgree(script, f, g);
    }
    assert ScriptWeights(scripts, f) == ScriptPlaces(scripts, w);
  }

  // ----- Word count: the words that occur --------------------------------------------------

  /** The padded forms of all the words in the collectors' chunks. */
  ghost function Vocabulary(scripts: seq<seq<Signal>>): set<Bytes> {
    set i, k, x | 0 <= i < |scripts| && 0 <= k < |scripts[i]| && scripts[i][k].Chunk?
                  && 0 <= x < |WordsOf(scripts[i][k].payload)| :: Padded(WordsOf(scripts[i][k].payload)[x])
  }

  lemma {:induction false} TotalPositive(xs: seq<nat>) returns (i: nat)
    requires Total(xs) > 0
    ensures i < |xs| && xs[i] > 0
    decreases |xs|
  {
    var n := |xs| - 1;
    if xs[n] > 0 {
      i := n;
    } else {
      i := TotalPositive(xs[..n]);
    }
  }

  lemma {:induction false} WeighPositive(signals: seq<Signal>, f: Signal -> nat) returns (k: nat)
    requires Weigh(signals, f) > 0
    ensures k < |signals| && f(signals[k]) > 0
    decreases |signals|
  {
    var n := |signals| - 1;
    if f(signals[n]) > 0 {
      k := n;
    } else {
      k := WeighPositive(signals[..n], f);
    }
  }

  lemma {:induction false} TimesKeyPositive(words: seq<Bytes>, key: Bytes) returns (x: nat)
    requires TimesKey(words, key) > 0
    ensures x < |words| && Padded(words[x]) == key
    decreases |words|
  {
    var n := |words| - 1;
    if Padded(words[n]) == key {
      x := n;
    } else {
      x := TimesKeyPositive(words[..n], key);
    }
  }

  lemma InVocabulary(scripts: seq<seq<Signal>>, key: Bytes)
    requires Total(ScriptWeights(scripts, TextWeight(key))) > 0
    ensures key in Vocabulary(scripts)
  {
    var i := TotalPositive(ScriptWeights(scripts, TextWeight(key)));
    var k := WeighPositive(scripts[i], TextWeight(key));
    var x := TimesKeyPositive(WordsOf(scripts[i][k].payload), key);
    assert Padded(WordsOf(scripts[i][k].payload)[x]) == key;
  }

  // ----- Word count: from end to end -------------------------------------------------------

  /** A finished run in which no role started late. */
  ghost predicate Complete(job: Job, s: State) {
    && ValidJob(job) && Inv(job, s) && s.reducer.phase.Finished? && NothingEarly(s) && MapsSucceed(job)
  }

  /** The events hold the messages the reducer has taken, among any that mean nothing to it. */
  ghost predicate Streams(events: seq<Event>, id: u16, s: State) {
    Carries(events, id, s.reducer.log)
  }

  lemma ReducerReads(job: Job, s: State, events: seq<Event>, id: u16)
    requires ValidJob(job) && Inv(job, s) && Streams(events, id, s) && !s.reducer.phase.Idle?
    ensures Delivered(events, id, Expected(Everyone(job.mappers))) == Payloads(Signals(s.reducer.log))
    ensures Stop(events, id, Expected(Everyone(job.mappers))) == if s.reducer.phase.Finished? then Ended else Waiting
  {
    OutsAreScripts(job, s);
    Roles.RoleIsReceiver(s.reducer, Everyone(job.mappers), s.toReducer, s.outs, events, id);
  }

  /** Byte for byte: in a finished run without early messages, what the reducer hears of a mapper is
      what the mapper role sends for the messages it has taken itself. */
  lemma ReducerHearsMapper(job: Job, s: State, events: seq<Event>, j: nat, upstream: seq<Event>, id: u16)
    requires ValidJob(job) && Inv(job, s) && s.reducer.phase.Finished? && NothingEarly(s) && Streams(events, id, s)
    requires j < job.mappers && Carries(upstream, id, s.mappers[j].log) && Node.ChunksFit(s.mappers[j].log)
    ensures BytesFrom(Heeded(events, id), j)
         == Node.MapperSends(job.mapFn, upstream, id, Expected(Coordinator.Feeds(job.assignment, j)))
  {
    ReducerBarrier(job, s, j);
    FramedFrom(s.reducer.log, id, j);
    assert Roles.Tail(s.outs[j], 0) == s.outs[j];
    Node.MapperRefines(job, s, j, upstream, id);
  }

  ghost function ReceivedRecords(job: Job, events: seq<Event>, id: u16): seq<Bytes> {
    RecordsIn(Delivered(events, id, Expected(Everyone(job.mappers))))
  }

  lemma ReceivedSum(job: Job, s: State, events: seq<Event>, id: u16, key: Bytes, m: Measure)
    requires IsMapText(job.mapFn) && Complete(job, s) && Streams(events, id, s)
    ensures Sum(ReceivedRecords(job, events, id), key, m) == Total(ScriptWeights(job.scripts, TextWeight(key)))
  {
    ReducerReads(job, s, events, id);
    RecordsWeigh(Signals(s.reducer.log), key, m);
    MapTransforms(job.mapFn, key, m);
    Conservation(job, s, RecordWeight(key, m), TextWeight(key));
  }

  /** The reducer sees no key that is not in the collectors' data. */
  lemma SeenIsVocabulary(job: Job, s: State, events: seq<Event>, id: u16)
    requires IsMapText(job.mapFn) && Complete(job, s) && Streams(events, id, s)
    ensures Seen(ReceivedRecords(job, events, id)) <= Vocabulary(job.scripts)
  {
    var records := ReceivedRecords(job, events, id);
    forall key | key in Seen(records) ensures key in Vocabulary(job.scripts) {
      SeenIsCounted(records, key);
      ReceivedSum(job, s, events, id, key, ByRecord);
      InVocabulary(job.scripts, key);
    }
  }

  /** The reducer's count of the word is the number of places where it stands. */
  ghost predicate Counted(job: Job, events: seq<Event>, id: u16, w: Bytes) {
    var totals := Tally(ReceivedRecords(job, events, id)).totals;
    if Occurrences(job.scripts, w) == 0 then Padded(w) !in totals
    else Padded(w) in totals && totals[Padded(w)] == Occurrences(job.scripts, w)
  }

  /** MapReduce is counting: in every finished run, if at most 64 words occur, the reducer counts
      every word exactly as often as it stands in the collectors' chunks. */
  lemma CountsAreExact(job: Job, s: State, events: seq<Event>, id: u16, w: Bytes)
    requires IsMapText(job.mapFn) && Complete(job, s) && Streams(events, id, s)
    requires PlainText(job.scripts) && IsWord(w) && NulFree(w)
    requires |Vocabulary(job.scripts)| <= 64 && Occurrences(job.scripts, w) < U32_RANGE
    ensures Stop(events, id, Expected(Everyone(job.mappers))) == Ended
    ensures Counted(job, events, id, w)
  {
    var records, key := ReceivedRecords(job, events, id), Padded(w);
    ReducerReads(job, s, events, id);
    ReceivedSum(job, s, events, id, key, ByCount);
    ReceivedSum(job, s, events, id, key, ByRecord);
    TextWeighsOccurrences(job.scripts, w);
    SeenIsVocabulary(job, s, events, id);
    SubsetSize(Seen(records), Vocabulary(job.scripts));
    FewKeysCountExactly(records, key);
  }

  // ----- Word count: when a chunk has too many words ---------------------------------------

  lemma MapShrinks(mapFn: Bytes -> MapResult, key: Bytes, m: Measure)
    requires IsMapText(mapFn)
    ensures Shrinks(mapFn, RecordWeight(key, m), TextWeight(key))
  {
    MapTransforms(mapFn, key, m);
    forall s | Fails(mapFn, s) ensures Weigh(Reply(mapFn, s), RecordWeight(key, m)) == 0 {
      OneReply([], RecordWeight(key, m));
    }
  }

  lemma WordsAreWords(data: Bytes, k: nat)
    requires NulFree(data) && k < |WordsOf(data)|
    ensures IsWord(WordsOf(data)[k]) && NulFree(WordsOf(data)[k])
  {
    var at := KeptComesFrom(Split(data), k);
    PiecesAreNulFree(data, at);
    PiecesHaveNoSpace(data, at);
  }

  lemma {:induction false} FirstWordCounts(words: seq<Bytes>)
    requires words != []
    ensures TimesKey(words, Padded(words[0])) > 0
    decreases |words|
  {
    if |words| > 1 { FirstWordCounts(words[..|words| - 1]); }
  }

  /** A mapper that has failed on a text costs the first word of the text a part of its count, or
      all of it. */
  lemma FailedTextFallsShort(job: Job, s: State, events: seq<Event>, id: u16, j: nat, at: nat, w: Bytes)
    requires IsMapText(job.mapFn) && ValidJob(job) && Inv(job, s) && s.reducer.phase.Finished? && NothingEarly(s)
    requires Streams(events, id, s) && PlainText(job.scripts) && IsWord(w) && NulFree(w)
    requires j < job.mappers && at < |s.mappers[j].log| && Fails(job.mapFn, s.mappers[j].log[at].signal)
    requires TextShare(s.mappers[j].log[at].signal, Padded(w)) > 0
    ensures Sum(ReceivedRecords(job, events, id), Padded(w), ByCount) < Occurrences(job.scripts, w)
  {
    var f, g := RecordWeight(Padded(w), ByCount), TextWeight(Padded(w));
    MapShrinks(job.mapFn, Padded(w), ByCount);
    Shortfall(job, s, j, at, f, g);
    ReducerReads(job, s, events, id);
    RecordsWeigh(Signals(s.reducer.log), Padded(w), ByCount);
    TextWeighsOccurrences(job.scripts, w);
  }

  lemma FailingTextHasWord(data: Bytes) returns (w: Bytes)
    requires NulFree(data) && |WordsOf(data)| > MAX_WORDS
    ensures IsWord(w) && NulFree(w) && TextShare(Chunk(data), Padded(w)) > 0
  {
    w := WordsOf(data)[0];
    WordsAreWords(data, 0);
    FirstWordCounts(WordsOf(data));
  }

  /** If the map fails on some chunk, some word is counted less often than it stands in the text. */
  lemma FailingChunkFallsShort(job: Job, s: State, events: seq<Event>, id: u16, i: nat, k: nat) returns (w: Bytes)
    requires IsMapText(job.mapFn) && ValidJob(job) && Inv(job, s) && s.reducer.phase.Finished? && NothingEarly(s)
    requires Streams(events, id, s) && PlainText(job.scripts)
    requires i < |job.scripts| && k < |job.scripts[i]| && Fails(job.mapFn, job.scripts[i][k])
    ensures IsWord(w) && NulFree(w)
    ensures var totals := Tally(ReceivedRecords(job, events, id)).totals;
      (if Padded(w) in totals then totals[Padded(w)] else 0) < Occurrences(job.scripts, w)
  {
    var j, at := SomeMapperFails(job, s, i, k);
    var i', k' := LogFromScripts(job, s, j, at);
    assert NulFree(job.scripts[i'][k'].payload);
    w := FailingTextHasWord(job.scripts[i'][k'].payload);
    FailedTextFallsShort(job, s, events, id, j, at, w);
    TallyAtMost(ReceivedRecords(job, events, id), Padded(w));
  }

  /** No chunk has more words than fit a message. */
  ghost predicate ChunksMappable(scripts: seq<seq<Signal>>) {
    forall i, k :: 0 <= i < |scripts| && 0 <= k < |scripts[i]| && scripts[i][k].Chunk? ==>
      |WordsOf(scripts[i][k].payload)| <= 25
  }

  /** Every word is counted as often as it stands in the collectors' chunks. */
  ghost predicate AllCounted(job: Job, events: seq<Event>, id: u16) {
    forall w :: IsWord(w) && NulFree(w) ==> Counted(job, events, id, w)
  }

  /** A whole job: a run that starts every role in time and cannot go on, of collectors that
      announce their end, ends; and the counts are all exact if and only if no chunk has more than
      25 words. */
  lemma WordCountJob(job: Job, run: seq<State>, acts: seq<Action>, events: seq<Event>, id: u16)
    requires IsMapText(job.mapFn) && ValidJob(job) && ReadyRun(job, run, acts)
    requires Shaped(job, run[|acts|]) && AtRest(job, run[|acts|]) && Streams(events, id, run[|acts|])
    requires forall i :: 0 <= i < |job.scripts| ==> Announces(job.scripts[i])
    requires PlainText(job.scripts) && |Vocabulary(job.scripts)| <= 64
    requires forall w :: IsWord(w) && NulFree(w) ==> Occurrences(job.scripts, w) < U32_RANGE
    ensures Stop(events, id, Expected(Everyone(job.mappers))) == Ended
    ensures AllCounted(job, events, id) <==> ChunksMappable(job.scripts)
  {
    var s := run[|acts|];
    ReadyRunsLoseNothing(job, run, acts, |acts|);
    ReadyRunsFinish(job, run, acts);
    ReducerReads(job, s, events, id);
    if ChunksMappable(job.scripts) {
      forall i | 0 <= i < |job.scripts| ensures NoneFails(job.mapFn, job.scripts[i]) {
      }
      forall w | IsWord(w) && NulFree(w) ensures Counted(job, events, id, w) {
        CountsAreExact(job, s, events, id, w);
      }
    } else {
      var i, k :| 0 <= i < |job.scripts| && 0 <= k < |job.scripts[i]| && job.scripts[i][k].Chunk?
                  && |WordsOf(job.scripts[i][k].payload)| > MAX_WORDS;
      var w := FailingChunkFallsShort(job, s, events, id, i, k);
      assert !Counted(job, events, id, w);
    }
  }

  /** Whoever receives the reducer's messages reads its counts, one record for each word. */
  lemma ResultIsRead(batches: seq<seq<Bytes>>, counts: Counts, id: u16, room: nat)
    requires Reports(batches, counts) && room >= MAX_PAYLOAD
    ensures AllRecords(BatchFrames(id, batches), id, room, RECORD_SIZE) == Result(counts)
  {
    BatchingIsLossless(batches, id, room, RECORD_SIZE);
  }

  // ----- Any two runs ----------------------------------------------------------------------

  /** How often a hotspot occurs in a message. */
  ghost function PointShare(decode: Bytes -> seq<Components.Point>, s: Signal, p: Components.Point): nat {
    if s.Chunk? then multiset(decode(s.payload))[p] else 0
  }

  ghost function PointWeight(decode: Bytes -> seq<Components.Point>, p: Components.Point): Signal -> nat {
    s => PointShare(decode, s, p)
  }

  ghost function DecodeAll(decode: Bytes -> seq<Components.Point>, payloads: seq<Bytes>): seq<seq<Components.Point>> {
    if payloads == [] then []
    else DecodeAll(decode, payloads[..|payloads| - 1]) + [decode(payloads[|payloads| - 1])]
  }

  lemma {:induction false} PointsWeigh(decode: Bytes -> seq<Components.Point>, signals: seq<Signal>,
                                       p: Components.Point)
    ensures multiset(Flatten(DecodeAll(decode, Payloads(signals))))[p] == Weigh(signals, PointWeight(decode, p))
    decreases |signals|
  {
    if signals != [] {
      var front, last := signals[..|signals| - 1], signals[|signals| - 1];
      PointsWeigh(decode, front, p);
      if last.Chunk? {
        var payloads := Payloads(front);
        assert (payloads + [last.payload])[..|payloads|] == payloads;
        FlattenOneMore(DecodeAll(decode, payloads), decode(last.payload));
      } else {
        assert Payloads(signals) == Payloads(front);
      }
    }
  }

  function ReplyWeight(mapFn: Bytes -> MapResult, f: Signal -> nat): Signal -> nat {
    s => Weigh(Reply(mapFn, s), f)
  }

  /** Any two finished runs of a job hand the reducer the same hotspots, in some order. */
  lemma RunsDeliverTheSame(job: Job, s: State, t: State, decode: Bytes -> seq<Components.Point>)
    requires Complete(job, s) && Complete(job, t)
    ensures multiset(Flatten(DecodeAll(decode, Payloads(Signals(s.reducer.log)))))
         == multiset(Flatten(DecodeAll(decode, Payloads(Signals(t.reducer.log)))))
  {
    forall p: Components.Point
      ensures multiset(Flatten(DecodeAll(decode, Payloads(Signals(s.reducer.log)))))[p]
           == multiset(Flatten(DecodeAll(decode, Payloads(Signals(t.reducer.log)))))[p]
    {
      var f := PointWeight(decode, p);
      var g := ReplyWeight(job.mapFn, f);
      PointsWeigh(decode, Signals(s.reducer.log), p);
      PointsWeigh(decode, Signals(t.reducer.log), p);
      assert Transforms(job.mapFn, f, g);
      Conservation(job, s, f, g);
      Conservation(job, t, f, g);
    }
  }

  /** Wildfire: whatever the schedule, any two finished runs of a job report the same clusters, if
      the reducer has room for all hotspots. */
  lemma ClustersDoNotDependOnTheRun(job: Job, s: State, t: State, decode: Bytes -> seq<Components.Point>,
                                    capacity: nat, radius: real,
                                    out: seq<Components.Cluster>, out': seq<Components.Cluster>)
    requires Complete(job, s) && Complete(job, t)
    requires var batches := DecodeAll(decode, Payloads(Signals(s.reducer.log)));
      |Flatten(batches)| <= capacity
      && Components.ListsComponents(Clustering.Within(radius), Take(Flatten(batches), capacity), out)
    requires var batches' := DecodeAll(decode, Payloads(Signals(t.reducer.log)));
      Components.ListsComponents(Clustering.Within(radius), Take(Flatten(batches'), capacity), out')
    ensures multiset(out) == multiset(out')
  {
    RunsDeliverTheSame(job, s, t, decode);
    Clustering.InterleavingIndependence(capacity, radius,
      DecodeAll(decode, Payloads(Signals(s.reducer.log))), DecodeAll(decode, Payloads(Signals(t.reducer.log))),
      out, out');
  }

  // ----- Tiles and frame -------------------------------------------------------------------

  /** Wildfire: clustering what all tiles report gives the clusters of the frame's own hits, in
      whatever order they arrive and wherever a hit is placed on the ground. */
  lemma TiledClustersAreFrameClusters(g: Tiling.Grid, headers: seq<TileWire.TileHeader>, s: Windows.Scene, r: nat,
                                      d: Thermal.Detector, place: TileDetection.Hit -> Components.Point,
                                      arrived: seq<TileDetection.Hit>, near: Components.Proximity,
                                      out: seq<Components.Cluster>, whole: seq<Components.Cluster>)
    requires TileDetection.AllTilesReceived(g, headers, r) && Thermal.FrameOf(g, s) && TileWire.FrameFits(g) && g.w > 0
    requires multiset(arrived) == multiset(Flatten(TileDetection.TileOutputs(g, headers, s, r, d)))
    requires Components.Symmetric(near) && Components.ListsComponents(near, Pointwise(place, arrived), out)
    requires var hits := TileDetection.DetectRaw(g.w, g.h, TileDetection.VerdictsOf(s, r, d));
      Components.ListsComponents(near, Pointwise(place, hits), whole)
    ensures multiset(out) == multiset(whole)
  {
    var hits := TileDetection.DetectRaw(g.w, g.h, TileDetection.VerdictsOf(s, r, d));
    TileDetection.TilesReportTheFrame(g, headers, s, r, d);
    PointwiseRearranges(place, arrived, hits);
    Components.OrderIndependence(near, Pointwise(place, arrived), Pointwise(place, hits), out, whole);
  }

  /** A tile can be sent exactly when it has at most 59 pixels: the collectors' tiles of 32 by 32
      pixels are refused by the sender. */
  lemma TilesOutgrowMessages(t: TileWire.DualBandTile)
    requires t.Valid()
    ensures |TileWire.Encoded(t)| <= MAX_PAYLOAD <==> RowMajor.Area(t.geo.height, t.geo.width) <= 59
  {
    TileWire.EncodedSize(t);
  }
}
