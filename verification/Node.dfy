/** The mapper role of a node: receive, map, send, and announce the end. */
module Node {
  import opened Words
  import opened Bytes
  import opened Lists
  import opened Packet
  import opened Transport
  import opened Batching
  import Coordinator
  import opened Roles
  import opened Protocol

  const MAP_BUFFER: nat := 8192

  /** What mapping the payloads in turn sends; a failure ends it. */
  function SentFor(mapFn: Bytes -> MapResult, payloads: seq<Bytes>): seq<Bytes> {
    if payloads == [] then []
    else
      var result := mapFn(payloads[0]);
      result.chunks + if result.ok then SentFor(mapFn, payloads[1..]) else []
  }

  predicate Breaks(mapFn: Bytes -> MapResult, payloads: seq<Bytes>) {
    exists k :: 0 <= k < |payloads| && !mapFn(payloads[k]).ok
  }

  /** The payloads as they fit the receive buffer. */
  function Cut(payloads: seq<Bytes>, room: nat): (r: seq<Bytes>)
    ensures |r| == |payloads| && forall k :: 0 <= k < |r| ==> r[k] == Take(payloads[k], room)
  {
    seq(|payloads|, k requires 0 <= k < |payloads| => Take(payloads[k], room))
  }

  function DataFrames(job: u16, chunks: seq<Bytes>): (r: seq<Bytes>)
    ensures |r| == |chunks| && forall k :: 0 <= k < |r| ==> r[k] == Frame(DataChunk, job, chunks[k])
  {
    seq(|chunks|, k requires 0 <= k < |chunks| => Frame(DataChunk, job, chunks[k]))
  }

  /** What the application sends fits a message: larger chunks are refused by the sender. */
  ghost predicate Sendable(mapFn: Bytes -> MapResult) {
    forall p :: AllFit(mapFn(p).chunks)
  }

  ghost predicate AllFit(chunks: seq<Bytes>) {
    forall k :: 0 <= k < |chunks| ==> |chunks[k]| <= MAX_PAYLOAD
  }

  method SendAll(tx: SpaceCompTx, chunks: seq<Bytes>)
    requires tx.Valid() && AllFit(chunks)
    modifies tx`sent, tx.buf
    ensures tx.sent == old(tx.sent) + DataFrames(tx.job, chunks)
  {
    for k := 0 to |chunks|
      invariant tx.sent == old(tx.sent) + DataFrames(tx.job, chunks)[..k]
    {
      var _ := tx.Send(chunks[k]);
    }
  }

  lemma SentForFront(mapFn: Bytes -> MapResult, p: Bytes, rest: seq<Bytes>)
    ensures SentFor(mapFn, [p] + rest) == mapFn(p).chunks + if mapFn(p).ok then SentFor(mapFn, rest) else []
    ensures Breaks(mapFn, [p] + rest) <==> !mapFn(p).ok || Breaks(mapFn, rest)
  {
    var all := [p] + rest;
    assert all[1..] == rest;
    if Breaks(mapFn, rest) {
      var k :| 0 <= k < |rest| && !mapFn(rest[k]).ok;
      assert all[k + 1] == rest[k];
    }
    if !mapFn(p).ok { assert all[0] == p; }
  }

  /** The messages for a list of payloads: the results, then the end if the map failed or the
      list has been closed. */
  function SendsOf(mapFn: Bytes -> MapResult, job: u16, payloads: seq<Bytes>, closed: bool): seq<Bytes> {
    DataFrames(job, SentFor(mapFn, payloads))
    + if closed || Breaks(mapFn, payloads) then [Frame(PhaseDone, job, [])] else []
  }

  lemma DataFramesConcat(job: u16, a: seq<Bytes>, b: seq<Bytes>)
    ensures DataFrames(job, a + b) == DataFrames(job, a) + DataFrames(job, b)
  {
  }

  lemma SendsFront(mapFn: Bytes -> MapResult, job: u16, p: Bytes, rest: seq<Bytes>, closed: bool)
    ensures SendsOf(mapFn, job, [p] + rest, closed)
         == DataFrames(job, mapFn(p).chunks)
            + if mapFn(p).ok then SendsOf(mapFn, job, rest, closed) else [Frame(PhaseDone, job, [])]
  {
    SentForFront(mapFn, p, rest);
    DataFramesConcat(job, mapFn(p).chunks, SentFor(mapFn, rest));
  }

  /** Every message a mapper sends for the events of its stream: the results of mapping the chunks
      of its job up to a failure, and its end, failure or not, unless it still waits. */
  function MapperSends(mapFn: Bytes -> MapResult, events: seq<Event>, job: u16, left: nat): seq<Bytes> {
    SendsOf(mapFn, job, Cut(Delivered(events, job, left), MAP_BUFFER), Stop(events, job, left) != Waiting)
  }

  /** A chunk of up to 8192 bytes reaches the map whole, a longer one cut to that length. */
  lemma MapSeesChunk(payload: Bytes)
    ensures Cut([payload], MAP_BUFFER) == [if |payload| <= 8192 then payload else payload[..8192]]
  {
  }

  lemma NoChunk(mapFn: Bytes -> MapResult, events: seq<Event>, job: u16, left: nat)
    requires !Receive(events, job, left).outcome.Got?
    ensures MapperSends(mapFn, events, job, left)
         == if Receive(events, job, left).outcome == Waiting then [] else [Frame(PhaseDone, job, [])]
  {
    CallByCall(events, job, left);
    assert Cut([], MAP_BUFFER) == [];
  }

  lemma OneChunk(mapFn: Bytes -> MapResult, events: seq<Event>, job: u16, left: nat)
    requires Receive(events, job, left).outcome.Got?
    ensures var poll := Receive(events, job, left);
      var result := mapFn(Take(poll.outcome.payload, MAP_BUFFER));
      && |poll.rest| < |events|
      && MapperSends(mapFn, events, job, left) == DataFrames(job, result.chunks)
         + if result.ok then MapperSends(mapFn, poll.rest, job, poll.left) else [Frame(PhaseDone, job, [])]
  {
    CallByCall(events, job, left);
    var poll := Receive(events, job, left);
    var p := Take(poll.outcome.payload, MAP_BUFFER);
    var all := Cut(Delivered(events, job, left), MAP_BUFFER);
    var rest := Cut(Delivered(poll.rest, job, poll.left), MAP_BUFFER);
    assert all == [p] + rest;
    SendsFront(mapFn, job, p, rest, Stop(events, job, left) != Waiting);
  }

  /** How one turn of the mapper's loop ends. */
  datatype Turn = GoOn | Leave | Wait

  /** What is still to be sent after a turn. */
  function Owed(turn: Turn, mapFn: Bytes -> MapResult, events: seq<Event>, job: u16, left: nat): seq<Bytes> {
    match turn
    case GoOn => MapperSends(mapFn, events, job, left)
    case Leave => [Frame(PhaseDone, job, [])]
    case Wait => []
  }

  /** One turn of the mapper's loop: receives a chunk, maps it and sends the results. */
  method MapNext(rx: SpaceCompRx, tx: SpaceCompTx, mapFn: Bytes -> MapResult, buf: array<u8>) returns (turn: Turn)
    requires rx.Valid() && tx.Valid() && rx.job == tx.job && Sendable(mapFn)
    requires buf.Length == MAP_BUFFER && buf != tx.buf
    modifies rx, tx`sent, tx.buf, buf
    ensures rx.Valid() && tx.Valid()
    ensures tx.sent + Owed(turn, mapFn, rx.pending, rx.job, rx.Left())
         == old(tx.sent) + MapperSends(mapFn, old(rx.pending), rx.job, old(rx.Left()))
    ensures turn == GoOn ==> |rx.pending| < |old(rx.pending)|
    ensures turn == Wait ==> rx.pending == [] && rx.Left() > 0
  {
    ghost var events, left := rx.pending, rx.Left();
    var r := rx.Recv(buf);
    if r.Data? {
      OneChunk(mapFn, events, rx.job, left);
      var result := mapFn(buf[..r.len]);
      ghost var before := tx.sent;
      SendAll(tx, result.chunks);
      turn := if result.ok then GoOn else Leave;
      ConcatAssociates(before, DataFrames(rx.job, result.chunks), Owed(turn, mapFn, rx.pending, rx.job, rx.Left()));
    } else {
      NoChunk(mapFn, events, rx.job, left);
      if r.Blocked? {
        WaitingIsEmpty(events, rx.job, left);
        turn := Wait;
      } else {
        turn := Leave;
      }
    }
  }

  /** The mapper role: maps every chunk of the job and announces its end.  When it reports that
      it is waiting, its receive call has not returned yet. */
  method RunMapper(rx: SpaceCompRx, tx: SpaceCompTx, mapFn: Bytes -> MapResult) returns (waiting: bool)
    requires rx.Valid() && tx.Valid() && rx.job == tx.job && Sendable(mapFn)
    modifies rx, tx`sent, tx.buf
    ensures tx.sent == old(tx.sent) + MapperSends(mapFn, old(rx.pending), rx.job, old(rx.Left()))
    ensures waiting ==> rx.pending == [] && rx.Valid() && rx.Left() > 0
  {
    var buf := new u8[MAP_BUFFER](_ => 0);
    var turn := GoOn;
    ghost var goal := tx.sent + MapperSends(mapFn, rx.pending, rx.job, rx.Left());
    while turn == GoOn
      invariant rx.Valid() && tx.Valid()
      invariant tx.sent + Owed(turn, mapFn, rx.pending, rx.job, rx.Left()) == goal
      invariant turn == Wait ==> rx.pending == [] && rx.Left() > 0
      decreases turn == GoOn, |rx.pending|
    {
      turn := MapNext(rx, tx, mapFn, buf);
    }
    waiting := turn == Wait;
    if !waiting {
      var _ := tx.Done();
    }
  }

  lemma {:induction false} WaitingIsEmpty(events: seq<Event>, job: u16, left: nat)
    requires Receive(events, job, left).outcome == Waiting
    ensures Receive(events, job, left).rest == [] && Receive(events, job, left).left > 0
    decreases |events|
  {
    if events != [] {
      match events[0]
      case Failure =>
      case Eos(_) => WaitingIsEmpty(events[1..], job, left);
      case Arrival(_, bytes) =>
        if SignalOf(bytes, job) == Some(Done) {
          WaitingIsEmpty(events[1..], job, left - 1);
        } else if SignalOf(bytes, job) == None {
          WaitingIsEmpty(events[1..], job, left);
        }
    }
  }

  // ----- The role refines the state machine ------------------------------------------------

  lemma {:induction false} PayloadHeld(signals: seq<Signal>, k: nat) returns (at: nat)
    requires k < |signals| && signals[k].Chunk?
    ensures at < |Payloads(signals)| && Payloads(signals)[at] == signals[k].payload
    decreases |signals|
  {
    var n := |signals| - 1;
    if k == n {
      at := |Payloads(signals[..n])|;
    } else {
      at := PayloadHeld(signals[..n], k);
    }
  }

  lemma {:induction false} PayloadFrom(signals: seq<Signal>, at: nat) returns (k: nat)
    requires at < |Payloads(signals)|
    ensures k < |signals| && signals[k] == Chunk(Payloads(signals)[at])
    decreases |signals|
  {
    var n := |signals| - 1;
    if at < |Payloads(signals[..n])| {
      k := PayloadFrom(signals[..n], at);
    } else {
      k := n;
    }
  }

  lemma BreaksExactly(mapFn: Bytes -> MapResult, signals: seq<Signal>)
    ensures Breaks(mapFn, Payloads(signals)) <==> !NoneFails(mapFn, signals)
  {
    var payloads := Payloads(signals);
    if Breaks(mapFn, payloads) {
      var at :| 0 <= at < |payloads| && !mapFn(payloads[at]).ok;
      var k := PayloadFrom(signals, at);
      assert Fails(mapFn, signals[k]);
    }
    if !NoneFails(mapFn, signals) {
      var k :| 0 <= k < |signals| && Fails(mapFn, signals[k]);
      var at := PayloadHeld(signals, k);
      assert !mapFn(payloads[at]).ok;
    }
  }

  lemma {:induction false} SentForLast(mapFn: Bytes -> MapResult, payloads: seq<Bytes>, p: Bytes)
    requires !Breaks(mapFn, payloads)
    ensures SentFor(mapFn, payloads + [p]) == SentFor(mapFn, payloads) + mapFn(p).chunks
    decreases |payloads|
  {
    if payloads == [] {
      assert payloads + [p] == [p] + payloads;
      SentForFront(mapFn, p, payloads);
    } else {
      var first, rest := payloads[0], payloads[1..];
      assert payloads == [first] + rest;
      SentForFront(mapFn, first, rest);
      SentForLast(mapFn, rest, p);
      assert payloads + [p] == [first] + (rest + [p]);
      SentForFront(mapFn, first, rest + [p]);
      ConcatAssociates(mapFn(first).chunks, SentFor(mapFn, rest), mapFn(p).chunks);
    }
  }

  lemma {:induction false} SentForReplies(mapFn: Bytes -> MapResult, signals: seq<Signal>)
    requires signals != [] ==> NoneFails(mapFn, signals[..|signals| - 1])
    ensures AsChunks(SentFor(mapFn, Payloads(signals))) == Replies(mapFn, signals)
    decreases |signals|
  {
    if signals != [] {
      var front, last := signals[..|signals| - 1], signals[|signals| - 1];
      SentForReplies(mapFn, front);
      BreaksExactly(mapFn, front);
      if last.Chunk? {
        SentForLast(mapFn, Payloads(front), last.payload);
      } else {
        assert Payloads(signals) == Payloads(front) && Replies(mapFn, signals) == Replies(mapFn, front);
      }
    }
  }

  /** Every chunk of every collector fits the mappers' buffers. */
  ghost predicate ChunksFit(log: seq<Item>) {
    forall k :: 0 <= k < |log| && log[k].signal.Chunk? ==> |log[k].signal.payload| <= 8192
  }

  lemma NothingCut(log: seq<Item>)
    requires ChunksFit(log)
    ensures Cut(Payloads(Signals(log)), MAP_BUFFER) == Payloads(Signals(log))
  {
    var payloads := Payloads(Signals(log));
    forall at | 0 <= at < |payloads| ensures Take(payloads[at], MAP_BUFFER) == payloads[at] {
      var k := PayloadFrom(Signals(log), at);
      assert log[k].signal == Chunk(payloads[at]);
    }
  }

  lemma SendsAreFrames(mapFn: Bytes -> MapResult, id: u16, signals: seq<Signal>, out: seq<Signal>, closed: bool)
    requires signals != [] ==> NoneFails(mapFn, signals[..|signals| - 1])
    requires out == Replies(mapFn, signals) + if closed || !NoneFails(mapFn, signals) then [Done] else []
    ensures SendsOf(mapFn, id, Payloads(signals), closed) == MessagesOf(id, out)
  {
    var chunks := SentFor(mapFn, Payloads(signals));
    SentForReplies(mapFn, signals);
    BreaksExactly(mapFn, signals);
    ChunkFrames(id, chunks, if closed || !NoneFails(mapFn, signals) then [Done] else []);
  }

  /** The frames of chunks, and of an end behind them. */
  lemma ChunkFrames(id: u16, chunks: seq<Bytes>, end: seq<Signal>)
    requires end in [[], [Done]]
    ensures MessagesOf(id, AsChunks(chunks) + end)
         == DataFrames(id, chunks) + if end == [Done] then [Frame(PhaseDone, id, [])] else []
  {
  }

  /** Refinement: run over a stream that holds what mapper `j` has taken so far, the mapper role
      sends, message for message, what the state machine says it has sent. */
  lemma MapperRefines(job: Job, s: State, j: nat, events: seq<Event>, id: u16)
    requires ValidJob(job) && Inv(job, s) && j < job.mappers && !s.mappers[j].phase.Idle?
    requires Carries(events, id, s.mappers[j].log) && ChunksFit(s.mappers[j].log)
    ensures MapperSends(job.mapFn, events, id, Expected(Coordinator.Feeds(job.assignment, j)))
         == MessagesOf(id, s.outs[j])
  {
    assert MapperInv(job, s, j);
    var role, upstream := s.mappers[j], Coordinator.Feeds(job.assignment, j);
    var signals := Signals(role.log);
    RoleIsReceiver(role, upstream, s.toMapper, job.scripts, events, id);
    NothingCut(role.log);
    if role.log != [] {
      assert signals[..|signals| - 1] == Signals(role.log[..|role.log| - 1]);
    }
    SendsAreFrames(job.mapFn, id, signals, s.outs[j], Completed(role, upstream));
  }
}
