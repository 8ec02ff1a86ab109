/** The receiving side of a role: filters the messages of its job out of the endpoint's stream
    and counts the upstream nodes that have finished. */
module Transport {
  import opened Words
  import opened Bytes
  import Lists
  import opened Packet

  // ----- What arrives ----------------------------------------------------------------------

  /** What the endpoint's listener reports: the end of a transport stream, one message, or a
      failure of the endpoint. */
  datatype Event = Eos(source: nat) | Arrival(source: nat, bytes: Bytes) | Failure

  /** What a job message means to the receiver. */
  datatype Signal = Chunk(payload: Bytes) | Done

  datatype Item = Item(source: nat, signal: Signal)

  /** The meaning of a message for `job`; none when it cannot be parsed, belongs to another job or
      is of another kind. */
  function SignalOf(bytes: Bytes, job: u16): Option<Signal> {
    match Parse(bytes)
    case None => None
    case Some(m) =>
      if m.job != job then None
      else if m.op == Some(DataChunk) then Some(Chunk(m.payload))
      else if m.op == Some(PhaseDone) then Some(Done)
      else None
  }

  /** The job's messages among the events. */
  function Items(events: seq<Event>, job: u16): seq<Item> {
    if events == [] then []
    else ItemsOf(events[0], job) + Items(events[1..], job)
  }

  function ItemsOf(e: Event, job: u16): seq<Item> {
    if e.Arrival? && SignalOf(e.bytes, job).Some? then [Item(e.source, SignalOf(e.bytes, job).value)] else []
  }

  // ----- One call --------------------------------------------------------------------------

  /** The result of one call: the end of the phase, a data chunk, an endpoint failure, or a call
      still waiting for the next event. */
  datatype Outcome = Ended | Got(payload: Bytes) | Failed | Waiting

  datatype Poll = Poll(outcome: Outcome, rest: seq<Event>, left: nat)

  /** One call of a receiver that still waits for `left` upstream nodes. */
  function Receive(events: seq<Event>, job: u16, left: nat): Poll {
    if left == 0 then Poll(Ended, events, 0)
    else if events == [] then Poll(Waiting, [], left)
    else match events[0]
      case Eos(_) => Receive(events[1..], job, left)
      case Failure => Poll(Failed, events[1..], left)
      case Arrival(_, bytes) =>
        match SignalOf(bytes, job)
        case None => Receive(events[1..], job, left)
        case Some(Chunk(payload)) => Poll(Got(payload), events[1..], left)
        case Some(Done) => Receive(events[1..], job, left - 1)
  }

  /** What a call returns to its caller; a chunk is reported by the bytes copied. */
  datatype Received = NoMore | Data(len: nat) | Error | Blocked

  /** The receiver of a role. */
  class SpaceCompRx {
    const job: u16
    const expected: u8
    var done: u8
    var pending: seq<Event>

    ghost predicate Valid()
      reads this
    {
      done <= expected
    }

    ghost function Left(): nat
      requires Valid()
      reads this
    {
      expected - done
    }

    constructor (pending: seq<Event>, job: u16, expected: u8)
      ensures Valid() && this.job == job && this.expected == expected && this.pending == pending
      ensures Left() == expected
    {
      this.pending, this.job, this.expected, done := pending, job, expected, 0;
    }

    /** Waits for the next chunk of the job, or for the last upstream node to finish.  A call
        that is still waiting goes on as a new call would. */
    method Recv(buf: array<u8>) returns (r: Received)
      requires Valid()
      modifies this, buf
      ensures Valid()
      ensures Receive(old(pending), job, old(Left())).rest == pending
      ensures Receive(old(pending), job, old(Left())).left == Left()
      ensures r == match Receive(old(pending), job, old(Left())).outcome
              case Ended => NoMore
              case Got(payload) => Data(Min(|payload|, buf.Length))
              case Failed => Error
              case Waiting => Blocked
      ensures match Receive(old(pending), job, old(Left())).outcome
              case Got(payload) => buf[..] == Lists.Take(payload, buf.Length) + old(buf[Min(|payload|, buf.Length)..])
              case _ => buf[..] == old(buf[..])
    {
      if done == expected {
        return NoMore;
      }
      ghost var before := buf[..];
      while pending != []
        invariant done < expected && buf[..] == before
        invariant Receive(pending, job, Left()) == Receive(old(pending), job, old(Left()))
        decreases |pending|
      {
        var event := pending[0];
        pending := pending[1..];
        match event
        case Eos(_) =>
        case Failure => return Error;
        case Arrival(_, bytes) =>
          match SignalOf(bytes, job) {
            case None =>
            case Some(Chunk(payload)) =>
              var n := Min(|payload|, buf.Length);
              forall i | 0 <= i < n {
                buf[i] := payload[i];
              }
              assert buf[..] == Lists.Take(payload, buf.Length) + before[n..];
              return Data(n);
            case Some(Done) =>
              done := done + 1;
              if done == expected {
                return NoMore;
              }
          }
      }
      return Blocked;
    }
  }

  // ----- Calls until the end ---------------------------------------------------------------

  /** The chunks returned by calls made until one does not return a chunk. */
  function Delivered(events: seq<Event>, job: u16, left: nat): (payloads: seq<Bytes>)
    decreases |events|
  {
    if left == 0 || events == [] then []
    else match events[0]
      case Eos(_) => Delivered(events[1..], job, left)
      case Failure => []
      case Arrival(_, bytes) =>
        match SignalOf(bytes, job)
        case None => Delivered(events[1..], job, left)
        case Some(Chunk(payload)) => [payload] + Delivered(events[1..], job, left)
        case Some(Done) => Delivered(events[1..], job, left - 1)
  }

  /** How those calls stop. */
  function Stop(events: seq<Event>, job: u16, left: nat): (outcome: Outcome)
    decreases |events|
  {
    if left == 0 then Ended
    else if events == [] then Waiting
    else match events[0]
      case Eos(_) => Stop(events[1..], job, left)
      case Failure => Failed
      case Arrival(_, bytes) =>
        match SignalOf(bytes, job)
        case Some(Done) => Stop(events[1..], job, left - 1)
        case _ => Stop(events[1..], job, left)
  }

  /** One call takes the first chunk, or stops the way the calls stop. */
  lemma {:induction false} CallByCall(events: seq<Event>, job: u16, left: nat)
    ensures var poll := Receive(events, job, left);
      if poll.outcome.Got? then
        && Delivered(events, job, left) == [poll.outcome.payload] + Delivered(poll.rest, job, poll.left)
        && Stop(events, job, left) == Stop(poll.rest, job, poll.left)
        && |poll.rest| < |events|
      else Delivered(events, job, left) == [] && Stop(events, job, left) == poll.outcome
    decreases |events|
  {
    if left != 0 && events != [] {
      match events[0]
      case Failure =>
      case Eos(_) => CallByCall(events[1..], job, left);
      case Arrival(_, bytes) =>
        if SignalOf(bytes, job) == Some(Done) {
          CallByCall(events[1..], job, left - 1);
        } else {
          CallByCall(events[1..], job, left);
        }
    }
  }

  // ----- Which messages belong to a job ----------------------------------------------------

  /** The message of a signal. */
  function MessageOf(job: u16, signal: Signal): Bytes {
    if signal.Chunk? then Frame(DataChunk, job, signal.payload) else Frame(PhaseDone, job, [])
  }

  function MessagesOf(job: u16, signals: seq<Signal>): (r: seq<Bytes>)
    ensures |r| == |signals| && forall k :: 0 <= k < |r| ==> r[k] == MessageOf(job, signals[k])
  {
    seq(|signals|, k requires 0 <= k < |signals| => MessageOf(job, signals[k]))
  }

  /** Bytes that mean nothing to a receiver of `job`: too short for a header, of another job, or of
      a kind other than data (0x10) and end of phase (0x04). */
  predicate IsNoise(bytes: Bytes, job: u16) {
    |bytes| < 4 || 0x100 * (bytes[2] as int) + bytes[3] != job || (bytes[0] != 0x10 && bytes[0] != 0x04)
  }

  /** What any bytes mean to a receiver. */
  lemma SignalOfBytes(bytes: Bytes, job: u16)
    ensures SignalOf(bytes, job).None? <==> IsNoise(bytes, job)
    ensures forall p :: SignalOf(bytes, job) == Some(Chunk(p)) <==>
              !IsNoise(bytes, job) && bytes[0] == 0x10 && p == bytes[4..]
    ensures SignalOf(bytes, job) == Some(Done) <==> !IsNoise(bytes, job) && bytes[0] == 0x04
  {
    if |bytes| >= 4 { FromBigPair(bytes[2..4]); }
  }

  lemma FromBigPair(b: Bytes)
    requires |b| == 2
    ensures FromBig(b) == 0x100 * (b[0] as int) + b[1]
  {
    assert b[..1] == [b[0]] && b[..1][..0] == [];
    assert FromBig(b[..1]) == b[0];
  }

  /** What a framed message means to a receiver of `job`: something exactly if it is of this job and
      carries data or ends a phase. */
  lemma SignalOfFrame(op: OpCode, id: u16, payload: Bytes, job: u16)
    ensures SignalOf(Frame(op, id, payload), job) ==
            if id == job && op == DataChunk then Some(Chunk(payload))
            else if id == job && op == PhaseDone then Some(Done)
            else None
  {
    ParseFrame(op, id, payload);
  }

  predicate IsHeeded(e: Event, job: u16) {
    e.Failure? || (e.Arrival? && !IsNoise(e.bytes, job))
  }

  /** The events that matter to a receiver of `job`: failures, and messages that are no noise. */
  function Heeded(events: seq<Event>, job: u16): seq<Event> {
    if events == [] then []
    else if IsHeeded(events[0], job) then [events[0]] + Heeded(events[1..], job)
    else Heeded(events[1..], job)
  }

  lemma HeededFront(e: Event, rest: seq<Event>, job: u16)
    ensures Heeded([e] + rest, job) == if IsHeeded(e, job) then [e] + Heeded(rest, job) else Heeded(rest, job)
    ensures Items([e] + rest, job) == ItemsOf(e, job) + Items(rest, job)
  {
    assert ([e] + rest)[1..] == rest;
  }

  lemma UnheededIsNothing(e: Event, job: u16)
    requires !IsHeeded(e, job)
    ensures ItemsOf(e, job) == [] && !e.Failure? && (e.Arrival? ==> SignalOf(e.bytes, job).None?)
  {
    if e.Arrival? { SignalOfBytes(e.bytes, job); }
  }

  /** Nothing else is noticed, wherever it stands in the stream. */
  lemma {:induction false} NoiseIsIgnored(events: seq<Event>, job: u16, left: nat)
    ensures Delivered(events, job, left) == Delivered(Heeded(events, job), job, left)
    ensures Stop(events, job, left) == Stop(Heeded(events, job), job, left)
    decreases |events|
  {
    if events != [] {
      var e, rest := events[0], events[1..];
      NoiseIsIgnored(rest, job, left);
      if IsHeeded(e, job) {
        if e.Arrival? && SignalOf(e.bytes, job) == Some(Done) && left > 0 { NoiseIsIgnored(rest, job, left - 1); }
        assert ([e] + Heeded(rest, job))[1..] == Heeded(rest, job);
      } else {
        UnheededIsNothing(e, job);
      }
    }
  }

  lemma {:induction false} NoiseIsNoItem(events: seq<Event>, job: u16)
    ensures Items(events, job) == Items(Heeded(events, job), job)
    ensures NoFailure(events) <==> NoFailure(Heeded(events, job))
    decreases |events|
  {
    if events != [] {
      var e, rest := events[0], events[1..];
      NoiseIsNoItem(rest, job);
      NoFailureFront(e, rest);
      if IsHeeded(e, job) {
        HeededFront(e, Heeded(rest, job), job);
        NoFailureFront(e, Heeded(rest, job));
      } else {
        UnheededIsNothing(e, job);
        assert [] + Items(rest, job) == Items(rest, job);
      }
      assert events == [e] + rest;
    }
  }

  lemma NoFailureFront(e: Event, rest: seq<Event>)
    ensures NoFailure([e] + rest) <==> !e.Failure? && NoFailure(rest)
  {
    var all := [e] + rest;
    assert all[0] == e && forall k :: 0 <= k < |rest| ==> all[k + 1] == rest[k];
  }

  lemma {:induction false} HeededConcat(a: seq<Event>, b: seq<Event>, job: u16)
    ensures Heeded(a + b, job) == Heeded(a, job) + Heeded(b, job)
    decreases |a|
  {
    if a == [] {
      assert a + b == b;
    } else {
      HeededConcat(a[1..], b, job);
      assert a + b == [a[0]] + (a[1..] + b);
      HeededFront(a[0], a[1..] + b, job);
      Lists.ConcatAssociates([a[0]], Heeded(a[1..], job), Heeded(b, job));
    }
  }

  /** A message of another job can stand anywhere in the stream without a trace. */
  lemma OtherJobsLeaveNoTrace(before: seq<Event>, behind: seq<Event>, source: nat, op: OpCode, other: u16,
                              payload: Bytes, job: u16, left: nat)
    requires other != job
    ensures var events := before + [Arrival(source, Frame(op, other, payload))] + behind;
      && Delivered(events, job, left) == Delivered(before + behind, job, left)
      && Stop(events, job, left) == Stop(before + behind, job, left)
  {
    var e := Arrival(source, Frame(op, other, payload));
    SignalOfFrame(op, other, payload, job);
    SignalOfBytes(e.bytes, job);
    HeededConcat(before, [e], job);
    HeededConcat(before + [e], behind, job);
    HeededConcat(before, behind, job);
    assert Heeded([e], job) == [] && Heeded(before, job) + [] == Heeded(before, job);
    NoiseIsIgnored(before + [e] + behind, job, left);
    NoiseIsIgnored(before + behind, job, left);
  }

  /** A failure of the endpoint ends the calls of a receiver that still waits: what has arrived before
      it is returned, and nothing behind it is read. */
  lemma {:induction false} FailureEndsCalls(before: seq<Event>, behind: seq<Event>, job: u16, left: nat)
    requires Stop(before, job, left) == Waiting
    ensures Stop(before + [Failure] + behind, job, left) == Failed
    ensures Delivered(before + [Failure] + behind, job, left) == Delivered(before, job, left)
    decreases |before|
  {
    var events := before + [Failure] + behind;
    if before != [] {
      assert events[1..] == before[1..] + [Failure] + behind;
      if before[0].Arrival? && SignalOf(before[0].bytes, job) == Some(Done) {
        FailureEndsCalls(before[1..], behind, job, left - 1);
      } else {
        FailureEndsCalls(before[1..], behind, job, left);
      }
    }
  }

  /** The arrivals of some messages of the job. */
  function Framed(items: seq<Item>, job: u16): (events: seq<Event>)
    ensures |events| == |items|
    ensures forall k :: 0 <= k < |items| ==> events[k] == Arrival(items[k].source, MessageOf(job, items[k].signal))
  {
    seq(|items|, k requires 0 <= k < |items| => Arrival(items[k].source, MessageOf(job, items[k].signal)))
  }

  /** The stream carries these messages of the job, in this order, and otherwise only noise. */
  ghost predicate Carries(events: seq<Event>, job: u16, items: seq<Item>) {
    Heeded(events, job) == Framed(items, job)
  }

  lemma FramedFront(item: Item, rest: seq<Item>, job: u16)
    ensures Framed([item] + rest, job) == [Arrival(item.source, MessageOf(job, item.signal))] + Framed(rest, job)
  {
  }

  lemma FramedItemsFront(item: Item, rest: seq<Item>, job: u16)
    requires Items(Framed(rest, job), job) == rest && NoFailure(Framed(rest, job))
    ensures Items(Framed([item] + rest, job), job) == [item] + rest && NoFailure(Framed([item] + rest, job))
  {
    var e := Arrival(item.source, MessageOf(job, item.signal));
    FramedFront(item, rest, job);
    HeededFront(e, Framed(rest, job), job);
    NoFailureFront(e, Framed(rest, job));
    MessageIsHeard(item.signal, job);
    assert ItemsOf(e, job) == [item];
  }

  lemma {:induction false} FramedItems(items: seq<Item>, job: u16)
    ensures Items(Framed(items, job), job) == items && NoFailure(Framed(items, job))
    decreases |items|
  {
    if items != [] {
      FramedItems(items[1..], job);
      FramedItemsFront(items[0], items[1..], job);
      assert items == [items[0]] + items[1..];
    }
  }

  /** What has arrived from one source, byte string by byte string. */
  function BytesFrom(events: seq<Event>, source: nat): seq<Bytes> {
    if events == [] then []
    else
      var last := events[|events| - 1];
      BytesFrom(events[..|events| - 1], source)
      + if last.Arrival? && last.source == source then [last.bytes] else []
  }

  lemma {:induction false} FramedFrom(items: seq<Item>, job: u16, source: nat)
    ensures BytesFrom(Framed(items, job), source) == MessagesOf(job, From(items, source))
    decreases |items|
  {
    if items != [] {
      var n := |items| - 1;
      FramedFrom(items[..n], job, source);
      assert Framed(items, job)[..n] == Framed(items[..n], job);
      MessagesOneMore(job, From(items[..n], source), items[n].signal);
    }
  }

  lemma MessagesOneMore(job: u16, signals: seq<Signal>, s: Signal)
    ensures MessagesOf(job, signals + [s]) == MessagesOf(job, signals) + [MessageOf(job, s)]
    ensures MessagesOf(job, signals + []) == MessagesOf(job, signals)
  {
    assert signals + [] == signals;
  }

  lemma MessageIsHeard(signal: Signal, job: u16)
    ensures SignalOf(MessageOf(job, signal), job) == Some(signal) && !IsNoise(MessageOf(job, signal), job)
  {
    if signal.Chunk? {
      SignalOfFrame(DataChunk, job, signal.payload, job);
    } else {
      SignalOfFrame(PhaseDone, job, [], job);
    }
    SignalOfBytes(MessageOf(job, signal), job);
  }

  /** Messages are read as they were sent: a stream that carries them holds exactly these items. */
  lemma CarriedAreRead(events: seq<Event>, job: u16, items: seq<Item>)
    requires Carries(events, job, items)
    ensures NoFailure(events) && Items(events, job) == items
  {
    FramedItems(items, job);
    NoiseIsNoItem(events, job);
  }

  // ----- Weights ---------------------------------------------------------------------------

  function Total(xs: seq<nat>): nat {
    if xs == [] then 0 else Total(xs[..|xs| - 1]) + xs[|xs| - 1]
  }

  function Weigh(signals: seq<Signal>, f: Signal -> nat): nat {
    if signals == [] then 0 else Weigh(signals[..|signals| - 1], f) + f(signals[|signals| - 1])
  }

  function Signals(items: seq<Item>): (r: seq<Signal>)
    ensures |r| == |items|
    ensures forall k :: 0 <= k < |items| ==> r[k] == items[k].signal
  {
    seq(|items|, k requires 0 <= k < |items| => items[k].signal)
  }

  /** What one source has contributed, in order. */
  function From(items: seq<Item>, source: nat): seq<Signal> {
    if items == [] then []
    else
      var last := items[|items| - 1];
      From(items[..|items| - 1], source) + if last.source == source then [last.signal] else []
  }

  function IsDone(s: Signal): nat {
    if s.Done? then 1 else 0
  }

  /** The number of sources that have announced their end. */
  function Dones(signals: seq<Signal>): nat {
    Weigh(signals, IsDone)
  }

  function Payloads(signals: seq<Signal>): seq<Bytes> {
    if signals == [] then []
    else
      Payloads(signals[..|signals| - 1])
      + if signals[|signals| - 1].Chunk? then [signals[|signals| - 1].payload] else []
  }

  lemma WeighOneMore(signals: seq<Signal>, s: Signal, f: Signal -> nat)
    ensures Weigh(signals + [s], f) == Weigh(signals, f) + f(s)
  {
    assert (signals + [s])[..|signals|] == signals;
  }

  lemma PayloadsOneMore(signals: seq<Signal>, s: Signal)
    ensures Payloads(signals + [s]) == Payloads(signals) + if s.Chunk? then [s.payload] else []
  {
    assert (signals + [s])[..|signals|] == signals;
  }

  lemma SignalsOneMore(items: seq<Item>, item: Item)
    ensures Signals(items + [item]) == Signals(items) + [item.signal]
  {
  }

  lemma FromOneMore(items: seq<Item>, item: Item, source: nat)
    ensures From(items + [item], source) == From(items, source) + if item.source == source then [item.signal] else []
  {
    assert (items + [item])[..|items|] == items;
  }

  /** The weight each of the sources 0..n contributes. */
  function PerSource(items: seq<Item>, n: nat, f: Signal -> nat): (r: seq<nat>)
    ensures |r| == n
    ensures forall s :: 0 <= s < n ==> r[s] == Weigh(From(items, s), f)
  {
    seq(n, s requires 0 <= s < n => Weigh(From(items, s), f))
  }

  ghost predicate SourcesBelow(items: seq<Item>, n: nat) {
    forall k :: 0 <= k < |items| ==> items[k].source < n
  }

  lemma {:induction false} TotalZero(xs: seq<nat>)
    requires forall k :: 0 <= k < |xs| ==> xs[k] == 0
    ensures Total(xs) == 0
    decreases |xs|
  {
    if xs != [] { TotalZero(xs[..|xs| - 1]); }
  }

  lemma {:induction false} TotalUpdate(xs: seq<nat>, k: nat, x: nat)
    requires k < |xs|
    ensures Total(xs[k := x]) + xs[k] == Total(xs) + x
    decreases |xs|
  {
    var n := |xs| - 1;
    if k < n {
      TotalUpdate(xs[..n], k, x);
      assert xs[k := x][..n] == xs[..n][k := x];
    } else {
      assert xs[k := x][..n] == xs[..n];
    }
  }

  lemma {:induction false} TotalMonotone(xs: seq<nat>, ys: seq<nat>)
    requires |xs| == |ys| && forall k :: 0 <= k < |xs| ==> xs[k] <= ys[k]
    ensures Total(xs) <= Total(ys)
    ensures Total(xs) == Total(ys) ==> xs == ys
    decreases |xs|
  {
    if xs != [] {
      var n := |xs| - 1;
      TotalMonotone(xs[..n], ys[..n]);
      assert xs == xs[..n] + [xs[n]] && ys == ys[..n] + [ys[n]];
    }
  }

  lemma PerSourceOneMore(items: seq<Item>, item: Item, n: nat, f: Signal -> nat)
    requires item.source < n
    ensures var xs := PerSource(items, n, f);
      PerSource(items + [item], n, f) == xs[item.source := xs[item.source] + f(item.signal)]
  {
    var xs, ys := PerSource(items, n, f), PerSource(items + [item], n, f);
    forall s | 0 <= s < n ensures ys[s] == if s == item.source then xs[s] + f(item.signal) else xs[s] {
      FromOneMore(items, item, s);
      if s == item.source {
        WeighOneMore(From(items, s), item.signal, f);
      } else {
        assert From(items + [item], s) == From(items, s);
      }
    }
  }

  lemma TotalOneMore(items: seq<Item>, item: Item, n: nat, f: Signal -> nat)
    requires item.source < n
    ensures Total(PerSource(items + [item], n, f)) == Total(PerSource(items, n, f)) + f(item.signal)
  {
    PerSourceOneMore(items, item, n, f);
    TotalRaised(PerSource(items, n, f), item.source, f(item.signal), PerSource(items + [item], n, f));
  }

  lemma TotalRaised(xs: seq<nat>, k: nat, d: nat, ys: seq<nat>)
    requires k < |xs| && ys == xs[k := xs[k] + d]
    ensures Total(ys) == Total(xs) + d
  {
    TotalUpdate(xs, k, xs[k] + d);
  }

  lemma WeighBySourceStep(items: seq<Item>, item: Item, n: nat, f: Signal -> nat)
    requires item.source < n && Weigh(Signals(items), f) == Total(PerSource(items, n, f))
    ensures Weigh(Signals(items + [item]), f) == Total(PerSource(items + [item], n, f))
  {
    SignalsOneMore(items, item);
    WeighOneMore(Signals(items), item.signal, f);
    TotalOneMore(items, item, n, f);
  }

  /** A stream weighs what its sources contribute, whatever way they are interleaved. */
  lemma {:induction false} WeighBySource(items: seq<Item>, n: nat, f: Signal -> nat)
    requires SourcesBelow(items, n)
    ensures Weigh(Signals(items), f) == Total(PerSource(items, n, f))
    decreases |items|
  {
    if items == [] {
      TotalZero(PerSource(items, n, f));
    } else {
      var k := |items| - 1;
      WeighBySource(items[..k], n, f);
      WeighBySourceStep(items[..k], items[k], n, f);
      assert items == items[..k] + [items[k]];
    }
  }

  // ----- The phase barrier -----------------------------------------------------------------

  /** What an upstream node sends: its chunks, then its end if it announces one. */
  ghost predicate IsScript(script: seq<Signal>) {
    forall k :: 0 <= k < |script| - 1 ==> script[k].Chunk?
  }

  predicate Announces(script: seq<Signal>) {
    script != [] && script[|script| - 1].Done?
  }

  /** Which of the sources 0..n the receiver counts on. */
  function Quota(upstream: seq<bool>): (r: seq<nat>)
    ensures |r| == |upstream|
    ensures forall s :: 0 <= s < |upstream| ==> r[s] == if upstream[s] then 1 else 0
  {
    seq(|upstream|, s requires 0 <= s < |upstream| => if upstream[s] then 1 else 0)
  }

  function Expected(upstream: seq<bool>): nat {
    Total(Quota(upstream))
  }

  /** Only upstream nodes send for the job, each over a first-in first-out channel: what has
      arrived from one is a beginning of its script. */
  ghost predicate InOrder(items: seq<Item>, upstream: seq<bool>, scripts: seq<seq<Signal>>) {
    && |scripts| == |upstream| && SourcesBelow(items, |upstream|)
    && forall s :: 0 <= s < |upstream| ==>
        IsScript(scripts[s]) && if upstream[s] then From(items, s) <= scripts[s] else From(items, s) == []
  }

  lemma {:induction false} ChunksHaveNoDone(signals: seq<Signal>)
    requires forall k :: 0 <= k < |signals| ==> signals[k].Chunk?
    ensures Dones(signals) == 0
    decreases |signals|
  {
    if signals != [] { ChunksHaveNoDone(signals[..|signals| - 1]); }
  }

  /** A beginning of a script holds at most one end, and holds it only when it is all of it. */
  lemma PrefixDones(part: seq<Signal>, script: seq<Signal>)
    requires IsScript(script) && part <= script
    ensures Dones(part) <= 1
    ensures Dones(part) == 1 <==> part == script && Announces(script)
  {
    if part != [] {
      var n := |part| - 1;
      ChunksHaveNoDone(part[..n]);
      assert part[n] == script[n];
    }
  }

  /** The barrier: an end has come from as many nodes as expected exactly when every upstream node
      has delivered all of its script and announced its end. */
  lemma Barrier(items: seq<Item>, upstream: seq<bool>, scripts: seq<seq<Signal>>)
    requires InOrder(items, upstream, scripts)
    ensures Dones(Signals(items)) <= Expected(upstream)
    ensures Dones(Signals(items)) == Expected(upstream) <==>
      forall s :: 0 <= s < |upstream| && upstream[s] ==> From(items, s) == scripts[s] && Announces(scripts[s])
  {
    var n := |upstream|;
    var xs, quota := PerSource(items, n, IsDone), Quota(upstream);
    WeighBySource(items, n, IsDone);
    forall s | 0 <= s < n
      ensures xs[s] <= quota[s]
      ensures upstream[s] ==> (xs[s] == 1 <==> From(items, s) == scripts[s] && Announces(scripts[s]))
    {
      assert xs[s] == Dones(From(items, s));
      if upstream[s] { PrefixDones(From(items, s), scripts[s]); }
    }
    TotalMonotone(xs, quota);
    if forall s :: 0 <= s < n && upstream[s] ==> From(items, s) == scripts[s] && Announces(scripts[s]) {
      assert xs == quota;
    }
  }

  ghost predicate NoFailure(events: seq<Event>) {
    forall k :: 0 <= k < |events| ==> !events[k].Failure?
  }

  lemma {:induction false} WeighConcat(a: seq<Signal>, b: seq<Signal>, f: Signal -> nat)
    ensures Weigh(a + b, f) == Weigh(a, f) + Weigh(b, f)
    decreases |b|
  {
    if b == [] {
      assert a + b == a;
    } else {
      var n := |b| - 1;
      WeighConcat(a, b[..n], f);
      WeighOneMore(a + b[..n], b[n], f);
      assert a + b == (a + b[..n]) + [b[n]];
    }
  }

  lemma {:induction false} PayloadsConcat(a: seq<Signal>, b: seq<Signal>)
    ensures Payloads(a + b) == Payloads(a) + Payloads(b)
    decreases |b|
  {
    if b == [] {
      assert a + b == a;
    } else {
      var n := |b| - 1;
      PayloadsConcat(a, b[..n]);
      PayloadsOneMore(a + b[..n], b[n]);
      assert a + b == (a + b[..n]) + [b[n]];
    }
  }

  lemma DonesFront(s: Signal, signals: seq<Signal>)
    ensures Dones([s] + signals) == IsDone(s) + Dones(signals)
    ensures Payloads([s] + signals) == (if s.Chunk? then [s.payload] else []) + Payloads(signals)
  {
    WeighConcat([s], signals, IsDone);
    PayloadsConcat([s], signals);
    assert [s] == [] + [s];
    WeighOneMore([], s, IsDone);
    PayloadsOneMore([], s);
  }

  /** The ends reach `left` at the last message if at all. */
  ghost predicate EndsInTime(items: seq<Item>, left: nat) {
    forall k :: 0 <= k < |items| ==> Dones(Signals(items[..k])) < left
  }

  function After(left: nat, s: Signal): nat
    requires left > 0
  {
    if s.Done? then left - 1 else left
  }

  lemma EndsInTimeFront(first: Item, rest: seq<Item>, left: nat)
    requires EndsInTime([first] + rest, left)
    ensures left > 0 && EndsInTime(rest, After(left, first.signal))
  {
    var items := [first] + rest;
    assert items[..0] == [];
    assert Dones(Signals(items[..0])) < left;
    forall k | 0 <= k < |rest| ensures Dones(Signals(rest[..k])) < After(left, first.signal) {
      var part := items[..k + 1];
      assert Dones(Signals(part)) < left;
      assert Signals(part) == [first.signal] + Signals(rest[..k]);
      DonesFront(first.signal, Signals(rest[..k]));
    }
  }

  /** What reading all of the job's messages amounts to. */
  ghost predicate ReadsAll(events: seq<Event>, job: u16, left: nat, items: seq<Item>) {
    && Dones(Signals(items)) <= left
    && Delivered(events, job, left) == Payloads(Signals(items))
    && Stop(events, job, left) == if Dones(Signals(items)) == left then Ended else Waiting
  }

  lemma ReadsAllFront(events: seq<Event>, job: u16, left: nat, first: Item, rest: seq<Item>)
    requires events != [] && left > 0 && ItemsOf(events[0], job) == [first]
    requires ReadsAll(events[1..], job, After(left, first.signal), rest)
    ensures ReadsAll(events, job, left, [first] + rest)
  {
    assert Signals([first] + rest) == [first.signal] + Signals(rest);
    DonesFront(first.signal, Signals(rest));
  }

  /** As long as the ends do not outnumber the expected ones before the last message, the calls
      return every chunk of the job in order, whatever else is in the stream, and then stop or
      wait. */
  lemma {:induction false} CallsReadEverything(events: seq<Event>, job: u16, left: nat)
    requires NoFailure(events) && EndsInTime(Items(events, job), left)
    ensures ReadsAll(events, job, left, Items(events, job))
    decreases |events|
  {
    if events != [] {
      var rest := Items(events[1..], job);
      assert NoFailure(events[1..]);
      if ItemsOf(events[0], job) == [] {
        assert Items(events, job) == rest;
        CallsReadEverything(events[1..], job, left);
        if left == 0 { NothingAtTheEnd(rest); }
      } else {
        var first := ItemsOf(events[0], job)[0];
        EndsInTimeFront(first, rest, left);
        CallsReadEverything(events[1..], job, After(left, first.signal));
        ReadsAllFront(events, job, left, first, rest);
      }
    }
  }

  lemma NothingAtTheEnd(items: seq<Item>)
    requires EndsInTime(items, 0)
    ensures items == []
  {
    var ends := if items == [] then 0 else Dones(Signals(items[..0]));
  }

  lemma {:induction false} FromPrefix(items: seq<Item>, k: nat, source: nat)
    requires k <= |items|
    ensures From(items[..k], source) <= From(items, source)
    decreases |items|
  {
    if k < |items| {
      var n := |items| - 1;
      FromPrefix(items[..n], k, source);
      assert items[..n][..k] == items[..k];
    } else {
      assert items[..k] == items;
    }
  }

  /** After the last expected end nothing more can arrive for the job. */
  lemma EndsComeLast(items: seq<Item>, upstream: seq<bool>, scripts: seq<seq<Signal>>)
    requires InOrder(items, upstream, scripts)
    ensures EndsInTime(items, Expected(upstream))
  {
    forall k | 0 <= k < |items| ensures Dones(Signals(items[..k])) < Expected(upstream) {
      var part, s := items[..k], items[k].source;
      forall t | 0 <= t < |upstream| ensures From(part, t) <= From(items, t) { FromPrefix(items, k, t); }
      assert InOrder(part, upstream, scripts);
      Barrier(part, upstream, scripts);
      FromPrefix(items, k + 1, s);
      FromOneMore(part, items[k], s);
      assert items[..k + 1] == part + [items[k]];
      assert From(part, s) != scripts[s];
    }
  }

  /** The phase barrier at the receiver: when every upstream node sends its chunks and at most one
      end after them, the calls return exactly the chunks of the job, in the order in which they
      arrived, and report the end of the phase exactly when every script has arrived completely
      and announced its end. */
  lemma PhaseBarrier(events: seq<Event>, job: u16, upstream: seq<bool>, scripts: seq<seq<Signal>>)
    requires NoFailure(events) && InOrder(Items(events, job), upstream, scripts)
    ensures Delivered(events, job, Expected(upstream)) == Payloads(Signals(Items(events, job)))
    ensures Stop(events, job, Expected(upstream)) in {Ended, Waiting}
    ensures Stop(events, job, Expected(upstream)) == Ended <==>
      forall s :: 0 <= s < |upstream| && upstream[s] ==>
        From(Items(events, job), s) == scripts[s] && Announces(scripts[s])
  {
    var items := Items(events, job);
    EndsComeLast(items, upstream, scripts);
    CallsReadEverything(events, job, Expected(upstream));
    Barrier(items, upstream, scripts);
  }

  /** Once the end has been reported, it is reported for ever, whatever arrives. */
  lemma EndIsFinal(events: seq<Event>, job: u16, left: nat, more: seq<Event>)
    requires Receive(events, job, left).outcome == Ended
    ensures var poll := Receive(events, job, left); Receive(poll.rest + more, job, poll.left).outcome == Ended
  {
    EndLeavesNone(events, job, left);
  }

  lemma {:induction false} EndLeavesNone(events: seq<Event>, job: u16, left: nat)
    requires Receive(events, job, left).outcome == Ended
    ensures Receive(events, job, left).left == 0
    decreases |events|
  {
    if left != 0 && events != [] {
      match events[0]
      case Failure =>
      case Eos(_) => EndLeavesNone(events[1..], job, left);
      case Arrival(_, bytes) =>
        if SignalOf(bytes, job) == Some(Done) {
          EndLeavesNone(events[1..], job, left - 1);
        } else if SignalOf(bytes, job) == None {
          EndLeavesNone(events[1..], job, left);
        }
    }
  }
}
