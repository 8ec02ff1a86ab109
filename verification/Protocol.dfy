/** A job as a state machine: the coordinator hands out roles, collectors send to their mappers,
    mappers map what they receive and send to the reducer, over reliable first-in first-out
    channels and in any interleaving. */
module Protocol {
  import opened Bytes
  import Lists
  import opened Transport
  import opened Coordinator
  import opened Roles

  /** What one call of the application's map sends, and whether it succeeds. */
  datatype MapResult = MapResult(chunks: seq<Bytes>, ok: bool)

  /** A planned job of an application: the assignment, what each collector sends, and the map. */
  datatype Job = Job(assignment: seq<nat>, mappers: nat, scripts: seq<seq<Signal>>, mapFn: Bytes -> MapResult)

  ghost predicate ValidJob(job: Job) {
    && InRange(job.assignment, job.mappers) && |job.scripts| == |job.assignment|
    && AllScripts(job.scripts)
  }

  // ----- Mapping ---------------------------------------------------------------------------

  function AsChunks(payloads: seq<Bytes>): (r: seq<Signal>)
    ensures |r| == |payloads| && forall k :: 0 <= k < |r| ==> r[k] == Chunk(payloads[k])
  {
    seq(|payloads|, k requires 0 <= k < |payloads| => Chunk(payloads[k]))
  }

  /** What a mapper sends on taking a message. */
  function Reply(mapFn: Bytes -> MapResult, signal: Signal): seq<Signal> {
    if signal.Chunk? then AsChunks(mapFn(signal.payload).chunks) else []
  }

  predicate Fails(mapFn: Bytes -> MapResult, signal: Signal) {
    signal.Chunk? && !mapFn(signal.payload).ok
  }

  /** What a mapper sends on taking a list of messages. */
  function Replies(mapFn: Bytes -> MapResult, signals: seq<Signal>): seq<Signal> {
    if signals == [] then []
    else Replies(mapFn, signals[..|signals| - 1]) + Reply(mapFn, signals[|signals| - 1])
  }

  predicate NoneFails(mapFn: Bytes -> MapResult, signals: seq<Signal>) {
    forall k :: 0 <= k < |signals| ==> !Fails(mapFn, signals[k])
  }

  lemma RepliesOneMore(mapFn: Bytes -> MapResult, signals: seq<Signal>, s: Signal)
    ensures Replies(mapFn, signals + [s]) == Replies(mapFn, signals) + Reply(mapFn, s)
  {
    assert (signals + [s])[..|signals|] == signals;
  }

  lemma {:induction false} RepliesAreChunks(mapFn: Bytes -> MapResult, signals: seq<Signal>)
    ensures forall k :: 0 <= k < |Replies(mapFn, signals)| ==> Replies(mapFn, signals)[k].Chunk?
    decreases |signals|
  {
    if signals != [] { RepliesAreChunks(mapFn, signals[..|signals| - 1]); }
  }

  // ----- States and steps ------------------------------------------------------------------

  datatype State = State(
    issued: nat,               // assignments sent: collectors first, then mappers, then the reducer
    started: seq<bool>,          // which collectors run
    sent: seq<nat>,              // how much of its script each has sent
    toMapper: seq<Channel>,      // the channel of each collector
    mappers: seq<Role>,
    outs: seq<seq<Signal>>,      // what each mapper has sent
    toReducer: seq<Channel>,     // the channel of each mapper
    reducer: Role)

  datatype Action =
    | Assign | StartCollector(i: nat) | StartMapper(j: nat) | StartReducer
    | Send(i: nat) | Deliver(i: nat) | Forward(j: nat)

  function Everyone(n: nat): (r: seq<bool>)
    ensures |r| == n && forall j :: 0 <= j < n ==> r[j]
  {
    seq(n, _ => true)
  }

  /** The number of ends the reducer waits for is the number the coordinator tells it. */
  lemma EveryoneCounts(n: nat)
    ensures Expected(Everyone(n)) == n
  {
    TotalOfOnes(n);
    assert Quota(Everyone(n)) == Ones(n);
  }

  function Init(job: Job): State {
    var n, m := |job.assignment|, job.mappers;
    State(0, seq(n, _ => false), seq(n, _ => 0), seq(n, _ => Channel(0, 0)),
          seq(m, _ => Role(Idle, [])), seq(m, _ => []), seq(m, _ => Channel(0, 0)), Role(Idle, []))
  }

  predicate Shaped(job: Job, s: State) {
    && |s.started| == |s.sent| == |s.toMapper| == |job.assignment| == |job.scripts|
    && |s.mappers| == |s.outs| == |s.toReducer| == job.mappers
    && InRange(job.assignment, job.mappers)
  }

  predicate Enabled(job: Job, s: State, a: Action)
    requires Shaped(job, s)
  {
    var n, m := |job.assignment|, job.mappers;
    match a
    case Assign => s.issued < n + m + 1
    case StartCollector(i) => i < n && i < s.issued && !s.started[i]
    case StartMapper(j) => j < m && n + j < s.issued && s.mappers[j].phase.Idle?
    case StartReducer => n + m < s.issued && s.reducer.phase.Idle?
    case Send(i) => i < n && s.started[i] && s.sent[i] < |job.scripts[i]|
    case Deliver(i) => i < n && s.toMapper[i].received < s.sent[i] <= |job.scripts[i]|
    case Forward(j) => j < m && s.toReducer[j].received < |s.outs[j]|
  }

  function EndMark(role: Role): seq<Signal> {
    if role.phase.Finished? then [Done] else []
  }

  /** The state of a mapper after it takes a message: it stops when the map fails. */
  function Mapped(job: Job, role: Role, item: Item): Role
    requires role.phase.Active?
  {
    var next := Consumed(role, item);
    if Fails(job.mapFn, item.signal) then next.(phase := Finished) else next
  }

  function Apply(job: Job, s: State, a: Action): State
    requires Shaped(job, s) && Enabled(job, s, a)
  {
    match a
    case Assign => s.(issued := s.issued + 1)
    case StartCollector(i) => s.(started := s.started[i := true])
    case StartMapper(j) =>
      var role := Started(Expected(Feeds(job.assignment, j)));
      s.(mappers := s.mappers[j := role], outs := s.outs[j := s.outs[j] + EndMark(role)])
    case StartReducer => s.(reducer := Started(Expected(Everyone(job.mappers))))
    case Send(i) => s.(sent := s.sent[i := s.sent[i] + 1])
    case Deliver(i) =>
      var j, channel := job.assignment[i], s.toMapper[i];
      var role, item := s.mappers[j], Item(i, job.scripts[i][channel.received]);
      var t := s.(toMapper := s.toMapper[i := Taken(channel, role.phase)]);
      if role.phase.Active? then
        var role' := Mapped(job, role, item);
        t.(mappers := s.mappers[j := role'],
           outs := s.outs[j := s.outs[j] + (Reply(job.mapFn, item.signal) + EndMark(role'))])
      else t
    case Forward(j) =>
      var channel := s.toReducer[j];
      var item := Item(j, s.outs[j][channel.received]);
      s.(toReducer := s.toReducer[j := Taken(channel, s.reducer.phase)],
         reducer := if s.reducer.phase.Active? then Consumed(s.reducer, item) else s.reducer)
  }

  /** A message that has been sent can be delivered at any time; only an active role takes it, and one
      that comes before the role has started is counted as early. */
  lemma MessagesDoNotWait(job: Job, s: State, i: nat, j: nat)
    requires Shaped(job, s) && i < |job.assignment| && j < job.mappers
    requires s.toMapper[i].received < s.sent[i] <= |job.scripts[i]| && s.toReducer[j].received < |s.outs[j]|
    ensures Enabled(job, s, Deliver(i)) && Enabled(job, s, Forward(j))
    ensures var t, m := Apply(job, s, Deliver(i)), job.assignment[i];
      && t.toMapper[i].received == s.toMapper[i].received + 1
      && (t.toMapper[i].early > s.toMapper[i].early <==> s.mappers[m].phase.Idle?)
      && if s.mappers[m].phase.Active? then
           t.mappers[m].log == s.mappers[m].log + [Item(i, job.scripts[i][s.toMapper[i].received])]
         else t.mappers[m] == s.mappers[m] && t.outs == s.outs
    ensures var t := Apply(job, s, Forward(j));
      && t.toReducer[j].received == s.toReducer[j].received + 1
      && (t.toReducer[j].early > s.toReducer[j].early <==> s.reducer.phase.Idle?)
      && t.reducer.log == s.reducer.log
         + if s.reducer.phase.Active? then [Item(j, s.outs[j][s.toReducer[j].received])] else []
  {
  }

  // ----- The invariant ---------------------------------------------------------------------

  ghost predicate CollectorInv(job: Job, s: State, i: nat)
    requires Shaped(job, s) && i < |job.assignment|
  {
    && (s.started[i] ==> i < s.issued) && (!s.started[i] ==> s.sent[i] == 0)
    && s.toMapper[i].received <= s.sent[i] <= |job.scripts[i]|
  }

  /** A mapper has sent the results of what it has taken, and its end once it has finished; it
      finishes when every collector has ended or the map has failed, and takes nothing after a
      failure. */
  ghost predicate Produced(job: Job, j: nat, role: Role, out: seq<Signal>) {
    && out == Replies(job.mapFn, Signals(role.log)) + EndMark(role)
    && (role.log != [] ==> NoneFails(job.mapFn, Signals(role.log[..|role.log| - 1])))
    && (role.phase.Active? ==> NoneFails(job.mapFn, Signals(role.log)))
    && (role.phase.Finished? ==>
          Completed(role, Feeds(job.assignment, j)) || !NoneFails(job.mapFn, Signals(role.log)))
  }

  ghost predicate MapperInv(job: Job, s: State, j: nat)
    requires Shaped(job, s) && j < job.mappers
  {
    && (!s.mappers[j].phase.Idle? ==> |job.assignment| + j < s.issued)
    && RoleInv(s.mappers[j], Feeds(job.assignment, j), s.toMapper, job.scripts)
    && Produced(job, j, s.mappers[j], s.outs[j])
  }

  ghost predicate ReducerInv(job: Job, s: State)
    requires Shaped(job, s)
  {
    && (!s.reducer.phase.Idle? ==> |job.assignment| + job.mappers < s.issued)
    && RoleInv(s.reducer, Everyone(job.mappers), s.toReducer, s.outs)
    && (s.reducer.phase.Finished? ==> Completed(s.reducer, Everyone(job.mappers)))
  }

  ghost predicate Inv(job: Job, s: State) {
    && Shaped(job, s) && s.issued <= |job.assignment| + job.mappers + 1
    && (forall i :: 0 <= i < |job.assignment| ==> CollectorInv(job, s, i))
    && (forall j :: 0 <= j < job.mappers ==> MapperInv(job, s, j))
    && ReducerInv(job, s)
  }

  /** One step of the job. */
  ghost predicate Next(job: Job, s: State, a: Action, t: State) {
    Shaped(job, s) && Enabled(job, s, a) && t == Apply(job, s, a)
  }

  lemma InitInv(job: Job)
    requires ValidJob(job)
    ensures Inv(job, Init(job))
  {
    var s := Init(job);
    forall j | 0 <= j < job.mappers ensures MapperInv(job, s, j) {
      var role, upstream := s.mappers[j], Feeds(job.assignment, j);
      forall i | 0 <= i < |upstream| ensures Linked(role, upstream, s.toMapper, job.scripts, i) {
        assert From(role.log, i) == [];
      }
      assert Signals(role.log) == [];
    }
    var upstream := Everyone(job.mappers);
    forall j | 0 <= j < job.mappers ensures Linked(s.reducer, upstream, s.toReducer, s.outs, j) {
      assert From(s.reducer.log, j) == [];
    }
  }

  // ----- Every step keeps the invariant ----------------------------------------------------

  lemma MapperUntouched(job: Job, s: State, t: State, j: nat)
    requires Shaped(job, s) && Shaped(job, t) && j < job.mappers && MapperInv(job, s, j)
    requires t.mappers[j] == s.mappers[j] && t.outs[j] == s.outs[j] && t.toMapper == s.toMapper && s.issued <= t.issued
    ensures MapperInv(job, t, j)
  {
  }

  /** Steps of the coordinator and of collectors, which no receiver notices. */
  lemma QuietStepKeeps(job: Job, s: State, a: Action)
    requires Inv(job, s) && Enabled(job, s, a) && (a.Assign? || a.StartCollector? || a.Send?)
    ensures Inv(job, Apply(job, s, a))
  {
    var t := Apply(job, s, a);
    forall i | 0 <= i < |job.assignment| ensures CollectorInv(job, t, i) { assert CollectorInv(job, s, i); }
    forall j | 0 <= j < job.mappers ensures MapperInv(job, t, j) { MapperUntouched(job, s, t, j); }
  }

  lemma StartMapperKeeps(job: Job, s: State, a: Action)
    requires Inv(job, s) && Enabled(job, s, a) && a.StartMapper?
    ensures Inv(job, Apply(job, s, a))
  {
    var t, j := Apply(job, s, a), a.j;
    assert MapperInv(job, s, j);
    StartKeeps(s.mappers[j], Feeds(job.assignment, j), s.toMapper, job.scripts);
    assert Signals([]) == [];
    GrowthKeeps(s.reducer, Everyone(job.mappers), s.toReducer, s.outs, j, t.outs[j]);
    forall i | 0 <= i < |job.assignment| ensures CollectorInv(job, t, i) { assert CollectorInv(job, s, i); }
    forall k | 0 <= k < job.mappers ensures MapperInv(job, t, k) {
      if k != j { MapperUntouched(job, s, t, k); }
    }
  }

  lemma StartReducerKeeps(job: Job, s: State, a: Action)
    requires Inv(job, s) && Enabled(job, s, a) && a.StartReducer?
    ensures Inv(job, Apply(job, s, a))
  {
    var t := Apply(job, s, a);
    StartKeeps(s.reducer, Everyone(job.mappers), s.toReducer, s.outs);
    forall i | 0 <= i < |job.assignment| ensures CollectorInv(job, t, i) { assert CollectorInv(job, s, i); }
    forall j | 0 <= j < job.mappers ensures MapperInv(job, t, j) { MapperUntouched(job, s, t, j); }
  }

  lemma ForwardKeeps(job: Job, s: State, a: Action)
    requires Inv(job, s) && Enabled(job, s, a) && a.Forward?
    ensures Inv(job, Apply(job, s, a))
  {
    var t, j := Apply(job, s, a), a.j;
    if s.reducer.phase.Active? {
      ConsumeKeeps(s.reducer, Everyone(job.mappers), s.toReducer, s.outs, j);
    } else {
      DiscardKeeps(s.reducer, Everyone(job.mappers), s.toReducer, s.outs, j);
    }
    forall i | 0 <= i < |job.assignment| ensures CollectorInv(job, t, i) { assert CollectorInv(job, s, i); }
    forall k | 0 <= k < job.mappers ensures MapperInv(job, t, k) { MapperUntouched(job, s, t, k); }
  }

  lemma MappedSends(job: Job, role: Role, out: seq<Signal>, item: Item)
    requires role.phase.Active? && out == Replies(job.mapFn, Signals(role.log)) + EndMark(role)
    ensures var next := Mapped(job, role, item);
      out + (Reply(job.mapFn, item.signal) + EndMark(next)) == Replies(job.mapFn, Signals(next.log)) + EndMark(next)
  {
    var replies, next := Replies(job.mapFn, Signals(role.log)), Mapped(job, role, item);
    assert out == replies;
    SignalsOneMore(role.log, item);
    RepliesOneMore(job.mapFn, Signals(role.log), item.signal);
    Lists.ConcatAssociates(replies, Reply(job.mapFn, item.signal), EndMark(next));
  }

  lemma MappedFails(job: Job, role: Role, item: Item)
    requires role.phase.Active? && NoneFails(job.mapFn, Signals(role.log))
    ensures NoneFails(job.mapFn, Signals(role.log + [item])) <==> !Fails(job.mapFn, item.signal)
  {
    var before, after := Signals(role.log), Signals(role.log + [item]);
    assert after == before + [item.signal];
    assert after[|before|] == item.signal;
  }

  lemma MappedProduces(job: Job, j: nat, role: Role, out: seq<Signal>, item: Item)
    requires role.phase.Active? && Produced(job, j, role, out)
    requires Consumed(role, item).phase.Finished? ==> Completed(Consumed(role, item), Feeds(job.assignment, j))
    ensures var next := Mapped(job, role, item);
      Produced(job, j, next, out + (Reply(job.mapFn, item.signal) + EndMark(next)))
  {
    MappedSends(job, role, out, item);
    MappedFails(job, role, item);
    var next := Mapped(job, role, item);
    assert next.log[..|next.log| - 1] == role.log;
  }

  lemma MappedKeeps(job: Job, s: State, i: nat)
    requires Inv(job, s) && Enabled(job, s, Deliver(i)) && s.mappers[job.assignment[i]].phase.Active?
    ensures MapperInv(job, Apply(job, s, Deliver(i)), job.assignment[i])
  {
    var j, t := job.assignment[i], Apply(job, s, Deliver(i));
    var role, upstream, item := s.mappers[j], Feeds(job.assignment, j), Item(i, job.scripts[i][s.toMapper[i].received]);
    assert MapperInv(job, s, j);
    ConsumeKeeps(role, upstream, s.toMapper, job.scripts, i);
    if Fails(job.mapFn, item.signal) {
      QuitKeeps(Consumed(role, item), upstream, t.toMapper, job.scripts);
    }
    MappedProduces(job, j, role, s.outs[j], item);
  }

  lemma DeliverKeeps(job: Job, s: State, a: Action)
    requires Inv(job, s) && Enabled(job, s, a) && a.Deliver?
    ensures Inv(job, Apply(job, s, a))
  {
    var t, i := Apply(job, s, a), a.i;
    var j := job.assignment[i];
    assert MapperInv(job, s, j);
    if s.mappers[j].phase.Active? {
      MappedKeeps(job, s, i);
      GrowthKeeps(s.reducer, Everyone(job.mappers), s.toReducer, s.outs, j, t.outs[j]);
    } else {
      DiscardKeeps(s.mappers[j], Feeds(job.assignment, j), s.toMapper, job.scripts, i);
    }
    forall k | 0 <= k < |job.assignment| ensures CollectorInv(job, t, k) { assert CollectorInv(job, s, k); }
    forall k | 0 <= k < job.mappers ensures MapperInv(job, t, k) {
      assert MapperInv(job, s, k);
      if k != j {
        ForeignKeeps(s.mappers[k], Feeds(job.assignment, k), s.toMapper, job.scripts, i, t.toMapper[i]);
      }
    }
  }

  /** Every step keeps the invariant. */
  lemma StepKeepsInv(job: Job, s: State, a: Action)
    requires Inv(job, s) && Enabled(job, s, a)
    ensures Inv(job, Apply(job, s, a))
  {
    match a
    case Assign => QuietStepKeeps(job, s, a);
    case StartCollector(_) => QuietStepKeeps(job, s, a);
    case Send(_) => QuietStepKeeps(job, s, a);
    case StartMapper(_) => StartMapperKeeps(job, s, a);
    case StartReducer => StartReducerKeeps(job, s, a);
    case Deliver(_) => DeliverKeeps(job, s, a);
    case Forward(_) => ForwardKeeps(job, s, a);
  }
}
