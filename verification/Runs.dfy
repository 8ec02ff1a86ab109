/** What holds over every run of a job: the phase barrier from end to end, conservation of data,
    termination, and exactly when the reducer finishes. */
module Runs {
  import opened Words
  import opened Bytes
  import opened Transport
  import opened Coordinator
  import opened Roles
  import opened Protocol

  // ----- Runs ------------------------------------------------------------------------------

  ghost predicate IsRun(job: Job, run: seq<State>, acts: seq<Action>) {
    && |run| == |acts| + 1 && run[0] == Init(job)
    && forall k :: 0 <= k < |acts| ==> Next(job, run[k], acts[k], run[k + 1])
  }

  lemma {:induction false} RunKeepsInv(job: Job, run: seq<State>, acts: seq<Action>, k: nat)
    requires ValidJob(job) && IsRun(job, run, acts) && k <= |acts|
    ensures Inv(job, run[k])
    decreases k
  {
    if k == 0 {
      InitInv(job);
    } else {
      RunKeepsInv(job, run, acts, k - 1);
      assert Next(job, run[k - 1], acts[k - 1], run[k - 1 + 1]);
      StepKeepsInv(job, run[k - 1], acts[k - 1]);
    }
  }

  /** No role starts before the coordinator has sent its assignment: collectors first, then mappers,
      then the reducer. */
  lemma RolesFollowAssignments(job: Job, run: seq<State>, acts: seq<Action>, k: nat)
    requires ValidJob(job) && IsRun(job, run, acts) && k <= |acts|
    ensures var s, n, m := run[k], |job.assignment|, job.mappers;
      && |s.started| == n && |s.mappers| == m
      && (forall i :: 0 <= i < n && s.started[i] ==> i < s.issued)
      && (forall j :: 0 <= j < m && !s.mappers[j].phase.Idle? ==> n + j < s.issued)
      && (!s.reducer.phase.Idle? ==> n + m < s.issued)
  {
    RunKeepsInv(job, run, acts, k);
    var s := run[k];
    forall i | 0 <= i < |job.assignment| && s.started[i] ensures i < s.issued { assert CollectorInv(job, s, i); }
    forall j | 0 <= j < job.mappers && !s.mappers[j].phase.Idle? ensures |job.assignment| + j < s.issued {
      assert MapperInv(job, s, j);
    }
  }

  // ----- The barrier from end to end -------------------------------------------------------

  lemma OutsAreScripts(job: Job, s: State)
    requires Inv(job, s)
    ensures AllScripts(s.outs)
    ensures forall j :: 0 <= j < job.mappers ==> (Announces(s.outs[j]) <==> s.mappers[j].phase.Finished?)
  {
    forall j | 0 <= j < job.mappers
      ensures IsScript(s.outs[j]) && (Announces(s.outs[j]) <==> s.mappers[j].phase.Finished?)
    {
      assert MapperInv(job, s, j);
      RepliesAreChunks(job.mapFn, Signals(s.mappers[j].log));
    }
  }

  ghost predicate MapsSucceed(job: Job) {
    forall i :: 0 <= i < |job.scripts| ==> NoneFails(job.mapFn, job.scripts[i])
  }

  lemma {:induction false} FromHolds(log: seq<Item>, k: nat) returns (at: nat)
    requires k < |log|
    ensures at < |From(log, log[k].source)| && From(log, log[k].source)[at] == log[k].signal
    decreases |log|
  {
    var n := |log| - 1;
    if k == n {
      at := |From(log[..n], log[k].source)|;
    } else {
      at := FromHolds(log[..n], k);
    }
  }

  /** A mapper only takes what its collectors send. */
  lemma LogFromScripts(job: Job, s: State, j: nat, at: nat) returns (i: nat, k: nat)
    requires Inv(job, s) && j < job.mappers && at < |s.mappers[j].log|
    ensures i < |job.scripts| && k < |job.scripts[i]| && job.scripts[i][k] == s.mappers[j].log[at].signal
  {
    assert MapperInv(job, s, j);
    i := s.mappers[j].log[at].source;
    assert Linked(s.mappers[j], Feeds(job.assignment, j), s.toMapper, job.scripts, i);
    var within := FromHolds(s.mappers[j].log, at);
    k := s.toMapper[i].early + within;
  }

  /** So its map fails on nothing else. */
  lemma LogSucceeds(job: Job, s: State, j: nat)
    requires Inv(job, s) && MapsSucceed(job) && j < job.mappers
    ensures NoneFails(job.mapFn, Signals(s.mappers[j].log))
  {
    var log := s.mappers[j].log;
    forall at | 0 <= at < |log| ensures !Fails(job.mapFn, Signals(log)[at]) {
      var i, k := LogFromScripts(job, s, j, at);
      assert !Fails(job.mapFn, job.scripts[i][k]);
    }
  }

  /** A mapper that has finished without a failure has taken, from each of its collectors, all
      that was not discarded, and its end. */
  lemma MapperBarrier(job: Job, s: State, j: nat, i: nat)
    requires ValidJob(job) && Inv(job, s) && i < |job.assignment| && job.assignment[i] == j
    requires s.mappers[j].phase.Finished? && NoneFails(job.mapFn, Signals(s.mappers[j].log))
    ensures From(s.mappers[j].log, i) == Tail(job.scripts[i], s.toMapper[i].early)
    ensures EndHeard(s.toMapper[i], job.scripts[i])
  {
    assert MapperInv(job, s, j);
    RoleBarrier(s.mappers[j], Feeds(job.assignment, j), s.toMapper, job.scripts);
  }

  /** The phase barrier: when the reducer has finished, every mapper has finished and the reducer
      has taken, in order and once, all that each mapper sent after the discarded beginning. */
  lemma ReducerBarrier(job: Job, s: State, j: nat)
    requires ValidJob(job) && Inv(job, s) && s.reducer.phase.Finished? && j < job.mappers
    ensures s.mappers[j].phase.Finished?
    ensures From(s.reducer.log, j) == Tail(s.outs[j], s.toReducer[j].early)
  {
    OutsAreScripts(job, s);
    RoleBarrier(s.reducer, Everyone(job.mappers), s.toReducer, s.outs);
    assert EndHeard(s.toReducer[j], s.outs[j]);
  }

  // ----- Conservation ----------------------------------------------------------------------

  /** No message reached a node before its role had started. */
  ghost predicate NothingEarly(s: State) {
    && (forall i :: 0 <= i < |s.toMapper| ==> s.toMapper[i].early == 0)
    && (forall j :: 0 <= j < |s.toReducer| ==> s.toReducer[j].early == 0)
  }

  /** The map turns weight `g` of what it takes into weight `f` of what it sends; ends weigh
      nothing. */
  ghost predicate Transforms(mapFn: Bytes -> MapResult, f: Signal -> nat, g: Signal -> nat) {
    && f(Done) == 0
    && forall s :: !Fails(mapFn, s) ==> Weigh(Reply(mapFn, s), f) == g(s)
  }

  lemma {:induction false} RepliesWeigh(mapFn: Bytes -> MapResult, signals: seq<Signal>, f: Signal -> nat,
                                        g: Signal -> nat)
    requires Transforms(mapFn, f, g) && NoneFails(mapFn, signals)
    ensures Weigh(Replies(mapFn, signals), f) == Weigh(signals, g)
    decreases |signals|
  {
    if signals != [] {
      var n := |signals| - 1;
      RepliesWeigh(mapFn, signals[..n], f, g);
      WeighConcat(Replies(mapFn, signals[..n]), Reply(mapFn, signals[n]), f);
    }
  }

  function ScriptWeights(scripts: seq<seq<Signal>>, g: Signal -> nat): (r: seq<nat>)
    ensures |r| == |scripts| && forall i :: 0 <= i < |r| ==> r[i] == Weigh(scripts[i], g)
  {
    seq(|scripts|, i requires 0 <= i < |scripts| => Weigh(scripts[i], g))
  }

  /** What a finished mapper has sent weighs what its collectors sent. */
  lemma MapperConserves(job: Job, s: State, j: nat, f: Signal -> nat, g: Signal -> nat)
    requires ValidJob(job) && Inv(job, s) && j < job.mappers && s.mappers[j].phase.Finished?
    requires NothingEarly(s) && MapsSucceed(job) && Transforms(job.mapFn, f, g)
    ensures Weigh(s.outs[j], f) == Total(Masked(job.assignment, ScriptWeights(job.scripts, g), j))
  {
    assert MapperInv(job, s, j);
    LogSucceeds(job, s, j);
    var log, n, weights := s.mappers[j].log, |job.assignment|, ScriptWeights(job.scripts, g);
    WeighOneMore(Replies(job.mapFn, Signals(log)), Done, f);
    RepliesWeigh(job.mapFn, Signals(log), f, g);
    WeighBySource(log, n, g);
    var shares := PerSource(log, n, g);
    forall i | 0 <= i < n ensures shares[i] == if job.assignment[i] == j then weights[i] else 0 {
      if job.assignment[i] == j {
        MapperBarrier(job, s, j, i);
      } else {
        assert Linked(s.mappers[j], Feeds(job.assignment, j), s.toMapper, job.scripts, i);
      }
    }
    assert shares == Masked(job.assignment, weights, j);
  }

  /** Conservation: whatever the interleaving, when the reducer has finished and nothing came too
      early, what it has received weighs exactly what the collectors sent. */
  lemma Conservation(job: Job, s: State, f: Signal -> nat, g: Signal -> nat)
    requires ValidJob(job) && Inv(job, s) && s.reducer.phase.Finished?
    requires NothingEarly(s) && MapsSucceed(job) && Transforms(job.mapFn, f, g)
    ensures Weigh(Signals(s.reducer.log), f) == Total(ScriptWeights(job.scripts, g))
  {
    var m, weights := job.mappers, ScriptWeights(job.scripts, g);
    WeighBySource(s.reducer.log, m, f);
    var shares := PerSource(s.reducer.log, m, f);
    forall j | 0 <= j < m ensures shares[j] == Total(Masked(job.assignment, weights, j)) {
      ReducerBarrier(job, s, j);
      MapperConserves(job, s, j, f, g);
    }
    assert shares == Shares(job.assignment, weights, m);
    SharesSumToTotal(job.assignment, weights, m);
  }

  // ----- Shortfall -------------------------------------------------------------------------

  /** The map never sends more of weight `f` than the weight `g` of what it takes, and sends nothing
      when it fails. */
  ghost predicate Shrinks(mapFn: Bytes -> MapResult, f: Signal -> nat, g: Signal -> nat) {
    && f(Done) == 0
    && forall s :: Weigh(Reply(mapFn, s), f) <= g(s) && (Fails(mapFn, s) ==> Weigh(Reply(mapFn, s), f) == 0)
  }

  lemma {:induction false} RepliesShrink(mapFn: Bytes -> MapResult, signals: seq<Signal>, f: Signal -> nat,
                                         g: Signal -> nat)
    requires Shrinks(mapFn, f, g)
    ensures Weigh(Replies(mapFn, signals), f) <= Weigh(signals, g)
    decreases |signals|
  {
    if signals != [] {
      var n := |signals| - 1;
      RepliesShrink(mapFn, signals[..n], f, g);
      WeighConcat(Replies(mapFn, signals[..n]), Reply(mapFn, signals[n]), f);
    }
  }

  /** A failure loses the whole weight of the message on which the map fails. */
  lemma {:induction false} FailureShrinks(mapFn: Bytes -> MapResult, signals: seq<Signal>, k: nat,
                                          f: Signal -> nat, g: Signal -> nat)
    requires Shrinks(mapFn, f, g) && k < |signals| && Fails(mapFn, signals[k])
    ensures Weigh(Replies(mapFn, signals), f) + g(signals[k]) <= Weigh(signals, g)
    decreases |signals|
  {
    var n := |signals| - 1;
    WeighConcat(Replies(mapFn, signals[..n]), Reply(mapFn, signals[n]), f);
    if k == n {
      RepliesShrink(mapFn, signals[..n], f, g);
    } else {
      FailureShrinks(mapFn, signals[..n], k, f, g);
    }
  }

  lemma WeighPrefix(part: seq<Signal>, script: seq<Signal>, g: Signal -> nat)
    requires part <= script
    ensures Weigh(part, g) <= Weigh(script, g)
  {
    assert script == part + script[|part|..];
    WeighConcat(part, script[|part|..], g);
  }

  /** A mapper takes no more than its collectors send. */
  lemma LogWeighsAtMost(job: Job, s: State, j: nat, g: Signal -> nat)
    requires Inv(job, s) && NothingEarly(s) && j < job.mappers
    ensures Weigh(Signals(s.mappers[j].log), g) <= Total(Masked(job.assignment, ScriptWeights(job.scripts, g), j))
  {
    assert MapperInv(job, s, j);
    var log, n, weights := s.mappers[j].log, |job.assignment|, ScriptWeights(job.scripts, g);
    WeighBySource(log, n, g);
    var shares := PerSource(log, n, g);
    forall i | 0 <= i < n ensures shares[i] <= Masked(job.assignment, weights, j)[i] {
      assert Linked(s.mappers[j], Feeds(job.assignment, j), s.toMapper, job.scripts, i);
      if job.assignment[i] == j { WeighPrefix(From(log, i), job.scripts[i], g); }
    }
    TotalMonotone(shares, Masked(job.assignment, weights, j));
  }

  /** If the map fails on something a collector sends, some mapper has failed by the time the
      reducer has finished. */
  lemma SomeMapperFails(job: Job, s: State, i: nat, k: nat) returns (j: nat, at: nat)
    requires ValidJob(job) && Inv(job, s) && s.reducer.phase.Finished? && NothingEarly(s)
    requires i < |job.scripts| && k < |job.scripts[i]| && Fails(job.mapFn, job.scripts[i][k])
    ensures j < job.mappers && at < |s.mappers[j].log| && Fails(job.mapFn, s.mappers[j].log[at].signal)
  {
    j := job.assignment[i];
    var log := s.mappers[j].log;
    ReducerBarrier(job, s, j);
    if NoneFails(job.mapFn, Signals(log)) {
      MapperBarrier(job, s, j, i);
      assert From(log, i) == job.scripts[i];
      at := FromIndex(log, i, k);
    } else {
      at :| 0 <= at < |Signals(log)| && Fails(job.mapFn, Signals(log)[at]);
    }
  }

  lemma {:induction false} FromIndex(log: seq<Item>, source: nat, at: nat) returns (k: nat)
    requires at < |From(log, source)|
    ensures k < |log| && log[k] == Item(source, From(log, source)[at])
    decreases |log|
  {
    var n := |log| - 1;
    if at < |From(log[..n], source)| {
      k := FromIndex(log[..n], source, at);
    } else {
      k := n;
    }
  }

  /** What a finished mapper has sent weighs no more than what its collectors sent. */
  lemma MapperShrinks(job: Job, s: State, j: nat, f: Signal -> nat, g: Signal -> nat)
    requires ValidJob(job) && Inv(job, s) && NothingEarly(s) && j < job.mappers && Shrinks(job.mapFn, f, g)
    ensures Weigh(s.outs[j], f) <= Total(Masked(job.assignment, ScriptWeights(job.scripts, g), j))
  {
    assert MapperInv(job, s, j);
    var log := s.mappers[j].log;
    WeighOneMore(Replies(job.mapFn, Signals(log)), Done, f);
    assert Replies(job.mapFn, Signals(log)) + [] == Replies(job.mapFn, Signals(log));
    RepliesShrink(job.mapFn, Signals(log), f, g);
    LogWeighsAtMost(job, s, j, g);
  }

  lemma FailedMapperShrinks(job: Job, s: State, j: nat, at: nat, f: Signal -> nat, g: Signal -> nat)
    requires ValidJob(job) && Inv(job, s) && NothingEarly(s) && j < job.mappers && Shrinks(job.mapFn, f, g)
    requires at < |s.mappers[j].log| && Fails(job.mapFn, s.mappers[j].log[at].signal)
    ensures Weigh(s.outs[j], f) + g(s.mappers[j].log[at].signal)
         <= Total(Masked(job.assignment, ScriptWeights(job.scripts, g), j))
  {
    assert MapperInv(job, s, j);
    var log := s.mappers[j].log;
    WeighOneMore(Replies(job.mapFn, Signals(log)), Done, f);
    assert Replies(job.mapFn, Signals(log)) + [] == Replies(job.mapFn, Signals(log));
    FailureShrinks(job.mapFn, Signals(log), at, f, g);
    LogWeighsAtMost(job, s, j, g);
  }

  lemma TotalStrict(xs: seq<nat>, ys: seq<nat>, j: nat)
    requires |xs| == |ys| && j < |xs| && xs[j] < ys[j] && forall k :: 0 <= k < |xs| ==> xs[k] <= ys[k]
    ensures Total(xs) < Total(ys)
  {
    TotalMonotone(xs, ys);
  }

  /** When a mapper has failed on a message of positive weight, the reducer falls short. */
  lemma Shortfall(job: Job, s: State, j: nat, at: nat, f: Signal -> nat, g: Signal -> nat)
    requires ValidJob(job) && Inv(job, s) && s.reducer.phase.Finished? && NothingEarly(s) && Shrinks(job.mapFn, f, g)
    requires j < job.mappers && at < |s.mappers[j].log| && Fails(job.mapFn, s.mappers[j].log[at].signal)
    requires g(s.mappers[j].log[at].signal) > 0
    ensures Weigh(Signals(s.reducer.log), f) < Total(ScriptWeights(job.scripts, g))
  {
    var m, weights := job.mappers, ScriptWeights(job.scripts, g);
    WeighBySource(s.reducer.log, m, f);
    var sent, due := PerSource(s.reducer.log, m, f), Shares(job.assignment, weights, m);
    forall k | 0 <= k < m ensures sent[k] <= due[k] && (k == j ==> sent[k] < due[k]) {
      ReducerBarrier(job, s, k);
      MapperShrinks(job, s, k, f, g);
      if k == j { FailedMapperShrinks(job, s, j, at, f, g); }
    }
    TotalStrict(sent, due, j);
    SharesSumToTotal(job.assignment, weights, m);
  }

  // ----- Roles that are ready in time ------------------------------------------------------

  /** A collector starts only when its mapper has, and a mapper only when the reducer has. */
  ghost predicate Ready(job: Job, s: State, a: Action) {
    Shaped(job, s) ==>
      && (a.StartCollector? && a.i < |job.assignment| ==> !s.mappers[job.assignment[a.i]].phase.Idle?)
      && (a.StartMapper? ==> !s.reducer.phase.Idle?)
  }

  /** A run that starts every role in time. */
  ghost predicate ReadyRun(job: Job, run: seq<State>, acts: seq<Action>) {
    IsRun(job, run, acts) && forall h :: 0 <= h < |acts| ==> Ready(job, run[h], acts[h])
  }

  ghost predicate InTime(job: Job, s: State)
    requires Shaped(job, s)
  {
    && (forall i :: 0 <= i < |job.assignment| && s.started[i] ==> !s.mappers[job.assignment[i]].phase.Idle?)
    && (forall j :: 0 <= j < job.mappers && !s.mappers[j].phase.Idle? ==> !s.reducer.phase.Idle?)
  }

  lemma ReadyKeepsInTime(job: Job, s: State, a: Action)
    requires Inv(job, s) && Enabled(job, s, a) && InTime(job, s) && NothingEarly(s) && Ready(job, s, a)
    ensures InTime(job, Apply(job, s, a)) && NothingEarly(Apply(job, s, a))
  {
    match a
    case Deliver(i) =>
      assert CollectorInv(job, s, i);
      assert MapperInv(job, s, job.assignment[i]);
    case Forward(j) =>
      assert MapperInv(job, s, j);
    case _ =>
  }

  /** In a run that starts every role in time, nothing is ever discarded early. */
  lemma {:induction false} ReadyRunsLoseNothing(job: Job, run: seq<State>, acts: seq<Action>, k: nat)
    requires ValidJob(job) && ReadyRun(job, run, acts) && k <= |acts|
    ensures Inv(job, run[k]) && InTime(job, run[k]) && NothingEarly(run[k])
    decreases k
  {
    RunKeepsInv(job, run, acts, k);
    if k > 0 {
      var h := k - 1;
      ReadyRunsLoseNothing(job, run, acts, h);
      assert Next(job, run[h], acts[h], run[h + 1]);
      ReadyKeepsInTime(job, run[h], acts[h]);
    }
  }

  // ----- Termination -----------------------------------------------------------------------

  /** Steps a collector and its channel still have to make. */
  function CollectorWork(script: seq<Signal>, started: bool, sent: nat, received: nat): nat {
    (if started then 0 else 1) + SaturatingSub(|script|, sent) + SaturatingSub(|script|, received)
  }

  function CollectorsWork(job: Job, s: State): (r: seq<nat>)
    requires Shaped(job, s)
    ensures |r| == |job.assignment|
    ensures forall i :: 0 <= i < |r| ==>
      r[i] == CollectorWork(job.scripts[i], s.started[i], s.sent[i], s.toMapper[i].received)
  {
    seq(|job.assignment|, i requires 0 <= i < |job.assignment| =>
      CollectorWork(job.scripts[i], s.started[i], s.sent[i], s.toMapper[i].received))
  }

  function RoleWork(role: Role): nat {
    if role.phase.Idle? then 1 else 0
  }

  function MappersWork(job: Job, s: State): (r: seq<nat>)
    requires Shaped(job, s)
    ensures |r| == job.mappers && forall j :: 0 <= j < |r| ==> r[j] == RoleWork(s.mappers[j])
  {
    seq(job.mappers, j requires 0 <= j < job.mappers => RoleWork(s.mappers[j]))
  }

  /** Steps left up to the mappers. */
  function Work(job: Job, s: State): nat
    requires Shaped(job, s)
  {
    SaturatingSub(|job.assignment| + job.mappers + 1, s.issued) + Total(CollectorsWork(job, s))
    + Total(MappersWork(job, s)) + RoleWork(s.reducer)
  }

  function InFlight(job: Job, s: State): (r: seq<nat>)
    requires Shaped(job, s)
    ensures |r| == job.mappers
    ensures forall j :: 0 <= j < |r| ==> r[j] == SaturatingSub(|s.outs[j]|, s.toReducer[j].received)
  {
    seq(job.mappers, j requires 0 <= j < job.mappers => SaturatingSub(|s.outs[j]|, s.toReducer[j].received))
  }

  /** Messages on their way to the reducer. */
  function Backlog(job: Job, s: State): nat
    requires Shaped(job, s)
  {
    Total(InFlight(job, s))
  }

  lemma CollectorStep(job: Job, s: State, t: State, i: nat)
    requires Shaped(job, s) && Shaped(job, t) && i < |job.assignment|
    requires forall k :: 0 <= k < |job.assignment| && k != i ==>
      s.started[k] == t.started[k] && s.sent[k] == t.sent[k] && s.toMapper[k] == t.toMapper[k]
    requires CollectorsWork(job, s)[i] == CollectorsWork(job, t)[i] + 1
    ensures Total(CollectorsWork(job, s)) == Total(CollectorsWork(job, t)) + 1
  {
    TotalRaised(CollectorsWork(job, t), i, 1, CollectorsWork(job, s));
  }

  lemma MappersStep(job: Job, s: State, t: State, j: nat)
    requires Shaped(job, s) && Shaped(job, t) && j < job.mappers && s.mappers[j].phase.Idle?
    requires !t.mappers[j].phase.Idle? && t.mappers == s.mappers[j := t.mappers[j]]
    ensures Total(MappersWork(job, s)) == Total(MappersWork(job, t)) + 1
  {
    TotalRaised(MappersWork(job, t), j, 1, MappersWork(job, s));
  }

  /** A step of a collector or of its channel is one step fewer for it. */
  lemma CollectorWorkFalls(job: Job, s: State, a: Action, i: nat)
    requires Inv(job, s) && Enabled(job, s, a)
    requires a == StartCollector(i) || a == Send(i) || a == Deliver(i)
    ensures Total(CollectorsWork(job, s)) == Total(CollectorsWork(job, Apply(job, s, a))) + 1
  {
    CollectorStep(job, s, Apply(job, s, a), i);
  }

  /** Every step but a delivery to the reducer leaves one step fewer for the stages before it. */
  lemma WorkFalls(job: Job, s: State, a: Action)
    requires Inv(job, s) && Enabled(job, s, a) && !a.Forward?
    ensures Work(job, s) == Work(job, Apply(job, s, a)) + 1
  {
    var t := Apply(job, s, a);
    match a
    case Assign => SameCollectors(job, s, t); SameMappers(job, s, t);
    case StartReducer => SameCollectors(job, s, t); SameMappers(job, s, t);
    case StartMapper(j) => SameCollectors(job, s, t); MappersStep(job, s, t, j);
    case StartCollector(i) => CollectorWorkFalls(job, s, a, i); SameMappers(job, s, t);
    case Send(i) => CollectorWorkFalls(job, s, a, i); SameMappers(job, s, t);
    case Deliver(i) => CollectorWorkFalls(job, s, a, i); SameMappers(job, s, t);
  }

  lemma SameCollectors(job: Job, s: State, t: State)
    requires Shaped(job, s) && Shaped(job, t)
    requires s.started == t.started && s.sent == t.sent && s.toMapper == t.toMapper
    ensures Total(CollectorsWork(job, s)) == Total(CollectorsWork(job, t))
  {
    assert CollectorsWork(job, s) == CollectorsWork(job, t);
  }

  lemma SameMappers(job: Job, s: State, t: State)
    requires Shaped(job, s) && Shaped(job, t)
    requires forall j :: 0 <= j < job.mappers ==> RoleWork(s.mappers[j]) == RoleWork(t.mappers[j])
    ensures Total(MappersWork(job, s)) == Total(MappersWork(job, t))
  {
    assert MappersWork(job, s) == MappersWork(job, t);
  }

  /** A delivery to the reducer empties its channels by one and leaves the rest alone. */
  lemma BacklogFalls(job: Job, s: State, j: nat)
    requires Inv(job, s) && Enabled(job, s, Forward(j))
    ensures Work(job, s) == Work(job, Apply(job, s, Forward(j)))
    ensures Backlog(job, s) == Backlog(job, Apply(job, s, Forward(j))) + 1
  {
    var t := Apply(job, s, Forward(j));
    SameCollectors(job, s, t);
    SameMappers(job, s, t);
    TotalRaised(InFlight(job, t), j, 1, InFlight(job, s));
  }

  function Handed(job: Job, s: State): (r: seq<nat>)
    requires Shaped(job, s)
    ensures |r| == job.mappers && forall j :: 0 <= j < |r| ==> r[j] == s.toReducer[j].received
  {
    seq(job.mappers, j requires 0 <= j < job.mappers => s.toReducer[j].received)
  }

  lemma HandedStep(job: Job, s: State, a: Action)
    requires Shaped(job, s) && Enabled(job, s, a)
    ensures Total(Handed(job, Apply(job, s, a))) == Total(Handed(job, s)) + if a.Forward? then 1 else 0
  {
    var t := Apply(job, s, a);
    if a.Forward? {
      TotalRaised(Handed(job, s), a.j, 1, Handed(job, t));
    } else {
      assert Handed(job, t) == Handed(job, s);
    }
  }

  /** The length of a run: the work done by the stages before the reducer, which is bounded by
      the job, and one step for every message the reducer has been handed. */
  lemma {:induction false} RunLength(job: Job, run: seq<State>, acts: seq<Action>, k: nat)
    requires ValidJob(job) && IsRun(job, run, acts) && k <= |acts|
    ensures Inv(job, run[0]) && Inv(job, run[k])
    ensures k + Work(job, run[k]) == Work(job, run[0]) + Total(Handed(job, run[k]))
    decreases k
  {
    RunKeepsInv(job, run, acts, 0);
    RunKeepsInv(job, run, acts, k);
    if k == 0 {
      TotalZero(Handed(job, run[0]));
    } else {
      var h := k - 1;
      RunLength(job, run, acts, h);
      assert Next(job, run[h], acts[h], run[h + 1]);
      HandedStep(job, run[h], acts[h]);
      if acts[h].Forward? {
        BacklogFalls(job, run[h], acts[h].j);
      } else {
        WorkFalls(job, run[h], acts[h]);
      }
    }
  }

  /** No run goes on for ever. */
  lemma {:induction false} EveryRunEnds(job: Job, states: nat -> State, acts: nat -> Action, k: nat)
    requires forall h: nat :: Next(job, states(h), acts(h), states(h + 1))
    requires Inv(job, states(k))
    ensures false
    decreases Work(job, states(k)), Backlog(job, states(k))
  {
    assert Next(job, states(k), acts(k), states(k + 1));
    StepKeepsInv(job, states(k), acts(k));
    if acts(k).Forward? {
      BacklogFalls(job, states(k), acts(k).j);
    } else {
      WorkFalls(job, states(k), acts(k));
    }
    EveryRunEnds(job, states, acts, k + 1);
  }

  // ----- Runs that start every role in time exist ------------------------------------------

  /** A run that has started every role in time so far can go on doing so. */
  lemma ReadyStepExists(job: Job, s: State) returns (a: Action)
    requires Inv(job, s) && InTime(job, s) && !AtRest(job, s)
    ensures Enabled(job, s, a) && Ready(job, s, a)
  {
    a :| Enabled(job, s, a);
    if s.issued < |job.assignment| + job.mappers + 1 {
      a := Assign;
    } else if s.reducer.phase.Idle? {
      a := StartReducer;
    } else if j: nat :| j < job.mappers && s.mappers[j].phase.Idle? {
      a := StartMapper(j);
    }
  }

  lemma {:induction false} ReadyRunGoesOn(job: Job, run: seq<State>, acts: seq<Action>)
      returns (run': seq<State>, acts': seq<Action>)
    requires ValidJob(job) && ReadyRun(job, run, acts) && Inv(job, run[|acts|])
    ensures ReadyRun(job, run', acts') && Shaped(job, run'[|acts'|]) && AtRest(job, run'[|acts'|])
    decreases Work(job, run[|acts|]), Backlog(job, run[|acts|])
  {
    var s := run[|acts|];
    if AtRest(job, s) {
      return run, acts;
    }
    ReadyRunsLoseNothing(job, run, acts, |acts|);
    var a := ReadyStepExists(job, s);
    StepKeepsInv(job, s, a);
    if a.Forward? {
      BacklogFalls(job, s, a.j);
    } else {
      WorkFalls(job, s, a);
    }
    OneMoreStep(job, run, acts, a);
    run', acts' := ReadyRunGoesOn(job, run + [Apply(job, s, a)], acts + [a]);
  }

  lemma OneMoreStep(job: Job, run: seq<State>, acts: seq<Action>, a: Action)
    requires ReadyRun(job, run, acts) && Shaped(job, run[|acts|])
    requires Enabled(job, run[|acts|], a) && Ready(job, run[|acts|], a)
    ensures ReadyRun(job, run + [Apply(job, run[|acts|], a)], acts + [a])
  {
    var run', acts' := run + [Apply(job, run[|acts|], a)], acts + [a];
    forall k | 0 <= k < |acts'| ensures Next(job, run'[k], acts'[k], run'[k + 1]) && Ready(job, run'[k], acts'[k]) {
      if k < |acts| {
        assert Next(job, run[k], acts[k], run[k + 1]) && Ready(job, run[k], acts[k]);
      }
    }
  }

  /** Every job has a run that starts every role in time and comes to rest. */
  lemma ReadyRunExists(job: Job) returns (run: seq<State>, acts: seq<Action>)
    requires ValidJob(job)
    ensures ReadyRun(job, run, acts) && Shaped(job, run[|acts|]) && AtRest(job, run[|acts|])
  {
    InitInv(job);
    run, acts := ReadyRunGoesOn(job, [Init(job)], []);
  }

  // ----- When the reducer finishes ---------------------------------------------------------

  ghost predicate AtRest(job: Job, s: State)
    requires Shaped(job, s)
  {
    forall a :: !Enabled(job, s, a)
  }

  /** Nothing is left to do. */
  ghost predicate Spent(job: Job, s: State)
    requires Shaped(job, s)
  {
    && (forall i :: 0 <= i < |job.assignment| ==> s.toMapper[i].received == |job.scripts[i]|)
    && (forall j :: 0 <= j < job.mappers ==> !s.mappers[j].phase.Idle? && s.toReducer[j].received == |s.outs[j]|)
    && !s.reducer.phase.Idle?
  }

  lemma RestIsSpent(job: Job, s: State)
    requires Inv(job, s) && AtRest(job, s)
    ensures Spent(job, s)
  {
    assert !Enabled(job, s, Assign) && !Enabled(job, s, StartReducer);
    forall i | 0 <= i < |job.assignment| ensures s.toMapper[i].received == |job.scripts[i]| {
      assert CollectorInv(job, s, i);
      assert !Enabled(job, s, StartCollector(i)) && !Enabled(job, s, Send(i)) && !Enabled(job, s, Deliver(i));
    }
    forall j | 0 <= j < job.mappers ensures !s.mappers[j].phase.Idle? && s.toReducer[j].received == |s.outs[j]| {
      assert !Enabled(job, s, StartMapper(j)) && !Enabled(job, s, Forward(j));
      assert Linked(s.reducer, Everyone(job.mappers), s.toReducer, s.outs, j);
    }
  }

  /** Mapper `j` is bound to end: its map has failed, or it has heard the end of every collector
      that sends to it. */
  ghost predicate BoundToEnd(job: Job, s: State, j: nat)
    requires Shaped(job, s) && j < job.mappers
  {
    || !NoneFails(job.mapFn, Signals(s.mappers[j].log))
    || forall i :: 0 <= i < |job.assignment| && job.assignment[i] == j ==> EndHeard(s.toMapper[i], job.scripts[i])
  }

  lemma MapperAtRest(job: Job, s: State, j: nat)
    requires ValidJob(job) && Inv(job, s) && Spent(job, s) && j < job.mappers
    ensures s.mappers[j].phase.Finished? <==> BoundToEnd(job, s, j)
  {
    assert MapperInv(job, s, j);
    if NoneFails(job.mapFn, Signals(s.mappers[j].log)) {
      RoleAtRest(s.mappers[j], Feeds(job.assignment, j), s.toMapper, job.scripts);
    }
  }

  /** Exactly when the job completes: in a state where no step is possible, the reducer has
      finished if and only if every mapper was bound to end and its end was not discarded. */
  lemma ReducerAtRest(job: Job, s: State)
    requires ValidJob(job) && Inv(job, s) && AtRest(job, s)
    ensures s.reducer.phase.Finished? <==>
      forall j :: 0 <= j < job.mappers ==> BoundToEnd(job, s, j) && s.toReducer[j].early < |s.outs[j]|
  {
    RestIsSpent(job, s);
    OutsAreScripts(job, s);
    RoleAtRest(s.reducer, Everyone(job.mappers), s.toReducer, s.outs);
    forall j | 0 <= j < job.mappers
      ensures BoundToEnd(job, s, j) && s.toReducer[j].early < |s.outs[j]| <==> EndHeard(s.toReducer[j], s.outs[j])
    {
      MapperAtRest(job, s, j);
    }
  }

  /** No deadlock: if nothing came too early and every collector announces its end, the job can
      only come to rest with the reducer finished, whether or not the map fails. */
  lemma NoDeadlock(job: Job, s: State)
    requires ValidJob(job) && Inv(job, s) && AtRest(job, s) && NothingEarly(s)
    requires forall i :: 0 <= i < |job.scripts| ==> Announces(job.scripts[i])
    ensures s.reducer.phase.Finished?
  {
    RestIsSpent(job, s);
    OutsAreScripts(job, s);
    forall j | 0 <= j < job.mappers ensures BoundToEnd(job, s, j) && s.toReducer[j].early < |s.outs[j]| {
      MapperAtRest(job, s, j);
    }
    ReducerAtRest(job, s);
  }

  /** If the map never fails, a single collector that does not announce its end keeps the reducer
      from finishing in every run. */
  lemma SilentCollectorBlocks(job: Job, s: State, i: nat)
    requires ValidJob(job) && Inv(job, s) && MapsSucceed(job)
    requires i < |job.scripts| && !Announces(job.scripts[i])
    ensures !s.reducer.phase.Finished?
  {
    if s.reducer.phase.Finished? {
      var j := job.assignment[i];
      ReducerBarrier(job, s, j);
      LogSucceeds(job, s, j);
      MapperBarrier(job, s, j, i);
    }
  }

  /** A run that starts every role in time and cannot go on has finished the reducer, if every
      collector announces its end; when the map never fails, only then. */
  lemma ReadyRunsFinish(job: Job, run: seq<State>, acts: seq<Action>)
    requires ValidJob(job) && ReadyRun(job, run, acts)
    requires Shaped(job, run[|acts|]) && AtRest(job, run[|acts|])
    ensures (forall i :: 0 <= i < |job.scripts| ==> Announces(job.scripts[i])) ==> run[|acts|].reducer.phase.Finished?
    ensures MapsSucceed(job) && run[|acts|].reducer.phase.Finished? ==>
      forall i :: 0 <= i < |job.scripts| ==> Announces(job.scripts[i])
  {
    var s := run[|acts|];
    ReadyRunsLoseNothing(job, run, acts, |acts|);
    if forall i :: 0 <= i < |job.scripts| ==> Announces(job.scripts[i]) {
      NoDeadlock(job, s);
    } else if MapsSucceed(job) {
      var i :| 0 <= i < |job.scripts| && !Announces(job.scripts[i]);
      SilentCollectorBlocks(job, s, i);
    }
  }

  lemma OneFeeder()
    ensures Expected(Feeds([0], 0)) == 1 && Expected(Everyone(1)) == 1
  {
    assert Quota(Feeds([0], 0)) == [1] && Quota(Everyone(1)) == [1];
    assert [1][..0] == [];
    assert Total([1]) == 1;
  }

  /** One collector that only announces its end, one mapper. */
  function Lone(mapFn: Bytes -> MapResult): Job {
    Job([0], 1, [[Done]], mapFn)
  }

  function LoneState(issued: nat, started: bool, sent: nat, channel: Channel, mapper: Role, reducer: Role): State {
    State(issued, [started], [sent], [channel], [mapper], [[]], [Channel(0, 0)], reducer)
  }

  lemma LoneSends(mapFn: Bytes -> MapResult, idle: Role)
    requires idle == Role(Idle, [])
    ensures LoneState(0, false, 0, Channel(0, 0), idle, idle) == Init(Lone(mapFn))
    ensures Next(Lone(mapFn), LoneState(0, false, 0, Channel(0, 0), idle, idle), Assign,
                 LoneState(1, false, 0, Channel(0, 0), idle, idle))
    ensures Next(Lone(mapFn), LoneState(1, false, 0, Channel(0, 0), idle, idle), StartCollector(0),
                 LoneState(1, true, 0, Channel(0, 0), idle, idle))
    ensures Next(Lone(mapFn), LoneState(1, true, 0, Channel(0, 0), idle, idle), Send(0),
                 LoneState(1, true, 1, Channel(0, 0), idle, idle))
    ensures Next(Lone(mapFn), LoneState(1, true, 1, Channel(0, 0), idle, idle), Deliver(0),
                 LoneState(1, true, 1, Channel(1, 1), idle, idle))
  {
  }

  lemma LoneStarts(mapFn: Bytes -> MapResult, channel: Channel, idle: Role, active: Role)
    requires idle == Role(Idle, []) && active == Role(Active(1), [])
    ensures Next(Lone(mapFn), LoneState(1, true, 1, channel, idle, idle), Assign,
                 LoneState(2, true, 1, channel, idle, idle))
    ensures Next(Lone(mapFn), LoneState(2, true, 1, channel, idle, idle), StartMapper(0),
                 LoneState(2, true, 1, channel, active, idle))
    ensures Next(Lone(mapFn), LoneState(2, true, 1, channel, active, idle), Assign,
                 LoneState(3, true, 1, channel, active, idle))
    ensures Next(Lone(mapFn), LoneState(3, true, 1, channel, active, idle), StartReducer,
                 LoneState(3, true, 1, channel, active, active))
  {
    OneFeeder();
    var nothing: seq<seq<Signal>> := [[]];
    var none: seq<Signal> := [];
    assert nothing[0] + EndMark(active) == none;
    assert nothing[0 := none] == nothing;
  }

  /** The shipped order of assignments admits a run in which the end of a collector reaches its
      mapper before the mapper's assignment does: it is discarded and the job stalls. */
  lemma EarlyEndStalls(mapFn: Bytes -> MapResult) returns (job: Job, run: seq<State>, acts: seq<Action>)
    ensures ValidJob(job) && IsRun(job, run, acts) && job.mapFn == mapFn
    ensures forall i :: 0 <= i < |job.scripts| ==> Announces(job.scripts[i])
    ensures Shaped(job, run[|acts|]) && AtRest(job, run[|acts|]) && !run[|acts|].reducer.phase.Finished?
  {
    var idle, active, new_, lost := Role(Idle, []), Role(Active(1), []), Channel(0, 0), Channel(1, 1);
    job := Lone(mapFn);
    acts := [Assign, StartCollector(0), Send(0), Deliver(0), Assign, StartMapper(0), Assign, StartReducer];
    run := [LoneState(0, false, 0, new_, idle, idle), LoneState(1, false, 0, new_, idle, idle),
            LoneState(1, true, 0, new_, idle, idle), LoneState(1, true, 1, new_, idle, idle),
            LoneState(1, true, 1, lost, idle, idle), LoneState(2, true, 1, lost, idle, idle),
            LoneState(2, true, 1, lost, active, idle), LoneState(3, true, 1, lost, active, idle),
            LoneState(3, true, 1, lost, active, active)];
    LoneSends(mapFn, idle);
    LoneStarts(mapFn, lost, idle, active);
  }
}
