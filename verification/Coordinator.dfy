/** The coordinator: turns a plan into role assignments and the number of ends each role waits
    for. */
module Coordinator {
  import opened Words
  import opened Transport

  type Address = nat

  const MAX_SATELLITES: nat := 64

  /** `assignment[i]` is the index of the mapper that collector `i` sends to. */
  datatype Plan = Plan(collectors: seq<Address>, mappers: seq<Address>, assignment: seq<nat>, reducer: Address)

  predicate InRange(assignment: seq<nat>, mappers: nat) {
    forall i :: 0 <= i < |assignment| ==> assignment[i] < mappers
  }

  predicate WellFormed(plan: Plan) {
    && |plan.collectors| == |plan.assignment| <= MAX_SATELLITES && |plan.mappers| <= MAX_SATELLITES
    && InRange(plan.assignment, |plan.mappers|)
  }

  datatype Assignment =
    | ToCollector(node: Address, mapper: Address, partition: u8)
    | ToMapper(node: Address, reducer: Address, collectors: u8)
    | ToReducer(node: Address, los: Address, mappers: u8)

  /** A conversion to an unsigned byte. */
  function AsByte(n: nat): u8 {
    n % 0x100
  }

  /** The collectors that send to mapper `j`. */
  ghost function FeedersOf(assignment: seq<nat>, j: nat): set<nat> {
    set i | 0 <= i < |assignment| && assignment[i] == j
  }

  lemma FeedersFit(assignment: seq<nat>, j: nat, k: nat)
    requires k <= |assignment|
    ensures |FeedersOf(assignment[..k], j)| <= k
    decreases k
  {
    if k > 0 {
      FeedersFit(assignment, j, k - 1);
      OneMoreFeeder(assignment, j, k - 1);
    }
  }

  lemma OneMoreFeeder(assignment: seq<nat>, j: nat, k: nat)
    requires k < |assignment|
    ensures |FeedersOf(assignment[..k + 1], j)| == |FeedersOf(assignment[..k], j)| + if assignment[k] == j then 1 else 0
  {
    var before, after := FeedersOf(assignment[..k], j), FeedersOf(assignment[..k + 1], j);
    assert after == if assignment[k] == j then before + {k} else before;
  }

  /** The message to mapper `j` says where the reducer is and how many collectors it has. */
  ghost predicate TellsMapper(sent: seq<Assignment>, plan: Plan, j: nat)
    requires j < |plan.mappers| && |plan.collectors| + j < |sent|
  {
    var message := sent[|plan.collectors| + j];
    && message.ToMapper? && message.node == plan.mappers[j] && message.reducer == plan.reducer
    && message.collectors == |FeedersOf(plan.assignment, j)|
  }

  /** Sends every assignment of the plan: all collectors, then all mappers, then the reducer. */
  method Run(plan: Plan, los: Address) returns (sent: seq<Assignment>)
    requires WellFormed(plan)
    ensures |sent| == |plan.collectors| + |plan.mappers| + 1
    ensures forall i :: 0 <= i < |plan.collectors| ==>
      sent[i] == ToCollector(plan.collectors[i], plan.mappers[plan.assignment[i]], i)
    ensures forall j :: 0 <= j < |plan.mappers| ==>
      TellsMapper(sent, plan, j)
    ensures sent[|sent| - 1] == ToReducer(plan.reducer, los, |plan.mappers|)
  {
    sent := [];
    for i := 0 to |plan.collectors|
      invariant |sent| == i
      invariant forall k :: 0 <= k < i ==>
        sent[k] == ToCollector(plan.collectors[k], plan.mappers[plan.assignment[k]], k)
    {
      sent := sent + [ToCollector(plan.collectors[i], plan.mappers[plan.assignment[i]], AsByte(i))];
    }
    ghost var first := sent;
    for j := 0 to |plan.mappers|
      invariant |sent| == |first| + j && first <= sent
      invariant forall k :: 0 <= k < j ==>
        TellsMapper(sent, plan, k)
    {
      var count := CountFeeders(plan.assignment, j);
      FeedersFit(plan.assignment, j, |plan.assignment|);
      assert plan.assignment[..|plan.assignment|] == plan.assignment;
      ghost var before := sent;
      sent := sent + [ToMapper(plan.mappers[j], plan.reducer, AsByte(count))];
      StillTold(before, sent, plan, j);
    }
    ghost var before := sent;
    sent := sent + [ToReducer(plan.reducer, los, AsByte(|plan.mappers|))];
    StillTold(before, sent, plan, |plan.mappers|);
  }

  lemma StillTold(sent: seq<Assignment>, more: seq<Assignment>, plan: Plan, n: nat)
    requires sent <= more && n <= |plan.mappers| && |sent| == |plan.collectors| + n
    requires forall j :: 0 <= j < n ==> TellsMapper(sent, plan, j)
    ensures forall j :: 0 <= j < n ==> TellsMapper(more, plan, j)
  {
    forall j | 0 <= j < n ensures TellsMapper(more, plan, j) {
      assert TellsMapper(sent, plan, j);
    }
  }

  method CountFeeders(assignment: seq<nat>, j: nat) returns (count: nat)
    ensures count == |FeedersOf(assignment, j)|
  {
    count := 0;
    for i := 0 to |assignment|
      invariant count == |FeedersOf(assignment[..i], j)|
    {
      OneMoreFeeder(assignment, j, i);
      if assignment[i] == j {
        count := count + 1;
      }
    }
    assert assignment[..|assignment|] == assignment;
  }

  // ----- Conservation ----------------------------------------------------------------------

  /** Which collectors send to mapper `j`. */
  function Feeds(assignment: seq<nat>, j: nat): (upstream: seq<bool>)
    ensures |upstream| == |assignment|
    ensures forall i :: 0 <= i < |assignment| ==> (upstream[i] <==> assignment[i] == j)
  {
    seq(|assignment|, i requires 0 <= i < |assignment| => assignment[i] == j)
  }

  /** The weights of the collectors that send to mapper `j`. */
  function Masked(assignment: seq<nat>, weights: seq<nat>, j: nat): (r: seq<nat>)
    requires |weights| == |assignment|
    ensures |r| == |assignment|
    ensures forall i :: 0 <= i < |r| ==> r[i] == if assignment[i] == j then weights[i] else 0
  {
    seq(|assignment|, i requires 0 <= i < |assignment| => if assignment[i] == j then weights[i] else 0)
  }

  function Shares(assignment: seq<nat>, weights: seq<nat>, mappers: nat): (r: seq<nat>)
    requires |weights| == |assignment|
    ensures |r| == mappers
    ensures forall j :: 0 <= j < mappers ==> r[j] == Total(Masked(assignment, weights, j))
  {
    seq(mappers, j requires 0 <= j < mappers => Total(Masked(assignment, weights, j)))
  }

  lemma ShareOneMore(assignment: seq<nat>, weights: seq<nat>, a: nat, w: nat, j: nat)
    requires |weights| == |assignment|
    ensures Total(Masked(assignment + [a], weights + [w], j))
         == Total(Masked(assignment, weights, j)) + if a == j then w else 0
  {
    var n := |assignment|;
    var all := Masked(assignment + [a], weights + [w], j);
    assert all[..n] == Masked(assignment, weights, j);
  }

  lemma SharesOneMore(assignment: seq<nat>, weights: seq<nat>, a: nat, w: nat, mappers: nat)
    requires |weights| == |assignment| && a < mappers
    ensures Total(Shares(assignment + [a], weights + [w], mappers)) == Total(Shares(assignment, weights, mappers)) + w
  {
    var before, after := Shares(assignment, weights, mappers), Shares(assignment + [a], weights + [w], mappers);
    forall j | 0 <= j < mappers ensures after[j] == if j == a then before[j] + w else before[j] {
      ShareOneMore(assignment, weights, a, w, j);
    }
    TotalRaised(before, a, w, after);
  }

  lemma SharesStep(assignment: seq<nat>, weights: seq<nat>, a: nat, w: nat, mappers: nat)
    requires |weights| == |assignment| && a < mappers
    requires Total(Shares(assignment, weights, mappers)) == Total(weights)
    ensures Total(Shares(assignment + [a], weights + [w], mappers)) == Total(weights + [w])
  {
    SharesOneMore(assignment, weights, a, w, mappers);
    assert (weights + [w])[..|weights|] == weights;
  }

  /** Every collector's weight counts at exactly one mapper. */
  lemma {:induction false} SharesSumToTotal(assignment: seq<nat>, weights: seq<nat>, mappers: nat)
    requires |weights| == |assignment| && InRange(assignment, mappers)
    ensures Total(Shares(assignment, weights, mappers)) == Total(weights)
    decreases |assignment|
  {
    if assignment == [] {
      TotalZero(Shares(assignment, weights, mappers));
    } else {
      var n := |assignment| - 1;
      var front, ws := assignment[..n], weights[..n];
      SharesSumToTotal(front, ws, mappers);
      assert assignment == front + [assignment[n]] && weights == ws + [weights[n]];
      SharesStep(front, ws, assignment[n], weights[n], mappers);
    }
  }

  function Ones(n: nat): (r: seq<nat>)
    ensures |r| == n && forall i :: 0 <= i < n ==> r[i] == 1
  {
    seq(n, _ => 1)
  }

  lemma {:induction false} TotalOfOnes(n: nat)
    ensures Total(Ones(n)) == n
    decreases n
  {
    if n > 0 {
      TotalOfOnes(n - 1);
      assert Ones(n)[..n - 1] == Ones(n - 1);
    }
  }

  lemma {:induction false} ExpectedIsFeeders(assignment: seq<nat>, j: nat)
    ensures Expected(Feeds(assignment, j)) == |FeedersOf(assignment, j)|
    decreases |assignment|
  {
    if assignment != [] {
      var n := |assignment| - 1;
      ExpectedIsFeeders(assignment[..n], j);
      OneMoreFeeder(assignment, j, n);
      assert assignment[..n + 1] == assignment;
      assert Quota(Feeds(assignment, j))[..n] == Quota(Feeds(assignment[..n], j));
    }
  }

  /** The message to a mapper carries the number of ends its barrier needs. */
  lemma MapperIsTold(sent: seq<Assignment>, plan: Plan, j: nat)
    requires j < |plan.mappers| && |plan.collectors| + j < |sent| && TellsMapper(sent, plan, j)
    ensures var message := sent[|plan.collectors| + j];
      && message.ToMapper? && message.node == plan.mappers[j] && message.reducer == plan.reducer
      && message.collectors == Expected(Feeds(plan.assignment, j))
  {
    ExpectedIsFeeders(plan.assignment, j);
  }

  function Counts(assignment: seq<nat>, mappers: nat): (r: seq<nat>)
    ensures |r| == mappers && forall j :: 0 <= j < mappers ==> r[j] == Expected(Feeds(assignment, j))
  {
    seq(mappers, j requires 0 <= j < mappers => Expected(Feeds(assignment, j)))
  }

  /** The counts handed to the mappers add up to the number of collectors. */
  lemma CountsSumToCollectors(assignment: seq<nat>, mappers: nat)
    requires InRange(assignment, mappers)
    ensures Total(Counts(assignment, mappers)) == |assignment|
  {
    var ones := Ones(|assignment|);
    SharesSumToTotal(assignment, ones, mappers);
    TotalOfOnes(|assignment|);
    forall j | 0 <= j < mappers ensures Masked(assignment, ones, j) == Quota(Feeds(assignment, j)) {
    }
    assert Counts(assignment, mappers) == Shares(assignment, ones, mappers);
  }
}
