/** A node in a receiving role (mapper or reducer), fed by several first-in first-out channels. */
module Roles {
  import opened Words
  import opened Transport

  type Positive = n: nat | n > 0 witness 1

  /** A role starts when its assignment arrives and ends when its receive loop does.  Before and
      after that the node discards every data message. */
  datatype Phase = Idle | Active(left: Positive) | Finished

  /** The role of a node and the messages it has taken while active. */
  datatype Role = Role(phase: Phase, log: seq<Item>)

  /** The receiving end of a channel: how many messages the node has taken from it, and how many
      of those came before its role had started and were discarded. */
  datatype Channel = Channel(received: nat, early: nat)

  function Started(expected: nat): Role {
    Role(if expected == 0 then Finished else Active(expected), [])
  }

  /** An active role takes a message. */
  function Consumed(role: Role, item: Item): Role
    requires role.phase.Active?
  {
    var left := After(role.phase.left, item.signal);
    Role(if left == 0 then Finished else Active(left), role.log + [item])
  }

  function Taken(channel: Channel, phase: Phase): Channel {
    Channel(channel.received + 1, if phase.Idle? then channel.early + 1 else channel.early)
  }

  ghost predicate Completed(role: Role, upstream: seq<bool>) {
    Dones(Signals(role.log)) == Expected(upstream)
  }

  /** What the role has taken from source `s` is what came after the discarded beginning, without
      a gap; an active role has taken all of it. */
  ghost predicate Follows(role: Role, channel: Channel, s: nat, available: seq<Signal>) {
    && channel.early <= channel.received <= |available|
    && channel.early + |From(role.log, s)| <= channel.received
    && From(role.log, s) == available[channel.early..channel.early + |From(role.log, s)|]
    && (role.phase.Active? ==> channel.early + |From(role.log, s)| == channel.received)
    && (role.phase.Idle? ==> channel.early == channel.received)
  }

  ghost predicate Linked(role: Role, upstream: seq<bool>, channels: seq<Channel>, available: seq<seq<Signal>>, s: nat)
    requires s < |upstream| == |channels| == |available|
  {
    if upstream[s] then Follows(role, channels[s], s, available[s]) else From(role.log, s) == []
  }

  ghost predicate Counting(role: Role, upstream: seq<bool>) {
    && (role.phase.Idle? ==> role.log == [])
    && (role.phase.Active? ==> role.phase.left + Dones(Signals(role.log)) == Expected(upstream))
  }

  ghost predicate RoleInv(role: Role, upstream: seq<bool>, channels: seq<Channel>, available: seq<seq<Signal>>) {
    && |upstream| == |channels| == |available| && SourcesBelow(role.log, |upstream|)
    && Counting(role, upstream)
    && forall s :: 0 <= s < |upstream| ==> Linked(role, upstream, channels, available, s)
  }

  // ----- Every step keeps the invariant ----------------------------------------------------

  lemma StartKeeps(role: Role, upstream: seq<bool>, channels: seq<Channel>, available: seq<seq<Signal>>)
    requires RoleInv(role, upstream, channels, available) && role.phase.Idle?
    ensures RoleInv(Started(Expected(upstream)), upstream, channels, available)
    ensures Started(Expected(upstream)).phase.Finished? ==> Completed(Started(Expected(upstream)), upstream)
  {
    var role' := Started(Expected(upstream));
    forall s | 0 <= s < |upstream| ensures Linked(role', upstream, channels, available, s) {
      assert Linked(role, upstream, channels, available, s);
    }
  }

  lemma ConsumedCounts(role: Role, upstream: seq<bool>, item: Item)
    requires Counting(role, upstream) && role.phase.Active?
    ensures Counting(Consumed(role, item), upstream)
    ensures Consumed(role, item).phase.Finished? <==> Completed(Consumed(role, item), upstream)
  {
    SignalsOneMore(role.log, item);
    WeighOneMore(Signals(role.log), item.signal, IsDone);
  }

  lemma ConsumedFollows(role: Role, channel: Channel, s: nat, available: seq<Signal>, item: Item)
    requires Follows(role, channel, s, available) && role.phase.Active?
    requires item.source == s && channel.received < |available| && available[channel.received] == item.signal
    ensures Follows(Consumed(role, item), Taken(channel, role.phase), s, available)
  {
    FromOneMore(role.log, item, s);
  }

  lemma OtherSource(log: seq<Item>, item: Item, s: nat)
    requires item.source != s
    ensures From(log + [item], s) == From(log, s)
  {
    FromOneMore(log, item, s);
  }

  /** An active role takes the next message of an upstream channel. */
  lemma ConsumeKeeps(role: Role, upstream: seq<bool>, channels: seq<Channel>, available: seq<seq<Signal>>, s: nat)
    requires RoleInv(role, upstream, channels, available) && role.phase.Active?
    requires s < |upstream| && upstream[s] && channels[s].received < |available[s]|
    ensures var item := Item(s, available[s][channels[s].received]);
      && RoleInv(Consumed(role, item), upstream, channels[s := Taken(channels[s], role.phase)], available)
      && (Consumed(role, item).phase.Finished? <==> Completed(Consumed(role, item), upstream))
  {
    var item := Item(s, available[s][channels[s].received]);
    var role', channels' := Consumed(role, item), channels[s := Taken(channels[s], role.phase)];
    ConsumedCounts(role, upstream, item);
    forall t | 0 <= t < |upstream| ensures Linked(role', upstream, channels', available, t) {
      assert Linked(role, upstream, channels, available, t);
      if t == s {
        ConsumedFollows(role, channels[s], s, available[s], item);
      } else {
        OtherSource(role.log, item, t);
      }
    }
  }

  /** A role that ends early keeps what it has. */
  lemma QuitKeeps(role: Role, upstream: seq<bool>, channels: seq<Channel>, available: seq<seq<Signal>>)
    requires RoleInv(role, upstream, channels, available) && role.phase.Active?
    ensures RoleInv(role.(phase := Finished), upstream, channels, available)
  {
    forall s | 0 <= s < |upstream| ensures Linked(role.(phase := Finished), upstream, channels, available, s) {
      assert Linked(role, upstream, channels, available, s);
    }
  }

  /** A node that is not active discards a message. */
  lemma DiscardKeeps(role: Role, upstream: seq<bool>, channels: seq<Channel>, available: seq<seq<Signal>>, s: nat)
    requires RoleInv(role, upstream, channels, available) && !role.phase.Active?
    requires s < |upstream| && upstream[s] && channels[s].received < |available[s]|
    ensures RoleInv(role, upstream, channels[s := Taken(channels[s], role.phase)], available)
  {
    var channels' := channels[s := Taken(channels[s], role.phase)];
    forall t | 0 <= t < |upstream| ensures Linked(role, upstream, channels', available, t) {
      assert Linked(role, upstream, channels, available, t);
    }
  }

  /** A message on a channel of some other node changes nothing. */
  lemma ForeignKeeps(role: Role, upstream: seq<bool>, channels: seq<Channel>, available: seq<seq<Signal>>,
                     s: nat, channel: Channel)
    requires RoleInv(role, upstream, channels, available) && s < |upstream| && !upstream[s]
    ensures RoleInv(role, upstream, channels[s := channel], available)
  {
    var channels' := channels[s := channel];
    forall t | 0 <= t < |upstream| ensures Linked(role, upstream, channels', available, t) {
      assert Linked(role, upstream, channels, available, t);
    }
  }

  /** An upstream node sends more. */
  lemma GrowthKeeps(role: Role, upstream: seq<bool>, channels: seq<Channel>, available: seq<seq<Signal>>,
                    s: nat, longer: seq<Signal>)
    requires RoleInv(role, upstream, channels, available) && s < |upstream| && available[s] <= longer
    ensures RoleInv(role, upstream, channels, available[s := longer])
  {
    var available' := available[s := longer];
    forall t | 0 <= t < |upstream| ensures Linked(role, upstream, channels, available', t) {
      assert Linked(role, upstream, channels, available, t);
      if t == s && upstream[s] { FollowsLonger(role, channels[s], s, available[s], longer); }
    }
  }

  lemma FollowsLonger(role: Role, channel: Channel, s: nat, available: seq<Signal>, longer: seq<Signal>)
    requires Follows(role, channel, s, available) && available <= longer
    ensures Follows(role, channel, s, longer)
  {
  }

  // ----- The barrier for a role ------------------------------------------------------------

  /** What is left of each channel after the discarded beginning. */
  function Tail(available: seq<Signal>, early: nat): seq<Signal> {
    if early <= |available| then available[early..] else []
  }

  ghost function Tails(channels: seq<Channel>, available: seq<seq<Signal>>): (r: seq<seq<Signal>>)
    requires |channels| == |available|
    ensures |r| == |channels| && forall s :: 0 <= s < |r| ==> r[s] == Tail(available[s], channels[s].early)
  {
    seq(|channels|, s requires 0 <= s < |channels| => Tail(available[s], channels[s].early))
  }

  ghost predicate AllScripts(available: seq<seq<Signal>>) {
    forall s :: 0 <= s < |available| ==> IsScript(available[s])
  }

  /** The end of upstream node `s` was sent and was not discarded. */
  ghost predicate EndHeard(channel: Channel, available: seq<Signal>) {
    Announces(available) && channel.early < |available|
  }

  /** What a role has taken is in order with respect to what was not discarded. */
  lemma RoleInOrder(role: Role, upstream: seq<bool>, channels: seq<Channel>, available: seq<seq<Signal>>)
    requires RoleInv(role, upstream, channels, available) && AllScripts(available)
    ensures InOrder(role.log, upstream, Tails(channels, available))
  {
    var tails := Tails(channels, available);
    forall s | 0 <= s < |upstream|
      ensures IsScript(tails[s])
      ensures if upstream[s] then From(role.log, s) <= tails[s] else From(role.log, s) == []
    {
      assert Linked(role, upstream, channels, available, s);
    }
  }

  /** A role has completed exactly when it has taken, from every upstream node, all that was not
      discarded, and its end with it. */
  lemma RoleBarrier(role: Role, upstream: seq<bool>, channels: seq<Channel>, available: seq<seq<Signal>>)
    requires RoleInv(role, upstream, channels, available) && AllScripts(available)
    ensures Completed(role, upstream) <==>
      forall s :: 0 <= s < |upstream| && upstream[s] ==>
        From(role.log, s) == Tail(available[s], channels[s].early) && EndHeard(channels[s], available[s])
  {
    RoleInOrder(role, upstream, channels, available);
    var tails := Tails(channels, available);
    Barrier(role.log, upstream, tails);
    forall s | 0 <= s < |upstream| && upstream[s]
      ensures Announces(tails[s]) <==> EndHeard(channels[s], available[s])
    {
      TailAnnounces(available[s], channels[s]);
    }
  }

  lemma TailAnnounces(available: seq<Signal>, channel: Channel)
    ensures Announces(Tail(available, channel.early)) <==> EndHeard(channel, available)
  {
  }

  /** A receiver that runs over the messages a role has taken, among any others, returns all of
      their chunks, and reports the end exactly when the role has completed. */
  lemma RoleIsReceiver(role: Role, upstream: seq<bool>, channels: seq<Channel>, available: seq<seq<Signal>>,
                       events: seq<Event>, job: u16)
    requires RoleInv(role, upstream, channels, available) && AllScripts(available)
    requires Carries(events, job, role.log)
    ensures Delivered(events, job, Expected(upstream)) == Payloads(Signals(role.log))
    ensures Stop(events, job, Expected(upstream)) == if Completed(role, upstream) then Ended else Waiting
  {
    CarriedAreRead(events, job, role.log);
    RoleInOrder(role, upstream, channels, available);
    PhaseBarrier(events, job, upstream, Tails(channels, available));
    Barrier(role.log, upstream, Tails(channels, available));
  }

  ghost predicate AllReceived(upstream: seq<bool>, channels: seq<Channel>, available: seq<seq<Signal>>)
    requires |upstream| == |channels| == |available|
  {
    forall s :: 0 <= s < |upstream| && upstream[s] ==> channels[s].received == |available[s]|
  }

  /** When nothing more can arrive, a started role that has not quit has completed exactly when
      every end was heard. */
  lemma RoleAtRest(role: Role, upstream: seq<bool>, channels: seq<Channel>, available: seq<seq<Signal>>)
    requires RoleInv(role, upstream, channels, available) && AllScripts(available)
    requires AllReceived(upstream, channels, available) && !role.phase.Idle?
    requires role.phase.Finished? ==> Completed(role, upstream)
    ensures role.phase.Finished? <==>
      forall s :: 0 <= s < |upstream| && upstream[s] ==> EndHeard(channels[s], available[s])
  {
    RoleBarrier(role, upstream, channels, available);
    if role.phase.Active? {
      forall s | 0 <= s < |upstream| && upstream[s]
        ensures From(role.log, s) == Tail(available[s], channels[s].early)
      {
        assert Linked(role, upstream, channels, available, s);
      }
    }
  }
}
