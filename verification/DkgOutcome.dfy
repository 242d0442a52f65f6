/** Which runs of honest participants complete the key generation: exactly those in
    which every message is timely. */
module DkgOutcome {

  import opened Participants
  import opened DkgSession
  import opened DkgNetwork
  import opened DkgCompletion
  import EchoCount

  ghost predicate AllDone(c: Config, net: Net)
    requires AllHonest(c)
  {
    forall p :: p in c.pubkeys ==> p in net.nodes && Done(c, net.nodes[p], p)
  }

  // ---------------------------------------------------------------------
  // What keeps a run from completing
  // ---------------------------------------------------------------------

  ghost predicate NoEchoFrom(net: Net, p: PublicKey) {
    forall e :: e in net.sent && e.from == p ==> !e.payload.Echo?
  }

  /** p went on from Round 1 without sending its echoes. */
  ghost predicate Silent(c: Config, net: Net, p: PublicKey) {
    |c.pubkeys| > 2 && p in net.nodes && !net.nodes[p].phase.CollectingRound1? && NoEchoFrom(net, p)
  }

  ghost predicate Spoils(c: Config, net: Net, p: PublicKey) {
    && p in net.nodes
    && (|| net.nodes[p].phase.Failed?
        || Outruns(c, net.nodes[p].phase, net.nodes[p].state)
        || Silent(c, net, p))
  }

  /** A client sends its echoes only when it leaves its first loop. */
  ghost predicate EchoesNotYet(net: Net) {
    forall p :: p in net.nodes && net.nodes[p].phase.CollectingRound1? ==> NoEchoFrom(net, p)
  }

  lemma NotEchoes(c: Config, p: PublicKey, round2: Round2Map)
    ensures forall e :: e in Round2Envelopes(c, p, round2) ==> !e.payload.Echo? && e.from == p
  {
  }

  /** A step adds echoes of one node at most: of one that leaves its first loop
      before the echo phase is over. */
  lemma StepSendsEchoes(c: Config, net: Net, a: Action, p: PublicKey)
    requires c.WellFormed() && net.nodes.Keys == c.honest && Enabled(c, net, a) && NoEchoFrom(net, p)
    ensures NoEchoFrom(Apply(c, net, a), p) || (a == LeaveRound1(p) && !net.nodes[p].state.HasRound1BroadcastPackages())
  {
    match a
    case SendRound2(q) => NotEchoes(c, q, c.part2(q, net.nodes[q].held));
    case _ =>
  }

  lemma StepKeepsEchoesNotYet(c: Config, net: Net, a: Action)
    requires c.WellFormed() && net.nodes.Keys == c.honest && Enabled(c, net, a) && EchoesNotYet(net)
    ensures EchoesNotYet(Apply(c, net, a))
  {
    var after := Apply(c, net, a);
    forall p | p in after.nodes && after.nodes[p].phase.CollectingRound1? ensures NoEchoFrom(after, p) {
      assert net.nodes[p].phase.CollectingRound1? && a != LeaveRound1(p);
      hide NoEchoFrom;
      StepSendsEchoes(c, net, a, p);
    }
  }

  lemma {:induction false} RunKeepsEchoesNotYet(c: Config, actions: seq<Action>)
    requires c.WellFormed() && After(c, actions).Some?
    ensures EchoesNotYet(After(c, actions).value)
  {
    hide Enabled, Apply;
    if actions == [] {
    } else {
      var front := actions[..|actions| - 1];
      RunKeepsEchoesNotYet(c, front);
      StepKeepsEchoesNotYet(c, After(c, front).value, actions[|actions| - 1]);
    }
  }

  lemma StepKeepsSilent(c: Config, net: Net, a: Action, p: PublicKey)
    requires c.WellFormed() && net.nodes.Keys == c.honest && Enabled(c, net, a) && Silent(c, net, p)
    ensures Silent(c, Apply(c, net, a), p)
  {
    StepSendsEchoes(c, net, a, p);
  }

  lemma {:induction false} StaysSilent(c: Config, actions: seq<Action>, more: seq<Action>, p: PublicKey)
    requires c.WellFormed() && After(c, actions).Some? && After(c, actions + more).Some?
    requires Silent(c, After(c, actions).value, p)
    ensures Silent(c, After(c, actions + more).value, p)
  {
    hide Enabled, Apply, Silent, Init;
    if more == [] {
      assert actions + more == actions;
    } else {
      var front := more[..|more| - 1];
      assert (actions + more)[..|actions + more| - 1] == actions + front;
      StaysSilent(c, actions, front, p);
      StepKeepsSilent(c, After(c, actions + front).value, more[|more| - 1], p);
    }
  }

  /** A participant that goes on without its echoes stops all the others: in
      whatever follows, nobody else ever leaves the echo phase. */
  lemma SilentStallsAll(c: Config, actions: seq<Action>, more: seq<Action>, p: PublicKey, j: PublicKey)
    requires c.WellFormed() && After(c, actions).Some? && After(c, actions + more).Some?
    requires p in c.honest && j in c.honest && p != j
    requires Silent(c, After(c, actions).value, p)
    ensures !LeftEchoes(After(c, actions + more).value.nodes[j])
  {
    StaysSilent(c, actions, more, p);
    if LeftEchoes(After(c, actions + more).value.nodes[j]) {
      LeavingNeedsEveryEcho(c, actions + more, p, j);
    }
  }

  // ---------------------------------------------------------------------
  // Spoiled stays spoiled
  // ---------------------------------------------------------------------

  /** A session never goes back. */
  lemma StillOutruns(c: Config, node: Node, p: PublicKey, from: PublicKey, payload: Payload)
    requires p in c.pubkeys && Outruns(c, node.phase, node.state)
    ensures var after := Receive(c, node, p, from, payload);
            after.phase.Failed? || Outruns(c, after.phase, after.state)
  {
  }

  lemma StepKeepsSpoiled(c: Config, net: Net, a: Action, p: PublicKey)
    requires c.WellFormed() && net.nodes.Keys == c.honest && Enabled(c, net, a) && EchoesNotYet(net)
    requires Spoils(c, net, p)
    ensures Spoils(c, Apply(c, net, a), p)
  {
    hide Receive, NoEchoFrom;
    if Silent(c, net, p) {
      StepKeepsSilent(c, net, a, p);
    } else if net.nodes[p].phase.Failed? {
      FailedIsFinal(c, net, a, p);
    } else if a.Deliver? && a.envelope.to == p {
      StillOutruns(c, net.nodes[p], p, a.envelope.from, a.envelope.payload);
    } else if net.nodes[p].phase.CollectingRound1? {
      StepSendsEchoes(c, net, a, p);
    }
  }

  lemma FailedIsFinal(c: Config, net: Net, a: Action, p: PublicKey)
    requires c.WellFormed() && net.nodes.Keys == c.honest && Enabled(c, net, a)
    requires p in net.nodes && net.nodes[p].phase.Failed?
    ensures Apply(c, net, a).nodes[p].phase.Failed?
  {
  }

  /** A session that does not read a message refuses it. */
  lemma NotTakenFails(c: Config, node: Node, p: PublicKey, from: PublicKey, payload: Payload)
    requires p in c.pubkeys && !Takes(node.state, payload)
    ensures Receive(c, node, p, from, payload).phase.Failed?
  {
  }

  lemma UntimelyStepSpoils(c: Config, net: Net, a: Action)
    requires c.WellFormed() && net.nodes.Keys == c.honest && Once(c, net, a) && !Timely(c, net, a)
    ensures a.Deliver? && Spoils(c, Apply(c, net, a), a.envelope.to)
  {
    hide Recv, Takes;
    var e := a.envelope;
    if !Takes(net.nodes[e.to].state, e.payload) {
      NotTakenFails(c, net.nodes[e.to], e.to, e.from, e.payload);
    }
  }

  lemma {:induction false} UntimelyRunIsSpoiled(c: Config, actions: seq<Action>)
    requires c.WellFormed() && OnceRun(c, actions) && !TimelyRun(c, actions)
    ensures exists p :: Spoils(c, After(c, actions).value, p)
  {
    hide Spoils, Enabled, Apply, Init, EchoesNotYet, Timely, Once;
    if actions != [] {
      var front := actions[..|actions| - 1];
      var net, a := After(c, front).value, actions[|actions| - 1];
      OnceIsEnabled(c, net, a);
      if TimelyRun(c, front) {
        UntimelyStepSpoils(c, net, a);
      } else {
        UntimelyRunIsSpoiled(c, front);
        var p :| Spoils(c, net, p);
        RunKeepsEchoesNotYet(c, front);
        StepKeepsSpoiled(c, net, a, p);
      }
    }
  }

  lemma OnceIsEnabled(c: Config, net: Net, a: Action)
    requires Once(c, net, a)
    ensures Enabled(c, net, a)
  {
  }

  lemma {:induction false} StaysSpoiled(c: Config, actions: seq<Action>, more: seq<Action>, p: PublicKey)
    requires c.WellFormed() && After(c, actions).Some? && After(c, actions + more).Some?
    requires Spoils(c, After(c, actions).value, p)
    ensures Spoils(c, After(c, actions + more).value, p)
  {
    hide Enabled, Apply, Spoils, Init, EchoesNotYet;
    if more == [] {
      assert actions + more == actions;
    } else {
      var front := more[..|more| - 1];
      assert (actions + more)[..|actions + more| - 1] == actions + front;
      StaysSpoiled(c, actions, front, p);
      RunKeepsEchoesNotYet(c, actions + front);
      StepKeepsSpoiled(c, After(c, actions + front).value, more[|more| - 1], p);
    }
  }

  lemma DoneHasLeft(c: Config, net: Net, p: PublicKey)
    requires AllHonest(c) && AllDone(c, net) && p in c.pubkeys
    ensures p in net.nodes && LeftEchoes(net.nodes[p]) && net.nodes[p].phase.Finished?
  {
    hide TrueRound1, TrueRound2;
    assert Done(c, net.nodes[p], p);
  }

  lemma SpoiledIsNotDone(c: Config, actions: seq<Action>, p: PublicKey)
    requires AllHonest(c) && After(c, actions).Some? && Spoils(c, After(c, actions).value, p)
    ensures !AllDone(c, After(c, actions).value)
  {
    hide AllDone, Silent;
    var net := After(c, actions).value;
    if AllDone(c, net) {
      DoneHasLeft(c, net, p);
      SilentPart(c, net, p);
      EchoCount.AnotherElement(c.pubkeys.Keys, p);
      var j :| j in c.pubkeys && j != p;
      DoneHasLeft(c, net, j);
      assert actions + [] == actions;
      SilentStallsAll(c, actions, [], p, j);
    }
  }

  lemma SilentPart(c: Config, net: Net, p: PublicKey)
    requires Spoils(c, net, p) && net.nodes[p].phase.Finished?
    ensures Silent(c, net, p) && |c.pubkeys| > 2
  {
  }

  /** After an untimely message no continuation completes the key generation. */
  lemma UntimelyNeverCompletes(c: Config, actions: seq<Action>, more: seq<Action>)
    requires AllHonest(c) && OnceRun(c, actions) && !TimelyRun(c, actions)
    requires After(c, actions + more).Some?
    ensures !AllDone(c, After(c, actions + more).value)
  {
    hide Spoils, TimelyRun, OnceRun;
    OnceRunIsRun(c, actions);
    UntimelyRunIsSpoiled(c, actions);
    var p :| Spoils(c, After(c, actions).value, p);
    StaysSpoiled(c, actions, more, p);
    SpoiledIsNotDone(c, actions + more, p);
  }

  lemma OnceRunIsRun(c: Config, actions: seq<Action>)
    requires c.WellFormed() && OnceRun(c, actions)
    ensures After(c, actions).Some?
  {
  }

  lemma {:induction false} TimelyRunIsOnce(c: Config, actions: seq<Action>)
    requires c.WellFormed() && TimelyRun(c, actions)
    ensures OnceRun(c, actions)
  {
    hide Enabled, Apply, Init;
    if actions != [] {
      TimelyRunIsOnce(c, actions[..|actions| - 1]);
    }
  }

  // ---------------------------------------------------------------------
  // The exact conditions
  // ---------------------------------------------------------------------

  /** A run of honest participants that cannot go on has completed if and only
      if every message in it was timely. */
  lemma CompletesExactly(c: Config, actions: seq<Action>)
    requires AllHonest(c) && OnceRun(c, actions)
    requires forall a :: !Once(c, After(c, actions).value, a)
    ensures AllDone(c, After(c, actions).value) <==> TimelyRun(c, actions)
  {
    hide TimelyRun, OnceRun, Once, Done, Apply, Init;
    OnceRunIsRun(c, actions);
    if TimelyRun(c, actions) {
      forall a ensures !Ordered(c, After(c, actions).value, a) {
        assert !Once(c, After(c, actions).value, a);
      }
      TimelyRunsEndWell(c, actions);
    } else {
      assert actions + [] == actions;
      UntimelyNeverCompletes(c, actions, []);
    }
  }

  ghost predicate Completes(c: Config, actions: seq<Action>)
    requires AllHonest(c)
  {
    OnceRun(c, actions) && AllDone(c, After(c, actions).value)
  }

  /** At any moment of a run, it can still be completed if and only if every
      message so far was timely. */
  lemma CanCompleteExactly(c: Config, actions: seq<Action>)
    requires AllHonest(c) && OnceRun(c, actions)
    ensures TimelyRun(c, actions) <==> exists more :: Completes(c, actions + more)
  {
    hide TimelyRun, OnceRun, Done, Apply, Init;
    if TimelyRun(c, actions) {
      var more := TimelyRunsComplete(c, actions);
      TimelyRunIsOnce(c, actions + more);
      OnceRunIsRun(c, actions + more);
      assert Completes(c, actions + more);
    } else if more :| Completes(c, actions + more) {
      OnceRunIsRun(c, actions + more);
      UntimelyNeverCompletes(c, actions, more);
    }
  }

  // ---------------------------------------------------------------------
  // The same, read off the single steps
  // ---------------------------------------------------------------------

  /** Each delivery finds a session that reads its kind, and makes no session
      ready whose client is not in its last loop; and each client that leaves
      its first loop, with three or more participants, finds its session
      waiting for echoes. */
  ghost predicate InTime(c: Config, net: Net, a: Action)
    requires c.WellFormed() && net.nodes.Keys == c.honest
  {
    && Once(c, net, a)
    && match a
       case Deliver(e) =>
         var node := net.nodes[e.to];
         && Takes(node.state, e.payload)
         && (Receive(c, node, e.to, e.from, e.payload).state.Round2PackagesReady? ==> node.phase.CollectingRound2?)
       case LeaveRound1(p) => |c.pubkeys| > 2 ==> net.nodes[p].state.WaitingForRound1PackagesBroadcast?
       case _ => true
  }

  ghost predicate InTimeRun(c: Config, actions: seq<Action>)
    requires c.WellFormed()
  {
    && After(c, actions).Some?
    && (actions != [] ==>
          && InTimeRun(c, actions[..|actions| - 1])
          && InTime(c, After(c, actions[..|actions| - 1]).value, actions[|actions| - 1]))
  }

  lemma TimelyIsInTime(c: Config, net: Net, a: Action)
    requires AllHonest(c) && TimelyOk(c, net) && net.nodes.Keys == c.honest && Timely(c, net, a)
    ensures InTime(c, net, a)
  {
    hide TimelyOk, Receive, Takes, Round1Exact, EchoExact, Round2Exact, SentExact;
    match a
    case Deliver(e) => NodeFacts(c, net, e.to);
    case LeaveRound1(p) => NodeFacts(c, net, p);
    case _ =>
  }

  lemma {:induction false} TimelyRunIsInTime(c: Config, actions: seq<Action>)
    requires AllHonest(c) && TimelyRun(c, actions)
    ensures InTimeRun(c, actions)
  {
    hide TimelyOk, Enabled, Apply, Init, Timely, InTime;
    if actions != [] {
      var front := actions[..|actions| - 1];
      TimelyRunIsInTime(c, front);
      TimelyRunKeepsOk(c, front);
      TimelyIsInTime(c, After(c, front).value, actions[|actions| - 1]);
    }
  }

  lemma {:induction false} InTimeRunIsOnce(c: Config, actions: seq<Action>)
    requires c.WellFormed() && InTimeRun(c, actions)
    ensures OnceRun(c, actions)
  {
    hide Enabled, Apply, Init;
    if actions != [] {
      InTimeRunIsOnce(c, actions[..|actions| - 1]);
    }
  }

  /** p's session has all echoes, but p has not looked yet. */
  ghost predicate Waits(c: Config, net: Net, p: PublicKey) {
    && |c.pubkeys| > 2 && p in net.nodes
    && net.nodes[p].phase.CollectingRound1? && net.nodes[p].state.WaitingForRound2Packages?
  }

  lemma Round2IsAccepted(c: Config, node: Node, p: PublicKey, from: PublicKey, payload: Payload)
    requires c.WellFormed() && p in c.pubkeys && from in c.pubkeys && from != p && SessionOk(c, node, p)
    requires node.state.WaitingForRound2Packages? && Takes(node.state, payload)
    ensures Receive(c, node, p, from, payload).phase == node.phase
    ensures var s := Receive(c, node, p, from, payload).state; s.WaitingForRound2Packages? || s.Round2PackagesReady?
  {
    OtherIdentifier(c, p, from);
  }

  lemma DeliveryKeepsWaiting(c: Config, net: Net, e: Envelope)
    requires AllHonest(c) && NetOk(c, net) && InTime(c, net, Deliver(e)) && Waits(c, net, e.to)
    ensures Waits(c, Apply(c, net, Deliver(e)), e.to)
  {
    assert EnvelopeOk(c, net, e) && NodeOk(c, net, net.nodes[e.to], e.to);
    hide Receive, Takes, Recv, Valid, NetOk, SessionOk, HeldAuthentic, EchoesAuthentic, EchoesGathered;
    Round2IsAccepted(c, net.nodes[e.to], e.to, e.from, e.payload);
  }

  /** Waiting lasts as long as every step is in time. */
  lemma StepKeepsWaiting(c: Config, net: Net, a: Action, p: PublicKey)
    requires AllHonest(c) && NetOk(c, net) && InTime(c, net, a) && Waits(c, net, p)
    ensures Waits(c, Apply(c, net, a), p)
  {
    hide Receive, Takes, NodeOk, EnvelopeOk;
    if a.Deliver? && a.envelope.to == p {
      DeliveryKeepsWaiting(c, net, a.envelope);
    }
  }

  /** A message that is in time but not timely leaves its receiver waiting. */
  lemma InTimeUntimelyWaits(c: Config, net: Net, a: Action)
    requires AllHonest(c) && TimelyOk(c, net) && net.nodes.Keys == c.honest
    requires InTime(c, net, a) && !Timely(c, net, a)
    ensures exists p :: Waits(c, Apply(c, net, a), p)
  {
    hide TimelyOk, Round1Exact, EchoExact, Round2Exact, SentExact, SessionOk, HeldAuthentic;
    var e := a.envelope;
    NodeFacts(c, net, e.to);
    EntersAccepted(c, net.nodes[e.to], e.to, e.from, e.payload);
    assert Waits(c, Apply(c, net, a), e.to);
  }

  lemma EntersAccepted(c: Config, node: Node, p: PublicKey, from: PublicKey, payload: Payload)
    requires p in c.pubkeys && !node.state.WaitingForRound2Packages?
    requires Receive(c, node, p, from, payload).state.WaitingForRound2Packages?
    ensures Receive(c, node, p, from, payload).phase == node.phase
  {
  }

  lemma {:induction false} InTimeRunWaits(c: Config, actions: seq<Action>)
    requires AllHonest(c) && InTimeRun(c, actions) && !TimelyRun(c, actions)
    ensures exists p :: Waits(c, After(c, actions).value, p)
  {
    hide TimelyOk, Enabled, Apply, Init, Timely, InTime, Waits, NetOk;
    if actions != [] {
      var front := actions[..|actions| - 1];
      var net, a := After(c, front).value, actions[|actions| - 1];
      if TimelyRun(c, front) {
        TimelyRunKeepsOk(c, front);
        InTimeUntimelyWaits(c, net, a);
      } else {
        InTimeRunWaits(c, front);
        var p :| Waits(c, net, p);
        RunKeepsNetOk(c, front);
        StepKeepsWaiting(c, net, a, p);
      }
    }
  }

  /** A run of honest participants that cannot go on has completed if and only
      if every one of its steps was in time. */
  lemma CompletesStepwise(c: Config, actions: seq<Action>)
    requires AllHonest(c) && OnceRun(c, actions)
    requires forall a :: !Once(c, After(c, actions).value, a)
    ensures AllDone(c, After(c, actions).value) <==> InTimeRun(c, actions)
  {
    hide TimelyRun, OnceRun, InTimeRun, Once, Done, Apply, Init;
    OnceRunIsRun(c, actions);
    CompletesExactly(c, actions);
    if TimelyRun(c, actions) {
      TimelyRunIsInTime(c, actions);
    } else if InTimeRun(c, actions) {
      InTimeRunWaits(c, actions);
      var p :| Waits(c, After(c, actions).value, p);
      CanLeave(c, After(c, actions).value, p);
    }
  }

  lemma CanLeave(c: Config, net: Net, p: PublicKey)
    requires Waits(c, net, p)
    ensures Once(c, net, LeaveRound1(p))
  {
  }

  /** Delivery in the order of the phases is one way to be in time. */
  lemma OrderedRunsComplete(c: Config, actions: seq<Action>)
    requires AllHonest(c) && OrderedRun(c, actions)
    requires forall a :: !Ordered(c, After(c, actions).value, a)
    ensures AllDone(c, After(c, actions).value)
  {
    hide TimelyRun, Ordered, Done;
    OrderedRunsAreTimely(c, actions);
    TimelyRunsEndWell(c, actions);
  }
}
