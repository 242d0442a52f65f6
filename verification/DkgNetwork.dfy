/** A run of the key-generation protocol: honest nodes that follow the client's
    send-and-poll loops, any other participants sending anything at all, and
    authenticated channels. The echo broadcast's agreement is proved over
    every such run. */
module DkgNetwork {

  import opened Participants
  import opened Wrappers
  import opened DkgSession

  /** `own` is the Round 1 package each honest participant made, and `part2`
      the Round 2 packages its key generation computes from what it holds. */
  datatype Config = Config(
    pubkeys: map<PublicKey, Identifier>,
    honest: set<PublicKey>,
    own: map<PublicKey, Round1Package>,
    part2: (PublicKey, Round1Map) -> Round2Map)
  {
    ghost predicate WellFormed() {
      Injective(pubkeys) && |pubkeys| >= 2 && honest <= pubkeys.Keys && honest <= own.Keys
    }
  }

  /** Where a node's client is in its two request functions. */
  datatype Phase = CollectingRound1 | CollectingEchoes | BetweenRounds | CollectingRound2 | Finished | Failed

  /** `held` is the last Round 1 map the session's state carried; it is what
      the client returns from the first request function. */
  datatype Node = Node(state: State, phase: Phase, held: Round1Map)

  datatype Envelope = Envelope(from: PublicKey, to: PublicKey, payload: Payload)

  /** `sent` holds what honest nodes sent, `delivered` what was handed over. */
  datatype Net = Net(nodes: map<PublicKey, Node>, sent: set<Envelope>, delivered: set<Envelope>)

  datatype Action =
    | Deliver(envelope: Envelope)
    | LeaveRound1(node: PublicKey)
    | LeaveEchoes(node: PublicKey)
    | SendRound2(node: PublicKey)
    | LeaveRound2(node: PublicKey)

  // ---------------------------------------------------------------------
  // What an honest node sends
  // ---------------------------------------------------------------------

  function Round1Envelopes(c: Config, p: PublicKey, own: Round1Package): set<Envelope> {
    set q | q in c.pubkeys && q != p :: Envelope(p, q, Round1(own))
  }

  /** Every held package goes to everybody but its original sender. */
  function EchoEnvelopes(c: Config, p: PublicKey, round1: Round1Map): set<Envelope> {
    set q, k | q in c.pubkeys && q != p && k in round1 && k != c.pubkeys[q] :: Envelope(p, q, Echo(k, round1[k]))
  }

  function Round2Envelopes(c: Config, p: PublicKey, round2: Round2Map): set<Envelope> {
    set q | q in c.pubkeys && q != p && c.pubkeys[q] in round2 :: Envelope(p, q, Round2(round2[c.pubkeys[q]]))
  }

  // ---------------------------------------------------------------------
  // Runs
  // ---------------------------------------------------------------------

  ghost function Init(c: Config): Net
    requires c.WellFormed()
  {
    Net(map p | p in c.honest :: Node(WaitingForRound1Packages(c.pubkeys, map[]), CollectingRound1, map[]),
        set p, q | p in c.honest && q in c.pubkeys && q != p :: Envelope(p, q, Round1(c.own[p])),
        {})
  }

  predicate Polling(phase: Phase) {
    phase.CollectingRound1? || phase.CollectingEchoes? || phase.CollectingRound2?
  }

  ghost predicate At(net: Net, p: PublicKey, phase: Phase) {
    p in net.nodes && net.nodes[p].phase == phase
  }

  /** A polling node may be handed any message whose sender is somebody else;
      only a message that an honest sender sent to it carries that sender's name. */
  ghost predicate Enabled(c: Config, net: Net, a: Action) {
    match a
    case Deliver(e) =>
      && e.to in net.nodes && Polling(net.nodes[e.to].phase)
      && e.from != e.to
      && (e.from in c.honest ==> e in net.sent)
    case LeaveRound1(p) => At(net, p, CollectingRound1) && net.nodes[p].state.HasRound1Packages()
    case LeaveEchoes(p) => At(net, p, CollectingEchoes) && net.nodes[p].state.HasRound1BroadcastPackages()
    case SendRound2(p) => At(net, p, BetweenRounds)
    case LeaveRound2(p) => At(net, p, CollectingRound2) && net.nodes[p].state.HasRound2Packages()
  }

  /** A node whose session refuses a message gives up. */
  ghost function Receive(c: Config, node: Node, p: PublicKey, from: PublicKey, payload: Payload): Node
    requires p in c.pubkeys
  {
    var (state, outcome) := Recv(node.state, c.pubkeys[p], Msg(from, payload));
    Node(state,
         if outcome.Accepted? then node.phase else Failed,
         if state.Round2PackagesReady? then node.held else state.round1)
  }

  ghost function Apply(c: Config, net: Net, a: Action): Net
    requires c.WellFormed() && net.nodes.Keys == c.honest && Enabled(c, net, a)
  {
    match a
    case Deliver(e) =>
      Net(net.nodes[e.to := Receive(c, net.nodes[e.to], e.to, e.from, e.payload)], net.sent, net.delivered + {e})
    case LeaveRound1(p) =>
      var node := net.nodes[p];
      // The echoes are skipped when they already look complete.
      if node.state.HasRound1BroadcastPackages() then net.(nodes := net.nodes[p := node.(phase := BetweenRounds)])
      else Net(net.nodes[p := node.(phase := CollectingEchoes)],
               net.sent + EchoEnvelopes(c, p, node.state.round1),
               net.delivered)
    case LeaveEchoes(p) => net.(nodes := net.nodes[p := net.nodes[p].(phase := BetweenRounds)])
    case SendRound2(p) =>
      var node := net.nodes[p];
      var round2 := c.part2(p, node.held);
      if exists q :: q in c.pubkeys && q != p && c.pubkeys[q] !in round2
      then net.(nodes := net.nodes[p := node.(phase := Failed)])
      else Net(net.nodes[p := node.(phase := CollectingRound2)],
               net.sent + Round2Envelopes(c, p, round2),
               net.delivered)
    case LeaveRound2(p) => net.(nodes := net.nodes[p := net.nodes[p].(phase := Finished)])
  }

  /** The network after a list of actions, if each was enabled in its turn. */
  ghost function After(c: Config, actions: seq<Action>): (r: Option<Net>)
    requires c.WellFormed()
    ensures r.Some? ==> r.value.nodes.Keys == c.honest
  {
    if actions == [] then Some(Init(c))
    else
      match After(c, actions[..|actions| - 1])
      case None => None
      case Some(net) =>
        if Enabled(c, net, actions[|actions| - 1]) then Some(Apply(c, net, actions[|actions| - 1])) else None
  }

  // ---------------------------------------------------------------------
  // Invariant
  // ---------------------------------------------------------------------

  ghost predicate FinishedRound1(node: Node) {
    !node.state.WaitingForRound1Packages?
  }

  ghost predicate LeftEchoes(node: Node) {
    node.state.WaitingForRound2Packages? || node.state.Round2PackagesReady?
  }

  /** The client has returned a Round 1 map to the key generation. */
  ghost predicate Returned(node: Node) {
    node.phase.BetweenRounds? || node.phase.CollectingRound2? || node.phase.Finished?
  }

  /** q sent p an echo of the very package p holds for k. */
  ghost predicate EchoAgrees(net: Net, held: Round1Map, p: PublicKey, q: PublicKey, k: Identifier) {
    k in held && Envelope(q, p, Echo(k, held[k])) in net.sent
  }

  /** The session's own invariant, and `held` tracks its Round 1 map. */
  ghost predicate SessionOk(c: Config, node: Node, p: PublicKey)
    requires p in c.pubkeys
  {
    && node.state.pubkeys == c.pubkeys
    && Valid(node.state, c.pubkeys[p])
    && (!node.state.Round2PackagesReady? ==> node.held == node.state.round1)
    && (FinishedRound1(node) ==> node.held.Keys == Others(c.pubkeys, c.pubkeys[p]))
  }

  /** An honest sender's entry is the package that sender made. */
  ghost predicate HeldAuthentic(c: Config, node: Node)
    requires c.WellFormed()
  {
    forall q :: q in c.honest && c.pubkeys[q] in node.held ==> node.held[c.pubkeys[q]] == c.own[q]
  }

  /** Every echo stored under an honest name was sent by that participant. */
  ghost predicate EchoesAuthentic(c: Config, net: Net, node: Node, p: PublicKey)
    requires c.WellFormed()
  {
    node.state.WaitingForRound1PackagesBroadcast? ==>
      forall k, q :: q in c.honest && k in node.state.echoes && c.pubkeys[q] in node.state.echoes[k] ==>
        EchoAgrees(net, node.held, p, q, k)
  }

  /** A node past the echo phase has an echo of every third party's package
      from every other honest participant. */
  ghost predicate EchoesGathered(c: Config, net: Net, node: Node, p: PublicKey)
    requires c.WellFormed() && p in c.pubkeys
  {
    |c.pubkeys| > 2 && LeftEchoes(node) ==>
      forall k, q :: q in c.honest && q != p && k in Others(c.pubkeys, c.pubkeys[p]) && k != c.pubkeys[q] ==>
        EchoAgrees(net, node.held, p, q, k)
  }

  ghost predicate NodeOk(c: Config, net: Net, node: Node, p: PublicKey)
    requires c.WellFormed() && p in c.pubkeys
  {
    && SessionOk(c, node, p) && HeldAuthentic(c, node)
    && EchoesAuthentic(c, net, node, p) && EchoesGathered(c, net, node, p)
  }

  /** An honest node's messages: its own package, and echoes of its frozen map. */
  ghost predicate EnvelopeOk(c: Config, net: Net, e: Envelope)
    requires c.WellFormed() && net.nodes.Keys == c.honest
  {
    && e.from in c.honest
    && match e.payload
       case Round1(pkg) => pkg == c.own[e.from]
       case Echo(k, pkg) =>
         FinishedRound1(net.nodes[e.from]) && k in net.nodes[e.from].held && net.nodes[e.from].held[k] == pkg
       case Round2(_) => true
       case Malformed => false
  }

  ghost predicate NetOk(c: Config, net: Net)
    requires c.WellFormed()
  {
    && net.nodes.Keys == c.honest
    && (forall p :: p in net.nodes ==> NodeOk(c, net, net.nodes[p], p))
    && (forall e :: e in net.sent ==> EnvelopeOk(c, net, e))
  }

  // ---------------------------------------------------------------------
  // Every step keeps the invariant
  // ---------------------------------------------------------------------

  /** Once a session has all Round 1 packages, no message changes its map. */
  lemma ReceiveFreezesHeld(c: Config, node: Node, p: PublicKey, from: PublicKey, payload: Payload)
    requires p in c.pubkeys && SessionOk(c, node, p) && FinishedRound1(node)
    ensures var after := Receive(c, node, p, from, payload);
            FinishedRound1(after) && after.held == node.held
  {
  }

  lemma ReceiveKeepsSession(c: Config, node: Node, p: PublicKey, from: PublicKey, payload: Payload)
    requires c.WellFormed() && p in c.pubkeys && SessionOk(c, node, p) && from != p
    ensures SessionOk(c, Receive(c, node, p, from, payload), p)
  {
    if from in c.pubkeys { assert c.pubkeys[from] != c.pubkeys[p]; }
    hide Injective, Valid, Recv;
    RecvKeepsPubkeys(node.state, c.pubkeys[p], Msg(from, payload));
    RecvKeepsValid(node.state, c.pubkeys[p], Msg(from, payload));
    if FinishedRound1(node) {
      ReceiveFreezesHeld(c, node, p, from, payload);
    } else {
      FinishedHoldsOthers(Receive(c, node, p, from, payload).state, c.pubkeys[p]);
    }
  }

  lemma FinishedHoldsOthers(s: State, self: Identifier)
    requires Valid(s, self)
    ensures s.HasRound1Packages() ==> s.round1.Keys == Others(s.pubkeys, self)
  {
  }

  lemma ReceiveKeepsHeldAuthentic(c: Config, net: Net, node: Node, e: Envelope)
    requires NetOkBefore(c, net, node, e)
    ensures HeldAuthentic(c, Receive(c, node, e.to, e.from, e.payload))
  {
    hide EchoesAuthentic, EchoesGathered;
    if FinishedRound1(node) { ReceiveFreezesHeld(c, node, e.to, e.from, e.payload); }
  }

  ghost predicate NetOkBefore(c: Config, net: Net, node: Node, e: Envelope) {
    && c.WellFormed() && NetOk(c, net)
    && e.to in net.nodes && node == net.nodes[e.to]
    && Enabled(c, net, Deliver(e))
  }

  /** The echo just accepted is one that its honest sender really sent. */
  lemma AcceptedEchoAgrees(c: Config, net: Net, node: Node, e: Envelope, k: Identifier, q: PublicKey)
    requires NetOkBefore(c, net, node, e)
    requires node.state.WaitingForRound1PackagesBroadcast? && e.payload.Echo?
    requires EchoError(node.state, c.pubkeys[e.to], e.from, e.payload.original, e.payload.echoed) == None
    requires q in c.honest
    requires var added := AddEcho(node.state.echoes, e.payload.original, c.pubkeys[e.from], e.payload.echoed);
             k in added && c.pubkeys[q] in added[k]
    ensures EchoAgrees(net, node.held, e.to, q, k)
  {
    hide HeldAuthentic, EchoesGathered;
    if k == e.payload.original && q == e.from {
      assert e == Envelope(q, e.to, Echo(k, node.held[k]));
    } else {
      assert k in node.state.echoes && c.pubkeys[q] in node.state.echoes[k];
    }
  }

  ghost function Added(node: Node, e: Envelope): EchoMap
    requires node.state.WaitingForRound1PackagesBroadcast? && e.payload.Echo? && e.from in node.state.pubkeys
  {
    AddEcho(node.state.echoes, e.payload.original, node.state.pubkeys[e.from], e.payload.echoed)
  }

  ghost predicate EchoStored(node: Node, self: Identifier, e: Envelope) {
    && node.state.WaitingForRound1PackagesBroadcast? && e.payload.Echo?
    && EchoError(node.state, self, e.from, e.payload.original, e.payload.echoed) == None
  }

  lemma ReceiveKeepsEchoesAuthentic(c: Config, net: Net, node: Node, e: Envelope)
    requires NetOkBefore(c, net, node, e)
    ensures EchoesAuthentic(c, net, Receive(c, node, e.to, e.from, e.payload), e.to)
  {
    hide Valid, HeldAuthentic, EchoesGathered, EchoAgrees;
    var after := Receive(c, node, e.to, e.from, e.payload);
    assert NodeOk(c, net, node, e.to);
    if after.state.WaitingForRound1PackagesBroadcast? {
      forall k, q | q in c.honest && k in after.state.echoes && c.pubkeys[q] in after.state.echoes[k]
        ensures EchoAgrees(net, after.held, e.to, q, k)
      {
        if EchoStored(node, c.pubkeys[e.to], e) {
          AcceptedEchoAgrees(c, net, node, e, k, q);
        }
      }
    }
  }

  lemma LastEchoGathers(c: Config, net: Net, node: Node, e: Envelope, k: Identifier, q: PublicKey)
    requires NetOkBefore(c, net, node, e)
    requires EchoStored(node, c.pubkeys[e.to], e) && EchoComplete(node.state.round1, Added(node, e))
    requires q in c.honest && q != e.to && k in Others(c.pubkeys, c.pubkeys[e.to]) && k != c.pubkeys[q]
    ensures EchoAgrees(net, node.held, e.to, q, k)
  {
    assert NodeOk(c, net, node, e.to);
    assert c.pubkeys[q] in Others(c.pubkeys, c.pubkeys[e.to]);
    assert c.pubkeys[q] in Added(node, e)[k].Keys + {k};
    AcceptedEchoAgrees(c, net, node, e, k, q);
  }

  lemma ReceiveKeepsEchoesGathered(c: Config, net: Net, node: Node, e: Envelope)
    requires NetOkBefore(c, net, node, e)
    ensures EchoesGathered(c, net, Receive(c, node, e.to, e.from, e.payload), e.to)
  {
    hide HeldAuthentic, EchoesAuthentic, EchoAgrees;
    var after := Receive(c, node, e.to, e.from, e.payload);
    assert NodeOk(c, net, node, e.to);
    if |c.pubkeys| > 2 && LeftEchoes(after) {
      if !LeftEchoes(node) {
        assert EchoStored(node, c.pubkeys[e.to], e) && EchoComplete(node.state.round1, Added(node, e));
      }
      forall k, q | q in c.honest && q != e.to && k in Others(c.pubkeys, c.pubkeys[e.to]) && k != c.pubkeys[q]
        ensures EchoAgrees(net, after.held, e.to, q, k)
      {
        if !LeftEchoes(node) { LastEchoGathers(c, net, node, e, k, q); }
      }
    }
  }

  lemma DeliverKeepsNetOk(c: Config, net: Net, e: Envelope)
    requires c.WellFormed() && NetOk(c, net) && Enabled(c, net, Deliver(e))
    ensures NetOk(c, Apply(c, net, Deliver(e)))
  {
    hide Valid, HeldAuthentic, EchoesAuthentic, EchoesGathered, Recv;
    var node, after := net.nodes[e.to], Apply(c, net, Deliver(e));
    ReceiveKeepsSession(c, node, e.to, e.from, e.payload);
    ReceiveKeepsHeldAuthentic(c, net, node, e);
    ReceiveKeepsEchoesAuthentic(c, net, node, e);
    ReceiveKeepsEchoesGathered(c, net, node, e);
    forall p | p in after.nodes ensures NodeOk(c, after, after.nodes[p], p) {
      SameSentKeepsNode(c, net, after, after.nodes[p], p);
    }
    if FinishedRound1(node) { ReceiveFreezesHeld(c, node, e.to, e.from, e.payload); }
    forall x | x in after.sent ensures EnvelopeOk(c, after, x) {
      assert EnvelopeOk(c, net, x);
    }
  }

  /** A node's invariant only looks at the messages sent so far, which grow. */
  lemma SameSentKeepsNode(c: Config, net: Net, after: Net, node: Node, p: PublicKey)
    requires c.WellFormed() && p in c.pubkeys && net.sent <= after.sent && NodeOk(c, net, node, p)
    ensures NodeOk(c, after, node, p)
  {
    forall k, q | EchoAgrees(net, node.held, p, q, k) ensures EchoAgrees(after, node.held, p, q, k) {
    }
  }

  /** A step in which node p only moves on, and may send. */
  lemma MoveKeepsNetOk(c: Config, net: Net, after: Net, p: PublicKey)
    requires c.WellFormed() && NetOk(c, net) && p in net.nodes
    requires after.nodes.Keys == net.nodes.Keys && net.sent <= after.sent
    requires forall q :: q in net.nodes ==>
               after.nodes[q].state == net.nodes[q].state && after.nodes[q].held == net.nodes[q].held
    requires forall e :: e in after.sent && e !in net.sent ==> EnvelopeOk(c, after, e)
    ensures NetOk(c, after)
  {
    hide Valid;
    forall q | q in after.nodes ensures NodeOk(c, after, after.nodes[q], q) {
      SameSentKeepsNode(c, net, after, net.nodes[q], q);
    }
    forall e | e in after.sent ensures EnvelopeOk(c, after, e) {
      if e in net.sent { assert EnvelopeOk(c, net, e); }
    }
  }

  lemma PhaseKeepsNetOk(c: Config, net: Net, p: PublicKey, phase: Phase)
    requires c.WellFormed() && NetOk(c, net) && p in net.nodes
    ensures NetOk(c, net.(nodes := net.nodes[p := net.nodes[p].(phase := phase)]))
  {
    hide NodeOk;
    MoveKeepsNetOk(c, net, net.(nodes := net.nodes[p := net.nodes[p].(phase := phase)]), p);
  }

  lemma EchoEnvelopesOk(c: Config, net: Net, p: PublicKey, round1: Round1Map)
    requires c.WellFormed() && net.nodes.Keys == c.honest && p in c.honest
    requires FinishedRound1(net.nodes[p]) && net.nodes[p].held == round1
    ensures forall e :: e in EchoEnvelopes(c, p, round1) ==> EnvelopeOk(c, net, e)
  {
  }

  lemma LeaveRound1KeepsNetOk(c: Config, net: Net, p: PublicKey)
    requires c.WellFormed() && NetOk(c, net) && Enabled(c, net, LeaveRound1(p))
    ensures NetOk(c, Apply(c, net, LeaveRound1(p)))
  {
    hide Valid, HeldAuthentic, EchoesAuthentic, EchoesGathered;
    var node, after := net.nodes[p], Apply(c, net, LeaveRound1(p));
    assert NodeOk(c, net, node, p);
    hide NetOk, NodeOk;
    EchoEnvelopesOk(c, after, p, node.state.round1);
    MoveKeepsNetOk(c, net, after, p);
  }

  lemma SendRound2KeepsNetOk(c: Config, net: Net, p: PublicKey)
    requires c.WellFormed() && NetOk(c, net) && Enabled(c, net, SendRound2(p))
    ensures NetOk(c, Apply(c, net, SendRound2(p)))
  {
    hide NodeOk;
    var after := Apply(c, net, SendRound2(p));
    forall e | e in after.sent && e !in net.sent ensures EnvelopeOk(c, after, e) {
      assert e in Round2Envelopes(c, p, c.part2(p, net.nodes[p].held));
    }
    MoveKeepsNetOk(c, net, after, p);
  }

  lemma StepKeepsNetOk(c: Config, net: Net, a: Action)
    requires c.WellFormed() && NetOk(c, net) && Enabled(c, net, a)
    ensures NetOk(c, Apply(c, net, a))
  {
    match a
    case Deliver(e) => DeliverKeepsNetOk(c, net, e);
    case LeaveRound1(p) => LeaveRound1KeepsNetOk(c, net, p);
    case LeaveEchoes(p) => PhaseKeepsNetOk(c, net, p, BetweenRounds);
    case SendRound2(p) => SendRound2KeepsNetOk(c, net, p);
    case LeaveRound2(p) => PhaseKeepsNetOk(c, net, p, Finished);
  }

  lemma OnlyDeliveryTouchesSessions(c: Config, net: Net, a: Action, j: PublicKey)
    requires c.WellFormed() && net.nodes.Keys == c.honest && Enabled(c, net, a) && j in c.honest
    requires a.Deliver? ==> a.envelope.to != j
    ensures Apply(c, net, a).nodes[j].state == net.nodes[j].state
    ensures Apply(c, net, a).nodes[j].held == net.nodes[j].held
  {
  }

  lemma ReturningNeedsEchoes(c: Config, net: Net, a: Action, j: PublicKey)
    requires c.WellFormed() && net.nodes.Keys == c.honest && Enabled(c, net, a) && j in c.honest
    requires Returned(Apply(c, net, a).nodes[j])
    ensures Returned(net.nodes[j]) || LeftEchoes(net.nodes[j])
  {
  }

  /** A step only ever moves a node's session forward, and freezes its map. */
  lemma StepFreezes(c: Config, net: Net, a: Action, j: PublicKey)
    requires c.WellFormed() && NetOk(c, net) && Enabled(c, net, a) && j in c.honest
    requires FinishedRound1(net.nodes[j])
    ensures FinishedRound1(Apply(c, net, a).nodes[j])
    ensures Apply(c, net, a).nodes[j].held == net.nodes[j].held
    ensures LeftEchoes(net.nodes[j]) ==> LeftEchoes(Apply(c, net, a).nodes[j])
  {
    assert NodeOk(c, net, net.nodes[j], j);
    if a.Deliver? && a.envelope.to == j {
      ReceiveFreezesHeld(c, net.nodes[j], j, a.envelope.from, a.envelope.payload);
    } else {
      OnlyDeliveryTouchesSessions(c, net, a, j);
    }
  }

  lemma InitOk(c: Config)
    requires c.WellFormed()
    ensures NetOk(c, Init(c))
  {
    var net := Init(c);
    forall p | p in net.nodes ensures NodeOk(c, net, net.nodes[p], p) {
      OthersCount(c.pubkeys, c.pubkeys[p]);
      assert c.pubkeys[p] in c.pubkeys.Values;
    }
  }

  lemma {:induction false} RunKeepsNetOk(c: Config, actions: seq<Action>)
    requires c.WellFormed() && After(c, actions).Some?
    ensures NetOk(c, After(c, actions).value)
  {
    if actions == [] {
      InitOk(c);
    } else {
      var front := actions[..|actions| - 1];
      RunKeepsNetOk(c, front);
      StepKeepsNetOk(c, After(c, front).value, actions[|actions| - 1]);
    }
  }

  // ---------------------------------------------------------------------
  // Agreement
  // ---------------------------------------------------------------------

  /** Echo-broadcast agreement. In any run of three or more participants, once
      honest i has left the echo phase, every other honest j has finished
      Round 1 and holds the same package as i for every third participant,
      honest or not. */
  lemma Agreement(c: Config, actions: seq<Action>, i: PublicKey, j: PublicKey)
    requires c.WellFormed() && |c.pubkeys| > 2 && After(c, actions).Some?
    requires i in c.honest && j in c.honest && i != j
    requires LeftEchoes(After(c, actions).value.nodes[i])
    ensures var nodes := After(c, actions).value.nodes;
            && FinishedRound1(nodes[j])
            && forall k :: k in c.pubkeys.Values && k != c.pubkeys[i] && k != c.pubkeys[j] ==>
                 && k in nodes[i].held && k in nodes[j].held
                 && nodes[i].held[k] == nodes[j].held[k]
  {
    var net := After(c, actions).value;
    RunKeepsNetOk(c, actions);
    assert NodeOk(c, net, net.nodes[i], i);
    forall k | k in c.pubkeys.Values && k != c.pubkeys[i] && k != c.pubkeys[j]
      ensures FinishedRound1(net.nodes[j])
      ensures k in net.nodes[i].held && k in net.nodes[j].held && net.nodes[i].held[k] == net.nodes[j].held[k]
    {
      assert EchoAgrees(net, net.nodes[i].held, i, j, k);
      assert EnvelopeOk(c, net, Envelope(j, i, Echo(k, net.nodes[i].held[k])));
    }
    ThirdParticipant(c, i, j);
  }

  lemma ThirdParticipant(c: Config, i: PublicKey, j: PublicKey)
    requires c.WellFormed() && |c.pubkeys| > 2 && i in c.pubkeys && j in c.pubkeys
    ensures exists k :: k in c.pubkeys.Values && k != c.pubkeys[i] && k != c.pubkeys[j]
  {
    ValuesCount(c.pubkeys);
    var two := {c.pubkeys[i], c.pubkeys[j]};
    if c.pubkeys.Values <= two {
      SubsetCount(c.pubkeys.Values, two);
    }
  }

  /** Integrity: what an honest node holds under an honest participant's name
      is the package that participant made, in any run and of any size. */
  lemma Integrity(c: Config, actions: seq<Action>, i: PublicKey, k: PublicKey)
    requires c.WellFormed() && After(c, actions).Some?
    requires i in c.honest && k in c.honest && c.pubkeys[k] in After(c, actions).value.nodes[i].held
    ensures After(c, actions).value.nodes[i].held[c.pubkeys[k]] == c.own[k]
  {
    RunKeepsNetOk(c, actions);
    var net := After(c, actions).value;
    assert NodeOk(c, net, net.nodes[i], i);
  }

  /** A node's map with its own package added: its view of everybody's. */
  ghost function View(c: Config, net: Net, p: PublicKey): Round1Map
    requires c.WellFormed() && p in c.honest && p in net.nodes
  {
    net.nodes[p].held[c.pubkeys[p] := c.own[p]]
  }

  lemma {:induction false} ReturnedLeftEchoes(c: Config, actions: seq<Action>, p: PublicKey)
    requires c.WellFormed() && After(c, actions).Some? && p in c.honest
    requires Returned(After(c, actions).value.nodes[p])
    ensures LeftEchoes(After(c, actions).value.nodes[p])
  {
    if actions == [] {
    } else {
      var front := actions[..|actions| - 1];
      var net, a := After(c, front).value, actions[|actions| - 1];
      ReturningNeedsEchoes(c, net, a, p);
      if Returned(net.nodes[p]) {
        ReturnedLeftEchoes(c, front, p);
      }
      RunKeepsNetOk(c, front);
      StepFreezes(c, net, a, p);
    }
  }

  lemma ReturnedHolds(c: Config, actions: seq<Action>, p: PublicKey)
    requires c.WellFormed() && After(c, actions).Some? && p in c.honest
    requires Returned(After(c, actions).value.nodes[p])
    ensures LeftEchoes(After(c, actions).value.nodes[p])
    ensures After(c, actions).value.nodes[p].held.Keys == Others(c.pubkeys, c.pubkeys[p])
    ensures View(c, After(c, actions).value, p).Keys == c.pubkeys.Values
  {
    RunKeepsNetOk(c, actions);
    ReturnedLeftEchoes(c, actions, p);
    var net := After(c, actions).value;
    assert NodeOk(c, net, net.nodes[p], p);
    assert c.pubkeys[p] in c.pubkeys.Values;
  }

  lemma ReturnedEntriesAgree(c: Config, actions: seq<Action>, i: PublicKey, j: PublicKey, k: Identifier)
    requires c.WellFormed() && After(c, actions).Some?
    requires i in c.honest && j in c.honest && k in c.pubkeys.Values
    requires Returned(After(c, actions).value.nodes[i]) && Returned(After(c, actions).value.nodes[j])
    ensures k in View(c, After(c, actions).value, i) && k in View(c, After(c, actions).value, j)
    ensures View(c, After(c, actions).value, i)[k] == View(c, After(c, actions).value, j)[k]
  {
    ReturnedHolds(c, actions, i);
    ReturnedHolds(c, actions, j);
    if i == j {
    } else if k == c.pubkeys[i] {
      assert c.pubkeys[i] != c.pubkeys[j];
      Integrity(c, actions, j, i);
    } else if k == c.pubkeys[j] {
      assert c.pubkeys[i] != c.pubkeys[j];
      Integrity(c, actions, i, j);
    } else {
      if |c.pubkeys| == 2 { OnlyTwo(c, i, j, k); }
      Agreement(c, actions, i, j);
    }
  }

  /** Byzantine broadcast as the key generation sees it: any two honest clients
      that return from Round 1 return one and the same view of all n packages,
      for any number n >= 2 of participants and whatever the others sent. */
  lemma ReturnedViewsAgree(c: Config, actions: seq<Action>, i: PublicKey, j: PublicKey)
    requires c.WellFormed() && After(c, actions).Some?
    requires i in c.honest && j in c.honest
    requires Returned(After(c, actions).value.nodes[i]) && Returned(After(c, actions).value.nodes[j])
    ensures View(c, After(c, actions).value, i) == View(c, After(c, actions).value, j)
    ensures View(c, After(c, actions).value, i).Keys == c.pubkeys.Values
  {
    ReturnedHolds(c, actions, i);
    ReturnedHolds(c, actions, j);
    forall k | k in c.pubkeys.Values
      ensures View(c, After(c, actions).value, i)[k] == View(c, After(c, actions).value, j)[k]
    {
      ReturnedEntriesAgree(c, actions, i, j, k);
    }
  }

  lemma OnlyTwo(c: Config, i: PublicKey, j: PublicKey, k: Identifier)
    requires c.WellFormed() && |c.pubkeys| == 2 && i in c.pubkeys && j in c.pubkeys && i != j
    requires k in c.pubkeys.Values
    ensures k == c.pubkeys[i] || k == c.pubkeys[j]
  {
    ValuesCount(c.pubkeys);
    assert c.pubkeys[i] != c.pubkeys[j];
    assert c.pubkeys[i] in c.pubkeys.Values && c.pubkeys[j] in c.pubkeys.Values;
    SubsetCount({c.pubkeys[i], c.pubkeys[j]}, c.pubkeys.Values);
  }

  /** A node's map is frozen when it finishes Round 1, and every echo it ever
      sends repeats that map. */
  lemma EchoesRepeatFrozenMap(c: Config, actions: seq<Action>, more: seq<Action>, j: PublicKey)
    requires c.WellFormed() && j in c.honest
    requires After(c, actions).Some? && After(c, actions + more).Some?
    requires FinishedRound1(After(c, actions).value.nodes[j])
    ensures FinishedRound1(After(c, actions + more).value.nodes[j])
    ensures After(c, actions + more).value.nodes[j].held == After(c, actions).value.nodes[j].held
    ensures forall e :: e in After(c, actions + more).value.sent && e.from == j && e.payload.Echo? ==>
              && e.payload.original in After(c, actions).value.nodes[j].held
              && e.payload.echoed == After(c, actions).value.nodes[j].held[e.payload.original]
  {
    FrozenHeld(c, actions, more, j);
    RunKeepsNetOk(c, actions + more);
    var net := After(c, actions + more).value;
    forall e | e in net.sent && e.from == j && e.payload.Echo?
      ensures e.payload.original in net.nodes[j].held && e.payload.echoed == net.nodes[j].held[e.payload.original]
    {
      assert EnvelopeOk(c, net, e);
    }
  }

  lemma {:induction false} FrozenHeld(c: Config, actions: seq<Action>, more: seq<Action>, j: PublicKey)
    requires c.WellFormed() && j in c.honest
    requires After(c, actions).Some? && After(c, actions + more).Some?
    requires FinishedRound1(After(c, actions).value.nodes[j])
    ensures FinishedRound1(After(c, actions + more).value.nodes[j])
    ensures After(c, actions + more).value.nodes[j].held == After(c, actions).value.nodes[j].held
  {
    if more == [] {
      assert actions + more == actions;
    } else {
      var front := more[..|more| - 1];
      assert (actions + more)[..|actions + more| - 1] == actions + front;
      FrozenHeld(c, actions, front, j);
      RunKeepsNetOk(c, actions + front);
      StepFreezes(c, After(c, actions + front).value, more[|more| - 1], j);
    }
  }

  /** Nobody leaves the echo phase before every other honest participant has
      sent it an echo, in any run of three or more participants: a client that
      goes on to Round 2 without echoing stops all the others. */
  lemma LeavingNeedsEveryEcho(c: Config, actions: seq<Action>, i: PublicKey, j: PublicKey)
    requires c.WellFormed() && |c.pubkeys| > 2 && After(c, actions).Some?
    requires i in c.honest && j in c.honest && i != j
    requires LeftEchoes(After(c, actions).value.nodes[j])
    ensures exists e :: e in After(c, actions).value.sent && e.from == i && e.to == j && e.payload.Echo?
  {
    var net := After(c, actions).value;
    RunKeepsNetOk(c, actions);
    assert NodeOk(c, net, net.nodes[j], j);
    ThirdParticipant(c, i, j);
    var k :| k in c.pubkeys.Values && k != c.pubkeys[i] && k != c.pubkeys[j];
    assert EchoAgrees(net, net.nodes[j].held, j, i, k);
  }
}
