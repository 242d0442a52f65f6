/** Honest participants: what each of them should end up with, and that it does
    when messages reach the sessions in time. */
module DkgCompletion {

  import opened Participants
  import opened DkgSession
  import opened DkgNetwork
  import EchoCount

  /** Everybody follows the protocol, and key generation computes a Round 2
      package for every participant it holds a Round 1 package of. */
  ghost predicate AllHonest(c: Config) {
    && c.WellFormed() && c.honest == c.pubkeys.Keys
    && forall p, m: Round1Map {:trigger c.part2(p, m)} :: m.Keys <= c.part2(p, m).Keys
  }

  // ---------------------------------------------------------------------
  // What everybody should end up with
  // ---------------------------------------------------------------------

  /** The Round 1 packages of everybody but p. */
  ghost function TrueRound1(c: Config, p: PublicKey): Round1Map
    requires c.WellFormed() && c.honest == c.pubkeys.Keys
  {
    map q | q in c.pubkeys && q != p :: c.pubkeys[q] := c.own[q]
  }

  /** The Round 2 packages that everybody but p made for p. */
  ghost function TrueRound2(c: Config, p: PublicKey): Round2Map
    requires AllHonest(c) && p in c.pubkeys
  {
    map q | q in c.pubkeys && q != p :: c.pubkeys[q] := Round2For(c, q, p)
  }

  ghost function Round2For(c: Config, q: PublicKey, p: PublicKey): Round2Package
    requires AllHonest(c) && p in c.pubkeys && q in c.pubkeys && q != p
  {
    assert c.pubkeys[p] in TrueRound1(c, q);
    assert c.pubkeys[p] in c.part2(q, TrueRound1(c, q));
    c.part2(q, TrueRound1(c, q))[c.pubkeys[p]]
  }

  // The three messages that q sends p.

  ghost function Round1Msg(c: Config, q: PublicKey, p: PublicKey): Envelope
    requires c.WellFormed() && c.honest == c.pubkeys.Keys && q in c.pubkeys
  {
    Envelope(q, p, Round1(c.own[q]))
  }

  ghost function EchoMsg(c: Config, q: PublicKey, p: PublicKey, r: PublicKey): Envelope
    requires c.WellFormed() && c.honest == c.pubkeys.Keys && r in c.pubkeys
  {
    Envelope(q, p, Echo(c.pubkeys[r], c.own[r]))
  }

  ghost function Round2Msg(c: Config, q: PublicKey, p: PublicKey): Envelope
    requires AllHonest(c) && p in c.pubkeys && q in c.pubkeys && q != p
  {
    Envelope(q, p, Round2(Round2For(c, q, p)))
  }

  // ---------------------------------------------------------------------
  // Runs of honest nodes
  // ---------------------------------------------------------------------

  /** What was sent is handed over at most once, and nothing else is. */
  ghost predicate Once(c: Config, net: Net, a: Action) {
    Enabled(c, net, a) && (a.Deliver? ==> a.envelope in net.sent && a.envelope !in net.delivered)
  }

  ghost predicate OnceRun(c: Config, actions: seq<Action>)
    requires c.WellFormed()
  {
    && After(c, actions).Some?
    && (actions != [] ==>
          && OnceRun(c, actions[..|actions| - 1])
          && Once(c, After(c, actions[..|actions| - 1]).value, actions[|actions| - 1]))
  }

  /** Whether a session is in the state that reads messages of this kind. */
  predicate Takes(state: State, payload: Payload) {
    match payload
    case Round1(_) => state.WaitingForRound1Packages?
    case Echo(_, _) => state.WaitingForRound1PackagesBroadcast?
    case Round2(_) => state.WaitingForRound2Packages?
    case Malformed => false
  }

  /** The session is past what its client is waiting for: past the echo phase
      before the client has sent its own echoes, or ready while the client
      still asks for an earlier state. */
  ghost predicate Outruns(c: Config, phase: Phase, state: State) {
    || (|c.pubkeys| > 2 && phase.CollectingRound1? && state.WaitingForRound2Packages?)
    || ((phase.CollectingRound1? || phase.CollectingEchoes?) && state.Round2PackagesReady?)
  }

  /** A message is timely if the session reads its kind, and does not outrun
      its client by it. */
  ghost predicate Timely(c: Config, net: Net, a: Action)
    requires c.WellFormed() && net.nodes.Keys == c.honest
  {
    && Once(c, net, a)
    && (a.Deliver? ==>
          var e, node := a.envelope, net.nodes[a.envelope.to];
          && Takes(node.state, e.payload)
          && !Outruns(c, node.phase, Receive(c, node, e.to, e.from, e.payload).state))
  }

  ghost predicate TimelyRun(c: Config, actions: seq<Action>)
    requires c.WellFormed()
  {
    && After(c, actions).Some?
    && (actions != [] ==>
          && TimelyRun(c, actions[..|actions| - 1])
          && Timely(c, After(c, actions[..|actions| - 1]).value, actions[|actions| - 1]))
  }

  // A stricter rule that looks at the client alone.

  predicate PhaseTakes(phase: Phase, payload: Payload) {
    match payload
    case Round1(_) => phase.CollectingRound1?
    case Echo(_, _) => phase.CollectingEchoes?
    case Round2(_) => phase.CollectingRound2?
    case Malformed => false
  }

  /** Each message is handed over once, and no earlier than when its receiver
      polls for messages of that phase. */
  ghost predicate Ordered(c: Config, net: Net, a: Action) {
    Once(c, net, a) && (a.Deliver? ==> PhaseTakes(net.nodes[a.envelope.to].phase, a.envelope.payload))
  }

  ghost predicate OrderedRun(c: Config, actions: seq<Action>)
    requires c.WellFormed()
  {
    && After(c, actions).Some?
    && (actions != [] ==>
          && OrderedRun(c, actions[..|actions| - 1])
          && Ordered(c, After(c, actions[..|actions| - 1]).value, actions[|actions| - 1]))
  }

  // ---------------------------------------------------------------------
  // Invariant
  // ---------------------------------------------------------------------

  function Rank(phase: Phase): nat {
    match phase
    case CollectingRound1 => 0
    case CollectingEchoes => 1
    case BetweenRounds => 2
    case CollectingRound2 => 3
    case Finished => 4
    case Failed => 0
  }

  /** Where a client can be without its session having outrun it. */
  ghost predicate PhaseFits(c: Config, node: Node) {
    match node.phase
    case CollectingRound1 =>
      || node.state.WaitingForRound1Packages?
      || (|c.pubkeys| > 2 && node.state.WaitingForRound1PackagesBroadcast?)
      || (|c.pubkeys| == 2 && node.state.WaitingForRound2Packages?)
    case CollectingEchoes =>
      |c.pubkeys| > 2 && (node.state.WaitingForRound1PackagesBroadcast? || node.state.WaitingForRound2Packages?)
    case BetweenRounds => node.state.WaitingForRound2Packages?
    case CollectingRound2 => node.state.WaitingForRound2Packages? || node.state.Round2PackagesReady?
    case Finished => node.state.Round2PackagesReady?
    case Failed => false
  }

  /** p holds exactly the packages of those whose Round 1 message it was handed. */
  ghost predicate Round1Exact(c: Config, held: Round1Map, delivered: set<Envelope>, p: PublicKey)
    requires AllHonest(c)
  {
    forall q :: q in c.pubkeys && q != p ==>
      (c.pubkeys[q] in held <==> Round1Msg(c, q, p) in delivered)
  }

  ghost predicate HasEcho(echoes: EchoMap, k: Identifier, j: Identifier) {
    k in echoes && j in echoes[k]
  }

  /** Whether a session has used q's echo of r's package. */
  ghost predicate EchoTaken(c: Config, state: State, q: PublicKey, r: PublicKey)
    requires q in c.pubkeys && r in c.pubkeys
  {
    match state
    case WaitingForRound1Packages(_, _) => false
    case WaitingForRound1PackagesBroadcast(_, _, echoes) => HasEcho(echoes, c.pubkeys[r], c.pubkeys[q])
    case WaitingForRound2Packages(_, _, _) => |c.pubkeys| > 2
    case Round2PackagesReady(_, _) => |c.pubkeys| > 2
  }

  ghost predicate EchoExact(c: Config, state: State, delivered: set<Envelope>, p: PublicKey)
    requires AllHonest(c)
  {
    forall q, r :: q in c.pubkeys && r in c.pubkeys && q != p && r != p && q != r ==>
      (EchoTaken(c, state, q, r) <==> EchoMsg(c, q, p, r) in delivered)
  }

  ghost function Round2Held(state: State): Round2Map {
    if state.WaitingForRound2Packages? || state.Round2PackagesReady? then state.round2 else map[]
  }

  ghost predicate Round2Exact(c: Config, state: State, delivered: set<Envelope>, p: PublicKey)
    requires AllHonest(c) && p in c.pubkeys
  {
    forall q :: q in c.pubkeys && q != p ==>
      && (c.pubkeys[q] in Round2Held(state) <==> Round2Msg(c, q, p) in delivered)
      && (c.pubkeys[q] in Round2Held(state) ==> Round2Held(state)[c.pubkeys[q]] == Round2For(c, q, p))
  }

  /** What q has sent p is decided by q's phase. */
  ghost predicate SentExact(c: Config, phase: Phase, sent: set<Envelope>, q: PublicKey, p: PublicKey)
    requires AllHonest(c) && p in c.pubkeys && q in c.pubkeys && p != q
  {
    && Round1Msg(c, q, p) in sent
    && (Rank(phase) >= 1 ==>
          forall r :: r in c.pubkeys && r != p && r != q ==> EchoMsg(c, q, p, r) in sent)
    && (Rank(phase) >= 3 ==> Round2Msg(c, q, p) in sent)
  }

  /** Every message sent is one of the three kinds, between two participants. */
  ghost predicate Expected(c: Config, e: Envelope)
    requires AllHonest(c)
  {
    && e.from in c.pubkeys && e.to in c.pubkeys && e.from != e.to
    && match e.payload
       case Round1(_) => e == Round1Msg(c, e.from, e.to)
       case Echo(k, _) =>
         exists r :: r in c.pubkeys && r != e.from && r != e.to && e == EchoMsg(c, e.from, e.to, r)
       case Round2(_) => e == Round2Msg(c, e.from, e.to)
       case Malformed => false
  }

  ghost predicate TimelyNode(c: Config, node: Node, sent: set<Envelope>, delivered: set<Envelope>, p: PublicKey)
    requires AllHonest(c) && p in c.pubkeys
  {
    && PhaseFits(c, node)
    && Round1Exact(c, node.held, delivered, p)
    && EchoExact(c, node.state, delivered, p)
    && Round2Exact(c, node.state, delivered, p)
    && forall q :: q in c.pubkeys && q != p ==> SentExact(c, node.phase, sent, p, q)
  }

  ghost predicate TimelyNodes(c: Config, net: Net)
    requires AllHonest(c) && net.nodes.Keys == c.honest
  {
    forall p :: p in c.pubkeys ==> TimelyNode(c, net.nodes[p], net.sent, net.delivered, p)
  }

  ghost predicate TimelyOk(c: Config, net: Net)
    requires AllHonest(c)
  {
    && NetOk(c, net)
    && TimelyNodes(c, net)
    && (forall e :: e in net.sent ==> Expected(c, e))
    && net.delivered <= net.sent
  }

  lemma OtherIdentifier(c: Config, p: PublicKey, q: PublicKey)
    requires c.WellFormed() && p in c.pubkeys && q in c.pubkeys && q != p
    ensures c.pubkeys[q] in Others(c.pubkeys, c.pubkeys[p])
  {
    assert c.pubkeys[q] in c.pubkeys.Values && c.pubkeys[q] != c.pubkeys[p];
  }

  /** A session that has finished Round 1 holds everybody's true package. */
  lemma HeldIsTrue(c: Config, node: Node, p: PublicKey)
    requires c.WellFormed() && c.honest == c.pubkeys.Keys && p in c.pubkeys
    requires node.held.Keys == Others(c.pubkeys, c.pubkeys[p]) && HeldAuthentic(c, node)
    ensures node.held == TrueRound1(c, p)
  {
    var true1 := TrueRound1(c, p);
    forall k | k in true1 ensures k in node.held && node.held[k] == true1[k] {
      var q :| q in c.pubkeys && q != p && c.pubkeys[q] == k;
      OtherIdentifier(c, p, q);
    }
    forall k | k in node.held ensures k in true1 {
      var q :| q in c.pubkeys && c.pubkeys[q] == k;
    }
  }

  // ---------------------------------------------------------------------
  // Every timely step keeps it
  // ---------------------------------------------------------------------

  /** In a timely run a message is never refused, and takes its effect. */
  lemma Round1Arrives(c: Config, node: Node, delivered: set<Envelope>, p: PublicKey, q: PublicKey)
    requires AllHonest(c) && p in c.pubkeys && q in c.pubkeys && q != p
    requires SessionOk(c, node, p) && Round1Exact(c, node.held, delivered, p)
    requires Round1Msg(c, q, p) !in delivered
    ensures var held := node.held[c.pubkeys[q] := c.own[q]];
            && node.state.WaitingForRound1Packages?
            && Receive(c, node, p, q, Round1(c.own[q])) == Node(AfterRound1(c.pubkeys, held), node.phase, held)
  {
    OtherIdentifier(c, p, q);
  }

  lemma EchoArrives(c: Config, node: Node, delivered: set<Envelope>, p: PublicKey, q: PublicKey, r: PublicKey)
    requires AllHonest(c) && p in c.pubkeys && q in c.pubkeys && r in c.pubkeys && q != p && r != p && q != r
    requires SessionOk(c, node, p) && HeldAuthentic(c, node)
    requires node.state.WaitingForRound1PackagesBroadcast? && EchoExact(c, node.state, delivered, p)
    requires EchoMsg(c, q, p, r) !in delivered
    ensures && !HasEcho(node.state.echoes, c.pubkeys[r], c.pubkeys[q])
            && Receive(c, node, p, q, Echo(c.pubkeys[r], c.own[r])) ==
                 Node(AfterEcho(c.pubkeys, node.held, AddEcho(node.state.echoes, c.pubkeys[r], c.pubkeys[q], c.own[r])),
                      node.phase, node.held)
  {
    OtherIdentifier(c, p, r);
    assert c.pubkeys[r] != c.pubkeys[q];
  }

  lemma Round2Arrives(c: Config, node: Node, p: PublicKey, q: PublicKey)
    requires AllHonest(c) && p in c.pubkeys && q in c.pubkeys && q != p
    requires SessionOk(c, node, p)
    requires node.state.WaitingForRound2Packages?
    ensures Receive(c, node, p, q, Round2(Round2For(c, q, p))) ==
                 Node(AfterRound2(c.pubkeys, node.held, node.state.round2[c.pubkeys[q] := Round2For(c, q, p)]),
                      node.phase, node.held)
  {
    OtherIdentifier(c, p, q);
  }

  /** A step that changes neither node p nor the messages handed to it. */
  lemma NodeUnaffected(c: Config, node: Node, sent: set<Envelope>, delivered: set<Envelope>,
                       sent': set<Envelope>, delivered': set<Envelope>, p: PublicKey)
    requires AllHonest(c) && p in c.pubkeys && TimelyNode(c, node, sent, delivered, p)
    requires sent <= sent'
    requires forall e: Envelope :: e.to == p ==> (e in delivered' <==> e in delivered)
    ensures TimelyNode(c, node, sent', delivered', p)
  {
    assert Round1Exact(c, node.held, delivered', p);
    assert EchoExact(c, node.state, delivered', p);
    assert Round2Exact(c, node.state, delivered', p);
    forall q | q in c.pubkeys && q != p ensures SentExact(c, node.phase, sent', p, q) {
      assert SentExact(c, node.phase, sent, p, q);
    }
  }

  // A message of one kind leaves the accounts of the two other kinds alone.

  lemma Round1Unaffected(c: Config, held: Round1Map, delivered: set<Envelope>, e: Envelope, p: PublicKey)
    requires AllHonest(c) && Round1Exact(c, held, delivered, p) && !e.payload.Round1?
    ensures Round1Exact(c, held, delivered + {e}, p)
  {
  }

  lemma EchoUnaffected(c: Config, state: State, state': State, delivered: set<Envelope>, e: Envelope, p: PublicKey)
    requires AllHonest(c) && EchoExact(c, state, delivered, p) && !e.payload.Echo?
    requires forall q, r :: q in c.pubkeys && r in c.pubkeys ==>
               (EchoTaken(c, state', q, r) <==> EchoTaken(c, state, q, r))
    ensures EchoExact(c, state', delivered + {e}, p)
  {
  }

  lemma Round2Unaffected(c: Config, state: State, state': State, delivered: set<Envelope>, e: Envelope, p: PublicKey)
    requires AllHonest(c) && p in c.pubkeys && Round2Exact(c, state, delivered, p) && !e.payload.Round2?
    requires Round2Held(state') == Round2Held(state)
    ensures Round2Exact(c, state', delivered + {e}, p)
  {
  }

  lemma Round1Added(c: Config, held: Round1Map, delivered: set<Envelope>, p: PublicKey, q: PublicKey)
    requires AllHonest(c) && p in c.pubkeys && q in c.pubkeys && Round1Exact(c, held, delivered, p)
    ensures Round1Exact(c, held[c.pubkeys[q] := c.own[q]], delivered + {Round1Msg(c, q, p)}, p)
  {
  }

  lemma Round2Added(c: Config, state: State, delivered: set<Envelope>, p: PublicKey, q: PublicKey, state': State)
    requires AllHonest(c) && p in c.pubkeys && q in c.pubkeys && q != p && Round2Exact(c, state, delivered, p)
    requires Round2Held(state') == Round2Held(state)[c.pubkeys[q] := Round2For(c, q, p)]
    ensures Round2Exact(c, state', delivered + {Round2Msg(c, q, p)}, p)
  {
  }

  lemma Round1KeepsNode(c: Config, node: Node, sent: set<Envelope>, delivered: set<Envelope>, p: PublicKey,
                        q: PublicKey)
    requires AllHonest(c) && p in c.pubkeys && q in c.pubkeys && q != p
    requires TimelyNode(c, node, sent, delivered, p) && SessionOk(c, node, p)
    requires Round1Msg(c, q, p) !in delivered
    ensures TimelyNode(c, Receive(c, node, p, q, Round1(c.own[q])), sent, delivered + {Round1Msg(c, q, p)}, p)
  {
    hide Round1Exact, EchoExact, Round2Exact, SentExact, Recv, Receive, Valid;
    var e, state := Round1Msg(c, q, p), AfterRound1(c.pubkeys, node.held[c.pubkeys[q] := c.own[q]]);
    Round1Arrives(c, node, delivered, p, q);
    Round1Added(c, node.held, delivered, p, q);
    EchoUnaffected(c, node.state, state, delivered, e, p);
    Round2Unaffected(c, node.state, state, delivered, e, p);
  }

  lemma AddedEcho(echoes: EchoMap, k: Identifier, j: Identifier, pkg: Round1Package, k': Identifier, j': Identifier)
    ensures HasEcho(AddEcho(echoes, k, j, pkg), k', j') <==> HasEcho(echoes, k', j') || (k' == k && j' == j)
  {
  }

  lemma EchoKeepsExact(c: Config, node: Node, delivered: set<Envelope>, p: PublicKey, q: PublicKey, r: PublicKey)
    requires AllHonest(c) && p in c.pubkeys && q in c.pubkeys && r in c.pubkeys && q != p && r != p && q != r
    requires SessionOk(c, node, p) && HeldAuthentic(c, node)
    requires |c.pubkeys| > 2 && node.state.WaitingForRound1PackagesBroadcast? && EchoExact(c, node.state, delivered, p)
    requires EchoMsg(c, q, p, r) !in delivered
    ensures EchoExact(c, Receive(c, node, p, q, Echo(c.pubkeys[r], c.own[r])).state,
                      delivered + {EchoMsg(c, q, p, r)}, p)
  {
    EchoArrives(c, node, delivered, p, q, r);
    var added := AddEcho(node.state.echoes, c.pubkeys[r], c.pubkeys[q], c.own[r]);
    var state := AfterEcho(c.pubkeys, node.held, added);
    forall q', r' | q' in c.pubkeys && r' in c.pubkeys && q' != p && r' != p && q' != r'
      ensures EchoTaken(c, state, q', r') <==> EchoMsg(c, q', p, r') in delivered + {EchoMsg(c, q, p, r)}
    {
      AddedEcho(node.state.echoes, c.pubkeys[r], c.pubkeys[q], c.own[r], c.pubkeys[r'], c.pubkeys[q']);
      assert EchoTaken(c, node.state, q', r') <==> EchoMsg(c, q', p, r') in delivered;
      assert c.pubkeys[q'] != c.pubkeys[r'];
      if EchoComplete(node.held, added) {
        OtherIdentifier(c, p, q');
        OtherIdentifier(c, p, r');
        assert c.pubkeys[q'] in added[c.pubkeys[r']].Keys + {c.pubkeys[r']};
      }
    }
  }

  lemma EchoKeepsNode(c: Config, node: Node, sent: set<Envelope>, delivered: set<Envelope>,
                      p: PublicKey, q: PublicKey, r: PublicKey)
    requires AllHonest(c) && p in c.pubkeys && q in c.pubkeys && r in c.pubkeys && q != p && r != p && q != r
    requires TimelyNode(c, node, sent, delivered, p)
    requires SessionOk(c, node, p) && HeldAuthentic(c, node) && node.state.WaitingForRound1PackagesBroadcast?
    requires EchoMsg(c, q, p, r) !in delivered
    requires !Outruns(c, node.phase, Receive(c, node, p, q, Echo(c.pubkeys[r], c.own[r])).state)
    ensures TimelyNode(c, Receive(c, node, p, q, Echo(c.pubkeys[r], c.own[r])), sent,
                       delivered + {EchoMsg(c, q, p, r)}, p)
  {
    hide Round1Exact, EchoExact, Round2Exact, SentExact, Recv, Receive, Valid, EchoComplete, AddEcho;
    var e := EchoMsg(c, q, p, r);
    EchoArrives(c, node, delivered, p, q, r);
    EchoKeepsExact(c, node, delivered, p, q, r);
    Round1Unaffected(c, node.held, delivered, e, p);
    Round2Unaffected(c, node.state, Receive(c, node, p, q, e.payload).state, delivered, e, p);
  }

  lemma Round2KeepsNode(c: Config, node: Node, sent: set<Envelope>, delivered: set<Envelope>, p: PublicKey,
                        q: PublicKey)
    requires AllHonest(c) && p in c.pubkeys && q in c.pubkeys && q != p
    requires TimelyNode(c, node, sent, delivered, p) && SessionOk(c, node, p) && node.state.WaitingForRound2Packages?
    requires Polling(node.phase) && Round2Msg(c, q, p) !in delivered
    requires !Outruns(c, node.phase, Receive(c, node, p, q, Round2(Round2For(c, q, p))).state)
    ensures TimelyNode(c, Receive(c, node, p, q, Round2(Round2For(c, q, p))), sent, delivered + {Round2Msg(c, q, p)}, p)
  {
    hide Round1Exact, EchoExact, Round2Exact, SentExact, Recv, Receive, Valid, Round2For;
    var e := Round2Msg(c, q, p);
    Round2Arrives(c, node, p, q);
    var state := Receive(c, node, p, q, e.payload).state;
    Round2Added(c, node.state, delivered, p, q, state);
    Round1Unaffected(c, node.held, delivered, e, p);
    EchoUnaffected(c, node.state, state, delivered, e, p);
  }

  lemma DeliverKeepsReceiver(c: Config, net: Net, e: Envelope)
    requires AllHonest(c) && TimelyOk(c, net) && Timely(c, net, Deliver(e))
    ensures e.to in c.pubkeys
    ensures TimelyNode(c, Receive(c, net.nodes[e.to], e.to, e.from, e.payload), net.sent, net.delivered + {e}, e.to)
  {
    hide TimelyNode, Valid, HeldAuthentic;
    var p, q := e.to, e.from;
    assert NodeOk(c, net, net.nodes[p], p) && Expected(c, e);
    match e.payload
    case Round1(_) => Round1KeepsNode(c, net.nodes[p], net.sent, net.delivered, p, q);
    case Echo(_, _) =>
      var r :| r in c.pubkeys && r != q && r != p && e == EchoMsg(c, q, p, r);
      EchoKeepsNode(c, net.nodes[p], net.sent, net.delivered, p, q, r);
    case Round2(_) => Round2KeepsNode(c, net.nodes[p], net.sent, net.delivered, p, q);
  }

  lemma DeliverKeepsNodes(c: Config, net: Net, e: Envelope)
    requires AllHonest(c) && net.nodes.Keys == c.honest && TimelyNodes(c, net) && Enabled(c, net, Deliver(e))
    requires TimelyNode(c, Receive(c, net.nodes[e.to], e.to, e.from, e.payload), net.sent, net.delivered + {e}, e.to)
    ensures TimelyNodes(c, Apply(c, net, Deliver(e)))
  {
    hide TimelyNode, Receive;
    var after := Apply(c, net, Deliver(e));
    forall p | p in c.pubkeys ensures TimelyNode(c, after.nodes[p], after.sent, after.delivered, p) {
      if p != e.to {
        NodeUnaffected(c, net.nodes[p], net.sent, net.delivered, after.sent, after.delivered, p);
      }
    }
  }

  lemma DeliverKeepsTimelyOk(c: Config, net: Net, e: Envelope)
    requires AllHonest(c) && TimelyOk(c, net) && Timely(c, net, Deliver(e))
    ensures TimelyOk(c, Apply(c, net, Deliver(e)))
  {
    hide NetOk, TimelyNodes, Expected;
    StepKeepsNetOk(c, net, Deliver(e));
    DeliverKeepsReceiver(c, net, e);
    DeliverKeepsNodes(c, net, e);
  }

  /** Node p moves to another phase and may send; everything else stays. */
  lemma MoveKeepsNodes(c: Config, net: Net, p: PublicKey, phase: Phase, sent: set<Envelope>)
    requires AllHonest(c) && net.nodes.Keys == c.honest && TimelyNodes(c, net) && p in c.pubkeys
    requires net.sent <= sent && PhaseFits(c, net.nodes[p].(phase := phase))
    requires forall q :: q in c.pubkeys && q != p ==> SentExact(c, phase, sent, p, q)
    ensures TimelyNodes(c, Net(net.nodes[p := net.nodes[p].(phase := phase)], sent, net.delivered))
  {
    var nodes := net.nodes[p := net.nodes[p].(phase := phase)];
    forall q | q in c.pubkeys ensures TimelyNode(c, nodes[q], sent, net.delivered, q) {
      NodeUnaffected(c, net.nodes[q], net.sent, net.delivered, sent, net.delivered, q);
    }
  }

  lemma NodeFacts(c: Config, net: Net, p: PublicKey)
    requires AllHonest(c) && TimelyOk(c, net) && (p in net.nodes || p in c.pubkeys)
    ensures net.nodes.Keys == c.honest && p in c.pubkeys
    ensures SessionOk(c, net.nodes[p], p) && HeldAuthentic(c, net.nodes[p])
    ensures TimelyNode(c, net.nodes[p], net.sent, net.delivered, p)
  {
    assert NodeOk(c, net, net.nodes[p], p);
  }

  /** p's messages are unaffected by what others send, and by a phase change
      that sends nothing new. */
  lemma StillSent(c: Config, net: Net, p: PublicKey, phase: Phase)
    requires AllHonest(c) && net.nodes.Keys == c.honest && TimelyNodes(c, net) && p in c.pubkeys
    requires Rank(phase) >= 1 ==> Rank(net.nodes[p].phase) >= 1 || |c.pubkeys| == 2
    requires Rank(phase) >= 3 ==> Rank(net.nodes[p].phase) >= 3
    ensures forall q :: q in c.pubkeys && q != p ==> SentExact(c, phase, net.sent, p, q)
  {
    assert TimelyNode(c, net.nodes[p], net.sent, net.delivered, p);
    forall q | q in c.pubkeys && q != p ensures SentExact(c, phase, net.sent, p, q) {
      assert SentExact(c, net.nodes[p].phase, net.sent, p, q);
      if |c.pubkeys| == 2 { NoThird(c, p, q); }
    }
  }

  lemma NoThird(c: Config, p: PublicKey, q: PublicKey)
    requires c.WellFormed() && |c.pubkeys| == 2 && p in c.pubkeys && q in c.pubkeys && p != q
    ensures forall r :: r in c.pubkeys ==> r == p || r == q
  {
    SubsetCount({p, q}, c.pubkeys.Keys);
  }

  lemma PhaseKeepsTimelyOk(c: Config, net: Net, p: PublicKey, phase: Phase)
    requires AllHonest(c) && TimelyOk(c, net) && p in c.pubkeys
    requires PhaseFits(c, net.nodes[p].(phase := phase))
    requires Rank(phase) >= 1 ==> Rank(net.nodes[p].phase) >= 1 || |c.pubkeys| == 2
    requires Rank(phase) >= 3 ==> Rank(net.nodes[p].phase) >= 3
    ensures TimelyOk(c, net.(nodes := net.nodes[p := net.nodes[p].(phase := phase)]))
  {
    hide NetOk, TimelyNodes, Expected, SentExact;
    NodeFacts(c, net, p);
    PhaseKeepsNetOk(c, net, p, phase);
    StillSent(c, net, p, phase);
    MoveKeepsNodes(c, net, p, phase, net.sent);
  }

  lemma EchoIsSent(c: Config, held: Round1Map, p: PublicKey, q: PublicKey, r: PublicKey)
    requires AllHonest(c) && p in c.pubkeys && q in c.pubkeys && r in c.pubkeys && p != q && r != p && r != q
    requires held == TrueRound1(c, p)
    ensures EchoMsg(c, p, q, r) in EchoEnvelopes(c, p, held)
  {
    assert c.pubkeys[r] in TrueRound1(c, p) && c.pubkeys[r] != c.pubkeys[q];
  }

  lemma EchoesExpected(c: Config, held: Round1Map, p: PublicKey, e: Envelope)
    requires AllHonest(c) && p in c.pubkeys && held == TrueRound1(c, p) && e in EchoEnvelopes(c, p, held)
    ensures Expected(c, e)
  {
    var q, k :| q in c.pubkeys && q != p && k in held && k != c.pubkeys[q] && e == Envelope(p, q, Echo(k, held[k]));
    var r :| r in c.pubkeys && r != p && c.pubkeys[r] == k;
    assert e == EchoMsg(c, p, q, r);
  }

  lemma SendEchoesKeepsNodes(c: Config, net: Net, p: PublicKey)
    requires AllHonest(c) && net.nodes.Keys == c.honest && TimelyNodes(c, net) && p in c.pubkeys
    requires net.nodes[p].held == TrueRound1(c, p)
    requires PhaseFits(c, net.nodes[p].(phase := CollectingEchoes))
    ensures TimelyNodes(c, Net(net.nodes[p := net.nodes[p].(phase := CollectingEchoes)],
                                net.sent + EchoEnvelopes(c, p, net.nodes[p].held), net.delivered))
  {
    var sent := net.sent + EchoEnvelopes(c, p, net.nodes[p].held);
    StillSent(c, net, p, CollectingRound1);
    forall q | q in c.pubkeys && q != p ensures SentExact(c, CollectingEchoes, sent, p, q) {
      assert SentExact(c, CollectingRound1, net.sent, p, q);
      forall r | r in c.pubkeys && r != q && r != p ensures EchoMsg(c, p, q, r) in sent {
        EchoIsSent(c, net.nodes[p].held, p, q, r);
      }
    }
    MoveKeepsNodes(c, net, p, CollectingEchoes, sent);
  }

  lemma LeaveRound1KeepsTimelyOk(c: Config, net: Net, p: PublicKey)
    requires AllHonest(c) && TimelyOk(c, net) && Timely(c, net, LeaveRound1(p))
    ensures TimelyOk(c, Apply(c, net, LeaveRound1(p)))
  {
    hide NetOk, TimelyNodes, Expected, EchoEnvelopes;
    NodeFacts(c, net, p);
    var node, after := net.nodes[p], Apply(c, net, LeaveRound1(p));
    if node.state.HasRound1BroadcastPackages() {
      PhaseKeepsTimelyOk(c, net, p, BetweenRounds);
    } else {
      StepKeepsNetOk(c, net, LeaveRound1(p));
      HeldIsTrue(c, node, p);
      SendEchoesKeepsNodes(c, net, p);
      forall e | e in after.sent ensures Expected(c, e) {
        if e !in net.sent { EchoesExpected(c, node.held, p, e); }
      }
    }
  }

  lemma Round2EnvelopesExact(c: Config, held: Round1Map, p: PublicKey)
    requires AllHonest(c) && p in c.pubkeys && held == TrueRound1(c, p)
    ensures forall q :: q in c.pubkeys && q != p ==> c.pubkeys[q] in c.part2(p, held)
    ensures forall e :: e in Round2Envelopes(c, p, c.part2(p, held)) ==> Expected(c, e)
    ensures forall q :: q in c.pubkeys && q != p ==> Round2Msg(c, p, q) in Round2Envelopes(c, p, c.part2(p, held))
  {
    forall q | q in c.pubkeys && q != p ensures c.pubkeys[q] in c.part2(p, held) {
      assert c.pubkeys[q] in TrueRound1(c, p);
    }
  }

  lemma Round2SentExact(c: Config, sent: set<Envelope>, sent': set<Envelope>, p: PublicKey, q: PublicKey)
    requires AllHonest(c) && p in c.pubkeys && q in c.pubkeys && q != p
    requires SentExact(c, BetweenRounds, sent, p, q) && sent <= sent' && Round2Msg(c, p, q) in sent'
    ensures SentExact(c, CollectingRound2, sent', p, q)
  {
  }

  lemma SendRound2KeepsNodes(c: Config, net: Net, p: PublicKey, sent: set<Envelope>)
    requires AllHonest(c) && net.nodes.Keys == c.honest && TimelyNodes(c, net) && p in c.pubkeys
    requires net.nodes[p].phase.BetweenRounds? && net.sent <= sent
    requires forall q :: q in c.pubkeys && q != p ==> Round2Msg(c, p, q) in sent
    ensures TimelyNodes(c, Net(net.nodes[p := net.nodes[p].(phase := CollectingRound2)], sent, net.delivered))
  {
    assert TimelyNode(c, net.nodes[p], net.sent, net.delivered, p);
    hide Round1Exact, EchoExact, Round2Exact, SentExact, TimelyNodes, Round2For;
    forall q | q in c.pubkeys && q != p ensures SentExact(c, CollectingRound2, sent, p, q) {
      Round2SentExact(c, net.sent, sent, p, q);
    }
    MoveKeepsNodes(c, net, p, CollectingRound2, sent);
  }

  lemma SendRound2KeepsTimelyOk(c: Config, net: Net, p: PublicKey)
    requires AllHonest(c) && TimelyOk(c, net) && Timely(c, net, SendRound2(p))
    ensures TimelyOk(c, Apply(c, net, SendRound2(p)))
  {
    hide NetOk, TimelyNodes, Expected, Round2Envelopes, TimelyNode, Round2For;
    NodeFacts(c, net, p);
    var node, after := net.nodes[p], Apply(c, net, SendRound2(p));
    StepKeepsNetOk(c, net, SendRound2(p));
    BetweenHeld(c, net, p);
    Round2EnvelopesExact(c, node.held, p);
    SendRound2KeepsNodes(c, net, p, after.sent);
  }

  lemma BetweenHeld(c: Config, net: Net, p: PublicKey)
    requires AllHonest(c) && TimelyOk(c, net) && At(net, p, BetweenRounds)
    ensures p in c.pubkeys && net.nodes[p].held == TrueRound1(c, p)
  {
    hide TimelyOk, NetOk;
    NodeFacts(c, net, p);
    HeldIsTrue(c, net.nodes[p], p);
  }

  lemma TimelyStepKeepsOk(c: Config, net: Net, a: Action)
    requires AllHonest(c) && TimelyOk(c, net) && Timely(c, net, a)
    ensures TimelyOk(c, Apply(c, net, a))
  {
    hide TimelyOk, NetOk;
    match a
    case Deliver(e) => DeliverKeepsTimelyOk(c, net, e);
    case LeaveRound1(p) => LeaveRound1KeepsTimelyOk(c, net, p);
    case LeaveEchoes(p) => LeaveKeepsTimelyOk(c, net, p, BetweenRounds);
    case SendRound2(p) => SendRound2KeepsTimelyOk(c, net, p);
    case LeaveRound2(p) => LeaveKeepsTimelyOk(c, net, p, Finished);
  }

  lemma LeaveKeepsTimelyOk(c: Config, net: Net, p: PublicKey, phase: Phase)
    requires AllHonest(c) && TimelyOk(c, net) && p in net.nodes
    requires || (&& phase.BetweenRounds? && net.nodes[p].phase.CollectingEchoes?
                 && net.nodes[p].state.HasRound1BroadcastPackages())
             || (phase.Finished? && net.nodes[p].phase.CollectingRound2? && net.nodes[p].state.HasRound2Packages())
    ensures TimelyOk(c, net.(nodes := net.nodes[p := net.nodes[p].(phase := phase)]))
  {
    hide TimelyOk, NetOk, Round1Exact, EchoExact, Round2Exact, SentExact;
    NodeFacts(c, net, p);
    PhaseKeepsTimelyOk(c, net, p, phase);
  }

  lemma InitTimelyNode(c: Config, p: PublicKey)
    requires AllHonest(c) && p in c.pubkeys
    ensures TimelyNode(c, Init(c).nodes[p], Init(c).sent, {}, p)
  {
    var node, sent := Init(c).nodes[p], Init(c).sent;
    hide Round2For;
    forall q | q in c.pubkeys && q != p ensures SentExact(c, node.phase, sent, p, q) {
    }
  }

  lemma InitSentExpected(c: Config)
    requires AllHonest(c)
    ensures forall e :: e in Init(c).sent ==> Expected(c, e)
  {
  }

  lemma InitShape(c: Config)
    requires c.WellFormed()
    ensures Init(c).nodes.Keys == c.honest && Init(c).delivered == {}
  {
  }

  lemma InitTimelyOk(c: Config)
    requires AllHonest(c)
    ensures TimelyOk(c, Init(c))
  {
    hide Init, NetOk, TimelyNode, Expected;
    InitShape(c);
    InitOk(c);
    InitSentExpected(c);
    forall p | p in c.pubkeys
      ensures p in Init(c).nodes && TimelyNode(c, Init(c).nodes[p], Init(c).sent, Init(c).delivered, p)
    {
      InitTimelyNode(c, p);
    }
  }

  lemma {:induction false} TimelyRunKeepsOk(c: Config, actions: seq<Action>)
    requires AllHonest(c) && TimelyRun(c, actions)
    ensures TimelyOk(c, After(c, actions).value)
  {
    hide TimelyOk, Enabled, Apply, Init;
    if actions == [] {
      InitTimelyOk(c);
    } else {
      var front := actions[..|actions| - 1];
      TimelyRunKeepsOk(c, front);
      TimelyStepKeepsOk(c, After(c, front).value, actions[|actions| - 1]);
    }
  }

  // ---------------------------------------------------------------------
  // Completion
  // ---------------------------------------------------------------------

  /** The end that everybody should reach. */
  ghost predicate Done(c: Config, node: Node, p: PublicKey)
    requires AllHonest(c) && p in c.pubkeys
  {
    && node.phase.Finished?
    && node.held == TrueRound1(c, p)
    && node.state == Round2PackagesReady(c.pubkeys, TrueRound2(c, p))
  }

  lemma MessageIsSent(c: Config, net: Net, q: PublicKey, p: PublicKey)
    requires AllHonest(c) && TimelyOk(c, net) && p in c.pubkeys && q in c.pubkeys && p != q
    ensures q in net.nodes && SentExact(c, net.nodes[q].phase, net.sent, q, p)
  {
    hide TimelyOk, SentExact;
    NodeFacts(c, net, q);
  }

  lemma AllHeldFinishes(c: Config, node: Node, p: PublicKey)
    requires AllHonest(c) && p in c.pubkeys && SessionOk(c, node, p)
    requires forall q :: q in c.pubkeys && q != p ==> c.pubkeys[q] in node.held
    ensures FinishedRound1(node)
  {
    if !FinishedRound1(node) {
      forall k | k in Others(c.pubkeys, c.pubkeys[p]) ensures k in node.held {
        var q :| q in c.pubkeys && c.pubkeys[q] == k;
      }
    }
  }

  lemma DeliveryIsOrdered(c: Config, net: Net, e: Envelope)
    requires e in net.sent && e !in net.delivered && e.from != e.to
    requires e.to in net.nodes && PhaseTakes(net.nodes[e.to].phase, e.payload)
    ensures Ordered(c, net, Deliver(e))
  {
  }

  lemma LeavingIsOrdered(c: Config, net: Net, a: Action)
    requires !a.Deliver? && Enabled(c, net, a)
    ensures Ordered(c, net, a)
  {
  }

  lemma AllHeldLeaves(c: Config, net: Net, p: PublicKey)
    requires AllHonest(c) && TimelyOk(c, net) && At(net, p, CollectingRound1) && p in c.pubkeys
    requires forall q :: q in c.pubkeys && q != p ==> Round1Msg(c, q, p) in net.delivered
    ensures Ordered(c, net, LeaveRound1(p))
  {
    hide TimelyOk, SessionOk, HeldAuthentic, EchoExact, Round2Exact, SentExact, Ordered;
    NodeFacts(c, net, p);
    AllHeldFinishes(c, net.nodes[p], p);
    LeavingIsOrdered(c, net, LeaveRound1(p));
  }

  lemma Round1Progress(c: Config, net: Net, p: PublicKey)
    requires AllHonest(c) && TimelyOk(c, net) && At(net, p, CollectingRound1)
    ensures exists a :: Ordered(c, net, a)
  {
    hide TimelyOk, SessionOk, HeldAuthentic, Round1Exact, EchoExact, Round2Exact, Ordered;
    NodeFacts(c, net, p);
    if q :| q in c.pubkeys && q != p && Round1Msg(c, q, p) !in net.delivered {
      MessageIsSent(c, net, q, p);
      DeliveryIsOrdered(c, net, Round1Msg(c, q, p));
    } else {
      AllHeldLeaves(c, net, p);
    }
  }

  lemma AllEchoesComplete(c: Config, node: Node, p: PublicKey)
    requires AllHonest(c) && p in c.pubkeys && SessionOk(c, node, p)
    requires node.state.WaitingForRound1PackagesBroadcast?
    ensures exists q, r :: q in c.pubkeys && r in c.pubkeys && q != p && r != p && q != r
                           && !EchoTaken(c, node.state, q, r)
  {
    var round1, echoes := node.state.round1, node.state.echoes;
    OthersCount(c.pubkeys, c.pubkeys[p]);
    if EchoCount.AllPairs(round1.Keys) <= EchoCount.Pairs(echoes) {
      EchoCount.AllPairsComplete(round1, echoes);
    }
    var pair :| pair in EchoCount.AllPairs(round1.Keys) && pair !in EchoCount.Pairs(echoes);
    var r :| r in c.pubkeys && c.pubkeys[r] == pair.0;
    var q :| q in c.pubkeys && c.pubkeys[q] == pair.1;
    assert !EchoTaken(c, node.state, q, r);
  }

  lemma EchoProgress(c: Config, net: Net, p: PublicKey)
    requires AllHonest(c) && TimelyOk(c, net) && At(net, p, CollectingEchoes)
    requires forall q :: q in net.nodes ==> Rank(net.nodes[q].phase) >= 1
    ensures exists a :: Ordered(c, net, a)
  {
    hide TimelyOk, Ordered;
    NodeFacts(c, net, p);
    var node := net.nodes[p];
    if node.state.WaitingForRound1PackagesBroadcast? {
      AllEchoesComplete(c, node, p);
      var q, r :| q in c.pubkeys && r in c.pubkeys && q != p && r != p && q != r && !EchoTaken(c, node.state, q, r);
      MessageIsSent(c, net, q, p);
      assert EchoMsg(c, q, p, r) in net.sent;
      DeliveryIsOrdered(c, net, EchoMsg(c, q, p, r));
    } else {
      LeavingIsOrdered(c, net, LeaveEchoes(p));
    }
  }

  lemma AllRound2Ready(c: Config, node: Node, p: PublicKey)
    requires AllHonest(c) && p in c.pubkeys && SessionOk(c, node, p)
    requires node.state.WaitingForRound2Packages?
    ensures exists q :: q in c.pubkeys && q != p && c.pubkeys[q] !in node.state.round2
  {
    var k :| k in node.state.round1.Keys && k !in node.state.round2.Keys;
    var q :| q in c.pubkeys && c.pubkeys[q] == k;
  }

  lemma Round2Progress(c: Config, net: Net, p: PublicKey)
    requires AllHonest(c) && TimelyOk(c, net) && At(net, p, CollectingRound2)
    requires forall q :: q in net.nodes ==> Rank(net.nodes[q].phase) >= 3
    ensures exists a :: Ordered(c, net, a)
  {
    hide TimelyOk, Ordered;
    NodeFacts(c, net, p);
    var node := net.nodes[p];
    if node.state.WaitingForRound2Packages? {
      AllRound2Ready(c, node, p);
      var q :| q in c.pubkeys && q != p && c.pubkeys[q] !in node.state.round2;
      MessageIsSent(c, net, q, p);
      assert Round2Msg(c, q, p) in net.sent;
      DeliveryIsOrdered(c, net, Round2Msg(c, q, p));
    } else {
      LeavingIsOrdered(c, net, LeaveRound2(p));
    }
  }

  /** Until everybody has finished, some ordered step is possible. */
  lemma Progress(c: Config, net: Net)
    requires AllHonest(c) && TimelyOk(c, net)
    ensures (exists a :: Ordered(c, net, a)) || forall p :: p in c.pubkeys ==> At(net, p, Finished)
  {
    hide TimelyOk, Ordered;
    if p :| At(net, p, CollectingRound1) {
      Round1Progress(c, net, p);
    } else {
      forall p | p in net.nodes || p in c.pubkeys
        ensures p in net.nodes && Rank(net.nodes[p].phase) >= 1
      {
        NodeFacts(c, net, p);
        assert !At(net, p, CollectingRound1);
      }
      if p :| At(net, p, CollectingEchoes) {
        EchoProgress(c, net, p);
      } else if p :| At(net, p, BetweenRounds) {
        SendProgress(c, net, p);
      } else {
        forall p | p in net.nodes ensures Rank(net.nodes[p].phase) >= 3 {
          assert !At(net, p, CollectingEchoes) && !At(net, p, BetweenRounds);
        }
        if p :| At(net, p, CollectingRound2) {
          Round2Progress(c, net, p);
        } else {
          forall p | p in c.pubkeys ensures At(net, p, Finished) {
            assert !At(net, p, CollectingRound2);
          }
        }
      }
    }
  }

  lemma SendProgress(c: Config, net: Net, p: PublicKey)
    requires At(net, p, BetweenRounds)
    ensures exists a :: Ordered(c, net, a)
  {
    assert Ordered(c, net, SendRound2(p));
  }

  lemma TrueRound2At(c: Config, p: PublicKey, q: PublicKey)
    requires AllHonest(c) && p in c.pubkeys && q in c.pubkeys && q != p
    ensures c.pubkeys[q] in TrueRound2(c, p) && TrueRound2(c, p)[c.pubkeys[q]] == Round2For(c, q, p)
  {
  }

  lemma Round2IsTrue(c: Config, state: State, delivered: set<Envelope>, p: PublicKey)
    requires AllHonest(c) && p in c.pubkeys && state.Round2PackagesReady?
    requires state.round2.Keys == Others(c.pubkeys, c.pubkeys[p]) && Round2Exact(c, state, delivered, p)
    ensures state.round2 == TrueRound2(c, p)
  {
    hide Round2For;
    forall k | k in state.round2 ensures k in TrueRound2(c, p) && state.round2[k] == TrueRound2(c, p)[k] {
      var q :| q in c.pubkeys && c.pubkeys[q] == k;
      TrueRound2At(c, p, q);
    }
    forall k | k in TrueRound2(c, p) ensures k in state.round2 {
      var q :| q in c.pubkeys && q != p && c.pubkeys[q] == k;
      OtherIdentifier(c, p, q);
    }
  }

  lemma FinishedIsDone(c: Config, net: Net, p: PublicKey)
    requires AllHonest(c) && TimelyOk(c, net) && p in c.pubkeys && At(net, p, Finished)
    ensures Done(c, net.nodes[p], p)
  {
    hide TimelyOk, Round2Exact, EchoExact, Round1Exact, TrueRound2, TrueRound1;
    NodeFacts(c, net, p);
    HeldIsTrue(c, net.nodes[p], p);
    Round2IsTrue(c, net.nodes[p].state, net.delivered, p);
  }

  /** A timely run that cannot go on in the order of the phases is over: every
      participant has finished with exactly the other n-1 packages of each round. */
  lemma TimelyRunsEndWell(c: Config, actions: seq<Action>)
    requires AllHonest(c) && TimelyRun(c, actions)
    requires forall a :: !Ordered(c, After(c, actions).value, a)
    ensures forall p :: p in c.pubkeys ==>
              p in After(c, actions).value.nodes && Done(c, After(c, actions).value.nodes[p], p)
  {
    hide TimelyOk, Ordered;
    TimelyRunKeepsOk(c, actions);
    Progress(c, After(c, actions).value);
    forall p | p in c.pubkeys
      ensures p in After(c, actions).value.nodes && Done(c, After(c, actions).value.nodes[p], p)
    {
      FinishedIsDone(c, After(c, actions).value, p);
    }
  }

  // ---------------------------------------------------------------------
  // Timely runs are bounded
  // ---------------------------------------------------------------------

  ghost function AllMessages(c: Config): set<Envelope>
    requires AllHonest(c)
  {
    (set q, p | q in c.pubkeys && p in c.pubkeys && q != p :: Round1Msg(c, q, p))
    + (set q, p, r | q in c.pubkeys && p in c.pubkeys && r in c.pubkeys :: EchoMsg(c, q, p, r))
    + (set q, p | q in c.pubkeys && p in c.pubkeys && q != p :: Round2Msg(c, q, p))
  }

  ghost function Milestones(c: Config): set<(PublicKey, int)> {
    set p, r | p in c.pubkeys && 0 <= r < 4 :: (p, r)
  }

  ghost function Passed(c: Config, net: Net): set<(PublicKey, int)> {
    set p, r | p in c.pubkeys && p in net.nodes && 0 <= r < Rank(net.nodes[p].phase) :: (p, r)
  }

  ghost function Bound(c: Config): nat
    requires AllHonest(c)
  {
    |AllMessages(c)| + |Milestones(c)|
  }

  lemma DeliveredBounded(c: Config, net: Net)
    requires AllHonest(c) && TimelyOk(c, net)
    ensures |net.delivered| <= |AllMessages(c)|
    ensures |Passed(c, net)| <= |Milestones(c)|
  {
    hide NetOk, TimelyNodes;
    forall e | e in net.delivered ensures e in AllMessages(c) {
      assert Expected(c, e);
    }
    SubsetCount(net.delivered, AllMessages(c));
    PassedBounded(c, net);
  }

  lemma PassedBounded(c: Config, net: Net)
    ensures |Passed(c, net)| <= |Milestones(c)|
  {
    assert Passed(c, net) <= Milestones(c);
    SubsetCount(Passed(c, net), Milestones(c));
  }

  /** Moving a node to a later phase passes at least one more milestone. */
  lemma PhasePasses(c: Config, net: Net, after: Net, p: PublicKey, phase: Phase)
    requires p in c.pubkeys && p in net.nodes && Rank(phase) > Rank(net.nodes[p].phase)
    requires after.nodes == net.nodes[p := net.nodes[p].(phase := phase)]
    ensures |Passed(c, after)| > |Passed(c, net)|
  {
    assert Passed(c, net) <= Passed(c, after);
    assert (p, Rank(net.nodes[p].phase)) in Passed(c, after);
    assert (p, Rank(net.nodes[p].phase)) !in Passed(c, net);
    SubsetCount(Passed(c, net), Passed(c, after));
  }

  lemma SamePassed(c: Config, net: Net, after: Net)
    requires net.nodes.Keys == after.nodes.Keys
    requires forall p :: p in net.nodes ==> after.nodes[p].phase == net.nodes[p].phase
    ensures Passed(c, after) == Passed(c, net)
  {
  }

  lemma DeliverCounts(c: Config, net: Net, e: Envelope)
    requires AllHonest(c) && TimelyOk(c, net) && Timely(c, net, Deliver(e)) && net.nodes.Keys == c.honest
    ensures var after := Apply(c, net, Deliver(e));
            |after.delivered| == |net.delivered| + 1 && Passed(c, after) == Passed(c, net)
  {
    hide TimelyOk, Passed;
    TimelyStepKeepsOk(c, net, Deliver(e));
    NodeFacts(c, Apply(c, net, Deliver(e)), e.to);
    SamePassed(c, net, Apply(c, net, Deliver(e)));
  }

  lemma AfterSendRound2(c: Config, net: Net, p: PublicKey)
    requires AllHonest(c) && net.nodes.Keys == c.honest && At(net, p, BetweenRounds)
    requires net.nodes[p].held == TrueRound1(c, p)
    ensures Apply(c, net, SendRound2(p)).nodes == net.nodes[p := net.nodes[p].(phase := CollectingRound2)]
  {
    Round2EnvelopesExact(c, net.nodes[p].held, p);
  }


  /** Every ordered step hands over a message or passes a milestone. */
  lemma TimelyStepCounts(c: Config, net: Net, a: Action)
    requires AllHonest(c) && TimelyOk(c, net) && Timely(c, net, a) && net.nodes.Keys == c.honest
    ensures var after := Apply(c, net, a);
            |after.delivered| + |Passed(c, after)| > |net.delivered| + |Passed(c, net)|
  {
    hide TimelyOk, Passed;
    var after := Apply(c, net, a);
    match a
    case Deliver(e) => DeliverCounts(c, net, e);
    case LeaveRound1(p) => PhasePasses(c, net, after, p, after.nodes[p].phase);
    case LeaveEchoes(p) => PhasePasses(c, net, after, p, BetweenRounds);
    case SendRound2(p) =>
      BetweenHeld(c, net, p);
      AfterSendRound2(c, net, p);
      PhasePasses(c, net, after, p, CollectingRound2);
    case LeaveRound2(p) => PhasePasses(c, net, after, p, Finished);
  }

  /** No timely run takes more steps than there are messages and milestones. */
  lemma {:induction false} TimelyRunsAreBounded(c: Config, actions: seq<Action>)
    requires AllHonest(c) && TimelyRun(c, actions)
    ensures |actions| <= |After(c, actions).value.delivered| + |Passed(c, After(c, actions).value)|
    ensures |actions| <= Bound(c)
  {
    hide TimelyOk, Timely, Enabled, Apply, Passed, Init;
    if actions != [] {
      var front := actions[..|actions| - 1];
      TimelyRunsAreBounded(c, front);
      TimelyRunKeepsOk(c, front);
      TimelyStepCounts(c, After(c, front).value, actions[|actions| - 1]);
    }
    TimelyRunKeepsOk(c, actions);
    DeliveredBounded(c, After(c, actions).value);
  }

  /** A message that is handed over in the order of the phases is timely. */
  lemma OrderedIsTimely(c: Config, net: Net, a: Action)
    requires AllHonest(c) && TimelyOk(c, net) && Ordered(c, net, a)
    ensures net.nodes.Keys == c.honest && Timely(c, net, a)
  {
    hide TimelyOk, TimelyNode, Valid, HeldAuthentic, Round1Exact, EchoExact, Round2Exact, SentExact, Receive;
    if a.Deliver? {
      var e := a.envelope;
      NodeFacts(c, net, e.to);
      SentIsExpected(c, net, e);
      InOrder(c, net.nodes[e.to], net.sent, net.delivered, e);
    } else {
      HonestNodes(c, net);
    }
  }

  lemma SentIsExpected(c: Config, net: Net, e: Envelope)
    requires AllHonest(c) && TimelyOk(c, net) && e in net.sent
    ensures Expected(c, e)
  {
  }

  lemma HonestNodes(c: Config, net: Net)
    requires AllHonest(c) && TimelyOk(c, net)
    ensures net.nodes.Keys == c.honest
  {
  }

  lemma InOrder(c: Config, node: Node, sent: set<Envelope>, delivered: set<Envelope>, e: Envelope)
    requires AllHonest(c) && Expected(c, e) && e !in delivered && PhaseTakes(node.phase, e.payload)
    requires TimelyNode(c, node, sent, delivered, e.to) && SessionOk(c, node, e.to) && HeldAuthentic(c, node)
    ensures Takes(node.state, e.payload)
    ensures !Outruns(c, node.phase, Receive(c, node, e.to, e.from, e.payload).state)
  {
    hide SentExact, HeldAuthentic, SessionOk, Receive, Round1Exact, EchoExact, Round2Exact, Round2For;
    var p, q := e.to, e.from;
    match e.payload
    case Round1(_) => Round1Arrives(c, node, delivered, p, q);
    case Echo(_, _) =>
      var r :| r in c.pubkeys && r != q && r != p && e == EchoMsg(c, q, p, r);
      EchoIsAwaited(c, node, delivered, p, q, r);
      EchoArrives(c, node, delivered, p, q, r);
    case Round2(_) =>
      Round2IsAwaited(c, node, delivered, p, q);
  }

  lemma EchoIsAwaited(c: Config, node: Node, delivered: set<Envelope>, p: PublicKey, q: PublicKey, r: PublicKey)
    requires AllHonest(c) && p in c.pubkeys && q in c.pubkeys && r in c.pubkeys && q != p && r != p && q != r
    requires EchoExact(c, node.state, delivered, p) && EchoMsg(c, q, p, r) !in delivered
    requires PhaseFits(c, node) && node.phase.CollectingEchoes?
    ensures node.state.WaitingForRound1PackagesBroadcast?
  {
    assert !EchoTaken(c, node.state, q, r);
  }

  lemma Round2IsAwaited(c: Config, node: Node, delivered: set<Envelope>, p: PublicKey, q: PublicKey)
    requires AllHonest(c) && p in c.pubkeys && q in c.pubkeys && q != p && SessionOk(c, node, p)
    requires Round2Exact(c, node.state, delivered, p) && Round2Msg(c, q, p) !in delivered
    requires PhaseFits(c, node) && node.phase.CollectingRound2?
    ensures node.state.WaitingForRound2Packages?
  {
    OtherIdentifier(c, p, q);
  }

  /** Whatever happened so far, every timely run can be carried on until all
      participants are done; with the bound, phase order cannot fail to get there. */
  lemma {:induction false} TimelyRunsComplete(c: Config, actions: seq<Action>) returns (more: seq<Action>)
    requires AllHonest(c) && TimelyRun(c, actions)
    ensures TimelyRun(c, actions + more)
    ensures forall p :: p in c.pubkeys ==>
              && p in After(c, actions + more).value.nodes
              && Done(c, After(c, actions + more).value.nodes[p], p)
    decreases Bound(c) - |actions|
  {
    hide TimelyOk, Ordered, Timely, Enabled, Apply, Passed, Init, Done, Bound;
    TimelyRunsAreBounded(c, actions);
    if a :| Ordered(c, After(c, actions).value, a) {
      TimelyRunKeepsOk(c, actions);
      OrderedIsTimely(c, After(c, actions).value, a);
      ExtendRun(c, actions, a);
      TimelyRunsAreBounded(c, actions + [a]);
      var rest := TimelyRunsComplete(c, actions + [a]);
      more := [a] + rest;
      assert actions + more == (actions + [a]) + rest;
    } else {
      more := [];
      assert actions + more == actions;
      TimelyRunsEndWell(c, actions);
    }
  }

  lemma ExtendRun(c: Config, actions: seq<Action>, a: Action)
    requires AllHonest(c) && TimelyRun(c, actions) && Timely(c, After(c, actions).value, a)
    ensures TimelyRun(c, actions + [a])
  {
    hide Apply, Init;
    assert (actions + [a])[..|actions + [a]| - 1] == actions;
  }

  /** So every run in the order of the phases is timely. */
  lemma {:induction false} OrderedRunsAreTimely(c: Config, actions: seq<Action>)
    requires AllHonest(c) && OrderedRun(c, actions)
    ensures TimelyRun(c, actions)
  {
    hide TimelyOk, Ordered, Timely, Enabled, Apply, Init;
    if actions != [] {
      var front := actions[..|actions| - 1];
      OrderedRunsAreTimely(c, front);
      TimelyRunKeepsOk(c, front);
      OrderedIsTimely(c, After(c, front).value, actions[|actions| - 1]);
    }
  }
}
