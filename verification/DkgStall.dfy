/** Three honest participants can stall without anybody misbehaving: a run that
    ends with one of them past its echoes, which it never sends. */
module DkgStall {

  import opened Participants
  import opened Wrappers
  import opened DkgSession
  import opened DkgNetwork
  import opened DkgCompletion
  import opened DkgOutcome
  import DkgOverrun

  ghost predicate Reaches(c: Config, actions: seq<Action>, net: Net) {
    c.WellFormed() && OnceRun(c, actions) && After(c, actions) == Some(net)
  }

  lemma OneMore(c: Config, actions: seq<Action>, net: Net, a: Action) returns (after: Net)
    requires Reaches(c, actions, net) && Once(c, net, a)
    ensures net.nodes.Keys == c.honest && after == Apply(c, net, a)
    ensures Reaches(c, actions + [a], after)
  {
    hide Apply, Init;
    assert (actions + [a])[..|actions + [a]| - 1] == actions;
    after := Apply(c, net, a);
  }

  ghost predicate Waiting(net: Net, e: Envelope) {
    e in net.sent && e !in net.delivered && e.from != e.to
  }

  /** One accepted message. */
  lemma HandOver(c: Config, actions: seq<Action>, net: Net, e: Envelope, next: State)
    returns (actions': seq<Action>, after: Net)
    requires Reaches(c, actions, net) && Waiting(net, e)
    requires e.to in net.nodes && Polling(net.nodes[e.to].phase) && e.to in c.pubkeys
    requires Recv(net.nodes[e.to].state, c.pubkeys[e.to], Msg(e.from, e.payload)) == (next, Accepted)
    ensures Reaches(c, actions', after)
    ensures after.sent == net.sent && after.delivered == net.delivered + {e} && after.nodes.Keys == net.nodes.Keys
    ensures after.nodes[e.to].state == next && after.nodes[e.to].phase == net.nodes[e.to].phase
    ensures forall p :: p in net.nodes && p != e.to ==> after.nodes[p] == net.nodes[p]
  {
    hide Recv, Init;
    actions' := actions + [Deliver(e)];
    after := OneMore(c, actions, net, Deliver(e));
  }

  lemma HandOverTwo(c: Config, actions: seq<Action>, net: Net, e: Envelope, f: Envelope, next: State)
    returns (actions': seq<Action>, after: Net)
    requires Reaches(c, actions, net) && Waiting(net, e) && Waiting(net, f) && e != f && e.to == f.to
    requires e.to in net.nodes && Polling(net.nodes[e.to].phase) && e.to in c.pubkeys
    requires var (middle, outcome) := Recv(net.nodes[e.to].state, c.pubkeys[e.to], Msg(e.from, e.payload));
             outcome.Accepted? && Recv(middle, c.pubkeys[e.to], Msg(f.from, f.payload)) == (next, Accepted)
    ensures Reaches(c, actions', after)
    ensures after.sent == net.sent && after.delivered == net.delivered + {e, f} && after.nodes.Keys == net.nodes.Keys
    ensures after.nodes[e.to].state == next && after.nodes[e.to].phase == net.nodes[e.to].phase
    ensures forall p :: p in net.nodes && p != e.to ==> after.nodes[p] == net.nodes[p]
  {
    hide Recv, Reaches;
    var middle := Recv(net.nodes[e.to].state, c.pubkeys[e.to], Msg(e.from, e.payload)).0;
    actions', after := HandOver(c, actions, net, e, middle);
    actions', after := HandOver(c, actions', after, f, next);
  }

  lemma Leave(c: Config, actions: seq<Action>, net: Net, p: PublicKey) returns (actions': seq<Action>, after: Net)
    requires Reaches(c, actions, net)
    requires At(net, p, CollectingRound1) && net.nodes[p].state.WaitingForRound1PackagesBroadcast?
    ensures Reaches(c, actions', after) && after.nodes.Keys == net.nodes.Keys && after.delivered == net.delivered
    ensures after.sent == net.sent + EchoEnvelopes(c, p, net.nodes[p].state.round1)
    ensures forall q :: q in net.nodes && q != p ==> after.nodes[q] == net.nodes[q]
  {
    hide Init;
    actions' := actions + [LeaveRound1(p)];
    after := OneMore(c, actions, net, LeaveRound1(p));
  }

  ghost predicate Three(c: Config, a: PublicKey, b: PublicKey, d: PublicKey) {
    AllHonest(c) && c.pubkeys.Keys == {a, b, d} && a != b && b != d && a != d
  }

  ghost function Gathered(c: Config, p: PublicKey): State
    requires AllHonest(c)
  {
    WaitingForRound1PackagesBroadcast(c.pubkeys, TrueRound1(c, p), map[])
  }

  lemma TrueRound1OfTwo(c: Config, p: PublicKey, q: PublicKey, r: PublicKey)
    requires Three(c, p, q, r)
    ensures TrueRound1(c, p) == map[c.pubkeys[q] := c.own[q], c.pubkeys[r] := c.own[r]]
  {
    var others: Round1Map := map[c.pubkeys[q] := c.own[q], c.pubkeys[r] := c.own[r]];
    assert c.pubkeys[q] in TrueRound1(c, p) && c.pubkeys[r] in TrueRound1(c, p);
    assert TrueRound1(c, p).Keys == others.Keys;
  }

  /** Everybody is in the first loop, and those in `done` have all Round 1 packages. */
  ghost predicate Collecting(c: Config, net: Net, done: set<PublicKey>)
    requires AllHonest(c)
  {
    && net.nodes.Keys == c.pubkeys.Keys
    && (forall p :: p in c.pubkeys ==>
          && net.nodes[p].phase == CollectingRound1
          && net.nodes[p].state == if p in done then Gathered(c, p) else WaitingForRound1Packages(c.pubkeys, map[]))
    && (forall p, q :: p in c.pubkeys && q in c.pubkeys && p != q ==> Round1Msg(c, q, p) in net.sent)
    && (forall e :: e in net.delivered ==> e.payload.Round1? && e.to in done)
  }

  lemma Start(c: Config) returns (net: Net)
    requires AllHonest(c)
    ensures Reaches(c, [], net) && Collecting(c, net, {})
  {
    net := Init(c);
  }

  /** p collects the Round 1 packages of both others. */
  lemma Collect(c: Config, actions: seq<Action>, net: Net, p: PublicKey, q: PublicKey, r: PublicKey,
                done: set<PublicKey>)
    returns (actions': seq<Action>, after: Net)
    requires Three(c, p, q, r) && Reaches(c, actions, net) && Collecting(c, net, done) && p !in done
    ensures Reaches(c, actions', after) && Collecting(c, after, done + {p})
  {
    hide Recv, Reaches, Injective, TrueRound1;
    DkgOverrun.BothRound1(c.pubkeys, p, q, r, c.own[q], c.own[r]);
    TrueRound1OfTwo(c, p, q, r);
    actions', after := HandOverTwo(c, actions, net, Round1Msg(c, q, p), Round1Msg(c, r, p), Gathered(c, p));
  }

  /** Everybody collects the Round 1 packages. */
  lemma AllCollect(c: Config, a: PublicKey, b: PublicKey, d: PublicKey) returns (actions: seq<Action>, net: Net)
    requires Three(c, a, b, d)
    ensures Reaches(c, actions, net) && Collecting(c, net, {a, b, d})
  {
    hide Reaches, Collecting, AllHonest;
    net := Start(c);
    actions, net := Collect(c, [], net, a, b, d, {});
    actions, net := Collect(c, actions, net, b, a, d, {} + {a});
    actions, net := Collect(c, actions, net, d, a, b, {} + {a} + {b});
    assert {} + {a} + {b} + {d} == {a, b, d};
  }

  /** b and d go on, and their echoes reach a before a has looked. */
  lemma EchoesReachFirst(c: Config, a: PublicKey, b: PublicKey, d: PublicKey) returns (actions: seq<Action>, net: Net)
    requires Three(c, a, b, d)
    ensures Reaches(c, actions, net)
    ensures At(net, a, CollectingRound1) && net.nodes[a].state.WaitingForRound2Packages?
  {
    hide Recv, Reaches, Injective, EchoEnvelopes, TrueRound1;
    actions, net := AllCollect(c, a, b, d);
    EchoSent(c, b, a, d);
    EchoSent(c, d, a, b);
    actions, net := Leave(c, actions, net, b);
    actions, net := Leave(c, actions, net, d);
    DkgOverrun.BothEchoes(c.pubkeys, a, b, d, c.own[b], c.own[d]);
    TrueRound1OfTwo(c, a, b, d);
    var next := WaitingForRound2Packages(c.pubkeys, TrueRound1(c, a), map[]);
    actions, net := HandOverTwo(c, actions, net, EchoMsg(c, b, a, d), EchoMsg(c, d, a, b), next);
  }

  lemma EchoSent(c: Config, p: PublicKey, q: PublicKey, r: PublicKey)
    requires Three(c, p, q, r)
    ensures EchoMsg(c, p, q, r) in EchoEnvelopes(c, p, TrueRound1(c, p))
  {
    var k := c.pubkeys[r];
    assert k != c.pubkeys[q];
    TrueRound1OfTwo(c, p, q, r);
    assert k in TrueRound1(c, p) && TrueRound1(c, p)[k] == c.own[r];
  }

  ghost predicate InEchoPhase(net: Net, p: PublicKey) {
    p in net.nodes && !LeftEchoes(net.nodes[p])
  }

  /** Three honest participants, each message handed over once: a can leave its
      first loop without its echoes, and then b and d never leave the echo phase. */
  lemma HonestRunCanStall(c: Config, a: PublicKey, b: PublicKey, d: PublicKey) returns (actions: seq<Action>)
    requires Three(c, a, b, d)
    ensures OnceRun(c, actions) && Silent(c, After(c, actions).value, a)
    ensures forall more :: After(c, actions + more).Some? ==>
              InEchoPhase(After(c, actions + more).value, b) && InEchoPhase(After(c, actions + more).value, d)
  {
    hide Init;
    var front, net := EchoesReachFirst(c, a, b, d);
    var after := OneMore(c, front, net, LeaveRound1(a));
    RunKeepsEchoesNotYet(c, front);
    assert |c.pubkeys| == |c.pubkeys.Keys| == 3;
    actions := front + [LeaveRound1(a)];
    forall more | After(c, actions + more).Some?
      ensures InEchoPhase(After(c, actions + more).value, b) && InEchoPhase(After(c, actions + more).value, d)
    {
      SilentStallsAll(c, actions, more, a, b);
      SilentStallsAll(c, actions, more, a, d);
    }
  }
}
