/** Batches of honest messages by which a session outruns the polling loops. */
module DkgOverrun {

  import opened Participants
  import opened DkgSession
  import opened DkgComms
  import opened DkgPolling

  /** Three participants: when the echoes of both others share the batch of
      their Round 1 packages, the session is past the echo phase before the
      client has looked, so the test that guards the client's own echoes is
      already true and it sends none. */
  lemma EarlyEchoesSkipOwn(pubkeys: map<PublicKey, Identifier>, a: PublicKey, b: PublicKey, c: PublicKey,
                           pb: Round1Package, pc: Round1Package)
    requires Injective(pubkeys) && pubkeys.Keys == {a, b, c} && a != b && b != c && a != c
    ensures var batch := [Msg(b, Round1(pb)), Msg(c, Round1(pc)),
                          Msg(b, Echo(pubkeys[c], pc)), Msg(c, Echo(pubkeys[b], pb))];
            var (s, outcome) := RecvAll(WaitingForRound1Packages(pubkeys, map[]), pubkeys[a], batch);
            outcome.Accepted? && s.HasRound1BroadcastPackages()
  {
    hide Recv, Injective;
    var s, self := WaitingForRound1Packages(pubkeys, map[]), pubkeys[a];
    var m1, m2 := Msg(b, Round1(pb)), Msg(c, Round1(pc));
    var m3, m4 := Msg(b, Echo(pubkeys[c], pc)), Msg(c, Echo(pubkeys[b], pb));
    BothRound1(pubkeys, a, b, c, pb, pc);
    BothEchoes(pubkeys, a, b, c, pb, pc);
    FourMessages(s, self, m1, m2, m3, m4);
  }

  lemma FourMessages(s: State, self: Identifier, m1: Msg, m2: Msg, m3: Msg, m4: Msg)
    requires var (s1, o1) := Recv(s, self, m1);
             var (s2, o2) := Recv(s1, self, m2);
             var (s3, o3) := Recv(s2, self, m3);
             o1.Accepted? && o2.Accepted? && o3.Accepted?
    ensures var s3 := Recv(Recv(Recv(s, self, m1).0, self, m2).0, self, m3).0;
            RecvAll(s, self, [m1, m2, m3, m4]) == Recv(s3, self, m4)
  {
    hide Recv;
    RecvAllNext(s, self, [], m1);
    RecvAllNext(s, self, [m1], m2);
    RecvAllNext(s, self, [m1, m2], m3);
    RecvAllNext(s, self, [m1, m2, m3], m4);
    assert [m1] + [m2] == [m1, m2] && [m1, m2] + [m3] == [m1, m2, m3] && [m1, m2, m3] + [m4] == [m1, m2, m3, m4];
  }

  lemma BothRound1(pubkeys: map<PublicKey, Identifier>, a: PublicKey, b: PublicKey, c: PublicKey,
                   pb: Round1Package, pc: Round1Package)
    requires Injective(pubkeys) && pubkeys.Keys == {a, b, c} && a != b && b != c && a != c
    ensures var r1: Round1Map := map[pubkeys[b] := pb];
            var r2: Round1Map := map[pubkeys[b] := pb, pubkeys[c] := pc];
            && Recv(WaitingForRound1Packages(pubkeys, map[]), pubkeys[a], Msg(b, Round1(pb))) ==
                 (WaitingForRound1Packages(pubkeys, r1), Accepted)
            && Recv(WaitingForRound1Packages(pubkeys, r1), pubkeys[a], Msg(c, Round1(pc))) ==
                 (WaitingForRound1PackagesBroadcast(pubkeys, r2, map[]), Accepted)
  {
    assert |pubkeys| == |pubkeys.Keys| == 3;
    var r1: Round1Map := map[pubkeys[b] := pb];
    assert |r1| == 1;
    var r2 := r1[pubkeys[c] := pc];
    assert |r2| == 2 && r2 == map[pubkeys[b] := pb, pubkeys[c] := pc];
  }

  lemma BothEchoes(pubkeys: map<PublicKey, Identifier>, a: PublicKey, b: PublicKey, c: PublicKey,
                   pb: Round1Package, pc: Round1Package)
    requires Injective(pubkeys) && pubkeys.Keys == {a, b, c} && a != b && b != c && a != c
    ensures var r2: Round1Map := map[pubkeys[b] := pb, pubkeys[c] := pc];
            var s2 := WaitingForRound1PackagesBroadcast(pubkeys, r2, map[]);
            var (s3, o3) := Recv(s2, pubkeys[a], Msg(b, Echo(pubkeys[c], pc)));
            && o3.Accepted?
            && Recv(s3, pubkeys[a], Msg(c, Echo(pubkeys[b], pb))) ==
                 (WaitingForRound2Packages(pubkeys, r2, map[]), Accepted)
  {
    var ib, ic := pubkeys[b], pubkeys[c];
    var r2: Round1Map := map[ib := pb, ic := pc];
    assert ib in pubkeys.Values && ic in pubkeys.Values;
    var e1: EchoMap := map[ic := map[ib := pc]];
    assert AddEcho(map[], ic, ib, pc) == e1;
    assert ib !in e1 && !EchoComplete(r2, e1);
    var e2: EchoMap := map[ic := map[ib := pc], ib := map[ic := pb]];
    assert AddEcho(e1, ib, ic, pb) == e2;
    assert e2.Keys == r2.Keys;
    assert EchoComplete(r2, e2);
  }

  /** Two participants: one batch with both messages of the other outruns the first loop. */
  lemma TwoPartyOverrun(pubkeys: map<PublicKey, Identifier>, a: PublicKey, b: PublicKey, p1: Round1Package,
                        p2: Round2Package)
    requires Injective(pubkeys) && pubkeys.Keys == {a, b} && a != b
    ensures RecvAll(WaitingForRound1Packages(pubkeys, map[]), pubkeys[a], [Msg(b, Round1(p1)), Msg(b, Round2(p2))]) ==
            (Round2PackagesReady(pubkeys, map[pubkeys[b] := p2]), Accepted)
  {
    var s, m1, m2 := WaitingForRound1Packages(pubkeys, map[]), Msg(b, Round1(p1)), Msg(b, Round2(p2));
    assert |pubkeys| == |pubkeys.Keys| == 2;
    var round1: Round1Map := map[pubkeys[b] := p1];
    assert |round1| == 1;
    RecvAllNext(s, pubkeys[a], [], m1);
    RecvAllNext(s, pubkeys[a], [m1], m2);
    assert Recv(s, pubkeys[a], m1).0 == WaitingForRound2Packages(pubkeys, round1, map[]);
  }

  /** So a first loop that meets that batch is never left. */
  lemma TwoPartyNeverLeaves(pubkeys: map<PublicKey, Identifier>, a: PublicKey, b: PublicKey,
                            p1: Round1Package, p2: Round2Package, later: seq<seq<Msg>>)
    requires Injective(pubkeys) && pubkeys.Keys == {a, b} && a != b
    ensures !LeftWell(HaveRound1, WaitingForRound1Packages(pubkeys, map[]), pubkeys[a],
                      [[Msg(b, Round1(p1)), Msg(b, Round2(p2))]] + later)
  {
    hide Injective;
    TwoPartyOverrun(pubkeys, a, b, p1, p2);
    OverrunFirstBatch(HaveRound1, WaitingForRound1Packages(pubkeys, map[]), pubkeys[a],
                      [Msg(b, Round1(p1)), Msg(b, Round2(p2))], later);
  }

  lemma OverrunFirstBatch(goal: Goal, s: State, self: Identifier, batch: seq<Msg>, later: seq<seq<Msg>>)
    requires goal != HaveRound2 && RecvAll(s, self, batch).0.Round2PackagesReady?
    ensures !LeftWell(goal, s, self, [batch] + later)
  {
    hide RecvAll;
    var batches := [batch] + later;
    NothingArrived(s, self, batches);
    BoundaryNext(s, self, batches, 0);
    OverrunNeverReturns(s, self, batches, 1);
    assert forall l :: 1 <= l <= |batches| ==> !Leaves(goal, s, self, batches, l);
  }

  lemma BothRound2(pubkeys: map<PublicKey, Identifier>, a: PublicKey, b: PublicKey, c: PublicKey,
                   round1: Round1Map, qb: Round2Package, qc: Round2Package)
    requires Injective(pubkeys) && pubkeys.Keys == {a, b, c} && a != b && b != c && a != c
    requires round1.Keys == {pubkeys[b], pubkeys[c]}
    ensures var r1: Round2Map := map[pubkeys[b] := qb];
            var r2: Round2Map := map[pubkeys[b] := qb, pubkeys[c] := qc];
            && Recv(WaitingForRound2Packages(pubkeys, round1, map[]), pubkeys[a], Msg(b, Round2(qb))) ==
                 (WaitingForRound2Packages(pubkeys, round1, r1), Accepted)
            && Recv(WaitingForRound2Packages(pubkeys, round1, r1), pubkeys[a], Msg(c, Round2(qc))) ==
                 (Round2PackagesReady(pubkeys, r2), Accepted)
  {
    var empty: Round2Map := map[];
    assert empty[pubkeys[b] := qb] == map[pubkeys[b] := qb];
    var r1: Round2Map := map[pubkeys[b] := qb];
    assert pubkeys[c] !in r1 && r1.Keys != round1.Keys;
    var r2: Round2Map := map[pubkeys[b] := qb, pubkeys[c] := qc];
    assert r1[pubkeys[c] := qc] == r2 && r2.Keys == round1.Keys;
  }

  /** Three participants at the second loop: the other two need only this
      client's echoes before they send Round 2, so their echoes and their
      Round 2 packages can share a batch, and then the loop is never left. */
  lemma EchoLoopOverrun(pubkeys: map<PublicKey, Identifier>, a: PublicKey, b: PublicKey, c: PublicKey,
                        pb: Round1Package, pc: Round1Package, qb: Round2Package, qc: Round2Package,
                        later: seq<seq<Msg>>)
    requires Injective(pubkeys) && pubkeys.Keys == {a, b, c} && a != b && b != c && a != c
    ensures var round1: Round1Map := map[pubkeys[b] := pb, pubkeys[c] := pc];
            var s := WaitingForRound1PackagesBroadcast(pubkeys, round1, map[]);
            var batch := [Msg(b, Echo(pubkeys[c], pc)), Msg(c, Echo(pubkeys[b], pb)),
                          Msg(b, Round2(qb)), Msg(c, Round2(qc))];
            && RecvAll(s, pubkeys[a], batch) ==
                 (Round2PackagesReady(pubkeys, map[pubkeys[b] := qb, pubkeys[c] := qc]), Accepted)
            && !LeftWell(HaveEchoes, s, pubkeys[a], [batch] + later)
  {
    hide Recv, RecvAll, Injective, LeftWell;
    var round1: Round1Map := map[pubkeys[b] := pb, pubkeys[c] := pc];
    var s, self := WaitingForRound1PackagesBroadcast(pubkeys, round1, map[]), pubkeys[a];
    var m1, m2 := Msg(b, Echo(pubkeys[c], pc)), Msg(c, Echo(pubkeys[b], pb));
    var m3, m4 := Msg(b, Round2(qb)), Msg(c, Round2(qc));
    BothEchoes(pubkeys, a, b, c, pb, pc);
    BothRound2(pubkeys, a, b, c, round1, qb, qc);
    FourMessages(s, self, m1, m2, m3, m4);
    OverrunFirstBatch(HaveEchoes, s, self, [m1, m2, m3, m4], later);
  }
}
