/** When exactly the polling loops of the key-generation client are left well. */
module DkgPolling {

  import opened Participants
  import opened DkgSession
  import opened Batches
  import opened DkgComms

  // ---------------------------------------------------------------------
  // A session that is ready too early
  // ---------------------------------------------------------------------

  lemma {:induction false} ReadyRefuses(s: State, self: Identifier, batch: seq<Msg>)
    requires s.Round2PackagesReady?
    ensures RecvAll(s, self, batch).0 == s
    ensures RecvAll(s, self, batch).1.Accepted? <==> batch == []
  {
    if batch != [] {
      ReadyRefuses(s, self, batch[..|batch| - 1]);
    }
  }

  /** A session that already has all Round 2 packages when one of the first two
      loops looks never lets that loop end, and any further message is an error. */
  lemma OverrunNeverReturns(s: State, self: Identifier, batches: seq<seq<Msg>>, k: nat)
    requires k <= |batches| && Boundary(s, self, batches, k).0.Round2PackagesReady?
    ensures forall l :: k <= l <= |batches| ==>
              && Boundary(s, self, batches, l).0 == Boundary(s, self, batches, k).0
              && !Leaves(HaveRound1, s, self, batches, l) && !Leaves(HaveEchoes, s, self, batches, l)
    ensures forall l :: k <= l <= |batches| ==>
              (Boundary(s, self, batches, l).1.Accepted? <==>
                 Boundary(s, self, batches, k).1.Accepted? && Arrived(batches, l) == Arrived(batches, k))
  {
    hide RecvAll;
    forall l | k <= l <= |batches|
      ensures Boundary(s, self, batches, l).0 == Boundary(s, self, batches, k).0
      ensures Boundary(s, self, batches, l).1.Accepted? <==>
                Boundary(s, self, batches, k).1.Accepted? && Arrived(batches, l) == Arrived(batches, k)
    {
      ArrivedPrefix(batches, k, l);
      var a, b := Arrived(batches, k), Arrived(batches, l)[|Arrived(batches, k)|..];
      assert Arrived(batches, l) == a + b;
      RecvAllConcat(s, self, a, b);
      ReadyRefuses(Boundary(s, self, batches, k).0, self, b);
    }
  }

  // ---------------------------------------------------------------------
  // Two participants
  // ---------------------------------------------------------------------

  ghost predicate FromOther(msgs: seq<Msg>, a: PublicKey) {
    forall m :: m in msgs ==> m.sender != a
  }

  function Fresh(pubkeys: map<PublicKey, Identifier>): State {
    WaitingForRound1Packages(pubkeys, map[])
  }

  /** What a participant's session accepts of the only other one: its Round 1
      package, then its Round 2 package, then nothing. */
  lemma {:induction false} TwoPartyAccepts(pubkeys: map<PublicKey, Identifier>, a: PublicKey, b: PublicKey,
                                           msgs: seq<Msg>)
    requires Injective(pubkeys) && pubkeys.Keys == {a, b} && a != b && FromOther(msgs, a)
    requires RecvAll(Fresh(pubkeys), pubkeys[a], msgs).1.Accepted?
    ensures var s := RecvAll(Fresh(pubkeys), pubkeys[a], msgs).0;
            && (msgs == [] ==> s == Fresh(pubkeys))
            && (|msgs| == 1 ==>
                  && msgs[0].sender == b && msgs[0].payload.Round1?
                  && s == WaitingForRound2Packages(pubkeys, map[pubkeys[b] := msgs[0].payload.round1], map[]))
            && (|msgs| > 1 ==> s.Round2PackagesReady?)
  {
    assert |pubkeys| == |pubkeys.Keys| == 2;
    if msgs != [] {
      var front, last := msgs[..|msgs| - 1], msgs[|msgs| - 1];
      assert forall m :: m in front ==> m in msgs;
      assert last in msgs;
      TwoPartyAccepts(pubkeys, a, b, front);
      if |msgs| == 1 {
        var round1: Round1Map := map[pubkeys[b] := last.payload.round1];
        assert |round1| == 1;
      }
    }
  }

  lemma OneRound1Accepted(pubkeys: map<PublicKey, Identifier>, a: PublicKey, b: PublicKey, pkg: Round1Package)
    requires Injective(pubkeys) && pubkeys.Keys == {a, b} && a != b
    ensures RecvAll(Fresh(pubkeys), pubkeys[a], [Msg(b, Round1(pkg))])
      == (WaitingForRound2Packages(pubkeys, map[pubkeys[b] := pkg], map[]), Accepted)
  {
    assert |pubkeys| == |pubkeys.Keys| == 2;
    var m := Msg(b, Round1(pkg));
    var round1: Round1Map := map[pubkeys[b] := pkg];
    assert |round1| == 1;
    RecvAllNext(Fresh(pubkeys), pubkeys[a], [], m);
  }

  /** The first batch that is not empty is the one Round 1 package of the other. */
  ghost predicate StartsWithRound1(batches: seq<seq<Msg>>, b: PublicKey, k: nat) {
    && 0 < k <= |batches| && Arrived(batches, k - 1) == []
    && |batches[k - 1]| == 1 && batches[k - 1][0].sender == b && batches[k - 1][0].payload.Round1?
  }

  lemma LeavingStartsWithRound1(pubkeys: map<PublicKey, Identifier>, a: PublicKey, b: PublicKey,
                                batches: seq<seq<Msg>>, l: nat)
    requires Injective(pubkeys) && pubkeys.Keys == {a, b} && a != b && FromOther(Flatten(batches), a)
    requires l <= |batches| && Leaves(HaveRound1, Fresh(pubkeys), pubkeys[a], batches, l)
    ensures exists k: nat :: StartsWithRound1(batches, b, k)
  {
    hide RecvAll, Injective, StartsWithRound1, Flatten;
    AllFromOther(batches, l, a);
    TwoPartyAccepts(pubkeys, a, b, Arrived(batches, l));
    FirstBatchIs(batches, b, l);
  }

  lemma FirstBatchIs(batches: seq<seq<Msg>>, b: PublicKey, l: nat)
    requires l <= |batches|
    requires var msgs := Arrived(batches, l); |msgs| == 1 && msgs[0].sender == b && msgs[0].payload.Round1?
    ensures exists k: nat :: StartsWithRound1(batches, b, k)
  {
    hide Arrived;
    var k := ReachedAt(batches, l, 1);
    ArrivedPrefix(batches, k, l);
    ArrivedNext(batches, k - 1);
    assert Arrived(batches, k - 1) == [] && Arrived(batches, k) == batches[k - 1] == Arrived(batches, l);
    assert StartsWithRound1(batches, b, k);
  }

  /** Two participants: the first loop is left well if and only if the first
      batch that is not empty consists of the other's Round 1 package alone. */
  lemma TwoPartyLoopExactly(pubkeys: map<PublicKey, Identifier>, a: PublicKey, b: PublicKey, batches: seq<seq<Msg>>)
    requires Injective(pubkeys) && pubkeys.Keys == {a, b} && a != b && FromOther(Flatten(batches), a)
    ensures LeftWell(HaveRound1, Fresh(pubkeys), pubkeys[a], batches) <==>
            exists k: nat :: StartsWithRound1(batches, b, k)
  {
    hide RecvAll, Injective, Flatten, Leaves;
    var s, self := Fresh(pubkeys), pubkeys[a];
    if LeftWell(HaveRound1, s, self, batches) {
      var l :| 0 <= l <= |batches| && Leaves(HaveRound1, s, self, batches, l);
      LeavingStartsWithRound1(pubkeys, a, b, batches, l);
    }
    if k: nat :| StartsWithRound1(batches, b, k) {
      StartLeaves(pubkeys, a, b, batches, k);
    }
  }

  lemma StartLeaves(pubkeys: map<PublicKey, Identifier>, a: PublicKey, b: PublicKey, batches: seq<seq<Msg>>, k: nat)
    requires Injective(pubkeys) && pubkeys.Keys == {a, b} && a != b && StartsWithRound1(batches, b, k)
    ensures Leaves(HaveRound1, Fresh(pubkeys), pubkeys[a], batches, k)
  {
    hide RecvAll, Injective, Flatten;
    ArrivedNext(batches, k - 1);
    var pkg := batches[k - 1][0].payload.round1;
    assert Arrived(batches, k) == [Msg(b, Round1(pkg))];
    OneRound1Accepted(pubkeys, a, b, pkg);
  }

  lemma AllFromOther(batches: seq<seq<Msg>>, k: nat, a: PublicKey)
    requires k <= |batches| && FromOther(Flatten(batches), a)
    ensures FromOther(Arrived(batches, k), a)
  {
    assert batches[..|batches|] == batches;
    ArrivedPrefix(batches, k, |batches|);
  }

  lemma RecvAllNext(s: State, self: Identifier, batch: seq<Msg>, msg: Msg)
    ensures RecvAll(s, self, batch + [msg]) ==
            if RecvAll(s, self, batch).1.Rejected? then RecvAll(s, self, batch)
            else Recv(RecvAll(s, self, batch).0, self, msg)
    ensures batch == [] ==> batch + [msg] == [msg]
  {
    assert (batch + [msg])[..|batch|] == batch;
  }
}
