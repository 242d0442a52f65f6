/** How many echoes the echo broadcast takes: with n participants, a session
    leaves the echo phase on its (n-1)(n-2)-th accepted echo, never on another. */
module EchoCount {

  import opened Participants
  import opened DkgSession

  /** The (original sender, echoing sender) pairs that are stored. */
  ghost function Pairs(echoes: EchoMap): set<(Identifier, Identifier)> {
    set k, j | k in echoes && j in echoes[k] :: (k, j)
  }

  ghost function AllPairs(ids: set<Identifier>): set<(Identifier, Identifier)> {
    set k, j | k in ids && j in ids && j != k :: (k, j)
  }

  /** Echoes a participant among n must accept. */
  function EchoesNeeded(n: nat): nat {
    (n - 1) * (n - 2)
  }

  ghost function From(x: Identifier, ids: set<Identifier>): set<(Identifier, Identifier)> {
    set j | j in ids :: (x, j)
  }

  ghost function To(x: Identifier, ids: set<Identifier>): set<(Identifier, Identifier)> {
    set j | j in ids :: (j, x)
  }

  lemma {:induction false} FromToCount(x: Identifier, ids: set<Identifier>)
    ensures |From(x, ids)| == |To(x, ids)| == |ids|
  {
    if ids != {} {
      var y :| y in ids;
      FromToCount(x, ids - {y});
      assert From(x, ids) == From(x, ids - {y}) + {(x, y)};
      assert To(x, ids) == To(x, ids - {y}) + {(y, x)};
    }
  }

  lemma AllPairsSplit(ids: set<Identifier>, x: Identifier)
    requires x in ids
    ensures AllPairs(ids) == AllPairs(ids - {x}) + (From(x, ids - {x}) + To(x, ids - {x}))
    ensures AllPairs(ids - {x}) !! From(x, ids - {x}) + To(x, ids - {x})
    ensures From(x, ids - {x}) !! To(x, ids - {x})
  {
    var rest := ids - {x};
    forall p | p in AllPairs(ids) ensures p in AllPairs(rest) + (From(x, rest) + To(x, rest)) {
      if p.0 == x { assert p.1 in rest; } else if p.1 == x { assert p.0 in rest; }
    }
  }

  lemma {:induction false} AllPairsCount(ids: set<Identifier>)
    ensures |AllPairs(ids)| == |ids| * (|ids| - 1)
  {
    if ids == {} {
      assert AllPairs(ids) == {};
    } else {
      var x :| x in ids;
      var m := |ids - {x}|;
      AllPairsCount(ids - {x});
      FromToCount(x, ids - {x});
      AllPairsSplit(ids, x);
      assert |AllPairs(ids)| == m * (m - 1) + (m + m) == (m + 1) * m;
      assert |ids| == m + 1;
    }
  }

  lemma CompleteHasAllPairs(round1: Round1Map, echoes: EchoMap)
    requires EchoesValid(round1, echoes) && EchoComplete(round1, echoes)
    ensures AllPairs(round1.Keys) <= Pairs(echoes)
  {
    forall p | p in AllPairs(round1.Keys) ensures p in Pairs(echoes) {
      assert p.1 in echoes[p.0].Keys + {p.0};
    }
  }

  lemma AllPairsMeanEchoes(round1: Round1Map, echoes: EchoMap)
    requires AllPairs(round1.Keys) <= Pairs(echoes)
    ensures forall k, j :: k in round1 && j in round1 && j != k ==> k in echoes && j in echoes[k]
  {
    forall k, j | k in round1 && j in round1 && j != k ensures k in echoes && j in echoes[k] {
      assert (k, j) in AllPairs(round1.Keys);
      assert (k, j) in Pairs(echoes);
    }
  }

  lemma EchoedByAllOthers(round1: Round1Map, echoes: EchoMap, k: Identifier)
    requires EchoesValid(round1, echoes) && |round1| >= 2 && k in round1
    requires forall j :: j in round1 && j != k ==> k in echoes && j in echoes[k]
    ensures k in echoes && echoes[k].Keys + {k} == round1.Keys
  {
    AnotherElement(round1.Keys, k);
    var j :| j in round1.Keys && j != k;
    assert k in echoes;
    forall i | i in echoes[k].Keys + {k} ensures i in round1.Keys {
    }
    forall i | i in round1.Keys ensures i in echoes[k].Keys + {k} {
    }
  }

  lemma CompleteFrom(round1: Round1Map, echoes: EchoMap)
    requires EchoesValid(round1, echoes)
    requires forall k :: k in round1 ==> k in echoes && echoes[k].Keys + {k} == round1.Keys
    ensures EchoComplete(round1, echoes)
  {
    assert echoes.Keys == round1.Keys;
  }

  lemma AllPairsComplete(round1: Round1Map, echoes: EchoMap)
    requires EchoesValid(round1, echoes) && |round1| >= 2
    requires AllPairs(round1.Keys) <= Pairs(echoes)
    ensures EchoComplete(round1, echoes)
  {
    hide Pairs, AllPairs, EchoComplete, EchoesValid;
    AllPairsMeanEchoes(round1, echoes);
    forall k | k in round1 ensures k in echoes && echoes[k].Keys + {k} == round1.Keys {
      EchoedByAllOthers(round1, echoes, k);
    }
    CompleteFrom(round1, echoes);
  }

  lemma AnotherElement<T>(s: set<T>, x: T)
    requires |s| >= 2
    ensures exists y :: y in s && y != x
  {
    if s <= {x} {
      SubsetCount(s, {x});
    }
  }

  lemma AddedPairs(echoes: EchoMap, k: Identifier, j: Identifier, pkg: Round1Package)
    ensures Pairs(AddEcho(echoes, k, j, pkg)) == Pairs(echoes) + {(k, j)}
  {
    var added := AddEcho(echoes, k, j, pkg);
    forall p | p in Pairs(added) ensures p in Pairs(echoes) + {(k, j)} {
      if p.0 == k && p.1 != j { assert p.1 in echoes[k]; }
    }
    forall p | p in Pairs(echoes) + {(k, j)} ensures p in Pairs(added) {
      if p != (k, j) { assert p.0 in added && p.1 in added[p.0]; }
    }
  }

  lemma NewEchoAddsPair(echoes: EchoMap, k: Identifier, j: Identifier, pkg: Round1Package)
    requires k in echoes ==> j !in echoes[k]
    ensures |Pairs(AddEcho(echoes, k, j, pkg))| == |Pairs(echoes)| + 1
  {
    AddedPairs(echoes, k, j, pkg);
    hide AddEcho;
    assert (k, j) !in Pairs(echoes);
  }

  /** With at least two other participants, completeness is having all pairs. */
  lemma CompleteMeansAllPairs(round1: Round1Map, echoes: EchoMap)
    requires EchoesValid(round1, echoes) && |round1| >= 2
    ensures EchoComplete(round1, echoes) <==> Pairs(echoes) == AllPairs(round1.Keys)
  {
    assert Pairs(echoes) <= AllPairs(round1.Keys);
    if EchoComplete(round1, echoes) {
      CompleteHasAllPairs(round1, echoes);
    } else if AllPairs(round1.Keys) <= Pairs(echoes) {
      AllPairsComplete(round1, echoes);
    }
  }

  lemma PairsBound(round1: Round1Map, echoes: EchoMap, m: nat)
    requires EchoesValid(round1, echoes) && m == |round1| >= 2
    ensures |Pairs(echoes)| <= m * (m - 1)
    ensures EchoComplete(round1, echoes) <==> |Pairs(echoes)| == m * (m - 1)
  {
    CompleteMeansAllPairs(round1, echoes);
    assert |round1.Keys| == m;
    AllPairsCount(round1.Keys);
    SubsetCount(Pairs(echoes), AllPairs(round1.Keys));
  }

  /** An accepted echo adds exactly one pair, and the session advances exactly
      when that pair is the last one. */
  lemma AcceptedEchoAddsOnePair(s: State, self: Identifier, msg: Msg)
    requires Valid(s, self) && s.WaitingForRound1PackagesBroadcast?
    requires msg.sender in s.pubkeys ==> s.pubkeys[msg.sender] != self
    requires Recv(s, self, msg).1.Accepted?
    ensures var s' := Recv(s, self, msg).0;
            if s'.WaitingForRound1PackagesBroadcast?
            then |Pairs(s'.echoes)| == |Pairs(s.echoes)| + 1 < EchoesNeeded(|s.pubkeys|)
            else s'.WaitingForRound2Packages? && |Pairs(s.echoes)| + 1 == EchoesNeeded(|s.pubkeys|)
  {
    hide EchoesValid, EchoComplete, Repeats, Pairs;
    var k, j, pkg := msg.payload.original, s.pubkeys[msg.sender], msg.payload.echoed;
    SenderIsOther(s, self, msg.sender);
    AddEchoKeepsValid(s.round1, s.echoes, k, j, pkg);
    NewEchoAddsPair(s.echoes, k, j, pkg);
    OthersCount(s.pubkeys, self);
    PairsBound(s.round1, AddEcho(s.echoes, k, j, pkg), |s.pubkeys| - 1);
  }

  /** Feeds messages to a session one by one, and counts the echoes it accepts
      while it is in the echo phase. */
  ghost function Feed(s: State, self: Identifier, msgs: seq<Msg>): (State, nat) {
    if msgs == [] then (s, 0)
    else
      var (before, count) := Feed(s, self, msgs[..|msgs| - 1]);
      var (after, outcome) := Recv(before, self, msgs[|msgs| - 1]);
      (after, if before.WaitingForRound1PackagesBroadcast? && outcome.Accepted? then count + 1 else count)
  }

  lemma EchoStep(s: State, self: Identifier, msg: Msg)
    requires Valid(s, self) && s.WaitingForRound1PackagesBroadcast?
    requires msg.sender in s.pubkeys ==> s.pubkeys[msg.sender] != self
    ensures var (after, outcome) := Recv(s, self, msg);
            var count := |Pairs(s.echoes)| + 1;
            && after.pubkeys == s.pubkeys && Valid(after, self)
            && if !outcome.Accepted? then after == s
               else if count < EchoesNeeded(|s.pubkeys|)
               then after.WaitingForRound1PackagesBroadcast? && |Pairs(after.echoes)| == count
               else count == EchoesNeeded(|s.pubkeys|) && after.WaitingForRound2Packages?
  {
    RecvKeepsValid(s, self, msg);
    if Recv(s, self, msg).1.Accepted? {
      AcceptedEchoAddsOnePair(s, self, msg);
    } else {
      RejectedMeansUnchanged(s, self, msg);
    }
  }

  lemma LaterStep(s: State, self: Identifier, msg: Msg)
    requires Valid(s, self) && (s.WaitingForRound2Packages? || s.Round2PackagesReady?)
    requires msg.sender in s.pubkeys ==> s.pubkeys[msg.sender] != self
    ensures var after := Recv(s, self, msg).0;
            && Valid(after, self) && after.pubkeys == s.pubkeys
            && (after.WaitingForRound2Packages? || after.Round2PackagesReady?)
  {
    RecvKeepsValid(s, self, msg);
  }

  lemma FreshEchoPhase(s: State, self: Identifier)
    requires Valid(s, self) && s.WaitingForRound1PackagesBroadcast? && s.echoes == map[]
    ensures |Pairs(s.echoes)| == 0 < EchoesNeeded(|s.pubkeys|)
  {
    assert Pairs(s.echoes) == {};
  }

  /** From the moment it enters the echo phase, and whatever arrives, a session
      is still in that phase if and only if it has accepted fewer than
      (n-1)(n-2) echoes; and it never accepts more. */
  lemma {:induction false} ExactEchoCount(s: State, self: Identifier, msgs: seq<Msg>)
    requires Valid(s, self) && s.WaitingForRound1PackagesBroadcast? && s.echoes == map[]
    requires forall i :: 0 <= i < |msgs| && msgs[i].sender in s.pubkeys ==> s.pubkeys[msgs[i].sender] != self
    ensures var (after, count) := Feed(s, self, msgs);
            && Valid(after, self) && after.pubkeys == s.pubkeys
            && count <= EchoesNeeded(|s.pubkeys|)
            && !after.WaitingForRound1Packages?
            && (after.WaitingForRound1PackagesBroadcast? <==> count < EchoesNeeded(|s.pubkeys|))
            && (after.WaitingForRound1PackagesBroadcast? ==> |Pairs(after.echoes)| == count)
  {
    hide Valid, Pairs, EchoesNeeded, RecvRound1, RecvEcho, RecvRound2;
    if msgs == [] {
      FreshEchoPhase(s, self);
    } else {
      var front, last := msgs[..|msgs| - 1], msgs[|msgs| - 1];
      ExactEchoCount(s, self, front);
      var before := Feed(s, self, front).0;
      if before.WaitingForRound1PackagesBroadcast? {
        EchoStep(before, self, last);
      } else {
        LaterStep(before, self, last);
      }
    }
  }
}
