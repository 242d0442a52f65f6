/** Three or more participants: when exactly the first two polling loops of the
    key-generation client are left well, read off what arrives. */
module DkgLoops {

  import opened Participants
  import opened DkgSession
  import opened EchoCount
  import opened Batches
  import opened DkgComms
  import opened DkgPolling

  ghost predicate NotFrom(pubkeys: map<PublicKey, Identifier>, self: Identifier, msgs: seq<Msg>) {
    forall m :: m in msgs && m.sender in pubkeys ==> pubkeys[m.sender] != self
  }

  /** The known participants among the senders. */
  ghost function Ids(pubkeys: map<PublicKey, Identifier>, msgs: seq<Msg>): set<Identifier> {
    set m | m in msgs && m.sender in pubkeys :: pubkeys[m.sender]
  }

  lemma IdsOfPrefix(pubkeys: map<PublicKey, Identifier>, self: Identifier, a: seq<Msg>, b: seq<Msg>, from: nat)
    requires from <= |a| && a <= b && NotFrom(pubkeys, self, b)
    ensures Ids(pubkeys, a[from..]) <= Ids(pubkeys, b[from..]) <= Others(pubkeys, self)
    ensures NotFrom(pubkeys, self, a)
  {
    assert forall m :: m in a[from..] ==> m in b[from..];
    assert forall m :: m in b[from..] ==> m in b;
    assert forall m :: m in a ==> m in b;
    assert forall m :: m in b && m.sender in pubkeys ==> pubkeys[m.sender] in pubkeys.Values;
  }

  lemma IdsNext(pubkeys: map<PublicKey, Identifier>, msgs: seq<Msg>, msg: Msg)
    ensures Ids(pubkeys, msgs + [msg]) ==
            Ids(pubkeys, msgs) + (if msg.sender in pubkeys then {pubkeys[msg.sender]} else {})
  {
    assert forall m :: m in msgs + [msg] <==> m in msgs || m == msg;
  }

  // ---------------------------------------------------------------------
  // The echo phase and what follows it
  // ---------------------------------------------------------------------

  /** Echoes a session in the echo phase still has to accept. */
  ghost function Outstanding(s: State): int
    requires s.WaitingForRound1PackagesBroadcast?
  {
    EchoesNeeded(|s.pubkeys|) - |Pairs(s.echoes)|
  }

  lemma SomeOutstanding(s: State, self: Identifier)
    requires Valid(s, self) && s.WaitingForRound1PackagesBroadcast?
    ensures Outstanding(s) > 0
  {
    OthersCount(s.pubkeys, self);
    PairsBound(s.round1, s.echoes, |s.pubkeys| - 1);
  }

  ghost predicate HasRound2From(s: State, ids: set<Identifier>) {
    (s.WaitingForRound2Packages? || s.Round2PackagesReady?) && s.round2.Keys == ids
  }

  lemma Round2Step(s: State, self: Identifier, msg: Msg)
    requires Valid(s, self) && (s.WaitingForRound2Packages? || s.Round2PackagesReady?)
    requires msg.sender in s.pubkeys ==> s.pubkeys[msg.sender] != self
    requires Recv(s, self, msg).1.Accepted?
    ensures var after := Recv(s, self, msg).0;
            && Valid(after, self) && after.pubkeys == s.pubkeys
            && msg.sender in s.pubkeys && HasRound2From(after, s.round2.Keys + {s.pubkeys[msg.sender]})
  {
    RecvKeepsValid(s, self, msg);
  }

  lemma LastEcho(s: State, self: Identifier, msg: Msg)
    requires Valid(s, self) && s.WaitingForRound1PackagesBroadcast?
    requires Recv(s, self, msg).1.Accepted? && Recv(s, self, msg).0.WaitingForRound2Packages?
    ensures HasRound2From(Recv(s, self, msg).0, {})
  {
  }

  /** What accepted messages do to a session in the echo phase: the first ones,
      as many as are outstanding, are echoes, and all later ones are Round 2
      packages, kept under the identifiers of their senders. */
  lemma {:induction false} EchoPhaseFlat(s: State, self: Identifier, msgs: seq<Msg>, need: nat)
    requires Valid(s, self) && s.WaitingForRound1PackagesBroadcast? && NotFrom(s.pubkeys, self, msgs)
    requires RecvAll(s, self, msgs).1.Accepted? && need == Outstanding(s)
    ensures var after := RecvAll(s, self, msgs).0;
            && Valid(after, self) && after.pubkeys == s.pubkeys
            && if |msgs| < need
               then after.WaitingForRound1PackagesBroadcast? && Outstanding(after) == need - |msgs|
               else HasRound2From(after, Ids(s.pubkeys, msgs[need..]))
  {
    hide Valid, Pairs, EchoesNeeded, Recv, Ids;
    SomeOutstanding(s, self);
    if msgs != [] {
      var front, last := msgs[..|msgs| - 1], msgs[|msgs| - 1];
      assert msgs == front + [last];
      assert last in msgs && forall m :: m in front ==> m in msgs;
      EchoPhaseFlat(s, self, front, need);
      var before := RecvAll(s, self, front).0;
      if before.WaitingForRound1PackagesBroadcast? {
        EchoStep(before, self, last);
        if |msgs| == need {
          LastEcho(before, self, last);
          NoIds(s.pubkeys, msgs[need..]);
        }
      } else {
        Round2Step(before, self, last);
        IdsNext(s.pubkeys, front[need..], last);
        assert msgs[need..] == front[need..] + [last];
      }
    }
  }

  lemma NoIds(pubkeys: map<PublicKey, Identifier>, msgs: seq<Msg>)
    requires msgs == []
    ensures Ids(pubkeys, msgs) == {}
  {
  }

  /** Past the echo phase, all Round 2 packages are in if and only if everybody
      else has sent one. */
  lemma ReadyExactly(s: State, self: Identifier, ids: set<Identifier>)
    requires Valid(s, self) && HasRound2From(s, ids)
    ensures s.WaitingForRound2Packages? <==> ids != Others(s.pubkeys, self)
  {
  }

  // ---------------------------------------------------------------------
  // The second loop
  // ---------------------------------------------------------------------

  /** Batch k is the one past which the echo phase is over, nothing is refused
      up to it, and some Round 2 package is still missing then. */
  ghost predicate EchoesEndInTime(s: State, self: Identifier, batches: seq<seq<Msg>>, k: nat)
    requires s.WaitingForRound1PackagesBroadcast?
  {
    && 0 < k <= |batches|
    && |Arrived(batches, k - 1)| < Outstanding(s) <= |Arrived(batches, k)|
    && Boundary(s, self, batches, k).1.Accepted?
    && Ids(s.pubkeys, Arrived(batches, k)[Outstanding(s)..]) != Others(s.pubkeys, self)
  }

  lemma ArrivedNotFrom(pubkeys: map<PublicKey, Identifier>, self: Identifier, batches: seq<seq<Msg>>, k: nat)
    requires k <= |batches| && NotFrom(pubkeys, self, Flatten(batches))
    ensures NotFrom(pubkeys, self, Arrived(batches, k))
  {
    assert batches[..|batches|] == batches;
    ArrivedPrefix(batches, k, |batches|);
    IdsOfPrefix(pubkeys, self, Arrived(batches, k), Flatten(batches), 0);
  }

  /** What has been accepted at a boundary was accepted at the earlier ones. */
  lemma AcceptedBefore(s: State, self: Identifier, batches: seq<seq<Msg>>, k: nat, l: nat)
    requires k <= l <= |batches| && Boundary(s, self, batches, l).1.Accepted?
    ensures Boundary(s, self, batches, k).1.Accepted?
  {
    if Boundary(s, self, batches, k).1.Rejected? {
      BoundaryStops(s, self, batches, k, l);
    }
  }

  lemma LeavingEchoesInTime(s: State, self: Identifier, batches: seq<seq<Msg>>, l: nat)
    requires Valid(s, self) && s.WaitingForRound1PackagesBroadcast? && NotFrom(s.pubkeys, self, Flatten(batches))
    requires l <= |batches| && Leaves(HaveEchoes, s, self, batches, l)
    ensures exists k: nat :: EchoesEndInTime(s, self, batches, k)
  {
    hide RecvAll, Valid, Arrived, Ids, Others, NotFrom, Outstanding;
    SomeOutstanding(s, self);
    ArrivedNotFrom(s.pubkeys, self, batches, l);
    EchoPhaseFlat(s, self, Arrived(batches, l), Outstanding(s));
    var k := ReachedAt(batches, l, Outstanding(s));
    AcceptedBefore(s, self, batches, k, l);
    ArrivedPrefix(batches, k, l);
    IdsOfPrefix(s.pubkeys, self, Arrived(batches, k), Arrived(batches, l), Outstanding(s));
    ReadyExactly(Boundary(s, self, batches, l).0, self, Ids(s.pubkeys, Arrived(batches, l)[Outstanding(s)..]));
    assert EchoesEndInTime(s, self, batches, k);
  }

  lemma InTimeLeavesEchoes(s: State, self: Identifier, batches: seq<seq<Msg>>, k: nat)
    requires Valid(s, self) && s.WaitingForRound1PackagesBroadcast? && NotFrom(s.pubkeys, self, Flatten(batches))
    requires EchoesEndInTime(s, self, batches, k)
    ensures Leaves(HaveEchoes, s, self, batches, k)
  {
    hide RecvAll, Valid, Arrived, Ids, Others, NotFrom, Outstanding;
    ArrivedNotFrom(s.pubkeys, self, batches, k);
    EchoPhaseFlat(s, self, Arrived(batches, k), Outstanding(s));
    ReadyExactly(Boundary(s, self, batches, k).0, self, Ids(s.pubkeys, Arrived(batches, k)[Outstanding(s)..]));
  }

  /** The second loop, from any session in the echo phase: it is left well if
      and only if, when the first batch is in with which the echo phase is over,
      nothing has been refused and somebody's Round 2 package is missing. */
  lemma EchoLoopExactly(s: State, self: Identifier, batches: seq<seq<Msg>>)
    requires Valid(s, self) && s.WaitingForRound1PackagesBroadcast? && NotFrom(s.pubkeys, self, Flatten(batches))
    ensures LeftWell(HaveEchoes, s, self, batches) <==> exists k: nat :: EchoesEndInTime(s, self, batches, k)
  {
    hide Leaves, EchoesEndInTime, Valid, NotFrom, Flatten;
    if LeftWell(HaveEchoes, s, self, batches) {
      var l :| 0 <= l <= |batches| && Leaves(HaveEchoes, s, self, batches, l);
      LeavingEchoesInTime(s, self, batches, l);
    }
    if k: nat :| EchoesEndInTime(s, self, batches, k) {
      InTimeLeavesEchoes(s, self, batches, k);
      EndInTimeBounds(s, self, batches, k);
    }
  }

  lemma EndInTimeBounds(s: State, self: Identifier, batches: seq<seq<Msg>>, k: nat)
    requires s.WaitingForRound1PackagesBroadcast? && EchoesEndInTime(s, self, batches, k)
    ensures k <= |batches|
  {
  }

  // ---------------------------------------------------------------------
  // The first loop
  // ---------------------------------------------------------------------

  /** The first t messages are the shortest prefix with one from everybody else. */
  ghost predicate AllHeardAt(pubkeys: map<PublicKey, Identifier>, self: Identifier, msgs: seq<Msg>, t: nat) {
    && 0 < t <= |msgs|
    && Ids(pubkeys, msgs[..t]) == Others(pubkeys, self) != Ids(pubkeys, msgs[..t - 1])
  }

  lemma {:induction false} AllHeardAtSomePoint(pubkeys: map<PublicKey, Identifier>, self: Identifier, msgs: seq<Msg>)
    returns (t: nat)
    requires NotFrom(pubkeys, self, msgs) && Ids(pubkeys, msgs) == Others(pubkeys, self) != {}
    ensures AllHeardAt(pubkeys, self, msgs, t)
  {
    hide NotFrom, Others;
    if msgs == [] {
      NoIds(pubkeys, msgs);
    } else {
      var front := msgs[..|msgs| - 1];
      assert msgs[..|msgs|] == msgs;
      if Ids(pubkeys, front) == Others(pubkeys, self) {
        IdsOfPrefix(pubkeys, self, front, msgs, 0);
        t := AllHeardAtSomePoint(pubkeys, self, front);
        assert front[..t] == msgs[..t] && front[..t - 1] == msgs[..t - 1];
      } else {
        t := |msgs|;
      }
    }
  }

  lemma FreshValid(pubkeys: map<PublicKey, Identifier>, self: Identifier)
    requires Injective(pubkeys) && self in pubkeys.Values && |pubkeys| > 2
    ensures Valid(Fresh(pubkeys), self) && Others(pubkeys, self) != {}
  {
    OthersCount(pubkeys, self);
  }

  lemma Round1Step(s: State, self: Identifier, msg: Msg)
    requires Valid(s, self) && s.WaitingForRound1Packages? && |s.pubkeys| > 2
    requires msg.sender in s.pubkeys ==> s.pubkeys[msg.sender] != self
    requires Recv(s, self, msg).1.Accepted?
    ensures var after := Recv(s, self, msg).0;
            && Valid(after, self) && after.pubkeys == s.pubkeys && msg.sender in s.pubkeys
            && var ids := s.round1.Keys + {s.pubkeys[msg.sender]};
               if ids == Others(s.pubkeys, self)
               then after.WaitingForRound1PackagesBroadcast? && after.echoes == map[]
               else after.WaitingForRound1Packages? && after.round1.Keys == ids
  {
    RecvKeepsValid(s, self, msg);
    OthersCount(s.pubkeys, self);
    SenderIsOther(s, self, msg.sender);
    var ids := s.round1.Keys + {s.pubkeys[msg.sender]};
    var round1 := s.round1[s.pubkeys[msg.sender] := msg.payload.round1];
    assert round1.Keys == ids && |round1| == |ids|;
    SubsetCount(ids, Others(s.pubkeys, self));
  }

  /** While somebody has not been heard, the session waits for Round 1 packages. */
  lemma {:induction false} Round1PhaseFlat(pubkeys: map<PublicKey, Identifier>, self: Identifier, msgs: seq<Msg>)
    requires Injective(pubkeys) && self in pubkeys.Values && |pubkeys| > 2 && NotFrom(pubkeys, self, msgs)
    requires RecvAll(Fresh(pubkeys), self, msgs).1.Accepted? && Ids(pubkeys, msgs) != Others(pubkeys, self)
    ensures var after := RecvAll(Fresh(pubkeys), self, msgs).0;
            && Valid(after, self) && after.pubkeys == pubkeys
            && after.WaitingForRound1Packages? && after.round1.Keys == Ids(pubkeys, msgs)
  {
    hide Recv, Valid, Others, Ids, Injective;
    FreshValid(pubkeys, self);
    if msgs == [] {
      NoIds(pubkeys, msgs);
    } else {
      var front, last := msgs[..|msgs| - 1], msgs[|msgs| - 1];
      assert msgs == front + [last];
      IdsOfPrefix(pubkeys, self, front, msgs, 0);
      assert front[0..] == front && msgs[0..] == msgs && last in msgs;
      Round1PhaseFlat(pubkeys, self, front);
      Round1Step(RecvAll(Fresh(pubkeys), self, front).0, self, last);
      IdsNext(pubkeys, front, last);
    }
  }

  /** With the last participant heard, the echo phase begins. */
  lemma AllHeardBeginsEchoes(pubkeys: map<PublicKey, Identifier>, self: Identifier, msgs: seq<Msg>)
    requires Injective(pubkeys) && self in pubkeys.Values && |pubkeys| > 2 && NotFrom(pubkeys, self, msgs)
    requires RecvAll(Fresh(pubkeys), self, msgs).1.Accepted? && AllHeardAt(pubkeys, self, msgs, |msgs|)
    ensures var after := RecvAll(Fresh(pubkeys), self, msgs).0;
            && Valid(after, self) && after.pubkeys == pubkeys
            && after.WaitingForRound1PackagesBroadcast? && Outstanding(after) == EchoesNeeded(|pubkeys|)
  {
    hide Recv, Valid, Others, Ids, Injective, EchoesNeeded, Pairs;
    var front, last := msgs[..|msgs| - 1], msgs[|msgs| - 1];
    assert msgs[..|msgs|] == msgs == front + [last] && last in msgs;
    IdsOfPrefix(pubkeys, self, front, msgs, 0);
    Round1PhaseFlat(pubkeys, self, front);
    var before := RecvAll(Fresh(pubkeys), self, front).0;
    Round1Step(before, self, last);
    IdsNext(pubkeys, front, last);
    FreshEchoPhase(Recv(before, self, last).0, self);
  }

  /** What accepted messages do to a fresh session: t Round 1 packages until
      everybody has been heard, then the echoes, then the Round 2 packages. */
  lemma FreshFlat(pubkeys: map<PublicKey, Identifier>, self: Identifier, msgs: seq<Msg>, t: nat)
    requires Injective(pubkeys) && self in pubkeys.Values && |pubkeys| > 2 && NotFrom(pubkeys, self, msgs)
    requires RecvAll(Fresh(pubkeys), self, msgs).1.Accepted? && AllHeardAt(pubkeys, self, msgs, t)
    ensures var after := RecvAll(Fresh(pubkeys), self, msgs).0;
            var last := t + EchoesNeeded(|pubkeys|);
            && Valid(after, self) && after.pubkeys == pubkeys
            && if |msgs| < last then after.WaitingForRound1PackagesBroadcast?
               else HasRound2From(after, Ids(pubkeys, msgs[last..]))
  {
    hide RecvAll, Valid, Others, Ids, Injective, EchoesNeeded, Outstanding;
    var s, a, b, need := Fresh(pubkeys), msgs[..t], msgs[t..], EchoesNeeded(|pubkeys|);
    assert msgs == a + b && a[..t] == a && a[..t - 1] == msgs[..t - 1];
    assert forall m :: m in b ==> m in msgs;
    IdsOfPrefix(pubkeys, self, a, msgs, 0);
    RecvAllConcat(s, self, a, b);
    AllHeardBeginsEchoes(pubkeys, self, a);
    EchoPhaseFlat(RecvAll(s, self, a).0, self, b, need);
    if |msgs| >= t + need {
      assert b[need..] == msgs[t + need..];
    }
  }

  /** Batch k is the one with which everybody has been heard, by the first t
      messages; nothing is refused up to it, and some echo or some Round 2
      package is still missing then. */
  ghost predicate Round1EndsInTime(pubkeys: map<PublicKey, Identifier>, self: Identifier,
                                   batches: seq<seq<Msg>>, k: nat, t: nat) {
    var last := t + EchoesNeeded(|pubkeys|);
    && 0 < k <= |batches|
    && AllHeardAt(pubkeys, self, Arrived(batches, k), t) && |Arrived(batches, k - 1)| < t
    && Boundary(Fresh(pubkeys), self, batches, k).1.Accepted?
    && (|Arrived(batches, k)| < last || Ids(pubkeys, Arrived(batches, k)[last..]) != Others(pubkeys, self))
  }

  lemma StillInTime(pubkeys: map<PublicKey, Identifier>, self: Identifier, batches: seq<seq<Msg>>, k: nat, l: nat,
                    t: nat)
    requires k <= l <= |batches| && 0 < k && |Arrived(batches, k - 1)| < t <= |Arrived(batches, k)|
    requires NotFrom(pubkeys, self, Arrived(batches, l)) && AllHeardAt(pubkeys, self, Arrived(batches, l), t)
    requires Boundary(Fresh(pubkeys), self, batches, l).1.Accepted?
    requires var last := t + EchoesNeeded(|pubkeys|);
             |Arrived(batches, l)| < last || Ids(pubkeys, Arrived(batches, l)[last..]) != Others(pubkeys, self)
    ensures Round1EndsInTime(pubkeys, self, batches, k, t)
  {
    hide RecvAll, Arrived, Ids, Others, EchoesNeeded, NotFrom;
    ArrivedPrefix(batches, k, l);
    var a, b, last := Arrived(batches, k), Arrived(batches, l), t + EchoesNeeded(|pubkeys|);
    assert a[..t] == b[..t] && a[..t - 1] == b[..t - 1];
    AcceptedBefore(Fresh(pubkeys), self, batches, k, l);
    if |a| >= last {
      IdsOfPrefix(pubkeys, self, a, b, last);
    }
  }

  lemma LeavingRound1InTime(pubkeys: map<PublicKey, Identifier>, self: Identifier, batches: seq<seq<Msg>>, l: nat)
    requires Injective(pubkeys) && self in pubkeys.Values && |pubkeys| > 2 && NotFrom(pubkeys, self, Flatten(batches))
    requires l <= |batches| && Leaves(HaveRound1, Fresh(pubkeys), self, batches, l)
    ensures exists k: nat, t: nat :: Round1EndsInTime(pubkeys, self, batches, k, t)
  {
    hide RecvAll, Valid, Arrived, Ids, Others, NotFrom, EchoesNeeded, Injective;
    var msgs := Arrived(batches, l);
    ArrivedNotFrom(pubkeys, self, batches, l);
    FreshValid(pubkeys, self);
    if Ids(pubkeys, msgs) != Others(pubkeys, self) {
      Round1PhaseFlat(pubkeys, self, msgs);
    }
    var t := AllHeardAtSomePoint(pubkeys, self, msgs);
    FreshFlat(pubkeys, self, msgs, t);
    var last := t + EchoesNeeded(|pubkeys|);
    if |msgs| >= last {
      ReadyExactly(Boundary(Fresh(pubkeys), self, batches, l).0, self, Ids(pubkeys, msgs[last..]));
    }
    var k := ReachedAt(batches, l, t);
    StillInTime(pubkeys, self, batches, k, l, t);
  }

  /** The session that an in-time first loop leaves: the client sends its own
      echoes if and only if not all echoes of the others are in by then. */
  lemma InTimeLeavesRound1(pubkeys: map<PublicKey, Identifier>, self: Identifier, batches: seq<seq<Msg>>, k: nat,
                           t: nat)
    requires Injective(pubkeys) && self in pubkeys.Values && |pubkeys| > 2 && NotFrom(pubkeys, self, Flatten(batches))
    requires Round1EndsInTime(pubkeys, self, batches, k, t)
    ensures k <= |batches| && Leaves(HaveRound1, Fresh(pubkeys), self, batches, k)
    ensures forall j :: 0 < j < k ==> !Leaves(HaveRound1, Fresh(pubkeys), self, batches, j)
    ensures Boundary(Fresh(pubkeys), self, batches, k).0.HasRound1BroadcastPackages() <==>
            |Arrived(batches, k)| >= t + EchoesNeeded(|pubkeys|)
  {
    hide RecvAll, Valid, Arrived, Ids, Others, NotFrom, EchoesNeeded, Injective;
    var msgs := Arrived(batches, k);
    ArrivedNotFrom(pubkeys, self, batches, k);
    FreshFlat(pubkeys, self, msgs, t);
    var last := t + EchoesNeeded(|pubkeys|);
    if |msgs| >= last {
      ReadyExactly(Boundary(Fresh(pubkeys), self, batches, k).0, self, Ids(pubkeys, msgs[last..]));
    }
    forall j | 0 < j < k ensures !Leaves(HaveRound1, Fresh(pubkeys), self, batches, j) {
      NotHeardYet(pubkeys, self, batches, j, k, t);
    }
  }

  lemma NotHeardYet(pubkeys: map<PublicKey, Identifier>, self: Identifier, batches: seq<seq<Msg>>, j: nat, k: nat,
                    t: nat)
    requires Injective(pubkeys) && self in pubkeys.Values && |pubkeys| > 2 && NotFrom(pubkeys, self, Flatten(batches))
    requires j < k && Round1EndsInTime(pubkeys, self, batches, k, t)
    ensures !Leaves(HaveRound1, Fresh(pubkeys), self, batches, j)
  {
    hide RecvAll, Valid, Arrived, Ids, Others, NotFrom, EchoesNeeded, Injective;
    var a, b := Arrived(batches, j), Arrived(batches, k);
    ArrivedPrefix(batches, j, k - 1);
    ArrivedPrefix(batches, k - 1, k);
    ArrivedNotFrom(pubkeys, self, batches, j);
    ArrivedNotFrom(pubkeys, self, batches, k);
    assert a <= b[..t - 1] && a[0..] == a && b[..t - 1][0..] == b[..t - 1] && b[..t][0..] == b[..t];
    IdsOfPrefix(pubkeys, self, b[..t], b, 0);
    IdsOfPrefix(pubkeys, self, b[..t - 1], b[..t], 0);
    IdsOfPrefix(pubkeys, self, a, b[..t - 1], 0);
    if Boundary(Fresh(pubkeys), self, batches, j).1.Accepted? {
      Round1PhaseFlat(pubkeys, self, a);
    }
  }

  /** The first loop: it is left well if and only if, when the batch is in with
      which everybody has been heard, nothing has been refused and some echo or
      somebody's Round 2 package is missing. */
  lemma FirstLoopExactly(pubkeys: map<PublicKey, Identifier>, self: Identifier, batches: seq<seq<Msg>>)
    requires Injective(pubkeys) && self in pubkeys.Values && |pubkeys| > 2 && NotFrom(pubkeys, self, Flatten(batches))
    ensures LeftWell(HaveRound1, Fresh(pubkeys), self, batches) <==>
            exists k: nat, t: nat :: Round1EndsInTime(pubkeys, self, batches, k, t)
  {
    hide Leaves, Round1EndsInTime, Valid, NotFrom, Flatten, Injective;
    if LeftWell(HaveRound1, Fresh(pubkeys), self, batches) {
      var l :| 0 <= l <= |batches| && Leaves(HaveRound1, Fresh(pubkeys), self, batches, l);
      LeavingRound1InTime(pubkeys, self, batches, l);
    }
    if k: nat, t: nat :| Round1EndsInTime(pubkeys, self, batches, k, t) {
      InTimeLeavesRound1(pubkeys, self, batches, k, t);
    }
  }

  // ---------------------------------------------------------------------
  // The last loop
  // ---------------------------------------------------------------------

  /** What accepted messages do to a session past the echo phase. */
  lemma {:induction false} Round2PhaseFlat(s: State, self: Identifier, msgs: seq<Msg>)
    requires Valid(s, self) && (s.WaitingForRound2Packages? || s.Round2PackagesReady?)
    requires NotFrom(s.pubkeys, self, msgs) && RecvAll(s, self, msgs).1.Accepted?
    ensures var after := RecvAll(s, self, msgs).0;
            && Valid(after, self) && after.pubkeys == s.pubkeys
            && HasRound2From(after, s.round2.Keys + Ids(s.pubkeys, msgs))
  {
    hide Valid, Recv, Ids;
    if msgs == [] {
      NoIds(s.pubkeys, msgs);
    } else {
      var front, last := msgs[..|msgs| - 1], msgs[|msgs| - 1];
      assert msgs == front + [last] && last in msgs && forall m :: m in front ==> m in msgs;
      Round2PhaseFlat(s, self, front);
      Round2Step(RecvAll(s, self, front).0, self, last);
      IdsNext(s.pubkeys, front, last);
    }
  }

  /** At boundary k everybody's Round 2 package is in, and nothing was refused. */
  ghost predicate AllRound2In(s: State, self: Identifier, batches: seq<seq<Msg>>, k: nat)
    requires s.WaitingForRound2Packages? || s.Round2PackagesReady?
  {
    && 0 < k <= |batches| && Boundary(s, self, batches, k).1.Accepted?
    && s.round2.Keys + Ids(s.pubkeys, Arrived(batches, k)) == Others(s.pubkeys, self)
  }

  lemma Round2LoopExactly(s: State, self: Identifier, batches: seq<seq<Msg>>)
    requires Valid(s, self) && (s.WaitingForRound2Packages? || s.Round2PackagesReady?)
    requires NotFrom(s.pubkeys, self, Flatten(batches))
    ensures LeftWell(HaveRound2, s, self, batches) <==> exists k: nat :: AllRound2In(s, self, batches, k)
  {
    hide RecvAll, Valid, Flatten, Arrived, NotFrom;
    forall k: nat | k <= |batches|
      ensures Leaves(HaveRound2, s, self, batches, k) <==> AllRound2In(s, self, batches, k)
    {
      if Boundary(s, self, batches, k).1.Accepted? {
        ArrivedNotFrom(s.pubkeys, self, batches, k);
        Round2PhaseFlat(s, self, Arrived(batches, k));
        ReadyExactly(Boundary(s, self, batches, k).0, self, s.round2.Keys + Ids(s.pubkeys, Arrived(batches, k)));
      }
    }
  }
}
