/** What the messages themselves say about a key-generation session: which are
    refused and why, and which package of a sender is held. */
module DkgMessages {

  import opened Participants
  import opened Wrappers
  import opened DkgSession
  import opened DkgNetwork
  import opened EchoCount

  // ---------------------------------------------------------------------
  // Refusals
  // ---------------------------------------------------------------------

  predicate Known(s: State, sender: PublicKey, id: Identifier) {
    sender in s.pubkeys && s.pubkeys[sender] == id
  }

  /** In the echo phase: an echo is accepted exactly if it comes from a known sender,
      repeats the package held of a participant other than sender and receiver, and
      that sender has not echoed that participant before; it is then stored. */
  lemma EchoTakenExactly(s: State, self: Identifier, sender: PublicKey, k: Identifier, pkg: Round1Package)
    requires Valid(s, self) && s.WaitingForRound1PackagesBroadcast?
    ensures var (after, outcome) := Recv(s, self, Msg(sender, Echo(k, pkg)));
            && (outcome.Accepted? <==>
                  exists j :: Known(s, sender, j) && k != j && k != self && k in s.round1 && s.round1[k] == pkg
                              && !(k in s.echoes && j in s.echoes[k]))
            && (outcome.Accepted? && after.WaitingForRound1PackagesBroadcast? ==>
                  && k in after.echoes && s.pubkeys[sender] in after.echoes[k]
                  && after.echoes[k][s.pubkeys[sender]] == pkg)
  {
    if sender in s.pubkeys {
      assert Known(s, sender, s.pubkeys[sender]);
    }
  }

  /** Why an echo is refused, in the order in which the reasons are tried. */
  lemma WhyEchoRefused(s: State, self: Identifier, sender: PublicKey, k: Identifier, pkg: Round1Package)
    requires Valid(s, self) && s.WaitingForRound1PackagesBroadcast?
    ensures var outcome := Recv(s, self, Msg(sender, Echo(k, pkg))).1;
            && (outcome == Rejected(UnknownParticipant) <==> sender !in s.pubkeys || k !in s.pubkeys.Values)
            && (outcome == Rejected(OwnPackageEchoed) <==> sender in s.pubkeys && k == self)
            && (outcome == Rejected(RedundantEcho) <==> Known(s, sender, k) && k != self)
            && (outcome == Rejected(BroadcastMismatch) <==>
                  sender in s.pubkeys && !Known(s, sender, k) && k in s.round1 && s.round1[k] != pkg)
            && (outcome == Rejected(DuplicatedEcho) <==>
                  && sender in s.pubkeys && !Known(s, sender, k) && k in s.round1 && s.round1[k] == pkg
                  && k in s.echoes && s.pubkeys[sender] in s.echoes[k])
            && outcome != Rejected(PackageNotFound)
  {
    assert s.round1.Keys == s.pubkeys.Values - {self};
  }

  /** Every message of a kind that the state does not read is a parse error. A Round 1
      package is refused exactly from a sender that is not known, a Round 2 package also
      from oneself. */
  lemma WhyPackageRefused(s: State, self: Identifier, msg: Msg)
    requires Valid(s, self)
    ensures var outcome := Recv(s, self, msg).1;
            && (outcome == Rejected(WrongState) <==> s.Round2PackagesReady?)
            && (outcome == Rejected(ParseError) <==>
                  || (s.WaitingForRound1Packages? && !msg.payload.Round1?)
                  || (s.WaitingForRound1PackagesBroadcast? && !msg.payload.Echo?)
                  || (s.WaitingForRound2Packages? && !msg.payload.Round2?))
            && (s.WaitingForRound1Packages? && msg.payload.Round1? ==>
                  outcome == if msg.sender in s.pubkeys then Accepted else Rejected(UnknownParticipant))
            && (s.WaitingForRound2Packages? && msg.payload.Round2? ==>
                  outcome == if msg.sender in s.pubkeys && !Known(s, msg.sender, self) then Accepted
                             else Rejected(UnknownParticipant))
  {
    if msg.sender in s.pubkeys && s.pubkeys[msg.sender] != self {
      SenderIsOther(s, self, msg.sender);
    }
  }

  // ---------------------------------------------------------------------
  // The last package of a sender counts
  // ---------------------------------------------------------------------

  /** What a message brings in Round 1, if its sender is known. */
  function Round1By(pubkeys: map<PublicKey, Identifier>, msg: Msg): Option<(Identifier, Round1Package)> {
    if msg.payload.Round1? && msg.sender in pubkeys then Some((pubkeys[msg.sender], msg.payload.round1)) else None
  }

  function Round2By(pubkeys: map<PublicKey, Identifier>, msg: Msg): Option<(Identifier, Round2Package)> {
    if msg.payload.Round2? && msg.sender in pubkeys then Some((pubkeys[msg.sender], msg.payload.round2)) else None
  }

  /** Message i brings something of id, and no later message does. */
  ghost predicate LastOf<T>(brings: seq<Option<(Identifier, T)>>, i: int, id: Identifier) {
    && 0 <= i < |brings| && brings[i].Some? && brings[i].value.0 == id
    && forall j :: i < j < |brings| && brings[j].Some? ==> brings[j].value.0 != id
  }

  /** Of each sender that has brought something, exactly the last is held. */
  ghost predicate HoldsLast<T>(brings: seq<Option<(Identifier, T)>>, held: map<Identifier, T>) {
    && (forall i, id :: LastOf(brings, i, id) ==> id in held && held[id] == brings[i].value.1)
    && (forall id :: id in held ==> exists i :: LastOf(brings, i, id))
  }

  lemma HoldsLastNext<T>(brings: seq<Option<(Identifier, T)>>, held: map<Identifier, T>,
                         next: Option<(Identifier, T)>)
    requires HoldsLast(brings, held)
    ensures HoldsLast(brings + [next], if next.Some? then held[next.value.0 := next.value.1] else held)
  {
    var all, n := brings + [next], |brings|;
    var after := if next.Some? then held[next.value.0 := next.value.1] else held;
    assert forall j :: 0 <= j < n ==> all[j] == brings[j];
    forall i, id | LastOf(all, i, id) ensures id in after && after[id] == all[i].value.1 {
      if i < n {
        assert all[n] == next;
        forall j | i < j < n && brings[j].Some? ensures brings[j].value.0 != id {
          assert all[j].Some?;
        }
        assert LastOf(brings, i, id);
      }
    }
    forall id | id in after ensures exists i :: LastOf(all, i, id) {
      if next.Some? && next.value.0 == id {
        assert LastOf(all, n, id);
      } else {
        var i :| LastOf(brings, i, id);
        assert LastOf(all, i, id);
      }
    }
  }

  function Round1s(pubkeys: map<PublicKey, Identifier>, msgs: seq<Msg>): seq<Option<(Identifier, Round1Package)>> {
    seq(|msgs|, i requires 0 <= i < |msgs| => Round1By(pubkeys, msgs[i]))
  }

  function Round2s(pubkeys: map<PublicKey, Identifier>, msgs: seq<Msg>): seq<Option<(Identifier, Round2Package)>> {
    seq(|msgs|, i requires 0 <= i < |msgs| => Round2By(pubkeys, msgs[i]))
  }

  ghost function AllButLast(msgs: seq<Msg>): seq<Msg> {
    if msgs == [] then [] else msgs[..|msgs| - 1]
  }

  lemma Round1Feed(s: State, self: Identifier, msg: Msg)
    requires s.WaitingForRound1Packages?
    ensures var after, news := Recv(s, self, msg).0, Round1By(s.pubkeys, msg);
            && !after.Round2PackagesReady? && after.pubkeys == s.pubkeys
            && after.round1 == if news.Some? then s.round1[news.value.0 := news.value.1] else s.round1
  {
  }

  /** Until a new session has heard everybody, it holds of each sender the last
      Round 1 package that has arrived: a second one replaces the first. What it
      holds then is what it goes on with. */
  lemma {:induction false} LastRound1Counts(pubkeys: map<PublicKey, Identifier>, self: Identifier, msgs: seq<Msg>)
    requires Feed(WaitingForRound1Packages(pubkeys, map[]), self, AllButLast(msgs)).0.WaitingForRound1Packages?
    ensures var after := Feed(WaitingForRound1Packages(pubkeys, map[]), self, msgs).0;
            && !after.Round2PackagesReady? && after.pubkeys == pubkeys
            && HoldsLast(Round1s(pubkeys, msgs), after.round1)
  {
    hide Recv, HoldsLast, Round1By;
    var start := WaitingForRound1Packages(pubkeys, map[]);
    if msgs == [] {
      NothingHeld<Round1Package>();
    } else {
      var front, last := AllButLast(msgs), msgs[|msgs| - 1];
      FeedStays(start, self, front);
      LastRound1Counts(pubkeys, self, front);
      var before := Feed(start, self, front).0;
      Round1Feed(before, self, last);
      HoldsLastNext(Round1s(pubkeys, front), before.round1, Round1By(pubkeys, last));
      assert Round1s(pubkeys, msgs) == Round1s(pubkeys, front) + [Round1By(pubkeys, last)];
    }
  }

  lemma NothingHeld<T>()
    ensures HoldsLast<T>([], map[])
  {
  }

  /** A session that still waits for Round 1 packages has done so all along. */
  lemma FeedStays(s: State, self: Identifier, msgs: seq<Msg>)
    requires s.WaitingForRound1Packages? && Feed(s, self, msgs).0.WaitingForRound1Packages?
    ensures Feed(s, self, AllButLast(msgs)).0.WaitingForRound1Packages?
  {
  }

  lemma Round2Feed(s: State, self: Identifier, msg: Msg)
    requires Valid(s, self) && s.WaitingForRound2Packages?
    requires msg.sender in s.pubkeys ==> s.pubkeys[msg.sender] != self
    ensures var after, news := Recv(s, self, msg).0, Round2By(s.pubkeys, msg);
            && (after.WaitingForRound2Packages? || after.Round2PackagesReady?) && after.pubkeys == s.pubkeys
            && Valid(after, self)
            && after.round2 == if news.Some? then s.round2[news.value.0 := news.value.1] else s.round2
  {
    RecvKeepsValid(s, self, msg);
    if msg.sender in s.pubkeys {
      SenderIsOther(s, self, msg.sender);
    }
  }

  /** The same in Round 2: the packages a session ends with are the last ones of
      each sender up to the moment when everybody has sent one. */
  lemma {:induction false} LastRound2Counts(s: State, self: Identifier, msgs: seq<Msg>)
    requires Valid(s, self) && s.WaitingForRound2Packages? && s.round2 == map[]
    requires forall m :: m in msgs && m.sender in s.pubkeys ==> s.pubkeys[m.sender] != self
    requires Feed(s, self, AllButLast(msgs)).0.WaitingForRound2Packages?
    ensures var after := Feed(s, self, msgs).0;
            && Valid(after, self) && after.pubkeys == s.pubkeys
            && (after.WaitingForRound2Packages? || after.Round2PackagesReady?)
            && HoldsLast(Round2s(s.pubkeys, msgs), after.round2)
  {
    hide Recv, Valid, HoldsLast, Round2By;
    if msgs == [] {
      NothingHeld<Round2Package>();
    } else {
      var front, last := AllButLast(msgs), msgs[|msgs| - 1];
      assert forall m :: m in front ==> m in msgs;
      assert last in msgs;
      NeverBack(s, self, AllButLast(front));
      if Feed(s, self, AllButLast(front)).0.Round2PackagesReady? { ReadyStays(s, self, front); }
      LastRound2Counts(s, self, front);
      var before := Feed(s, self, front).0;
      Round2Feed(before, self, last);
      HoldsLastNext(Round2s(s.pubkeys, front), before.round2, Round2By(s.pubkeys, last));
      assert Round2s(s.pubkeys, msgs) == Round2s(s.pubkeys, front) + [Round2By(s.pubkeys, last)];
    }
  }

  lemma ReadyStays(s: State, self: Identifier, msgs: seq<Msg>)
    requires Feed(s, self, AllButLast(msgs)).0.Round2PackagesReady?
    ensures Feed(s, self, msgs).0.Round2PackagesReady?
  {
  }

  lemma {:induction false} NeverBack(s: State, self: Identifier, msgs: seq<Msg>)
    requires s.WaitingForRound2Packages?
    ensures var after := Feed(s, self, msgs).0; after.WaitingForRound2Packages? || after.Round2PackagesReady?
  {
    if msgs != [] {
      NeverBack(s, self, AllButLast(msgs));
    }
  }

  /** What is held when Round 1 ends is what the client echoes: to each other
      participant, the last package of every third one. */
  lemma EchoesAreLast(c: Config, p: PublicKey, self: Identifier, msgs: seq<Msg>,
                      q: PublicKey, k: Identifier, pkg: Round1Package)
    requires Feed(WaitingForRound1Packages(c.pubkeys, map[]), self, AllButLast(msgs)).0.WaitingForRound1Packages?
    requires Feed(WaitingForRound1Packages(c.pubkeys, map[]), self, msgs).0.WaitingForRound1PackagesBroadcast?
    ensures var round1 := Feed(WaitingForRound1Packages(c.pubkeys, map[]), self, msgs).0.round1;
            Envelope(p, q, Echo(k, pkg)) in EchoEnvelopes(c, p, round1) <==>
              && q in c.pubkeys && q != p && c.pubkeys[q] != k
              && exists i :: LastOf(Round1s(c.pubkeys, msgs), i, k) && msgs[i].payload == Round1(pkg)
  {
    hide Feed;
    LastRound1Counts(c.pubkeys, self, msgs);
    var round1 := Feed(WaitingForRound1Packages(c.pubkeys, map[]), self, msgs).0.round1;
    if k in round1 {
      var i :| LastOf(Round1s(c.pubkeys, msgs), i, k);
    }
  }
}
