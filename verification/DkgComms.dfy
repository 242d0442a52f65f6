/** The key-generation client around a session: what it sends, and the loops
    that poll the server batch by batch. */
module DkgComms {

  import opened Participants
  import opened Wrappers
  import opened DkgSession
  import opened DkgNetwork
  import opened Batches

  // ---------------------------------------------------------------------
  // One batch
  // ---------------------------------------------------------------------

  /** A batch is fed to the session in order, up to the first refusal. */
  function RecvAll(s: State, self: Identifier, batch: seq<Msg>): (State, Outcome) {
    if batch == [] then (s, Accepted)
    else
      var (before, outcome) := RecvAll(s, self, batch[..|batch| - 1]);
      if outcome.Rejected? then (before, outcome) else Recv(before, self, batch[|batch| - 1])
  }

  /** What a polling loop waits for. */
  datatype Goal = HaveRound1 | HaveEchoes | HaveRound2

  predicate Reached(goal: Goal, s: State) {
    match goal
    case HaveRound1 => s.HasRound1Packages()
    case HaveEchoes => s.HasRound1BroadcastPackages()
    case HaveRound2 => s.HasRound2Packages()
  }

  /** The session after the first k batches. */
  function Boundary(s: State, self: Identifier, batches: seq<seq<Msg>>, k: nat): (State, Outcome)
    requires k <= |batches|
  {
    RecvAll(s, self, Arrived(batches, k))
  }

  ghost predicate Leaves(goal: Goal, s: State, self: Identifier, batches: seq<seq<Msg>>, k: nat)
    requires k <= |batches|
  {
    0 < k && Boundary(s, self, batches, k).1.Accepted? && Reached(goal, Boundary(s, self, batches, k).0)
  }

  /** A loop is left well if at some boundary the session has what the loop
      waits for, and nothing was refused before. */
  ghost predicate LeftWell(goal: Goal, s: State, self: Identifier, batches: seq<seq<Msg>>) {
    exists k :: 0 <= k <= |batches| && Leaves(goal, s, self, batches, k)
  }

  ghost predicate NoDuplicates<T>(s: seq<T>) {
    forall i, j :: 0 <= i < j < |s| ==> s[i] != s[j]
  }

  class HttpComms {
    const config: Config
    const commPubkey: PublicKey
    const session: Session

    constructor (config: Config, commPubkey: PublicKey)
      ensures this.config == config && this.commPubkey == commPubkey
      ensures fresh(session) && session.state == WaitingForRound1Packages(config.pubkeys, map[])
    {
      this.config := config;
      this.commPubkey := commPubkey;
      this.session := new Session(config.pubkeys);
    }

    /** Sends every held package to everybody but oneself and the package's
        original sender: each of those messages once, and no other. */
    method SendEchoes() returns (out: seq<Envelope>)
      requires session.state.HasRound1Packages()
      ensures forall e :: e in out <==> e in EchoEnvelopes(config, commPubkey, session.state.round1)
      ensures NoDuplicates(out)
    {
      out := [];
      var round1 := session.state.round1;
      var recipients := config.pubkeys.Keys;
      while recipients != {}
        invariant recipients <= config.pubkeys.Keys
        invariant forall e :: e in out <==>
                    && e in EchoEnvelopes(config, commPubkey, round1)
                    && e.to !in recipients
        invariant NoDuplicates(out)
        decreases recipients
      {
        var recipient :| recipient in recipients;
        if recipient != commPubkey {
          var senders := round1.Keys;
          ghost var before := out;
          while senders != {}
            invariant senders <= round1.Keys
            invariant forall e :: e in out <==>
                        || e in before
                        || (exists k :: k in round1 && k !in senders && k != config.pubkeys[recipient]
                              && e == Envelope(commPubkey, recipient, Echo(k, round1[k])))
            invariant NoDuplicates(out)
            decreases senders
          {
            var sender :| sender in senders;
            senders := senders - {sender};
            if sender != config.pubkeys[recipient] {
              out := out + [Envelope(commPubkey, recipient, Echo(sender, round1[sender]))];
            }
          }
        }
        recipients := recipients - {recipient};
      }
    }

    /** Hands one batch to the session; a refusal ends the request. */
    method Poll(batch: seq<Msg>, self: Identifier) returns (outcome: Outcome)
      modifies session
      ensures (session.state, outcome) == RecvAll(old(session.state), self, batch)
    {
      var i := 0;
      while i < |batch|
        invariant 0 <= i <= |batch|
        invariant (session.state, Accepted) == RecvAll(old(session.state), self, batch[..i])
      {
        assert batch[..i + 1][..i] == batch[..i];
        outcome := session.Receive(batch[i], self);
        if outcome.Rejected? {
          RecvAllStops(old(session.state), self, batch, i + 1);
          return;
        }
        i := i + 1;
      }
      assert batch[..i] == batch;
      outcome := Accepted;
    }

    /** A polling loop: it is left at the first batch boundary at which the
        session reports what the loop waits for, or at a refusal. */
    method PollUntil(goal: Goal, batches: seq<seq<Msg>>, self: Identifier) returns (polled: nat, done: bool)
      modifies session
      ensures polled <= |batches|
      ensures done ==> 0 < polled && Boundary(old(session.state), self, batches, polled) == (session.state, Accepted)
                       && Reached(goal, session.state)
      ensures forall k :: 0 < k < polled ==> !Reached(goal, Boundary(old(session.state), self, batches, k).0)
      ensures done <==> LeftWell(goal, old(session.state), self, batches)
    {
      hide RecvAll;
      ghost var s := session.state;
      polled, done := 0, false;
      NothingArrived(s, self, batches);
      while polled < |batches|
        invariant 0 <= polled <= |batches| && !done
        invariant (session.state, Accepted) == Boundary(old(session.state), self, batches, polled)
        invariant forall k :: 0 < k <= polled ==> !Reached(goal, Boundary(old(session.state), self, batches, k).0)
      {
        BoundaryNext(s, self, batches, polled);
        var outcome := Poll(batches[polled], self);
        polled := polled + 1;
        if outcome.Rejected? {
          RefusedStays(goal, s, self, batches, polled);
          return;
        }
        if Reached(goal, session.state) {
          assert Leaves(goal, s, self, batches, polled);
          done := true;
          return;
        }
      }
    }

    /** One's own package, once to everybody else. */
    method SendRound1(own: Round1Package) returns (out: seq<Envelope>)
      ensures forall e :: e in out <==> e in Round1Envelopes(config, commPubkey, own)
      ensures NoDuplicates(out)
    {
      out := [];
      var recipients := config.pubkeys.Keys;
      while recipients != {}
        invariant recipients <= config.pubkeys.Keys
        invariant forall e :: e in out <==> e in Round1Envelopes(config, commPubkey, own) && e.to !in recipients
        invariant NoDuplicates(out)
        decreases recipients
      {
        var recipient :| recipient in recipients;
        recipients := recipients - {recipient};
        if recipient != commPubkey {
          out := out + [Envelope(commPubkey, recipient, Round1(own))];
        }
      }
    }

    /** The first request: the packages it returns have passed the echo phase,
        and one's own echoes are sent exactly if the first loop was left and that
        phase was not already over. `between` is the session at that point. */
    method GetRound1Packages(own: Round1Package, first: seq<seq<Msg>>, second: seq<seq<Msg>>, self: Identifier)
      returns (out: seq<Envelope>, echoes: seq<Envelope>, result: Option<Round1Map>, ghost between: State)
      modifies session
      ensures forall e :: e in out <==> e in Round1Envelopes(config, commPubkey, own)
      ensures result.Some? ==> session.state.HasRound1BroadcastPackages() && result.value == session.state.round1
      ensures result.Some? ==>
                && between.HasRound1Packages()
                && exists k :: 0 < k <= |first| && Boundary(old(session.state), self, first, k) == (between, Accepted)
      ensures LeftWell(HaveRound1, old(session.state), self, first) && !between.HasRound1BroadcastPackages() ==>
                && between.WaitingForRound1PackagesBroadcast? && NoDuplicates(echoes)
                && forall e :: e in echoes <==> e in EchoEnvelopes(config, commPubkey, between.round1)
      ensures !LeftWell(HaveRound1, old(session.state), self, first) || between.HasRound1BroadcastPackages() ==>
                echoes == []
      ensures result.Some? <==>
                && LeftWell(HaveRound1, old(session.state), self, first)
                && (between.HasRound1BroadcastPackages() || LeftWell(HaveEchoes, between, self, second))
      ensures result.Some? && between.HasRound1BroadcastPackages() ==> session.state == between
      ensures result.Some? && !between.HasRound1BroadcastPackages() ==>
                exists k :: 0 < k <= |second| && Boundary(between, self, second, k) == (session.state, Accepted)
    {
      echoes, result := [], None;
      out := SendRound1(own);
      var polled, done := PollUntil(HaveRound1, first, self);
      between := session.state;
      if !done {
        return;
      }
      if !session.state.HasRound1BroadcastPackages() {
        echoes := SendEchoes();
        polled, done := PollUntil(HaveEchoes, second, self);
        if !done {
          return;
        }
      }
      result := Some(session.state.round1);
    }

    /** Everybody else's Round 2 package; one that is missing ends the request. */
    method SendRound2(round2: Round2Map) returns (out: seq<Envelope>, sent: bool)
      ensures sent <==> forall q :: q in config.pubkeys && q != commPubkey ==> config.pubkeys[q] in round2
      ensures sent ==> forall e :: e in out <==> e in Round2Envelopes(config, commPubkey, round2)
      ensures NoDuplicates(out)
    {
      out, sent := [], true;
      var recipients := config.pubkeys.Keys;
      while recipients != {}
        invariant recipients <= config.pubkeys.Keys && sent
        invariant forall q :: q in config.pubkeys && q !in recipients && q != commPubkey ==> config.pubkeys[q] in round2
        invariant forall e :: e in out <==> e in Round2Envelopes(config, commPubkey, round2) && e.to !in recipients
        invariant NoDuplicates(out)
        decreases recipients
      {
        var recipient :| recipient in recipients;
        if recipient != commPubkey {
          if config.pubkeys[recipient] !in round2 {
            return out, false;
          }
          out := out + [Envelope(commPubkey, recipient, Round2(round2[config.pubkeys[recipient]]))];
        }
        recipients := recipients - {recipient};
      }
    }

    /** The second request. */
    method GetRound2Packages(round2: Round2Map, batches: seq<seq<Msg>>, self: Identifier)
      returns (out: seq<Envelope>, result: Option<Round2Map>)
      modifies session
      ensures result.Some? ==> session.state.HasRound2Packages() && result.value == session.state.round2
      ensures result.Some? <==>
                && (forall q :: q in config.pubkeys && q != commPubkey ==> config.pubkeys[q] in round2)
                && LeftWell(HaveRound2, old(session.state), self, batches)
      ensures result.Some? ==>
                && (forall e :: e in out <==> e in Round2Envelopes(config, commPubkey, round2))
                && exists k :: 0 < k <= |batches|
                     && Boundary(old(session.state), self, batches, k) == (session.state, Accepted)
      ensures (exists q :: q in config.pubkeys && q != commPubkey && config.pubkeys[q] !in round2) ==>
                result.None? && session.state == old(session.state)
    {
      result := None;
      var sent;
      out, sent := SendRound2(round2);
      if !sent {
        return;
      }
      var polled, done := PollUntil(HaveRound2, batches, self);
      if done {
        result := Some(session.state.round2);
      }
    }
  }

  lemma {:induction false} RecvAllStops(s: State, self: Identifier, batch: seq<Msg>, k: nat)
    requires k <= |batch| && RecvAll(s, self, batch[..k]).1.Rejected?
    ensures RecvAll(s, self, batch) == RecvAll(s, self, batch[..k])
  {
    if k == |batch| {
      assert batch[..k] == batch;
    } else {
      assert batch[..|batch| - 1][..k] == batch[..k];
      RecvAllStops(s, self, batch[..|batch| - 1], k);
    }
  }

  /** What follows is fed to the session that the first part left. */
  lemma {:induction false} RecvAllConcat(s: State, self: Identifier, a: seq<Msg>, b: seq<Msg>)
    ensures var (after, outcome) := RecvAll(s, self, a);
            RecvAll(s, self, a + b) == if outcome.Rejected? then (after, outcome) else RecvAll(after, self, b)
  {
    if b == [] {
      assert a + b == a;
    } else {
      var n := |b| - 1;
      assert (a + b)[..|a + b| - 1] == a + b[..n];
      RecvAllConcat(s, self, a, b[..n]);
    }
  }

  lemma NothingArrived(s: State, self: Identifier, batches: seq<seq<Msg>>)
    ensures Boundary(s, self, batches, 0) == (s, Accepted)
  {
    assert Arrived(batches, 0) == [];
  }

  lemma BoundaryNext(s: State, self: Identifier, batches: seq<seq<Msg>>, k: nat)
    requires k < |batches|
    ensures var (before, outcome) := Boundary(s, self, batches, k);
            Boundary(s, self, batches, k + 1)
            == if outcome.Rejected? then (before, outcome) else RecvAll(before, self, batches[k])
  {
    hide RecvAll, Arrived;
    ArrivedNext(batches, k);
    RecvAllConcat(s, self, Arrived(batches, k), batches[k]);
  }

  /** After a refusal nothing changes any more. */
  lemma {:induction false} BoundaryStops(s: State, self: Identifier, batches: seq<seq<Msg>>, k: nat, l: nat)
    requires k <= l <= |batches| && Boundary(s, self, batches, k).1.Rejected?
    ensures Boundary(s, self, batches, l) == Boundary(s, self, batches, k)
  {
    hide Boundary;
    if k < l {
      BoundaryStops(s, self, batches, k, l - 1);
      BoundaryNext(s, self, batches, l - 1);
    }
  }

  lemma RefusedStays(goal: Goal, s: State, self: Identifier, batches: seq<seq<Msg>>, k: nat)
    requires k <= |batches| && Boundary(s, self, batches, k).1.Rejected?
    requires forall j :: 0 < j < k ==> !Reached(goal, Boundary(s, self, batches, j).0)
    ensures !LeftWell(goal, s, self, batches)
  {
    hide Boundary;
    forall l | 0 <= l <= |batches| ensures !Leaves(goal, s, self, batches, l) {
      if l >= k { BoundaryStops(s, self, batches, k, l); }
    }
  }
}
