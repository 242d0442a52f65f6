/** The coordinator's two receive loops: they skip senders already served, drop
    what does not decrypt or is refused, and feed the rest to the session. */
module CoordinatorComms {

  import opened Participants
  import opened Wrappers
  import opened CoordinatorSession
  import opened FirstHeard
  import opened Batches

  /** A message as the server hands it over: its sender, and its decryption if
      it decrypts. Decryption keeps the sender. */
  datatype Received = Received(
    sender: PublicKey,
    decrypted: Option<(Option<seq<Commitments>>, Option<seq<SignatureShare>>)>)
  {
    function Msg(): Incoming
      requires decrypted.Some?
    {
      Incoming(sender, decrypted.value.0, decrypted.value.1)
    }
  }

  // ---------------------------------------------------------------------
  // What a message would contribute
  // ---------------------------------------------------------------------

  ghost function CommitmentEntry(args: Args, pubkeys: Pubkeys, m: Received): Entry<PublicKey, seq<Commitments>> {
    Entry(m.sender,
          if m.decrypted.Some? && ReadCommitments(args, pubkeys, m.Msg()).Ok?
          then Some(ReadCommitments(args, pubkeys, m.Msg()).value) else None)
  }

  ghost function CommitmentEntries(args: Args, pubkeys: Pubkeys,
                                   ms: seq<Received>): seq<Entry<PublicKey, seq<Commitments>>> {
    seq(|ms|, i requires 0 <= i < |ms| => CommitmentEntry(args, pubkeys, ms[i]))
  }

  ghost function ShareEntry(args: Args, commitments: CommitmentsMap, pubkeys: Pubkeys, m: Received)
    : Entry<PublicKey, seq<SignatureShare>>
  {
    Entry(m.sender,
          if m.decrypted.Some? && ReadShares(args, commitments, pubkeys, m.Msg()).Ok?
          then Some(ReadShares(args, commitments, pubkeys, m.Msg()).value) else None)
  }

  ghost function ShareEntries(args: Args, commitments: CommitmentsMap, pubkeys: Pubkeys, ms: seq<Received>)
    : seq<Entry<PublicKey, seq<SignatureShare>>>
  {
    seq(|ms|, i requires 0 <= i < |ms| => ShareEntry(args, commitments, pubkeys, ms[i]))
  }

  /** A decrypted list of commitments, one for each message to be signed, by a known signer. */
  ghost predicate Commits(args: Args, pubkeys: Pubkeys, m: Received) {
    && m.decrypted.Some? && m.decrypted.value.0.Some?
    && |m.decrypted.value.0.value| == args.numMessages && m.sender in pubkeys
  }

  /** A decrypted list of shares, one for each message to be signed, by a signer with commitments. */
  ghost predicate Shares(s: CoordinatorState, m: Received)
    requires s.WaitingForSignatureShares?
  {
    && m.decrypted.Some? && m.decrypted.value.1.Some?
    && |m.decrypted.value.1.value| == s.args.numMessages
    && m.sender in s.pubkeys && s.pubkeys[m.sender] in s.commitments
  }

  /** Message i is the first of its sender that commits. */
  ghost predicate FirstToCommit(args: Args, pubkeys: Pubkeys, ms: seq<Received>, i: int) {
    && 0 <= i < |ms| && Commits(args, pubkeys, ms[i])
    && forall j :: 0 <= j < i && ms[j].sender == ms[i].sender ==> !Commits(args, pubkeys, ms[j])
  }

  ghost predicate FirstToShare(s: CoordinatorState, ms: seq<Received>, i: int)
    requires s.WaitingForSignatureShares?
  {
    && 0 <= i < |ms| && Shares(s, ms[i])
    && forall j :: 0 <= j < i && ms[j].sender == ms[i].sender ==> !Shares(s, ms[j])
  }

  /** Everybody who has committed, as many as there are signers. */
  ghost predicate AllCommitted(args: Args, pubkeys: Pubkeys, ms: seq<Received>) {
    var senders := set m | m in ms && Commits(args, pubkeys, m) :: m.sender;
    senders != {} && |senders| == args.numSigners
  }

  lemma CommitmentEntryIs(args: Args, pubkeys: Pubkeys, m: Received)
    ensures CommitmentEntry(args, pubkeys, m) ==
            Entry(m.sender, if Commits(args, pubkeys, m) then Some(m.decrypted.value.0.value) else None)
  {
  }

  lemma ShareEntryIs(s: CoordinatorState, m: Received)
    requires s.WaitingForSignatureShares?
    ensures ShareEntry(s.args, s.commitments, s.pubkeys, m) ==
            Entry(m.sender, if Shares(s, m) then Some(m.decrypted.value.1.value) else None)
  {
  }

  lemma FirstToCommitIs(args: Args, pubkeys: Pubkeys, ms: seq<Received>, i: int)
    ensures FirstOf(CommitmentEntries(args, pubkeys, ms), i) <==> FirstToCommit(args, pubkeys, ms, i)
  {
    hide CommitmentEntry, Commits;
    forall j | 0 <= j < |ms|
      ensures CommitmentEntries(args, pubkeys, ms)[j].sender == ms[j].sender
      ensures CommitmentEntries(args, pubkeys, ms)[j].value.Some? <==> Commits(args, pubkeys, ms[j])
    {
      CommitmentEntryIs(args, pubkeys, ms[j]);
    }
  }

  lemma FirstToShareIs(s: CoordinatorState, ms: seq<Received>, i: int)
    requires s.WaitingForSignatureShares?
    ensures FirstOf(ShareEntries(s.args, s.commitments, s.pubkeys, ms), i) <==> FirstToShare(s, ms, i)
  {
    hide ShareEntry, Shares;
    forall j | 0 <= j < |ms|
      ensures ShareEntries(s.args, s.commitments, s.pubkeys, ms)[j].sender == ms[j].sender
      ensures ShareEntries(s.args, s.commitments, s.pubkeys, ms)[j].value.Some? <==> Shares(s, ms[j])
    {
      ShareEntryIs(s, ms[j]);
    }
  }

  lemma AllCommittedIs(args: Args, pubkeys: Pubkeys, ms: seq<Received>)
    ensures Complete(Heard(CommitmentEntries(args, pubkeys, ms)), args.numSigners) <==> AllCommitted(args, pubkeys, ms)
  {
    hide CommitmentEntry, Commits, Heard;
    var entries := CommitmentEntries(args, pubkeys, ms);
    var senders := set m | m in ms && Commits(args, pubkeys, m) :: m.sender;
    forall i | 0 <= i < |ms|
      ensures entries[i].sender == ms[i].sender && (entries[i].value.Some? <==> Commits(args, pubkeys, ms[i]))
    {
      CommitmentEntryIs(args, pubkeys, ms[i]);
    }
    forall p ensures p in Heard(entries) <==> p in senders {
      HeardIsFirst(entries, p);
      if p in Heard(entries) {
        var i :| 0 <= i < |entries| && entries[i].sender == p && entries[i].value.Some?;
        assert ms[i] in ms;
      }
      if p in senders {
        var m :| m in ms && Commits(args, pubkeys, m) && m.sender == p;
        var i :| 0 <= i < |ms| && ms[i] == m;
      }
    }
    assert Heard(entries).Keys == senders;
  }

  /** The same map keyed by the senders' identifiers. */
  ghost function ByIdentifier<V>(pubkeys: Pubkeys, heard: map<PublicKey, V>): map<Identifier, V>
    requires Injective(pubkeys) && heard.Keys <= pubkeys.Keys
  {
    map p | p in heard :: pubkeys[p] := heard[p]
  }

  lemma ByIdentifierAdd<V>(pubkeys: Pubkeys, heard: map<PublicKey, V>, p: PublicKey, v: V)
    requires Injective(pubkeys) && heard.Keys <= pubkeys.Keys && p in pubkeys && p !in heard
    ensures ByIdentifier(pubkeys, heard[p := v]) == ByIdentifier(pubkeys, heard)[pubkeys[p] := v]
    ensures pubkeys[p] !in ByIdentifier(pubkeys, heard)
  {
  }

  lemma {:induction false} ByIdentifierCount<V>(pubkeys: Pubkeys, heard: map<PublicKey, V>)
    requires Injective(pubkeys) && heard.Keys <= pubkeys.Keys
    ensures |ByIdentifier(pubkeys, heard)| == |heard|
  {
    if heard == map[] {
      assert ByIdentifier(pubkeys, heard) == map[];
    } else {
      var p :| p in heard;
      var rest := heard - {p};
      assert heard == rest[p := heard[p]];
      ByIdentifierCount(pubkeys, rest);
      ByIdentifierAdd(pubkeys, rest, p, heard[p]);
    }
  }

  // ---------------------------------------------------------------------
  // The first loop
  // ---------------------------------------------------------------------

  ghost function HeardCommitments(args: Args, pubkeys: Pubkeys, ms: seq<Received>): map<PublicKey, seq<Commitments>> {
    HeardUntil(CommitmentEntries(args, pubkeys, ms), args.numSigners)
  }

  lemma HeardAreKnown(args: Args, pubkeys: Pubkeys, ms: seq<Received>)
    ensures HeardCommitments(args, pubkeys, ms).Keys <= pubkeys.Keys
  {
    forall p | p in HeardCommitments(args, pubkeys, ms) ensures p in pubkeys {
      HeardUntilSenders(CommitmentEntries(args, pubkeys, ms), args.numSigners, p);
    }
  }

  /** The session once these commitments have been heard. */
  ghost function WithCommitments(args: Args, pubkeys: Pubkeys,
                                 heard: map<PublicKey, seq<Commitments>>): CoordinatorState
    requires Injective(pubkeys) && heard.Keys <= pubkeys.Keys
  {
    if Complete(heard, args.numSigners)
    then WaitingForSignatureShares(args, ByIdentifier(pubkeys, heard), pubkeys, map[])
    else WaitingForCommitments(args, ByIdentifier(pubkeys, heard), pubkeys)
  }

  /** The session after the first loop has seen the messages ms. */
  ghost function Collected(args: Args, pubkeys: Pubkeys, ms: seq<Received>): CoordinatorState
    requires Injective(pubkeys)
  {
    HeardAreKnown(args, pubkeys, ms);
    WithCommitments(args, pubkeys, HeardCommitments(args, pubkeys, ms))
  }

  /** What a loop does with one message. */
  function StepLoop(s: CoordinatorState, senders: set<PublicKey>, m: Received): (CoordinatorState, set<PublicKey>) {
    if m.sender in senders || m.decrypted.None? then (s, senders)
    else
      var (after, outcome) := Recv(s, m.Msg());
      (after, if outcome.Accepted? then senders + {m.sender} else senders)
  }

  /** Once all commitments are in, the rest of the batch changes nothing: it is
      read as signature shares, and nobody unheard has a commitment. */
  lemma LateCommitment(args: Args, pubkeys: Pubkeys, heard: map<PublicKey, seq<Commitments>>, m: Received)
    requires Injective(pubkeys) && heard.Keys <= pubkeys.Keys && Complete(heard, args.numSigners)
    ensures StepLoop(WithCommitments(args, pubkeys, heard), heard.Keys, m) ==
            (WithCommitments(args, pubkeys, heard), heard.Keys)
  {
    if m.sender in pubkeys && m.sender !in heard {
      ByIdentifierAdd(pubkeys, heard, m.sender, []);
    }
  }

  lemma FirstCommitment(args: Args, pubkeys: Pubkeys, heard: map<PublicKey, seq<Commitments>>, m: Received)
    requires Injective(pubkeys) && heard.Keys <= pubkeys.Keys && !Complete(heard, args.numSigners)
    requires m.sender !in heard && m.decrypted.Some? && ReadCommitments(args, pubkeys, m.Msg()).Ok?
    ensures var heard' := heard[m.sender := ReadCommitments(args, pubkeys, m.Msg()).value];
            StepLoop(WithCommitments(args, pubkeys, heard), heard.Keys, m) ==
            (WithCommitments(args, pubkeys, heard'), heard.Keys + {m.sender})
  {
    hide Injective, ByIdentifier;
    var cs := ReadCommitments(args, pubkeys, m.Msg()).value;
    ByIdentifierAdd(pubkeys, heard, m.sender, cs);
    ByIdentifierCount(pubkeys, heard[m.sender := cs]);
  }

  lemma CommitmentStep(args: Args, pubkeys: Pubkeys, heard: map<PublicKey, seq<Commitments>>, m: Received)
    requires Injective(pubkeys) && heard.Keys <= pubkeys.Keys
    ensures var heard' := AddUntil(heard, CommitmentEntry(args, pubkeys, m), args.numSigners);
            && heard'.Keys <= pubkeys.Keys
            && StepLoop(WithCommitments(args, pubkeys, heard), heard.Keys, m) ==
               (WithCommitments(args, pubkeys, heard'), heard'.Keys)
  {
    hide Injective, ByIdentifier;
    if Complete(heard, args.numSigners) {
      LateCommitment(args, pubkeys, heard, m);
    } else if m.sender !in heard && m.decrypted.Some? && ReadCommitments(args, pubkeys, m.Msg()).Ok? {
      FirstCommitment(args, pubkeys, heard, m);
      var heard' := AddUntil(heard, CommitmentEntry(args, pubkeys, m), args.numSigners);
      assert heard'.Keys == heard.Keys + {m.sender};
    }
  }

  lemma CollectedStep(args: Args, pubkeys: Pubkeys, ms: seq<Received>, m: Received)
    requires Injective(pubkeys)
    ensures StepLoop(Collected(args, pubkeys, ms), HeardCommitments(args, pubkeys, ms).Keys, m) ==
            (Collected(args, pubkeys, ms + [m]), HeardCommitments(args, pubkeys, ms + [m]).Keys)
  {
    hide StepLoop, WithCommitments, AddUntil, CommitmentEntry;
    var entries, more := CommitmentEntries(args, pubkeys, ms), CommitmentEntries(args, pubkeys, ms + [m]);
    assert more[..|more| - 1] == entries;
    HeardAreKnown(args, pubkeys, ms);
    CommitmentStep(args, pubkeys, HeardCommitments(args, pubkeys, ms), m);
  }

  /** What a request comes back with: nothing yet, the entry of each signer for
      the first message, or a read beyond the end of the list of maps. */
  datatype Answer<T> = Waiting | Got(value: map<Identifier, T>) | Panicked

  lemma StepLoopKeepsValid(s: CoordinatorState, senders: set<PublicKey>, m: Received)
    requires Valid(s)
    ensures Valid(StepLoop(s, senders, m).0)
  {
    if m.decrypted.Some? {
      RecvKeepsValid(s, m.Msg());
    }
  }

  class HttpComms {
    const session: Session

    constructor (args: Args, pubkeys: Pubkeys)
      ensures fresh(session) && session.state == WaitingForCommitments(args, map[], pubkeys)
    {
      session := new Session(args.numMessages, args.numSigners, pubkeys);
    }

    /** One message inside either loop. */
    method Handle(m: Received, senders: set<PublicKey>) returns (senders': set<PublicKey>)
      modifies session
      ensures (session.state, senders') == StepLoop(old(session.state), senders, m)
      ensures Valid(old(session.state)) ==> Valid(session.state)
    {
      if Valid(session.state) {
        StepLoopKeepsValid(session.state, senders, m);
      }
      senders' := senders;
      if m.sender in senders || m.decrypted.None? {
        return;
      }
      var outcome := session.Receive(m.Msg());
      if outcome.Accepted? {
        senders' := senders + {m.sender};
      }
    }

    /** One batch of the first loop, after the messages `seen`. */
    method HandleCommitments(batch: seq<Received>, senders: set<PublicKey>,
                             ghost args: Args, ghost pubkeys: Pubkeys, ghost seen: seq<Received>)
      returns (senders': set<PublicKey>)
      requires Injective(pubkeys) && session.state == Collected(args, pubkeys, seen)
      requires senders == HeardCommitments(args, pubkeys, seen).Keys && Valid(session.state)
      modifies session
      ensures Valid(session.state)
      ensures session.state == Collected(args, pubkeys, seen + batch)
      ensures senders' == HeardCommitments(args, pubkeys, seen + batch).Keys
    {
      hide Collected, HeardCommitments, StepLoop, Injective, Valid;
      senders' := senders;
      assert seen + batch[..0] == seen;
      for i := 0 to |batch|
        invariant Valid(session.state)
        invariant session.state == Collected(args, pubkeys, seen + batch[..i])
        invariant senders' == HeardCommitments(args, pubkeys, seen + batch[..i]).Keys
      {
        CollectedStep(args, pubkeys, seen + batch[..i], batch[i]);
        assert seen + batch[..i] + [batch[i]] == seen + batch[..i + 1];
        senders' := Handle(batch[i], senders');
      }
      assert batch[..|batch|] == batch;
    }

    /** The first loop. It stops at the first batch boundary at which all
        commitments are in; what the session then holds is each signer's first
        acceptable message, whatever else the stream contained, and the answer
        is what each of them committed to for the first message to be signed. */
    method GetSigningCommitments(batches: seq<seq<Received>>, ghost args: Args, ghost pubkeys: Pubkeys)
      returns (polled: nat, answer: Answer<Commitments>)
      requires Injective(pubkeys) && session.state == WaitingForCommitments(args, map[], pubkeys)
      modifies session
      ensures polled <= |batches|
      ensures session.state == Collected(args, pubkeys, Flatten(batches[..polled]))
      ensures Valid(session.state) && session.state.args == args
      ensures answer.Waiting? <==> session.state.WaitingForCommitments?
      ensures answer.Panicked? <==> session.state.WaitingForSignatureShares? && args.numMessages == 0
      ensures answer.Got? ==>
                && session.state.WaitingForSignatureShares? && answer.value.Keys == session.state.commitments.Keys
                && |answer.value| == args.numSigners
                && forall id :: id in answer.value ==>
                     |session.state.commitments[id]| > 0 && answer.value[id] == session.state.commitments[id][0]
      ensures answer.Got? ==>
                forall id :: id in answer.value ==>
                  CommitsFirst(args, pubkeys, Flatten(batches[..polled]), id, answer.value[id])
      ensures answer.Waiting? ==> polled == |batches|
      ensures forall k :: 0 <= k < polled ==> Collected(args, pubkeys, Flatten(batches[..k])).WaitingForCommitments?
    {
      hide Collected, HeardCommitments, Injective, Valid;
      var senders: set<PublicKey> := {};
      polled := 0;
      assert batches[..0] == [];
      CollectedNothing(args, pubkeys);
      StartsValid(args, pubkeys);
      while polled < |batches|
        invariant 0 <= polled <= |batches| && Valid(session.state)
        invariant session.state == Collected(args, pubkeys, Flatten(batches[..polled]))
        invariant senders == HeardCommitments(args, pubkeys, Flatten(batches[..polled])).Keys
        invariant forall k :: 0 <= k <= polled ==>
                    Collected(args, pubkeys, Flatten(batches[..k])).WaitingForCommitments?
      {
        senders := HandleCommitments(batches[polled], senders, args, pubkeys, Flatten(batches[..polled]));
        assert batches[..polled + 1][..polled] == batches[..polled];
        polled := polled + 1;
        CollectedPhase(args, pubkeys, Flatten(batches[..polled]));
        if session.state.WaitingForSignatureShares? {
          var byMessage := CommitmentsByMessage(session.state);
          if |byMessage| == 0 {
            return polled, Panicked;
          }
          SignersCommitted(session.state);
          AnswersCommit(args, pubkeys, Flatten(batches[..polled]), byMessage[0]);
          return polled, Got(byMessage[0]);
        }
      }
      CollectedPhase(args, pubkeys, Flatten(batches[..polled]));
      answer := Waiting;
    }

    /** One batch of the second loop, after the messages `seen`. */
    method HandleShares(batch: seq<Received>, senders: set<PublicKey>,
                        ghost s: CoordinatorState, ghost seen: seq<Received>)
      returns (senders': set<PublicKey>)
      requires ReadyForShares(s) && session.state == CollectedShares(s, seen)
      requires senders == HeardShares(s, seen).Keys && Valid(session.state)
      modifies session
      ensures Valid(session.state)
      ensures session.state == CollectedShares(s, seen + batch)
      ensures senders' == HeardShares(s, seen + batch).Keys
    {
      hide CollectedShares, HeardShares, StepLoop, Injective, Valid;
      senders' := senders;
      assert seen + batch[..0] == seen;
      for i := 0 to |batch|
        invariant Valid(session.state)
        invariant session.state == CollectedShares(s, seen + batch[..i])
        invariant senders' == HeardShares(s, seen + batch[..i]).Keys
      {
        CollectedSharesStep(s, seen + batch[..i], batch[i]);
        assert seen + batch[..i] + [batch[i]] == seen + batch[..i + 1];
        senders' := Handle(batch[i], senders');
      }
      assert batch[..|batch|] == batch;
    }

    /** The second loop, entered once the signing package has been sent; the
        answer is each signer's share for the first message. */
    method GetSignatureShares(batches: seq<seq<Received>>, ghost s: CoordinatorState)
      returns (polled: nat, answer: Answer<SignatureShare>)
      requires ReadyForShares(s) && Valid(s) && session.state == s
      modifies session
      ensures polled <= |batches|
      ensures session.state == CollectedShares(s, Flatten(batches[..polled]))
      ensures Valid(session.state) && session.state.args == s.args
      ensures answer.Waiting? <==> session.state.WaitingForSignatureShares?
      ensures answer.Panicked? <==> session.state.SignatureSharesReady? && s.args.numMessages == 0
      ensures answer.Got? ==>
                && session.state.SignatureSharesReady?
                && answer.value.Keys == session.state.shares.Keys == s.commitments.Keys
                && forall id :: id in answer.value ==>
                     |session.state.shares[id]| > 0 && answer.value[id] == session.state.shares[id][0]
      ensures answer.Got? ==>
                forall id :: id in answer.value ==>
                  SharesFirst(s, Flatten(batches[..polled]), id, answer.value[id])
      ensures answer.Waiting? ==> polled == |batches|
      ensures forall k :: 0 <= k < polled ==> CollectedShares(s, Flatten(batches[..k])).WaitingForSignatureShares?
    {
      hide CollectedShares, HeardShares, Valid;
      var senders: set<PublicKey> := {};
      polled := 0;
      assert batches[..0] == [];
      CollectedNoShares(s);
      while polled < |batches|
        invariant 0 <= polled <= |batches| && Valid(session.state)
        invariant session.state == CollectedShares(s, Flatten(batches[..polled]))
        invariant senders == HeardShares(s, Flatten(batches[..polled])).Keys
        invariant forall k :: 0 <= k <= polled ==> CollectedShares(s, Flatten(batches[..k])).WaitingForSignatureShares?
      {
        senders := HandleShares(batches[polled], senders, s, Flatten(batches[..polled]));
        assert batches[..polled + 1][..polled] == batches[..polled];
        polled := polled + 1;
        CollectedSharesPhase(s, Flatten(batches[..polled]));
        if session.state.SignatureSharesReady? {
          var byMessage := SharesByMessage(session.state);
          if |byMessage| == 0 {
            return polled, Panicked;
          }
          SignersShared(session.state);
          AnswersShare(s, Flatten(batches[..polled]), byMessage[0]);
          return polled, Got(byMessage[0]);
        }
      }
      CollectedSharesPhase(s, Flatten(batches[..polled]));
      answer := Waiting;
    }
  }

  /** c heads the list in the first message with which signer id commits. */
  ghost predicate CommitsFirst(args: Args, pubkeys: Pubkeys, ms: seq<Received>, id: Identifier, c: Commitments) {
    exists i :: FirstToCommit(args, pubkeys, ms, i) && pubkeys[ms[i].sender] == id
                && |ms[i].decrypted.value.0.value| > 0 && ms[i].decrypted.value.0.value[0] == c
  }

  ghost predicate SharesFirst(s: CoordinatorState, ms: seq<Received>, id: Identifier, share: SignatureShare)
    requires s.WaitingForSignatureShares?
  {
    exists i :: FirstToShare(s, ms, i) && s.pubkeys[ms[i].sender] == id
                && |ms[i].decrypted.value.1.value| > 0 && ms[i].decrypted.value.1.value[0] == share
  }

  lemma AnswersCommit(args: Args, pubkeys: Pubkeys, ms: seq<Received>, answer: map<Identifier, Commitments>)
    requires Injective(pubkeys)
    requires var held := Collected(args, pubkeys, ms).commitments;
             answer.Keys == held.Keys && forall id :: id in held ==> |held[id]| > 0 && answer[id] == held[id][0]
    ensures forall id :: id in answer ==> CommitsFirst(args, pubkeys, ms, id, answer[id])
  {
    hide Collected, Injective, AllCommitted;
    var t := FirstCommitmentsWin(args, pubkeys, ms);
    forall id | id in answer ensures CommitsFirst(args, pubkeys, ms, id, answer[id]) {
      var i :| 0 <= i < t && FirstToCommit(args, pubkeys, ms, i) && pubkeys[ms[i].sender] == id;
    }
  }

  lemma AnswersShare(s: CoordinatorState, ms: seq<Received>, answer: map<Identifier, SignatureShare>)
    requires ReadyForShares(s)
    requires var held := CollectedShares(s, ms).shares;
             answer.Keys == held.Keys && forall id :: id in held ==> |held[id]| > 0 && answer[id] == held[id][0]
    ensures forall id :: id in answer ==> SharesFirst(s, ms, id, answer[id])
  {
    hide CollectedShares, Injective;
    FirstSharesWin(s, ms);
    forall id | id in answer ensures SharesFirst(s, ms, id, answer[id]) {
      var i :| FirstToShare(s, ms, i) && s.pubkeys[ms[i].sender] == id;
    }
  }

  lemma SignersCommitted(s: CoordinatorState)
    requires Valid(s) && s.WaitingForSignatureShares? && s.args.numMessages > 0
    ensures CommitmentsByMessage(s)[0].Keys == s.commitments.Keys
    ensures forall id :: id in s.commitments ==> |s.commitments[id]| == s.args.numMessages
  {
  }

  lemma SignersShared(s: CoordinatorState)
    requires Valid(s) && s.SignatureSharesReady? && s.args.numMessages > 0
    ensures SharesByMessage(s)[0].Keys == s.shares.Keys
    ensures forall id :: id in s.shares ==> |s.shares[id]| == s.args.numMessages
  {
  }

  lemma CollectedNothing(args: Args, pubkeys: Pubkeys)
    requires Injective(pubkeys)
    ensures Collected(args, pubkeys, []) == WaitingForCommitments(args, map[], pubkeys)
    ensures HeardCommitments(args, pubkeys, []).Keys == {}
  {
    assert ByIdentifier<seq<Commitments>>(pubkeys, map[]) == map[];
  }

  lemma CollectedPhase(args: Args, pubkeys: Pubkeys, ms: seq<Received>)
    requires Injective(pubkeys)
    ensures var s := Collected(args, pubkeys, ms);
            (s.WaitingForCommitments? || s.WaitingForSignatureShares?) && s.args == args
  {
  }

  // ---------------------------------------------------------------------
  // The second loop
  // ---------------------------------------------------------------------

  ghost predicate ReadyForShares(s: CoordinatorState) {
    s.WaitingForSignatureShares? && Injective(s.pubkeys) && s.shares == map[] && s.commitments != map[]
  }

  ghost function HeardShares(s: CoordinatorState, ms: seq<Received>): map<PublicKey, seq<SignatureShare>>
    requires s.WaitingForSignatureShares?
  {
    Heard(ShareEntries(s.args, s.commitments, s.pubkeys, ms))
  }

  /** Only signers with a commitment are heard. */
  lemma SharersCommitted(s: CoordinatorState, ms: seq<Received>)
    requires s.WaitingForSignatureShares?
    ensures forall p :: p in HeardShares(s, ms) ==> p in s.pubkeys && s.pubkeys[p] in s.commitments
  {
    forall p | p in HeardShares(s, ms) ensures p in s.pubkeys && s.pubkeys[p] in s.commitments {
      HeardIsFirst(ShareEntries(s.args, s.commitments, s.pubkeys, ms), p);
    }
  }

  ghost function WithShares(s: CoordinatorState, heard: map<PublicKey, seq<SignatureShare>>): CoordinatorState
    requires ReadyForShares(s) && heard.Keys <= s.pubkeys.Keys
  {
    AfterShares(s.args, s.commitments, s.pubkeys, ByIdentifier(s.pubkeys, heard))
  }

  /** The session after the second loop has seen the messages ms. */
  ghost function CollectedShares(s: CoordinatorState, ms: seq<Received>): CoordinatorState
    requires ReadyForShares(s)
  {
    SharersCommitted(s, ms);
    WithShares(s, HeardShares(s, ms))
  }

  /** Once the shares are complete, nobody acceptable is left. */
  lemma NobodyLeft(s: CoordinatorState, heard: map<PublicKey, seq<SignatureShare>>, p: PublicKey)
    requires ReadyForShares(s) && heard.Keys <= s.pubkeys.Keys
    requires p in s.pubkeys && s.pubkeys[p] in s.commitments
    requires ByIdentifier(s.pubkeys, heard).Keys == s.commitments.Keys
    ensures p in heard
  {
    assert s.pubkeys[p] in ByIdentifier(s.pubkeys, heard);
  }

  lemma FirstShare(s: CoordinatorState, heard: map<PublicKey, seq<SignatureShare>>, m: Received,
                   ss: seq<SignatureShare>)
    requires ReadyForShares(s) && heard.Keys <= s.pubkeys.Keys
    requires m.sender !in heard && m.decrypted.Some? && m.sender in s.pubkeys
    requires ReadShares(s.args, s.commitments, s.pubkeys, m.Msg()) == Ok(ss)
    requires heard[m.sender := ss].Keys == heard.Keys + {m.sender}
    ensures StepLoop(WithShares(s, heard), heard.Keys, m) ==
            (WithShares(s, heard[m.sender := ss]), heard.Keys + {m.sender})
  {
    hide ByIdentifier, Injective;
    ByIdentifierAdd(s.pubkeys, heard, m.sender, ss);
    if ByIdentifier(s.pubkeys, heard).Keys == s.commitments.Keys {
      NobodyLeft(s, heard, m.sender);
    }
  }

  lemma ShareStep(s: CoordinatorState, heard: map<PublicKey, seq<SignatureShare>>, m: Received)
    requires ReadyForShares(s)
    requires forall p :: p in heard ==> p in s.pubkeys && s.pubkeys[p] in s.commitments
    ensures var e := ShareEntry(s.args, s.commitments, s.pubkeys, m);
            var heard' := if e.value.Some? && e.sender !in heard then heard[e.sender := e.value.value] else heard;
            && heard'.Keys <= s.pubkeys.Keys
            && StepLoop(WithShares(s, heard), heard.Keys, m) == (WithShares(s, heard'), heard'.Keys)
  {
    hide ByIdentifier, Injective;
    if m.sender !in heard && m.decrypted.Some? && ReadShares(s.args, s.commitments, s.pubkeys, m.Msg()).Ok? {
      var ss := ReadShares(s.args, s.commitments, s.pubkeys, m.Msg()).value;
      assert heard[m.sender := ss].Keys == heard.Keys + {m.sender};
      FirstShare(s, heard, m, ss);
    }
  }

  lemma CollectedSharesStep(s: CoordinatorState, ms: seq<Received>, m: Received)
    requires ReadyForShares(s)
    ensures StepLoop(CollectedShares(s, ms), HeardShares(s, ms).Keys, m) ==
            (CollectedShares(s, ms + [m]), HeardShares(s, ms + [m]).Keys)
  {
    hide StepLoop, WithShares, ShareEntry;
    var entries := ShareEntries(s.args, s.commitments, s.pubkeys, ms);
    var more := ShareEntries(s.args, s.commitments, s.pubkeys, ms + [m]);
    assert more[..|more| - 1] == entries;
    SharersCommitted(s, ms);
    ShareStep(s, HeardShares(s, ms), m);
  }

  lemma WithoutShares(s: CoordinatorState)
    requires ReadyForShares(s)
    ensures WithShares(s, map[]) == s
  {
    assert ByIdentifier<seq<SignatureShare>>(s.pubkeys, map[]) == map[];
    assert s.commitments.Keys != {};
  }

  lemma CollectedNoShares(s: CoordinatorState)
    requires ReadyForShares(s)
    ensures CollectedShares(s, []) == s && HeardShares(s, []) == map[]
  {
    hide Injective, WithShares;
    WithoutShares(s);
  }

  lemma CollectedSharesPhase(s: CoordinatorState, ms: seq<Received>)
    requires ReadyForShares(s)
    ensures var after := CollectedShares(s, ms);
            && (after.WaitingForSignatureShares? || after.SignatureSharesReady?) && after.args == s.args
            && (after.SignatureSharesReady? ==> after.shares.Keys == s.commitments.Keys)
  {
  }

  // ---------------------------------------------------------------------
  // What the loops guarantee
  // ---------------------------------------------------------------------

  lemma CommitmentPrefix(args: Args, pubkeys: Pubkeys, ms: seq<Received>, t: nat)
    requires t <= |ms|
    ensures CommitmentEntries(args, pubkeys, ms)[..t] == CommitmentEntries(args, pubkeys, ms[..t])
  {
  }

  /** First accepted wins, in the first phase. There is a cut t: all signers
      are in for the first time after t messages, or never are. The session
      holds an entry exactly for the senders that commit before the cut, and
      it is the list in the first such message of that sender. */
  lemma FirstCommitmentsWin(args: Args, pubkeys: Pubkeys, ms: seq<Received>) returns (t: nat)
    requires Injective(pubkeys)
    ensures t <= |ms| && (t < |ms| ==> Collected(args, pubkeys, ms).WaitingForSignatureShares?)
    ensures forall u :: 0 <= u < t ==> !AllCommitted(args, pubkeys, ms[..u])
    ensures Collected(args, pubkeys, ms).WaitingForSignatureShares? <==> AllCommitted(args, pubkeys, ms[..t])
    ensures forall i :: 0 <= i < t && FirstToCommit(args, pubkeys, ms, i) ==>
              && pubkeys[ms[i].sender] in Collected(args, pubkeys, ms).commitments
              && Collected(args, pubkeys, ms).commitments[pubkeys[ms[i].sender]] == ms[i].decrypted.value.0.value
    ensures forall id :: id in Collected(args, pubkeys, ms).commitments ==>
              exists i :: 0 <= i < t && FirstToCommit(args, pubkeys, ms, i) && pubkeys[ms[i].sender] == id
  {
    hide HeardUntil, Heard, CommitmentEntry, AllCommitted;
    var entries := CommitmentEntries(args, pubkeys, ms);
    t := HeardUntilIsPrefix(entries, args.numSigners);
    var heard := HeardCommitments(args, pubkeys, ms);
    HeardAreKnown(args, pubkeys, ms);
    forall u | 0 <= u <= t
      ensures Complete(Heard(entries[..u]), args.numSigners) <==> AllCommitted(args, pubkeys, ms[..u])
    {
      CommitmentPrefix(args, pubkeys, ms, u);
      AllCommittedIs(args, pubkeys, ms[..u]);
    }
    forall i | 0 <= i < t && FirstToCommit(args, pubkeys, ms, i)
      ensures ms[i].sender in heard && heard[ms[i].sender] == ms[i].decrypted.value.0.value
    {
      FirstToCommitIs(args, pubkeys, ms, i);
      CommitmentEntryIs(args, pubkeys, ms[i]);
      FirstOfPrefix(entries, t, i);
      HeardIsFirst(entries[..t], ms[i].sender);
      assert entries[..t][i] == entries[i];
    }
    forall id | id in Collected(args, pubkeys, ms).commitments
      ensures exists i :: 0 <= i < t && FirstToCommit(args, pubkeys, ms, i) && pubkeys[ms[i].sender] == id
    {
      var p :| p in heard && pubkeys[p] == id;
      var i := HeardFrom(entries[..t], p);
      FirstOfPrefix(entries, t, i);
      FirstToCommitIs(args, pubkeys, ms, i);
      CommitmentEntryIs(args, pubkeys, ms[i]);
      assert entries[..t][i] == entries[i];
    }
  }

  /** First accepted wins, in the second phase. */
  lemma FirstSharesWin(s: CoordinatorState, ms: seq<Received>)
    requires ReadyForShares(s)
    ensures forall i :: FirstToShare(s, ms, i) ==>
              && s.pubkeys[ms[i].sender] in CollectedShares(s, ms).shares
              && CollectedShares(s, ms).shares[s.pubkeys[ms[i].sender]] == ms[i].decrypted.value.1.value
    ensures forall id :: id in CollectedShares(s, ms).shares ==>
              exists i :: FirstToShare(s, ms, i) && s.pubkeys[ms[i].sender] == id
  {
    hide Heard, ShareEntry;
    var entries, heard := ShareEntries(s.args, s.commitments, s.pubkeys, ms), HeardShares(s, ms);
    SharersCommitted(s, ms);
    forall i | FirstToShare(s, ms, i)
      ensures ms[i].sender in heard && heard[ms[i].sender] == ms[i].decrypted.value.1.value
    {
      FirstToShareIs(s, ms, i);
      ShareEntryIs(s, ms[i]);
      HeardIsFirst(entries, ms[i].sender);
    }
    forall id | id in CollectedShares(s, ms).shares
      ensures exists i :: FirstToShare(s, ms, i) && s.pubkeys[ms[i].sender] == id
    {
      var p :| p in heard && s.pubkeys[p] == id;
      var i := HeardFrom(entries, p);
      FirstToShareIs(s, ms, i);
      ShareEntryIs(s, ms[i]);
    }
  }

  /** With one slot per public key, the first transition happens exactly when
      every public key has sent something acceptable. */
  lemma TransitionWhenAllHeard(args: Args, pubkeys: Pubkeys, ms: seq<Received>)
    requires Injective(pubkeys) && args.numSigners == |pubkeys| > 0
    ensures Collected(args, pubkeys, ms).WaitingForSignatureShares? <==>
            forall p :: p in pubkeys ==> exists i :: 0 <= i < |ms| && ms[i].sender == p && Commits(args, pubkeys, ms[i])
  {
    var entries := CommitmentEntries(args, pubkeys, ms);
    var t := HeardUntilIsPrefix(entries, args.numSigners);
    var heard := HeardCommitments(args, pubkeys, ms);
    HeardAreKnown(args, pubkeys, ms);
    SubsetCount(heard.Keys, pubkeys.Keys);
    if Complete(heard, args.numSigners) {
      forall p | p in pubkeys
        ensures exists i :: 0 <= i < |ms| && ms[i].sender == p && Commits(args, pubkeys, ms[i])
      {
        HeardUntilSenders(entries, args.numSigners, p);
        var i :| 0 <= i < |entries| && entries[i].sender == p && entries[i].value == Some(heard[p]);
        assert entries[i] == CommitmentEntry(args, pubkeys, ms[i]);
      }
    } else {
      assert entries[..t] == entries;
      var p :| p in pubkeys && p !in heard;
      HeardIsFirst(entries, p);
      forall i | 0 <= i < |ms| && ms[i].sender == p ensures !Commits(args, pubkeys, ms[i]) {
        assert entries[i] == CommitmentEntry(args, pubkeys, ms[i]);
      }
    }
  }

  lemma EntriesPermuted(args: Args, pubkeys: Pubkeys, a: seq<Received>, b: seq<Received>,
                        e: Entry<PublicKey, seq<Commitments>>)
    requires multiset(a) == multiset(b) && e in CommitmentEntries(args, pubkeys, a)
    ensures e in CommitmentEntries(args, pubkeys, b)
  {
    var i :| 0 <= i < |a| && CommitmentEntries(args, pubkeys, a)[i] == e;
    assert a[i] in multiset(a);
    assert a[i] in multiset(b);
    var j :| 0 <= j < |b| && b[j] == a[i];
    assert CommitmentEntries(args, pubkeys, b)[j] == e;
  }

  /** Confluence: with one slot per public key and at most one acceptable
      message each, every order of the same messages gives the same session. */
  lemma OrderDoesNotMatter(args: Args, pubkeys: Pubkeys, a: seq<Received>, b: seq<Received>)
    requires Injective(pubkeys) && args.numSigners == |pubkeys| && multiset(a) == multiset(b)
    requires OncePerSender(CommitmentEntries(args, pubkeys, a)) && OncePerSender(CommitmentEntries(args, pubkeys, b))
    ensures Collected(args, pubkeys, a) == Collected(args, pubkeys, b)
  {
    forall e | e in CommitmentEntries(args, pubkeys, a) ensures e in CommitmentEntries(args, pubkeys, b) {
      EntriesPermuted(args, pubkeys, a, b, e);
    }
    forall e | e in CommitmentEntries(args, pubkeys, b) ensures e in CommitmentEntries(args, pubkeys, a) {
      EntriesPermuted(args, pubkeys, b, a, e);
    }
    HeardInAnyOrder(CommitmentEntries(args, pubkeys, a), CommitmentEntries(args, pubkeys, b));
    CutIsHarmless(args, pubkeys, a);
    CutIsHarmless(args, pubkeys, b);
  }

  lemma SharesPermuted(s: CoordinatorState, a: seq<Received>, b: seq<Received>,
                       e: Entry<PublicKey, seq<SignatureShare>>)
    requires s.WaitingForSignatureShares? && multiset(a) == multiset(b)
    requires e in ShareEntries(s.args, s.commitments, s.pubkeys, a)
    ensures e in ShareEntries(s.args, s.commitments, s.pubkeys, b)
  {
    var i :| 0 <= i < |a| && ShareEntries(s.args, s.commitments, s.pubkeys, a)[i] == e;
    assert a[i] in multiset(a);
    assert a[i] in multiset(b);
    var j :| 0 <= j < |b| && b[j] == a[i];
    assert ShareEntries(s.args, s.commitments, s.pubkeys, b)[j] == e;
  }

  /** Confluence of the second phase: at most one acceptable message from each signer, in any order. */
  lemma ShareOrderDoesNotMatter(s: CoordinatorState, a: seq<Received>, b: seq<Received>)
    requires ReadyForShares(s) && multiset(a) == multiset(b)
    requires OncePerSender(ShareEntries(s.args, s.commitments, s.pubkeys, a))
    requires OncePerSender(ShareEntries(s.args, s.commitments, s.pubkeys, b))
    ensures CollectedShares(s, a) == CollectedShares(s, b)
  {
    var x, y := ShareEntries(s.args, s.commitments, s.pubkeys, a), ShareEntries(s.args, s.commitments, s.pubkeys, b);
    forall e | e in x ensures e in y { SharesPermuted(s, a, b, e); }
    forall e | e in y ensures e in x { SharesPermuted(s, b, a, e); }
    HeardInAnyOrder(x, y);
  }

  /** When everybody is in, there is nobody left for the cut to shut out. */
  lemma CutIsHarmless(args: Args, pubkeys: Pubkeys, ms: seq<Received>)
    requires args.numSigners == |pubkeys|
    ensures HeardCommitments(args, pubkeys, ms) == Heard(CommitmentEntries(args, pubkeys, ms))
    decreases |ms|
  {
    if ms != [] {
      var front := ms[..|ms| - 1];
      CutIsHarmless(args, pubkeys, front);
      var entries := CommitmentEntries(args, pubkeys, ms);
      assert entries[..|entries| - 1] == CommitmentEntries(args, pubkeys, front);
      var heard := HeardCommitments(args, pubkeys, front);
      HeardAreKnown(args, pubkeys, front);
      SubsetCount(heard.Keys, pubkeys.Keys);
    }
  }
}
