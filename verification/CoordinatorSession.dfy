/** The coordinator's session: it collects every signer's nonce commitments,
    then every signer's signature shares, one entry per message to be signed. */
module CoordinatorSession {

  import opened Participants
  import opened Wrappers

  datatype Commitments = Commitments(bytes: seq<bv8>)
  datatype SignatureShare = SignatureShare(bytes: seq<bv8>)

  /** A decrypted message. An empty list parses both ways, so the two readings
      of the same bytes are kept apart. */
  datatype Incoming = Incoming(
    sender: PublicKey,
    asCommitments: Option<seq<Commitments>>,
    asShares: Option<seq<SignatureShare>>)

  datatype Args = Args(numMessages: nat, numSigners: nat)

  type CommitmentsMap = map<Identifier, seq<Commitments>>
  type SharesMap = map<Identifier, seq<SignatureShare>>
  type Pubkeys = map<PublicKey, Identifier>

  datatype CoordinatorState =
    | WaitingForCommitments(args: Args, commitments: CommitmentsMap, pubkeys: Pubkeys)
    | WaitingForSignatureShares(args: Args, commitments: CommitmentsMap, pubkeys: Pubkeys, shares: SharesMap)
    | SignatureSharesReady(args: Args, shares: SharesMap)

  datatype CoordinatorError = ParseError | WrongNumber | UnknownParticipant | InvalidIdentifier | WrongState

  datatype Outcome = Accepted | Rejected(error: CoordinatorError)

  // ---------------------------------------------------------------------
  // Specification of one received message
  // ---------------------------------------------------------------------

  function AfterCommitments(args: Args, commitments: CommitmentsMap, pubkeys: Pubkeys): CoordinatorState {
    if |commitments| == args.numSigners then WaitingForSignatureShares(args, commitments, pubkeys, map[])
    else WaitingForCommitments(args, commitments, pubkeys)
  }

  function AfterShares(args: Args, commitments: CommitmentsMap, pubkeys: Pubkeys, shares: SharesMap): CoordinatorState {
    if shares.Keys == commitments.Keys then SignatureSharesReady(args, shares)
    else WaitingForSignatureShares(args, commitments, pubkeys, shares)
  }

  /** The commitments a message contributes in the first phase, or the refusal. */
  function ReadCommitments(args: Args, pubkeys: Pubkeys, msg: Incoming): Result<seq<Commitments>, CoordinatorError> {
    if msg.asCommitments.None? then Err(ParseError)
    else if |msg.asCommitments.value| != args.numMessages then Err(WrongNumber)
    else if msg.sender !in pubkeys then Err(UnknownParticipant)
    else Ok(msg.asCommitments.value)
  }

  function ReadShares(args: Args, commitments: CommitmentsMap, pubkeys: Pubkeys, msg: Incoming)
    : Result<seq<SignatureShare>, CoordinatorError>
  {
    if msg.asShares.None? then Err(ParseError)
    else if |msg.asShares.value| != args.numMessages then Err(WrongNumber)
    else if msg.sender !in pubkeys then Err(UnknownParticipant)
    else if pubkeys[msg.sender] !in commitments then Err(InvalidIdentifier)
    else Ok(msg.asShares.value)
  }

  function Recv(s: CoordinatorState, msg: Incoming): (CoordinatorState, Outcome) {
    match s
    case WaitingForCommitments(args, commitments, pubkeys) =>
      (match ReadCommitments(args, pubkeys, msg)
       case Err(e) => (s, Rejected(e))
       case Ok(cs) => (AfterCommitments(args, commitments[pubkeys[msg.sender] := cs], pubkeys), Accepted))
    case WaitingForSignatureShares(args, commitments, pubkeys, shares) =>
      (match ReadShares(args, commitments, pubkeys, msg)
       case Err(e) => (s, Rejected(e))
       case Ok(ss) => (AfterShares(args, commitments, pubkeys, shares[pubkeys[msg.sender] := ss]), Accepted))
    case SignatureSharesReady(_, _) => (s, Rejected(WrongState))
  }

  // ---------------------------------------------------------------------
  // What is accepted, and what it leaves
  // ---------------------------------------------------------------------

  /** A list of commitments, one for each message to be signed, by a known signer. */
  predicate CommitmentsFit(args: Args, pubkeys: Pubkeys, msg: Incoming) {
    && msg.asCommitments.Some? && |msg.asCommitments.value| == args.numMessages
    && msg.sender in pubkeys
  }

  /** A list of shares, one for each message to be signed, by a signer with commitments. */
  predicate SharesFit(args: Args, commitments: CommitmentsMap, pubkeys: Pubkeys, msg: Incoming) {
    && msg.asShares.Some? && |msg.asShares.value| == args.numMessages
    && msg.sender in pubkeys && pubkeys[msg.sender] in commitments
  }

  /** The session holds these commitments, and is in its second phase exactly if
      they are as many as there are signers. */
  predicate HasCommitments(s: CoordinatorState, commitments: CommitmentsMap, before: CoordinatorState) {
    && (s.WaitingForCommitments? || s.WaitingForSignatureShares?) && !before.SignatureSharesReady?
    && s.commitments == commitments && s.args == before.args && s.pubkeys == before.pubkeys
    && (s.WaitingForSignatureShares? <==> |commitments| == s.args.numSigners)
    && (s.WaitingForSignatureShares? ==> s.shares == map[])
  }

  /** The session holds these shares, and is ready exactly if their signers are
      those with commitments. */
  predicate HasShares(s: CoordinatorState, shares: SharesMap, before: CoordinatorState) {
    && (s.WaitingForSignatureShares? || s.SignatureSharesReady?) && before.WaitingForSignatureShares?
    && s.shares == shares && s.args == before.args
    && (s.SignatureSharesReady? <==> shares.Keys == before.commitments.Keys)
    && (s.WaitingForSignatureShares? ==> s.commitments == before.commitments && s.pubkeys == before.pubkeys)
  }

  lemma CommitmentsTaken(s: CoordinatorState, msg: Incoming)
    requires s.WaitingForCommitments?
    ensures var (after, outcome) := Recv(s, msg);
            && (outcome.Accepted? <==> CommitmentsFit(s.args, s.pubkeys, msg))
            && (outcome.Accepted? ==>
                  HasCommitments(after, s.commitments[s.pubkeys[msg.sender] := msg.asCommitments.value], s))
            && (outcome.Rejected? ==> after == s)
  {
  }

  lemma SharesTaken(s: CoordinatorState, msg: Incoming)
    requires s.WaitingForSignatureShares?
    ensures var (after, outcome) := Recv(s, msg);
            && (outcome.Accepted? <==> SharesFit(s.args, s.commitments, s.pubkeys, msg))
            && (outcome.Accepted? ==> HasShares(after, s.shares[s.pubkeys[msg.sender] := msg.asShares.value], s))
            && (outcome.Rejected? ==> after == s)
  {
  }

  /** Why a message is refused: what does not parse, then a wrong number of
      entries, then an unknown sender, then a signer without commitments. */
  lemma WhyRefused(s: CoordinatorState, msg: Incoming)
    ensures Recv(s, msg).1 == Rejected(WrongState) <==> s.SignatureSharesReady?
    ensures Recv(s, msg).1 == Rejected(ParseError) <==>
              || (s.WaitingForCommitments? && msg.asCommitments.None?)
              || (s.WaitingForSignatureShares? && msg.asShares.None?)
    ensures Recv(s, msg).1 == Rejected(WrongNumber) <==>
              || (s.WaitingForCommitments? && msg.asCommitments.Some?
                  && |msg.asCommitments.value| != s.args.numMessages)
              || (s.WaitingForSignatureShares? && msg.asShares.Some? && |msg.asShares.value| != s.args.numMessages)
    ensures Recv(s, msg).1 == Rejected(UnknownParticipant) <==>
              || (s.WaitingForCommitments? && msg.asCommitments.Some?
                  && |msg.asCommitments.value| == s.args.numMessages && msg.sender !in s.pubkeys)
              || (s.WaitingForSignatureShares? && msg.asShares.Some?
                  && |msg.asShares.value| == s.args.numMessages && msg.sender !in s.pubkeys)
    ensures Recv(s, msg).1 == Rejected(InvalidIdentifier) <==>
              && s.WaitingForSignatureShares? && msg.asShares.Some? && |msg.asShares.value| == s.args.numMessages
              && msg.sender in s.pubkeys && s.pubkeys[msg.sender] !in s.commitments
  {
  }

  // ---------------------------------------------------------------------
  // The mutable session
  // ---------------------------------------------------------------------

  class Session {
    var state: CoordinatorState

    constructor (numMessages: nat, numSigners: nat, pubkeys: Pubkeys)
      ensures state == WaitingForCommitments(Args(numMessages, numSigners), map[], pubkeys)
    {
      state := WaitingForCommitments(Args(numMessages, numSigners), map[], pubkeys);
    }

    method HandleCommitments(pubkey: PublicKey, commitments: seq<Commitments>) returns (r: Outcome)
      requires state.WaitingForCommitments?
      modifies this
      ensures (state, r) == Recv(old(state), Incoming(pubkey, Some(commitments), None))
      ensures r.Accepted? <==> |commitments| == old(state).args.numMessages && pubkey in old(state).pubkeys
      ensures r.Accepted? ==> HasCommitments(state, old(state).commitments[old(state).pubkeys[pubkey] := commitments],
                                             old(state))
      ensures r.Rejected? ==> state == old(state)
    {
      if |commitments| != state.args.numMessages {
        return Rejected(WrongNumber);
      }
      if pubkey !in state.pubkeys {
        return Rejected(UnknownParticipant);
      }
      var identifier := state.pubkeys[pubkey];
      state := WaitingForCommitments(state.args, state.commitments[identifier := commitments], state.pubkeys);
      if |state.commitments| == state.args.numSigners {
        state := WaitingForSignatureShares(state.args, state.commitments, state.pubkeys, map[]);
      }
      r := Accepted;
    }

    method HandleSignatureShare(pubkey: PublicKey, shares: seq<SignatureShare>) returns (r: Outcome)
      requires state.WaitingForSignatureShares?
      modifies this
      ensures (state, r) == Recv(old(state), Incoming(pubkey, None, Some(shares)))
      ensures r.Accepted? <==>
                && |shares| == old(state).args.numMessages && pubkey in old(state).pubkeys
                && old(state).pubkeys[pubkey] in old(state).commitments
      ensures r.Accepted? ==> HasShares(state, old(state).shares[old(state).pubkeys[pubkey] := shares], old(state))
      ensures r.Rejected? ==> state == old(state)
    {
      if |shares| != state.args.numMessages {
        return Rejected(WrongNumber);
      }
      if pubkey !in state.pubkeys {
        return Rejected(UnknownParticipant);
      }
      var identifier := state.pubkeys[pubkey];
      if identifier !in state.commitments {
        return Rejected(InvalidIdentifier);
      }
      state := state.(shares := state.shares[identifier := shares]);
      if state.shares.Keys == state.commitments.Keys {
        state := SignatureSharesReady(state.args, state.shares);
      }
      r := Accepted;
    }

    /** A list that parses, has an entry for every message to be signed and comes from
        a known sender (in the second phase: one with commitments) replaces what is
        held of that sender. A refused message leaves the session exactly as it was. */
    method Receive(msg: Incoming) returns (r: Outcome)
      modifies this
      ensures (state, r) == Recv(old(state), msg)
      ensures r.Rejected? ==> state == old(state)
      ensures old(state).WaitingForCommitments? ==>
                (r.Accepted? <==> CommitmentsFit(old(state).args, old(state).pubkeys, msg))
      ensures old(state).WaitingForCommitments? && r.Accepted? ==>
                HasCommitments(
                  state, old(state).commitments[old(state).pubkeys[msg.sender] := msg.asCommitments.value], old(state))
      ensures old(state).WaitingForSignatureShares? ==>
                (r.Accepted? <==> SharesFit(old(state).args, old(state).commitments, old(state).pubkeys, msg))
      ensures old(state).WaitingForSignatureShares? && r.Accepted? ==>
                HasShares(state, old(state).shares[old(state).pubkeys[msg.sender] := msg.asShares.value], old(state))
      ensures old(state).SignatureSharesReady? ==> r == Rejected(WrongState)
    {
      match state
      case WaitingForCommitments(_, _, _) =>
        if msg.asCommitments.None? {
          return Rejected(ParseError);
        }
        r := HandleCommitments(msg.sender, msg.asCommitments.value);
      case WaitingForSignatureShares(_, _, _, _) =>
        if msg.asShares.None? {
          return Rejected(ParseError);
        }
        r := HandleSignatureShare(msg.sender, msg.asShares.value);
      case SignatureSharesReady(_, _) =>
        return Rejected(WrongState);
    }
  }

  // ---------------------------------------------------------------------
  // Invariant
  // ---------------------------------------------------------------------

  ghost predicate AllHaveLength<T>(m: map<Identifier, seq<T>>, n: nat) {
    forall id :: id in m ==> |m[id]| == n
  }

  ghost predicate Valid(s: CoordinatorState) {
    match s
    case WaitingForCommitments(args, commitments, pubkeys) =>
      && AllHaveLength(commitments, args.numMessages)
      && commitments.Keys <= pubkeys.Values
      && (commitments != map[] ==> |commitments| != args.numSigners)
    case WaitingForSignatureShares(args, commitments, pubkeys, shares) =>
      && AllHaveLength(commitments, args.numMessages) && AllHaveLength(shares, args.numMessages)
      && commitments.Keys <= pubkeys.Values && |commitments| == args.numSigners > 0
      && shares.Keys < commitments.Keys
    case SignatureSharesReady(args, shares) =>
      && AllHaveLength(shares, args.numMessages) && |shares| == args.numSigners > 0
  }

  lemma RecvKeepsValid(s: CoordinatorState, msg: Incoming)
    requires Valid(s)
    ensures Valid(Recv(s, msg).0)
    ensures s.WaitingForSignatureShares? && Recv(s, msg).0.SignatureSharesReady? ==>
              Recv(s, msg).0.shares.Keys == s.commitments.Keys
  {
    if s.WaitingForCommitments? && ReadCommitments(s.args, s.pubkeys, msg).Ok? {
      assert s.pubkeys[msg.sender] in s.commitments[s.pubkeys[msg.sender] := msg.asCommitments.value];
    }
    if Recv(s, msg).0.SignatureSharesReady? && s.WaitingForSignatureShares? {
      var shares := Recv(s, msg).0.shares;
      assert |shares| == |shares.Keys| == |s.commitments.Keys| == |s.commitments|;
    }
  }

  /** Feeds messages to a session one by one; a refused one changes nothing. */
  ghost function Feed(s: CoordinatorState, msgs: seq<Incoming>): CoordinatorState {
    if msgs == [] then s else Recv(Feed(s, msgs[..|msgs| - 1]), msgs[|msgs| - 1]).0
  }

  /** Whatever a new session is sent, in whatever order: it stays valid. */
  lemma {:induction false} EveryRunIsValid(args: Args, pubkeys: Pubkeys, msgs: seq<Incoming>)
    ensures var s := Feed(WaitingForCommitments(args, map[], pubkeys), msgs);
            && Valid(s) && s.args == args
            && (!s.SignatureSharesReady? ==> s.pubkeys == pubkeys)
  {
    hide Valid;
    if msgs == [] {
      StartsValid(args, pubkeys);
    } else {
      EveryRunIsValid(args, pubkeys, msgs[..|msgs| - 1]);
      RecvKeepsValid(Feed(WaitingForCommitments(args, map[], pubkeys), msgs[..|msgs| - 1]), msgs[|msgs| - 1]);
    }
  }

  lemma StartsValid(args: Args, pubkeys: Pubkeys)
    ensures Valid(WaitingForCommitments(args, map[], pubkeys))
  {
  }

  /** From the second phase on the commitments are frozen, and the shares it
      ends with are those of exactly the signers that committed. */
  lemma {:induction false} CommitmentsAreFrozen(s: CoordinatorState, msgs: seq<Incoming>)
    requires Valid(s) && s.WaitingForSignatureShares?
    ensures var after := Feed(s, msgs);
            && Valid(after) && after.args == s.args
            && if after.WaitingForSignatureShares? then after.commitments == s.commitments && after.pubkeys == s.pubkeys
               else after.SignatureSharesReady? && after.shares.Keys == s.commitments.Keys
  {
    hide Valid;
    if msgs != [] {
      CommitmentsAreFrozen(s, msgs[..|msgs| - 1]);
      RecvKeepsValid(Feed(s, msgs[..|msgs| - 1]), msgs[|msgs| - 1]);
    }
  }

  /** On its own the state machine overwrites: while a phase lasts, a second
      valid message of the same signer replaces the first. */
  lemma SecondMessageOverwrites(s: CoordinatorState, first: Incoming, second: Incoming)
    requires s.WaitingForCommitments? && first.sender == second.sender
    requires ReadCommitments(s.args, s.pubkeys, first).Ok? && ReadCommitments(s.args, s.pubkeys, second).Ok?
    requires Recv(s, first).0.WaitingForCommitments?
    ensures Recv(Recv(s, first).0, second) == Recv(s, second)
  {
    var id := s.pubkeys[first.sender];
    var once := s.commitments[id := first.asCommitments.value];
    assert once[id := second.asCommitments.value] == s.commitments[id := second.asCommitments.value];
  }

  // ---------------------------------------------------------------------
  // One map per message
  // ---------------------------------------------------------------------

  /** From one vector per signer to one map per message. */
  function Transpose<T>(stored: map<Identifier, seq<T>>, n: nat): (r: seq<map<Identifier, T>>)
    requires forall id :: id in stored ==> |stored[id]| == n
    ensures |r| == n
    ensures forall i :: 0 <= i < n ==> r[i].Keys == stored.Keys
    ensures forall i, id :: 0 <= i < n && id in stored ==> r[i][id] == stored[id][i]
  {
    seq(n, i requires 0 <= i < n => map id | id in stored :: stored[id][i])
  }

  /** From one map per message back to one vector per signer. */
  ghost function Collect<T>(maps: seq<map<Identifier, T>>, ids: set<Identifier>): map<Identifier, seq<T>>
    requires forall i :: 0 <= i < |maps| ==> maps[i].Keys == ids
  {
    map id | id in ids :: seq(|maps|, i requires 0 <= i < |maps| => maps[i][id])
  }

  /** Nothing is lost or mixed up between messages and signers. */
  lemma TransposeRoundTrip<T>(stored: map<Identifier, seq<T>>, n: nat)
    requires AllHaveLength(stored, n)
    ensures Collect(Transpose(stored, n), stored.Keys) == stored
  {
    var back := Collect(Transpose(stored, n), stored.Keys);
    forall id | id in stored ensures back[id] == stored[id] {
      assert |back[id]| == |stored[id]|;
      forall i | 0 <= i < n ensures back[id][i] == stored[id][i] {
      }
    }
  }

  /** What the coordinator builds its signing packages from: in a valid session
      no index is out of range. */
  function CommitmentsByMessage(s: CoordinatorState): (r: seq<map<Identifier, Commitments>>)
    requires s.WaitingForSignatureShares? && Valid(s)
    ensures |r| == s.args.numMessages
    ensures forall i, id :: 0 <= i < |r| && id in s.commitments ==> id in r[i] && r[i][id] == s.commitments[id][i]
    ensures forall i :: 0 <= i < |r| ==> |r[i]| == s.args.numSigners
  {
    var r := Transpose(s.commitments, s.args.numMessages);
    assert forall i :: 0 <= i < |r| ==> |r[i].Keys| == |s.commitments.Keys| && |r[i]| == |r[i].Keys|;
    r
  }

  function SharesByMessage(s: CoordinatorState): (r: seq<map<Identifier, SignatureShare>>)
    requires s.SignatureSharesReady? && Valid(s)
    ensures |r| == s.args.numMessages
    ensures forall i, id :: 0 <= i < |r| && id in s.shares ==> id in r[i] && r[i][id] == s.shares[id][i]
    ensures forall i :: 0 <= i < |r| ==> |r[i]| == s.args.numSigners
  {
    var r := Transpose(s.shares, s.args.numMessages);
    assert forall i :: 0 <= i < |r| ==> |r[i].Keys| == |s.shares.Keys| && |r[i]| == |r[i].Keys|;
    r
  }
}
