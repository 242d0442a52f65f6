/** The session state machine of one distributed-key-generation participant:
    Round 1, an echo broadcast of the Round 1 packages, Round 2. */
module DkgSession {

  import opened Participants
  import opened Wrappers

  datatype Round1Package = Round1Package(bytes: seq<bv8>)
  datatype Round2Package = Round2Package(bytes: seq<bv8>)

  /** What a decrypted message body parses as. The receiver's state decides
      which parser is applied; every other body is a parse error there. */
  datatype Payload =
    | Round1(round1: Round1Package)
    | Echo(original: Identifier, echoed: Round1Package)
    | Round2(round2: Round2Package)
    | Malformed

  datatype Msg = Msg(sender: PublicKey, payload: Payload)

  type Round1Map = map<Identifier, Round1Package>
  type EchoMap = map<Identifier, map<Identifier, Round1Package>>
  type Round2Map = map<Identifier, Round2Package>

  datatype State =
    | WaitingForRound1Packages(pubkeys: map<PublicKey, Identifier>, round1: Round1Map)
    | WaitingForRound1PackagesBroadcast(pubkeys: map<PublicKey, Identifier>, round1: Round1Map, echoes: EchoMap)
    | WaitingForRound2Packages(pubkeys: map<PublicKey, Identifier>, round1: Round1Map, round2: Round2Map)
    | Round2PackagesReady(pubkeys: map<PublicKey, Identifier>, round2: Round2Map)
  {
    predicate HasRound1Packages() {
      WaitingForRound1PackagesBroadcast? || WaitingForRound2Packages?
    }

    predicate HasRound1BroadcastPackages() {
      WaitingForRound2Packages?
    }

    predicate HasRound2Packages() {
      Round2PackagesReady?
    }
  }

  datatype Error =
    | ParseError
    | WrongState
    | UnknownParticipant
    | OwnPackageEchoed
    | RedundantEcho
    | PackageNotFound
    | BroadcastMismatch
    | DuplicatedEcho

  datatype Outcome = Accepted | Rejected(error: Error)

  // ---------------------------------------------------------------------
  // Specification of one received message
  // ---------------------------------------------------------------------

  function Others(pubkeys: map<PublicKey, Identifier>, self: Identifier): set<Identifier> {
    pubkeys.Values - {self}
  }

  /** The echo broadcast is complete: every pair of distinct known senders
      (k, j) has an echo of k's package by j, there is no echo by anyone else,
      and every echo repeats the package k sent first. */
  predicate EchoComplete(round1: Round1Map, echoes: EchoMap) {
    && echoes.Keys == round1.Keys
    && forall k :: k in echoes ==>
         && echoes[k].Keys + {k} == round1.Keys
         && forall j :: j in echoes[k] ==> k in round1 && echoes[k][j] == round1[k]
  }

  function AddEcho(echoes: EchoMap, k: Identifier, j: Identifier, pkg: Round1Package): EchoMap {
    echoes[k := (if k in echoes then echoes[k] else map[])[j := pkg]]
  }

  function AfterRound1(pubkeys: map<PublicKey, Identifier>, round1: Round1Map): State {
    if |round1| != |pubkeys| - 1 then WaitingForRound1Packages(pubkeys, round1)
    else if |pubkeys| > 2 then WaitingForRound1PackagesBroadcast(pubkeys, round1, map[])
    else WaitingForRound2Packages(pubkeys, round1, map[])
  }

  function AfterEcho(pubkeys: map<PublicKey, Identifier>, round1: Round1Map, echoes: EchoMap): State {
    if EchoComplete(round1, echoes) then WaitingForRound2Packages(pubkeys, round1, map[])
    else WaitingForRound1PackagesBroadcast(pubkeys, round1, echoes)
  }

  function AfterRound2(pubkeys: map<PublicKey, Identifier>, round1: Round1Map, round2: Round2Map): State {
    if round2.Keys == round1.Keys then Round2PackagesReady(pubkeys, round2)
    else WaitingForRound2Packages(pubkeys, round1, round2)
  }

  function RecvRound1(s: State, sender: PublicKey, pkg: Round1Package): (State, Outcome)
    requires s.WaitingForRound1Packages?
  {
    if sender !in s.pubkeys then (s, Rejected(UnknownParticipant))
    else (AfterRound1(s.pubkeys, s.round1[s.pubkeys[sender] := pkg]), Accepted)
  }

  /** Why an echo is refused before it is stored, if it is. */
  function EchoError(s: State, self: Identifier, sender: PublicKey, k: Identifier, pkg: Round1Package): Option<Error>
    requires s.WaitingForRound1PackagesBroadcast?
  {
    if sender !in s.pubkeys then Some(UnknownParticipant)
    else if k !in s.pubkeys.Values then Some(UnknownParticipant)
    else if k == self then Some(OwnPackageEchoed)
    else if k == s.pubkeys[sender] then Some(RedundantEcho)
    else if k !in s.round1 then Some(PackageNotFound)
    else if s.round1[k] != pkg then Some(BroadcastMismatch)
    else None
  }

  /** An echo is stored before the test for a duplicate, so a duplicate is
      refused with the map already overwritten. */
  function RecvEcho(s: State, self: Identifier, sender: PublicKey, k: Identifier, pkg: Round1Package): (State, Outcome)
    requires s.WaitingForRound1PackagesBroadcast?
  {
    match EchoError(s, self, sender, k, pkg)
    case Some(e) => (s, Rejected(e))
    case None =>
      var j := s.pubkeys[sender];
      var echoes := AddEcho(s.echoes, k, j, pkg);
      if k in s.echoes && j in s.echoes[k] then (s.(echoes := echoes), Rejected(DuplicatedEcho))
      else (AfterEcho(s.pubkeys, s.round1, echoes), Accepted)
  }

  function RecvRound2(s: State, sender: PublicKey, pkg: Round2Package): (State, Outcome)
    requires s.WaitingForRound2Packages?
  {
    if sender !in s.pubkeys then (s, Rejected(UnknownParticipant))
    else if s.pubkeys[sender] !in s.round1 then (s, Rejected(UnknownParticipant))
    else (AfterRound2(s.pubkeys, s.round1, s.round2[s.pubkeys[sender] := pkg]), Accepted)
  }

  function Recv(s: State, self: Identifier, msg: Msg): (State, Outcome) {
    match s
    case WaitingForRound1Packages(_, _) =>
      if msg.payload.Round1? then RecvRound1(s, msg.sender, msg.payload.round1)
      else (s, Rejected(ParseError))
    case WaitingForRound1PackagesBroadcast(_, _, _) =>
      if msg.payload.Echo? then RecvEcho(s, self, msg.sender, msg.payload.original, msg.payload.echoed)
      else (s, Rejected(ParseError))
    case WaitingForRound2Packages(_, _, _) =>
      if msg.payload.Round2? then RecvRound2(s, msg.sender, msg.payload.round2)
      else (s, Rejected(ParseError))
    case Round2PackagesReady(_, _) => (s, Rejected(WrongState))
  }

  // ---------------------------------------------------------------------
  // The mutable session
  // ---------------------------------------------------------------------

  class Session {
    var state: State

    constructor (pubkeys: map<PublicKey, Identifier>)
      ensures state == WaitingForRound1Packages(pubkeys, map[])
    {
      state := WaitingForRound1Packages(pubkeys, map[]);
    }

    method HandleRound1Package(pubkey: PublicKey, pkg: Round1Package) returns (r: Outcome)
      requires state.WaitingForRound1Packages?
      modifies this
      ensures (state, r) == RecvRound1(old(state), pubkey, pkg)
    {
      if pubkey !in state.pubkeys {
        return Rejected(UnknownParticipant);
      }
      var identifier := state.pubkeys[pubkey];
      state := WaitingForRound1Packages(state.pubkeys, state.round1[identifier := pkg]);
      if |state.round1| == |state.pubkeys| - 1 {
        if |state.pubkeys| > 2 {
          state := WaitingForRound1PackagesBroadcast(state.pubkeys, state.round1, map[]);
        } else {
          state := WaitingForRound2Packages(state.pubkeys, state.round1, map[]);
        }
      }
      r := Accepted;
    }

    method HandleRound1PackageBroadcast(pubkey: PublicKey, self: Identifier, original: Identifier, pkg: Round1Package)
      returns (r: Outcome)
      requires state.WaitingForRound1PackagesBroadcast?
      modifies this
      ensures (state, r) == RecvEcho(old(state), self, pubkey, original, pkg)
    {
      if pubkey !in state.pubkeys {
        return Rejected(UnknownParticipant);
      }
      var sender := state.pubkeys[pubkey];
      if original !in state.pubkeys.Values {
        return Rejected(UnknownParticipant);
      }
      if original == self {
        return Rejected(OwnPackageEchoed);
      }
      if original == sender {
        return Rejected(RedundantEcho);
      }
      if original !in state.round1 {
        return Rejected(PackageNotFound);
      }
      if state.round1[original] != pkg {
        return Rejected(BroadcastMismatch);
      }
      // The entry is created if it is missing, the echo is stored in place,
      // and only the value it displaced tells whether it was a duplicate.
      var entry := if original in state.echoes then state.echoes[original] else map[];
      var displaced := sender in entry;
      state := state.(echoes := state.echoes[original := entry[sender := pkg]]);
      if displaced {
        return Rejected(DuplicatedEcho);
      }
      if EchoComplete(state.round1, state.echoes) {
        state := WaitingForRound2Packages(state.pubkeys, state.round1, map[]);
      }
      r := Accepted;
    }

    method HandleRound2Package(pubkey: PublicKey, pkg: Round2Package) returns (r: Outcome)
      requires state.WaitingForRound2Packages?
      modifies this
      ensures (state, r) == RecvRound2(old(state), pubkey, pkg)
    {
      if pubkey !in state.pubkeys {
        return Rejected(UnknownParticipant);
      }
      var identifier := state.pubkeys[pubkey];
      if identifier !in state.round1 {
        return Rejected(UnknownParticipant);
      }
      state := state.(round2 := state.round2[identifier := pkg]);
      if state.round2.Keys == state.round1.Keys {
        state := Round2PackagesReady(state.pubkeys, state.round2);
      }
      r := Accepted;
    }

    /** One received message. In a state that meets the invariant a refused
        message leaves the session exactly as it was. */
    method Receive(msg: Msg, self: Identifier) returns (r: Outcome)
      modifies this
      ensures (state, r) == Recv(old(state), self, msg)
      ensures EchoesRepeatOriginals(old(state)) && r.Rejected? ==> state == old(state)
    {
      if EchoesRepeatOriginals(state) && Recv(state, self, msg).1.Rejected? {
        RejectedMeansUnchanged(state, self, msg);
      }
      match state
      case WaitingForRound1Packages(_, _) =>
        if !msg.payload.Round1? {
          return Rejected(ParseError);
        }
        r := HandleRound1Package(msg.sender, msg.payload.round1);
      case WaitingForRound1PackagesBroadcast(_, _, _) =>
        if !msg.payload.Echo? {
          return Rejected(ParseError);
        }
        r := HandleRound1PackageBroadcast(msg.sender, self, msg.payload.original, msg.payload.echoed);
      case WaitingForRound2Packages(_, _, _) =>
        if !msg.payload.Round2? {
          return Rejected(ParseError);
        }
        r := HandleRound2Package(msg.sender, msg.payload.round2);
      case Round2PackagesReady(_, _) =>
        return Rejected(WrongState);
    }
  }

  // ---------------------------------------------------------------------
  // Rejected means unchanged
  // ---------------------------------------------------------------------

  /** Every stored echo repeats the package its original sender sent first. */
  ghost predicate Repeats(round1: Round1Map, echoes: EchoMap) {
    forall k, j :: k in echoes && j in echoes[k] ==> k in round1 && echoes[k][j] == round1[k]
  }

  ghost predicate EchoesRepeatOriginals(s: State) {
    s.WaitingForRound1PackagesBroadcast? ==> Repeats(s.round1, s.echoes)
  }

  lemma RejectedMeansUnchanged(s: State, self: Identifier, msg: Msg)
    requires EchoesRepeatOriginals(s)
    requires Recv(s, self, msg).1.Rejected?
    ensures Recv(s, self, msg).0 == s
  {
    if Recv(s, self, msg).1 == Rejected(DuplicatedEcho) {
      RejectedUnchangedExactly(s, self, msg);
    }
  }

  /** For an arbitrary state: a refused message changes nothing exactly when it
      is no duplicate echo, or the echo it displaces carried the same package. */
  lemma RejectedUnchangedExactly(s: State, self: Identifier, msg: Msg)
    requires Recv(s, self, msg).1.Rejected?
    ensures Recv(s, self, msg).0 == s <==>
            (Recv(s, self, msg).1 == Rejected(DuplicatedEcho) ==>
               s.echoes[msg.payload.original][s.pubkeys[msg.sender]] == msg.payload.echoed)
  {
    if Recv(s, self, msg).1 == Rejected(DuplicatedEcho) {
      var k, j, pkg := msg.payload.original, s.pubkeys[msg.sender], msg.payload.echoed;
      assert EchoError(s, self, msg.sender, k, pkg) == None;
      var added := AddEcho(s.echoes, k, j, pkg);
      assert Recv(s, self, msg).0 == s.(echoes := added);
      assert added[k][j] == pkg;
      if s.echoes[k][j] == pkg {
        assert added[k] == s.echoes[k];
        assert added == s.echoes;
      }
    }
  }

  // ---------------------------------------------------------------------
  // Invariant of a session
  // ---------------------------------------------------------------------

  /** Echoes concern known senders, are never made by the original sender,
      and repeat what that sender sent. */
  ghost predicate EchoesValid(round1: Round1Map, echoes: EchoMap) {
    && echoes.Keys <= round1.Keys
    && Repeats(round1, echoes)
    && (forall k, j :: k in echoes && j in echoes[k] ==> j in round1 && j != k)
  }

  ghost predicate Valid(s: State, self: Identifier) {
    && Injective(s.pubkeys)
    && self in s.pubkeys.Values
    && match s
       case WaitingForRound1Packages(pubkeys, round1) =>
         round1.Keys <= Others(pubkeys, self) && (|pubkeys| > 1 ==> round1.Keys != Others(pubkeys, self))
       case WaitingForRound1PackagesBroadcast(pubkeys, round1, echoes) =>
         && |pubkeys| > 2
         && round1.Keys == Others(pubkeys, self)
         && EchoesValid(round1, echoes)
         && !EchoComplete(round1, echoes)
       case WaitingForRound2Packages(pubkeys, round1, round2) =>
         round1.Keys == Others(pubkeys, self) && round2.Keys < round1.Keys
       case Round2PackagesReady(pubkeys, round2) =>
         round2.Keys == Others(pubkeys, self)
  }

  lemma RecvKeepsPubkeys(s: State, self: Identifier, msg: Msg)
    ensures var after := Recv(s, self, msg).0;
            && after.pubkeys == s.pubkeys
            && (s.WaitingForRound1Packages? ==> after.WaitingForRound1Packages? || after.HasRound1Packages())
  {
  }

  lemma OthersCount(pubkeys: map<PublicKey, Identifier>, self: Identifier)
    requires Injective(pubkeys) && self in pubkeys.Values
    ensures |Others(pubkeys, self)| == |pubkeys| - 1
  {
    ValuesCount(pubkeys);
  }

  /** A sender's identifier, as the receiver `self` resolves it. */
  lemma SenderIsOther(s: State, self: Identifier, sender: PublicKey)
    requires Valid(s, self) && sender in s.pubkeys && s.pubkeys[sender] != self
    ensures s.pubkeys[sender] in Others(s.pubkeys, self)
  {
    assert s.pubkeys[sender] in s.pubkeys.Values;
  }

  lemma RecvRound1KeepsValid(s: State, self: Identifier, sender: PublicKey, pkg: Round1Package)
    requires Valid(s, self) && s.WaitingForRound1Packages?
    requires sender in s.pubkeys && s.pubkeys[sender] != self
    ensures Valid(RecvRound1(s, sender, pkg).0, self)
  {
    var others := Others(s.pubkeys, self);
    var round1 := s.round1[s.pubkeys[sender] := pkg];
    SenderIsOther(s, self, sender);
    OthersCount(s.pubkeys, self);
    assert round1.Keys == s.round1.Keys + {s.pubkeys[sender]};
    SubsetCount(round1.Keys, others);
    if |round1| == |s.pubkeys| - 1 && |s.pubkeys| > 2 {
      assert s.pubkeys[sender] in round1;
      assert !EchoComplete(round1, map[]);
    }
  }

  lemma AddEchoKeepsValid(round1: Round1Map, echoes: EchoMap, k: Identifier, j: Identifier, pkg: Round1Package)
    requires EchoesValid(round1, echoes)
    requires k in round1 && j in round1 && j != k && pkg == round1[k]
    ensures EchoesValid(round1, AddEcho(echoes, k, j, pkg))
    ensures k in echoes && j in echoes[k] ==> AddEcho(echoes, k, j, pkg) == echoes
  {
    var added := AddEcho(echoes, k, j, pkg);
    forall k', j' | k' in added && j' in added[k']
      ensures k' in round1 && j' in round1 && j' != k' && added[k'][j'] == round1[k']
    {
      if k' != k || j' != j {
        assert k' in echoes && j' in echoes[k'] && added[k'][j'] == echoes[k'][j'];
      }
    }
    if k in echoes && j in echoes[k] {
      assert added[k] == echoes[k];
    }
  }

  lemma RecvEchoKeepsValid(s: State, self: Identifier, sender: PublicKey, k: Identifier, pkg: Round1Package)
    requires Valid(s, self) && s.WaitingForRound1PackagesBroadcast?
    requires sender in s.pubkeys && s.pubkeys[sender] != self
    ensures Valid(RecvEcho(s, self, sender, k, pkg).0, self)
  {
    SenderIsOther(s, self, sender);
    if EchoError(s, self, sender, k, pkg) == None {
      AddEchoKeepsValid(s.round1, s.echoes, k, s.pubkeys[sender], pkg);
    }
  }

  /** Every message from somebody else keeps the invariant. */
  lemma RecvKeepsValid(s: State, self: Identifier, msg: Msg)
    requires Valid(s, self)
    requires msg.sender in s.pubkeys ==> s.pubkeys[msg.sender] != self
    ensures Valid(Recv(s, self, msg).0, self)
  {
    if msg.sender in s.pubkeys {
      match s
      case WaitingForRound1Packages(_, _) =>
        if msg.payload.Round1? { RecvRound1KeepsValid(s, self, msg.sender, msg.payload.round1); }
      case WaitingForRound1PackagesBroadcast(_, _, _) =>
        if msg.payload.Echo? {
          RecvEchoKeepsValid(s, self, msg.sender, msg.payload.original, msg.payload.echoed);
        }
      case WaitingForRound2Packages(_, _, _) =>
      case Round2PackagesReady(_, _) =>
    }
  }
}
