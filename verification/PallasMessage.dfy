/** The versioned byte format of the message whose hash is the signing challenge. */
module PallasMessage {
  import opened Wrappers
  import opened Bytes
  import opened Networks

  const VERSION: Byte := 1
  const U32: nat := 0x1_0000_0000

  datatype Message<R> = Message(input: R, networkId: NetworkId, isLegacy: bool)

  datatype Error = SerializationError | DeserializationError

  /** Reading past the end of the input panics. */
  datatype Reading<R> = Accepted(message: Message<R>) | Refused(error: Error) | Panics

  /** What the libraries below provide: random-oracle inputs as bytes, and UTF-8 validation. */
  datatype Codec<!R> = Codec(
    serialize: R -> seq<Byte>,
    deserialize: seq<Byte> -> Option<R>,
    ofBytes: seq<Byte> -> R,
    utf8: seq<Byte> -> bool)

  ghost predicate Decodes<R>(c: Codec<R>, r: R) {
    c.deserialize(c.serialize(r)) == Some(r)
  }

  ghost predicate Reencodes<R>(c: Codec<R>, bytes: seq<Byte>) {
    c.deserialize(bytes).Some? ==> c.serialize(c.deserialize(bytes).value) == bytes
  }

  /** Every input has one encoding, and different raw bytes are different inputs. */
  ghost predicate Canonical<R(!new)>(c: Codec<R>) {
    && (forall r :: Decodes(c, r))
    && (forall bytes :: Reencodes(c, bytes))
    && (forall a, b :: c.ofBytes(a) == c.ofBytes(b) ==> a == b)
  }

  // ---------------------------------------------------------------------
  // Serialization
  // ---------------------------------------------------------------------

  function NetworkBytes(n: NetworkId): seq<Byte> {
    match n
    case Testnet => [0]
    case Mainnet => [1]
    case Custom(name) => [2] + LittleEndian(|name|, 1) + name
  }

  function Flag(b: bool): Byte {
    if b then 1 else 0
  }

  function Serialized<R>(c: Codec<R>, m: Message<R>): Result<seq<Byte>, Error> {
    var roi := c.serialize(m.input);
    if m.networkId.Custom? && |m.networkId.name| > MAX_PREFIX_LENGTH then Err(SerializationError)
    else Ok([VERSION] + NetworkBytes(m.networkId) + [Flag(m.isLegacy)] + LittleEndian(|roi|, 4) + roi)
  }

  method Serialize<R>(c: Codec<R>, m: Message<R>) returns (result: Result<seq<Byte>, Error>)
    ensures result == Serialized(c, m)
  {
    hide LittleEndian;
    var roi := c.serialize(m.input);
    var out := [VERSION];
    match m.networkId {
      case Testnet => out := out + [0];
      case Mainnet => out := out + [1];
      case Custom(s) =>
        if |s| > MAX_PREFIX_LENGTH { return Err(SerializationError); }
        out := out + [2];
        out := out + LittleEndian(|s|, 1);
        out := out + s;
    }
    assert out == [VERSION] + NetworkBytes(m.networkId);
    out := out + [Flag(m.isLegacy)];
    out := out + LittleEndian(|roi|, 4);
    out := out + roi;
    result := Ok(out);
  }

  /** Version 1, the kind of network with a custom name after its length, the legacy flag,
      the length of the body in four bytes, lowest first, and the body. */
  lemma SerializedBytes<R>(c: Codec<R>, m: Message<R>)
    requires Serialized(c, m).Ok?
    ensures var out, body := Serialized(c, m).value, c.serialize(m.input);
      var name := if m.networkId.Custom? then m.networkId.name else [];
      var k := if m.networkId.Custom? then 3 + |name| else 2;
      && |out| == k + 5 + |body| && |name| <= 20
      && out[0] == 1
      && out[1] == (if m.networkId.Testnet? then 0 else if m.networkId.Mainnet? then 1 else 2)
      && (m.networkId.Custom? ==> out[2] == |name| && out[3..k] == name)
      && out[k] == (if m.isLegacy then 1 else 0)
      && (forall i :: 0 <= i < 4 ==> out[k + 1 + i] == |body| / Pow256(i) % 256)
      && out[k + 5..] == body
  {
    hide LittleEndian;
    var out, body := Serialized(c, m).value, c.serialize(m.input);
    var head := [VERSION] + NetworkBytes(m.networkId);
    if m.networkId.Custom? {
      var name := m.networkId.name;
      LittleEndianAt(|name|, 1, 0);
      assert head == [VERSION, 2, |name|] + name;
    }
    assert out == head + [Flag(m.isLegacy)] + LittleEndian(|body|, 4) + body;
    forall i | 0 <= i < 4 ensures out[|head| + 1 + i] == |body| / Pow256(i) % 256 {
      LittleEndianAt(|body|, 4, i);
    }
  }

  // ---------------------------------------------------------------------
  // Deserialization
  // ---------------------------------------------------------------------

  function ReadNetwork<R>(c: Codec<R>, input: seq<Byte>): Option<(NetworkId, nat)>
    requires |input| >= 3
  {
    if input[1] == 0 then Some((Testnet, 2))
    else if input[1] == 1 then Some((Mainnet, 2))
    else if input[1] == 2 then
      var length := input[2];
      if length > MAX_PREFIX_LENGTH || |input| < 3 + length || !c.utf8(input[3..3 + length]) then None
      else Some((Custom(input[3..3 + length]), 3 + length))
    else None
  }

  /** What follows the network: the legacy flag, the length of the body, and the body. */
  function ReadRest<R>(c: Codec<R>, networkId: NetworkId, input: seq<Byte>, offset: nat): Reading<R>
    requires offset < |input|
  {
    if input[offset] > 1 then Refused(DeserializationError)
    else if |input| < offset + 5 then Refused(DeserializationError)
    else
      var length := FromLittleEndian(input[offset + 1..offset + 5]);
      if |input| != offset + 5 + length then Refused(DeserializationError)
      else
        match c.deserialize(input[offset + 5..])
        case None => Refused(DeserializationError)
        case Some(roi) => Accepted(Message(roi, networkId, input[offset] == 1))
  }

  function Deserialize<R>(c: Codec<R>, input: seq<Byte>): Reading<R> {
    if |input| < 3 || input[0] != VERSION then Refused(DeserializationError)
    else
      match ReadNetwork(c, input)
      case None => Refused(DeserializationError)
      case Some((networkId, offset)) =>
        if offset >= |input| then Panics else ReadRest(c, networkId, input, offset)
  }

  /** Reading panics exactly on an input that ends right after a well-formed custom name. */
  lemma PanicsExactly<R>(c: Codec<R>, input: seq<Byte>)
    ensures Deserialize(c, input).Panics? <==>
      && |input| >= 3 && input[0] == VERSION && input[1] == 2
      && input[2] <= MAX_PREFIX_LENGTH && |input| - 3 == input[2]
      && c.utf8(input[3..])
  {
    if |input| >= 3 {
      var length: int := input[2];
      assert |input| == 3 + length ==> input[3..3 + length] == input[3..];
    }
  }

  // ---------------------------------------------------------------------
  // Round trips
  // ---------------------------------------------------------------------

  lemma FourBytes()
    ensures Pow256(4) == U32 && Pow256(1) == 256
  {
    assert Pow256(1) == 256 * Pow256(0);
    assert Pow256(2) == 256 * Pow256(1);
    assert Pow256(3) == 256 * Pow256(2);
  }

  lemma RestReadsBack<R(!new)>(c: Codec<R>, m: Message<R>, head: seq<Byte>)
    requires Canonical(c)
    ensures var roi := c.serialize(m.input);
      var read := ReadRest(c, m.networkId, head + [Flag(m.isLegacy)] + LittleEndian(|roi|, 4) + roi, |head|);
      if |roi| < U32 then read == Accepted(m) else read == Refused(DeserializationError)
  {
    hide LittleEndian, FromLittleEndian, Canonical;
    var roi := c.serialize(m.input);
    var size := LittleEndian(|roi|, 4);
    var input := head + [Flag(m.isLegacy)] + size + roi;
    assert input[|head|] == Flag(m.isLegacy);
    assert input[|head| + 1..|head| + 5] == size;
    assert input[|head| + 5..] == roi;
    DecodeLittleEndian(|roi|, 4);
    FourBytes();
    CanonicalDecodes(c, m.input);
  }

  lemma CanonicalDecodes<R(!new)>(c: Codec<R>, r: R)
    requires Canonical(c)
    ensures c.deserialize(c.serialize(r)) == Some(r)
  {
    assert Decodes(c, r);
  }

  lemma CanonicalReencodes<R(!new)>(c: Codec<R>, bytes: seq<Byte>)
    requires Canonical(c) && c.deserialize(bytes).Some?
    ensures c.serialize(c.deserialize(bytes).value) == bytes
  {
    assert Reencodes(c, bytes);
  }

  lemma NetworkReadsBack<R>(c: Codec<R>, n: NetworkId, rest: seq<Byte>)
    requires rest != []
    requires n.Custom? ==> |n.name| <= MAX_PREFIX_LENGTH && c.utf8(n.name)
    ensures ReadNetwork(c, [VERSION] + NetworkBytes(n) + rest) == Some((n, 1 + |NetworkBytes(n)|))
  {
    if n.Custom? {
      assert LittleEndian(|n.name|, 1) == [|n.name| % 256] + LittleEndian(|n.name| / 256, 0);
      var input := [VERSION] + NetworkBytes(n) + rest;
      assert input[3..3 + |n.name|] == n.name;
    }
  }

  /**
   * A serialized message is read back exactly if the body's length fits its 32-bit
   * field; otherwise the truncated length makes the reader refuse it.
   */
  lemma SerializedReadsBack<R(!new)>(c: Codec<R>, m: Message<R>)
    requires Canonical(c)
    requires m.networkId.Custom? ==> c.utf8(m.networkId.name)
    ensures Serialized(c, m).Ok? <==> (m.networkId.Custom? ==> |m.networkId.name| <= MAX_PREFIX_LENGTH)
    ensures Serialized(c, m).Ok? ==>
      (Deserialize(c, Serialized(c, m).value) == Accepted(m) <==> |c.serialize(m.input)| < U32)
  {
    hide LittleEndian, FromLittleEndian, Canonical, ReadRest, ReadNetwork, NetworkBytes;
    if Serialized(c, m).Ok? {
      var roi := c.serialize(m.input);
      var rest := [Flag(m.isLegacy)] + LittleEndian(|roi|, 4) + roi;
      var head := [VERSION] + NetworkBytes(m.networkId);
      var input := Serialized(c, m).value;
      assert input == head + rest == head + [Flag(m.isLegacy)] + LittleEndian(|roi|, 4) + roi;
      NetworkReadsBack(c, m.networkId, rest);
      RestReadsBack(c, m, head);
    }
  }

  lemma RestReencodes<R(!new)>(c: Codec<R>, n: NetworkId, input: seq<Byte>, offset: nat)
    requires Canonical(c) && offset < |input| && ReadRest(c, n, input, offset).Accepted?
    ensures var m := ReadRest(c, n, input, offset).message;
      var roi := c.serialize(m.input);
      && m.networkId == n && |roi| < U32
      && input == input[..offset] + [Flag(m.isLegacy)] + LittleEndian(|roi|, 4) + roi
  {
    hide LittleEndian, FromLittleEndian, Canonical;
    var size := input[offset + 1..offset + 5];
    EncodeLittleEndian(size);
    FourBytes();
    CanonicalReencodes(c, input[offset + 5..]);
    assert input == input[..offset] + [input[offset]] + size + input[offset + 5..];
  }

  lemma NetworkReencodes<R>(c: Codec<R>, input: seq<Byte>)
    requires |input| >= 3 && input[0] == VERSION && ReadNetwork(c, input).Some?
    ensures var (n, offset) := ReadNetwork(c, input).value;
      && offset <= |input| && input[..offset] == [VERSION] + NetworkBytes(n)
      && (n.Custom? ==> |n.name| <= MAX_PREFIX_LENGTH && c.utf8(n.name))
  {
    var (n, offset) := ReadNetwork(c, input).value;
    if n.Custom? {
      assert LittleEndian(|n.name|, 1) == [|n.name| % 256] + LittleEndian(|n.name| / 256, 0);
      assert input[..offset] == [VERSION, 2, input[2]] + input[3..offset];
    }
  }

  /** Every accepted byte string is the serialization of the message that was read. */
  lemma AcceptedReserializes<R(!new)>(c: Codec<R>, input: seq<Byte>)
    requires Canonical(c) && Deserialize(c, input).Accepted?
    ensures var m := Deserialize(c, input).message;
      && Serialized(c, m) == Ok(input) && |c.serialize(m.input)| < U32
      && (m.networkId.Custom? ==> c.utf8(m.networkId.name))
  {
    hide LittleEndian, FromLittleEndian, Canonical, ReadRest, ReadNetwork, NetworkBytes;
    NetworkReencodes(c, input);
    var (n, offset) := ReadNetwork(c, input).value;
    RestReencodes(c, n, input, offset);
  }

  // ---------------------------------------------------------------------
  // The message that is challenged
  // ---------------------------------------------------------------------

  function RawDefault<R>(c: Codec<R>, bytes: seq<Byte>): Message<R> {
    Message(c.ofBytes(bytes), Testnet, true)
  }

  /** Bytes that cannot be read are hashed as they are; a panic leaves no message. */
  function ChallengeMessage<R>(c: Codec<R>, bytes: seq<Byte>): Option<Message<R>> {
    match Deserialize(c, bytes)
    case Accepted(m) => Some(m)
    case Refused(_) => Some(RawDefault(c, bytes))
    case Panics => None
  }

  /** Refused bytes are challenged as raw bytes, for the testnet and in the legacy mode. */
  lemma RefusedIsRaw<R>(c: Codec<R>, bytes: seq<Byte>)
    requires Deserialize(c, bytes).Refused?
    ensures ChallengeMessage(c, bytes).Some?
    ensures var m := ChallengeMessage(c, bytes).value;
      m.input == c.ofBytes(bytes) && m.networkId.Testnet? && m.isLegacy
  {
    hide Deserialize;
  }

  /** One byte string stands in for another that it wraps as a raw testnet message. */
  ghost predicate Wraps<R>(c: Codec<R>, wrapped: seq<Byte>, raw: seq<Byte>) {
    Deserialize(c, raw).Refused? && Deserialize(c, wrapped) == Accepted(RawDefault(c, raw))
  }

  /**
   * Two different byte strings are challenged as the same message exactly if one is
   * unreadable and the other is its explicit encoding as a raw legacy testnet message.
   */
  lemma SameChallengeExactly<R(!new)>(c: Codec<R>, a: seq<Byte>, b: seq<Byte>)
    requires Canonical(c)
    requires !Deserialize(c, a).Panics? && !Deserialize(c, b).Panics?
    ensures ChallengeMessage(c, a) == ChallengeMessage(c, b) <==> a == b || Wraps(c, a, b) || Wraps(c, b, a)
  {
    hide Deserialize, Serialized;
    if Deserialize(c, a).Accepted? { AcceptedReserializes(c, a); }
    if Deserialize(c, b).Accepted? { AcceptedReserializes(c, b); }
  }

  /** Signed messages that were serialized are challenged as themselves, so never as each other. */
  lemma SerializedChallengesDiffer<R(!new)>(c: Codec<R>, m: Message<R>, n: Message<R>)
    requires Canonical(c)
    requires m.networkId.Custom? ==> c.utf8(m.networkId.name)
    requires n.networkId.Custom? ==> c.utf8(n.networkId.name)
    requires Serialized(c, m).Ok? && Serialized(c, n).Ok?
    requires |c.serialize(m.input)| < U32 && |c.serialize(n.input)| < U32
    ensures ChallengeMessage(c, Serialized(c, m).value) == Some(m)
    ensures Serialized(c, m) == Serialized(c, n) <==> m == n
  {
    hide Deserialize, Serialized, Canonical;
    SerializedReadsBack(c, m);
    SerializedReadsBack(c, n);
  }
}
