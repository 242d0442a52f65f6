/** Hashing with a prefix: a sponge that absorbs the prefix, permutes, and absorbs the data. */
module Hashing {
  import opened Wrappers
  import opened Bytes
  import opened ZkappTx
  import opened BitPacking

  datatype TxError = InvalidCallDepths | InvalidAuthorizationKind | InvalidPrefix

  /** Twenty stars and twelve zeros. */
  function Stars(): (s: seq<Byte>)
    ensures |s| == 32
  {
    seq<Byte>(20, _ => 42) + Zeros(12)
  }

  function PrefixBytes(prefix: seq<Byte>): (s: seq<Byte>)
    requires |prefix| <= 32
    ensures |s| == 32
  {
    prefix + Stars()[|prefix|..]
  }

  /** A prefix as a residue: padded to 32 bytes, read without the top bit. */
  function Param(prefix: seq<Byte>): Result<nat, TxError> {
    if |prefix| > 32 then Err(InvalidPrefix)
    else
      var value := ByteValue(PrefixBytes(prefix));
      if value < MODULUS then Ok(value) else Err(InvalidPrefix)
  }

  lemma ParamBytes(param: seq<Byte>)
    requires |param| <= 32
    ensures var bytes: seq<Byte> := seq(32, i requires 0 <= i < 32 =>
                                     if i < |param| then param[i] else if i < 20 then '*' as int else 0);
      bytes == PrefixBytes(param) && ByteValue(bytes) == FromLittleEndian(bytes) % BIT_255
  {
    hide FromLittleEndian;
    var bytes: seq<Byte> := seq(32, i requires 0 <= i < 32 =>
                              if i < |param| then param[i] else if i < 20 then '*' as int else 0);
    assert bytes == PrefixBytes(param);
  }

  method ParamToField(param: seq<Byte>) returns (result: Result<nat, TxError>)
    ensures result == Param(param)
    ensures result.Err? ==> result.error == InvalidPrefix
    ensures |param| > 32 ==> result.Err?
    ensures |param| <= 32 ==>
      var bytes: seq<Byte> := seq(32, i requires 0 <= i < 32 =>
                                if i < |param| then param[i] else if i < 20 then '*' as int else 0);
      && (result.Ok? <==> FromLittleEndian(bytes) % BIT_255 < MODULUS)
      && (result.Ok? ==> result.value == FromLittleEndian(bytes) % BIT_255)
  {
    if |param| <= 32 { ParamBytes(param); }
    hide ByteValue;
    var length := |param|;
    if length > 32 {
      return Err(InvalidPrefix);
    }
    var fp := new Byte[32](i requires 0 <= i < 32 => Stars()[i]);
    assert fp[..] == Stars();
    forall i | 0 <= i < length {
      fp[i] := param[i];
    }
    assert fp[..] == PrefixBytes(param);
    var value := ByteValue(fp[..]);
    if value < MODULUS {
      return Ok(value);
    }
    return Err(InvalidPrefix);
  }

  lemma {:induction false} TrailingZeros(s: seq<Byte>, n: nat)
    ensures FromLittleEndian(s + Zeros(n)) == FromLittleEndian(s)
    decreases |s|, n
  {
    if s == [] {
      assert s + Zeros(n) == Zeros(n);
      if n > 0 {
        assert Zeros(n)[1..] == Zeros(n - 1);
        TrailingZeros([], n - 1);
        assert [] + Zeros(n - 1) == Zeros(n - 1);
      }
    } else {
      assert (s + Zeros(n))[1..] == s[1..] + Zeros(n);
      TrailingZeros(s[1..], n);
    }
  }

  /** Up to 20 bytes: the stars are in the low part, and the high bytes are zero. */
  function Starred(prefix: seq<Byte>): (s: seq<Byte>)
    requires |prefix| <= 20
    ensures |s| == 20
  {
    prefix + seq<Byte>(20 - |prefix|, _ => 42)
  }

  lemma ShortPrefix(prefix: seq<Byte>)
    requires |prefix| <= 20
    ensures Param(prefix) == Ok(FromLittleEndian(Starred(prefix)))
  {
    hide FromLittleEndian, ByteValue, Pow2;
    var s := Starred(prefix);
    assert PrefixBytes(prefix) == s + Zeros(12);
    TrailingZeros(s, 12);
    ByteValueBound(s);
    Pow2Monotone(160, 254);
    ModulusBound();
    FullByteValue(s + Zeros(12));
  }

  lemma FullByteValue(bytes: seq<Byte>)
    requires |bytes| == 32 && FromLittleEndian(bytes) < BIT_255
    ensures ByteValue(bytes) == FromLittleEndian(bytes)
  {
    hide FromLittleEndian;
    SmallRemainder(FromLittleEndian(bytes), BIT_255);
  }

  /** Prefixes of exactly 20 bytes, as those of networks are, keep their identity. */
  lemma FullPrefixesDiffer(p: seq<Byte>, q: seq<Byte>)
    requires |p| == |q| == 20 && Param(p) == Param(q)
    ensures p == q
  {
    hide FromLittleEndian, Param;
    ShortPrefix(p);
    ShortPrefix(q);
    assert Starred(p) == p && Starred(q) == q;
    EncodeLittleEndian(p);
    EncodeLittleEndian(q);
  }

  /** Data is absorbed two elements at a time, so an odd last one is as if followed by zero. */
  function PadEven(data: seq<Fp>): seq<Fp> {
    if |data| % 2 == 0 then data else data + [ZERO]
  }

  lemma PadEvenInjective(a: seq<Fp>, b: seq<Fp>)
    requires |a| == |b| && PadEven(a) == PadEven(b)
    ensures a == b
  {
    assert a == PadEven(a)[..|a|] && b == PadEven(b)[..|b|];
  }

  function HashNoInput(prefix: nat): Fp {
    Digest(prefix)
  }

  function HashWith(prefix: nat, data: seq<Fp>): Fp {
    Hashed(prefix, PadEven(data))
  }

  function HashWithPrefix(prefix: seq<Byte>, data: seq<Fp>): Result<Fp, TxError> {
    var p :- Param(prefix);
    Ok(HashWith(p, data))
  }

  lemma HashPairInjective(prefix: nat, a: Fp, b: Fp, c: Fp, d: Fp)
    ensures HashWith(prefix, [a, b]) == HashWith(prefix, [c, d]) <==> a == c && b == d
  {
    if HashWith(prefix, [a, b]) == HashWith(prefix, [c, d]) {
      assert [a, b] == [c, d];
      assert [a, b][0] == [c, d][0] && [a, b][1] == [c, d][1];
    }
  }

  // ---------------------------------------------------------------------
  // The prefixes of the protocol
  // ---------------------------------------------------------------------

  datatype Prefix = Node | Cons | Memo | EventsEmpty | Events | Event | ActionsEmpty | Actions | ActionStateEmpty | Uri

  function Name(p: Prefix): (s: string)
    ensures |s| <= 28 && forall i :: 0 <= i < |s| ==> s[i] as int < 128
  {
    match p
    case Node => "MinaAcctUpdateNode**"
    case Cons => "MinaAcctUpdateCons**"
    case Memo => "MinaZkappMemo"
    case EventsEmpty => "MinaZkappEventsEmpty"
    case Events => "MinaZkappEvents"
    case Event => "MinaZkappEvent"
    case ActionsEmpty => "MinaZkappActionsEmpty"
    case Actions => "MinaZkappSeqEvents"
    case ActionStateEmpty => "MinaZkappActionStateEmptyElt"
    case Uri => "MinaZkappUri"
  }

  lemma ConstantPrefix(p: Prefix)
    ensures Param(Ascii(Name(p))).Ok?
  {
    hide FromLittleEndian, ByteValue, Pow2, Name;
    var s := PrefixBytes(Ascii(Name(p)));
    assert s == s[..28] + Zeros(4);
    TrailingZeros(s[..28], 4);
    ByteValueBound(s[..28]);
    Pow2Monotone(224, 254);
    ModulusBound();
    FullByteValue(s);
  }

  /** The residue of one of the protocol's own prefixes. */
  function Of(p: Prefix): nat {
    ConstantPrefix(p);
    Param(Ascii(Name(p))).value
  }
}
