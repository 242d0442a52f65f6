/** The hash input of the ciphersuite: a length-prefixed list of byte segments. */
module Segments {
  import opened Wrappers
  import opened Bytes

  /** Lengths are machine words. */
  const WORDS: nat := 0x1_0000_0000_0000_0000

  predicate Encodable(segments: seq<seq<Byte>>) {
    |segments| < WORDS && forall s :: s in segments ==> |s| < WORDS
  }

  function Body(segments: seq<seq<Byte>>): seq<Byte> {
    if segments == [] then [] else LittleEndian(|segments[0]|, 8) + segments[0] + Body(segments[1..])
  }

  function Encode(segments: seq<seq<Byte>>): seq<Byte> {
    LittleEndian(|segments|, 8) + Body(segments)
  }

  lemma {:induction false} BodyAppend(segments: seq<seq<Byte>>, s: seq<Byte>)
    ensures Body(segments + [s]) == Body(segments) + LittleEndian(|s|, 8) + s
  {
    if segments == [] {
      assert Body([s]) == LittleEndian(|s|, 8) + s + Body([s][1..]);
    } else {
      assert (segments + [s])[1..] == segments[1..] + [s];
      BodyAppend(segments[1..], s);
    }
  }

  method ToRoinput(value: seq<seq<Byte>>) returns (roi: seq<Byte>)
    ensures roi == Encode(value)
  {
    hide LittleEndian;
    roi := [];
    roi := roi + LittleEndian(|value|, 8);
    for i := 0 to |value|
      invariant roi == LittleEndian(|value|, 8) + Body(value[..i])
    {
      assert value[..i + 1] == value[..i] + [value[i]];
      BodyAppend(value[..i], value[i]);
      roi := roi + LittleEndian(|value[i]|, 8);
      roi := roi + value[i];
    }
    assert value[..|value|] == value;
  }

  // ---------------------------------------------------------------------
  // Reading it back
  // ---------------------------------------------------------------------

  function ReadLength(bytes: seq<Byte>): Option<(nat, seq<Byte>)> {
    if |bytes| < 8 then None else Some((FromLittleEndian(bytes[..8]), bytes[8..]))
  }

  /** The given number of segments, and what follows them. */
  function ReadSegments(count: nat, bytes: seq<Byte>): Option<(seq<seq<Byte>>, seq<Byte>)> {
    if count == 0 then Some(([], bytes))
    else
      match ReadLength(bytes)
      case None => None
      case Some((length, rest)) =>
        if |rest| < length then None
        else
          match ReadSegments(count - 1, rest[length..])
          case None => None
          case Some((segments, tail)) => Some(([rest[..length]] + segments, tail))
  }

  function Read(bytes: seq<Byte>): Option<(seq<seq<Byte>>, seq<Byte>)> {
    match ReadLength(bytes)
    case None => None
    case Some((count, rest)) => ReadSegments(count, rest)
  }

  lemma WordSize()
    ensures Pow256(8) == WORDS
  {
    assert Pow256(2) == 0x1_0000;
    assert Pow256(4) == 256 * (256 * Pow256(2));
    assert Pow256(6) == 256 * (256 * Pow256(4));
  }

  lemma LengthReadsBack(n: nat, tail: seq<Byte>)
    requires n < WORDS
    ensures ReadLength(LittleEndian(n, 8) + tail) == Some((n, tail))
  {
    hide LittleEndian, FromLittleEndian;
    DecodeLittleEndian(n, 8);
    WordSize();
    var bytes := LittleEndian(n, 8) + tail;
    assert bytes[..8] == LittleEndian(n, 8) && bytes[8..] == tail;
  }

  lemma SegmentReadsBack(s: seq<Byte>, count: nat, after: seq<Byte>)
    requires |s| < WORDS && ReadSegments(count, after).Some?
    ensures var (segments, tail) := ReadSegments(count, after).value;
            ReadSegments(count + 1, LittleEndian(|s|, 8) + s + after) == Some(([s] + segments, tail))
  {
    hide LittleEndian, FromLittleEndian, ReadLength;
    assert LittleEndian(|s|, 8) + s + after == LittleEndian(|s|, 8) + (s + after);
    LengthReadsBack(|s|, s + after);
    assert (s + after)[..|s|] == s && (s + after)[|s|..] == after;
  }

  lemma {:induction false} SegmentsReadBack(segments: seq<seq<Byte>>, tail: seq<Byte>)
    requires forall s :: s in segments ==> |s| < WORDS
    ensures ReadSegments(|segments|, Body(segments) + tail) == Some((segments, tail))
  {
    hide LittleEndian, FromLittleEndian, ReadLength;
    if segments == [] {
      assert Body(segments) + tail == tail;
    } else {
      var s, rest := segments[0], segments[1..];
      SegmentsReadBack(rest, tail);
      SegmentReadsBack(s, |rest|, Body(rest) + tail);
      assert Body(segments) + tail == LittleEndian(|s|, 8) + s + (Body(rest) + tail);
      assert segments == [s] + rest;
    }
  }

  /** The encoding is recovered whatever bytes follow it. */
  lemma ReadsBack(segments: seq<seq<Byte>>, tail: seq<Byte>)
    requires Encodable(segments)
    ensures Read(Encode(segments) + tail) == Some((segments, tail))
  {
    hide LittleEndian, Body, ReadLength, ReadSegments;
    assert Encode(segments) + tail == LittleEndian(|segments|, 8) + (Body(segments) + tail);
    LengthReadsBack(|segments|, Body(segments) + tail);
    SegmentsReadBack(segments, tail);
  }

  /** Two encodings that agree up to what follows them come from the same list. */
  lemma SelfDelimiting(a: seq<seq<Byte>>, b: seq<seq<Byte>>, afterA: seq<Byte>, afterB: seq<Byte>)
    requires Encodable(a) && Encodable(b)
    requires Encode(a) + afterA == Encode(b) + afterB
    ensures a == b && afterA == afterB
  {
    hide Encode, Read, Encodable;
    ReadsBack(a, afterA);
    ReadsBack(b, afterB);
  }

  /** In particular padding with zeros, as the sponge does, never confuses two lists. */
  lemma PaddingIsHarmless(a: seq<seq<Byte>>, b: seq<seq<Byte>>, i: nat, j: nat)
    requires Encodable(a) && Encodable(b)
    ensures Encode(a) + Zeros(i) == Encode(b) + Zeros(j) <==> a == b && i == j
  {
    hide Encode, Encodable;
    if Encode(a) + Zeros(i) == Encode(b) + Zeros(j) {
      SelfDelimiting(a, b, Zeros(i), Zeros(j));
      assert |Zeros(i)| == |Zeros(j)|;
    }
  }

  // ---------------------------------------------------------------------
  // Domain separation of the hash functions
  // ---------------------------------------------------------------------

  datatype HashFunction = H1 | H3 | H4 | H5 | HDKG | HID

  function Tag(h: HashFunction): seq<Byte> {
    match h
    case H1 => Ascii("rho")
    case H3 => Ascii("nonce")
    case H4 => Ascii("msg")
    case H5 => Ascii("com")
    case HDKG => Ascii("dkg")
    case HID => Ascii("id")
  }

  /** The context string of the suite. */
  function Suite(): seq<Byte> {
    Ascii("bluepallas")
  }

  function HashInput(h: HashFunction, m: seq<Byte>): seq<seq<Byte>> {
    [Suite(), Tag(h), m]
  }

  /** A length below 256 as eight bytes. */
  function ShortLength(n: Byte): (s: seq<Byte>)
    ensures |s| == 8
  {
    [n, 0, 0, 0, 0, 0, 0, 0]
  }

  lemma EncodeThree(a: seq<Byte>, b: seq<Byte>, c: seq<Byte>)
    requires |a| < 256 && |b| < 256
    ensures Encode([a, b, c]) ==
      ShortLength(3) + (ShortLength(|a|) + a + (ShortLength(|b|) + b + (LittleEndian(|c|, 8) + c)))
  {
    hide LittleEndian, Body, ShortLength;
    BodyFirst(c, []);
    BodyFirst(b, [c]);
    BodyFirst(a, [b, c]);
    assert [c] + [] == [c];
    assert [b] + [c] == [b, c];
    assert [a] + [b, c] == [a, b, c];
    NoBody();
    assert LittleEndian(|c|, 8) + c + [] == LittleEndian(|c|, 8) + c;
    SmallLength(3);
    SmallLength(|a|);
    SmallLength(|b|);
  }

  lemma NoBody()
    ensures Body([]) == []
  {
  }

  /** The name under which each hash function of section 6 of RFC 9591 hashes. */
  function TagName(h: HashFunction): (name: string)
    ensures |name| <= 5 && forall i :: 0 <= i < |name| ==> name[i] as int < 128
  {
    match h
    case H1 => "rho"
    case H3 => "nonce"
    case H4 => "msg"
    case H5 => "com"
    case HDKG => "dkg"
    case HID => "id"
  }

  lemma TagIs(h: HashFunction)
    ensures Tag(h) == Ascii(TagName(h)) && Suite() == Ascii("bluepallas") && |Suite()| == 10
  {
  }

  /** What is hashed: three segments, the suite, the tag and the message, each after its length. */
  lemma HashInputBytes(h: HashFunction, m: seq<Byte>)
    ensures Encode(HashInput(h, m)) ==
      ShortLength(3) + (ShortLength(10) + Suite()
      + (ShortLength(|TagName(h)|) + Ascii(TagName(h)) + (LittleEndian(|m|, 8) + m)))
  {
    hide LittleEndian, ShortLength, Encode, Tag, TagName, Suite;
    TagIs(h);
    EncodeThree(Suite(), Tag(h), m);
  }

  lemma BodyFirst(s: seq<Byte>, rest: seq<seq<Byte>>)
    ensures Body([s] + rest) == LittleEndian(|s|, 8) + s + Body(rest)
  {
    assert ([s] + rest)[1..] == rest;
  }

  lemma SmallLength(n: Byte)
    ensures LittleEndian(n, 8) == ShortLength(n)
  {
    assert LittleEndian(n, 8) == [n] + LittleEndian(0, 7);
    assert LittleEndian(0, 7) == [0] + LittleEndian(0, 6);
    assert LittleEndian(0, 6) == [0] + LittleEndian(0, 5);
    assert LittleEndian(0, 5) == [0] + LittleEndian(0, 4);
    assert LittleEndian(0, 4) == [0] + LittleEndian(0, 3);
    assert LittleEndian(0, 3) == [0] + LittleEndian(0, 2);
    assert LittleEndian(0, 2) == [0] + LittleEndian(0, 1);
    assert LittleEndian(0, 1) == [0] + LittleEndian(0, 0);
  }

  lemma TagsDiffer(g: HashFunction, h: HashFunction)
    requires Tag(g) == Tag(h)
    ensures g == h
  {
    assert |Tag(g)| == |Tag(h)| && Tag(g)[0] == Tag(h)[0];
  }

  /** The six hash functions never hash the same padded input, except for equal messages of one of them. */
  lemma HashInputsNeverCoincide(g: HashFunction, h: HashFunction, m: seq<Byte>, n: seq<Byte>, i: nat, j: nat)
    requires |m| < WORDS && |n| < WORDS
    requires Encode(HashInput(g, m)) + Zeros(i) == Encode(HashInput(h, n)) + Zeros(j)
    ensures g == h && m == n
  {
    hide Encode, Tag;
    var a, b := HashInput(g, m), HashInput(h, n);
    assert |Tag(g)| < WORDS && |Tag(h)| < WORDS by { TagsAreShort(g); TagsAreShort(h); }
    SelfDelimiting(a, b, Zeros(i), Zeros(j));
    assert a[1] == b[1] && a[2] == b[2];
    TagsDiffer(g, h);
  }

  lemma TagsAreShort(h: HashFunction)
    ensures |Tag(h)| < WORDS
  {
  }
}
