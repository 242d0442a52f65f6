/** Network identifiers and the prefixes derived from them. */
module Networks {
  import opened Bytes

  const MAX_PREFIX_LENGTH: nat := 20

  /** A custom name is given by its UTF-8 bytes. */
  datatype NetworkId = Testnet | Mainnet | Custom(name: seq<Byte>)

  predicate Continues(b: Byte) {
    128 <= b < 192
  }

  /** The bytes of the first n characters. */
  function TakeChars(s: seq<Byte>, n: nat): seq<Byte>
    decreases |s|
  {
    if s == [] then []
    else if Continues(s[0]) then [s[0]] + TakeChars(s[1..], n)
    else if n == 0 then []
    else [s[0]] + TakeChars(s[1..], n - 1)
  }

  /** Short prefixes are filled up with stars; long ones are cut after 20 characters. */
  function CreateCustomPrefix(prefix: seq<Byte>): seq<Byte> {
    if |prefix| <= MAX_PREFIX_LENGTH then prefix + seq<Byte>(MAX_PREFIX_LENGTH - |prefix|, _ => 42)
    else TakeChars(prefix, MAX_PREFIX_LENGTH)
  }

  function BodyPrefix(n: NetworkId): seq<Byte> {
    match n
    case Mainnet => Ascii("MainnetZkappBody****")
    case Testnet => Ascii("TestnetZkappBody****")
    case Custom(name) => CreateCustomPrefix(name + Ascii("ZkappBody"))
  }

  /** The name of the network, then the purpose, then stars up to 20 characters. */
  lemma MainnetPrefix()
    ensures BodyPrefix(Mainnet) == Ascii("Mainnet") + Ascii("ZkappBody") + Stars(4)
  {
    assert "MainnetZkappBody****" == "Mainnet" + "ZkappBody" + "****";
  }

  lemma TestnetPrefix()
    ensures BodyPrefix(Testnet) == Ascii("Testnet") + Ascii("ZkappBody") + Stars(4)
  {
    assert "TestnetZkappBody****" == "Testnet" + "ZkappBody" + "****";
  }

  lemma ShortCustomPrefix(name: seq<Byte>)
    requires |name| <= 11
    ensures BodyPrefix(Custom(name)) == name + Ascii("ZkappBody") + Stars(11 - |name|)
  {
    var long := name + Ascii("ZkappBody");
    assert long + Stars(20 - |long|) == long + Stars(11 - |name|);
  }

  function Stars(n: nat): (s: seq<Byte>)
    ensures |s| == n && forall i :: 0 <= i < n ==> s[i] == '*' as int
  {
    seq(n, _ => 42)
  }

  /** Characters: every byte but those that continue one. */
  function Characters(s: seq<Byte>): nat {
    if s == [] then 0 else Characters(s[1..]) + if 128 <= s[0] < 192 then 0 else 1
  }

  /** A cut keeps whole characters from the front: all of them, or the first n. */
  lemma {:induction false} TakesCharacters(s: seq<Byte>, n: nat)
    ensures TakeChars(s, n) <= s
    ensures Characters(TakeChars(s, n)) == if Characters(s) < n then Characters(s) else n
    ensures Characters(s) <= n ==> TakeChars(s, n) == s
    ensures |TakeChars(s, n)| < |s| ==> !(128 <= s[|TakeChars(s, n)|] < 192)
  {
    if s != [] {
      var m := if Continues(s[0]) then n else if n == 0 then 0 else n - 1;
      TakesCharacters(s[1..], m);
      if Continues(s[0]) || n > 0 {
        var rest := TakeChars(s[1..], m);
        assert ([s[0]] + rest)[1..] == rest;
        assert s == [s[0]] + s[1..];
      }
    }
  }

  /** A long custom prefix is its first 20 characters. */
  lemma LongPrefix(name: seq<Byte>)
    requires |name| > 11
    ensures var whole := name + Ascii("ZkappBody");
      && BodyPrefix(Custom(name)) <= whole
      && Characters(BodyPrefix(Custom(name))) == if Characters(whole) < 20 then Characters(whole) else 20
  {
    TakesCharacters(name + Ascii("ZkappBody"), 20);
  }

  predicate AllAscii(s: seq<Byte>) {
    forall i :: 0 <= i < |s| ==> s[i] < 128
  }

  lemma {:induction false} TakeAscii(s: seq<Byte>, n: nat)
    requires AllAscii(s) && n <= |s|
    ensures TakeChars(s, n) == s[..n]
  {
    if n == 0 {
      assert s == [] || !Continues(s[0]);
    } else {
      TakeAscii(s[1..], n - 1);
      assert s[..n] == [s[0]] + s[1..][..n - 1];
    }
  }

  predicate AsciiName(n: NetworkId) {
    n.Custom? ==> AllAscii(n.name)
  }

  /** Names of ASCII characters give prefixes of exactly 20 bytes, which is what can be hashed. */
  lemma AsciiPrefix(name: seq<Byte>)
    requires AllAscii(name)
    ensures |BodyPrefix(Custom(name))| == MAX_PREFIX_LENGTH
    ensures |name| <= 11 ==> name + Ascii("ZkappBody") <= BodyPrefix(Custom(name))
  {
    var s := name + Ascii("ZkappBody");
    assert AllAscii(s);
    if |s| > MAX_PREFIX_LENGTH { TakeAscii(s, MAX_PREFIX_LENGTH); }
  }

  lemma BodyPrefixSize(n: NetworkId)
    requires AsciiName(n)
    ensures |BodyPrefix(n)| == MAX_PREFIX_LENGTH
  {
    if n.Custom? { AsciiPrefix(n.name); }
  }
}
