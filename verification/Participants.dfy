/** Participants of a session: their communication keys, and the protocol
    identifiers derived from them. */
module Participants {

  datatype PublicKey = PublicKey(bytes: seq<bv8>)
  datatype Identifier = Identifier(scalar: nat)

  /** Distinct public keys have distinct identifiers. */
  ghost predicate Injective(pubkeys: map<PublicKey, Identifier>) {
    forall p, q :: p in pubkeys && q in pubkeys && pubkeys[p] == pubkeys[q] ==> p == q
  }

  lemma {:induction false} ValuesCount(pubkeys: map<PublicKey, Identifier>)
    requires Injective(pubkeys)
    ensures |pubkeys.Values| == |pubkeys|
  {
    if |pubkeys| == 0 {
      assert pubkeys.Keys == {};
      assert pubkeys.Values == {};
    } else {
      var p :| p in pubkeys;
      var rest := pubkeys - {p};
      assert rest.Keys == pubkeys.Keys - {p};
      assert pubkeys.Values == rest.Values + {pubkeys[p]} by {
        forall v | v in pubkeys.Values ensures v in rest.Values + {pubkeys[p]} {
          var q :| q in pubkeys && pubkeys[q] == v;
          if q != p { assert q in rest && rest[q] == v; }
        }
        forall v | v in rest.Values ensures v in pubkeys.Values {
          var q :| q in rest && rest[q] == v;
          assert q in pubkeys && pubkeys[q] == v;
        }
      }
      assert pubkeys[p] !in rest.Values;
      ValuesCount(rest);
    }
  }

  lemma SubsetCount<T>(a: set<T>, b: set<T>)
    requires a <= b
    ensures |a| <= |b|
    ensures |a| == |b| <==> a == b
  {
    assert b == a + (b - a);
    assert |b| == |a| + |b - a|;
    assert a == b <==> b - a == {};
  }
}
