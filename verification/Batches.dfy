/** Streams of messages that arrive in batches. */
module Batches {

  function Flatten<T>(batches: seq<seq<T>>): seq<T> {
    if batches == [] then [] else Flatten(batches[..|batches| - 1]) + batches[|batches| - 1]
  }

  /** What has arrived at the first k batch boundaries. */
  function Arrived<T>(batches: seq<seq<T>>, k: nat): seq<T>
    requires k <= |batches|
  {
    Flatten(batches[..k])
  }

  lemma ArrivedNext<T>(batches: seq<seq<T>>, k: nat)
    requires k < |batches|
    ensures Arrived(batches, k + 1) == Arrived(batches, k) + batches[k]
  {
    assert batches[..k + 1][..k] == batches[..k];
  }

  /** What arrives later comes after. */
  lemma {:induction false} ArrivedPrefix<T>(batches: seq<seq<T>>, j: nat, k: nat)
    requires j <= k <= |batches|
    ensures Arrived(batches, j) <= Arrived(batches, k)
  {
    hide Arrived;
    if j < k {
      ArrivedPrefix(batches, j, k - 1);
      ArrivedNext(batches, k - 1);
    }
  }

  /** The boundary at which the count of messages first reaches a positive number. */
  lemma {:induction false} ReachedAt<T>(batches: seq<seq<T>>, k: nat, count: nat) returns (i: nat)
    requires k <= |batches| && 0 < count <= |Arrived(batches, k)|
    ensures 0 < i <= k && |Arrived(batches, i - 1)| < count <= |Arrived(batches, i)|
  {
    if |Arrived(batches, k - 1)| < count {
      i := k;
    } else {
      i := ReachedAt(batches, k - 1, count);
    }
  }
}
