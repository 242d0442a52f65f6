/** Keeping the first acceptable message of every sender. */
module FirstHeard {

  import opened Wrappers

  /** A received message, reduced to its sender and what it would contribute. */
  datatype Entry<K, V> = Entry(sender: K, value: Option<V>)

  /** The first value heard from each sender. */
  ghost function Heard<K, V>(entries: seq<Entry<K, V>>): map<K, V> {
    if entries == [] then map[]
    else
      var heard, last := Heard(entries[..|entries| - 1]), entries[|entries| - 1];
      if last.value.Some? && last.sender !in heard then heard[last.sender := last.value.value] else heard
  }

  /** Entry i is the first acceptable one of its sender. */
  ghost predicate FirstOf<K, V>(entries: seq<Entry<K, V>>, i: int) {
    && 0 <= i < |entries| && entries[i].value.Some?
    && forall j :: 0 <= j < i && entries[j].sender == entries[i].sender ==> entries[j].value.None?
  }

  /** Heard says exactly this: a sender is in it if and only if some entry of
      its is acceptable, and then with the value of the first such entry. */
  lemma {:induction false} HeardIsFirst<K, V>(entries: seq<Entry<K, V>>, k: K)
    ensures k in Heard(entries) <==> exists i :: 0 <= i < |entries| && entries[i].sender == k && entries[i].value.Some?
    ensures forall i :: FirstOf(entries, i) && entries[i].sender == k ==>
              k in Heard(entries) && Heard(entries)[k] == entries[i].value.value
  {
    if entries != [] {
      var n := |entries| - 1;
      var front := entries[..n];
      HeardIsFirst(front, k);
      assert forall i :: 0 <= i < n ==> front[i] == entries[i];
      forall i | FirstOf(entries, i) && entries[i].sender == k
        ensures k in Heard(entries) && Heard(entries)[k] == entries[i].value.value
      {
        if i < n {
          assert FirstOf(front, i);
        } else {
          assert k !in Heard(front);
        }
      }
      if k in Heard(front) {
        var i :| 0 <= i < |front| && front[i].sender == k && front[i].value.Some?;
        assert entries[i].sender == k && entries[i].value.Some?;
      }
    }
  }

  /** Every sender has at most one acceptable entry. */
  ghost predicate OncePerSender<K, V>(entries: seq<Entry<K, V>>) {
    forall i, j :: 0 <= i < |entries| && 0 <= j < |entries| && i != j ==>
      entries[i].value.Some? && entries[j].value.Some? ==> entries[i].sender != entries[j].sender
  }

  lemma OnceIsFirst<K, V>(entries: seq<Entry<K, V>>, i: nat)
    requires OncePerSender(entries) && i < |entries| && entries[i].value.Some?
    ensures entries[i].sender in Heard(entries) && Heard(entries)[entries[i].sender] == entries[i].value.value
  {
    HeardIsFirst(entries, entries[i].sender);
    assert FirstOf(entries, i);
  }

  lemma HeardWithin<K, V>(a: seq<Entry<K, V>>, b: seq<Entry<K, V>>, k: K)
    requires OncePerSender(a) && OncePerSender(b) && k in Heard(a)
    requires forall e :: e in a ==> e in b
    ensures k in Heard(b) && Heard(b)[k] == Heard(a)[k]
  {
    HeardIsFirst(a, k);
    var i :| 0 <= i < |a| && a[i].sender == k && a[i].value.Some?;
    OnceIsFirst(a, i);
    assert a[i] in a;
    var j :| 0 <= j < |b| && b[j] == a[i];
    OnceIsFirst(b, j);
  }

  /** With one acceptable entry per sender, the order does not matter. */
  lemma HeardInAnyOrder<K, V>(a: seq<Entry<K, V>>, b: seq<Entry<K, V>>)
    requires OncePerSender(a) && OncePerSender(b)
    requires forall e :: e in a <==> e in b
    ensures Heard(a) == Heard(b)
  {
    forall k | k in Heard(a) ensures k in Heard(b) && Heard(b)[k] == Heard(a)[k] { HeardWithin(a, b, k); }
    forall k | k in Heard(b) ensures k in Heard(a) { HeardWithin(b, a, k); }
  }

  ghost predicate Complete<K, V>(heard: map<K, V>, n: nat) {
    heard != map[] && |heard| == n
  }

  ghost function AddUntil<K, V>(heard: map<K, V>, e: Entry<K, V>, n: nat): map<K, V> {
    if !Complete(heard, n) && e.value.Some? && e.sender !in heard then heard[e.sender := e.value.value] else heard
  }

  /** As Heard, but nothing is added any more once n senders are in. */
  ghost function HeardUntil<K, V>(entries: seq<Entry<K, V>>, n: nat): map<K, V> {
    if entries == [] then map[] else AddUntil(HeardUntil(entries[..|entries| - 1], n), entries[|entries| - 1], n)
  }

  /** It is what had been heard at the first moment that n senders were in. */
  lemma {:induction false} HeardUntilIsPrefix<K, V>(entries: seq<Entry<K, V>>, n: nat) returns (t: nat)
    ensures t <= |entries| && HeardUntil(entries, n) == Heard(entries[..t])
    ensures t < |entries| ==> Complete(Heard(entries[..t]), n)
    ensures forall u :: 0 <= u < t ==> !Complete(Heard(entries[..u]), n)
  {
    if entries == [] {
      t := 0;
    } else {
      var front := entries[..|entries| - 1];
      t := HeardUntilIsPrefix(front, n);
      assert forall u :: 0 <= u <= |front| ==> front[..u] == entries[..u];
      assert entries[..|entries|] == entries && front[..|front|] == front;
      if !Complete(Heard(front[..t]), n) {
        t := |entries|;
      }
    }
  }

  lemma {:induction false} HeardUntilSenders<K, V>(entries: seq<Entry<K, V>>, n: nat, k: K)
    requires k in HeardUntil(entries, n)
    ensures exists i :: 0 <= i < |entries| && entries[i].sender == k
                        && entries[i].value == Some(HeardUntil(entries, n)[k])
  {
    var front := entries[..|entries| - 1];
    if k in HeardUntil(front, n) {
      HeardUntilSenders(front, n, k);
      var i :| 0 <= i < |front| && front[i].sender == k && front[i].value == Some(HeardUntil(front, n)[k]);
      assert entries[i] == front[i];
    } else {
      assert entries[|entries| - 1].sender == k;
    }
  }

  /** An entry that is the first of its sender stays so in a longer list. */
  lemma FirstOfPrefix<K, V>(entries: seq<Entry<K, V>>, t: nat, i: int)
    requires t <= |entries| && 0 <= i < t
    ensures FirstOf(entries[..t], i) <==> FirstOf(entries, i)
  {
    assert forall j :: 0 <= j < t ==> entries[..t][j] == entries[j];
  }

  lemma {:induction false} FirstExists<K, V>(entries: seq<Entry<K, V>>, i: nat)
    requires i < |entries| && entries[i].value.Some?
    ensures exists j :: 0 <= j <= i && FirstOf(entries, j) && entries[j].sender == entries[i].sender
  {
    if j :| 0 <= j < i && entries[j].sender == entries[i].sender && entries[j].value.Some? {
      FirstExists(entries, j);
    } else {
      assert FirstOf(entries, i);
    }
  }

  /** The value kept for a sender is that of its first acceptable entry. */
  lemma HeardFrom<K, V>(entries: seq<Entry<K, V>>, k: K) returns (i: int)
    requires k in Heard(entries)
    ensures FirstOf(entries, i) && entries[i].sender == k && entries[i].value == Some(Heard(entries)[k])
  {
    HeardIsFirst(entries, k);
    var j :| 0 <= j < |entries| && entries[j].sender == k && entries[j].value.Some?;
    FirstExists(entries, j);
    i :| FirstOf(entries, i) && entries[i].sender == entries[j].sender;
  }
}
