/** The call forest: a flat list with call depths, rebuilt as trees by a loop that recurs. */
module CallForest {
  import opened ZkappTx

  newtype u32 = x: int | 0 <= x < 0x1_0000_0000

  const MAX_UPDATES: nat := 0x1_0000_0000

  datatype CallTree = CallTree(accountUpdate: AccountUpdate, children: seq<CallTree>)

  class Deque {
    var items: seq<AccountUpdate>

    constructor (items: seq<AccountUpdate>)
      ensures this.items == items
    {
      this.items := items;
    }

    method PopFront() returns (first: AccountUpdate)
      requires items != []
      modifies this
      ensures first == old(items[0]) && items == old(items[1..])
    {
      first := items[0];
      items := items[1..];
    }
  }

  // ---------------------------------------------------------------------
  // The forest, and what the loop leaves
  // ---------------------------------------------------------------------

  function Depth(u: AccountUpdate): nat {
    u.body.callDepth
  }

  /** Trees as long as the next update is at this depth or deeper, and the updates that remain. */
  function Step(updates: seq<AccountUpdate>, depth: nat): (r: (seq<CallTree>, seq<AccountUpdate>))
    ensures |r.1| <= |updates|
    ensures r.1 != [] ==> Depth(r.1[0]) < depth
    decreases |updates|
  {
    if updates == [] || Depth(updates[0]) < depth then ([], updates)
    else
      var (children, later) := Step(updates[1..], depth + 1);
      var (siblings, rest) := Step(later, depth);
      ([CallTree(updates[0], children)] + siblings, rest)
  }

  function Build(updates: seq<AccountUpdate>): seq<CallTree> {
    Step(updates, 0).0
  }

  lemma StepOnce(forest: seq<CallTree>, updates: seq<AccountUpdate>, depth: nat)
    requires updates != [] && Depth(updates[0]) >= depth
    ensures var (children, later) := Step(updates[1..], depth + 1);
      && forest + Step(updates, depth).0 == forest + [CallTree(updates[0], children)] + Step(later, depth).0
      && Step(updates, depth).1 == Step(later, depth).1
  {
    var (children, later) := Step(updates[1..], depth + 1);
    assert Step(updates, depth).0 == [CallTree(updates[0], children)] + Step(later, depth).0;
  }

  /** The depth cannot overflow: it is below the number of updates already taken. */
  method CallForestStep(updates: Deque, depth: u32) returns (forest: seq<CallTree>)
    requires depth as int + |updates.items| < MAX_UPDATES
    modifies updates
    ensures (forest, updates.items) == Step(old(updates.items), depth as int)
    decreases |updates.items|
  {
    ghost var all := Step(updates.items, depth as int);
    forest := [];
    assert [] + all.0 == all.0;
    while updates.items != []
      invariant |updates.items| <= |old(updates.items)|
      invariant all.0 == forest + Step(updates.items, depth as int).0
      invariant all.1 == Step(updates.items, depth as int).1
      decreases |updates.items|
    {
      if updates.items[0].body.callDepth < depth as int {
        assert forest + [] == forest;
        return;
      }
      StepOnce(forest, updates.items, depth as int);
      var accountUpdate := updates.PopFront();
      var children := CallForestStep(updates, depth + 1);
      forest := forest + [CallTree(accountUpdate, children)];
    }
    assert forest + [] == forest;
  }

  /** From 2^32 updates on, the depth counter could overflow. */
  method FromUpdates(updates: seq<AccountUpdate>) returns (forest: seq<CallTree>)
    requires |updates| < MAX_UPDATES
    ensures forest == Build(updates)
  {
    var deque := new Deque(updates);
    forest := CallForestStep(deque, 0);
  }

  // ---------------------------------------------------------------------
  // Preorder
  // ---------------------------------------------------------------------

  function Preorder(forest: seq<CallTree>): seq<AccountUpdate> {
    if forest == [] then []
    else [forest[0].accountUpdate] + Preorder(forest[0].children) + Preorder(forest[1..])
  }

  /** The nesting level of every update, in preorder. */
  function Levels(forest: seq<CallTree>, level: nat): seq<nat> {
    if forest == [] then []
    else [level] + Levels(forest[0].children, level + 1) + Levels(forest[1..], level)
  }

  lemma PreorderTree(tree: CallTree, siblings: seq<CallTree>, later: seq<AccountUpdate>, rest: seq<AccountUpdate>)
    requires Preorder(siblings) + rest == later
    ensures Preorder([tree] + siblings) + rest == [tree.accountUpdate] + (Preorder(tree.children) + later)
  {
    assert ([tree] + siblings)[1..] == siblings;
    assert Preorder([tree] + siblings) == [tree.accountUpdate] + Preorder(tree.children) + Preorder(siblings);
  }

  lemma {:induction false} PreorderStep(updates: seq<AccountUpdate>, depth: nat)
    ensures Preorder(Step(updates, depth).0) + Step(updates, depth).1 == updates
    decreases |updates|
  {
    hide Preorder;
    if updates != [] && Depth(updates[0]) >= depth {
      var (children, later) := Step(updates[1..], depth + 1);
      var (siblings, rest) := Step(later, depth);
      PreorderStep(updates[1..], depth + 1);
      PreorderStep(later, depth);
      PreorderTree(CallTree(updates[0], children), siblings, later, rest);
      assert updates == [updates[0]] + updates[1..];
    } else {
      PreorderNothing(updates);
    }
  }

  lemma PreorderNothing(updates: seq<AccountUpdate>)
    ensures Preorder([]) + updates == updates
  {
  }

  /** Nothing is lost or moved: the forest in preorder is the list, whatever its call depths. */
  lemma BuildIsExact(updates: seq<AccountUpdate>)
    ensures Preorder(Build(updates)) == updates
    ensures Step(updates, 0).1 == []
  {
    PreorderStep(updates, 0);
  }

  // ---------------------------------------------------------------------
  // Valid call depths
  // ---------------------------------------------------------------------

  function Depths(updates: seq<AccountUpdate>): (s: seq<nat>)
    ensures |s| == |updates| && forall i :: 0 <= i < |s| ==> s[i] == Depth(updates[i])
  {
    seq(|updates|, i requires 0 <= i < |updates| => Depth(updates[i]))
  }

  /** No step goes down by more than one level. */
  predicate Gradual(s: seq<nat>) {
    forall i :: 0 <= i < |s| - 1 ==> s[i + 1] <= s[i] + 1
  }

  predicate DepthsValid(updates: seq<AccountUpdate>) {
    updates == [] || (Depth(updates[0]) == 0 && Gradual(Depths(updates)))
  }

  /** The comparison with current + 1 cannot overflow: current is below the number of updates. */
  method IsCallDepthValid(updates: seq<AccountUpdate>) returns (valid: bool)
    requires |updates| < MAX_UPDATES
    ensures valid <==> DepthsValid(updates)
  {
    var s := Depths(updates);
    if updates == [] {
      return true;
    }
    var current := updates[0].body.callDepth as u32;
    if current != 0 {
      return false;
    }
    for i := 1 to |updates|
      invariant current as int == s[i - 1] < i
      invariant Gradual(s[..i])
    {
      var callDepth := updates[i].body.callDepth as u32;
      if callDepth <= current + 1 {
        current := callDepth;
      } else {
        assert s[(i - 1) + 1] > s[i - 1] + 1;
        return false;
      }
    }
    assert s[..|updates|] == s;
    return true;
  }

  lemma GradualConcat(a: seq<nat>, b: seq<nat>)
    requires Gradual(a) && Gradual(b)
    requires a != [] && b != [] ==> b[0] <= a[|a| - 1] + 1
    ensures Gradual(a + b)
  {
    forall i | 0 <= i < |a + b| - 1 ensures (a + b)[i + 1] <= (a + b)[i] + 1 {
      if i >= |a| { assert b[(i - |a|) + 1] <= b[i - |a|] + 1; }
    }
  }

  /** Nesting levels start at the level of the forest, never rise above it, and are gradual. */
  lemma {:induction false} LevelsAreGradual(forest: seq<CallTree>, level: nat)
    ensures Gradual(Levels(forest, level))
    ensures forest != [] ==> Levels(forest, level) != [] && Levels(forest, level)[0] == level
    ensures forall i :: 0 <= i < |Levels(forest, level)| ==> Levels(forest, level)[i] >= level
  {
    hide Gradual;
    if forest == [] {
      GradualEmpty();
    } else {
      var inner, outer := Levels(forest[0].children, level + 1), Levels(forest[1..], level);
      LevelsAreGradual(forest[0].children, level + 1);
      LevelsAreGradual(forest[1..], level);
      GradualOne(level);
      GradualConcat([level], inner);
      GradualConcat([level] + inner, outer);
    }
  }

  lemma GradualEmpty()
    ensures Gradual([])
  {
  }

  lemma GradualOne(level: nat)
    ensures Gradual([level])
  {
  }

  lemma GradualRest(s: seq<nat>, k: nat)
    requires Gradual(s) && k <= |s|
    ensures Gradual(s[k..])
  {
    forall i | 0 <= i < |s[k..]| - 1 ensures s[k..][i + 1] <= s[k..][i] + 1 {
      assert s[(k + i) + 1] <= s[k + i] + 1;
    }
  }

  lemma LevelsOfTree(tree: CallTree, siblings: seq<CallTree>, depth: nat, later: seq<nat>, rest: seq<nat>)
    requires Levels(siblings, depth) + rest == later
    ensures Levels([tree] + siblings, depth) + rest == [depth] + (Levels(tree.children, depth + 1) + later)
  {
    assert ([tree] + siblings)[1..] == siblings;
    assert Levels([tree] + siblings, depth) == [depth] + Levels(tree.children, depth + 1) + Levels(siblings, depth);
  }

  lemma LevelsNothing(s: seq<nat>, depth: nat)
    ensures Levels([], depth) + s == s
  {
  }

  /** What the inner step leaves is a suffix, so its depths are gradual too. */
  lemma Suffix(updates: seq<AccountUpdate>, depth: nat)
    requires updates != [] && Gradual(Depths(updates))
    ensures var later := Step(updates[1..], depth).1;
      Gradual(Depths(updates[1..])) && Gradual(Depths(later))
    ensures |updates| > 1 ==> Depth(updates[1]) <= Depth(updates[0]) + 1
  {
    hide Step, Preorder;
    var (children, later) := Step(updates[1..], depth);
    PreorderStep(updates[1..], depth);
    var k := |updates| - |later|;
    SuffixOf(updates, Preorder(children), later);
    assert Depths(updates)[1..] == Depths(updates[1..]) && Depths(updates)[k..] == Depths(later);
    GradualRest(Depths(updates), 1);
    GradualRest(Depths(updates), k);
    if |updates| > 1 { FirstStep(updates); }
  }

  /** Where depths are gradual and do not start too deep, the forest nests as they say. */
  lemma {:induction false} GradualDepthsAreLevels(updates: seq<AccountUpdate>, depth: nat)
    requires Gradual(Depths(updates))
    requires updates != [] ==> Depth(updates[0]) <= depth
    ensures Levels(Step(updates, depth).0, depth) + Depths(Step(updates, depth).1) == Depths(updates)
    decreases |updates|
  {
    hide Gradual, Levels, Depths;
    if updates != [] && Depth(updates[0]) >= depth {
      StepTree(updates, depth);
      hide Step;
      var (children, later) := Step(updates[1..], depth + 1);
      var (siblings, rest) := Step(later, depth);
      Suffix(updates, depth + 1);
      GradualDepthsAreLevels(updates[1..], depth + 1);
      GradualDepthsAreLevels(later, depth);
      LevelsOfTree(CallTree(updates[0], children), siblings, depth, Depths(later), Depths(rest));
      DepthsOfFirst(updates);
    } else {
      LevelsNothing(Depths(updates), depth);
    }
  }

  lemma StepTree(updates: seq<AccountUpdate>, depth: nat)
    requires updates != [] && Depth(updates[0]) >= depth
    ensures var (children, later) := Step(updates[1..], depth + 1);
      var (siblings, rest) := Step(later, depth);
      |later| < |updates| && Step(updates, depth) == ([CallTree(updates[0], children)] + siblings, rest)
  {
  }

  lemma DepthsOfFirst(updates: seq<AccountUpdate>)
    requires updates != []
    ensures Depths(updates) == [Depth(updates[0])] + Depths(updates[1..])
  {
  }

  lemma FirstStep(updates: seq<AccountUpdate>)
    requires Gradual(Depths(updates)) && |updates| > 1
    ensures Depth(updates[1]) <= Depth(updates[0]) + 1
  {
    assert Depths(updates)[0 + 1] <= Depths(updates)[0] + 1;
  }

  lemma SuffixOf(updates: seq<AccountUpdate>, taken: seq<AccountUpdate>, later: seq<AccountUpdate>)
    requires updates != [] && taken + later == updates[1..]
    ensures updates[|updates| - |later|..] == later
  {
    assert updates == [updates[0]] + taken + later;
  }

  /** A list is valid exactly if every call depth is the nesting level of its update in the forest. */
  lemma ValidExactly(updates: seq<AccountUpdate>)
    ensures DepthsValid(updates) <==> Levels(Build(updates), 0) == Depths(updates)
  {
    hide Gradual;
    BuildIsExact(updates);
    LevelsAreGradual(Build(updates), 0);
    if updates != [] && DepthsValid(updates) {
      GradualDepthsAreLevels(updates, 0);
    }
  }
}
