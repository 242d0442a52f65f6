/** Random-oracle inputs, how they are put together, and when they can be taken apart again. */
module PackedInputs {
  import opened Wrappers
  import opened ZkappTx
  import opened BitPacking

  datatype PackedInput = PackedInput(fields: seq<Fp>, bits: seq<BitData>)

  function OfField(f: Fp): PackedInput {
    PackedInput([f], [])
  }

  function OfBool(b: bool): PackedInput {
    PackedInput([], [BoolBit(b)])
  }

  function Append(a: PackedInput, b: PackedInput): PackedInput {
    PackedInput(a.fields + b.fields, a.bits + b.bits)
  }

  function Concat(parts: seq<PackedInput>): PackedInput {
    if parts == [] then PackedInput([], []) else Append(parts[0], Concat(parts[1..]))
  }

  function PackOption<T>(o: Option<T>, pack: T -> PackedInput, empty: PackedInput): PackedInput {
    Append(OfBool(o.Some?), if o.Some? then pack(o.value) else empty)
  }

  function PackEach<T>(items: seq<T>, pack: T -> PackedInput): (parts: seq<PackedInput>)
    ensures |parts| == |items| && forall i :: 0 <= i < |items| ==> parts[i] == pack(items[i])
  {
    if items == [] then [] else [pack(items[0])] + PackEach(items[1..], pack)
  }

  lemma {:induction false} ConcatSnoc(parts: seq<PackedInput>, p: PackedInput)
    ensures Concat(parts + [p]) == Append(Concat(parts), p)
  {
    if parts == [] {
      assert [p][1..] == [] && [] + [p] == [p];
    } else {
      assert (parts + [p])[1..] == parts[1..] + [p];
      ConcatSnoc(parts[1..], p);
    }
  }

  /** The loop that packs a vector or an array. */
  method PackAll<T>(items: seq<T>, pack: T -> PackedInput) returns (roi: PackedInput)
    ensures roi == Concat(PackEach(items, pack))
  {
    roi := PackedInput([], []);
    for i := 0 to |items|
      invariant roi == Concat(PackEach(items, pack)[..i])
    {
      var parts := PackEach(items, pack);
      assert parts[..i + 1] == parts[..i] + [parts[i]];
      ConcatSnoc(parts[..i], parts[i]);
      roi := Append(roi, pack(items[i]));
    }
    assert PackEach(items, pack)[..|items|] == PackEach(items, pack);
  }

  // ---------------------------------------------------------------------
  // Layout
  // ---------------------------------------------------------------------

  /** As many fields, and bit items of the same kinds and sizes, none of them too long. */
  predicate SameLayout(a: PackedInput, b: PackedInput) {
    |a.fields| == |b.fields| && SameKinds(a.bits, b.bits) && Small(a.bits)
  }

  lemma SameLayoutSymmetric(a: PackedInput, b: PackedInput)
    requires SameLayout(a, b)
    ensures SameLayout(b, a)
  {
    forall i | 0 <= i < |a.bits| ensures SameKind(b.bits[i], a.bits[i]) && Size(b.bits[i]) < 255 {
      assert SameKind(a.bits[i], b.bits[i]);
    }
  }

  lemma SameLayoutTransitive(a: PackedInput, b: PackedInput, c: PackedInput)
    requires SameLayout(a, b) && SameLayout(b, c)
    ensures SameLayout(a, c)
  {
    forall i | 0 <= i < |a.bits| ensures SameKind(a.bits[i], c.bits[i]) {
      assert SameKind(a.bits[i], b.bits[i]) && SameKind(b.bits[i], c.bits[i]);
    }
  }

  lemma AppendLayout(a: PackedInput, b: PackedInput, c: PackedInput, d: PackedInput)
    requires SameLayout(a, b) && SameLayout(c, d)
    ensures SameLayout(Append(a, c), Append(b, d))
  {
    hide SameKind, Size;
    var s, t := Append(a, c).bits, Append(b, d).bits;
    forall i | 0 <= i < |s| ensures SameKind(s[i], t[i]) {
      if i < |a.bits| { assert SameKind(a.bits[i], b.bits[i]); }
      else { assert SameKind(c.bits[i - |a.bits|], d.bits[i - |a.bits|]); }
    }
  }

  lemma AppendInjective(a: PackedInput, b: PackedInput, c: PackedInput, d: PackedInput)
    requires SameLayout(a, b)
    ensures Append(a, c) == Append(b, d) <==> a == b && c == d
  {
    if Append(a, c) == Append(b, d) {
      assert a.fields == (a.fields + c.fields)[..|a.fields|] && b.fields == (b.fields + d.fields)[..|a.fields|];
      assert c.fields == (a.fields + c.fields)[|a.fields|..] && d.fields == (b.fields + d.fields)[|a.fields|..];
      assert a.bits == (a.bits + c.bits)[..|a.bits|] && b.bits == (b.bits + d.bits)[..|a.bits|];
      assert c.bits == (a.bits + c.bits)[|a.bits|..] && d.bits == (b.bits + d.bits)[|a.bits|..];
    }
  }

  ghost predicate SameLayouts(ps: seq<PackedInput>, qs: seq<PackedInput>) {
    |ps| == |qs| && forall i :: 0 <= i < |ps| ==> SameLayout(ps[i], qs[i])
  }

  lemma {:induction false} ConcatLayout(ps: seq<PackedInput>, qs: seq<PackedInput>)
    requires SameLayouts(ps, qs)
    ensures SameLayout(Concat(ps), Concat(qs))
  {
    hide SameLayout;
    if ps == [] {
      EmptyLayout();
    } else {
      ConcatLayout(ps[1..], qs[1..]);
      AppendLayout(ps[0], qs[0], Concat(ps[1..]), Concat(qs[1..]));
    }
  }

  lemma EmptyLayout()
    ensures SameLayout(PackedInput([], []), PackedInput([], []))
  {
  }

  /** Parts of the same layouts can be told apart in their concatenation. */
  lemma {:induction false} ConcatInjective(ps: seq<PackedInput>, qs: seq<PackedInput>)
    requires SameLayouts(ps, qs)
    ensures Concat(ps) == Concat(qs) <==> ps == qs
  {
    hide SameLayout, Append;
    if ps == [] {
    } else {
      ConcatInjective(ps[1..], qs[1..]);
      AppendInjective(ps[0], qs[0], Concat(ps[1..]), Concat(qs[1..]));
      assert ps == [ps[0]] + ps[1..] && qs == [qs[0]] + qs[1..];
    }
  }

  /** Everything of a type packs like the placeholder of that type. */
  ghost predicate Uniform<T(!new)>(pack: T -> PackedInput, empty: PackedInput) {
    forall x :: SameLayout(pack(x), empty)
  }

  lemma UniformPair<T(!new)>(pack: T -> PackedInput, empty: PackedInput, x: T, y: T)
    requires Uniform(pack, empty)
    ensures SameLayout(pack(x), pack(y)) && SameLayout(empty, pack(y))
  {
    hide SameLayout;
    SameLayoutSymmetric(pack(y), empty);
    SameLayoutTransitive(pack(x), empty, pack(y));
  }

  /** Whether present or not, an optional value packs to the same layout. */
  lemma OptionLayout<T(!new)>(pack: T -> PackedInput, empty: PackedInput, a: Option<T>, b: Option<T>)
    requires Uniform(pack, empty) && SameLayout(empty, empty)
    ensures SameLayout(PackOption(a, pack, empty), PackOption(b, pack, empty))
  {
    hide SameLayout;
    var c, d := if a.Some? then pack(a.value) else empty, if b.Some? then pack(b.value) else empty;
    BoolLayout(a.Some?, b.Some?);
    assert SameLayout(c, d) by {
      if b.Some? { UniformPair(pack, empty, if a.Some? then a.value else b.value, b.value); }
    }
    AppendLayout(OfBool(a.Some?), OfBool(b.Some?), c, d);
  }

  lemma BoolLayout(a: bool, b: bool)
    ensures SameLayout(OfBool(a), OfBool(b))
    ensures OfBool(a) == OfBool(b) <==> a == b
  {
    if OfBool(a) == OfBool(b) { assert [BoolBit(a)][0] == [BoolBit(b)][0]; }
  }

  lemma FieldLayout(a: Fp, b: Fp)
    ensures SameLayout(OfField(a), OfField(b))
    ensures OfField(a) == OfField(b) <==> a == b
  {
    if OfField(a) == OfField(b) { assert [a][0] == [b][0]; }
  }

  /** The presence bit tells a missing value from a present one. */
  lemma OptionInjective<T>(pack: T -> PackedInput, empty: PackedInput, a: Option<T>, b: Option<T>)
    ensures PackOption(a, pack, empty) == PackOption(b, pack, empty)
      <==> (a.Some? <==> b.Some?) && (a.Some? && b.Some? ==> pack(a.value) == pack(b.value))
  {
    hide SameLayout, Append;
    BoolLayout(a.Some?, b.Some?);
    AppendInjective(OfBool(a.Some?), OfBool(b.Some?),
                    if a.Some? then pack(a.value) else empty, if b.Some? then pack(b.value) else empty);
  }

  // ---------------------------------------------------------------------
  // From packed inputs to field elements
  // ---------------------------------------------------------------------

  function Residues(s: seq<nat>): (r: seq<Fp>)
    ensures |r| == |s| && forall i :: 0 <= i < |s| ==> r[i] == Residue(s[i])
  {
    if s == [] then [] else [Residue(s[0])] + Residues(s[1..])
  }

  lemma ResiduesInjective(s: seq<nat>, t: seq<nat>)
    requires Residues(s) == Residues(t)
    ensures s == t
  {
    assert |s| == |Residues(s)| == |Residues(t)| == |t|;
    forall i | 0 <= i < |s| ensures s[i] == t[i] {
      assert Residues(s)[i] == Residues(t)[i];
    }
  }

  /** The fields, followed by the packed bits. */
  function Fields(p: PackedInput): seq<Fp> {
    p.fields + Residues(Packed(p.bits))
  }

  /** Inputs of the same layout become as many fields, and the same ones only if they are equal. */
  lemma FieldsInjective(a: PackedInput, b: PackedInput)
    requires SameLayout(a, b)
    ensures |Fields(a)| == |Fields(b)|
    ensures Fields(a) == Fields(b) <==> a == b
  {
    hide Packed, SameKinds, Small;
    PackedInjective(a.bits, b.bits);
    if Fields(a) == Fields(b) {
      var s, t := Packed(a.bits), Packed(b.bits);
      assert a.fields == Fields(a)[..|a.fields|] && b.fields == Fields(b)[..|a.fields|];
      assert Residues(s) == Fields(a)[|a.fields|..] == Fields(b)[|a.fields|..] == Residues(t);
      ResiduesInjective(s, t);
    }
  }
}
