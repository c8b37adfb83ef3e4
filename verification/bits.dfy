/** The flag vocabulary of the RHI (`RHI::Flags`, a 64-bit unsigned integer)
    and the `CombineBits` fold that ORs enumerators together. */
module Bits {

  /** `RHI::Flags` is `uint64_t`. */
  type Flags = bv64

  /** Every bit set in `small` is also set in `big`. */
  predicate Subsumes(small: Flags, big: Flags) {
    small | big == big
  }

  /** Exactly one bit is set. */
  predicate IsSingleBit(v: Flags) {
    v != 0 && v & (v - 1) == 0
  }

  /** Every value is a single bit and no two share a bit. */
  predicate DistinctSingleBits(values: seq<Flags>) {
    && (forall i :: 0 <= i < |values| ==> IsSingleBit(values[i]))
    && (forall i, j :: 0 <= i < j < |values| ==> values[i] & values[j] == 0)
  }

  /** Reference meaning of a set of flags: the OR of all of them, from zero. */
  function Union(args: seq<Flags>): Flags {
    if |args| == 0 then 0 else args[0] | Union(args[1..])
  }

  /** `CombineBits(e...)`: the accumulator `result` is declared without an
      initialiser, so its first value is an arbitrary `start`; each argument is
      then ORed in, left to right. */
  function CombineBits(start: Flags, args: seq<Flags>): (r: Flags)
    ensures Subsumes(start, r)
    ensures forall i :: 0 <= i < |args| ==> Subsumes(args[i], r)
    decreases |args|
  {
    if |args| == 0 then start
    else
      var r := CombineBits(start | args[0], args[1..]);
      SubsumesSplit(start, args[0], r);
      assert forall i :: 1 <= i < |args| ==> args[i] == args[1..][i - 1];
      r
  }

  lemma SubsumesSplit(a: Flags, b: Flags, m: Flags)
    requires Subsumes(a | b, m)
    ensures Subsumes(a, m) && Subsumes(b, m)
  {
  }

  lemma OrAssociates(a: Flags, b: Flags, c: Flags)
    ensures (a | b) | c == a | (b | c)
  {
  }

  /** The fold adds exactly the union of its arguments to the start value. */
  lemma {:induction false} CombineIsStartOrUnion(start: Flags, args: seq<Flags>)
    ensures CombineBits(start, args) == start | Union(args)
    decreases |args|
  {
    if |args| > 0 {
      CombineIsStartOrUnion(start | args[0], args[1..]);
      OrAssociates(start, args[0], Union(args[1..]));
    }
  }

  lemma {:induction false} UnionIsUpperBound(args: seq<Flags>, x: Flags)
    requires x in args
    ensures Subsumes(x, Union(args))
    decreases |args|
  {
    if args[0] != x {
      UnionIsUpperBound(args[1..], x);
    }
  }

  lemma {:induction false} UnionIsLeast(args: seq<Flags>, m: Flags)
    requires forall x :: x in args ==> Subsumes(x, m)
    ensures Subsumes(Union(args), m)
    decreases |args|
  {
    if |args| > 0 {
      assert args[0] in args;
      forall x | x in args[1..] ensures Subsumes(x, m) {
        assert x in args;
      }
      UnionIsLeast(args[1..], m);
    }
  }

  /** Nothing outside the start value and the arguments ends up in the result. */
  lemma CombineIsLeast(start: Flags, args: seq<Flags>, m: Flags)
    requires Subsumes(start, m)
    requires forall x :: x in args ==> Subsumes(x, m)
    ensures Subsumes(CombineBits(start, args), m)
  {
    CombineIsStartOrUnion(start, args);
    UnionIsLeast(args, m);
  }

  lemma UnionDependsOnlyOnElements(a: seq<Flags>, b: seq<Flags>)
    requires forall x :: x in a <==> x in b
    ensures Union(a) == Union(b)
  {
    forall x | x in a ensures Subsumes(x, Union(b)) {
      UnionIsUpperBound(b, x);
    }
    UnionIsLeast(a, Union(b));
    forall x | x in b ensures Subsumes(x, Union(a)) {
      UnionIsUpperBound(a, x);
    }
    UnionIsLeast(b, Union(a));
  }

  /** For one start value, neither the order of the arguments nor repeated
      arguments change the result: only the set of arguments matters. */
  lemma CombineDependsOnlyOnElements(start: Flags, a: seq<Flags>, b: seq<Flags>)
    requires forall x :: x in a <==> x in b
    ensures CombineBits(start, a) == CombineBits(start, b)
  {
    CombineIsStartOrUnion(start, a);
    CombineIsStartOrUnion(start, b);
    UnionDependsOnlyOnElements(a, b);
  }

  // ---------------------------------------------------------------------
  // The `*Bits` enumerations. Each one numbers its members with one bit
  // apiece starting at 0x1, and `MAX` is the next integer after the last.

  datatype BufferUsageBit = None | TransferSrc | TransferDst | Vertex | Index {
    function Value(): (v: Flags)
      ensures IsSingleBit(v)
    {
      match this
      case None => 0x1
      case TransferSrc => 0x2
      case TransferDst => 0x4
      case Vertex => 0x8
      case Index => 0x10
    }
  }

  datatype ImageUsageBit = None | TransferSrc | TransferDst | Sampled {
    function Value(): (v: Flags)
      ensures IsSingleBit(v)
    {
      match this
      case None => 0x1
      case TransferSrc => 0x2
      case TransferDst => 0x4
      case Sampled => 0x8
    }
  }

  datatype ImageAspectBit = None | Color | Depth | Stencil {
    function Value(): (v: Flags)
      ensures IsSingleBit(v)
    {
      match this
      case None => 0x1
      case Color => 0x2
      case Depth => 0x4
      case Stencil => 0x8
    }
  }

  datatype ShaderCompileBit = None | Debug | NoOpt {
    function Value(): (v: Flags)
      ensures IsSingleBit(v)
    {
      match this
      case None => 0x1
      case Debug => 0x2
      case NoOpt => 0x4
    }
  }

  datatype ImageLayoutBit = Undefined | PresentSrc | TransferDst | ColorAttachment {
    function Value(): (v: Flags)
      ensures IsSingleBit(v)
    {
      match this
      case Undefined => 0x1
      case PresentSrc => 0x2
      case TransferDst => 0x4
      case ColorAttachment => 0x8
    }
  }

  datatype ColorComponentBit = R | G | B | A {
    function Value(): (v: Flags)
      ensures IsSingleBit(v)
    {
      match this
      case R => 0x1
      case G => 0x2
      case B => 0x4
      case A => 0x8
    }
  }

  /** The enumerators of each enumeration, in declaration order. */
  const BufferUsageValues: seq<Flags> := [BufferUsageBit.None.Value(), BufferUsageBit.TransferSrc.Value(),
    BufferUsageBit.TransferDst.Value(), BufferUsageBit.Vertex.Value(), BufferUsageBit.Index.Value()]
  const ImageUsageValues: seq<Flags> := [ImageUsageBit.None.Value(), ImageUsageBit.TransferSrc.Value(),
    ImageUsageBit.TransferDst.Value(), ImageUsageBit.Sampled.Value()]
  const ImageAspectValues: seq<Flags> := [ImageAspectBit.None.Value(), ImageAspectBit.Color.Value(),
    ImageAspectBit.Depth.Value(), ImageAspectBit.Stencil.Value()]
  const ShaderCompileValues: seq<Flags> := [ShaderCompileBit.None.Value(), ShaderCompileBit.Debug.Value(),
    ShaderCompileBit.NoOpt.Value()]
  const ImageLayoutValues: seq<Flags> := [ImageLayoutBit.Undefined.Value(), ImageLayoutBit.PresentSrc.Value(),
    ImageLayoutBit.TransferDst.Value(), ImageLayoutBit.ColorAttachment.Value()]
  const ColorComponentValues: seq<Flags> := [ColorComponentBit.R.Value(), ColorComponentBit.G.Value(),
    ColorComponentBit.B.Value(), ColorComponentBit.A.Value()]

  /** `MAX` of an enumeration: one more than its last enumerator. */
  function MaxOf(values: seq<Flags>): Flags
    requires |values| > 0
    requires values[|values| - 1] < 0xFFFF_FFFF_FFFF_FFFF
  {
    values[|values| - 1] + 1
  }

  lemma EnumeratorsAreDistinctSingleBits()
    ensures DistinctSingleBits(BufferUsageValues)
    ensures DistinctSingleBits(ImageUsageValues)
    ensures DistinctSingleBits(ImageAspectValues)
    ensures DistinctSingleBits(ShaderCompileValues)
    ensures DistinctSingleBits(ImageLayoutValues)
    ensures DistinctSingleBits(ColorComponentValues)
  {
    FiveBitsDistinct();
    ThreeBitsDistinct();
    FourBitEnumsDistinct();
  }

  lemma FourBitEnumsDistinct()
    ensures DistinctSingleBits(ImageUsageValues)
    ensures DistinctSingleBits(ImageAspectValues)
    ensures DistinctSingleBits(ImageLayoutValues)
    ensures DistinctSingleBits(ColorComponentValues)
  {
    FourBitsDistinct([1, 2, 4, 8]);
    assert ImageUsageValues == [1, 2, 4, 8];
    assert ImageAspectValues == [1, 2, 4, 8];
    assert ImageLayoutValues == [1, 2, 4, 8];
    assert ColorComponentValues == [1, 2, 4, 8];
  }

  lemma ThreeBitsDistinct()
    ensures DistinctSingleBits(ShaderCompileValues)
  {
    assert ShaderCompileValues == [1, 2, 4];
  }

  lemma FiveBitsDistinct()
    ensures DistinctSingleBits(BufferUsageValues)
  {
    assert BufferUsageValues == [1, 2, 4, 8, 0x10];
  }

  lemma FourBitsDistinct(values: seq<Flags>)
    requires values == [1, 2, 4, 8]
    ensures DistinctSingleBits(values)
  {
  }

  /** `NONE` is the bit 0x1, not the empty set, and every `MAX` is not a
      single bit but does overlap the first enumerator. */
  lemma NoneIsARealBitAndMaxOverlapsIt()
    ensures BufferUsageBit.None.Value() == 0x1
    ensures ImageUsageBit.None.Value() == 0x1
    ensures ImageAspectBit.None.Value() == 0x1
    ensures ShaderCompileBit.None.Value() == 0x1
    ensures MaxOf(BufferUsageValues) == 0x11
    ensures MaxOf(ImageUsageValues) == 0x9 && MaxOf(ImageAspectValues) == 0x9
    ensures MaxOf(ShaderCompileValues) == 0x5
    ensures MaxOf(ImageLayoutValues) == 0x9 && MaxOf(ColorComponentValues) == 0x9
    ensures !IsSingleBit(MaxOf(BufferUsageValues)) && MaxOf(BufferUsageValues) & BufferUsageValues[0] != 0
    ensures !IsSingleBit(MaxOf(ImageUsageValues)) && MaxOf(ImageUsageValues) & ImageUsageValues[0] != 0
    ensures !IsSingleBit(MaxOf(ImageAspectValues)) && MaxOf(ImageAspectValues) & ImageAspectValues[0] != 0
    ensures !IsSingleBit(MaxOf(ShaderCompileValues)) && MaxOf(ShaderCompileValues) & ShaderCompileValues[0] != 0
    ensures !IsSingleBit(MaxOf(ImageLayoutValues)) && MaxOf(ImageLayoutValues) & ImageLayoutValues[0] != 0
    ensures !IsSingleBit(MaxOf(ColorComponentValues)) && MaxOf(ColorComponentValues) & ColorComponentValues[0] != 0
  {
  }

  /** Combining R, G, B and A adds exactly 0xF to whatever the uninitialised
      accumulator held; a start with no bit outside 0xF gives 0xF itself. */
  lemma AllColorComponentsCombine(start: Flags)
    ensures CombineBits(start, ColorComponentValues) == start | 0xF
    ensures CombineBits(0, ColorComponentValues) == 0xF
  {
    CombineIsStartOrUnion(start, ColorComponentValues);
    CombineIsStartOrUnion(0, ColorComponentValues);
  }
}
