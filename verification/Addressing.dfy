/** The address arithmetic and the loop nests that compiled kernels run. */
module Addressing {
  import opened MachineInt
  import opened MixedRadix

  const HALF := 0x8000_0000_0000_0000

  type Intp = x: int | -0x8000_0000_0000_0000 <= x < 0x8000_0000_0000_0000

  datatype Layout = C | F | A

  /** Where an indexing operation points, in bytes from the array's data, or the exception it raises. */
  datatype Access = At(offset: int) | IndexError

  function Add(a: int, b: int): Intp {
    Wrap(a + b, HALF)
  }

  function Mul(a: int, b: int): Intp {
    Wrap(a * b, HALF)
  }

  // ----- what the code computes -----

  /** A negative index counts from the end of its axis. */
  function WrapIndex(index: Intp, dim: Intp): Intp {
    if index < 0 then Add(dim, index) else index
  }

  function WrapAll(index: seq<Intp>, shape: seq<Intp>, wraparound: bool): (r: seq<Intp>)
    requires |index| <= |shape|
    ensures |r| == |index|
  {
    if wraparound then seq(|index|, i requires 0 <= i < |index| => WrapIndex(index[i], shape[i])) else index
  }

  /** Bytes between neighbours along each axis. */
  function ByteSteps(layout: Layout, shape: seq<int>, strides: seq<int>, itemsize: int): (r: seq<int>)
    requires |strides| == |shape|
    ensures |r| == |shape|
  {
    match layout
    case C => Scale(itemsize, StepsC(shape))
    case F => Scale(itemsize, StepsF(shape))
    case A => strides
  }

  /** The byte offset of an index, as a register holds it. */
  function ItemOffset(layout: Layout, itemsize: int, shape: seq<int>, strides: seq<int>, index: seq<int>): Intp
    requires |index| <= |shape| == |strides|
  {
    Wrap(Dot(index, ByteSteps(layout, shape, strides, itemsize)[..|index|]), HALF)
  }

  lemma AddAbsorbs(a: int, b: int)
    ensures Add(Wrap(a, HALF), Wrap(b, HALF)) == Wrap(a + b, HALF)
  {
    WrapsAreAbsorbed(a, b, HALF);
  }

  lemma MulAbsorbs(a: int, b: int)
    ensures Mul(Wrap(a, HALF), Wrap(b, HALF)) == Wrap(a * b, HALF)
    ensures Mul(a, Wrap(b, HALF)) == Wrap(a * b, HALF)
  {
    WrapsAreAbsorbed(a, b, HALF);
  }

  lemma IntpIsItself(x: Intp)
    ensures Wrap(x, HALF) == x
  {
    WrapOfFitting(x, HALF);
  }

  lemma DotExtends(index: seq<int>, steps: seq<int>, k: nat)
    requires k < |index| == |steps|
    ensures Dot(index[..k + 1], steps[..k + 1]) == Dot(index[..k], steps[..k]) + index[k] * steps[k]
  {
    assert Times(index[..k + 1], steps[..k + 1]) == Times(index[..k], steps[..k]) + [index[k] * steps[k]];
    SumExtends(Times(index[..k], steps[..k]), index[k] * steps[k]);
  }

  /** The product of some sizes, as the emitted multiplications leave it. */
  method EmitProduct(sizes: seq<Intp>) returns (last: Intp)
    ensures last == Wrap(Prod(sizes), HALF)
  {
    assert Prod(sizes[..0]) == 1;
    hide Wrap, Prod, Mul;
    last := 1;
    IntpIsItself(1);
    for j := 0 to |sizes|
      invariant last == Wrap(Prod(sizes[..j]), HALF)
    {
      MulAbsorbs(Prod(sizes[..j]), sizes[j]);
      IntpIsItself(sizes[j]);
      ProdExtends(sizes[..j], sizes[j]);
      assert sizes[..j + 1] == sizes[..j] + [sizes[j]];
      last := Mul(last, sizes[j]);
    }
    assert sizes[..|sizes|] == sizes;
  }

  method EmitSteps(layout: Layout, shape: seq<Intp>) returns (steps: seq<Intp>)
    requires layout != A
    ensures |steps| == |shape|
    ensures forall i :: 0 <= i < |shape| ==>
      steps[i] == Wrap((if layout == C then StepsC(shape) else StepsF(shape))[i], HALF)
  {
    hide Wrap, Prod;
    steps := [];
    for i := 0 to |shape|
      invariant |steps| == i
      invariant forall k :: 0 <= k < i ==>
        steps[k] == Wrap((if layout == C then StepsC(shape) else StepsF(shape))[k], HALF)
    {
      var last := EmitProduct(if layout == C then shape[i + 1..] else shape[..i]);
      steps := steps + [last];
    }
  }

  /** The accumulated sum of products, given steps that are only right up to wrapping. */
  method EmitSum(index: seq<Intp>, steps: seq<Intp>, ghost exact: seq<int>) returns (loc: Intp)
    requires |index| <= |steps| == |exact|
    requires forall i :: 0 <= i < |steps| ==> steps[i] == Wrap(exact[i], HALF)
    ensures loc == Wrap(Dot(index, exact[..|index|]), HALF)
  {
    assert Dot(index[..0], exact[..0]) == 0;
    hide Wrap, Dot, Add, Mul;
    loc := 0;
    IntpIsItself(0);
    for i := 0 to |index|
      invariant loc == Wrap(Dot(index[..i], exact[..i]), HALF)
    {
      MulAbsorbs(index[i], exact[i]);
      AddAbsorbs(Dot(index[..i], exact[..i]), index[i] * exact[i]);
      DotExtends(index, exact[..|index|], i);
      assert exact[..|index|][..i + 1] == exact[..i + 1] && exact[..|index|][..i] == exact[..i];
      loc := Add(loc, Mul(index[i], steps[i]));
    }
    assert index[..|index|] == index;
  }

  predicate OutOfBounds(index: seq<int>, shape: seq<int>)
    requires |index| <= |shape|
  {
    exists i :: 0 <= i < |index| && !(0 <= index[i] < shape[i])
  }

  method BoundsCheck(index: seq<Intp>, shape: seq<Intp>) returns (failed: bool)
    requires |index| <= |shape|
    ensures failed == OutOfBounds(index, shape)
  {
    for axis := 0 to |index|
      invariant !OutOfBounds(index[..axis], shape)
    {
      if index[axis] >= shape[axis] {
        return true;
      }
      if index[axis] < 0 {
        return true;
      }
      assert index[..axis + 1] == index[..axis] + [index[axis]];
    }
    return false;
  }

  /** The pointer is, up to wrapping, the data plus the sum of index times byte step, and with bounds
      checks on the exception is raised exactly for an index outside the shape. */
  method GetItemPointer(itemsize: Intp, shape: seq<Intp>, strides: seq<Intp>, layout: Layout,
                        inds: seq<Intp>, wraparound: bool, boundscheck: bool) returns (r: Access)
    requires |strides| == |shape| && |inds| <= |shape|
    ensures r == IndexError <==> boundscheck && OutOfBounds(WrapAll(inds, shape, wraparound), shape)
    ensures r != IndexError ==>
      r == At(ItemOffset(layout, itemsize, shape, strides, WrapAll(inds, shape, wraparound)))
  {
    hide Wrap, Dot, Add, Mul;
    var indices := inds;
    if wraparound {
      indices := [];
      for k := 0 to |inds|
        invariant |indices| == k
        invariant forall i :: 0 <= i < k ==> indices[i] == WrapIndex(inds[i], shape[i])
      {
        var wrapped := Add(shape[k], inds[k]);
        indices := indices + [if inds[k] < 0 then wrapped else inds[k]];
      }
    }
    assert indices == WrapAll(inds, shape, wraparound);
    if boundscheck {
      var failed := BoundsCheck(indices, shape);
      if failed {
        return IndexError;
      }
    }
    ghost var exact := ByteSteps(layout, shape, strides, itemsize);
    if indices == [] {
      EmptyDot(exact);
      IntpIsItself(0);
      return At(0);
    }
    if layout != A {
      var steps := EmitSteps(layout, shape);
      ghost var counts := if layout == C then StepsC(shape) else StepsF(shape);
      var loc := EmitSum(indices, steps, counts);
      DotScales(itemsize, indices, counts[..|inds|]);
      assert Scale(itemsize, counts[..|inds|]) == exact[..|inds|];
      MulAbsorbs(itemsize, Dot(indices, counts[..|inds|]));
      r := At(Mul(itemsize, loc));
    } else {
      var offset := EmitReduce(indices, strides);
      r := At(offset);
    }
  }

  lemma EmptyDot(steps: seq<int>)
    ensures Dot([], steps[..0]) == 0
  {
  }

  method EmitReduce(index: seq<Intp>, strides: seq<Intp>) returns (offset: Intp)
    requires 0 < |index| <= |strides|
    ensures offset == Wrap(Dot(index, strides[..|index|]), HALF)
  {
    FirstTerm(index, strides);
    hide Wrap, Dot, Add, Mul;
    MulAbsorbs(strides[0], index[0]);
    IntpIsItself(index[0]);
    offset := Mul(strides[0], index[0]);
    for i := 1 to |index|
      invariant offset == Wrap(Dot(index[..i], strides[..i]), HALF)
    {
      ghost var s: int := strides[i];
      MulAbsorbs(s, index[i]);
      IntpIsItself(index[i]);
      AddAbsorbs(Dot(index[..i], strides[..i]), index[i] * s);
      DotExtends(index, strides[..|index|], i);
      assert strides[..|index|][..i + 1] == strides[..i + 1] && strides[..|index|][..i] == strides[..i];
      assert index[i] * s == s * index[i];
      offset := Add(offset, Mul(strides[i], index[i]));
    }
    assert index[..|index|] == index;
  }

  lemma FirstTerm(index: seq<int>, strides: seq<int>)
    requires 0 < |index| <= |strides|
    ensures Dot(index[..1], strides[..1]) == strides[0] * index[0]
  {
    var first := index[0] * strides[0];
    assert Times(index[..1], strides[..1]) == [first];
    assert Sum([first]) == first + Sum([first][1..]);
  }

  // ----- what the addresses mean -----

  function Rank(layout: Layout, index: seq<int>, shape: seq<int>): int
    requires |index| == |shape|
  {
    if layout == F then OffsetF(index, shape) else OffsetC(index, shape)
  }

  function Unrank(layout: Layout, k: int, shape: seq<int>): (index: seq<int>)
    requires Positive(shape)
    ensures |index| == |shape|
  {
    if layout == F then DigitsF(k, shape) else DigitsC(k, shape)
  }

  lemma ItemOffsetIsRank(layout: Layout, itemsize: int, shape: seq<int>, strides: seq<int>, index: seq<int>)
    requires layout != A && |strides| == |shape| && InBox(index, shape)
    requires itemsize >= 1 && itemsize * Prod(shape) <= HALF
    ensures 0 <= Rank(layout, index, shape) < Prod(shape)
    ensures ItemOffset(layout, itemsize, shape, strides, index) == itemsize * Rank(layout, index, shape)
  {
    var steps := if layout == C then StepsC(shape) else StepsF(shape);
    OffsetCInBounds(index, shape);
    OffsetFInBounds(index, shape);
    DotStepsC(index, shape);
    DotStepsF(index, shape);
    DotScales(itemsize, index, steps);
    assert Scale(itemsize, steps)[..|index|] == Scale(itemsize, steps);
    var k := Rank(layout, index, shape);
    ScaledFits(itemsize, k, Prod(shape));
    hide Wrap;
    WrapOfFitting(itemsize * k, HALF);
  }

  lemma ScaledFits(itemsize: int, k: int, total: int)
    requires itemsize >= 1 && 0 <= k < total && itemsize * total <= HALF
    ensures Fits(itemsize * k, HALF)
  {
    MulMonotone(itemsize, 0, k);
    MulMonotone(itemsize, k + 1, total);
    assert itemsize * (k + 1) == itemsize * k + itemsize;
  }

  /** For every shape whose bytes fit the register: an in-bounds index points at element number
      Rank, every element number is pointed at by exactly its own index, and no two indices collide. */
  lemma EveryElementOnce(layout: Layout, itemsize: int, shape: seq<int>, strides: seq<int>, k: int,
                         index: seq<int>, other: seq<int>)
    requires layout != A && |strides| == |shape| && Positive(shape)
    requires itemsize >= 1 && itemsize * Prod(shape) <= HALF
    ensures 0 <= k < Prod(shape) ==>
      && InBox(Unrank(layout, k, shape), shape)
      && ItemOffset(layout, itemsize, shape, strides, Unrank(layout, k, shape)) == itemsize * k
    ensures InBox(index, shape) && InBox(other, shape) ==>
      (ItemOffset(layout, itemsize, shape, strides, index) == ItemOffset(layout, itemsize, shape, strides, other)
       <==> index == other)
  {
    if 0 <= k < Prod(shape) {
      DigitsCInBox(k, shape);
      DigitsFInBox(k, shape);
      ItemOffsetIsRank(layout, itemsize, shape, strides, Unrank(layout, k, shape));
    }
    if InBox(index, shape) && InBox(other, shape) {
      ItemOffsetIsRank(layout, itemsize, shape, strides, index);
      ItemOffsetIsRank(layout, itemsize, shape, strides, other);
      var i, j := Rank(layout, index, shape), Rank(layout, other, shape);
      if itemsize * i == itemsize * j {
        assert i == j by {
          DivisionIsUnique(itemsize * i, itemsize, i, 0);
          DivisionIsUnique(itemsize * j, itemsize, j, 0);
        }
        OffsetCInBounds(index, shape);
        OffsetCInBounds(other, shape);
        OffsetFInBounds(index, shape);
        OffsetFInBounds(other, shape);
      }
    }
  }

  predicate Reaches(index: seq<int>, shape: seq<int>) {
    |index| == |shape| && forall i :: 0 <= i < |shape| ==> -shape[i] <= index[i] < shape[i]
  }

  /** Counted from the front or from the back, an index lands on the same element: wrapping is reduction
      modulo the axis, and it stays in bounds exactly for indices within one turn of the axis. */
  lemma WrappedIsModulo(index: seq<Intp>, shape: seq<Intp>)
    requires |index| == |shape| && Positive(shape)
    ensures !OutOfBounds(WrapAll(index, shape, true), shape) <==> Reaches(index, shape)
    ensures Reaches(index, shape) ==>
      && InBox(WrapAll(index, shape, true), shape)
      && forall i :: 0 <= i < |shape| ==> WrapAll(index, shape, true)[i] == index[i] % shape[i]
  {
    var wrapped := WrapAll(index, shape, true);
    forall i | 0 <= i < |shape|
      ensures 0 <= wrapped[i] < shape[i] <==> -shape[i] <= index[i] < shape[i]
      ensures -shape[i] <= index[i] < shape[i] ==> wrapped[i] == index[i] % shape[i]
    {
      WrapIndexIsModulo(index[i], shape[i]);
    }
  }

  lemma WrapIndexIsModulo(index: Intp, dim: Intp)
    requires dim >= 1
    ensures 0 <= WrapIndex(index, dim) < dim <==> -dim <= index < dim
    ensures -dim <= index < dim ==> WrapIndex(index, dim) == index % dim
  {
    hide Wrap;
    var i: int, d: int := index, dim;
    if index < 0 {
      WrapOfFitting(d + i, HALF);
      assert WrapIndex(index, dim) == d + i;
      if -d <= i {
        DivisionIsUnique(i, d, -1, d + i);
      }
    } else if index < dim {
      DivisionIsUnique(i, d, 0, i);
    }
  }
}
