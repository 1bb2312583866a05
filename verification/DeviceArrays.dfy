/** Reshaping device arrays: which arrays can be reshaped, and with which strides. Strides are counted in
    items. */
module DeviceArrays {
  import opened Options
  import opened MixedRadix
  import opened Shapes
  import Broadcasting
  import opened ItemLayouts
  import opened NoCopyReshape

  datatype Prepared = Ready(view: View) | SuffixMismatch | SizeMismatch | NeedsCopy

  // ----- contiguity -----

  /** The contiguity flags. Axes of size one are not looked at, but a stride of zero is never contiguous. */
  predicate Dense(v: View, steps: seq<int>)
    requires ValidView(v) && |steps| == |v.shape|
  {
    || v.shape == [] || Prod(v.shape) == 0
    || ((forall i :: 0 <= i < |v.shape| ==> v.strides[i] != 0)
        && forall i :: 0 <= i < |v.shape| && v.shape[i] != 1 ==> v.strides[i] == steps[i])
  }

  predicate CContiguous(v: View)
    requires ValidView(v)
  {
    Dense(v, StepsC(v.shape))
  }

  predicate FContiguous(v: View)
    requires ValidView(v)
  {
    Dense(v, StepsF(v.shape))
  }

  /** Up to axes of size one and arrays without items, the strides are the C strides. */
  predicate InCOrder(ary: View)
    requires ValidView(ary)
  {
    Broadcasting.NoElements(ary.shape) || Broadcasting.StridesMatter(ary.strides, StepsC(ary.shape), ary.shape)
  }

  /** An array that is contiguous in C order is in C order. */
  lemma CContiguousInOrder(ary: View)
    requires ValidView(ary) && CContiguous(ary)
    ensures InCOrder(ary)
  {
    if Prod(ary.shape) == 0 {
      ZeroAxis(ary.shape);
    }
  }

  lemma {:induction false} ZeroAxis(shape: Shape)
    requires Prod(shape) == 0
    ensures Broadcasting.NoElements(shape)
  {
    if shape != [] && shape[0] != 0 {
      if Prod(shape[1..]) != 0 {
        NonZeroProduct(shape[0], Prod(shape[1..]));
      }
      ZeroAxis(shape[1..]);
      var i :| 0 <= i < |shape[1..]| && shape[1..][i] == 0;
      assert shape[i + 1] == 0;
    }
  }

  lemma NonZeroProduct(a: int, b: int)
    requires a != 0 && b != 0
    ensures a * b != 0
  {
  }

  // ----- extents -----

  /** The axis whose runs of items are looked for: the first, if its stride is smaller than the last's. */
  function InnerAxis(v: View): (i: nat)
    requires ValidView(v) && v.shape != []
    ensures i < |v.shape|
  {
    if v.strides[0] < v.strides[|v.strides| - 1] then 0 else |v.shape| - 1
  }

  /** The index of the last item. */
  function Last(shape: seq<int>): (r: seq<int>)
    ensures |r| == |shape|
  {
    seq(|shape|, i requires 0 <= i < |shape| => shape[i] - 1)
  }

  /** Begin and end of the memory from the first item to the last. */
  function Extent(v: View): (int, int)
    requires ValidView(v)
  {
    var stop := Dot(Last(v.shape), v.strides) + 1;
    (0, if stop < 0 then 0 else stop)
  }

  /** The separate runs of an array that is contiguous in neither order, in the order they are listed. */
  function Runs(v: View): seq<(int, int)>
    requires ValidView(v) && v.shape != [] && Prod(v.shape) > 0
  {
    var i := InnerAxis(v);
    NonNegative(v.shape);
    var outer, strides := Without(v.shape, i), Without(v.strides, i);
    assert Positive(outer);
    ProdPositive(outer);
    if v.strides[i] == 1 then
      seq(Prod(outer), k requires 0 <= k < Prod(outer) =>
        (Dot(DigitsC(k, outer), strides), Dot(DigitsC(k, outer), strides) + v.shape[i]))
    else
      seq(Prod(v.shape), k requires 0 <= k < Prod(v.shape) =>
        (Dot(DigitsC(k, v.shape), v.strides), Dot(DigitsC(k, v.shape), v.strides) + 1))
  }

  /** One run of items in all. */
  predicate OneRun(v: View)
    requires ValidView(v) && v.shape != []
  {
    Prod(v.shape) == 1 || (v.strides[InnerAxis(v)] == 1 && Prod(Without(v.shape, InnerAxis(v))) == 1)
  }

  /** The only item of an array without further axes is its first. */
  lemma FirstItem(shape: Shape, strides: seq<int>)
    requires |strides| == |shape| && Positive(shape) && Prod(shape) == 1
    ensures Dot(DigitsC(0, shape), strides) == 0
  {
    OnesOnly(shape);
    DigitsCInBox(0, shape);
    DotZeros(DigitsC(0, shape), strides);
  }

  lemma OuterPositive(shape: Shape, i: nat)
    requires i < |shape| && Prod(shape) > 0
    ensures Positive(shape) && Positive(Without(shape, i)) && Prod(Without(shape, i)) >= 1
  {
    NonNegative(shape);
    ProdPositive(Without(shape, i));
  }

  lemma OnesElsewhere(shape: Shape, i: nat)
    requires i < |shape| && Prod(Without(shape, i)) == 1
    ensures forall k :: 0 <= k < |shape| && k != i ==> shape[k] == 1
  {
    OnesOnly(Without(shape, i));
    assert forall k :: 0 <= k < |shape| && k != i ==> shape[k] == Without(shape, i)[if k < i then k else k - 1];
  }

  lemma OneRunExtent(v: View, i: nat)
    requires ValidView(v) && i < |v.shape| && Positive(v.shape)
    requires v.strides[i] == 1 && Prod(Without(v.shape, i)) == 1
    ensures Extent(v) == (0, v.shape[i])
  {
    OnesElsewhere(v.shape, i);
    DotSingle(Last(v.shape), v.strides, i);
    hide Dot, Prod;
  }

  lemma InnerRunIsExtent(v: View)
    requires ValidView(v) && v.shape != [] && Prod(v.shape) > 0
    requires v.strides[InnerAxis(v)] == 1 && Prod(Without(v.shape, InnerAxis(v))) == 1
    ensures Runs(v) == [Extent(v)]
  {
    var i := InnerAxis(v);
    OuterPositive(v.shape, i);
    OneRunExtent(v, i);
    FirstItem(Without(v.shape, i), Without(v.strides, i));
    hide Dot, Prod, DigitsC, Extent, Without, Times, StepsC;
    assert |Runs(v)| == 1;
    assert Runs(v)[0] == (0, v.shape[i]);
  }

  lemma SingleItemIsExtent(v: View)
    requires ValidView(v) && v.shape != [] && Prod(v.shape) == 1 && v.strides[InnerAxis(v)] != 1
    ensures Runs(v) == [Extent(v)]
  {
    OuterPositive(v.shape, 0);
    OnesOnly(v.shape);
    FirstItem(v.shape, v.strides);
    DotZeros(Last(v.shape), v.strides);
    hide Dot, Prod, DigitsC;
    assert |Runs(v)| == 1;
  }

  /** The list of runs is the whole extent exactly when there is one run. */
  lemma OneRunExactly(v: View)
    requires ValidView(v) && v.shape != [] && Prod(v.shape) > 0
    ensures Runs(v) == [Extent(v)] <==> OneRun(v)
  {
    var i := InnerAxis(v);
    OuterPositive(v.shape, i);
    if v.strides[i] == 1 {
      assert |Runs(v)| == Prod(Without(v.shape, i));
      if Prod(v.shape) == 1 {
        OnesOnly(v.shape);
        AllOnes(Without(v.shape, i));
      }
      if |Runs(v)| == 1 {
        InnerRunIsExtent(v);
      }
    } else {
      assert |Runs(v)| == Prod(v.shape);
      if |Runs(v)| == 1 {
        SingleItemIsExtent(v);
      }
    }
    hide Prod, Runs, Extent, InnerAxis;
  }

  /** An array that is one run of items is in C order. */
  lemma OneRunInCOrder(v: View)
    requires ValidView(v) && v.shape != [] && OneRun(v)
    ensures InCOrder(v)
  {
    var i := InnerAxis(v);
    if Prod(v.shape) == 1 {
      OnesOnly(v.shape);
    } else {
      OnesElsewhere(v.shape, i);
      AllOnes(v.shape[i + 1..]);
    }
  }

  // ----- reshaping -----

  lemma OneRunOthers(v: View)
    requires ValidView(v) && v.shape != [] && OneRun(v)
    ensures AtMostOneRun(Others(v.shape), OtherStrides(v.shape, v.strides))
  {
    if Prod(v.shape) == 1 {
      OnesOnly(v.shape);
      NoOthers(v.shape, v.strides);
    } else {
      var i := InnerAxis(v);
      OnesElsewhere(v.shape, i);
      if v.shape[i] == 1 {
        AllOnes(v.shape);
      }
      OneOther(v.shape, v.strides, i);
    }
  }

  /** An array that is contiguous, or one run of items, gets C strides over the same data; any other needs
      a copy, which is refused. */
  predicate Reshapable(v: View)
    requires ValidView(v)
  {
    CContiguous(v) || FContiguous(v) || (v.shape != [] && OneRun(v))
  }

  function Reshape(ary: View, shape: Shape): (r: Prepared)
    requires ValidView(ary)
    ensures r.Ready? ==> ValidView(r.view) && r.view.shape == shape
  {
    if ary.shape == shape then Ready(ary)
    else if Prod(ary.shape) != Prod(shape) then SizeMismatch
    else if Reshapable(ary) then Ready(View(shape, StepsC(shape)))
    else NeedsCopy
  }

  /** The array class first looks for strides, then insists that the memory is a single run. */
  method ReshapeArray(ary: View, newdims: Shape) returns (r: Prepared)
    requires ValidView(ary)
    ensures r == Reshape(ary, newdims)
  {
    if newdims == ary.shape {
      return Ready(ary);
    }
    if Prod(newdims) != Prod(ary.shape) {
      return SizeMismatch;
    }
    if CContiguous(ary) || FContiguous(ary) {
      return Ready(View(newdims, StepsC(newdims)));
    }
    NonNegative(ary.shape);
    var strides := AttemptNoCopyReshape(ary.shape, ary.strides, newdims);
    OneRunExactly(ary);
    if OneRun(ary) {
      OneRunOthers(ary);
    }
    if strides == None {
      return NeedsCopy;
    }
    if Runs(ary) != [Extent(ary)] {
      return NeedsCopy;
    }
    return Ready(View(newdims, strides.value));
  }

  /** Reshaped to another shape, an array keeps its items in C order if and only if it was in C order. */
  lemma ReshapeKeepsItems(ary: View, shape: Shape)
    requires ValidView(ary) && ary.shape != shape && Reshape(ary, shape).Ready?
    ensures SameItems(shape, Reshape(ary, shape).view.strides, ary.shape, ary.strides) <==> InCOrder(ary)
  {
    hide Reshapable, InCOrder;
    CStepsShowSame(shape, ary.shape, ary.strides);
    Broadcasting.SameReadsExactly(StepsC(ary.shape), ary.strides, ary.shape);
    StridesInOrder(ary);
  }

  lemma StridesInOrder(ary: View)
    requires ValidView(ary)
    ensures InCOrder(ary) <==>
      Broadcasting.NoElements(ary.shape) || Broadcasting.StridesMatter(StepsC(ary.shape), ary.strides, ary.shape)
  {
  }

  /** C strides show the items of another layout in C order if and only if its offsets are those of C order. */
  lemma CStepsShowSame(newdims: Shape, dims: Shape, strides: seq<int>)
    requires |strides| == |dims| && Prod(newdims) == Prod(dims)
    ensures SameItems(newdims, StepsC(newdims), dims, strides)
      <==> forall index: seq<int> :: InBox(index, dims) ==> Dot(index, StepsC(dims)) == Dot(index, strides)
  {
    forall a: seq<int> | |a| == |newdims| ensures Dot(a, StepsC(newdims)) == OffsetC(a, newdims) {
      DotStepsC(a, newdims);
    }
    forall b: seq<int> | InBox(b, dims) ensures Dot(b, StepsC(dims)) == OffsetC(b, dims) {
      DotStepsC(b, dims);
    }
    if SameItems(newdims, StepsC(newdims), dims, strides) {
      forall b: seq<int> | InBox(b, dims) ensures Dot(b, StepsC(dims)) == Dot(b, strides) {
        OffsetCInBounds(b, dims);
        NonNegative(newdims);
        DigitsCInBox(OffsetC(b, dims), newdims);
      }
    }
  }

  /** The first and third of four columns of a table: strides for splitting its rows exist and are found, but
      the reshape is refused, as the memory is not one run. */
  lemma RefusedThoughPossible()
    ensures var ary := View([4, 2], [4, 2]);
      && Reshape(ary, [2, 2, 2]) == NeedsCopy
      && SameItems([2, 2, 2], [8, 4, 2], ary.shape, ary.strides)
  {
    var ary := View([4, 2], [4, 2]);
    SmallProducts();
    assert StepsC(ary.shape)[1] == 1 && StepsF(ary.shape)[0] == 1;
    assert ary.shape[0] == 4 && ary.shape[1] == 2 && ary.strides[0] == 4 && ary.strides[1] == 2;
    assert !CContiguous(ary) && !FContiguous(ary) && !OneRun(ary);
    RowsSplit();
  }

  lemma SmallProducts()
    ensures Prod([2]) == 2 && Prod([4]) == 4 && Prod([2, 2]) == 4 && Prod([4, 2]) == 8 && Prod([2, 2, 2]) == 8
    ensures Prod([]) == 1 && [4, 2][..0] == [] && [4, 2][2..] == []
  {
    assert [2][1..] == [] && [4][1..] == [];
    assert [2, 2][1..] == [2] && [4, 2][1..] == [2] && [2, 2, 2][1..] == [2, 2];
  }

  lemma SmallLayouts()
    ensures Scale(4, StepsC([2, 2])) == [8, 4] && Scale(4, StepsC([4])) == [4] && Scale(2, StepsC([2])) == [2]
  {
    SmallProducts();
    assert [2][1..] == [] && [4][1..] == [] && [2, 2][1..] == [2] && [2, 2][2..] == [];
  }

  lemma RowsSplit()
    ensures SameItems([2, 2, 2], [8, 4, 2], [4, 2], [4, 2])
  {
    SmallProducts();
    SmallLayouts();
    assert SameItems([], [], [], []);
    hide *;
    assert [] + [2, 2] == [2, 2] && [] + [8, 4] == [8, 4] && [] + [4] == [4];
    GroupKeepsItems([], [], [], [], [2, 2], [4], 4);
    GroupKeepsItems([2, 2], [8, 4], [4], [4], [2], [2], 2);
    assert [2, 2] + [2] == [2, 2, 2] && [8, 4] + [2] == [8, 4, 2] && [4] + [2] == [4, 2];
  }
}
