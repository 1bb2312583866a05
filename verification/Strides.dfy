/** The strides host code gives to new arrays, and their agreement with one another and with the
    offsets compiled code computes. */
module Strides {
  import opened Options
  import opened MixedRadix
  import MachineInt
  import Addressing

  // ----- axes in the order of their strides -----

  predicate Permutation(perm: seq<int>, n: int) {
    && |perm| == n
    && (forall j :: 0 <= j < n ==> 0 <= perm[j] < n)
    && (forall j, k :: 0 <= j < k < n ==> perm[j] != perm[k])
    && (forall i :: 0 <= i < n ==> i in perm)
  }

  /** Ascending strides, ties in the order of the axes, as a stable sort leaves them. */
  predicate Ascending(perm: seq<int>, strides: seq<int>) {
    && (forall j :: 0 <= j < |perm| ==> 0 <= perm[j] < |strides|)
    && forall j, k :: 0 <= j < k < |perm| ==>
      strides[perm[j]] < strides[perm[k]] || (strides[perm[j]] == strides[perm[k]] && perm[j] < perm[k])
  }

  /** Where axis `m` goes among the sorted axes before it: behind every stride that is not larger. */
  function Place(perm: seq<int>, strides: seq<int>, m: int): (p: nat)
    requires 0 <= m < |strides| && Ascending(perm, strides)
    ensures p <= |perm|
    ensures forall j :: 0 <= j < p ==> strides[perm[j]] <= strides[m]
    ensures forall j :: p <= j < |perm| ==> strides[m] < strides[perm[j]]
    decreases |perm|
  {
    if perm == [] || strides[perm[|perm| - 1]] <= strides[m] then |perm|
    else Place(perm[..|perm| - 1], strides, m)
  }

  function SortedAxes(strides: seq<int>, m: nat): (perm: seq<int>)
    requires m <= |strides|
    ensures Permutation(perm, m) && Ascending(perm, strides)
  {
    if m == 0 then []
    else
      var perm := SortedAxes(strides, m - 1);
      var p := Place(perm, strides, m - 1);
      InsertKeepsPermutation(perm, p, m - 1);
      InsertKeepsOrder(perm, p, strides, m - 1);
      Inserted(perm, p, m - 1)
  }

  function Inserted(perm: seq<int>, p: nat, m: int): (r: seq<int>)
    requires p <= |perm|
    ensures |r| == |perm| + 1 && r[p] == m
    ensures forall j :: 0 <= j < p ==> r[j] == perm[j]
    ensures forall j :: p < j < |r| ==> r[j] == perm[j - 1]
  {
    perm[..p] + [m] + perm[p..]
  }

  lemma InsertKeepsPermutation(perm: seq<int>, p: nat, m: int)
    requires 0 <= m && Permutation(perm, m) && p <= |perm|
    ensures Permutation(Inserted(perm, p, m), m + 1)
  {
    var more := Inserted(perm, p, m);
    hide Inserted;
    forall i | 0 <= i < m + 1 ensures i in more {
      if i < m {
        var j := PositionOf(perm, i);
        assert more[if j < p then j else j + 1] == i;
      }
    }
  }

  lemma InsertKeepsOrder(perm: seq<int>, p: nat, strides: seq<int>, m: int)
    requires 0 <= m < |strides| && Ascending(perm, strides) && p <= |perm|
    requires forall j :: 0 <= j < |perm| ==> perm[j] < m
    requires forall j :: 0 <= j < p ==> strides[perm[j]] <= strides[m]
    requires forall j :: p <= j < |perm| ==> strides[m] < strides[perm[j]]
    ensures Ascending(Inserted(perm, p, m), strides)
  {
    hide Inserted;
  }

  // ----- permuting an index or a shape -----

  function Permute(a: seq<int>, perm: seq<int>): (r: seq<int>)
    requires forall j :: 0 <= j < |perm| ==> 0 <= perm[j] < |a|
    ensures |r| == |perm|
    ensures forall j :: 0 <= j < |perm| ==> r[j] == a[perm[j]]
  {
    seq(|perm|, j requires 0 <= j < |perm| => a[perm[j]])
  }

  function PositionOf(perm: seq<int>, i: int): (j: nat)
    requires i in perm
    ensures j < |perm| && perm[j] == i
  {
    if perm[0] == i then 0 else 1 + PositionOf(perm[1..], i)
  }

  /** Taking the last axis out of a permutation leaves one of the axes before it. */
  lemma WithoutLast(perm: seq<int>, n: int, p: nat)
    requires n > 0 && Permutation(perm, n) && p < n && perm[p] == n - 1
    ensures Permutation(Without(perm, p), n - 1)
  {
    var fewer := Without(perm, p);
    forall j | 0 <= j < n - 1 ensures 0 <= fewer[j] < n - 1 {
      assert perm[if j < p then j else j + 1] != n - 1;
    }
    forall i | 0 <= i < n - 1 ensures i in fewer {
      var j := PositionOf(perm, i);
      assert fewer[if j < p then j else j - 1] == i;
    }
  }

  lemma PermuteWithout(a: seq<int>, perm: seq<int>, p: nat)
    requires Permutation(perm, |a|) && p < |a| && perm[p] == |a| - 1
    requires Permutation(Without(perm, p), |a| - 1)
    ensures Without(Permute(a, perm), p) == Permute(a[..|a| - 1], Without(perm, p))
  {
  }

  /** Neither a sum nor a product depends on the order of the axes. */
  lemma {:induction false} PermutedTotals(a: seq<int>, perm: seq<int>)
    requires Permutation(perm, |a|)
    ensures Sum(Permute(a, perm)) == Sum(a) && Prod(Permute(a, perm)) == Prod(a)
    decreases |a|
  {
    var n := |a|;
    if n == 0 {
      assert Permute(a, perm) == a;
    } else {
      var p := PositionOf(perm, n - 1);
      var init := a[..n - 1];
      WithoutLast(perm, n, p);
      PermutedTotals(init, Without(perm, p));
      PermuteWithout(a, perm, p);
      assert Without(a, n - 1) == init;
      hide Permutation, Without;
      SumSplits(Permute(a, perm), p);
      SumSplits(a, n - 1);
      ProdSplits(Permute(a, perm), p);
      ProdSplits(a, n - 1);
    }
  }

  lemma PermutedDot(a: seq<int>, b: seq<int>, perm: seq<int>)
    requires |a| == |b| && Permutation(perm, |a|)
    ensures Dot(Permute(a, perm), Permute(b, perm)) == Dot(a, b)
  {
    PermutedTotals(Times(a, b), perm);
    assert Times(Permute(a, perm), Permute(b, perm)) == Permute(Times(a, b), perm);
  }

  lemma PermutedBox(index: seq<int>, shape: seq<int>, perm: seq<int>)
    requires |index| == |shape| && Permutation(perm, |shape|)
    ensures InBox(Permute(index, perm), Permute(shape, perm)) <==> InBox(index, shape)
  {
    if InBox(Permute(index, perm), Permute(shape, perm)) {
      forall i | 0 <= i < |shape| ensures 0 <= index[i] < shape[i] {
        var j := PositionOf(perm, i);
        assert Permute(index, perm)[j] < Permute(shape, perm)[j];
        assert 0 <= Permute(index, perm)[j];
      }
    }
  }

  lemma PermutationIsInjective(a: seq<int>, b: seq<int>, perm: seq<int>)
    requires |a| == |b| && Permutation(perm, |a|) && Permute(a, perm) == Permute(b, perm)
    ensures a == b
  {
    forall i | 0 <= i < |a| ensures a[i] == b[i] {
      var j := PositionOf(perm, i);
      assert Permute(a, perm)[j] == Permute(b, perm)[j];
    }
  }

  /** The inverse permutation, as the positions of the axes. */
  function Unpermute(a: seq<int>, perm: seq<int>): (r: seq<int>)
    requires Permutation(perm, |a|)
    ensures |r| == |a|
    ensures forall i :: 0 <= i < |a| ==> r[i] == a[PositionOf(perm, i)]
  {
    seq(|a|, i requires 0 <= i < |a| => a[PositionOf(perm, i)])
  }

  lemma UnpermuteInverts(a: seq<int>, perm: seq<int>)
    requires Permutation(perm, |a|)
    ensures Permute(Unpermute(a, perm), perm) == a
  {
    forall j | 0 <= j < |a| ensures Unpermute(a, perm)[perm[j]] == a[j] {
      var k := PositionOf(perm, perm[j]);
      assert k == j;
    }
  }

  // ----- new contiguous strides -----

  /** The strides are those of an array that runs through its axes in the given order. */
  predicate DenseInOrder(strides: seq<int>, shape: seq<int>, itemsize: int, perm: seq<int>) {
    && |strides| == |shape|
    && Permutation(perm, |shape|)
    && Permute(strides, perm) == Scale(itemsize, StepsF(Permute(shape, perm)))
  }

  lemma StepsFExtends(shape: seq<int>, j: nat)
    requires j < |shape|
    ensures Prod(shape[..j + 1]) == Prod(shape[..j]) * shape[j]
  {
    ProdExtends(shape[..j], shape[j]);
    assert shape[..j + 1] == shape[..j] + [shape[j]];
  }

  /** Nothing is computed for an array that already is contiguous or has at most one axis; otherwise the
      axes are laid out densely in the order of the given strides. */
  method ContiguousStridesLike(shape: seq<int>, strides: seq<int>, itemsize: int, cContiguous: bool, fContiguous: bool)
      returns (r: Option<seq<int>>)
    requires |strides| == |shape|
    ensures r == None <==> cContiguous || fContiguous || |shape| <= 1
    ensures r.Some? ==> DenseInOrder(r.value, shape, itemsize, SortedAxes(strides, |strides|))
  {
    if cContiguous || fContiguous || |shape| <= 1 {
      return None;
    }
    var perm := SortedAxes(strides, |strides|);
    ghost var sorted := Permute(shape, perm);
    var out := new int[|strides|](_ => 0);
    var stride := itemsize;
    for j := 0 to |perm|
      invariant stride == itemsize * Prod(sorted[..j])
      invariant forall k :: 0 <= k < j ==> out[perm[k]] == itemsize * Prod(sorted[..k])
    {
      out[perm[j]] := stride;
      StepsFExtends(sorted, j);
      MulAssoc(itemsize, Prod(sorted[..j]), sorted[j]);
      stride := stride * shape[perm[j]];
    }
    assert Permute(out[..], perm) == Scale(itemsize, StepsF(sorted));
    return Some(out[..]);
  }

  /** The number of the element an index points at. */
  function DenseRank(index: seq<int>, shape: seq<int>, perm: seq<int>): int
    requires |index| == |shape| && Permutation(perm, |shape|)
  {
    OffsetF(Permute(index, perm), Permute(shape, perm))
  }

  lemma DenseOffset(strides: seq<int>, shape: seq<int>, itemsize: int, perm: seq<int>, index: seq<int>)
    requires DenseInOrder(strides, shape, itemsize, perm) && |index| == |shape|
    ensures Dot(index, strides) == itemsize * DenseRank(index, shape, perm)
  {
    PermutedDot(index, strides, perm);
    DotScales(itemsize, Permute(index, perm), StepsF(Permute(shape, perm)));
    DotStepsF(Permute(index, perm), Permute(shape, perm));
  }

  /** Dense strides are a bijection from the indices onto the item-size multiples below the total size. */
  lemma DenseIsBijection(strides: seq<int>, shape: seq<int>, itemsize: int, perm: seq<int>,
                         index: seq<int>, other: seq<int>, k: int)
    requires DenseInOrder(strides, shape, itemsize, perm) && Positive(shape) && itemsize >= 1
    ensures InBox(index, shape) ==>
      Dot(index, strides) == itemsize * DenseRank(index, shape, perm)
      && 0 <= DenseRank(index, shape, perm) < Prod(shape)
    ensures InBox(index, shape) && InBox(other, shape) && Dot(index, strides) == Dot(other, strides) ==> index == other
    ensures 0 <= k < Prod(shape) ==> exists i :: InBox(i, shape) && Dot(i, strides) == itemsize * k
  {
    PermutedTotals(shape, perm);
    if InBox(index, shape) {
      DenseAt(strides, shape, itemsize, perm, index);
      if InBox(other, shape) && Dot(index, strides) == Dot(other, strides) {
        DenseAt(strides, shape, itemsize, perm, other);
        CancelItemSize(itemsize, DenseRank(index, shape, perm), DenseRank(other, shape, perm));
        PermutationIsInjective(index, other, perm);
      }
    }
    if 0 <= k < Prod(shape) {
      var digits := DigitsF(k, Permute(shape, perm));
      DigitsFInBox(k, Permute(shape, perm));
      var i := Unpermute(digits, perm);
      UnpermuteInverts(digits, perm);
      PermutedBox(i, shape, perm);
      DenseOffset(strides, shape, itemsize, perm, i);
      assert InBox(i, shape) && Dot(i, strides) == itemsize * k;
    }
  }

  lemma DenseAt(strides: seq<int>, shape: seq<int>, itemsize: int, perm: seq<int>, index: seq<int>)
    requires DenseInOrder(strides, shape, itemsize, perm) && InBox(index, shape)
    ensures Dot(index, strides) == itemsize * DenseRank(index, shape, perm)
    ensures 0 <= DenseRank(index, shape, perm) < Prod(shape)
    ensures Positive(Permute(shape, perm))
    ensures DigitsF(DenseRank(index, shape, perm), Permute(shape, perm)) == Permute(index, perm)
  {
    PermutedTotals(shape, perm);
    PermutedBox(index, shape, perm);
    OffsetFInBounds(Permute(index, perm), Permute(shape, perm));
    DenseOffset(strides, shape, itemsize, perm, index);
  }

  lemma CancelItemSize(itemsize: int, i: int, j: int)
    requires itemsize >= 1 && itemsize * i == itemsize * j
    ensures i == j
  {
    DivisionIsUnique(itemsize * i, itemsize, i, 0);
    DivisionIsUnique(itemsize * j, itemsize, j, 0);
  }

  /** The new strides keep the order of the old ones: an axis with the smaller stride, or the earlier one
      of two with equal strides, is packed entirely inside one step of the other. */
  lemma OrderIsKept(given: seq<int>, strides: seq<int>, shape: seq<int>, itemsize: int, i: int, k: int)
    requires |given| == |shape| && Positive(shape) && itemsize >= 1
    requires DenseInOrder(strides, shape, itemsize, SortedAxes(given, |given|))
    requires 0 <= i < |shape| && 0 <= k < |shape|
    requires given[i] < given[k] || (given[i] == given[k] && i < k)
    ensures 0 < strides[i] <= strides[i] * shape[i] <= strides[k]
  {
    var perm := SortedAxes(given, |given|);
    assert i in perm && k in perm;
    var p, q := PositionOf(perm, i), PositionOf(perm, k);
    hide DenseInOrder, Permutation, Ascending, SortedAxes, Positive;
    SortedBefore(perm, given, p, q);
    PackedInside(strides, shape, itemsize, perm, p, q);
  }

  lemma SortedBefore(perm: seq<int>, given: seq<int>, p: nat, q: nat)
    requires Ascending(perm, given) && p < |perm| && q < |perm|
    requires given[perm[p]] < given[perm[q]] || (given[perm[p]] == given[perm[q]] && perm[p] < perm[q])
    ensures p < q
  {
  }

  lemma PackedInside(strides: seq<int>, shape: seq<int>, itemsize: int, perm: seq<int>, p: nat, q: nat)
    requires DenseInOrder(strides, shape, itemsize, perm) && Positive(shape) && itemsize >= 1
    requires p < q < |perm|
    ensures 0 < strides[perm[p]] <= strides[perm[p]] * shape[perm[p]] <= strides[perm[q]]
  {
    var sorted := Permute(shape, perm);
    StepsGrow(sorted, p, q);
    assert strides[perm[p]] == Permute(strides, perm)[p] == itemsize * Prod(sorted[..p]);
    assert strides[perm[q]] == Permute(strides, perm)[q] == itemsize * Prod(sorted[..q]);
    StepsScale(itemsize, Prod(sorted[..p]), sorted[p], Prod(sorted[..q]));
  }

  lemma StepsScale(itemsize: int, inner: int, size: int, outer: int)
    requires itemsize >= 1 && inner >= 1 && size >= 1 && inner * size <= outer
    ensures 0 < itemsize * inner <= itemsize * inner * size <= itemsize * outer
  {
    MulPositive(itemsize, inner);
    MulAssoc(itemsize, inner, size);
    MulMonotone(itemsize, inner * size, outer);
    MulPositive(itemsize * inner, size);
  }

  lemma StepsGrow(shape: seq<int>, p: nat, q: nat)
    requires Positive(shape) && p < q < |shape|
    ensures 1 <= Prod(shape[..p]) && Prod(shape[..p]) * shape[p] <= Prod(shape[..q])
  {
    ProdPositive(shape[..p]);
    StepsFExtends(shape, p);
    ProdOfSum(shape[..p + 1], shape[p + 1..q]);
    assert shape[..q] == shape[..p + 1] + shape[p + 1..q];
    ProdPositive(shape[..p + 1]);
    ProdPositive(shape[p + 1..q]);
    MulMonotone(Prod(shape[..p + 1]), 1, Prod(shape[p + 1..q]));
  }

  // ----- strides in C and F order -----

  datatype Filled = Filled(strides: seq<int>) | ValueError

  method FillStrideByOrder(shape: seq<int>, itemsize: int, order: string) returns (r: Filled)
    ensures order == "C" ==> r == Filled(Scale(itemsize, StepsC(shape)))
    ensures order == "F" ==> r == Filled(Scale(itemsize, StepsF(shape)))
    ensures order != "C" && order != "F" ==> r == if shape == [] then Filled([]) else ValueError
  {
    hide Scale, StepsC, StepsF;
    if |shape| == 0 {
      assert Scale(itemsize, StepsC(shape)) == [] && Scale(itemsize, StepsF(shape)) == [];
      return Filled([]);
    }
    if order == "C" {
      var strides := FillBackward(shape, itemsize);
      return Filled(strides);
    } else if order == "F" {
      var strides := FillForward(shape, itemsize);
      return Filled(strides);
    } else {
      return ValueError;
    }
  }

  method FillBackward(shape: seq<int>, itemsize: int) returns (r: seq<int>)
    requires shape != []
    ensures r == Scale(itemsize, StepsC(shape))
  {
    var ndims := |shape|;
    var strides := new int[ndims](_ => 0);
    assert shape[ndims..] == [];
    strides[ndims - 1] := itemsize;
    for d := ndims - 1 downto 0
      invariant forall k :: d <= k < ndims ==> strides[k] == itemsize * Prod(shape[k + 1..])
    {
      StepsCExtends(itemsize, shape, d);
      strides[d] := strides[d + 1] * shape[d + 1];
    }
    r := strides[..];
    assert r == Scale(itemsize, StepsC(shape));
  }

  lemma StepsCExtends(itemsize: int, shape: seq<int>, d: nat)
    requires d + 1 < |shape|
    ensures itemsize * Prod(shape[d + 1..]) == itemsize * Prod(shape[d + 2..]) * shape[d + 1]
  {
    assert shape[d + 1..][1..] == shape[d + 2..];
    MulAssoc(itemsize, Prod(shape[d + 2..]), shape[d + 1]);
  }

  method FillForward(shape: seq<int>, itemsize: int) returns (r: seq<int>)
    requires shape != []
    ensures r == Scale(itemsize, StepsF(shape))
  {
    var strides := new int[|shape|](_ => 0);
    strides[0] := itemsize;
    for d := 1 to |shape|
      invariant forall k :: 0 <= k < d ==> strides[k] == itemsize * Prod(shape[..k])
    {
      StepsFExtends(shape, d - 1);
      MulAssoc(itemsize, Prod(shape[..d - 1]), shape[d - 1]);
      strides[d] := strides[d - 1] * shape[d - 1];
    }
    r := strides[..];
    assert r == Scale(itemsize, StepsF(shape));
  }

  /** Shared and local arrays: a running stride appended from the last axis, then reversed. */
  method GenericArrayStrides(shape: seq<int>, itemsize: int) returns (strides: seq<int>)
    ensures strides == Scale(itemsize, StepsC(shape))
  {
    var laststride := itemsize;
    strides := [];
    var sizes := Reverse(shape);
    for j := 0 to |sizes|
      invariant |strides| == j && laststride == itemsize * Prod(shape[|shape| - j..])
      invariant forall k :: 0 <= k < j ==> strides[k] == itemsize * Prod(shape[|shape| - k..])
    {
      strides := strides + [laststride];
      var i := |shape| - 1 - j;
      assert shape[i..][1..] == shape[i + 1..];
      MulAssoc(itemsize, Prod(shape[i + 1..]), sizes[j]);
      laststride := laststride * sizes[j];
    }
    strides := Reverse(strides);
  }

  predicate NeverDecreases(strides: seq<int>) {
    forall i, k :: 0 <= i < k < |strides| ==> strides[i] <= strides[k]
  }

  predicate Decreases(strides: seq<int>) {
    forall i, k :: 0 <= i < k < |strides| ==> strides[i] > strides[k]
  }

  function Upward(n: nat): (r: seq<int>)
    ensures |r| == n && forall i :: 0 <= i < n ==> r[i] == i
  {
    seq(n, i => i)
  }

  function Downward(n: nat): (r: seq<int>)
    ensures |r| == n && forall i :: 0 <= i < n ==> r[i] == n - 1 - i
  {
    seq(n, i => n - 1 - i)
  }

  lemma NoAxes(strides: seq<int>)
    ensures SortedAxes(strides, 0) == Upward(0) == Downward(0)
  {
  }

  lemma SortedStep(strides: seq<int>, m: nat)
    requires 0 < m <= |strides|
    ensures var perm := SortedAxes(strides, m - 1);
      SortedAxes(strides, m) == Inserted(perm, Place(perm, strides, m - 1), m - 1)
  {
  }

  lemma {:induction false} FirstAxes(strides: seq<int>, m: nat)
    requires m <= |strides| && NeverDecreases(strides)
    ensures SortedAxes(strides, m) == Upward(m)
    decreases m
  {
    hide *;
    if m == 0 {
      NoAxes(strides);
    } else {
      FirstAxes(strides, m - 1);
      SortedStep(strides, m);
      AtTheBack(SortedAxes(strides, m - 1), strides, m - 1);
      GrownUpward(m - 1);
    }
  }

  lemma AtTheBack(perm: seq<int>, strides: seq<int>, m: nat)
    requires m < |strides| && NeverDecreases(strides) && Ascending(perm, strides) && perm == Upward(m)
    ensures Place(perm, strides, m) == m
  {
    if m > 0 {
      assert perm[m - 1] == m - 1;
    }
  }

  lemma GrownUpward(m: nat)
    ensures Inserted(Upward(m), m, m) == Upward(m + 1)
  {
  }

  lemma {:induction false} LastAxes(strides: seq<int>, m: nat)
    requires m <= |strides| && Decreases(strides)
    ensures SortedAxes(strides, m) == Downward(m)
    decreases m
  {
    hide *;
    if m == 0 {
      NoAxes(strides);
    } else {
      LastAxes(strides, m - 1);
      SortedStep(strides, m);
      InFront(SortedAxes(strides, m - 1), strides, m - 1);
      GrownDownward(m - 1);
    }
  }

  lemma InFront(perm: seq<int>, strides: seq<int>, m: nat)
    requires m < |strides| && Decreases(strides) && Ascending(perm, strides) && perm == Downward(m)
    ensures Place(perm, strides, m) == 0
  {
    if m > 0 {
      assert perm[0] == m - 1;
    }
  }

  lemma GrownDownward(m: nat)
    ensures Inserted(Downward(m), 0, m) == Downward(m + 1)
  {
  }

  /** Where the given strides never decrease, the new ones are the F strides; where they strictly
      decrease, the C strides. */
  lemma AgreesWithOrders(given: seq<int>, strides: seq<int>, shape: seq<int>, itemsize: int)
    requires |given| == |shape| && DenseInOrder(strides, shape, itemsize, SortedAxes(given, |given|))
    ensures NeverDecreases(given) ==> strides == Scale(itemsize, StepsF(shape))
    ensures Decreases(given) ==> strides == Scale(itemsize, StepsC(shape))
  {
    var n := |given|;
    hide Permutation, Ascending, NeverDecreases, Decreases, DenseInOrder, Scale, StepsF, StepsC, SortedAxes;
    if NeverDecreases(given) {
      FirstAxes(given, n);
      DenseForwards(strides, shape, itemsize);
    }
    if Decreases(given) {
      LastAxes(given, n);
      DenseBackwards(strides, shape, itemsize);
    }
  }

  lemma DenseForwards(strides: seq<int>, shape: seq<int>, itemsize: int)
    requires DenseInOrder(strides, shape, itemsize, Upward(|shape|))
    ensures strides == Scale(itemsize, StepsF(shape))
  {
    var perm := Upward(|shape|);
    assert Permute(shape, perm) == shape && Permute(strides, perm) == strides;
  }

  lemma DenseBackwards(strides: seq<int>, shape: seq<int>, itemsize: int)
    requires DenseInOrder(strides, shape, itemsize, Downward(|shape|))
    ensures strides == Scale(itemsize, StepsC(shape))
  {
    var n := |shape|;
    var perm := Downward(n);
    assert Permute(shape, perm) == Reverse(shape);
    forall i | 0 <= i < n ensures strides[i] == itemsize * Prod(shape[i + 1..]) {
      assert strides[i] == Permute(strides, perm)[n - 1 - i];
      assert Reverse(shape)[..n - 1 - i] == Reverse(shape[i + 1..]);
      ReversedProd(shape[i + 1..]);
    }
  }

  // ----- what compiled code computes from them -----

  /** Addressing an array through its dense strides, as through its C or F layout, reaches item number
      DenseRank, OffsetC or OffsetF: nothing wraps, and host and compiled code mean the same item. */
  lemma CompiledCodeAgrees(strides: seq<int>, shape: seq<int>, itemsize: int, perm: seq<int>, index: seq<int>)
    requires DenseInOrder(strides, shape, itemsize, perm) && InBox(index, shape)
    requires itemsize >= 1 && itemsize * Prod(shape) <= Addressing.HALF
    ensures Addressing.ItemOffset(Addressing.A, itemsize, shape, strides, index) ==
      itemsize * DenseRank(index, shape, perm)
    ensures strides == Scale(itemsize, StepsC(shape)) ==>
      Addressing.ItemOffset(Addressing.A, itemsize, shape, strides, index)
      == Addressing.ItemOffset(Addressing.C, itemsize, shape, strides, index) == itemsize * OffsetC(index, shape)
    ensures strides == Scale(itemsize, StepsF(shape)) ==>
      Addressing.ItemOffset(Addressing.A, itemsize, shape, strides, index)
      == Addressing.ItemOffset(Addressing.F, itemsize, shape, strides, index) == itemsize * OffsetF(index, shape)
  {
    DenseAt(strides, shape, itemsize, perm, index);
    Addressing.ScaledFits(itemsize, DenseRank(index, shape, perm), Prod(shape));
    Addressing.ItemOffsetIsRank(Addressing.C, itemsize, shape, strides, index);
    Addressing.ItemOffsetIsRank(Addressing.F, itemsize, shape, strides, index);
    OffsetWithoutWrapping(strides, shape, itemsize, index, itemsize * DenseRank(index, shape, perm));
    hide DenseInOrder, DenseRank, Addressing.ItemOffset, OffsetC, OffsetF, Prod;
    if strides == Scale(itemsize, StepsC(shape)) {
      SameStepsSameOffset(Addressing.C, itemsize, shape, strides, index);
    }
    if strides == Scale(itemsize, StepsF(shape)) {
      SameStepsSameOffset(Addressing.F, itemsize, shape, strides, index);
    }
  }

  lemma OffsetWithoutWrapping(strides: seq<int>, shape: seq<int>, itemsize: int, index: seq<int>, offset: int)
    requires |strides| == |shape| == |index| && Dot(index, strides) == offset
    requires MachineInt.Fits(offset, Addressing.HALF)
    ensures Addressing.ItemOffset(Addressing.A, itemsize, shape, strides, index) == offset
  {
    assert strides[..|index|] == strides;
    MachineInt.WrapOfFitting(offset, Addressing.HALF);
  }

  lemma SameStepsSameOffset(layout: Addressing.Layout, itemsize: int, shape: seq<int>, strides: seq<int>,
      index: seq<int>)
    requires |strides| == |shape| == |index| && strides == Addressing.ByteSteps(layout, shape, strides, itemsize)
    ensures Addressing.ItemOffset(Addressing.A, itemsize, shape, strides, index)
      == Addressing.ItemOffset(layout, itemsize, shape, strides, index)
  {
  }
}
