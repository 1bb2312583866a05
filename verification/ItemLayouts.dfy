/** Which item is where: an array's dimensions and strides, and other dimensions and strides that show the same
    items in C order. Strides are counted in items. */
module ItemLayouts {
  import opened MixedRadix
  import opened Shapes

  // ----- axes of size one -----

  lemma {:induction false} NonNegative(shape: Shape)
    ensures Prod(shape) >= 0
    ensures Prod(shape) > 0 ==> Positive(shape)
  {
    if shape != [] {
      NonNegative(shape[1..]);
      MulMonotone(shape[0], 0, Prod(shape[1..]));
      assert shape[0] == 0 ==> shape[0] * Prod(shape[1..]) == 0;
      assert Prod(shape[1..]) == 0 ==> shape[0] * Prod(shape[1..]) == 0;
      assert forall i :: 1 <= i < |shape| ==> shape[i] == shape[1..][i - 1];
    }
  }


  lemma {:induction false} OnesOnly(shape: Shape)
    requires Prod(shape) == 1
    ensures forall i :: 0 <= i < |shape| ==> shape[i] == 1
    decreases |shape|
  {
    if shape != [] {
      NonNegative(shape);
      NonNegative(shape[1..]);
      ProdPositive(shape[1..]);
      MulPositive(shape[0], Prod(shape[1..]));
      OnesOnly(shape[1..]);
      assert forall i :: 1 <= i < |shape| ==> shape[i] == shape[1..][i - 1];
    }
  }


  lemma {:induction false} AllOnes(shape: seq<int>)
    requires forall i :: 0 <= i < |shape| ==> shape[i] == 1
    ensures Prod(shape) == 1
    decreases |shape|
  {
    if shape != [] {
      AllOnes(shape[1..]);
    }
  }


  /** The axes whose size is not one. */
  function Others(shape: Shape): Shape {
    if shape == [] then []
    else if shape[0] == 1 then Others(shape[1..])
    else [shape[0]] + Others(shape[1..])
  }


  function OtherStrides(shape: Shape, strides: seq<int>): (r: seq<int>)
    requires |strides| == |shape|
    ensures |r| == |Others(shape)|
    decreases |shape|
  {
    if shape == [] then []
    else if shape[0] == 1 then OtherStrides(shape[1..], strides[1..])
    else [strides[0]] + OtherStrides(shape[1..], strides[1..])
  }


  lemma {:induction false} OthersProd(shape: Shape)
    ensures Prod(Others(shape)) == Prod(shape)
    ensures forall i :: 0 <= i < |Others(shape)| ==> Others(shape)[i] != 1
    decreases |shape|
  {
    if shape != [] {
      OthersProd(shape[1..]);
      if shape[0] != 1 {
        assert Others(shape)[1..] == Others(shape[1..]);
      }
    }
  }


  // ----- the same items -----

  /** Two layouts of the same items in C order: indices at the same place read at the same offset. */
  ghost predicate SameItems(newdims: seq<int>, newstrides: seq<int>, dims: seq<int>, strides: seq<int>)
    requires |newdims| == |newstrides| && |dims| == |strides|
  {
    forall a: seq<int>, b: seq<int> ::
      InBox(a, newdims) && InBox(b, dims) && OffsetC(a, newdims) == OffsetC(b, dims) ==>
        Dot(a, newstrides) == Dot(b, strides)
  }


  lemma SamePlaces(p: int, x: int, y: int, x': int, y': int)
    requires 0 <= y < p && 0 <= y' < p && x * p + y == x' * p + y'
    ensures x == x' && y == y'
  {
    DivisionIsUnique(x * p + y, p, x, y);
    DivisionIsUnique(x * p + y, p, x', y');
  }


  lemma SplitBox(index: seq<int>, front: seq<int>, back: seq<int>) returns (o: seq<int>, c: seq<int>)
    requires InBox(index, front + back)
    ensures index == o + c && InBox(o, front) && InBox(c, back)
  {
    var shape := front + back;
    o, c := index[..|front|], index[|front|..];
    assert forall i :: 0 <= i < |front| ==> shape[i] == front[i];
    assert forall i :: 0 <= i < |back| ==> shape[|front| + i] == back[i];
  }


  /** A group of axes of the same size on both sides, each one run with the same innermost stride, may be
      added. */
  lemma GroupKeepsItems(a: seq<int>, sa: seq<int>, b: seq<int>, sb: seq<int>, ga: seq<int>, gb: seq<int>, s: int)
    requires |a| == |sa| && |b| == |sb| && SameItems(a, sa, b, sb) && Prod(ga) == Prod(gb)
    ensures SameItems(a + ga, sa + Scale(s, StepsC(ga)), b + gb, sb + Scale(s, StepsC(gb)))
  {
    forall x: seq<int>, y: seq<int> |
      InBox(x, a + ga) && InBox(y, b + gb) && OffsetC(x, a + ga) == OffsetC(y, b + gb)
      ensures Dot(x, sa + Scale(s, StepsC(ga))) == Dot(y, sb + Scale(s, StepsC(gb)))
    {
      var x1, x2 := SplitBox(x, a, ga);
      var y1, y2 := SplitBox(y, b, gb);
      GroupOffset(x1, x2, a, sa, ga, s);
      GroupOffset(y1, y2, b, sb, gb, s);
      SamePlaces(Prod(ga), OffsetC(x1, a), OffsetC(x2, ga), OffsetC(y1, b), OffsetC(y2, gb));
      hide *;
      hide SameItems;
    }
  }


  lemma GroupOffset(x: seq<int>, y: seq<int>, a: seq<int>, sa: seq<int>, g: seq<int>, s: int)
    requires InBox(x, a) && InBox(y, g) && |sa| == |a|
    ensures OffsetC(x + y, a + g) == OffsetC(x, a) * Prod(g) + OffsetC(y, g) && 0 <= OffsetC(y, g) < Prod(g)
    ensures Dot(x + y, sa + Scale(s, StepsC(g))) == Dot(x, sa) + s * OffsetC(y, g)
  {
    OffsetCAppends(x, y, a, g);
    OffsetCInBounds(y, g);
    DotOfSum(x, y, sa, Scale(s, StepsC(g)));
    DotScales(s, y, StepsC(g));
    DotStepsC(y, g);
  }


  /** Axes of size one at the end may have any strides. */
  lemma OnesKeepItems(a: seq<int>, sa: seq<int>, ones: seq<int>, last: seq<int>, b: seq<int>, sb: seq<int>)
    requires |a| == |sa| && |b| == |sb| && |ones| == |last| && SameItems(a, sa, b, sb)
    requires forall i :: 0 <= i < |ones| ==> ones[i] == 1
    ensures SameItems(a + ones, sa + last, b, sb)
  {
    forall x: seq<int>, y: seq<int> | InBox(x, a + ones) && InBox(y, b) && OffsetC(x, a + ones) == OffsetC(y, b)
      ensures Dot(x, sa + last) == Dot(y, sb)
    {
      var x1, x2 := SplitBox(x, a, ones);
      AllOnes(ones);
      DotZeros(x2, last);
      DotOfSum(x1, x2, sa, last);
      OffsetCAppends(x1, x2, a, ones);
      OffsetCInBounds(x2, ones);
    }
  }


  /** Leaving out the axes of size one leaves every index at its place and its offset. */
  lemma {:induction false} OthersKeepItems(index: seq<int>, dims: Shape, strides: seq<int>)
    requires InBox(index, dims) && |strides| == |dims|
    ensures var fewer := OtherStrides(dims, index);
      && InBox(fewer, Others(dims)) && OffsetC(fewer, Others(dims)) == OffsetC(index, dims)
      && Dot(fewer, OtherStrides(dims, strides)) == Dot(index, strides)
    decreases |dims|
  {
    if dims != [] {
      OthersKeepItems(index[1..], dims[1..], strides[1..]);
      assert Times(index, strides)[1..] == Times(index[1..], strides[1..]);
      if dims[0] != 1 {
        var fewer, rest := OtherStrides(dims, index), OtherStrides(dims[1..], index[1..]);
        OthersProd(dims[1..]);
        assert fewer[1..] == rest && Others(dims)[1..] == Others(dims[1..]);
        assert OtherStrides(dims, strides)[1..] == OtherStrides(dims[1..], strides[1..]);
        assert Times(fewer, OtherStrides(dims, strides))[1..] == Times(rest, OtherStrides(dims[1..], strides[1..]));
      }
    }
  }


  lemma OthersShowSame(newdims: Shape, newstrides: seq<int>, dims: Shape, strides: seq<int>)
    requires |newdims| == |newstrides| && |dims| == |strides|
    requires SameItems(newdims, newstrides, Others(dims), OtherStrides(dims, strides))
    ensures SameItems(newdims, newstrides, dims, strides)
  {
    forall a: seq<int>, b: seq<int> | InBox(a, newdims) && InBox(b, dims) && OffsetC(a, newdims) == OffsetC(b, dims)
      ensures Dot(a, newstrides) == Dot(b, strides)
    {
      OthersKeepItems(b, dims, strides);
    }
  }


  lemma EmptyShowSame(newdims: Shape, newstrides: seq<int>, dims: Shape, strides: seq<int>)
    requires |newdims| == |newstrides| && |dims| == |strides| && Prod(newdims) == 0
    ensures SameItems(newdims, newstrides, dims, strides)
  {
    forall a: seq<int> | InBox(a, newdims) ensures false {
      OffsetCInBounds(a, newdims);
    }
  }


  // ----- when two layouts can show the same items -----

  /** The offset of the item at place `m` in C order. */
  function Item(m: int, dims: seq<int>, strides: seq<int>): int
    requires |strides| == |dims| && Positive(dims)
  {
    Dot(DigitsC(m, dims), strides)
  }

  lemma SameAtPlace(a: seq<int>, sa: seq<int>, b: seq<int>, sb: seq<int>, m: int)
    requires |a| == |sa| && |b| == |sb| && SameItems(a, sa, b, sb) && Positive(a) && Positive(b)
    requires 0 <= m < Prod(a) == Prod(b)
    ensures Item(m, a, sa) == Item(m, b, sb)
  {
    DigitsCInBox(m, a);
    DigitsCInBox(m, b);
  }

  /** The index of the next item along axis `k`. */
  function Step(n: nat, k: nat): (r: seq<int>)
    ensures |r| == n
  {
    seq(n, i => if i == k then 1 else 0)
  }

  /** The first item along an axis with another one is one stride away. */
  lemma StepItem(dims: seq<int>, strides: seq<int>, k: nat)
    requires |strides| == |dims| && Positive(dims) && k < |dims| && dims[k] >= 2
    ensures Item(Prod(dims[k + 1..]), dims, strides) == strides[k] && 1 <= Prod(dims[k + 1..]) < Prod(dims)
  {
    var unit := Step(|dims|, k);
    assert InBox(unit, dims);
    DotSingle(unit, strides, k);
    DotSingle(unit, StepsC(dims), k);
    DotStepsC(unit, dims);
    OffsetCInBounds(unit, dims);
    ProdPositive(dims[k + 1..]);
  }

  lemma Decremented(index: seq<int>, strides: seq<int>, k: nat)
    requires k < |index| == |strides|
    ensures Dot(index[k := index[k] - 1], strides) == Dot(index, strides) - strides[k]
  {
    var fewer := index[k := index[k] - 1];
    SumSplits(Times(index, strides), k);
    SumSplits(Times(fewer, strides), k);
    assert Without(Times(index, strides), k) == Without(Times(fewer, strides), k);
    assert (index[k] - 1) * strides[k] == index[k] * strides[k] - strides[k];
  }

  /** Some axis steps by `m` places. */
  predicate StepsBy(dims: seq<int>, m: int) {
    m in StepsC(dims)
  }

  /** An item that is not the second along an axis can be reached in two shorter steps. */
  lemma SplitsOff(dims: seq<int>, strides: seq<int>, m: int) returns (first: int)
    requires |strides| == |dims| && Positive(dims) && 0 < m < Prod(dims)
    requires !StepsBy(dims, m)
    ensures 0 < first < m && Item(m, dims, strides) == Item(first, dims, strides) + Item(m - first, dims, strides)
  {
    var index := DigitsC(m, dims);
    DigitsCInBox(m, dims);
    DotStepsC(index, dims);
    if forall k :: 0 <= k < |index| ==> index[k] == 0 {
      DotZeros(index, StepsC(dims));
    }
    var k :| 0 <= k < |index| && index[k] > 0;
    first := StepsC(dims)[k];
    SplitAxis(dims, strides, m, k);
  }

  lemma SplitAxis(dims: seq<int>, strides: seq<int>, m: int, k: nat)
    requires |strides| == |dims| && Positive(dims) && 0 < m < Prod(dims)
    requires k < |dims| && DigitsC(m, dims)[k] > 0
    ensures var first := Prod(dims[k + 1..]);
      0 < first <= m && Item(m, dims, strides) == Item(first, dims, strides) + Item(m - first, dims, strides)
  {
    var index := DigitsC(m, dims);
    DigitsCInBox(m, dims);
    StepItem(dims, strides, k);
    var rest := index[k := index[k] - 1];
    Decremented(index, strides, k);
    Decremented(index, StepsC(dims), k);
    assert InBox(rest, dims);
    hide Prod, DigitsC, OffsetC, Dot, InBox;
    DotStepsC(index, dims);
    DotStepsC(rest, dims);
    OffsetCInBounds(rest, dims);
  }

  /** No two axes step by the same number of places, unless one by one. */
  ghost predicate Apart(a: seq<int>, b: seq<int>) {
    forall m :: StepsBy(a, m) && StepsBy(b, m) ==> m == 1
  }

  /** Where the axes of two layouts of the same items step apart, one of them reaches an item in two
      shorter steps. */
  lemma ShorterSteps(a: seq<int>, sa: seq<int>, b: seq<int>, sb: seq<int>, m: int) returns (first: int)
    requires |a| == |sa| && |b| == |sb| && SameItems(a, sa, b, sb) && Positive(a) && Positive(b)
    requires Apart(a, b) && 1 < m < Prod(a) == Prod(b)
    ensures 0 < first < m && Item(m, a, sa) == Item(first, a, sa) + Item(m - first, a, sa)
  {
    hide StepsBy, Item, SameItems;
    if StepsBy(a, m) {
      first := SplitsOff(b, sb, m);
      SameAtPlace(a, sa, b, sb, m);
      SameAtPlace(a, sa, b, sb, first);
      SameAtPlace(a, sa, b, sb, m - first);
    } else {
      first := SplitsOff(a, sa, m);
    }
  }

  /** So all items follow one another at the same distance. */
  lemma {:induction false} EquallySpaced(a: seq<int>, sa: seq<int>, b: seq<int>, sb: seq<int>, m: int)
    requires |a| == |sa| && |b| == |sb| && SameItems(a, sa, b, sb) && Positive(a) && Positive(b)
    requires Apart(a, b) && 1 <= m < Prod(a) == Prod(b)
    ensures Item(m, a, sa) == m * Item(1, a, sa)
    decreases m
  {
    hide *;
    if m > 1 {
      var first := ShorterSteps(a, sa, b, sb, m);
      EquallySpaced(a, sa, b, sb, first);
      EquallySpaced(a, sa, b, sb, m - first);
      SumOfMultiples(first, m - first, Item(1, a, sa));
    }
  }

  lemma SumOfMultiples(x: int, y: int, c: int)
    ensures x * c + y * c == (x + y) * c
  {
  }

  /** Then each axis spans the next. */
  lemma SpansNext(a: seq<int>, sa: seq<int>, b: seq<int>, sb: seq<int>, k: nat)
    requires |a| == |sa| && |b| == |sb| && SameItems(a, sa, b, sb) && Positive(a) && Positive(b)
    requires Apart(a, b) && Prod(a) == Prod(b) && k + 1 < |a| && a[k] >= 2 && a[k + 1] >= 2
    ensures sa[k] == a[k + 1] * sa[k + 1]
  {
    StepItem(a, sa, k);
    StepItem(a, sa, k + 1);
    EquallySpaced(a, sa, b, sb, Prod(a[k + 1..]));
    EquallySpaced(a, sa, b, sb, Prod(a[k + 2..]));
    assert a[k + 1..][1..] == a[k + 2..];
    MulAssoc(a[k + 1], Prod(a[k + 2..]), Item(1, a, sa));
  }

  // ----- some axes of a layout -----

  lemma PadZeros(index: seq<int>, dims: Shape, strides: seq<int>, i: nat, j: nat) returns (padded: seq<int>)
    requires i <= j <= |dims| == |strides| && Positive(dims) && InBox(index, dims[i..j])
    ensures InBox(padded, dims) && Dot(padded, strides) == Dot(index, strides[i..j])
    ensures OffsetC(padded, dims) == OffsetC(index, dims[i..j]) * Prod(dims[j..])
  {
    var front, back := seq(i, _ => 0), seq(|dims| - j, _ => 0);
    padded := front + (index + back);
    assert dims == dims[..i] + (dims[i..j] + dims[j..]);
    assert strides == strides[..i] + (strides[i..j] + strides[j..]);
    assert InBox(padded, dims);
    hide *;
    PadsDot(front, index, back, strides[..i], strides[i..j], strides[j..]);
    PadsOffset(front, index, back, dims[..i], dims[i..j], dims[j..]);
  }

  lemma PadsOffset(front: seq<int>, index: seq<int>, back: seq<int>, df: seq<int>, d: seq<int>, db: seq<int>)
    requires |front| == |df| && |index| == |d| && |back| == |db|
    requires (forall i :: 0 <= i < |front| ==> front[i] == 0) && forall i :: 0 <= i < |back| ==> back[i] == 0
    ensures OffsetC(front + (index + back), df + (d + db)) == OffsetC(index, d) * Prod(db)
  {
    hide *;
    var inner := OffsetC(index + back, d + db);
    assert inner == OffsetC(index, d) * Prod(db) by {
      OffsetCAppends(index, back, d, db);
      ZerosOffset(back, db);
    }
    OffsetCAppends(front, index + back, df, d + db);
    ZerosOffset(front, df);
    NoneOf(OffsetC(front, df), Prod(d + db));
  }

  lemma NoneOf(none: int, x: int)
    requires none == 0
    ensures none * x == 0
  {
  }

  lemma PadsDot(front: seq<int>, index: seq<int>, back: seq<int>, sf: seq<int>, s: seq<int>, sb: seq<int>)
    requires |front| == |sf| && |index| == |s| && |back| == |sb|
    requires (forall i :: 0 <= i < |front| ==> front[i] == 0) && forall i :: 0 <= i < |back| ==> back[i] == 0
    ensures Dot(front + (index + back), sf + (s + sb)) == Dot(index, s)
  {
    DotOfSum(front, index + back, sf, s + sb);
    DotOfSum(index, back, s, sb);
    DotZeros(front, sf);
    DotZeros(back, sb);
  }

  lemma ZerosOffset(index: seq<int>, dims: seq<int>)
    requires |index| == |dims| && forall i :: 0 <= i < |index| ==> index[i] == 0
    ensures OffsetC(index, dims) == 0
  {
    DotStepsC(index, dims);
    DotZeros(index, StepsC(dims));
  }

  /** Layouts that show the same items do so on groups of axes in the same place. */
  lemma GroupsShowSame(a: Shape, sa: seq<int>, i: nat, j: nat, b: Shape, sb: seq<int>, k: nat, l: nat)
    requires i <= j <= |a| == |sa| && k <= l <= |b| == |sb| && Positive(a) && Positive(b)
    requires SameItems(a, sa, b, sb) && Prod(a[j..]) == Prod(b[l..])
    ensures SameItems(a[i..j], sa[i..j], b[k..l], sb[k..l])
  {
    forall x: seq<int>, y: seq<int> |
      InBox(x, a[i..j]) && InBox(y, b[k..l]) && OffsetC(x, a[i..j]) == OffsetC(y, b[k..l])
      ensures Dot(x, sa[i..j]) == Dot(y, sb[k..l])
    {
      var x' := PadZeros(x, a, sa, i, j);
      var y' := PadZeros(y, b, sb, k, l);
    }
  }

  /** Every index without the axes of size one comes from an index with them. */
  lemma {:induction false} WithOnes(index: seq<int>, dims: Shape) returns (full: seq<int>)
    requires InBox(index, Others(dims))
    ensures InBox(full, dims) && OtherStrides(dims, full) == index
    decreases |dims|
  {
    if dims == [] {
      full := [];
    } else if dims[0] == 1 {
      full := WithOnes(index, dims[1..]);
      full := [0] + full;
    } else {
      assert Others(dims)[1..] == Others(dims[1..]);
      full := WithOnes(index[1..], dims[1..]);
      full := [index[0]] + full;
    }
  }

  lemma OthersShowSameBack(newdims: Shape, newstrides: seq<int>, dims: Shape, strides: seq<int>)
    requires |newdims| == |newstrides| && |dims| == |strides| && SameItems(newdims, newstrides, dims, strides)
    ensures SameItems(newdims, newstrides, Others(dims), OtherStrides(dims, strides))
  {
    forall a: seq<int>, b: seq<int> |
      InBox(a, newdims) && InBox(b, Others(dims)) && OffsetC(a, newdims) == OffsetC(b, Others(dims))
      ensures Dot(a, newstrides) == Dot(b, OtherStrides(dims, strides))
    {
      var full := WithOnes(b, dims);
      OthersKeepItems(full, dims, strides);
    }
  }

  // ----- products of axes -----

  lemma ProdSplit(shape: Shape, i: nat, j: nat)
    requires i <= j <= |shape|
    ensures Prod(shape[i..]) == Prod(shape[i..j]) * Prod(shape[j..])
  {
    assert shape[i..] == shape[i..j] + shape[j..];
    ProdOfSum(shape[i..j], shape[j..]);
  }


  lemma CancelFactor(f: int, x: int, y: int)
    requires f >= 1 && f * x == f * y
    ensures x == y
  {
    DivisionIsUnique(f * x, f, x, 0);
    DivisionIsUnique(f * y, f, y, 0);
  }
}
