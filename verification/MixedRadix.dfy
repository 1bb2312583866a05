/** Index boxes and the numbers their indices stand for when the axes are read as digits. */
module MixedRadix {
  predicate Positive(shape: seq<int>) {
    forall i :: 0 <= i < |shape| ==> shape[i] >= 1
  }

  predicate InBox(index: seq<int>, shape: seq<int>) {
    |index| == |shape| && forall i :: 0 <= i < |shape| ==> 0 <= index[i] < shape[i]
  }

  function Prod(shape: seq<int>): int {
    if shape == [] then 1 else shape[0] * Prod(shape[1..])
  }

  lemma {:induction false} ProdPositive(shape: seq<int>)
    requires Positive(shape)
    ensures Prod(shape) >= 1
  {
    if shape != [] {
      ProdPositive(shape[1..]);
      MulPositive(shape[0], Prod(shape[1..]));
    }
  }

  lemma MulPositive(a: int, b: int)
    requires a >= 1 && b >= 1
    ensures a * b >= 1 && a * b >= a && a * b >= b
  {
  }

  lemma {:induction false} ProdOfSum(a: seq<int>, b: seq<int>)
    ensures Prod(a + b) == Prod(a) * Prod(b)
    decreases |a|
  {
    if a == [] {
      assert a + b == b;
    } else {
      assert (a + b)[1..] == a[1..] + b;
      ProdOfSum(a[1..], b);
      MulAssoc(a[0], Prod(a[1..]), Prod(b));
    }
  }

  lemma MulAssoc(a: int, b: int, c: int)
    ensures a * (b * c) == (a * b) * c
  {
  }

  // ----- first axis fastest -----

  function OffsetF(index: seq<int>, shape: seq<int>): int
    requires |index| == |shape|
  {
    if shape == [] then 0 else index[0] + shape[0] * OffsetF(index[1..], shape[1..])
  }

  function DigitsF(k: int, shape: seq<int>): (index: seq<int>)
    requires Positive(shape)
    ensures |index| == |shape|
    decreases |shape|
  {
    if shape == [] then [] else [k % shape[0]] + DigitsF(k / shape[0], shape[1..])
  }

  lemma DigitAndRest(d: int, n: int, q: int)
    requires 0 <= d < n
    ensures (d + n * q) % n == d && (d + n * q) / n == q
  {
    DivisionIsUnique(d + n * q, n, q, d);
  }

  lemma DivisionIsUnique(x: int, n: int, q: int, r: int)
    requires n >= 1 && 0 <= r < n && x == n * q + r
    ensures x / n == q && x % n == r
  {
    var q', r' := x / n, x % n;
    assert n * (q - q') == r' - r;
    if q > q' {
      MulPositive(q - q', n);
    } else if q < q' {
      MulPositive(q' - q, n);
    }
  }

  /** Below `n * total`, a last digit and a number below `total` make a number, and back. */
  lemma DigitBounds(d: int, n: int, q: int, total: int)
    requires 0 <= d < n && 0 <= q < total
    ensures 0 <= d + n * q < n * total
  {
    assert n * q <= n * (total - 1) by { MulMonotone(n, q, total - 1); }
    assert n * (total - 1) == n * total - n;
    MulMonotone(n, 0, q);
  }

  lemma MulMonotone(n: int, a: int, b: int)
    requires n >= 0 && a <= b
    ensures n * a <= n * b
  {
  }

  lemma QuotientBounds(k: int, n: int, total: int)
    requires n >= 1 && 0 <= k < n * total
    ensures 0 <= k / n < total && 0 <= k % n < n && k == k % n + n * (k / n)
  {
    if k / n >= total {
      MulMonotone(n, total, k / n);
    }
  }

  /** Reading the first axis as the lowest digit is a bijection from the box onto [0, product). */
  lemma {:induction false} OffsetFInBounds(index: seq<int>, shape: seq<int>)
    requires InBox(index, shape)
    ensures Positive(shape) && 0 <= OffsetF(index, shape) < Prod(shape)
    ensures DigitsF(OffsetF(index, shape), shape) == index
  {
    if shape != [] {
      var rest := OffsetF(index[1..], shape[1..]);
      OffsetFInBounds(index[1..], shape[1..]);
      assert Positive(shape) by { assert forall i :: 0 <= i < |shape| ==> shape[i] > index[i] >= 0; }
      DigitBounds(index[0], shape[0], rest, Prod(shape[1..]));
      DigitAndRest(index[0], shape[0], rest);
    }
  }

  lemma {:induction false} DigitsFInBox(k: int, shape: seq<int>)
    requires Positive(shape) && 0 <= k < Prod(shape)
    ensures InBox(DigitsF(k, shape), shape) && OffsetF(DigitsF(k, shape), shape) == k
    decreases |shape|
  {
    if shape != [] {
      QuotientBounds(k, shape[0], Prod(shape[1..]));
      DigitsFInBox(k / shape[0], shape[1..]);
      assert DigitsF(k, shape)[1..] == DigitsF(k / shape[0], shape[1..]);
    }
  }

  // ----- last axis fastest -----

  function OffsetC(index: seq<int>, shape: seq<int>): int
    requires |index| == |shape|
  {
    if shape == [] then 0 else index[0] * Prod(shape[1..]) + OffsetC(index[1..], shape[1..])
  }

  function DigitsC(k: int, shape: seq<int>): (index: seq<int>)
    requires Positive(shape)
    ensures |index| == |shape|
    decreases |shape|
  {
    if shape == [] then []
    else
      ProdPositive(shape[1..]);
      [k / Prod(shape[1..])] + DigitsC(k % Prod(shape[1..]), shape[1..])
  }

  lemma {:induction false} OffsetCInBounds(index: seq<int>, shape: seq<int>)
    requires InBox(index, shape)
    ensures Positive(shape) && 0 <= OffsetC(index, shape) < Prod(shape)
    ensures DigitsC(OffsetC(index, shape), shape) == index
  {
    if shape != [] {
      var tail, rest := Prod(shape[1..]), OffsetC(index[1..], shape[1..]);
      OffsetCInBounds(index[1..], shape[1..]);
      assert Positive(shape) by { assert forall i :: 0 <= i < |shape| ==> shape[i] > index[i] >= 0; }
      DigitBounds(rest, tail, index[0], shape[0]);
      DigitAndRest(rest, tail, index[0]);
      assert index[0] * tail == tail * index[0] && shape[0] * tail == tail * shape[0];
    }
  }

  lemma {:induction false} DigitsCInBox(k: int, shape: seq<int>)
    requires Positive(shape) && 0 <= k < Prod(shape)
    ensures InBox(DigitsC(k, shape), shape) && OffsetC(DigitsC(k, shape), shape) == k
    decreases |shape|
  {
    if shape != [] {
      var tail := Prod(shape[1..]);
      ProdPositive(shape[1..]);
      assert shape[0] * tail == tail * shape[0];
      QuotientBounds(k, tail, shape[0]);
      DigitsCInBox(k % tail, shape[1..]);
      assert DigitsC(k, shape)[1..] == DigitsC(k % tail, shape[1..]);
      assert (k / tail) * tail == tail * (k / tail);
    }
  }

  // ----- as sums of steps -----

  function Sum(terms: seq<int>): int {
    if terms == [] then 0 else terms[0] + Sum(terms[1..])
  }

  function Times(a: seq<int>, b: seq<int>): seq<int>
    requires |a| == |b|
  {
    seq(|a|, i requires 0 <= i < |a| => a[i] * b[i])
  }

  function Dot(a: seq<int>, b: seq<int>): int
    requires |a| == |b|
  {
    Sum(Times(a, b))
  }

  /** The number of elements between neighbours along each axis. */
  function StepsC(shape: seq<int>): (steps: seq<int>)
    ensures |steps| == |shape|
  {
    seq(|shape|, i requires 0 <= i < |shape| => Prod(shape[i + 1..]))
  }

  function StepsF(shape: seq<int>): (steps: seq<int>)
    ensures |steps| == |shape|
  {
    seq(|shape|, i requires 0 <= i < |shape| => Prod(shape[..i]))
  }

  function Scale(n: int, a: seq<int>): (r: seq<int>)
    ensures |r| == |a|
  {
    seq(|a|, i requires 0 <= i < |a| => n * a[i])
  }

  lemma {:induction false} SumScales(n: int, terms: seq<int>)
    ensures Sum(Scale(n, terms)) == n * Sum(terms)
    decreases |terms|
  {
    if terms != [] {
      assert Scale(n, terms)[1..] == Scale(n, terms[1..]);
      SumScales(n, terms[1..]);
    }
  }

  lemma DotScales(n: int, index: seq<int>, steps: seq<int>)
    requires |index| == |steps|
    ensures Dot(index, Scale(n, steps)) == n * Dot(index, steps)
  {
    SumScales(n, Times(index, steps));
    forall i | 0 <= i < |index| ensures index[i] * (n * steps[i]) == n * (index[i] * steps[i]) {
      MulAssoc(index[i], n, steps[i]);
      MulAssoc(n, index[i], steps[i]);
    }
    assert Times(index, Scale(n, steps)) == Scale(n, Times(index, steps));
  }

  lemma StepsCTail(shape: seq<int>)
    requires shape != []
    ensures StepsC(shape)[0] == Prod(shape[1..]) && StepsC(shape)[1..] == StepsC(shape[1..])
  {
    forall i | 0 <= i < |shape| - 1 ensures StepsC(shape)[1..][i] == StepsC(shape[1..])[i] {
      assert shape[1..][i + 1..] == shape[i + 2..];
    }
  }

  lemma {:induction false} DotStepsC(index: seq<int>, shape: seq<int>)
    requires |index| == |shape|
    ensures Dot(index, StepsC(shape)) == OffsetC(index, shape)
    decreases |shape|
  {
    if shape != [] {
      StepsCTail(shape);
      hide StepsC, Prod;
      DotStepsC(index[1..], shape[1..]);
      assert Times(index, StepsC(shape))[1..] == Times(index[1..], StepsC(shape)[1..]);
    }
  }

  lemma {:induction false} DotStepsF(index: seq<int>, shape: seq<int>)
    requires |index| == |shape|
    ensures Dot(index, StepsF(shape)) == OffsetF(index, shape)
    decreases |shape|
  {
    if shape != [] {
      DotStepsF(index[1..], shape[1..]);
      DotScales(shape[0], index[1..], StepsF(shape[1..]));
      forall i | 0 <= i < |shape| - 1 ensures StepsF(shape)[1..][i] == shape[0] * StepsF(shape[1..])[i] {
        assert shape[..i + 1][1..] == shape[1..][..i];
      }
      assert StepsF(shape)[1..] == Scale(shape[0], StepsF(shape[1..]));
      assert Times(index, StepsF(shape))[1..] == Times(index[1..], StepsF(shape)[1..]);
    }
  }

  /** The C and F offsets of an in-bounds index lie in [0, product), no two indices share one, and every
      number there is the offset of an index of the box. */
  lemma OffsetsAreBijections(index: seq<int>, shape: seq<int>, k: int)
    ensures InBox(index, shape) ==>
      && 0 <= Dot(index, StepsC(shape)) < Prod(shape) && 0 <= Dot(index, StepsF(shape)) < Prod(shape)
      && Positive(shape)
      && DigitsC(Dot(index, StepsC(shape)), shape) == index && DigitsF(Dot(index, StepsF(shape)), shape) == index
    ensures Positive(shape) && 0 <= k < Prod(shape) ==>
      && InBox(DigitsC(k, shape), shape) && Dot(DigitsC(k, shape), StepsC(shape)) == k
      && InBox(DigitsF(k, shape), shape) && Dot(DigitsF(k, shape), StepsF(shape)) == k
  {
    if InBox(index, shape) {
      DotStepsC(index, shape);
      DotStepsF(index, shape);
      OffsetCInBounds(index, shape);
      OffsetFInBounds(index, shape);
    }
    if Positive(shape) && 0 <= k < Prod(shape) {
      DigitsCInBox(k, shape);
      DigitsFInBox(k, shape);
      DotStepsC(DigitsC(k, shape), shape);
      DotStepsF(DigitsF(k, shape), shape);
    }
  }

  // ----- at the last axis, and backwards -----

  lemma {:induction false} SumExtends(terms: seq<int>, last: int)
    ensures Sum(terms + [last]) == Sum(terms) + last
    decreases |terms|
  {
    if terms != [] {
      assert (terms + [last])[1..] == terms[1..] + [last];
      SumExtends(terms[1..], last);
    } else {
      assert [last][1..] == [];
    }
  }

  lemma ProdExtends(shape: seq<int>, last: int)
    ensures Prod(shape + [last]) == Prod(shape) * last
  {
    ProdOfSum(shape, [last]);
    assert [last][1..] == [];
    assert Prod([last]) == last * 1;
  }

  function Reverse(s: seq<int>): (r: seq<int>)
    ensures |r| == |s|
    ensures forall i :: 0 <= i < |s| ==> r[i] == s[|s| - 1 - i]
  {
    seq(|s|, i requires 0 <= i < |s| => s[|s| - 1 - i])
  }

  lemma {:induction false} ReversedProd(shape: seq<int>)
    ensures Prod(Reverse(shape)) == Prod(shape)
    decreases |shape|
  {
    if shape != [] {
      ReversedProd(shape[1..]);
      assert Reverse(shape) == Reverse(shape[1..]) + [shape[0]];
      ProdExtends(Reverse(shape[1..]), shape[0]);
    } else {
      assert Reverse(shape) == [];
    }
  }

  // ----- leaving one axis out -----

  function Without(s: seq<int>, p: nat): (r: seq<int>)
    requires p < |s|
    ensures |r| == |s| - 1
    ensures forall j :: 0 <= j < |r| ==> r[j] == s[if j < p then j else j + 1]
  {
    s[..p] + s[p + 1..]
  }

  lemma {:induction false} SumSplits(a: seq<int>, p: nat)
    requires p < |a|
    ensures Sum(a) == Sum(Without(a, p)) + a[p]
    decreases |a|
  {
    if p > 0 {
      SumSplits(a[1..], p - 1);
      assert Without(a, p)[1..] == Without(a[1..], p - 1);
    } else {
      assert Without(a, 0) == a[1..];
    }
  }

  lemma {:induction false} ProdSplits(a: seq<int>, p: nat)
    requires p < |a|
    ensures Prod(a) == Prod(Without(a, p)) * a[p]
    decreases |a|
  {
    if p > 0 {
      ProdSplits(a[1..], p - 1);
      assert Without(a, p)[1..] == Without(a[1..], p - 1);
      MulAssoc(a[0], Prod(Without(a[1..], p - 1)), a[p]);
    } else {
      assert Without(a, 0) == a[1..];
    }
  }

  lemma {:induction false} DotZeros(index: seq<int>, strides: seq<int>)
    requires |index| == |strides| && forall i :: 0 <= i < |index| ==> index[i] == 0
    ensures Dot(index, strides) == 0
    decreases |index|
  {
    if index != [] {
      DotZeros(index[1..], strides[1..]);
      assert Times(index, strides)[1..] == Times(index[1..], strides[1..]);
    }
  }

  /** Only one index coordinate counts when all others are zero. */
  lemma DotSingle(index: seq<int>, strides: seq<int>, i: nat)
    requires i < |index| == |strides| && forall k :: 0 <= k < |index| && k != i ==> index[k] == 0
    ensures Dot(index, strides) == index[i] * strides[i]
  {
    SumSplits(Times(index, strides), i);
    DotZeros(Without(index, i), Without(strides, i));
    assert Without(Times(index, strides), i) == Times(Without(index, i), Without(strides, i));
  }


  // ----- two groups of axes -----

  lemma {:induction false} OffsetCAppends(a: seq<int>, c: seq<int>, sa: seq<int>, sc: seq<int>)
    requires |a| == |sa| && |c| == |sc|
    ensures OffsetC(a + c, sa + sc) == OffsetC(a, sa) * Prod(sc) + OffsetC(c, sc)
    decreases |a|
  {
    if a == [] {
      assert a + c == c && sa + sc == sc;
    } else {
      assert (a + c)[1..] == a[1..] + c && (sa + sc)[1..] == sa[1..] + sc;
      OffsetCAppends(a[1..], c, sa[1..], sc);
      ProdOfSum(sa[1..], sc);
      FactorTail(a[0], Prod(sa[1..]), Prod(sc), OffsetC(a[1..], sa[1..]));
    }
  }

  lemma FactorTail(first: int, outer: int, inner: int, rest: int)
    ensures first * (outer * inner) + rest * inner == (first * outer + rest) * inner
  {
    MulAssoc(first, outer, inner);
  }

  lemma DotOfSum(a: seq<int>, c: seq<int>, x: seq<int>, y: seq<int>)
    requires |a| == |x| && |c| == |y|
    ensures Dot(a + c, x + y) == Dot(a, x) + Dot(c, y)
  {
    assert Times(a + c, x + y) == Times(a, x) + Times(c, y);
    SumOfSum(Times(a, x), Times(c, y));
  }

  lemma {:induction false} SumOfSum(a: seq<int>, b: seq<int>)
    ensures Sum(a + b) == Sum(a) + Sum(b)
    decreases |a|
  {
    if a == [] {
      assert a + b == b;
    } else {
      assert (a + b)[1..] == a[1..] + b;
      SumOfSum(a[1..], b);
    }
  }
}
