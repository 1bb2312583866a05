/** The loop nests compiled kernels walk arrays with, and the order in which they visit indices. */
module LoopNests {
  import opened MixedRadix
  import opened Addressing

  datatype Order = CFirst | FFirst

  /** The loop body's log: the loop index put before each index the inner nest visited. */
  function Under(i: int, inner: seq<seq<int>>): (r: seq<seq<int>>)
    ensures |r| == |inner|
    ensures forall k :: 0 <= k < |inner| ==> r[k] == [i] + inner[k]
  {
    seq(|inner|, k requires 0 <= k < |inner| => [i] + inner[k])
  }

  /** The visits of a nest over `shape`: every index of the box, the k-th visit being that of offset k;
      none at all when some axis is empty or negative. */
  ghost predicate VisitsBox(visits: seq<seq<int>>, shape: seq<int>) {
    if Positive(shape) then
      && |visits| == Prod(shape)
      && forall k :: 0 <= k < |visits| ==> visits[k] == DigitsC(k, shape)
    else visits == []
  }

  /** After `i` turns of the outermost loop. */
  ghost predicate VisitsPart(visits: seq<seq<int>>, i: int, shape: seq<int>)
    requires shape != []
  {
    if Positive(shape[1..]) then
      && |visits| == i * Prod(shape[1..])
      && forall k :: 0 <= k < |visits| ==>
        visits[k] == [k / Prod(shape[1..])] + DigitsC(k % Prod(shape[1..]), shape[1..])
    else visits == []
  }

  lemma OneTurn(visits: seq<seq<int>>, i: int, inner: seq<seq<int>>, shape: seq<int>)
    requires shape != [] && i >= 0 && VisitsPart(visits, i, shape) && VisitsBox(inner, shape[1..])
    ensures VisitsPart(visits + Under(i, inner), i + 1, shape)
  {
    if Positive(shape[1..]) {
      var tail := Prod(shape[1..]);
      ProdPositive(shape[1..]);
      var all := visits + Under(i, inner);
      assert |all| == (i + 1) * tail;
      forall k | |visits| <= k < |all|
        ensures all[k] == [k / tail] + DigitsC(k % tail, shape[1..])
      {
        assert tail * i == i * tail;
        DivisionIsUnique(k, tail, i, k - i * tail);
        assert all[k] == Under(i, inner)[k - |visits|];
      }
    } else {
      assert visits + Under(i, inner) == [];
    }
  }

  lemma AllTurns(visits: seq<seq<int>>, shape: seq<int>)
    requires shape != [] && VisitsPart(visits, if shape[0] < 0 then 0 else shape[0], shape)
    ensures VisitsBox(visits, shape)
  {
    if Positive(shape) {
      ProdPositive(shape[1..]);
    } else if Positive(shape[1..]) {
      assert 0 * Prod(shape[1..]) == 0;
    }
  }

  method Nest(shape: seq<Intp>) returns (visits: seq<seq<int>>)
    requires shape != []
    ensures VisitsBox(visits, shape)
    decreases |shape|
  {
    hide VisitsBox;
    visits := [];
    var index: Intp := 0;
    assert VisitsPart(visits, 0, shape) by { assert 0 * Prod(shape[1..]) == 0; }
    while index < shape[0]
      invariant 0 <= index <= (if shape[0] < 0 then 0 else shape[0])
      invariant VisitsPart(visits, index, shape)
      decreases shape[0] - index
    {
      var inner: seq<seq<int>>;
      if |shape| > 1 {
        inner := Nest(shape[1..]);
      } else {
        inner := [[]];
        OneVisit(shape[1..]);
      }
      OneTurn(visits, index, inner, shape);
      visits := visits + Under(index, inner);
      index := index + 1;
    }
    AllTurns(visits, shape);
  }

  lemma OneVisit(shape: seq<int>)
    requires shape == []
    ensures VisitsBox([[]], shape)
  {
  }

  lemma {:induction false} OffsetCExtends(index: seq<int>, i: int, shape: seq<int>, n: int)
    requires |index| == |shape|
    ensures OffsetC(index + [i], shape + [n]) == OffsetC(index, shape) * n + i
    decreases |shape|
  {
    if shape == [] {
      assert index + [i] == [i] && shape + [n] == [n];
      assert [i][1..] == [] && [n][1..] == [];
      assert OffsetC([i], [n]) == i * Prod([n][1..]) + OffsetC([i][1..], [n][1..]);
    } else {
      assert (index + [i])[1..] == index[1..] + [i] && (shape + [n])[1..] == shape[1..] + [n];
      OffsetCExtends(index[1..], i, shape[1..], n);
      ProdExtends(shape[1..], n);
      MulAssoc(index[0], Prod(shape[1..]), n);
    }
  }

  /** Reading the axes backwards swaps the two orders. */
  lemma {:induction false} ReversedOffset(index: seq<int>, shape: seq<int>)
    requires |index| == |shape|
    ensures OffsetC(Reverse(index), Reverse(shape)) == OffsetF(index, shape)
    decreases |shape|
  {
    if shape != [] {
      ReversedOffset(index[1..], shape[1..]);
      assert Reverse(index) == Reverse(index[1..]) + [index[0]];
      assert Reverse(shape) == Reverse(shape[1..]) + [shape[0]];
      OffsetCExtends(Reverse(index[1..]), index[0], Reverse(shape[1..]), shape[0]);
    }
  }

  lemma ReversedPositive(shape: seq<int>)
    ensures Positive(Reverse(shape)) <==> Positive(shape)
  {
    if Positive(Reverse(shape)) {
      forall i | 0 <= i < |shape| ensures shape[i] >= 1 {
        assert Reverse(shape)[|shape| - 1 - i] == shape[i];
      }
    }
  }

  lemma ReversedDigits(k: int, shape: seq<int>)
    requires Positive(shape) && Positive(Reverse(shape)) && 0 <= k < Prod(shape)
    ensures Reverse(DigitsC(k, Reverse(shape))) == DigitsF(k, shape)
  {
    ReversedProd(shape);
    var d := DigitsC(k, Reverse(shape));
    DigitsCInBox(k, Reverse(shape));
    var index := Reverse(d);
    assert Reverse(index) == d && Reverse(Reverse(shape)) == shape;
    forall i | 0 <= i < |shape| ensures 0 <= index[i] < shape[i] {
      assert 0 <= d[|shape| - 1 - i] < Reverse(shape)[|shape| - 1 - i];
    }
    ReversedOffset(index, shape);
    OffsetFInBounds(index, shape);
  }

  /** In either order, for any shape: every index of the box exactly once, the k-th visit being the index
      whose element number in that order is k, and no visits when an axis is not positive. */
  method LoopNest(shape: seq<Intp>, order: Order) returns (visits: seq<seq<int>>)
    ensures Positive(shape) ==>
      && |visits| == Prod(shape)
      && forall k :: 0 <= k < |visits| ==>
        && InBox(visits[k], shape)
        && Rank(if order == FFirst then F else C, visits[k], shape) == k
    ensures !Positive(shape) ==> visits == []
  {
    if shape == [] {
      return [[]];
    }
    if order == FFirst {
      var inner := Nest(Reverse(shape));
      ReversedPositive(shape);
      ReversedProd(shape);
      visits := seq(|inner|, k requires 0 <= k < |inner| => Reverse(inner[k]));
      if Positive(shape) {
        forall k | 0 <= k < |inner|
          ensures InBox(visits[k], shape) && OffsetF(visits[k], shape) == k
        {
          ReversedDigits(k, shape);
          DigitsFInBox(k, shape);
        }
      }
    } else {
      visits := Nest(shape);
      if Positive(shape) {
        forall k | 0 <= k < |visits|
          ensures InBox(visits[k], shape) && OffsetC(visits[k], shape) == k
        {
          DigitsCInBox(k, shape);
        }
      }
    }
  }

  /** So a nest in the array's own order walks its memory forwards, one item at a time. */
  lemma WalksForwards(visits: seq<seq<int>>, layout: Layout, itemsize: int, shape: seq<int>, strides: seq<int>, k: int)
    requires layout != A && |strides| == |shape| && Positive(shape)
    requires itemsize >= 1 && itemsize * Prod(shape) <= HALF
    requires |visits| == Prod(shape) && 0 <= k < |visits|
    requires InBox(visits[k], shape) && Rank(layout, visits[k], shape) == k
    ensures ItemOffset(layout, itemsize, shape, strides, visits[k]) == itemsize * k
  {
    ItemOffsetIsRank(layout, itemsize, shape, strides, visits[k]);
  }
}
