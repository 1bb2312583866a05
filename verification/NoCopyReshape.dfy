/** The strides, if any, with which an array can be reshaped without copying its data. Strides are counted in
    items. */
module NoCopyReshape {
  import opened Options
  import opened MixedRadix
  import opened Shapes
  import opened ItemLayouts

  // ----- axes of size one -----

  lemma {:induction false} NoOthers(shape: Shape, strides: seq<int>)
    requires |strides| == |shape| && forall k :: 0 <= k < |shape| ==> shape[k] == 1
    ensures Others(shape) == [] && OtherStrides(shape, strides) == []
    decreases |shape|
  {
    if shape != [] {
      NoOthers(shape[1..], strides[1..]);
    }
  }

  lemma {:induction false} OneOther(shape: Shape, strides: seq<int>, i: nat)
    requires |strides| == |shape| && i < |shape| && shape[i] != 1
    requires forall k :: 0 <= k < |shape| && k != i ==> shape[k] == 1
    ensures Others(shape) == [shape[i]] && OtherStrides(shape, strides) == [strides[i]]
    decreases |shape|
  {
    if i == 0 {
      NoOthers(shape[1..], strides[1..]);
    } else {
      OneOther(shape[1..], strides[1..], i - 1);
    }
  }

  predicate AtMostOneRun(dims: Shape, strides: seq<int>) {
    (dims == [] && strides == []) || (|dims| == 1 && strides == [1])
  }

  lemma ProdNext(shape: Shape, i: nat, j: nat)
    requires i <= j < |shape|
    ensures Prod(shape[i..j + 1]) == Prod(shape[i..j]) * shape[j]
  {
    assert shape[i..j + 1] == shape[i..j] + [shape[j]];
    ProdExtends(shape[i..j], shape[j]);
  }

  lemma {:induction false} LongGrows(dims: Shape)
    requires dims != [] && forall i :: 0 <= i < |dims| ==> dims[i] >= 2
    ensures Prod(dims) >= 2
  {
    assert Positive(dims[1..]);
    ProdPositive(dims[1..]);
    MulPositive(dims[0], Prod(dims[1..]));
  }

  /** Two remaining parts with the same product, when one is used up to a smaller product than the other:
      it has not been used up. */
  lemma RoomLeft(a: Shape, i: nat, j: nat, b: Shape, k: nat, l: nat)
    requires i <= j <= |a| && k <= l <= |b| && Positive(a) && Positive(b)
    requires Prod(a[i..]) == Prod(b[k..]) && Prod(a[i..j]) < Prod(b[k..l])
    ensures j < |a|
  {
    if j == |a| {
      assert a[i..j] == a[i..];
      ProdSplit(b, k, l);
      ProdPositive(b[l..]);
      ProdPositive(b[k..l]);
      MulPositive(Prod(b[k..l]), Prod(b[l..]));
    }
  }

  lemma SameRest(a: Shape, i: nat, j: nat, b: Shape, k: nat, l: nat)
    requires i <= j <= |a| && k <= l <= |b| && Positive(a) && Positive(b)
    requires Prod(a[i..]) == Prod(b[k..]) && Prod(a[i..j]) == Prod(b[k..l])
    ensures Prod(a[j..]) == Prod(b[l..])
  {
    ProdSplit(a, i, j);
    ProdSplit(b, k, l);
    ProdPositive(a[i..j]);
    CancelFactor(Prod(a[i..j]), Prod(a[j..]), Prod(b[l..]));
  }

  /** One step of the outer loop, on the axes before the group and the group itself. */
  lemma MatchedGroup(newdims: Shape, newstrides: seq<int>, ni: nat, nj: nat,
                     dims: Shape, strides: seq<int>, oi: nat, oj: nat)
    requires ni < nj <= |newdims| == |newstrides| && oi < oj <= |dims| == |strides|
    requires SameItems(newdims[..ni], newstrides[..ni], dims[..oi], strides[..oi])
    requires Prod(newdims[ni..nj]) == Prod(dims[oi..oj])
    requires forall k :: ni <= k < nj ==> newstrides[k] == strides[oj - 1] * Prod(newdims[k + 1..nj])
    requires forall k :: oi <= k < oj ==> strides[k] == strides[oj - 1] * Prod(dims[k + 1..oj])
    ensures SameItems(newdims[..nj], newstrides[..nj], dims[..oj], strides[..oj])
  {
    GroupStrides(newdims, newstrides, ni, nj, strides[oj - 1]);
    GroupStrides(dims, strides, oi, oj, strides[oj - 1]);
    GroupKeepsItems(newdims[..ni], newstrides[..ni], dims[..oi], strides[..oi], newdims[ni..nj], dims[oi..oj],
                    strides[oj - 1]);
    hide SameItems;
  }

  lemma GroupStrides(dims: Shape, strides: seq<int>, i: nat, j: nat, s: int)
    requires i < j <= |dims| == |strides|
    requires forall k :: i <= k < j ==> strides[k] == s * Prod(dims[k + 1..j])
    ensures dims[..j] == dims[..i] + dims[i..j]
    ensures strides[..j] == strides[..i] + Scale(s, StepsC(dims[i..j]))
  {
    forall k | i <= k < j ensures Scale(s, StepsC(dims[i..j]))[k - i] == strides[k] {
      assert dims[i..j][k - i + 1..] == dims[k + 1..j];
    }
    assert strides[i..j] == Scale(s, StepsC(dims[i..j]));
  }

  /** Groups of axes of equal size are matched from the front; a group of old axes has to be one run of its
      own. Strides are found if and only if some strides show the items of the array in C order, and those found
      do; for an array that is one run of items, they are the C strides. */
  method AttemptNoCopyReshape(dims: Shape, strides: seq<int>, newdims: Shape) returns (r: Option<seq<int>>)
    requires |strides| == |dims|
    ensures r.None? && Prod(dims) == Prod(newdims) ==>
      forall other: seq<int> :: |other| == |newdims| ==> !SameItems(newdims, other, dims, strides)
    ensures r.Some? ==> Prod(dims) == Prod(newdims)
    ensures r.Some? ==> |r.value| == |newdims| && SameItems(newdims, r.value, dims, strides)
    ensures AtMostOneRun(Others(dims), OtherStrides(dims, strides)) && Prod(dims) == Prod(newdims) != 0 ==>
      r == Some(StepsC(newdims))
  {
    var olddims, oldstrides := Others(dims), OtherStrides(dims, strides);
    OthersProd(dims);
    if Prod(newdims) != Prod(olddims) {
      return None;
    }
    if Prod(newdims) == 0 {
      EmptyShowSame(newdims, seq(|newdims|, _ => 1), dims, strides);
      return Some(seq(|newdims|, _ => 1));
    }
    NonNegative(newdims);
    NonNegative(olddims);
    var newstrides := new int[|newdims|](_ => 0);
    var oi, ni := 0, 0;
    NothingMatched(newdims, newstrides[..], olddims, oldstrides);
    while ni < |newdims| && oi < |olddims|
      invariant ni <= |newdims| && oi <= |olddims| && Prod(newdims[ni..]) == Prod(olddims[oi..])
      invariant SameItems(newdims[..ni], newstrides[..ni], olddims[..oi], oldstrides[..oi])
      invariant AtMostOneRun(olddims, oldstrides) ==>
        (ni == 0 && oi == 0) || (oi == |olddims| && FilledTo(newstrides[..], newdims, ni))
      invariant (oi == 0) <==> (ni == 0)
      decreases |olddims| - oi
    {
      var nj, oj := MatchGroup(newdims, ni, olddims, oi);
      var combined, broken := CanCombine(olddims, oldstrides, oi, oj);
      if !combined {
        assert !AtMostOneRun(olddims, oldstrides);
        CannotCombine(newdims, ni, nj, dims, strides, oi, oj, broken);
        return None;
      }
      ghost var before := newstrides[..ni];
      FillGroup(newstrides, newdims, ni, nj, oldstrides[oj - 1]);
      assert newstrides[..][..ni] == before;
      CombinedGroup(olddims, oldstrides, oi, oj);
      MatchedGroup(newdims, newstrides[..], ni, nj, olddims, oldstrides, oi, oj);
      SameRest(newdims, ni, nj, olddims, oi, oj);
      ghost var firstGroup := ni == 0 && oi == 0;
      ni, oi := nj, oj;
      assert newstrides[..][..ni] == newstrides[..ni];
      if AtMostOneRun(olddims, oldstrides) {
        assert firstGroup && oi == |olddims| && olddims[oi..] == [];
        FirstGroupFills(newstrides[..], newdims, ni);
      }
    }
    AllMatched(newdims, ni, olddims, oi);
    OnesOnly(newdims[ni..]);
    var lastStride := if ni >= 1 then newstrides[ni - 1] else 1;
    ghost var found := newstrides[..];
    FillTrailing(newstrides, ni, lastStride);
    r := Some(newstrides[..]);
    AllOthersShown(newdims, r.value, ni, dims, strides, oi);
    if AtMostOneRun(olddims, oldstrides) {
      if ni == 0 {
        assert olddims[0..] == olddims;
      }
      TrailingOnes(r.value, found, newdims, ni, lastStride);
    }
  }

  /** A group that is not one run of its own rules out all strides for the new axes. */
  lemma CannotCombine(newdims: Shape, ni: nat, nj: nat, dims: Shape, strides: seq<int>, oi: nat, oj: nat, ok: nat)
    requires |dims| == |strides| && Positive(newdims) && Positive(Others(dims))
    requires ni < nj <= |newdims| && oi <= ok < oj - 1 < |Others(dims)|
    requires Prod(newdims[ni..]) == Prod(Others(dims)[oi..])
    requires Prod(newdims[ni..nj]) == Prod(Others(dims)[oi..oj])
    requires forall p, q :: oi < p < oj && ni < q < nj ==> Prod(Others(dims)[oi..p]) != Prod(newdims[ni..q])
    requires OtherStrides(dims, strides)[ok] != Others(dims)[ok + 1] * OtherStrides(dims, strides)[ok + 1]
    ensures forall other: seq<int> :: |other| == |newdims| ==> !SameItems(newdims, other, dims, strides)
  {
    hide *;
    forall other: seq<int> | |other| == |newdims| ensures !SameItems(newdims, other, dims, strides) {
      if SameItems(newdims, other, dims, strides) {
        OthersShowSameBack(newdims, other, dims, strides);
        OthersProd(dims);
        GroupSpans(newdims, other, ni, nj, Others(dims), OtherStrides(dims, strides), oi, oj, ok);
      }
    }
  }

  /** Where all items are shown the same, a group is one run of its own. */
  lemma GroupSpans(a: Shape, sa: seq<int>, ni: nat, nj: nat, b: Shape, sb: seq<int>, oi: nat, oj: nat, ok: nat)
    requires |a| == |sa| && |b| == |sb| && Positive(a) && Positive(b) && SameItems(a, sa, b, sb)
    requires forall i :: 0 <= i < |b| ==> b[i] != 1
    requires ni < nj <= |a| && oi <= ok < oj - 1 < |b|
    requires Prod(a[ni..]) == Prod(b[oi..]) && Prod(a[ni..nj]) == Prod(b[oi..oj])
    requires forall p, q :: oi < p < oj && ni < q < nj ==> Prod(b[oi..p]) != Prod(a[ni..q])
    ensures sb[ok] == b[ok + 1] * sb[ok + 1]
  {
    hide Prod, SameItems, Apart;
    SameRest(a, ni, nj, b, oi, oj);
    GroupsShowSame(a, sa, ni, nj, b, sb, oi, oj);
    GroupsApart(b, oi, oj, a, ni, nj);
    SameItemsBack(a[ni..nj], sa[ni..nj], b[oi..oj], sb[oi..oj]);
    SpansNext(b[oi..oj], sb[oi..oj], a[ni..nj], sa[ni..nj], ok - oi);
  }

  lemma SameItemsBack(a: seq<int>, sa: seq<int>, b: seq<int>, sb: seq<int>)
    requires |a| == |sa| && |b| == |sb| && SameItems(a, sa, b, sb)
    ensures SameItems(b, sb, a, sa)
  {
  }

  /** Groups of the same size that match no sooner have no steps in common. */
  lemma GroupsApart(a: Shape, i: nat, j: nat, b: Shape, k: nat, l: nat)
    requires i < j <= |a| && k < l <= |b| && Positive(a) && Positive(b)
    requires Prod(a[i..j]) == Prod(b[k..l])
    requires forall p, q :: i < p < j && k < q < l ==> Prod(a[i..p]) != Prod(b[k..q])
    ensures Apart(a[i..j], b[k..l])
  {
    var x, y := a[i..j], b[k..l];
    forall m | StepsBy(x, m) && StepsBy(y, m) ensures m == 1 {
      var s :| 0 <= s < |x| && StepsC(x)[s] == m;
      var t :| 0 <= t < |y| && StepsC(y)[t] == m;
      assert x[..s + 1] == a[i..i + s + 1] && y[..t + 1] == b[k..k + t + 1];
      SameFront(x, s + 1, y, t + 1);
    }
  }

  lemma SameFront(x: Shape, s: nat, y: Shape, t: nat)
    requires s <= |x| && t <= |y| && Positive(x) && Positive(y)
    requires Prod(x) == Prod(y) && Prod(x[s..]) == Prod(y[t..])
    ensures Prod(x[..s]) == Prod(y[..t])
  {
    ProdPositive(x[s..]);
    hide *;
    ProdParts(x, s);
    ProdParts(y, t);
    CancelFactor(Prod(x[s..]), Prod(x[..s]), Prod(y[..t]));
  }

  lemma ProdParts(x: Shape, s: nat)
    requires s <= |x|
    ensures Prod(x) == Prod(x[s..]) * Prod(x[..s])
  {
    assert x == x[..s] + x[s..];
    ProdOfSum(x[..s], x[s..]);
  }

  lemma NothingMatched(newdims: Shape, newstrides: seq<int>, dims: Shape, strides: seq<int>)
    requires |newdims| == |newstrides| && |dims| == |strides|
    ensures newdims[0..] == newdims && dims[0..] == dims
    ensures SameItems(newdims[..0], newstrides[..0], dims[..0], strides[..0])
  {
  }

  lemma AllOthersShown(newdims: Shape, newstrides: seq<int>, ni: nat, dims: Shape, strides: seq<int>, oi: nat)
    requires ni <= |newdims| == |newstrides| && |dims| == |strides| && oi == |Others(dims)|
    requires SameItems(newdims[..ni], newstrides[..ni], Others(dims)[..oi], OtherStrides(dims, strides)[..oi])
    requires forall i :: ni <= i < |newdims| ==> newdims[i] == 1
    ensures SameItems(newdims, newstrides, dims, strides)
  {
    assert Others(dims)[..oi] == Others(dims) && OtherStrides(dims, strides)[..oi] == OtherStrides(dims, strides);
    OnesKeepItems(newdims[..ni], newstrides[..ni], newdims[ni..], newstrides[ni..],
                  Others(dims), OtherStrides(dims, strides));
    assert newdims[..ni] + newdims[ni..] == newdims && newstrides[..ni] + newstrides[ni..] == newstrides;
    OthersShowSame(newdims, newstrides, dims, strides);
    hide SameItems;
  }

  /** The loop that looks for an axis that does not span the next in its group. */
  method CanCombine(dims: Shape, strides: seq<int>, oi: nat, oj: nat) returns (combined: bool, broken: nat)
    requires oi < oj <= |dims| == |strides|
    ensures combined ==> forall k :: oi <= k < oj - 1 ==> strides[k] == dims[k + 1] * strides[k + 1]
    ensures !combined ==> oi <= broken < oj - 1 && strides[broken] != dims[broken + 1] * strides[broken + 1]
  {
    for ok := oi to oj - 1
      invariant forall k :: oi <= k < ok ==> strides[k] == dims[k + 1] * strides[k + 1]
    {
      if strides[ok] != dims[ok + 1] * strides[ok + 1] {
        return false, ok;
      }
    }
    return true, 0;
  }

  /** The loop over the axes of size one at the end. */
  method FillTrailing(newstrides: array<int>, ni: nat, lastStride: int)
    requires ni <= newstrides.Length
    modifies newstrides
    ensures newstrides[..ni] == old(newstrides[..ni])
    ensures forall k :: ni <= k < newstrides.Length ==> newstrides[k] == lastStride
  {
    for nk := ni to newstrides.Length
      invariant newstrides[..ni] == old(newstrides[..ni])
      invariant forall k :: ni <= k < nk ==> newstrides[k] == lastStride
    {
      newstrides[nk] := lastStride;
    }
  }

  /** The loop that gives the new axes of one group their strides, from the innermost outwards. */
  method FillGroup(newstrides: array<int>, newdims: Shape, ni: nat, nj: nat, stride: int)
    requires ni < nj <= |newdims| == newstrides.Length
    modifies newstrides
    ensures newstrides[..ni] == old(newstrides[..ni])
    ensures forall k :: ni <= k < nj ==> newstrides[k] == stride * Prod(newdims[k + 1..nj])
  {
    newstrides[nj - 1] := stride;
    for nk := nj - 1 downto ni
      invariant newstrides[..ni] == old(newstrides[..ni])
      invariant forall k :: nk <= k < nj ==> newstrides[k] == stride * Prod(newdims[k + 1..nj])
    {
      GroupStep(stride, newdims, nk, nj);
      newstrides[nk] := newstrides[nk + 1] * newdims[nk + 1];
    }
  }

  /** Axes each of which spans the next are one run. */
  lemma {:induction false} CombinedGroup(dims: Shape, strides: seq<int>, i: nat, j: nat)
    requires i < j <= |dims| == |strides|
    requires forall k :: i <= k < j - 1 ==> strides[k] == dims[k + 1] * strides[k + 1]
    ensures forall k :: i <= k < j ==> strides[k] == strides[j - 1] * Prod(dims[k + 1..j])
    decreases j - i
  {
    if i == j - 1 {
      assert dims[j..j] == [];
    } else {
      CombinedGroup(dims, strides, i + 1, j);
      GroupStep(strides[j - 1], dims, i, j);
    }
  }

  /** The C strides, as far as they are filled in. */
  predicate FilledTo(strides: seq<int>, dims: Shape, n: nat) {
    n <= |dims| == |strides| && forall k :: 0 <= k < n ==> strides[k] == Prod(dims[k + 1..])
  }

  lemma ProdGrows(dims: Shape, i: nat, j: nat)
    requires i <= j < |dims| && Positive(dims)
    ensures Prod(dims[i..j + 1]) == Prod(dims[i..j]) * dims[j] >= Prod(dims[i..j])
  {
    ProdNext(dims, i, j);
    ProdPositive(dims[i..j]);
    MulPositive(Prod(dims[i..j]), dims[j]);
  }

  /** The loop that matches one group; no shorter group matches. */
  method MatchGroup(newdims: Shape, ni: nat, olddims: Shape, oi: nat) returns (nj: nat, oj: nat)
    requires ni < |newdims| && oi < |olddims| && Positive(newdims) && Positive(olddims)
    requires Prod(newdims[ni..]) == Prod(olddims[oi..])
    ensures ni < nj <= |newdims| && oi < oj <= |olddims|
    ensures Prod(newdims[ni..nj]) == Prod(olddims[oi..oj])
    ensures forall p, q :: oi < p < oj && ni < q < nj ==> Prod(olddims[oi..p]) != Prod(newdims[ni..q])
  {
    nj, oj := ni + 1, oi + 1;
    var np, op := newdims[ni], olddims[oi];
    SliceOne(newdims, ni);
    SliceOne(olddims, oi);
    hide Prod;
    while np != op
      invariant ni < nj <= |newdims| && oi < oj <= |olddims|
      invariant np == Prod(newdims[ni..nj]) && op == Prod(olddims[oi..oj])
      invariant forall p :: oi < p < oj ==> Prod(olddims[oi..p]) < np
      invariant forall q :: ni < q < nj ==> Prod(newdims[ni..q]) < op
      invariant forall p, q :: oi < p < oj && ni < q < nj ==> Prod(olddims[oi..p]) != Prod(newdims[ni..q])
      decreases |newdims| - nj + |olddims| - oj
    {
      if np < op {
        RoomLeft(newdims, ni, nj, olddims, oi, oj);
        ProdGrows(newdims, ni, nj);
        np := np * newdims[nj];
        nj := nj + 1;
      } else {
        RoomLeft(olddims, oi, oj, newdims, ni, nj);
        ProdGrows(olddims, oi, oj);
        op := op * olddims[oj];
        oj := oj + 1;
      }
    }
  }

  lemma SliceOne(dims: Shape, i: nat)
    requires i < |dims|
    ensures Prod(dims[i..i + 1]) == dims[i]
  {
    assert dims[i..i] == [];
    assert Prod(dims[i..i]) == 1;
    ProdNext(dims, i, i);
  }

  lemma GroupStep(stride: int, dims: Shape, k: nat, j: nat)
    requires k + 1 < j <= |dims|
    ensures stride * Prod(dims[k + 2..j]) * dims[k + 1] == stride * Prod(dims[k + 1..j])
  {
    assert dims[k + 1..j] == [dims[k + 1]] + dims[k + 2..j];
    assert Prod(dims[k + 1..j]) == dims[k + 1] * Prod(dims[k + 2..j]);
    MulAssoc(stride, Prod(dims[k + 2..j]), dims[k + 1]);
  }

  /** When the first group uses up all old axes, only axes of size one remain behind it. */
  lemma FirstGroupFills(strides: seq<int>, dims: Shape, n: nat)
    requires n <= |dims| == |strides| && Prod(dims[n..]) == 1
    requires forall k :: 0 <= k < n ==> strides[k] == Prod(dims[k + 1..n])
    ensures FilledTo(strides, dims, n)
  {
    forall k | 0 <= k < n ensures strides[k] == Prod(dims[k + 1..]) {
      ProdSplit(dims, k + 1, n);
    }
  }

  lemma AllMatched(newdims: Shape, ni: nat, olddims: Shape, oi: nat)
    requires ni <= |newdims| && oi <= |olddims| && (ni == |newdims| || oi == |olddims|)
    requires Prod(newdims[ni..]) == Prod(olddims[oi..]) && Positive(olddims)
    requires forall i :: 0 <= i < |olddims| ==> olddims[i] != 1
    ensures oi == |olddims| && Prod(newdims[ni..]) == 1
  {
    if oi < |olddims| {
      assert newdims[ni..] == [];
      LongGrows(olddims[oi..]);
    } else {
      assert olddims[oi..] == [];
    }
  }

  lemma TrailingOnes(strides: seq<int>, found: seq<int>, dims: Shape, n: nat, last: int)
    requires n <= |dims| == |strides| == |found| && FilledTo(found, dims, n)
    requires strides[..n] == found[..n] && forall k :: n <= k < |dims| ==> strides[k] == last
    requires Prod(dims[n..]) == 1 && last == if n >= 1 then found[n - 1] else 1
    ensures strides == StepsC(dims)
  {
    forall k | 0 <= k < |dims| ensures strides[k] == Prod(dims[k + 1..]) {
      if k < n {
        assert strides[k] == strides[..n][k] == found[..n][k];
      } else {
        OnesOnly(dims[n..]);
        assert forall i :: k + 1 <= i < |dims| ==> dims[i] == dims[n..][i - n];
        AllOnes(dims[k + 1..]);
      }
    }
  }
}
