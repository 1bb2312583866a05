/** Shape broadcasting for ufunc arguments, and the strided views given to arrays that are stretched. */
module Broadcasting {
  import opened Options
  import opened MixedRadix
  import opened Shapes

  /** Missing leading axes count as size one. */
  function Padded(s: Shape, n: nat): (r: Shape)
    requires |s| <= n
    ensures |r| == n
    ensures forall i :: 0 <= i < n ==> r[i] == if i < n - |s| then 1 else s[i - (n - |s|)]
  {
    seq(n, i requires 0 <= i < n => if i < n - |s| then 1 else s[i - (n - |s|)])
  }

  /** `s` can be stretched to `t`. */
  predicate FitsInto(s: Shape, t: Shape) {
    |s| <= |t| && forall i :: 0 <= i < |t| ==> Padded(s, |t|)[i] == t[i] || Padded(s, |t|)[i] == 1
  }

  /** Stretching is a partial order on shapes. */
  lemma FitsIntoIsOrder(a: Shape, b: Shape, c: Shape)
    ensures FitsInto(a, a)
    ensures FitsInto(a, b) && FitsInto(b, a) ==> a == b
    ensures FitsInto(a, b) && FitsInto(b, c) ==> FitsInto(a, c)
  {
    assert FitsInto(a, a) by {
      assert Padded(a, |a|) == a;
    }
    hide FitsInto;
    if FitsInto(a, b) && FitsInto(b, a) {
      FitsBothWays(a, b);
    }
    if FitsInto(a, b) && FitsInto(b, c) {
      FitsThrough(a, b, c);
    }
  }

  lemma FitsBothWays(a: Shape, b: Shape)
    requires FitsInto(a, b) && FitsInto(b, a)
    ensures a == b
  {
    assert Padded(a, |b|) == a;
    assert Padded(b, |a|) == b;
  }

  lemma FitsThrough(a: Shape, b: Shape, c: Shape)
    requires FitsInto(a, b) && FitsInto(b, c)
    ensures FitsInto(a, c)
  {
    forall i | 0 <= i < |c| ensures Padded(a, |c|)[i] == c[i] || Padded(a, |c|)[i] == 1 {
      var j := i - (|c| - |b|);
      assert Padded(b, |c|)[i] == c[i] || Padded(b, |c|)[i] == 1;
      if j >= 0 {
        assert Padded(a, |b|)[j] == b[j] || Padded(a, |b|)[j] == 1;
      }
    }
  }

  function BroadcastAxis(a: nat, b: nat): Option<nat> {
    if a == b then Some(a)
    else if a == 1 then Some(b)
    else if b == 1 then Some(a)
    else None
  }

  function Max(a: nat, b: nat): nat {
    if a < b then b else a
  }

  predicate Compatible(a: Shape, b: Shape)
    requires |a| == |b|
  {
    forall i :: 0 <= i < |a| ==> a[i] == b[i] || a[i] == 1 || b[i] == 1
  }

  function Pairwise(a: Shape, b: Shape): Option<Shape> {
    var n := Max(|a|, |b|);
    AxisByAxis(Padded(a, n), Padded(b, n))
  }

  /** The result is the least shape both can be stretched to, and broadcasting fails exactly when there
      is none. */
  lemma PairwiseIsLeast(a: Shape, b: Shape, u: Shape)
    ensures Pairwise(a, b).Some? ==>
      && FitsInto(a, Pairwise(a, b).value) && FitsInto(b, Pairwise(a, b).value)
      && (FitsInto(a, u) && FitsInto(b, u) ==> FitsInto(Pairwise(a, b).value, u))
    ensures FitsInto(a, u) && FitsInto(b, u) ==> Pairwise(a, b).Some?
  {
    var n := Max(|a|, |b|);
    var p, q := Padded(a, n), Padded(b, n);
    if FitsInto(a, u) && FitsInto(b, u) {
      forall i | 0 <= i < n
        ensures (p[i] == u[i + |u| - n] || p[i] == 1) && (q[i] == u[i + |u| - n] || q[i] == 1)
      {
        assert Padded(a, |u|)[i + |u| - n] == p[i];
        assert Padded(b, |u|)[i + |u| - n] == q[i];
      }
      var t := Pairwise(a, b).value;
      forall i | 0 <= i < |u| ensures Padded(t, |u|)[i] == u[i] || Padded(t, |u|)[i] == 1 {
        var j := i - (|u| - n);
        if j >= 0 {
          assert Padded(t, |u|)[i] == t[j];
        }
      }
    }
  }

  method PairwiseBroadcast(shape1: Shape, shape2: Shape) returns (r: Option<Shape>)
    ensures r == Pairwise(shape1, shape2)
  {
    var s1, s2 := shape1, shape2;
    var n := Max(|shape1|, |shape2|);
    while |s1| < |s2|
      invariant |s1| <= n && s1 == Padded(shape1, |s1|)
      invariant |shape1| <= |s1| && (|s1| == |shape1| || |s1| <= |s2|)
    {
      assert [1] + s1 == Padded(shape1, |s1| + 1);
      s1 := [1] + s1;
    }
    while |s1| > |s2|
      invariant |s1| == n && |s2| <= n && s2 == Padded(shape2, |s2|)
      invariant |shape2| <= |s2|
    {
      assert [1] + s2 == Padded(shape2, |s2| + 1);
      s2 := [1] + s2;
    }
    r := BroadcastAxes(s1, s2);
  }

  function AxisByAxis(p: Shape, q: Shape): (r: Option<Shape>)
    requires |p| == |q|
  {
    if Compatible(p, q) then Some(seq(|p|, i requires 0 <= i < |p| => if p[i] == 1 then q[i] else p[i])) else None
  }

  method BroadcastAxes(s1: Shape, s2: Shape) returns (r: Option<Shape>)
    requires |s1| == |s2|
    ensures r == AxisByAxis(s1, s2)
  {
    var axes: Shape := [];
    for i := 0 to |s1|
      invariant |axes| == i
      invariant forall k :: 0 <= k < i ==> s1[k] == s2[k] || s1[k] == 1 || s2[k] == 1
      invariant forall k :: 0 <= k < i ==> axes[k] == if s1[k] == 1 then s2[k] else s1[k]
    {
      var axis := BroadcastAxis(s1[i], s2[i]);
      if axis == None {
        assert !Compatible(s1, s2);
        return None;
      }
      axes := axes + [axis.value];
    }
    assert Compatible(s1, s2);
    assert axes == AxisByAxis(s1, s2).value;
    return Some(axes);
  }

  function Then(a: Option<Shape>, b: Shape): Option<Shape> {
    match a
    case None => None
    case Some(s) => Pairwise(s, b)
  }

  // ----- any number of shapes -----

  function Common(shapes: seq<Shape>): Option<Shape>
    requires shapes != []
  {
    if |shapes| == 1 then Some(shapes[0])
    else Then(Common(shapes[..|shapes| - 1]), shapes[|shapes| - 1])
  }

  predicate AllFit(shapes: seq<Shape>, u: Shape) {
    forall i :: 0 <= i < |shapes| ==> FitsInto(shapes[i], u)
  }

  /** The common shape is the least one every argument can be stretched to; it is missing exactly when
      no shape serves all arguments. */
  lemma {:induction false} CommonIsLeast(shapes: seq<Shape>, u: Shape)
    requires shapes != []
    ensures Common(shapes).Some? ==>
      && AllFit(shapes, Common(shapes).value)
      && (AllFit(shapes, u) ==> FitsInto(Common(shapes).value, u))
    ensures AllFit(shapes, u) ==> Common(shapes).Some?
    decreases |shapes|
  {
    hide FitsInto, Pairwise;
    if |shapes| == 1 {
      FitsIntoIsOrder(shapes[0], u, u);
    } else {
      var init, last := shapes[..|shapes| - 1], shapes[|shapes| - 1];
      CommonIsLeast(init, u);
      assert AllFit(shapes, u) ==> AllFit(init, u) && FitsInto(last, u);
      if Common(init).Some? {
        PairwiseIsLeast(Common(init).value, last, u);
        if Common(shapes).Some? {
          var t := Common(shapes).value;
          forall i | 0 <= i < |shapes| ensures FitsInto(shapes[i], t) {
            if i < |init| {
              assert FitsInto(init[i], Common(init).value);
              FitsIntoIsOrder(init[i], Common(init).value, t);
            }
          }
        }
      }
    }
  }

  /** Neither the order nor the repetition of arguments changes the shape or whether there is one. */
  lemma CommonIgnoresOrder(a: seq<Shape>, b: seq<Shape>)
    requires a != [] && b != []
    requires forall s :: s in a <==> s in b
    ensures Common(a) == Common(b)
  {
    SameUpperBounds(a, b);
    hide FitsInto, Common;
    if Common(a).Some? {
      CommonIsLeast(a, []);
      CommonIsLeast(b, Common(a).value);
    }
    if Common(b).Some? {
      CommonIsLeast(b, []);
      CommonIsLeast(a, Common(b).value);
    }
    if Common(a).Some? && Common(b).Some? {
      FitsIntoIsOrder(Common(a).value, Common(b).value, []);
    }
  }

  lemma SameUpperBounds(a: seq<Shape>, b: seq<Shape>)
    requires forall s :: s in a <==> s in b
    ensures forall u :: AllFit(a, u) <==> AllFit(b, u)
  {
    forall u ensures AllFit(a, u) <==> AllFit(b, u) {
      assert AllFit(a, u) <==> forall s :: s in a ==> FitsInto(s, u);
      assert AllFit(b, u) <==> forall s :: s in b ==> FitsInto(s, u);
    }
  }

  /** Pairwise broadcasting commutes, associates and is idempotent, failures included. */
  lemma PairwiseLaws(a: Shape, b: Shape, c: Shape)
    ensures Pairwise(a, b) == Pairwise(b, a)
    ensures Pairwise(a, a) == Some(a)
    ensures Then(Pairwise(a, b), c) == match Pairwise(b, c) case None => None case Some(s) => Pairwise(a, s)
  {
    PairwiseCommutes(a, b);
    TwoCommon(a, a);
    OneCommon(a);
    ThreeCommon(a, b, c);
    ThreeCommon(b, c, a);
    hide Pairwise, Common;
    CommonIgnoresOrder([a, a], [a]);
    CommonIgnoresOrder([a, b, c], [b, c, a]);
    if Pairwise(b, c).Some? {
      PairwiseCommutes(a, Pairwise(b, c).value);
    }
  }

  lemma PairwiseCommutes(a: Shape, b: Shape)
    ensures Pairwise(a, b) == Pairwise(b, a)
  {
    TwoCommon(a, b);
    TwoCommon(b, a);
    hide Pairwise, Common;
    CommonIgnoresOrder([a, b], [b, a]);
  }

  lemma OneCommon(a: Shape)
    ensures Common([a]) == Some(a)
  {
  }

  lemma TwoCommon(a: Shape, b: Shape)
    ensures Common([a, b]) == Pairwise(a, b)
  {
    assert [a, b][..1] == [a];
    OneCommon(a);
    assert Common([a, b]) == Then(Common([a, b][..1]), b);
  }

  lemma ThreeCommon(a: Shape, b: Shape, c: Shape)
    ensures Common([a, b, c]) == Then(Pairwise(a, b), c)
  {
    assert [a, b, c][..2] == [a, b];
    TwoCommon(a, b);
    assert Common([a, b, c]) == Then(Common([a, b, c][..2]), c);
  }

  datatype Broadcast = Done(shape: Shape) | FailedAt(argument: nat)

  /** The common shape, or the first argument that has none with those before it. */
  method MultiBroadcast(shapelist: seq<Shape>) returns (r: Broadcast)
    requires shapelist != []
    ensures r.Done? ==> Common(shapelist) == Some(r.shape)
    ensures r.FailedAt? ==>
      && 0 < r.argument < |shapelist|
      && Common(shapelist[..r.argument]).Some?
      && Common(shapelist[..r.argument + 1]) == None && Common(shapelist) == None
  {
    var result := shapelist[0];
    assert shapelist[..1] == [result];
    for i := 1 to |shapelist|
      invariant Common(shapelist[..i]) == Some(result)
    {
      var next := PairwiseBroadcast(result, shapelist[i]);
      assert shapelist[..i + 1][..i] == shapelist[..i];
      if next == None {
        NoneStays(shapelist, i + 1);
        return FailedAt(i);
      }
      result := next.value;
    }
    assert shapelist[..|shapelist|] == shapelist;
    return Done(result);
  }

  lemma {:induction false} NoneStays(shapes: seq<Shape>, i: nat)
    requires 0 < i <= |shapes| && Common(shapes[..i]) == None
    ensures Common(shapes) == None
    decreases |shapes| - i
  {
    if i == |shapes| {
      assert shapes[..i] == shapes;
    } else {
      assert shapes[..i + 1][..i] == shapes[..i];
      NoneStays(shapes, i + 1);
    }
  }

  // ----- views of stretched arrays -----

  predicate Differs(v: View, t: Shape, axis: nat)
    requires axis < |t|
  {
    axis >= |v.shape| || v.shape[axis] != t[axis]
  }

  function Stretched(v: View, t: Shape): (r: View)
    requires ValidView(v) && |v.shape| <= |t|
    ensures ValidView(r) && r.shape == t
  {
    var missing := |t| - |v.shape|;
    if v.shape == t then v
    else View(t, seq(|t|, axis requires 0 <= axis < |t| =>
      if Differs(v, t, axis) || axis < missing then 0 else v.strides[axis - missing]))
  }

  method Stretch(ary: View, shape: Shape) returns (r: View)
    requires ValidView(ary) && |ary.shape| <= |shape| && ary.shape != shape
    ensures r == Stretched(ary, shape)
  {
    var axDiffers := [];
    for ax := 0 to |shape|
      invariant forall k :: 0 <= k < |axDiffers| ==> 0 <= axDiffers[k] < ax
      invariant forall a :: 0 <= a < ax ==> (a in axDiffers <==> Differs(ary, shape, a))
    {
      if ax >= |ary.shape| || ary.shape[ax] != shape[ax] {
        axDiffers := axDiffers + [ax];
      }
    }
    var missing := |shape| - |ary.shape|;
    var original := seq(missing, _ => 0) + ary.strides;
    var strides := original;
    for k := 0 to |axDiffers|
      invariant |strides| == |shape|
      invariant forall a :: 0 <= a < |shape| ==> strides[a] == if a in axDiffers[..k] then 0 else original[a]
    {
      strides := strides[axDiffers[k] := 0];
    }
    assert axDiffers[..|axDiffers|] == axDiffers;
    r := View(shape, strides);
    assert r.strides == Stretched(ary, shape).strides;
  }

  /** Replaces each array whose shape is not already the common one, or changes nothing and reports the
      argument that does not fit. */
  method BroadcastArguments(arys: array<View>) returns (r: Broadcast)
    requires arys.Length > 0 && forall i :: 0 <= i < arys.Length ==> ValidView(arys[i])
    modifies arys
    ensures r.Done? <==> Common(ShapesOf(old(arys[..]))).Some?
    ensures r.FailedAt? ==>
      && arys[..] == old(arys[..])
      && 0 < r.argument < arys.Length
      && Common(ShapesOf(old(arys[..]))[..r.argument]).Some?
      && Common(ShapesOf(old(arys[..]))[..r.argument + 1]) == None
    ensures r.Done? ==>
      && Common(ShapesOf(old(arys[..]))) == Some(r.shape)
      && forall i :: 0 <= i < arys.Length ==>
        && FitsInto(old(arys[i]).shape, r.shape)
        && arys[i] == Stretched(old(arys[i]), r.shape)
  {
    hide Common;
    ghost var before := arys[..];
    var shapelist := [];
    for i := 0 to arys.Length
      invariant shapelist == ShapesOf(arys[..i])
    {
      assert arys[..i + 1] == arys[..i] + [arys[i]];
      shapelist := shapelist + [arys[i].shape];
    }
    assert arys[..arys.Length] == before;
    r := MultiBroadcast(shapelist);
    if r.FailedAt? {
      return;
    }
    CommonIsLeast(shapelist, r.shape);
    forall i | 0 <= i < arys.Length ensures FitsInto(before[i].shape, r.shape) {
      assert FitsInto(shapelist[i], r.shape);
    }
    hide AllFit, ShapesOf;
    for i := 0 to arys.Length
      invariant forall k :: 0 <= k < i ==>
        FitsInto(before[k].shape, r.shape) && arys[k] == Stretched(before[k], r.shape)
      invariant forall k :: i <= k < arys.Length ==> arys[k] == before[k]
    {
      if arys[i].shape != r.shape {
        arys[i] := Stretch(arys[i], r.shape);
      }
    }
  }

  function ShapesOf(views: seq<View>): (r: seq<Shape>)
    ensures |r| == |views|
  {
    seq(|views|, i requires 0 <= i < |views| => views[i].shape)
  }

  /** The source element of a stretched index: leading axes dropped, axes of size one held at zero. */
  function Clamp(index: seq<int>, shape: Shape): (r: seq<int>)
    requires |shape| <= |index|
    ensures |r| == |shape|
  {
    seq(|shape|, k requires 0 <= k < |shape| => if shape[k] == 1 then 0 else index[k + |index| - |shape|])
  }

  /** Every index of the common shape reads the element broadcasting promises. */
  ghost predicate ReadsRight(view: View, v: View, t: Shape)
    requires ValidView(view) && ValidView(v) && view.shape == t && |v.shape| <= |t|
  {
    forall index: seq<int> :: InBox(index, t) ==> Dot(index, view.strides) == Dot(Clamp(index, v.shape), v.strides)
  }

  /** The strides that broadcasting promises. */
  function IdealStrides(v: View, t: Shape): (r: seq<int>)
    requires ValidView(v) && |v.shape| <= |t|
    ensures |r| == |t|
  {
    var missing := |t| - |v.shape|;
    seq(|t|, axis requires 0 <= axis < |t| =>
      if axis < missing || v.shape[axis - missing] == 1 then 0 else v.strides[axis - missing])
  }

  lemma {:induction false} SumOfZeros(n: nat, terms: seq<int>)
    ensures Sum(seq(n, _ => 0) + terms) == Sum(terms)
    decreases n
  {
    var all := seq(n, _ => 0) + terms;
    if n > 0 {
      assert all[1..] == seq(n - 1, _ => 0) + terms;
      SumOfZeros(n - 1, terms);
    } else {
      assert all == terms;
    }
  }

  lemma IdealReads(index: seq<int>, v: View, t: Shape)
    requires ValidView(v) && |v.shape| <= |t| == |index|
    ensures Dot(index, IdealStrides(v, t)) == Dot(Clamp(index, v.shape), v.strides)
  {
    var missing := |t| - |v.shape|;
    assert Times(index, IdealStrides(v, t)) == seq(missing, _ => 0) + Times(Clamp(index, v.shape), v.strides);
    SumOfZeros(missing, Times(Clamp(index, v.shape), v.strides));
  }

  function Unit(n: nat, axis: nat): (r: seq<int>)
    ensures |r| == n
  {
    seq(n, i => if i == axis then 1 else 0)
  }

  lemma {:induction false} DotUnit(n: nat, axis: nat, strides: seq<int>)
    requires axis < n == |strides|
    ensures Dot(Unit(n, axis), strides) == strides[axis]
    decreases n
  {
    var terms := Times(Unit(n, axis), strides);
    if axis == 0 {
      assert terms[1..] == seq(n - 1, _ => 0) + [];
      SumOfZeros(n - 1, []);
    } else {
      DotUnit(n - 1, axis - 1, strides[1..]);
      assert terms[1..] == Times(Unit(n - 1, axis - 1), strides[1..]);
    }
  }

  predicate NoElements(t: Shape) {
    exists i :: 0 <= i < |t| && t[i] == 0
  }

  predicate StridesMatter(a: seq<int>, b: seq<int>, t: Shape)
    requires |a| == |b| == |t|
  {
    forall i :: 0 <= i < |t| && t[i] >= 2 ==> a[i] == b[i]
  }

  /** Two views of a non-empty shape read the same elements exactly when they have the same stride on every
      axis of two or more. */
  lemma SameReadsExactly(a: seq<int>, b: seq<int>, t: Shape)
    requires |a| == |b| == |t|
    ensures (forall index: seq<int> :: InBox(index, t) ==> Dot(index, a) == Dot(index, b)) <==>
      NoElements(t) || StridesMatter(a, b, t)
  {
    if NoElements(t) {
    } else if StridesMatter(a, b, t) {
      forall index: seq<int> | InBox(index, t) ensures Dot(index, a) == Dot(index, b) {
        assert Times(index, a) == Times(index, b);
      }
    } else {
      var axis :| 0 <= axis < |t| && t[axis] >= 2 && a[axis] != b[axis];
      DotUnit(|t|, axis, a);
      DotUnit(|t|, axis, b);
      assert InBox(Unit(|t|, axis), t);
    }
  }

  /** On every axis of two or more that the argument has, comparing sizes without shifting past the
      missing axes gives the answer the shifted comparison would (or the stride is zero anyway). */
  predicate UnshiftedAgrees(v: View, t: Shape)
    requires ValidView(v) && |v.shape| <= |t|
  {
    forall axis :: 0 <= axis < |t| && t[axis] >= 2 ==> AgreesAt(v, t, axis)
  }

  predicate AgreesAt(v: View, t: Shape, axis: nat)
    requires ValidView(v) && |v.shape| <= |t| && axis < |t|
  {
    var k := axis - (|t| - |v.shape|);
    k >= 0 && v.strides[k] != 0 ==> (Differs(v, t, axis) <==> v.shape[k] != t[axis])
  }

  /** The view reads the right elements if and only if the unshifted comparison happens to agree. */
  lemma StretchedReadsRightExactly(v: View, t: Shape)
    requires ValidView(v) && FitsInto(v.shape, t)
    ensures ReadsRight(Stretched(v, t), v, t) <==> NoElements(t) || UnshiftedAgrees(v, t)
  {
    var view, ideal := Stretched(v, t), IdealStrides(v, t);
    SameReadsExactly(view.strides, ideal, t);
    forall index: seq<int> | InBox(index, t)
      ensures Dot(index, ideal) == Dot(Clamp(index, v.shape), v.strides)
    {
      IdealReads(index, v, t);
    }
    AgreeingAxes(v, t);
    hide FitsInto, StridesMatter, UnshiftedAgrees, Stretched, IdealStrides, Dot, Clamp;
  }

  lemma AgreeingAxes(v: View, t: Shape)
    requires ValidView(v) && FitsInto(v.shape, t)
    ensures StridesMatter(Stretched(v, t).strides, IdealStrides(v, t), t) <==> UnshiftedAgrees(v, t)
  {
    forall axis | 0 <= axis < |t| && t[axis] >= 2
      ensures Stretched(v, t).strides[axis] == IdealStrides(v, t)[axis] <==> AgreesAt(v, t, axis)
    {
      AgreeingAxis(v, t, axis);
    }
    hide Stretched, IdealStrides, AgreesAt, FitsInto;
  }

  lemma AgreeingAxis(v: View, t: Shape, axis: nat)
    requires ValidView(v) && FitsInto(v.shape, t) && axis < |t| && t[axis] >= 2
    ensures Stretched(v, t).strides[axis] == IdealStrides(v, t)[axis] <==> AgreesAt(v, t, axis)
  {
    var missing := |t| - |v.shape|;
    if axis >= missing {
      assert Padded(v.shape, |t|)[axis] == v.shape[axis - missing];
    }
  }

  /** In particular it always does for equal ranks and for shapes of ones. */
  lemma EqualRanksReadRight(v: View, t: Shape)
    requires ValidView(v) && FitsInto(v.shape, t)
    requires |v.shape| == |t| || forall i :: 0 <= i < |v.shape| ==> v.shape[i] == 1
    ensures ReadsRight(Stretched(v, t), v, t)
  {
    StretchedReadsRightExactly(v, t);
    hide ReadsRight, Stretched;
    var missing := |t| - |v.shape|;
    forall axis | 0 <= axis < |t| && t[axis] >= 2 ensures AgreesAt(v, t, axis) {
      assert axis >= missing ==> Padded(v.shape, |t|)[axis] == v.shape[axis - missing];
    }
  }

  /** But three elements stretched to two rows of three read their first element everywhere. */
  lemma RowIsNotRepeated()
    ensures Common([[3], [2, 3]]) == Some([2, 3])
    ensures Stretched(View([3], [8]), [2, 3]) == View([2, 3], [0, 0])
    ensures !ReadsRight(Stretched(View([3], [8]), [2, 3]), View([3], [8]), [2, 3])
  {
    RowFits();
    var v, t := View([3], [8]), [2, 3];
    TwoCommon([3], [2, 3]);
    StretchedReadsRightExactly(v, t);
    assert Stretched(v, t).strides == [0, 0];
    hide ReadsRight, Stretched, Common, FitsInto, Pairwise;
    assert Differs(v, t, 1) && v.shape[0] == t[1];
    assert !AgreesAt(v, t, 1);
  }

  lemma RowFits()
    ensures Pairwise([3], [2, 3]) == Some([2, 3]) && FitsInto([3], [2, 3])
  {
    assert Padded([3], 2) == [1, 3] && Padded([2, 3], 2) == [2, 3];
    assert Compatible([1, 3], [2, 3]);
    assert AxisByAxis([1, 3], [2, 3]).value == [2, 3];
    assert FitsInto([3], [2, 3]) by { assert Padded([3], |[2, 3]|) == [1, 3]; }
  }
}
