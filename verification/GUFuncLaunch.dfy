/** What a schedule means for the arrays of a launch. */
module GUFuncLaunch {
  import opened MixedRadix
  import opened Shapes
  import opened ItemLayouts
  import opened DeviceArrays
  import opened GUFuncSchedule
  import Broadcasting

  // ----- preparing one array -----

  function Zeros(n: nat): (r: seq<int>)
    ensures |r| == n
  {
    seq(n, _ => 0)
  }

  function BroadcastArray(ary: View, newdim: nat, innerdim: Shape): (r: Prepared)
    requires ValidView(ary)
    ensures r.Ready? ==> ValidView(r.view)
  {
    var newshape: Shape := [newdim] + innerdim;
    if ary.shape == newshape then Ready(ary)
    else if |ary.shape| < |newshape| then
      var tail := if ary.shape == [] then newshape else newshape[|newshape| - |ary.shape|..];
      if tail == ary.shape then
        Ready(View(newshape, Zeros(|newshape| - |ary.shape|) + ary.strides))
      else SuffixMismatch
    else Reshape(ary, newshape)
  }

  function PrepareInput(ary: View, odim: nat, core: Shape): (r: Prepared)
    requires ValidView(ary)
    ensures r.Ready? ==> ValidView(r.view)
  {
    if core == [] && Prod(ary.shape) == 1 then Ready(View([odim], [0]))
    else BroadcastArray(ary, odim, core)
  }

  function LaunchDim(loopdims: Shape): nat {
    NonNegative(loopdims);
    if loopdims == [] then 1 else Prod(loopdims)
  }

  datatype Parameters = Parameters(views: seq<View>) | ZeroLoop | Failed(param: nat, why: Prepared)

  /** The arrays of a launch, inputs before outputs. */
  predicate FitSchedule(s: Schedule, params: seq<View>, retvals: seq<View>) {
    && |params| == |s.ishapes| && |retvals| == |s.oshapes|
    && (forall i :: 0 <= i < |params| ==> ValidView(params[i]))
    && (forall i :: 0 <= i < |retvals| ==> ValidView(retvals[i]))
  }

  /** What becomes of array `j`: an input is prepared for the loop, an output has its outer axes collapsed. */
  function PrepareAt(s: Schedule, params: seq<View>, retvals: seq<View>, j: nat): Prepared
    requires FitSchedule(s, params, retvals) && j < |params| + |retvals|
  {
    if j < |params| then PrepareInput(params[j], LaunchDim(s.loopdims), s.ishapes[j])
    else Reshape(retvals[j - |params|], [LaunchDim(s.loopdims)] + s.oshapes[j - |params|])
  }

  /** All arrays are prepared, or the first that cannot be is reported. */
  method BroadcastParameters(s: Schedule, params: seq<View>, retvals: seq<View>)
      returns (r: Parameters)
    requires FitSchedule(s, params, retvals) && s.loopn == Prod(s.loopdims)
    ensures r == ZeroLoop <==> s.loopn <= 0
    ensures r.Parameters? <==>
      s.loopn > 0 && forall j :: 0 <= j < |params| + |retvals| ==> PrepareAt(s, params, retvals, j).Ready?
    ensures r.Parameters? ==>
      && |r.views| == |params| + |retvals|
      && forall j :: 0 <= j < |r.views| ==> PrepareAt(s, params, retvals, j) == Ready(r.views[j])
    ensures r.Failed? ==>
      && r.param < |params| + |retvals| && !r.why.Ready?
      && PrepareAt(s, params, retvals, r.param) == r.why
      && forall j :: 0 <= j < r.param ==> PrepareAt(s, params, retvals, j).Ready?
  {
    if s.loopn <= 0 {
      return ZeroLoop;
    }
    hide PrepareInput, Reshape;
    var odim := if s.loopdims == [] then 1 else s.loopn;
    var views := [];
    for i := 0 to |params|
      invariant |views| == i
      invariant forall k :: 0 <= k < i ==> PrepareAt(s, params, retvals, k) == Ready(views[k])
    {
      var prepared := PrepareInput(params[i], odim, s.ishapes[i]);
      assert prepared == PrepareAt(s, params, retvals, i);
      if !prepared.Ready? {
        return Failed(i, prepared);
      }
      views := views + [prepared.view];
    }
    for i := 0 to |retvals|
      invariant |views| == |params| + i
      invariant forall k :: 0 <= k < |params| + i ==> PrepareAt(s, params, retvals, k) == Ready(views[k])
    {
      var prepared := Reshape(retvals[i], [odim] + s.oshapes[i]);
      assert prepared == PrepareAt(s, params, retvals, |params| + i);
      if !prepared.Ready? {
        return Failed(|params| + i, prepared);
      }
      views := views + [prepared.view];
    }
    return Parameters(views);
  }

  // ----- which items a prepared array shows -----

  lemma OneAxis(k: int, n: int)
    ensures OffsetC([k], [n]) == k && Prod([n]) == n
  {
    assert [k][1..] == [] && [n][1..] == [];
    assert Prod([n]) == n * Prod([]);
    assert OffsetC([k], [n]) == k * Prod([]) + OffsetC([], []);
  }

  /** The item of a contiguous view of shape (n, core...) at loop position `k`. */
  lemma CollapsedItem(k: int, c: seq<int>, n: int, core: seq<int>)
    requires |c| == |core|
    ensures Dot([k] + c, StepsC([n] + core)) == k * Prod(core) + OffsetC(c, core)
  {
    DotStepsC([k] + c, [n] + core);
    OffsetCAppends([k], c, [n], core);
    OneAxis(k, n);
  }

  lemma {:induction false} ZeroOffset(n: nat, shape: seq<int>)
    requires |shape| == n
    ensures OffsetC(Zeros(n), shape) == 0
    decreases n
  {
    if n > 0 {
      assert Zeros(n)[1..] == Zeros(n - 1);
      ZeroOffset(n - 1, shape[1..]);
    }
  }

  /** Where loop index `o` reads an argument: there, or for a pinned argument at its only position. */
  function Source(o: seq<int>, outer: Shape, loopdims: Shape): seq<int> {
    if outer == loopdims then o else Zeros(|outer|)
  }

  /** At every loop index `o` and core index `c`, the view shows the item of the array at (Source(o), c). */
  ghost predicate ShowsItems(view: View, ary: View, outer: Shape, core: Shape, loopdims: Shape)
    requires ValidView(view) && ValidView(ary) && MayStandBeside(outer, loopdims) && ary.shape == outer + core
  {
    && view.shape == [LaunchDim(loopdims)] + core
    && forall o: seq<int>, c: seq<int> :: InBox(o, loopdims) && InBox(c, core) ==>
      Dot([OffsetC(o, loopdims)] + c, view.strides) == Dot(Source(o, outer, loopdims) + c, ary.strides)
  }

  /** An argument pinned by the outer shape (1,), with a core that has items, under more than one iteration. */
  predicate CannotRepeat(outer: Shape, core: Shape, loopdims: Shape) {
    outer != loopdims && outer == [1] && core != [] && Prod(core) != 0 && LaunchDim(loopdims) > 1
  }

  /** Two outer axes or more have to be collapsed into one. */
  predicate NeedsReshape(outer: Shape, core: Shape) {
    |outer| >= 2 && !(core == [] && Prod(outer) == 1)
  }

  lemma EmptyShape()
    ensures Prod([]) == 1
  {
  }

  lemma NoOuterOffset(o: seq<int>, loopdims: Shape)
    requires InBox(o, loopdims) && Prod(loopdims) == 1
    ensures OffsetC(o, loopdims) == 0
  {
    OffsetCInBounds(o, loopdims);
  }

  /** Every input of a successful schedule with a positive loop count, whatever its strides: where nothing
      has to be collapsed it is prepared and shows its items, unless it cannot be repeated. Where axes are
      collapsed, exactly the reshapable arrays are prepared, and show their items exactly in C order. */
  lemma InputsShowTheirItems(ary: View, outer: Shape, core: Shape, loopdims: Shape)
    requires ValidView(ary) && ary.shape == outer + core
    requires MayStandBeside(outer, loopdims) && Prod(loopdims) > 0
    ensures var r := PrepareInput(ary, LaunchDim(loopdims), core);
      && r != SuffixMismatch && (r == SizeMismatch <==> CannotRepeat(outer, core, loopdims))
      && (r == NeedsCopy <==> NeedsReshape(outer, core) && !Reshapable(ary))
      && (r.Ready? ==>
        (ShowsItems(r.view, ary, outer, core, loopdims) <==> !NeedsReshape(outer, core) || InCOrder(ary)))
  {
    var odim := LaunchDim(loopdims);
    ProdOfSum(outer, core);
    EmptyShape();
    hide InCOrder, ShowsItems, Reshapable;
    if core == [] && Prod(ary.shape) == 1 {
      ScalarShows(ary, outer, loopdims);
    } else if outer == [] {
      AddedAxisShows(ary, core, loopdims);
    } else if |outer| >= 2 {
      CollapsedInput(ary, outer, core);
      CollapsedShowsExactly(ary, outer, core);
    } else if outer == loopdims || odim == 1 {
      SameShows(ary, outer, core, loopdims);
    } else {
      RepeatNeedsNoItems(ary, core, loopdims);
    }
  }

  lemma {:induction false} OneItemOneIndex(index: seq<int>, shape: seq<int>)
    requires InBox(index, shape) && Prod(shape) == 1
    ensures forall i :: 0 <= i < |index| ==> index[i] == 0
    decreases |shape|
  {
    if shape != [] {
      var tail := shape[1..];
      OffsetCInBounds(index[1..], tail);
      OffsetCInBounds(index, shape);
      ProdPositive(tail);
      MulPositive(shape[0], Prod(tail));
      assert shape[0] == 1 && Prod(tail) == 1;
      OneItemOneIndex(index[1..], tail);
      assert forall i :: 1 <= i < |index| ==> index[i] == index[1..][i - 1];
    }
  }

  lemma ScalarShows(ary: View, outer: Shape, loopdims: Shape)
    requires ValidView(ary) && ary.shape == outer + [] && Prod(ary.shape) == 1
    requires MayStandBeside(outer, loopdims) && Prod(loopdims) > 0
    ensures ShowsItems(View([LaunchDim(loopdims)], [0]), ary, outer, [], loopdims)
  {
    assert outer + [] == outer;
    forall o: seq<int>, c: seq<int> | InBox(o, loopdims) && InBox(c, [])
      ensures Dot([OffsetC(o, loopdims)] + c, [0]) == Dot(Source(o, outer, loopdims) + c, ary.strides)
    {
      if outer == loopdims {
        OneItemOneIndex(o, loopdims);
      }
      assert c == [];
      DotZeros(Source(o, outer, loopdims) + c, ary.strides);
      ZeroStride(OffsetC(o, loopdims));
      assert [OffsetC(o, loopdims)] + c == [OffsetC(o, loopdims)];
    }
  }

  lemma ZeroStride(k: int)
    ensures Dot([k], [0]) == 0
  {
    assert Times([k], [0]) == [0];
    assert [0][1..] == [];
  }

  lemma AddedAxisShows(ary: View, core: Shape, loopdims: Shape)
    requires ValidView(ary) && ary.shape == core && core != [] && Prod(loopdims) > 0
    ensures PrepareInput(ary, LaunchDim(loopdims), core).Ready?
    ensures [] + core == core
      && ShowsItems(PrepareInput(ary, LaunchDim(loopdims), core).view, ary, [], core, loopdims)
  {
    var odim := LaunchDim(loopdims);
    var newshape: Shape := [odim] + core;
    assert [] + core == core;
    assert newshape[1..] == core;
    assert PrepareInput(ary, odim, core) == Ready(View(newshape, Zeros(1) + ary.strides));
    forall o: seq<int>, c: seq<int> | InBox(o, loopdims) && InBox(c, core)
      ensures Dot([OffsetC(o, loopdims)] + c, Zeros(1) + ary.strides) == Dot(Source(o, [], loopdims) + c, ary.strides)
    {
      assert Zeros(1) == [0];
      DotOfSum([OffsetC(o, loopdims)], c, [0], ary.strides);
      ZeroStride(OffsetC(o, loopdims));
      assert Source(o, [], loopdims) == [];
      assert [] + c == c;
    }
  }

  /** With one outer axis the array is used as it is. */
  lemma SameShows(ary: View, outer: Shape, core: Shape, loopdims: Shape)
    requires ValidView(ary) && ary.shape == outer + core && |outer| == 1
    requires MayStandBeside(outer, loopdims) && Prod(loopdims) > 0
    requires outer == loopdims || LaunchDim(loopdims) == 1
    requires core != [] || Prod(ary.shape) != 1
    ensures PrepareInput(ary, LaunchDim(loopdims), core) == Ready(ary)
    ensures ShowsItems(ary, ary, outer, core, loopdims)
  {
    var odim := LaunchDim(loopdims);
    EmptyShape();
    OneAxis(0, outer[0]);
    assert outer == [outer[0]];
    assert ary.shape == [odim] + core;
    forall o: seq<int>, c: seq<int> | InBox(o, loopdims) && InBox(c, core)
      ensures [OffsetC(o, loopdims)] + c == Source(o, outer, loopdims) + c
    {
      if outer == loopdims {
        assert o == [o[0]];
        OneAxis(o[0], outer[0]);
      } else {
        NoOuterOffset(o, loopdims);
        assert Zeros(1) == [0];
      }
    }
  }

  lemma CollapsedInput(ary: View, outer: Shape, core: Shape)
    requires ValidView(ary) && ary.shape == outer + core && |outer| >= 2
    requires core != [] || Prod(ary.shape) != 1
    ensures var newshape: Shape := [LaunchDim(outer)] + core;
      PrepareInput(ary, LaunchDim(outer), core)
        == if Reshapable(ary) then Ready(View(newshape, StepsC(newshape))) else NeedsCopy
  {
    var newshape: Shape := [LaunchDim(outer)] + core;
    ProdOfSum(outer, core);
    ProdOfSum([LaunchDim(outer)], core);
    OneAxis(0, LaunchDim(outer));
    assert |ary.shape| > |newshape|;
  }

  /** Collapsed under C strides, an array shows its items if and only if it was in C order. */
  lemma CollapsedShowsExactly(ary: View, outer: Shape, core: Shape)
    requires ValidView(ary) && ary.shape == outer + core
    ensures var newshape: Shape := [LaunchDim(outer)] + core;
      ShowsItems(View(newshape, StepsC(newshape)), ary, outer, core, outer) <==> InCOrder(ary)
  {
    var newshape: Shape := [LaunchDim(outer)] + core;
    var view, shape := View(newshape, StepsC(newshape)), ary.shape;
    Broadcasting.SameReadsExactly(StepsC(shape), ary.strides, shape);
    hide Dot, StepsC, Broadcasting.StridesMatter, Broadcasting.NoElements;
    forall o: seq<int>, c: seq<int> | InBox(o, outer) && InBox(c, core)
      ensures Dot([OffsetC(o, outer)] + c, view.strides) == Dot(o + c, StepsC(shape))
    {
      CollapsedReads(outer, core, o, c);
    }
    if InCOrder(ary) {
      forall o: seq<int>, c: seq<int> | InBox(o, outer) && InBox(c, core)
        ensures Dot([OffsetC(o, outer)] + c, view.strides) == Dot(Source(o, outer, outer) + c, ary.strides)
      {
        BoxOfSum(o, c, outer, core);
      }
    } else if ShowsItems(view, ary, outer, core, outer) {
      forall index: seq<int> | InBox(index, shape) ensures Dot(index, StepsC(shape)) == Dot(index, ary.strides) {
        var o, c := SplitBox(index, outer, core);
        assert Source(o, outer, outer) == o;
      }
    }
  }

  lemma CollapsedReads(outer: Shape, core: Shape, o: seq<int>, c: seq<int>)
    requires InBox(o, outer) && InBox(c, core)
    ensures Dot([OffsetC(o, outer)] + c, StepsC([LaunchDim(outer)] + core)) == Dot(o + c, StepsC(outer + core))
  {
    CollapsedItem(OffsetC(o, outer), c, LaunchDim(outer), core);
    OffsetCAppends(o, c, outer, core);
    DotStepsC(o + c, outer + core);
  }

  lemma BoxOfSum(o: seq<int>, c: seq<int>, outer: Shape, core: Shape)
    requires InBox(o, outer) && InBox(c, core)
    ensures InBox(o + c, outer + core)
  {
  }

  lemma RepeatNeedsNoItems(ary: View, core: Shape, loopdims: Shape)
    requires ValidView(ary) && ary.shape == [1] + core && core != []
    requires LaunchDim(loopdims) > 1 && loopdims != [1]
    ensures PrepareInput(ary, LaunchDim(loopdims), core).Ready? <==> Prod(core) == 0
    ensures Prod(core) != 0 ==> PrepareInput(ary, LaunchDim(loopdims), core) == SizeMismatch
    ensures Prod(core) == 0 ==>
      ShowsItems(PrepareInput(ary, LaunchDim(loopdims), core).view, ary, [1], core, loopdims)
  {
    var odim := LaunchDim(loopdims);
    var newshape: Shape := [odim] + core;
    ProdOfSum([1], core);
    ProdOfSum([odim], core);
    OneAxis(0, 1);
    OneAxis(0, odim);
    assert ary.shape[0] == 1 && newshape[0] == odim;
    assert PrepareInput(ary, odim, core) == Reshape(ary, newshape);
    if Prod(core) == 0 {
      assert odim * Prod(core) == 0;
      forall c: seq<int> | InBox(c, core) ensures false {
        OffsetCInBounds(c, core);
      }
    } else {
      RepeatingChangesCount(odim, Prod(core));
    }
  }

  lemma RepeatingChangesCount(n: int, count: int)
    requires n > 1 && count != 0
    ensures n * count != count
  {
    assert n * count - count == (n - 1) * count;
  }

  /** An output of any strides: with one outer axis it is used as it is. Otherwise exactly a reshapable one is
      prepared, with as many items, and which item is which is kept exactly in C order. */
  lemma OutputsKeepTheirItems(ret: View, oshape: Shape, loopdims: Shape)
    requires ValidView(ret) && ret.shape == loopdims + oshape && Prod(loopdims) > 0
    ensures var r := Reshape(ret, [LaunchDim(loopdims)] + oshape);
      && (|loopdims| == 1 ==> r == Ready(ret))
      && (r.Ready? || r == NeedsCopy) && (r.Ready? <==> |loopdims| == 1 || Reshapable(ret))
      && (r.Ready? ==>
        && Prod(r.view.shape) == Prod(ret.shape)
        && (ShowsItems(r.view, ret, loopdims, oshape, loopdims) <==> |loopdims| == 1 || InCOrder(ret)))
  {
    ProdOfSum(loopdims, oshape);
    ProdOfSum([LaunchDim(loopdims)], oshape);
    OneAxis(0, LaunchDim(loopdims));
    EmptyShape();
    hide ShowsItems, InCOrder, Reshapable;
    if |loopdims| == 1 {
      OneAxis(0, loopdims[0]);
      assert loopdims == [loopdims[0]];
      assert ret.shape == [LaunchDim(loopdims)] + oshape;
      OneAxisShows(ret, loopdims, oshape);
    } else {
      assert |ret.shape| != |[LaunchDim(loopdims)] + oshape|;
      CollapsedShowsExactly(ret, loopdims, oshape);
    }
  }

  lemma OneAxisShows(ret: View, loopdims: Shape, oshape: Shape)
    requires ValidView(ret) && |loopdims| == 1 && ret.shape == loopdims + oshape && LaunchDim(loopdims) == loopdims[0]
    ensures ShowsItems(ret, ret, loopdims, oshape, loopdims)
  {
    forall o: seq<int>, c: seq<int> | InBox(o, loopdims) && InBox(c, oshape)
      ensures [OffsetC(o, loopdims)] + c == Source(o, loopdims, loopdims) + c
    {
      assert o == [o[0]] && loopdims == [loopdims[0]];
      OneAxis(o[0], loopdims[0]);
    }
  }

  // ----- every schedule -----

  /** The arrays of one call, of the scheduled shapes. */
  predicate LaunchedWith(s: Schedule, shapes: seq<Shape>, params: seq<View>, retvals: seq<View>) {
    && FitSchedule(s, params, retvals)
    && |params| == |shapes| && (forall i :: 0 <= i < |params| ==> params[i].shape == shapes[i])
    && |s.outputShapes| == |retvals|
    && (forall i :: 0 <= i < |retvals| ==> retvals[i].shape == s.outputShapes[i])
  }

  lemma ScheduledArgument(engine: Engine, shapes: seq<Shape>, s: Schedule, m: map<Symbol, nat>, i: nat)
    requires Schedulable(engine, shapes) && Describes(s, m, engine, shapes) && s.loopn > 0 && i < |shapes|
    ensures i < |s.ishapes| && i < |engine.sin| && |engine.sin[i]| <= |shapes[i]|
    ensures var outer := Outer(shapes[i], engine.sin[i]);
      && shapes[i] == outer + s.ishapes[i] && MayStandBeside(outer, s.loopdims)
      && Prod(outer) <= s.loopn && LaunchDim(s.loopdims) == s.loopn && Prod(s.loopdims) > 0
      && (s.pinned[i] <==> outer != s.loopdims)
  {
    var outers := Outers(shapes, engine.sin);
    assert Prod(outers[i]) <= Prod(outers[ArgMax(outers)]);
    assert MayStandBeside(outers[i], LoopDims(outers));
    assert outers[i] == Outer(shapes[i], engine.sin[i]);
    EmptyShape();
  }

  /** What becomes of each array of a launch under a successful schedule with an iteration. */
  lemma EachPrepared(engine: Engine, shapes: seq<Shape>, s: Schedule, m: map<Symbol, nat>,
                     params: seq<View>, retvals: seq<View>, j: nat)
    requires Schedulable(engine, shapes) && Describes(s, m, engine, shapes) && s.loopn > 0
    requires LaunchedWith(s, shapes, params, retvals) && j < |params| + |retvals|
    ensures j < |params| ==>
      var r, outer := PrepareAt(s, params, retvals, j), Outer(shapes[j], engine.sin[j]);
      && r != SuffixMismatch && (r == SizeMismatch <==> CannotRepeat(outer, s.ishapes[j], s.loopdims))
      && (r == NeedsCopy <==> NeedsReshape(outer, s.ishapes[j]) && !Reshapable(params[j]))
    ensures j >= |params| ==>
      var r := PrepareAt(s, params, retvals, j);
      (r.Ready? || r == NeedsCopy) && (r.Ready? <==> |s.loopdims| == 1 || Reshapable(retvals[j - |params|]))
  {
    if j < |params| {
      ScheduledArgument(engine, shapes, s, m, j);
      hide Reshapable, Schedulable, Describes, CannotRepeat;
      InputsShowTheirItems(params[j], Outer(shapes[j], engine.sin[j]), s.ishapes[j], s.loopdims);
    } else {
      ScheduledArgument(engine, shapes, s, m, 0);
      assert s.outputShapes[j - |params|] == s.loopdims + s.oshapes[j - |params|];
      hide Reshapable, Schedulable, Describes;
      OutputsKeepTheirItems(retvals[j - |params|], s.oshapes[j - |params|], s.loopdims);
    }
  }

  /** Whatever the strides, the shapes of some array fail to match if and only if some argument has to be
      repeated along an axis of one. */
  lemma MismatchExactly(engine: Engine, shapes: seq<Shape>, s: Schedule, m: map<Symbol, nat>,
                        params: seq<View>, retvals: seq<View>)
    requires Schedulable(engine, shapes) && Describes(s, m, engine, shapes) && s.loopn > 0
    requires LaunchedWith(s, shapes, params, retvals)
    ensures (exists j :: 0 <= j < |params| + |retvals| && PrepareAt(s, params, retvals, j) in MISMATCHES)
      <==> exists i :: 0 <= i < |shapes| && CannotRepeat(Outer(shapes[i], engine.sin[i]), s.ishapes[i], s.loopdims)
  {
    hide PrepareAt, CannotRepeat, Reshapable;
    forall j | 0 <= j < |params| + |retvals|
      ensures PrepareAt(s, params, retvals, j) in MISMATCHES <==>
        j < |shapes| && CannotRepeat(Outer(shapes[j], engine.sin[j]), s.ishapes[j], s.loopdims)
    {
      EachPrepared(engine, shapes, s, m, params, retvals, j);
    }
  }

  const MISMATCHES := {SuffixMismatch, SizeMismatch}

  /** Whatever the strides, all arrays are prepared if and only if no argument has to be repeated along an axis
      of one and every array whose axes have to be collapsed is reshapable. */
  lemma PreparedExactly(engine: Engine, shapes: seq<Shape>, s: Schedule, m: map<Symbol, nat>,
                        params: seq<View>, retvals: seq<View>)
    requires Schedulable(engine, shapes) && Describes(s, m, engine, shapes) && s.loopn > 0
    requires LaunchedWith(s, shapes, params, retvals)
    ensures (forall j :: 0 <= j < |params| + |retvals| ==> PrepareAt(s, params, retvals, j).Ready?) <==>
      && (forall i :: 0 <= i < |shapes| ==>
        && !CannotRepeat(Outer(shapes[i], engine.sin[i]), s.ishapes[i], s.loopdims)
        && (NeedsReshape(Outer(shapes[i], engine.sin[i]), s.ishapes[i]) ==> Reshapable(params[i])))
      && (|s.loopdims| == 1 || forall k :: 0 <= k < |retvals| ==> Reshapable(retvals[k]))
  {
    hide PrepareAt, CannotRepeat, Reshapable, NeedsReshape;
    forall j | 0 <= j < |params| + |retvals|
      ensures PrepareAt(s, params, retvals, j).Ready? <==>
        if j < |params| then
          && !CannotRepeat(Outer(shapes[j], engine.sin[j]), s.ishapes[j], s.loopdims)
          && (NeedsReshape(Outer(shapes[j], engine.sin[j]), s.ishapes[j]) ==> Reshapable(params[j]))
        else |s.loopdims| == 1 || Reshapable(retvals[j - |params|])
    {
      EachPrepared(engine, shapes, s, m, params, retvals, j);
    }
    forall k | 0 <= k < |retvals|
      ensures PrepareAt(s, params, retvals, |params| + k).Ready? <==> |s.loopdims| == 1 || Reshapable(retvals[k])
    {
    }
  }

  /** For contiguous arrays only the argument that has to be repeated is left. */
  lemma ContiguousPrepared(engine: Engine, shapes: seq<Shape>, s: Schedule, m: map<Symbol, nat>,
                           params: seq<View>, retvals: seq<View>)
    requires Schedulable(engine, shapes) && Describes(s, m, engine, shapes) && s.loopn > 0
    requires LaunchedWith(s, shapes, params, retvals)
    requires forall i :: 0 <= i < |params| ==> CContiguous(params[i]) || FContiguous(params[i])
    requires forall i :: 0 <= i < |retvals| ==> CContiguous(retvals[i]) || FContiguous(retvals[i])
    ensures (forall j :: 0 <= j < |params| + |retvals| ==> PrepareAt(s, params, retvals, j).Ready?) <==>
      forall i :: 0 <= i < |shapes| ==> !CannotRepeat(Outer(shapes[i], engine.sin[i]), s.ishapes[i], s.loopdims)
  {
    PreparedExactly(engine, shapes, s, m, params, retvals);
    hide PrepareAt, CannotRepeat, NeedsReshape, CContiguous, FContiguous;
  }

  /** And what is prepared shows its items, save that an array whose axes are collapsed (for an output, other
      than from a single outer axis) shows them only in C order. */
  lemma ItemsShownExactly(engine: Engine, shapes: seq<Shape>, s: Schedule, m: map<Symbol, nat>,
                          params: seq<View>, retvals: seq<View>, j: nat)
    requires Schedulable(engine, shapes) && Describes(s, m, engine, shapes) && s.loopn > 0
    requires LaunchedWith(s, shapes, params, retvals) && j < |params| + |retvals|
    requires PrepareAt(s, params, retvals, j).Ready?
    ensures j < |params| ==>
      var outer := Outer(shapes[j], engine.sin[j]);
      && params[j].shape == outer + s.ishapes[j] && MayStandBeside(outer, s.loopdims)
      && (ShowsItems(PrepareAt(s, params, retvals, j).view, params[j], outer, s.ishapes[j], s.loopdims)
          <==> !NeedsReshape(outer, s.ishapes[j]) || InCOrder(params[j]))
    ensures j >= |params| ==>
      var ret, oshape := retvals[j - |params|], s.oshapes[j - |params|];
      && ret.shape == s.loopdims + oshape
      && (ShowsItems(PrepareAt(s, params, retvals, j).view, ret, s.loopdims, oshape, s.loopdims)
          <==> |s.loopdims| == 1 || InCOrder(ret))
  {
    hide Reshapable, InCOrder;
    if j < |params| {
      ScheduledArgument(engine, shapes, s, m, j);
      InputsShowTheirItems(params[j], Outer(shapes[j], engine.sin[j]), s.ishapes[j], s.loopdims);
    } else {
      ScheduledArgument(engine, shapes, s, m, 0);
      var k := j - |params|;
      OutputsKeepTheirItems(retvals[k], s.oshapes[k], s.loopdims);
    }
    hide Schedulable, Describes, ShowsItems;
  }

  // ----- at inputs -----

  lemma Pair(a: nat, b: nat)
    ensures Prod([a, b]) == a * b
  {
    assert [a, b][1..] == [b];
    OneAxis(0, b);
  }

  /** Rows of three, one of them pinned by (1,), under two iterations: scheduled, but not launchable. */
  lemma PinnedRowFails()
    ensures Schedulable(ROWS, [[1, 3], [2, 3]]) && Outers([[1, 3], [2, 3]], ROWS.sin) == [[1], [2]]
    ensures LoopDims([[1], [2]]) == [2] && CannotRepeat([1], [3], [2])
    ensures !PrepareInput(View([1, 3], [3, 1]), LaunchDim([2]), [3]).Ready?
  {
    PinnedRowIsScheduled();
    OneAxis(0, 2);
    OneAxis(0, 3);
    hide Schedulable, LoopDims, Outers;
    assert [1] + [3] == [1, 3];
    RepeatNeedsNoItems(View([1, 3], [3, 1]), [3], [2]);
  }

  const ROWS := Engine([["n"], ["n"]], [["n"]])

  lemma PinnedRowIsScheduled()
    ensures Schedulable(ROWS, [[1, 3], [2, 3]]) && Outers([[1, 3], [2, 3]], ROWS.sin) == [[1], [2]]
    ensures LoopDims([[1], [2]]) == [2]
  {
    var shapes: seq<Shape> := [[1, 3], [2, 3]];
    RowSplits();
    RowSymbols();
    RowLoops();
    assert LongEnough(shapes, ROWS.sin);
    hide Solvable, OutputsDefined, OutersAgree, LoopDims, Inners, Outers, LongEnough;
  }

  lemma RowSplits()
    ensures Inners([[1, 3], [2, 3]], ROWS.sin) == [[3], [3]] && Outers([[1, 3], [2, 3]], ROWS.sin) == [[1], [2]]
  {
    var shapes: seq<Shape> := [[1, 3], [2, 3]];
    assert shapes[0][..1] == [1] && shapes[1][..1] == [2];
    assert shapes[0][1..] == [3] && shapes[1][1..] == [3];
  }

  lemma RowSymbols()
    ensures Solvable([[3], [3]], ROWS.sin) && OutputsDefined(ROWS)
  {
    var m := map["n" := 3];
    assert FitsAll(m, [[3], [3]], ROWS.sin);
    assert "n" in ROWS.sin[0];
  }

  lemma RowLoops()
    ensures OutersAgree([[1], [2]]) && LoopDims([[1], [2]]) == [2]
  {
    OneAxis(0, 1);
    OneAxis(0, 2);
    LargerIsSecond([[1], [2]]);
    hide ArgMax, LoopDims;
  }

  lemma LargerIsSecond(outers: seq<Shape>)
    requires |outers| == 2 && Prod(outers[0]) < Prod(outers[1])
    ensures LoopDims(outers) == outers[1]
  {
    assert ArgMax(outers) == 1;
  }

  /** Two rows of three in F order, looped over item by item: the second item shown is not the second. */
  lemma FortranIsScrambled()
    ensures var ary := View([2, 3], [1, 2]);
      && FContiguous(ary)
      && PrepareInput(ary, LaunchDim([2, 3]), []) == Ready(View([6], [1]))
      && [2, 3] + [] == [2, 3]
      && !ShowsItems(View([6], [1]), ary, [2, 3], [], [2, 3])
  {
    var ary := View([2, 3], [1, 2]);
    Pair(2, 3);
    OneAxis(0, 6);
    OneAxis(0, 2);
    EmptyShape();
    assert [2, 3][..0] == [] && [2, 3][..1] == [2];
    assert StepsF([2, 3]) == [1, 2];
    assert FContiguous(ary);
    var newshape: Shape := [6] + [];
    assert newshape == [6] && [6][1..] == [];
    assert StepsC([6]) == [1];
    assert [2, 3] + [] == [2, 3];
    assert LaunchDim([2, 3]) == 6;
    CollapsedInput(ary, [2, 3], []);
    CollapsedShowsExactly(ary, [2, 3], []);
    OneAxis(0, 3);
    assert [2, 3][1..] == [3] && [2, 3][2..] == [];
    assert StepsC([2, 3])[0] == 3;
    assert ary.shape[0] >= 2 && ary.strides[0] != StepsC([2, 3])[0];
  }
}
