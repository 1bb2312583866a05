/** How a generalized ufunc fits its arguments to its signature. */
module GUFuncSchedule {
  import opened MixedRadix
  import opened Shapes

  type Symbol = string

  datatype Schedule = Schedule(
    ishapes: seq<Shape>,
    oshapes: seq<Shape>,
    loopdims: Shape,
    loopn: int,
    pinned: seq<bool>,
    outputShapes: seq<Shape>)

  // Arguments are numbered from one.
  datatype Outcome =
    | Scheduled(schedule: Schedule)
    | WrongArgumentCount
    | InsufficientInner(arg: nat)
    | CoreMismatch(arg: nat, axis: nat)
    | UndefinedSymbol
    | NoArguments
    | OuterMismatch(arg: nat)

  /** The core dimensions of each input and each output. */
  datatype Engine = Engine(sin: seq<seq<Symbol>>, sout: seq<seq<Symbol>>)

  // ----- splitting a shape -----

  function Inner(shape: Shape, symbols: seq<Symbol>): (r: Shape)
    requires |symbols| <= |shape|
    ensures |r| == |symbols|
  {
    shape[|shape| - |symbols|..]
  }

  function Outer(shape: Shape, symbols: seq<Symbol>): Shape
    requires |symbols| <= |shape|
  {
    shape[..|shape| - |symbols|]
  }

  predicate LongEnough(shapes: seq<Shape>, sin: seq<seq<Symbol>>) {
    |shapes| == |sin| && forall i :: 0 <= i < |shapes| ==> |sin[i]| <= |shapes[i]|
  }

  function Inners(shapes: seq<Shape>, sin: seq<seq<Symbol>>): (r: seq<Shape>)
    requires LongEnough(shapes, sin)
    ensures |r| == |shapes|
    ensures forall i :: 0 <= i < |shapes| ==> r[i] == Inner(shapes[i], sin[i])
  {
    seq(|shapes|, i requires 0 <= i < |shapes| => Inner(shapes[i], sin[i]))
  }

  function Outers(shapes: seq<Shape>, sin: seq<seq<Symbol>>): (r: seq<Shape>)
    requires LongEnough(shapes, sin)
    ensures |r| == |shapes|
    ensures forall i :: 0 <= i < |shapes| ==> r[i] == Outer(shapes[i], sin[i])
  {
    seq(|shapes|, i requires 0 <= i < |shapes| => Outer(shapes[i], sin[i]))
  }

  // ----- core dimensions -----

  /** The symbols, under the assignment, are the core shape. */
  predicate FitsCore(m: map<Symbol, nat>, core: Shape, symbols: seq<Symbol>) {
    |core| == |symbols| && forall i :: 0 <= i < |core| ==> symbols[i] in m && m[symbols[i]] == core[i]
  }

  predicate FitsAll(m: map<Symbol, nat>, cores: seq<Shape>, sigs: seq<seq<Symbol>>) {
    |cores| == |sigs| && forall i :: 0 <= i < |cores| ==> FitsCore(m, cores[i], sigs[i])
  }

  ghost predicate Solvable(cores: seq<Shape>, sigs: seq<seq<Symbol>>) {
    exists m: map<Symbol, nat> :: FitsAll(m, cores, sigs)
  }

  predicate Mentioned(sym: Symbol, sigs: seq<seq<Symbol>>) {
    exists i :: 0 <= i < |sigs| && sym in sigs[i]
  }

  ghost predicate CoversExactly(m: map<Symbol, nat>, sigs: seq<seq<Symbol>>) {
    forall s :: s in m <==> Mentioned(s, sigs)
  }

  predicate OutputsDefined(engine: Engine) {
    forall i, k :: 0 <= i < |engine.sout| && 0 <= k < |engine.sout[i]| ==> Mentioned(engine.sout[i][k], engine.sin)
  }

  /** Some position of the signature asks for this value of the symbol. */
  predicate AsksFor(sym: Symbol, value: nat, cores: seq<Shape>, sigs: seq<seq<Symbol>>) {
    exists i, k :: 0 <= i < |sigs| && i < |cores| && 0 <= k < |sigs[i]| && k < |cores[i]| && sigs[i][k] == sym &&
      cores[i][k] == value
  }

  lemma SolutionAnswers(m: map<Symbol, nat>, sym: Symbol, value: nat, cores: seq<Shape>, sigs: seq<seq<Symbol>>)
    requires FitsAll(m, cores, sigs) && AsksFor(sym, value, cores, sigs)
    ensures sym in m && m[sym] == value
  {
    var i, k :| 0 <= i < |sigs| && i < |cores| && 0 <= k < |sigs[i]| && k < |cores[i]| && sigs[i][k] == sym &&
      cores[i][k] == value;
    assert FitsCore(m, cores[i], sigs[i]);
  }

  // ----- the looping dimension -----

  predicate IsFirstLargest(i: nat, outers: seq<Shape>) {
    && i < |outers|
    && (forall k :: 0 <= k < |outers| ==> Prod(outers[k]) <= Prod(outers[i]))
    && (forall k :: 0 <= k < i ==> Prod(outers[k]) < Prod(outers[i]))
  }

  function ArgMax(outers: seq<Shape>): (i: nat)
    requires outers != []
    ensures IsFirstLargest(i, outers)
  {
    if |outers| == 1 then 0
    else
      var best := ArgMax(outers[..|outers| - 1]);
      assert forall k :: 0 <= k < |outers| - 1 ==> outers[..|outers| - 1][k] == outers[k];
      if Prod(outers[|outers| - 1]) > Prod(outers[best]) then |outers| - 1 else best
  }

  function LoopDims(outers: seq<Shape>): Shape
    requires outers != []
  {
    outers[ArgMax(outers)]
  }

  predicate MayStandBeside(outer: Shape, loopdims: Shape) {
    outer == loopdims || outer == [1] || outer == []
  }

  predicate OutersAgree(outers: seq<Shape>)
    requires outers != []
  {
    AllBeside(outers, LoopDims(outers))
  }

  predicate AllBeside(outers: seq<Shape>, loopdims: Shape) {
    forall i :: 0 <= i < |outers| ==> MayStandBeside(outers[i], loopdims)
  }

  /** The same argument in every iteration, for exactly those whose outer shape is not the loop. */
  predicate Pins(pinned: seq<bool>, outers: seq<Shape>, loopdims: Shape) {
    |pinned| == |outers| && forall i :: 0 <= i < |outers| ==> (pinned[i] <==> outers[i] != loopdims)
  }

  predicate FirstMisfit(i: nat, outers: seq<Shape>, loopdims: Shape) {
    i < |outers| && !MayStandBeside(outers[i], loopdims) && AllBeside(outers[..i], loopdims)
  }

  // ----- scheduling -----

  ghost predicate Schedulable(engine: Engine, shapes: seq<Shape>) {
    && shapes != [] && LongEnough(shapes, engine.sin)
    && Solvable(Inners(shapes, engine.sin), engine.sin)
    && OutputsDefined(engine)
    && OutersAgree(Outers(shapes, engine.sin))
  }

  function OutputShapes(loopdims: Shape, oshapes: seq<Shape>): (r: seq<Shape>)
    ensures |r| == |oshapes|
    ensures forall i :: 0 <= i < |oshapes| ==> r[i] == loopdims + oshapes[i]
  {
    seq(|oshapes|, i requires 0 <= i < |oshapes| => loopdims + oshapes[i])
  }

  /** What a schedule promises, for any assignment that solves the core shapes. */
  predicate Describes(s: Schedule, m: map<Symbol, nat>, engine: Engine, shapes: seq<Shape>)
    requires shapes != [] && LongEnough(shapes, engine.sin)
  {
    var outers := Outers(shapes, engine.sin);
    && s.ishapes == Inners(shapes, engine.sin)
    && FitsAll(m, s.oshapes, engine.sout)
    && s.loopdims == LoopDims(outers) && s.loopn == Prod(s.loopdims)
    && Pins(s.pinned, outers, s.loopdims)
    && s.outputShapes == OutputShapes(s.loopdims, s.oshapes)
  }

  /** The arguments before the reported one fit together, and with it they do not. */
  ghost predicate FirstBadArgument(outcome: Outcome, shapes: seq<Shape>, sin: seq<seq<Symbol>>)
    requires |shapes| == |sin|
  {
    match outcome
    case InsufficientInner(arg) =>
      && 0 < arg <= |sin| && |shapes[arg - 1]| < |sin[arg - 1]| && FitTogether(arg - 1, shapes, sin)
    case CoreMismatch(arg, axis) =>
      && 0 < arg <= |sin| && |sin[arg - 1]| <= |shapes[arg - 1]|
      && |shapes[arg - 1]| - |sin[arg - 1]| <= axis < |shapes[arg - 1]|
      && FitTogether(arg - 1, shapes, sin) && !FitTogether(arg, shapes, sin)
    case _ => false
  }

  ghost predicate FitTogether(n: nat, shapes: seq<Shape>, sin: seq<seq<Symbol>>)
    requires n <= |shapes| == |sin|
  {
    LongEnough(shapes[..n], sin[..n]) && Solvable(Inners(shapes[..n], sin[..n]), sin[..n])
  }

  ghost predicate DescribesCall(s: Schedule, engine: Engine, shapes: seq<Shape>)
    requires shapes != [] && LongEnough(shapes, engine.sin)
  {
    forall m: map<Symbol, nat> :: FitsAll(m, Inners(shapes, engine.sin), engine.sin) ==> Describes(s, m, engine, shapes)
  }

  datatype Binding =
    | Bound(symbolmap: map<Symbol, nat>, outers: seq<Shape>, inners: seq<Shape>)
    | Unbound(outcome: Outcome)

  /** The first argument that is too short or contradicts the ones before it, or else a solution over
      exactly the mentioned symbols. */
  method BindCores(sin: seq<seq<Symbol>>, ishapes: seq<Shape>) returns (r: Binding)
    requires |ishapes| == |sin|
    ensures r.Bound? <==> LongEnough(ishapes, sin) && Solvable(Inners(ishapes, sin), sin)
    ensures r.Bound? ==>
      && FitsAll(r.symbolmap, Inners(ishapes, sin), sin)
      && CoversExactly(r.symbolmap, sin)
      && r.outers == Outers(ishapes, sin) && r.inners == Inners(ishapes, sin)
    ensures r.Unbound? ==> FirstBadArgument(r.outcome, ishapes, sin)
  {
    var symbolmap: map<Symbol, nat> := map[];
    var outers, inners := [], [];
    assert Binds(symbolmap, inners, sin[..0]);
    hide Binds, Solvable, Clashes, Extends, Inner, Outer, Mentioned;
    for argn := 0 to |sin|
      invariant LongEnough(ishapes[..argn], sin[..argn])
      invariant inners == Inners(ishapes[..argn], sin[..argn])
      invariant outers == Outers(ishapes[..argn], sin[..argn])
      invariant Binds(symbolmap, inners, sin[..argn])
    {
      var shape, symbols := ishapes[argn], sin[argn];
      assert FitTogether(argn, ishapes, sin) by { BindingSolves(symbolmap, inners, sin[..argn]); }
      if |shape| < |symbols| {
        return Unbound(InsufficientInner(argn + 1));
      }
      var inner, outer := Inner(shape, symbols), Outer(shape, symbols);
      var solved := BindCore(symbolmap, inner, symbols);
      assert sin[..argn + 1] == sin[..argn] + [symbols] && ishapes[..argn + 1] == ishapes[..argn] + [shape];
      SplitsGrow(ishapes[..argn], sin[..argn], shape, symbols);
      if solved.Clash? {
        ClashIsUnsolvable(symbolmap, inners, sin[..argn], inner, symbols, solved.axis);
        UnsolvablePrefix(ishapes, sin, argn + 1);
        return Unbound(CoreMismatch(argn + 1, |outer| + solved.axis));
      }
      BindingGrows(symbolmap, solved.symbolmap, inners, sin[..argn], inner, symbols);
      symbolmap := solved.symbolmap;
      outers := outers + [outer];
      inners := inners + [inner];
    }
    assert sin[..|sin|] == sin && ishapes[..|ishapes|] == ishapes;
    SolvedSymbols(symbolmap, inners, sin);
    assert Solvable(inners, sin) by { BindingSolves(symbolmap, inners, sin); }
    return Bound(symbolmap, outers, inners);
  }

  /** The assignment solves these core shapes and holds nothing they do not ask for. */
  predicate Binds(m: map<Symbol, nat>, cores: seq<Shape>, sigs: seq<seq<Symbol>>) {
    FitsAll(m, cores, sigs) && forall s :: s in m ==> AsksFor(s, m[s], cores, sigs)
  }

  lemma BindingSolves(m: map<Symbol, nat>, cores: seq<Shape>, sigs: seq<seq<Symbol>>)
    requires Binds(m, cores, sigs)
    ensures Solvable(cores, sigs)
  {
  }

  lemma SplitsGrow(shapes: seq<Shape>, sin: seq<seq<Symbol>>, shape: Shape, symbols: seq<Symbol>)
    requires LongEnough(shapes, sin) && |symbols| <= |shape|
    ensures LongEnough(shapes + [shape], sin + [symbols])
    ensures Inners(shapes + [shape], sin + [symbols]) == Inners(shapes, sin) + [Inner(shape, symbols)]
    ensures Outers(shapes + [shape], sin + [symbols]) == Outers(shapes, sin) + [Outer(shape, symbols)]
  {
  }

  /** The assignment after one more core shape: it fits, keeps the old values and adds only its symbols. */
  predicate Extends(n: map<Symbol, nat>, m: map<Symbol, nat>, core: Shape, symbols: seq<Symbol>) {
    && FitsCore(n, core, symbols)
    && (forall s :: s in m ==> s in n && n[s] == m[s])
    && (forall s :: s in n && s !in m ==> s in symbols)
  }

  lemma BindingGrows(m: map<Symbol, nat>, n: map<Symbol, nat>, cores: seq<Shape>, sigs: seq<seq<Symbol>>,
                     core: Shape, symbols: seq<Symbol>)
    requires Binds(m, cores, sigs) && Extends(n, m, core, symbols)
    ensures Binds(n, cores + [core], sigs + [symbols])
  {
    var cs, ss := cores + [core], sigs + [symbols];
    forall i | 0 <= i < |cs| ensures FitsCore(n, cs[i], ss[i]) {
      if i < |cores| {
        assert FitsCore(m, cores[i], sigs[i]);
      }
    }
    AskingGrows(cores, sigs, core, symbols);
    forall s | s in n ensures AsksFor(s, n[s], cs, ss) {
      if s in m {
        assert AsksFor(s, m[s], cores, sigs);
      } else {
        var k :| 0 <= k < |symbols| && symbols[k] == s;
        assert AsksFor(symbols[k], core[k], cs, ss);
      }
    }
  }

  datatype CoreBinding = Solved(symbolmap: map<Symbol, nat>) | Clash(axis: nat)

  /** Position `k` of the core shape repeats a symbol with another value. */
  predicate Clashes(symbolmap: map<Symbol, nat>, inner: Shape, symbols: seq<Symbol>, k: nat)
    requires |inner| == |symbols| && k < |inner|
  {
    || (symbols[k] in symbolmap && symbolmap[symbols[k]] != inner[k])
    || exists j :: 0 <= j < k && symbols[j] == symbols[k] && inner[j] != inner[k]
  }

  method BindCore(symbolmap: map<Symbol, nat>, inner: Shape, symbols: seq<Symbol>) returns (r: CoreBinding)
    requires |inner| == |symbols|
    ensures r.Clash? ==> r.axis < |inner| && Clashes(symbolmap, inner, symbols, r.axis)
    ensures r.Solved? ==> Extends(r.symbolmap, symbolmap, inner, symbols)
  {
    var m := symbolmap;
    for axis := 0 to |inner|
      invariant forall k :: 0 <= k < axis ==> symbols[k] in m && m[symbols[k]] == inner[k]
      invariant forall s :: s in symbolmap ==> s in m && m[s] == symbolmap[s]
      invariant forall s :: s in m && s !in symbolmap ==> s in symbols[..axis]
    {
      var sym, dim := symbols[axis], inner[axis];
      if sym in m {
        if m[sym] != dim {
          if sym !in symbolmap {
            var j :| 0 <= j < axis && symbols[j] == sym;
          }
          return Clash(axis);
        }
      }
      m := m[sym := dim];
    }
    return Solved(m);
  }

  lemma AskingGrows(cores: seq<Shape>, sigs: seq<seq<Symbol>>, core: Shape, symbols: seq<Symbol>)
    requires |cores| == |sigs| && |core| == |symbols|
    ensures forall s, v :: AsksFor(s, v, cores, sigs) ==> AsksFor(s, v, cores + [core], sigs + [symbols])
    ensures forall k :: 0 <= k < |core| ==> AsksFor(symbols[k], core[k], cores + [core], sigs + [symbols])
  {
    var cs, ss := cores + [core], sigs + [symbols];
    forall s, v | AsksFor(s, v, cores, sigs) ensures AsksFor(s, v, cs, ss) {
      var i, k :| 0 <= i < |sigs| && i < |cores| && 0 <= k < |sigs[i]| && k < |cores[i]| && sigs[i][k] == s &&
        cores[i][k] == v;
      assert ss[i] == sigs[i] && cs[i] == cores[i];
      assert ss[i][k] == s && cs[i][k] == v;
    }
    forall k | 0 <= k < |core| ensures AsksFor(symbols[k], core[k], cs, ss) {
      assert ss[|cores|] == symbols && cs[|cores|] == core;
      assert ss[|cores|][k] == symbols[k] && cs[|cores|][k] == core[k];
    }
  }

  lemma ClashIsUnsolvable(symbolmap: map<Symbol, nat>, cores: seq<Shape>, sigs: seq<seq<Symbol>>,
                          core: Shape, symbols: seq<Symbol>, k: nat)
    requires |core| == |symbols| && k < |core| && Clashes(symbolmap, core, symbols, k)
    requires Binds(symbolmap, cores, sigs)
    ensures !Solvable(cores + [core], sigs + [symbols])
  {
    var cs, ss := cores + [core], sigs + [symbols];
    AskingGrows(cores, sigs, core, symbols);
    var other: nat;
    if symbols[k] in symbolmap && symbolmap[symbols[k]] != core[k] {
      other := symbolmap[symbols[k]];
      assert AsksFor(symbols[k], other, cores, sigs);
    } else {
      var j :| 0 <= j < k && symbols[j] == symbols[k] && core[j] != core[k];
      other := core[j];
    }
    TwoAnswers(symbols[k], other, core[k], cs, ss);
  }

  lemma TwoAnswers(sym: Symbol, v: nat, w: nat, cores: seq<Shape>, sigs: seq<seq<Symbol>>)
    requires v != w && AsksFor(sym, v, cores, sigs) && AsksFor(sym, w, cores, sigs)
    ensures !Solvable(cores, sigs)
  {
    forall m: map<Symbol, nat> | FitsAll(m, cores, sigs) ensures false {
      SolutionAnswers(m, sym, v, cores, sigs);
      SolutionAnswers(m, sym, w, cores, sigs);
    }
  }

  lemma UnsolvablePrefix(shapes: seq<Shape>, sin: seq<seq<Symbol>>, n: nat)
    requires |shapes| == |sin| && n <= |shapes|
    requires LongEnough(shapes[..n], sin[..n]) && !Solvable(Inners(shapes[..n], sin[..n]), sin[..n])
    ensures LongEnough(shapes, sin) ==> !Solvable(Inners(shapes, sin), sin)
  {
    if !LongEnough(shapes, sin) {
      return;
    }
    var part, all := Inners(shapes[..n], sin[..n]), Inners(shapes, sin);
    forall m: map<Symbol, nat> | FitsAll(m, all, sin) ensures FitsAll(m, part, sin[..n]) {
      forall i | 0 <= i < n ensures FitsCore(m, part[i], sin[..n][i]) {
        assert FitsCore(m, all[i], sin[i]);
      }
    }
  }

  lemma SolvedSymbols(m: map<Symbol, nat>, cores: seq<Shape>, sigs: seq<seq<Symbol>>)
    requires Binds(m, cores, sigs)
    ensures FitsAll(m, cores, sigs) && CoversExactly(m, sigs)
  {
    forall s | s in m ensures Mentioned(s, sigs) {
      assert AsksFor(s, m[s], cores, sigs);
      var i, k :| 0 <= i < |sigs| && i < |cores| && 0 <= k < |sigs[i]| && k < |cores[i]| && sigs[i][k] == s &&
        cores[i][k] == m[s];
      assert s in sigs[i];
    }
    forall s | Mentioned(s, sigs) ensures s in m {
      SolutionIsUnique(m, m, cores, sigs, s);
    }
  }

  /** The solution is unique on the symbols of the signature. */
  lemma SolutionIsUnique(m: map<Symbol, nat>, n: map<Symbol, nat>, cores: seq<Shape>, sigs: seq<seq<Symbol>>,
      sym: Symbol)
    requires FitsAll(m, cores, sigs) && FitsAll(n, cores, sigs) && Mentioned(sym, sigs)
    ensures sym in m && sym in n && m[sym] == n[sym]
  {
    var i :| 0 <= i < |sigs| && sym in sigs[i];
    var k :| 0 <= k < |sigs[i]| && sigs[i][k] == sym;
    assert FitsCore(m, cores[i], sigs[i]) && FitsCore(n, cores[i], sigs[i]);
  }

  predicate Solves(m: map<Symbol, nat>, sigs: seq<seq<Symbol>>) {
    forall i, k :: 0 <= i < |sigs| && 0 <= k < |sigs[i]| ==> sigs[i][k] in m
  }

  /** Output core shapes, or the lookup error for a symbol no input mentions. */
  method SolveOutputs(symbolmap: map<Symbol, nat>, sout: seq<seq<Symbol>>) returns (ok: bool, oshapes: seq<Shape>)
    ensures ok <==> Solves(symbolmap, sout)
    ensures ok ==> FitsAll(symbolmap, oshapes, sout)
  {
    oshapes := [];
    for i := 0 to |sout|
      invariant |oshapes| == i
      invariant forall j :: 0 <= j < i ==> FitsCore(symbolmap, oshapes[j], sout[j])
    {
      var oshape: Shape := [];
      for k := 0 to |sout[i]|
        invariant |oshape| == k
        invariant forall j :: 0 <= j < k ==> sout[i][j] in symbolmap && symbolmap[sout[i][j]] == oshape[j]
      {
        if sout[i][k] !in symbolmap {
          return false, [];
        }
        oshape := oshape + [symbolmap[sout[i][k]]];
      }
      oshapes := oshapes + [oshape];
    }
    forall i, k | 0 <= i < |sout| && 0 <= k < |sout[i]| ensures sout[i][k] in symbolmap {
      assert FitsCore(symbolmap, oshapes[i], sout[i]);
    }
    ok := true;
  }

  method PinArguments(outers: seq<Shape>, loopdims: Shape) returns (ok: bool, pinned: seq<bool>, bad: nat)
    ensures ok <==> AllBeside(outers, loopdims)
    ensures ok ==> Pins(pinned, outers, loopdims)
    ensures !ok ==> FirstMisfit(bad, outers, loopdims)
  {
    pinned, bad := seq(|outers|, _ => false), 0;
    for i := 0 to |outers|
      invariant |pinned| == |outers|
      invariant forall k :: 0 <= k < i ==> MayStandBeside(outers[k], loopdims) && (pinned[k] <==> outers[k] != loopdims)
      invariant forall k :: i <= k < |outers| ==> !pinned[k]
    {
      var d := outers[i];
      if d != loopdims {
        if d == [1] || d == [] {
          pinned := pinned[i := true];
        } else {
          return false, pinned, i;
        }
      }
    }
    ok := true;
  }

  /** Scheduling succeeds exactly when one assignment of the symbols fits every core shape and every outer
      shape is the first largest one, (1,) or (); the schedule then holds the solved output shapes. */
  method ScheduleCall(engine: Engine, ishapes: seq<Shape>) returns (r: Outcome)
    ensures r.Scheduled? <==> Schedulable(engine, ishapes)
    ensures r.Scheduled? ==> DescribesCall(r.schedule, engine, ishapes)
    ensures r == WrongArgumentCount <==> |ishapes| != |engine.sin|
    ensures r.InsufficientInner? || r.CoreMismatch? ==>
      |ishapes| == |engine.sin| && FirstBadArgument(r, ishapes, engine.sin)
    ensures r == UndefinedSymbol ==>
      && LongEnough(ishapes, engine.sin) && Solvable(Inners(ishapes, engine.sin), engine.sin)
      && !OutputsDefined(engine)
    ensures r == NoArguments ==> ishapes == [] && OutputsDefined(engine)
    ensures r.OuterMismatch? ==>
      && ishapes != [] && LongEnough(ishapes, engine.sin) && 0 < r.arg
      && FirstMisfit(r.arg - 1, Outers(ishapes, engine.sin), LoopDims(Outers(ishapes, engine.sin)))
  {
    if |ishapes| != |engine.sin| {
      return WrongArgumentCount;
    }
    var binding := BindCores(engine.sin, ishapes);
    if binding.Unbound? {
      return binding.outcome;
    }
    var symbolmap, outers := binding.symbolmap, binding.outers;
    DefinedExactly(symbolmap, engine);
    hide *;
    var defined, oshapes := SolveOutputs(symbolmap, engine.sout);
    if !defined {
      return UndefinedSymbol;
    }
    if outers == [] {
      return NoArguments;
    }
    var loopdims := outers[ArgMax(outers)];
    LoopDimsAre(outers);
    var agree, pinned, bad := PinArguments(outers, loopdims);
    if !agree {
      return OuterMismatch(bad + 1);
    }
    var schedule := Schedule(binding.inners, oshapes, loopdims, Prod(loopdims), pinned,
      OutputShapes(loopdims, oshapes));
    ScheduleDescribes(schedule, symbolmap, engine, ishapes);
    return Scheduled(schedule);
  }

  lemma LoopDimsAre(outers: seq<Shape>)
    requires outers != []
    ensures LoopDims(outers) == outers[ArgMax(outers)]
    ensures OutersAgree(outers) <==> AllBeside(outers, LoopDims(outers))
  {
  }

  lemma DefinedExactly(symbolmap: map<Symbol, nat>, engine: Engine)
    requires CoversExactly(symbolmap, engine.sin)
    ensures OutputsDefined(engine) <==> Solves(symbolmap, engine.sout)
  {
  }

  lemma ScheduleDescribes(s: Schedule, n: map<Symbol, nat>, engine: Engine, shapes: seq<Shape>)
    requires shapes != [] && LongEnough(shapes, engine.sin) && s.ishapes == Inners(shapes, engine.sin)
    requires FitsAll(n, s.ishapes, engine.sin) && FitsAll(n, s.oshapes, engine.sout) && OutputsDefined(engine)
    requires s.loopdims == LoopDims(Outers(shapes, engine.sin)) && s.loopn == Prod(s.loopdims)
    requires Pins(s.pinned, Outers(shapes, engine.sin), s.loopdims)
    requires s.outputShapes == OutputShapes(s.loopdims, s.oshapes)
    ensures DescribesCall(s, engine, shapes)
  {
    hide FitsAll, OutputsDefined, Pins, LoopDims, Outers, Inners, Prod, OutputShapes;
    forall m | FitsAll(m, Inners(shapes, engine.sin), engine.sin) ensures Describes(s, m, engine, shapes) {
      OutputsAgree(m, n, engine, s.ishapes, s.oshapes);
    }
  }

  lemma OutputsAgree(m: map<Symbol, nat>, n: map<Symbol, nat>, engine: Engine, cores: seq<Shape>, oshapes: seq<Shape>)
    requires FitsAll(m, cores, engine.sin) && FitsAll(n, cores, engine.sin)
    requires OutputsDefined(engine) && FitsAll(n, oshapes, engine.sout)
    ensures FitsAll(m, oshapes, engine.sout)
  {
    forall i | 0 <= i < |oshapes| ensures FitsCore(m, oshapes[i], engine.sout[i]) {
      assert FitsCore(n, oshapes[i], engine.sout[i]);
      forall k | 0 <= k < |oshapes[i]|
        ensures engine.sout[i][k] in m && m[engine.sout[i][k]] == oshapes[i][k]
      {
        SolutionIsUnique(m, n, cores, engine.sin, engine.sout[i][k]);
      }
    }
  }
}
