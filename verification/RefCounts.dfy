/** Reference counts when every variable lives in a stack slot: what the code of assignments, argument
    stores and deletions does to them. */
module RefCounts {
  import opened Maps
  import opened LoweringModel
  import opened LoweringStorage

  function Holders(slots: map<Var, Value>, v: Value): set<Var> {
    set x | x in slots && slots[x] == v
  }

  /** The net count of every object is the number of slots that hold it. */
  ghost predicate Balanced(m: Machine) {
    forall v :: v != 0 ==> Get(m.counts, v) == |Holders(m.slots, v)|
  }

  lemma HoldersStore(slots: map<Var, Value>, x: Var, v: Value, w: Value)
    requires w != 0
    ensures |Holders(slots[x := v], w)| ==
      |Holders(slots, w)| + (if v == w then 1 else 0) - (if Get(slots, x) == w then 1 else 0)
  {
    OtherHolders(slots, x, v, w);
    HoldersCount(slots, x, w);
    HoldersCount(slots[x := v], x, w);
    hide Holders;
  }

  lemma OtherHolders(slots: map<Var, Value>, x: Var, v: Value, w: Value)
    ensures Holders(slots[x := v], w) - {x} == Holders(slots, w) - {x}
  {
  }

  lemma HoldersCount(slots: map<Var, Value>, x: Var, w: Value)
    requires w != 0
    ensures |Holders(slots, w)| == |Holders(slots, w) - {x}| + if Get(slots, x) == w then 1 else 0
  {
    if Get(slots, x) == w {
      assert x in Holders(slots, w);
    } else {
      assert Holders(slots, w) - {x} == Holders(slots, w);
    }
  }

  lemma HeldCounts(m: Machine, y: Var)
    requires Balanced(m) && Get(m.slots, y) != 0
    ensures Get(m.counts, Get(m.slots, y)) >= 1
  {
    var v := m.slots[y];
    assert y in Holders(m.slots, v);
    assert |Holders(m.slots, v) - {y}| + 1 == |Holders(m.slots, v)|;
  }

  /** Storing a value that carries a reference of its own, with or without releasing the old value. */
  lemma StoreBalance(m: Machine, x: Var, v: Value, release: bool, m': Machine)
    requires Balanced(m)
    requires m'.slots == m.slots[x := v]
    requires m'.counts == if release then Bump(Bump(m.counts, v, 1), Get(m.slots, x), -1) else Bump(m.counts, v, 1)
    ensures Balanced(m') <==> release || Get(m.slots, x) == 0
  {
    var previous := Get(m.slots, x);
    forall w | w != 0
      ensures Get(m'.counts, w) == |Holders(m'.slots, w)| + if !release && previous == w then 1 else 0
    {
      HoldersStore(m.slots, x, v, w);
    }
    assert !release && previous != 0 ==> Get(m'.counts, previous) != |Holders(m'.slots, previous)|;
  }

  /** An assignment keeps the balance; so does a deletion, and everything that stores nothing. */
  lemma StatementKeepsBalance(eval: Eval, m: Machine, s: Stmt)
    requires Balanced(m) && !s.Argument?
    ensures Balanced(ExecAll(eval, m, StaticCode({}, s)))
  {
    var m' := ExecAll(eval, m, StaticCode({}, s));
    match s
    case Assign(x, op, args) =>
      ExecThree(eval, m, Compute(op, OperandsOf({}, args)), Decref(Slot(x)), Store(x));
      StoreBalance(m, x, m'.last, true, m');
    case Del(x) =>
      ExecTwo(eval, m, Decref(Slot(x)), StoreNull(x));
      StoreBalance(m, x, 0, true, m');
    case Jump(to) => ExecOne(eval, m, Goto(to));
    case Effect(op, args) => ExecOne(eval, m, Perform(op, OperandsOf({}, args)));
    case Branch(cond, t, f) => ExecOne(eval, m, CondGoto(Slot(cond), t, f));
    case Return(x) => ExecOne(eval, m, Exit(Slot(x)));
  }

  /** An argument is stored without releasing what the slot held, so the balance survives exactly when
      the slot held nothing. */
  lemma ArgumentBalancedExactly(eval: Eval, m: Machine, x: Var, op: Op)
    requires Balanced(m)
    ensures Balanced(ExecAll(eval, m, StaticCode({}, Argument(x, op)))) <==> Get(m.slots, x) == 0
  {
    ExecTwo(eval, m, Compute(op, []), Store(x));
    var m' := ExecAll(eval, m, StaticCode({}, Argument(x, op)));
    StoreBalance(m, x, m'.last, false, m');
  }

  /** Storing two arguments to one variable loses a reference: the first object is held by no slot and
      keeps its count. */
  lemma SecondArgumentLeaks(op: Op)
    ensures var block: Block := [Argument("x", op), Argument("x", op)];
      var c := RunCode(One(), LowerBlocks(Storage({}, {}), [block]).0, START, 2);
      Get(c.machine.counts, 1) == 2 && |Holders(c.machine.slots, 1)| == 1 && !Balanced(c.machine)
  {
    var block: Block := [Argument("x", op), Argument("x", op)];
    var code := LowerBlocks(Storage({}, {}), [block]).0;
    StorageClassIsFixed([block], {});
    var (_, st) := LowerBlocks(Storage({}, {}), [block]);
    assert st.local == {};
    assert code == StaticProgram({}, [block]) && code == [code[0]];
    var compute: seq<Instr> := [Compute(op, []), Store("x")];
    assert code[0] == [compute, compute];
    TwoSteps(One(), code, compute);
    ExecTwo(One(), START.machine, Compute(op, []), Store("x"));
    var m2 := ExecAll(One(), START.machine, compute);
    ExecTwo(One(), m2, Compute(op, []), Store("x"));
    var m3 := ExecAll(One(), m2, compute);
    assert Holders(m3.slots, 1) == {"x"};
  }

  lemma TwoSteps(eval: Eval, code: seq<seq<seq<Instr>>>, instrs: seq<Instr>)
    requires code == [[instrs, instrs]]
    ensures var m := ExecAll(eval, START.machine, instrs);
      m.control.Fallthrough? && ExecAll(eval, m, instrs).control.Fallthrough? ==>
        RunCode(eval, code, START, 2).machine == ExecAll(eval, m, instrs)
  {
    hide ExecAll;
    assert RunCode(eval, code, START, 0) == START;
    assert RunCode(eval, code, START, 1) == StepConfig(eval, code, START);
    assert RunCode(eval, code, START, 2) == StepConfig(eval, code, RunCode(eval, code, START, 1));
  }

  /** Between the instructions of an assignment, `x = x` included, the incoming object and every object
      held by another slot keep a positive count. */
  lemma AssignmentFreesNothingHeld(eval: Eval, m: Machine, x: Var, op: Op, args: seq<Var>, y: Var)
    requires Balanced(m)
    ensures var m1 := Exec(eval, m, Compute(op, OperandsOf({}, args)));
      var m2 := Exec(eval, m1, Decref(Slot(x)));
      var m3 := Exec(eval, m2, Store(x));
      && (forall k <- [m1, m2, m3] :: m1.last != 0 ==> Get(k.counts, m1.last) >= 1)
      && (y != x && Get(m.slots, y) != 0 ==> forall k <- [m1, m2, m3] :: Get(k.counts, Get(m.slots, y)) >= 1)
  {
    var previous := Get(m.slots, x);
    if previous != 0 {
      HeldCounts(m, x);
    }
    if y != x && Get(m.slots, y) != 0 {
      HeldCounts(m, y);
      if Get(m.slots, y) == previous {
        TwoHolders(m, x, y);
      }
    }
    var m1 := Exec(eval, m, Compute(op, OperandsOf({}, args)));
    if m1.last != 0 {
      assert Get(m.counts, m1.last) == |Holders(m.slots, m1.last)|;
    }
  }

  lemma TwoHolders(m: Machine, x: Var, y: Var)
    requires Balanced(m) && x != y && Get(m.slots, x) == Get(m.slots, y) != 0
    ensures Get(m.counts, Get(m.slots, x)) >= 2
  {
    var v := m.slots[x];
    assert {x, y} <= Holders(m.slots, v);
    assert |Holders(m.slots, v) - {x} - {y}| + 2 == |Holders(m.slots, v)|;
  }

  /** A second deletion in a row changes nothing. */
  lemma SecondDelIsHarmless(eval: Eval, m: Machine, x: Var)
    ensures var once := ExecAll(eval, m, StaticCode({}, Del(x)));
      ExecAll(eval, once, StaticCode({}, Del(x))) == once
  {
    ExecTwo(eval, m, Decref(Slot(x)), StoreNull(x));
    var once := ExecAll(eval, m, StaticCode({}, Del(x)));
    ExecTwo(eval, once, Decref(Slot(x)), StoreNull(x));
    assert once.slots[x := 0] == once.slots;
  }

  // ----- whole runs -----

  /** Arguments are assigned by the first `n` statements of the entry block, each to its own variable, and
      nothing transfers control back to that block. */
  ghost predicate EntryArguments(blocks: seq<Block>, n: nat) {
    && blocks != [] && n <= |blocks[0]|
    && (forall b, i :: At(blocks, b, i) ==> (blocks[b][i].Argument? <==> b == 0 && i < n))
    && (forall i, j :: 0 <= i < j < n ==> blocks[0][i].target != blocks[0][j].target)
    && (forall b, i :: At(blocks, b, i) ==>
          match blocks[b][i]
          case Jump(to) => to != 0
          case Branch(_, t, f) => t != 0 && f != 0
          case _ => true)
  }

  ghost predicate RunBalanced(blocks: seq<Block>, n: nat, c: Config)
    requires EntryArguments(blocks, n)
  {
    && Balanced(c.machine)
    && c.machine.control != To(0)
    && (c.block == 0 ==> forall i :: c.pc <= i < n ==> Get(c.machine.slots, blocks[0][i].target) == 0)
  }

  lemma {:induction false} StepKeepsBalance(eval: Eval, blocks: seq<Block>, n: nat, c: Config)
    requires EntryArguments(blocks, n) && RunBalanced(blocks, n, c) && At(blocks, c.block, c.pc)
    requires c.machine.control.Fallthrough?
    ensures var c' := StepConfig(eval, StaticProgram({}, blocks), c);
      RunBalanced(blocks, n, c') && !c'.machine.control.To?
  {
    var s := blocks[c.block][c.pc];
    CodeDoes(eval, {}, s, c.machine);
    if s.Argument? {
      ArgumentBalancedExactly(eval, c.machine, s.target, s.op);
    } else {
      StatementKeepsBalance(eval, c.machine, s);
    }
  }

  /** In every run of every program lowered to slots, whatever its operations return, the counts and the
      slots agree after every statement; so no object a slot still holds has lost its last reference. */
  lemma {:induction false} RunsStayBalanced(eval: Eval, blocks: seq<Block>, n: nat, steps: nat)
    requires EntryArguments(blocks, n)
    ensures var c := RunCode(eval, LowerBlocks(Storage({}, {}), blocks).0, START, steps);
      RunBalanced(blocks, n, c) && !c.machine.control.To?
      && forall y :: Get(c.machine.slots, y) != 0 ==> Get(c.machine.counts, Get(c.machine.slots, y)) >= 1
  {
    StorageClassIsFixed(blocks, {});
    var code := LowerBlocks(Storage({}, {}), blocks).0;
    assert LowerBlocks(Storage({}, {}), blocks).1.local == {};
    hide LowerBlocks;
    if steps == 0 {
      assert forall v :: Holders(START.machine.slots, v) == {};
    } else {
      RunsStayBalanced(eval, blocks, n, steps - 1);
      var c := RunCode(eval, code, START, steps - 1);
      if !c.machine.control.Done? && At(blocks, c.block, c.pc) {
        StepKeepsBalance(eval, blocks, n, c);
      }
    }
    var c := RunCode(eval, code, START, steps);
    forall y | Get(c.machine.slots, y) != 0 ensures Get(c.machine.counts, Get(c.machine.slots, y)) >= 1 {
      HeldCounts(c.machine, y);
    }
  }
}
