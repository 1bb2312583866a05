/** Reference counts when some variables live in block-local values: each object is held by the slots and
    by the block-local values that are live. */
module MixedRefCounts {
  import opened Maps
  import opened LoweringModel
  import opened LoweringStorage
  import RefCounts

  /** The block-local values that hold `v`: assigned earlier in this visit of the block, not yet deleted. */
  ghost function LiveHolders(blocks: seq<Block>, local: set<Var>, b: nat, pc: nat, m: Machine, v: Value): set<Var> {
    set x | x in local && b < |blocks| && Live(blocks[b], x, pc) && Get(m.locals, x) == v
  }

  /** The net count of every object is the number of slots and live block-local values that hold it. */
  ghost predicate Balanced(blocks: seq<Block>, local: set<Var>, b: nat, pc: nat, m: Machine) {
    forall v :: v != 0 ==>
      Get(m.counts, v) == |RefCounts.Holders(m.slots, v)| + |LiveHolders(blocks, local, b, pc, m, v)|
  }

  lemma LiveNext(block: Block, x: Var, pc: nat)
    requires pc < |block|
    ensures Live(block, x, pc + 1) <==> Assigns(block[pc], x) || (Live(block, x, pc) && block[pc] != Del(x))
  {
    if Live(block, x, pc + 1) {
      LiveStep(block, x, pc);
    }
  }

  /** A variable assigned once is not live where it is assigned. */
  lemma NotLiveAtAssignment(blocks: seq<Block>, x: Var, b: nat, pc: nat)
    requires At(blocks, b, pc) && Assigns(blocks[b][pc], x) && SinglyAssigned(blocks, x)
    ensures !Live(blocks[b], x, pc)
  {
    var d, a :| AssignedOnceAt(blocks, x, d, a);
    assert forall i :: 0 <= i < pc ==> At(blocks, b, i);
  }

  lemma BumpGet(counts: map<Value, int>, v: Value, delta: int, w: Value)
    requires w != 0
    ensures Get(Bump(counts, v, delta), w) == Get(counts, w) + if v == w then delta else 0
  {
  }

  /** The references a statement takes (for the object computed last) and gives up, of object `w`. */
  function Taken(s: Stmt, last: Value, w: Value): int {
    if (s.Assign? || s.Argument?) && last == w then 1 else 0
  }

  function Released(local: set<Var>, s: Stmt, m: Machine, w: Value): int {
    match s
    case Assign(x, _, _) => if x !in local && Get(m.slots, x) == w then 1 else 0
    case Del(x) => if (if x in local then Get(m.locals, x) else Get(m.slots, x)) == w then 1 else 0
    case _ => 0
  }

  ghost predicate Counts(local: set<Var>, s: Stmt, m: Machine, m': Machine) {
    forall w :: w != 0 ==>
      Get(m'.counts, w) == Get(m.counts, w) + Taken(s, m'.last, w) - Released(local, s, m, w)
  }

  /** The same in terms of what the code does. */
  predicate Bumped(local: set<Var>, s: Stmt, m: Machine, m': Machine) {
    m'.counts ==
      match s
      case Assign(x, _, _) =>
        if x in local then Bump(m.counts, m'.last, 1) else Bump(Bump(m.counts, m'.last, 1), Get(m.slots, x), -1)
      case Argument(_, _) => Bump(m.counts, m'.last, 1)
      case Del(x) => Bump(m.counts, if x in local then Get(m.locals, x) else Get(m.slots, x), -1)
      case _ => m.counts
  }

  lemma CodeBumps(eval: Eval, local: set<Var>, s: Stmt, m: Machine)
    ensures Bumped(local, s, m, ExecAll(eval, m, StaticCode(local, s)))
  {
    hide Bump, ValuesOf, OperandsOf;
    match s
    case Assign(x, op, args) =>
      if x in local {
        ExecTwo(eval, m, Compute(op, OperandsOf(local, args)), Bind(x));
      } else {
        ExecThree(eval, m, Compute(op, OperandsOf(local, args)), Decref(Slot(x)), Store(x));
      }
    case Argument(x, op) =>
      ExecTwo(eval, m, Compute(op, []), if x in local then Bind(x) else Store(x));
    case Del(x) =>
      if x in local {
        ExecOne(eval, m, Decref(Local(x)));
      } else {
        ExecTwo(eval, m, Decref(Slot(x)), StoreNull(x));
      }
    case Branch(cond, t, f) => ExecOne(eval, m, CondGoto(OperandFor(local, cond), t, f));
    case Return(x) => ExecOne(eval, m, Exit(OperandFor(local, x)));
    case Jump(to) => ExecOne(eval, m, Goto(to));
    case Effect(op, args) => ExecOne(eval, m, Perform(op, OperandsOf(local, args)));
  }

  lemma BumpsCount(local: set<Var>, s: Stmt, m: Machine, m': Machine)
    requires Bumped(local, s, m, m')
    ensures Counts(local, s, m, m')
  {
    forall w | w != 0
      ensures Get(m'.counts, w) == Get(m.counts, w) + Taken(s, m'.last, w) - Released(local, s, m, w)
    {
      match s
      case Assign(x, _, _) =>
        BumpGet(m.counts, m'.last, 1, w);
        BumpGet(Bump(m.counts, m'.last, 1), Get(m.slots, x), -1, w);
      case Argument(_, _) => BumpGet(m.counts, m'.last, 1, w);
      case Del(x) => BumpGet(m.counts, if x in local then Get(m.locals, x) else Get(m.slots, x), -1, w);
      case _ =>
    }
  }

  /** How the live holders change inside a block: an assigned block-local variable joins, a deleted one
      leaves, all others stay. */
  lemma LiveHoldersNext(
    eval: Eval, blocks: seq<Block>, local: set<Var>, b: nat, pc: nat, m: Machine, m': Machine, w: Value)
    requires At(blocks, b, pc) && forall x <- local :: SinglyAssigned(blocks, x)
    requires Does(eval, local, blocks[b][pc], m, m')
    ensures var s := blocks[b][pc];
      |LiveHolders(blocks, local, b, pc + 1, m', w)| == |LiveHolders(blocks, local, b, pc, m, w)|
        + (if (s.Assign? || s.Argument?) && s.target in local && m'.last == w then 1 else 0)
        - (if s.Del? && s.name in local && Live(blocks[b], s.name, pc) && Get(m.locals, s.name) == w then 1 else 0)
  {
    var s := blocks[b][pc];
    var before, after := LiveHolders(blocks, local, b, pc, m, w), LiveHolders(blocks, local, b, pc + 1, m', w);
    if (s.Assign? || s.Argument?) && s.target in local {
      NotLiveAtAssignment(blocks, s.target, b, pc);
      LiveAfterAssignment(blocks, local, b, pc, m, m', w);
    } else {
      LiveAfterOther(blocks, local, b, pc, m, m', w);
    }
  }

  lemma LiveAfterAssignment(
    blocks: seq<Block>, local: set<Var>, b: nat, pc: nat, m: Machine, m': Machine, w: Value)
    requires At(blocks, b, pc) && (blocks[b][pc].Assign? || blocks[b][pc].Argument?)
    requires var x := blocks[b][pc].target;
      x in local && m'.locals == m.locals[x := m'.last] && !Live(blocks[b], x, pc)
    ensures var x := blocks[b][pc].target;
      && x !in LiveHolders(blocks, local, b, pc, m, w)
      && LiveHolders(blocks, local, b, pc + 1, m', w)
        == LiveHolders(blocks, local, b, pc, m, w) + if m'.last == w then {x} else {}
  {
    forall y ensures Live(blocks[b], y, pc + 1) <==> y == blocks[b][pc].target || Live(blocks[b], y, pc) {
      LiveNext(blocks[b], y, pc);
    }
    hide Live;
  }

  lemma LiveAfterOther(
    blocks: seq<Block>, local: set<Var>, b: nat, pc: nat, m: Machine, m': Machine, w: Value)
    requires At(blocks, b, pc) && m'.locals == m.locals
    requires forall x <- local :: !Assigns(blocks[b][pc], x)
    ensures var before := LiveHolders(blocks, local, b, pc, m, w);
      LiveHolders(blocks, local, b, pc + 1, m', w)
        == if blocks[b][pc].Del? then before - {blocks[b][pc].name} else before
  {
    forall y | y in local
      ensures Live(blocks[b], y, pc + 1) <==> Live(blocks[b], y, pc) && blocks[b][pc] != Del(y)
    {
      LiveNext(blocks[b], y, pc);
    }
    hide Live;
  }

  // ----- one statement -----

  /** No block-local value that holds an object is left behind by a transfer, none is deleted that is not
      live, and an argument goes to a slot that holds nothing. */
  ghost predicate Fits(blocks: seq<Block>, local: set<Var>, b: nat, pc: nat, m: Machine)
    requires At(blocks, b, pc)
  {
    match blocks[b][pc]
    case Argument(x, _) => x in local || Get(m.slots, x) == 0
    case Del(x) => x in local ==> Live(blocks[b], x, pc) || Get(m.locals, x) == 0
    case Jump(_) => forall x :: x in local && Live(blocks[b], x, pc) ==> Get(m.locals, x) == 0
    case Branch(_, _, _) => forall x :: x in local && Live(blocks[b], x, pc) ==> Get(m.locals, x) == 0
    case _ => true
  }

  /** The place after a statement; nothing is live at the start of a block. */
  predicate Next(s: Stmt, b: nat, pc: nat, b': nat, pc': nat) {
    if s.Jump? || s.Branch? then pc' == 0 else b' == b && pc' == pc + 1
  }

  lemma NothingLiveAtStart(blocks: seq<Block>, local: set<Var>, b: nat, m: Machine, v: Value)
    ensures LiveHolders(blocks, local, b, 0, m, v) == {}
  {
  }

  /** A statement keeps the balance exactly when it fits. */
  lemma StatementBalancedExactly(
    eval: Eval, blocks: seq<Block>, local: set<Var>, b: nat, pc: nat, m: Machine, b': nat, pc': nat)
    requires At(blocks, b, pc) && Balanced(blocks, local, b, pc, m)
    requires forall x <- local :: SinglyAssigned(blocks, x)
    requires Next(blocks[b][pc], b, pc, b', pc')
    ensures Balanced(blocks, local, b', pc', ExecAll(eval, m, StaticCode(local, blocks[b][pc])))
      <==> Fits(blocks, local, b, pc, m)
  {
    var s := blocks[b][pc];
    var m' := ExecAll(eval, m, StaticCode(local, s));
    CodeDoes(eval, local, s, m);
    CodeBumps(eval, local, s, m);
    BumpsCount(local, s, m, m');
    hide ExecAll, StaticCode;
    if s.Jump? || s.Branch? {
      TransferBalancedExactly(blocks, local, b, pc, m, m', b');
    } else {
      InsideBalancedExactly(eval, blocks, local, b, pc, m, m');
    }
  }

  lemma TransferBalancedExactly(
    blocks: seq<Block>, local: set<Var>, b: nat, pc: nat, m: Machine, m': Machine, b': nat)
    requires At(blocks, b, pc) && Balanced(blocks, local, b, pc, m)
    requires m'.slots == m.slots && forall w :: w != 0 ==> Get(m'.counts, w) == Get(m.counts, w)
    ensures Balanced(blocks, local, b', 0, m')
      <==> forall x :: x in local && Live(blocks[b], x, pc) ==> Get(m.locals, x) == 0
  {
    forall v ensures LiveHolders(blocks, local, b', 0, m', v) == {} {
      NothingLiveAtStart(blocks, local, b', m', v);
    }
    if x :| x in local && Live(blocks[b], x, pc) && Get(m.locals, x) != 0 {
      var v := Get(m.locals, x);
      assert x in LiveHolders(blocks, local, b, pc, m, v);
      assert |LiveHolders(blocks, local, b, pc, m, v)| > 0;
      assert Get(m'.counts, v) != |RefCounts.Holders(m'.slots, v)|;
    } else {
      forall v | v != 0 ensures LiveHolders(blocks, local, b, pc, m, v) == {} {
      }
    }
  }

  lemma InsideBalancedExactly(
    eval: Eval, blocks: seq<Block>, local: set<Var>, b: nat, pc: nat, m: Machine, m': Machine)
    requires At(blocks, b, pc) && Balanced(blocks, local, b, pc, m)
    requires forall x <- local :: SinglyAssigned(blocks, x)
    requires var s := blocks[b][pc];
      !s.Jump? && !s.Branch? && Does(eval, local, s, m, m') && Counts(local, s, m, m')
    ensures Balanced(blocks, local, b, pc + 1, m') <==> Fits(blocks, local, b, pc, m)
  {
    var s := blocks[b][pc];
    forall w | w != 0
      ensures Get(m'.counts, w)
        == |RefCounts.Holders(m'.slots, w)| + |LiveHolders(blocks, local, b, pc + 1, m', w)|
          + Excess(blocks, local, b, pc, m, w)
    {
      LiveHoldersNext(eval, blocks, local, b, pc, m, m', w);
      SlotHoldersNext(eval, local, s, m, m', w);
    }
    if !Fits(blocks, local, b, pc, m) {
      var v := if s.Argument? then Get(m.slots, s.target) else Get(m.locals, s.name);
      assert v != 0 && Excess(blocks, local, b, pc, m, v) != 0;
    }
  }

  /** What a statement that does not fit adds to the count of `w` beyond its holders. */
  ghost function Excess(blocks: seq<Block>, local: set<Var>, b: nat, pc: nat, m: Machine, w: Value): int
    requires At(blocks, b, pc)
  {
    match blocks[b][pc]
    case Argument(x, _) => if x !in local && Get(m.slots, x) == w then 1 else 0
    case Del(x) => if x in local && !Live(blocks[b], x, pc) && Get(m.locals, x) == w then -1 else 0
    case _ => 0
  }

  lemma SlotHoldersNext(eval: Eval, local: set<Var>, s: Stmt, m: Machine, m': Machine, w: Value)
    requires w != 0 && Does(eval, local, s, m, m')
    ensures |RefCounts.Holders(m'.slots, w)| == |RefCounts.Holders(m.slots, w)|
      + (if (s.Assign? || s.Argument?) && s.target !in local && m'.last == w then 1 else 0)
      - (if (s.Assign? || s.Argument?) && s.target !in local && Get(m.slots, s.target) == w then 1 else 0)
      - (if s.Del? && s.name !in local && Get(m.slots, s.name) == w then 1 else 0)
  {
    if (s.Assign? || s.Argument?) && s.target !in local {
      RefCounts.HoldersStore(m.slots, s.target, m'.last, w);
    } else if s.Del? && s.name !in local {
      RefCounts.HoldersStore(m.slots, s.name, 0, w);
    }
  }

  // ----- whole runs -----

  /** Every block-local variable is deleted only where it is live, and is live at no transfer to another
      block. */
  ghost predicate Tidy(blocks: seq<Block>, local: set<Var>) {
    forall b, i, x :: At(blocks, b, i) && x in local ==>
      && (blocks[b][i] == Del(x) ==> Live(blocks[b], x, i))
      && (blocks[b][i].Jump? || blocks[b][i].Branch? ==> !Live(blocks[b], x, i))
  }

  ghost predicate RunBalanced(blocks: seq<Block>, local: set<Var>, n: nat, c: Config)
    requires RefCounts.EntryArguments(blocks, n)
  {
    && Balanced(blocks, local, c.block, c.pc, c.machine)
    && !c.machine.control.To?
    && (c.block == 0 ==> forall i :: c.pc <= i < n && blocks[0][i].target !in local ==>
          Get(c.machine.slots, blocks[0][i].target) == 0)
  }

  lemma TidyFits(blocks: seq<Block>, local: set<Var>, n: nat, c: Config)
    requires RefCounts.EntryArguments(blocks, n) && RunBalanced(blocks, local, n, c) && Tidy(blocks, local)
    requires At(blocks, c.block, c.pc)
    ensures Fits(blocks, local, c.block, c.pc, c.machine)
  {
  }

  lemma StepKeepsBalance(eval: Eval, blocks: seq<Block>, local: set<Var>, n: nat, c: Config)
    requires RefCounts.EntryArguments(blocks, n) && RunBalanced(blocks, local, n, c) && Tidy(blocks, local)
    requires forall x <- local :: SinglyAssigned(blocks, x)
    requires At(blocks, c.block, c.pc) && c.machine.control.Fallthrough?
    ensures RunBalanced(blocks, local, n, StepConfig(eval, StaticProgram(local, blocks), c))
  {
    var s := blocks[c.block][c.pc];
    var c' := StepConfig(eval, StaticProgram(local, blocks), c);
    TidyFits(blocks, local, n, c);
    CodeDoes(eval, local, s, c.machine);
    StatementBalancedExactly(eval, blocks, local, c.block, c.pc, c.machine, c'.block, c'.pc);
    hide Balanced, Tidy, Fits, SinglyAssigned;
    var m' := ExecAll(eval, c.machine, StaticCode(local, s));
    SameCounts(blocks, local, c'.block, c'.pc, m', c'.machine);
  }

  lemma SameCounts(blocks: seq<Block>, local: set<Var>, b: nat, pc: nat, m: Machine, m': Machine)
    requires m'.slots == m.slots && m'.locals == m.locals && m'.counts == m.counts
    ensures Balanced(blocks, local, b, pc, m) <==> Balanced(blocks, local, b, pc, m')
  {
    forall v ensures LiveHolders(blocks, local, b, pc, m, v) == LiveHolders(blocks, local, b, pc, m', v) {
    }
  }

  lemma {:induction false} MixedRunsStayBalanced(
    eval: Eval, blocks: seq<Block>, local: set<Var>, n: nat, steps: nat)
    requires RefCounts.EntryArguments(blocks, n) && Tidy(blocks, local)
    requires forall x <- local :: SinglyAssigned(blocks, x)
    ensures RunBalanced(blocks, local, n, MixedRun(eval, blocks, local, steps))
  {
    if steps == 0 {
      StartIsBalanced(blocks, local);
    } else {
      MixedRunsStayBalanced(eval, blocks, local, n, steps - 1);
      var c := MixedRun(eval, blocks, local, steps - 1);
      if !c.machine.control.Done? && At(blocks, c.block, c.pc) {
        StepKeepsBalance(eval, blocks, local, n, c);
      }
    }
  }

  lemma StartIsBalanced(blocks: seq<Block>, local: set<Var>)
    ensures Balanced(blocks, local, 0, 0, START.machine)
  {
    forall v
      ensures RefCounts.Holders(START.machine.slots, v) == {}
      ensures LiveHolders(blocks, local, 0, 0, START.machine, v) == {}
    {
      NothingLiveAtStart(blocks, local, 0, START.machine, v);
    }
  }

  /** In every run of every program lowered with its block-local variables, when these are tidy: after every
      statement each object has as many net references as slots and live block-local values hold it, so
      none that is held has lost its last one. */
  lemma RunsStayBalanced(eval: Eval, blocks: seq<Block>, singly: set<Var>, n: nat, steps: nat)
    requires RefCounts.EntryArguments(blocks, n) && Tidy(blocks, singly)
    requires forall x <- singly :: KeptInBlock(blocks, x)
    ensures var c := RunCode(eval, LowerBlocks(Storage(singly, {}), blocks).0, START, steps);
      && Balanced(blocks, singly, c.block, c.pc, c.machine)
      && (forall y :: Get(c.machine.slots, y) != 0 ==> Get(c.machine.counts, Get(c.machine.slots, y)) >= 1)
      && LiveAreCounted(blocks, singly, c.block, c.pc, c.machine)
  {
    CandidatesStay(blocks, singly);
    forall x | x in singly ensures SinglyAssigned(blocks, x) {
      var d, a :| KeptInBlockAt(blocks, x, d, a);
    }
    MixedRunsStayBalanced(eval, blocks, singly, n, steps);
    var c := MixedRun(eval, blocks, singly, steps);
    HeldCounts(blocks, singly, c.block, c.pc, c.machine);
    hide Balanced, Tidy, SinglyAssigned, KeptInBlock, Live;
  }

  ghost predicate LiveAreCounted(blocks: seq<Block>, local: set<Var>, b: nat, pc: nat, m: Machine) {
    forall y :: y in local && b < |blocks| && Live(blocks[b], y, pc) && Get(m.locals, y) != 0 ==>
      Get(m.counts, Get(m.locals, y)) >= 1
  }

  lemma HeldCounts(blocks: seq<Block>, local: set<Var>, b: nat, pc: nat, m: Machine)
    requires Balanced(blocks, local, b, pc, m)
    ensures forall y :: Get(m.slots, y) != 0 ==> Get(m.counts, Get(m.slots, y)) >= 1
    ensures LiveAreCounted(blocks, local, b, pc, m)
  {
    forall y | Get(m.slots, y) != 0 ensures Get(m.counts, Get(m.slots, y)) >= 1 {
      var v := Get(m.slots, y);
      assert y in RefCounts.Holders(m.slots, v);
      assert |RefCounts.Holders(m.slots, v)| > 0;
    }
    forall y | y in local && b < |blocks| && Live(blocks[b], y, pc) && Get(m.locals, y) != 0
      ensures Get(m.counts, Get(m.locals, y)) >= 1
    {
      var v := Get(m.locals, y);
      assert y in LiveHolders(blocks, local, b, pc, m, v);
      assert |LiveHolders(blocks, local, b, pc, m, v)| > 0;
    }
  }

  /** Where a second deletion of a slot is harmless, one of a block-local value releases it twice. */
  lemma SecondDelReleasesTwice(op: Op)
    ensures var block: Block := [Assign("x", op, []), Del("x"), Del("x")];
      && KeptInBlock([block], "x")
      && Get(RunPrefix(One(), {"x"}, block, 3).counts, 1) == -1
      && Get(RunPrefix(One(), {}, block, 3).counts, 1) == 0
  {
    var block: Block := [Assign("x", op, []), Del("x"), Del("x")];
    assert AssignedOnceAt([block], "x", 0, 0);
    assert KeptInBlockAt([block], "x", 0, 0);
    hide RunPrefix;
    DeletedTwice({"x"}, op);
    DeletedTwice({}, op);
  }

  /** The object made for `x` and where `x` is kept. */
  function Kept(local: set<Var>, m: Machine, x: Var): Value {
    if x in local then Get(m.locals, x) else Get(m.slots, x)
  }

  lemma DeletedTwice(local: set<Var>, op: Op)
    ensures Get(RunPrefix(One(), local, [Assign("x", op, []), Del("x"), Del("x")], 3).counts, 1)
      == if "x" in local then -1 else 0
  {
    var block: Block := [Assign("x", op, []), Del("x"), Del("x")];
    var m0, m1 := RunPrefix(One(), local, block, 0), RunPrefix(One(), local, block, 1);
    var m2, m3 := RunPrefix(One(), local, block, 2), RunPrefix(One(), local, block, 3);
    assert m0 == START.machine;
    assert m1 == ExecAll(One(), m0, StaticCode(local, block[0]));
    assert m2 == ExecAll(One(), m1, StaticCode(local, block[1]));
    assert m3 == ExecAll(One(), m2, StaticCode(local, block[2]));
    hide RunPrefix;
    MakeCounts(local, block[0], m0);
    DelCounts(local, m1);
    DelCounts(local, m2);
  }

  lemma MakeCounts(local: set<Var>, s: Stmt, m: Machine)
    requires s.Assign? && s.target == "x" && m == START.machine
    ensures var m' := ExecAll(One(), m, StaticCode(local, s));
      Get(m'.counts, 1) == 1 && Kept(local, m', "x") == 1
  {
    CodeDoes(One(), local, s, m);
    CodeBumps(One(), local, s, m);
    hide ExecAll, StaticCode;
  }

  lemma DelCounts(local: set<Var>, m: Machine)
    ensures var m' := ExecAll(One(), m, StaticCode(local, Del("x")));
      && Get(m'.counts, 1) == Get(m.counts, 1) - (if Kept(local, m, "x") == 1 then 1 else 0)
      && Kept(local, m', "x") == if "x" in local then Kept(local, m, "x") else 0
  {
    CodeDoes(One(), local, Del("x"), m);
    CodeBumps(One(), local, Del("x"), m);
    hide ExecAll, StaticCode;
  }
}
