/** Storage classes never change during lowering, and block-local storage reads what slots would. */
module LoweringStorage {
  import opened Maps
  import opened LoweringModel

  // ----- one storage class per variable -----

  /** Every variable still a candidate but not yet bound has its one assignment ahead, before any read;
      a bound one has none ahead. */
  ghost predicate Ahead(st: Storage, rest: seq<Stmt>) {
    && st.local <= st.singly
    && (forall x <- st.singly :: x !in st.local ==> exists a :: OnceAhead(rest, x, a))
    && (forall x, i :: x in st.local && 0 <= i < |rest| ==> !Assigns(rest[i], x))
  }

  ghost predicate OnceAhead(rest: seq<Stmt>, x: Var, a: int) {
    && 0 <= a < |rest| && Assigns(rest[a], x)
    && (forall i :: 0 <= i < |rest| && Assigns(rest[i], x) ==> i == a)
    && (forall i :: 0 <= i < |rest| && Reads(rest[i], x) ==> a < i)
  }

  lemma {:induction false} AheadStep(st: Storage, rest: seq<Stmt>)
    requires rest != [] && Ahead(st, rest)
    ensures Ahead(LowerStmt(st, rest[0]).1, rest[1..])
    ensures forall x <- st.singly - st.local :: !Reads(rest[0], x)
  {
    var st' := LowerStmt(st, rest[0]).1;
    forall x | x in st.singly && x !in st.local
      ensures !Reads(rest[0], x)
      ensures Assigns(rest[0], x) ==> forall i :: 0 <= i < |rest[1..]| ==> !Assigns(rest[1..][i], x)
      ensures !Assigns(rest[0], x) ==> exists a :: OnceAhead(rest[1..], x, a)
    {
      var a :| OnceAhead(rest, x, a);
      if !Assigns(rest[0], x) {
        assert OnceAhead(rest[1..], x, a - 1);
      }
    }
  }

  /** Candidates only drop out, bound variables stay bound, and only candidates are ever bound. */
  lemma {:induction false} StorageMonotone(st: Storage, stmts: seq<Stmt>)
    requires st.local <= st.singly
    ensures var st' := LowerStmts(st, stmts).1;
      st.local <= st'.local <= st'.singly <= st.singly
    decreases |stmts|
  {
    if stmts != [] {
      StorageMonotone(LowerStmt(st, stmts[0]).1, stmts[1..]);
    }
  }

  /** The outcome of lowering what is left lies between the bound variables and the candidates. */
  ghost predicate Between(st: Storage, final: set<Var>) {
    st.local <= final <= st.singly
  }

  lemma StmtIsStatic(st: Storage, rest: seq<Stmt>, final: set<Var>)
    requires rest != [] && Ahead(st, rest) && Between(LowerStmt(st, rest[0]).1, final)
    ensures LowerStmt(st, rest[0]).0 == StaticCode(final, rest[0]) && Between(st, final)
  {
    AheadStep(st, rest);
    var xs := Operands(rest[0]);
    assert forall x <- xs :: Reads(rest[0], x) && (x in st.local <==> x in final);
    assert OperandsOf(st.local, xs) == OperandsOf(final, xs);
  }

  lemma {:induction false} StmtsAreStatic(st: Storage, stmts: seq<Stmt>, tail: seq<Stmt>, final: set<Var>)
    requires Ahead(st, stmts + tail) && Between(LowerStmts(st, stmts).1, final)
    ensures LowerStmts(st, stmts).0 == seq(|stmts|, i requires 0 <= i < |stmts| => StaticCode(final, stmts[i]))
    ensures Between(st, final) && Ahead(LowerStmts(st, stmts).1, tail)
    decreases |stmts|
  {
    if stmts == [] {
      assert stmts + tail == tail;
    } else {
      var st1 := LowerStmt(st, stmts[0]).1;
      AheadStep(st, stmts + tail);
      assert (stmts + tail)[1..] == stmts[1..] + tail;
      StmtsAreStatic(st1, stmts[1..], tail, final);
      StmtIsStatic(st, stmts + tail, final);
    }
  }

  function Flatten(blocks: seq<Block>): seq<Stmt> {
    if blocks == [] then [] else blocks[0] + Flatten(blocks[1..])
  }

  lemma {:induction false} BlocksAreStatic(st: Storage, blocks: seq<Block>, final: set<Var>)
    requires Ahead(st, Flatten(blocks)) && Between(LowerBlocks(st, blocks).1, final)
    ensures LowerBlocks(st, blocks).0 == StaticProgram(final, blocks)
    ensures Between(st, final)
    decreases |blocks|
  {
    if blocks != [] {
      var st1 := LowerStmts(st, blocks[0]).1;
      AheadThrough(st, blocks[0], Flatten(blocks[1..]));
      BlocksAreStatic(st1, blocks[1..], final);
      StmtsAreStatic(st, blocks[0], Flatten(blocks[1..]), final);
    }
  }

  lemma {:induction false} AheadThrough(st: Storage, stmts: seq<Stmt>, tail: seq<Stmt>)
    requires Ahead(st, stmts + tail)
    ensures Ahead(LowerStmts(st, stmts).1, tail)
    decreases |stmts|
  {
    if stmts == [] {
      assert stmts + tail == tail;
    } else {
      AheadStep(st, stmts + tail);
      assert (stmts + tail)[1..] == stmts[1..] + tail;
      AheadThrough(LowerStmt(st, stmts[0]).1, stmts[1..], tail);
    }
  }

  lemma {:induction false} AbsentInFlat(blocks: seq<Block>, x: Var)
    requires forall b, i :: At(blocks, b, i) ==> !Assigns(blocks[b][i], x) && !Reads(blocks[b][i], x)
    ensures forall i :: 0 <= i < |Flatten(blocks)| ==> !Assigns(Flatten(blocks)[i], x) && !Reads(Flatten(blocks)[i], x)
    decreases |blocks|
  {
    if blocks != [] {
      forall i | 0 <= i < |blocks[0]| ensures !Assigns(blocks[0][i], x) && !Reads(blocks[0][i], x) {
        assert At(blocks, 0, i);
      }
      forall b, i | At(blocks[1..], b, i) ensures !Assigns(blocks[1..][b][i], x) && !Reads(blocks[1..][b][i], x) {
        assert At(blocks, b + 1, i);
      }
      AbsentInFlat(blocks[1..], x);
    }
  }

  lemma {:induction false} OnceInFlat(blocks: seq<Block>, x: Var, d: int, a: int) returns (k: int)
    requires AssignedOnceAt(blocks, x, d, a)
    ensures OnceAhead(Flatten(blocks), x, k)
    decreases |blocks|
  {
    var tail := blocks[1..];
    assert forall b, i :: At(tail, b, i) ==> At(blocks, b + 1, i);
    assert forall i :: 0 <= i < |blocks[0]| ==> At(blocks, 0, i);
    if d == 0 {
      AbsentInFlat(tail, x);
      k := a;
    } else {
      assert At(tail, d - 1, a) && AssignedOnceAt(tail, x, d - 1, a);
      k := OnceInFlat(tail, x, d - 1, a);
      k := k + |blocks[0]|;
    }
  }

  /** The emitted code is the code for one fixed set of block-local variables: even if deletions met on the
      way drop some candidates, no variable changes its storage class. */
  lemma StorageClassIsFixed(blocks: seq<Block>, singly: set<Var>)
    requires forall x <- singly :: SinglyAssigned(blocks, x)
    ensures var (code, st) := LowerBlocks(Storage(singly, {}), blocks);
      st.local <= singly && code == StaticProgram(st.local, blocks)
  {
    SinglyAreAhead(blocks, singly);
    var st := LowerBlocks(Storage(singly, {}), blocks).1;
    BlocksMonotone(Storage(singly, {}), blocks);
    BlocksAreStatic(Storage(singly, {}), blocks, st.local);
  }

  lemma SinglyAreAhead(blocks: seq<Block>, singly: set<Var>)
    requires forall x <- singly :: SinglyAssigned(blocks, x)
    ensures Ahead(Storage(singly, {}), Flatten(blocks))
  {
    forall x | x in singly ensures exists a :: OnceAhead(Flatten(blocks), x, a) {
      var d, a :| AssignedOnceAt(blocks, x, d, a);
      var k := OnceInFlat(blocks, x, d, a);
    }
  }

  lemma {:induction false} BlocksMonotone(st: Storage, blocks: seq<Block>)
    requires st.local <= st.singly
    ensures var st' := LowerBlocks(st, blocks).1;
      st.local <= st'.local <= st'.singly <= st.singly
    decreases |blocks|
  {
    if blocks != [] {
      StorageMonotone(st, blocks[0]);
      BlocksMonotone(LowerStmts(st, blocks[0]).1, blocks[1..]);
    }
  }

  // ----- candidates that are deleted only after their assignment -----

  ghost predicate OnceThenDels(rest: seq<Stmt>, x: Var, a: int) {
    OnceAhead(rest, x, a) && forall i :: 0 <= i < |rest| && rest[i] == Del(x) ==> a < i
  }

  /** Every candidate not yet bound has its one assignment ahead, before any read and any deletion. */
  ghost predicate KeptAhead(st: Storage, rest: seq<Stmt>) {
    st.local <= st.singly && forall x <- st.singly :: x !in st.local ==> exists a :: OnceThenDels(rest, x, a)
  }

  lemma KeptStep(st: Storage, rest: seq<Stmt>)
    requires rest != [] && KeptAhead(st, rest)
    ensures KeptAhead(LowerStmt(st, rest[0]).1, rest[1..]) && LowerStmt(st, rest[0]).1.singly == st.singly
  {
    forall x | x in st.singly && x !in st.local
      ensures rest[0] != Del(x)
      ensures !Assigns(rest[0], x) ==> exists a :: OnceThenDels(rest[1..], x, a)
    {
      var a :| OnceThenDels(rest, x, a);
      if !Assigns(rest[0], x) {
        assert OnceThenDels(rest[1..], x, a - 1);
      }
    }
  }

  lemma {:induction false} KeptThrough(st: Storage, stmts: seq<Stmt>, tail: seq<Stmt>)
    requires KeptAhead(st, stmts + tail)
    ensures KeptAhead(LowerStmts(st, stmts).1, tail) && LowerStmts(st, stmts).1.singly == st.singly
    decreases |stmts|
  {
    if stmts == [] {
      assert stmts + tail == tail;
    } else {
      KeptStep(st, stmts + tail);
      assert (stmts + tail)[1..] == stmts[1..] + tail;
      KeptThrough(LowerStmt(st, stmts[0]).1, stmts[1..], tail);
    }
  }

  lemma {:induction false} KeptThroughBlocks(st: Storage, blocks: seq<Block>)
    requires KeptAhead(st, Flatten(blocks))
    ensures LowerBlocks(st, blocks).1 == Storage(st.singly, st.singly)
    decreases |blocks|
  {
    if blocks == [] {
      forall x | x in st.singly ensures x in st.local {
        assert forall a :: !OnceThenDels([], x, a);
      }
    } else {
      KeptThrough(st, blocks[0], Flatten(blocks[1..]));
      KeptThroughBlocks(LowerStmts(st, blocks[0]).1, blocks[1..]);
    }
  }

  lemma {:induction false} NoDelInFlat(blocks: seq<Block>, x: Var)
    requires forall b, i :: At(blocks, b, i) ==> blocks[b][i] != Del(x)
    ensures forall i :: 0 <= i < |Flatten(blocks)| ==> Flatten(blocks)[i] != Del(x)
    decreases |blocks|
  {
    if blocks != [] {
      assert forall b, i :: At(blocks[1..], b, i) ==> At(blocks, b + 1, i);
      assert forall i :: 0 <= i < |blocks[0]| ==> At(blocks, 0, i);
      NoDelInFlat(blocks[1..], x);
    }
  }

  lemma {:induction false} KeptInFlat(blocks: seq<Block>, x: Var, d: int, a: int) returns (k: int)
    requires KeptInBlockAt(blocks, x, d, a)
    ensures OnceThenDels(Flatten(blocks), x, k)
    decreases |blocks|
  {
    var tail := blocks[1..];
    assert forall b, i :: At(tail, b, i) ==> At(blocks, b + 1, i);
    assert forall i :: 0 <= i < |blocks[0]| ==> At(blocks, 0, i);
    if d == 0 {
      AbsentInFlat(tail, x);
      NoDelInFlat(tail, x);
      k := a;
    } else {
      assert At(tail, d - 1, a) && KeptInBlockAt(tail, x, d - 1, a);
      k := KeptInFlat(tail, x, d - 1, a);
      k := k + |blocks[0]|;
    }
  }

  /** When every candidate is read and deleted only after its one assignment in its block, lowering drops
      none and binds them all: the emitted code is that of the candidates themselves. */
  lemma CandidatesStay(blocks: seq<Block>, singly: set<Var>)
    requires forall x <- singly :: KeptInBlock(blocks, x)
    ensures LowerBlocks(Storage(singly, {}), blocks) == (StaticProgram(singly, blocks), Storage(singly, singly))
  {
    forall x | x in singly ensures SinglyAssigned(blocks, x) && exists a :: OnceThenDels(Flatten(blocks), x, a) {
      var d, a :| KeptInBlockAt(blocks, x, d, a);
      assert AssignedOnceAt(blocks, x, d, a);
      var k := KeptInFlat(blocks, x, d, a);
    }
    KeptThroughBlocks(Storage(singly, {}), blocks);
    StorageClassIsFixed(blocks, singly);
  }

  /** A deletion before the assignment does drop a candidate; such a variable is no candidate to begin with. */
  lemma EarlyDelDrops(x: Var, op: Op)
    ensures var blocks: seq<Block> := [[Del(x), Assign(x, op, [])]];
      && SinglyAssigned(blocks, x) && !KeptInBlock(blocks, x)
      && LowerBlocks(Storage({x}, {}), blocks).1 == Storage({}, {})
  {
    var block: Block := [Del(x), Assign(x, op, [])];
    var blocks := [block];
    assert AssignedOnceAt(blocks, x, 0, 1);
    assert At(blocks, 0, 0) && blocks[0][0] == Del(x);
    var st := Storage({x}, {});
    assert LowerStmt(st, block[0]).1 == Storage({}, {});
    var rest := block[1..];
    assert rest == [Assign(x, op, [])] && rest[1..] == [];
    assert LowerStmts(Storage({}, {}), rest).1 == LowerStmts(LowerStmt(Storage({}, {}), rest[0]).1, rest[1..]).1;
    assert LowerStmts(st, block).1 == Storage({}, {});
    assert blocks[1..] == [];
  }

  // ----- block-local values and slots are read alike -----

  /** Statement `j` reads what statement `i` deleted. */
  ghost predicate ReadAfterDel(block: Block, x: Var, i: int, j: int) {
    0 <= i < j < |block| && block[i] == Del(x) && Reads(block[j], x) && forall k :: i < k < j ==> !Assigns(block[k], x)
  }

  /** No block reads one of these variables after deleting it, unless it is assigned in between. */
  ghost predicate NoReadAfterDel(local: set<Var>, blocks: seq<Block>) {
    forall b, x, i, j :: 0 <= b < |blocks| && x in local ==> !ReadAfterDel(blocks[b], x, i, j)
  }

  /** `x` was assigned earlier in this visit of the block and has not been deleted since. */
  ghost predicate Live(block: Block, x: Var, pc: nat) {
    exists a :: 0 <= a < pc <= |block| && Assigns(block[a], x) && forall i :: a < i < pc ==> block[i] != Del(x)
  }

  ghost predicate SameStorage(blocks: seq<Block>, local: set<Var>, b: nat, pc: nat, slotted: Machine, mixed: Machine) {
    && slotted.trace == mixed.trace && slotted.last == mixed.last && slotted.control == mixed.control
    && (forall x :: x !in local ==> Get(slotted.slots, x) == Get(mixed.slots, x))
    && (forall x :: x in local && b < |blocks| && Live(blocks[b], x, pc) ==>
          x in mixed.locals && mixed.locals[x] == Get(slotted.slots, x))
  }

  lemma ExecTwo(eval: Eval, m: Machine, i: Instr, j: Instr)
    ensures ExecAll(eval, m, [i, j]) == Exec(eval, Exec(eval, m, i), j)
  {
    assert [i, j][1..] == [j];
    ExecOne(eval, Exec(eval, m, i), j);
  }

  lemma ExecThree(eval: Eval, m: Machine, i: Instr, j: Instr, k: Instr)
    ensures ExecAll(eval, m, [i, j, k]) == Exec(eval, Exec(eval, Exec(eval, m, i), j), k)
  {
    assert [i, j, k][1..] == [j, k];
    ExecTwo(eval, Exec(eval, m, i), j, k);
  }

  lemma ExecOne(eval: Eval, m: Machine, i: Instr)
    ensures ExecAll(eval, m, [i]) == Exec(eval, m, i)
  {
  }

  /** The statement at this place reads none of these variables after it was deleted. */
  ghost predicate CleanAt(blocks: seq<Block>, local: set<Var>, b: nat, pc: nat) {
    forall x, i :: x in local && b < |blocks| ==> !ReadAfterDel(blocks[b], x, i, pc)
  }

  /** The statement reads the same values in both storage layouts, and a block-local value it reads has
      been bound. */
  lemma ReadsAgree(blocks: seq<Block>, local: set<Var>, b: nat, pc: nat, slotted: Machine, mixed: Machine)
    requires At(blocks, b, pc) && CleanAt(blocks, local, b, pc)
    requires forall x <- local :: SinglyAssigned(blocks, x)
    requires SameStorage(blocks, local, b, pc, slotted, mixed)
    ensures var xs := Operands(blocks[b][pc]);
      && ValuesOf(slotted, OperandsOf({}, xs)) == ValuesOf(mixed, OperandsOf(local, xs))
      && (forall x <- xs :: ValueOf(slotted, Slot(x)) == ValueOf(mixed, OperandFor(local, x)))
      && (forall x <- xs :: x in local ==> x in mixed.locals)
  {
    var xs := Operands(blocks[b][pc]);
    forall x | x in xs && x in local
      ensures Live(blocks[b], x, pc)
    {
      assert Reads(blocks[b][pc], x);
      var d, a :| AssignedOnceAt(blocks, x, d, a);
      forall i | a < i < pc ensures blocks[b][i] != Del(x) {
        assert At(blocks, b, i) && !ReadAfterDel(blocks[b], x, i, pc);
        assert forall k :: i < k < pc ==> At(blocks, b, k);
      }
    }
  }

  lemma LiveStep(block: Block, x: Var, pc: nat)
    requires pc < |block| && Live(block, x, pc + 1)
    ensures block[pc] != Del(x)
    ensures Assigns(block[pc], x) || Live(block, x, pc)
  {
    var a :| 0 <= a < pc + 1 <= |block| && Assigns(block[a], x) && forall i :: a < i < pc + 1 ==> block[i] != Del(x);
  }

  /** What the code of a statement does to a machine, counts aside. */
  ghost predicate Does(eval: Eval, local: set<Var>, s: Stmt, m: Machine, m': Machine) {
    var values := ValuesOf(m, OperandsOf(local, Operands(s)));
    var computed := if s.Assign? || s.Argument? then eval(m.trace, s.op, values) else m.last;
    && m'.last == computed
    && m'.trace == m.trace + (match s
         case Assign(_, op, _) => [Event(op, values)]
         case Argument(_, op) => [Event(op, values)]
         case Effect(op, _) => [Event(op, values)]
         case Branch(_, _, _) => [Event("branch", values)]
         case Return(_) => [Event("return", values)]
         case _ => [])
    && m'.control == (match s
         case Jump(to) => To(to)
         case Branch(_, t, f) => To(if values[0] != 0 then t else f)
         case Return(_) => Done
         case _ => m.control)
    && m'.slots == (if (s.Assign? || s.Argument?) && s.target !in local then m.slots[s.target := computed]
                    else if s.Del? && s.name !in local then m.slots[s.name := 0] else m.slots)
    && m'.locals == if (s.Assign? || s.Argument?) && s.target in local then m.locals[s.target := computed] else m.locals
  }

  lemma CodeDoes(eval: Eval, local: set<Var>, s: Stmt, m: Machine)
    ensures Does(eval, local, s, m, ExecAll(eval, m, StaticCode(local, s)))
  {
    match s
    case Assign(x, op, args) =>
      if x in local {
        ExecTwo(eval, m, Compute(op, OperandsOf(local, args)), Bind(x));
      } else {
        ExecThree(eval, m, Compute(op, OperandsOf(local, args)), Decref(Slot(x)), Store(x));
      }
    case Argument(x, op) =>
      ExecTwo(eval, m, Compute(op, []), if x in local then Bind(x) else Store(x));
      assert OperandsOf(local, []) == [];
    case Del(x) =>
      if x in local {
        ExecOne(eval, m, Decref(Local(x)));
      } else {
        ExecTwo(eval, m, Decref(Slot(x)), StoreNull(x));
      }
      assert m.trace + [] == m.trace;
    case Branch(cond, t, f) =>
      ExecOne(eval, m, CondGoto(OperandFor(local, cond), t, f));
      assert ValuesOf(m, OperandsOf(local, [cond])) == [ValueOf(m, OperandFor(local, cond))];
    case Return(x) =>
      ExecOne(eval, m, Exit(OperandFor(local, x)));
      assert ValuesOf(m, OperandsOf(local, [x])) == [ValueOf(m, OperandFor(local, x))];
    case Jump(to) =>
      ExecOne(eval, m, Goto(to));
      assert m.trace + [] == m.trace;
    case Effect(op, args) =>
      ExecOne(eval, m, Perform(op, OperandsOf(local, args)));
  }

  lemma DoingKeepsStorage(
    eval: Eval, blocks: seq<Block>, local: set<Var>, b: nat, pc: nat, slotted: Machine, mixed: Machine,
    slotted': Machine, mixed': Machine)
    requires At(blocks, b, pc) && SameStorage(blocks, local, b, pc, slotted, mixed)
    requires ValuesOf(slotted, OperandsOf({}, Operands(blocks[b][pc]))) ==
      ValuesOf(mixed, OperandsOf(local, Operands(blocks[b][pc])))
    requires Does(eval, {}, blocks[b][pc], slotted, slotted') && Does(eval, local, blocks[b][pc], mixed, mixed')
    ensures SameStorage(blocks, local, b, pc + 1, slotted', mixed')
  {
    forall x | x in local && Live(blocks[b], x, pc + 1)
      ensures x in mixed'.locals && mixed'.locals[x] == Get(slotted'.slots, x)
    {
      LiveStep(blocks[b], x, pc);
    }
  }

  lemma StmtKeepsStorage(
    eval: Eval, blocks: seq<Block>, local: set<Var>, b: nat, pc: nat, slotted: Machine, mixed: Machine)
    requires At(blocks, b, pc) && CleanAt(blocks, local, b, pc)
    requires forall x <- local :: SinglyAssigned(blocks, x)
    requires SameStorage(blocks, local, b, pc, slotted, mixed)
    ensures SameStorage(blocks, local, b, pc + 1,
              ExecAll(eval, slotted, StaticCode({}, blocks[b][pc])),
              ExecAll(eval, mixed, StaticCode(local, blocks[b][pc])))
  {
    var s := blocks[b][pc];
    ReadsAgree(blocks, local, b, pc, slotted, mixed);
    CodeDoes(eval, {}, s, slotted);
    CodeDoes(eval, local, s, mixed);
    DoingKeepsStorage(eval, blocks, local, b, pc, slotted, mixed,
      ExecAll(eval, slotted, StaticCode({}, s)), ExecAll(eval, mixed, StaticCode(local, s)));
  }

  ghost predicate SameRun(blocks: seq<Block>, local: set<Var>, slotted: Config, mixed: Config) {
    && slotted.block == mixed.block && slotted.pc == mixed.pc
    && SameStorage(blocks, local, slotted.block, slotted.pc, slotted.machine, mixed.machine)
  }

  function SlotRun(eval: Eval, blocks: seq<Block>, steps: nat): Config {
    RunCode(eval, StaticProgram({}, blocks), START, steps)
  }

  function MixedRun(eval: Eval, blocks: seq<Block>, local: set<Var>, steps: nat): Config {
    RunCode(eval, StaticProgram(local, blocks), START, steps)
  }

  /** If the slot run is about to execute a statement, that one reads nothing deleted. */
  ghost predicate VisitsClean(eval: Eval, blocks: seq<Block>, local: set<Var>, steps: nat) {
    var c := SlotRun(eval, blocks, steps);
    At(blocks, c.block, c.pc) && !c.machine.control.Done? ==> CleanAt(blocks, local, c.block, c.pc)
  }

  lemma {:induction false} RunsAgreeUntil(eval: Eval, blocks: seq<Block>, local: set<Var>, steps: nat)
    requires forall k: nat :: k < steps ==> VisitsClean(eval, blocks, local, k)
    requires forall x <- local :: SinglyAssigned(blocks, x)
    ensures SameRun(blocks, local, SlotRun(eval, blocks, steps), MixedRun(eval, blocks, local, steps))
  {
    if steps > 0 {
      RunsAgreeUntil(eval, blocks, local, steps - 1);
      var s, m := SlotRun(eval, blocks, steps - 1), MixedRun(eval, blocks, local, steps - 1);
      if !s.machine.control.Done? && At(blocks, s.block, s.pc) {
        assert VisitsClean(eval, blocks, local, steps - 1);
        StmtKeepsStorage(eval, blocks, local, s.block, s.pc, s.machine, m.machine);
      }
    }
  }

  lemma RunsAgree(eval: Eval, blocks: seq<Block>, local: set<Var>, steps: nat)
    requires NoReadAfterDel(local, blocks) && forall x <- local :: SinglyAssigned(blocks, x)
    ensures SameRun(blocks, local, SlotRun(eval, blocks, steps), MixedRun(eval, blocks, local, steps))
  {
    RunsAgreeUntil(eval, blocks, local, steps);
  }

  /** Lowering with block-local storage shows the same events, with the same values read at every use and
      the same path taken, as lowering everything to slots: for every program, every behaviour of its
      operations and every length of run. A block-local value is bound whenever it is read. */
  lemma LoweringPreservesReads(eval: Eval, blocks: seq<Block>, singly: set<Var>, steps: nat)
    requires forall x <- singly :: SinglyAssigned(blocks, x)
    requires NoReadAfterDel(singly, blocks)
    ensures var mixed := RunCode(eval, LowerBlocks(Storage(singly, {}), blocks).0, START, steps);
      var slotted := RunCode(eval, LowerBlocks(Storage({}, {}), blocks).0, START, steps);
      && mixed.machine.trace == slotted.machine.trace && mixed.block == slotted.block && mixed.pc == slotted.pc
    ensures var (code, st) := LowerBlocks(Storage(singly, {}), blocks);
      var mixed := RunCode(eval, code, START, steps);
      At(blocks, mixed.block, mixed.pc) ==>
        forall x <- Operands(blocks[mixed.block][mixed.pc]) :: x in st.local ==> x in mixed.machine.locals
  {
    var local := LowerBlocks(Storage(singly, {}), blocks).1.local;
    StorageClassIsFixed(blocks, singly);
    StorageClassIsFixed(blocks, {});
    assert LowerBlocks(Storage({}, {}), blocks).1.local == {};
    RunsAgree(eval, blocks, local, steps);
    var slotted := RunCode(eval, StaticProgram({}, blocks), START, steps);
    var mixed := RunCode(eval, StaticProgram(local, blocks), START, steps);
    if At(blocks, mixed.block, mixed.pc) {
      ReadsAgree(blocks, local, mixed.block, mixed.pc, slotted.machine, mixed.machine);
    }
  }

  // ----- the condition is exact -----

  /** The machine after the first `n` statements of a block entered afresh. */
  function RunPrefix(eval: Eval, local: set<Var>, block: Block, n: nat): Machine
    requires n <= |block|
  {
    if n == 0 then START.machine
    else ExecAll(eval, RunPrefix(eval, local, block, n - 1), StaticCode(local, block[n - 1]))
  }

  lemma {:induction false} PrefixesAgree(eval: Eval, blocks: seq<Block>, local: set<Var>, b: nat, n: nat)
    requires b < |blocks| && n <= |blocks[b]| && NoReadAfterDel(local, blocks)
    requires forall x <- local :: SinglyAssigned(blocks, x)
    ensures SameStorage(blocks, local, b, n, RunPrefix(eval, {}, blocks[b], n), RunPrefix(eval, local, blocks[b], n))
  {
    if n > 0 {
      var slotted, mixed := RunPrefix(eval, {}, blocks[b], n - 1), RunPrefix(eval, local, blocks[b], n - 1);
      PrefixesAgree(eval, blocks, local, b, n - 1);
      StmtKeepsStorage(eval, blocks, local, b, n - 1, slotted, mixed);
      assert RunPrefix(eval, {}, blocks[b], n) == ExecAll(eval, slotted, StaticCode({}, blocks[b][n - 1]));
      assert RunPrefix(eval, local, blocks[b], n) == ExecAll(eval, mixed, StaticCode(local, blocks[b][n - 1]));
    }
  }

  /** Every operation yields 1. */
  function One(): Eval {
    (history, op, values) => 1
  }

  lemma PrefixDoes(eval: Eval, local: set<Var>, block: Block, n: nat)
    requires 0 < n <= |block|
    ensures Does(eval, local, block[n - 1], RunPrefix(eval, local, block, n - 1), RunPrefix(eval, local, block, n))
  {
    hide ExecAll, StaticCode, Does;
    CodeDoes(eval, local, block[n - 1], RunPrefix(eval, local, block, n - 1));
  }

  /** What one statement leaves in a block-local value and in a slot, when every operation yields 1. */
  lemma OneStatement(local: set<Var>, s: Stmt, m: Machine, m': Machine, x: Var)
    requires Does(One(), local, s, m, m')
    ensures x in local && (Assigns(s, x) || Get(m.locals, x) == 1) ==> Get(m'.locals, x) == 1
    ensures x !in local && (s == Del(x) || (!Assigns(s, x) && Get(m.slots, x) == 0)) ==> Get(m'.slots, x) == 0
  {
    hide ValuesOf, OperandsOf;
  }

  lemma {:induction false} AssignedLocal(local: set<Var>, block: Block, x: Var, a: nat, n: nat)
    requires a < n <= |block| && x in local && Assigns(block[a], x)
    ensures Get(RunPrefix(One(), local, block, n).locals, x) == 1
  {
    hide RunPrefix, Does, One, Get;
    PrefixDoes(One(), local, block, n);
    if a < n - 1 {
      AssignedLocal(local, block, x, a, n - 1);
    }
    OneStatement(local, block[n - 1], RunPrefix(One(), local, block, n - 1), RunPrefix(One(), local, block, n), x);
  }

  lemma {:induction false} DeletedSlot(block: Block, x: Var, i: nat, n: nat)
    requires i < n <= |block| && block[i] == Del(x) && forall k :: i < k < n ==> !Assigns(block[k], x)
    ensures Get(RunPrefix(One(), {}, block, n).slots, x) == 0
  {
    hide RunPrefix, Does, One, Get;
    PrefixDoes(One(), {}, block, n);
    if i < n - 1 {
      DeletedSlot(block, x, i, n - 1);
    }
    OneStatement({}, block[n - 1], RunPrefix(One(), {}, block, n - 1), RunPrefix(One(), {}, block, n), x);
  }

  /** Every statement adds to the trace, and as much in either storage. */
  lemma TraceGrows(eval: Eval, local: set<Var>, s: Stmt, m: Machine, m': Machine)
    requires Does(eval, local, s, m, m')
    ensures m.trace <= m'.trace
    ensures |m'.trace| == |m.trace| + if s.Assign? || s.Argument? || s.Effect? || s.Branch? || s.Return? then 1 else 0
  {
    hide ValuesOf, OperandsOf;
  }

  lemma {:induction false} TracesGrow(eval: Eval, local: set<Var>, block: Block, n: nat, n': nat)
    requires n <= n' <= |block|
    ensures RunPrefix(eval, local, block, n).trace <= RunPrefix(eval, local, block, n').trace
    ensures |RunPrefix(eval, local, block, n).trace| == |RunPrefix(eval, {}, block, n).trace|
    decreases n'
  {
    assert n == 0 ==> RunPrefix(eval, local, block, n) == RunPrefix(eval, {}, block, n);
    hide RunPrefix;
    if n' > n {
      TracesGrow(eval, local, block, n, n' - 1);
      OneMoreGrows(eval, local, block, n');
    } else if n > 0 {
      TracesGrow(eval, local, block, n - 1, n - 1);
      OneMoreGrows(eval, local, block, n);
      OneMoreGrows(eval, {}, block, n);
    }
  }

  lemma OneMoreGrows(eval: Eval, local: set<Var>, block: Block, n: nat)
    requires 0 < n <= |block|
    ensures var m, m' := RunPrefix(eval, local, block, n - 1), RunPrefix(eval, local, block, n);
      var s := block[n - 1];
      && m.trace <= m'.trace
      && |m'.trace| == |m.trace| + if s.Assign? || s.Argument? || s.Effect? || s.Branch? || s.Return? then 1 else 0
  {
    hide RunPrefix, Does;
    PrefixDoes(eval, local, block, n);
    TraceGrows(eval, local, block[n - 1], RunPrefix(eval, local, block, n - 1), RunPrefix(eval, local, block, n));
  }

  lemma DifferentReadsShow(eval: Eval, local: set<Var>, s: Stmt, p: nat, slotted: Machine, mixed: Machine,
      slotted': Machine, mixed': Machine)
    requires Does(eval, {}, s, slotted, slotted') && Does(eval, local, s, mixed, mixed')
    requires |slotted.trace| == |mixed.trace| && p < |Operands(s)|
    requires Get(slotted.slots, Operands(s)[p]) != ValueOf(mixed, OperandFor(local, Operands(s)[p]))
    ensures |slotted'.trace| == |mixed'.trace| == |mixed.trace| + 1
    ensures slotted'.trace[|mixed.trace|] != mixed'.trace[|mixed.trace|]
  {
    var xs := Operands(s);
    assert ValuesOf(slotted, OperandsOf({}, xs))[p] != ValuesOf(mixed, OperandsOf(local, xs))[p];
  }

  lemma TracesStayApart(eval: Eval, local: set<Var>, block: Block, n: nat, at: nat)
    requires n <= |block|
    requires var s, m := RunPrefix(eval, {}, block, n).trace, RunPrefix(eval, local, block, n).trace;
      |s| == |m| && at < |m| && s[at] != m[at]
    ensures RunPrefix(eval, {}, block, |block|).trace != RunPrefix(eval, local, block, |block|).trace
  {
    TracesGrow(eval, {}, block, n, |block|);
    TracesGrow(eval, local, block, n, |block|);
  }

  /** A deleted slot reads as null where the block-local value still reads as assigned. */
  lemma DeletedReads(blocks: seq<Block>, local: set<Var>, b: nat, x: Var, i: nat, j: nat)
    requires b < |blocks| && x in local && SinglyAssigned(blocks, x) && ReadAfterDel(blocks[b], x, i, j)
    ensures Get(RunPrefix(One(), {}, blocks[b], j).slots, x) == 0
    ensures Get(RunPrefix(One(), local, blocks[b], j).locals, x) == 1
  {
    var d, a :| AssignedOnceAt(blocks, x, d, a);
    assert At(blocks, b, j);
    AssignedLocal(local, blocks[b], x, a, j);
    DeletedSlot(blocks[b], x, i, j);
  }

  lemma DifferentStepShows(eval: Eval, local: set<Var>, block: Block, j: nat, x: Var)
    requires j < |block| && Reads(block[j], x) && x in local
    requires Get(RunPrefix(eval, {}, block, j).slots, x) != Get(RunPrefix(eval, local, block, j).locals, x)
    ensures RunPrefix(eval, {}, block, |block|).trace != RunPrefix(eval, local, block, |block|).trace
  {
    var slotted, mixed := RunPrefix(eval, {}, block, j), RunPrefix(eval, local, block, j);
    var p :| 0 <= p < |Operands(block[j])| && Operands(block[j])[p] == x;
    TracesGrow(eval, local, block, j, j);
    CodeDoes(eval, {}, block[j], slotted);
    CodeDoes(eval, local, block[j], mixed);
    DifferentReadsShow(eval, local, block[j], p, slotted, mixed, RunPrefix(eval, {}, block, j + 1),
      RunPrefix(eval, local, block, j + 1));
    TracesStayApart(eval, local, block, j + 1, |mixed.trace|);
  }

  /** Block-local storage reads what slots would, in every block, exactly when no block reads one of its
      variables after deleting it: when one does, operations that all yield 1 tell the two apart. */
  lemma ReadsAgreeExactly(blocks: seq<Block>, local: set<Var>)
    requires forall x <- local :: SinglyAssigned(blocks, x)
    ensures NoReadAfterDel(local, blocks) <==>
      forall b :: 0 <= b < |blocks| ==>
        RunPrefix(One(), {}, blocks[b], |blocks[b]|).trace == RunPrefix(One(), local, blocks[b], |blocks[b]|).trace
  {
    if NoReadAfterDel(local, blocks) {
      forall b | 0 <= b < |blocks|
        ensures RunPrefix(One(), {}, blocks[b], |blocks[b]|).trace ==
          RunPrefix(One(), local, blocks[b], |blocks[b]|).trace
      {
        PrefixesAgree(One(), blocks, local, b, |blocks[b]|);
      }
    } else {
      var b, x, i, j :| 0 <= b < |blocks| && x in local && ReadAfterDel(blocks[b], x, i, j);
      DeletedReads(blocks, local, b, x, i, j);
      DifferentStepShows(One(), local, blocks[b], j, x);
    }
  }
}
