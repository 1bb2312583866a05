/** Variable storage during lowering: block-local values for singly assigned variables, stack slots for
    the rest. The source program, the code emitted for it and a machine that runs that code. */
module LoweringModel {
  import opened Maps

  type Var = string
  type Op = string
  type Value = int  // an object or scalar; 0 is the null that fills a fresh or deleted slot

  /** Statements of the typed IR, control transfers included. `Argument` is an assignment from a
      function argument. */
  datatype Stmt =
    | Assign(target: Var, op: Op, args: seq<Var>)
    | Argument(target: Var, op: Op)
    | Effect(op: Op, args: seq<Var>)
    | Del(name: Var)
    | Jump(to: nat)
    | Branch(cond: Var, truebr: nat, falsebr: nat)
    | Return(value: Var)

  type Block = seq<Stmt>

  /** The variables a statement reads. A deletion names its variable without reading its value. */
  function Operands(s: Stmt): seq<Var> {
    match s
    case Assign(_, _, args) => args
    case Effect(_, args) => args
    case Branch(cond, _, _) => [cond]
    case Return(value) => [value]
    case _ => []
  }

  predicate Assigns(s: Stmt, x: Var) {
    (s.Assign? || s.Argument?) && s.target == x
  }

  predicate Reads(s: Stmt, x: Var) {
    x in Operands(s)
  }

  // ----- emitted code -----

  datatype Operand = Slot(x: Var) | Local(x: Var)

  /** Instructions work on slots, block-local values and the value computed last. */
  datatype Instr =
    | Compute(op: Op, args: seq<Operand>)
    | Perform(op: Op, args: seq<Operand>)
    | Decref(at: Operand)
    | Store(x: Var)
    | StoreNull(x: Var)
    | Bind(x: Var)
    | Goto(to: nat)
    | CondGoto(cond: Operand, truebr: nat, falsebr: nat)
    | Exit(value: Operand)

  // ----- lowering as a fold over the statements -----

  /** What lowering keeps between statements: the candidates for block-local storage still in force, and
      the variables bound to block-local values so far. */
  datatype Storage = Storage(singly: set<Var>, local: set<Var>)

  function OperandFor(local: set<Var>, x: Var): Operand {
    if x in local then Local(x) else Slot(x)
  }

  function OperandsOf(local: set<Var>, xs: seq<Var>): seq<Operand> {
    seq(|xs|, i requires 0 <= i < |xs| => OperandFor(local, xs[i]))
  }

  /** The code of one statement, given which operands are block-local and whether the assigned variable is. */
  function Code(s: Stmt, local: set<Var>, bind: bool): seq<Instr> {
    match s
    case Assign(x, op, args) =>
      [Compute(op, OperandsOf(local, args))] + (if bind then [Bind(x)] else [Decref(Slot(x)), Store(x)])
    case Argument(x, op) => [Compute(op, []), if bind then Bind(x) else Store(x)]
    case Effect(op, args) => [Perform(op, OperandsOf(local, args))]
    case Del(x) => if x in local then [Decref(Local(x))] else [Decref(Slot(x)), StoreNull(x)]
    case Jump(to) => [Goto(to)]
    case Branch(cond, t, f) => [CondGoto(OperandFor(local, cond), t, f)]
    case Return(value) => [Exit(OperandFor(local, value))]
  }

  function LowerStmt(st: Storage, s: Stmt): (seq<Instr>, Storage) {
    match s
    case Assign(x, _, _) =>
      (Code(s, st.local, x in st.singly), if x in st.singly then st.(local := st.local + {x}) else st)
    case Argument(x, _) =>
      (Code(s, st.local, x in st.singly), if x in st.singly then st.(local := st.local + {x}) else st)
    case Del(x) => (Code(s, st.local, false), if x in st.local then st else st.(singly := st.singly - {x}))
    case _ => (Code(s, st.local, false), st)
  }

  function LowerStmts(st: Storage, stmts: seq<Stmt>): (seq<seq<Instr>>, Storage)
    decreases |stmts|
  {
    if stmts == [] then ([], st)
    else
      var (code, st') := LowerStmt(st, stmts[0]);
      var (rest, st'') := LowerStmts(st', stmts[1..]);
      ([code] + rest, st'')
  }

  function LowerBlocks(st: Storage, blocks: seq<Block>): (seq<seq<seq<Instr>>>, Storage)
    decreases |blocks|
  {
    if blocks == [] then ([], st)
    else
      var (code, st') := LowerStmts(st, blocks[0]);
      var (rest, st'') := LowerBlocks(st', blocks[1..]);
      ([code] + rest, st'')
  }

  /** The code of a statement when storage classes never change. */
  function StaticCode(local: set<Var>, s: Stmt): seq<Instr> {
    Code(s, local, (s.Assign? || s.Argument?) && s.target in local)
  }

  // ----- singly assigned variables -----

  predicate At(blocks: seq<Block>, b: int, i: int) {
    0 <= b < |blocks| && 0 <= i < |blocks[b]|
  }

  /** The only assignment of `x` is statement `a` of block `d`, and every read of `x` comes after it in
      that block. */
  ghost predicate AssignedOnceAt(blocks: seq<Block>, x: Var, d: int, a: int) {
    && At(blocks, d, a) && Assigns(blocks[d][a], x)
    && (forall b, i :: At(blocks, b, i) && Assigns(blocks[b][i], x) ==> b == d && i == a)
    && (forall b, i :: At(blocks, b, i) && Reads(blocks[b][i], x) ==> b == d && a < i)
  }

  ghost predicate SinglyAssigned(blocks: seq<Block>, x: Var) {
    exists d, a :: AssignedOnceAt(blocks, x, d, a)
  }

  /** And every deletion of `x` comes after that assignment in that block, too. */
  ghost predicate KeptInBlockAt(blocks: seq<Block>, x: Var, d: int, a: int) {
    && AssignedOnceAt(blocks, x, d, a)
    && (forall b, i :: At(blocks, b, i) && blocks[b][i] == Del(x) ==> b == d && a < i)
  }

  ghost predicate KeptInBlock(blocks: seq<Block>, x: Var) {
    exists d, a :: KeptInBlockAt(blocks, x, d, a)
  }

  // ----- the machine -----

  /** Everything a run shows: each operation, test and result with the values it read. */
  datatype Event = Event(op: Op, values: seq<Value>)

  /** An operation may depend on everything that happened before. */
  type Eval = (seq<Event>, Op, seq<Value>) -> Value

  datatype Control = Fallthrough | To(block: nat) | Done

  datatype Machine = Machine(
    slots: map<Var, Value>, locals: map<Var, Value>, counts: map<Value, int>,
    last: Value, trace: seq<Event>, control: Control)

  function ValueOf(m: Machine, o: Operand): Value {
    match o
    case Slot(x) => Get(m.slots, x)
    case Local(x) => Get(m.locals, x)
  }

  function ValuesOf(m: Machine, os: seq<Operand>): seq<Value> {
    seq(|os|, i requires 0 <= i < |os| => ValueOf(m, os[i]))
  }

  /** Reference counts of null are not kept. */
  function Bump(counts: map<Value, int>, v: Value, delta: int): map<Value, int> {
    if v == 0 then counts else counts[v := Get(counts, v) + delta]
  }

  /** A computed value arrives with a reference of its own. */
  function Exec(eval: Eval, m: Machine, i: Instr): Machine {
    match i
    case Compute(op, args) =>
      var v := eval(m.trace, op, ValuesOf(m, args));
      m.(last := v, counts := Bump(m.counts, v, 1), trace := m.trace + [Event(op, ValuesOf(m, args))])
    case Perform(op, args) => m.(trace := m.trace + [Event(op, ValuesOf(m, args))])
    case Decref(at) => m.(counts := Bump(m.counts, ValueOf(m, at), -1))
    case Store(x) => m.(slots := m.slots[x := m.last])
    case StoreNull(x) => m.(slots := m.slots[x := 0])
    case Bind(x) => m.(locals := m.locals[x := m.last])
    case Goto(to) => m.(control := To(to))
    case CondGoto(cond, t, f) =>
      m.(trace := m.trace + [Event("branch", [ValueOf(m, cond)])],
        control := To(if ValueOf(m, cond) != 0 then t else f))
    case Exit(value) => m.(trace := m.trace + [Event("return", [ValueOf(m, value)])], control := Done)
  }

  function ExecAll(eval: Eval, m: Machine, code: seq<Instr>): Machine
    decreases |code|
  {
    if code == [] then m else ExecAll(eval, Exec(eval, m, code[0]), code[1..])
  }

  datatype Config = Config(block: nat, pc: nat, machine: Machine)

  const START := Config(0, 0, Machine(map[], map[], map[], 0, [], Fallthrough))

  /** Run the code of one statement of the lowered program and move on. A run that has returned, or has
      left the program, stays where it is. */
  function StepConfig(eval: Eval, code: seq<seq<seq<Instr>>>, c: Config): Config {
    if c.machine.control.Done? || c.block >= |code| || c.pc >= |code[c.block]| then c
    else
      var m := ExecAll(eval, c.machine, code[c.block][c.pc]);
      if m.control.To? then Config(m.control.block, 0, m.(control := Fallthrough)) else Config(c.block, c.pc + 1, m)
  }

  function RunCode(eval: Eval, code: seq<seq<seq<Instr>>>, c: Config, steps: nat): Config {
    if steps == 0 then c else StepConfig(eval, code, RunCode(eval, code, c, steps - 1))
  }

  function StaticProgram(local: set<Var>, blocks: seq<Block>): seq<seq<seq<Instr>>> {
    seq(|blocks|, b requires 0 <= b < |blocks| =>
      seq(|blocks[b]|, i requires 0 <= i < |blocks[b]| => StaticCode(local, blocks[b][i])))
  }
}
