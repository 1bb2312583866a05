/** The lowering object: it finds the singly assigned variables, then lowers the blocks one by one while
    its sets change, emitting the code of LoweringModel. */
module LoweringEmitter {
  import opened LoweringModel
  import LoweringStorage

  // ----- per-block definitions and upward-exposed uses -----

  /** A statement defines its target unless it also reads it. */
  predicate Defines(s: Stmt, x: Var) {
    Assigns(s, x) && !Reads(s, x)
  }

  ghost predicate InDefs(block: Block, n: int, x: Var) {
    exists i :: 0 <= i < n <= |block| && Defines(block[i], x)
  }

  /** The variables listed for a statement besides its target: those it reads, and the one it deletes. */
  function Listed(s: Stmt): seq<Var> {
    if s.Del? then [s.name] else Operands(s)
  }

  predicate Mentions(s: Stmt, x: Var) {
    x in Listed(s)
  }

  ghost predicate InUses(block: Block, n: int, x: Var) {
    exists i :: 0 <= i < n <= |block| && Mentions(block[i], x) && !InDefs(block, i, x)
  }

  method ComputeUseDefs(block: Block) returns (uses: set<Var>, defs: set<Var>)
    ensures forall x :: x in defs <==> InDefs(block, |block|, x)
    ensures forall x :: x in uses <==> InUses(block, |block|, x)
  {
    uses, defs := {}, {};
    for i := 0 to |block|
      invariant forall x :: x in defs <==> InDefs(block, i, x)
      invariant forall x :: x in uses <==> InUses(block, i, x)
    {
      var s := block[i];
      ghost var before := defs;
      if s.Assign? || s.Argument? {
        if s.target !in Operands(s) {
          defs := defs + {s.target};
        }
      }
      uses := uses + set x | x in Listed(s) && x !in defs;
      assert forall x :: x in defs <==> InDefs(block, i + 1, x);
      forall x ensures x in uses <==> InUses(block, i + 1, x) {
        assert Mentions(s, x) ==> (x in defs <==> x in before);
        if InUses(block, i + 1, x) {
          var k :| 0 <= k < i + 1 && Mentions(block[k], x) && !InDefs(block, k, x);
        }
      }
    }
  }

  function Count(block: Block, x: Var): nat {
    if block == [] then 0 else Count(block[..|block| - 1], x) + if Assigns(block[|block| - 1], x) then 1 else 0
  }

  ghost predicate OnlyAt(block: Block, x: Var, a: int) {
    0 <= a < |block| && Assigns(block[a], x) && forall i :: 0 <= i < |block| && Assigns(block[i], x) ==> i == a
  }

  lemma {:induction false} CountZero(block: Block, x: Var)
    ensures Count(block, x) == 0 <==> forall i :: 0 <= i < |block| ==> !Assigns(block[i], x)
  {
    if block != [] {
      var n := |block| - 1;
      CountZero(block[..n], x);
      assert forall i :: 0 <= i < n ==> block[..n][i] == block[i];
    }
  }

  lemma {:induction false} CountOne(block: Block, x: Var) returns (a: int)
    requires Count(block, x) == 1
    ensures OnlyAt(block, x, a)
  {
    var n := |block| - 1;
    assert forall i :: 0 <= i < n ==> block[..n][i] == block[i];
    if Assigns(block[n], x) {
      CountZero(block[..n], x);
      a := n;
    } else {
      a := CountOne(block[..n], x);
    }
  }

  lemma {:induction false} OnlyAtCounts(block: Block, x: Var, a: int)
    requires OnlyAt(block, x, a)
    ensures Count(block, x) == 1
  {
    var n := |block| - 1;
    assert forall i :: 0 <= i < n ==> block[..n][i] == block[i];
    if a == n {
      CountZero(block[..n], x);
    } else {
      OnlyAtCounts(block[..n], x, a);
    }
  }

  method CountAssignments(block: Block, x: Var) returns (count: nat)
    ensures count == Count(block, x)
  {
    count := 0;
    for i := 0 to |block|
      invariant count == Count(block[..i], x)
    {
      assert block[..i + 1][..i] == block[..i];
      if Assigns(block[i], x) {
        count := count + 1;
      }
    }
    assert block[..|block|] == block;
  }

  /** The test made for one variable, on the blocks that define it and the blocks that use it. */
  ghost predicate PassesTest(blocks: seq<Block>, x: Var, d: int) {
    && 0 <= d < |blocks| && InDefs(blocks[d], |blocks[d]|, x)
    && (forall b :: 0 <= b < |blocks| && InDefs(blocks[b], |blocks[b]|, x) ==> b == d)
    && (forall b :: 0 <= b < |blocks| ==> !InUses(blocks[b], |blocks[b]|, x))
    && Count(blocks[d], x) == 1
  }

  /** A variable in no block's uses is read or deleted only where it has been defined in the same block. */
  lemma MentionsFollowDefs(block: Block, x: Var, i: int)
    requires 0 <= i < |block| && Mentions(block[i], x) && !InUses(block, |block|, x)
    ensures InDefs(block, i, x)
  {
  }

  /** An assignment that defines nothing reads its own target. */
  lemma AssignsMeansDefined(block: Block, x: Var, i: int)
    requires 0 <= i < |block| && Assigns(block[i], x) && !InUses(block, |block|, x)
    ensures InDefs(block, |block|, x)
  {
    if Reads(block[i], x) {
      MentionsFollowDefs(block, x, i);
    }
  }

  /** The test picks exactly the variables with a single assignment in the whole function that are read and
      deleted only after it in its block. */
  lemma TestIsExact(blocks: seq<Block>, x: Var)
    ensures (exists d :: PassesTest(blocks, x, d)) <==> KeptInBlock(blocks, x)
  {
    if d :| PassesTest(blocks, x, d) {
      PassingIsKept(blocks, x, d);
    }
    if KeptInBlock(blocks, x) {
      var d, a :| KeptInBlockAt(blocks, x, d, a);
      KeptPasses(blocks, x, d, a);
    }
  }

  /** A variable that only a branch reads, deleted at the start of the successors, keeps its slot. */
  lemma BranchVariableKeepsSlot(c: Var, op: Op)
    ensures var blocks := [[Assign(c, op, []), Branch(c, 1, 2)], [Del(c), Jump(2)], [Del(c), Return("r")]];
      c != "r" ==> SinglyAssigned(blocks, c) && forall d :: !PassesTest(blocks, c, d)
  {
    var blocks := [[Assign(c, op, []), Branch(c, 1, 2)], [Del(c), Jump(2)], [Del(c), Return("r")]];
    if c != "r" {
      assert AssignedOnceAt(blocks, c, 0, 0);
      assert At(blocks, 1, 0) && blocks[1][0] == Del(c);
      TestIsExact(blocks, c);
    }
  }

  lemma PassingIsKept(blocks: seq<Block>, x: Var, d: int)
    requires PassesTest(blocks, x, d)
    ensures KeptInBlock(blocks, x)
  {
    var a := CountOne(blocks[d], x);
    forall b, i | At(blocks, b, i) && Assigns(blocks[b][i], x) ensures b == d && i == a {
      AssignsMeansDefined(blocks[b], x, i);
    }
    forall b, i | At(blocks, b, i) && Mentions(blocks[b][i], x) ensures b == d && a < i {
      MentionsFollowDefs(blocks[b], x, i);
    }
    assert forall b, i :: At(blocks, b, i) && Reads(blocks[b][i], x) ==> Mentions(blocks[b][i], x);
    assert forall b, i :: At(blocks, b, i) && blocks[b][i] == Del(x) ==> Mentions(blocks[b][i], x);
    assert KeptInBlockAt(blocks, x, d, a);
  }

  lemma KeptPasses(blocks: seq<Block>, x: Var, d: int, a: int)
    requires KeptInBlockAt(blocks, x, d, a)
    ensures PassesTest(blocks, x, d)
  {
    assert forall b, i :: At(blocks, b, i) <==> 0 <= b < |blocks| && 0 <= i < |blocks[b]|;
    OnlyAtCounts(blocks[d], x, a);
    assert Defines(blocks[d][a], x);
    forall b | 0 <= b < |blocks| ensures !InUses(blocks[b], |blocks[b]|, x) {
      if i :| 0 <= i < |blocks[b]| && Mentions(blocks[b][i], x) && !InDefs(blocks[b], i, x) {
        assert At(blocks, b, i);
      }
    }
  }

  ghost predicate UseDefsOf(blocks: seq<Block>, n: nat, usemap: seq<set<Var>>, defmap: seq<set<Var>>) {
    && |usemap| == |defmap| == n <= |blocks|
    && (forall c, x :: 0 <= c < n ==> (x in usemap[c] <==> InUses(blocks[c], |blocks[c]|, x)))
    && (forall c, x :: 0 <= c < n ==> (x in defmap[c] <==> InDefs(blocks[c], |blocks[c]|, x)))
  }

  lemma TestOnSets(blocks: seq<Block>, usemap: seq<set<Var>>, defmap: seq<set<Var>>, x: Var, d: int)
    requires UseDefsOf(blocks, |blocks|, usemap, defmap)
    ensures PassesTest(blocks, x, d) <==>
      && (set b | 0 <= b < |blocks| && x in defmap[b]) == {d}
      && (set b | 0 <= b < |blocks| && x in usemap[b]) == {}
      && 0 <= d < |blocks| && Count(blocks[d], x) == 1
  {
    var defblks := set b | 0 <= b < |blocks| && x in defmap[b];
    var useblks := set b | 0 <= b < |blocks| && x in usemap[b];
    assert forall b :: b in defblks <==> 0 <= b < |blocks| && InDefs(blocks[b], |blocks[b]|, x);
    assert forall b :: b in useblks <==> 0 <= b < |blocks| && InUses(blocks[b], |blocks[b]|, x);
    if defblks == {d} {
      assert d in defblks;
    }
  }

  /** One block defines the variable, none uses it before defining it, and that block assigns it once. */
  method TestVariable(blocks: seq<Block>, usemap: seq<set<Var>>, defmap: seq<set<Var>>, x: Var) returns (passes: bool)
    requires UseDefsOf(blocks, |blocks|, usemap, defmap)
    ensures passes <==> KeptInBlock(blocks, x)
  {
    TestIsExact(blocks, x);
    var defblks := set b | 0 <= b < |blocks| && x in defmap[b];
    var useblks := set b | 0 <= b < |blocks| && x in usemap[b];
    forall d
      ensures PassesTest(blocks, x, d)
        <==> defblks == {d} && useblks == {} && 0 <= d < |blocks| && Count(blocks[d], x) == 1
    {
      TestOnSets(blocks, usemap, defmap, x, d);
    }
    if |defblks| != 1 || useblks != {} {
      return false;
    }
    var d :| d in defblks;
    assert |defblks - {d}| == 0;
    assert defblks == {d};
    var count := CountAssignments(blocks[d], x);
    passes := count == 1;
  }

  /** Every statement finds its operands lowered: no operand is still a candidate without being bound. */
  predicate Ready(st: Storage, stmts: seq<Stmt>)
    decreases |stmts|
  {
    stmts == [] ||
    ((forall x <- Operands(stmts[0]) :: x in st.singly ==> x in st.local) &&
      Ready(LowerStmt(st, stmts[0]).1, stmts[1..]))
  }

  predicate ReadyBlocks(st: Storage, blocks: seq<Block>)
    decreases |blocks|
  {
    blocks == [] || (Ready(st, blocks[0]) && ReadyBlocks(LowerStmts(st, blocks[0]).1, blocks[1..]))
  }

  lemma {:induction false} AheadIsReady(st: Storage, stmts: seq<Stmt>, tail: seq<Stmt>)
    requires LoweringStorage.Ahead(st, stmts + tail)
    ensures Ready(st, stmts)
    decreases |stmts|
  {
    if stmts != [] {
      LoweringStorage.AheadStep(st, stmts + tail);
      assert (stmts + tail)[1..] == stmts[1..] + tail;
      AheadIsReady(LowerStmt(st, stmts[0]).1, stmts[1..], tail);
      assert forall x <- Operands(stmts[0]) :: Reads((stmts + tail)[0], x);
    }
  }

  lemma {:induction false} AheadIsReadyBlocks(st: Storage, blocks: seq<Block>)
    requires LoweringStorage.Ahead(st, LoweringStorage.Flatten(blocks))
    ensures ReadyBlocks(st, blocks)
    decreases |blocks|
  {
    if blocks != [] {
      AheadIsReady(st, blocks[0], LoweringStorage.Flatten(blocks[1..]));
      LoweringStorage.AheadThrough(st, blocks[0], LoweringStorage.Flatten(blocks[1..]));
      AheadIsReadyBlocks(LowerStmts(st, blocks[0]).1, blocks[1..]);
    }
  }

  lemma NextStmt(st: Storage, code: seq<seq<Instr>>, rest: seq<Stmt>)
    requires rest != [] && Ready(st, rest)
    ensures forall x <- Operands(rest[0]) :: x in st.singly ==> x in st.local
    ensures var (first, st1) := LowerStmt(st, rest[0]);
      && Ready(st1, rest[1..])
      && code + LowerStmts(st, rest).0 == (code + [first]) + LowerStmts(st1, rest[1..]).0
      && LowerStmts(st, rest).1 == LowerStmts(st1, rest[1..]).1
  {
    var (first, st1) := LowerStmt(st, rest[0]);
    assert code + ([first] + LowerStmts(st1, rest[1..]).0) == (code + [first]) + LowerStmts(st1, rest[1..]).0;
  }

  class Lower {
    const debug: bool  // block-local storage is switched off while debug information is emitted
    var singly: set<Var>
    var local: set<Var>
    var varmap: set<Var>
    var emitted: seq<Instr>

    constructor (debug: bool)
      ensures this.debug == debug && singly == local == varmap == {} && emitted == []
    {
      this.debug := debug;
      singly, local, varmap, emitted := {}, {}, {}, [];
    }

    ghost predicate Valid() reads this {
      local <= singly && if debug then local == {} else varmap !! singly
    }

    /** The storage that counts: while debugging, nothing is block-local. */
    ghost function State(): Storage reads this {
      if debug then Storage({}, {}) else Storage(singly, local)
    }

    method FindSinglyAssignedVariable(blocks: seq<Block>, allocaVars: set<Var>, isGenerator: bool)
      modifies this`singly, this`local
      ensures local == {}
      ensures forall x :: x in singly <==> !isGenerator && x !in allocaVars && KeptInBlock(blocks, x)
    {
      singly, local := {}, {};
      if isGenerator { return; }
      var usemap: seq<set<Var>>, defmap: seq<set<Var>> := [], [];
      for b := 0 to |blocks|
        invariant local == {} && UseDefsOf(blocks, b, usemap, defmap)
      {
        var uses, defs := ComputeUseDefs(blocks[b]);
        usemap, defmap := usemap + [uses], defmap + [defs];
      }
      var candidates := set b, x | 0 <= b < |blocks| && x in defmap[b] :: x;
      var sav := {};
      forall x { TestIsExact(blocks, x); }
      while candidates != {}
        invariant local == {}
        invariant forall x :: x in sav ==> x !in allocaVars && KeptInBlock(blocks, x)
        invariant forall x :: x !in allocaVars && KeptInBlock(blocks, x) ==> x in sav || x in candidates
        decreases candidates
      {
        var x :| x in candidates;
        var passes := TestVariable(blocks, usemap, defmap, x);
        if x !in allocaVars && passes {
          sav := sav + {x};
        }
        candidates := candidates - {x};
      }
      singly := sav;
    }

    /** Make sure the variable has a slot, if it needs one. */
    method AllocaVar(name: Var)
      requires Valid()
      modifies this`varmap
      ensures Valid() && old(varmap) <= varmap
      ensures debug || name !in singly ==> name in varmap
    {
      if name in varmap { return; }
      if name !in singly || debug {
        varmap := varmap + {name};
      }
    }

    /** Both assertions of the source hold here, and the slot always exists. */
    method GetVar(name: Var) returns (slot: Operand)
      requires Valid() && name !in State().singly
      modifies this`varmap
      ensures Valid() && old(varmap) <= varmap && slot == Slot(name) && name in varmap
    {
      if !debug {
        assert name !in local;
        assert name !in singly;
      }
      if name !in varmap {
        AllocaVar(name);
      }
      assert name in varmap;
      slot := Slot(name);
    }

    method LoadVar(name: Var) returns (at: Operand)
      requires Valid() && (name in State().singly ==> name in State().local)
      modifies this`varmap
      ensures Valid() && at == OperandFor(State().local, name)
    {
      if name in local && !debug {
        return Local(name);
      }
      at := GetVar(name);
    }

    method StoreVar(name: Var, isArgument: bool)
      requires Valid()
      modifies this`local, this`varmap, this`emitted
      ensures Valid()
      ensures State() ==
        if name in old(State()).singly then old(State()).(local := old(State()).local + {name})
        else old(State())
      ensures emitted == old(emitted) +
        if name in old(State()).singly then [Bind(name)]
        else if isArgument then [Store(name)] else [Decref(Slot(name)), Store(name)]
    {
      AllocaVar(name);
      if name in singly && !debug {
        local := local + {name};
        emitted := emitted + [Bind(name)];
      } else {
        if !isArgument {
          var previous := LoadVar(name);
          emitted := emitted + [Decref(previous)];
        }
        var slot := GetVar(name);
        emitted := emitted + [Store(slot.x)];
      }
    }

    method DelVar(name: Var)
      requires Valid()
      modifies this`singly, this`varmap, this`emitted
      ensures Valid()
      ensures State() ==
        if name in old(State()).local then old(State())
        else old(State()).(singly := old(State()).singly - {name})
      ensures emitted == old(emitted) +
        if name in old(State()).local then [Decref(Local(name))] else [Decref(Slot(name)), StoreNull(name)]
    {
      if name !in local && !debug {
        if name in singly {
          singly := singly - {name};
        }
      }
      AllocaVar(name);
      if name in local && !debug {
        emitted := emitted + [Decref(Local(name))];
      } else {
        var slot := GetVar(name);
        emitted := emitted + [Decref(slot), StoreNull(slot.x)];
      }
    }

    method LoadVars(names: seq<Var>) returns (operands: seq<Operand>)
      requires Valid() && forall x <- names :: x in State().singly ==> x in State().local
      modifies this`varmap
      ensures Valid() && operands == OperandsOf(State().local, names)
    {
      operands := [];
      for i := 0 to |names|
        invariant Valid() && operands == OperandsOf(State().local, names)[..i]
      {
        var at := LoadVar(names[i]);
        operands := operands + [at];
      }
    }

    /** Lower one statement; its operands must have been assigned if they are candidates. */
    method LowerInst(s: Stmt)
      requires Valid() && forall x <- Operands(s) :: x in State().singly ==> x in State().local
      modifies this`singly, this`local, this`varmap, this`emitted
      ensures Valid()
      ensures emitted == old(emitted) + LowerStmt(old(State()), s).0 && State() == LowerStmt(old(State()), s).1
    {
      match s
      case Assign(target, op, args) =>
        var operands := LoadVars(args);
        ghost var before, st := emitted, State();
        emitted := emitted + [Compute(op, operands)];
        StoreVar(target, false);
        assert emitted == before + ([Compute(op, operands)]
          + if target in st.singly then [Bind(target)] else [Decref(Slot(target)), Store(target)]);
      case Argument(target, op) =>
        ghost var before, st := emitted, State();
        emitted := emitted + [Compute(op, [])];
        StoreVar(target, true);
        assert emitted == before + [Compute(op, []), if target in st.singly then Bind(target) else Store(target)];
      case Effect(op, args) =>
        var operands := LoadVars(args);
        emitted := emitted + [Perform(op, operands)];
      case Del(name) =>
        DelVar(name);
      case Jump(to) =>
        emitted := emitted + [Goto(to)];
      case Branch(cond, truebr, falsebr) =>
        var at := LoadVar(cond);
        emitted := emitted + [CondGoto(at, truebr, falsebr)];
      case Return(value) =>
        var at := LoadVar(value);
        emitted := emitted + [Exit(at)];
    }

    method LowerBlock(block: Block) returns (code: seq<seq<Instr>>)
      requires Valid() && Ready(State(), block)
      modifies this`singly, this`local, this`varmap, this`emitted
      ensures Valid() && (code, State()) == LowerStmts(old(State()), block)
    {
      code := [];
      ghost var target := LowerStmts(State(), block);
      ghost var rest := block;
      assert [] + target.0 == target.0;
      for i := 0 to |block|
        invariant Valid() && rest == block[i..] && Ready(State(), rest)
        invariant target == (code + LowerStmts(State(), rest).0, LowerStmts(State(), rest).1)
      {
        NextStmt(State(), code, rest);
        emitted := [];
        ghost var first := LowerStmt(State(), rest[0]).0;
        LowerInst(block[i]);
        assert emitted == first;
        code := code + [emitted];
        rest := rest[1..];
      }
      assert code + [] == code;
    }

    /** Lower the whole function. No assertion on the way can fail, and the code is that of one fixed set
        of block-local variables, all of them candidates at the start; with the candidates that the object
        computes itself, it is that of all of them. */
    method LowerFunctionBody(blocks: seq<Block>) returns (code: seq<seq<seq<Instr>>>)
      requires Valid() && local == {} && forall x <- singly :: SinglyAssigned(blocks, x)
      modifies this`singly, this`local, this`varmap, this`emitted
      ensures Valid() && (code, State()) == LowerBlocks(old(State()), blocks)
      ensures code == StaticProgram(State().local, blocks) && local <= old(singly)
      ensures (forall x <- old(singly) :: KeptInBlock(blocks, x)) ==>
        State() == Storage(old(State()).singly, old(State()).singly)
    {
      LoweringStorage.StorageClassIsFixed(blocks, State().singly);
      LoweringStorage.SinglyAreAhead(blocks, State().singly);
      AheadIsReadyBlocks(State(), blocks);
      if forall x <- singly :: KeptInBlock(blocks, x) {
        LoweringStorage.CandidatesStay(blocks, State().singly);
      }
      code := LowerAllBlocks(blocks);
    }

    method LowerAllBlocks(blocks: seq<Block>) returns (code: seq<seq<seq<Instr>>>)
      requires Valid() && ReadyBlocks(State(), blocks)
      modifies this`singly, this`local, this`varmap, this`emitted
      ensures Valid() && (code, State()) == LowerBlocks(old(State()), blocks)
    {
      code := [];
      ghost var target := LowerBlocks(State(), blocks);
      ghost var rest := blocks;
      assert [] + target.0 == target.0;
      for b := 0 to |blocks|
        invariant Valid() && rest == blocks[b..] && ReadyBlocks(State(), rest)
        invariant target == (code + LowerBlocks(State(), rest).0, LowerBlocks(State(), rest).1)
      {
        var lowered := LowerBlock(blocks[b]);
        ghost var next := LowerBlocks(State(), rest[1..]).0;
        assert code + ([lowered] + next) == (code + [lowered]) + next;
        code := code + [lowered];
        rest := rest[1..];
      }
      assert code + [] == code;
    }
  }
}
