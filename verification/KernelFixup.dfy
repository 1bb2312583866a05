/** Turning a device function that returns a status into a kernel that returns nothing: returns are
    replaced, stores through the return-value pointer are removed, and the pointer argument is dropped. */
module KernelFixup {
  import opened Maps

  type Name = string

  datatype Operand = Arg(a: Name) | Reg(r: Name) | Const(value: int)

  /** `Call` stands for every other instruction; it may read and write memory. */
  datatype Instr =
    | Call(dst: Name, op: string, args: seq<Operand>)
    | Load(dst: Name, ptr: Operand)
    | Store(value: Operand, ptr: Operand)
    | Br(target: nat)
    | CondBr(cond: Operand, then_: nat, else_: nat)
    | Ret(status: Operand)
    | RetVoid
    | CallHelper(status: Operand)

  type Block = seq<Instr>

  predicate IsTerminator(i: Instr) {
    i.Br? || i.CondBr? || i.Ret? || i.RetVoid?
  }

  // ----- the rewrite -----

  /** The new form of an instruction, given the name of the return-value pointer. */
  function FixInstr(i: Instr, ret: Name, debug: bool): seq<Instr> {
    match i
    case Ret(status) => if debug then [CallHelper(status), RetVoid] else [RetVoid]
    case Store(_, ptr) => if ptr == Arg(ret) then [] else [i]
    case _ => [i]
  }

  function FixBlock(block: Block, ret: Name, debug: bool): Block {
    if block == [] then [] else FixInstr(block[0], ret, debug) + FixBlock(block[1..], ret, debug)
  }

  function FixBlocks(blocks: seq<Block>, ret: Name, debug: bool): seq<Block> {
    seq(|blocks|, b requires 0 <= b < |blocks| => FixBlock(blocks[b], ret, debug))
  }

  /** A block as it comes from lowering: one terminator, at its end, and no helper call yet. */
  predicate WellFormedBlock(block: Block) {
    && block != [] && IsTerminator(block[|block| - 1])
    && (forall i :: 0 <= i < |block| - 1 ==> !IsTerminator(block[i]))
    && (forall i :: 0 <= i < |block| ==> !block[i].CallHelper? && !block[i].RetVoid?)
  }

  // ----- running a kernel -----

  datatype Event =
    | Entered(block: nat)
    | Stored(address: int, value: int)
    | Called(op: string, values: seq<int>)
    | StoredReturnValue(value: int)
    | Helper(status: int)
    | Returned(status: int)
    | ReturnedVoid

  datatype Control = Fallthrough | To(block: nat) | Done

  datatype Machine = Machine(
    args: map<Name, int>, regs: map<Name, int>, memory: map<int, int>, trace: seq<Event>, control: Control)

  /** The meaning of the other instructions: the value they yield and the memory they leave. */
  type Meaning = (string, seq<int>, map<int, int>) -> (int, map<int, int>)

  function ValueOf(m: Machine, o: Operand): int {
    match o
    case Arg(a) => Get(m.args, a)
    case Reg(r) => Get(m.regs, r)
    case Const(v) => v
  }

  function ValuesOf(m: Machine, os: seq<Operand>): seq<int> {
    seq(|os|, i requires 0 <= i < |os| => ValueOf(m, os[i]))
  }

  /** The slot behind the return-value pointer belongs to the caller and is no part of the memory the rest
      of the kernel can reach. */
  function Exec(meaning: Meaning, ret: Name, m: Machine, i: Instr): Machine {
    if !m.control.Fallthrough? then m
    else match i
      case Call(dst, op, args) =>
        var (value, memory) := meaning(op, ValuesOf(m, args), m.memory);
        m.(regs := m.regs[dst := value], memory := memory, trace := m.trace + [Called(op, ValuesOf(m, args))])
      case Load(dst, ptr) => m.(regs := m.regs[dst := Get(m.memory, ValueOf(m, ptr))])
      case Store(value, ptr) =>
        if ptr == Arg(ret) then m.(trace := m.trace + [StoredReturnValue(ValueOf(m, value))])
        else m.(memory := m.memory[ValueOf(m, ptr) := ValueOf(m, value)],
                trace := m.trace + [Stored(ValueOf(m, ptr), ValueOf(m, value))])
      case Br(target) => m.(control := To(target))
      case CondBr(cond, t, f) => m.(control := To(if ValueOf(m, cond) != 0 then t else f))
      case Ret(status) => m.(control := Done, trace := m.trace + [Returned(ValueOf(m, status))])
      case RetVoid => m.(control := Done, trace := m.trace + [ReturnedVoid])
      case CallHelper(status) => m.(trace := m.trace + [Helper(ValueOf(m, status))])
  }

  function ExecBlock(meaning: Meaning, ret: Name, m: Machine, block: Block): Machine
    decreases |block|
  {
    if block == [] then m else ExecBlock(meaning, ret, Exec(meaning, ret, m, block[0]), block[1..])
  }

  /** Run up to `fuel` blocks, following the transfers. */
  function RunBlocks(meaning: Meaning, ret: Name, blocks: seq<Block>, m: Machine, fuel: nat): Machine
    decreases fuel
  {
    if fuel == 0 || !m.control.To? || m.control.block >= |blocks| then m
    else
      var b := m.control.block;
      var entered := m.(control := Fallthrough, trace := m.trace + [Entered(b)]);
      RunBlocks(meaning, ret, blocks, ExecBlock(meaning, ret, entered, blocks[b]), fuel - 1)
  }

  function StartMachine(args: map<Name, int>, memory: map<int, int>): Machine {
    Machine(args, map[], memory, [], To(0))
  }

  // ----- the kernel object -----

  datatype Signature = StatusReturning | VoidReturning

  class Kernel {
    var args: seq<Name>
    var blocks: seq<Block>
    var signature: Signature

    constructor (args: seq<Name>, blocks: seq<Block>)
      ensures this.args == args && this.blocks == blocks && signature == StatusReturning
    {
      this.args, this.blocks, signature := args, blocks, StatusReturning;
    }

    /** Replace the return of one block: take the terminator off its end, append the helper call in debug
        mode, then a void return. */
    method ReplaceReturn(b: nat, debug: bool)
      requires b < |blocks| && WellFormedBlock(blocks[b])
      modifies this`blocks
      ensures blocks == old(blocks)[b := WithoutReturn(old(blocks)[b], debug)]
    {
      var block := blocks[b];
      for k := 0 to |block|
        invariant forall j :: 0 <= j < k ==> !block[j].Ret?
        invariant blocks == old(blocks)
      {
        if block[k].Ret? {
          var oldRet := block[|block| - 1];
          var instructions := block[..|block| - 1];
          if debug {
            instructions := instructions + [CallHelper(oldRet.status)];
          }
          instructions := instructions + [RetVoid];
          assert k == |block| - 1 && instructions == WithoutReturn(block, debug);
          blocks := blocks[b := instructions];
          return;
        }
      }
      assert blocks == blocks[b := block];
    }

    /** Find the stores through the return-value pointer first, then remove them one by one. */
    method RemoveReturnStores(b: nat, ret: Name)
      requires b < |blocks|
      modifies this`blocks
      ensures blocks == old(blocks)[b := WithoutStores(old(blocks)[b], ret)]
    {
      var block := blocks[b];
      var removeList := [];
      assert block[..|block|] == block;
      for k := 0 to |block|
        invariant removeList == ReturnStores(block[..k], ret) && blocks == old(blocks)
      {
        ReturnStoresOfSum(block[..k], [block[k]], ret);
        assert block[..k + 1] == block[..k] + [block[k]];
        if block[k].Store? && block[k].ptr == Arg(ret) {
          removeList := removeList + [block[k]];
        }
      }
      var instructions := block;
      for k := 0 to |removeList|
        invariant ReturnStores(instructions, ret) == removeList[k..] && blocks == old(blocks)
        invariant WithoutStores(instructions, ret) == WithoutStores(block, ret)
      {
        instructions := RemoveFirst(instructions, removeList[k], ret);
      }
      NoStoresLeft(instructions, ret);
      blocks := blocks[b := instructions];
    }

    /** The whole rewrite, in its two passes. */
    method Fixup(debug: bool)
      requires args != [] && forall b :: 0 <= b < |blocks| ==> WellFormedBlock(blocks[b])
      modifies this
      ensures blocks == FixBlocks(old(blocks), old(args)[0], debug)
      ensures args == old(args)[1..] && signature == VoidReturning
    {
      ghost var before := blocks;
      for b := 0 to |blocks|
        invariant |blocks| == |before| && args == old(args)
        invariant forall c :: 0 <= c < |blocks| ==>
          blocks[c] == if c < b then WithoutReturn(before[c], debug) else before[c]
      {
        ReplaceReturn(b, debug);
      }
      var returnValue := args[0];
      for b := 0 to |blocks|
        invariant |blocks| == |before| && args == old(args)
        invariant forall c :: 0 <= c < |blocks| ==>
          blocks[c] == if c < b then FixBlock(before[c], returnValue, debug) else WithoutReturn(before[c], debug)
      {
        TwoPasses(before[b], returnValue, debug);
        RemoveReturnStores(b, returnValue);
      }
      signature := VoidReturning;
      args := args[1..];
    }
  }

  // ----- the two passes -----

  function WithoutReturn(block: Block, debug: bool): Block
    requires block != []
  {
    var last := block[|block| - 1];
    if !last.Ret? then block
    else block[..|block| - 1] + if debug then [CallHelper(last.status), RetVoid] else [RetVoid]
  }

  function WithoutStores(block: Block, ret: Name): Block {
    if block == [] then []
    else (if block[0].Store? && block[0].ptr == Arg(ret) then [] else [block[0]]) + WithoutStores(block[1..], ret)
  }

  function ReturnStores(block: Block, ret: Name): seq<Instr> {
    if block == [] then []
    else (if block[0].Store? && block[0].ptr == Arg(ret) then [block[0]] else []) + ReturnStores(block[1..], ret)
  }

  lemma {:induction false} ReturnStoresOfSum(a: Block, b: Block, ret: Name)
    ensures ReturnStores(a + b, ret) == ReturnStores(a, ret) + ReturnStores(b, ret)
    decreases |a|
  {
    if a == [] {
      assert a + b == b;
    } else {
      assert (a + b)[1..] == a[1..] + b;
      ReturnStoresOfSum(a[1..], b, ret);
    }
  }

  lemma {:induction false} NoStoresLeft(block: Block, ret: Name)
    requires ReturnStores(block, ret) == []
    ensures WithoutStores(block, ret) == block
    decreases |block|
  {
    if block != [] {
      NoStoresLeft(block[1..], ret);
    }
  }

  /** Remove the first occurrence of an instruction that heads the list of stores still to go. */
  method RemoveFirst(block: Block, what: Instr, ghost ret: Name) returns (shorter: Block)
    requires ReturnStores(block, ret) != [] && ReturnStores(block, ret)[0] == what
    ensures ReturnStores(shorter, ret) == ReturnStores(block, ret)[1..]
    ensures WithoutStores(shorter, ret) == WithoutStores(block, ret)
  {
    var k := 0;
    FirstStore(block, ret);
    while k < |block| && block[k] != what
      invariant 0 <= k <= |block|
      invariant forall j :: 0 <= j < k ==> block[j] != what
      decreases |block| - k
    {
      k := k + 1;
    }
    RemovingFirst(block, ret, k);
    shorter := block[..k] + block[k + 1..];
  }

  predicate IsReturnStore(i: Instr, ret: Name) {
    i.Store? && i.ptr == Arg(ret)
  }

  lemma {:induction false} FirstStore(block: Block, ret: Name)
    requires ReturnStores(block, ret) != []
    ensures ReturnStores(block, ret)[0] in block && IsReturnStore(ReturnStores(block, ret)[0], ret)
    decreases |block|
  {
    if !IsReturnStore(block[0], ret) {
      FirstStore(block[1..], ret);
    }
  }

  lemma {:induction false} RemovingFirst(block: Block, ret: Name, k: nat)
    requires k < |block| && ReturnStores(block, ret) != [] && block[k] == ReturnStores(block, ret)[0]
    requires forall j :: 0 <= j < k ==> block[j] != block[k]
    requires IsReturnStore(block[k], ret)
    ensures ReturnStores(block[..k] + block[k + 1..], ret) == ReturnStores(block, ret)[1..]
    ensures WithoutStores(block[..k] + block[k + 1..], ret) == WithoutStores(block, ret)
    decreases |block|
  {
    var shorter := block[..k] + block[k + 1..];
    if k == 0 {
      assert shorter == block[1..];
    } else {
      assert !IsReturnStore(block[0], ret);
      assert shorter[0] == block[0] && shorter[1..] == block[1..][..k - 1] + block[1..][k..];
      RemovingFirst(block[1..], ret, k - 1);
    }
  }

  lemma KeepsAll(block: Block, ret: Name)
    requires |block| <= 2 && forall i :: 0 <= i < |block| ==> !IsReturnStore(block[i], ret)
    ensures WithoutStores(block, ret) == block
  {
    if |block| == 2 {
      assert block[1..] == [block[1]] && WithoutStores([block[1]], ret) == [block[1]];
    }
  }

  lemma {:induction false} TwoPasses(block: Block, ret: Name, debug: bool)
    requires WellFormedBlock(block)
    ensures WithoutStores(WithoutReturn(block, debug), ret) == FixBlock(block, ret, debug)
    decreases |block|
  {
    var first := WithoutReturn(block, debug);
    if |block| == 1 {
      KeepsAll(first, ret);
      assert block[..0] == [] && block[1..] == [];
      assert FixBlock(block, ret, debug) == FixInstr(block[0], ret, debug) + [];
    } else {
      assert first[0] == block[0] && first[1..] == WithoutReturn(block[1..], debug);
      TwoPasses(block[1..], ret, debug);
    }
  }

  // ----- the rewrite preserves meaning -----

  /** The return-value pointer appears as the address of stores and nowhere else. */
  predicate OnlyStoreAddress(i: Instr, ret: Name) {
    match i
    case Call(_, _, args) => Arg(ret) !in args
    case Load(_, ptr) => ptr != Arg(ret)
    case Store(value, _) => value != Arg(ret)
    case CondBr(cond, _, _) => cond != Arg(ret)
    case Ret(status) => status != Arg(ret)
    case CallHelper(status) => status != Arg(ret)
    case _ => true
  }

  predicate Mentions(i: Instr, ret: Name) {
    match i
    case Call(_, _, args) => Arg(ret) in args
    case Load(_, ptr) => ptr == Arg(ret)
    case Store(value, ptr) => value == Arg(ret) || ptr == Arg(ret)
    case CondBr(cond, _, _) => cond == Arg(ret)
    case Ret(status) => status == Arg(ret)
    case CallHelper(status) => status == Arg(ret)
    case _ => false
  }

  /** What a status-returning run shows, as the kernel shows it: nothing of the return-value slot, and for
      every return the status handed to the helper in debug mode, then a void return. */
  function AsKernel(trace: seq<Event>, debug: bool): seq<Event> {
    if trace == [] then []
    else
      (match trace[0]
       case StoredReturnValue(_) => []
       case Returned(status) => if debug then [Helper(status), ReturnedVoid] else [ReturnedVoid]
       case e => [e])
      + AsKernel(trace[1..], debug)
  }

  lemma {:induction false} AsKernelOfSum(a: seq<Event>, b: seq<Event>, debug: bool)
    ensures AsKernel(a + b, debug) == AsKernel(a, debug) + AsKernel(b, debug)
    decreases |a|
  {
    if a == [] {
      assert a + b == b;
    } else {
      assert (a + b)[1..] == a[1..] + b;
      AsKernelOfSum(a[1..], b, debug);
    }
  }

  lemma AsKernelOfOne(e: Event, debug: bool)
    ensures AsKernel([e], debug) == match e
      case StoredReturnValue(_) => []
      case Returned(status) => if debug then [Helper(status), ReturnedVoid] else [ReturnedVoid]
      case _ => [e]
  {
    assert [e][1..] == [];
  }

  /** Same place, same registers, same memory, and the trace as the kernel shows it. */
  ghost predicate Mirrors(ret: Name, debug: bool, original: Machine, fixed: Machine) {
    && fixed.control == original.control && fixed.regs == original.regs && fixed.memory == original.memory
    && (forall a :: a != ret ==> Get(fixed.args, a) == Get(original.args, a))
    && fixed.trace == AsKernel(original.trace, debug)
  }

  lemma {:induction false} ExecBlockOfSum(meaning: Meaning, ret: Name, m: Machine, a: Block, b: Block)
    ensures ExecBlock(meaning, ret, m, a + b) == ExecBlock(meaning, ret, ExecBlock(meaning, ret, m, a), b)
    decreases |a|
  {
    if a == [] {
      assert a + b == b;
    } else {
      assert (a + b)[1..] == a[1..] + b;
      ExecBlockOfSum(meaning, ret, Exec(meaning, ret, m, a[0]), a[1..], b);
    }
  }

  lemma OneExec(meaning: Meaning, ret: Name, m: Machine, i: Instr)
    ensures ExecBlock(meaning, ret, m, [i]) == Exec(meaning, ret, m, i)
  {
    assert [i][1..] == [];
  }

  lemma SameOperands(ret: Name, debug: bool, original: Machine, fixed: Machine, os: seq<Operand>)
    requires Mirrors(ret, debug, original, fixed) && Arg(ret) !in os
    ensures ValuesOf(original, os) == ValuesOf(fixed, os)
    ensures forall o <- os :: ValueOf(original, o) == ValueOf(fixed, o)
  {
    forall o <- os ensures ValueOf(original, o) == ValueOf(fixed, o) {
      if o.Arg? {
        assert o.a != ret;
      }
    }
  }

  /** One instruction and its new form keep the two machines in step. */
  lemma InstrMirrors(meaning: Meaning, ret: Name, debug: bool, original: Machine, fixed: Machine, i: Instr)
    requires Mirrors(ret, debug, original, fixed) && OnlyStoreAddress(i, ret) && !i.CallHelper?
    ensures Mirrors(ret, debug, Exec(meaning, ret, original, i),
      ExecBlock(meaning, ret, fixed, FixInstr(i, ret, debug)))
  {
    var t := original.trace;
    match i
    case Call(dst, op, args) =>
      SameOperands(ret, debug, original, fixed, args);
      OneExec(meaning, ret, fixed, i);
      AsKernelOfSum(t, [Called(op, ValuesOf(original, args))], debug);
      AsKernelOfOne(Called(op, ValuesOf(original, args)), debug);
    case Load(dst, ptr) =>
      SameOperands(ret, debug, original, fixed, [ptr]);
      OneExec(meaning, ret, fixed, i);
    case Store(value, ptr) =>
      SameOperands(ret, debug, original, fixed, [value]);
      if ptr == Arg(ret) {
        AsKernelOfSum(t, [StoredReturnValue(ValueOf(original, value))], debug);
        AsKernelOfOne(StoredReturnValue(ValueOf(original, value)), debug);
      } else {
        SameOperands(ret, debug, original, fixed, [ptr]);
        OneExec(meaning, ret, fixed, i);
        AsKernelOfSum(t, [Stored(ValueOf(original, ptr), ValueOf(original, value))], debug);
        AsKernelOfOne(Stored(ValueOf(original, ptr), ValueOf(original, value)), debug);
      }
    case CondBr(cond, _, _) =>
      SameOperands(ret, debug, original, fixed, [cond]);
      OneExec(meaning, ret, fixed, i);
    case Br(_) => OneExec(meaning, ret, fixed, i);
    case RetVoid =>
      OneExec(meaning, ret, fixed, i);
      AsKernelOfSum(t, [ReturnedVoid], debug);
      AsKernelOfOne(ReturnedVoid, debug);
    case Ret(status) =>
      SameOperands(ret, debug, original, fixed, [status]);
      AsKernelOfSum(t, [Returned(ValueOf(original, status))], debug);
      AsKernelOfOne(Returned(ValueOf(original, status)), debug);
      if debug {
        assert [CallHelper(status), RetVoid][1..] == [RetVoid];
        OneExec(meaning, ret, Exec(meaning, ret, fixed, CallHelper(status)), RetVoid);
      } else {
        OneExec(meaning, ret, fixed, RetVoid);
      }
  }

  lemma {:induction false} BlockMirrors(meaning: Meaning, ret: Name, debug: bool, original: Machine, fixed: Machine,
      block: Block)
    requires Mirrors(ret, debug, original, fixed)
    requires forall i :: 0 <= i < |block| ==> OnlyStoreAddress(block[i], ret) && !block[i].CallHelper?
    ensures Mirrors(ret, debug, ExecBlock(meaning, ret, original, block),
      ExecBlock(meaning, ret, fixed, FixBlock(block, ret, debug)))
    decreases |block|
  {
    if block != [] {
      var form := FixInstr(block[0], ret, debug);
      InstrMirrors(meaning, ret, debug, original, fixed, block[0]);
      ExecBlockOfSum(meaning, ret, fixed, form, FixBlock(block[1..], ret, debug));
      BlockMirrors(meaning, ret, debug, Exec(meaning, ret, original, block[0]), ExecBlock(meaning, ret, fixed, form),
        block[1..]);
    }
  }

  ghost predicate UsesOnlyAsAddress(blocks: seq<Block>, ret: Name) {
    forall b, i :: 0 <= b < |blocks| && 0 <= i < |blocks[b]| ==>
      OnlyStoreAddress(blocks[b][i], ret) && !blocks[b][i].CallHelper?
  }

  lemma {:induction false} RunMirrors(
    meaning: Meaning, ret: Name, debug: bool, blocks: seq<Block>, original: Machine, fixed: Machine, fuel: nat)
    requires UsesOnlyAsAddress(blocks, ret) && Mirrors(ret, debug, original, fixed)
    ensures Mirrors(ret, debug, RunBlocks(meaning, ret, blocks, original, fuel),
              RunBlocks(meaning, ret, FixBlocks(blocks, ret, debug), fixed, fuel))
    decreases fuel
  {
    if fuel > 0 && original.control.To? && original.control.block < |blocks| {
      var b := original.control.block;
      AsKernelOfSum(original.trace, [Entered(b)], debug);
      AsKernelOfOne(Entered(b), debug);
      var enteredOriginal := original.(control := Fallthrough, trace := original.trace + [Entered(b)]);
      var enteredFixed := fixed.(control := Fallthrough, trace := fixed.trace + [Entered(b)]);
      BlockMirrors(meaning, ret, debug, enteredOriginal, enteredFixed, blocks[b]);
      RunMirrors(meaning, ret, debug, blocks, ExecBlock(meaning, ret, enteredOriginal, blocks[b]),
        ExecBlock(meaning, ret, enteredFixed, FixBlock(blocks[b], ret, debug)), fuel - 1);
    }
  }

  /** For every kernel, every input and every number of blocks executed, the rewritten kernel, started
      without the return-value pointer, enters the same blocks, makes the same stores to all memory but the
      return-value slot, ends with the same memory, and leaves by a void return where the original returned
      a status, which the helper has just received in debug mode. */
  lemma FixupPreservesMeaning(
    meaning: Meaning, ret: Name, debug: bool, blocks: seq<Block>, args: map<Name, int>, memory: map<int, int>,
    fuel: nat)
    requires UsesOnlyAsAddress(blocks, ret)
    ensures var original := RunBlocks(meaning, ret, blocks, StartMachine(args, memory), fuel);
      var fixed := RunBlocks(meaning, ret, FixBlocks(blocks, ret, debug), StartMachine(args - {ret}, memory), fuel);
      && fixed.trace == AsKernel(original.trace, debug)
      && fixed.memory == original.memory && fixed.control == original.control
  {
    RunMirrors(meaning, ret, debug, blocks, StartMachine(args, memory), StartMachine(args - {ret}, memory), fuel);
  }

  /** An instruction whose new form does not mention the dropped argument: one that is removed, one that
      never used it, and, outside debug mode, a return of it. */
  predicate Forgets(i: Instr, ret: Name, debug: bool) {
    IsReturnStore(i, ret) || (i.Ret? && !debug) || !Mentions(i, ret)
  }

  predicate NeverMentions(block: Block, ret: Name) {
    forall i :: 0 <= i < |block| ==> !Mentions(block[i], ret)
  }

  lemma NeverMentionsSum(a: Block, b: Block, ret: Name)
    ensures NeverMentions(a + b, ret) <==> NeverMentions(a, ret) && NeverMentions(b, ret)
  {
    assert forall i :: 0 <= i < |a| ==> (a + b)[i] == a[i];
    assert forall i :: 0 <= i < |b| ==> (a + b)[|a| + i] == b[i];
  }

  /** The rewritten block is free of the dropped argument exactly when every instruction used it as a store
      address, not at all, or (outside debug mode) as the status returned. */
  lemma {:induction false} NoDanglingUseExactly(block: Block, ret: Name, debug: bool)
    ensures NeverMentions(FixBlock(block, ret, debug), ret)
      <==> forall i :: 0 <= i < |block| ==> Forgets(block[i], ret, debug)
    decreases |block|
  {
    if block != [] {
      var form := FixInstr(block[0], ret, debug);
      NoDanglingUseExactly(block[1..], ret, debug);
      NeverMentionsSum(form, FixBlock(block[1..], ret, debug), ret);
      assert form != [] ==> (NeverMentions(form, ret) ==> !Mentions(form[0], ret));
      assert NeverMentions(form, ret) <==> Forgets(block[0], ret, debug);
      assert (forall i :: 0 <= i < |block| ==> Forgets(block[i], ret, debug))
        <==> Forgets(block[0], ret, debug) && forall i :: 0 <= i < |block[1..]| ==> Forgets(block[1..][i], ret, debug);
    }
  }
}
