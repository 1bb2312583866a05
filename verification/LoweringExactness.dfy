/** Over whole runs, block-local storage reads what slots would exactly when no run comes to a statement
    that reads a block-local variable after its deletion. */
module LoweringExactness {
  import opened Maps
  import opened LoweringModel
  import opened LoweringStorage

  // ----- runs inside one visit of a block -----

  predicate Transfers(s: Stmt) {
    s.Jump? || s.Branch? || s.Return?
  }

  /** A step that executes a statement and goes on to the next one of the block. */
  lemma NextStatement(eval: Eval, blocks: seq<Block>, local: set<Var>, c: Config)
    requires At(blocks, c.block, c.pc) && c.machine.control.Fallthrough?
    ensures var s := blocks[c.block][c.pc];
      var c' := StepConfig(eval, StaticProgram(local, blocks), c);
      var m' := ExecAll(eval, c.machine, StaticCode(local, s));
      && Does(eval, local, s, c.machine, m')
      && c'.machine.trace == m'.trace
      && (Transfers(s) ==> c'.machine.control.Done? || c'.pc == 0)
      && (!Transfers(s) ==> c' == Config(c.block, c.pc + 1, m') && m'.control.Fallthrough?)
  {
    CodeDoes(eval, local, blocks[c.block][c.pc], c.machine);
    hide ExecAll, StaticCode;
  }

  /** Control is settled between statements. */
  lemma {:induction false} ControlSettled(eval: Eval, blocks: seq<Block>, steps: nat)
    ensures !SlotRun(eval, blocks, steps).machine.control.To?
  {
    if steps > 0 {
      var c := SlotRun(eval, blocks, steps - 1);
      ControlSettled(eval, blocks, steps - 1);
      if At(blocks, c.block, c.pc) && c.machine.control.Fallthrough? {
        NextStatement(eval, blocks, {}, c);
      }
      hide ExecAll;
    }
  }

  /** About to execute statement `pc` of block `b`. */
  predicate Arrives(eval: Eval, blocks: seq<Block>, steps: nat, b: nat, pc: nat) {
    var c := SlotRun(eval, blocks, steps);
    At(blocks, b, pc) && c.block == b && c.pc == pc && c.machine.control.Fallthrough?
  }

  /** A statement inside a block is reached only from the one before it, which goes on to it. */
  lemma CameFrom(eval: Eval, blocks: seq<Block>, steps: nat, b: nat, pc: nat)
    requires pc > 0 && Arrives(eval, blocks, steps, b, pc)
    requires steps > 0 && !Arrives(eval, blocks, steps - 1, b, pc)
    ensures Arrives(eval, blocks, steps - 1, b, pc - 1) && !Transfers(blocks[b][pc - 1])
  {
    var c := SlotRun(eval, blocks, steps - 1);
    ControlSettled(eval, blocks, steps - 1);
    if At(blocks, c.block, c.pc) && c.machine.control.Fallthrough? {
      NextStatement(eval, blocks, {}, c);
    }
    hide ExecAll;
  }

  /** The first step at which the run arrives there. */
  ghost predicate FirstArrives(eval: Eval, blocks: seq<Block>, steps: nat, b: nat, pc: nat) {
    Arrives(eval, blocks, steps, b, pc) && forall k: nat :: k < steps ==> !Arrives(eval, blocks, k, b, pc)
  }

  /** Going back through the visit: `back` statements earlier the run was `back` steps earlier. */
  lemma {:induction false} EarlierInVisit(eval: Eval, blocks: seq<Block>, steps: nat, b: nat, pc: nat, back: nat)
    requires FirstArrives(eval, blocks, steps, b, pc) && back <= pc
    ensures back <= steps && FirstArrives(eval, blocks, steps - back, b, pc - back)
    ensures forall k :: pc - back <= k < pc ==> !Transfers(blocks[b][k])
    decreases back
  {
    if back > 0 {
      var n, k := steps - (back - 1), pc - (back - 1);
      EarlierInVisit(eval, blocks, steps, b, pc, back - 1);
      assert n > 0 by { StartIsNotInside(eval, blocks, b, k); }
      CameFrom(eval, blocks, n, b, k);
      OnlyOnce(eval, blocks, n - 1, b, k - 1);
    }
  }

  lemma StartIsNotInside(eval: Eval, blocks: seq<Block>, b: nat, pc: nat)
    requires pc > 0
    ensures !Arrives(eval, blocks, 0, b, pc)
  {
  }

  lemma GoesOn(eval: Eval, blocks: seq<Block>, n: nat, b: nat, pc: nat)
    requires Arrives(eval, blocks, n, b, pc) && !Transfers(blocks[b][pc]) && pc + 1 < |blocks[b]|
    ensures Arrives(eval, blocks, n + 1, b, pc + 1)
  {
    NextStatement(eval, blocks, {}, SlotRun(eval, blocks, n));
    hide ExecAll, StaticCode;
    assert SlotRun(eval, blocks, n + 1) == StepConfig(eval, StaticProgram({}, blocks), SlotRun(eval, blocks, n));
  }

  lemma {:induction false} GoesOnTo(eval: Eval, blocks: seq<Block>, n: nat, b: nat, pc: nat, last: nat)
    requires Arrives(eval, blocks, n, b, pc) && pc <= last < |blocks[b]|
    requires forall k :: pc <= k < last ==> !Transfers(blocks[b][k])
    ensures Arrives(eval, blocks, n + (last - pc), b, last)
    decreases last
  {
    if pc < last {
      GoesOnTo(eval, blocks, n, b, pc, last - 1);
      GoesOn(eval, blocks, n + (last - 1 - pc), b, last - 1);
      hide SlotRun;
    }
  }

  /** If the first arrival at a statement is one step after an arrival at the one before it, that is the
      first arrival there: from an earlier one the run would have gone on earlier. */
  lemma OnlyOnce(eval: Eval, blocks: seq<Block>, n: nat, b: nat, pc: nat)
    requires FirstArrives(eval, blocks, n + 1, b, pc + 1)
    requires Arrives(eval, blocks, n, b, pc) && !Transfers(blocks[b][pc])
    ensures FirstArrives(eval, blocks, n, b, pc)
  {
    hide Arrives;
    forall k: nat | k < n ensures !Arrives(eval, blocks, k, b, pc) {
      if Arrives(eval, blocks, k, b, pc) {
        InsideBlock(eval, blocks, n + 1, b, pc + 1);
        GoesOn(eval, blocks, k, b, pc);
      }
    }
  }

  lemma InsideBlock(eval: Eval, blocks: seq<Block>, n: nat, b: nat, pc: nat)
    requires Arrives(eval, blocks, n, b, pc)
    ensures At(blocks, b, pc)
  {
  }

  // ----- changing what operations return from some point on -----

  /** Like `eval` until `n` events have happened; from then on everything yields 1. */
  function OneFrom(eval: Eval, n: nat): Eval {
    (history, op, values) => if |history| < n then eval(history, op, values) else 1
  }

  lemma {:induction false} NoComputeNoEval(eval: Eval, eval': Eval, m: Machine, code: seq<Instr>)
    requires forall i :: 0 <= i < |code| ==> !code[i].Compute?
    ensures ExecAll(eval, m, code) == ExecAll(eval', m, code)
    decreases |code|
  {
    if code != [] {
      NoComputeNoEval(eval, eval', Exec(eval, m, code[0]), code[1..]);
    }
  }

  lemma SameCodeEffect(eval: Eval, n: nat, local: set<Var>, s: Stmt, m: Machine)
    requires |ExecAll(eval, m, StaticCode(local, s)).trace| <= n
    ensures ExecAll(OneFrom(eval, n), m, StaticCode(local, s)) == ExecAll(eval, m, StaticCode(local, s))
  {
    var code := StaticCode(local, s);
    CodeDoes(eval, local, s, m);
    if s.Assign? || s.Argument? {
      assert |m.trace| < n;
      assert Exec(OneFrom(eval, n), m, code[0]) == Exec(eval, m, code[0]);
      NoComputeNoEval(OneFrom(eval, n), eval, Exec(eval, m, code[0]), code[1..]);
    } else {
      NoComputeNoEval(OneFrom(eval, n), eval, m, code);
    }
  }

  lemma {:induction false} SameUntil(eval: Eval, blocks: seq<Block>, n: nat, steps: nat)
    requires |SlotRun(eval, blocks, steps).machine.trace| <= n
    ensures SlotRun(OneFrom(eval, n), blocks, steps) == SlotRun(eval, blocks, steps)
  {
    if steps > 0 {
      var c := SlotRun(eval, blocks, steps - 1);
      ControlSettled(eval, blocks, steps - 1);
      if At(blocks, c.block, c.pc) && c.machine.control.Fallthrough? {
        var s := blocks[c.block][c.pc];
        NextStatement(eval, blocks, {}, c);
        var m' := ExecAll(eval, c.machine, StaticCode({}, s));
        TraceGrows(eval, {}, s, c.machine, m');
        SameCodeEffect(eval, n, {}, s, c.machine);
      }
      hide ExecAll, StaticCode;
      SameUntil(eval, blocks, n, steps - 1);
    }
  }

  lemma {:induction false} TraceLengthGrows(eval: Eval, blocks: seq<Block>, k: nat, steps: nat)
    requires k <= steps
    ensures |SlotRun(eval, blocks, k).machine.trace| <= |SlotRun(eval, blocks, steps).machine.trace|
    decreases steps
  {
    if k < steps {
      TraceLengthGrows(eval, blocks, k, steps - 1);
      var c := SlotRun(eval, blocks, steps - 1);
      ControlSettled(eval, blocks, steps - 1);
      if At(blocks, c.block, c.pc) && c.machine.control.Fallthrough? {
        NextStatement(eval, blocks, {}, c);
        var s := blocks[c.block][c.pc];
        TraceGrows(eval, {}, s, c.machine, ExecAll(eval, c.machine, StaticCode({}, s)));
      }
      hide ExecAll, StaticCode;
    }
  }

  // ----- a read after deletion shows -----

  /** One visit of a block: after `start` steps statement `born` assigns `x`, then `dropped` deletes it and
      `used` reads it. */
  datatype Visit = Visit(start: nat, block: nat, x: Var, born: nat, dropped: nat, used: nat)

  predicate Within(v: Visit, pc: nat) {
    v.born <= pc <= v.used
  }

  function When(v: Visit, pc: nat): nat {
    if pc < v.born then v.start else v.start + (pc - v.born)
  }

  /** The run first reaches each statement of the visit in turn and has met nothing of the kind before. */
  ghost predicate FirstDirty(eval: Eval, blocks: seq<Block>, local: set<Var>, v: Visit) {
    && v.x in local && v.block < |blocks| && v.born < v.dropped
    && AssignedOnceAt(blocks, v.x, v.block, v.born)
    && ReadAfterDel(blocks[v.block], v.x, v.dropped, v.used)
    && (forall pc: nat :: Within(v, pc) ==> Arrives(eval, blocks, When(v, pc), v.block, pc))
    && (forall pc: nat :: Within(v, pc) && pc < v.used ==> !Transfers(blocks[v.block][pc]))
    && forall k: nat :: k < When(v, v.used) ==> VisitsClean(eval, blocks, local, k)
  }

  ghost function DirtyVisits(eval: Eval, blocks: seq<Block>, local: set<Var>): iset<Visit> {
    iset v: Visit | FirstDirty(eval, blocks, local, v)
  }

  /** Operations that yield 1 from the assignment on. */
  function OneInVisit(eval: Eval, blocks: seq<Block>, v: Visit): Eval {
    OneFrom(eval, |SlotRun(eval, blocks, v.start).machine.trace|)
  }

  lemma VisitArrives(eval: Eval, blocks: seq<Block>, local: set<Var>, v: Visit)
    requires v in DirtyVisits(eval, blocks, local)
    ensures Within(v, v.born) && Arrives(eval, blocks, v.start, v.block, v.born)
  {
    assert Within(v, v.born);
  }

  lemma ArrivesAlike(eval: Eval, eval': Eval, blocks: seq<Block>, n: nat, b: nat, pc: nat)
    requires Arrives(eval, blocks, n, b, pc) && SlotRun(eval', blocks, n) == SlotRun(eval, blocks, n)
    ensures Arrives(eval', blocks, n, b, pc)
  {
  }

  lemma VisitStarts(eval: Eval, blocks: seq<Block>, local: set<Var>, v: Visit)
    requires v in DirtyVisits(eval, blocks, local)
    ensures Within(v, v.born) && Arrives(OneInVisit(eval, blocks, v), blocks, v.start, v.block, v.born)
  {
    VisitArrives(eval, blocks, local, v);
    hide DirtyVisits, Arrives, SlotRun;
    SameUntil(eval, blocks, |SlotRun(eval, blocks, v.start).machine.trace|, v.start);
    ArrivesAlike(eval, OneInVisit(eval, blocks, v), blocks, v.start, v.block, v.born);
  }

  lemma NothingTransfers(eval: Eval, blocks: seq<Block>, local: set<Var>, v: Visit)
    requires v in DirtyVisits(eval, blocks, local)
    ensures v.block < |blocks| && v.born < v.used < |blocks[v.block]|
    ensures forall k :: v.born <= k < v.used ==> !Transfers(blocks[v.block][k])
  {
    forall k: nat | v.born <= k < v.used ensures !Transfers(blocks[v.block][k]) {
      assert Within(v, k);
    }
  }

  /** With these the same visit is made. */
  lemma VisitRepeats(eval: Eval, blocks: seq<Block>, local: set<Var>, v: Visit, pc: nat)
    requires v in DirtyVisits(eval, blocks, local) && Within(v, pc)
    ensures Arrives(OneInVisit(eval, blocks, v), blocks, When(v, pc), v.block, pc)
  {
    VisitStarts(eval, blocks, local, v);
    NothingTransfers(eval, blocks, local, v);
    SameVisit(OneInVisit(eval, blocks, v), blocks, v, pc);
  }

  lemma SameVisit(one: Eval, blocks: seq<Block>, v: Visit, pc: nat)
    requires Arrives(one, blocks, v.start, v.block, v.born) && Within(v, pc) && v.used < |blocks[v.block]|
    requires forall k :: v.born <= k < v.used ==> !Transfers(blocks[v.block][k])
    ensures Arrives(one, blocks, When(v, pc), v.block, pc)
  {
    GoesOnTo(one, blocks, v.start, v.block, v.born, pc);
  }

  /** And nothing deleted is read before the read either. */
  lemma StillClean(eval: Eval, blocks: seq<Block>, local: set<Var>, v: Visit, k: nat)
    requires v in DirtyVisits(eval, blocks, local) && k < v.start + (v.used - v.born)
    ensures VisitsClean(OneInVisit(eval, blocks, v), blocks, local, k)
  {
    assert VisitsClean(eval, blocks, local, k);
    if k <= v.start {
      TraceLengthGrows(eval, blocks, k, v.start);
      SameUntil(eval, blocks, |SlotRun(eval, blocks, v.start).machine.trace|, k);
    } else {
      var pc := v.born + (k - v.start);
      assert Within(v, pc) && When(v, pc) == k;
      VisitRepeats(eval, blocks, local, v, pc);
      assert Arrives(eval, blocks, k, v.block, pc);
    }
  }

  /** So both lowerings make the visit, in step. */
  lemma BothVisit(eval: Eval, blocks: seq<Block>, local: set<Var>, v: Visit, pc: nat)
    requires v in DirtyVisits(eval, blocks, local) && Within(v, pc)
    requires forall y <- local :: SinglyAssigned(blocks, y)
    ensures var eval' := OneInVisit(eval, blocks, v);
      var slotted, mixed := SlotRun(eval', blocks, When(v, pc)), MixedRun(eval', blocks, local, When(v, pc));
      && Arrives(eval', blocks, When(v, pc), v.block, pc)
      && mixed.block == v.block && mixed.pc == pc && mixed.machine.control.Fallthrough?
      && mixed.machine.trace == slotted.machine.trace
  {
    var eval' := OneInVisit(eval, blocks, v);
    VisitRepeats(eval, blocks, local, v, pc);
    forall p: nat | p < When(v, pc) ensures VisitsClean(eval', blocks, local, p) {
      StillClean(eval, blocks, local, v, p);
    }
    hide SlotRun, MixedRun, VisitsClean;
    RunsAgreeUntil(eval', blocks, local, When(v, pc));
  }

  lemma LengthReached(eval: Eval, blocks: seq<Block>, local: set<Var>, v: Visit, pc: nat)
    requires v in DirtyVisits(eval, blocks, local) && Within(v, pc)
    ensures var eval' := OneInVisit(eval, blocks, v);
      |SlotRun(eval', blocks, When(v, pc)).machine.trace| >= |SlotRun(eval, blocks, v.start).machine.trace|
  {
    SameUntil(eval, blocks, |SlotRun(eval, blocks, v.start).machine.trace|, v.start);
    TraceLengthGrows(OneInVisit(eval, blocks, v), blocks, v.start, When(v, pc));
    hide SlotRun;
  }

  /** The block-local value is 1 and, after the deletion, the slot is 0. */
  ghost predicate ApartAt(one: Eval, blocks: seq<Block>, local: set<Var>, v: Visit, n: nat, pc: nat) {
    && Get(MixedRun(one, blocks, local, n).machine.locals, v.x) == 1
    && (pc > v.dropped ==> Get(SlotRun(one, blocks, n).machine.slots, v.x) == 0)
  }

  /** Both runs are about to execute this statement of the visit, and operations yield 1 by now. */
  ghost predicate InVisit(one: Eval, blocks: seq<Block>, local: set<Var>, v: Visit, n: nat, pc: nat) {
    var mixed := MixedRun(one, blocks, local, n);
    && Arrives(one, blocks, n, v.block, pc) && At(blocks, v.block, pc)
    && mixed.block == v.block && mixed.pc == pc && mixed.machine.control.Fallthrough?
    && v.x in local && v.born < v.dropped && v.born <= pc && !Transfers(blocks[v.block][pc])
    && (Assigns(blocks[v.block][pc], v.x) <==> pc == v.born)
    && (pc == v.dropped ==> blocks[v.block][pc] == Del(v.x))
    && forall op, values :: one(mixed.machine.trace, op, values) == 1
  }

  lemma ApartStep(one: Eval, blocks: seq<Block>, local: set<Var>, v: Visit, n: nat, pc: nat)
    requires InVisit(one, blocks, local, v, n, pc)
    requires pc == v.born || ApartAt(one, blocks, local, v, n, pc)
    ensures ApartAt(one, blocks, local, v, n + 1, pc + 1)
  {
    BothStep(one, blocks, local, n, v.block, pc);
    hide SlotRun, MixedRun, Arrives, Does, ExecAll, StaticCode, Get;
    OneLater(one, local, blocks[v.block][pc], SlotRun(one, blocks, n).machine, SlotRun(one, blocks, n + 1).machine,
      MixedRun(one, blocks, local, n).machine, MixedRun(one, blocks, local, n + 1).machine, v.x);
  }

  lemma VisitIsInVisit(eval: Eval, blocks: seq<Block>, local: set<Var>, v: Visit, pc: nat)
    requires v in DirtyVisits(eval, blocks, local) && Within(v, pc) && pc < v.used
    requires forall y <- local :: SinglyAssigned(blocks, y)
    ensures InVisit(OneInVisit(eval, blocks, v), blocks, local, v, When(v, pc), pc)
  {
    StatementsOfVisit(eval, blocks, local, v, pc);
    BothVisit(eval, blocks, local, v, pc);
    LengthReached(eval, blocks, local, v, pc);
    hide DirtyVisits, SlotRun, MixedRun, Arrives;
  }

  /** So it is from the assignment to the read. */
  lemma {:induction false} ApartInVisit(eval: Eval, blocks: seq<Block>, local: set<Var>, v: Visit, pc: nat)
    requires v in DirtyVisits(eval, blocks, local) && v.born < pc <= v.used
    requires forall y <- local :: SinglyAssigned(blocks, y)
    ensures ApartAt(OneInVisit(eval, blocks, v), blocks, local, v, v.start + (pc - v.born), pc)
    decreases pc
  {
    hide DirtyVisits, ApartAt, InVisit, OneInVisit, SinglyAssigned;
    if pc - 1 > v.born {
      ApartInVisit(eval, blocks, local, v, pc - 1);
    }
    VisitIsInVisit(eval, blocks, local, v, pc - 1);
    ApartStep(OneInVisit(eval, blocks, v), blocks, local, v, v.start + (pc - 1 - v.born), pc - 1);
  }

  lemma StatementsOfVisit(eval: Eval, blocks: seq<Block>, local: set<Var>, v: Visit, pc: nat)
    requires v in DirtyVisits(eval, blocks, local) && Within(v, pc) && pc < v.used
    ensures At(blocks, v.block, pc) && v.x in local && !Transfers(blocks[v.block][pc])
    ensures Assigns(blocks[v.block][pc], v.x) <==> pc == v.born
    ensures pc == v.dropped ==> blocks[v.block][pc] == Del(v.x)
    ensures v.born < v.dropped < v.used && v.born <= pc
    ensures OneInVisit(eval, blocks, v) == OneFrom(eval, |SlotRun(eval, blocks, v.start).machine.trace|)
  {
    assert At(blocks, v.block, pc);
  }

  /** One statement executed by both. */
  lemma BothStep(eval: Eval, blocks: seq<Block>, local: set<Var>, n: nat, b: nat, pc: nat)
    requires Arrives(eval, blocks, n, b, pc)
    requires var mixed := MixedRun(eval, blocks, local, n);
      mixed.block == b && mixed.pc == pc && mixed.machine.control.Fallthrough?
    ensures var slotted, mixed := SlotRun(eval, blocks, n).machine, MixedRun(eval, blocks, local, n).machine;
      var slotted', mixed' := SlotRun(eval, blocks, n + 1).machine, MixedRun(eval, blocks, local, n + 1).machine;
      var s := blocks[b][pc];
      var m', k' := ExecAll(eval, slotted, StaticCode({}, s)), ExecAll(eval, mixed, StaticCode(local, s));
      && Does(eval, {}, s, slotted, m') && Does(eval, local, s, mixed, k')
      && slotted'.trace == m'.trace && mixed'.trace == k'.trace
      && (!Transfers(s) ==> slotted' == m' && mixed' == k')
  {
    NextStatement(eval, blocks, {}, SlotRun(eval, blocks, n));
    NextStatement(eval, blocks, local, MixedRun(eval, blocks, local, n));
    hide ExecAll, StaticCode, Does;
  }

  lemma OneLater(
    one: Eval, local: set<Var>, s: Stmt, slotted: Machine, slotted': Machine, mixed: Machine, mixed': Machine, x: Var)
    requires Does(one, {}, s, slotted, slotted') && Does(one, local, s, mixed, mixed') && x in local
    requires forall op, values :: one(mixed.trace, op, values) == 1
    requires Assigns(s, x) || Get(mixed.locals, x) == 1
    ensures Get(mixed'.locals, x) == 1
    ensures s == Del(x) || (!Assigns(s, x) && Get(slotted.slots, x) == 0) ==> Get(slotted'.slots, x) == 0
  {
    hide ValuesOf, OperandsOf;
  }

  /** Runs that agree so far and are about to read different values of `x`. */
  ghost predicate ReadsApart(one: Eval, blocks: seq<Block>, local: set<Var>, n: nat, b: nat, pc: nat, x: Var) {
    var slotted, mixed := SlotRun(one, blocks, n), MixedRun(one, blocks, local, n);
    && Arrives(one, blocks, n, b, pc) && Reads(blocks[b][pc], x) && x in local
    && mixed.block == b && mixed.pc == pc && mixed.machine.control.Fallthrough?
    && mixed.machine.trace == slotted.machine.trace
    && Get(slotted.machine.slots, x) != Get(mixed.machine.locals, x)
  }

  lemma DifferentAt(one: Eval, blocks: seq<Block>, local: set<Var>, n: nat, b: nat, pc: nat, x: Var)
    requires ReadsApart(one, blocks, local, n, b, pc, x)
    ensures !TracesAgree(blocks, local)
  {
    var slotted, mixed, s := SlotRun(one, blocks, n).machine, MixedRun(one, blocks, local, n).machine, blocks[b][pc];
    BothStep(one, blocks, local, n, b, pc);
    var p :| 0 <= p < |Operands(s)| && Operands(s)[p] == x;
    hide SlotRun, MixedRun, Does, ExecAll, StaticCode, Get, Arrives;
    DifferentReadsShow(one, local, s, p, slotted, mixed,
      ExecAll(one, slotted, StaticCode({}, s)), ExecAll(one, mixed, StaticCode(local, s)));
    assert SlotRun(one, blocks, n + 1).machine.trace != MixedRun(one, blocks, local, n + 1).machine.trace;
  }

  lemma VisitReadsApart(eval: Eval, blocks: seq<Block>, local: set<Var>, v: Visit)
    requires v in DirtyVisits(eval, blocks, local)
    requires forall y <- local :: SinglyAssigned(blocks, y)
    ensures ReadsApart(OneInVisit(eval, blocks, v), blocks, local, When(v, v.used), v.block, v.used, v.x)
  {
    ReadOfVisit(eval, blocks, local, v);
    BothVisit(eval, blocks, local, v, v.used);
    ApartInVisit(eval, blocks, local, v, v.used);
    hide DirtyVisits, SlotRun, MixedRun, Get, Arrives, OneInVisit, SinglyAssigned;
  }

  /** These operations then tell the two lowerings apart at the read. */
  lemma DirtyShows(eval: Eval, blocks: seq<Block>, local: set<Var>, v: Visit)
    requires v in DirtyVisits(eval, blocks, local)
    requires forall y <- local :: SinglyAssigned(blocks, y)
    ensures !TracesAgree(blocks, local)
  {
    hide DirtyVisits, ReadsApart, TracesAgree, SinglyAssigned;
    VisitReadsApart(eval, blocks, local, v);
    DifferentAt(OneInVisit(eval, blocks, v), blocks, local, When(v, v.used), v.block, v.used, v.x);
  }

  lemma ReadOfVisit(eval: Eval, blocks: seq<Block>, local: set<Var>, v: Visit)
    requires v in DirtyVisits(eval, blocks, local)
    ensures Within(v, v.used) && v.born < v.dropped < v.used && v.x in local
    ensures At(blocks, v.block, v.used) && Reads(blocks[v.block][v.used], v.x)
  {
  }

  // ----- the exact condition -----

  ghost predicate TracesAgree(blocks: seq<Block>, local: set<Var>) {
    forall eval: Eval, steps: nat ::
      SlotRun(eval, blocks, steps).machine.trace == MixedRun(eval, blocks, local, steps).machine.trace
  }

  ghost predicate AllVisitsClean(blocks: seq<Block>, local: set<Var>) {
    forall eval: Eval, steps: nat :: VisitsClean(eval, blocks, local, steps)
  }

  lemma {:induction false} FirstUnclean(eval: Eval, blocks: seq<Block>, local: set<Var>, steps: nat) returns (n: nat)
    requires !VisitsClean(eval, blocks, local, steps)
    ensures n <= steps && !VisitsClean(eval, blocks, local, n)
    ensures forall k: nat :: k < n ==> VisitsClean(eval, blocks, local, k)
  {
    if k: nat :| k < steps && !VisitsClean(eval, blocks, local, k) {
      n := FirstUnclean(eval, blocks, local, k);
    } else {
      n := steps;
    }
  }

  /** For every program and every choice of singly assigned variables to keep block-local: the two lowerings
      read the same values in every run, whatever the operations do, if and only if no run comes to a
      statement that reads one of the variables after deleting it. */
  lemma WholeRunsAgreeExactly(blocks: seq<Block>, local: set<Var>)
    requires forall x <- local :: SinglyAssigned(blocks, x)
    ensures TracesAgree(blocks, local) <==> AllVisitsClean(blocks, local)
  {
    if AllVisitsClean(blocks, local) {
      forall eval: Eval, steps: nat
        ensures SlotRun(eval, blocks, steps).machine.trace == MixedRun(eval, blocks, local, steps).machine.trace
      {
        RunsAgreeUntil(eval, blocks, local, steps);
      }
    } else {
      var eval: Eval, steps: nat :| !VisitsClean(eval, blocks, local, steps);
      var n := FirstUnclean(eval, blocks, local, steps);
      UncleanIsDirty(eval, blocks, local, n);
    }
  }

  lemma UncleanIsDirty(eval: Eval, blocks: seq<Block>, local: set<Var>, n: nat)
    requires !VisitsClean(eval, blocks, local, n)
    requires forall k: nat :: k < n ==> VisitsClean(eval, blocks, local, k)
    requires forall x <- local :: SinglyAssigned(blocks, x)
    ensures !TracesAgree(blocks, local)
  {
    var c := SlotRun(eval, blocks, n);
    ControlSettled(eval, blocks, n);
    FirstThere(eval, blocks, local, n);
    var x, a, i := DeletedBefore(blocks, local, c.block, c.pc);
    DirtyVisit(eval, blocks, local, n, c.block, c.pc, x, a, i);
    hide DirtyVisits;
    DirtyShows(eval, blocks, local, Visit(n - (c.pc - a), c.block, x, a, i, c.pc));
  }

  lemma FirstThere(eval: Eval, blocks: seq<Block>, local: set<Var>, n: nat)
    requires !VisitsClean(eval, blocks, local, n)
    requires forall k: nat :: k < n ==> VisitsClean(eval, blocks, local, k)
    ensures var c := SlotRun(eval, blocks, n);
      && At(blocks, c.block, c.pc) && !CleanAt(blocks, local, c.block, c.pc)
      && FirstArrives(eval, blocks, n, c.block, c.pc)
  {
    hide CleanAt, SlotRun;
    var c := SlotRun(eval, blocks, n);
    ControlSettled(eval, blocks, n);
    forall k: nat | k < n ensures !Arrives(eval, blocks, k, c.block, c.pc) {
      assert VisitsClean(eval, blocks, local, k);
    }
  }

  lemma DeletedBefore(blocks: seq<Block>, local: set<Var>, b: nat, pc: nat) returns (x: Var, a: nat, i: nat)
    requires At(blocks, b, pc) && !CleanAt(blocks, local, b, pc) && forall x <- local :: SinglyAssigned(blocks, x)
    ensures x in local && a < i && AssignedOnceAt(blocks, x, b, a) && ReadAfterDel(blocks[b], x, i, pc)
  {
    var y, k :| y in local && ReadAfterDel(blocks[b], y, k, pc);
    var d, e :| AssignedOnceAt(blocks, y, d, e);
    assert At(blocks, b, pc) && Reads(blocks[b][pc], y);
    x, a, i := y, e, k;
  }

  lemma DirtyVisit(
    eval: Eval, blocks: seq<Block>, local: set<Var>, n: nat, b: nat, pc: nat, x: Var, a: nat, i: nat)
    requires b < |blocks| && x in local && a < i && AssignedOnceAt(blocks, x, b, a)
    requires ReadAfterDel(blocks[b], x, i, pc) && FirstArrives(eval, blocks, n, b, pc)
    requires forall k: nat :: k < n ==> VisitsClean(eval, blocks, local, k)
    ensures pc - a <= n && Visit(n - (pc - a), b, x, a, i, pc) in DirtyVisits(eval, blocks, local)
  {
    hide VisitsClean, AssignedOnceAt, SlotRun, Arrives;
    EarlierInVisit(eval, blocks, n, b, pc, pc - a);
    var v := Visit(n - (pc - a), b, x, a, i, pc);
    forall k: nat | Within(v, k) ensures Arrives(eval, blocks, When(v, k), v.block, k) {
      EarlierInVisit(eval, blocks, n, b, pc, pc - k);
    }
    assert FirstDirty(eval, blocks, local, v);
  }

  /** For instance: make an object, delete it, use it. */
  lemma UseAfterDelDiffers(make: Op, use: Op)
    ensures var blocks: seq<Block> := [[Assign("x", make, []), Del("x"), Effect(use, ["x"])]];
      KeptInBlock(blocks, "x") && !TracesAgree(blocks, {"x"})
  {
    var block: Block := [Assign("x", make, []), Del("x"), Effect(use, ["x"])];
    var blocks := [block];
    assert KeptInBlockAt(blocks, "x", 0, 0);
    assert AssignedOnceAt(blocks, "x", 0, 0);
    assert ReadAfterDel(block, "x", 1, 2);
    assert !CleanAt(blocks, {"x"}, 0, 2);
    assert Arrives(One(), blocks, 0, 0, 0);
    GoesOn(One(), blocks, 0, 0, 0);
    GoesOn(One(), blocks, 1, 0, 1);
    assert !VisitsClean(One(), blocks, {"x"}, 2);
    hide VisitsClean;
    WholeRunsAgreeExactly(blocks, {"x"});
  }
}
