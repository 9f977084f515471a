/** Compiled code follows the stack machine through the instructions of one function. */
module Simulation {
  import opened Rv64
  import opened Bytecode
  import opened Lowering
  import opened Worklist
  import opened Linking
  import opened Operators
  import opened Blocks
  import opened Steps
  import opened Relation

  // -------------------------------------------------------- steps without a call

  /** Instructions that only work on the operand stack. */
  ghost predicate OperandsOnly(inst: Inst) {
    inst.Const? || inst.Line? || inst.Drop? || inst.Dup? || inst.Swap? || inst.Binop? || inst.Load?
  }

  /** New registers and memory that differ in the operand slots only hold the activation with new operands. */
  lemma FrameWithOperands(env: Env, act: Activation, c: Cpu, d: Cpu, ip: nat, ops: seq<Int64>)
    requires FrameOk(env, act, c, c) && OnlySlots(c, d) && SlotsHold(d, ops)
    ensures FrameOk(env, act.(ip := ip, operands := ops), d, d)
    ensures d.Get(FP) == c.Get(FP) && d.Get(RA) == c.Get(RA)
  {
    hide Cpu.Get;
    SlotFacts();
    ListFacts();
    SameReads(c, d);
  }

  /** A chunk of plain code that leaves the new operands in their slots is followed by the related state. */
  lemma LocalStep(p: Program, g: nat, w: Work, r: set<nat>, env: Env, c: Config, s: State, ws: seq<Waiting>, k: nat,
                  ops: seq<Int64>, code: seq<Op>)
    requires Covered(p, g, w, r) && Related(p, g, w, r, env, c, s, ws, k)
    requires Goto(p, c, c.active.ip + 1, ops).Running? && !Terminator(p[c.active.ip].inst)
    requires LoweredAt(p, g, w.chunks[k]) == Done(code, |ops|, w.chunks[k].frame)
    requires AllPlain(code) && OnlySlots(s.cpu, Exec(code, s.cpu)) && SlotsHold(Exec(code, s.cpu), ops)
    ensures var c', t := Goto(p, c, c.active.ip + 1, ops).config,
            State(Position(p, g, w.chunks, k + 1), Exec(code, s.cpu));
            Runs(Listing(p, g, w.chunks), s, t) && Related(p, g, w, r, env, c', t, ws, k + 1)
  {
    hide Listing, Exec, Runs, SlotsHold, OnlySlots, CallersOk, FrameOk, Position, LoweredAt, GlobalsHold, Untouched,
         Covered;
    var d := Exec(code, s.cpu);
    assert code + [] == code;
    RunsInto(p, g, w, k, code, [], s.cpu);
    NextChunk(p, g, w, r, k);
    FrameWithOperands(env, c.active, s.cpu, d, c.active.ip + 1, ops);
    MemoryKept(p, g, w, r, env, c, s.cpu, d, ws);
  }

  /** Equal memories keep everything that is said about memory alone. */
  lemma MemoryKept(p: Program, g: nat, w: Work, r: set<nat>, env: Env, c: Config, m: Cpu, m': Cpu, ws: seq<Waiting>)
    requires OnlySlots(m, m')
    requires CallersOk(p, g, w, r, env, c.callers, ws, |c.active.locals|, m.Get(FP), m.Get(RA), m)
    ensures CallersOk(p, g, w, r, env, c.callers, ws, |c.active.locals|, m.Get(FP), m.Get(RA), m')
    ensures GlobalsHold(env, c.globals, m) ==> GlobalsHold(env, c.globals, m')
    ensures Untouched(env, m) ==> Untouched(env, m')
  {
    hide CallersOk;
    SameReads(m, m');
    CallersKept(p, g, w, r, env, c.callers, ws, |c.active.locals|, m.Get(FP), m.Get(RA), m, m');
  }

  /** The code of an instruction without control flow computes the operands of the next configuration. */
  ghost predicate Computes(l: Lowered, frame: Option<Frame>, cpu: Cpu, ops: seq<Int64>) {
    && l.Lowered? && l == Done(l.code, |ops|, frame)
    && AllPlain(l.code) && OnlySlots(cpu, Exec(l.code, cpu)) && SlotsHold(Exec(l.code, cpu), ops)
  }

  lemma LoadComputes(p: Program, g: nat, env: Env, c: Config, cpu: Cpu, place: Place, index: nat, frame: Option<Frame>)
    requires EnvOk(env, g) && FrameOk(env, c.active, cpu, cpu) && GlobalsHold(env, c.globals, cpu) && |c.globals| == g
    requires Fetch(c, place, index).Some? && |c.active.operands| < |SLOTS| && 8 * index < 2048
    requires LowerLoad(place, index, |c.active.operands|, frame, g).Lowered?
    ensures Computes(LowerLoad(place, index, |c.active.operands|, frame, g), frame, cpu,
                     c.active.operands + [Fetch(c, place, index).value])
  {
    hide Exec, SlotSet, LoadCode, OnlySlots, Cpu.Get, Cpu.Read, AllPlain;
    var ops, n := c.active.operands, |c.active.operands|;
    var code := LowerLoad(place, index, n, frame, g).code;
    match place {
      case Global =>
        LoadBlock(GP, index * WORD_SIZE, n, cpu);
        assert cpu.Read(env.globals + 8 * index) == c.globals[index];
      case Local =>
        LoadBlock(FP, -WORD_SIZE * index, n, cpu);
      case Argument =>
        ListFacts();
        InRegisters(Add, Addi, false, 0, SLOTS[n], A0 + index, A0 + index);
        CopyBlock(A0 + index, n, cpu);
      case Captured =>
    }
    SetHolds(cpu, Exec(code, cpu), ops, Fetch(c, place, index).value);
  }

  lemma NoneComputes(frame: Option<Frame>, cpu: Cpu, ops: seq<Int64>)
    requires SlotsHold(cpu, ops)
    ensures Computes(Done([], |ops|, frame), frame, cpu, ops)
  {
    NothingToDo(cpu);
  }

  lemma SetComputes(frame: Option<Frame>, cpu: Cpu, code: seq<Op>, ops: seq<Int64>, v: Int64)
    requires SlotsHold(cpu, ops) && |ops| < |SLOTS| && AllPlain(code) && SlotSet(cpu, Exec(code, cpu), |ops|, v)
    ensures Computes(Done(code, |ops| + 1, frame), frame, cpu, ops + [v])
  {
    hide Exec, SlotsHold, OnlySlots, SlotSet, AllPlain;
    SetHolds(cpu, Exec(code, cpu), ops, v);
  }

  lemma OperandsCompute(p: Program, g: nat, c: Config, cpu: Cpu, chunk: Chunk)
    requires c.active.ip < |p| && chunk.index == c.active.ip && chunk.height == |c.active.operands| && InScope(p, chunk)
    requires OperandsOnly(p[c.active.ip].inst) && !p[c.active.ip].inst.Load?
    requires SlotsHold(cpu, c.active.operands) && Next(p, c).Running? && OperandsAgree(p, c)
    ensures var ops := Next(p, c).config.active.operands;
            && Next(p, c) == Goto(p, c, c.active.ip + 1, ops)
            && Computes(LoweredAt(p, g, chunk), chunk.frame, cpu, ops)
  {
    hide Exec, SlotsHold, SlotSet, OnlySlots, AllPlain, Computes, ConstCode, BinopCode, SwapCode, Narrow, Infix,
         CompiledValue, WordsAgree, Box, Slot, Move;
    var ops, n := c.active.operands, |c.active.operands|;
    SlotCount(cpu, ops);
    match p[c.active.ip].inst
    case Const(v) =>
      ConstBlock(n, v, cpu);
      SetComputes(chunk.frame, cpu, ConstCode(n, Narrow(2 * v + 1)), ops, Box(v));
    case Line(_) => NoneComputes(chunk.frame, cpu, ops);
    case Drop =>
      FewerHold(cpu, ops, n - 1);
      NoneComputes(chunk.frame, cpu, ops[..n - 1]);
    case Dup => DupComputes(chunk.frame, cpu, ops);
    case Swap =>
      SwapBlock(ops, cpu);
      BlockComputes(chunk.frame, cpu, SwapCode(n), ops[..n - 2] + [ops[n - 1], ops[n - 2]]);
    case Binop(op) =>
      BinopExact(op, ops[n - 2], ops[n - 1]);
      BinopBlock(op, ops, cpu);
      BlockComputes(chunk.frame, cpu, BinopCode(op, n), ops[..n - 2] + [CompiledValue(op, ops[n - 2], ops[n - 1])]);
  }

  lemma SlotCount(cpu: Cpu, ops: seq<Int64>)
    requires SlotsHold(cpu, ops)
    ensures |ops| <= |SLOTS|
  {
  }

  lemma DupComputes(frame: Option<Frame>, cpu: Cpu, ops: seq<Int64>)
    requires SlotsHold(cpu, ops) && 0 < |ops| < |SLOTS|
    ensures Computes(Done(Move(Slot(|ops|), Slot(|ops| - 1)), |ops| + 1, frame), frame, cpu, ops + [ops[|ops| - 1]])
  {
    hide Exec, SlotSet, AllPlain, Computes;
    var n := |ops|;
    InRegisters(Add, Addi, false, 0, SLOTS[n], SLOTS[n - 1], SLOTS[n - 1]);
    CopyBlock(SLOTS[n - 1], n, cpu);
    SetComputes(frame, cpu, [Mv(SLOTS[n], SLOTS[n - 1])], ops, ops[n - 1]);
  }

  lemma BlockComputes(frame: Option<Frame>, cpu: Cpu, code: seq<Op>, ops: seq<Int64>)
    requires AllPlain(code) && OnlySlots(cpu, Exec(code, cpu)) && SlotsHold(Exec(code, cpu), ops)
    ensures Computes(Done(code, |ops|, frame), frame, cpu, ops)
  {
  }

  /** A step of an instruction that only touches the operand stack. */
  lemma LocalSimulated(p: Program, g: nat, w: Work, r: set<nat>, env: Env, c: Config, s: State, ws: seq<Waiting>,
        k: nat)
    requires Covered(p, g, w, r) && EnvOk(env, g) && Related(p, g, w, r, env, c, s, ws, k)
    requires OperandsOnly(p[c.active.ip].inst) && Next(p, c).Running? && OperandsAgree(p, c)
    ensures exists t :: Runs(Listing(p, g, w.chunks), s, t) && Matches(p, g, w, r, env, Next(p, c).config, t)
  {
    hide Listing, Exec, Runs, SlotsHold, OnlySlots, CallersOk, FrameOk, GlobalsHold, Untouched, Closed, FrameAgrees,
         Position, InScope, Next;
    var chunk := w.chunks[k];
    ChunkIsLowered(p, g, w, r, k);
    FrameHasOperands(env, c.active, s.cpu);
    if p[c.active.ip].inst.Load? {
      LoadNext(p, g, env, c, s.cpu, chunk);
    } else {
      OperandsCompute(p, g, c, s.cpu, chunk);
    }
    var ops := Next(p, c).config.active.operands;
    LocalStep(p, g, w, r, env, c, s, ws, k, ops, LoweredAt(p, g, chunk).code);
  }

  lemma ChunkIsLowered(p: Program, g: nat, w: Work, r: set<nat>, k: nat)
    requires Covered(p, g, w, r) && k in r
    ensures k < |w.chunks| && LoweredAt(p, g, w.chunks[k]).Lowered? && InScope(p, w.chunks[k])
  {
    assert ChunkDone(p, g, w, w.chunks[k]);
  }

  lemma FrameHasOperands(env: Env, act: Activation, c: Cpu)
    requires FrameOk(env, act, c, c)
    ensures SlotsHold(c, act.operands)
  {
  }

  lemma LoadNext(p: Program, g: nat, env: Env, c: Config, cpu: Cpu, chunk: Chunk)
    requires EnvOk(env, g) && FrameOk(env, c.active, cpu, cpu) && GlobalsHold(env, c.globals, cpu) && |c.globals| == g
    requires c.active.ip < |p| && chunk.index == c.active.ip && chunk.height == |c.active.operands| && InScope(p, chunk)
    requires LoweredAt(p, g, chunk).Lowered? && p[c.active.ip].inst.Load? && Next(p, c).Running?
    ensures var ops := Next(p, c).config.active.operands;
            && Next(p, c) == Goto(p, c, c.active.ip + 1, ops)
            && Computes(LoweredAt(p, g, chunk), chunk.frame, cpu, ops)
  {
    hide FrameOk, GlobalsHold, Computes, LowerLoad, Fetch;
    var inst := p[c.active.ip].inst;
    LoadComputes(p, g, env, c, cpu, inst.place, inst.index, chunk.frame);
  }

  // --------------------------------------------------------------------- stores

  /** A write to a global or to a local of the active frame leaves everything about the callers in place. */
  lemma WriteKept(p: Program, g: nat, w: Work, r: set<nat>, env: Env, c: Config, cpu: Cpu, ws: seq<Waiting>, a: int,
        v: Int64)
    requires FrameOk(env, c.active, cpu, cpu) && Untouched(env, cpu)
    requires CallersOk(p, g, w, r, env, c.callers, ws, |c.active.locals|, cpu.Get(FP), cpu.Get(RA), cpu)
    requires a < env.limit || cpu.Get(FP) - 8 * |c.active.locals| < a <= cpu.Get(FP)
    ensures CallersOk(p, g, w, r, env, c.callers, ws, |c.active.locals|, cpu.Get(FP), cpu.Get(RA), cpu.Write(a, v))
    ensures Untouched(env, cpu.Write(a, v))
  {
    hide CallersOk, SlotsHold, ArgsHold, LocalsHold;
    var m := cpu.Write(a, v);
    assert forall b :: b != a ==> m.Read(b) == cpu.Read(b);
    CallersKept(p, g, w, r, env, c.callers, ws, |c.active.locals|, cpu.Get(FP), cpu.Get(RA), cpu, m);
  }

  lemma GlobalWritten(env: Env, g: nat, c: Config, cpu: Cpu, index: nat, v: Int64)
    requires EnvOk(env, g) && |c.globals| == g && index < g
    requires FrameOk(env, c.active, cpu, cpu) && GlobalsHold(env, c.globals, cpu)
    ensures var m := cpu.Write(env.globals + 8 * index, v);
            && GlobalsHold(env, c.globals[index := v], m)
            && FrameOk(env, c.active.(ip := c.active.ip + 1), m, m)
  {
    var m := cpu.Write(env.globals + 8 * index, v);
    assert forall b :: b != env.globals + 8 * index ==> m.Read(b) == cpu.Read(b);
    assert forall r: Reg :: m.Get(r) == cpu.Get(r);
  }

  lemma LocalWritten(env: Env, g: nat, c: Config, cpu: Cpu, index: nat, v: Int64)
    requires EnvOk(env, g) && |c.globals| == g && index < |c.active.locals|
    requires FrameOk(env, c.active, cpu, cpu) && GlobalsHold(env, c.globals, cpu)
    ensures var m := cpu.Write(cpu.Get(FP) - 8 * index, v);
            && GlobalsHold(env, c.globals, m)
            && FrameOk(env, c.active.(ip := c.active.ip + 1, locals := c.active.locals[index := Some(v)]), m, m)
  {
    var m := cpu.Write(cpu.Get(FP) - 8 * index, v);
    assert forall b :: b != cpu.Get(FP) - 8 * index ==> m.Read(b) == cpu.Read(b);
    assert forall r: Reg :: m.Get(r) == cpu.Get(r);
  }

  /** The configuration and the memory after a store. */
  ghost predicate StoreDone(p: Program, g: nat, w: Work, r: set<nat>, env: Env, c: Config, cpu: Cpu, ws: seq<Waiting>,
                  l: Lowered, frame: Option<Frame>, c': Config, m: Cpu) {
    && l.Lowered? && AllPlain(l.code) && m == Exec(l.code, cpu) && l == Done(l.code, |c.active.operands|, frame)
    && c'.callers == c.callers && c'.active.ip == c.active.ip + 1 && c'.active.ip < |p|
    && c'.active.operands == c.active.operands && |c'.active.locals| == |c.active.locals|
    && |c'.globals| == g && GlobalsHold(env, c'.globals, m) && FrameOk(env, c'.active, m, m)
    && m.regs == cpu.regs
    && CallersOk(p, g, w, r, env, c.callers, ws, |c.active.locals|, cpu.Get(FP), cpu.Get(RA), m) && Untouched(env, m)
  }

  lemma StoreEffect(p: Program, g: nat, w: Work, r: set<nat>, env: Env, c: Config, cpu: Cpu, ws: seq<Waiting>,
        inst: Inst, frame: Option<Frame>) returns (m: Cpu)
    requires EnvOk(env, g) && c.active.ip < |p| && p[c.active.ip].inst == inst && inst.Store? && !inst.place.Argument?
    requires 8 * inst.index < 2048 && Next(p, c).Running? && 1 <= |c.active.operands| <= |SLOTS|
    requires FrameOk(env, c.active, cpu, cpu) && Untouched(env, cpu)
    requires CallersOk(p, g, w, r, env, c.callers, ws, |c.active.locals|, cpu.Get(FP), cpu.Get(RA), cpu)
    requires |c.globals| == g && GlobalsHold(env, c.globals, cpu)
    ensures StoreDone(p, g, w, r, env, c, cpu, ws, LowerStore(inst.place, inst.index, |c.active.operands|, frame),
            frame, Next(p, c).config, m)
  {
    hide CallersOk, StoreCode, MoveFromReg, Slot, Untouched, GlobalsHold, LocalsHold, ArgsHold, Exec, Cpu.Read;
    var ops, n := c.active.operands, |c.active.operands|;
    if inst.place.Global? {
      StoreBlock(GP, inst.index * WORD_SIZE, n - 1, cpu);
      GlobalWritten(env, g, c, cpu, inst.index, ops[n - 1]);
      WriteKept(p, g, w, r, env, c, cpu, ws, env.globals + 8 * inst.index, ops[n - 1]);
    } else {
      StoreBlock(FP, -WORD_SIZE * inst.index, n - 1, cpu);
      LocalWritten(env, g, c, cpu, inst.index, ops[n - 1]);
      WriteKept(p, g, w, r, env, c, cpu, ws, cpu.Get(FP) - 8 * inst.index, ops[n - 1]);
    }
    m := Exec(LowerStore(inst.place, inst.index, n, frame).code, cpu);
  }

  lemma StoreShape(p: Program, g: nat, w: Work, r: set<nat>, c: Config, k: nat)
    requires Covered(p, g, w, r) && ChunkAt(p, w, r, k, c.active.ip, |c.active.operands|, |c.active.locals|)
    requires p[c.active.ip].inst.Store? && Next(p, c).Running?
    ensures var inst := p[c.active.ip].inst;
            && LoweredAt(p, g, w.chunks[k])
               == LowerStore(inst.place, inst.index, |c.active.operands|, w.chunks[k].frame)
            && !inst.place.Argument? && 8 * inst.index < 2048 && 1 <= |c.active.operands| <= |SLOTS|
  {
    hide Covered, LowerStore;
    ChunkIsLowered(p, g, w, r, k);
  }

  lemma StoreSimulated(p: Program, g: nat, w: Work, r: set<nat>, env: Env, c: Config, s: State, ws: seq<Waiting>,
        k: nat)
    requires Covered(p, g, w, r) && EnvOk(env, g) && Related(p, g, w, r, env, c, s, ws, k)
    requires p[c.active.ip].inst.Store? && Next(p, c).Running?
    ensures exists t :: Runs(Listing(p, g, w.chunks), s, t) && Matches(p, g, w, r, env, Next(p, c).config, t)
  {
    hide Listing, Exec, Runs, CallersOk, FrameOk, GlobalsHold, Untouched, Covered, Position, InScope, Next, LoweredAt,
         LowerStore;
    StoreShape(p, g, w, r, c, k);
    var m := StoreEffect(p, g, w, r, env, c, s.cpu, ws, p[c.active.ip].inst, w.chunks[k].frame);
    var code := LoweredAt(p, g, w.chunks[k]).code;
    assert code + [] == code;
    RunsInto(p, g, w, k, code, [], s.cpu);
    NextChunk(p, g, w, r, k);
    SameGets(s.cpu, m);
    var t := State(Position(p, g, w.chunks, k + 1), m);
    assert Related(p, g, w, r, env, Next(p, c).config, t, ws, k + 1);
  }

  // ---------------------------------------------------------------------- jumps

  /** Arriving at another chunk, compiled for the same frame, with fewer operands and the same memory. */
  lemma Arrived(p: Program, g: nat, w: Work, r: set<nat>, env: Env, c: Config, s: State, ws: seq<Waiting>, k: nat,
        d: nat, ip: nat, n: nat, cpu: Cpu)
    requires Related(p, g, w, r, env, c, s, ws, k) && d in r && d < |w.chunks| && ip < |p| && n <= |c.active.operands|
    requires w.chunks[d].index == ip && w.chunks[d].height == n && SameLocals(w.chunks[k], w.chunks[d])
    requires OnlySlots(s.cpu, cpu) && SlotsHold(cpu, c.active.operands[..n])
    ensures Related(p, g, w, r, env, c.(active := c.active.(ip := ip, operands := c.active.operands[..n])),
                    State(Position(p, g, w.chunks, d), cpu), ws, d)
  {
    hide FrameOk, CallersOk, GlobalsHold, Untouched, SlotsHold, OnlySlots, Position, Cpu.Get;
    FrameWithOperands(env, c.active, s.cpu, cpu, ip, c.active.operands[..n]);
    MemoryKept(p, g, w, r, env, c, s.cpu, cpu, ws);
  }

  lemma JumpSimulated(p: Program, g: nat, w: Work, r: set<nat>, env: Env, c: Config, s: State, ws: seq<Waiting>, k: nat)
    requires Covered(p, g, w, r) && Related(p, g, w, r, env, c, s, ws, k)
    requires p[c.active.ip].inst.Jump? && Next(p, c).Running?
    ensures exists t :: Runs(Listing(p, g, w.chunks), s, t) && Matches(p, g, w, r, env, Next(p, c).config, t)
  {
    hide Listing, Runs, Exec, CallersOk, FrameOk, GlobalsHold, Untouched, Covered, Position, Related, Holds;
    RelatedFacts(p, g, w, r, env, c, s, ws, k);
    var target := p[c.active.ip].inst.target;
    var d := JumpTarget(p, g, w, r, k, target, Find(p, target).value);
    var op := Jal(LabelName.Bytecode(target));
    assert Body(p, g, w.chunks[k]) == [] + [op];
    NothingToDo(s.cpu);
    RunsInto(p, g, w, k, [], [op], s.cpu);
    var here := State(s.pc + |Heading(p, w.chunks[k])|, s.cpu);
    var t := State(Position(p, g, w.chunks, d), s.cpu);
    OpAt(Listing(p, g, w.chunks), here.pc, op);
    RunsOne(Listing(p, g, w.chunks), here, t);
    RunsTrans(Listing(p, g, w.chunks), s, here, t);
    var n := |c.active.operands|;
    assert c.active.operands[..n] == c.active.operands;
    Arrived(p, g, w, r, env, c, s, ws, k, d, Find(p, target).value, n, s.cpu);
    assert Related(p, g, w, r, env, Next(p, c).config, t, ws, d);
  }

  lemma RelatedFacts(p: Program, g: nat, w: Work, r: set<nat>, env: Env, c: Config, s: State, ws: seq<Waiting>, k: nat)
    requires Related(p, g, w, r, env, c, s, ws, k)
    ensures ChunkAt(p, w, r, k, c.active.ip, |c.active.operands|, |c.active.locals|)
            && s.pc == Position(p, g, w.chunks, k)
    ensures SlotsHold(s.cpu, c.active.operands) && OnlySlots(s.cpu, s.cpu)
  {
  }

  lemma OpAt(code: seq<Op>, pc: nat, op: Op)
    requires Holds(code, pc, [op])
    ensures pc < |code| && code[pc] == op
  {
    assert code[pc] == code[pc..pc + 1][0];
  }

  /** Unboxing the condition in place spoils only its own slot. */
  lemma ConditionBlock(ops: seq<Int64>, c: Cpu)
    requires 1 <= |ops| && SlotsHold(c, ops)
    ensures var r, n := SLOTS[|ops| - 1], |ops|;
            && AllPlain([IType(Srai, r, r, 1)])
            && var d := Exec([IType(Srai, r, r, 1)], c);
               OnlySlots(c, d) && SlotsHold(d, ops[..n - 1]) && d.Get(r) == Unbox(ops[n - 1])
  {
    hide Exec, AllPlain, ComputeImm, Cpu.Get;
    SlotFacts();
    ImmOne(Srai, SLOTS[|ops| - 1], 1, c);
    Shifts(ops[|ops| - 1]);
  }

  lemma CondJumpSimulated(p: Program, g: nat, w: Work, r: set<nat>, env: Env, c: Config, s: State, ws: seq<Waiting>,
        k: nat)
    requires Covered(p, g, w, r) && Related(p, g, w, r, env, c, s, ws, k)
    requires p[c.active.ip].inst.CondJump? && Next(p, c).Running?
    ensures exists t :: Runs(Listing(p, g, w.chunks), s, t) && Matches(p, g, w, r, env, Next(p, c).config, t)
  {
    hide Listing, Runs, Exec, CallersOk, FrameOk, GlobalsHold, Untouched, Covered, Position, Related, Holds,
         SlotsHold, OnlySlots, Cpu.Get, InScope, Unbox;
    RelatedFacts(p, g, w, r, env, c, s, ws, k);
    ChunkIsLowered(p, g, w, r, k);
    SlotCount(s.cpu, c.active.operands);
    var ops, n, inst := c.active.operands, |c.active.operands|, p[c.active.ip].inst;
    var slot := SLOTS[n - 1];
    var op := Branch(inst.zero, slot, 0, LabelName.Bytecode(inst.target));
    var code := Listing(p, g, w.chunks);
    ConditionBlock(ops, s.cpu);
    var cpu := Exec([IType(Srai, slot, slot, 1)], s.cpu);
    assert Body(p, g, w.chunks[k]) == [IType(Srai, slot, slot, 1)] + [op];
    RunsInto(p, g, w, k, [IType(Srai, slot, slot, 1)], [op], s.cpu);
    var here := State(s.pc + |Heading(p, w.chunks[k])| + 1, cpu);
    OpAt(code, here.pc, op);
    var d: nat;
    if (Unbox(ops[n - 1]) == 0) != inst.zero {
      NextChunk(p, g, w, r, k);
      d := k + 1;
    } else {
      d := JumpTarget(p, g, w, r, k, inst.target, Find(p, inst.target).value);
    }
    var t := State(Position(p, g, w.chunks, d), cpu);
    ZeroReads(cpu);
    RunsOne(code, here, t);
    RunsTrans(code, s, here, t);
    Arrived(p, g, w, r, env, c, s, ws, k, d, w.chunks[d].index, n - 1, cpu);
    assert Related(p, g, w, r, env, Next(p, c).config, t, ws, d);
  }

  lemma ZeroReads(c: Cpu)
    ensures c.Get(0) == 0
  {
  }
}
