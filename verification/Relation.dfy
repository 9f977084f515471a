/** The relation between a configuration of the bytecode and a state of the machine that runs the listing, and
    what it depends on. */
module Relation {
  import opened Rv64
  import opened Bytecode
  import opened Lowering
  import opened Worklist
  import opened Linking
  import opened Operators
  import opened Blocks
  import opened Steps

  /** What the outermost caller provides: the globals, the lowest stack address, its stack pointer, the return
      address and all its registers and memory. */
  datatype Env = Env(globals: int, limit: int, base: int, ra: Int64, entry: Cpu)

  ghost predicate EnvOk(env: Env, g: nat) {
    && 0 <= env.globals && env.globals + 8 * g <= env.limit && 16 <= env.limit
    && env.base + 8 < HALF && env.base % 16 == 0
  }

  // ------------------------------------------------------------- what is covered

  /** Checks on one chunk that can be made on the compiler's output. */
  ghost predicate InScope(p: Program, c: Chunk) {
    && c.index < |p| && c.height <= |SLOTS|
    && match p[c.index].inst
       case Const(v) => -0x4000_0000 <= v < 0x4000_0000 && c.height < |SLOTS|
       case Dup => c.height < |SLOTS|
       case Load(_, index) => c.height < |SLOTS| && 8 * index < 2048
       case Store(place, index) => !place.Argument? && 8 * index < 2048
       case Call(_, argc) => argc <= 7 && c.height - argc <= 10
       case Begin(entry, _, locc) => entry != Public("main") && locc <= MAX_LOCALS
       case End => c.frame.Some? ==> c.frame.value.name != "main" && c.frame.value.locals <= MAX_LOCALS
       case _ => true
  }

  /** Control may pass from the end of chunk c to the label of chunk d. */
  ghost predicate Transfers(p: Program, c: Chunk, d: Chunk) {
    c.index < |p| &&
    match p[c.index].inst
    case Jump(target) => LabelOf(p, d, target)
    case CondJump(target, _) => LabelOf(p, d, target)
    case Call(callee, _) => LabelOf(p, d, callee)
    case _ => false
  }

  /** Both were compiled for frames with as many locals. */
  predicate SameLocals(c: Chunk, d: Chunk) {
    c.frame.Some? ==> d.frame.Some? && d.frame.value.locals == c.frame.value.locals
  }

  /** A jump and its target were compiled for frames of the same size. */
  ghost predicate FrameAgrees(p: Program, c: Chunk, d: Chunk) {
    c.index < |p| && Transfers(p, c, d) && !p[c.index].inst.Call? ==> SameLocals(c, d)
  }

  /** The chunks in r are in scope, and control never leaves them: r holds what they fall through to, jump to and call.
      Nothing is asked of the rest of the program. */
  ghost predicate Covered(p: Program, g: nat, w: Work, r: set<nat>) {
    && Sorted(p) && Closed(p, g, w) && |Listing(p, g, w.chunks)| + 1 < HALF
    && (forall k :: k in r ==>
          k < |w.chunks| && InScope(p, w.chunks[k]) && (FallsThrough(p, w.chunks[k]) ==> k + 1 in r))
    && (forall j, k :: j in r && j < |w.chunks| && 0 <= k < |w.chunks| && Transfers(p, w.chunks[j], w.chunks[k]) ==>
          k in r && FrameAgrees(p, w.chunks[j], w.chunks[k]))
  }

  /** The operands of an operator are such that what is compiled for it agrees with the runtime. */
  predicate OperandsAgree(p: Program, c: Config) {
    var ops, n := c.active.operands, |c.active.operands|;
    c.active.ip < |p| && p[c.active.ip].inst.Binop? && n >= 2 ==>
      WordsAgree(p[c.active.ip].inst.op, ops[n - 2], ops[n - 1])
  }

  /** The address at which the next frame above these callers begins. */
  ghost function FrameTop(base: int, callers: seq<Activation>): int {
    if |callers| == 0 then base
    else
      var n := |callers|;
      FrameTop(base, callers[..n - 1]) - 8 * (|callers[n - 1].locals| + 12) - 128 - Pad(|callers[n - 1].locals|)
  }

  /** The stack of a configuration stays above the limit. */
  ghost predicate Fits(env: Env, c: Config) {
    FrameTop(env.base, c.callers) - 8 * (|c.active.locals| + 12) >= env.limit
  }

  // ------------------------------------------------------------------- relation

  ghost predicate ArgsHold(c: Cpu, args: seq<Int64>) {
    |args| <= 7 && forall i :: 0 <= i < |args| ==> c.Get(ARGS[i]) == args[i]
  }

  ghost predicate LocalsHold(m: Cpu, fp: int, locals: seq<Option<Int64>>) {
    forall i :: 0 <= i < |locals| && locals[i].Some? ==> m.Read(fp - 8 * i) == locals[i].value
  }

  /** Registers c and memory m hold an activation. */
  ghost predicate FrameOk(env: Env, act: Activation, c: Cpu, m: Cpu) {
    && c.Get(GP) == env.globals && SlotsHold(c, act.operands) && ArgsHold(c, act.args)
    && LocalsHold(m, c.Get(FP), act.locals)
    && c.Get(SP) == c.Get(FP) - 8 * (|act.locals| + 12)
    && env.limit <= c.Get(SP) && c.Get(FP) <= env.base && c.Get(FP) % 16 == 0
  }

  ghost predicate ChunkAt(p: Program, w: Work, r: set<nat>, k: nat, ip: nat, height: nat, locals: nat) {
    && k in r && k < |w.chunks| && ip < |p| && w.chunks[k].index == ip && w.chunks[k].height == height
    && w.chunks[k].frame.Some? && w.chunks[k].frame.value.locals == locals
  }

  /** The line after the transfer in the call compiled as chunk k. */
  ghost function ReturnAddress(p: Program, g: nat, w: Work, k: nat, argc: nat, h: nat, locals: nat): int
    requires k < |w.chunks| && h >= argc
  {
    Position(p, g, w.chunks, k) + |Heading(p, w.chunks[k])| + |BeforeCall(argc, None, h, locals)| + 1
  }

  /** A suspended activation: its registers when it began the call, and the chunk of the call. */
  datatype Waiting = Waiting(cpu: Cpu, chunk: nat)

  /** Below a frame at fp with return address ra lie the frames of its callers, whose registers are on the
      stack: ra, temporaries and arguments where the caller saved them, the others where the callee did. */
  ghost predicate CallersOk(p: Program, g: nat, w: Work, r: set<nat>, env: Env, callers: seq<Activation>,
                  ws: seq<Waiting>, locals: nat, fp: int, ra: int, m: Cpu)
    decreases |callers|
  {
    var n := |callers|;
    |ws| == n &&
    if n == 0 then fp == env.base && ra == env.ra && CalleeSaved(env.entry, m, fp, locals)
    else
      var caller, wt := callers[n - 1], ws[n - 1];
      && CallOk(p, g, w, r, env, caller, wt, locals, fp, ra, m)
      && CallersOk(p, g, w, r, env, callers[..n - 1], ws[..n - 1], |caller.locals|, wt.cpu.Get(FP), wt.cpu.Get(RA), m)
  }

  ghost predicate CallOk(p: Program, g: nat, w: Work, r: set<nat>, env: Env, caller: Activation, wt: Waiting,
                         locals: nat, fp: int, ra: int, m: Cpu) {
    && caller.ip < |p| && p[caller.ip].inst.Call?
    && var argc, h := p[caller.ip].inst.argc, |caller.operands| + p[caller.ip].inst.argc;
       && ChunkAt(p, w, r, wt.chunk, caller.ip, h, |caller.locals|)
       && ra == ReturnAddress(p, g, w, wt.chunk, argc, h, |caller.locals|)
       && FrameOk(env, caller, wt.cpu, m)
       && fp == wt.cpu.Get(SP) - 128 - Pad(|caller.locals|)
       && CallerSaved(wt.cpu, m, wt.cpu.Get(SP), 7)
       && CalleeSaved(wt.cpu, m, fp, locals)
  }

  ghost predicate GlobalsHold(env: Env, globals: seq<Int64>, m: Cpu) {
    forall i :: 0 <= i < |globals| ==> m.Read(env.globals + 8 * i) == globals[i]
  }

  /** Nothing above the outermost frame has been written. */
  ghost predicate Untouched(env: Env, m: Cpu) {
    forall a :: a >= env.base + 8 ==> m.Read(a) == env.entry.Read(a)
  }

  ghost predicate Related(p: Program, g: nat, w: Work, r: set<nat>, env: Env, c: Config, s: State, ws: seq<Waiting>,
                  k: nat) {
    && ChunkAt(p, w, r, k, c.active.ip, |c.active.operands|, |c.active.locals|)
    && s.pc == Position(p, g, w.chunks, k)
    && FrameOk(env, c.active, s.cpu, s.cpu)
    && CallersOk(p, g, w, r, env, c.callers, ws, |c.active.locals|, s.cpu.Get(FP), s.cpu.Get(RA), s.cpu)
    && |c.globals| == g && GlobalsHold(env, c.globals, s.cpu) && Untouched(env, s.cpu)
  }

  /** Some suspended registers and some chunk relate the two. */
  ghost predicate Matches(p: Program, g: nat, w: Work, r: set<nat>, env: Env, c: Config, s: State) {
    exists ws, k :: Related(p, g, w, r, env, c, s, ws, k)
  }

  // -------------------------------------------------------------------- framing

  ghost predicate SavedCellsKept(m: Cpu, m': Cpu, fp: int, locals: nat) {
    forall i :: 0 <= i < 12 ==> m'.Read(fp - 8 * (locals + 1) - 8 * i) == m.Read(fp - 8 * (locals + 1) - 8 * i)
  }

  ghost predicate AboveKept(m: Cpu, m': Cpu, fp: int) {
    forall a :: a > fp ==> m'.Read(a) == m.Read(a)
  }

  lemma CallKept(p: Program, g: nat, w: Work, r: set<nat>, env: Env, caller: Activation, wt: Waiting,
                 locals: nat, fp: int, ra: int, m: Cpu, m': Cpu)
    requires CallOk(p, g, w, r, env, caller, wt, locals, fp, ra, m)
    requires AboveKept(m, m', fp) && SavedCellsKept(m, m', fp, locals)
    ensures CallOk(p, g, w, r, env, caller, wt, locals, fp, ra, m')
    ensures AboveKept(m, m', wt.cpu.Get(FP)) && SavedCellsKept(m, m', wt.cpu.Get(FP), |caller.locals|)
  {
    hide ChunkAt, ReturnAddress, Cpu.Get, Cpu.Read, SlotsHold, ArgsHold;
  }

  /** The callers only depend on memory above the frame and on the cells of its saved registers. */
  lemma {:induction false} CallersKept(p: Program, g: nat, w: Work, r: set<nat>, env: Env, callers: seq<Activation>,
        ws: seq<Waiting>, locals: nat, fp: int, ra: int, m: Cpu, m': Cpu)
    requires CallersOk(p, g, w, r, env, callers, ws, locals, fp, ra, m)
    requires AboveKept(m, m', fp) && SavedCellsKept(m, m', fp, locals)
    ensures CallersOk(p, g, w, r, env, callers, ws, locals, fp, ra, m')
    decreases |callers|
  {
    hide CallOk, Cpu.Get, Cpu.Read;
    var n := |callers|;
    if n > 0 {
      var caller, wt := callers[n - 1], ws[n - 1];
      CallKept(p, g, w, r, env, caller, wt, locals, fp, ra, m, m');
      CallersKept(p, g, w, r, env, callers[..n - 1], ws[..n - 1], |caller.locals|, wt.cpu.Get(FP), wt.cpu.Get(RA), m,
          m');
    }
  }

  /** Frames lie where the numbers of locals put them. */
  lemma {:induction false} FrameTopIs(p: Program, g: nat, w: Work, r: set<nat>, env: Env, callers: seq<Activation>,
        ws: seq<Waiting>, locals: nat, fp: int, ra: int, m: Cpu)
    requires CallersOk(p, g, w, r, env, callers, ws, locals, fp, ra, m)
    ensures fp == FrameTop(env.base, callers)
    decreases |callers|
  {
    hide ChunkAt, ReturnAddress, CallerSaved, CalleeSaved, SlotsHold, ArgsHold, LocalsHold, Cpu.Get, Cpu.Read;
    var n := |callers|;
    if n > 0 {
      var caller, wt := callers[n - 1], ws[n - 1];
      FrameTopIs(p, g, w, r, env, callers[..n - 1], ws[..n - 1], |caller.locals|, wt.cpu.Get(FP), wt.cpu.Get(RA), m);
    }
  }

  // -------------------------------------------------------------- code of a chunk

  lemma ChunkCodeIs(p: Program, g: nat, w: Work, k: nat)
    requires k < |w.chunks|
    ensures var code, at, c := Listing(p, g, w.chunks), Position(p, g, w.chunks, k), w.chunks[k];
            && Holds(code, at, Heading(p, c)) && Holds(code, at + |Heading(p, c)|, Body(p, g, c))
            && Position(p, g, w.chunks, k + 1) == at + |Heading(p, c)| + |Body(p, g, c)|
  {
    hide Listing, Heading, Body, Position;
    ChunkInListing(p, g, w.chunks, k);
    HoldsSplit(Listing(p, g, w.chunks), Position(p, g, w.chunks, k), Heading(p, w.chunks[k]), Body(p, g, w.chunks[k]));
  }

  /** From the start of a chunk past its label and through plain code at the start of its body. */
  lemma RunsInto(p: Program, g: nat, w: Work, k: nat, ops: seq<Op>, rest: seq<Op>, c: Cpu)
    requires k < |w.chunks| && Body(p, g, w.chunks[k]) == ops + rest && AllPlain(ops)
    ensures var code, at, h := Listing(p, g, w.chunks), Position(p, g, w.chunks, k), |Heading(p, w.chunks[k])|;
            && Runs(code, State(at, c), State(at + h + |ops|, Exec(ops, c)))
            && Holds(code, at + h + |ops|, rest)
            && Position(p, g, w.chunks, k + 1) == at + h + |ops| + |rest|
  {
    hide Listing, Position, Body, LoweredAt, Exec, Runs;
    var code, at, heading := Listing(p, g, w.chunks), Position(p, g, w.chunks, k), Heading(p, w.chunks[k]);
    ChunkCodeIs(p, g, w, k);
    HoldsSplit(code, at + |heading|, ops, rest);
    HeadingIsPlain(p, w.chunks[k], c);
    Straight(code, at, heading, c);
    Straight(code, at + |heading|, ops, c);
    RunsTrans(code, State(at, c), State(at + |heading|, c), State(at + |heading| + |ops|, Exec(ops, c)));
  }

  lemma HeadingIsPlain(p: Program, k: Chunk, c: Cpu)
    ensures AllPlain(Heading(p, k)) && Exec(Heading(p, k), c) == c
  {
    if k.labelled && k.index < |p| {
      ExecOne(Label(LabelName.Bytecode(p[k.index].offset)), c);
    }
  }

  /** The chunk that follows one with fall-through. */
  lemma NextChunk(p: Program, g: nat, w: Work, r: set<nat>, k: nat)
    requires Covered(p, g, w, r) && k in r && k < |w.chunks| && FallsThrough(p, w.chunks[k])
    ensures LoweredAt(p, g, w.chunks[k]).Lowered? && k + 1 < |w.chunks| && k + 1 in r
    ensures LeadsTo(p, g, w.chunks[k], w.chunks[k + 1].index, w.chunks[k + 1].height, w.chunks[k + 1].frame)
    ensures InScope(p, w.chunks[k + 1])
  {
    hide LoweredAt, LeadsTo, FallsThrough, FrameAgrees, Transfers, TargetClosed, InScope, Listing;
    assert FollowedUp(p, g, w.chunks, k);
  }

  /** The labelled chunk at the target of a jump, compiled at the same height and for the same frame. */
  lemma JumpTarget(p: Program, g: nat, w: Work, r: set<nat>, k: nat, t: nat, j: nat) returns (d: nat)
    requires Covered(p, g, w, r) && k in r && k < |w.chunks| && w.chunks[k].index < |p| && Find(p, t) == Some(j)
    requires var inst := p[w.chunks[k].index].inst;
             (inst.Jump? || inst.CondJump?) && inst.target == t
    ensures LoweredAt(p, g, w.chunks[k]).Lowered?
    ensures d in r && d < |w.chunks| && w.chunks[d].index == j && SameLocals(w.chunks[k], w.chunks[d])
    ensures w.chunks[d].height == LoweredAt(p, g, w.chunks[k]).top
    ensures Defines(Listing(p, g, w.chunks), LabelName.Bytecode(t), Position(p, g, w.chunks, d))
  {
    hide InScope, Listing, CondJumpCode, Position;
    assert ChunkDone(p, g, w, w.chunks[k]);
    assert TargetClosed(p, g, w, w.chunks[k]);
    assert IsAddress(p, t);
    d := LabelledChunk(p, g, w, t, j);
    assert Transfers(p, w.chunks[k], w.chunks[d]);
    assert FrameAgrees(p, w.chunks[k], w.chunks[d]);
  }

  /** The chunk that starts with the label of a compiled instruction. */
  lemma LabelledChunk(p: Program, g: nat, w: Work, t: nat, j: nat) returns (d: nat)
    requires Sorted(p) && Closed(p, g, w) && Find(p, t) == Some(j) && t in w.done
    ensures d < |w.chunks| && LabelOf(p, w.chunks[d], t) && w.chunks[d].index == j && w.chunks[d].height == w.done[t]
    ensures Defines(Listing(p, g, w.chunks), LabelName.Bytecode(t), Position(p, g, w.chunks, d))
  {
    hide Listing, LoweredAt, Position;
    var q := LabelDefined(p, g, w, j);
    d := LabelStartsChunk(p, g, w, t, Position(p, g, w.chunks, q));
    FindAt(p, w.chunks[d].index);
    assert ChunkDone(p, g, w, w.chunks[d]);
  }

  /** The chunk that a compiled call transfers to. */
  lemma CallTarget(p: Program, g: nat, w: Work, r: set<nat>, k: nat, t: nat, j: nat) returns (d: nat)
    requires Covered(p, g, w, r) && k in r && k < |w.chunks| && w.chunks[k].index < |p| && Find(p, t) == Some(j)
    requires p[w.chunks[k].index].inst.Call? && p[w.chunks[k].index].inst.callee == t
    ensures d in r && d < |w.chunks| && w.chunks[d].index == j && w.chunks[d].height == 0
    ensures Defines(Listing(p, g, w.chunks), LabelName.Bytecode(t), Position(p, g, w.chunks, d))
  {
    hide InScope, Listing, CallCode, Position, FrameAgrees;
    assert ChunkDone(p, g, w, w.chunks[k]);
    assert TargetClosed(p, g, w, w.chunks[k]);
    assert IsAddress(p, t);
    d := LabelledChunk(p, g, w, t, j);
    assert Transfers(p, w.chunks[k], w.chunks[d]);
  }
}
