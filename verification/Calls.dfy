/** Compiled code follows the stack machine into and out of functions. */
module Calls {
  import opened Rv64
  import opened Bytecode
  import opened Lowering
  import opened Worklist
  import opened Linking
  import opened Blocks
  import opened Steps
  import opened Relation
  import opened Simulation

  // ---------------------------------------------------------------------- calls

  /** The chunk of the callee's Begin and the one after it. */
  lemma BeginChunk(p: Program, g: nat, w: Work, r: set<nat>, d: nat) returns (front: seq<Op>)
    requires Covered(p, g, w, r) && d in r && d < |w.chunks| && w.chunks[d].index + 1 < |p|
             && p[w.chunks[d].index].inst.Begin?
    ensures var locc := p[w.chunks[d].index].inst.locc;
            && d + 1 in r && d + 1 < |w.chunks| && w.chunks[d + 1].index == w.chunks[d].index + 1 && locc <= MAX_LOCALS
            && w.chunks[d + 1].height == w.chunks[d].height
            && w.chunks[d + 1].frame.Some? && w.chunks[d + 1].frame.value.locals == locc
    ensures AllPlain(front) && Body(p, g, w.chunks[d]) == front + BeginCode(p[w.chunks[d].index].inst.locc)
    ensures forall c :: Exec(front, c) == c
  {
    hide BeginCode, CallCode, Listing;
    NextChunk(p, g, w, r, d);
    ChunkIsLowered(p, g, w, r, d);
    var inst := p[w.chunks[d].index].inst;
    front := if inst.entry.Public? then [Label(Symbol(inst.entry.name))] else [];
    forall c ensures Exec(front, c) == c {
      if inst.entry.Public? {
        ExecOne(Label(Symbol(inst.entry.name)), c);
      }
    }
    assert Body(p, g, w.chunks[d]) == front + BeginCode(inst.locc);
  }

  /** Running the prologue of a function from its label. */
  lemma PrologueRuns(p: Program, g: nat, w: Work, r: set<nat>, d: nat, cpu: Cpu)
    requires Covered(p, g, w, r) && d in r && d < |w.chunks| && w.chunks[d].index + 1 < |p|
             && p[w.chunks[d].index].inst.Begin?
    requires 8 * (p[w.chunks[d].index].inst.locc + 13) <= cpu.Get(SP)
    ensures var locc := p[w.chunks[d].index].inst.locc;
            && AllPlain(BeginCode(locc)) && d + 1 < |w.chunks|
            && Runs(Listing(p, g, w.chunks), State(Position(p, g, w.chunks, d), cpu),
                    State(Position(p, g, w.chunks, d + 1), Exec(BeginCode(locc), cpu)))
  {
    hide Listing, Exec, Runs, Position, Covered, BeginCode, Body, Cpu.Get;
    var locc := p[w.chunks[d].index].inst.locc;
    var front := BeginChunk(p, g, w, r, d);
    BeginBlock(locc, cpu);
    ExecAppend(front, BeginCode(locc), cpu);
    assert front + BeginCode(locc) + [] == front + BeginCode(locc);
    RunsInto(p, g, w, d, front + BeginCode(locc), [], cpu);
  }

  /** Registers and memory before a call (c), before the transfer (d), at the label (d') and after the prologue (e). */
  ghost predicate CallPath(c: Cpu, d: Cpu, d': Cpu, e: Cpu, ret: Int64, pad: int, argc: nat, h: nat, locc: nat)
    requires argc <= h <= |SLOTS| && argc <= 7
  {
    var sp := c.Get(SP);
    && d.Get(SP) == sp - 128 - pad
    && (forall r: Reg :: r != SP && !(10 <= r < 10 + argc) ==> d.Get(r) == c.Get(r))
    && (forall k :: h - argc <= k < h ==> d.Get(10 + k - (h - argc)) == c.Get(SLOTS[k]))
    && CallerSaved(c, d, sp, 7) && SameOutside(c, d, sp - 128, sp)
    && d'.mem == d.mem && d'.Get(RA) == ret && SameRegs(d, d', {RA})
    && e.Get(FP) == sp - 128 - pad && e.Get(SP) == sp - 128 - pad - 8 * (locc + 12) && SameRegs(d', e, {SP, FP})
    && CalleeSaved(d', e, sp - 128 - pad, locc)
    && SameOutside(d', e, sp - 128 - pad - 8 * (locc + 12), sp - 128 - pad - 8 * locc)
  }

  /** The call sequence up to the transfer, at whose target the return address is in ra. */
  lemma TransferRuns(p: Program, g: nat, w: Work, r: set<nat>, k: nat, d: nat, cpu: Cpu, argc: nat, h: nat,
        locals: nat, name: LabelName)
    returns (before: Cpu, label': Cpu)
    requires Covered(p, g, w, r) && k < |w.chunks| && d <= |w.chunks|
    requires argc <= h <= |SLOTS| && argc <= 7 && 144 <= cpu.Get(SP) < HALF - 8
    requires Body(p, g, w.chunks[k]) == CallCode(name, argc, None, h, locals)
    requires Defines(Listing(p, g, w.chunks), name, Position(p, g, w.chunks, d))
    ensures AllPlain(BeforeCall(argc, None, h, locals)) && before == Exec(BeforeCall(argc, None, h, locals), cpu)
    ensures var ret := ReturnAddress(p, g, w, k, argc, h, locals);
            -HALF <= ret < HALF && label' == before.Put(RA, ret)
    ensures Runs(Listing(p, g, w.chunks), State(Position(p, g, w.chunks, k), cpu),
            State(Position(p, g, w.chunks, d), label'))
  {
    hide Listing, Exec, AllPlain, Runs, Position, Covered, Body, BeforeCall, AfterCall, Holds, Cpu.Get, Cpu.Put;
    var code, at := Listing(p, g, w.chunks), Position(p, g, w.chunks, k);
    BeforeBlock(argc, None, h, locals, cpu);
    before := Exec(BeforeCall(argc, None, h, locals), cpu);
    var rest := [CallTo(name)] + AfterCall(argc, None, h, locals);
    assert Body(p, g, w.chunks[k]) == BeforeCall(argc, None, h, locals) + rest;
    RunsInto(p, g, w, k, BeforeCall(argc, None, h, locals), rest, cpu);
    var here := State(at + |Heading(p, w.chunks[k])| + |BeforeCall(argc, None, h, locals)|, before);
    HoldsSplit(code, here.pc, [CallTo(name)], AfterCall(argc, None, h, locals));
    OpAt(code, here.pc, CallTo(name));
    ListingIsSmall(p, g, w, r);
    label' := before.Put(RA, here.pc + 1);
    var there := State(Position(p, g, w.chunks, d), label');
    RunsOne(code, here, there);
    RunsTrans(code, State(at, cpu), here, there);
  }

  /** The whole call sequence and the prologue, on registers and memory. */
  lemma CallBlocks(c: Cpu, ret: Int64, argc: nat, h: nat, locals: nat, locc: nat)
    requires argc <= h <= |SLOTS| && argc <= 7 && locc <= MAX_LOCALS
    requires c.Get(SP) - 128 - Pad(locals) - 8 * (locc + 13) >= 0 && c.Get(SP) < HALF - 8
    ensures AllPlain(BeforeCall(argc, None, h, locals)) && AllPlain(BeginCode(locc))
    ensures var d := Exec(BeforeCall(argc, None, h, locals), c);
            var d' := d.Put(RA, ret);
            8 * (locc + 13) <= d'.Get(SP) &&
            CallPath(c, d, d', Exec(BeginCode(locc), d'), ret, Pad(locals), argc, h, locc)
  {
    hide Exec, AllPlain, BeforeCall, BeginCode, CallerSaved, CalleeSaved, Cpu.Get, Cpu.Put, Cpu.Read, SameOutside;
    BeforeBlock(argc, None, h, locals, c);
    var d := Exec(BeforeCall(argc, None, h, locals), c);
    SavedFewer(c, d, c.Get(SP));
    PutRa(d, ret);
    BeginBlock(locc, d.Put(RA, ret));
  }

  /** The call sequence up to the first instruction of the callee. */
  lemma CallRuns(p: Program, g: nat, w: Work, r: set<nat>, env: Env, c: Config, s: State, ws: seq<Waiting>, k: nat,
        d: nat)
    returns (before: Cpu, label': Cpu, e: Cpu)
    requires Covered(p, g, w, r) && EnvOk(env, g) && Related(p, g, w, r, env, c, s, ws, k)
    requires p[c.active.ip].inst.Call? && Next(p, c).Running? && Fits(env, Next(p, c).config)
    requires d in r && d < |w.chunks| && Find(p, p[c.active.ip].inst.callee) == Some(w.chunks[d].index)
    requires Defines(Listing(p, g, w.chunks), LabelName.Bytecode(p[c.active.ip].inst.callee),
             Position(p, g, w.chunks, d))
    ensures d + 1 < |w.chunks| && w.chunks[d].index < |p| && p[w.chunks[d].index].inst.Begin?
    ensures var argc, h, locals := p[c.active.ip].inst.argc, |c.active.operands|, |c.active.locals|;
            && argc <= h <= |SLOTS| && argc <= 7
            && Runs(Listing(p, g, w.chunks), s, State(Position(p, g, w.chunks, d + 1), e))
            && -HALF <= ReturnAddress(p, g, w, k, argc, h, locals) < HALF
            && CallPath(s.cpu, before, label', e, ReturnAddress(p, g, w, k, argc, h, locals), Pad(locals), argc, h,
                        p[w.chunks[d].index].inst.locc)
  {
    hide Listing, Exec, AllPlain, Runs, Position, Covered, BeginCode, Body, BeforeCall, CallCode, Related,
         CallPath, ReturnAddress,
         Fits, Next, Defines, Cpu.Get, Cpu.Put;
    RelatedFacts(p, g, w, r, env, c, s, ws, k);
    var inst, h, locals := p[c.active.ip].inst, |c.active.operands|, |c.active.locals|;
    CallShape(p, g, w, r, env, c, s, ws, k);
    var locc := p[w.chunks[d].index].inst.locc;
    StackRoom(p, g, w, r, env, c, s, ws, k, locc);
    var front := BeginChunk(p, g, w, r, d);
    before, label' := TransferRuns(p, g, w, r, k, d, s.cpu, inst.argc, h, locals, LabelName.Bytecode(inst.callee));
    CallBlocks(s.cpu, ReturnAddress(p, g, w, k, inst.argc, h, locals), inst.argc, h, locals, locc);
    PrologueRuns(p, g, w, r, d, label');
    e := Exec(BeginCode(locc), label');
    RunsTrans(Listing(p, g, w.chunks), s, State(Position(p, g, w.chunks, d), label'),
        State(Position(p, g, w.chunks, d + 1), e));
  }

  lemma SavedFewer(c: Cpu, d: Cpu, sp: int)
    requires CallerSaved(c, d, sp, 8)
    ensures CallerSaved(c, d, sp, 7)
  {
  }

  lemma ListingIsSmall(p: Program, g: nat, w: Work, r: set<nat>)
    requires Covered(p, g, w, r)
    ensures |Listing(p, g, w.chunks)| + 1 < HALF
  {
  }

  lemma PutRa(c: Cpu, v: Int64)
    ensures var d := c.Put(RA, v);
            d.mem == c.mem && d.Get(RA) == v && SameRegs(c, d, {RA})
  {
  }

  lemma CallShape(p: Program, g: nat, w: Work, r: set<nat>, env: Env, c: Config, s: State, ws: seq<Waiting>, k: nat)
    requires Covered(p, g, w, r) && Related(p, g, w, r, env, c, s, ws, k)
    requires p[c.active.ip].inst.Call? && Next(p, c).Running?
    ensures var inst, h, locals := p[c.active.ip].inst, |c.active.operands|, |c.active.locals|;
            && inst.argc <= h <= |SLOTS| && inst.argc <= 7 && h - inst.argc <= 10
            && ChunkAt(p, w, r, k, c.active.ip, h, locals) && s.pc == Position(p, g, w.chunks, k)
            && Body(p, g, w.chunks[k]) == CallCode(LabelName.Bytecode(inst.callee), inst.argc, None, h, locals)
    ensures var inst := p[c.active.ip].inst;
            && Find(p, inst.callee).Some? && Find(p, inst.callee).value + 1 < |p|
            && p[Find(p, inst.callee).value].inst.Begin?
            && Next(p, c) == Enter(p, c, inst.callee, inst.argc)
  {
    hide CallCode, FrameOk, CallersOk, Listing, Position, FrameAgrees, FollowedUp;
    ChunkIsLowered(p, g, w, r, k);
  }

  /** The frame of the callee fits above the limit. */
  lemma StackRoom(p: Program, g: nat, w: Work, r: set<nat>, env: Env, c: Config, s: State, ws: seq<Waiting>, k: nat,
        locc: nat)
    requires Related(p, g, w, r, env, c, s, ws, k) && p[c.active.ip].inst.Call?
    requires Next(p, c).Running? && Fits(env, Next(p, c).config) && EnvOk(env, g)
    requires var j := Find(p, p[c.active.ip].inst.callee);
             j.Some? && p[j.value].inst.Begin? && locc == p[j.value].inst.locc
    ensures s.cpu.Get(SP) - 128 - Pad(|c.active.locals|) - 8 * (locc + 12) >= env.limit
    ensures s.cpu.Get(SP) < HALF - 8
  {
    hide CallersOk, GlobalsHold, Untouched, SlotsHold, ArgsHold, LocalsHold, Cpu.Get, Position;
    FrameTopIs(p, g, w, r, env, c.callers, ws, |c.active.locals|, s.cpu.Get(FP), s.cpu.Get(RA), s.cpu);
    var c' := Next(p, c).config;
    assert c'.callers[..|c.callers|] == c.callers;
  }

  /** A call only writes below the stack pointer, and leaves every register of the caller on the stack. */
  lemma CallSaves(c: Cpu, d: Cpu, d': Cpu, e: Cpu, ret: Int64, pad: int, argc: nat, h: nat, locc: nat)
    requires argc <= h <= |SLOTS| && argc <= 7 && pad >= 0 && CallPath(c, d, d', e, ret, pad, argc, h, locc)
    ensures var sp, fp := c.Get(SP), e.Get(FP);
            && SameOutside(c, e, fp - 8 * (locc + 12), sp)
            && CallerSaved(c, e, sp, 7) && CalleeSaved(c, e, fp, locc)
            && e.Get(RA) == ret && e.Get(GP) == c.Get(GP)
  {
    hide Cpu.Get, Cpu.Read;
    ListFacts();
    SameReads(d, d');
    assert forall r: Reg :: r in SAVED ==> d'.Get(r) == c.Get(r);
  }

  lemma CallPasses(c: Cpu, d: Cpu, d': Cpu, e: Cpu, ret: Int64, pad: int, argc: nat, ops: seq<Int64>, locc: nat)
    requires argc <= |ops| <= |SLOTS| && argc <= 7 && CallPath(c, d, d', e, ret, pad, argc, |ops|, locc)
    requires SlotsHold(c, ops)
    ensures ArgsHold(e, ops[|ops| - argc..])
  {
    hide Cpu.Get, Cpu.Read, CallerSaved, CalleeSaved, SameOutside;
    var n := |ops|;
    ListFacts();
    forall i | 0 <= i < argc
      ensures e.Get(ARGS[i]) == ops[n - argc..][i]
    {
      var k := n - argc + i;
      assert c.Get(SLOTS[k]) == ops[k];
      assert d.Get(10 + k - (n - argc)) == c.Get(SLOTS[k]);
    }
  }

  /** The frame of the callee, just after its prologue. */
  lemma CalleeFrame(env: Env, act: Activation, cpu: Cpu, e: Cpu, entry: Entry, ip: nat, args: seq<Int64>, locc: nat)
    requires FrameOk(env, act, cpu, cpu) && ArgsHold(e, args)
    requires e.Get(GP) == cpu.Get(GP) && e.Get(FP) == cpu.Get(SP) - 128 - Pad(|act.locals|)
    requires e.Get(SP) == e.Get(FP) - 8 * (locc + 12) && e.Get(SP) >= env.limit
    ensures FrameOk(env, Activation(entry, ip, args, seq(locc, i => None), []), e, e)
  {
    hide SlotsHold, ArgsHold, Cpu.Get, Cpu.Read;
    NoSlots(e);
  }

  lemma NoSlots(c: Cpu)
    ensures SlotsHold(c, [])
  {
  }

  /** The caller's frame stays readable under the callee's. */
  lemma CallerFrame(env: Env, act: Activation, cpu: Cpu, e: Cpu, n: nat, low: int)
    requires FrameOk(env, act, cpu, cpu) && n <= |act.operands| && SameOutside(cpu, e, low, cpu.Get(SP))
    ensures FrameOk(env, act.(operands := act.operands[..n]), cpu, e)
  {
    hide SlotsHold, ArgsHold, Cpu.Get, Cpu.Read;
    FewerHold(cpu, act.operands, n);
  }

  lemma BelowKept(p: Program, g: nat, w: Work, r: set<nat>, env: Env, c: Config, cpu: Cpu, e: Cpu, ws: seq<Waiting>,
        low: int)
    requires EnvOk(env, g) && FrameOk(env, c.active, cpu, cpu) && env.limit <= low
             && SameOutside(cpu, e, low, cpu.Get(SP))
    requires CallersOk(p, g, w, r, env, c.callers, ws, |c.active.locals|, cpu.Get(FP), cpu.Get(RA), cpu)
    requires |c.globals| == g && GlobalsHold(env, c.globals, cpu) && Untouched(env, cpu)
    ensures CallersOk(p, g, w, r, env, c.callers, ws, |c.active.locals|, cpu.Get(FP), cpu.Get(RA), e)
    ensures GlobalsHold(env, c.globals, e) && Untouched(env, e)
  {
    hide CallersOk, SlotsHold, ArgsHold, LocalsHold, Cpu.Get, Cpu.Read;
    CallersKept(p, g, w, r, env, c.callers, ws, |c.active.locals|, cpu.Get(FP), cpu.Get(RA), cpu, e);
  }

  /** The callee's configuration is related to the state after its prologue, the caller waiting below. */
  lemma Entered(p: Program, g: nat, w: Work, r: set<nat>, env: Env, c: Config, s: State, ws: seq<Waiting>, k: nat,
        d: nat, before: Cpu, label': Cpu, e: Cpu)
    requires EnvOk(env, g) && Related(p, g, w, r, env, c, s, ws, k) && p[c.active.ip].inst.Call?
    requires d < |w.chunks| && w.chunks[d].index < |p| && Next(p, c).Running? && Fits(env, Next(p, c).config)
    requires var inst, h, locals, locc :=
               p[c.active.ip].inst, |c.active.operands|, |c.active.locals|, |Next(p, c).config.active.locals|;
             && inst.argc <= h <= |SLOTS| && inst.argc <= 7
             && ChunkAt(p, w, r, d + 1, Next(p, c).config.active.ip, 0, locc)
             && -HALF <= ReturnAddress(p, g, w, k, inst.argc, h, locals) < HALF
             && CallPath(s.cpu, before, label', e, ReturnAddress(p, g, w, k, inst.argc, h, locals), Pad(locals),
                inst.argc, h, locc)
    ensures Related(p, g, w, r, env, Next(p, c).config, State(Position(p, g, w.chunks, d + 1), e),
            ws + [Waiting(s.cpu, k)], d + 1)
  {
    hide Listing, Position, FrameOk, CallersOk, CallPath, GlobalsHold, Untouched, CallerSaved, CalleeSaved,
         SameOutside, SlotsHold,
         ArgsHold, ReturnAddress, Cpu.Get, Cpu.Read, FrameTop;
    var act, cpu, argc := c.active, s.cpu, p[c.active.ip].inst.argc;
    var h, c' := |act.operands|, Next(p, c).config;
    var locc := |c'.active.locals|;
    var ret := ReturnAddress(p, g, w, k, argc, h, |act.locals|);
    FrameFacts(env, act, cpu);
    PathFacts(cpu, before, label', e, ret, Pad(|act.locals|), argc, h, locc);
    CallSaves(cpu, before, label', e, ret, Pad(|act.locals|), argc, h, locc);
    CallPasses(cpu, before, label', e, ret, Pad(|act.locals|), argc, act.operands, locc);
    FrameTopIs(p, g, w, r, env, c.callers, ws, |act.locals|, cpu.Get(FP), cpu.Get(RA), cpu);
    NextTop(env, c, argc);
    CalleeFrame(env, act, cpu, e, c'.active.entry, c'.active.ip, act.operands[h - argc..], locc);
    CallerFrame(env, act, cpu, e, h - argc, e.Get(SP));
    BelowKept(p, g, w, r, env, c, cpu, e, ws, e.Get(SP));
    var wt := Waiting(cpu, k);
    assert CallOk(p, g, w, r, env, act.(operands := act.operands[..h - argc]), wt, locc, e.Get(FP), e.Get(RA), e);
    CallersPushed(p, g, w, r, env, c.callers, ws, act.(operands := act.operands[..h - argc]), wt, locc, e.Get(FP),
        e.Get(RA), e);
  }

  lemma FrameFacts(env: Env, act: Activation, c: Cpu)
    requires FrameOk(env, act, c, c)
    ensures SlotsHold(c, act.operands) && ArgsHold(c, act.args)
    ensures c.Get(SP) == c.Get(FP) - 8 * (|act.locals| + 12) && env.limit <= c.Get(SP) && c.Get(FP) <= env.base
    ensures c.Get(GP) == env.globals
  {
  }

  lemma PathFacts(c: Cpu, d: Cpu, d': Cpu, e: Cpu, ret: Int64, pad: int, argc: nat, h: nat, locc: nat)
    requires argc <= h <= |SLOTS| && argc <= 7 && CallPath(c, d, d', e, ret, pad, argc, h, locc)
    ensures e.Get(FP) == c.Get(SP) - 128 - pad && e.Get(SP) == e.Get(FP) - 8 * (locc + 12)
  {
  }

  lemma NextTop(env: Env, c: Config, argc: nat)
    requires argc <= |c.active.operands|
    ensures var caller := c.active.(operands := c.active.operands[..|c.active.operands| - argc]);
            FrameTop(env.base, c.callers + [caller]) ==
            FrameTop(env.base, c.callers) - 8 * (|c.active.locals| + 12) - 128 - Pad(|c.active.locals|)
  {
    var caller := c.active.(operands := c.active.operands[..|c.active.operands| - argc]);
    assert (c.callers + [caller])[..|c.callers|] == c.callers;
  }

  lemma CallersPushed(p: Program, g: nat, w: Work, r: set<nat>, env: Env, callers: seq<Activation>, ws: seq<Waiting>,
                      caller: Activation, wt: Waiting, locals: nat, fp: int, ra: int, m: Cpu)
    requires CallOk(p, g, w, r, env, caller, wt, locals, fp, ra, m)
    requires CallersOk(p, g, w, r, env, callers, ws, |caller.locals|, wt.cpu.Get(FP), wt.cpu.Get(RA), m)
    ensures CallersOk(p, g, w, r, env, callers + [caller], ws + [wt], locals, fp, ra, m)
  {
    hide CallOk;
    assert |ws| == |callers|;
    assert (callers + [caller])[..|callers|] == callers && (ws + [wt])[..|ws|] == ws;
  }

  /** A call step, up to the first instruction of the callee. */
  lemma EnterSimulated(p: Program, g: nat, w: Work, r: set<nat>, env: Env, c: Config, s: State, ws: seq<Waiting>,
        k: nat)
    requires Covered(p, g, w, r) && EnvOk(env, g) && Related(p, g, w, r, env, c, s, ws, k)
    requires p[c.active.ip].inst.Call? && Next(p, c).Running? && Fits(env, Next(p, c).config)
    ensures exists t :: Runs(Listing(p, g, w.chunks), s, t) && Matches(p, g, w, r, env, Next(p, c).config, t)
  {
    hide Listing, Runs, Exec, Position, Covered, Related, CallPath, Fits, ReturnAddress, Defines, Body, CallCode,
         BeginCode;
    RelatedFacts(p, g, w, r, env, c, s, ws, k);
    CallShape(p, g, w, r, env, c, s, ws, k);
    var callee := p[c.active.ip].inst.callee;
    var j := Find(p, callee).value;
    var d := CallTarget(p, g, w, r, k, callee, j);
    var before, label', e := CallRuns(p, g, w, r, env, c, s, ws, k, d);
    var front := BeginChunk(p, g, w, r, d);
    Entered(p, g, w, r, env, c, s, ws, k, d, before, label', e);
  }

  // -------------------------------------------------------------------- returns

  /** The epilogue runs from the chunk of an End up to its return. */
  lemma EpilogueRuns(p: Program, g: nat, w: Work, r: set<nat>, env: Env, c: Config, s: State, ws: seq<Waiting>,
        k: nat, saved: Cpu)
    returns (e: Cpu)
    requires Covered(p, g, w, r) && EnvOk(env, g) && Related(p, g, w, r, env, c, s, ws, k)
    requires p[c.active.ip].inst.End? && 1 <= |c.active.operands|
    requires s.cpu.Get(RA) >= 0 && CalleeSaved(saved, s.cpu, s.cpu.Get(FP), |c.active.locals|)
    ensures Runs(Listing(p, g, w.chunks), s, State(s.cpu.Get(RA), e))
    ensures e.Get(SP) == s.cpu.Get(FP) && e.Get(A0) == c.active.operands[|c.active.operands| - 1] && e.mem == s.cpu.mem
    ensures forall i :: 0 <= i < 12 ==> e.Get(SAVED[i]) == saved.Get(SAVED[i])
  {
    hide Listing, Runs, Exec, AllPlain, Position, Covered, CallersOk, GlobalsHold, Untouched, CalleeSaved, Body,
         LoadAll, MoveToReg,
         Holds, InScope, Cpu.Get;
    var h, locals, fp := |c.active.operands|, |c.active.locals|, s.cpu.Get(FP);
    ChunkIsLowered(p, g, w, r, k);
    FrameFacts(env, c.active, s.cpu);
    EndBody(p, g, w, r, k, h, locals);
    EndBlock(h, locals, saved, s.cpu, fp);
    var code := MoveToReg(A0, Slot(h - 1)) + [IType(Addi, SP, FP, 0)] + LoadAll(SAVED, -(1 + locals) * WORD_SIZE);
    e := Exec(code, s.cpu);
    RunsInto(p, g, w, k, code, [Ret], s.cpu);
    var here := State(s.pc + |Heading(p, w.chunks[k])| + |code|, e);
    OpAt(Listing(p, g, w.chunks), here.pc, Ret);
    var t := State(s.cpu.Get(RA), e);
    RunsOne(Listing(p, g, w.chunks), here, t);
    RunsTrans(Listing(p, g, w.chunks), s, here, t);
  }

  lemma EndBody(p: Program, g: nat, w: Work, r: set<nat>, k: nat, h: nat, locals: nat)
    requires Covered(p, g, w, r) && k in r && k < |w.chunks| && w.chunks[k].index < |p|
             && p[w.chunks[k].index].inst.End?
    requires w.chunks[k].height == h && w.chunks[k].frame.Some? && w.chunks[k].frame.value.locals == locals
    ensures h >= 1 && locals <= MAX_LOCALS
    ensures Body(p, g, w.chunks[k]) ==
            MoveToReg(A0, Slot(h - 1)) + [IType(Addi, SP, FP, 0)] + LoadAll(SAVED, -(1 + locals) * WORD_SIZE) + [Ret]
  {
    hide Closed, FrameAgrees, Listing, MoveToReg, LoadAll;
    ChunkIsLowered(p, g, w, r, k);
    assert InScope(p, w.chunks[k]);
  }

  /** The lines after the transfer of a call lead to the chunk that follows the call. */
  lemma AfterRuns(p: Program, g: nat, w: Work, r: set<nat>, k: nat, argc: nat, h: nat, locals: nat, d: Cpu)
    requires Covered(p, g, w, r) && k in r && k < |w.chunks| && w.chunks[k].index < |p| && h >= argc
    requires var inst := p[w.chunks[k].index].inst;
             inst.Call? && inst.argc == argc && w.chunks[k].height == h
    requires w.chunks[k].frame.Some? && w.chunks[k].frame.value.locals == locals
    requires AllPlain(AfterCall(argc, None, h, locals))
    ensures var ret := ReturnAddress(p, g, w, k, argc, h, locals);
            0 <= ret && Runs(Listing(p, g, w.chunks), State(ret, d),
                             State(Position(p, g, w.chunks, k + 1), Exec(AfterCall(argc, None, h, locals), d)))
  {
    hide Listing, Runs, Exec, Position, Covered, AllPlain, BeforeCall, AfterCall, Holds, InScope;
    ChunkIsLowered(p, g, w, r, k);
    ChunkCodeIs(p, g, w, k);
    var code, at := Listing(p, g, w.chunks), Position(p, g, w.chunks, k) + |Heading(p, w.chunks[k])|;
    var front := BeforeCall(argc, None, h, locals) + [CallTo(LabelName.Bytecode(p[w.chunks[k].index].inst.callee))];
    assert Body(p, g, w.chunks[k]) == front + AfterCall(argc, None, h, locals);
    HoldsSplit(code, at, front, AfterCall(argc, None, h, locals));
    Straight(code, at + |front|, AfterCall(argc, None, h, locals), d);
  }

  /** What AfterBlock says, in terms of the caller's frame. */
  lemma CallerAgain(env: Env, caller: Activation, c: Cpu, e: Cpu, v: Int64)
    requires FrameOk(env, caller, c, e) && |caller.operands| <= 10
    requires e.Get(SP) == c.Get(SP) && e.Get(SLOTS[|caller.operands|]) == v
    requires forall i :: 0 <= i < 7 ==> e.Get(TEMPS[i]) == c.Get(TEMPS[i])
    requires forall i :: 0 <= i < 7 ==> e.Get(ARGS[i]) == c.Get(ARGS[i])
    requires forall r: Reg :: r in SAVED && r != SLOTS[|caller.operands|] ==> e.Get(r) == c.Get(r)
    ensures FrameOk(env, caller.(ip := caller.ip + 1, operands := caller.operands + [v]), e, e)
    ensures e.Get(FP) == c.Get(FP)
  {
    hide Cpu.Get, Cpu.Read;
    SlotFacts();
    ListFacts();
    assert GP == TEMPS[0] && FP in SAVED;
    var n := |caller.operands|;
    forall k | 0 <= k < n
      ensures e.Get(SLOTS[k]) == caller.operands[k]
    {
      assert SLOTS[k] in SAVED && SLOTS[k] != SLOTS[n];
      assert c.Get(SLOTS[k]) == caller.operands[k];
    }
  }

  lemma CallersPopped(p: Program, g: nat, w: Work, r: set<nat>, env: Env, c: Config, ws: seq<Waiting>, fp: int,
        ra: int, m: Cpu)
    requires |c.callers| > 0 && CallersOk(p, g, w, r, env, c.callers, ws, |c.active.locals|, fp, ra, m)
    ensures |ws| == |c.callers|
    ensures var n := |c.callers|;
            var caller, wt := c.callers[n - 1], ws[n - 1];
            && CallOk(p, g, w, r, env, caller, wt, |c.active.locals|, fp, ra, m)
            && CallersOk(p, g, w, r, env, c.callers[..n - 1], ws[..n - 1], |caller.locals|, wt.cpu.Get(FP),
               wt.cpu.Get(RA), m)
  {
    hide CallOk;
  }

  /** The return into the caller: from the callee's return to the chunk after the call. */
  lemma ReturnRuns(p: Program, g: nat, w: Work, r: set<nat>, env: Env, caller: Activation, wt: Waiting, locals: nat,
        fp: int, ra: int, d: Cpu, v: Int64) returns (e: Cpu)
    requires Covered(p, g, w, r) && EnvOk(env, g) && CallOk(p, g, w, r, env, caller, wt, locals, fp, ra, d)
    requires 16 <= fp && d.Get(SP) == fp && d.Get(A0) == v
    requires forall i :: 0 <= i < 12 ==> d.Get(SAVED[i]) == wt.cpu.Get(SAVED[i])
    ensures 0 <= ra && Runs(Listing(p, g, w.chunks), State(ra, d), State(Position(p, g, w.chunks, wt.chunk + 1), e))
    ensures FrameOk(env, caller.(ip := caller.ip + 1, operands := caller.operands + [v]), e, e)
    ensures e.mem == d.mem && e.Get(FP) == wt.cpu.Get(FP) && e.Get(RA) == wt.cpu.Get(RA)
  {
    hide Listing, Runs, Exec, AllPlain, Position, Covered, AfterCall, CallerSaved, CalleeSaved, SlotsHold,
         ArgsHold, LocalsHold,
         ReturnAddress, Cpu.Get, Cpu.Read;
    var argc := p[caller.ip].inst.argc;
    var h, sp := |caller.operands| + argc, wt.cpu.Get(SP);
    CallLimits(p, g, w, r, wt.chunk);
    AfterBlock(argc, None, h, |caller.locals|, 7, wt.cpu, d, sp);
    AfterRuns(p, g, w, r, wt.chunk, argc, h, |caller.locals|, d);
    e := Exec(AfterCall(argc, None, h, |caller.locals|), d);
    SameReads(d, e);
    FrameRead(env, caller, wt.cpu, d, e);
    assert forall r: Reg :: r in SAVED ==> d.Get(r) == wt.cpu.Get(r);
    CallerAgain(env, caller, wt.cpu, e, v);
  }

  lemma CallLimits(p: Program, g: nat, w: Work, r: set<nat>, k: nat)
    requires Covered(p, g, w, r) && k in r && k < |w.chunks| && w.chunks[k].index < |p|
             && p[w.chunks[k].index].inst.Call?
    ensures var argc, h := p[w.chunks[k].index].inst.argc, w.chunks[k].height;
            argc <= h <= |SLOTS| && argc <= 7 && h - argc <= 10
  {
    hide Closed, FrameAgrees, Listing, CallCode;
    ChunkIsLowered(p, g, w, r, k);
  }

  lemma FrameRead(env: Env, act: Activation, c: Cpu, m: Cpu, m': Cpu)
    requires FrameOk(env, act, c, m) && m.mem == m'.mem
    ensures FrameOk(env, act, c, m')
  {
    SameReads(m, m');
  }

  /** A return step, up to the instruction after the call. */
  lemma LeaveSimulated(p: Program, g: nat, w: Work, r: set<nat>, env: Env, c: Config, s: State, ws: seq<Waiting>,
        k: nat)
    requires Covered(p, g, w, r) && EnvOk(env, g) && Related(p, g, w, r, env, c, s, ws, k)
    requires p[c.active.ip].inst.End? && Next(p, c).Running?
    ensures exists t :: Runs(Listing(p, g, w.chunks), s, t) && Matches(p, g, w, r, env, Next(p, c).config, t)
  {
    hide Listing, Runs, Exec, Position, Covered, CallersOk, CallerSaved, CalleeSaved, SlotsHold, ArgsHold,
         LocalsHold, GlobalsHold,
         Untouched, ReturnAddress, FrameOk, Cpu.Get, Cpu.Read;
    var n, v := |c.callers|, c.active.operands[|c.active.operands| - 1];
    CallersPopped(p, g, w, r, env, c, ws, s.cpu.Get(FP), s.cpu.Get(RA), s.cpu);
    var caller, wt := c.callers[n - 1], ws[n - 1];
    ReturnIsLine(p, g, w, r, env, caller, wt, |c.active.locals|, s.cpu.Get(FP), s.cpu.Get(RA), s.cpu);
    var d := EpilogueRuns(p, g, w, r, env, c, s, ws, k, wt.cpu);
    SameReads(s.cpu, d);
    FrameFacts(env, c.active, s.cpu);
    CallKept(p, g, w, r, env, caller, wt, |c.active.locals|, s.cpu.Get(FP), s.cpu.Get(RA), s.cpu, d);
    var e := ReturnRuns(p, g, w, r, env, caller, wt, |c.active.locals|, s.cpu.Get(FP), s.cpu.Get(RA), d, v);
    var t := State(Position(p, g, w.chunks, wt.chunk + 1), e);
    RunsTrans(Listing(p, g, w.chunks), s, State(s.cpu.Get(RA), d), t);
    CallFollowedUp(p, g, w, r, wt.chunk, |caller.operands|);
    SameReads(s.cpu, e);
    SameBelow(p, g, w, r, env, c.callers[..n - 1], ws[..n - 1], |caller.locals|, wt.cpu.Get(FP), wt.cpu.Get(RA),
        c.globals, s.cpu, e);
    assert Related(p, g, w, r, env, Next(p, c).config, t, ws[..n - 1], wt.chunk + 1);
  }

  /** Equal memories keep the callers, the globals and what lies above the outermost frame. */
  lemma SameBelow(p: Program, g: nat, w: Work, r: set<nat>, env: Env, callers: seq<Activation>, ws: seq<Waiting>,
        locals: nat, fp: int, ra: int, globals: seq<Int64>, m: Cpu, m': Cpu)
    requires m'.mem == m.mem && CallersOk(p, g, w, r, env, callers, ws, locals, fp, ra, m)
    requires GlobalsHold(env, globals, m) && Untouched(env, m)
    ensures CallersOk(p, g, w, r, env, callers, ws, locals, fp, ra, m')
    ensures GlobalsHold(env, globals, m') && Untouched(env, m')
  {
    hide CallersOk;
    SameReads(m, m');
    CallersKept(p, g, w, r, env, callers, ws, locals, fp, ra, m, m');
  }

  lemma ReturnIsLine(p: Program, g: nat, w: Work, r: set<nat>, env: Env, caller: Activation, wt: Waiting, locals: nat,
        fp: int, ra: int, m: Cpu)
    requires CallOk(p, g, w, r, env, caller, wt, locals, fp, ra, m)
    ensures 0 <= ra && CalleeSaved(wt.cpu, m, fp, locals)
  {
  }

  lemma CallFollowedUp(p: Program, g: nat, w: Work, r: set<nat>, k: nat, n: nat)
    requires Covered(p, g, w, r) && k in r && k < |w.chunks| && w.chunks[k].index + 1 < |p|
    requires var inst := p[w.chunks[k].index].inst;
             inst.Call? && w.chunks[k].height == n + inst.argc
    ensures k + 1 in r && k + 1 < |w.chunks| && w.chunks[k + 1].index == w.chunks[k].index + 1
            && w.chunks[k + 1].height == n + 1
    ensures w.chunks[k + 1].frame == w.chunks[k].frame
  {
    hide Covered, CallCode;
    NextChunk(p, g, w, r, k);
  }
}
