/** The compiler is correct: every step, every run and every complete call. */
module Correctness {
  import opened Rv64
  import opened Bytecode
  import opened Lowering
  import opened Worklist
  import opened Linking
  import opened Blocks
  import opened Steps
  import opened Relation
  import opened Simulation
  import opened Calls

  /** Every step of the stack machine is matched by a run of the compiled code. */
  lemma StepSimulated(p: Program, g: nat, w: Work, r: set<nat>, env: Env, c: Config, s: State)
    requires Covered(p, g, w, r) && EnvOk(env, g) && Matches(p, g, w, r, env, c, s)
    requires Next(p, c).Running? && OperandsAgree(p, c) && Fits(env, Next(p, c).config)
    ensures exists t :: Runs(Listing(p, g, w.chunks), s, t) && Matches(p, g, w, r, env, Next(p, c).config, t)
  {
    hide Covered, Related, Fits, OperandsAgree, Runs, Listing, Enter, Leave, Infix, Fetch, Assign;
    var ws, k :| Related(p, g, w, r, env, c, s, ws, k);
    RelatedFacts(p, g, w, r, env, c, s, ws, k);
    var inst := p[c.active.ip].inst;
    if OperandsOnly(inst) {
      LocalSimulated(p, g, w, r, env, c, s, ws, k);
    } else if inst.Store? {
      StoreSimulated(p, g, w, r, env, c, s, ws, k);
    } else if inst.Jump? {
      JumpSimulated(p, g, w, r, env, c, s, ws, k);
    } else if inst.CondJump? {
      CondJumpSimulated(p, g, w, r, env, c, s, ws, k);
    } else if inst.Call? {
      EnterSimulated(p, g, w, r, env, c, s, ws, k);
    } else {
      LeaveSimulated(p, g, w, r, env, c, s, ws, k);
    }
  }

  /** A run whose operands agree and whose frames fit. */
  ghost predicate Run(p: Program, env: Env, run: seq<Config>) {
    && |run| > 0 && Fits(env, run[0])
    && forall i :: 0 < i < |run| ==> Follows(p, env, run[i - 1], run[i])
  }

  ghost predicate Follows(p: Program, env: Env, c: Config, d: Config) {
    OperandsAgree(p, c) && Next(p, c) == Running(d) && Fits(env, d)
  }

  lemma {:induction false} RunSimulated(p: Program, g: nat, w: Work, r: set<nat>, env: Env, run: seq<Config>,
        s: State, n: nat)
    requires Covered(p, g, w, r) && EnvOk(env, g) && Run(p, env, run) && n < |run|
             && Matches(p, g, w, r, env, run[0], s)
    ensures exists t :: Runs(Listing(p, g, w.chunks), s, t) && Matches(p, g, w, r, env, run[n], t)
    decreases n
  {
    hide Covered, Matches, Fits, OperandsAgree, Runs, Listing, Next;
    var code := Listing(p, g, w.chunks);
    if n == 0 {
      RunsNone(code, s);
    } else {
      RunSimulated(p, g, w, r, env, run, s, n - 1);
      var m :| Runs(code, s, m) && Matches(p, g, w, r, env, run[n - 1], m);
      assert Follows(p, env, run[n - 1], run[n]);
      StepSimulated(p, g, w, r, env, run[n - 1], m);
      var t :| Runs(code, m, t) && Matches(p, g, w, r, env, run[n], t);
      RunsTrans(code, s, m, t);
    }
  }

  /** The state in which a caller transfers to the label of a function. */
  ghost predicate Called(p: Program, g: nat, w: Work, env: Env, entry: nat, args: seq<Int64>, globals: seq<Int64>,
                  s: State) {
    && entry + 1 < |p| && p[entry].inst.Begin?
       && Defines(Listing(p, g, w.chunks), LabelName.Bytecode(p[entry].offset), s.pc)
    && s.cpu == env.entry && s.cpu.Get(SP) == env.base && s.cpu.Get(GP) == env.globals
    && s.cpu.Get(RA) == env.ra && env.ra >= 0
    && ArgsHold(s.cpu, args) && |globals| == g && GlobalsHold(env, globals, s.cpu)
  }

  /** The chunk at the label of the function called is among those covered. */
  ghost predicate EntryCovered(p: Program, w: Work, r: set<nat>, entry: nat) {
    entry < |p| && forall k :: 0 <= k < |w.chunks| && LabelOf(p, w.chunks[k], p[entry].offset) ==> k in r
  }

  /** The first configuration of a function. */
  ghost function Initial(p: Program, entry: nat, args: seq<Int64>, globals: seq<Int64>): Config
    requires entry < |p| && p[entry].inst.Begin?
  {
    Config(globals, [], Begun(p[entry].inst, entry + 1, args))
  }

  /** The prologue of a function called from outside establishes the relation. */
  lemma StartSimulated(p: Program, g: nat, w: Work, r: set<nat>, env: Env, entry: nat, args: seq<Int64>,
        globals: seq<Int64>, s: State)
    requires Covered(p, g, w, r) && EnvOk(env, g) && Called(p, g, w, env, entry, args, globals, s)
    requires p[entry].offset in w.done && w.done[p[entry].offset] == 0 && EntryCovered(p, w, r, entry)
    requires Fits(env, Initial(p, entry, args, globals))
    ensures exists t ::
              Runs(Listing(p, g, w.chunks), s, t) && Matches(p, g, w, r, env, Initial(p, entry, args, globals), t)
  {
    hide Listing, Runs, Exec, Position, BeginCode, Body, ArgsHold, SlotsHold, Cpu.Get, Cpu.Read, InScope, FrameAgrees,
         Closed, CalleeSaved, SameOutside;
    FindAt(p, entry);
    var d := LabelledChunk(p, g, w, p[entry].offset, entry);
    LabelDefinedOnce(p, g, w, p[entry].offset, s.pc, Position(p, g, w.chunks, d));
    var locc := p[entry].inst.locc;
    var front := BeginChunk(p, g, w, r, d);
    PrologueRuns(p, g, w, r, d, s.cpu);
    BeginBlock(locc, s.cpu);
    var e := Exec(BeginCode(locc), s.cpu);
    StartHolds(env, args, globals, locc, s.cpu, e, g);
    NoSlots(e);
    NothingStored(e, e.Get(FP), locc);
    assert Related(p, g, w, r, env, Initial(p, entry, args, globals), State(Position(p, g, w.chunks, d + 1), e), [],
        d + 1);
  }

  lemma NothingStored(m: Cpu, fp: int, locc: nat)
    ensures LocalsHold(m, fp, seq(locc, i => None))
  {
  }

  lemma StartHolds(env: Env, args: seq<Int64>, globals: seq<Int64>, locc: nat, c: Cpu, e: Cpu, g: nat)
    requires EnvOk(env, g) && |globals| == g && c == env.entry && c.Get(SP) == env.base
             && env.base - 8 * (locc + 12) >= env.limit
    requires ArgsHold(c, args) && GlobalsHold(env, globals, c)
    requires SameRegs(c, e, {SP, FP}) && SameOutside(c, e, env.base - 8 * (locc + 12), env.base - 8 * locc)
    ensures ArgsHold(e, args) && GlobalsHold(env, globals, e) && Untouched(env, e)
    ensures e.Get(GP) == c.Get(GP) && e.Get(RA) == c.Get(RA)
  {
    hide Cpu.Get, Cpu.Read;
    ListFacts();
  }

  /** What a caller finds after a return: the result in a0, its stack pointer and callee-saved registers, and its
      memory untouched. */
  ghost predicate Returned(env: Env, v: Int64, globals: seq<Int64>, t: State) {
    && t.pc == env.ra && t.cpu.Get(A0) == v && t.cpu.Get(SP) == env.base
    && (forall i :: 0 <= i < 12 ==> t.cpu.Get(SAVED[i]) == env.entry.Get(SAVED[i]))
    && GlobalsHold(env, globals, t.cpu) && Untouched(env, t.cpu)
  }

  lemma FinishSimulated(p: Program, g: nat, w: Work, r: set<nat>, env: Env, c: Config, s: State)
    requires Covered(p, g, w, r) && EnvOk(env, g) && Matches(p, g, w, r, env, c, s) && Next(p, c).Finished?
             && env.ra >= 0
    ensures exists t :: Runs(Listing(p, g, w.chunks), s, t) && Returned(env, Next(p, c).result, Next(p, c).globals, t)
  {
    hide Listing, Runs, Position, Covered, FrameOk, CallOk, CalleeSaved, Cpu.Get, Cpu.Read;
    var ws, k :| Related(p, g, w, r, env, c, s, ws, k);
    var e := EpilogueRuns(p, g, w, r, env, c, s, ws, k, env.entry);
    SameReads(s.cpu, e);
    assert Returned(env, Next(p, c).result, Next(p, c).globals, State(s.cpu.Get(RA), e));
  }

  /** Compiler correctness for functions called from outside: if the stack machine, started on a public function,
      runs to its end with recursion of any depth, then the compiled function, called with the same arguments and
      globals, returns to its caller with the same result and the same globals, and with the caller's stack pointer,
      callee-saved registers and memory as they were. */
  lemma FunctionCorrect(p: Program, g: nat, publics: seq<nat>, schedule: seq<nat>, w: Work, r: set<nat>, env: Env,
        entry: nat, args: seq<Int64>, globals: seq<Int64>, run: seq<Config>, s: State)
    requires Completed(p, g, publics, schedule, w) && Covered(p, g, w, r) && EnvOk(env, g)
    requires entry < |p| && p[entry].offset in publics && Called(p, g, w, env, entry, args, globals, s)
    requires EntryCovered(p, w, r, entry)
    requires Run(p, env, run) && run[0] == Initial(p, entry, args, globals) && Next(p, run[|run| - 1]).Finished?
    ensures var last := Next(p, run[|run| - 1]);
            exists t :: Runs(Listing(p, g, w.chunks), s, t) && Returned(env, last.result, last.globals, t)
  {
    hide Completed, Covered, Closed, Matches, Runs, Listing, Next, Fits, Returned, Initial;
    CompletedIsClosed(p, g, publics, schedule, w);
    assert IsAddress(p, p[entry].offset);
    StartSimulated(p, g, w, r, env, entry, args, globals, s);
    var code, n := Listing(p, g, w.chunks), |run| - 1;
    var m :| Runs(code, s, m) && Matches(p, g, w, r, env, run[0], m);
    RunSimulated(p, g, w, r, env, run, m, n);
    var m' :| Runs(code, m, m') && Matches(p, g, w, r, env, run[n], m');
    CalledReturns(p, g, w, env, entry, args, globals, s);
    FinishSimulated(p, g, w, r, env, run[n], m');
    var last := Next(p, run[n]);
    var t :| Runs(code, m', t) && Returned(env, last.result, last.globals, t);
    RunsTrans(code, s, m, m');
    RunsTrans(code, s, m', t);
  }

  lemma CalledReturns(p: Program, g: nat, w: Work, env: Env, entry: nat, args: seq<Int64>, globals: seq<Int64>,
        s: State)
    requires Called(p, g, w, env, entry, args, globals, s)
    ensures env.ra >= 0
  {
  }
}
