/** The prologue and the epilogue of `main`, whose function body is entered after a call to the runtime's `__init`. */
module MainFunction {
  import opened Rv64
  import opened Bytecode
  import opened Lowering
  import opened Blocks
  import opened Steps

  /** The lines between the store of the stack bottom and the call. */
  function InitCall(locals: nat): seq<Op> {
    [La(GP, "globals")] + BeforeCall(0, None, 0, locals)
  }

  function InitReturn(locals: nat): seq<Op> {
    AfterCall(0, None, 0, locals) + BeginCode(locals)
  }

  lemma MainForm(argc: nat, locc: nat, frame: Option<Frame>, g: nat)
    ensures var l := Lower(Begin(Public("main"), argc, locc), 0, frame, g);
            && l.Lowered? && l.top == 1 && l.frame == Some(Frame("main", locc, argc))
            && l.code == [Label(Symbol("main")), Op.Text("sd fp, __gc_stack_bottom, t0")] + InitCall(locc)
                         + [CallTo(Symbol("__init"))] + InitReturn(locc)
  {
    hide BeforeCall, AfterCall, BeginCode;
  }

  /** `__init` is entered with the address of the globals loaded, the caller's registers saved, and the stack pointer
      aligned to 16 bytes exactly if `main` has an even number of locals. */
  lemma InitReady(locals: nat, c: Cpu)
    requires 144 <= c.Get(SP) < HALF - 8
    ensures AllPlain(InitCall(locals))
    ensures var d := Exec(InitCall(locals), c);
            && d.Get(GP) == c.AddressOf("globals") && d.Get(FP) == c.Get(FP)
            && CallReady(0, None, 0, locals, c.Put(GP, c.AddressOf("globals")), d)
            && (c.Get(SP) % 16 == 0 ==> (d.Get(SP) % 16 == 0 <==> locals % 2 == 0))
  {
    hide Exec, AllPlain, BeforeCall, CallerSaved, SameOutside;
    var m := c.Put(GP, c.AddressOf("globals"));
    ExecOne(La(GP, "globals"), c);
    BeforeBlock(0, None, 0, locals, m);
    ExecAppend([La(GP, "globals")], BeforeCall(0, None, 0, locals), c);
  }

  /** When `__init` has returned, the frame of `main` stands where the stack pointer was, and all registers are saved in
      it, but for s1: there the result of `__init`, the phantom operand, has taken the place of the caller's word. */
  lemma MainBegun(locals: nat, c: Cpu, d': Cpu)
    requires 8 * (locals + 18) <= c.Get(SP) < HALF - 8 && locals <= MAX_LOCALS
    requires AllPlain(InitCall(locals)) && WellBehaved(Exec(InitCall(locals), c), d')
    ensures AllPlain(InitReturn(locals))
    ensures var e, fp := Exec(InitReturn(locals), d'), c.Get(SP);
            && e.Get(FP) == fp && e.Get(SP) == fp - 8 * (locals + 12) && e.Get(RA) == c.Get(RA)
            && e.Get(GP) == c.AddressOf("globals") && e.Get(SLOTS[0]) == d'.Get(A0)
            && (forall i :: 0 <= i < 12 ==>
                  e.Read(fp - 8 * (locals + 1) - 8 * i) == if i == 1 then d'.Get(A0) else c.Get(SAVED[i]))
  {
    hide Exec, AllPlain, BeforeCall, AfterCall, BeginCode, Cpu.Get, Cpu.Read, InitCall;
    var m, d, sp := c.Put(GP, c.AddressOf("globals")), Exec(InitCall(locals), c), c.Get(SP);
    PutGlobals(c);
    ListFacts();
    InitReady(locals, c);
    SavedWhenReturned(m, d, d', sp, locals);
    AfterBlock(0, None, 0, locals, 7, m, d', sp);
    var a := Exec(AfterCall(0, None, 0, locals), d');
    BeginBlock(locals, a);
    ExecAppend(AfterCall(0, None, 0, locals), BeginCode(locals), d');
    var e := Exec(InitReturn(locals), d');
    forall i | 0 <= i < 12
      ensures e.Read(sp - 8 * (locals + 1) - 8 * i) == if i == 1 then d'.Get(A0) else c.Get(SAVED[i])
    {
      SavedOther(i);
    }
    assert GP == TEMPS[0] && SLOTS[0] == SAVED[1];
  }

  lemma PutGlobals(c: Cpu)
    ensures var m := c.Put(GP, c.AddressOf("globals"));
            m.Get(GP) == c.AddressOf("globals") && m.mem == c.mem && SameRegs(c, m, {GP})
  {
  }

  lemma SavedOther(i: nat)
    requires i < 12
    ensures SAVED[i] in SAVED && SAVED[i] != GP && SAVED[i] != SP && !(10 <= SAVED[i] < 18)
    ensures SAVED[i] == SLOTS[0] <==> i == 1
  {
  }

  /** At its end `main` returns the number of the topmost operand, not its word, and gives back the saved words. */
  lemma MainEnds(h: nat, args: nat, locals: nat, g: nat, c: Cpu, d: Cpu, fp: int)
    requires 1 <= h <= |SLOTS| && d.Get(FP) == fp && 8 * (locals + 14) <= fp && fp < HALF
             && CalleeSaved(c, d, fp, locals)
    requires locals <= MAX_LOCALS
    ensures var l := Lower(End, h, Some(Frame("main", locals, args)), g);
            && l.Lowered? && l.top == h - 1 && |l.code| > 0 && l.code[|l.code| - 1] == Ret
            && AllPlain(l.code[..|l.code| - 1])
            && var e := Exec(l.code[..|l.code| - 1], d);
            && e.Get(A0) == Unbox(d.Get(SLOTS[h - 1])) && e.Get(SP) == fp && e.Get(RA) == d.Get(RA) && e.mem == d.mem
            && forall i :: 0 <= i < 12 ==> e.Get(SAVED[i]) == c.Get(SAVED[i])
  {
    hide Exec, AllPlain, LoadAll, MoveToReg, Cpu.Get, Cpu.Read;
    EndBlock(h, locals, c, d, fp);
    var code := MoveToReg(A0, Slot(h - 1)) + [IType(Addi, SP, FP, 0)] + LoadAll(SAVED, -(1 + locals) * WORD_SIZE);
    var op, m := IType(Srai, A0, A0, 1), Exec(code, d);
    var all := Lower(End, h, Some(Frame("main", locals, args)), g).code;
    assert all == code + [op] + [Ret];
    assert all[..|all| - 1] == code + [op];
    Unboxed(m);
    ExecAppend(code, [op], d);
    ListFacts();
  }

  lemma Unboxed(m: Cpu)
    ensures AllPlain([IType(Srai, A0, A0, 1)])
    ensures var e := Exec([IType(Srai, A0, A0, 1)], m);
            e.Get(A0) == Unbox(m.Get(A0)) && SameRegs(m, e, {A0}) && e.mem == m.mem
  {
    ExecOne(IType(Srai, A0, A0, 1), m);
    assert TwoTo(1) == 2 * TwoTo(0) == 2;
  }
}
