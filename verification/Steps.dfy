/** What the code of the instructions without control flow does to the registers of the operand stack. */
module Steps {
  import opened Rv64
  import opened Bytecode
  import opened Lowering
  import opened Operators
  import opened Blocks

  /** Operand k is in the register of position k. */
  ghost predicate SlotsHold(c: Cpu, ops: seq<Int64>) {
    |ops| <= |SLOTS| && forall k :: 0 <= k < |ops| ==> c.Get(SLOTS[k]) == ops[k]
  }

  /** Only the registers of the operand stack and the two scratch registers may differ. */
  ghost predicate OnlySlots(c: Cpu, d: Cpu) {
    d.mem == c.mem && forall r: Reg :: r !in SLOTS && r != TEMP1 && r != TEMP2 ==> d.Get(r) == c.Get(r)
  }

  /** A single slot has a new value. */
  ghost predicate SlotSet(c: Cpu, d: Cpu, k: nat, v: Int64)
    requires k < |SLOTS|
  {
    d.mem == c.mem && d.Get(SLOTS[k]) == v && SameRegs(c, d, {SLOTS[k] as int})
  }

  lemma SetHolds(c: Cpu, d: Cpu, ops: seq<Int64>, v: Int64)
    requires |ops| < |SLOTS| && SlotsHold(c, ops) && SlotSet(c, d, |ops|, v)
    ensures SlotsHold(d, ops + [v]) && OnlySlots(c, d)
  {
    hide Cpu.Get;
    SlotFacts();
  }

  /** Code that touches two slots and the scratch register gives a new top to the operand stack. */
  lemma TopReplaced(c: Cpu, d: Cpu, ops: seq<Int64>, tail: seq<Int64>)
    requires 2 <= |ops| && SlotsHold(c, ops) && d.mem == c.mem && |tail| <= 2
    requires SameRegs(c, d, {SLOTS[|ops| - 2] as int, SLOTS[|ops| - 1], TEMP1})
    requires |tail| > 0 ==> d.Get(SLOTS[|ops| - 2]) == tail[0]
    requires |tail| > 1 ==> d.Get(SLOTS[|ops| - 1]) == tail[1]
    ensures SlotsHold(d, ops[..|ops| - 2] + tail) && OnlySlots(c, d)
  {
    hide Cpu.Get;
    SlotsSpecial();
    SlotsDistinct();
    var n := |ops|;
    forall k | 0 <= k < n - 2
      ensures d.Get(SLOTS[k]) == ops[k]
    {
      assert SLOTS[k] != SLOTS[n - 2] && SLOTS[k] != SLOTS[n - 1] && SLOTS[k] != TEMP1;
      assert c.Get(SLOTS[k]) == ops[k];
    }
  }

  lemma FewerHold(c: Cpu, ops: seq<Int64>, n: nat)
    requires SlotsHold(c, ops) && n <= |ops|
    ensures SlotsHold(c, ops[..n])
  {
  }

  lemma ConstBlock(h: nat, v: int, c: Cpu)
    requires h < |SLOTS| && -0x4000_0000 <= v < 0x4000_0000
    ensures var code := ConstCode(h, Narrow(2 * v + 1));
            AllPlain(code) && SlotSet(c, Exec(code, c), h, Box(v))
  {
    SlotFacts();
    ConstExact(v);
    ExecOne(Li(SLOTS[h], Narrow(2 * v + 1)), c);
  }

  lemma CopyBlock(r: Reg, h: nat, c: Cpu)
    requires h < |SLOTS|
    ensures var code := [Mv(SLOTS[h], r)];
            AllPlain(code) && SlotSet(c, Exec(code, c), h, c.Get(r))
  {
    SlotFacts();
    MoveOne(SLOTS[h], r, c);
  }

  /** A store to one of the first eight arguments is compiled the wrong way round: the argument keeps its value, and the
      operand on top of the stack is replaced by it. So it stores exactly a value that was there already. */
  lemma StoreArgumentBackwards(index: nat, h: nat, frame: Option<Frame>, c: Cpu)
    requires 1 <= h <= |SLOTS| && index < 8
    ensures var code := LowerStore(Argument, index, h, frame).code;
            && AllPlain(code)
            && var d := Exec(code, c);
               && d.Get(A0 + index) == c.Get(A0 + index) && d.Get(SLOTS[h - 1]) == c.Get(A0 + index)
               && (d.Get(A0 + index) == c.Get(SLOTS[h - 1]) <==> c.Get(A0 + index) == c.Get(SLOTS[h - 1]))
  {
    hide Exec, AllPlain, Cpu.Get;
    SlotFacts();
    InRegisters(Add, Addi, false, 0, SLOTS[h - 1], A0 + index, A0 + index);
    CopyBlock(A0 + index, h - 1, c);
  }

  lemma LoadBlock(base: Reg, off: int, h: nat, c: Cpu)
    requires h < |SLOTS| && 0 <= c.Get(base) + off < HALF && Short(off)
    ensures var code := LoadCode(Slot(h), base, off);
            AllPlain(code) && SlotSet(c, Exec(code, c), h, c.Read(c.Get(base) + off))
  {
    SlotFacts();
    ExecOne(Ld(SLOTS[h], base, off), c);
  }

  lemma StoreBlock(base: Reg, off: int, h: nat, c: Cpu)
    requires h < |SLOTS| && 0 <= c.Get(base) + off < HALF && Short(off)
    ensures var code := StoreCode(Slot(h), base, off);
            AllPlain(code) && Exec(code, c) == c.Write(c.Get(base) + off, c.Get(SLOTS[h]))
  {
    ExecOne(Sd(SLOTS[h], base, off), c);
  }

  lemma SwapRegs(a: Reg, b: Reg, c: Cpu)
    requires a != 0 && b != 0 && a != b && a != TEMP1 && b != TEMP1
    ensures var code := [Mv(TEMP1, a)] + [Mv(a, b)] + [Mv(b, TEMP1)];
            && AllPlain(code)
            && var d := Exec(code, c);
               d.mem == c.mem && SameRegs(c, d, {a, b, TEMP1}) && d.Get(a) == c.Get(b) && d.Get(b) == c.Get(a)
  {
    hide Exec, AllPlain, Cpu.Get;
    MoveOne(TEMP1, a, c);
    var c1 := Exec([Mv(TEMP1, a)], c);
    MoveOne(a, b, c1);
    MoveOne(b, TEMP1, Exec([Mv(a, b)], c1));
    ExecAppend([Mv(TEMP1, a)], [Mv(a, b)], c);
    ExecAppend([Mv(TEMP1, a)] + [Mv(a, b)], [Mv(b, TEMP1)], c);
  }

  lemma SwapForm(h: nat)
    requires 2 <= h <= |SLOTS|
    ensures var a, b := SLOTS[h - 1], SLOTS[h - 2];
            SwapCode(h) == [Mv(TEMP1, a)] + [Mv(a, b)] + [Mv(b, TEMP1)]
  {
    hide MoveToReg, MoveFromReg, Move;
    var a, b := SLOTS[h - 1], SLOTS[h - 2];
    InRegisters(Add, Addi, false, 0, TEMP1, a, a);
    InRegisters(Add, Addi, false, 0, a, b, b);
    InRegisters(Add, Addi, false, 0, b, TEMP1, TEMP1);
  }

  lemma SwapBlock(ops: seq<Int64>, c: Cpu)
    requires 2 <= |ops| && SlotsHold(c, ops)
    ensures AllPlain(SwapCode(|ops|))
    ensures var n, d := |ops|, Exec(SwapCode(|ops|), c);
            SlotsHold(d, ops[..n - 2] + [ops[n - 1], ops[n - 2]]) && OnlySlots(c, d)
  {
    hide Exec, AllPlain, SwapCode, Cpu.Get;
    var n := |ops|;
    SlotsSpecial();
    SlotsDistinct();
    SwapForm(n);
    SwapRegs(SLOTS[n - 1], SLOTS[n - 2], c);
    TopReplaced(c, Exec(SwapCode(n), c), ops, [ops[n - 1], ops[n - 2]]);
  }

  lemma ImmOne(alui: AluImm, r: Reg, imm: int, c: Cpu)
    requires r != 0 && Encodable(IType(alui, r, r, imm))
    ensures AllPlain([IType(alui, r, r, imm)])
    ensures var d := Exec([IType(alui, r, r, imm)], c);
            d.mem == c.mem && d.Get(r) == ComputeImm(alui, c.Get(r), imm) && SameRegs(c, d, {r})
  {
    hide ComputeImm;
    ExecOne(IType(alui, r, r, imm), c);
  }

  lemma AluOne(alu: Alu, d: Reg, r1: Reg, r2: Reg, c: Cpu)
    requires d != 0
    ensures AllPlain([RType(alu, d, r1, r2)])
    ensures var e := Exec([RType(alu, d, r1, r2)], c);
            e.mem == c.mem && e.Get(d) == Compute(alu, c.Get(r1), c.Get(r2)) && SameRegs(c, e, {d})
  {
    hide Compute;
    ExecOne(RType(alu, d, r1, r2), c);
  }

  lemma TestOne(negated: bool, r: Reg, c: Cpu)
    requires r != 0
    ensures var code := [if negated then Snez(r, r) else Seqz(r, r)];
            && AllPlain(code)
            && var d := Exec(code, c);
               && d.mem == c.mem && SameRegs(c, d, {r})
               && d.Get(r) == if (c.Get(r) == 0) != negated then 1 else 0
  {
    ExecOne(if negated then Snez(r, r) else Seqz(r, r), c);
  }

  /** Lowering for locations in registers. */
  lemma InRegisters(alu: Alu, alui: AluImm, negated: bool, imm: int, d: Reg, a: Reg, b: Reg)
    ensures RCode(alu, InRegister(d), InRegister(a), InRegister(b)) == [RType(alu, d, a, b)]
    ensures ICode(alui, InRegister(d), InRegister(a), imm) == [IType(alui, d, a, imm)]
    ensures ZeroTest(negated, InRegister(d), InRegister(a)) == [if negated then Snez(d, a) else Seqz(d, a)]
    ensures MoveToReg(d, InRegister(a)) == [Mv(d, a)] && Move(InRegister(d), InRegister(a)) == [Mv(d, a)]
    ensures MoveFromReg(InRegister(d), a) == [Mv(d, a)]
  {
  }

  function PlainAlu(op: BinopKind): Alu {
    match op
    case Plus => Add
    case Minus => Sub
    case Times => Mul
    case Divide => Div
    case Modulo => Rem
    case LessThan => Slt
    case Both => And
    case Either => Or
    case _ => Sgt
  }

  /** The operator lines leave in the first register what Operate says. */
  lemma OperatorBlock(op: BinopKind, a: Reg, b: Reg, c: Cpu)
    requires a != 0 && b != 0
    ensures var code := OperatorCode(op, InRegister(a), InRegister(a), InRegister(b));
            && AllPlain(code)
            && var d := Exec(code, c);
               d.mem == c.mem && SameRegs(c, d, {a}) && d.Get(a) == Operate(op, c.Get(a), c.Get(b))
  {
    hide Exec, AllPlain, Compute, ComputeImm, Cpu.Get, RCode, ICode, ZeroTest;
    if op.LessEqual? || op.GreaterEqual? {
      NegatedBlock(if op.LessEqual? then Sgt else Slt, a, b, c);
    } else if op.Equal? || op.NotEqual? {
      TestedBlock(op.NotEqual?, a, b, c);
    } else {
      InRegisters(PlainAlu(op), Addi, false, 0, a, a, b);
      AluOne(PlainAlu(op), a, a, b, c);
    }
  }

  lemma NegatedBlock(alu: Alu, a: Reg, b: Reg, c: Cpu)
    requires a != 0
    ensures var code := RCode(alu, InRegister(a), InRegister(a), InRegister(b))
            + ICode(Xori, InRegister(a), InRegister(a), 1);
            && AllPlain(code)
            && var d := Exec(code, c);
               && d.mem == c.mem && SameRegs(c, d, {a})
               && d.Get(a) == ComputeImm(Xori, Compute(alu, c.Get(a), c.Get(b)), 1)
  {
    hide Exec, AllPlain, Compute, ComputeImm, Cpu.Get, RCode, ICode;
    InRegisters(alu, Xori, false, 1, a, a, b);
    var op0, op1 := RType(alu, a, a, b), IType(Xori, a, a, 1);
    AluOne(alu, a, a, b, c);
    ImmOne(Xori, a, 1, Exec([op0], c));
    ExecAppend([op0], [op1], c);
  }

  lemma TestedBlock(negated: bool, a: Reg, b: Reg, c: Cpu)
    requires a != 0
    ensures var code := RCode(Sub, InRegister(a), InRegister(b), InRegister(a))
            + ZeroTest(negated, InRegister(a), InRegister(a));
            && AllPlain(code)
            && var d := Exec(code, c);
               && d.mem == c.mem && SameRegs(c, d, {a})
               && d.Get(a) == if (Compute(Sub, c.Get(b), c.Get(a)) == 0) != negated then 1 else 0
  {
    hide Exec, AllPlain, Compute, Cpu.Get, RCode, ZeroTest;
    InRegisters(Sub, Addi, negated, 0, a, b, a);
    InRegisters(Sub, Addi, negated, 0, a, a, a);
    var op0, op1 := RType(Sub, a, b, a), if negated then Snez(a, a) else Seqz(a, a);
    AluOne(Sub, a, b, a, c);
    TestOne(negated, a, Exec([op0], c));
    ExecAppend([op0], [op1], c);
  }

  lemma BinopRegs(op: BinopKind, a: Reg, b: Reg, c: Cpu)
    requires a != 0 && b != 0 && a != b
    ensures var s := [IType(Srai, a, a, 1)] + [IType(Srai, b, b, 1)];
            var t := [IType(Slli, a, a, 1)] + [IType(Addi, a, a, 1)];
            var code := s + OperatorCode(op, InRegister(a), InRegister(a), InRegister(b)) + t;
            && AllPlain(code)
            && var d := Exec(code, c);
               d.mem == c.mem && SameRegs(c, d, {a, b}) && d.Get(a) == CompiledValue(op, c.Get(a), c.Get(b))
  {
    hide Exec, AllPlain, Operate, ComputeImm, OperatorCode, Cpu.Get;
    var code := OperatorCode(op, InRegister(a), InRegister(a), InRegister(b));
    ImmOne(Srai, a, 1, c);
    var c1 := Exec([IType(Srai, a, a, 1)], c);
    ImmOne(Srai, b, 1, c1);
    ExecAppend([IType(Srai, a, a, 1)], [IType(Srai, b, b, 1)], c);
    var c2 := Exec([IType(Srai, b, b, 1)], c1);
    OperatorBlock(op, a, b, c2);
    var c3 := Exec(code, c2);
    ImmOne(Slli, a, 1, c3);
    var c4 := Exec([IType(Slli, a, a, 1)], c3);
    ImmOne(Addi, a, 1, c4);
    ExecAppend([IType(Slli, a, a, 1)], [IType(Addi, a, a, 1)], c3);
    ExecAppend([IType(Srai, a, a, 1)] + [IType(Srai, b, b, 1)], code, c);
    ExecAppend([IType(Srai, a, a, 1)] + [IType(Srai, b, b, 1)] + code,
        [IType(Slli, a, a, 1)] + [IType(Addi, a, a, 1)], c);
  }

  lemma BinopForm(op: BinopKind, h: nat)
    requires 2 <= h <= |SLOTS|
    ensures var a, b := SLOTS[h - 2], SLOTS[h - 1];
            BinopCode(op, h) == [IType(Srai, a, a, 1)] + [IType(Srai, b, b, 1)] +
                                OperatorCode(op, InRegister(a), InRegister(a), InRegister(b)) +
                                ([IType(Slli, a, a, 1)] + [IType(Addi, a, a, 1)])
  {
    hide ICode, OperatorCode;
    var a, b := SLOTS[h - 2], SLOTS[h - 1];
    InRegisters(Add, Srai, false, 1, a, a, a);
    InRegisters(Add, Srai, false, 1, b, b, b);
    InRegisters(Add, Slli, false, 1, a, a, a);
    InRegisters(Add, Addi, false, 1, a, a, a);
  }

  /** The two topmost operands give way to the value of the operator. */
  lemma BinopBlock(op: BinopKind, ops: seq<Int64>, c: Cpu)
    requires 2 <= |ops| && SlotsHold(c, ops)
    ensures AllPlain(BinopCode(op, |ops|))
    ensures var n, d := |ops|, Exec(BinopCode(op, |ops|), c);
            && OnlySlots(c, d)
            && SlotsHold(d, ops[..n - 2] + [CompiledValue(op, ops[n - 2], ops[n - 1])])
  {
    hide Exec, AllPlain, CompiledValue, BinopCode, OperatorCode, Cpu.Get;
    var n := |ops|;
    SlotsSpecial();
    SlotsDistinct();
    BinopForm(op, n);
    BinopRegs(op, SLOTS[n - 2], SLOTS[n - 1], c);
    TopReplaced(c, Exec(BinopCode(op, n), c), ops, [CompiledValue(op, ops[n - 2], ops[n - 1])]);
  }
}
