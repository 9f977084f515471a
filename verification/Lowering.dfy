/** What each bytecode instruction is lowered to: the register of every stack position, the lines
    emitted at a given height, and the height afterwards. */
module Lowering {
  import opened Rv64
  import opened Bytecode

  const WORD_SIZE: int := 8

  const RA: Reg := 1
  const SP: Reg := 2
  const GP: Reg := 5
  const FP: Reg := 8
  const A0: Reg := 10
  const TEMP1: Reg := 30
  const TEMP2: Reg := 31

  /** Callee-saved registers, the frame pointer first. */
  const SAVED: seq<Reg> := [8, 9, 18, 19, 20, 21, 22, 23, 24, 25, 26, 27]

  const TEMPS: seq<Reg> := [5, 6, 7, 28, 29, 30, 31]

  const ARGS: seq<Reg> := [10, 11, 12, 13, 14, 15, 16, 17]

  /** The registers of the stack positions. */
  const SLOTS: seq<Reg> := [9, 18, 19, 20, 21, 22, 23, 24, 25, 26, 27, 6, 7, 28, 29]

  datatype Loc = InRegister(reg: Reg) | InMemory(number: nat)

  function Slot(k: nat): Loc {
    if k < |SLOTS| then InRegister(SLOTS[k]) else InMemory(k - |SLOTS|)
  }

  function Spilled(top: nat): nat {
    if top > |SLOTS| then top - |SLOTS| else 0
  }

  datatype Frame = Frame(name: string, locals: nat, args: nat)

  // ---------------------------------------------------------------- code buffer

  function RegOf(l: Loc, temp: Reg): Reg {
    match l
    case InRegister(r) => r
    case InMemory(_) => temp
  }

  function Reload(l: Loc, temp: Reg): seq<Op> {
    match l
    case InRegister(_) => []
    case InMemory(n) => [Ld(temp, SP, -WORD_SIZE * n)]
  }

  function MoveToReg(dst: Reg, src: Loc): seq<Op> {
    Reload(src, TEMP2) + [Mv(dst, RegOf(src, TEMP2))]
  }

  function MoveFromReg(dst: Loc, src: Reg): seq<Op> {
    Reload(dst, TEMP2) + [Mv(RegOf(dst, TEMP2), src)]
  }

  function Move(dst: Loc, src: Loc): seq<Op> {
    Reload(src, TEMP1) + Reload(dst, TEMP2) + [Mv(RegOf(dst, TEMP2), RegOf(src, TEMP1))]
  }

  function RCode(alu: Alu, dst: Loc, src1: Loc, src2: Loc): seq<Op> {
    var r1, r2 := RegOf(src1, TEMP1), RegOf(src2, TEMP2);
    Reload(src1, TEMP1) + Reload(src2, TEMP2) +
    match dst
    case InRegister(r) => [RType(alu, r, r1, r2)]
    case InMemory(n) => [RType(alu, r1, r1, r2), Sd(r1, SP, -WORD_SIZE * n)]
  }

  function ICode(alui: AluImm, dst: Loc, src: Loc, imm: int): seq<Op> {
    Reload(dst, TEMP1) + Reload(src, TEMP2) + [IType(alui, RegOf(dst, TEMP1), RegOf(src, TEMP2), imm)]
  }

  function ZeroTest(negated: bool, dst: Loc, src: Loc): seq<Op> {
    var d, s := RegOf(dst, TEMP1), RegOf(src, TEMP2);
    Reload(dst, TEMP1) + Reload(src, TEMP2) + [if negated then Snez(d, s) else Seqz(d, s)]
  }

  function LoadCode(dst: Loc, base: Reg, off: int): seq<Op> {
    Reload(dst, TEMP1) + [Ld(RegOf(dst, TEMP1), base, off)]
  }

  function StoreCode(src: Loc, base: Reg, off: int): seq<Op> {
    Reload(src, TEMP1) + [Sd(RegOf(src, TEMP1), base, off)]
  }

  /** The narrowing of a 64-bit immediate to the C type `int`. */
  function Narrow(x: int): (n: int)
    ensures -0x8000_0000 <= n < 0x8000_0000
  {
    (x + 0x8000_0000) % 0x1_0000_0000 - 0x8000_0000
  }

  function ConstCode(h: nat, v: int): seq<Op> {
    match Slot(h)
    case InRegister(r) => [Li(r, v)]
    case InMemory(n) => [Li(TEMP1, v), Sd(TEMP1, FP, -WORD_SIZE * n)]
  }

  function ImmediateCode(dst: Loc, v: int): seq<Op> {
    Reload(dst, TEMP1) + [Li(RegOf(dst, TEMP1), Narrow(v))]
  }

  function AddressCode(dst: Loc, symbol: string): seq<Op> {
    Reload(dst, TEMP1) + [La(RegOf(dst, TEMP1), symbol)]
  }

  // ------------------------------------------------------------------- operators

  function OperatorCode(op: BinopKind, d: Loc, a: Loc, b: Loc): seq<Op> {
    match op
    case Plus => RCode(Add, d, a, b)
    case Minus => RCode(Sub, d, a, b)
    case Times => RCode(Mul, d, a, b)
    case Divide => RCode(Div, d, a, b)
    case Modulo => RCode(Rem, d, a, b)
    case LessThan => RCode(Slt, d, a, b)
    case LessEqual => RCode(Sgt, d, a, b) + ICode(Xori, d, d, 1)
    case GreaterThan => RCode(Sgt, d, a, b)
    case GreaterEqual => RCode(Slt, d, a, b) + ICode(Xori, d, d, 1)
    case Equal => RCode(Sub, d, b, a) + ZeroTest(false, d, d)
    case NotEqual => RCode(Sub, d, b, a) + ZeroTest(true, d, d)
    case Both => RCode(And, d, a, b)
    case Either => RCode(Or, d, a, b)
  }

  /** The destination is the slot of the first operand. */
  function BinopCode(op: BinopKind, h: nat): seq<Op>
    requires h >= 2
  {
    var a, b := Slot(h - 2), Slot(h - 1);
    ICode(Srai, a, a, 1) + ICode(Srai, b, b, 1) + OperatorCode(op, a, a, b) +
    ICode(Slli, a, a, 1) + ICode(Addi, a, a, 1)
  }

  // ------------------------------------------------------------------------ calls

  function Adjust(imm: int): seq<Op> {
    [IType(Addi, SP, SP, imm)]
  }

  function Push(r: Reg): seq<Op> {
    [Sd(r, SP, -WORD_SIZE), IType(Addi, SP, SP, -WORD_SIZE)]
  }

  function Pop(r: Reg): seq<Op> {
    [Ld(r, SP, 0), IType(Addi, SP, SP, WORD_SIZE)]
  }

  function Pushes(rs: seq<Reg>): seq<Op> {
    if |rs| == 0 then [] else Push(rs[0]) + Pushes(rs[1..])
  }

  /** Pops in the opposite order of the list. */
  function Pops(rs: seq<Reg>): seq<Op> {
    if |rs| == 0 then [] else Pop(rs[|rs| - 1]) + Pops(rs[..|rs| - 1])
  }

  function StoreAll(rs: seq<Reg>, off: int): seq<Op> {
    if |rs| == 0 then [] else [Sd(rs[0], SP, off)] + StoreAll(rs[1..], off - WORD_SIZE)
  }

  function LoadAll(rs: seq<Reg>, off: int): seq<Op> {
    if |rs| == 0 then [] else [Ld(rs[0], SP, off)] + LoadAll(rs[1..], off - WORD_SIZE)
  }

  /** Pops n values into argument registers, the last one first. */
  function ArgMoves(lo: nat, n: nat, h: nat): seq<Op>
    requires lo + n <= 8
  {
    if n == 0 || h == 0 then [] else MoveToReg(A0 + lo + n - 1, Slot(h - 1)) + ArgMoves(lo, n - 1, h - 1)
  }

  /** Pops n values onto the machine stack. */
  function ExtraArgs(n: nat, h: nat): seq<Op> {
    if n == 0 || h == 0 then []
    else Reload(Slot(h - 1), TEMP1) + Push(RegOf(Slot(h - 1), TEMP1)) + ExtraArgs(n - 1, h - 1)
  }

  /** Arguments of a call: those on the operand stack, preceded by a constant if there is one. */
  function Total(argc: nat, first: Option<int>): nat {
    argc + if first.Some? then 1 else 0
  }

  function Extra(argc: nat, first: Option<int>): nat {
    if Total(argc, first) > 8 then Total(argc, first) - 8 else 0
  }

  /** One more word is pushed when the frame, the spilled slots and the extra arguments are odd. */
  function Padded(locals: nat, h: nat, argc: nat, first: Option<int>): bool {
    (locals + Spilled(h) + Extra(argc, first)) % 2 == 1
  }

  function SaveCode(spilled: nat): seq<Op> {
    Adjust(-WORD_SIZE * spilled) + Push(RA) + Pushes(TEMPS) + Pushes(ARGS)
  }

  function RestoreCode(spilled: nat): seq<Op> {
    Pops(ARGS) + Adjust(8 * WORD_SIZE) + LoadAll(TEMPS, -2 * WORD_SIZE) + [Ld(RA, SP, -WORD_SIZE)] +
    Adjust(spilled * WORD_SIZE)
  }

  function Padding(padded: bool, imm: int): seq<Op> {
    if padded then Adjust(imm) else []
  }

  function PassCode(argc: nat, first: Option<int>, h: nat, padded: bool): seq<Op>
    requires h >= argc
  {
    var extra := Extra(argc, first);
    (if first.Some? then [Li(A0, Narrow(first.value))] else []) +
    ArgMoves(Total(argc, first) - argc, argc - extra, h) +
    Padding(padded, -WORD_SIZE) + ExtraArgs(extra, h - (argc - extra))
  }

  function BeforeCall(argc: nat, first: Option<int>, h: nat, locals: nat): seq<Op>
    requires h >= argc
  {
    SaveCode(Spilled(h)) + PassCode(argc, first, h, Padded(locals, h, argc, first))
  }

  function DropExtra(extra: nat): seq<Op> {
    if extra > 0 then Adjust(extra * WORD_SIZE) else []
  }

  function AfterCall(argc: nat, first: Option<int>, h: nat, locals: nat): seq<Op>
    requires h >= argc
  {
    DropExtra(Extra(argc, first)) + Padding(Padded(locals, h, argc, first), WORD_SIZE) +
    MoveFromReg(Slot(h - argc), A0) + RestoreCode(Spilled(h - argc + 1))
  }

  function CallCode(callee: LabelName, argc: nat, first: Option<int>, h: nat, locals: nat): seq<Op>
    requires h >= argc
  {
    BeforeCall(argc, first, h, locals) + [CallTo(callee)] + AfterCall(argc, first, h, locals)
  }

  function BeginCode(locals: nat): seq<Op> {
    StoreAll(SAVED, -(1 + locals) * WORD_SIZE) + [IType(Addi, FP, SP, 0)] + Adjust(-(locals + 12) * WORD_SIZE)
  }

  function EndCode(h: nat, locals: nat, main: bool): seq<Op>
    requires h >= 1
  {
    MoveToReg(A0, Slot(h - 1)) + [IType(Addi, SP, FP, 0)] + LoadAll(SAVED, -(1 + locals) * WORD_SIZE) +
    (if main then [IType(Srai, A0, A0, 1)] else []) + [Ret]
  }

  // ----------------------------------------------------------------- instructions

  /** The lines emitted, the height and frame afterwards and the address to be compiled at a height;
      Abort for a failed check or an instruction that is not implemented. */
  datatype Lowered =
    | Lowered(code: seq<Op>, top: nat, frame: Option<Frame>, target: Option<(nat, nat)>)
    | Abort

  function Done(code: seq<Op>, top: nat, frame: Option<Frame>): Lowered {
    Lowered(code, top, frame, None)
  }

  /** compile_call to a runtime function, after some values have been pushed. */
  function RuntimeCall(before: seq<Op>, name: string, argc: nat, first: Option<int>, h: nat,
           frame: Option<Frame>): Lowered {
    if frame.None? || h < argc then Abort
    else Done(before + CallCode(Symbol(name), argc, first, h, frame.value.locals), h - argc + 1, frame)
  }

  function LowerBegin(heading: seq<Op>, h: nat, frame: Frame): Lowered {
    if frame.name == "main" then
      Done(heading + [Op.Text("sd fp, __gc_stack_bottom, t0"), La(GP, "globals")] +
           CallCode(Symbol("__init"), 0, None, h, frame.locals) + BeginCode(frame.locals),
           h + 1, Some(frame))
    else
      Done(heading + BeginCode(frame.locals), h, Some(frame))
  }

  function LowerLoad(place: Place, index: nat, h: nat, frame: Option<Frame>, globals: nat): Lowered {
    match place
    case Global =>
      if index >= globals then Abort else Done(LoadCode(Slot(h), GP, index * WORD_SIZE), h + 1, frame)
    case Local =>
      if frame.None? || index >= frame.value.locals then Abort
      else Done(LoadCode(Slot(h), FP, -WORD_SIZE * index), h + 1, frame)
    case Argument =>
      if frame.None? || index >= frame.value.args then Abort
      else if index < 8 then Done(MoveFromReg(Slot(h), A0 + index), h + 1, frame)
      else Done(LoadCode(Slot(h), FP, index - 8), h + 1, frame)
    case Captured => Abort
  }

  function LowerStore(place: Place, index: nat, h: nat, frame: Option<Frame>): Lowered {
    if h < 1 then Abort
    else
      match place
      case Global => Done(StoreCode(Slot(h - 1), GP, index * WORD_SIZE), h, frame)
      case Local => Done(StoreCode(Slot(h - 1), FP, -WORD_SIZE * index), h, frame)
      case Argument =>
        if index < 8 then Done(MoveFromReg(Slot(h - 1), A0 + index), h, frame)
        else Done(StoreCode(Slot(h - 1), FP, (index - 8) * WORD_SIZE), h, frame)
      case Captured => Abort
  }

  /** The instructions that are compiled to a call of a runtime function. */
  function LowerRuntime(inst: Inst, h: nat, frame: Option<Frame>): Lowered {
    match inst
    case Text(index) => RuntimeCall(AddressCode(Slot(h), "string_" + Decimal(index)), "RVBstring", 1, None, h + 1,
        frame)
    case Sexp(hash, size) =>
      // The compiler's BOX has no parentheses around its argument, so BOX(size + 1) is 2 * size + 1 + 1.
      RuntimeCall(ImmediateCode(Slot(h), hash), "RVBsexp", size + 1, Some(2 * size + 1 + 1), h + 1, frame)
    case StoreArray => RuntimeCall([], "Bsta", 3, None, h, frame)
    case Elem => RuntimeCall([], "Belem", 2, None, h, frame)
    case Tag(hash, size) =>
      RuntimeCall(ImmediateCode(Slot(h), hash) + ImmediateCode(Slot(h + 1), 2 * size + 1), "Btag", 3, None, h + 2,
          frame)
    case Fail(line, col) =>
      RuntimeCall(AddressCode(Slot(h), "fname") + ImmediateCode(Slot(h + 1), 2 * line + 1) +
                  ImmediateCode(Slot(h + 2), 2 * col + 1), "Bmatch_failure", 4, None, h + 3, frame)
    case BuiltinRead => RuntimeCall([], "Lread", 0, None, h, frame)
    case BuiltinWrite => RuntimeCall([], "Lwrite", 1, None, h, frame)
    case BuiltinLength => RuntimeCall([], "Llength", 1, None, h, frame)
    case BuiltinString => RuntimeCall([], "RVLstring", 1, None, h, frame)
    case BuiltinArray(len) => RuntimeCall([], "RVBarray", len, Some(2 * len + 1), h, frame)
    case _ => Abort
  }

  /** The instructions that only rearrange or compute operands. */
  function LowerOperands(inst: Inst, h: nat, frame: Option<Frame>): Lowered {
    match inst
    case Const(v) => Done(ConstCode(h, Narrow(2 * v + 1)), h + 1, frame)
    case StoreStack =>
      if h < 2 then Abort
      else
        Done(Reload(Slot(h - 1), TEMP1) + Reload(Slot(h - 2), TEMP2) +
             [Sd(RegOf(Slot(h - 1), TEMP1), RegOf(Slot(h - 2), TEMP2), 0)], h - 1, frame)
    case Drop => if h < 1 then Abort else Done([], h - 1, frame)
    case Dup => if h < 1 then Abort else Done(Move(Slot(h), Slot(h - 1)), h + 1, frame)
    case Swap => if h < 2 then Abort else Done(SwapCode(h), h, frame)
    case Line(_) => Done([], h, frame)
    case Binop(op) => if h < 2 then Abort else Done(BinopCode(op, h), h - 1, frame)
    case _ => Abort
  }

  function SwapCode(h: nat): seq<Op>
    requires h >= 2
  {
    var a, b := Slot(h - 1), Slot(h - 2);
    MoveToReg(TEMP1, a) + Move(a, b) + MoveFromReg(b, TEMP1)
  }

  /** The top slot is unboxed in place and compared with zero. */
  function CondJumpCode(target: nat, zero: bool, h: nat): seq<Op>
    requires h >= 1
  {
    var r := RegOf(Slot(h - 1), TEMP1);
    Reload(Slot(h - 1), TEMP1) + [IType(Srai, r, r, 1), Branch(zero, r, 0, LabelName.Bytecode(target))]
  }

  function Lower(inst: Inst, h: nat, frame: Option<Frame>, globals: nat): Lowered {
    match inst
    case Jump(target) => Lowered([Jal(LabelName.Bytecode(target))], h, frame, Some((target, h)))
    case CondJump(target, zero) =>
      if h < 1 then Abort else Lowered(CondJumpCode(target, zero, h), h - 1, frame, Some((target, h - 1)))
    case Begin(entry, argc, locc) =>
      (match entry
       case Public(name) => LowerBegin([Label(Symbol(name))], h, Frame(name, locc, argc))
       case Private(offset) => LowerBegin([], h, Frame(".lbc", locc, argc)))
    case ClosureBegin(argc, locc) => LowerBegin([Label(Symbol("closure"))], h, Frame("closure", locc, argc))
    case End =>
      if frame.None? || h < 1 then Abort
      else Done(EndCode(h, frame.value.locals, frame.value.name == "main"), h - 1, frame)
    case Call(callee, argc) =>
      if frame.None? || h < argc then Abort
      else
        Lowered(CallCode(LabelName.Bytecode(callee), argc, None, h, frame.value.locals), h - argc + 1, frame,
                Some((callee, 0)))
    case Load(place, index) => LowerLoad(place, index, h, frame, globals)
    case Store(place, index) => LowerStore(place, index, h, frame)
    case _ =>
      var l := LowerOperands(inst, h, frame);
      if l.Abort? then LowerRuntime(inst, h, frame) else l
  }

  function Decimal(n: nat): string {
    if n < 10 then [Digit(n)] else Decimal(n / 10) + [Digit(n % 10)]
  }

  function Digit(n: nat): char
    requires n < 10
  {
    "0123456789"[n]
  }
}
