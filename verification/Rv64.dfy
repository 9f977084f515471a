/** The target of the compiler: a small RV64 machine with 32 registers, memory of 8-byte words and
    an assembly listing whose positions serve as code addresses. */
module Rv64 {
  import opened Words

  const HALF: int := 0x8000_0000_0000_0000

  /** The contents of a register, and the C type `aint`. */
  type Int64 = x: int | -HALF <= x < HALF

  /** The residue modulo 2^64, read as two's complement. */
  function Wrap(x: int): (w: Int64)
    ensures -HALF <= x < HALF ==> w == x
  {
    (x + HALF) % MODULUS - HALF
  }

  lemma WrapPeriod(x: int, k: int)
    ensures Wrap(x + k * MODULUS) == Wrap(x)
  {
    ModPeriod(x + HALF, k);
  }

  lemma {:induction false} ModPeriod(x: int, k: int)
    ensures (x + k * MODULUS) % MODULUS == x % MODULUS
    decreases if k < 0 then -k else k
  {
    if k > 0 {
      ModPeriod(x, k - 1);
      assert x + k * MODULUS == (x + (k - 1) * MODULUS) + MODULUS;
    } else if k < 0 {
      ModPeriod(x, k + 1);
      assert x + k * MODULUS == (x + (k + 1) * MODULUS) - MODULUS;
    }
  }

  /** Wrapping early or late makes no difference to sums and doublings. */
  lemma WrapEarly(x: int, y: int)
    ensures Wrap(Wrap(x) + y) == Wrap(x + y)
    ensures Wrap(2 * Wrap(x) + y) == Wrap(2 * x + y)
  {
    var k := (x + HALF) / MODULUS;
    assert Wrap(x) == x + (-k) * MODULUS;
    WrapPeriod(x + y, -k);
    WrapPeriod(2 * x + y, -2 * k);
    assert 2 * Wrap(x) + y == 2 * x + y + (-2 * k) * MODULUS;
  }

  // ------------------------------------------------------------ bitwise operators

  function Magnitude(a: int): nat {
    if a < 0 then -a else a
  }

  /** Two's complement `and`, bit by bit. */
  function BitAnd(a: int, b: int): int
    decreases Magnitude(a)
  {
    if a == 0 then 0
    else if a == -1 then b
    else 2 * BitAnd(a / 2, b / 2) + (if a % 2 == 1 && b % 2 == 1 then 1 else 0)
  }

  function BitOr(a: int, b: int): int
    decreases Magnitude(a)
  {
    if a == 0 then b
    else if a == -1 then -1
    else 2 * BitOr(a / 2, b / 2) + (if a % 2 == 1 || b % 2 == 1 then 1 else 0)
  }

  function BitXor(a: int, b: int): int
    decreases Magnitude(b)
  {
    if b == 0 then a
    else if b == -1 then -1 - a
    else 2 * BitXor(a / 2, b / 2) + (if a % 2 != b % 2 then 1 else 0)
  }

  // -------------------------------------------------------------------- division

  /** The quotient rounded towards zero. */
  function TruncatedQuotient(a: int, b: int): int
    requires b != 0
  {
    var q := Magnitude(a) / Magnitude(b);
    if (a < 0) == (b < 0) then q else -q
  }

  /** The remainder with the sign of the dividend. */
  function TruncatedRemainder(a: int, b: int): int
    requires b != 0
  {
    var r := Magnitude(a) % Magnitude(b);
    if a < 0 then -r else r
  }

  // ------------------------------------------------------------------ instructions

  type Reg = n: nat | n < 32

  datatype Alu = Add | Sub | Mul | Div | Rem | And | Or | Slt | Sgt

  datatype AluImm = Addi | Srai | Slli | Xori

  datatype LabelName = Bytecode(offset: nat) | Symbol(name: string)

  datatype Op =
    | Label(name: LabelName)
    | Li(rd: Reg, imm: int)
    | La(rd: Reg, symbol: string)
    | Mv(rd: Reg, rs: Reg)
    | Seqz(rd: Reg, rs: Reg)
    | Snez(rd: Reg, rs: Reg)
    | RType(alu: Alu, rd: Reg, rs1: Reg, rs2: Reg)
    | IType(alui: AluImm, rd: Reg, rs: Reg, imm: int)
    | Ld(rd: Reg, base: Reg, off: int)
    | Sd(rs: Reg, base: Reg, off: int)
    | Jal(target: LabelName)
    | Branch(onEqual: bool, rs1: Reg, rs2: Reg, target: LabelName)
    | CallTo(target: LabelName)
    | Ret
    | Text(text: string)

  /** Register-to-register arithmetic; division by zero and overflow as in section 7.2 of the
      RISC-V Unprivileged ISA. */
  function Compute(alu: Alu, a: Int64, b: Int64): Int64 {
    match alu
    case Add => Wrap(a + b)
    case Sub => Wrap(a - b)
    case Mul => Wrap(a * b)
    case Div => if b == 0 then -1 else if a == -HALF && b == -1 then -HALF else Wrap(TruncatedQuotient(a, b))
    case Rem => if b == 0 then a else if a == -HALF && b == -1 then 0 else Wrap(TruncatedRemainder(a, b))
    case And => Wrap(BitAnd(a, b))
    case Or => Wrap(BitOr(a, b))
    case Slt => if a < b then 1 else 0
    case Sgt => if a > b then 1 else 0
  }

  function TwoTo(n: nat): (p: nat)
    ensures p > 0
  {
    if n == 0 then 1 else 2 * TwoTo(n - 1)
  }

  function ComputeImm(alui: AluImm, a: Int64, imm: int): Int64 {
    match alui
    case Addi => Wrap(a + imm)
    case Srai => Wrap(a / TwoTo(Magnitude(imm)))
    case Slli => Wrap(a * TwoTo(Magnitude(imm)))
    case Xori => Wrap(BitXor(a, imm))
  }

  // ----------------------------------------------------------------------- machine

  type Regs = r: seq<Int64> | |r| == 32 witness seq(32, i => 0)

  /** Registers, memory, and the addresses of the symbols in the data section; what is not in a map reads as zero. */
  datatype Cpu = Cpu(regs: Regs, mem: map<int, Int64>, symbols: map<string, Int64>) {

    function Get(n: Reg): Int64 {
      if n == 0 then 0 else regs[n]
    }

    function Put(n: Reg, v: Int64): Cpu {
      if n == 0 then this else this.(regs := regs[n := v])
    }

    function Read(a: int): Int64 {
      if a in mem then mem[a] else 0
    }

    function AddressOf(symbol: string): Int64 {
      if symbol in symbols then symbols[symbol] else 0
    }

    function Write(a: int, v: Int64): Cpu {
      this.(mem := mem[a := v])
    }
  }

  /** A 12-bit signed immediate. */
  predicate Short(imm: int) {
    -2048 <= imm < 2048
  }

  /** Immediates that an assembler accepts. */
  predicate Encodable(op: Op) {
    match op
    case Li(_, imm) => -0x8000_0000 <= imm < 0x8000_0000
    case IType(alui, _, _, imm) => if alui.Srai? || alui.Slli? then 0 <= imm < 64 else Short(imm)
    case Ld(_, _, off) => Short(off)
    case Sd(_, _, off) => Short(off)
    case _ => true
  }

  /** Instructions after which control goes on to the next one. */
  predicate Plain(op: Op) {
    !op.Jal? && !op.Branch? && !op.CallTo? && !op.Ret? && !op.Text? && Encodable(op)
  }

  function Do(op: Op, c: Cpu): Cpu
    requires Plain(op)
  {
    match op
    case Label(_) => c
    case Li(rd, imm) => c.Put(rd, Wrap(imm))
    case La(rd, symbol) => c.Put(rd, c.AddressOf(symbol))
    case Mv(rd, rs) => c.Put(rd, c.Get(rs))
    case Seqz(rd, rs) => c.Put(rd, if c.Get(rs) == 0 then 1 else 0)
    case Snez(rd, rs) => c.Put(rd, if c.Get(rs) != 0 then 1 else 0)
    case RType(alu, rd, rs1, rs2) => c.Put(rd, Compute(alu, c.Get(rs1), c.Get(rs2)))
    case IType(alui, rd, rs, imm) => c.Put(rd, ComputeImm(alui, c.Get(rs), imm))
    case Ld(rd, base, off) => c.Put(rd, c.Read(Wrap(c.Get(base) + off)))
    case Sd(rs, base, off) => c.Write(Wrap(c.Get(base) + off), c.Get(rs))
  }

  predicate AllPlain(ops: seq<Op>) {
    forall i :: 0 <= i < |ops| ==> Plain(ops[i])
  }

  function Exec(ops: seq<Op>, c: Cpu): Cpu
    requires AllPlain(ops)
  {
    if |ops| == 0 then c else Exec(ops[1..], Do(ops[0], c))
  }

  lemma {:induction false} ExecAppend(a: seq<Op>, b: seq<Op>, c: Cpu)
    requires AllPlain(a) && AllPlain(b)
    ensures AllPlain(a + b) && Exec(a + b, c) == Exec(b, Exec(a, c))
  {
    if |a| == 0 {
      assert a + b == b;
    } else {
      ExecAppend(a[1..], b, Do(a[0], c));
      assert (a + b)[1..] == a[1..] + b && (a + b)[0] == a[0];
    }
  }

  lemma ExecOne(op: Op, c: Cpu)
    requires Plain(op)
    ensures AllPlain([op]) && Exec([op], c) == Do(op, c)
  {
  }

  datatype State = State(pc: nat, cpu: Cpu)

  /** The line that defines a label. */
  ghost predicate Defines(code: seq<Op>, name: LabelName, p: int) {
    0 <= p < |code| && code[p] == Label(name)
  }

  /** One machine step. A transfer goes to a line that defines its label; `ra` holds line numbers. */
  ghost predicate Step(code: seq<Op>, s: State, t: State) {
    s.pc < |code| &&
    match code[s.pc]
    case Jal(l) => Defines(code, l, t.pc) && t.cpu == s.cpu
    case Branch(onEqual, r1, r2, l) =>
      && t.cpu == s.cpu
      && if (s.cpu.Get(r1) == s.cpu.Get(r2)) == onEqual then Defines(code, l, t.pc) else t.pc == s.pc + 1
    case CallTo(l) => Defines(code, l, t.pc) && t.cpu == s.cpu.Put(1, Wrap(s.pc + 1))
    case Ret => t.pc == s.cpu.Get(1) && t.cpu == s.cpu
    case Text(_) => false
    case op => Plain(op) && t == State(s.pc + 1, Do(op, s.cpu))
  }

  ghost predicate Reaches(code: seq<Op>, s: State, n: nat, t: State)
    decreases n
  {
    if n == 0 then s == t else exists m :: Step(code, s, m) && Reaches(code, m, n - 1, t)
  }

  ghost predicate Runs(code: seq<Op>, s: State, t: State) {
    exists n: nat :: Reaches(code, s, n, t)
  }

  lemma {:induction false} ReachesTrans(code: seq<Op>, s: State, n: nat, t: State, k: nat, u: State)
    requires Reaches(code, s, n, t) && Reaches(code, t, k, u)
    ensures Reaches(code, s, n + k, u)
    decreases n
  {
    if n > 0 {
      var m :| Step(code, s, m) && Reaches(code, m, n - 1, t);
      ReachesTrans(code, m, n - 1, t, k, u);
    }
  }

  lemma RunsTrans(code: seq<Op>, s: State, t: State, u: State)
    requires Runs(code, s, t) && Runs(code, t, u)
    ensures Runs(code, s, u)
  {
    var n: nat :| Reaches(code, s, n, t);
    var k: nat :| Reaches(code, t, k, u);
    ReachesTrans(code, s, n, t, k, u);
  }

  lemma RunsOne(code: seq<Op>, s: State, t: State)
    requires Step(code, s, t)
    ensures Runs(code, s, t)
  {
    assert Reaches(code, t, 0, t);
    assert Reaches(code, s, 1, t);
  }

  lemma RunsNone(code: seq<Op>, s: State)
    ensures Runs(code, s, s)
  {
    assert Reaches(code, s, 0, s);
  }

  ghost predicate Holds(code: seq<Op>, p: nat, ops: seq<Op>) {
    p + |ops| <= |code| && code[p..p + |ops|] == ops
  }

  /** A block of plain instructions runs from its first line to the line after it. */
  lemma {:induction false} Straight(code: seq<Op>, p: nat, ops: seq<Op>, c: Cpu)
    requires Holds(code, p, ops) && AllPlain(ops)
    ensures Runs(code, State(p, c), State(p + |ops|, Exec(ops, c)))
    decreases |ops|
  {
    if |ops| == 0 {
      RunsNone(code, State(p, c));
    } else {
      assert code[p] == code[p..p + |ops|][0] == ops[0];
      var next := State(p + 1, Do(ops[0], c));
      RunsOne(code, State(p, c), next);
      assert code[p + 1..p + |ops|] == code[p..p + |ops|][1..] == ops[1..];
      Straight(code, p + 1, ops[1..], Do(ops[0], c));
      RunsTrans(code, State(p, c), next, State(p + |ops|, Exec(ops, c)));
    }
  }

  lemma HoldsSplit(code: seq<Op>, p: nat, a: seq<Op>, b: seq<Op>)
    requires Holds(code, p, a + b)
    ensures Holds(code, p, a) && Holds(code, p + |a|, b)
  {
    var n, k := |a|, |b|;
    assert |a + b| == n + k;
    var whole := code[p..p + n + k];
    assert whole == a + b;
    assert code[p..p + n] == whole[..n] == a;
    assert code[p + n..p + n + k] == whole[n..n + k] == b;
  }
}
