/** What the instructions that are compiled to a call of a runtime function pass to it. */
module Delegation {
  import opened Rv64
  import opened Bytecode
  import opened Lowering
  import opened Heights
  import opened Blocks
  import opened Steps

  /** A runtime function and its arguments. */
  datatype RuntimeUse = RuntimeUse(callee: string, args: seq<Int64>)

  /** The n topmost operands, the deepest first. */
  function Topmost(ops: seq<Int64>, n: nat): seq<Int64> {
    if n <= |ops| then ops[|ops| - n..] else ops
  }

  /** What an instruction asks of the runtime, given the operands and the addresses of symbols: numbers are boxed,
      constants narrowed to 32 bits, tags given by their boxed hash. The functions with a variable number of arguments
      get that number first. */
  function Asks(inst: Inst, ops: seq<Int64>, c: Cpu): Option<RuntimeUse> {
    match inst
    case Text(index) => Some(RuntimeUse("RVBstring", [c.AddressOf("string_" + Decimal(index))]))
    case Sexp(hash, size) => Some(RuntimeUse("RVBsexp", [Narrow(2 * size + 2)] + Topmost(ops, size) + [Narrow(hash)]))
    case BuiltinArray(len) => Some(RuntimeUse("RVBarray", [Narrow(2 * len + 1)] + Topmost(ops, len)))
    case Tag(hash, size) => Some(RuntimeUse("Btag", Topmost(ops, 1) + [Narrow(hash), Narrow(2 * size + 1)]))
    case Elem => Some(RuntimeUse("Belem", Topmost(ops, 2)))
    case StoreArray => Some(RuntimeUse("Bsta", Topmost(ops, 3)))
    case Fail(line, col) =>
      Some(RuntimeUse("Bmatch_failure",
                      Topmost(ops, 1) + [c.AddressOf("fname"), Narrow(2 * line + 1), Narrow(2 * col + 1)]))
    case BuiltinRead => Some(RuntimeUse("Lread", []))
    case BuiltinWrite => Some(RuntimeUse("Lwrite", Topmost(ops, 1)))
    case BuiltinLength => Some(RuntimeUse("Llength", Topmost(ops, 1)))
    case BuiltinString => Some(RuntimeUse("RVLstring", Topmost(ops, 1)))
    case _ => None
  }

  /** Stack positions an instruction needs above its operands before the call. */
  function Scratch(inst: Inst): nat {
    match inst
    case Text(_) => 1
    case Sexp(_, _) => 1
    case Tag(_, _) => 2
    case Fail(_, _) => 3
    case _ => 0
  }

  ghost predicate Passes(d: Cpu, args: seq<Int64>) {
    |args| <= 8 && forall i :: 0 <= i < |args| ==> d.Get(10 + i) == args[i]
  }

  function FirstWord(first: Option<int>): seq<Int64> {
    if first.Some? then [Narrow(first.value)] else []
  }

  /** Code that puts further operands on the stack. */
  ghost predicate Extends(code: seq<Op>, c: Cpu, ops: seq<Int64>) {
    AllPlain(code) && SlotsHold(Exec(code, c), ops) && Exec(code, c).Get(SP) == c.Get(SP)
  }

  lemma ExtendsNone(c: Cpu, ops: seq<Int64>)
    requires SlotsHold(c, ops)
    ensures Extends([], c, ops)
  {
  }

  lemma ExtendsMore(code: seq<Op>, op: Op, c: Cpu, ops: seq<Int64>, v: Int64)
    requires Extends(code, c, ops) && |ops| < |SLOTS| && Plain(op)
    requires Do(op, Exec(code, c)) == Exec(code, c).Put(SLOTS[|ops|], v)
    ensures Extends(code + [op], c, ops + [v])
  {
    hide Exec, AllPlain, SlotsHold, SlotSet, Do;
    var m := Exec(code, c);
    ExecOne(op, m);
    ExecAppend(code, [op], c);
    SlotPut(m, |ops|, v);
    SetHolds(m, m.Put(SLOTS[|ops|], v), ops, v);
  }

  lemma SlotPut(c: Cpu, k: nat, v: Int64)
    requires k < |SLOTS|
    ensures SlotSet(c, c.Put(SLOTS[k], v), k, v) && c.Put(SLOTS[k], v).Get(SP) == c.Get(SP)
  {
    SlotsSpecial();
  }

  lemma ExtendsImmediate(code: seq<Op>, c: Cpu, ops: seq<Int64>, x: int)
    requires Extends(code, c, ops) && |ops| < |SLOTS|
    ensures Extends(code + ImmediateCode(Slot(|ops|), x), c, ops + [Narrow(x)])
  {
    hide Exec, AllPlain, SlotsHold;
    var op := Li(SLOTS[|ops|], Narrow(x));
    assert ImmediateCode(Slot(|ops|), x) == [op];
    ExtendsMore(code, op, c, ops, Narrow(x));
  }

  lemma ExtendsAddress(c: Cpu, ops: seq<Int64>, symbol: string)
    requires SlotsHold(c, ops) && |ops| < |SLOTS|
    ensures Extends(AddressCode(Slot(|ops|), symbol), c, ops + [c.AddressOf(symbol)])
  {
    hide SlotsHold;
    ExtendsNone(c, ops);
    var op := La(SLOTS[|ops|], symbol);
    assert AddressCode(Slot(|ops|), symbol) == [op] == [] + [op];
    ExtendsMore([], op, c, ops, c.AddressOf(symbol));
  }

  /** A call of the runtime, after code that has pushed some of its arguments. */
  lemma RuntimeCallPasses(code: seq<Op>, name: string, argc: nat, first: Option<int>, ops: seq<Int64>,
        frame: Option<Frame>, c: Cpu) returns (before: seq<Op>, after: seq<Op>)
    requires Extends(code, c, ops) && argc <= |ops| <= |SLOTS| && Total(argc, first) <= 8 && frame.Some?
    requires 144 <= c.Get(SP) < HALF - 8
    ensures RuntimeCall(code, name, argc, first, |ops|, frame).Lowered?
    ensures RuntimeCall(code, name, argc, first, |ops|, frame).code == before + [CallTo(Symbol(name))] + after
    ensures AllPlain(before) && Passes(Exec(before, c), FirstWord(first) + Topmost(ops, argc))
  {
    hide Exec, AllPlain, BeforeCall, AfterCall, Narrow;
    var m, call := Exec(code, c), BeforeCall(argc, first, |ops|, frame.value.locals);
    BeforeBlock(argc, first, |ops|, frame.value.locals, m);
    before, after := code + call, AfterCall(argc, first, |ops|, frame.value.locals);
    ExecAppend(code, call, c);
    assert code + (call + [CallTo(Symbol(name))] + after) == before + [CallTo(Symbol(name))] + after;
    ReadyPasses(argc, first, ops, frame.value.locals, m, Exec(call, m));
  }

  lemma ReadyPasses(argc: nat, first: Option<int>, ops: seq<Int64>, locals: nat, c: Cpu, d: Cpu)
    requires argc <= |ops| <= |SLOTS| && Total(argc, first) <= 8 && SlotsHold(c, ops)
    requires CallReady(argc, first, |ops|, locals, c, d)
    ensures Passes(d, FirstWord(first) + Topmost(ops, argc))
  {
    hide CallerSaved, SameOutside, Narrow, Cpu.Get;
    var args, lo, h := FirstWord(first) + Topmost(ops, argc), Total(argc, first) - argc, |ops|;
    forall i | 0 <= i < |args| ensures d.Get(10 + i) == args[i] {
      if i >= lo {
        var k := h - argc + (i - lo);
        assert d.Get(10 + lo + k - (h - argc)) == c.Get(SLOTS[k]) == ops[k];
      }
    }
  }

  /** Code `code` transfers to the function asked for, once the arguments are in the first argument registers. */
  ghost predicate Serves(l: Lowered, c: Cpu, use: RuntimeUse, before: seq<Op>, after: seq<Op>) {
    && l.Lowered? && l.code == before + [CallTo(Symbol(use.callee))] + after
    && AllPlain(before) && Passes(Exec(before, c), use.args)
  }

  lemma TextServes(index: nat, ops: seq<Int64>, frame: Option<Frame>, c: Cpu) returns (before: seq<Op>, after: seq<Op>)
    requires SlotsHold(c, ops) && |ops| + 1 <= |SLOTS| && frame.Some? && 144 <= c.Get(SP) < HALF - 8
    ensures Serves(LowerRuntime(Bytecode.Text(index), |ops|, frame), c, Asks(Bytecode.Text(index), ops, c).value,
            before, after)
  {
    hide Exec, AllPlain, SlotsHold, Extends, AddressCode, Decimal, RuntimeCall, Passes, Slot;
    var symbol := "string_" + Decimal(index);
    ExtendsAddress(c, ops, symbol);
    var more := ops + [c.AddressOf(symbol)];
    before, after := RuntimeCallPasses(AddressCode(Slot(|ops|), symbol), "RVBstring", 1, None, more, frame, c);
    assert FirstWord(None) + Topmost(more, 1) == [c.AddressOf(symbol)];
  }

  lemma SexpServes(hash: int, size: nat, ops: seq<Int64>, frame: Option<Frame>, c: Cpu)
    returns (before: seq<Op>, after: seq<Op>)
    requires SlotsHold(c, ops) && size <= |ops| && |ops| + 1 <= |SLOTS| && frame.Some? && 144 <= c.Get(SP) < HALF - 8
    requires size + 2 <= 8
    ensures Serves(LowerRuntime(Sexp(hash, size), |ops|, frame), c, Asks(Sexp(hash, size), ops, c).value, before, after)
  {
    hide Exec, AllPlain, SlotsHold, Extends, ImmediateCode, RuntimeCall, Passes, Slot, Narrow;
    var code, more, first := ImmediateCode(Slot(|ops|), hash), ops + [Narrow(hash)], Some(2 * size + 1 + 1);
    ExtendsNone(c, ops);
    ExtendsImmediate([], c, ops, hash);
    assert [] + code == code;
    before, after := RuntimeCallPasses(code, "RVBsexp", size + 1, first, more, frame, c);
    assert Topmost(more, size + 1) == Topmost(ops, size) + [Narrow(hash)];
    assert FirstWord(first) + Topmost(more, size + 1) == [Narrow(2 * size + 2)] + Topmost(ops, size) + [Narrow(hash)];
  }

  lemma TagServes(hash: int, size: nat, ops: seq<Int64>, frame: Option<Frame>, c: Cpu)
    returns (before: seq<Op>, after: seq<Op>)
    requires SlotsHold(c, ops) && 1 <= |ops| && |ops| + 2 <= |SLOTS| && frame.Some? && 144 <= c.Get(SP) < HALF - 8
    ensures Serves(LowerRuntime(Tag(hash, size), |ops|, frame), c, Asks(Tag(hash, size), ops, c).value, before, after)
  {
    hide Exec, AllPlain, SlotsHold, Extends, ImmediateCode, RuntimeCall, Passes, Slot, Narrow;
    var tag, one := ImmediateCode(Slot(|ops|), hash), ops + [Narrow(hash)];
    var code, more := tag + ImmediateCode(Slot(|ops| + 1), 2 * size + 1), one + [Narrow(2 * size + 1)];
    ExtendsNone(c, ops);
    ExtendsImmediate([], c, ops, hash);
    assert [] + tag == tag;
    ExtendsImmediate(tag, c, one, 2 * size + 1);
    before, after := RuntimeCallPasses(code, "Btag", 3, None, more, frame, c);
    assert FirstWord(None) + Topmost(more, 3) == Topmost(ops, 1) + [Narrow(hash), Narrow(2 * size + 1)];
  }

  lemma FailServes(line: nat, col: nat, ops: seq<Int64>, frame: Option<Frame>, c: Cpu)
    returns (before: seq<Op>, after: seq<Op>)
    requires SlotsHold(c, ops) && 1 <= |ops| && |ops| + 3 <= |SLOTS| && frame.Some? && 144 <= c.Get(SP) < HALF - 8
    ensures Serves(LowerRuntime(Fail(line, col), |ops|, frame), c, Asks(Fail(line, col), ops, c).value, before, after)
  {
    hide Exec, AllPlain, SlotsHold, Extends, ImmediateCode, AddressCode, RuntimeCall, Passes, Slot, Narrow;
    var name, one := AddressCode(Slot(|ops|), "fname"), ops + [c.AddressOf("fname")];
    var lines, two := name + ImmediateCode(Slot(|ops| + 1), 2 * line + 1), one + [Narrow(2 * line + 1)];
    var code, more := lines + ImmediateCode(Slot(|ops| + 2), 2 * col + 1), two + [Narrow(2 * col + 1)];
    ExtendsAddress(c, ops, "fname");
    ExtendsImmediate(name, c, one, 2 * line + 1);
    ExtendsImmediate(lines, c, two, 2 * col + 1);
    before, after := RuntimeCallPasses(code, "Bmatch_failure", 4, None, more, frame, c);
    assert FirstWord(None) + Topmost(more, 4)
        == Topmost(ops, 1) + [c.AddressOf("fname"), Narrow(2 * line + 1), Narrow(2 * col + 1)];
  }

  /** The number that precedes the operands of an array. */
  function Counted(inst: Inst): Option<int> {
    if inst.BuiltinArray? then Some(2 * inst.len + 1) else None
  }

  lemma OthersCall(inst: Inst, h: nat, ops: seq<Int64>, frame: Option<Frame>, c: Cpu)
    requires Asks(inst, ops, c).Some? && Scratch(inst) == 0
    ensures LowerRuntime(inst, h, frame) ==
            RuntimeCall([], Asks(inst, ops, c).value.callee, Takes(inst), Counted(inst), h, frame)
  {
    hide RuntimeCall, Narrow, AddressCode, ImmediateCode, Slot, Topmost, Cpu.AddressOf, Decimal;
  }

  lemma OthersAsk(inst: Inst, ops: seq<Int64>, c: Cpu)
    requires Asks(inst, ops, c).Some? && Scratch(inst) == 0 && Takes(inst) <= |ops|
    ensures var args := Asks(inst, ops, c).value.args;
            args == FirstWord(Counted(inst)) + Topmost(ops, Takes(inst)) && |args| == Total(Takes(inst), Counted(inst))
  {
    hide Narrow, Decimal;
  }

  /** The instructions that pass operands only, after their number for an array. */
  lemma OthersServe(inst: Inst, ops: seq<Int64>, frame: Option<Frame>, c: Cpu) returns (before: seq<Op>, after: seq<Op>)
    requires Asks(inst, ops, c).Some? && Scratch(inst) == 0 && |Asks(inst, ops, c).value.args| <= 8
    requires SlotsHold(c, ops) && Takes(inst) <= |ops| <= |SLOTS| && frame.Some? && 144 <= c.Get(SP) < HALF - 8
    ensures Serves(LowerRuntime(inst, |ops|, frame), c, Asks(inst, ops, c).value, before, after)
  {
    hide Exec, AllPlain, SlotsHold, Extends, RuntimeCall, Passes, Asks, LowerRuntime, Takes, Topmost, FirstWord,
         Scratch, Counted;
    ExtendsNone(c, ops);
    OthersCall(inst, |ops|, ops, frame, c);
    OthersAsk(inst, ops, c);
    before, after := RuntimeCallPasses([], Asks(inst, ops, c).value.callee, Takes(inst), Counted(inst), ops, frame, c);
  }

  lemma IsDelegated(inst: Inst, ops: seq<Int64>, frame: Option<Frame>, g: nat, c: Cpu)
    requires Asks(inst, ops, c).Some?
    ensures Lower(inst, |ops|, frame, g) == LowerRuntime(inst, |ops|, frame)
  {
    hide LowerRuntime;
  }

  /** Every instruction that is compiled to a call of the runtime transfers to the function it asks for, with the
      arguments in order in the first argument registers. */
  lemma AsksInOrder(inst: Inst, ops: seq<Int64>, frame: Option<Frame>, g: nat, c: Cpu)
    returns (before: seq<Op>, after: seq<Op>)
    requires Asks(inst, ops, c).Some? && |Asks(inst, ops, c).value.args| <= 8
    requires SlotsHold(c, ops) && Takes(inst) <= |ops| && |ops| + Scratch(inst) <= |SLOTS| && frame.Some?
    requires 144 <= c.Get(SP) < HALF - 8
    ensures var l, use := Lower(inst, |ops|, frame, g), Asks(inst, ops, c).value;
            && l.Lowered? && l.code == before + [CallTo(Symbol(use.callee))] + after
            && AllPlain(before) && Passes(Exec(before, c), use.args)
  {
    hide Exec, AllPlain, SlotsHold, Narrow, Lower, LowerRuntime, Passes, Decimal;
    IsDelegated(inst, ops, frame, g, c);
    match inst {
      case Text(index) => before, after := TextServes(index, ops, frame, c);
      case Sexp(hash, size) => before, after := SexpServes(hash, size, ops, frame, c);
      case Tag(hash, size) => before, after := TagServes(hash, size, ops, frame, c);
      case Fail(line, col) => before, after := FailServes(line, col, ops, frame, c);
      case _ => before, after := OthersServe(inst, ops, frame, c);
    }
  }
}
