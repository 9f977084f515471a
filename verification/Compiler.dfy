/** The compiler itself: it emits code for one instruction after another while it keeps the height of the
    symbolic stack, and drives itself by the two lists of addresses. */
module Compiler {
  import opened Rv64
  import opened Bytecode
  import opened Lowering
  import opened Worklist
  import opened Labelling

  /** The outcome of an operation whose checks may stop the compiler. */
  datatype Check<T> = Pass(value: T) | Failed {

    predicate IsFailure() {
      Failed?
    }

    function PropagateFailure(): Check<()>
      requires IsFailure()
    {
      Failed
    }

    function Extract(): T
      requires !IsFailure()
    {
      value
    }
  }

  class Compiler {
    var top: nat
    var frame: Option<Frame>
    var done: map<nat, nat>
    var todo: map<nat, nat>
    var out: seq<Op>
    const globals: nat
    ghost var chunks: seq<Chunk>

    constructor (globals: nat)
      ensures this.globals == globals && out == [] && Progress() == Work(0, None, map[], map[], [])
    {
      this.globals := globals;
      top, frame, done, todo, out, chunks := 0, None, map[], map[], [], [];
    }

    ghost function Progress(): Work
      reads this
    {
      Work(top, frame, done, todo, chunks)
    }

    // ------------------------------------------------------------- symbolic stack

    method Alloc() returns (l: Loc)
      modifies `top
      ensures top == old(top) + 1 && l == Slot(old(top))
    {
      if top >= |SLOTS| {
        l := InMemory(top - |SLOTS|);
      } else {
        l := InRegister(SLOTS[top]);
      }
      top := top + 1;
    }

    method Restore(l: Loc)
      modifies `top
      ensures top == old(top) + 1
    {
      top := top + 1;
    }

    method SpilledCount() returns (n: nat)
      ensures n == Spilled(top)
    {
      n := if top > |SLOTS| then top - |SLOTS| else 0;
    }

    method Peek() returns (r: Check<Loc>)
      ensures r == if top == 0 then Failed else Pass(Slot(top - 1))
    {
      if top == 0 {
        return Failed;
      } else if top - 1 >= |SLOTS| {
        return Pass(InMemory(top - 1 - |SLOTS|));
      } else {
        return Pass(InRegister(SLOTS[top - 1]));
      }
    }

    method Pop() returns (r: Check<Loc>)
      modifies `top
      ensures old(top) == 0 ==> r.Failed?
      ensures old(top) > 0 ==> top == old(top) - 1 && r == Pass(Slot(top))
    {
      if top == 0 {
        return Failed;
      }
      top := top - 1;
      if top >= |SLOTS| {
        return Pass(InMemory(top - |SLOTS|));
      } else {
        return Pass(InRegister(SLOTS[top]));
      }
    }

    // --------------------------------------------------------------- code buffer

    method Emit(op: Op)
      modifies `out
      ensures out == old(out) + [op]
    {
      out := out + [op];
    }

    /** to_reg: a spilled location is loaded into the temporary first. */
    method ToReg(l: Loc, temp: Reg) returns (r: Reg)
      modifies `out
      ensures r == RegOf(l, temp) && out == old(out) + Reload(l, temp)
    {
      match l
      case InMemory(n) =>
        Emit(Ld(temp, SP, -WORD_SIZE * n));
        r := temp;
      case InRegister(n) =>
        r := n;
    }

    method SymbMoveToReg(dst: Reg, src: Loc)
      modifies `out
      ensures out == old(out) + MoveToReg(dst, src)
    {
      var r := ToReg(src, TEMP2);
      Emit(Mv(dst, r));
    }

    method SymbMoveFromReg(dst: Loc, src: Reg)
      modifies `out
      ensures out == old(out) + MoveFromReg(dst, src)
    {
      var r := ToReg(dst, TEMP2);
      Emit(Mv(r, src));
    }

    method SymbMove(dst: Loc, src: Loc)
      modifies `out
      ensures out == old(out) + Move(dst, src)
    {
      var s := ToReg(src, TEMP1);
      var d := ToReg(dst, TEMP2);
      Emit(Mv(d, s));
    }

    method SymbR(alu: Alu, dst: Loc, src1: Loc, src2: Loc)
      modifies `out
      ensures out == old(out) + RCode(alu, dst, src1, src2)
    {
      var r1 := ToReg(src1, TEMP1);
      var r2 := ToReg(src2, TEMP2);
      match dst
      case InRegister(r) =>
        Emit(RType(alu, r, r1, r2));
      case InMemory(n) =>
        Emit(RType(alu, r1, r1, r2));
        Emit(Sd(r1, SP, -WORD_SIZE * n));
    }

    method SymbI(alui: AluImm, dst: Loc, src: Loc, imm: int)
      modifies `out
      ensures out == old(out) + ICode(alui, dst, src, imm)
    {
      var d := ToReg(dst, TEMP1);
      var s := ToReg(src, TEMP2);
      Emit(IType(alui, d, s, imm));
    }

    method SymbZeroTest(negated: bool, dst: Loc, src: Loc)
      modifies `out
      ensures out == old(out) + ZeroTest(negated, dst, src)
    {
      var d := ToReg(dst, TEMP1);
      var s := ToReg(src, TEMP2);
      Emit(if negated then Snez(d, s) else Seqz(d, s));
    }

    method SymbLoad(dst: Loc, base: Reg, off: int)
      modifies `out
      ensures out == old(out) + LoadCode(dst, base, off)
    {
      var d := ToReg(dst, TEMP1);
      Emit(Ld(d, base, off));
    }

    method SymbStore(src: Loc, base: Reg, off: int)
      modifies `out
      ensures out == old(out) + StoreCode(src, base, off)
    {
      var s := ToReg(src, TEMP1);
      Emit(Sd(s, base, off));
    }

    method SymbImmediate(dst: Loc, v: int)
      modifies `out
      ensures out == old(out) + ImmediateCode(dst, v)
    {
      var d := ToReg(dst, TEMP1);
      Emit(Li(d, Narrow(v)));
    }

    method SymbAddress(dst: Loc, symbol: string)
      modifies `out
      ensures out == old(out) + AddressCode(dst, symbol)
    {
      var d := ToReg(dst, TEMP1);
      Emit(La(d, symbol));
    }

    method EmitAdjust(imm: int)
      modifies `out
      ensures out == old(out) + Adjust(imm)
    {
      Emit(IType(Addi, SP, SP, imm));
    }

    method EmitPush(r: Reg)
      modifies `out
      ensures out == old(out) + Push(r)
    {
      Emit(Sd(r, SP, -WORD_SIZE));
      EmitAdjust(-WORD_SIZE);
    }

    method EmitPop(r: Reg)
      modifies `out
      ensures out == old(out) + Lowering.Pop(r)
    {
      Emit(Ld(r, SP, 0));
      EmitAdjust(WORD_SIZE);
    }

    // --------------------------------------------------- loops over register lists

    method EmitPushes(rs: seq<Reg>)
      modifies `out
      ensures out == old(out) + Pushes(rs)
    {
      hide Push;
      var i := 0;
      while i < |rs|
        invariant 0 <= i <= |rs|
        invariant out + Pushes(rs[i..]) == old(out) + Pushes(rs)
      {
        ghost var before := out;
        EmitPush(rs[i]);
        assert rs[i..][1..] == rs[i + 1..];
        assert out + Pushes(rs[i + 1..]) == before + Pushes(rs[i..]);
        i := i + 1;
      }
    }

    method EmitPops(rs: seq<Reg>)
      modifies `out
      ensures out == old(out) + Pops(rs)
    {
      hide Lowering.Pop;
      var i := |rs|;
      assert rs[..i] == rs;
      while i > 0
        invariant 0 <= i <= |rs|
        invariant out + Pops(rs[..i]) == old(out) + Pops(rs)
      {
        ghost var before := out;
        i := i - 1;
        EmitPop(rs[i]);
        assert rs[..i + 1][..i] == rs[..i];
        assert out + Pops(rs[..i]) == before + Pops(rs[..i + 1]);
      }
    }

    method EmitStores(rs: seq<Reg>, off: int)
      modifies `out
      ensures out == old(out) + StoreAll(rs, off)
    {
      var i := 0;
      while i < |rs|
        invariant 0 <= i <= |rs|
        invariant out + StoreAll(rs[i..], off - WORD_SIZE * i) == old(out) + StoreAll(rs, off)
      {
        ghost var before := out;
        Emit(Sd(rs[i], SP, off - WORD_SIZE * i));
        assert rs[i..][1..] == rs[i + 1..];
        assert out + StoreAll(rs[i + 1..], off - WORD_SIZE * (i + 1))
            == before + StoreAll(rs[i..], off - WORD_SIZE * i);
        i := i + 1;
      }
    }

    method EmitLoads(rs: seq<Reg>, off: int)
      modifies `out
      ensures out == old(out) + LoadAll(rs, off)
    {
      var i := 0;
      while i < |rs|
        invariant 0 <= i <= |rs|
        invariant out + LoadAll(rs[i..], off - WORD_SIZE * i) == old(out) + LoadAll(rs, off)
      {
        ghost var before := out;
        Emit(Ld(rs[i], SP, off - WORD_SIZE * i));
        assert rs[i..][1..] == rs[i + 1..];
        assert out + LoadAll(rs[i + 1..], off - WORD_SIZE * (i + 1)) == before + LoadAll(rs[i..], off - WORD_SIZE * i);
        i := i + 1;
      }
    }

    method EmitArgMoves(lo: nat, n: nat) returns (r: Check<()>)
      requires lo + n <= 8
      modifies `out, `top
      ensures r.Pass? <==> old(top) >= n
      ensures r.Pass? ==> top == old(top) - n && out == old(out) + ArgMoves(lo, n, old(top))
    {
      hide MoveToReg, Slot;
      var i := n;
      while i > 0
        invariant 0 <= i <= n && top + n == old(top) + i
        invariant out + ArgMoves(lo, i, top) == old(out) + ArgMoves(lo, n, old(top))
      {
        ghost var before, h := out, top;
        var src :- Pop();
        SymbMoveToReg(A0 + lo + i - 1, src);
        assert out + ArgMoves(lo, i - 1, top) == before + ArgMoves(lo, i, h);
        i := i - 1;
      }
      r := Pass(());
    }

    method EmitExtraArgs(n: nat) returns (r: Check<()>)
      modifies `out, `top
      ensures r.Pass? <==> old(top) >= n
      ensures r.Pass? ==> top == old(top) - n && out == old(out) + ExtraArgs(n, old(top))
    {
      hide Push, Reload, ExtraArgs, RegOf, Slot;
      ExtraArgsNone(top);
      var i := n;
      while i > 0
        invariant 0 <= i <= n && top + n == old(top) + i
        invariant out + ExtraArgs(i, top) == old(out) + ExtraArgs(n, old(top))
      {
        ghost var before, h := out, top;
        var src :- Pop();
        var reg := ToReg(src, TEMP1);
        EmitPush(reg);
        ExtraArgsStep(before, i, h);
        i := i - 1;
      }
      ExtraArgsNone(top);
      r := Pass(());
    }

    // ------------------------------------------------------------- jump targets

    method AddJumpTarget(t: nat, h: nat) returns (r: Check<()>)
      modifies `todo
      ensures r.Pass? <==> AddTarget(old(Progress()), t, h).Some?
      ensures r.Pass? ==> Progress() == AddTarget(old(Progress()), t, h).value
    {
      if t !in done {
        if t !in todo {
          todo := todo[t := h];
        }
        return if todo[t] == h then Pass(()) else Failed;
      } else {
        return if done[t] == h then Pass(()) else Failed;
      }
    }

    /** The height recorded first for an address is kept; a new address gets its label. */
    method InstBegin(p: Program, i: nat) returns (r: Check<()>)
      requires i < |p|
      modifies `done, `out, `chunks
      ensures r.Failed? <==> p[i].offset in old(done) && old(done)[p[i].offset] != top
      ensures r.Pass? ==>
                var c := Chunk(i, top, frame, p[i].offset !in old(done));
                && done == old(done)[p[i].offset := top] && chunks == old(chunks) + [c]
                && out == old(out) + Heading(p, c)
    {
      var offset := p[i].offset;
      var inserted := offset !in done;
      if inserted {
        done := done[offset := top];
      }
      if done[offset] != top {
        return Failed;
      }
      chunks := chunks + [Chunk(i, top, frame, inserted)];
      if inserted {
        Emit(Label(LabelName.Bytecode(offset)));
      }
      r := Pass(());
    }

    method ShouldEmit(offset: nat) returns (r: Check<bool>)
      ensures r.Failed? <==> offset in done && done[offset] != top
      ensures r.Pass? ==> r.value == (offset !in done)
    {
      if offset !in done {
        return Pass(true);
      }
      return if done[offset] == top then Pass(false) else Failed;
    }

    // --------------------------------------------------------------------- calls

    method SaveRegisters()
      modifies `out
      ensures out == old(out) + SaveCode(Spilled(top))
    {
      hide Push, Pushes, Adjust, Spilled;
      var spilled := SpilledCount();
      EmitAdjust(-WORD_SIZE * spilled);
      EmitPush(RA);
      EmitPushes(TEMPS);
      EmitPushes(ARGS);
    }

    method RestoreRegisters()
      modifies `out
      ensures out == old(out) + RestoreCode(Spilled(top))
    {
      hide Pops, LoadAll, Adjust, Spilled;
      EmitPops(ARGS);
      EmitAdjust(8 * WORD_SIZE);
      EmitLoads(TEMPS, -2 * WORD_SIZE);
      Emit(Ld(RA, SP, -WORD_SIZE));
      var spilled := SpilledCount();
      EmitAdjust(spilled * WORD_SIZE);
    }

    method PassArguments(argc: nat, first: Option<int>, padded: bool) returns (r: Check<()>)
      modifies `out, `top
      ensures r.Pass? <==> old(top) >= argc
      ensures r.Pass? ==> top == old(top) - argc
      ensures r.Pass? ==> out == old(out) + PassCode(argc, first, old(top), padded)
    {
      hide ArgMoves, ExtraArgs, Adjust, Narrow;
      var extra := Extra(argc, first);
      if first.Some? {
        Emit(Li(A0, Narrow(first.value)));
      }
      var _ :- EmitArgMoves(Total(argc, first) - argc, argc - extra);
      if padded {
        EmitAdjust(-WORD_SIZE);
      }
      var _ :- EmitExtraArgs(extra);
      r := Pass(());
    }

    method EmitBeforeCall(argc: nat, first: Option<int>, padded: bool) returns (r: Check<()>)
      requires frame.Some? && padded == Padded(frame.value.locals, top, argc, first)
      modifies `out, `top
      ensures r.Pass? <==> old(top) >= argc
      ensures r.Pass? ==> top == old(top) - argc
      ensures r.Pass? ==> out == old(out) + BeforeCall(argc, first, old(top), frame.value.locals)
    {
      hide SaveCode, PassCode, Spilled;
      SaveRegisters();
      var _ :- PassArguments(argc, first, padded);
      r := Pass(());
    }

    method EmitAfterCall(argc: nat, first: Option<int>, padded: bool, ghost h: nat, ghost locals: nat)
      requires h >= argc && top == h - argc && padded == Padded(locals, h, argc, first)
      modifies `out, `top
      ensures top == old(top) + 1
      ensures out == old(out) + AfterCall(argc, first, h, locals)
    {
      hide RestoreCode, MoveFromReg, Spilled;
      var extra := Extra(argc, first);
      if extra > 0 {
        EmitAdjust(extra * WORD_SIZE);
      }
      if padded {
        EmitAdjust(WORD_SIZE);
      }
      var result := Alloc();
      SymbMoveFromReg(result, A0);
      RestoreRegisters();
    }

    /** compile_call */
    method CompileCall(callee: LabelName, argc: nat, first: Option<int>) returns (r: Check<()>)
      modifies this
      ensures done == old(done) && frame == old(frame) && chunks == old(chunks)
      ensures callee.Symbol? ==> todo == old(todo)
      ensures r.Pass? <==>
                && old(frame).Some? && old(top) >= argc
                && (callee.Bytecode? ==> AddTarget(old(Progress()), callee.offset, 0).Some?)
      ensures r.Pass? ==>
                && out == old(out) + CallCode(callee, argc, first, old(top), frame.value.locals)
                && top == old(top) - argc + 1
      ensures r.Pass? && callee.Bytecode? ==> todo == AddTarget(old(Progress()), callee.offset, 0).value.todo
    {
      hide BeforeCall, AfterCall, Spilled;
      if frame.None? {
        return Failed;
      }
      ghost var h, locals := top, frame.value.locals;
      var spilled := SpilledCount();
      var padded := (frame.value.locals + spilled + Extra(argc, first)) % 2 == 1;
      var _ :- EmitBeforeCall(argc, first, padded);
      if callee.Bytecode? {
        var _ :- AddJumpTarget(callee.offset, 0);
      }
      Emit(CallTo(callee));
      EmitAfterCall(argc, first, padded, h, locals);
      r := Pass(());
    }

    // -------------------------------------------------------------- instructions

    /** The effect of an emit_code method that lowers to `l`: it stops the compiler exactly when the lowering
        aborts or its target is known at another height. */
    twostate predicate Emitted(l: Lowered, passed: bool)
      reads this
    {
      && done == old(done) && chunks == old(chunks)
      && (passed <==>
            l.Lowered? && (l.target.Some? ==> AddTarget(old(Progress()), l.target.value.0, l.target.value.1).Some?))
      && (passed ==>
            && out == old(out) + l.code && top == l.top && frame == l.frame
            && todo == if l.target.None? then old(todo)
                       else AddTarget(old(Progress()), l.target.value.0, l.target.value.1).value.todo)
    }

    method EmitRuntimeCall(name: string, argc: nat, first: Option<int>, ghost before: seq<Op>, ghost start: seq<Op>)
      returns (r: Check<()>)
      requires out == start + before
      modifies this
      ensures done == old(done) && chunks == old(chunks) && todo == old(todo)
      ensures var l := RuntimeCall(before, name, argc, first, old(top), old(frame));
              && (r.Pass? <==> l.Lowered?)
              && (r.Pass? ==> out == start + l.code && top == l.top && frame == l.frame && l.target.None?)
    {
      hide CallCode;
      var _ :- CompileCall(Symbol(name), argc, first);
      r := Pass(());
    }

    /** String, SExpression, Tag and Fail push operands of their own before they call the runtime. */
    method EmitConstructor(inst: Inst) returns (r: Check<()>)
      requires inst.Text? || inst.Sexp?
      modifies this
      ensures Emitted(LowerRuntime(inst, old(top), old(frame)), r.Pass?)
    {
      hide CallCode, RuntimeCall, AddressCode, ImmediateCode, Slot, Decimal, AddTarget;
      ghost var start, h := out, top;
      match inst
      case Text(index) =>
        var loc := Alloc();
        SymbAddress(loc, "string_" + Decimal(index));
        ghost var before := AddressCode(Slot(h), "string_" + Decimal(index));
        r := EmitRuntimeCall("RVBstring", 1, None, before, start);
      case Sexp(hash, size) =>
        var loc := Alloc();
        SymbImmediate(loc, hash);
        ghost var before := ImmediateCode(Slot(h), hash);
        r := EmitRuntimeCall("RVBsexp", size + 1, Some(2 * size + 1 + 1), before, start);
    }

    method EmitTagTest(inst: Inst) returns (r: Check<()>)
      requires inst.Tag? || inst.Fail?
      modifies this
      ensures Emitted(LowerRuntime(inst, old(top), old(frame)), r.Pass?)
    {
      hide CallCode, RuntimeCall, AddressCode, ImmediateCode, Slot, Decimal, AddTarget;
      ghost var start, h := out, top;
      match inst
      case Tag(hash, size) =>
        var loc := Alloc();
        SymbImmediate(loc, hash);
        loc := Alloc();
        SymbImmediate(loc, 2 * size + 1);
        ghost var before := ImmediateCode(Slot(h), hash) + ImmediateCode(Slot(h + 1), 2 * size + 1);
        r := EmitRuntimeCall("Btag", 3, None, before, start);
      case Fail(line, col) =>
        var loc := Alloc();
        SymbAddress(loc, "fname");
        loc := Alloc();
        SymbImmediate(loc, 2 * line + 1);
        loc := Alloc();
        SymbImmediate(loc, 2 * col + 1);
        ghost var before := AddressCode(Slot(h), "fname") + ImmediateCode(Slot(h + 1), 2 * line + 1) +
                            ImmediateCode(Slot(h + 2), 2 * col + 1);
        r := EmitRuntimeCall("Bmatch_failure", 4, None, before, start);
    }

    method EmitArrayAccess(inst: Inst) returns (r: Check<()>)
      requires inst.StoreArray? || inst.Elem? || inst.BuiltinArray?
      modifies this
      ensures Emitted(LowerRuntime(inst, old(top), old(frame)), r.Pass?)
    {
      hide CallCode, RuntimeCall, AddTarget, AddressCode, ImmediateCode, Slot, Decimal;
      match inst
      case StoreArray => r := EmitRuntimeCall("Bsta", 3, None, [], out);
      case Elem => r := EmitRuntimeCall("Belem", 2, None, [], out);
      case BuiltinArray(len) => r := EmitRuntimeCall("RVBarray", len, Some(2 * len + 1), [], out);
    }

    method EmitBuiltin(inst: Inst) returns (r: Check<()>)
      requires inst.BuiltinRead? || inst.BuiltinWrite? || inst.BuiltinLength? || inst.BuiltinString?
      modifies this
      ensures Emitted(LowerRuntime(inst, old(top), old(frame)), r.Pass?)
    {
      hide CallCode, RuntimeCall, AddTarget, AddressCode, ImmediateCode, Slot, Decimal;
      match inst
      case BuiltinRead => r := EmitRuntimeCall("Lread", 0, None, [], out);
      case BuiltinWrite => r := EmitRuntimeCall("Lwrite", 1, None, [], out);
      case BuiltinLength => r := EmitRuntimeCall("Llength", 1, None, [], out);
      case BuiltinString => r := EmitRuntimeCall("RVLstring", 1, None, [], out);
    }

    method EmitOperator(op: BinopKind, d: Loc, a: Loc, b: Loc)
      modifies `out
      ensures out == old(out) + OperatorCode(op, d, a, b)
    {
      hide RCode, ICode, ZeroTest;
      match op
      case Plus => SymbR(Add, d, a, b);
      case Minus => SymbR(Sub, d, a, b);
      case Times => SymbR(Mul, d, a, b);
      case Divide => SymbR(Div, d, a, b);
      case Modulo => SymbR(Rem, d, a, b);
      case LessThan => SymbR(Slt, d, a, b);
      case LessEqual =>
        SymbR(Sgt, d, a, b);
        SymbI(Xori, d, d, 1);
      case GreaterThan => SymbR(Sgt, d, a, b);
      case GreaterEqual =>
        SymbR(Slt, d, a, b);
        SymbI(Xori, d, d, 1);
      case Equal =>
        SymbR(Sub, d, b, a);
        SymbZeroTest(false, d, d);
      case NotEqual =>
        SymbR(Sub, d, b, a);
        SymbZeroTest(true, d, d);
      case Both => SymbR(And, d, a, b);
      case Either => SymbR(Or, d, a, b);
    }

    method EmitBinop(op: BinopKind) returns (r: Check<()>)
      modifies `out, `top
      ensures r.Pass? <==> old(top) >= 2
      ensures r.Pass? ==> top == old(top) - 1 && out == old(out) + BinopCode(op, old(top))
    {
      hide ICode, OperatorCode, Slot;
      var second :- Pop();
      var first :- Pop();
      var dest := Alloc();
      SymbI(Srai, first, first, 1);
      SymbI(Srai, second, second, 1);
      EmitOperator(op, dest, first, second);
      SymbI(Slli, dest, dest, 1);
      SymbI(Addi, dest, dest, 1);
      r := Pass(());
    }

    method EmitSwap() returns (r: Check<()>)
      modifies `out, `top
      ensures r.Pass? <==> old(top) >= 2
      ensures r.Pass? ==> top == old(top) && out == old(out) + SwapCode(old(top))
    {
      hide MoveToReg, Move, MoveFromReg, Slot;
      var a :- Pop();
      var b :- Peek();
      SymbMoveToReg(TEMP1, a);
      SymbMove(a, b);
      SymbMoveFromReg(b, TEMP1);
      Restore(a);
      r := Pass(());
    }

    method EmitConst(v: int)
      modifies `out, `top
      ensures top == old(top) + 1 && out == old(out) + ConstCode(old(top), v)
    {
      var loc := Alloc();
      match loc
      case InMemory(n) =>
        Emit(Li(TEMP1, v));
        Emit(Sd(TEMP1, FP, -WORD_SIZE * n));
      case InRegister(reg) =>
        Emit(Li(reg, v));
    }

    method EmitStoreStack() returns (r: Check<()>)
      modifies `out, `top
      ensures Emitted(LowerOperands(StoreStack, old(top), old(frame)), r.Pass?)
    {
      hide Slot;
      var value :- Pop();
      var address :- Pop();
      Restore(value);
      var s := ToReg(value, TEMP1);
      var base := ToReg(address, TEMP2);
      Emit(Sd(s, base, 0));
      r := Pass(());
    }

    method EmitOperands(inst: Inst) returns (r: Check<()>)
      requires inst.Const? || inst.StoreStack? || inst.Drop? || inst.Dup? || inst.Swap? || inst.Line? || inst.Binop?
      modifies `out, `top
      ensures Emitted(LowerOperands(inst, old(top), old(frame)), r.Pass?)
    {
      hide ConstCode, BinopCode, SwapCode, Slot, Move, Narrow, AddTarget;
      match inst {
      case Const(v) => EmitConst(Narrow(2 * v + 1));
      case StoreStack =>
        var _ :- EmitStoreStack();
      case Drop =>
        var _ :- Pop();
      case Dup =>
        var src :- Peek();
        var dst := Alloc();
        SymbMove(dst, src);
      case Swap =>
        var _ :- EmitSwap();
      case Line(_) =>
      case Binop(op) =>
        var _ :- EmitBinop(op);
      }
      r := Pass(());
    }

    method EmitPrologue(locc: nat)
      modifies `out
      ensures out == old(out) + BeginCode(locc)
    {
      hide StoreAll;
      EmitStores(SAVED, -(1 + locc) * WORD_SIZE);
      Emit(IType(Addi, FP, SP, 0));
      EmitAdjust(-(locc + 12) * WORD_SIZE);
    }

    method EmitBegin(name: string, public: bool, argc: nat, locc: nat) returns (r: Check<()>)
      modifies this
      ensures Emitted(LowerBegin(if public then [Label(Symbol(name))] else [], old(top), Frame(name, locc, argc)),
              r.Pass?)
    {
      hide BeginCode, CallCode, AddTarget;
      if public {
        Emit(Label(Symbol(name)));
      }
      frame := Some(Frame(name, locc, argc));
      if name == "main" {
        Emit(Op.Text("sd fp, __gc_stack_bottom, t0"));
        Emit(La(GP, "globals"));
        var _ := CompileCall(Symbol("__init"), 0, None);
      }
      EmitPrologue(locc);
      r := Pass(());
    }

    method EmitEnd() returns (r: Check<()>)
      modifies `out, `top
      ensures r.Pass? <==> frame.Some? && old(top) >= 1
      ensures r.Pass? ==>
                && top == old(top) - 1
                && out == old(out) + EndCode(old(top), frame.value.locals, frame.value.name == "main")
    {
      hide MoveToReg, LoadAll, Slot;
      if frame.None? {
        return Failed;
      }
      var result :- Pop();
      SymbMoveToReg(A0, result);
      Emit(IType(Addi, SP, FP, 0));
      EmitLoads(SAVED, -(1 + frame.value.locals) * WORD_SIZE);
      if frame.value.name == "main" {
        Emit(IType(Srai, A0, A0, 1));
      }
      Emit(Ret);
      r := Pass(());
    }

    method EmitLoad(place: Place, index: nat) returns (r: Check<()>)
      modifies `out, `top
      ensures Emitted(LowerLoad(place, index, old(top), old(frame), globals), r.Pass?)
    {
      hide Slot, LoadCode, MoveFromReg;
      match place {
      case Global =>
        if index >= globals {
          return Failed;
        }
        var dst := Alloc();
        SymbLoad(dst, GP, index * WORD_SIZE);
      case Local =>
        if frame.None? || index >= frame.value.locals {
          return Failed;
        }
        var dst := Alloc();
        SymbLoad(dst, FP, -WORD_SIZE * index);
      case Argument =>
        if frame.None? || index >= frame.value.args {
          return Failed;
        }
        var dst := Alloc();
        if index < 8 {
          SymbMoveFromReg(dst, A0 + index);
        } else {
          SymbLoad(dst, FP, index - 8);
        }
      case Captured =>
        return Failed;
      }
      r := Pass(());
    }

    method EmitStore(place: Place, index: nat) returns (r: Check<()>)
      modifies `out, `top
      ensures Emitted(LowerStore(place, index, old(top), old(frame)), r.Pass?)
    {
      hide Slot, StoreCode, MoveFromReg;
      var value :- Peek();
      match place {
      case Global => SymbStore(value, GP, index * WORD_SIZE);
      case Local => SymbStore(value, FP, -WORD_SIZE * index);
      case Argument =>
        if index < 8 {
          SymbMoveFromReg(value, A0 + index);
        } else {
          SymbStore(value, FP, (index - 8) * WORD_SIZE);
        }
      case Captured =>
        return Failed;
      }
      r := Pass(());
    }

    method EmitJump(target: nat) returns (r: Check<()>)
      modifies `out, `todo
      ensures Emitted(Lowered([Jal(LabelName.Bytecode(target))], old(top), old(frame), Some((target, old(top)))),
              r.Pass?)
    {
      Emit(Jal(LabelName.Bytecode(target)));
      r := AddJumpTarget(target, top);
    }

    method EmitCondJump(target: nat, zero: bool) returns (r: Check<()>)
      modifies `out, `top, `todo
      ensures Emitted(Lower(CondJump(target, zero), old(top), old(frame), globals), r.Pass?)
    {
      hide Slot;
      var loc :- Pop();
      var reg := ToReg(loc, TEMP1);
      Emit(IType(Srai, reg, reg, 1));
      Emit(Branch(zero, reg, 0, LabelName.Bytecode(target)));
      r := AddJumpTarget(target, top);
    }

    method EmitFrame(inst: Inst) returns (r: Check<()>)
      requires inst.Begin? || inst.ClosureBegin? || inst.End? || inst.Call?
      modifies this
      ensures Emitted(Lower(inst, old(top), old(frame), globals), r.Pass?)
    {
      hide LowerBegin, CallCode, EndCode, AddTarget;
      match inst
      case Begin(Public(name), argc, locc) => r := EmitBegin(name, true, argc, locc);
      case Begin(Private(_), argc, locc) => r := EmitBegin(".lbc", false, argc, locc);
      case ClosureBegin(argc, locc) => r := EmitBegin("closure", true, argc, locc);
      case End => r := EmitEnd();
      case Call(callee, argc) => r := CompileCall(LabelName.Bytecode(callee), argc, None);
    }

    /** emit_code of every instruction; those not implemented stop the compiler. */
    method EmitCode(inst: Inst) returns (r: Check<()>)
      modifies this
      ensures Emitted(Lower(inst, old(top), old(frame), globals), r.Pass?)
    {
      hide LowerBegin, LowerLoad, LowerStore, CallCode, EndCode, CondJumpCode, AddTarget, RuntimeCall, ConstCode,
           BinopCode, SwapCode,
           Slot, RegOf, Reload, Narrow, Decimal, Move;
      if inst.Jump? {
        r := EmitJump(inst.target);
      } else if inst.CondJump? {
        r := EmitCondJump(inst.target, inst.zero);
      } else if inst.Begin? || inst.ClosureBegin? || inst.End? || inst.Call? {
        r := EmitFrame(inst);
      } else if inst.Load? {
        r := EmitLoad(inst.place, inst.index);
      } else if inst.Store? {
        r := EmitStore(inst.place, inst.index);
      } else if inst.Text? || inst.Sexp? {
        r := EmitConstructor(inst);
      } else if inst.Tag? || inst.Fail? {
        r := EmitTagTest(inst);
      } else if inst.StoreArray? || inst.Elem? || inst.BuiltinArray? {
        r := EmitArrayAccess(inst);
      } else if inst.BuiltinRead? || inst.BuiltinWrite? || inst.BuiltinLength? || inst.BuiltinString? {
        r := EmitBuiltin(inst);
      } else if inst.Const? || inst.StoreStack? || inst.Drop? || inst.Dup? || inst.Swap? || inst.Line? || inst.Binop? {
        r := EmitOperands(inst);
      } else {
        r := Failed;
      }
    }

    // -------------------------------------------------------------------- driver

    /** The lines written so far are those of the chunks. */
    ghost predicate Printed(p: Program)
      reads this
    {
      out == Listing(p, globals, chunks)
    }

    method VisitInst(p: Program, i: nat) returns (r: Check<()>)
      requires i < |p| && Printed(p)
      modifies this
      ensures r.Pass? <==> Visit(p, globals, i, old(Progress())).Some?
      ensures r.Pass? ==> Progress() == Visit(p, globals, i, old(Progress())).value && Printed(p)
    {
      hide Lower, AddTarget, Visit, ChunkCode;
      ghost var w, lines := Progress(), out;
      var begun := InstBegin(p, i);
      if begun.Failed? {
        BeginFails(p, globals, i, w);
        return Failed;
      }
      ghost var begun' := Progress();
      r := EmitCode(p[i].inst);
      VisitIs(p, globals, i, w, begun', r.Pass?, Progress());
      if r.Pass? {
        VisitPrints(p, globals, w.chunks, chunks[|chunks| - 1], lines, out);
      }
    }

    /** Emits from instruction i on, until a terminator. */
    method EmitChain(p: Program, i: nat) returns (r: Check<()>)
      requires i < |p| && Printed(p)
      modifies this
      ensures r.Pass? <==> Chain(p, globals, i, old(Progress())).Some?
      ensures r.Pass? ==> Progress() == Chain(p, globals, i, old(Progress())).value && Printed(p)
    {
      hide Visit, Printed;
      var j := i;
      while j < |p|
        invariant i <= j <= |p| && Printed(p)
        invariant Chain(p, globals, j, Progress()) == Chain(p, globals, i, old(Progress()))
      {
        var _ :- VisitInst(p, j);
        if Terminator(p[j].inst) {
          return Pass(());
        }
        j := j + 1;
      }
      r := Pass(());
    }

    method Round(p: Program, start: nat) returns (r: Check<()>)
      requires start in todo && Printed(p)
      modifies this
      ensures r.Pass? <==> Process(p, globals, start, old(Progress())).Some?
      ensures r.Pass? ==> Progress() == Process(p, globals, start, old(Progress())).value && Printed(p)
    {
      hide Chain;
      top := todo[start];
      todo := todo - {start};
      var needed :- ShouldEmit(start);
      if needed {
        var found := Find(p, start);
        if found.Some? {
          var _ :- EmitChain(p, found.value);
        }
      }
      r := Pass(());
    }

    method AddPublics(publics: seq<nat>) returns (r: Check<()>)
      requires Progress() == Work(0, None, map[], map[], [])
      modifies `todo
      ensures r.Pass? <==> Start(publics).Some?
      ensures r.Pass? ==> Progress() == Start(publics).value
    {
      hide AddTarget;
      var i := 0;
      while i < |publics|
        invariant 0 <= i <= |publics|
        invariant Start(publics[..i]) == Some(Progress())
      {
        assert publics[..i + 1][..i] == publics[..i];
        var ok := AddJumpTarget(publics[i], 0);
        if ok.Failed? {
          StartFails(publics, i + 1);
          return Failed;
        }
        i := i + 1;
      }
      assert publics[..i] == publics;
      r := Pass(());
    }

    /** Compiles everything that the public functions lead to. The schedule is the order in which the addresses
        were taken; the compiler stops with a failed check exactly when the last round of it does. */
    method Compile(p: Program, publics: seq<nat>) returns (r: Check<()>, ghost schedule: seq<nat>)
      requires Sorted(p) && out == [] && Progress() == Work(0, None, map[], map[], [])
      modifies this
      ensures r.Pass? ==> Completed(p, globals, publics, schedule, Progress()) && out == Listing(p, globals, chunks)
      ensures r.Failed? ==> Stops(p, globals, publics, schedule)
      ensures AllReady(p, globals, publics) && Unique(p, publics) ==> r.Pass?
    {
      hide Process, Follow, Consistent, AllReady, Unique;
      SucceedsIfUnique(p, globals, publics);
      schedule := [];
      var started := AddPublics(publics);
      if started.Failed? {
        return Failed, [];
      }
      StartKeeps(p, globals, publics);
      assert Follow(p, globals, schedule, Start(publics).value) == Some(Progress()) by {
        FollowNothing(p, globals, Start(publics).value);
      }
      while todo != map[]
        invariant Printed(p) && Consistent(p, globals, Progress())
        invariant Follow(p, globals, schedule, Start(publics).value) == Some(Progress())
        decreases Addresses(p) - done.Keys, |todo|
      {
        assert todo.Keys != {};
        var start :| start in todo;
        FollowStep(p, globals, schedule, Start(publics).value, start);
        ghost var earlier, before := schedule, Progress();
        schedule := schedule + [start];
        var ok := Round(p, start);
        if ok.Failed? {
          assert schedule[..|schedule| - 1] == earlier;
          return Failed, schedule;
        }
        ProcessKeeps(p, globals, start, before);
        DoneIsAddress(p, globals, Progress());
      }
      r := Pass(());
    }
  }

  lemma BeginFails(p: Program, g: nat, i: nat, w: Work)
    requires i < |p| && p[i].offset in w.done && w.done[p[i].offset] != w.top
    ensures Visit(p, g, i, w).None?
  {
  }

  /** A visit is an inst_begin followed by the effect of an emit_code method. */
  lemma {:induction false} VisitIs(p: Program, g: nat, i: nat, w: Work, begun: Work, passed: bool, v: Work)
    requires i < |p| && (p[i].offset in w.done ==> w.done[p[i].offset] == w.top)
    requires begun == Work(w.top, w.frame, w.done[p[i].offset := w.top], w.todo,
                           w.chunks + [Chunk(i, w.top, w.frame, p[i].offset !in w.done)])
    requires v.done == begun.done && v.chunks == begun.chunks
    requires var l := Lower(p[i].inst, w.top, w.frame, g);
             && (passed <==>
                   l.Lowered? && (l.target.Some? ==> AddTarget(begun, l.target.value.0, l.target.value.1).Some?))
             && (passed ==>
                   && v.top == l.top && v.frame == l.frame
                   && v.todo == if l.target.None? then w.todo
                                else AddTarget(begun, l.target.value.0, l.target.value.1).value.todo)
    ensures passed <==> Visit(p, g, i, w).Some?
    ensures passed ==> v == Visit(p, g, i, w).value
  {
    hide Lower;
  }

  lemma VisitPrints(p: Program, g: nat, chunks: seq<Chunk>, c: Chunk, lines: seq<Op>, longer: seq<Op>)
    requires lines == Listing(p, g, chunks) && longer == lines + Heading(p, c) + Body(p, g, c)
    ensures longer == Listing(p, g, chunks + [c])
  {
    hide Body, Heading;
    assert (chunks + [c])[..|chunks|] == chunks;
  }

  lemma ExtraArgsStep(before: seq<Op>, i: nat, h: nat)
    requires i > 0 && h > 0
    ensures before + Reload(Slot(h - 1), TEMP1) + Push(RegOf(Slot(h - 1), TEMP1)) + ExtraArgs(i - 1, h - 1)
         == before + ExtraArgs(i, h)
  {
    hide Reload, Push, RegOf, Slot;
  }

  lemma ExtraArgsNone(h: nat)
    ensures ExtraArgs(0, h) == []
  {
  }

  lemma SucceedsIfUnique(p: Program, g: nat, publics: seq<nat>)
    requires Sorted(p)
    ensures AllReady(p, g, publics) && Unique(p, publics) ==> forall schedule :: !Stops(p, g, publics, schedule)
  {
    hide AllReady, Unique, Stops;
    if AllReady(p, g, publics) && Unique(p, publics) {
      forall schedule ensures !Stops(p, g, publics, schedule) {
        NeverStops(p, g, publics, schedule);
      }
    }
  }

  lemma FollowNothing(p: Program, g: nat, w: Work)
    ensures Follow(p, g, [], w) == Some(w)
  {
  }

  lemma {:induction false} StartFails(publics: seq<nat>, n: nat)
    requires n <= |publics| && Start(publics[..n]).None?
    ensures Start(publics).None?
    decreases |publics| - n
  {
    hide AddTarget;
    if n < |publics| {
      assert publics[..n + 1][..n] == publics[..n];
      StartFails(publics, n + 1);
    } else {
      assert publics[..n] == publics;
    }
  }
}
