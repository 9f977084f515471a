/** What the emitted code does where it is not what its instruction means: calls with more than eight arguments,
    arguments and stores on the stack, and operands beyond the registers. */
module Deviations {
  import opened Rv64
  import opened Bytecode
  import opened Lowering
  import opened Blocks
  import opened Steps

  /** The registers of the n topmost of h positions, from the top downwards. */
  function Downwards(n: nat, h: nat): (rs: seq<Reg>)
    requires n <= h <= |SLOTS|
    ensures |rs| == n && forall i :: 0 <= i < n ==> rs[i] == SLOTS[h - 1 - i]
  {
    if n == 0 then [] else [SLOTS[h - 1]] + Downwards(n - 1, h - 1)
  }

  lemma {:induction false} ExtraArgsPush(n: nat, h: nat)
    requires n <= h <= |SLOTS|
    ensures ExtraArgs(n, h) == Pushes(Downwards(n, h))
  {
    hide Push, ExtraArgs, Downwards;
    if n == 0 {
      assert ExtraArgs(0, h) == [] by {
        NoExtraArgs(h);
      }
      assert Pushes(Downwards(0, h)) == [];
    } else {
      ExtraArgsPush(n - 1, h - 1);
      OneMorePushed(n, h);
      var rs := Downwards(n, h);
      assert rs[1..] == Downwards(n - 1, h - 1) && rs[0] == SLOTS[h - 1];
    }
  }

  lemma NoExtraArgs(h: nat)
    ensures ExtraArgs(0, h) == []
  {
  }

  lemma OneMorePushed(n: nat, h: nat)
    requires 0 < n <= h <= |SLOTS|
    ensures ExtraArgs(n, h) == Push(SLOTS[h - 1]) + ExtraArgs(n - 1, h - 1)
  {
    hide Push, Reload, RegOf, Slot;
    InSlot(h - 1);
    assert [] + Push(SLOTS[h - 1]) == Push(SLOTS[h - 1]);
  }

  lemma InSlot(k: nat)
    requires k < |SLOTS|
    ensures Reload(Slot(k), TEMP1) == [] && RegOf(Slot(k), TEMP1) == SLOTS[k]
  {
  }

  /** Operands are pushed from the top downwards, so that they lie in order from the stack pointer on. */
  lemma ExtraBlock(n: nat, h: nat, c: Cpu)
    requires n <= h <= |SLOTS| && 8 * n <= c.Get(SP)
    ensures AllPlain(ExtraArgs(n, h))
    ensures var d := Exec(ExtraArgs(n, h), c);
            && d.Get(SP) == c.Get(SP) - 8 * n && SameRegs(c, d, {SP})
            && forall k :: h - n <= k < h ==> d.Read(d.Get(SP) + 8 * (k - (h - n))) == c.Get(SLOTS[k])
  {
    hide Exec, AllPlain, Cpu.Get, Cpu.Read, Pushes, ExtraArgs, Downwards, SameOutside;
    var rs := Downwards(n, h);
    NoStackPointer(n, h);
    ExtraArgsPush(n, h);
    PushList(rs, c);
    var sp, d := c.Get(SP), Exec(Pushes(rs), c);
    forall k | h - n <= k < h ensures d.Read(d.Get(SP) + 8 * (k - (h - n))) == c.Get(SLOTS[k]) {
      var i := h - 1 - k;
      assert d.Get(SP) + 8 * (k - (h - n)) == sp - 8 * (i + 1) && rs[i] == SLOTS[k];
    }
  }

  lemma NoStackPointer(n: nat, h: nat)
    requires n <= h <= |SLOTS|
    ensures SP !in Downwards(n, h)
  {
    hide Downwards;
    SlotsSpecial();
  }

  /** What the code before a transfer leads to: the last arguments are in the registers, in order, and the first ones
      on the stack. */
  ghost predicate RestOnStack(argc: nat, first: Option<int>, h: nat, c: Cpu, d: Cpu)
    requires argc <= h <= |SLOTS| && Total(argc, first) > 8
  {
    var extra := Extra(argc, first);
    && (first.Some? ==> d.Get(A0) == Narrow(first.value))
    && (forall k :: h - argc + extra <= k < h ==> d.Get(18 - h + k) == c.Get(SLOTS[k]))
    && (forall k :: h - argc <= k < h - argc + extra ==> d.Read(d.Get(SP) + 8 * (k - (h - argc))) == c.Get(SLOTS[k]))
  }

  lemma ManyForm(argc: nat, first: Option<int>, h: nat, locals: nat)
    requires argc <= h <= |SLOTS| && Total(argc, first) > 8
    ensures var extra, lo := Extra(argc, first), Total(argc, first) - argc;
            && argc - extra == 8 - lo && extra <= h - (8 - lo)
            && BeforeCall(argc, first, h, locals) ==
               SaveCode(0) + (FirstCode(first) + ArgMoves(lo, 8 - lo, h) +
                              Padding(Padded(locals, h, argc, first), -WORD_SIZE) + ExtraArgs(extra, h - (8 - lo)))
  {
    hide SaveCode, ArgMoves, Padding, Padded, Narrow, ExtraArgs;
  }

  lemma ManyInSteps(argc: nat, first: Option<int>, h: nat, c: Cpu, c1: Cpu, c2: Cpu, c3: Cpu, c4: Cpu, d: Cpu)
    requires argc <= h <= |SLOTS| && Total(argc, first) > 8
    requires SameRegs(c, c1, {SP}) && SameRegs(c1, c2, if first.Some? then {A0 as int} else {})
    requires first.Some? ==> c2.Get(A0) == Narrow(first.value)
    requires var lo := Total(argc, first) - argc; Passed(lo, 8 - lo, h, c2, c3)
    requires SameRegs(c3, c4, {SP}) && SameRegs(c4, d, {SP})
    requires var extra, lo := Extra(argc, first), Total(argc, first) - argc;
             forall k :: h - argc <= k < h - argc + extra ==>
               d.Read(d.Get(SP) + 8 * (k - (h - argc))) == c4.Get(SLOTS[k])
    ensures RestOnStack(argc, first, h, c, d)
  {
    hide Narrow, Cpu.Get, Cpu.Read;
    SlotsSpecial();
    var extra, lo := Extra(argc, first), Total(argc, first) - argc;
    forall k | h - argc + extra <= k < h ensures d.Get(18 - h + k) == c.Get(SLOTS[k]) {
      assert c3.Get(10 + lo + k - (h - (8 - lo))) == c2.Get(SLOTS[k]);
    }
    forall k | h - argc <= k < h - argc + extra
      ensures d.Read(d.Get(SP) + 8 * (k - (h - argc))) == c.Get(SLOTS[k])
    {
      assert c4.Get(SLOTS[k]) == c3.Get(SLOTS[k]) == c2.Get(SLOTS[k]) == c1.Get(SLOTS[k]) == c.Get(SLOTS[k]);
    }
  }

  /** Of more than eight arguments the last ones are passed in registers and the first ones on the stack, aligned to 16
      bytes. A compiled function looks for its first eight arguments in the registers. */
  lemma ManyBlock(argc: nat, first: Option<int>, h: nat, locals: nat, c: Cpu)
    requires argc <= h <= |SLOTS| && Total(argc, first) > 8 && 272 <= c.Get(SP) < HALF - 8
    requires c.Get(FP) % 16 == 0 && c.Get(SP) == c.Get(FP) - 8 * (locals + 12)
    ensures AllPlain(BeforeCall(argc, first, h, locals))
    ensures var d := Exec(BeforeCall(argc, first, h, locals), c);
            RestOnStack(argc, first, h, c, d) && d.Get(SP) % 16 == 0
  {
    hide SaveCode, ArgMoves, Exec, AllPlain, CallerSaved, BeforeCall, FirstCode, Padding, Padded, Narrow, ExtraArgs,
         Cpu.Get, Cpu.Read, SameOutside, RestOnStack, Passed;
    var padded, extra, lo := Padded(locals, h, argc, first), Extra(argc, first), Total(argc, first) - argc;
    ManyForm(argc, first, h, locals);
    SaveBlock(c);
    var c1 := Exec(SaveCode(0), c);
    FirstBlock(first, c1);
    var c2 := Exec(FirstCode(first), c1);
    PassList(lo, 8 - lo, h, c2);
    var c3 := Exec(ArgMoves(lo, 8 - lo, h), c2);
    PassedKeepsStack(lo, 8 - lo, h, c2, c3);
    PaddingBlock(padded, -WORD_SIZE, c3);
    var c4 := Exec(Padding(padded, -WORD_SIZE), c3);
    ExtraBlock(extra, h - (8 - lo), c4);
    var d := Exec(ExtraArgs(extra, h - (8 - lo)), c4);
    ExecAppend(FirstCode(first), ArgMoves(lo, 8 - lo, h), c1);
    ExecAppend(FirstCode(first) + ArgMoves(lo, 8 - lo, h), Padding(padded, -WORD_SIZE), c1);
    ExecAppend(FirstCode(first) + ArgMoves(lo, 8 - lo, h) + Padding(padded, -WORD_SIZE),
        ExtraArgs(extra, h - (8 - lo)), c1);
    ExecAppend(SaveCode(0), FirstCode(first) + ArgMoves(lo, 8 - lo, h) + Padding(padded, -WORD_SIZE) +
                            ExtraArgs(extra, h - (8 - lo)), c);
    ManyInSteps(argc, first, h, c, c1, c2, c3, c4, d);
    ManyAligned(c.Get(FP), locals, argc, first, h);
  }

  lemma PassedKeepsStack(lo: nat, n: nat, h: nat, c: Cpu, d: Cpu)
    requires n <= h <= |SLOTS| && lo + n <= 8 && Passed(lo, n, h, c, d)
    ensures d.Get(SP) == c.Get(SP)
  {
    hide Cpu.Get;
  }

  lemma ManyAligned(fp: int, locals: nat, argc: nat, first: Option<int>, h: nat)
    requires fp % 16 == 0 && h <= |SLOTS|
    ensures var extra := Extra(argc, first);
            (fp - 8 * (locals + 12) - 128 - (if Padded(locals, h, argc, first) then 8 else 0) - 8 * extra) % 16 == 0
  {
    var n := locals + Extra(argc, first);
    var m := (n + n % 2) / 2;
    assert 8 * n + 8 * (n % 2) == 16 * m;
    assert fp == 16 * (fp / 16);
    assert fp - 8 * 12 - 128 - 16 * m == 16 * (fp / 16 - 14 - m);
  }

  // -------------------------------------------------- instructions with another meaning

  /** A load of an argument from the stack reads a word that begins index - 8 bytes above the frame, where the
      arguments lie index - 8 words above it. */
  lemma StackArgumentBlock(index: nat, h: nat, frame: Option<Frame>, g: nat, c: Cpu)
    requires h < |SLOTS| && frame.Some? && 8 <= index < frame.value.args && index < 2048
    requires 0 <= c.Get(FP) && c.Get(FP) + index < HALF
    ensures var l := Lower(Load(Argument, index), h, frame, g);
            && l.Lowered? && AllPlain(l.code)
            && SlotSet(c, Exec(l.code, c), h, c.Read(c.Get(FP) + index - 8))
  {
    SlotsSpecial();
    ExecOne(Ld(SLOTS[h], FP, index - 8), c);
  }

  /** A store to such an argument writes the word index - 8 words above the frame, where it does lie. */
  lemma StoreStackArgument(index: nat, ops: seq<Int64>, frame: Option<Frame>, g: nat, c: Cpu)
    requires SlotsHold(c, ops) && |ops| >= 1 && 8 <= index && 8 * (index - 8) < 2048
    requires 0 <= c.Get(FP) && c.Get(FP) + 8 * index < HALF
    ensures var l := Lower(Store(Argument, index), |ops|, frame, g);
            && l.Lowered? && l.top == |ops| && AllPlain(l.code)
            && Exec(l.code, c) == c.Write(c.Get(FP) + 8 * (index - 8), ops[|ops| - 1])
  {
    ExecOne(Sd(SLOTS[|ops| - 1], FP, (index - 8) * WORD_SIZE), c);
  }

  /** A store through a pointer writes the topmost operand where the one below points to, and leaves the pointer, not
      the operand, on top. */
  lemma StoreStackBlock(ops: seq<Int64>, frame: Option<Frame>, g: nat, c: Cpu)
    requires SlotsHold(c, ops) && |ops| >= 2
    ensures var l, n := Lower(StoreStack, |ops|, frame, g), |ops|;
            && l.Lowered? && l.top == n - 1 && AllPlain(l.code)
            && Exec(l.code, c) == c.Write(ops[n - 2], ops[n - 1]) && SlotsHold(Exec(l.code, c), ops[..n - 1])
  {
    var n := |ops|;
    ExecOne(Sd(SLOTS[n - 1], SLOTS[n - 2], 0), c);
    assert Lower(StoreStack, n, frame, g).code == [Sd(SLOTS[n - 1], SLOTS[n - 2], 0)];
  }

  // ------------------------------------------------------------------ spilled positions

  /** The word that code reads for the n-th position beyond the registers. */
  function SpillAddress(n: nat, c: Cpu): int {
    Wrap(c.Get(SP) - 8 * n)
  }

  /** Moves from a spilled position read its word; moves to one write nothing. */
  lemma SpilledMove(n: nat, r: Reg, c: Cpu)
    requires 8 * n <= 2048 && r != 0 && r != TEMP2
    ensures AllPlain(MoveToReg(r, InMemory(n))) && AllPlain(MoveFromReg(InMemory(n), r))
    ensures Exec(MoveToReg(r, InMemory(n)), c).Get(r) == c.Read(SpillAddress(n, c))
    ensures Exec(MoveToReg(r, InMemory(n)), c).mem == c.mem && Exec(MoveFromReg(InMemory(n), r), c).mem == c.mem
  {
    var load := Ld(TEMP2, SP, -WORD_SIZE * n);
    ExecOne(load, c);
    var m := Do(load, c);
    ExecOne(Mv(r, TEMP2), m);
    ExecOne(Mv(TEMP2, r), m);
    ExecAppend([load], [Mv(r, TEMP2)], c);
    ExecAppend([load], [Mv(TEMP2, r)], c);
  }

  /** An operator on two spilled positions computes into the first one's word. */
  lemma SpilledOperator(alu: Alu, n: nat, k: nat, c: Cpu)
    requires 8 * n <= 2048 && 8 * k <= 2048
    ensures var code := RCode(alu, InMemory(n), InMemory(n), InMemory(k));
            && AllPlain(code)
            && Exec(code, c).mem == c.mem[SpillAddress(n, c) := Compute(alu, c.Read(SpillAddress(n, c)),
                                                                          c.Read(SpillAddress(k, c)))]
  {
    hide Exec, AllPlain, Compute;
    var o1, o2 := Ld(TEMP1, SP, -WORD_SIZE * n), Ld(TEMP2, SP, -WORD_SIZE * k);
    var o3, o4 := RType(alu, TEMP1, TEMP1, TEMP2), Sd(TEMP1, SP, -WORD_SIZE * n);
    assert RCode(alu, InMemory(n), InMemory(n), InMemory(k)) == [o1] + [o2] + [o3] + [o4];
    ExecOne(o1, c);
    var c1 := Do(o1, c);
    ExecOne(o2, c1);
    var c2 := Do(o2, c1);
    ExecOne(o3, c2);
    var c3 := Do(o3, c2);
    ExecOne(o4, c3);
    ExecAppend([o1], [o2], c);
    ExecAppend([o1] + [o2], [o3], c);
    ExecAppend([o1] + [o2] + [o3], [o4], c);
  }

  /** A constant is stored relative to the frame, where no other code looks for the position. */
  lemma SpilledConstant(n: nat, v: int, c: Cpu)
    requires 8 * n <= 2048 && -0x8000_0000 <= v < 0x8000_0000
    ensures var code := ConstCode(|SLOTS| + n, v);
            AllPlain(code) && Exec(code, c).mem == c.mem[Wrap(c.Get(FP) - 8 * n) := Wrap(v)]
  {
    var li, sd := Li(TEMP1, v), Sd(TEMP1, FP, -WORD_SIZE * n);
    assert ConstCode(|SLOTS| + n, v) == [li] + [sd];
    ExecOne(li, c);
    ExecOne(sd, Do(li, c));
    ExecAppend([li], [sd], c);
  }

  /** Shifts and immediate additions, to box and unbox, are computed and dropped. */
  lemma SpilledImmediate(n: nat, alui: AluImm, imm: int, c: Cpu)
    requires 8 * n <= 2048 && Encodable(IType(alui, TEMP1, TEMP2, imm))
    ensures var code := ICode(alui, InMemory(n), InMemory(n), imm);
            AllPlain(code) && Exec(code, c).mem == c.mem
  {
    hide Exec, AllPlain, ComputeImm;
    var o1, o2, o3 := Ld(TEMP1, SP, -WORD_SIZE * n), Ld(TEMP2, SP, -WORD_SIZE * n), IType(alui, TEMP1, TEMP2, imm);
    assert ICode(alui, InMemory(n), InMemory(n), imm) == [o1] + [o2] + [o3];
    ExecOne(o1, c);
    ExecOne(o2, Do(o1, c));
    ExecOne(o3, Do(o2, Do(o1, c)));
    ExecAppend([o1], [o2], c);
    ExecAppend([o1] + [o2], [o3], c);
  }
}
