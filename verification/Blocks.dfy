/** What the blocks of a call, a prologue and an epilogue do to registers and memory. */
module Blocks {
  import opened Rv64
  import opened Bytecode
  import opened Lowering

  /** Memory is the same outside the words from lo up to hi. */
  ghost predicate SameOutside(c: Cpu, d: Cpu, lo: int, hi: int) {
    forall a :: a < lo || hi <= a ==> d.Read(a) == c.Read(a)
  }

  ghost predicate SameRegs(c: Cpu, d: Cpu, changed: set<int>) {
    forall r: Reg :: r !in changed ==> d.Get(r) == c.Get(r)
  }

  ghost predicate Distinct(rs: seq<Reg>) {
    forall i, j :: 0 <= i < j < |rs| ==> rs[i] != rs[j]
  }

  /** A list of registers that a block may load: none of them zero or the stack pointer, none twice. */
  ghost predicate Loadable(rs: seq<Reg>) {
    Distinct(rs) && SP !in rs && 0 !in rs
  }

  ghost function RegSet(rs: seq<Reg>): set<int> {
    set r | r in rs
  }

  lemma PushOne(r: Reg, c: Cpu)
    requires r != SP && 8 <= c.Get(SP)
    ensures AllPlain(Push(r))
    ensures var sp, d := c.Get(SP), Exec(Push(r), c);
            && d.Get(SP) == sp - 8 && SameRegs(c, d, {SP})
            && d.Read(sp - 8) == c.Get(r) && SameOutside(c, d, sp - 8, sp)
  {
    var op0, op1 := Sd(r, SP, -WORD_SIZE), IType(Addi, SP, SP, -WORD_SIZE);
    ExecAppend([op0], [op1], c);
    ExecOne(op0, c);
    ExecOne(op1, Do(op0, c));
    assert Push(r) == [op0] + [op1];
  }

  lemma AdjustOne(imm: int, c: Cpu)
    requires -HALF <= c.Get(SP) + imm < HALF && Short(imm)
    ensures AllPlain(Adjust(imm))
    ensures var d := Exec(Adjust(imm), c);
            d.Get(SP) == c.Get(SP) + imm && SameRegs(c, d, {SP}) && d.mem == c.mem
  {
    ExecOne(IType(Addi, SP, SP, imm), c);
  }

  lemma {:induction false} PushList(rs: seq<Reg>, c: Cpu)
    requires SP !in rs && 8 * |rs| <= c.Get(SP)
    ensures AllPlain(Pushes(rs))
    ensures var sp, d := c.Get(SP), Exec(Pushes(rs), c);
            && d.Get(SP) == sp - 8 * |rs| && SameRegs(c, d, {SP})
            && (forall i :: 0 <= i < |rs| ==> d.Read(sp - 8 * (i + 1)) == c.Get(rs[i]))
            && SameOutside(c, d, sp - 8 * |rs|, sp)
  {
    hide Push, Exec, AllPlain, Cpu.Read, Cpu.Get;
    if |rs| == 0 {
      NothingToDo(c);
    } else {
      PushOne(rs[0], c);
      var sp, m := c.Get(SP), Exec(Push(rs[0]), c);
      PushList(rs[1..], m);
      ExecAppend(Push(rs[0]), Pushes(rs[1..]), c);
      var d := Exec(Pushes(rs), c);
      forall i | 0 <= i < |rs|
        ensures d.Read(sp - 8 * (i + 1)) == c.Get(rs[i])
      {
        if i > 0 {
          assert rs[1..][i - 1] == rs[i];
          assert sp - 8 - 8 * (i - 1 + 1) == sp - 8 * (i + 1);
        }
      }
    }
  }

  lemma NothingToDo(c: Cpu)
    ensures AllPlain([]) && Exec([], c) == c
  {
  }

  lemma PopOne(r: Reg, c: Cpu)
    requires r != SP && r != 0 && c.Get(SP) + 8 < HALF
    ensures AllPlain(Pop(r))
    ensures var sp, d := c.Get(SP), Exec(Pop(r), c);
            && d.Get(SP) == sp + 8 && d.Get(r) == c.Read(sp) && SameRegs(c, d, {SP, r}) && d.mem == c.mem
  {
    var op0, op1 := Ld(r, SP, 0), IType(Addi, SP, SP, WORD_SIZE);
    ExecAppend([op0], [op1], c);
    ExecOne(op0, c);
    ExecOne(op1, Do(op0, c));
    assert Pop(r) == [op0] + [op1];
  }

  /** What popping a list of registers does. */
  ghost predicate Popped(rs: seq<Reg>, c: Cpu, d: Cpu, sp: int) {
    && d.Get(SP) == sp + 8 * |rs| && SameRegs(c, d, {SP as int} + RegSet(rs)) && d.mem == c.mem
    && (forall i :: 0 <= i < |rs| ==> d.Get(rs[i]) == c.Read(sp + 8 * (|rs| - 1 - i)))
  }

  lemma PoppedOneMore(rs: seq<Reg>, c: Cpu, m: Cpu, d: Cpu, sp: int)
    requires |rs| > 0 && Loadable(rs)
    requires SameRegs(c, m, {SP, rs[|rs| - 1]}) && m.mem == c.mem && m.Get(rs[|rs| - 1]) == c.Read(sp)
    requires Popped(rs[..|rs| - 1], m, d, sp + 8)
    ensures Popped(rs, c, d, sp)
  {
    hide Cpu.Get;
    var n := |rs|;
    assert rs[n - 1] !in rs[..n - 1] && rs[n - 1] != SP;
    forall i | 0 <= i < n
      ensures d.Get(rs[i]) == c.Read(sp + 8 * (n - 1 - i))
    {
      if i < n - 1 {
        assert rs[..n - 1][i] == rs[i];
        assert sp + 8 + 8 * (n - 1 - 1 - i) == sp + 8 * (n - 1 - i);
      }
    }
  }

  lemma {:induction false} PopList(rs: seq<Reg>, c: Cpu)
    requires Loadable(rs) && c.Get(SP) + 8 * |rs| < HALF
    ensures AllPlain(Pops(rs)) && Popped(rs, c, Exec(Pops(rs), c), c.Get(SP))
  {
    hide Pop, Exec, AllPlain, Cpu.Get;
    var n := |rs|;
    if n == 0 {
      NothingToDo(c);
    } else {
      PopOne(rs[n - 1], c);
      var m := Exec(Pop(rs[n - 1]), c);
      PopList(rs[..n - 1], m);
      ExecAppend(Pop(rs[n - 1]), Pops(rs[..n - 1]), c);
      PoppedOneMore(rs, c, m, Exec(Pops(rs), c), c.Get(SP));
    }
  }

  lemma StoreOne(r: Reg, off: int, c: Cpu)
    requires 0 <= c.Get(SP) + off < HALF && Short(off)
    ensures AllPlain([Sd(r, SP, off)])
    ensures var a, d := c.Get(SP) + off, Exec([Sd(r, SP, off)], c);
            d.regs == c.regs && SameRegs(c, d, {}) && d.Read(a) == c.Get(r) && SameOutside(c, d, a, a + 8)
  {
    ExecOne(Sd(r, SP, off), c);
  }

  lemma {:induction false} StoreList(rs: seq<Reg>, off: int, c: Cpu)
    requires 0 <= c.Get(SP) + off - 8 * |rs| && c.Get(SP) + off < HALF
    requires -2056 <= off - 8 * |rs| && off < 2048
    ensures AllPlain(StoreAll(rs, off))
    ensures var a, d := c.Get(SP) + off, Exec(StoreAll(rs, off), c);
            && d.regs == c.regs && SameOutside(c, d, a - 8 * |rs| + 8, a + 8)
            && (forall i :: 0 <= i < |rs| ==> d.Read(a - 8 * i) == c.Get(rs[i]))
  {
    hide AllPlain, Exec, Cpu.Get, Cpu.Read;
    if |rs| == 0 {
      NothingToDo(c);
    } else {
      var a, op := c.Get(SP) + off, Sd(rs[0], SP, off);
      StoreOne(rs[0], off, c);
      var m := Exec([op], c);
      StoreList(rs[1..], off - WORD_SIZE, m);
      ExecAppend([op], StoreAll(rs[1..], off - WORD_SIZE), c);
      var d := Exec(StoreAll(rs, off), c);
      forall i | 0 <= i < |rs|
        ensures d.Read(a - 8 * i) == c.Get(rs[i])
      {
        if i > 0 {
          assert rs[1..][i - 1] == rs[i];
          assert a - 8 - 8 * (i - 1) == a - 8 * i;
        }
      }
    }
  }

  lemma LoadOne(r: Reg, off: int, c: Cpu)
    requires r != SP && r != 0 && 0 <= c.Get(SP) + off < HALF && Short(off)
    ensures AllPlain([Ld(r, SP, off)])
    ensures var d := Exec([Ld(r, SP, off)], c);
            d.Get(r) == c.Read(c.Get(SP) + off) && SameRegs(c, d, {r}) && d.mem == c.mem
  {
    ExecOne(Ld(r, SP, off), c);
  }

  lemma {:induction false} LoadList(rs: seq<Reg>, off: int, c: Cpu)
    requires Loadable(rs) && 0 <= c.Get(SP) + off - 8 * |rs| && c.Get(SP) + off < HALF
    requires -2056 <= off - 8 * |rs| && off < 2048
    ensures AllPlain(LoadAll(rs, off))
    ensures var a, d := c.Get(SP) + off, Exec(LoadAll(rs, off), c);
            && SameRegs(c, d, RegSet(rs)) && d.mem == c.mem
            && (forall i :: 0 <= i < |rs| ==> d.Get(rs[i]) == c.Read(a - 8 * i))
  {
    hide AllPlain, Exec, Cpu.Get;
    if |rs| == 0 {
      NothingToDo(c);
    } else {
      var a, op := c.Get(SP) + off, Ld(rs[0], SP, off);
      LoadOne(rs[0], off, c);
      var m := Exec([op], c);
      LoadList(rs[1..], off - WORD_SIZE, m);
      ExecAppend([op], LoadAll(rs[1..], off - WORD_SIZE), c);
      var d := Exec(LoadAll(rs, off), c);
      forall i | 0 <= i < |rs|
        ensures d.Get(rs[i]) == c.Read(a - 8 * i)
      {
        if i > 0 {
          assert rs[1..][i - 1] == rs[i];
          assert a - 8 - 8 * (i - 1) == a - 8 * i;
        } else {
          assert rs[0] !in rs[1..];
        }
      }
    }
  }

  lemma MoveOne(r: Reg, src: Reg, c: Cpu)
    requires r != 0
    ensures AllPlain([Mv(r, src)])
    ensures var d := Exec([Mv(r, src)], c);
            d.Get(r) == c.Get(src) && SameRegs(c, d, {r}) && d.mem == c.mem
  {
    ExecOne(Mv(r, src), c);
  }

  ghost predicate Passed(lo: nat, n: nat, h: nat, c: Cpu, d: Cpu)
    requires n <= h <= |SLOTS| && lo + n <= 8
  {
    && d.mem == c.mem
    && (forall r: Reg :: !(10 + lo <= r < 10 + lo + n) ==> d.Get(r) == c.Get(r))
    && (forall k :: h - n <= k < h ==> d.Get(10 + lo + k - (h - n)) == c.Get(SLOTS[k]))
  }

  lemma PassedOneMore(lo: nat, n: nat, h: nat, c: Cpu, m: Cpu, d: Cpu)
    requires 1 <= n <= h <= |SLOTS| && lo + n <= 8
    requires m.mem == c.mem && m.Get(10 + lo + n - 1) == c.Get(SLOTS[h - 1]) && SameRegs(c, m, {10 + lo + n - 1})
    requires Passed(lo, n - 1, h - 1, m, d)
    ensures Passed(lo, n, h, c, d)
  {
    hide Cpu.Get;
    SlotsSpecial();
    forall k | h - n <= k < h
      ensures d.Get(10 + lo + k - (h - n)) == c.Get(SLOTS[k])
    {
      if k < h - 1 {
        assert d.Get(10 + lo + k - (h - 1 - (n - 1))) == m.Get(SLOTS[k]);
      }
    }
  }

  /** The n topmost of h operands end up in n argument registers, in order. */
  lemma {:induction false} PassList(lo: nat, n: nat, h: nat, c: Cpu)
    requires n <= h <= |SLOTS| && lo + n <= 8
    ensures AllPlain(ArgMoves(lo, n, h)) && Passed(lo, n, h, c, Exec(ArgMoves(lo, n, h), c))
    decreases n
  {
    hide AllPlain, Exec, Cpu.Get;
    if n == 0 {
      NothingToDo(c);
    } else {
      var op := Mv(A0 + lo + n - 1, SLOTS[h - 1]);
      MoveOne(A0 + lo + n - 1, SLOTS[h - 1], c);
      var m := Exec([op], c);
      PassList(lo, n - 1, h - 1, m);
      ExecAppend([op], ArgMoves(lo, n - 1, h - 1), c);
      assert MoveToReg(A0 + lo + n - 1, Slot(h - 1)) == [op];
      PassedOneMore(lo, n, h, c, m, Exec(ArgMoves(lo, n, h), c));
    }
  }

  /** The registers of stack positions are none of the special or argument registers, and all differ. */
  lemma SlotFacts()
    ensures forall i :: 0 <= i < |SLOTS| ==>
              SLOTS[i] != 0 && SLOTS[i] != SP && SLOTS[i] != GP && SLOTS[i] != FP && SLOTS[i] != RA
    ensures forall i :: 0 <= i < |SLOTS| ==> !(10 <= SLOTS[i] < 18) && SLOTS[i] != TEMP1 && SLOTS[i] != TEMP2
    ensures Distinct(SLOTS)
    ensures forall i :: 0 <= i < 11 ==> SLOTS[i] in SAVED && SLOTS[i] !in TEMPS
    ensures forall i :: 11 <= i < |SLOTS| ==> SLOTS[i] in TEMPS && SLOTS[i] !in SAVED
  {
    SlotsSpecial();
    SlotsSaved();
    SlotsDistinct();
  }

  lemma SlotsSpecial()
    ensures forall i :: 0 <= i < |SLOTS| ==>
              SLOTS[i] != 0 && SLOTS[i] != SP && SLOTS[i] != GP && SLOTS[i] != FP && SLOTS[i] != RA
    ensures forall i :: 0 <= i < |SLOTS| ==> !(10 <= SLOTS[i] < 18) && SLOTS[i] != TEMP1 && SLOTS[i] != TEMP2
  {
  }

  lemma SlotsSaved()
    ensures forall i :: 0 <= i < 11 ==> SLOTS[i] in SAVED && SLOTS[i] !in TEMPS
    ensures forall i :: 11 <= i < |SLOTS| ==> SLOTS[i] in TEMPS && SLOTS[i] !in SAVED
  {
    assert forall i :: 0 <= i < 11 ==> SLOTS[i] == SAVED[i + 1];
  }

  lemma SlotsDistinct()
    ensures Distinct(SLOTS)
  {
  }

  lemma ListFacts()
    ensures Loadable(TEMPS) && Loadable(ARGS) && Loadable(SAVED)
    ensures forall i :: 0 <= i < 8 ==> ARGS[i] == 10 + i
    ensures RA !in TEMPS && RA !in ARGS && RA !in SAVED && FP !in TEMPS && FP !in ARGS && GP !in ARGS && GP !in SAVED
  {
    ListsLoadable();
    ListsApart();
  }

  lemma ListsLoadable()
    ensures Loadable(TEMPS) && Loadable(ARGS) && Loadable(SAVED)
  {
  }

  lemma ListsApart()
    ensures RA !in TEMPS && RA !in ARGS && RA !in SAVED && FP !in TEMPS && FP !in ARGS && GP !in ARGS && GP !in SAVED
  {
  }

  // -------------------------------------------------------------- the caller's side

  /** The words just below `sp` hold ra, the temporaries and the first n argument registers of c. */
  ghost predicate CallerSaved(c: Cpu, m: Cpu, sp: int, n: nat)
    requires n <= 8
  {
    && m.Read(sp - 8) == c.Get(RA)
    && (forall i :: 0 <= i < 7 ==> m.Read(sp - 16 - 8 * i) == c.Get(TEMPS[i]))
    && (forall i :: 0 <= i < n ==> m.Read(sp - 72 - 8 * i) == c.Get(ARGS[i]))
  }

  function Pad(locals: nat): nat {
    if locals % 2 == 1 then 8 else 0
  }

  lemma SaveBlock(c: Cpu)
    requires 128 <= c.Get(SP)
    ensures AllPlain(SaveCode(0))
    ensures var sp, d := c.Get(SP), Exec(SaveCode(0), c);
            && d.Get(SP) == sp - 128 && SameRegs(c, d, {SP})
            && CallerSaved(c, d, sp, 8) && SameOutside(c, d, sp - 128, sp)
  {
    hide Push, Pushes, Adjust, Exec, AllPlain, Cpu.Get, Cpu.Read;
    ListFacts();
    var sp := c.Get(SP);
    AdjustOne(0, c);
    var c1 := Exec(Adjust(0), c);
    PushOne(RA, c1);
    var c2 := Exec(Push(RA), c1);
    PushList(TEMPS, c2);
    var c3 := Exec(Pushes(TEMPS), c2);
    PushList(ARGS, c3);
    var d := Exec(Pushes(ARGS), c3);
    ExecAppend(Adjust(0), Push(RA), c);
    ExecAppend(Adjust(0) + Push(RA), Pushes(TEMPS), c);
    ExecAppend(Adjust(0) + Push(RA) + Pushes(TEMPS), Pushes(ARGS), c);
    assert SaveCode(0) == Adjust(0) + Push(RA) + Pushes(TEMPS) + Pushes(ARGS);
    SameMemory(c, c1);
    SavedInSteps(c, c1, c2, c3, d, sp);
  }

  lemma SameMemory(c: Cpu, d: Cpu)
    requires d.mem == c.mem
    ensures SameOutside(c, d, 0, 0)
  {
  }

  lemma SavedInSteps(c: Cpu, c1: Cpu, c2: Cpu, c3: Cpu, d: Cpu, sp: int)
    requires SameRegs(c, c1, {SP}) && SameRegs(c1, c2, {SP}) && SameRegs(c2, c3, {SP}) && SameOutside(c, c1, 0, 0)
    requires c2.Read(sp - 8) == c1.Get(RA) && SameOutside(c1, c2, sp - 8, sp)
    requires forall i :: 0 <= i < 7 ==> c3.Read(sp - 8 - 8 * (i + 1)) == c2.Get(TEMPS[i])
    requires SameOutside(c2, c3, sp - 64, sp - 8)
    requires forall i :: 0 <= i < 8 ==> d.Read(sp - 64 - 8 * (i + 1)) == c3.Get(ARGS[i])
    requires SameOutside(c3, d, sp - 128, sp - 64)
    ensures CallerSaved(c, d, sp, 8) && SameOutside(c, d, sp - 128, sp)
  {
    hide Cpu.Get, Cpu.Read;
    ListFacts();
    forall i | 0 <= i < 7
      ensures d.Read(sp - 16 - 8 * i) == c.Get(TEMPS[i])
    {
      assert sp - 8 - 8 * (i + 1) == sp - 16 - 8 * i;
      assert TEMPS[i] != SP;
    }
    forall i | 0 <= i < 8
      ensures d.Read(sp - 72 - 8 * i) == c.Get(ARGS[i])
    {
      assert sp - 64 - 8 * (i + 1) == sp - 72 - 8 * i;
      assert ARGS[i] != SP;
    }
  }

  /** What the code before a transfer leads to: the registers are saved, a leading constant and the arguments sit in
      order in the argument registers and the stack pointer is moved by an even number of words in all. */
  ghost predicate CallReady(argc: nat, first: Option<int>, h: nat, locals: nat, c: Cpu, d: Cpu)
    requires argc <= h <= |SLOTS| && Total(argc, first) <= 8
  {
    var sp, lo := c.Get(SP), Total(argc, first) - argc;
    && d.Get(SP) == sp - 128 - Pad(locals)
    && (forall r: Reg :: r != SP && !(10 <= r < 10 + lo + argc) ==> d.Get(r) == c.Get(r))
    && (first.Some? ==> d.Get(A0) == Narrow(first.value))
    && (forall k :: h - argc <= k < h ==> d.Get(10 + lo + k - (h - argc)) == c.Get(SLOTS[k]))
    && CallerSaved(c, d, sp, 8) && SameOutside(c, d, sp - 128, sp)
  }

  function FirstCode(first: Option<int>): seq<Op> {
    if first.Some? then [Li(A0, Narrow(first.value))] else []
  }

  lemma FirstBlock(first: Option<int>, c: Cpu)
    ensures AllPlain(FirstCode(first))
    ensures var d := Exec(FirstCode(first), c);
            && d.mem == c.mem && (first.Some? ==> d.Get(A0) == Narrow(first.value))
            && SameRegs(c, d, if first.Some? then {A0 as int} else {})
  {
    if first.Some? {
      ExecOne(Li(A0, Narrow(first.value)), c);
    } else {
      NothingToDo(c);
    }
  }

  lemma PaddingBlock(padded: bool, imm: int, c: Cpu)
    requires imm == 8 || imm == -8
    requires 8 <= c.Get(SP) < HALF - 8
    ensures AllPlain(Padding(padded, imm))
    ensures var d := Exec(Padding(padded, imm), c);
            d.Get(SP) == (if padded then c.Get(SP) + imm else c.Get(SP)) && SameRegs(c, d, {SP}) && d.mem == c.mem
  {
    if padded {
      AdjustOne(imm, c);
    } else {
      NothingToDo(c);
    }
  }

  lemma BeforeForm(argc: nat, first: Option<int>, h: nat, locals: nat)
    requires argc <= h <= |SLOTS| && Total(argc, first) <= 8
    ensures BeforeCall(argc, first, h, locals) ==
            SaveCode(0) + (FirstCode(first) + ArgMoves(Total(argc, first) - argc, argc, h) +
                           Padding(Padded(locals, h, argc, first), -WORD_SIZE))
  {
    hide SaveCode, ArgMoves, Padding, Padded, Narrow;
  }

  lemma PadIs(argc: nat, first: Option<int>, h: nat, locals: nat)
    requires argc <= h <= |SLOTS| && Total(argc, first) <= 8
    ensures Pad(locals) == if Padded(locals, h, argc, first) then 8 else 0
  {
  }

  lemma ReadyInSteps(argc: nat, first: Option<int>, h: nat, locals: nat, c: Cpu, c1: Cpu, c2: Cpu, c3: Cpu, d: Cpu)
    requires argc <= h <= |SLOTS| && Total(argc, first) <= 8
    requires c1.Get(SP) == c.Get(SP) - 128 && SameRegs(c, c1, {SP})
    requires CallerSaved(c, c1, c.Get(SP), 8) && SameOutside(c, c1, c.Get(SP) - 128, c.Get(SP))
    requires c2.mem == c1.mem && (first.Some? ==> c2.Get(A0) == Narrow(first.value))
    requires SameRegs(c1, c2, if first.Some? then {A0 as int} else {})
    requires Passed(Total(argc, first) - argc, argc, h, c2, c3)
    requires d.Get(SP) == c3.Get(SP) - Pad(locals) && SameRegs(c3, d, {SP}) && d.mem == c3.mem
    ensures CallReady(argc, first, h, locals, c, d)
  {
    hide CallerSaved, Narrow, Pad, Cpu.Get, Cpu.Read, SameOutside;
    SlotsSpecial();
    SavedOnly(c, c1, d, c.Get(SP));
    var lo := Total(argc, first) - argc;
    forall k | h - argc <= k < h
      ensures d.Get(10 + lo + k - (h - argc)) == c.Get(SLOTS[k])
    {
      assert c3.Get(10 + lo + k - (h - argc)) == c2.Get(SLOTS[k]);
    }
  }

  lemma BeforeBlock(argc: nat, first: Option<int>, h: nat, locals: nat, c: Cpu)
    requires argc <= h <= |SLOTS| && Total(argc, first) <= 8 && 144 <= c.Get(SP) < HALF - 8
    ensures AllPlain(BeforeCall(argc, first, h, locals))
    ensures CallReady(argc, first, h, locals, c, Exec(BeforeCall(argc, first, h, locals), c))
  {
    hide SaveCode, ArgMoves, Exec, AllPlain, CallerSaved, BeforeCall, FirstCode, Padding, Padded, Narrow, Pad,
         Cpu.Get, Cpu.Read, CallReady, SameOutside;
    var padded, lo := Padded(locals, h, argc, first), Total(argc, first) - argc;
    SaveBlock(c);
    var c1 := Exec(SaveCode(0), c);
    FirstBlock(first, c1);
    var c2 := Exec(FirstCode(first), c1);
    PassList(lo, argc, h, c2);
    var c3 := Exec(ArgMoves(lo, argc, h), c2);
    PaddingBlock(padded, -WORD_SIZE, c3);
    var d := Exec(Padding(padded, -WORD_SIZE), c3);
    ExecAppend(FirstCode(first), ArgMoves(lo, argc, h), c1);
    ExecAppend(FirstCode(first) + ArgMoves(lo, argc, h), Padding(padded, -WORD_SIZE), c1);
    ExecAppend(SaveCode(0), FirstCode(first) + ArgMoves(lo, argc, h) + Padding(padded, -WORD_SIZE), c);
    BeforeForm(argc, first, h, locals);
    PadIs(argc, first, h, locals);
    ReadyInSteps(argc, first, h, locals, c, c1, c2, c3, d);
  }

  /** Whatever was saved or kept in one memory is so in an equal one. */
  lemma SavedOnly(c: Cpu, c1: Cpu, d: Cpu, sp: int)
    requires d.mem == c1.mem && CallerSaved(c, c1, sp, 8) && SameOutside(c, c1, sp - 128, sp)
    ensures CallerSaved(c, d, sp, 8) && SameOutside(c, d, sp - 128, sp)
  {
    assert forall a :: d.Read(a) == c1.Read(a);
  }

  /** What the code after a return leads to: ra, the temporaries and the saved arguments are back. The result is in the
      slot of the first operand taken if that is one of the first eleven; in a later one, a temporary, the restored
      register overwrites it. */
  ghost predicate CallDone(position: nat, n: nat, c: Cpu, d: Cpu, e: Cpu, sp: int)
    requires position < |SLOTS| && n <= 8
  {
    var slot := SLOTS[position];
    && e.Get(SP) == sp && e.Get(RA) == c.Get(RA)
    && e.Get(slot) == (if position <= 10 then d.Get(A0) else c.Get(slot))
    && (forall i :: 0 <= i < 7 ==> e.Get(TEMPS[i]) == c.Get(TEMPS[i]))
    && (forall i :: 0 <= i < n ==> e.Get(ARGS[i]) == c.Get(ARGS[i]))
    && (forall r: Reg :: r in SAVED && r != slot ==> e.Get(r) == d.Get(r))
    && e.mem == d.mem
  }

  lemma AfterBlock(argc: nat, first: Option<int>, h: nat, locals: nat, n: nat, c: Cpu, d: Cpu, sp: int)
    requires argc <= h <= |SLOTS| && Total(argc, first) <= 8 && h - argc < |SLOTS| && n <= 8
    requires 144 <= sp && sp + 8 < HALF && d.Get(SP) == sp - 128 - Pad(locals) && CallerSaved(c, d, sp, n)
    ensures AllPlain(AfterCall(argc, first, h, locals))
    ensures CallDone(h - argc, n, c, d, Exec(AfterCall(argc, first, h, locals), d), sp)
  {
    hide RestoreCode, Exec, AllPlain, CallerSaved, AfterCall, Padding, Padded, Pad, Cpu.Get, Cpu.Read;
    SlotFacts();
    ListFacts();
    var padded, slot := Padded(locals, h, argc, first), SLOTS[h - argc];
    PadIs(argc, first, h, locals);
    PaddingBlock(padded, WORD_SIZE, d);
    var c1 := Exec(Padding(padded, WORD_SIZE), d);
    MoveOne(slot, A0, c1);
    var c2 := Exec([Mv(slot, A0)], c1);
    SavedElsewhere(c, d, c2, sp, n);
    RestoreBlock(c, c2, sp, n);
    ExecAppend(Padding(padded, WORD_SIZE), [Mv(slot, A0)], d);
    ExecAppend(Padding(padded, WORD_SIZE) + [Mv(slot, A0)], RestoreCode(0), d);
    AfterForm(argc, first, h, locals);
    SavedApart();
    if h - argc > 10 {
      var j :| 0 <= j < 7 && TEMPS[j] == slot;
    }
  }

  lemma AfterForm(argc: nat, first: Option<int>, h: nat, locals: nat)
    requires argc <= h <= |SLOTS| && Total(argc, first) <= 8 && h - argc < |SLOTS|
    ensures AfterCall(argc, first, h, locals) ==
            Padding(Padded(locals, h, argc, first), WORD_SIZE) + [Mv(SLOTS[h - argc], A0)] + RestoreCode(0)
  {
    hide RestoreCode, Padding, Padded;
  }

  lemma SavedApart()
    ensures forall r: Reg :: r in SAVED ==> r !in TEMPS && r !in ARGS && r != RA && r != SP
  {
  }

  lemma SavedElsewhere(c: Cpu, d: Cpu, e: Cpu, sp: int, n: nat)
    requires n <= 8 && e.mem == d.mem && CallerSaved(c, d, sp, n)
    ensures CallerSaved(c, e, sp, n)
  {
  }

  lemma RestoreBlock(c: Cpu, d: Cpu, sp: int, n: nat)
    requires n <= 8 && 144 <= sp && sp + 8 < HALF && d.Get(SP) == sp - 128 && CallerSaved(c, d, sp, n)
    ensures AllPlain(RestoreCode(0))
    ensures var e := Exec(RestoreCode(0), d);
            && e.Get(SP) == sp && e.Get(RA) == c.Get(RA) && e.mem == d.mem
            && (forall i :: 0 <= i < 7 ==> e.Get(TEMPS[i]) == c.Get(TEMPS[i]))
            && (forall i :: 0 <= i < n ==> e.Get(ARGS[i]) == c.Get(ARGS[i]))
            && (forall r: Reg :: r !in TEMPS && r !in ARGS && r != RA && r != SP ==> e.Get(r) == d.Get(r))
  {
    hide Pops, LoadAll, Adjust, Exec, AllPlain, Cpu.Get, Cpu.Read;
    ListFacts();
    PopList(ARGS, d);
    var c1 := Exec(Pops(ARGS), d);
    AdjustOne(64, c1);
    var c2 := Exec(Adjust(64), c1);
    LoadList(TEMPS, -16, c2);
    var c3 := Exec(LoadAll(TEMPS, -16), c2);
    LoadOne(RA, -8, c3);
    var c4 := Exec([Ld(RA, SP, -8)], c3);
    AdjustOne(0, c4);
    var e := Exec(Adjust(0), c4);
    ExecAppend(Pops(ARGS), Adjust(64), d);
    ExecAppend(Pops(ARGS) + Adjust(64), LoadAll(TEMPS, -16), d);
    ExecAppend(Pops(ARGS) + Adjust(64) + LoadAll(TEMPS, -16), [Ld(RA, SP, -8)], d);
    ExecAppend(Pops(ARGS) + Adjust(64) + LoadAll(TEMPS, -16) + [Ld(RA, SP, -8)], Adjust(0), d);
    assert RestoreCode(0) == Pops(ARGS) + Adjust(64) + LoadAll(TEMPS, -16) + [Ld(RA, SP, -8)] + Adjust(0);
    RestoredInSteps(c, d, c1, c2, c3, c4, e, sp, n);
  }

  lemma RestoredInSteps(c: Cpu, d: Cpu, c1: Cpu, c2: Cpu, c3: Cpu, c4: Cpu, e: Cpu, sp: int,
                        n: nat)
    requires n <= 8 && CallerSaved(c, d, sp, n) && d.mem == c1.mem == c2.mem == c3.mem == c4.mem == e.mem
    requires SameRegs(d, c1, {SP as int} + RegSet(ARGS))
    requires forall i :: 0 <= i < 8 ==> c1.Get(ARGS[i]) == d.Read(sp - 128 + 8 * (8 - 1 - i))
    requires SameRegs(c1, c2, {SP}) && SameRegs(c2, c3, RegSet(TEMPS)) && SameRegs(c3, c4, {RA})
             && SameRegs(c4, e, {SP})
    requires forall i :: 0 <= i < 7 ==> c3.Get(TEMPS[i]) == c2.Read(sp - 16 - 8 * i)
    requires c4.Get(RA) == c3.Read(sp - 8)
    ensures e.Get(RA) == c.Get(RA)
    ensures forall i :: 0 <= i < 7 ==> e.Get(TEMPS[i]) == c.Get(TEMPS[i])
    ensures forall i :: 0 <= i < n ==> e.Get(ARGS[i]) == c.Get(ARGS[i])
    ensures forall r: Reg :: r !in TEMPS && r !in ARGS && r != RA && r != SP ==> e.Get(r) == d.Get(r)
  {
    hide Cpu.Get;
    ListFacts();
    forall i | 0 <= i < 7
      ensures e.Get(TEMPS[i]) == c.Get(TEMPS[i])
    {
      assert TEMPS[i] != RA && TEMPS[i] != SP;
    }
    forall i | 0 <= i < n
      ensures e.Get(ARGS[i]) == c.Get(ARGS[i])
    {
      assert sp - 128 + 8 * (8 - 1 - i) == sp - 72 - 8 * i;
      assert ARGS[i] !in TEMPS && ARGS[i] != RA && ARGS[i] != SP;
    }
  }

  // -------------------------------------------------------------- the callee's side

  /** The offsets of a larger frame do not fit into immediates. */
  const MAX_LOCALS := 244

  /** The words below the locals of a frame hold the callee-saved registers of c. */
  ghost predicate CalleeSaved(c: Cpu, m: Cpu, fp: int, locals: nat) {
    forall i :: 0 <= i < 12 ==> m.Read(fp - 8 * (locals + 1) - 8 * i) == c.Get(SAVED[i])
  }

  lemma BeginBlock(locals: nat, c: Cpu)
    requires 8 * (locals + 13) <= c.Get(SP) && locals <= MAX_LOCALS
    ensures AllPlain(BeginCode(locals))
    ensures var sp, d := c.Get(SP), Exec(BeginCode(locals), c);
            && d.Get(FP) == sp && d.Get(SP) == sp - 8 * (locals + 12) && SameRegs(c, d, {SP, FP})
            && CalleeSaved(c, d, sp, locals) && SameOutside(c, d, sp - 8 * (locals + 12), sp - 8 * locals)
  {
    hide StoreAll, Exec, AllPlain, Cpu.Get, Cpu.Read;
    ListFacts();
    var sp := c.Get(SP);
    StoreList(SAVED, -(1 + locals) * WORD_SIZE, c);
    var c1 := Exec(StoreAll(SAVED, -(1 + locals) * WORD_SIZE), c);
    SameGets(c, c1);
    CopySp(c1);
    var op := IType(Addi, FP, SP, 0);
    var c2 := Exec([op], c1);
    AdjustOne(-(locals + 12) * WORD_SIZE, c2);
    ExecAppend(StoreAll(SAVED, -(1 + locals) * WORD_SIZE), [op], c);
    ExecAppend(StoreAll(SAVED, -(1 + locals) * WORD_SIZE) + [op], Adjust(-(locals + 12) * WORD_SIZE), c);
    BegunInSteps(c, c1, Exec(BeginCode(locals), c), sp, locals);
  }

  lemma SameGets(c: Cpu, d: Cpu)
    requires c.regs == d.regs
    ensures SameRegs(c, d, {})
  {
  }

  lemma CopySp(c: Cpu)
    ensures AllPlain([IType(Addi, FP, SP, 0)])
    ensures var d := Exec([IType(Addi, FP, SP, 0)], c);
            d.Get(FP) == c.Get(SP) && SameRegs(c, d, {FP}) && d.mem == c.mem
  {
    ExecOne(IType(Addi, FP, SP, 0), c);
  }

  lemma BegunInSteps(c: Cpu, c1: Cpu, d: Cpu, sp: int, locals: nat)
    requires c1.mem == d.mem
    requires var a := sp + -(1 + locals) * WORD_SIZE;
             && SameOutside(c, c1, a - 8 * 12 + 8, a + 8)
             && forall i :: 0 <= i < 12 ==> c1.Read(a - 8 * i) == c.Get(SAVED[i])
    ensures CalleeSaved(c, d, sp, locals) && SameOutside(c, d, sp - 8 * (locals + 12), sp - 8 * locals)
  {
    assert forall a :: d.Read(a) == c1.Read(a);
  }

  /** The epilogue up to its return: the result in a0, the stack as the callee found it and the callee-saved
      registers as it stored them. */
  lemma EndBlock(h: nat, locals: nat, c: Cpu, d: Cpu, fp: int)
    requires 1 <= h <= |SLOTS| && d.Get(FP) == fp && 8 * (locals + 14) <= fp && fp < HALF
             && CalleeSaved(c, d, fp, locals)
    requires locals <= MAX_LOCALS
    ensures var code := MoveToReg(A0, Slot(h - 1)) + [IType(Addi, SP, FP, 0)]
            + LoadAll(SAVED, -(1 + locals) * WORD_SIZE);
            AllPlain(code) &&
            var e := Exec(code, d);
            && e.Get(SP) == fp && e.Get(A0) == d.Get(SLOTS[h - 1])
            && (forall i :: 0 <= i < 12 ==> e.Get(SAVED[i]) == c.Get(SAVED[i]))
            && e.Get(RA) == d.Get(RA) && e.Get(GP) == d.Get(GP) && e.mem == d.mem
  {
    hide LoadAll, Exec, AllPlain, Cpu.Get, Cpu.Read;
    ListFacts();
    SlotFacts();
    MoveOne(A0, SLOTS[h - 1], d);
    var c1 := Exec([Mv(A0, SLOTS[h - 1])], d);
    CopyFp(c1);
    var op := IType(Addi, SP, FP, 0);
    var c2 := Exec([op], c1);
    LoadList(SAVED, -(1 + locals) * WORD_SIZE, c2);
    ExecAppend([Mv(A0, SLOTS[h - 1])], [op], d);
    ExecAppend([Mv(A0, SLOTS[h - 1])] + [op], LoadAll(SAVED, -(1 + locals) * WORD_SIZE), d);
    assert MoveToReg(A0, Slot(h - 1)) == [Mv(A0, SLOTS[h - 1])];
    SameReads(d, c2);
    assert A0 !in SAVED && RA !in SAVED && GP !in SAVED && SP !in SAVED;
  }

  lemma SameReads(c: Cpu, d: Cpu)
    requires c.mem == d.mem
    ensures forall a :: d.Read(a) == c.Read(a)
  {
  }

  lemma CopyFp(c: Cpu)
    ensures AllPlain([IType(Addi, SP, FP, 0)])
    ensures var d := Exec([IType(Addi, SP, FP, 0)], c);
            d.Get(SP) == c.Get(FP) && SameRegs(c, d, {SP}) && d.mem == c.mem
  {
    ExecOne(IType(Addi, SP, FP, 0), c);
  }

  // ----------------------------------------------------------- the whole call, any callee

  /** What a callee may do between the transfer (d) and its return (d'): it gives back the stack pointer and the
      callee-saved registers and writes no higher than the word at the stack pointer it was entered with, which is
      where local 0 of a compiled callee lies. */
  ghost predicate WellBehaved(d: Cpu, d': Cpu) {
    && d'.Get(SP) == d.Get(SP)
    && (forall r: Reg :: r in SAVED ==> d'.Get(r) == d.Get(r))
    && (forall a :: a > d.Get(SP) ==> d'.Read(a) == d.Read(a))
  }

  /** A call with at most eight arguments in all, a leading constant included, and its result in one of the first eleven
      positions: the callee is entered with the arguments in order and the stack pointer aligned to 16 bytes; whatever
      it computes, the caller finds ra, sp, fp, its temporaries, a0-a6 and all deeper stack positions again, the result
      on top, and also a7 if the callee left the word at its entry stack pointer alone. */
  lemma CallDiscipline(argc: nat, first: Option<int>, h: nat, locals: nat, c: Cpu, d': Cpu)
    requires argc <= h <= |SLOTS| && Total(argc, first) <= 8 && h - argc <= 10
    requires 144 <= c.Get(SP) && c.Get(SP) + 8 < HALF
    requires c.Get(FP) % 16 == 0 && c.Get(SP) == c.Get(FP) - 8 * (locals + 12)
    requires AllPlain(BeforeCall(argc, first, h, locals))
             && WellBehaved(Exec(BeforeCall(argc, first, h, locals), c), d')
    ensures var d, lo := Exec(BeforeCall(argc, first, h, locals), c), Total(argc, first) - argc;
            && d.Get(SP) % 16 == 0
            && (first.Some? ==> d.Get(A0) == Narrow(first.value))
            && (forall k :: h - argc <= k < h ==> d.Get(10 + lo + k - (h - argc)) == c.Get(SLOTS[k]))
    ensures AllPlain(AfterCall(argc, first, h, locals))
    ensures var d, e := Exec(BeforeCall(argc, first, h, locals), c), Exec(AfterCall(argc, first, h, locals), d');
            && e.Get(SP) == c.Get(SP) && e.Get(RA) == c.Get(RA) && e.Get(FP) == c.Get(FP) && e.Get(GP) == c.Get(GP)
            && (forall i :: 0 <= i < 7 ==> e.Get(TEMPS[i]) == c.Get(TEMPS[i]))
            && (forall i :: 0 <= i < 7 ==> e.Get(ARGS[i]) == c.Get(ARGS[i]))
            && (d'.Read(d.Get(SP)) == d.Read(d.Get(SP)) ==> e.Get(ARGS[7]) == c.Get(ARGS[7]))
            && (forall k :: 0 <= k < h - argc ==> e.Get(SLOTS[k]) == c.Get(SLOTS[k]))
            && e.Get(SLOTS[h - argc]) == d'.Get(A0)
            && (forall a :: a >= c.Get(SP) ==> e.Read(a) == c.Read(a))
  {
    hide Exec, AllPlain, BeforeCall, AfterCall, Narrow, Cpu.Get, Cpu.Read;
    var sp, d := c.Get(SP), Exec(BeforeCall(argc, first, h, locals), c);
    SlotFacts();
    ListFacts();
    BeforeBlock(argc, first, h, locals, c);
    SavedWhenReturned(c, d, d', sp, locals);
    var n := if d'.Read(d.Get(SP)) == d.Read(d.Get(SP)) then 8 else 7;
    AfterBlock(argc, first, h, locals, n, c, d', sp);
    SameReads(d', Exec(AfterCall(argc, first, h, locals), d'));
    Alignment(c.Get(FP), locals);
    assert GP == TEMPS[0] && FP in SAVED;
  }

  lemma SavedWhenReturned(c: Cpu, d: Cpu, d': Cpu, sp: int, locals: nat)
    requires CallerSaved(c, d, sp, 8) && d.Get(SP) == sp - 128 - Pad(locals)
    requires forall a :: a > d.Get(SP) ==> d'.Read(a) == d.Read(a)
    ensures CallerSaved(c, d', sp, 7)
    ensures d'.Read(d.Get(SP)) == d.Read(d.Get(SP)) ==> CallerSaved(c, d', sp, 8)
  {
    hide Cpu.Get, Cpu.Read;
  }

  lemma Alignment(fp: int, locals: nat)
    requires fp % 16 == 0
    ensures (fp - 8 * (locals + 12) - 128 - Pad(locals)) % 16 == 0
  {
    var n := (locals + locals % 2) / 2;
    assert 8 * (locals + 12) + Pad(locals) == 16 * (n + 6);
    assert fp == 16 * (fp / 16);
    assert fp - 8 * (locals + 12) - 128 - Pad(locals) == 16 * (fp / 16 - n - 14);
  }
}
