/** The compiler keeps one current frame, set by the last Begin it compiled. An address taken from the list after
    another function has been compiled is compiled for that function's frame. */
module Frames {
  import opened Rv64
  import opened Bytecode
  import opened Lowering
  import opened Worklist
  import opened Blocks
  import opened Steps
  import opened Linking
  import opened Relation
  import opened Simulation

  /** The epilogue without its return, as compiled for a frame with `locals` local variables. */
  function Epilogue(h: nat, locals: nat): seq<Op>
    requires h >= 1
  {
    MoveToReg(A0, Slot(h - 1)) + [IType(Addi, SP, FP, 0)] + LoadAll(SAVED, -(1 + locals) * WORD_SIZE)
  }

  ghost predicate RestoresSaved(c: Cpu, e: Cpu) {
    forall i :: 0 <= i < 12 ==> e.Get(SAVED[i]) == c.Get(SAVED[i])
  }

  /** The epilogue compiled for m locals, in any frame of n locals, gives back the caller's registers. */
  ghost predicate EpilogueRestores(h: nat, n: nat, m: nat)
    requires h >= 1
  {
    forall c: Cpu, d: Cpu ::
      8 * (n + m + 14) <= d.Get(FP) && CalleeSaved(c, d, d.Get(FP), n) && AllPlain(Epilogue(h, m)) ==>
        RestoresSaved(c, Exec(Epilogue(h, m), d))
  }

  /** It does so exactly when it was compiled for the number of locals that the prologue reserved. */
  lemma EpilogueExact(h: nat, n: nat, m: nat)
    requires 1 <= h <= |SLOTS| && m <= MAX_LOCALS && 8 * (n + m + 14) < HALF
    ensures EpilogueRestores(h, n, m) <==> n == m
  {
    hide Exec, AllPlain, LoadAll;
    if n == m {
      forall c: Cpu, d: Cpu | 8 * (n + m + 14) <= d.Get(FP) && CalleeSaved(c, d, d.Get(FP), n)
          && AllPlain(Epilogue(h, m))
        ensures RestoresSaved(c, Exec(Epilogue(h, m), d))
      {
        EndBlock(h, n, c, d, d.Get(FP));
      }
    } else {
      WrongRegister(h, n, m);
    }
  }

  /** Two machine states that tell the epilogues apart: every saved cell holds a number of its own. */
  lemma WrongRegister(h: nat, n: nat, m: nat)
    requires 1 <= h <= |SLOTS| && m <= MAX_LOCALS && 8 * (n + m + 14) < HALF && n != m
    ensures !EpilogueRestores(h, n, m)
  {
    hide Exec, AllPlain, Epilogue;
    var fp := 8 * (n + m + 14);
    var d := Numbered(fp, n);
    var c := Cpu(seq(32, i requires 0 <= i < 32 => Rank(i)), map[], map[]);
    NumberedCells(fp, n, c, d);
    EndReads(h, m, d, fp);
    NumberedElsewhere(fp, n, m, d);
    assert c.Get(SAVED[0]) == 1;
    assert !RestoresSaved(c, Exec(Epilogue(h, m), d));
  }

  /** The word at fp - 8 * (n + k) is k, down to k = 12. */
  function Numbered(fp: int, n: nat): Cpu
    requires 0 <= fp < HALF
  {
    Cpu(seq(32, i => 0)[FP := fp], map a: int | fp - 8 * (n + 12) <= a <= fp - 8 * (n + 1) :: WordsBelow(fp, n, a),
        map[])
  }

  function WordsBelow(fp: int, n: nat, a: int): Int64 {
    Wrap((fp - 8 * n - a) / 8)
  }

  lemma NumberedCells(fp: int, n: nat, c: Cpu, d: Cpu)
    requires 0 <= fp < HALF && d == Numbered(fp, n)
    requires forall r: Reg :: c.Get(r) == Rank(r)
    ensures d.Get(FP) == fp && CalleeSaved(c, d, fp, n)
  {
    Ranks();
    forall i | 0 <= i < 12
      ensures d.Read(fp - 8 * (n + 1) - 8 * i) == c.Get(SAVED[i])
    {
      assert fp - 8 * n - (fp - 8 * (n + 1) - 8 * i) == 8 * (i + 1);
    }
  }

  lemma NumberedElsewhere(fp: int, n: nat, m: nat, d: Cpu)
    requires 0 <= fp < HALF && d == Numbered(fp, n) && m != n
    ensures d.Read(fp - 8 * (m + 1)) != 1
  {
    assert fp - 8 * n - (fp - 8 * (m + 1)) == 8 * (m + 1 - n);
  }

  /** The position of a register in the list of saved ones, counted from one. */
  function Rank(r: nat): Int64 {
    if r == 8 then 1 else if r == 9 then 2 else if 18 <= r <= 27 then r - 15 else 0
  }

  lemma Ranks()
    ensures forall i :: 0 <= i < 12 ==> Rank(SAVED[i]) == i + 1
  {
  }

  lemma EndReads(h: nat, m: nat, d: Cpu, fp: int)
    requires 1 <= h <= |SLOTS| && m <= MAX_LOCALS && d.Get(FP) == fp && 8 * (m + 14) <= fp < HALF
    ensures AllPlain(Epilogue(h, m))
    ensures Exec(Epilogue(h, m), d).Get(SAVED[0]) == d.Read(fp - 8 * (m + 1))
    ensures Exec(Epilogue(h, m), d).Get(RA) == d.Get(RA)
  {
    hide Cpu.Get, LoadAll, Exec, AllPlain;
    ListFacts();
    SlotFacts();
    MoveOne(A0, SLOTS[h - 1], d);
    var c1 := Exec([Mv(A0, SLOTS[h - 1])], d);
    CopyFp(c1);
    var op := IType(Addi, SP, FP, 0);
    var c2 := Exec([op], c1);
    LoadList(SAVED, -(1 + m) * WORD_SIZE, c2);
    ExecAppend([Mv(A0, SLOTS[h - 1])], [op], d);
    ExecAppend([Mv(A0, SLOTS[h - 1])] + [op], LoadAll(SAVED, -(1 + m) * WORD_SIZE), d);
    assert MoveToReg(A0, Slot(h - 1)) == [Mv(A0, SLOTS[h - 1])];
    SameReads(d, c2);
  }

  // ------------------------------------------------------------------- a program

  /** A function without locals that branches, calls a function with a local in one branch, and returns in both. */
  function Example(): Program {
    [Item(0, Begin(Public("f"), 0, 0)), Item(10, Const(0)), Item(20, CondJump(50, true)), Item(30, Call(70, 0)),
        Item(40, End),
     Item(50, Const(1)), Item(60, End),
     Item(70, Begin(Private(70), 0, 1)), Item(80, Const(2)), Item(90, End)]
  }

  /** The frames of f and of the function it calls. */
  const F_FRAME: Option<Frame> := Some(Frame("f", 0, 0))
  const CALLEE_FRAME: Option<Frame> := Some(Frame(".lbc", 1, 0))

  function ExampleChunks(): seq<Chunk> {
    [Chunk(0, 0, None, true), Chunk(1, 0, F_FRAME, true), Chunk(2, 1, F_FRAME, true),
     Chunk(3, 0, F_FRAME, true), Chunk(4, 1, F_FRAME, true),
     Chunk(7, 0, F_FRAME, true), Chunk(8, 0, CALLEE_FRAME, true), Chunk(9, 1, CALLEE_FRAME, true),
     Chunk(5, 0, CALLEE_FRAME, true), Chunk(6, 1, CALLEE_FRAME, true)]
  }

  /** The driver may take the callee, the newer entry of its list, before the jump target. It finishes without a failed
      check although the code at the target, its epilogue included, is compiled for the callee's frame. */
  lemma FrameLeaks() returns (w: Work)
    ensures Completed(Example(), 0, [0], [0, 70, 50], w) && w.chunks == ExampleChunks()
  {
    hide Process, Follow;
    assert Start([0]) == Some(Work(0, None, map[], map[0 := 0], [])) by {
      assert Start([]) == Some(Work(0, None, map[], map[], []));
    }
    var w1 := FirstRound();
    var w2 := SecondRound(w1);
    w := ThirdRound(w2);
    Three(Example(), Work(0, None, map[], map[0 := 0], []), w1, w2, w);
    assert forall i, j :: 0 <= i < j < |Example()| ==> Example()[i].offset < Example()[j].offset;
  }

  lemma Three(p: Program, w0: Work, w1: Work, w2: Work, w3: Work)
    requires 0 in w0.todo && Process(p, 0, 0, w0) == Some(w1)
    requires 70 in w1.todo && Process(p, 0, 70, w1) == Some(w2)
    requires 50 in w2.todo && Process(p, 0, 50, w2) == Some(w3)
    ensures Follow(p, 0, [0, 70, 50], w0) == Some(w3)
  {
    hide Process;
    assert [0, 70, 50][1..] == [70, 50] && [70, 50][1..] == [50] && [50][1..] == [];
    assert Follow(p, 0, [], w3) == Some(w3);
    assert Follow(p, 0, [50], w2) == Some(w3);
    assert Follow(p, 0, [70, 50], w1) == Some(w3);
  }

  ghost predicate LowersTo(inst: Inst, h: nat, frame: Option<Frame>, top: nat, next: Option<Frame>,
                  target: Option<(nat, nat)>) {
    var l := Lower(inst, h, frame, 0);
    l.Lowered? && l.top == top && l.frame == next && l.target == target
  }

  lemma FunctionLowers()
    ensures LowersTo(Begin(Public("f"), 0, 0), 0, None, 0, F_FRAME, None)
    ensures LowersTo(CondJump(50, true), 1, F_FRAME, 0, F_FRAME, Some((50, 0)))
    ensures LowersTo(Call(70, 0), 0, F_FRAME, 1, F_FRAME, Some((70, 0)))
  {
    hide LowersTo;
    BeginLowers();
    BranchLowers();
  }

  lemma BeginLowers()
    ensures LowersTo(Begin(Public("f"), 0, 0), 0, None, 0, F_FRAME, None)
  {
    hide CallCode, BeginCode;
    assert |"f"| == 1;
  }

  lemma BranchLowers()
    ensures LowersTo(CondJump(50, true), 1, F_FRAME, 0, F_FRAME, Some((50, 0)))
    ensures LowersTo(Call(70, 0), 0, F_FRAME, 1, F_FRAME, Some((70, 0)))
  {
    hide CallCode, CondJumpCode;
  }

  lemma CalleeLowers()
    ensures LowersTo(Begin(Private(70), 0, 1), 0, F_FRAME, 0, CALLEE_FRAME, None)
  {
    hide CallCode, BeginCode;
    assert ".lbc"[0] == '.';
  }

  lemma ReturnLowers(v: int, frame: Option<Frame>)
    requires frame.Some?
    ensures LowersTo(Const(v), 0, frame, 1, frame, None) && LowersTo(End, 1, frame, 0, frame, None)
  {
    hide EndCode, ConstCode;
  }

  /** A first visit that meets no failed check. */
  lemma Visits(p: Program, i: nat, w: Work, top: nat, frame: Option<Frame>,
        target: Option<(nat, nat)>) returns (v: Work)
    requires i < |p| && p[i].offset !in w.done && LowersTo(p[i].inst, w.top, w.frame, top, frame, target)
    requires target.Some? ==> target.value.0 !in w.done && target.value.0 != p[i].offset
    requires target.Some? && target.value.0 in w.todo ==> w.todo[target.value.0] == target.value.1
    ensures Visit(p, 0, i, w) == Some(v) && v.top == top && v.frame == frame && v.done == w.done[p[i].offset := w.top]
    ensures v.todo == if target.None? then w.todo else w.todo[target.value.0 := target.value.1]
    ensures v.chunks == w.chunks + [Chunk(i, w.top, w.frame, true)]
  {
    hide Lower;
    v := Visit(p, 0, i, w).value;
  }

  /** The next visit of a chain. */
  lemma ChainOn(p: Program, i: nat, w: Work, v: Work)
    requires i < |p| && Visit(p, 0, i, w) == Some(v)
    ensures Chain(p, 0, i, w) == if Terminator(p[i].inst) then Some(v) else Chain(p, 0, i + 1, v)
  {
    hide Visit;
  }

  lemma FirstRound() returns (w: Work)
    ensures Process(Example(), 0, 0, Work(0, None, map[], map[0 := 0], [])) == Some(w)
    ensures w.done == map[0 := 0, 10 := 0, 20 := 1, 30 := 0, 40 := 1] && w.todo == map[50 := 0, 70 := 0]
    ensures w.chunks == ExampleChunks()[..5] && w.frame == F_FRAME
  {
    hide Visit, LowersTo, Chain, Process;
    var p := Example();
    FunctionLowers();
    ReturnLowers(0, F_FRAME);
    assert (map[0 := 0] - {0}) == map[];
    FoundAt(0, 0);
    var v0 := Work(0, None, map[], map[], []);
    var v1 := Visits(p, 0, v0, 0, F_FRAME, None);
    var v2 := Visits(p, 1, v1, 1, F_FRAME, None);
    ChainOn(p, 0, v0, v1);
    ChainOn(p, 1, v1, v2);
    w := RestOfFirstRound(v2);
    ProcessIsChain(p, 0, Work(0, None, map[], map[0 := 0], []), 0);
  }

  lemma RestOfFirstRound(v: Work) returns (w: Work)
    requires v.top == 1 && v.frame == F_FRAME && v.done == map[0 := 0, 10 := 0] && v.todo == map[]
    requires v.chunks == ExampleChunks()[..2]
    ensures Chain(Example(), 0, 2, v) == Some(w)
    ensures w.done == map[0 := 0, 10 := 0, 20 := 1, 30 := 0, 40 := 1] && w.todo == map[50 := 0, 70 := 0]
    ensures w.chunks == ExampleChunks()[..5] && w.frame == F_FRAME
  {
    hide Visit, LowersTo, Chain;
    var p := Example();
    FunctionLowers();
    ReturnLowers(0, F_FRAME);
    var v3 := Visits(p, 2, v, 0, F_FRAME, Some((50, 0)));
    var v4 := Visits(p, 3, v3, 1, F_FRAME, Some((70, 0)));
    w := Visits(p, 4, v4, 0, F_FRAME, None);
    ChainOn(p, 2, v, v3);
    ChainOn(p, 3, v3, v4);
    ChainOn(p, 4, v4, w);
  }

  lemma ProcessIsChain(p: Program, start: nat, w: Work, i: nat)
    requires start in w.todo && start !in w.done && Find(p, start) == Some(i)
    ensures i <= |p| && Process(p, 0, start, w) == Chain(p, 0, i, w.(top := w.todo[start], todo := w.todo - {start}))
  {
    hide Chain;
  }

  lemma SecondRound(v: Work) returns (w: Work)
    requires v.done == map[0 := 0, 10 := 0, 20 := 1, 30 := 0, 40 := 1] && v.todo == map[50 := 0, 70 := 0]
    requires v.chunks == ExampleChunks()[..5] && v.frame == F_FRAME
    ensures Process(Example(), 0, 70, v) == Some(w)
    ensures w.done == v.done[70 := 0][80 := 0][90 := 1] && w.todo == map[50 := 0]
    ensures w.chunks == ExampleChunks()[..8] && w.frame == CALLEE_FRAME
  {
    hide Visit, LowersTo, Chain;
    var p := Example();
    CalleeLowers();
    ReturnLowers(2, CALLEE_FRAME);
    assert v.todo - {70} == map[50 := 0];
    FoundAt(70, 7);
    var v0 := v.(top := 0, todo := map[50 := 0]);
    var v1 := Visits(p, 7, v0, 0, CALLEE_FRAME, None);
    var v2 := Visits(p, 8, v1, 1, CALLEE_FRAME, None);
    w := Visits(p, 9, v2, 0, CALLEE_FRAME, None);
    ChainOn(p, 7, v0, v1);
    ChainOn(p, 8, v1, v2);
    ChainOn(p, 9, v2, w);
  }

  lemma ThirdRound(v: Work) returns (w: Work)
    requires v.done == map[0 := 0, 10 := 0, 20 := 1, 30 := 0, 40 := 1][70 := 0][80 := 0][90 := 1]
             && v.todo == map[50 := 0]
    requires v.chunks == ExampleChunks()[..8] && v.frame == CALLEE_FRAME
    ensures Process(Example(), 0, 50, v) == Some(w)
    ensures w.todo == map[] && w.chunks == ExampleChunks()
  {
    hide Visit, LowersTo, Chain;
    var p := Example();
    ReturnLowers(1, CALLEE_FRAME);
    assert v.todo - {50} == map[];
    FoundAt(50, 5);
    var v0 := v.(top := 0, todo := map[]);
    var v1 := Visits(p, 5, v0, 1, CALLEE_FRAME, None);
    w := Visits(p, 6, v1, 0, CALLEE_FRAME, None);
    ChainOn(p, 5, v0, v1);
    ChainOn(p, 6, v1, w);
  }

  lemma FoundAt(offset: nat, i: nat)
    requires i < 10 && Example()[i].offset == offset
    ensures Find(Example(), offset) == Some(i)
  {
    assert forall i, j :: 0 <= i < j < |Example()| ==> Example()[i].offset < Example()[j].offset;
    FindAt(Example(), i);
  }

  // ------------------------------------------------------------------ its run

  lemma BodyOfBegin(w: Work)
    requires w.chunks == ExampleChunks()
    ensures Body(Example(), 0, w.chunks[0]) == [Label(Symbol("f"))] + BeginCode(0)
  {
    hide BeginCode, CallCode;
    assert |"f"| == 1;
  }

  lemma BodiesOfBranch(w: Work)
    requires w.chunks == ExampleChunks()
    ensures Body(Example(), 0, w.chunks[1]) == ConstCode(0, Narrow(2 * 0 + 1))
    ensures Body(Example(), 0, w.chunks[2]) ==
            [IType(Srai, SLOTS[0], SLOTS[0], 1)] + [Branch(true, SLOTS[0], 0, LabelName.Bytecode(50))]
    ensures Body(Example(), 0, w.chunks[8]) == ConstCode(0, Narrow(2 * 1 + 1))
  {
    hide Narrow, ConstCode;
  }

  lemma BodyOfEnd(w: Work)
    requires w.chunks == ExampleChunks()
    ensures Body(Example(), 0, w.chunks[9]) == Epilogue(1, 1) + [Ret]
  {
    hide LoadAll, MoveToReg;
    assert ".lbc"[0] == '.';
  }

  lemma PrologueOfExample(w: Work, c: Cpu) returns (e: Cpu)
    requires w.chunks == ExampleChunks() && 1024 <= c.Get(SP) < HALF - 8
    ensures Runs(Listing(Example(), 0, w.chunks), State(Position(Example(), 0, w.chunks, 0), c),
            State(Position(Example(), 0, w.chunks, 1), e))
    ensures e.Get(FP) == c.Get(SP) && e.Get(RA) == c.Get(RA) && CalleeSaved(c, e, c.Get(SP), 0)
  {
    hide Listing, Runs, Position, Body, BeginCode, Exec, AllPlain, CalleeSaved, Cpu.Get;
    var front := [Label(Symbol("f"))];
    BodyOfBegin(w);
    BeginBlock(0, c);
    ExecOne(Label(Symbol("f")), c);
    ExecAppend(front, BeginCode(0), c);
    assert front + BeginCode(0) + [] == front + BeginCode(0);
    RunsInto(Example(), 0, w, 0, front + BeginCode(0), [], c);
    e := Exec(BeginCode(0), c);
  }

  /** A plain chunk that sets the first slot. */
  lemma ConstOfExample(w: Work, k: nat, v: int, c: Cpu) returns (e: Cpu)
    requires w.chunks == ExampleChunks() && (k == 1 || k == 8) && v == (if k == 1 then 0 else 1)
    ensures Runs(Listing(Example(), 0, w.chunks), State(Position(Example(), 0, w.chunks, k), c),
            State(Position(Example(), 0, w.chunks, k + 1), e))
    ensures SlotSet(c, e, 0, Box(v))
  {
    hide Listing, Runs, Position, Body, ConstCode, Exec, AllPlain, SlotSet, Narrow;
    BodiesOfBranch(w);
    ConstBlock(0, v, c);
    var code := ConstCode(0, Narrow(2 * v + 1));
    assert code + [] == code;
    RunsInto(Example(), 0, w, k, code, [], c);
    e := Exec(code, c);
  }

  lemma BranchOfExample(w: Work, c: Cpu) returns (e: Cpu)
    requires w.chunks == ExampleChunks() && c.Get(SLOTS[0]) == Box(0)
    ensures Runs(Listing(Example(), 0, w.chunks), State(Position(Example(), 0, w.chunks, 2), c),
            State(Position(Example(), 0, w.chunks, 8), e))
    ensures OnlySlots(c, e)
  {
    hide Listing, Runs, Position, Body, Exec, AllPlain, OnlySlots, Holds, Cpu.Get;
    var code, op := Listing(Example(), 0, w.chunks), Branch(true, SLOTS[0], 0, LabelName.Bytecode(50));
    BodiesOfBranch(w);
    SlotHolds(c);
    ConditionBlock([Box(0)], c);
    var ops := [IType(Srai, SLOTS[0], SLOTS[0], 1)];
    e := Exec(ops, c);
    RunsInto(Example(), 0, w, 2, ops, [op], c);
    var at := Position(Example(), 0, w.chunks, 2);
    var here := State(at + |Heading(Example(), w.chunks[2])| + 1, e);
    OpAt(code, here.pc, op);
    var target := Position(Example(), 0, w.chunks, 8);
    ChunkCodeIs(Example(), 0, w, 8);
    OpAt(code, target, Label(LabelName.Bytecode(50)));
    ZeroGet(e);
    assert Unbox(Box(0)) == 0;
    RunsOne(code, here, State(target, e));
    RunsTrans(code, State(at, c), here, State(target, e));
  }

  lemma SlotHolds(c: Cpu)
    requires c.Get(SLOTS[0]) == Box(0)
    ensures SlotsHold(c, [Box(0)])
  {
  }

  lemma ZeroGet(c: Cpu)
    ensures c.Get(0) == 0
  {
  }

  lemma EndOfExample(w: Work, d: Cpu, fp: int) returns (e: Cpu)
    requires w.chunks == ExampleChunks() && d.Get(FP) == fp && 1024 <= fp < HALF && d.Get(RA) >= 0
    ensures Runs(Listing(Example(), 0, w.chunks), State(Position(Example(), 0, w.chunks, 9), d), State(d.Get(RA), e))
    ensures e.Get(FP) == d.Read(fp - 16)
  {
    hide Listing, Runs, Position, Body, Exec, AllPlain, Epilogue, Holds, Cpu.Get, Cpu.Read;
    var code := Listing(Example(), 0, w.chunks);
    BodyOfEnd(w);
    EndReads(1, 1, d, fp);
    e := Exec(Epilogue(1, 1), d);
    RunsInto(Example(), 0, w, 9, Epilogue(1, 1), [Ret], d);
    var at := Position(Example(), 0, w.chunks, 9);
    var here := State(at + |Heading(Example(), w.chunks[9])| + |Epilogue(1, 1)|, e);
    OpAt(code, here.pc, Ret);
    RunsOne(code, here, State(d.Get(RA), e));
    RunsTrans(code, State(at, d), here, State(d.Get(RA), e));
  }

  /** Whoever calls `f` gets its frame pointer back as what was in s1. */
  lemma LeakReturns(c: Cpu) returns (w: Work, e: Cpu)
    requires 1024 <= c.Get(SP) < HALF - 8 && c.Get(RA) >= 0
    ensures Completed(Example(), 0, [0], [0, 70, 50], w) && w.chunks == ExampleChunks()
    ensures Runs(Listing(Example(), 0, w.chunks), State(0, c), State(c.Get(RA), e))
    ensures e.Get(FP) == c.Get(SAVED[1])
  {
    hide Listing, Runs, CalleeSaved, Completed, SlotSet, OnlySlots, Cpu.Get, Cpu.Read;
    w := FrameLeaks();
    var code := Listing(Example(), 0, w.chunks);
    assert Position(Example(), 0, w.chunks, 0) == 0 by {
      NothingListed(w.chunks);
    }
    var e0 := PrologueOfExample(w, c);
    var e1 := ConstOfExample(w, 1, 0, e0);
    SlotOnly(e0, e1, 0, Box(0));
    var e2 := BranchOfExample(w, e1);
    var e3 := ConstOfExample(w, 8, 1, e2);
    SlotOnly(e2, e3, 0, Box(1));
    Steady(e0, e1, e2, e3);
    e := EndOfExample(w, e3, c.Get(SP));
    SecondSaved(c, e0);
    var p1, p2 := State(Position(Example(), 0, w.chunks, 1), e0), State(Position(Example(), 0, w.chunks, 2), e1);
    var p8, p9 := State(Position(Example(), 0, w.chunks, 8), e2), State(Position(Example(), 0, w.chunks, 9), e3);
    RunsTrans(code, State(0, c), p1, p2);
    RunsTrans(code, State(0, c), p2, p8);
    RunsTrans(code, State(0, c), p8, p9);
    RunsTrans(code, State(0, c), p9, State(c.Get(RA), e));
  }

  lemma NothingListed(chunks: seq<Chunk>)
    ensures |Listing(Example(), 0, chunks[..0])| == 0
  {
  }

  lemma SlotOnly(c: Cpu, d: Cpu, k: nat, v: Int64)
    requires k < |SLOTS| && SlotSet(c, d, k, v)
    ensures OnlySlots(c, d) && d.Get(SLOTS[k]) == v
  {
  }

  lemma Steady(e0: Cpu, e1: Cpu, e2: Cpu, e3: Cpu)
    requires OnlySlots(e0, e1) && OnlySlots(e1, e2) && OnlySlots(e2, e3)
    ensures e3.Get(FP) == e0.Get(FP) && e3.Get(RA) == e0.Get(RA) && forall a :: e3.Read(a) == e0.Read(a)
  {
    hide Cpu.Get;
    SlotsSpecial();
    assert FP !in SLOTS && RA !in SLOTS;
  }

  lemma SecondSaved(c: Cpu, e: Cpu)
    requires CalleeSaved(c, e, c.Get(SP), 0)
    ensures e.Read(c.Get(SP) - 16) == c.Get(SAVED[1])
  {
    var i := 1;
    assert c.Get(SP) - 8 * (0 + 1) - 8 * i == c.Get(SP) - 16;
    assert e.Read(c.Get(SP) - 8 * (0 + 1) - 8 * i) == c.Get(SAVED[i]);
  }
}
