/** The listing that the driver emits defines every bytecode label once, and links exactly when every
    address that it transfers to is the address of an instruction. */
module Linking {
  import opened Rv64
  import opened Bytecode
  import opened Lowering
  import opened Worklist

  /** The position of chunk k in the listing. */
  ghost function Position(p: Program, g: nat, chunks: seq<Chunk>, k: nat): nat
    requires k <= |chunks|
  {
    |Listing(p, g, chunks[..k])|
  }

  lemma {:induction false} ChunkInListing(p: Program, g: nat, chunks: seq<Chunk>, k: nat)
    requires k < |chunks|
    ensures Holds(Listing(p, g, chunks), Position(p, g, chunks, k), ChunkCode(p, g, chunks[k]))
    ensures Position(p, g, chunks, k + 1) == Position(p, g, chunks, k) + |ChunkCode(p, g, chunks[k])|
    ensures Position(p, g, chunks, k + 1) <= |Listing(p, g, chunks)|
  {
    hide ChunkCode;
    var n := |chunks|;
    var shorter := chunks[..n - 1];
    assert chunks[..k + 1][..k] == chunks[..k];
    if k == n - 1 {
      assert chunks[..n] == chunks;
    } else {
      ChunkInListing(p, g, shorter, k);
      assert shorter[..k] == chunks[..k] && shorter[..k + 1] == chunks[..k + 1];
      var at, len := Position(p, g, chunks, k), |ChunkCode(p, g, chunks[k])|;
      assert Listing(p, g, chunks)[at..at + len] == Listing(p, g, shorter)[at..at + len];
    }
  }

  /** Every line of the listing belongs to a chunk. */
  lemma {:induction false} LineInChunk(p: Program, g: nat, chunks: seq<Chunk>, q: nat) returns (k: nat)
    requires q < |Listing(p, g, chunks)|
    ensures k < |chunks| && Position(p, g, chunks, k) <= q < Position(p, g, chunks, k + 1)
    ensures q - Position(p, g, chunks, k) < |ChunkCode(p, g, chunks[k])|
    ensures Listing(p, g, chunks)[q] == ChunkCode(p, g, chunks[k])[q - Position(p, g, chunks, k)]
  {
    hide ChunkCode;
    var n := |chunks|;
    var shorter := chunks[..n - 1];
    if q < |Listing(p, g, shorter)| {
      k := LineInChunk(p, g, shorter, q);
      assert shorter[..k] == chunks[..k] && shorter[..k + 1] == chunks[..k + 1];
    } else {
      k := n - 1;
      assert chunks[..n] == chunks;
    }
  }

  // ------------------------------------------------------- what a single chunk mentions

  ghost predicate Mentions(op: Op, name: LabelName) {
    (op.Jal? || op.Branch? || op.CallTo?) && op.target == name
  }

  /** No bytecode label is defined here, and the only one transferred to is `target`. */
  ghost predicate Refers(ops: seq<Op>, target: Option<nat>) {
    forall op :: op in ops ==> RefersOne(op, target)
  }

  ghost predicate RefersOne(op: Op, target: Option<nat>) {
    && (op.Label? ==> op.name.Symbol?)
    && ((op.Jal? || op.Branch? || op.CallTo?) && op.target.Bytecode? ==> target == Some(op.target.offset))
  }

  lemma {:induction false} ListsRefer(rs: seq<Reg>, off: int, target: Option<nat>)
    ensures Refers(Pushes(rs), target) && Refers(Pops(rs), target)
    ensures Refers(StoreAll(rs, off), target) && Refers(LoadAll(rs, off), target)
    decreases |rs|
  {
    if |rs| > 0 {
      ListsRefer(rs[1..], off - WORD_SIZE, target);
      ListsRefer(rs[..|rs| - 1], off, target);
    }
  }

  lemma {:induction false} ArgMovesRefer(lo: nat, n: nat, h: nat, target: Option<nat>)
    requires lo + n <= 8
    ensures Refers(ArgMoves(lo, n, h), target)
    decreases n
  {
    hide Slot, RegOf;
    if n > 0 && h > 0 {
      ArgMovesRefer(lo, n - 1, h - 1, target);
    }
  }

  lemma {:induction false} ExtraArgsRefer(n: nat, h: nat, target: Option<nat>)
    ensures Refers(ExtraArgs(n, h), target)
    decreases n
  {
    hide Slot, RegOf;
    if n > 0 && h > 0 {
      ExtraArgsRefer(n - 1, h - 1, target);
    }
  }

  lemma BeforeRefers(argc: nat, first: Option<int>, h: nat, locals: nat, target: Option<nat>)
    requires h >= argc
    ensures Refers(BeforeCall(argc, first, h, locals), target)
  {
    hide ArgMoves, ExtraArgs, Pushes, Spilled, Padded, Narrow;
    var extra := Extra(argc, first);
    ListsRefer(TEMPS, 0, target);
    ListsRefer(ARGS, 0, target);
    ArgMovesRefer(Total(argc, first) - argc, argc - extra, h, target);
    ExtraArgsRefer(extra, h - (argc - extra), target);
  }

  lemma AfterRefers(argc: nat, first: Option<int>, h: nat, locals: nat, target: Option<nat>)
    requires h >= argc
    ensures Refers(AfterCall(argc, first, h, locals), target)
  {
    hide Pops, LoadAll, Slot, RegOf, Spilled, Padded;
    ListsRefer(TEMPS, -2 * WORD_SIZE, target);
    ListsRefer(ARGS, 0, target);
  }

  lemma CallRefers(callee: LabelName, argc: nat, first: Option<int>, h: nat, locals: nat, target: Option<nat>)
    requires h >= argc
    requires callee.Bytecode? ==> target == Some(callee.offset)
    ensures Refers(CallCode(callee, argc, first, h, locals), target)
  {
    hide BeforeCall, AfterCall;
    BeforeRefers(argc, first, h, locals, target);
    AfterRefers(argc, first, h, locals, target);
  }

  lemma PrologueRefers(locals: nat, target: Option<nat>)
    ensures Refers(BeginCode(locals), target)
  {
    hide StoreAll;
    ListsRefer(SAVED, -(1 + locals) * WORD_SIZE, target);
  }

  lemma MoveRefers(dst: Reg, src: Loc, target: Option<nat>)
    ensures Refers(MoveToReg(dst, src), target)
  {
  }

  lemma TailRefers(main: bool, target: Option<nat>)
    ensures Refers([IType(Addi, SP, FP, 0)], target)
    ensures Refers((if main then [IType(Srai, A0, A0, 1)] else []) + [Ret], target)
  {
  }

  lemma EpilogueRefers(h: nat, locals: nat, main: bool, target: Option<nat>)
    requires h >= 1
    ensures Refers(EndCode(h, locals, main), target)
  {
    hide LoadAll, MoveToReg, Slot, RefersOne;
    ListsRefer(SAVED, -(1 + locals) * WORD_SIZE, target);
    MoveRefers(A0, Slot(h - 1), target);
    TailRefers(main, target);
  }

  lemma RuntimeCallRefers(before: seq<Op>, name: string, argc: nat, first: Option<int>, h: nat, frame: Option<Frame>)
    requires Refers(before, None) && RuntimeCall(before, name, argc, first, h, frame).Lowered?
    ensures RuntimeCall(before, name, argc, first, h, frame).target.None?
    ensures Refers(RuntimeCall(before, name, argc, first, h, frame).code, None)
  {
    hide CallCode;
    CallRefers(Symbol(name), argc, first, h, frame.value.locals, None);
  }

  lemma BeginRefers(heading: seq<Op>, h: nat, frame: Frame)
    requires Refers(heading, None)
    ensures Refers(LowerBegin(heading, h, frame).code, None) && LowerBegin(heading, h, frame).target.None?
  {
    hide CallCode, BeginCode;
    CallRefers(Symbol("__init"), 0, None, h, frame.locals, None);
    PrologueRefers(frame.locals, None);
  }

  lemma BinopRefers(op: BinopKind, h: nat)
    requires h >= 2
    ensures Refers(BinopCode(op, h), None)
  {
    hide Slot, RegOf;
    var a, b := Slot(h - 2), Slot(h - 1);
    assert Refers(OperatorCode(op, a, a, b), None);
  }

  lemma RuntimeRefers(inst: Inst, h: nat, frame: Option<Frame>)
    requires LowerRuntime(inst, h, frame).Lowered?
    ensures LowerRuntime(inst, h, frame).target.None? && Refers(LowerRuntime(inst, h, frame).code, None)
  {
    hide RuntimeCall, Slot, RegOf, Decimal, Narrow;
    match inst
    case Text(index) => RuntimeCallRefers(AddressCode(Slot(h), "string_" + Decimal(index)), "RVBstring", 1, None,
        h + 1, frame);
    case Sexp(hash, size) =>
      RuntimeCallRefers(ImmediateCode(Slot(h), hash), "RVBsexp", size + 1, Some(2 * size + 1 + 1), h + 1, frame);
    case StoreArray => RuntimeCallRefers([], "Bsta", 3, None, h, frame);
    case Elem => RuntimeCallRefers([], "Belem", 2, None, h, frame);
    case Tag(hash, size) =>
      RuntimeCallRefers(ImmediateCode(Slot(h), hash) + ImmediateCode(Slot(h + 1), 2 * size + 1), "Btag", 3, None,
          h + 2, frame);
    case Fail(line, col) =>
      RuntimeCallRefers(AddressCode(Slot(h), "fname") + ImmediateCode(Slot(h + 1), 2 * line + 1) +
                        ImmediateCode(Slot(h + 2), 2 * col + 1), "Bmatch_failure", 4, None, h + 3, frame);
    case BuiltinRead => RuntimeCallRefers([], "Lread", 0, None, h, frame);
    case BuiltinWrite => RuntimeCallRefers([], "Lwrite", 1, None, h, frame);
    case BuiltinLength => RuntimeCallRefers([], "Llength", 1, None, h, frame);
    case BuiltinString => RuntimeCallRefers([], "RVLstring", 1, None, h, frame);
    case BuiltinArray(len) => RuntimeCallRefers([], "RVBarray", len, Some(2 * len + 1), h, frame);
    case _ =>
  }

  lemma OperandsRefer(inst: Inst, h: nat, frame: Option<Frame>)
    requires LowerOperands(inst, h, frame).Lowered?
    ensures LowerOperands(inst, h, frame).target.None? && Refers(LowerOperands(inst, h, frame).code, None)
  {
    hide BinopCode, Slot, RegOf, Narrow;
    match inst
    case Binop(op) => BinopRefers(op, h);
    case _ =>
  }

  lemma StoresRefer(place: Place, index: nat, h: nat, frame: Option<Frame>, g: nat)
    ensures var l := LowerLoad(place, index, h, frame, g);
            l.Lowered? ==> l.target.None? && Refers(l.code, None)
    ensures var l := LowerStore(place, index, h, frame);
            l.Lowered? ==> l.target.None? && Refers(l.code, None)
  {
    hide Slot, RegOf;
  }

  /** The code of an instruction transfers to the target that its lowering reports, or to a runtime symbol. */
  lemma LowerRefers(inst: Inst, h: nat, frame: Option<Frame>, g: nat)
    requires Lower(inst, h, frame, g).Lowered?
    ensures var l := Lower(inst, h, frame, g);
            Refers(l.code, if l.target.Some? then Some(l.target.value.0) else None)
  {
    hide CallCode, BeginCode, EndCode, LowerBegin, LowerOperands, LowerRuntime, LowerLoad, LowerStore, Slot, RegOf;
    match inst
    case Jump(_) =>
    case CondJump(_, _) =>
    case Begin(entry, argc, locc) =>
      if entry.Public? {
        BeginRefers([Label(Symbol(entry.name))], h, Frame(entry.name, locc, argc));
      } else {
        BeginRefers([], h, Frame(".lbc", locc, argc));
      }
    case ClosureBegin(argc, locc) => BeginRefers([Label(Symbol("closure"))], h, Frame("closure", locc, argc));
    case End => EpilogueRefers(h, frame.value.locals, frame.value.name == "main", None);
    case Call(callee, argc) =>
      CallRefers(LabelName.Bytecode(callee), argc, None, h, frame.value.locals, Some(callee));
    case Load(place, index) => StoresRefer(place, index, h, frame, g);
    case Store(place, index) => StoresRefer(place, index, h, frame, g);
    case _ =>
      if LowerOperands(inst, h, frame).Lowered? {
        OperandsRefer(inst, h, frame);
      } else {
        RuntimeRefers(inst, h, frame);
      }
  }

  // ---------------------------------------------------------------------- theorems

  /** A line of a chunk is its heading or refers to the chunk's target only. */
  lemma LineOfChunk(p: Program, g: nat, w: Work, c: Chunk, i: nat)
    requires ChunkDone(p, g, w, c) && i < |ChunkCode(p, g, c)|
    ensures var l := LoweredAt(p, g, c);
            || (i == 0 && c.labelled && ChunkCode(p, g, c)[i] == Label(LabelName.Bytecode(p[c.index].offset)))
            || RefersOne(ChunkCode(p, g, c)[i], if l.target.Some? then Some(l.target.value.0) else None)
  {
    hide Lower;
    LowerRefers(p[c.index].inst, c.height, c.frame, g);
    var n := |Heading(p, c)|;
    if i >= n {
      assert ChunkCode(p, g, c)[i] == Body(p, g, c)[i - n] && Body(p, g, c)[i - n] in Body(p, g, c);
    }
  }

  /** The lines that define a bytecode label are the first lines of labelled chunks. */
  lemma LabelStartsChunk(p: Program, g: nat, w: Work, a: nat, q: nat) returns (k: nat)
    requires Closed(p, g, w) && Defines(Listing(p, g, w.chunks), LabelName.Bytecode(a), q)
    ensures k < |w.chunks| && LabelOf(p, w.chunks[k], a) && q == Position(p, g, w.chunks, k)
  {
    hide Lower, Listing;
    k := LineInChunk(p, g, w.chunks, q);
    assert ChunkDone(p, g, w, w.chunks[k]);
    LineOfChunk(p, g, w, w.chunks[k], q - Position(p, g, w.chunks, k));
  }

  /** Chunks of the listing start at different lines. */
  lemma {:induction false} PositionsAscend(p: Program, g: nat, chunks: seq<Chunk>, j: nat, k: nat)
    requires j <= k <= |chunks|
    ensures Position(p, g, chunks, j) <= Position(p, g, chunks, k)
    decreases k - j
  {
    hide ChunkCode, Position;
    if j < k {
      ChunkInListing(p, g, chunks, j);
      PositionsAscend(p, g, chunks, j + 1, k);
    }
  }

  /** A bytecode label is defined on one line at most, even when a chain runs into code compiled before. */
  lemma LabelDefinedOnce(p: Program, g: nat, w: Work, a: nat, q: nat, r: nat)
    requires Closed(p, g, w)
    requires Defines(Listing(p, g, w.chunks), LabelName.Bytecode(a), q)
    requires Defines(Listing(p, g, w.chunks), LabelName.Bytecode(a), r)
    ensures q == r
  {
    hide Listing, LoweredAt, Body;
    var j := LabelStartsChunk(p, g, w, a, q);
    var k := LabelStartsChunk(p, g, w, a, r);
    if j != k {
      var lo, hi := if j < k then j else k, if j < k then k else j;
      assert false;
    }
  }

  /** The address of instruction i, once compiled, has a line that defines its label. */
  lemma LabelDefined(p: Program, g: nat, w: Work, i: nat) returns (k: nat)
    requires Sorted(p) && Closed(p, g, w) && i < |p| && p[i].offset in w.done
    ensures k < |w.chunks| && w.chunks[k].index == i && w.chunks[k].height == w.done[p[i].offset]
    ensures Defines(Listing(p, g, w.chunks), LabelName.Bytecode(p[i].offset), Position(p, g, w.chunks, k))
  {
    hide Listing, LoweredAt, Body;
    k := ChunkOf(p, g, w, i);
    ChunkInListing(p, g, w.chunks, k);
    HoldsSplit(Listing(p, g, w.chunks), Position(p, g, w.chunks, k), Heading(p, w.chunks[k]), Body(p, g, w.chunks[k]));
    assert Heading(p, w.chunks[k])[0] == Label(LabelName.Bytecode(p[i].offset));
  }

  ghost predicate Mentioned(code: seq<Op>, a: nat) {
    exists q :: 0 <= q < |code| && Mentions(code[q], LabelName.Bytecode(a))
  }

  ghost predicate Defined(code: seq<Op>, a: nat) {
    exists q :: Defines(code, LabelName.Bytecode(a), q)
  }

  /** Of the bytecode addresses that the listing transfers to, exactly those of instructions are defined. */
  lemma LinksExactly(p: Program, g: nat, publics: seq<nat>, schedule: seq<nat>, w: Work, a: nat)
    requires Completed(p, g, publics, schedule, w) && Mentioned(Listing(p, g, w.chunks), a)
    ensures Defined(Listing(p, g, w.chunks), a) <==> IsAddress(p, a)
  {
    hide Listing, Lower, Follow;
    CompletedIsClosed(p, g, publics, schedule, w);
    var code := Listing(p, g, w.chunks);
    var q :| 0 <= q < |code| && Mentions(code[q], LabelName.Bytecode(a));
    var k := LineInChunk(p, g, w.chunks, q);
    var c := w.chunks[k];
    assert ChunkDone(p, g, w, c);
    LineOfChunk(p, g, w, c, q - Position(p, g, w.chunks, k));
    assert TargetClosed(p, g, w, c);
    if IsAddress(p, a) {
      var j :| 0 <= j < |p| && p[j].offset == a;
      var d := LabelDefined(p, g, w, j);
    }
    if Defined(code, a) {
      var r :| Defines(code, LabelName.Bytecode(a), r);
      var d := LabelStartsChunk(p, g, w, a, r);
      assert IsAddress(p, a);
    }
  }

  /** The machine has no choice on this listing: a state has one successor at most, calls of runtime functions, which
      are defined elsewhere, aside. So whatever is shown of one run of it holds of every run. */
  lemma StepDeterministic(p: Program, g: nat, w: Work, s: State, t: State, u: State)
    requires Closed(p, g, w) && Step(Listing(p, g, w.chunks), s, t) && Step(Listing(p, g, w.chunks), s, u)
    requires var op := Listing(p, g, w.chunks)[s.pc];
             (op.Jal? || op.Branch? || op.CallTo?) ==> op.target.Bytecode?
    ensures t == u
  {
    hide Closed, Listing, Do;
    var code := Listing(p, g, w.chunks);
    var op := code[s.pc];
    if (op.Jal? || op.Branch? || op.CallTo?) && Defines(code, op.target, t.pc) && Defines(code, op.target, u.pc) {
      LabelDefinedOnce(p, g, w, op.target.offset, t.pc, u.pc);
    }
  }
}
