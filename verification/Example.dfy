/** Instances of the theorems about the compiler: a program with `main` in it, of which another public function runs,
    and one whose `main` takes an operand that is not there. */
module Example {
  import opened Rv64
  import opened Bytecode
  import opened Lowering
  import opened Worklist
  import opened Linking
  import opened Heights
  import opened Operators
  import opened Relation
  import opened Correctness
  import opened Frames
  import opened Labelling

  /** `main` calls the public function f, which calls a private one and jumps to its end. */
  function Twice(): Program {
    [Item(0, Begin(Public("main"), 0, 0)), Item(10, Call(30, 0)), Item(20, End),
     Item(30, Begin(Public("f"), 0, 0)), Item(40, Call(70, 0)), Item(50, Jump(60)), Item(60, End),
     Item(70, Begin(Private(70), 0, 0)), Item(80, Const(7)), Item(90, End)]
  }

  /** The frames of main and of the private function; that of f is F_FRAME. */
  const MAIN_FRAME: Option<Frame> := Some(Frame("main", 0, 0))
  const LEAF_FRAME: Option<Frame> := Some(Frame(".lbc", 0, 0))

  function TwiceChunks(): seq<Chunk> {
    [Chunk(0, 0, None, true), Chunk(1, 1, MAIN_FRAME, true), Chunk(2, 2, MAIN_FRAME, true),
     Chunk(3, 0, MAIN_FRAME, true), Chunk(4, 0, F_FRAME, true), Chunk(5, 1, F_FRAME, true), Chunk(6, 1, F_FRAME, true),
     Chunk(7, 0, F_FRAME, true), Chunk(8, 0, LEAF_FRAME, true), Chunk(9, 1, LEAF_FRAME, true)]
  }

  // -------------------------------------------------------------- compiling it

  lemma MainLowers()
    ensures LowersTo(Begin(Public("main"), 0, 0), 0, None, 1, MAIN_FRAME, None)
    ensures LowersTo(Call(30, 0), 1, MAIN_FRAME, 2, MAIN_FRAME, Some((30, 0)))
    ensures LowersTo(End, 2, MAIN_FRAME, 1, MAIN_FRAME, None)
  {
    hide CallCode, BeginCode, EndCode;
  }

  lemma OthersLower()
    ensures LowersTo(Begin(Public("f"), 0, 0), 0, MAIN_FRAME, 0, F_FRAME, None)
    ensures LowersTo(Call(70, 0), 0, F_FRAME, 1, F_FRAME, Some((70, 0)))
    ensures LowersTo(Jump(60), 1, F_FRAME, 1, F_FRAME, Some((60, 1)))
    ensures LowersTo(Begin(Private(70), 0, 0), 0, F_FRAME, 0, LEAF_FRAME, None)
  {
    hide CallCode, BeginCode;
    assert |"f"| == 1 && ".lbc"[0] == '.';
  }

  lemma FoundIn(i: nat)
    requires i < 10
    ensures Find(Twice(), Twice()[i].offset) == Some(i)
  {
    TwiceSorted();
    FindAt(Twice(), i);
  }

  lemma TwiceSorted()
    ensures Sorted(Twice())
  {
  }

  lemma RoundOfMain() returns (w: Work)
    ensures Start([0, 30]) == Some(Work(0, None, map[], map[0 := 0, 30 := 0], []))
    ensures Process(Twice(), 0, 0, Work(0, None, map[], map[0 := 0, 30 := 0], [])) == Some(w)
    ensures w.done == map[0 := 0, 10 := 1, 20 := 2] && w.todo == map[30 := 0]
    ensures w.chunks == TwiceChunks()[..3] && w.frame == MAIN_FRAME
  {
    hide Visit, LowersTo, Chain;
    var p := Twice();
    MainLowers();
    FoundIn(0);
    assert Start([0]) == Some(Work(0, None, map[], map[0 := 0], [])) by {
      assert Start([]) == Some(Work(0, None, map[], map[], []));
    }
    assert [0, 30][..1] == [0];
    assert map[0 := 0][30 := 0] == map[0 := 0, 30 := 0];
    assert map[0 := 0, 30 := 0] - {0} == map[30 := 0];
    var v0 := Work(0, None, map[], map[30 := 0], []);
    var v1 := Visits(p, 0, v0, 1, MAIN_FRAME, None);
    var v2 := Visits(p, 1, v1, 2, MAIN_FRAME, Some((30, 0)));
    w := Visits(p, 2, v2, 1, MAIN_FRAME, None);
    ChainOn(p, 0, v0, v1);
    ChainOn(p, 1, v1, v2);
    ChainOn(p, 2, v2, w);
    assert map[30 := 0][30 := 0] == map[30 := 0];
  }

  lemma RoundOfF(v: Work) returns (w: Work)
    requires v.done == map[0 := 0, 10 := 1, 20 := 2] && v.todo == map[30 := 0] && v.chunks == TwiceChunks()[..3]
             && v.frame == MAIN_FRAME
    ensures Process(Twice(), 0, 30, v) == Some(w)
    ensures w.done == v.done[30 := 0][40 := 0][50 := 1] && w.todo == map[70 := 0, 60 := 1]
    ensures w.chunks == TwiceChunks()[..6] && w.frame == F_FRAME
  {
    hide Visit, LowersTo, Chain;
    var p := Twice();
    OthersLower();
    FoundIn(3);
    assert v.todo - {30} == map[];
    var v0 := v.(top := 0, todo := map[]);
    var v1 := Visits(p, 3, v0, 0, F_FRAME, None);
    var v2 := Visits(p, 4, v1, 1, F_FRAME, Some((70, 0)));
    w := Visits(p, 5, v2, 1, F_FRAME, Some((60, 1)));
    ChainOn(p, 3, v0, v1);
    ChainOn(p, 4, v1, v2);
    ChainOn(p, 5, v2, w);
  }

  lemma RoundOfJump(v: Work) returns (w: Work)
    requires v.done == map[0 := 0, 10 := 1, 20 := 2][30 := 0][40 := 0][50 := 1] && v.todo == map[70 := 0, 60 := 1]
    requires v.chunks == TwiceChunks()[..6] && v.frame == F_FRAME
    ensures Process(Twice(), 0, 60, v) == Some(w)
    ensures w.done == v.done[60 := 1] && w.todo == map[70 := 0] && w.chunks == TwiceChunks()[..7] && w.frame == F_FRAME
  {
    hide Visit, LowersTo, Chain;
    var p := Twice();
    ReturnLowers(0, F_FRAME);
    FoundIn(6);
    assert v.todo - {60} == map[70 := 0];
    var v0 := v.(top := 1, todo := map[70 := 0]);
    w := Visits(p, 6, v0, 0, F_FRAME, None);
    ChainOn(p, 6, v0, w);
  }

  lemma RoundOfCallee(v: Work) returns (w: Work)
    requires v.done == map[0 := 0, 10 := 1, 20 := 2][30 := 0][40 := 0][50 := 1][60 := 1] && v.todo == map[70 := 0]
    requires v.chunks == TwiceChunks()[..7] && v.frame == F_FRAME
    ensures Process(Twice(), 0, 70, v) == Some(w)
    ensures w.todo == map[] && w.chunks == TwiceChunks()
  {
    hide Visit, LowersTo, Chain;
    var p := Twice();
    OthersLower();
    ReturnLowers(7, LEAF_FRAME);
    FoundIn(7);
    assert v.todo - {70} == map[];
    var v0 := v.(top := 0, todo := map[]);
    var v1 := Visits(p, 7, v0, 0, LEAF_FRAME, None);
    var v2 := Visits(p, 8, v1, 1, LEAF_FRAME, None);
    w := Visits(p, 9, v2, 0, LEAF_FRAME, None);
    ChainOn(p, 7, v0, v1);
    ChainOn(p, 8, v1, v2);
    ChainOn(p, 9, v2, w);
  }

  lemma FollowOne(p: Program, w: Work, next: nat, rest: seq<nat>, v: Work)
    requires next in w.todo && Process(p, 0, next, w) == Some(v)
    ensures Follow(p, 0, [next] + rest, w) == Follow(p, 0, rest, v)
  {
    hide Process;
    assert ([next] + rest)[1..] == rest;
  }

  lemma TwiceCompiles() returns (w: Work)
    ensures Completed(Twice(), 0, [0, 30], [0, 30, 60, 70], w) && w.chunks == TwiceChunks()
  {
    hide Process, Follow, Start;
    var p, start := Twice(), Work(0, None, map[], map[0 := 0, 30 := 0], []);
    TwiceSorted();
    var w1 := RoundOfMain();
    var w2 := RoundOfF(w1);
    var w3 := RoundOfJump(w2);
    w := RoundOfCallee(w3);
    FollowOne(p, start, 0, [30, 60, 70], w1);
    FollowOne(p, w1, 30, [60, 70], w2);
    FollowOne(p, w2, 60, [70], w3);
    FollowOne(p, w3, 70, [], w);
    FollowEnd(p, w);
    assert [0] + [30, 60, 70] == [0, 30, 60, 70] && [30] + [60, 70] == [30, 60, 70] && [60] + [70] == [60, 70]
        && [70] + [] == [70];
  }

  lemma FollowEnd(p: Program, w: Work)
    ensures Follow(p, 0, [], w) == Some(w)
  {
  }

  // ---------------------------------------------------------------- its length

  lemma {:induction false} ListLengths(rs: seq<Reg>, off: int)
    ensures |StoreAll(rs, off)| == |rs| && |LoadAll(rs, off)| == |rs|
    ensures |Pushes(rs)| == 2 * |rs| && |Pops(rs)| == 2 * |rs|
    decreases |rs|
  {
    if |rs| > 0 {
      ListLengths(rs[1..], off - WORD_SIZE);
      ListLengths(rs[..|rs| - 1], off);
    }
  }

  lemma CallLength(callee: LabelName, h: nat)
    requires h < |SLOTS|
    ensures |CallCode(callee, 0, None, h, 0)| <= 80
  {
    hide Pushes, Pops, LoadAll;
    ListLengths(TEMPS, -2 * WORD_SIZE);
    ListLengths(ARGS, 0);
  }

  /** Instructions of the two programs, in frames without locals. */
  predicate Simple(inst: Inst) {
    || (inst.Begin? && inst.locc == 0) || inst.End? || (inst.Call? && inst.argc == 0) || inst.Jump? || inst.Const?
  }

  lemma FrameLength(heading: seq<Op>, h: nat, frame: Frame)
    requires h < |SLOTS| && frame.locals == 0
    ensures |LowerBegin(heading, h, frame).code| <= |heading| + 96
    ensures h > 0 ==> |EndCode(h, 0, frame.name == "main")| <= 20
  {
    hide StoreAll, LoadAll, CallCode;
    ListLengths(SAVED, -WORD_SIZE);
    CallLength(Symbol("__init"), h);
  }

  lemma ShortLower(inst: Inst, h: nat, frame: Option<Frame>)
    requires Simple(inst) && h < |SLOTS| && (frame.Some? ==> frame.value.locals == 0)
    ensures var l := Lower(inst, h, frame, 0);
            l.Lowered? ==> |l.code| <= 97
  {
    hide LowerBegin, CallCode, EndCode, Narrow, LowerRuntime;
    match inst
    case Begin(Public(name), argc, locc) => FrameLength([Label(Symbol(name))], h, Frame(name, locc, argc));
    case Begin(Private(_), argc, locc) => FrameLength([], h, Frame(".lbc", locc, argc));
    case End =>
      if frame.Some? {
        FrameLength([], h, frame.value);
      }
    case Call(callee, _) => CallLength(LabelName.Bytecode(callee), h);
    case _ =>
  }

  lemma ShortChunk(c: Chunk)
    requires c in TwiceChunks()
    ensures |ChunkCode(Twice(), 0, c)| <= 100
  {
    hide Lower;
    ShortLower(Twice()[c.index].inst, c.height, c.frame);
  }

  lemma {:induction false} ShortListing(chunks: seq<Chunk>)
    requires forall c :: c in chunks ==> c in TwiceChunks()
    ensures |Listing(Twice(), 0, chunks)| <= 100 * |chunks|
  {
    hide ChunkCode;
    if |chunks| > 0 {
      ShortListing(chunks[..|chunks| - 1]);
      ShortChunk(chunks[|chunks| - 1]);
    }
  }

  // -------------------------------------------------------------------- its run

  /** The chunks of f and of what it calls, `main` left aside. */
  function Scope(): set<nat> {
    {3, 4, 5, 6, 7, 8, 9}
  }

  lemma TwiceInScope(w: Work, k: nat)
    requires w.chunks == TwiceChunks() && k in Scope()
    ensures k < |w.chunks| && InScope(Twice(), w.chunks[k]) && (FallsThrough(Twice(), w.chunks[k]) ==> k + 1 in Scope())
  {
    assert |"f"| == 1 && ".lbc"[0] == '.';
  }

  lemma TwiceTransfers(w: Work, j: nat, k: nat)
    requires w.chunks == TwiceChunks() && j in Scope() && k < |w.chunks| && Transfers(Twice(), w.chunks[j], w.chunks[k])
    ensures k in Scope() && FrameAgrees(Twice(), w.chunks[j], w.chunks[k])
  {
  }

  lemma TwiceCovered(w: Work)
    requires Completed(Twice(), 0, [0, 30], [0, 30, 60, 70], w) && w.chunks == TwiceChunks()
    ensures Covered(Twice(), 0, w, Scope()) && EntryCovered(Twice(), w, Scope(), 3)
  {
    hide Closed, Follow, Listing, Start, InScope, FrameAgrees, Transfers, FallsThrough;
    CompletedIsClosed(Twice(), 0, [0, 30], [0, 30, 60, 70], w);
    ShortListing(w.chunks);
    forall k | k in Scope()
      ensures k < |w.chunks| && InScope(Twice(), w.chunks[k])
              && (FallsThrough(Twice(), w.chunks[k]) ==> k + 1 in Scope())
    {
      TwiceInScope(w, k);
    }
    forall j, k | j in Scope() && j < |w.chunks| && 0 <= k < |w.chunks| && Transfers(Twice(), w.chunks[j], w.chunks[k])
      ensures k in Scope() && FrameAgrees(Twice(), w.chunks[j], w.chunks[k])
    {
      TwiceTransfers(w, j, k);
    }
  }

  /** A caller with an empty stack at address 4096. */
  function Caller(): Env {
    Env(0, 16, 4096, 0, Cpu(seq(32, i => 0)[SP := 4096], map[], map[]))
  }

  function InF(ip: nat, operands: seq<Int64>): Activation {
    Activation(Public("f"), ip, [], [], operands)
  }

  function InCallee(ip: nat, operands: seq<Int64>): Activation {
    Activation(Private(70), ip, [], [], operands)
  }

  /** Call, constant, return, jump. */
  function TwiceRun(): seq<Config> {
    [Config([], [], InF(4, [])), Config([], [InF(4, [])], InCallee(8, [])),
        Config([], [InF(4, [])], InCallee(9, [Box(7)])),
     Config([], [], InF(5, [Box(7)])), Config([], [], InF(6, [Box(7)]))]
  }

  lemma TwiceSteps()
    ensures Next(Twice(), TwiceRun()[0]) == Running(TwiceRun()[1])
    ensures Next(Twice(), TwiceRun()[1]) == Running(TwiceRun()[2])
    ensures Next(Twice(), TwiceRun()[2]) == Running(TwiceRun()[3])
    ensures Next(Twice(), TwiceRun()[3]) == Running(TwiceRun()[4])
    ensures Next(Twice(), TwiceRun()[4]) == Finished(Box(7), [])
  {
    hide Box, Find, Next;
    TwiceCalls();
    TwiceLeaves();
  }

  lemma TwiceCalls()
    ensures Next(Twice(), TwiceRun()[0]) == Running(TwiceRun()[1])
    ensures Next(Twice(), TwiceRun()[1]) == Running(TwiceRun()[2])
  {
    hide Box, Find;
    FoundIn(7);
    assert seq<Option<Int64>>(0, i => None) == [];
  }

  lemma TwiceLeaves()
    ensures Next(Twice(), TwiceRun()[2]) == Running(TwiceRun()[3])
    ensures Next(Twice(), TwiceRun()[3]) == Running(TwiceRun()[4])
    ensures Next(Twice(), TwiceRun()[4]) == Finished(Box(7), [])
  {
    hide Box, Find;
    FoundIn(6);
    assert [InF(4, [])][..0] == [];
  }

  lemma TwiceIsRun()
    ensures Run(Twice(), Caller(), TwiceRun())
  {
    hide Next, Box;
    TwiceSteps();
    assert FrameTop(4096, []) == 4096;
    assert [InF(4, [])][..0] == [];
    assert FrameTop(4096, [InF(4, [])]) == 4096 - 96 - 128;
    forall i | 0 < i < 5
      ensures Follows(Twice(), Caller(), TwiceRun()[i - 1], TwiceRun()[i])
    {
    }
  }

  /** In a program with `main`, the public function f, called with an aligned stack, returns what the function it calls
      returns: every condition of the correctness theorem is met. */
  lemma TwiceReturns() returns (w: Work, s: State, t: State)
    ensures Completed(Twice(), 0, [0, 30], [0, 30, 60, 70], w) && Covered(Twice(), 0, w, Scope()) && EnvOk(Caller(), 0)
    ensures Called(Twice(), 0, w, Caller(), 3, [], [], s)
    ensures Runs(Listing(Twice(), 0, w.chunks), s, t) && Returned(Caller(), Box(7), [], t)
  {
    hide Listing, Runs, Returned, Completed, Covered, Box, Run, Next, Closed, EntryCovered, Called;
    var p, env := Twice(), Caller();
    w := TwiceCompiles();
    TwiceCovered(w);
    s := TwiceCalled(w);
    TwiceSteps();
    TwiceIsRun();
    assert Initial(p, 3, [], []) == TwiceRun()[0];
    FunctionCorrect(p, 0, [0, 30], [0, 30, 60, 70], w, Scope(), env, 3, [], [], TwiceRun(), s);
    t :| Runs(Listing(p, 0, w.chunks), s, t) && Returned(env, Box(7), [], t);
  }

  lemma TwiceCalled(w: Work) returns (s: State)
    requires Completed(Twice(), 0, [0, 30], [0, 30, 60, 70], w) && w.chunks == TwiceChunks()
    ensures Called(Twice(), 0, w, Caller(), 3, [], [], s)
  {
    hide Listing, Completed, Closed, Position;
    CompletedIsClosed(Twice(), 0, [0, 30], [0, 30, 60, 70], w);
    FirstIsCompiled(w);
    var k := LabelDefined(Twice(), 0, w, 3);
    s := State(Position(Twice(), 0, w.chunks, k), Caller().entry);
  }

  lemma FirstIsCompiled(w: Work)
    requires Closed(Twice(), 0, w) && w.chunks == TwiceChunks()
    ensures 30 in w.done && Sorted(Twice())
  {
    hide Listing, LoweredAt;
    TwiceSorted();
    assert ChunkDone(Twice(), 0, w, w.chunks[3]);
  }

  // ------------------------------------------------------------- main underflows

  /** `main` drops an operand although there is none. */
  function Drops(): Program {
    [Item(0, Begin(Public("main"), 0, 0)), Item(10, Drop), Item(20, Const(1)), Item(30, End)]
  }

  /** The driver passes the program, with the phantom operand of `main` in its heights; the stack machine is stuck at
      the first instruction of the body. */
  lemma MainUnderflows() returns (w: Work)
    ensures Completed(Drops(), 0, [0], [0], w) && w.done == map[0 := 0, 10 := 1, 20 := 0, 30 := 1]
    ensures Next(Drops(), Config([], [], Begun(Drops()[0].inst, 1, []))) == Stuck
    ensures OperandsThere(Drops(), w, Level(1, 0, Some(Public("main")))) && Takes(Drop) > 0
  {
    hide Visit, LowersTo, Chain, Process, Follow, Start;
    var p := Drops();
    MainLowers();
    DropLowers();
    ReturnLowers(1, MAIN_FRAME);
    StartOfOne();
    assert map[0 := 0] - {0} == map[];
    FindAt(p, 0);
    var v0 := Work(0, None, map[], map[], []);
    var v1 := Visits(p, 0, v0, 1, MAIN_FRAME, None);
    var v2 := Visits(p, 1, v1, 0, MAIN_FRAME, None);
    var v3 := Visits(p, 2, v2, 1, MAIN_FRAME, None);
    w := Visits(p, 3, v3, 0, MAIN_FRAME, None);
    ChainOn(p, 0, v0, v1);
    ChainOn(p, 1, v1, v2);
    ChainOn(p, 2, v2, v3);
    ChainOn(p, 3, v3, w);
    ProcessIsChain(p, 0, Work(0, None, map[], map[0 := 0], []), 0);
    FollowOne(p, Work(0, None, map[], map[0 := 0], []), 0, [], w);
    FollowEnd(p, w);
    assert [0] + [] == [0];
  }

  lemma StartOfOne()
    ensures Start([0]) == Some(Work(0, None, map[], map[0 := 0], []))
  {
    assert Start([]) == Some(Work(0, None, map[], map[], []));
  }

  lemma DropLowers()
    ensures LowersTo(Drop, 1, MAIN_FRAME, 0, MAIN_FRAME, None)
  {
  }

  // ------------------------------------------------------------ a match failure

  /** A branch that ends in a match failure, and one that returns. */
  function Matches(): Program {
    [Item(0, Begin(Private(0), 0, 0)), Item(10, Const(1)), Item(20, CondJump(50, true)),
     Item(30, Const(2)), Item(40, Fail(1, 1)), Item(50, Const(3)), Item(60, End)]
  }

  const MATCHES_HEIGHTS: seq<nat> := [0, 0, 1, 0, 1, 0, 1]

  function MatchesLevel(k: nat): Level
    requires k < 7
  {
    Level(k, MATCHES_HEIGHTS[k], if k == 0 then None else Some(Private(0)))
  }

  ghost predicate IsMatchesLevel(l: Level) {
    l.ip < 7 && l == MatchesLevel(l.ip)
  }

  lemma MatchesFlow(l: Level, m: Level)
    requires IsMatchesLevel(l) && Flow(Matches(), l, m)
    ensures IsMatchesLevel(m)
  {
    MatchesTargets();
    assert [l][..0] == [];
    if HeightStep(Matches(), [l], [m]) {
      assert forall b: Level :: [m] == [] + [b] ==> [m][0] == b;
    }
  }

  lemma MatchesTargets()
    ensures Find(Matches(), 50) == Some(5) && Sorted(Matches())
  {
    assert Matches()[5].offset == 50;
    FindAt(Matches(), 5);
  }

  lemma {:induction false} MatchesReached(n: nat, l: Level)
    requires ReachedIn(Matches(), [0], n, l)
    ensures IsMatchesLevel(l)
  {
    hide Flow;
    if n > 0 {
      var m :| ReachedIn(Matches(), [0], n - 1, m) && Flow(Matches(), m, l);
      MatchesReached(n - 1, m);
      MatchesFlow(m, l);
    }
  }

  lemma MatchesReady(l: Level)
    requires IsMatchesLevel(l)
    ensures Ready(Matches(), 0, [0], l)
  {
    hide Declared;
    MatchesTargets();
    assert Matches()[5].offset == 50;
  }

  lemma MatchesAllReady()
    ensures AllReady(Matches(), 0, [0]) && Unique(Matches(), [0])
    ensures forall l :: Reached(Matches(), [0], l) ==> IsMatchesLevel(l)
  {
    hide ReachedIn, Flow, Ready, Matches;
    forall l | Reached(Matches(), [0], l) ensures IsMatchesLevel(l) && Ready(Matches(), 0, [0], l) {
      var n: nat :| ReachedIn(Matches(), [0], n, l);
      MatchesReached(n, l);
      MatchesReady(l);
    }
  }

  lemma MatchesBranch(k: nat) returns (m: Level)
    requires k < 2 && Reached(Matches(), [0], MatchesLevel(k))
    ensures m == MatchesLevel(k + 1) && Reached(Matches(), [0], m)
  {
    hide Reached, Flow, Ready;
    MatchesReady(MatchesLevel(k));
    m := FlowNext(Matches(), 0, [0], MatchesLevel(k));
    ReachedNext(Matches(), [0], MatchesLevel(k), m);
    MatchesIsLevel(m);
  }

  lemma MatchesIsLevel(l: Level)
    requires Reached(Matches(), [0], l)
    ensures IsMatchesLevel(l)
  {
    hide Matches, Flow, Unique, AllReady;
    MatchesAllReady();
  }

  lemma MatchesTarget()
    ensures Labelled(Matches(), [0], 50, 0)
  {
    hide Reached, Flow, Ready, Labelled, MatchesLevel, IsMatchesLevel;
    ReachedPublic(Matches(), [0], 0);
    MatchesStart();
    var l := MatchesBranch(0);
    var m := MatchesBranch(1);
    MatchesJump();
  }

  lemma MatchesStart()
    ensures MatchesLevel(0) == Level(0, 0, None)
  {
  }

  lemma MatchesJump()
    requires Reached(Matches(), [0], MatchesLevel(2))
    ensures Labelled(Matches(), [0], 50, 0)
  {
    hide Reached, Flow, Ready, Labelled;
    MatchesReady(MatchesLevel(2));
    var t := FlowTarget(Matches(), 0, [0], MatchesLevel(2));
    ReachedNext(Matches(), [0], MatchesLevel(2), t);
    LabelIs(Matches(), [0], t);
  }

  /** The driver finishes on it in every order, and compiles the branch after the failure at the height of the jump. */
  lemma MatchesCompiles(schedule: seq<nat>, w: Work)
    ensures !Stops(Matches(), 0, [0], schedule)
    ensures Completed(Matches(), 0, [0], schedule, w) ==> 50 in w.done && w.done[50] == 0
  {
    hide Stops, Completed, Labelled, Reached, AllReady, Unique, Matches, Sorted;
    MatchesTargets();
    MatchesAllReady();
    NeverStops(Matches(), 0, [0], schedule);
    if Completed(Matches(), 0, [0], schedule, w) {
      MatchesTarget();
      CompiledIsReached(Matches(), 0, [0], schedule, w, 50, 0);
    }
  }

  // ---------------------------------------------------------------- a difference

  /** Jumps to its end if 7 - 5 is zero, and otherwise leaves the constant 9. */
  function Subtracts(): Program {
    [Item(0, Begin(Private(0), 0, 0)), Item(10, Const(7)), Item(20, Const(5)), Item(30, Binop(Minus)),
     Item(40, CondJump(70, true)), Item(50, Const(9)), Item(60, End), Item(70, Const(1)), Item(80, End)]
  }

  function Subtracting(ip: nat, operands: seq<Int64>): Config {
    Config([], [], Activation(Private(0), ip, [], [], operands))
  }

  lemma SubtractsConstants()
    ensures Next(Subtracts(), Subtracting(2, [Box(7)])) == Running(Subtracting(3, [Box(7), Box(5)]))
  {
    hide Box, Find, Infix;
    assert [Box(7)] + [Box(5)] == [Box(7), Box(5)];
  }

  lemma SubtractsEnd()
    ensures Next(Subtracts(), Subtracting(6, [Box(9)])) == Finished(Box(9), [])
  {
    hide Box, Find, Infix;
  }

  lemma SubtractsOperands()
    ensures Next(Subtracts(), Subtracting(3, [Box(7), Box(5)])) == Running(Subtracting(4, [Box(2)]))
  {
    hide Box, Find, Infix;
    InfixExact(7, 5);
    assert [Box(7), Box(5)][..0] + [Box(2)] == [Box(2)];
  }

  lemma SubtractsTest()
    ensures Next(Subtracts(), Subtracting(4, [Box(2)])) == Running(Subtracting(5, []))
  {
    hide Find, Infix;
    assert [Box(2)][..0] == [];
  }

  /** The operand on top is subtracted from the one below, and a number other than zero does not jump. */
  lemma SubtractsInOrder()
    ensures Next(Subtracts(), Subtracting(2, [Box(7)])) == Running(Subtracting(3, [Box(7), Box(5)]))
    ensures Next(Subtracts(), Subtracting(3, [Box(7), Box(5)])) == Running(Subtracting(4, [Box(2)]))
    ensures Next(Subtracts(), Subtracting(4, [Box(2)])) == Running(Subtracting(5, []))
    ensures Next(Subtracts(), Subtracting(6, [Box(9)])) == Finished(Box(9), [])
  {
    hide Next, Box;
    SubtractsConstants();
    SubtractsOperands();
    SubtractsTest();
    SubtractsEnd();
  }
}
