/** When the driver succeeds: its heights are those that the bytecode can be reached at, and no check fails if there is
    one for each instruction. */
module Labelling {
  import opened Bytecode
  import opened Lowering
  import opened Worklist
  import opened Heights
  import opened Schedules

  // ---------------------------------------------------------------- reached levels

  /** Where execution may go on after a call that returns. */
  function Resumed(waiting: Level): Level {
    waiting.(ip := waiting.ip + 1, height := waiting.height + 1)
  }

  /** One step of an activation: a step on its own, into a function it calls, or to the return from there. */
  ghost predicate Flow(p: Program, a: Level, b: Level) {
    HeightStep(p, [a], [b]) || exists waiting, callee :: FlowsByCall(p, a, waiting, callee, b)
  }

  ghost predicate FlowsByCall(p: Program, a: Level, waiting: Level, callee: Level, b: Level) {
    HeightStep(p, [a], [waiting, callee]) && (b == callee || (b == Resumed(waiting) && b.ip < |p|))
  }

  ghost predicate ReachedIn(p: Program, publics: seq<nat>, n: nat, l: Level) {
    if n == 0 then l.ip < |p| && p[l.ip].offset in publics && l == Level(l.ip, 0, None)
    else exists m :: ReachedIn(p, publics, n - 1, m) && Flow(p, m, l)
  }

  /** The levels that lead from public functions, every call returning. */
  ghost predicate Reached(p: Program, publics: seq<nat>, l: Level) {
    exists n: nat :: ReachedIn(p, publics, n, l)
  }

  lemma ReachedNext(p: Program, publics: seq<nat>, a: Level, b: Level)
    requires Reached(p, publics, a) && Flow(p, a, b)
    ensures Reached(p, publics, b)
  {
    hide Flow;
    var n: nat :| ReachedIn(p, publics, n, a);
    assert ReachedIn(p, publics, n + 1, b);
  }

  lemma ReachedPublic(p: Program, publics: seq<nat>, i: nat)
    requires i < |p| && p[i].offset in publics
    ensures Reached(p, publics, Level(i, 0, None))
  {
    assert ReachedIn(p, publics, 0, Level(i, 0, None));
  }

  /** The height the compiler has for a level. */
  function Counted(l: Level): nat {
    l.height + Overcount(l)
  }

  ghost predicate Labels(p: Program, publics: seq<nat>, l: Level, t: nat, h: nat) {
    Reached(p, publics, l) && l.ip < |p| && p[l.ip].offset == t && Counted(l) == h
  }

  ghost predicate Labelled(p: Program, publics: seq<nat>, t: nat, h: nat) {
    exists l :: Labels(p, publics, l, t, h)
  }

  /** An instruction is reached at one height only. */
  ghost predicate Unique(p: Program, publics: seq<nat>) {
    forall l, m :: Reached(p, publics, l) && Reached(p, publics, m) && l.ip == m.ip ==> Counted(l) == Counted(m)
  }

  ghost predicate FrameAt(inst: Inst, f: Frame) {
    || (inst.Begin? && f.locals == inst.locc && f.args == inst.argc)
    || (inst.ClosureBegin? && f.locals == inst.locc && f.args == inst.argc)
  }

  /** The frame of a function that is reached. */
  ghost predicate Declared(p: Program, publics: seq<nat>, f: Frame) {
    exists l :: Reached(p, publics, l) && l.ip < |p| && FrameAt(p[l.ip].inst, f)
  }

  ghost predicate TargetsThere(p: Program, inst: Inst) {
    && (inst.Jump? || inst.CondJump? ==> IsAddress(p, inst.target))
    && (inst.Call? ==> IsAddress(p, inst.callee))
  }

  /** What the compiler asks of an instruction that is reached: it is implemented, its operands and targets are there, a
      function begins where it is entered and nowhere else, and an index is one of every function, for the compiler may
      take it for one of any. */
  ghost predicate Ready(p: Program, g: nat, publics: seq<nat>, l: Level) {
    && l.ip < |p|
    && var inst := p[l.ip].inst;
    && Implemented(inst) && l.height >= Takes(inst) && TargetsThere(p, inst)
    && (l.entry.None? <==> inst.Begin? || inst.ClosureBegin?)
    && forall f :: Declared(p, publics, f) ==> IndexInRange(inst, Some(f), g)
  }

  ghost predicate AllReady(p: Program, g: nat, publics: seq<nat>) {
    forall l :: Reached(p, publics, l) ==> Ready(p, g, publics, l)
  }

  // ---------------------------------------------------------------- steps of levels

  /** An instruction that does not end a chain goes on to the next one, at the height the compiler counts. */
  lemma FlowNext(p: Program, g: nat, publics: seq<nat>, l: Level) returns (m: Level)
    requires Ready(p, g, publics, l) && !Terminator(p[l.ip].inst) && l.ip + 1 < |p|
    ensures var inst := p[l.ip].inst;
            Flow(p, l, m) && m.ip == l.ip + 1 && Counted(m) == Counted(l) - Takes(inst) + Leaves(inst) + Phantom(inst)
  {
    var inst := p[l.ip].inst;
    assert [l][..0] == [];
    if inst.Call? {
      var waiting, entered := l.(height := l.height - inst.argc), Level(Find(p, inst.callee).value, 0, None);
      m := Resumed(waiting);
      assert [] + [waiting] + [entered] == [waiting, entered];
      assert FlowsByCall(p, l, waiting, entered, m);
    } else {
      if inst.Begin? {
        m := Level(l.ip + 1, l.height, Some(inst.entry));
      } else if inst.ClosureBegin? {
        m := Level(l.ip + 1, l.height, Some(Private(p[l.ip].offset)));
      } else {
        m := l.(ip := l.ip + 1, height := l.height - Takes(inst) + Leaves(inst));
      }
      assert [] + [m] == [m];
      assert HeightStep(p, [l], [m]);
    }
  }

  /** A jump, conditional jump or call leads to its target at the height recorded for it. */
  lemma FlowTarget(p: Program, g: nat, publics: seq<nat>, l: Level) returns (m: Level)
    requires Ready(p, g, publics, l) && TargetOf(p[l.ip].inst, Counted(l)).Some?
    ensures var t := TargetOf(p[l.ip].inst, Counted(l)).value;
            Flow(p, l, m) && m.ip < |p| && p[m.ip].offset == t.0 && Counted(m) == t.1
  {
    var inst := p[l.ip].inst;
    assert [l][..0] == [];
    if inst.Call? {
      var waiting := l.(height := l.height - inst.argc);
      m := Level(Find(p, inst.callee).value, 0, None);
      assert [] + [waiting] + [m] == [waiting, m];
      assert FlowsByCall(p, l, waiting, m, m);
    } else {
      m := l.(ip := Find(p, inst.target).value, height := l.height - Takes(inst));
      assert [] + [m] == [m];
      assert HeightStep(p, [l], [m]);
    }
  }

  // ------------------------------------------------------- what the driver has recorded

  lemma LowerFrame(inst: Inst, h: nat, frame: Option<Frame>, g: nat)
    ensures var l := Lower(inst, h, frame, g);
            l.Lowered? ==> if inst.Begin? || inst.ClosureBegin? then l.frame.Some? && FrameAt(inst, l.frame.value)
                           else l.frame == frame
  {
    hide CallCode, EndCode, CondJumpCode, LowerLoad, LowerStore, LowerOperands, LowerRuntime, BeginCode;
    if inst.Load? || inst.Store? {
      OthersKeepFrame(inst, inst.place, inst.index, h, frame, g);
    } else {
      OthersKeepFrame(inst, Global, 0, h, frame, g);
    }
  }

  lemma OthersKeepFrame(inst: Inst, place: Place, index: nat, h: nat, frame: Option<Frame>, g: nat)
    ensures var l := LowerOperands(inst, h, frame); l.Lowered? ==> l.frame == frame
    ensures var l := LowerLoad(place, index, h, frame, g); l.Lowered? ==> l.frame == frame
    ensures var l := LowerStore(place, index, h, frame); l.Lowered? ==> l.frame == frame
    ensures var l := LowerRuntime(inst, h, frame); l.Lowered? ==> l.frame == frame
  {
    hide CallCode, SwapCode, BinopCode, ConstCode, LoadCode, StoreCode, Move, MoveFromReg, ImmediateCode, AddressCode;
  }

  /** All that the driver has recorded for instructions is reached. */
  ghost predicate Recording(p: Program, publics: seq<nat>, w: Work) {
    && (forall t :: t in w.done ==> Labelled(p, publics, t, w.done[t]))
    && (forall t :: t in w.todo && IsAddress(p, t) ==> Labelled(p, publics, t, w.todo[t]))
  }

  /** The current frame is one of a function that is reached; before the first of them only publics are recorded. */
  ghost predicate Framed(p: Program, publics: seq<nat>, w: Work) {
    if w.frame.Some? then Declared(p, publics, w.frame.value)
    else forall t :: t in w.todo ==> t in publics && w.todo[t] == 0
  }

  /** In the middle of a chain, level l is the one being compiled. */
  ghost predicate Here(p: Program, publics: seq<nat>, i: nat, w: Work, l: Level) {
    && Reached(p, publics, l) && l.ip == i && w.top == Counted(l)
    && (w.frame.Some? ==> Declared(p, publics, w.frame.value)) && (w.frame.None? ==> l.entry.None?)
  }

  lemma SameLabel(p: Program, publics: seq<nat>, t: nat, h: nat, k: nat)
    requires Sorted(p) && Unique(p, publics) && Labelled(p, publics, t, h) && Labelled(p, publics, t, k)
    ensures h == k
  {
    hide Reached;
    var l :| Labels(p, publics, l, t, h);
    var m :| Labels(p, publics, m, t, k);
    FindAt(p, l.ip);
    FindAt(p, m.ip);
  }

  lemma LabelIs(p: Program, publics: seq<nat>, l: Level)
    requires Reached(p, publics, l) && l.ip < |p|
    ensures Labelled(p, publics, p[l.ip].offset, Counted(l))
  {
    assert Labels(p, publics, l, p[l.ip].offset, Counted(l));
  }

  /** The target that a visit records is reached at that height. */
  lemma TargetIsLabelled(p: Program, g: nat, publics: seq<nat>, i: nat, w: Work, l: Level)
    requires i < |p| && Here(p, publics, i, w, l) && Ready(p, g, publics, l)
             && Lower(p[i].inst, w.top, w.frame, g).Lowered?
    ensures var target := Lower(p[i].inst, w.top, w.frame, g).target;
            target.Some? ==> Labelled(p, publics, target.value.0, target.value.1)
  {
    hide Lower, Labelled, Reached, Flow, Ready;
    LowerTarget(p[i].inst, w.top, w.frame, g);
    if TargetOf(p[i].inst, w.top).Some? {
      var m := FlowTarget(p, g, publics, l);
      ReachedNext(p, publics, l, m);
      LabelIs(p, publics, m);
    }
  }

  /** An instruction that is reached can be compiled in the frame that is current then. */
  lemma VisitLowers(p: Program, g: nat, publics: seq<nat>, i: nat, w: Work, l: Level)
    requires i < |p| && Here(p, publics, i, w, l) && Ready(p, g, publics, l)
    ensures Lower(p[i].inst, w.top, w.frame, g).Lowered?
  {
    hide Lower, Reached, Declared, TargetsThere;
    LowerExact(p[i].inst, w.top, w.frame, g);
  }

  /** With unique labels, every check of a visit passes. */
  lemma VisitPasses(p: Program, g: nat, publics: seq<nat>, i: nat, w: Work, l: Level)
    requires Sorted(p) && Unique(p, publics) && i < |p|
    requires Recording(p, publics, w) && Here(p, publics, i, w, l) && Ready(p, g, publics, l)
    ensures Visit(p, g, i, w).Some?
  {
    hide Lower, Reached, Unique, Labelled, Sorted, Declared, Ready, IsAddress;
    var a := p[i].offset;
    VisitLowers(p, g, publics, i, w, l);
    TargetIsLabelled(p, g, publics, i, w, l);
    LabelIs(p, publics, l);
    if a in w.done {
      SameLabel(p, publics, a, w.done[a], w.top);
    }
    var target := Lower(p[i].inst, w.top, w.frame, g).target;
    if target.Some? {
      var t, k := target.value.0, target.value.1;
      LabelledIsAddress(p, publics, t, k);
      var done := w.done[a := w.top];
      if t in done {
        assert Labelled(p, publics, t, done[t]);
        SameLabel(p, publics, t, done[t], k);
      } else if t in w.todo {
        SameLabel(p, publics, t, w.todo[t], k);
      }
    }
  }

  lemma LabelledIsAddress(p: Program, publics: seq<nat>, t: nat, h: nat)
    requires Labelled(p, publics, t, h)
    ensures IsAddress(p, t)
  {
  }

  /** What a visit records is reached, and so is the instruction it goes on to. */
  lemma VisitRecords(p: Program, g: nat, publics: seq<nat>, i: nat, w: Work, v: Work, l: Level)
    requires i < |p| && Visit(p, g, i, w) == Some(v)
    requires Recording(p, publics, w) && Here(p, publics, i, w, l) && Ready(p, g, publics, l)
    ensures Recording(p, publics, v) && v.frame.Some? && Declared(p, publics, v.frame.value)
  {
    hide Lower, Reached, Labelled, Ready, IsAddress, FrameAt;
    TargetIsLabelled(p, g, publics, i, w, l);
    LabelIs(p, publics, l);
    LowerFrame(p[i].inst, w.top, w.frame, g);
    ReadyBegins(p, g, publics, l);
  }

  lemma ReadyBegins(p: Program, g: nat, publics: seq<nat>, l: Level)
    requires Ready(p, g, publics, l)
    ensures l.ip < |p| && (l.entry.None? <==> p[l.ip].inst.Begin? || p[l.ip].inst.ClosureBegin?)
  {
  }

  lemma VisitGoesOn(p: Program, g: nat, publics: seq<nat>, i: nat, w: Work, v: Work, l: Level) returns (m: Level)
    requires i + 1 < |p| && Visit(p, g, i, w) == Some(v) && !Terminator(p[i].inst)
    requires Recording(p, publics, w) && Here(p, publics, i, w, l) && Ready(p, g, publics, l)
    ensures Here(p, publics, i + 1, v, m)
  {
    hide Lower, Reached, Labelled, Ready, IsAddress, Declared, Flow, Recording;
    VisitRecords(p, g, publics, i, w, v, l);
    LowerExact(p[i].inst, w.top, w.frame, g);
    m := FlowNext(p, g, publics, l);
    ReachedNext(p, publics, l, m);
    assert v.top == Lower(p[i].inst, w.top, w.frame, g).top;
  }

  // ----------------------------------------------------------------- chains and rounds

  lemma {:induction false} ChainRecords(p: Program, g: nat, publics: seq<nat>, i: nat, w: Work, l: Level)
    requires AllReady(p, g, publics) && i < |p| && Recording(p, publics, w) && Here(p, publics, i, w, l)
    ensures Chain(p, g, i, w).Some? ==>
              Recording(p, publics, Chain(p, g, i, w).value) && Framed(p, publics, Chain(p, g, i, w).value)
    ensures Sorted(p) && Unique(p, publics) ==> Chain(p, g, i, w).Some?
    decreases |p| - i
  {
    hide Visit, Recording, Reached, Declared, Ready, Sorted, Unique;
    assert Ready(p, g, publics, l);
    if Sorted(p) && Unique(p, publics) {
      VisitPasses(p, g, publics, i, w, l);
    }
    if Visit(p, g, i, w).Some? {
      var v := Visit(p, g, i, w).value;
      VisitRecords(p, g, publics, i, w, v, l);
      if !Terminator(p[i].inst) && i + 1 < |p| {
        var m := VisitGoesOn(p, g, publics, i, w, v, l);
        ChainRecords(p, g, publics, i + 1, v, m);
      }
    }
  }

  /** The level of an address taken from the list. */
  lemma LevelOfStart(p: Program, g: nat, publics: seq<nat>, start: nat, w: Work) returns (l: Level)
    requires Sorted(p) && start in w.todo && IsAddress(p, start) && Recording(p, publics, w) && Framed(p, publics, w)
    ensures Find(p, start).Some? && Here(p, publics, Find(p, start).value, w.(top := w.todo[start]), l)
  {
    hide Reached, Declared;
    var i := Find(p, start).value;
    if w.frame.None? {
      l := Level(i, 0, None);
      ReachedPublic(p, publics, i);
    } else {
      var h := w.todo[start];
      assert Labelled(p, publics, start, h);
      l :| Labels(p, publics, l, start, h);
      FindAt(p, l.ip);
    }
  }

  lemma ProcessRecords(p: Program, g: nat, publics: seq<nat>, start: nat, w: Work)
    requires Sorted(p) && AllReady(p, g, publics) && start in w.todo && Recording(p, publics, w)
             && Framed(p, publics, w)
    ensures Process(p, g, start, w).Some? ==>
              Recording(p, publics, Process(p, g, start, w).value) && Framed(p, publics, Process(p, g, start, w).value)
    ensures Unique(p, publics) ==> Process(p, g, start, w).Some?
  {
    hide Chain, Labelled, Declared, AllReady, Unique, Sorted, IsAddress;
    var h := w.todo[start];
    var v := w.(top := h, todo := w.todo - {start});
    assert Recording(p, publics, v) && Framed(p, publics, v);
    if start in w.done {
      var k := w.done[start];
      LabelledIsAddress(p, publics, start, k);
      if Unique(p, publics) {
        SameLabel(p, publics, start, h, k);
      }
    } else if Find(p, start).Some? {
      AddressFound(p, start);
      var l := LevelOfStart(p, g, publics, start, w);
      ChainRecords(p, g, publics, Find(p, start).value, v, l);
    }
  }

  lemma AddressFound(p: Program, t: nat)
    requires Find(p, t).Some?
    ensures IsAddress(p, t)
  {
  }

  lemma {:induction false} FollowRecords(p: Program, g: nat, publics: seq<nat>, schedule: seq<nat>, w: Work)
    requires Sorted(p) && AllReady(p, g, publics) && Recording(p, publics, w) && Framed(p, publics, w)
    requires Follow(p, g, schedule, w).Some?
    ensures Recording(p, publics, Follow(p, g, schedule, w).value)
            && Framed(p, publics, Follow(p, g, schedule, w).value)
  {
    hide Process, Recording, Framed, AllReady, Sorted;
    if |schedule| > 0 {
      ProcessRecords(p, g, publics, schedule[0], w);
      FollowRecords(p, g, publics, schedule[1..], Process(p, g, schedule[0], w).value);
    }
  }

  lemma {:induction false} StartPasses(publics: seq<nat>)
    ensures Start(publics).Some? && Start(publics).value.frame.None? && Start(publics).value.done == map[]
    ensures forall t :: t in Start(publics).value.todo ==> t in publics && Start(publics).value.todo[t] == 0
  {
    if |publics| > 0 {
      StartPasses(publics[..|publics| - 1]);
    }
  }

  lemma StartRecords(p: Program, publics: seq<nat>)
    ensures Start(publics).Some?
    ensures Recording(p, publics, Start(publics).value) && Framed(p, publics, Start(publics).value)
  {
    hide Start, Labelled, Declared;
    StartPasses(publics);
    var w := Start(publics).value;
    forall t | t in w.todo && IsAddress(p, t) ensures Labelled(p, publics, t, w.todo[t]) {
      var i :| 0 <= i < |p| && p[i].offset == t;
      ReachedPublic(p, publics, i);
      LabelIs(p, publics, Level(i, 0, None));
    }
  }

  /** When all that is reached is ready, at one height each, no schedule ends in a failed check. */
  lemma NeverStops(p: Program, g: nat, publics: seq<nat>, schedule: seq<nat>)
    requires Sorted(p) && AllReady(p, g, publics) && Unique(p, publics)
    ensures !Stops(p, g, publics, schedule)
  {
    hide Process, Start, Recording, Framed, AllReady, Sorted, Unique, Follow;
    StartRecords(p, publics);
    if |schedule| > 0 {
      var earlier, last := schedule[..|schedule| - 1], schedule[|schedule| - 1];
      var before := Follow(p, g, earlier, Start(publics).value);
      if before.Some? && last in before.value.todo {
        FollowRecords(p, g, publics, earlier, Start(publics).value);
        ProcessRecords(p, g, publics, last, before.value);
      }
    }
  }

  // ----------------------------------------------------------- finished compilations

  lemma FlowSound(p: Program, g: nat, w: Work, a: Level, b: Level)
    requires Sorted(p) && Closed(p, g, w) && Flow(p, a, b) && ActiveSound(p, w, a)
    ensures ActiveSound(p, w, b)
  {
    hide Sorted, Closed, HeightStep;
    assert StackSound(p, w, [a]);
    if HeightStep(p, [a], [b]) {
      StepSound(p, g, w, [a], [b]);
    } else {
      var waiting, callee :| FlowsByCall(p, a, waiting, callee, b);
      StepSound(p, g, w, [a], [waiting, callee]);
      assert WaitingSound(p, w, [waiting, callee][0]);
      if b != callee {
        FallThroughSound(p, g, w, waiting.ip);
      }
    }
  }

  /** All that is reached is compiled at its height. */
  lemma {:induction false} ReachedIsDone(p: Program, g: nat, publics: seq<nat>, schedule: seq<nat>, w: Work, n: nat,
        l: Level)
    requires Completed(p, g, publics, schedule, w) && ReachedIn(p, publics, n, l)
    ensures ActiveSound(p, w, l)
    decreases n
  {
    hide Closed, Follow, Start, Flow, Sorted;
    CompletedIsClosed(p, g, publics, schedule, w);
    if n == 0 {
      var i :| 0 <= i < |publics| && publics[i] == p[l.ip].offset;
      assert IsAddress(p, publics[i]);
    } else {
      var m :| ReachedIn(p, publics, n - 1, m) && Flow(p, m, l);
      ReachedIsDone(p, g, publics, schedule, w, n - 1, m);
      FlowSound(p, g, w, m, l);
    }
  }

  /** If the driver finishes, whatever is reached is reached at one height. */
  lemma CompletedIsUnique(p: Program, g: nat, publics: seq<nat>, schedule: seq<nat>, w: Work)
    requires Completed(p, g, publics, schedule, w)
    ensures Unique(p, publics)
    ensures forall l :: Reached(p, publics, l) ==> ActiveSound(p, w, l)
  {
    hide Completed, ReachedIn;
    forall l | Reached(p, publics, l) ensures ActiveSound(p, w, l) {
      var n: nat :| ReachedIn(p, publics, n, l);
      ReachedIsDone(p, g, publics, schedule, w, n, l);
    }
  }

  /** Where all that is reached is ready, the instructions compiled and their heights are exactly those reached. */
  lemma CompiledIsReached(p: Program, g: nat, publics: seq<nat>, schedule: seq<nat>, w: Work, t: nat, h: nat)
    requires Completed(p, g, publics, schedule, w) && AllReady(p, g, publics)
    ensures t in w.done && w.done[t] == h <==> Labelled(p, publics, t, h)
  {
    hide AllReady, Reached, Start, Follow;
    CompletedIsUnique(p, g, publics, schedule, w);
    StartRecords(p, publics);
    FollowRecords(p, g, publics, schedule, Start(publics).value);
    if Labelled(p, publics, t, h) {
      var l :| Labels(p, publics, l, t, h);
      assert ActiveSound(p, w, l);
    }
  }

  /** If no check fails in any order, rounds may be added to a schedule until the list is empty. */
  lemma {:induction false} Finishes(p: Program, g: nat, publics: seq<nat>, schedule: seq<nat>, w: Work)
    returns (schedule': seq<nat>, w': Work)
    requires Sorted(p) && Start(publics).Some? && forall order :: !Stops(p, g, publics, order)
    requires Follow(p, g, schedule, Start(publics).value) == Some(w) && Consistent(p, g, w)
    ensures Completed(p, g, publics, schedule', w')
    decreases Addresses(p) - w.done.Keys, |w.todo|
  {
    hide Process, Follow, Consistent, Sorted, Start;
    if w.todo == map[] {
      return schedule, w;
    }
    assert w.todo.Keys != {};
    var start :| start in w.todo;
    var longer := schedule + [start];
    assert longer[..|longer| - 1] == schedule && longer[|longer| - 1] == start;
    assert !Stops(p, g, publics, longer);
    FollowStep(p, g, schedule, Start(publics).value, start);
    ProcessKeeps(p, g, start, w);
    var v := Process(p, g, start, w).value;
    DoneIsAddress(p, g, v);
    schedule', w' := Finishes(p, g, publics, longer, v);
  }

  lemma CompletesSomehow(p: Program, g: nat, publics: seq<nat>) returns (schedule: seq<nat>, w: Work)
    requires Sorted(p) && forall order :: !Stops(p, g, publics, order)
    ensures Completed(p, g, publics, schedule, w)
  {
    hide Process, Consistent, Sorted, Start, Completed;
    StartRecords(p, publics);
    StartKeeps(p, g, publics);
    schedule, w := Finishes(p, g, publics, [], Start(publics).value);
  }

  /** Where all that is reached is ready, the driver finishes, and finishes in every order of the addresses, if and only
      if every instruction is reached at one height. */
  lemma DriverExact(p: Program, g: nat, publics: seq<nat>)
    requires Sorted(p) && AllReady(p, g, publics)
    ensures Unique(p, publics) <==> exists schedule, w :: Completed(p, g, publics, schedule, w)
    ensures Unique(p, publics) <==> forall schedule :: !Stops(p, g, publics, schedule)
  {
    hide AllReady, Unique, Stops, Completed, Sorted;
    if Unique(p, publics) {
      forall order ensures !Stops(p, g, publics, order) {
        NeverStops(p, g, publics, order);
      }
    }
    if forall order :: !Stops(p, g, publics, order) {
      var schedule, w := CompletesSomehow(p, g, publics);
    }
    if exists schedule, w :: Completed(p, g, publics, schedule, w) {
      var schedule, w :| Completed(p, g, publics, schedule, w);
      CompletedIsUnique(p, g, publics, schedule, w);
    }
  }

  // ------------------------------------------------------------------------- runs

  ghost predicate StackReached(p: Program, publics: seq<nat>, s: seq<Level>) {
    && |s| > 0 && Reached(p, publics, s[|s| - 1])
    && forall k :: 0 <= k < |s| - 1 ==> (s[k].ip + 1 < |p| ==> Reached(p, publics, Resumed(s[k])))
  }

  /** A step of the height machine leads from reached levels to reached levels. */
  lemma StepReaches(p: Program, publics: seq<nat>, s: seq<Level>, t: seq<Level>)
    requires StackReached(p, publics, s) && HeightStep(p, s, t)
    ensures StackReached(p, publics, t)
  {
    hide Reached;
    var n := |s|;
    var a, below := s[n - 1], s[..n - 1];
    var inst := p[a.ip].inst;
    assert [a][..0] == [];
    if inst.End? {
      assert t == s[..n - 2] + [Resumed(s[n - 2])];
    } else if inst.Call? {
      var waiting, callee := a.(height := a.height - inst.argc), Level(Find(p, inst.callee).value, 0, None);
      assert t == below + [waiting] + [callee] && [] + [waiting] + [callee] == [waiting, callee];
      assert FlowsByCall(p, a, waiting, callee, callee);
      ReachedNext(p, publics, a, callee);
      if waiting.ip + 1 < |p| {
        assert FlowsByCall(p, a, waiting, callee, Resumed(waiting));
        ReachedNext(p, publics, a, Resumed(waiting));
      }
    } else {
      var b := t[|t| - 1];
      assert t == below + [b] && [] + [b] == [b];
      assert HeightStep(p, [a], [b]);
      ReachedNext(p, publics, a, b);
    }
  }

  /** So every run from a public function stays on what is reached: the labels are those of a sound analysis. */
  lemma {:induction false} RunReaches(p: Program, publics: seq<nat>, entry: nat, run: seq<seq<Level>>, k: nat)
    requires entry < |p| && p[entry].offset in publics
    requires HeightRun(p, run) && k < |run| && run[0] == [Level(entry, 0, None)]
    ensures StackReached(p, publics, run[k])
    decreases k
  {
    hide HeightStep, StackReached;
    if k == 0 {
      ReachedPublic(p, publics, entry);
      assert StackReached(p, publics, run[0]) by {
        EntryReached(p, publics, Level(entry, 0, None));
      }
    } else {
      RunReaches(p, publics, entry, run, k - 1);
      StepReaches(p, publics, run[k - 1], run[k]);
    }
  }

  lemma EntryReached(p: Program, publics: seq<nat>, l: Level)
    requires Reached(p, publics, l)
    ensures StackReached(p, publics, [l])
  {
  }
}
