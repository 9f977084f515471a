/** The heights fixed at compile time against the operand stacks of every run: runs are followed for all
    instructions, on heights alone. */
module Heights {
  import opened Rv64
  import opened Bytecode
  import opened Lowering
  import opened Worklist

  /** Operands an instruction takes. */
  function Takes(inst: Inst): nat {
    match inst
    case Sexp(_, size) => size
    case StoreStack => 2
    case StoreArray => 3
    case CondJump(_, _) => 1
    case Drop => 1
    case Dup => 1
    case Swap => 2
    case Elem => 2
    case End => 1
    case Call(_, argc) => argc
    case Tag(_, _) => 1
    case Fail(_, _) => 1
    case Binop(_) => 2
    case Store(_, _) => 1
    case BuiltinWrite => 1
    case BuiltinLength => 1
    case BuiltinString => 1
    case BuiltinArray(len) => len
    case _ => 0
  }

  /** Operands it leaves. */
  function Leaves(inst: Inst): nat {
    match inst
    case Jump(_) => 0
    case CondJump(_, _) => 0
    case Drop => 0
    case Dup => 2
    case Swap => 2
    case Begin(_, _, _) => 0
    case ClosureBegin(_, _) => 0
    case End => 0
    case Line(_) => 0
    case _ => 1
  }

  /** What the compiler's height has on top: the prologue of `main` counts the result of its call to `__init`. */
  function Phantom(inst: Inst): nat {
    if inst.Begin? && inst.entry == Public("main") then 1 else 0
  }

  predicate Implemented(inst: Inst) {
    && !inst.Return? && !inst.Closure? && !inst.CallClosure? && !inst.Array? && !inst.LoadArray? && !inst.Pattern?
    && !(inst.Load? && inst.place.Captured?) && !(inst.Store? && inst.place.Captured?)
  }

  predicate NeedsFrame(inst: Inst) {
    || inst.End? || inst.Call? || inst.Text? || inst.Sexp? || inst.StoreArray? || inst.Elem? || inst.Tag? || inst.Fail?
    || inst.BuiltinRead? || inst.BuiltinWrite? || inst.BuiltinLength? || inst.BuiltinString? || inst.BuiltinArray?
    || (inst.Load? && !inst.place.Global?)
  }

  predicate IndexInRange(inst: Inst, frame: Option<Frame>, g: nat) {
    inst.Load? ==>
      match inst.place
      case Global => inst.index < g
      case Local => frame.Some? && inst.index < frame.value.locals
      case Argument => frame.Some? && inst.index < frame.value.args
      case Captured => false
  }

  /** The effects of the instructions that are not delegated, and none for those not implemented. */
  lemma LowerFree(inst: Inst, h: nat, frame: Option<Frame>)
    requires inst.Jump? || inst.CondJump? || inst.Begin? || inst.ClosureBegin? || inst.End? || inst.Call? || inst.Load?
          || inst.Store? || !Implemented(inst)
    ensures !Implemented(inst) && !inst.Load? && !inst.Store? ==>
              LowerOperands(inst, h, frame).Abort? && LowerRuntime(inst, h, frame).Abort?
    ensures Takes(inst) == match inst
                           case CondJump(_, _) => 1
                           case End => 1
                           case Call(_, argc) => argc
                           case Store(_, _) => 1
                           case _ => 0
    ensures Implemented(inst) ==>
              Leaves(inst) == match inst
                              case Begin(_, _, _) => 0
                              case Call(_, _) => 1
                              case Load(_, _) => 1
                              case Store(_, _) => 1
                              case _ => 0
  {
    hide BinopCode, SwapCode, ConstCode, Slot, RegOf, Narrow, Reload, Decimal, RuntimeCall;
  }

  lemma PlacesExact(place: Place, index: nat, h: nat, frame: Option<Frame>, g: nat)
    ensures var l := LowerLoad(place, index, h, frame, g);
            && (l.Lowered? <==> Implemented(Load(place, index)) && (NeedsFrame(Load(place, index)) ==> frame.Some?)
                                && IndexInRange(Load(place, index), frame, g))
            && (l.Lowered? ==> l.top == h + 1)
    ensures var l := LowerStore(place, index, h, frame);
            (l.Lowered? <==> Implemented(Store(place, index)) && h >= 1) && (l.Lowered? ==> l.top == h)
  {
    hide Slot, RegOf, Reload;
  }

  lemma FreeExact(inst: Inst, h: nat, frame: Option<Frame>, g: nat)
    requires inst.Jump? || inst.CondJump? || inst.Begin? || inst.ClosureBegin? || inst.End? || inst.Call? || inst.Load?
          || inst.Store? || !Implemented(inst)
    ensures Lower(inst, h, frame, g).Lowered? <==>
            Implemented(inst) && h >= Takes(inst) && (NeedsFrame(inst) ==> frame.Some?) && IndexInRange(inst, frame, g)
    ensures var l := Lower(inst, h, frame, g);
            l.Lowered? ==> l.top == h - Takes(inst) + Leaves(inst) + Phantom(inst)
  {
    hide CallCode, BeginCode, EndCode, CondJumpCode, LowerLoad, LowerStore, LowerOperands, LowerRuntime, Takes, Leaves;
    if inst.Load? || inst.Store? {
      PlacesExact(inst.place, inst.index, h, frame, g);
    }
    LowerFree(inst, h, frame);
  }

  lemma OperandsExact(inst: Inst, h: nat, frame: Option<Frame>)
    requires inst.Const? || inst.StoreStack? || inst.Drop? || inst.Dup? || inst.Swap? || inst.Line? || inst.Binop?
    ensures var l := LowerOperands(inst, h, frame);
            (l.Lowered? <==> h >= Takes(inst)) && (l.Lowered? ==> l.top == h - Takes(inst) + Leaves(inst))
    ensures LowerRuntime(inst, h, frame).Abort?
  {
    hide BinopCode, SwapCode, ConstCode, Slot, RegOf, Narrow, Reload, RuntimeCall, Decimal;
  }

  lemma RuntimeExact(inst: Inst, h: nat, frame: Option<Frame>)
    requires inst.Text? || inst.Sexp? || inst.StoreArray? || inst.Elem? || inst.Tag? || inst.Fail? || inst.BuiltinRead?
          || inst.BuiltinWrite? || inst.BuiltinLength? || inst.BuiltinString? || inst.BuiltinArray?
    ensures LowerOperands(inst, h, frame).Abort?
    ensures var l := LowerRuntime(inst, h, frame);
            && (l.Lowered? <==> h >= Takes(inst) && frame.Some?)
            && (l.Lowered? ==> l.top == h - Takes(inst) + Leaves(inst))
  {
    hide CallCode, BinopCode, SwapCode, ConstCode, Slot, RegOf, Narrow, Reload, Decimal;
  }

  /** Compilation passes its checks exactly on an implemented instruction whose operands, frame and index are
      there, and then fixes the height the instruction leaves. */
  lemma LowerExact(inst: Inst, h: nat, frame: Option<Frame>, g: nat)
    ensures Lower(inst, h, frame, g).Lowered? <==>
            Implemented(inst) && h >= Takes(inst) && (NeedsFrame(inst) ==> frame.Some?) && IndexInRange(inst, frame, g)
    ensures var l := Lower(inst, h, frame, g);
            l.Lowered? ==> l.top == h - Takes(inst) + Leaves(inst) + Phantom(inst)
  {
    hide LowerBegin, CallCode, BeginCode, EndCode, CondJumpCode, LowerLoad, LowerStore, LowerOperands,
         LowerRuntime, Takes, Leaves;
    if inst.Const? || inst.StoreStack? || inst.Drop? || inst.Dup? || inst.Swap? || inst.Line? || inst.Binop? {
      OperandsExact(inst, h, frame);
    } else if inst.Text? || inst.Sexp? || inst.StoreArray? || inst.Elem? || inst.Tag? || inst.Fail? || inst.BuiltinRead?
           || inst.BuiltinWrite? || inst.BuiltinLength? || inst.BuiltinString? || inst.BuiltinArray? {
      RuntimeExact(inst, h, frame);
    } else {
      FreeExact(inst, h, frame, g);
    }
  }

  // -------------------------------------------------------------------------- runs

  /** An activation, by the height of its operand stack and the function it runs: None before its Begin. One that waits
      for a call to return stays at the call, its arguments already taken. */
  datatype Level = Level(ip: nat, height: nat, entry: Option<Entry>)

  ghost predicate At(p: Program, below: seq<Level>, l: Level, t: seq<Level>) {
    l.ip < |p| && t == below + [l]
  }

  /** One step of the stack machine, on the heights of its operand stacks. */
  ghost predicate HeightStep(p: Program, s: seq<Level>, t: seq<Level>) {
    var n := |s|;
    n > 0 && s[n - 1].ip < |p| &&
    var below, l, inst := s[..n - 1], s[n - 1], p[s[n - 1].ip].inst;
    var h := l.height;
    h >= Takes(inst) &&
    match inst
    case Jump(target) => Find(p, target).Some? && At(p, below, l.(ip := Find(p, target).value), t)
    case CondJump(target, _) =>
      || At(p, below, l.(ip := l.ip + 1, height := h - 1), t)
      || (Find(p, target).Some? && At(p, below, l.(ip := Find(p, target).value, height := h - 1), t))
    case Call(callee, argc) =>
      Find(p, callee).Some? && At(p, below + [l.(height := h - argc)], Level(Find(p, callee).value, 0, None), t)
    case Begin(entry, _, _) => l.entry.None? && At(p, below, Level(l.ip + 1, h, Some(entry)), t)
    case ClosureBegin(_, _) => l.entry.None? && At(p, below, Level(l.ip + 1, h, Some(Private(p[l.ip].offset))), t)
    case End => n > 1 && At(p, s[..n - 2], s[n - 2].(ip := s[n - 2].ip + 1, height := s[n - 2].height + 1), t)
    case Fail(_, _) => false
    case _ => At(p, below, l.(ip := l.ip + 1, height := h - Takes(inst) + Leaves(inst)), t)
  }

  ghost predicate HeightRun(p: Program, run: seq<seq<Level>>) {
    forall k :: 0 < k < |run| ==> HeightStep(p, run[k - 1], run[k])
  }

  /** Activations of `main`, whose recorded heights count one operand that is not on the operand stack. */
  function Overcount(l: Level): nat {
    if l.entry == Some(Public("main")) then 1 else 0
  }

  ghost predicate ActiveSound(p: Program, w: Work, a: Level) {
    a.ip < |p| && p[a.ip].offset in w.done && w.done[p[a.ip].offset] == a.height + Overcount(a)
  }

  ghost predicate WaitingSound(p: Program, w: Work, a: Level) {
    && a.ip < |p| && p[a.ip].inst.Call?
    && p[a.ip].offset in w.done && w.done[p[a.ip].offset] == a.height + p[a.ip].inst.argc + Overcount(a)
  }

  /** The operand stack of every activation has the height recorded for its instruction, less one in `main`. */
  ghost predicate StackSound(p: Program, w: Work, s: seq<Level>) {
    && |s| > 0 && ActiveSound(p, w, s[|s| - 1])
    && forall k :: 0 <= k < |s| - 1 ==> WaitingSound(p, w, s[k])
  }

  lemma FallThroughSound(p: Program, g: nat, w: Work, i: nat)
    requires Sorted(p) && Closed(p, g, w) && i + 1 < |p| && p[i].offset in w.done && !Terminator(p[i].inst)
    ensures var h, inst := w.done[p[i].offset], p[i].inst;
            && h >= Takes(inst)
            && p[i + 1].offset in w.done && w.done[p[i + 1].offset] == h - Takes(inst) + Leaves(inst) + Phantom(inst)
  {
    hide Lower, Compiled;
    var k := ChunkOf(p, g, w, i);
    var c := w.chunks[k];
    LowerExact(p[i].inst, c.height, c.frame, g);
    assert FollowedUp(p, g, w.chunks, k);
    ChunkIsDone(p, g, w, k + 1);
  }

  lemma ChunkIsDone(p: Program, g: nat, w: Work, k: nat)
    requires Closed(p, g, w) && k < |w.chunks|
    ensures ChunkDone(p, g, w, w.chunks[k])
  {
  }

  lemma TargetSound(p: Program, g: nat, w: Work, i: nat, t: nat, j: nat)
    requires Sorted(p) && Closed(p, g, w) && i < |p| && p[i].offset in w.done && Find(p, t) == Some(j)
    requires (p[i].inst.Jump? && p[i].inst.target == t) || (p[i].inst.CondJump? && p[i].inst.target == t)
          || (p[i].inst.Call? && p[i].inst.callee == t)
    ensures var h := w.done[p[i].offset];
            h >= Takes(p[i].inst) && t in w.done
            && w.done[t] == if p[i].inst.Call? then 0 else h - Takes(p[i].inst)
  {
    hide CallCode, CondJumpCode, Compiled;
    var k := ChunkOf(p, g, w, i);
    var c := w.chunks[k];
    LowerExact(p[i].inst, c.height, c.frame, g);
    assert TargetClosed(p, g, w, c);
  }

  lemma StepSound(p: Program, g: nat, w: Work, s: seq<Level>, t: seq<Level>)
    requires Sorted(p) && Closed(p, g, w) && StackSound(p, w, s) && HeightStep(p, s, t)
    ensures StackSound(p, w, t)
  {
    hide Closed, Sorted;
    var n := |s|;
    var ip, inst := s[n - 1].ip, p[s[n - 1].ip].inst;
    if inst.Jump? {
      TargetSound(p, g, w, ip, inst.target, Find(p, inst.target).value);
    } else if inst.Call? {
      TargetSound(p, g, w, ip, inst.callee, Find(p, inst.callee).value);
    } else if inst.End? {
      assert WaitingSound(p, w, s[n - 2]);
      FallThroughSound(p, g, w, s[n - 2].ip);
    } else if inst.CondJump? {
      if Find(p, inst.target).Some? {
        TargetSound(p, g, w, ip, inst.target, Find(p, inst.target).value);
      }
      if ip + 1 < |p| {
        FallThroughSound(p, g, w, ip);
      }
    } else if ip + 1 < |p| {
      FallThroughSound(p, g, w, ip);
    }
  }

  lemma {:induction false} RunSound(p: Program, g: nat, w: Work, run: seq<seq<Level>>, k: nat)
    requires Sorted(p) && Closed(p, g, w) && HeightRun(p, run) && k < |run| && StackSound(p, w, run[0])
    ensures StackSound(p, w, run[k])
    decreases k
  {
    hide Closed, StackSound, HeightStep;
    if k > 0 {
      RunSound(p, g, w, run, k - 1);
      StepSound(p, g, w, run[k - 1], run[k]);
    }
  }

  /** An instruction finds its operands, except in `main` where the recorded height is just what it takes. */
  ghost predicate OperandsThere(p: Program, w: Work, top: Level) {
    && top.ip < |p| && p[top.ip].offset in w.done
    && (top.height >= Takes(p[top.ip].inst) <==>
          Overcount(top) == 0 || w.done[p[top.ip].offset] != Takes(p[top.ip].inst))
  }

  lemma SoundOperands(p: Program, g: nat, w: Work, s: seq<Level>)
    requires Sorted(p) && Closed(p, g, w) && StackSound(p, w, s)
    ensures OperandsThere(p, w, s[|s| - 1])
  {
    hide Lower, Compiled, FollowedUp, TargetClosed, Closed;
    var top := s[|s| - 1];
    var j := ChunkOf(p, g, w, top.ip);
    LowerExact(p[top.ip].inst, w.chunks[j].height, w.chunks[j].frame, g);
  }

  /** If the driver finishes without a failed check, every run from a public function stays on compiled addresses. Every
      operand stack has the recorded height, exactly one less in activations of `main`, and an instruction lacks an
      operand exactly in `main` where the recorded height is what it takes. */
  lemma HeightsSound(p: Program, g: nat, publics: seq<nat>, schedule: seq<nat>, w: Work,
                     entry: nat, run: seq<seq<Level>>, k: nat)
    requires Completed(p, g, publics, schedule, w)
    requires entry < |p| && p[entry].offset in publics
    requires HeightRun(p, run) && k < |run| && run[0] == [Level(entry, 0, None)]
    ensures StackSound(p, w, run[k]) && OperandsThere(p, w, run[k][|run[k]| - 1])
  {
    hide Lower, Follow, Compiled, FollowedUp, TargetClosed, HeightStep;
    CompletedIsClosed(p, g, publics, schedule, w);
    assert IsAddress(p, p[entry].offset);
    assert StackSound(p, w, run[0]);
    RunSound(p, g, w, run, k);
    SoundOperands(p, g, w, run[k]);
  }

  // ----------------------------------------------------- runs of the stack machine

  ghost function LevelOf(a: Activation): Level {
    Level(a.ip, |a.operands|, Some(a.entry))
  }

  ghost function LevelsOf(callers: seq<Activation>): seq<Level> {
    seq(|callers|, i requires 0 <= i < |callers| => LevelOf(callers[i]))
  }

  /** The heights in a configuration. */
  ghost function Levels(c: Config): seq<Level> {
    LevelsOf(c.callers) + [LevelOf(c.active)]
  }

  ghost predicate HeightSteps(p: Program, s: seq<Level>, t: seq<Level>) {
    HeightStep(p, s, t) || exists m :: HeightStep(p, s, m) && HeightStep(p, m, t)
  }

  lemma LevelsSplit(c: Config)
    ensures var s := Levels(c);
            |s| == |c.callers| + 1 && s[|s| - 1] == LevelOf(c.active) && s[..|s| - 1] == LevelsOf(c.callers)
  {
  }

  /** A step within one function is a step on heights. */
  lemma LocalHeights(p: Program, c: Config, d: Config)
    requires Next(p, c) == Running(d) && !p[c.active.ip].inst.Call? && !p[c.active.ip].inst.End?
    ensures HeightStep(p, Levels(c), Levels(d))
  {
    hide Levels, LevelsOf, Infix, Box, Unbox;
    LevelsSplit(c);
    LevelsSplit(d);
    var s, t := Levels(c), Levels(d);
    assert d.callers == c.callers && d.active.entry == c.active.entry;
    assert t == s[..|s| - 1] + [LevelOf(d.active)];
  }

  lemma CallHeights(p: Program, c: Config, d: Config)
    requires Next(p, c) == Running(d) && p[c.active.ip].inst.Call?
    ensures HeightSteps(p, Levels(c), Levels(d))
  {
    LevelsSplit(c);
    LevelsSplit(d);
    var s, inst := Levels(c), p[c.active.ip].inst;
    var n := |c.active.operands|;
    var waiting := LevelOf(c.active).(height := n - inst.argc);
    var below := s[..|s| - 1] + [waiting];
    var j := Find(p, inst.callee).value;
    var m := below + [Level(j, 0, None)];
    assert LevelsOf(d.callers) == below;
    assert m[..|m| - 1] == below;
    assert HeightStep(p, s, m) && HeightStep(p, m, Levels(d));
  }

  lemma ReturnHeights(p: Program, c: Config, d: Config)
    requires Next(p, c) == Running(d) && p[c.active.ip].inst.End?
    ensures HeightStep(p, Levels(c), Levels(d))
  {
    LevelsSplit(c);
    LevelsSplit(d);
    var s, k := Levels(c), |c.callers|;
    assert s[k - 1] == LevelOf(c.callers[k - 1]);
    assert LevelsOf(d.callers) == s[..k - 1];
  }

  /** Every step of the stack machine is one step on heights, or two for a call and the Begin of the callee. */
  lemma NextFollowsHeights(p: Program, c: Config, d: Config)
    requires Next(p, c) == Running(d)
    ensures HeightSteps(p, Levels(c), Levels(d))
  {
    hide Levels, HeightStep, Next, Goto, Enter, Leave;
    InstructionThere(p, c);
    if p[c.active.ip].inst.Call? {
      CallHeights(p, c, d);
    } else if p[c.active.ip].inst.End? {
      ReturnHeights(p, c, d);
    } else {
      LocalHeights(p, c, d);
    }
  }

  lemma InstructionThere(p: Program, c: Config)
    requires Next(p, c).Running?
    ensures c.active.ip < |p|
  {
  }

  ghost predicate ConfigRun(p: Program, run: seq<Config>) {
    forall k :: 0 < k < |run| ==> Next(p, run[k - 1]) == Running(run[k])
  }

  lemma {:induction false} ConfigRunSound(p: Program, g: nat, w: Work, run: seq<Config>, k: nat)
    requires Sorted(p) && Closed(p, g, w) && ConfigRun(p, run) && k < |run| && StackSound(p, w, Levels(run[0]))
    ensures StackSound(p, w, Levels(run[k]))
    decreases k
  {
    hide Closed, StackSound, HeightStep, Levels, Next;
    if k > 0 {
      ConfigRunSound(p, g, w, run, k - 1);
      NextFollowsHeights(p, run[k - 1], run[k]);
      var s, t := Levels(run[k - 1]), Levels(run[k]);
      if !HeightStep(p, s, t) {
        var m :| HeightStep(p, s, m) && HeightStep(p, m, t);
        StepSound(p, g, w, s, m);
        StepSound(p, g, w, m, t);
      } else {
        StepSound(p, g, w, s, t);
      }
    }
  }

  /** The same for runs of the stack machine itself: each operand stack is as high as recorded, one less in `main`. */
  lemma RunHeightsSound(p: Program, g: nat, publics: seq<nat>, schedule: seq<nat>, w: Work, entry: nat,
                        args: seq<Int64>, run: seq<Config>, k: nat)
    requires Completed(p, g, publics, schedule, w)
    requires entry + 1 < |p| && p[entry].inst.Begin? && p[entry].offset in publics
    requires ConfigRun(p, run) && k < |run| && run[0].callers == []
             && run[0].active == Begun(p[entry].inst, entry + 1, args)
    ensures StackSound(p, w, Levels(run[k])) && OperandsThere(p, w, LevelOf(run[k].active))
  {
    hide Lower, Follow, Compiled, FollowedUp, TargetClosed;
    CompletedIsClosed(p, g, publics, schedule, w);
    assert IsAddress(p, p[entry].offset);
    var before := [Level(entry, 0, None)];
    assert StackSound(p, w, before);
    assert Levels(run[0]) == [Level(entry + 1, 0, Some(p[entry].inst.entry))];
    assert before[..0] + Levels(run[0]) == Levels(run[0]);
    StepSound(p, g, w, before, Levels(run[0]));
    ConfigRunSound(p, g, w, run, k);
    LevelsSplit(run[k]);
    SoundOperands(p, g, w, Levels(run[k]));
  }
}
