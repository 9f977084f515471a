/** The driver takes the addresses from an unordered map. Frames depend on the order (see Frames); heights do not. */
module Schedules {
  import opened Bytecode
  import opened Lowering
  import opened Worklist
  import opened Heights

  ghost predicate At(done: map<nat, nat>, t: nat, h: nat) {
    t in done && done[t] == h
  }

  /** Every height that w has recorded for an instruction is the one in `done`. */
  ghost predicate Within(p: Program, w: Work, done: map<nat, nat>) {
    && (forall t :: t in w.done ==> At(done, t, w.done[t]))
    && (forall t :: t in w.todo && IsAddress(p, t) ==> At(done, t, w.todo[t]))
  }

  /** In the middle of a chain, the height for instruction i is right as well. */
  ghost predicate ReachedAt(p: Program, i: nat, top: nat, done: map<nat, nat>) {
    i < |p| ==> At(done, p[i].offset, top)
  }

  lemma RuntimeHasNoTarget(inst: Inst, h: nat, frame: Option<Frame>)
    ensures LowerRuntime(inst, h, frame).Lowered? ==> LowerRuntime(inst, h, frame).target.None?
  {
    hide CallCode, ImmediateCode, AddressCode;
  }

  lemma OthersHaveNoTarget(inst: Inst, place: Place, index: nat, h: nat, frame: Option<Frame>, g: nat)
    ensures var l := LowerOperands(inst, h, frame); l.Lowered? ==> l.target.None?
    ensures var l := LowerLoad(place, index, h, frame, g); l.Lowered? ==> l.target.None?
    ensures var l := LowerStore(place, index, h, frame); l.Lowered? ==> l.target.None?
    ensures forall heading, f :: LowerBegin(heading, h, f).target.None?
  {
    hide CallCode, BeginCode, SwapCode, BinopCode, ConstCode, LoadCode, StoreCode, Move, MoveFromReg;
  }

  /** The address an instruction transfers to, and the height there. */
  function TargetOf(inst: Inst, h: nat): Option<(nat, nat)> {
    match inst
    case Jump(target) => Some((target, h))
    case CondJump(target, _) => Some((target, if h > 0 then h - 1 else 0))
    case Call(callee, _) => Some((callee, 0))
    case _ => None
  }

  lemma LowerTarget(inst: Inst, h: nat, frame: Option<Frame>, g: nat)
    ensures var l := Lower(inst, h, frame, g);
            l.Lowered? ==> l.target == TargetOf(inst, h)
  {
    hide CallCode, EndCode, CondJumpCode, LowerLoad, LowerStore, LowerOperands, LowerRuntime, LowerBegin;
    RuntimeHasNoTarget(inst, h, frame);
    if inst.Load? || inst.Store? {
      OthersHaveNoTarget(inst, inst.place, inst.index, h, frame, g);
    } else {
      OthersHaveNoTarget(inst, Global, 0, h, frame, g);
    }
  }

  /** The frame decides whether an instruction can be compiled, not where it leads and at what height. */
  lemma LowerFrameFree(inst: Inst, h: nat, frame: Option<Frame>, other: Option<Frame>, g: nat)
    ensures var l, m := Lower(inst, h, frame, g), Lower(inst, h, other, g);
            l.Lowered? && m.Lowered? ==> l.top == m.top && l.target == m.target
  {
    hide Lower;
    LowerExact(inst, h, frame, g);
    LowerExact(inst, h, other, g);
    LowerTarget(inst, h, frame, g);
    LowerTarget(inst, h, other, g);
  }

  /** A visit at the right height records right heights, and reaches the next instruction at the right height. */
  lemma VisitWithin(p: Program, g: nat, i: nat, w: Work, v: Work, c: Work)
    requires Sorted(p) && Closed(p, g, c) && i < |p| && Visit(p, g, i, w) == Some(v)
    requires Within(p, w, c.done) && ReachedAt(p, i, w.top, c.done)
    ensures Within(p, v, c.done) && (!Terminator(p[i].inst) ==> ReachedAt(p, i + 1, v.top, c.done))
  {
    hide Lower, Compiled, LabelsUnique;
    var k := ChunkOf(p, g, c, i);
    var chunk := c.chunks[k];
    LowerFrameFree(p[i].inst, w.top, w.frame, chunk.frame, g);
    assert TargetClosed(p, g, c, chunk);
    assert FollowedUp(p, g, c.chunks, k);
    if !Terminator(p[i].inst) && i + 1 < |p| {
      ChunkIsDone(p, g, c, k + 1);
    }
  }

  lemma {:induction false} ChainWithin(p: Program, g: nat, i: nat, w: Work, v: Work, c: Work)
    requires Sorted(p) && Closed(p, g, c) && i <= |p| && Chain(p, g, i, w) == Some(v)
    requires Within(p, w, c.done) && ReachedAt(p, i, w.top, c.done)
    ensures Within(p, v, c.done)
    decreases |p| - i
  {
    hide Visit, Closed, Sorted, Within;
    if i < |p| {
      var u := Visit(p, g, i, w).value;
      VisitWithin(p, g, i, w, u, c);
      if !Terminator(p[i].inst) {
        ChainWithin(p, g, i + 1, u, v, c);
      }
    }
  }

  lemma ProcessWithin(p: Program, g: nat, start: nat, w: Work, v: Work, c: Work)
    requires Sorted(p) && Closed(p, g, c) && start in w.todo && Process(p, g, start, w) == Some(v)
    requires Within(p, w, c.done)
    ensures Within(p, v, c.done)
  {
    hide Chain, Closed, Sorted;
    var u := w.(top := w.todo[start], todo := w.todo - {start});
    assert Within(p, u, c.done);
    if start !in w.done && Find(p, start).Some? {
      assert IsAddress(p, start);
      ChainWithin(p, g, Find(p, start).value, u, v, c);
    }
  }

  lemma {:induction false} FollowWithin(p: Program, g: nat, schedule: seq<nat>, w: Work, v: Work, c: Work)
    requires Sorted(p) && Closed(p, g, c) && Follow(p, g, schedule, w) == Some(v) && Within(p, w, c.done)
    ensures Within(p, v, c.done)
  {
    hide Process, Closed, Sorted, Within;
    if |schedule| > 0 {
      var u := Process(p, g, schedule[0], w).value;
      ProcessWithin(p, g, schedule[0], w, u, c);
      FollowWithin(p, g, schedule[1..], u, v, c);
    }
  }

  lemma {:induction false} StartWithin(p: Program, publics: seq<nat>, done: map<nat, nat>)
    requires Start(publics).Some? && forall t :: t in publics && IsAddress(p, t) ==> At(done, t, 0)
    ensures Within(p, Start(publics).value, done)
  {
    hide IsAddress;
    if |publics| > 0 {
      var rest, last := publics[..|publics| - 1], publics[|publics| - 1];
      assert last in publics && forall t :: t in rest ==> t in publics;
      StartWithin(p, rest, done);
    }
  }

  /** What one compilation has compiled, every other one with the same public symbols has, at the same heights. */
  lemma CompletedWithin(p: Program, g: nat, publics: seq<nat>, schedule: seq<nat>, w: Work,
                        publics': seq<nat>, schedule': seq<nat>, w': Work)
    requires Completed(p, g, publics, schedule, w) && Completed(p, g, publics', schedule', w')
    requires forall t :: t in publics ==> t in publics'
    ensures forall t :: t in w.done ==> At(w'.done, t, w.done[t])
  {
    hide Closed, Sorted, IsAddress, Start, Follow;
    CompletedIsClosed(p, g, publics', schedule', w');
    forall t | t in publics && IsAddress(p, t) ensures At(w'.done, t, 0) {
      var i :| 0 <= i < |publics'| && publics'[i] == t;
    }
    StartWithin(p, publics, w'.done);
    FollowWithin(p, g, schedule, Start(publics).value, w, w');
  }

  /** Whatever the order in which the driver takes the addresses, and the order of the public symbols: compilations of
      a program that finish without a failed check compile the same instructions at the same heights. */
  lemma HeightsAreUnique(p: Program, g: nat, publics: seq<nat>, schedule: seq<nat>, w: Work,
                         publics': seq<nat>, schedule': seq<nat>, w': Work)
    requires Completed(p, g, publics, schedule, w) && Completed(p, g, publics', schedule', w')
    requires forall t :: t in publics <==> t in publics'
    ensures w.done == w'.done
  {
    hide Completed;
    CompletedWithin(p, g, publics, schedule, w, publics', schedule', w');
    CompletedWithin(p, g, publics', schedule', w', publics, schedule, w);
  }
}
