/** The driver of the compiler as a state machine: addresses still to be compiled, the operand height
    fixed for every compiled one, and the chunks of code emitted so far. */
module Worklist {
  import opened Rv64
  import opened Bytecode
  import opened Lowering

  /** The lines emitted by one visit of an instruction, at a height and in the frame then current. Only the
      first visit of an address defines its label. */
  datatype Chunk = Chunk(index: nat, height: nat, frame: Option<Frame>, labelled: bool)

  datatype Work = Work(top: nat, frame: Option<Frame>, done: map<nat, nat>, todo: map<nat, nat>, chunks: seq<Chunk>)

  function LoweredAt(p: Program, g: nat, c: Chunk): Lowered {
    if c.index < |p| then Lower(p[c.index].inst, c.height, c.frame, g) else Abort
  }

  function Heading(p: Program, c: Chunk): seq<Op> {
    if c.labelled && c.index < |p| then [Label(LabelName.Bytecode(p[c.index].offset))] else []
  }

  function Body(p: Program, g: nat, c: Chunk): seq<Op> {
    match LoweredAt(p, g, c)
    case Lowered(code, _, _, _) => code
    case Abort => []
  }

  function ChunkCode(p: Program, g: nat, c: Chunk): seq<Op> {
    Heading(p, c) + Body(p, g, c)
  }

  /** The lines of a run of chunks. */
  function Listing(p: Program, g: nat, chunks: seq<Chunk>): seq<Op> {
    if |chunks| == 0 then []
    else Listing(p, g, chunks[..|chunks| - 1]) + ChunkCode(p, g, chunks[|chunks| - 1])
  }

  // ------------------------------------------------------------------------ steps

  /** add_jump_target: None when the height recorded before is another one. */
  function AddTarget(w: Work, t: nat, h: nat): Option<Work> {
    if t in w.done then (if w.done[t] == h then Some(w) else None)
    else if t in w.todo then (if w.todo[t] == h then Some(w) else None)
    else Some(w.(todo := w.todo[t := h]))
  }

  /** inst_begin followed by emit_code. */
  function Visit(p: Program, g: nat, i: nat, w: Work): Option<Work>
    requires i < |p|
  {
    var a := p[i].offset;
    if a in w.done && w.done[a] != w.top then None
    else
      match Lower(p[i].inst, w.top, w.frame, g)
      case Abort => None
      case Lowered(_, top, frame, target) =>
        var next := Work(top, frame, w.done[a := w.top], w.todo, w.chunks + [Chunk(i, w.top, w.frame, a !in w.done)]);
        match target
        case None => Some(next)
        case Some((t, h)) => AddTarget(next, t, h)
  }

  /** Compiles from instruction i up to a terminator or the end of the program. */
  function Chain(p: Program, g: nat, i: nat, w: Work): Option<Work>
    requires i <= |p|
    decreases |p| - i
  {
    if i == |p| then Some(w)
    else
      match Visit(p, g, i, w)
      case None => None
      case Some(v) => if Terminator(p[i].inst) then Some(v) else Chain(p, g, i + 1, v)
  }

  /** One round of the driver's loop on an address taken from `todo`. */
  function Process(p: Program, g: nat, start: nat, w: Work): Option<Work>
    requires start in w.todo
  {
    var h := w.todo[start];
    var v := w.(top := h, todo := w.todo - {start});
    if start in w.done then (if w.done[start] == h then Some(v) else None)
    else
      match Find(p, start)
      case None => Some(v)
      case Some(i) => Chain(p, g, i, v)
  }

  /** The rounds of a schedule; the driver may take the addresses in any order. */
  function Follow(p: Program, g: nat, schedule: seq<nat>, w: Work): Option<Work> {
    if |schedule| == 0 then Some(w)
    else if schedule[0] !in w.todo then None
    else
      match Process(p, g, schedule[0], w)
      case None => None
      case Some(v) => Follow(p, g, schedule[1..], v)
  }

  /** The public symbols are entered at height zero. */
  function Start(publics: seq<nat>): Option<Work> {
    if |publics| == 0 then Some(Work(0, None, map[], map[], []))
    else
      match Start(publics[..|publics| - 1])
      case None => None
      case Some(w) => AddTarget(w, publics[|publics| - 1], 0)
  }

  // ------------------------------------------------------------------- invariants

  ghost predicate Recorded(w: Work, t: nat, h: nat) {
    (t in w.done && w.done[t] == h) || (t in w.todo && w.todo[t] == h)
  }

  /** A target has its height recorded, unless it is no instruction: those are dropped silently. */
  ghost predicate Known(p: Program, w: Work, t: nat, h: nat) {
    Recorded(w, t, h) || !IsAddress(p, t)
  }

  ghost predicate ChunkDone(p: Program, g: nat, w: Work, c: Chunk) {
    && c.index < |p| && LoweredAt(p, g, c).Lowered?
    && p[c.index].offset in w.done && w.done[p[c.index].offset] == c.height
  }

  ghost predicate TargetKnown(p: Program, g: nat, w: Work, c: Chunk) {
    var l := LoweredAt(p, g, c);
    l.Lowered? && l.target.Some? ==> Known(p, w, l.target.value.0, l.target.value.1)
  }

  /** Instruction i is visited right after chunk c, at the height and in the frame c leaves behind. */
  ghost predicate LeadsTo(p: Program, g: nat, c: Chunk, i: nat, top: nat, frame: Option<Frame>) {
    var l := LoweredAt(p, g, c);
    l.Lowered? && i == c.index + 1 && top == l.top && frame == l.frame
  }

  ghost predicate FallsThrough(p: Program, c: Chunk) {
    c.index + 1 < |p| && !Terminator(p[c.index].inst)
  }

  ghost predicate FollowedUp(p: Program, g: nat, chunks: seq<Chunk>, k: nat)
    requires k < |chunks|
  {
    FallsThrough(p, chunks[k]) ==>
      k + 1 < |chunks| && LeadsTo(p, g, chunks[k], chunks[k + 1].index, chunks[k + 1].height, chunks[k + 1].frame)
  }

  ghost predicate LabelOf(p: Program, c: Chunk, a: nat) {
    c.labelled && c.index < |p| && p[c.index].offset == a
  }

  /** Every compiled address has its label, and no label is defined twice. */
  ghost predicate LabelsUnique(p: Program, w: Work) {
    && (forall a :: a in w.done ==> exists k :: 0 <= k < |w.chunks| && LabelOf(p, w.chunks[k], a))
    && (forall j, k :: 0 <= j < k < |w.chunks| ==> !SameLabel(p, w.chunks[j], w.chunks[k]))
  }

  ghost predicate SameLabel(p: Program, c: Chunk, d: Chunk) {
    c.labelled && d.labelled && c.index < |p| && d.index < |p| && p[c.index].offset == p[d.index].offset
  }

  ghost predicate Compiled(p: Program, g: nat, w: Work) {
    && (forall k :: 0 <= k < |w.chunks| ==> ChunkDone(p, g, w, w.chunks[k]))
    && LabelsUnique(p, w)
  }

  /** What every round of the driver keeps. */
  ghost predicate Consistent(p: Program, g: nat, w: Work) {
    && Compiled(p, g, w)
    && (forall k :: 0 <= k < |w.chunks| ==> TargetKnown(p, g, w, w.chunks[k]))
    && (forall k :: 0 <= k < |w.chunks| ==> FollowedUp(p, g, w.chunks, k))
  }

  /** The state in the middle of a chain: instruction i is the one the last chunk falls through to, and the
      address of i is settled although it may be on neither list. */
  ghost predicate MidChain(p: Program, g: nat, i: nat, w: Work) {
    && Compiled(p, g, w)
    && (forall k :: 0 <= k < |w.chunks| ==> TargetSettled(p, g, i, w, w.chunks[k]))
    && (forall k :: 0 <= k < |w.chunks| - 1 ==> FollowedUp(p, g, w.chunks, k))
    && (|w.chunks| > 0 && FallsThrough(p, w.chunks[|w.chunks| - 1]) ==>
          LeadsTo(p, g, w.chunks[|w.chunks| - 1], i, w.top, w.frame))
  }

  ghost predicate TargetSettled(p: Program, g: nat, i: nat, w: Work, c: Chunk) {
    var l := LoweredAt(p, g, c);
    l.Lowered? && l.target.Some? ==> Settled(p, i, w, l.target.value.0, l.target.value.1)
  }

  ghost predicate Settled(p: Program, i: nat, w: Work, t: nat, h: nat) {
    Known(p, w, t, h) || (i < |p| && t == p[i].offset && h == w.top)
  }

  // ------------------------------------------------------------------------ proofs

  /** What one visit does to the two lists. */
  lemma VisitFacts(p: Program, g: nat, i: nat, w: Work)
    requires i < |p| && Visit(p, g, i, w).Some?
    ensures var v := Visit(p, g, i, w).value;
            var l := Lower(p[i].inst, w.top, w.frame, g);
            && l.Lowered? && v.top == l.top && v.frame == l.frame
            && v.chunks == w.chunks + [Chunk(i, w.top, w.frame, p[i].offset !in w.done)]
            && v.done == w.done[p[i].offset := w.top]
            && (l.target.Some? ==> Recorded(v, l.target.value.0, l.target.value.1))
            && (p[i].offset in w.done ==> w.done[p[i].offset] == w.top)
    ensures forall t, h :: Settled(p, i, w, t, h) ==> Known(p, Visit(p, g, i, w).value, t, h)
  {
    hide Lower, IsAddress;
  }

  lemma VisitCompiles(p: Program, g: nat, i: nat, w: Work)
    requires i < |p| && Visit(p, g, i, w).Some? && Compiled(p, g, w)
    ensures Compiled(p, g, Visit(p, g, i, w).value)
  {
    hide Visit, Lower, Settled, Known;
    VisitFacts(p, g, i, w);
    var v := Visit(p, g, i, w).value;
    var n := |w.chunks|;
    assert forall k :: 0 <= k < n ==> v.chunks[k] == w.chunks[k];
    forall a | a in v.done
      ensures exists k :: 0 <= k < |v.chunks| && LabelOf(p, v.chunks[k], a)
    {
      if a in w.done {
        var k :| 0 <= k < n && LabelOf(p, w.chunks[k], a);
        assert LabelOf(p, v.chunks[k], a);
      } else {
        assert LabelOf(p, v.chunks[n], a);
      }
    }
  }

  lemma VisitKeeps(p: Program, g: nat, i: nat, w: Work)
    requires i < |p| && Visit(p, g, i, w).Some? && MidChain(p, g, i, w)
    ensures var v := Visit(p, g, i, w).value;
            MidChain(p, g, i + 1, v) && (Terminator(p[i].inst) ==> Consistent(p, g, v))
    ensures var v := Visit(p, g, i, w).value;
            i + 1 == |p| ==> Consistent(p, g, v)
  {
    hide Visit, Lower, Known, Compiled;
    VisitFacts(p, g, i, w);
    VisitCompiles(p, g, i, w);
    var v := Visit(p, g, i, w).value;
    var n := |w.chunks|;
    assert forall k :: 0 <= k < n ==> v.chunks[k] == w.chunks[k];
    forall k | 0 <= k < n
      ensures TargetKnown(p, g, v, v.chunks[k]) && FollowedUp(p, g, v.chunks, k)
    {
      assert TargetSettled(p, g, i, w, w.chunks[k]);
      if k < n - 1 {
        assert FollowedUp(p, g, w.chunks, k);
      }
    }
    assert TargetKnown(p, g, v, v.chunks[n]) by {
      assert LoweredAt(p, g, v.chunks[n]) == Lower(p[i].inst, w.top, w.frame, g);
      RecordedIsKnown(p, g, v, v.chunks[n]);
    }
  }

  lemma RecordedIsKnown(p: Program, g: nat, w: Work, c: Chunk)
    requires var l := LoweredAt(p, g, c);
             l.Lowered? && l.target.Some? ==> Recorded(w, l.target.value.0, l.target.value.1)
    ensures TargetKnown(p, g, w, c)
  {
    hide LoweredAt;
  }

  lemma {:induction false} ChainKeeps(p: Program, g: nat, i: nat, w: Work)
    requires i < |p| && MidChain(p, g, i, w) && Chain(p, g, i, w).Some?
    ensures var v := Chain(p, g, i, w).value;
            Consistent(p, g, v) && p[i].offset in v.done && w.done.Keys <= v.done.Keys
    ensures forall t, h :: Settled(p, i, w, t, h) ==> Known(p, Chain(p, g, i, w).value, t, h)
    decreases |p| - i
  {
    hide Visit, MidChain, Consistent, Known;
    VisitFacts(p, g, i, w);
    VisitKeeps(p, g, i, w);
    if !Terminator(p[i].inst) && i + 1 < |p| {
      ChainKeeps(p, g, i + 1, Visit(p, g, i, w).value);
    }
  }

  /** Every round keeps the invariant and compiles a new address or shortens the list. */
  lemma ProcessKeeps(p: Program, g: nat, start: nat, w: Work)
    requires Sorted(p) && start in w.todo && Consistent(p, g, w) && Process(p, g, start, w).Some?
    ensures Consistent(p, g, Process(p, g, start, w).value)
    ensures forall t, h :: Known(p, w, t, h) ==> Known(p, Process(p, g, start, w).value, t, h)
    ensures var v := Process(p, g, start, w).value;
            w.done.Keys < v.done.Keys || (v.done == w.done && |v.todo| < |w.todo|)
  {
    var h := w.todo[start];
    var v := w.(top := h, todo := w.todo - {start});
    if start in w.done {
      Removed(w.todo, start);
      ProcessKeepsKnown(p, g, start, w);
    } else {
      match Find(p, start)
      case None =>
        Removed(w.todo, start);
        ProcessKeepsKnown(p, g, start, w);
      case Some(i) =>
        StartOfChain(p, g, start, w, i);
        ChainKeeps(p, g, i, v);
        assert start in Process(p, g, start, w).value.done.Keys;
    }
  }

  lemma Removed(m: map<nat, nat>, k: nat)
    requires k in m
    ensures |m - {k}| < |m|
  {
    assert (m - {k}).Keys == m.Keys - {k};
  }

  lemma ProcessKeepsKnown(p: Program, g: nat, start: nat, w: Work)
    requires start in w.todo && Consistent(p, g, w)
    requires (start in w.done && w.done[start] == w.todo[start]) || (start !in w.done && !IsAddress(p, start))
    ensures var v := w.(top := w.todo[start], todo := w.todo - {start});
            Consistent(p, g, v) && forall t, h :: Known(p, w, t, h) ==> Known(p, v, t, h)
  {
    hide LoweredAt, LeadsTo, FallsThrough;
    var v := w.(top := w.todo[start], todo := w.todo - {start});
    forall k | 0 <= k < |w.chunks|
      ensures ChunkDone(p, g, v, v.chunks[k]) && FollowedUp(p, g, v.chunks, k) && TargetKnown(p, g, v, v.chunks[k])
    {
      assert ChunkDone(p, g, w, w.chunks[k]);
      assert FollowedUp(p, g, w.chunks, k);
      assert TargetKnown(p, g, w, w.chunks[k]);
    }
    assert LabelsUnique(p, w);
  }

  lemma StartOfChain(p: Program, g: nat, start: nat, w: Work, i: nat)
    requires start in w.todo && start !in w.done && Consistent(p, g, w) && i < |p| && p[i].offset == start
    ensures var v := w.(top := w.todo[start], todo := w.todo - {start});
            MidChain(p, g, i, v) && forall t, h :: Known(p, w, t, h) ==> Settled(p, i, v, t, h)
  {
    hide LoweredAt, LeadsTo;
    var v := w.(top := w.todo[start], todo := w.todo - {start});
    forall k | 0 <= k < |w.chunks|
      ensures ChunkDone(p, g, v, v.chunks[k]) && FollowedUp(p, g, v.chunks, k) && TargetSettled(p, g, i, v, v.chunks[k])
    {
      assert ChunkDone(p, g, w, w.chunks[k]);
      assert FollowedUp(p, g, w.chunks, k);
      assert TargetKnown(p, g, w, w.chunks[k]);
    }
    assert LabelsUnique(p, w);
  }

  lemma {:induction false} FollowKeeps(p: Program, g: nat, schedule: seq<nat>, w: Work)
    requires Sorted(p) && Consistent(p, g, w) && Follow(p, g, schedule, w).Some?
    ensures Consistent(p, g, Follow(p, g, schedule, w).value)
    ensures forall t, h :: Known(p, w, t, h) ==> Known(p, Follow(p, g, schedule, w).value, t, h)
  {
    hide Consistent, Known, Process;
    if |schedule| > 0 {
      ProcessKeeps(p, g, schedule[0], w);
      FollowKeeps(p, g, schedule[1..], Process(p, g, schedule[0], w).value);
    }
  }

  lemma {:induction false} FollowStep(p: Program, g: nat, schedule: seq<nat>, w: Work, next: nat)
    requires Follow(p, g, schedule, w).Some? && next in Follow(p, g, schedule, w).value.todo
    ensures Follow(p, g, schedule + [next], w) == Process(p, g, next, Follow(p, g, schedule, w).value)
  {
    var longer := schedule + [next];
    if |schedule| == 0 {
      assert longer[0] == next && longer[1..] == [];
    } else {
      assert longer[0] == schedule[0] && longer[1..] == schedule[1..] + [next];
      FollowStep(p, g, schedule[1..], Process(p, g, schedule[0], w).value, next);
    }
  }

  lemma {:induction false} StartKeeps(p: Program, g: nat, publics: seq<nat>)
    requires Start(publics).Some?
    ensures var w := Start(publics).value;
            w.done == map[] && w.chunks == [] && Consistent(p, g, w)
    ensures forall i :: 0 <= i < |publics| ==> Known(p, Start(publics).value, publics[i], 0)
  {
    hide IsAddress, LoweredAt;
    if |publics| > 0 {
      StartKeeps(p, g, publics[..|publics| - 1]);
    }
  }

  ghost function Addresses(p: Program): set<nat> {
    set i | 0 <= i < |p| :: p[i].offset
  }

  lemma DoneIsAddress(p: Program, g: nat, w: Work)
    requires Consistent(p, g, w)
    ensures w.done.Keys <= Addresses(p)
  {
    hide ChunkDone, TargetKnown, FollowedUp;
    forall a | a in w.done
      ensures a in Addresses(p)
    {
      var k :| 0 <= k < |w.chunks| && LabelOf(p, w.chunks[k], a);
    }
  }

  // -------------------------------------------------------------- finished compilations

  /** The driver stopped without a failed check, for some order in which it took the addresses. */
  ghost predicate Completed(p: Program, g: nat, publics: seq<nat>, schedule: seq<nat>, w: Work) {
    && Sorted(p) && Start(publics).Some?
    && Follow(p, g, schedule, Start(publics).value) == Some(w)
    && w.todo == map[]
  }

  /** The driver stopped on a failed check: among the public symbols, or in the last round of the schedule. */
  ghost predicate Stops(p: Program, g: nat, publics: seq<nat>, schedule: seq<nat>) {
    || Start(publics).None?
    || (|schedule| > 0 &&
        var before := Follow(p, g, schedule[..|schedule| - 1], Start(publics).value);
        var last := schedule[|schedule| - 1];
        before.Some? && last in before.value.todo && Process(p, g, last, before.value).None?)
  }

  /** The heights in `done` account for every successor of a compiled instruction. */
  ghost predicate Closed(p: Program, g: nat, w: Work) {
    && Compiled(p, g, w)
    && (forall k :: 0 <= k < |w.chunks| ==> FollowedUp(p, g, w.chunks, k))
    && (forall k :: 0 <= k < |w.chunks| ==> TargetClosed(p, g, w, w.chunks[k]))
  }

  ghost predicate TargetClosed(p: Program, g: nat, w: Work, c: Chunk) {
    var l := LoweredAt(p, g, c);
    l.Lowered? && l.target.Some? && IsAddress(p, l.target.value.0) ==>
      l.target.value.0 in w.done && w.done[l.target.value.0] == l.target.value.1
  }

  /** When the list is empty, `done` is closed under fall-through, jump and call successors and holds every
      public function at height zero. */
  lemma CompletedIsClosed(p: Program, g: nat, publics: seq<nat>, schedule: seq<nat>, w: Work)
    requires Completed(p, g, publics, schedule, w)
    ensures Closed(p, g, w)
    ensures forall i :: 0 <= i < |publics| && IsAddress(p, publics[i]) ==>
              publics[i] in w.done && w.done[publics[i]] == 0
  {
    hide Compiled, LoweredAt, FollowedUp, Follow, IsAddress;
    StartKeeps(p, g, publics);
    FollowKeeps(p, g, schedule, Start(publics).value);
    forall k | 0 <= k < |w.chunks|
      ensures TargetClosed(p, g, w, w.chunks[k])
    {
      assert TargetKnown(p, g, w, w.chunks[k]);
    }
  }

  /** A compiled address has a chunk that defines its label and was compiled at the recorded height. */
  lemma ChunkOf(p: Program, g: nat, w: Work, i: nat) returns (k: nat)
    requires Sorted(p) && Closed(p, g, w) && i < |p| && p[i].offset in w.done
    ensures k < |w.chunks| && w.chunks[k].index == i && w.chunks[k].labelled
            && w.chunks[k].height == w.done[p[i].offset]
    ensures ChunkDone(p, g, w, w.chunks[k])
  {
    k :| 0 <= k < |w.chunks| && LabelOf(p, w.chunks[k], p[i].offset);
    assert ChunkDone(p, g, w, w.chunks[k]);
    FindAt(p, i);
    FindAt(p, w.chunks[k].index);
  }
}
