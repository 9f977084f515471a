/** Every run of a program on the heap: allocations, collections, stores and extra roots in any order. */
module Runs {
  import opened Words
  import opened Layout
  import opened Survival
  import opened Roots
  import opened Collection
  import opened Allocation

  datatype Config = Config(s: Snapshot, a: Areas)

  datatype Op =
    | Collect(additional: nat)
    | Allocate(kind: Kind, len: nat)
    | StoreField(object: nat, index: nat, word: Word)
    | StoreRaw(object: nat, index: nat, word: Word)
    | CopyObject(object: nat, copy: nat)
    | StoreRoot(slot: Slot, word: Word)
    | GrowStack(words: seq<Word>)
    | ShrinkStack(n: nat)
    | Push(slot: Slot)
    | Pop

  ghost predicate Invariant(c: Config) {
    c.s.Sound() && RootsSound(c.s, c.a)
  }

  /** A collection, with a chunk the system placed clear of everything the program still holds. */
  ghost predicate CollectStep(c: Config, c': Config, additional: nat) {
    && PlacedClear(c.s, c.a, c'.s.begin, additional)
    && |c'.s.mem| == NextSize(c.s, c.a, additional)
    && Collected(c.s, c.a, c'.s, c'.a)
  }

  ghost predicate AllocateStep(c: Config, m: Config, c': Config, kind: Kind, len: nat) {
    && len < MODULUS / 8
    && (if Fits(c.s, kind, len) then m == c else CollectStep(c, m, ObjectWords(kind, len)))
    && c' == Config(Extended(m.s, kind, len), m.a)
  }

  /** A root slot the program may assign: below the bottom of the stack and inside the static area. */
  ghost predicate Assignable(a: Areas, sl: Slot) {
    && a.InBounds(sl)
    && match sl
       case StackSlot(i) => 1 <= i < |a.stack| - 1
       case StaticSlot(i) => i < |a.statics| - 1
       case LocalSlot(i) => true
  }

  ghost function Assigned(a: Areas, sl: Slot, w: Word): Areas
    requires a.InBounds(sl)
  {
    match sl
    case StackSlot(i) => a.(stack := a.stack[i := w])
    case StaticSlot(i) => a.(statics := a.statics[i := w])
    case LocalSlot(i) => a.(locals := a.locals[i := w])
  }

  /** A word of an object's contents that is not scanned: a code word, a tag, or bytes of a string. */
  ghost predicate RawWord(s: Snapshot, o: nat, i: nat) {
    o in s.objs && o + 2 <= i < o + s.Size(o) && i < |s.mem| && !s.IsField(o, i)
  }

  /** Word i after the words of object o have been copied over those of x, forward word included. */
  ghost function OverwrittenWord(s: Snapshot, o: nat, x: nat, i: nat): Word
    requires i < |s.mem|
  {
    if x <= i < x + s.Size(o) && o + (i - x) < |s.mem| then s.mem[o + (i - x)] else s.mem[i]
  }

  ghost function Overwritten(s: Snapshot, o: nat, x: nat): Snapshot {
    s.(mem := seq(|s.mem|, i requires 0 <= i < |s.mem| => OverwrittenWord(s, o, x, i)))
  }

  /** A slot as named after the top of the stack has moved by d words. */
  function Renamed(sl: Slot, d: int): Slot {
    match sl
    case StackSlot(i) => if i + d >= 0 then StackSlot(i + d) else StackSlot(0)
    case _ => sl
  }

  function RenamedAll(extra: seq<Slot>, d: int): seq<Slot> {
    seq(|extra|, k requires 0 <= k < |extra| => Renamed(extra[k], d))
  }

  ghost function Grown(a: Areas, ws: seq<Word>): Areas {
    a.(stack := ws + a.stack, extra := RenamedAll(a.extra, |ws|))
  }

  /** Shrinking the stack by n words cuts off no registered slot. */
  ghost predicate Shrinkable(a: Areas, n: nat) {
    n + 2 <= |a.stack| && forall k :: 0 <= k < |a.extra| && a.extra[k].StackSlot? ==> n < a.extra[k].i
  }

  ghost function Shrunk(a: Areas, n: nat): Areas
    requires n <= |a.stack|
  {
    a.(stack := a.stack[n..], extra := RenamedAll(a.extra, -(n as int)))
  }

  ghost predicate Step(c: Config, op: Op, c': Config) {
    match op
    case Collect(n) => CollectStep(c, c', n)
    case Allocate(kind, len) => exists m :: AllocateStep(c, m, c', kind, len)
    case StoreField(o, i, w) =>
      o in c.s.objs && c.s.IsField(o, i) && c.s.SoundWord(w) && c' == c.(s := c.s.(mem := c.s.mem[i := w]))
    case StoreRaw(o, i, w) => RawWord(c.s, o, i) && c' == c.(s := c.s.(mem := c.s.mem[i := w]))
    case CopyObject(o, x) =>
      o in c.s.objs && x in c.s.objs && c.s.Header(o) == c.s.Header(x) && c' == c.(s := Overwritten(c.s, o, x))
    case GrowStack(ws) =>
      && (forall i :: 0 <= i < |ws| ==> c.s.SoundWord(ws[i]))
      && |c.a.stack| > 0 && c.s.SoundWord(c.a.stack[0]) && c' == c.(a := Grown(c.a, ws))
    case ShrinkStack(n) => Shrinkable(c.a, n) && c' == c.(a := Shrunk(c.a, n))
    case StoreRoot(sl, w) => Assignable(c.a, sl) && c.s.SoundWord(w) && c' == c.(a := Assigned(c.a, sl, w))
    case Push(sl) =>
      Assignable(c.a, sl) && c.s.SoundWord(c.a.Load(sl)) && |c.a.extra| < MAX_EXTRA_ROOTS_NUMBER
      && c' == c.(a := c.a.(extra := c.a.extra + [sl]))
    case Pop => |c.a.extra| > 0 && c' == c.(a := c.a.(extra := c.a.extra[..|c.a.extra| - 1]))
  }

  /** The first configuration: an empty heap, and root words that are no addresses in it. */
  ghost predicate Initial(c: Config) {
    && c.s.objs == [] && c.s.current == 0 && Basics(c.s.begin, c.s.mem) && |c.s.mem| == MINIMUM_HEAP_CAPACITY
    && c.a.WellFormed() && c.a.extra == []
    && (forall i :: 0 <= i < |c.a.stack| ==> Outside(c.s.begin, |c.s.mem|, c.a.stack[i]))
    && (forall i :: 0 <= i < |c.a.statics| ==> Outside(c.s.begin, |c.s.mem|, c.a.statics[i]))
  }

  ghost predicate Run(cs: seq<Config>, ops: seq<Op>) {
    && |cs| == |ops| + 1 && Initial(cs[0])
    && forall i :: 0 <= i < |ops| ==> Step(cs[i], ops[i], cs[i + 1])
  }

  /** RootsSound, area by area. */
  ghost predicate SlotsSound(s: Snapshot, a: Areas) {
    && a.WellFormed()
    && (forall i :: 1 <= i < |a.stack| ==> s.SoundWord(a.stack[i]))
    && (forall i :: 0 <= i < |a.statics| - 1 ==> s.SoundWord(a.statics[i]))
    && (forall k :: 0 <= k < |a.extra| ==> s.SoundWord(a.Load(a.extra[k])))
    && (forall k :: 0 <= k < |a.extra| ==> a.extra[k] != StackSlot(0) && a.extra[k] != StaticSlot(|a.statics| - 1))
    && !s.InRange(a.stack[|a.stack| - 1])
  }

  lemma SoundSlots(s: Snapshot, a: Areas)
    requires a.WellFormed()
    ensures SlotsSound(s, a) <==> RootsSound(s, a)
  {
    hide Snapshot.SoundWord, Snapshot.InRange, Areas.Scanned;
    ScannedParts(a);
    var x, y := |a.stack| - 2, |a.extra|;
    if SlotsSound(s, a) {
      forall i | 0 <= i < |a.Scanned()| ensures s.SoundWord(a.Scanned()[i]) {
        if i < x {
          assert a.Scanned()[i + 1 - 1] == a.stack[i + 1];
        } else if i < x + y {
          assert a.Scanned()[x + (i - x)] == a.Load(a.extra[i - x]);
        } else {
          assert a.Scanned()[x + y + (i - x - y)] == a.statics[i - x - y];
        }
      }
    }
    if RootsSound(s, a) {
      forall i | 1 <= i < |a.stack| ensures s.SoundWord(a.stack[i]) {
        assert i < |a.stack| - 1 ==> a.Scanned()[i - 1] == a.stack[i];
      }
      forall k | 0 <= k < |a.extra| ensures s.SoundWord(a.Load(a.extra[k])) {
        assert a.Scanned()[x + k] == a.Load(a.extra[k]);
      }
      forall i | 0 <= i < |a.statics| - 1 ensures s.SoundWord(a.statics[i]) {
        assert a.Scanned()[x + y + i] == a.statics[i];
      }
    }
  }

  lemma InitialInvariant(c: Config)
    requires Initial(c)
    ensures Invariant(c)
  {
    SoundSlots(c.s, c.a);
  }

  /** A word stored into an object's contents keeps the heap sound, provided that a scanned field gets a sound word. */
  lemma StoreWordKeeps(s: Snapshot, o: int, i: int, w: Word)
    requires s.Sound() && o in s.objs && o + 2 <= i < o + s.Size(o) && 0 <= i < |s.mem|
    requires s.IsField(o, i) ==> s.SoundWord(w)
    ensures s.(mem := s.mem[i := w]).Sound()
  {
    hide HeaderAt;
    var t := s.(mem := s.mem[i := w]);
    if s.IsField(o, i) {
      SoundIsGood(s, w);
    }
    Shape(s, o);
    forall x | x in s.objs ensures t.Header(x) == s.Header(x) && t.Header(x + 1) == s.Header(x + 1) {
      Tiles(s, o, x);
      Tiles(s, x, o);
    }
    forall k | 0 <= k < |t.objs| ensures t.ObjectAt(k) {
      assert s.ObjectAt(k);
      Shape(s, s.objs[k]);
    }
    forall x, j | x in t.objs && t.IsField(x, j) ensures t.SoundWord(t.mem[j]) && t.GoodWord(t.mem[j]) {
      assert s.IsField(x, j);
      if j == i {
        Tiles(s, o, x);
        Tiles(s, x, o);
      }
    }
  }

  lemma FieldIsContent(s: Snapshot, o: int, i: int)
    requires s.IsField(o, i)
    ensures o + 2 <= i < o + s.Size(o) && 0 <= i < |s.mem|
  {
  }

  lemma SameChunkRoots(s: Snapshot, t: Snapshot, a: Areas)
    requires RootsSound(s, a)
    requires t.begin == s.begin && t.current == s.current && t.objs == s.objs && |t.mem| == |s.mem|
    ensures RootsSound(t, a)
  {
    hide HeaderAt, Areas.Scanned;
    forall v: Word ensures t.SoundWord(v) <==> s.SoundWord(v) {
    }
  }

  lemma CopyKeepsHeader(s: Snapshot, o: nat, x: nat, y: nat)
    requires s.Sound() && o in s.objs && x in s.objs && s.Header(o) == s.Header(x) && y in s.objs
    ensures var t := Overwritten(s, o, x); t.Header(y) == s.Header(y) && FlagsClear(t.Header(y + 1))
  {
    hide HeaderAt;
    Shape(s, o);
    Shape(s, y);
    Tiles(s, x, y);
    Tiles(s, y, x);
  }

  lemma CopyKeepsField(s: Snapshot, o: nat, x: nat, y: nat, j: int)
    requires s.Sound() && o in s.objs && x in s.objs && s.Header(o) == s.Header(x) && y in s.objs && s.IsField(y, j)
    ensures var t := Overwritten(s, o, x); s.SoundWord(t.mem[j]) && s.GoodWord(t.mem[j])
  {
    hide HeaderAt;
    Shape(s, o);
    Tiles(s, x, y);
    Tiles(s, y, x);
    if y == x {
      assert s.IsField(o, o + (j - x));
      assert OverwrittenWord(s, o, x, j) == s.mem[o + (j - x)];
    }
  }

  /** Copying a whole object, stale forward address included, over one of the same kind and length keeps the heap
      sound. */
  lemma CopyKeeps(s: Snapshot, o: nat, x: nat)
    requires s.Sound() && o in s.objs && x in s.objs && s.Header(o) == s.Header(x)
    ensures Overwritten(s, o, x).Sound()
  {
    hide HeaderAt, OverwrittenWord;
    var t := Overwritten(s, o, x);
    forall y | y in s.objs ensures t.Header(y) == s.Header(y) && FlagsClear(t.Header(y + 1)) {
      CopyKeepsHeader(s, o, x, y);
    }
    forall k | 0 <= k < |t.objs| ensures t.ObjectAt(k) {
      assert s.ObjectAt(k);
      assert t.Header(s.objs[k]) == s.Header(s.objs[k]);
    }
    forall y, j | y in t.objs && t.IsField(y, j) ensures t.SoundWord(t.mem[j]) && t.GoodWord(t.mem[j]) {
      CopyKeepsField(s, o, x, y, j);
    }
  }

  lemma RenamedLoads(a: Areas, b: Areas, d: int)
    requires a.WellFormed() && b.statics == a.statics && b.locals == a.locals && b.extra == RenamedAll(a.extra, d)
    requires forall k :: 0 <= k < |a.extra| && a.extra[k].StackSlot? ==>
               0 < a.extra[k].i + d < |b.stack| && b.stack[a.extra[k].i + d] == a.stack[a.extra[k].i]
    ensures forall k :: 0 <= k < |b.extra| ==>
              b.InBounds(b.extra[k]) && b.Load(b.extra[k]) == a.Load(a.extra[k]) && b.extra[k] != StackSlot(0)
              && (a.extra[k] != StaticSlot(|a.statics| - 1) ==> b.extra[k] != StaticSlot(|b.statics| - 1))
  {
    forall k | 0 <= k < |b.extra|
      ensures b.InBounds(b.extra[k]) && b.Load(b.extra[k]) == a.Load(a.extra[k]) && b.extra[k] != StackSlot(0)
      ensures a.extra[k] != StaticSlot(|a.statics| - 1) ==> b.extra[k] != StaticSlot(|b.statics| - 1)
    {
      assert a.InBounds(a.extra[k]) && b.extra[k] == Renamed(a.extra[k], d);
    }
  }

  lemma GrowKeeps(s: Snapshot, a: Areas, ws: seq<Word>)
    requires RootsSound(s, a) && (forall i :: 0 <= i < |ws| ==> s.SoundWord(ws[i])) && s.SoundWord(a.stack[0])
    ensures RootsSound(s, Grown(a, ws))
  {
    hide Snapshot.SoundWord, Snapshot.InRange, RootsSound;
    RootsWellFormed(s, a);
    SoundSlots(s, a);
    var b := Grown(a, ws);
    forall k | 0 <= k < |a.extra| && a.extra[k].StackSlot?
      ensures 0 < a.extra[k].i + |ws| < |b.stack| && b.stack[a.extra[k].i + |ws|] == a.stack[a.extra[k].i]
    {
      assert a.InBounds(a.extra[k]) && a.extra[k] != StackSlot(0);
    }
    RenamedLoads(a, b, |ws|);
    SoundSlots(s, b);
  }

  lemma ShrinkKeeps(s: Snapshot, a: Areas, n: nat)
    requires RootsSound(s, a) && Shrinkable(a, n)
    ensures RootsSound(s, Shrunk(a, n))
  {
    hide Snapshot.SoundWord, Snapshot.InRange, RootsSound;
    RootsWellFormed(s, a);
    SoundSlots(s, a);
    var b := Shrunk(a, n);
    forall k | 0 <= k < |a.extra| && a.extra[k].StackSlot?
      ensures 0 < a.extra[k].i - n < |b.stack| && b.stack[a.extra[k].i - n] == a.stack[a.extra[k].i]
    {
      assert a.InBounds(a.extra[k]);
    }
    RenamedLoads(a, b, -(n as int));
    SoundSlots(s, b);
  }

  lemma StoreRootKeeps(s: Snapshot, a: Areas, sl: Slot, w: Word)
    requires RootsSound(s, a) && Assignable(a, sl) && s.SoundWord(w)
    ensures RootsSound(s, Assigned(a, sl, w))
  {
    hide Snapshot.SoundWord, Snapshot.InRange, RootsSound;
    RootsWellFormed(s, a);
    SoundSlots(s, a);
    var b := Assigned(a, sl, w);
    forall k | 0 <= k < |b.extra| ensures b.InBounds(b.extra[k]) && s.SoundWord(b.Load(b.extra[k])) {
      assert a.InBounds(a.extra[k]);
      assert b.extra[k] != sl ==> b.Load(b.extra[k]) == a.Load(a.extra[k]);
    }
    SoundSlots(s, b);
  }

  lemma PushKeeps(s: Snapshot, a: Areas, sl: Slot)
    requires RootsSound(s, a) && Assignable(a, sl) && s.SoundWord(a.Load(sl)) && |a.extra| < MAX_EXTRA_ROOTS_NUMBER
    ensures RootsSound(s, a.(extra := a.extra + [sl]))
  {
    hide Snapshot.SoundWord, Snapshot.InRange, RootsSound;
    RootsWellFormed(s, a);
    SoundSlots(s, a);
    var b := a.(extra := a.extra + [sl]);
    forall k | 0 <= k < |b.extra|
      ensures b.InBounds(b.extra[k]) && s.SoundWord(b.Load(b.extra[k]))
      ensures b.extra[k] != StackSlot(0) && b.extra[k] != StaticSlot(|b.statics| - 1)
    {
      if k < |a.extra| {
        assert b.extra[k] == a.extra[k] && a.InBounds(a.extra[k]);
      }
    }
    SoundSlots(s, b);
  }

  lemma PopKeeps(s: Snapshot, a: Areas)
    requires RootsSound(s, a) && |a.extra| > 0
    ensures RootsSound(s, a.(extra := a.extra[..|a.extra| - 1]))
  {
    hide Snapshot.SoundWord, Snapshot.InRange, RootsSound;
    RootsWellFormed(s, a);
    SoundSlots(s, a);
    var b := a.(extra := a.extra[..|a.extra| - 1]);
    forall k | 0 <= k < |b.extra| ensures b.InBounds(b.extra[k]) && s.SoundWord(b.Load(b.extra[k])) {
      assert b.extra[k] == a.extra[k] && a.InBounds(a.extra[k]);
    }
    SoundSlots(s, b);
  }

  lemma CollectKeeps(c: Config, c': Config, additional: nat)
    requires Invariant(c) && CollectStep(c, c', additional)
    ensures Invariant(c') && |c.s.mem| <= |c'.s.mem| && c'.s.current + additional <= |c'.s.mem|
  {
    hide Collected, NextSize, RootsSound, Snapshot.Sound, RootsGood, NoStrayWords;
    SoundRootsCollectable(c.s, c.a, c'.s.begin, additional);
    CollectedSound(c.s, c.a, c'.s, c'.a);
    RootsSoundAfterCollection(c.s, c.a, c'.s, c'.a);
    RoomAfterCollection(c.s, c.a, c'.s, c'.a, additional);
  }

  /** An allocation always finds room, after a collection if need be. */
  lemma AllocateKeeps(c: Config, m: Config, c': Config, kind: Kind, len: nat)
    requires Invariant(c) && AllocateStep(c, m, c', kind, len)
    ensures Invariant(m) && Fits(m.s, kind, len) && Invariant(c') && |c.s.mem| <= |c'.s.mem|
  {
    hide CollectStep, RootsSound, Snapshot.Sound;
    if !Fits(c.s, kind, len) {
      CollectKeeps(c, m, ObjectWords(kind, len));
    }
    ExtendedSound(m.s, kind, len);
    RootsSoundAfterAllocation(m.s, m.a, kind, len);
  }

  /** Every operation keeps the invariant, and the chunk never shrinks. */
  lemma StepKeepsInvariant(c: Config, op: Op, c': Config)
    requires Invariant(c) && Step(c, op, c')
    ensures Invariant(c') && |c.s.mem| <= |c'.s.mem|
  {
    hide CollectStep, AllocateStep, RootsSound, Snapshot.Sound, Assigned;
    match op
    case Collect(n) => CollectKeeps(c, c', n);
    case Allocate(kind, len) =>
      var m :| AllocateStep(c, m, c', kind, len);
      AllocateKeeps(c, m, c', kind, len);
    case StoreField(o, i, w) =>
      FieldIsContent(c.s, o, i);
      StoreWordKeeps(c.s, o, i, w);
      SameChunkRoots(c.s, c'.s, c.a);
    case StoreRaw(o, i, w) =>
      StoreWordKeeps(c.s, o, i, w);
      SameChunkRoots(c.s, c'.s, c.a);
    case CopyObject(o, x) =>
      CopyKeeps(c.s, o, x);
      SameChunkRoots(c.s, c'.s, c.a);
    case GrowStack(ws) =>
      RootsWellFormed(c.s, c.a);
      GrowKeeps(c.s, c.a, ws);
    case ShrinkStack(n) => ShrinkKeeps(c.s, c.a, n);
    case StoreRoot(sl, w) => StoreRootKeeps(c.s, c.a, sl, w);
    case Push(sl) => PushKeeps(c.s, c.a, sl);
    case Pop => PopKeeps(c.s, c.a);
  }

  /** Over every run the heap stays a concatenation of whole objects with clear flags, in which every
      word that could be taken for a pointer is one, and the chunk never shrinks. */
  lemma {:induction false} RunsAreSafe(cs: seq<Config>, ops: seq<Op>, i: nat)
    requires Run(cs, ops) && i < |cs|
    ensures Invariant(cs[i]) && |cs[0].s.mem| <= |cs[i].s.mem|
  {
    hide Step, Invariant;
    if i == 0 {
      InitialInvariant(cs[0]);
    } else {
      RunsAreSafe(cs, ops, i - 1);
      assert Step(cs[i - 1], ops[i - 1], cs[i - 1 + 1]);
      StepKeepsInvariant(cs[i - 1], ops[i - 1], cs[i]);
    }
  }
}
