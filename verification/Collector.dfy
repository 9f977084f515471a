/** The mark-compact collector: one heap chunk, the root areas, and the operations on them. */
module Collector {
  import opened Words
  import opened Layout
  import opened Marking
  import opened Compaction
  import opened Survival
  import opened Roots
  import opened Collection
  import opened Allocation
  import opened Construction

  class Heap {
    /** Address of the first word of the chunk. */
    var begin: nat
    /** Words in use, so that heap.current is begin + 8 * current. */
    var current: nat
    /** All words of the chunk; heap.end is begin + 8 * mem.Length. */
    var mem: array<Word>
    /** Offsets of the object headers, in address order. */
    ghost var objs: seq<nat>

    /** The Lama stack, from the word at __gc_stack_top to the word at __gc_stack_bottom. */
    var stack: array<Word>
    /** The static area, from __start_custom_data to the word at __stop_custom_data. */
    var statics: array<Word>
    /** Words of the runtime's own frames that extra roots may name. */
    var locals: array<Word>
    /** The extra-root pool. */
    var roots: array<Slot>
    var currentFree: nat

    /** __init: an empty heap of the minimal size at the address the system provides. */
    constructor (address: nat, stack: array<Word>, statics: array<Word>, locals: array<Word>)
      requires 0 < address && address % 8 == 0 && address + 8 * MINIMUM_HEAP_CAPACITY < MODULUS
      requires 2 <= stack.Length && 1 <= statics.Length
      requires stack != statics && stack != locals && statics != locals
      ensures this.stack == stack && this.statics == statics && this.locals == locals
      ensures Separate() && Snap().Sound() && objs == [] && current == 0 && currentFree == 0
      ensures begin == address && mem.Length == MINIMUM_HEAP_CAPACITY && fresh(mem)
    {
      begin, current, objs := address, 0, [];
      mem := new Word[MINIMUM_HEAP_CAPACITY](_ => 0);
      this.stack, this.statics, this.locals := stack, statics, locals;
      roots := new Slot[MAX_EXTRA_ROOTS_NUMBER](_ => LocalSlot(0));
      currentFree := 0;
    }

    ghost function RootAreas(): Areas
      reads this, stack, statics, locals, roots
    {
      Areas(stack[..], statics[..], locals[..], if currentFree <= roots.Length then roots[..currentFree] else [])
    }

    ghost predicate Separate()
      reads this, stack, statics, locals, roots
    {
      && roots.Length == MAX_EXTRA_ROOTS_NUMBER && currentFree <= MAX_EXTRA_ROOTS_NUMBER
      && mem != stack && mem != statics && mem != locals
      && stack != statics && stack != locals && statics != locals
      && RootAreas().WellFormed()
    }

    ghost function Snap(): Snapshot
      reads this, mem
    {
      Snapshot(begin, current, objs, mem[..])
    }

    /** is_valid_heap_pointer */
    predicate IsValidHeapPointer(p: Word)
      reads this
    {
      !Unboxed(p) && begin <= p <= begin + 8 * current
    }

    /** TO_DATA: offset of the header of a content pointer. */
    function HeaderOf(obj: Word): int
      reads this
    {
      HeaderAt(begin, obj)
    }

    method QueueEnqueue(tail: nat, obj: Word) returns (next: nat)
      requires Snap().Parses() && tail in objs && Snap().InRange(obj) && Snap().GoodWord(obj)
      requires 0 <= HeaderOf(obj) && HeaderOf(obj) + 1 < mem.Length && tail + 1 < mem.Length && obj % 4 == 0
      modifies mem
      ensures mem[..] == EnqueueAt(old(mem[..]), tail, HeaderOf(obj), obj)
      ensures next == tail + old(Snap().Size(tail))
    {
      hide SetForwardAddress, MakeEnqueued, ForwardAddress, MarkBit, EnqueuedBit, Snapshot.Parses;
      ghost var s := Snap();
      NotForwardWord(s, tail, tail);
      Shape(s, tail);
      mem[tail + 1] := SetForwardAddress(mem[tail + 1], obj);
      var o := HeaderOf(obj);
      mem[o + 1] := MakeEnqueued(mem[o + 1]);
      assert o + 1 != tail;
      next := tail + SizeWords(mem[tail]);
    }

    method QueueDequeue(head: nat) returns (obj: Word, next: nat)
      requires Snap().Parses() && head in objs && head + 1 < mem.Length
      requires var a := ForwardAddress(mem[head + 1]); Snap().InRange(a) && Snap().GoodWord(a)
      requires var o := HeaderOf(ForwardAddress(mem[head + 1])); 0 <= o && o + 1 < mem.Length
      modifies mem
      ensures obj == ForwardAddress(old(mem[head + 1]))
      ensures mem[..] == old(mem[..])[HeaderOf(obj) + 1 := MakeDequeued(old(mem[..])[HeaderOf(obj) + 1])]
      ensures next == head + old(Snap().Size(head))
    {
      hide MakeDequeued, ForwardAddress, MarkBit, EnqueuedBit, Snapshot.Parses;
      ghost var s := Snap();
      NotForwardWord(s, head, head);
      Shape(s, head);
      obj := ForwardAddress(mem[head + 1]);
      var o := HeaderOf(obj);
      mem[o + 1] := MakeDequeued(mem[o + 1]);
      assert o + 1 != head;
      next := head + SizeWords(mem[head]);
    }

    /** ptr_field_begin_iterator */
    method FirstPointerField(o: nat) returns (i: nat)
      requires Snap().Parses() && o in objs
      ensures ValidHeader(Snap().Header(o)) && o + FirstField(Snap().Header(o)) <= i
      ensures forall x :: Snap().IsField(o, x) && 0 <= x < i ==> Unboxed(Snap().mem[x])
      ensures i < o + Snap().Size(o) ==> i < mem.Length && !Unboxed(mem[i])
    {
      Shape(Snap(), o);
      i := o + FirstField(mem[o]);
      if i >= o + SizeWords(mem[o]) || !Unboxed(mem[i]) {
        return;
      }
      i := NextPointerField(o, i);
    }

    /** obj_next_ptr_field_iterator */
    method NextPointerField(o: nat, from: nat) returns (i: nat)
      requires Snap().Parses() && o in objs
      ensures from < i
      ensures forall x :: Snap().IsField(o, x) && from + 1 <= x < i ==> Unboxed(Snap().mem[x])
      ensures i < o + Snap().Size(o) ==> i < mem.Length && !Unboxed(mem[i])
    {
      Shape(Snap(), o);
      i := from + 1;
      while i < o + SizeWords(mem[o]) && Unboxed(mem[i])
        invariant from < i
        invariant forall x :: Snap().IsField(o, x) && from < x < i ==> Unboxed(mem[x])
      {
        i := i + 1;
      }
    }

    /** One pointer field of an object being scanned: its target is enqueued unless it is known. */
    method VisitField(header: nat, i: nat, tail: nat, ghost w: Walk) returns (qTail: nat, ghost w': Walk)
      requires Snap() == w.s.(mem := mem[..]) && w.Scanning(mem[..], header, i)
      requires ValidHeader(w.s.Header(header))
      requires header + FirstField(w.s.Header(header)) <= i < header + w.s.Size(header) && i < mem.Length
      requires tail == Position(w.s, |w.hist|)
      modifies mem
      ensures Snap() == w.s.(mem := mem[..]) && w'.Scanning(mem[..], header, i + 1)
      ensures w'.s == w.s && w'.root == w.root && w'.before == w.before && w'.head == w.head
      ensures qTail == Position(w'.s, |w'.hist|)
    {
      hide Walk.Queue, Walk.Started, Walk.Frontier, Walk.Scanned, Walk.OnlyReached, Walk.Scanning, Snapshot.Parses;
      hide SameButForward, MarkBit, EnqueuedBit, EnqueueAt;
      w', qTail := w, tail;
      ScanFacts(w, mem[..], header, i);
      FieldFacts(w, mem[..], header, i);
      var v := mem[i];
      if IsValidHeapPointer(v) && !MarkBit(mem[HeaderOf(v) + 1]) && !EnqueuedBit(mem[HeaderOf(v) + 1]) {
        PushWalk(w, mem[..], header, i);
        NextPosition(w.s, |w.hist|);
        SlotUnchanged(w, mem[..], header, i);
        qTail := QueueEnqueue(tail, v);
        w' := w.Push(w.s.Target(v));
      } else {
        KnownField(w, mem[..], header, i);
      }
    }

    /** The loop of mark over the fields of one freshly marked object. */
    method ScanFields(header: nat, tail: nat, ghost start: Walk) returns (qTail: nat, ghost w: Walk)
      requires Snap() == start.s.(mem := mem[..])
      requires start.Started() && start.Queue(mem[..]) && header in start.done
      requires start.Frontier({header}) && start.OnlyReached()
      requires tail == Position(start.s, |start.hist|)
      modifies mem
      ensures w.Between(mem[..]) && qTail == Position(w.s, |w.hist|)
      ensures w.s == start.s && w.root == start.root && w.before == start.before && w.head == start.head
    {
      hide Walk.Queue, Walk.Started, Walk.Frontier, Walk.Scanned, Walk.OnlyReached, Walk.Scanning, Walk.Between;
      hide Snapshot.Parses, SameButForward, Position, Snapshot.IsField;
      w, qTail := start, tail;
      ScanBegins(w, mem[..], header);
      ScanFacts(w, mem[..], header, 0);
      var i := FirstPointerField(header);
      SkipUnboxed(w, mem[..], header, 0, i);
      while i < header + SizeWords(mem[header])
        invariant w.Scanning(mem[..], header, i)
        invariant w.s == start.s && w.root == start.root && w.before == start.before && w.head == start.head
        invariant qTail == Position(w.s, |w.hist|)
        invariant header < mem.Length && ValidHeader(mem[header]) && mem[header] == w.s.Header(header)
        invariant header + FirstField(mem[header]) <= i
        invariant Snap() == w.s.(mem := mem[..])
        decreases header + SizeWords(w.s.Header(header)) - i
      {
        ScanFacts(w, mem[..], header, i);
        qTail, w := VisitField(header, i, qTail, w);
        ScanFacts(w, mem[..], header, i + 1);
        ghost var from := i;
        i := NextPointerField(header, i);
        SkipUnboxed(w, mem[..], header, from + 1, i);
      }
      ScanFacts(w, mem[..], header, i);
      ScanDone(w, mem[..], header, i);
    }

    /** The head of the queue is taken off and marked. */
    method MarkNext(head: nat, ghost w: Walk) returns (header: nat, qHead: nat)
      requires Snap() == w.s.(mem := mem[..]) && w.Between(mem[..])
      requires w.head < |w.hist| && head == Position(w.s, w.head)
      modifies mem
      ensures Snap() == w.s.(mem := mem[..]) && qHead == Position(w.s, w.Pop().head)
      ensures header in w.Pop().done && w.Pop().Known() == w.Known()
      ensures w.Pop().Started() && w.Pop().Queue(mem[..]) && w.Pop().Frontier({header}) && w.Pop().OnlyReached()
    {
      hide Walk.Queue, Walk.Started, Walk.Frontier, Walk.OnlyReached, Walk.Between, Walk.Known;
      hide SameButForward, Snapshot.Parses;
      ghost var m := mem[..];
      BetweenFacts(w, m);
      PopWalk(w, m);
      NextPosition(w.s, w.head);
      AlignedAddress(w.s.begin, w.hist[w.head]);
      var obj;
      obj, qHead := QueueDequeue(head);
      header := HeaderOf(obj);
      assert header == w.hist[w.head];
      mem[header + 1] := SetMarkBit(mem[header + 1]);
      assert mem[..] == DequeueMark(m, header);
    }

    /** mark: breadth-first marking of everything reachable from one word, with the queue held
        in the forward words of the heap's own objects. */
    method Mark(obj: Word)
      requires MarkState(Snap()) && Snap().GoodWord(obj)
      modifies mem
      ensures SameButForward(old(Snap()), mem[..])
      ensures MarkState(Snap())
      ensures Marked(Snap()) == old(Marked(Snap())) + old(Snap().Reachable(Snap().RootOf(obj)))
    {
      hide Walk.Queue, Walk.Started, Walk.Frontier, Walk.OnlyReached, Walk.Between, Walk.Known;
      hide SameButForward, MarkState, Marked, Snapshot.Parses, Position;
      ghost var s := Snap();
      MarkStateFacts(s, obj);
      if !IsValidHeapPointer(obj) || MarkBit(mem[HeaderOf(obj) + 1]) {
        return;
      }
      ghost var root := HeaderOf(obj);
      var qHead, qTail := 0, 0;
      WalkBegins(s, root);
      FirstPositions(s);
      qTail := QueueEnqueue(qTail, obj);
      ghost var w := Walk(s, root, Marked(s), [], 0, {}, {}).Push(root);
      while qHead != qTail
        invariant w.s == s && w.root == root && Snap() == s.(mem := mem[..]) && w.Between(mem[..])
        invariant qHead == Position(s, w.head) && qTail == Position(s, |w.hist|)
        decreases |s.objs| - w.head
      {
        BetweenFacts(w, mem[..]);
        var header;
        header, qHead := MarkNext(qHead, w);
        qTail, w := ScanFields(header, qTail, w.Pop());
      }
      BetweenFacts(w, mem[..]);
      WalkEnds(w, mem[..]);
    }

    method LoadSlot(sl: Slot) returns (v: Word)
      requires RootAreas().InBounds(sl)
      ensures v == RootAreas().Load(sl)
    {
      match sl
      case StackSlot(i) => v := stack[i];
      case StaticSlot(i) => v := statics[i];
      case LocalSlot(i) => v := locals[i];
    }

    /** gc_root_scan_stack */
    method ScanStack()
      requires Separate() && MarkState(Snap()) && Snap().GoodWords(RootAreas().StackWords())
      modifies mem
      ensures MarkedFrom(old(Snap()), mem[..], RootAreas().StackWords())
    {
      ghost var s, words := Snap(), RootAreas().StackWords();
      assert s.Parses() && s.PointersGood();
      hide MarkedFrom, MarkState, Snapshot.GoodWord, Snapshot.Parses, Snapshot.PointersGood;
      MarkedFromNothing(s);
      var p := 1;
      while p < stack.Length - 1
        invariant 1 <= p <= stack.Length - 1
        invariant MarkedFrom(s, mem[..], words[..p - 1])
      {
        ghost var m := mem[..];
        assert words[p - 1] == stack[p];
        MarkedFacts(s, m, words[..p - 1], stack[p]);
        Mark(stack[p]);
        MarkedOneMore(s, m, words[..p - 1], stack[p], mem[..]);
        assert words[..p] == words[..p - 1] + [stack[p]];
        p := p + 1;
      }
      assert words[..p - 1] == words;
    }

    /** scan_extra_roots */
    method ScanExtraRoots()
      requires Separate() && MarkState(Snap()) && Snap().GoodWords(RootAreas().ExtraWords(currentFree))
      modifies mem
      ensures MarkedFrom(old(Snap()), mem[..], RootAreas().ExtraWords(currentFree))
    {
      ghost var s, areas := Snap(), RootAreas();
      assert s.Parses() && s.PointersGood();
      hide MarkedFrom, MarkState, Snapshot.GoodWord, Snapshot.Parses, Snapshot.PointersGood;
      MarkedFromNothing(s);
      var i := 0;
      while i < currentFree
        invariant 0 <= i <= currentFree
        invariant MarkedFrom(s, mem[..], areas.ExtraWords(i))
      {
        ghost var m := mem[..];
        assert areas.extra[i] == roots[i];
        var v := LoadSlot(roots[i]);
        ExtraWordsAt(areas, currentFree, i);
        MarkedFacts(s, m, areas.ExtraWords(i), v);
        Mark(v);
        MarkedOneMore(s, m, areas.ExtraWords(i), v, mem[..]);
        i := i + 1;
      }
    }

    /** scan_global_area */
    method ScanGlobalArea()
      requires Separate() && MarkState(Snap()) && Snap().GoodWords(RootAreas().StaticWords())
      modifies mem
      ensures MarkedFrom(old(Snap()), mem[..], RootAreas().StaticWords())
    {
      ghost var s, words := Snap(), RootAreas().StaticWords();
      assert s.Parses() && s.PointersGood();
      hide MarkedFrom, MarkState, Snapshot.GoodWord, Snapshot.Parses, Snapshot.PointersGood;
      MarkedFromNothing(s);
      var p := 0;
      while p < statics.Length - 1
        invariant 0 <= p <= statics.Length - 1
        invariant MarkedFrom(s, mem[..], words[..p])
      {
        ghost var m := mem[..];
        assert words[p] == statics[p];
        MarkedFacts(s, m, words[..p], statics[p]);
        Mark(statics[p]);
        MarkedOneMore(s, m, words[..p], statics[p], mem[..]);
        assert words[..p + 1] == words[..p] + [statics[p]];
        p := p + 1;
      }
      assert words[..p] == words;
    }

    /** mark_phase: afterwards exactly the objects reachable from the roots are marked. */
    method MarkPhase()
      requires Separate() && Snap().Valid() && Snap().GoodWords(RootAreas().Scanned())
      modifies mem
      ensures SameButForward(old(Snap()), mem[..]) && MarkState(Snap())
      ensures Marked(Snap()) == old(Snap().Reachable(Snap().RootsOf(RootAreas().Scanned())))
    {
      ghost var s, areas := Snap(), RootAreas();
      ValidIsUnmarked(s);
      hide MarkedFrom, MarkState, Marked, Snapshot.Parses, Snapshot.PointersGood, Snapshot.AllFlagsClear;
      ghost var a, b, c := areas.StackWords(), areas.ExtraWords(currentFree), areas.StaticWords();
      GoodParts(s, a, b, c);
      ScanStack();
      ghost var m := mem[..];
      MarkedWords(s, m, a, b);
      ScanExtraRoots();
      MarkedConcat(s, m, a, mem[..], b);
      m := mem[..];
      MarkedWords(s, m, a + b, c);
      ScanGlobalArea();
      MarkedConcat(s, m, a + b, mem[..], c);
      MarkedResult(s, mem[..], a + b + c);
    }

    /** compute_locations: every marked object learns the address its header will have. */
    method ComputeLocations() returns (live: nat)
      requires Snap().Parses()
      modifies mem
      ensures SameButForward(old(Snap()), mem[..]) && SameFlags(old(Snap()), mem[..])
      ensures Located(old(Snap()), old(Marked(Snap())), mem[..], |objs|)
      ensures live == old(LiveSize(Snap(), Marked(Snap())))
    {
      hide SameButForward, SameFlags, Located, Snapshot.Parses, Marked, MarkBit, ForwardAddress, SetForwardAddress;
      ghost var s, marked, k := Snap(), Marked(Snap()), 0;
      NothingLocated(s);
      var free, it := 0, 0;
      FirstPosition(s);
      while it < current
        invariant k <= |objs| && it == Position(s, k) && free == LiveBefore(s, marked, k)
        invariant mem.Length == |s.mem| && SameButForward(s, mem[..]) && SameFlags(s, mem[..])
        invariant Located(s, marked, mem[..], k)
        decreases current - it
      {
        BeforeEnd(s, k);
        LocateFacts(s, mem[..], k);
        if MarkBit(mem[it + 1]) {
          LocateMarked(s, marked, mem[..], k, begin + 8 * free);
          mem[it + 1] := SetForwardAddress(mem[it + 1], begin + 8 * free);
          LocateFacts(s, mem[..], k);
          free := free + SizeWords(mem[it]);
        } else {
          LocatedUnmarked(s, marked, mem[..], k);
        }
        it := it + SizeWords(mem[it]);
        k := k + 1;
      }
      AtEnd(s, k);
      live := free;
    }

    /** The state of the chunk while pointers are rewritten: a copy of the old chunk s, with the fields
        of marked objects before word `bound` redirected. */
    ghost predicate Rewriting(s: Snapshot, bound: int)
      reads this, mem
    {
      && current == s.current && objs == s.objs
      && Relocating(s, begin, mem.Length) && FixedBelow(s, Marked(s), begin, mem[..], bound)
    }

    /** The new address of a pointer into the old chunk, by offset arithmetic between the chunks. */
    method Redirect(oldBegin: nat, v: Word, ghost s: Snapshot, ghost bound: int) returns (w: Word)
      requires Rewriting(s, bound) && oldBegin == s.begin
      requires s.InRange(v) && s.GoodWord(v) && s.Target(v) in Marked(s)
      ensures w == FixWord(s, Marked(s), begin, v)
    {
      hide HeaderAt;
      RedirectedAddress(s, begin, mem[..], bound, v);
      w := NewAddress(begin, oldBegin, mem[HeaderAt(oldBegin, v) + 1]);
    }

    /** update_references, one pointer field of a marked object. */
    method FixOneField(oldBegin: nat, oldCurrent: nat, o: nat, i: nat, ghost s: Snapshot)
      requires Rewriting(s, i) && oldBegin == s.begin && oldCurrent == s.current && o in s.objs && o in Marked(s)
      requires s.IsField(o, i) && i < mem.Length && !Unboxed(mem[i])
      modifies mem
      ensures Rewriting(s, i + 1)
    {
      assert s.Parses();
      hide Relocating, FixedBelow, FixWord, Snapshot.Parses, Marked, Snapshot.IsField;
      FieldToFix(s, begin, mem[..], o, i);
      OwnFieldBounds(s, o, i);
      var v := mem[i];
      if v < oldBegin || v > oldBegin + 8 * oldCurrent {
        FixedForeign(s, Marked(s), begin, mem[..], i);
      } else {
        var w := Redirect(oldBegin, v, s, i);
        FixedField(s, Marked(s), begin, mem[..], o, i, w);
        mem[i] := w;
      }
    }

    /** update_references, the fields of one marked object. */
    method FixFields(oldBegin: nat, oldCurrent: nat, o: nat, ghost s: Snapshot)
      requires Rewriting(s, o) && oldBegin == s.begin && oldCurrent == s.current && o in s.objs && o in Marked(s)
      modifies mem
      ensures Rewriting(s, o + s.Size(o))
    {
      assert s.Parses();
      hide Relocating, FixedBelow, FixWord, Snapshot.Parses, SizeWords, Marked, Snapshot.IsField;
      CopyFacts(s, begin, mem[..], o, o);
      var i := FirstPointerField(o);
      FixedSkip(s, begin, mem[..], o, o, i);
      while i < o + SizeWords(mem[o])
        invariant o < mem.Length && ValidHeader(mem[o]) && mem[o] == s.Header(o)
        invariant o + FirstField(mem[o]) <= i
        invariant Rewriting(s, Least(i, o + s.Size(o)))
        invariant i < o + s.Size(o) ==> i < mem.Length && !Unboxed(mem[i])
        decreases o + SizeWords(s.Header(o)) - i
      {
        CopyFacts(s, begin, mem[..], i, o);
        OwnField(s, o, i);
        FixOneField(oldBegin, oldCurrent, o, i, s);
        CopyFacts(s, begin, mem[..], i + 1, o);
        ghost var from := i;
        i := NextPointerField(o, i);
        FixedSkip(s, begin, mem[..], o, from + 1, i);
      }
      CopyFacts(s, begin, mem[..], Least(i, o + s.Size(o)), o);
    }

    /** update_references, all objects. */
    method FixHeap(oldBegin: nat, oldCurrent: nat, ghost s: Snapshot)
      requires Rewriting(s, 0) && oldBegin == s.begin && oldCurrent == s.current
      modifies mem
      ensures Rewriting(s, s.current)
    {
      hide Relocating, FixedBelow, Snapshot.Parses, Marked, MarkBit, Byte, KindOf, ForwardAddress, HeaderAt;
      RelocatingFacts(s, begin, mem.Length);
      ghost var k := 0;
      FirstPosition(s);
      var it := 0;
      while it < current
        invariant k <= |objs| && it == Position(s, k) && Rewriting(s, it)
        decreases current - it
      {
        BeforeEnd(s, k);
        NextPosition(s, k);
        CopyFacts(s, begin, mem[..], it, it);
        if MarkBit(mem[it + 1]) {
          FixFields(oldBegin, oldCurrent, it, s);
        } else {
          FixedDead(s, begin, mem[..], it);
        }
        CopyFacts(s, begin, mem[..], it + s.Size(it), it);
        it := it + SizeWords(mem[it]);
        k := k + 1;
      }
      AtEnd(s, k);
    }

    /** scan_and_fix_region */
    method FixRegion(a: array<Word>, lo: nat, hi: nat, oldBegin: nat, oldCurrent: nat, ghost s: Snapshot)
      requires Rewriting(s, s.current) && oldBegin == s.begin && oldCurrent == s.current
      requires a != mem && lo <= hi <= a.Length
      requires forall i :: lo <= i < hi ==> FixReady(s, a[i])
      modifies a
      ensures forall i :: lo <= i < hi ==> Redirects(s, Marked(s), begin, old(a[i]), a[i])
      ensures forall i :: 0 <= i < a.Length && !(lo <= i < hi) ==> a[i] == old(a[i])
    {
      hide Relocating, FixedBelow, FixWord, Marked;
      var p := lo;
      while p < hi
        invariant lo <= p <= hi
        invariant forall i :: lo <= i < p ==> Redirects(s, Marked(s), begin, old(a[i]), a[i])
        invariant forall i :: 0 <= i < a.Length && !(lo <= i < p) ==> a[i] == old(a[i])
      {
        var v := a[p];
        assert FixReady(s, v);
        if !Unboxed(v) && oldBegin <= v <= oldBegin + 8 * oldCurrent {
          a[p] := Redirect(oldBegin, v, s, s.current);
        } else {
          Unredirected(s, Marked(s), begin, v);
        }
        p := p + 1;
      }
    }

    method StoreSlot(sl: Slot, w: Word)
      requires RootAreas().InBounds(sl) && stack != statics && stack != locals && statics != locals
      modifies stack, statics, locals
      ensures stack[..] == (if sl.StackSlot? then old(stack[..])[sl.i := w] else old(stack[..]))
      ensures statics[..] == (if sl.StaticSlot? then old(statics[..])[sl.i := w] else old(statics[..]))
      ensures locals[..] == (if sl.LocalSlot? then old(locals[..])[sl.i := w] else old(locals[..]))
    {
      match sl
      case StackSlot(i) => stack[i] := w;
      case StaticSlot(i) => statics[i] := w;
      case LocalSlot(i) => locals[i] := w;
    }

    /** scan_and_fix_region_roots, one registered slot: slots in [stack top, stack bottom) and in the
        static area, its end included, are left to the region scans. */
    method FixOneRoot(sl: Slot, oldBegin: nat, oldCurrent: nat, ghost s: Snapshot,
                      ghost before: seq<Word>, ghost extra: seq<Slot>)
      requires Separate() && Rewriting(s, s.current) && oldBegin == s.begin && oldCurrent == s.current
      requires RootAreas().InBounds(sl) && LocalsRedirected(s, Marked(s), begin, before, locals[..], extra)
      requires sl.LocalSlot? && sl.i < |before| ==> FixReady(s, before[sl.i])
      requires !s.InRange(stack[stack.Length - 1])
      modifies stack, statics, locals
      ensures stack[..] == old(stack[..]) && statics[..] == old(statics[..])
      ensures LocalsRedirected(s, Marked(s), begin, before, locals[..], extra + [sl])
    {
      hide Relocating, FixedBelow, FixWord, Marked, LocalsRedirected, Snapshot.GoodWord;
      var v := LoadSlot(sl);
      SameLength(s, Marked(s), begin, before, locals[..], extra);
      if Unboxed(v)
         || (sl.StackSlot? && sl.i < stack.Length - 1)
         || sl.StaticSlot?
         || !(oldBegin <= v <= oldBegin + 8 * oldCurrent)
      {
        LocalsKept(s, Marked(s), begin, mem.Length, before, locals[..], extra, sl);
      } else {
        assert sl.LocalSlot?;
        StillReady(s, Marked(s), begin, mem.Length, before, locals[..], extra, sl.i);
        var w := Redirect(oldBegin, v, s, s.current);
        LocalsStored(s, Marked(s), begin, before, locals[..], extra, sl.i, w);
        StoreSlot(sl, w);
      }
    }

    /** scan_and_fix_region_roots */
    method FixExtraRoots(oldBegin: nat, oldCurrent: nat, ghost s: Snapshot)
      requires Separate() && Rewriting(s, s.current) && oldBegin == s.begin && oldCurrent == s.current
      requires forall i :: 0 <= i < locals.Length && LocalSlot(i) in RootAreas().extra ==> FixReady(s, locals[i])
      requires !s.InRange(stack[stack.Length - 1])
      modifies stack, statics, locals
      ensures stack[..] == old(stack[..]) && statics[..] == old(statics[..])
      ensures LocalsRedirected(s, Marked(s), begin, old(locals[..]), locals[..], RootAreas().extra)
    {
      hide Relocating, FixedBelow, FixWord, Marked, LocalsRedirected, FixReady, Redirects;
      ghost var a := locals[..];
      ghost var extra := RootAreas().extra;
      NoLocalsYet(s, Marked(s), begin, a);
      assert extra[..0] == [];
      var i := 0;
      while i < currentFree
        invariant 0 <= i <= currentFree && Separate() && Rewriting(s, s.current)
        invariant stack[..] == old(stack[..]) && statics[..] == old(statics[..]) && locals.Length == |a|
        invariant LocalsRedirected(s, Marked(s), begin, a, locals[..], extra[..i])
      {
        assert extra[i] == roots[i] && RootAreas().InBounds(extra[i]);
        assert extra[..i + 1] == extra[..i] + [roots[i]];
        FixOneRoot(roots[i], oldBegin, oldCurrent, s, a, extra[..i]);
        i := i + 1;
      }
      assert extra[..i] == extra;
    }

    /** update_references: the fields of every marked object and every root slot. */
    method UpdateReferences(oldBegin: nat, oldCurrent: nat, ghost s: Snapshot)
      requires Separate() && Rewriting(s, 0) && oldBegin == s.begin && oldCurrent == s.current
      requires AreasReady(s, RootAreas())
      modifies mem, stack, statics, locals
      ensures Rewriting(s, s.current)
      ensures AreasRedirected(s, Marked(s), begin, old(RootAreas()), RootAreas())
    {
      hide Relocating, FixedBelow, FixWord, Marked, Snapshot.GoodWord, Snapshot.InRange;
      ghost var before := RootAreas();
      assert forall i :: 1 <= i < stack.Length ==> stack[i] == before.stack[i];
      assert forall i :: 0 <= i < statics.Length ==> statics[i] == before.statics[i];
      assert forall i :: 0 <= i < locals.Length ==> locals[i] == before.locals[i];
      FixHeap(oldBegin, oldCurrent, s);
      FixRegion(stack, 1, stack.Length, oldBegin, oldCurrent, s);
      assert StackRedirected(s, Marked(s), begin, before, RootAreas());
      RedirectedOnce(s, Marked(s), begin, mem.Length, before.stack[stack.Length - 1], stack[stack.Length - 1]);
      FixExtraRoots(oldBegin, oldCurrent, s);
      FixRegion(statics, 0, statics.Length - 1, oldBegin, oldCurrent, s);
    }

    /** The whole words of a memmove towards lower addresses. */
    method MoveWords(to: nat, from: nat, n: nat)
      requires to <= from && from + n <= mem.Length
      modifies mem
      ensures forall i :: 0 <= i < mem.Length ==> mem[i] == WordMoved(old(mem[..]), to, from, n, i)
    {
      forall i | 0 <= i < n {
        mem[to + i] := mem[from + i];
      }
      assert forall i :: 0 <= i < mem.Length && !(to <= i < to + n) ==> mem[i] == old(mem[i]);
      forall i | to <= i < to + n ensures mem[i] == old(mem[from + (i - to)]) {
        assert i == to + (i - to);
      }
    }

    /** memmove towards lower addresses. */
    method MoveBytes(to: nat, from: nat, bytes: nat)
      requires to <= from && from + (bytes + 7) / 8 <= mem.Length && to + (bytes + 7) / 8 <= mem.Length
      modifies mem
      ensures mem[..] == Memmove(old(mem[..]), to, from, bytes)
    {
      hide MergeWord, Memmove;
      WordsOfBytes(bytes);
      var full, rest := bytes / 8, bytes % 8;
      var tail := if rest > 0 then MergeWord(mem[from + full], mem[to + full], rest) else 0;
      MoveWords(to, from, full);
      if rest > 0 {
        mem[to + full] := tail;
      }
      MemmoveIs(old(mem[..]), to, from, bytes, full, rest, mem[..]);
    }

    /** physically_relocate, one marked object: it is copied to its new place and unmarked there. */
    method MoveObject(it: nat, to: nat, ghost s: Snapshot, ghost marked: set<int>, ghost m0: seq<Word>, ghost k: nat)
      requires s.Parses() && SameHeaders(s, m0) && Slid(s, marked, m0, mem[..], k)
      requires k < |s.objs| && it == s.objs[k] && s.objs[k] in marked && to == LiveBefore(s, marked, k)
      modifies mem
      ensures Slid(s, marked, m0, mem[..], k + 1)
    {
      hide Slid, Snapshot.Parses, SameHeaders, ResetMarkBit, Memmove, LiveBefore;
      SlideFacts(s, marked, m0, mem[..], k);
      SlideMarked(s, marked, m0, mem[..], k);
      MoveBytes(to, it, SizeBytes(mem[it]));
      mem[to + 1] := ResetMarkBit(mem[to + 1]);
    }

    /** physically_relocate: the in-place slide. */
    method PhysicallyRelocate(oldBegin: nat, ghost s: Snapshot)
      requires Rewriting(s, s.current) && oldBegin == s.begin
      modifies mem
      ensures Slid(s, Marked(s), old(mem[..]), mem[..], |s.objs|)
    {
      hide Relocating, FixedBelow, Snapshot.Parses, Marked, MarkBit, Slid, ForwardAddress, WordsBetween, LiveBefore,
        SameHeaders, SizeWords;
      RelocatingFacts(s, begin, mem.Length);
      ghost var m0, k := mem[..], 0;
      NothingSlid(s, Marked(s), m0);
      FirstPosition(s);
      var it := 0;
      while it < current
        invariant k <= |s.objs| && it == Position(s, k)
        invariant mem.Length == |m0| && Slid(s, Marked(s), m0, mem[..], k)
        decreases current - it
      {
        BeforeEnd(s, k);
        SlideTarget(s, begin, m0, mem[..], k);
        SlideFacts(s, Marked(s), m0, mem[..], k);
        var next := it + SizeWords(mem[it]);
        if MarkBit(mem[it + 1]) {
          MoveObject(it, WordsBetween(oldBegin, ForwardAddress(mem[it + 1])), s, Marked(s), m0, k);
        } else {
          SlideUnmarked(s, Marked(s), m0, mem[..], k);
        }
        it := next;
        k := k + 1;
      }
      AtEnd(s, k);
    }

    /** compact_phase. The new chunk is placed at `address`; when that is no room disjoint from the old
        chunk, mmap fails and the runtime exits. */
    method CompactPhase(additional: nat, address: nat) returns (ok: bool)
      requires Separate() && MarkState(Snap()) && AreasReady(Snap(), RootAreas())
      modifies this`begin, this`current, this`mem, this`objs, mem, stack, statics, locals
      ensures ok <==>
              ChunkFits(old(Snap()), address,
                  NextHeapSize(old(LiveSize(Snap(), Marked(Snap()))), additional, old(mem.Length)))
      ensures ok ==> Separate() && begin == address && fresh(mem)
      ensures ok ==> mem.Length == NextHeapSize(old(LiveSize(Snap(), Marked(Snap()))), additional, old(mem.Length))
      ensures ok ==> NewHeap(old(Snap()), old(Marked(Snap())), Snap())
      ensures ok ==> AreasRedirected(old(Snap()), old(Marked(Snap())), begin, old(RootAreas()), RootAreas())
      ensures ok ==> unchanged(this`stack, this`statics, this`locals, this`roots, this`currentFree)
    {
      hide MarkState, Marked, AreasReady, SameButForward, SameFlags, Located, Relocating, FixedBelow, Slid,
        NewHeap, AreasRedirected, NewObjs, LiveBefore, Snapshot.Parses, Byte, KindOf, ForwardAddress, HeaderAt, MarkBit;
      ghost var s1 := Snap();
      ghost var marked, areas := Marked(s1), RootAreas();
      ParsesWhenMarked(s1);
      var live := ComputeLocations();
      ghost var s2 := Snap();
      SameWidth(s1, mem[..]);
      var size := NextHeapSize(live, additional, mem.Length);
      if !(0 < address && address % 8 == 0 && address + 8 * size < MODULUS
           && (address + 8 * size <= begin || begin + 8 * mem.Length <= address))
      {
        return false;
      }
      ReadyToRewrite(s1, mem[..], address, size);
      SameReady(s1, mem[..], areas);
      var oldMem, oldBegin, oldCurrent := mem, begin, current;
      var chunk: array<Word> := new Word[size](_ => 0);
      forall i | 0 <= i < oldMem.Length {
        chunk[i] := oldMem[i];
      }
      mem, begin := chunk, address;
      assert RootAreas() == areas;
      FreshCopy(s2, marked, begin, mem[..]);
      UpdateReferences(oldBegin, oldCurrent, s2);
      ghost var m2 := mem[..];
      PhysicallyRelocate(oldBegin, s2);
      CompactionResult(s2, begin, m2, mem[..]);
      current := live;
      objs := NewObjs(s2, marked, |s2.objs|);
      SameLiveBefore(s1, s2.mem, marked, |s1.objs|);
      SameNewHeap(s1, s2.mem, marked, Snap());
      SameAreasRedirected(s1, s2.mem, marked, begin, areas, RootAreas());
      ok := true;
    }

    /** A garbage collection making room for `additional` words. */
    method Collect(additional: nat, address: nat) returns (ok: bool)
      requires Separate() && Snap().Valid() && Collectable(Snap(), RootAreas(), address, additional)
      modifies this`begin, this`current, this`mem, this`objs, mem, stack, statics, locals
      ensures ok <==> ChunkFits(old(Snap()), address, NextSize(old(Snap()), old(RootAreas()), additional))
      ensures ok ==> Separate() && begin == address && fresh(mem)
      ensures ok ==> mem.Length == NextSize(old(Snap()), old(RootAreas()), additional)
      ensures ok ==> Collected(old(Snap()), old(RootAreas()), Snap(), RootAreas())
      ensures ok ==> current + additional <= mem.Length && old(mem.Length) <= mem.Length
      ensures unchanged(this`stack, this`statics, this`locals, this`roots, this`currentFree)
    {
      hide Snapshot.Valid, Collected, NewHeap, AreasRedirected, Areas.Scanned, MarkState, Marked, AreasReady;
      ghost var s, a := Snap(), RootAreas();
      MarkPhase();
      ghost var m := mem[..];
      RootsAreReady(s, a, m);
      MarkedLiveSize(s, a, m);
      ok := CompactPhase(additional, address);
      if ok {
        CollectionCorrect(s, a, m, Snap(), RootAreas());
        RoomAfterCollection(s, a, Snap(), RootAreas(), additional);
      }
    }

    /** gc_alloc_on_existing_heap */
    method AllocOnExistingHeap(size: nat) returns (p: Pointer)
      requires current <= mem.Length
      modifies this`current, mem
      ensures p == if old(current) + size <= mem.Length then Offset(old(current)) else Null
      ensures current == if p.Null? then old(current) else old(current) + size
      ensures forall i :: 0 <= i < mem.Length ==>
                mem[i] == if p.Offset? && old(current) <= i < old(current) + size then 0 else old(mem[i])
    {
      if current + size <= mem.Length {
        p := Offset(current);
        forall i | current <= i < current + size {
          mem[i] := 0;
        }
        current := current + size;
        return;
      }
      return Null;
    }

    /** alloc, with gc_alloc: on an exhausted heap a collection comes first. `t` is the heap just before
        the words are handed out. */
    method Alloc(bytes: nat, address: nat) returns (p: Pointer, ghost t: Snapshot)
      requires bytes > 0 && Separate() && Snap().Sound()
      requires current + BytesToWords(bytes) > mem.Length ==>
               Collectable(Snap(), RootAreas(), address, BytesToWords(bytes))
      modifies this`begin, this`current, this`mem, this`objs, mem, stack, statics, locals
      ensures unchanged(this`stack, this`statics, this`locals, this`roots, this`currentFree)
      ensures p.Offset? ==> Separate() && (mem == old(mem) || fresh(mem))
      ensures p.Offset? <==>
              || old(current) + BytesToWords(bytes) <= old(mem.Length)
              || ChunkFits(old(Snap()), address, NextSize(old(Snap()), old(RootAreas()), BytesToWords(bytes)))
      ensures p.Offset? ==> Prepared(old(Snap()), old(RootAreas()), t, RootAreas())
      ensures p.Offset? && old(current) + BytesToWords(bytes) <= old(mem.Length) ==>
                t == old(Snap()) && RootAreas() == old(RootAreas())
      ensures p.Offset? && old(current) + BytesToWords(bytes) > old(mem.Length) ==>
                t.begin == address && |t.mem| == NextSize(old(Snap()), old(RootAreas()), BytesToWords(bytes))
      ensures p.Offset? ==>
                && t.Sound() && p.offset == t.current && begin == t.begin && objs == t.objs && mem.Length == |t.mem|
                && current == t.current + BytesToWords(bytes) <= mem.Length
                && forall i :: 0 <= i < mem.Length ==>
                     mem[i] == if t.current <= i < current then 0 else t.mem[i]
    {
      hide Collected, Collectable, Snapshot.PointersSound, Snapshot.Valid, NextSize;
      var size := BytesToWords(bytes);
      t := Snap();
      SoundFacts(t);
      p := AllocOnExistingHeap(size);
      if p.Null? {
        assert Snap() == t;
        var ok := Collect(size, address);
        if !ok {
          return Null, t;
        }
        t := Snap();
        CollectedSound(old(Snap()), old(RootAreas()), t, RootAreas());
        p := AllocOnExistingHeap(size);
      }
    }

    /** The words handed out by alloc become an object. */
    method FormatObject(p: nat, kind: Kind, len: nat, ghost t: Snapshot)
      requires len < MODULUS / 8 && t.Parses() && Fits(t, kind, len)
      requires p == t.current && begin == t.begin && objs == t.objs && mem.Length == |t.mem|
      requires current == t.current + ObjectWords(kind, len)
      requires forall i :: 0 <= i < mem.Length ==> mem[i] == if t.current <= i < current then 0 else t.mem[i]
      modifies mem, this`objs
      ensures Snap() == Extended(t, kind, len)
    {
      hide MakeHeader, Snapshot.Parses;
      SizeOfObject(kind, len);
      mem[p] := MakeHeader(kind, len);
      mem[p + 1] := 0;
      if kind.SEXP? {
        mem[p + 2] := 0;
      }
      ExtendedWords(t, kind, len, mem[..]);
      objs := objs + [p];
    }

    /** alloc_array, alloc_string, alloc_sexp and alloc_closure: the words handed out become an object with
        all its contents zero. */
    method AllocObject(kind: Kind, len: nat, address: nat) returns (r: Outcome, ghost t: Snapshot)
      requires len < MODULUS / 8 && Separate() && Snap().Sound()
      requires !Fits(Snap(), kind, len) ==> Collectable(Snap(), RootAreas(), address, ObjectWords(kind, len))
      modifies this`begin, this`current, this`mem, this`objs, mem, stack, statics, locals
      ensures unchanged(this`stack, this`statics, this`locals, this`roots, this`currentFree)
      ensures r.Allocated? <==>
              || old(Fits(Snap(), kind, len))
              || ChunkFits(old(Snap()), address, NextSize(old(Snap()), old(RootAreas()), ObjectWords(kind, len)))
      ensures r.Allocated? ==> Separate() && (mem == old(mem) || fresh(mem))
      ensures r.Allocated? ==> Prepared(old(Snap()), old(RootAreas()), t, RootAreas())
      ensures r.Allocated? && !old(Fits(Snap(), kind, len)) ==>
                t.begin == address && |t.mem| == NextSize(old(Snap()), old(RootAreas()), ObjectWords(kind, len))
      ensures r.Allocated? && old(Fits(Snap(), kind, len)) ==> t == old(Snap()) && RootAreas() == old(RootAreas())
      ensures r.Allocated? ==>
                t.Sound() && Fits(t, kind, len) && r.header == t.current && Snap() == Extended(t, kind, len)
      ensures r.Allocated? ==> Snap().Sound()
    {
      hide Collected, Collectable, Prepared, Snapshot.Sound, Snapshot.Parses, NextSize, MakeHeader, Areas.WellFormed,
        Extended, BytesToWords;
      var p: Pointer;
      p, t := Alloc(ObjectBytes(kind, len), address);
      if p.Null? {
        return MmapFailed, t;
      }
      SoundFacts(t);
      FormatObject(p.offset, kind, len, t);
      ExtendedSound(t, kind, len);
      r := Allocated(p.offset);
    }

    /** push_extra_root: false when the pool is full and the runtime exits. */
    method PushExtraRoot(sl: Slot) returns (ok: bool)
      requires Separate() && RootAreas().InBounds(sl)
      modifies this`currentFree, roots
      ensures Separate() && (ok <==> old(currentFree) < 32)
      ensures RootAreas() == if ok then old(RootAreas()).(extra := old(RootAreas().extra) + [sl]) else old(RootAreas())
    {
      if currentFree >= MAX_EXTRA_ROOTS_NUMBER {
        return false;
      }
      ghost var extra := RootAreas().extra;
      roots[currentFree] := sl;
      currentFree := currentFree + 1;
      assert roots[..currentFree] == extra + [sl];
      ok := true;
    }

    /** pop_extra_root: false when the pool is empty or its top is another slot, and the runtime exits. */
    method PopExtraRoot(sl: Slot) returns (ok: bool)
      requires Separate()
      modifies this`currentFree
      ensures Separate()
      ensures ok <==> old(currentFree) > 0 && old(roots[currentFree - 1]) == sl
      ensures ok ==> RootAreas() == old(RootAreas()).(extra := old(RootAreas().extra)[..old(currentFree) - 1])
    {
      if currentFree == 0 {
        return false;
      }
      currentFree := currentFree - 1;
      assert roots[..currentFree] == old(RootAreas().extra)[..currentFree];
      ok := roots[currentFree] == sl;
    }

    /** The loop registering argument words before an allocation. */
    method RegisterArgs(first: nat, n: nat) returns (ok: bool)
      requires Separate() && first + n <= locals.Length
      modifies this`currentFree, roots
      ensures Separate() && (ok <==> old(currentFree) + n <= MAX_EXTRA_ROOTS_NUMBER)
      ensures ok ==> RootAreas() == Registered(old(RootAreas()), first, n)
    {
      hide Areas.WellFormed;
      ghost var a := RootAreas();
      assert Registered(a, first, 0) == a;
      var i := 0;
      while i < n
        invariant 0 <= i <= n && Separate() && RootAreas() == Registered(a, first, i)
        invariant currentFree == old(currentFree) + i
      {
        ok := PushExtraRoot(LocalSlot(first + i));
        if !ok {
          return;
        }
        assert ArgSlots(first, i + 1) == ArgSlots(first, i) + [LocalSlot(first + i)];
        i := i + 1;
      }
      ok := true;
    }

    /** The loop taking them off again, last one first. */
    method UnregisterArgs(first: nat, n: nat, ghost extra: seq<Slot>) returns (ok: bool)
      requires Separate() && RootAreas().extra == extra + ArgSlots(first, n)
      modifies this`currentFree
      ensures Separate() && ok && RootAreas() == old(RootAreas()).(extra := extra)
    {
      ghost var a := RootAreas();
      var i := n;
      while i > 0
        invariant 0 <= i <= n && Separate() && RootAreas() == a.(extra := extra + ArgSlots(first, i))
      {
        i := i - 1;
        ghost var now := extra + ArgSlots(first, i + 1);
        assert ArgSlots(first, i + 1) == ArgSlots(first, i) + [LocalSlot(first + i)];
        assert now == extra + ArgSlots(first, i) + [LocalSlot(first + i)];
        assert now[|now| - 1] == LocalSlot(first + i) && now[..|now| - 1] == extra + ArgSlots(first, i);
        assert roots[..currentFree][currentFree - 1] == roots[currentFree - 1];
        ok := PopExtraRoot(LocalSlot(first + i));
      }
      assert extra + ArgSlots(first, 0) == extra;
      ok := true;
    }

    /** The loop storing the argument words into the fields of a fresh object. */
    method StoreFields(p: nat, kind: Kind, extra: Word, first: nat, n: nat, ghost t: Snapshot)
      requires Separate() && !kind.STRING? && LengthFor(kind, n) < MODULUS / 8 && first + n <= locals.Length
      requires t.Parses() && Fits(t, kind, LengthFor(kind, n)) && p == t.current
      requires Snap() == Extended(t, kind, LengthFor(kind, n))
      modifies mem
      ensures Snap() == Filled(t, kind, extra, locals[first..first + n])
    {
      hide MakeHeader, Snapshot.Parses, ObjectWords;
      SizeFor(kind, n);
      ghost var fields := locals[first..first + n];
      var f := p + FieldStart(kind);
      if !kind.ARRAY? {
        ExtraInside(t, kind, n);
        assert |Snap().mem| == |t.mem|;
        mem[p + 2] := extra;
      }
      var i := 0;
      while i < n
        invariant 0 <= i <= n
        invariant forall j :: 0 <= j < mem.Length && !(f + i <= j < f + n) ==>
                  mem[j] == FilledWord(t, kind, extra, fields, j)
      {
        mem[f + i] := locals[first + i];
        i := i + 1;
      }
      FilledWords(t, kind, extra, fields, mem[..]);
    }

    /** The common course of Barray, Bclosure and Bsexp: n argument words are registered, an object is
        allocated and filled, and the words are taken off the pool again. The code word or tag comes
        from argument word `at`, which is not registered. */
    method Construct(kind: Kind, at: nat, first: nat, n: nat, address: nat) returns (r: Built)
      requires !kind.STRING? && LengthFor(kind, n) < MODULUS / 8
      requires Separate() && Snap().Sound() && RootsSound(Snap(), RootAreas())
               && ArgsSound(Snap(), RootAreas(), first, n)
      requires !kind.ARRAY? ==> at < locals.Length && !Snap().InRange(locals[at])
      requires currentFree + n <= MAX_EXTRA_ROOTS_NUMBER && !Fits(Snap(), kind, LengthFor(kind, n)) ==>
                 PlacedClear(Snap(), Registered(RootAreas(), first, n), address, ObjectWords(kind, LengthFor(kind, n)))
      modifies this`begin, this`current, this`mem, this`objs, this`currentFree, mem, stack, statics, locals, roots
      ensures r.Object? <==>
              old(currentFree) + n <= MAX_EXTRA_ROOTS_NUMBER
              && RoomFor(old(Snap()), old(RootAreas()), first, n, kind, LengthFor(kind, n), address)
      ensures r.Object? ==> Separate() && Snap().Sound() && RootAreas().extra == old(RootAreas().extra)
      ensures r.Object? ==>
                RootsSound(Snap(), RootAreas()) && RootsKept(old(Snap()), old(RootAreas()), Snap(), RootAreas())
      ensures r.Object? ==>
                BuiltFrom(old(Snap()), old(RootAreas()), first, n, kind,
                          if kind.ARRAY? then 0 else ExtraFor(kind, old(locals[at])), Snap(), r.header)
    {
      hide Prepared, Snapshot.Sound, Snapshot.Parses, RootsSound, BuiltFrom, PlacedClear, NextSize, Fits, Extended,
           Filled, ArgsSound, Areas.WellFormed, Snapshot.InRange, UnboxWord, RootsKept, Fillable;
      ghost var s, a := Snap(), RootAreas();
      ArgsInBounds(s, a, first, n);
      var ok := RegisterArgs(first, n);
      if !ok {
        return Exit;
      }
      if !Fits(Snap(), kind, LengthFor(kind, n)) {
        RegisteredSound(s, a, first, n);
        SoundRootsCollectable(s, Registered(a, first, n), address, ObjectWords(kind, LengthFor(kind, n)));
      }
      var o, t := AllocObject(kind, LengthFor(kind, n), address);
      if o.MmapFailed? {
        return Exit;
      }
      ghost var b := RootAreas();
      SoundFacts(t);
      PreparedShapeOf(s, a, first, n, t, b);
      if !kind.ARRAY? {
        ForeignKept(s, Registered(a, first, n), t, b, at);
      }
      var extra := if kind.ARRAY? then 0 else ExtraFor(kind, locals[at]);
      ghost var fields := locals[first..first + n];
      StoreFields(o.header, kind, extra, first, n, t);
      BuiltObject(s, a, first, n, t, b, ObjectWords(kind, LengthFor(kind, n)), kind, extra, fields);
      ok := UnregisterArgs(first, n, a.extra);
      ghost var done := RootAreas();
      assert b == Registered(done, first, n);
      RegisteredSound(s, a, first, n);
      PreparedRootsSound(s, Registered(a, first, n), t, b, ObjectWords(kind, LengthFor(kind, n)));
      UnregisteredSound(t, done, first, n, kind, extra, fields);
      UnregisteredKept(s, a, first, n, t, done, ObjectWords(kind, LengthFor(kind, n)), kind, extra, fields);
      r := Object(o.header);
    }

    /** Barray: the n words at local `args`. */
    method Barray(args: nat, n: nat, address: nat) returns (r: Built)
      requires n < MODULUS / 8
      requires Separate() && Snap().Sound() && RootsSound(Snap(), RootAreas())
               && ArgsSound(Snap(), RootAreas(), args, n)
      requires currentFree + n <= MAX_EXTRA_ROOTS_NUMBER && !Fits(Snap(), ARRAY, n) ==>
                 PlacedClear(Snap(), Registered(RootAreas(), args, n), address, ObjectWords(ARRAY, n))
      modifies this`begin, this`current, this`mem, this`objs, this`currentFree, mem, stack, statics, locals, roots
      ensures r.Object? <==>
              old(currentFree) + n <= MAX_EXTRA_ROOTS_NUMBER
              && RoomFor(old(Snap()), old(RootAreas()), args, n, ARRAY, n, address)
      ensures r.Object? ==> Separate() && Snap().Sound() && RootAreas().extra == old(RootAreas().extra)
      ensures r.Object? ==>
                RootsSound(Snap(), RootAreas()) && RootsKept(old(Snap()), old(RootAreas()), Snap(), RootAreas())
      ensures r.Object? ==> BuiltFrom(old(Snap()), old(RootAreas()), args, n, ARRAY, 0, Snap(), r.header)
    {
      hide RootsSound, RootsKept, ArgsSound, Snapshot.Sound, Snapshot.InRange, PlacedClear, RoomFor, Fits,
           Areas.WellFormed, BuiltFrom, UnboxWord, NextSize;
      r := Construct(ARRAY, args, args, n, address);
    }

    /** Bclosure: a code word and n captured words. */
    method Bclosure(args: nat, n: nat, address: nat) returns (r: Built)
      requires n + 1 < MODULUS / 8 && args < locals.Length && !Snap().InRange(locals[args])
      requires Separate() && Snap().Sound() && RootsSound(Snap(), RootAreas())
               && ArgsSound(Snap(), RootAreas(), args + 1, n)
      requires currentFree + n <= MAX_EXTRA_ROOTS_NUMBER && !Fits(Snap(), CLOSURE, n + 1) ==>
                 PlacedClear(Snap(), Registered(RootAreas(), args + 1, n), address, ObjectWords(CLOSURE, n + 1))
      modifies this`begin, this`current, this`mem, this`objs, this`currentFree, mem, stack, statics, locals, roots
      ensures r.Object? <==>
              old(currentFree) + n <= MAX_EXTRA_ROOTS_NUMBER
              && RoomFor(old(Snap()), old(RootAreas()), args + 1, n, CLOSURE, n + 1, address)
      ensures r.Object? ==> Separate() && Snap().Sound() && RootAreas().extra == old(RootAreas().extra)
      ensures r.Object? ==>
                RootsSound(Snap(), RootAreas()) && RootsKept(old(Snap()), old(RootAreas()), Snap(), RootAreas())
      ensures r.Object? ==>
                BuiltFrom(old(Snap()), old(RootAreas()), args + 1, n, CLOSURE, old(locals[args]), Snap(), r.header)
    {
      hide RootsSound, RootsKept, ArgsSound, Snapshot.Sound, Snapshot.InRange, PlacedClear, RoomFor, Fits,
           Areas.WellFormed, BuiltFrom, UnboxWord, NextSize;
      r := Construct(CLOSURE, args, args + 1, n, address);
    }

    /** Bsexp: n - 1 members and a boxed tag. */
    method Bsexp(args: nat, n: nat, address: nat) returns (r: Built)
      requires 0 < n < MODULUS / 8 && args + n <= locals.Length && Unboxed(locals[args + n - 1])
      requires Separate() && Snap().Sound() && RootsSound(Snap(), RootAreas())
               && ArgsSound(Snap(), RootAreas(), args, n - 1)
      requires currentFree + n - 1 <= MAX_EXTRA_ROOTS_NUMBER && !Fits(Snap(), SEXP, n - 1) ==>
                 PlacedClear(Snap(), Registered(RootAreas(), args, n - 1), address, ObjectWords(SEXP, n - 1))
      modifies this`begin, this`current, this`mem, this`objs, this`currentFree, mem, stack, statics, locals, roots
      ensures r.Object? <==>
              old(currentFree) + n - 1 <= MAX_EXTRA_ROOTS_NUMBER
              && RoomFor(old(Snap()), old(RootAreas()), args, n - 1, SEXP, n - 1, address)
      ensures r.Object? ==> Separate() && Snap().Sound() && RootAreas().extra == old(RootAreas().extra)
      ensures r.Object? ==>
                RootsSound(Snap(), RootAreas()) && RootsKept(old(Snap()), old(RootAreas()), Snap(), RootAreas())
      ensures r.Object? ==>
                BuiltFrom(old(Snap()), old(RootAreas()), args, n - 1, SEXP, UnboxWord(old(locals[args + n - 1])),
                    Snap(), r.header)
    {
      hide RootsSound, RootsKept, ArgsSound, Snapshot.Sound, PlacedClear, RoomFor, Fits, Areas.WellFormed, BuiltFrom,
           UnboxWord, NextSize;
      r := Construct(SEXP, args + n - 1, args, n - 1, address);
    }
  }
}
