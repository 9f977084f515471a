/** The places outside the heap that hold roots: the Lama stack, the static area, and the
    words registered in the extra-root pool. */
module Roots {
  import opened Words
  import opened Layout
  import opened Marking
  import opened Compaction
  import opened Survival

  const MAX_EXTRA_ROOTS_NUMBER := 32

  /** The address of a word outside the heap. Stack slot 0 is the word at __gc_stack_top, the last
      stack slot the word at __gc_stack_bottom; the last static slot is the word at __stop_custom_data. */
  datatype Slot = StackSlot(i: nat) | StaticSlot(i: nat) | LocalSlot(i: nat)

  /** The root areas as values, with the registered extra roots. */
  datatype Areas = Areas(stack: seq<Word>, statics: seq<Word>, locals: seq<Word>, extra: seq<Slot>) {

    ghost predicate InBounds(sl: Slot) {
      match sl
      case StackSlot(i) => i < |stack|
      case StaticSlot(i) => i < |statics|
      case LocalSlot(i) => i < |locals|
    }

    ghost function Load(sl: Slot): Word {
      if !InBounds(sl) then 0 else
        match sl
        case StackSlot(i) => stack[i]
        case StaticSlot(i) => statics[i]
        case LocalSlot(i) => locals[i]
    }

    ghost function ExtraWords(n: nat): seq<Word>
      requires n <= |extra|
    {
      if n == 0 then [] else ExtraWords(n - 1) + [Load(extra[n - 1])]
    }

    ghost function StackWords(): seq<Word> {
      if |stack| >= 2 then stack[1..|stack| - 1] else []
    }

    ghost function StaticWords(): seq<Word> {
      if |statics| >= 1 then statics[..|statics| - 1] else []
    }

    /** The words mark_phase starts from, in its order. */
    ghost function Scanned(): seq<Word> {
      StackWords() + ExtraWords(|extra|) + StaticWords()
    }

    ghost predicate WellFormed() {
      && 2 <= |stack| && 1 <= |statics| && |extra| <= MAX_EXTRA_ROOTS_NUMBER
      && forall k :: 0 <= k < |extra| ==> InBounds(extra[k])
    }
  }

  // ---------------------------------------------------------------- marking

  lemma {:induction false} RootsOfConcat(s: Snapshot, a: seq<Word>, b: seq<Word>)
    ensures s.RootsOf(a + b) == s.RootsOf(a) + s.RootsOf(b)
  {
    if |b| == 0 {
      assert a + b == a;
    } else {
      var c := b[..|b| - 1];
      assert (a + b)[..|a + b| - 1] == a + c;
      RootsOfConcat(s, a, c);
    }
  }

  lemma RootsOfSnoc(s: Snapshot, a: seq<Word>, v: Word)
    ensures s.RootsOf(a + [v]) == s.RootsOf(a) + s.RootOf(v)
  {
    assert (a + [v])[..|a|] == a;
  }

  lemma {:induction false} RootsOfMember(s: Snapshot, a: seq<Word>, i: nat)
    requires i < |a|
    ensures s.RootOf(a[i]) <= s.RootsOf(a)
  {
    var b := a[..|a| - 1];
    if i < |b| {
      RootsOfMember(s, b, i);
    }
  }

  lemma {:induction false} RootsAreObjects(s: Snapshot, a: seq<Word>)
    requires s.GoodWords(a)
    ensures forall r :: r in s.RootsOf(a) ==> r in s.objs
  {
    if |a| > 0 {
      RootsAreObjects(s, a[..|a| - 1]);
    }
  }

  /** Marking has dealt with the words vs, starting from state s. */
  ghost predicate MarkedFrom(s: Snapshot, m: seq<Word>, vs: seq<Word>) {
    && SameButForward(s, m)
    && MarkState(s.(mem := m))
    && Marked(s.(mem := m)) == Marked(s) + s.Reachable(s.RootsOf(vs))
  }

  lemma MarkedFromNothing(s: Snapshot)
    requires MarkState(s)
    ensures MarkedFrom(s, s.mem, [])
  {
    ReachableEmpty(s);
  }

  lemma SameTrans(s: Snapshot, m: seq<Word>, m': seq<Word>)
    requires SameButForward(s, m) && SameButForward(s.(mem := m), m')
    ensures SameButForward(s, m')
  {
  }

  lemma MarkedFacts(s: Snapshot, m: seq<Word>, vs: seq<Word>, v: Word)
    requires MarkedFrom(s, m, vs) && s.GoodWord(v)
    ensures |m| == |s.mem| && MarkState(s.(mem := m)) && s.(mem := m).GoodWord(v)
  {
  }

  lemma {:induction false} ExtraWordsAt(a: Areas, n: nat, i: nat)
    requires i < n <= |a.extra|
    ensures |a.ExtraWords(n)| == n && a.ExtraWords(n)[i] == a.Load(a.extra[i])
  {
    if i < n - 1 {
      ExtraWordsAt(a, n - 1, i);
    } else if i > 0 {
      ExtraWordsAt(a, n - 1, 0);
    }
  }

  lemma ValidIsUnmarked(s: Snapshot)
    requires s.Valid()
    ensures s.Parses() && s.PointersGood() && MarkState(s) && Marked(s) == {}
  {
    forall o | o in s.objs
      ensures !MarkBit(Forward(s.mem, o)) && !EnqueuedBit(Forward(s.mem, o))
    {
      Shape(s, o);
      assert FlagsClear(s.Header(o + 1));
    }
  }

  lemma GoodParts(s: Snapshot, a: seq<Word>, b: seq<Word>, c: seq<Word>)
    requires s.GoodWords(a + b + c)
    ensures s.GoodWords(a) && s.GoodWords(b) && s.GoodWords(c)
  {
    var w := a + b + c;
    assert forall i :: 0 <= i < |a| ==> a[i] == w[i];
    assert forall i :: 0 <= i < |b| ==> b[i] == w[|a| + i];
    assert forall i :: 0 <= i < |c| ==> c[i] == w[|a| + |b| + i];
  }

  lemma MarkedWords(s: Snapshot, m: seq<Word>, a: seq<Word>, b: seq<Word>)
    requires MarkedFrom(s, m, a) && s.GoodWords(b)
    ensures |m| == |s.mem| && MarkState(s.(mem := m)) && s.(mem := m).GoodWords(b)
  {
    forall i | 0 <= i < |b| ensures s.(mem := m).GoodWord(b[i]) {
      assert s.GoodWord(b[i]);
    }
  }

  lemma MarkedResult(s: Snapshot, m: seq<Word>, a: seq<Word>)
    requires MarkedFrom(s, m, a) && Marked(s) == {}
    ensures SameButForward(s, m) && MarkState(s.(mem := m))
    ensures Marked(s.(mem := m)) == s.Reachable(s.RootsOf(a))
  {
  }

  lemma MarkedOneMore(s: Snapshot, m: seq<Word>, vs: seq<Word>, v: Word, m': seq<Word>)
    requires s.Parses() && s.PointersGood() && MarkedFrom(s, m, vs) && s.GoodWord(v)
    requires SameButForward(s.(mem := m), m') && MarkState(s.(mem := m'))
    requires Marked(s.(mem := m')) ==
             Marked(s.(mem := m)) + s.(mem := m).Reachable(s.(mem := m).RootOf(v))
    ensures MarkedFrom(s, m', vs + [v])
  {
    hide Marked, SameButForward, MarkState, Snapshot.Reachable, Snapshot.Parses, Snapshot.PointersGood;
    SameTrans(s, m, m');
    assert s.(mem := m).RootOf(v) == s.RootOf(v);
    SameReachable(s, m, s.RootOf(v));
    RootsOfSnoc(s, vs, v);
    ReachableUnion(s, s.RootsOf(vs), s.RootOf(v));
  }

  lemma MarkedConcat(s: Snapshot, m: seq<Word>, a: seq<Word>, m': seq<Word>, b: seq<Word>)
    requires s.Parses() && s.PointersGood() && MarkedFrom(s, m, a) && s.GoodWords(b)
    requires MarkedFrom(s.(mem := m), m', b)
    ensures MarkedFrom(s, m', a + b)
  {
    hide Marked, SameButForward, MarkState, Snapshot.Reachable, Snapshot.Parses, Snapshot.PointersGood;
    var t := s.(mem := m);
    SameTrans(s, m, m');
    RootsAreObjects(s, b);
    SameRoots(s, t, b);
    SameReachable(s, m, s.RootsOf(b));
    RootsOfConcat(s, a, b);
    ReachableUnion(s, s.RootsOf(a), s.RootsOf(b));
  }

  lemma {:induction false} SameRoots(s: Snapshot, t: Snapshot, a: seq<Word>)
    requires s.begin == t.begin && s.current == t.current
    ensures s.RootsOf(a) == t.RootsOf(a)
  {
    if |a| > 0 {
      SameRoots(s, t, a[..|a| - 1]);
    }
  }

  // ------------------------------------------------------------ rewriting roots

  /** A word that rewriting may meet: if in range, the content pointer of a marked object. */
  ghost predicate FixReady(s: Snapshot, v: Word) {
    s.GoodWord(v) && (s.InRange(v) ==> s.Target(v) in Marked(s))
  }

  ghost predicate AreasReady(s: Snapshot, a: Areas) {
    && a.WellFormed()
    && (forall i :: 1 <= i < |a.stack| ==> FixReady(s, a.stack[i]))
    && (forall i :: 0 <= i < |a.statics| - 1 ==> FixReady(s, a.statics[i]))
    && (forall i :: 0 <= i < |a.locals| && LocalSlot(i) in a.extra ==> FixReady(s, a.locals[i]))
  }

  ghost predicate Redirects(s: Snapshot, marked: set<int>, newBegin: nat, v: Word, v': Word) {
    v' == FixWord(s, marked, newBegin, v)
  }

  /** Every rewritten slot is redirected once; no other word changes. */
  ghost predicate AreasRedirected(s: Snapshot, marked: set<int>, newBegin: nat, a: Areas, a': Areas) {
    && |a'.stack| == |a.stack| && |a'.statics| == |a.statics| && |a'.locals| == |a.locals| && a'.extra == a.extra
    && StackRedirected(s, marked, newBegin, a, a') && StaticsRedirected(s, marked, newBegin, a, a')
    && LocalsRedirected(s, marked, newBegin, a.locals, a'.locals, a.extra)
  }

  ghost predicate StackRedirected(s: Snapshot, marked: set<int>, newBegin: nat, a: Areas, a': Areas) {
    && |a'.stack| == |a.stack| && 1 <= |a.stack| && a'.stack[0] == a.stack[0]
    && forall i :: 1 <= i < |a.stack| ==> Redirects(s, marked, newBegin, a.stack[i], a'.stack[i])
  }

  ghost predicate StaticsRedirected(s: Snapshot, marked: set<int>, newBegin: nat, a: Areas, a': Areas) {
    && |a'.statics| == |a.statics| && 1 <= |a.statics|
    && a'.statics[|a.statics| - 1] == a.statics[|a.statics| - 1]
    && forall i :: 0 <= i < |a.statics| - 1 ==> Redirects(s, marked, newBegin, a.statics[i], a'.statics[i])
  }

  ghost predicate LocalsRedirected(s: Snapshot, marked: set<int>, newBegin: nat, a: seq<Word>, a': seq<Word>,
                  extra: seq<Slot>) {
    && |a'| == |a|
    && forall i :: 0 <= i < |a| ==>
         if LocalSlot(i) in extra then Redirects(s, marked, newBegin, a[i], a'[i]) else a'[i] == a[i]
  }

  /** A redirected word is out of the old range, so meeting it again changes nothing. */
  lemma RedirectedOnce(s: Snapshot, marked: set<int>, newBegin: nat, words: nat, v: Word, w: Word)
    requires marked == Marked(s)
    requires Relocating(s, newBegin, words) && FixReady(s, v) && Redirects(s, marked, newBegin, v, w)
    ensures !s.InRange(w)
  {
    FixedOnce(s, Marked(s), newBegin, words, v);
  }

  lemma Unredirected(s: Snapshot, marked: set<int>, newBegin: nat, v: Word)
    requires !s.InRange(v)
    ensures Redirects(s, marked, newBegin, v, v)
  {
  }

  /** One more extra root that needs no store: an unboxed word, a slot rewritten by a region scan,
      or a slot already rewritten. */
  lemma LocalsKept(s: Snapshot, marked: set<int>, newBegin: nat, words: nat, a: seq<Word>, a': seq<Word>,
                   extra: seq<Slot>, sl: Slot)
    requires Relocating(s, newBegin, words) && LocalsRedirected(s, marked, newBegin, a, a', extra)
    requires sl.LocalSlot? ==> sl.i < |a| && !s.InRange(a'[sl.i])
    ensures LocalsRedirected(s, marked, newBegin, a, a', extra + [sl])
  {
    hide FixWord, Relocating;
    forall i | 0 <= i < |a|
      ensures if LocalSlot(i) in extra + [sl] then Redirects(s, marked, newBegin, a[i], a'[i]) else a'[i] == a[i]
    {
      if LocalSlot(i) == sl && LocalSlot(i) !in extra {
        Unredirected(s, marked, newBegin, a[i]);
      }
    }
  }

  lemma SameLength(s: Snapshot, marked: set<int>, newBegin: nat, a: seq<Word>, a': seq<Word>, extra: seq<Slot>)
    requires LocalsRedirected(s, marked, newBegin, a, a', extra)
    ensures |a'| == |a|
  {
  }

  lemma NoLocalsYet(s: Snapshot, marked: set<int>, newBegin: nat, a: seq<Word>)
    ensures LocalsRedirected(s, marked, newBegin, a, a, [])
  {
  }

  /** A slot still holding an old pointer has not been rewritten, however often it is registered. */
  lemma StillReady(s: Snapshot, marked: set<int>, newBegin: nat, words: nat, a: seq<Word>, a': seq<Word>,
                   extra: seq<Slot>, i: nat)
    requires marked == Marked(s)
    requires Relocating(s, newBegin, words) && LocalsRedirected(s, marked, newBegin, a, a', extra)
    requires i < |a| && FixReady(s, a[i])
    ensures i < |a'| && (s.InRange(a'[i]) ==> LocalSlot(i) !in extra && a'[i] == a[i] && FixReady(s, a'[i]))
  {
    if LocalSlot(i) in extra {
      RedirectedOnce(s, marked, newBegin, words, a[i], a'[i]);
    }
  }

  /** One more extra root that is rewritten. */
  lemma LocalsStored(s: Snapshot, marked: set<int>, newBegin: nat, a: seq<Word>, a': seq<Word>, extra: seq<Slot>,
        i: nat, w: Word)
    requires LocalsRedirected(s, marked, newBegin, a, a', extra)
    requires i < |a| && LocalSlot(i) !in extra && Redirects(s, marked, newBegin, a[i], w)
    ensures |a'| == |a| && LocalsRedirected(s, marked, newBegin, a, a'[i := w], extra + [LocalSlot(i)])
  {
    hide FixWord;
  }

  // ------------------------------------------------- from one phase to the next

  const EXTRA_ROOM_HEAP_COEFFICIENT := 2
  const MINIMUM_HEAP_CAPACITY := 64

  function Max(x: nat, y: nat): nat {
    if x > y then x else y
  }

  /** The words of the chunk chosen by compact_phase: the least number that keeps the size, holds twice the live words
      plus the request, and is no less than 64. */
  function NextHeapSize(live: nat, additional: nat, size: nat): (n: nat)
    ensures n >= size && n >= 2 * live + additional && n >= 64
    ensures n == size || n == 2 * live + additional || n == 64
  {
    Max(Max(live * EXTRA_ROOM_HEAP_COEFFICIENT + additional, MINIMUM_HEAP_CAPACITY), size)
  }

  lemma SameWidth(s: Snapshot, m: seq<Word>)
    requires SameButForward(s, m)
    ensures |m| == |s.mem|
  {
  }

  lemma ParsesWhenMarked(s: Snapshot)
    requires MarkState(s)
    ensures s.Parses()
  {
  }

  lemma SameMarked(s: Snapshot, m: seq<Word>)
    requires SameFlags(s, m)
    ensures Marked(s.(mem := m)) == Marked(s)
    ensures NothingEnqueued(s) ==> NothingEnqueued(s.(mem := m))
  {
  }

  lemma SameLocated(s: Snapshot, m: seq<Word>, marked: set<int>)
    requires s.Parses() && SameButForward(s, m) && Located(s, marked, m, |s.objs|)
    ensures Located(s.(mem := m), marked, m, |s.objs|)
  {
    hide SameButForward, Snapshot.Parses, ForwardAddress;
    forall i | 0 <= i < |s.objs| && s.objs[i] in marked
      ensures ForwardAddress(Forward(m, s.objs[i])) == s.begin + 8 * LiveBefore(s.(mem := m), marked, i)
    {
      SameLiveBefore(s, m, marked, i);
    }
  }

  /** After compute_locations the pointers can be rewritten. */
  lemma ReadyToRewrite(s: Snapshot, m: seq<Word>, newBegin: nat, words: nat)
    requires MarkState(s) && SameButForward(s, m) && SameFlags(s, m) && Located(s, Marked(s), m, |s.objs|)
    requires ChunkFits(s, newBegin, words) && 2 * LiveSize(s, Marked(s)) <= words && |s.mem| <= words
    ensures Relocating(s.(mem := m), newBegin, words) && Marked(s.(mem := m)) == Marked(s)
  {
    hide Snapshot.Parses, SameButForward, SameFlags, Snapshot.PointersGood, Marked, Located, NothingEnqueued;
    SameWidth(s, m);
    SameMarked(s, m);
    ClosedState(s, m);
    SameLocated(s, m, Marked(s));
    SameLiveBefore(s, m, Marked(s), |s.objs|);
  }

  lemma SameReady(s: Snapshot, m: seq<Word>, a: Areas)
    requires AreasReady(s, a) && |m| == |s.mem| && Marked(s.(mem := m)) == Marked(s)
    ensures AreasReady(s.(mem := m), a)
  {
    hide Marked, HeaderAt;
    forall v: Word ensures FixReady(s, v) <==> FixReady(s.(mem := m), v) {
    }
  }

  /** A copy of the old chunk, before any pointer is rewritten. */
  lemma FreshCopy(s: Snapshot, marked: set<int>, newBegin: nat, m: seq<Word>)
    requires |s.mem| <= |m| && forall i :: 0 <= i < |s.mem| ==> m[i] == s.mem[i]
    ensures FixedBelow(s, marked, newBegin, m, 0)
  {
  }

  lemma SlidHeaders(s: Snapshot, marked: set<int>, m0: seq<Word>, m: seq<Word>)
    requires SameHeaders(s, m0) && Slid(s, marked, m0, m, |s.objs|)
    ensures forall j :: 0 <= j < |s.objs| && s.objs[j] in marked ==>
            At(m, LiveBefore(s, marked, j)) == s.Header(s.objs[j])
  {
    hide ResetMarkBit, LiveBefore;
    forall j | 0 <= j < |s.objs| && s.objs[j] in marked ensures At(m, LiveBefore(s, marked, j)) == s.Header(s.objs[j]) {
      assert Moved(m0, s.objs[j], m, LiveBefore(s, marked, j));
    }
  }

  /** The rewritten and slid chunk is the new heap. */
  lemma CompactionResult(s: Snapshot, newBegin: nat, m2: seq<Word>, m3: seq<Word>)
    requires Relocating(s, newBegin, |m2|) && Compacted(s, Marked(s), newBegin, m2, m3)
    ensures |m3| == |m2|
    ensures var t := Snapshot(newBegin, LiveSize(s, Marked(s)), NewObjs(s, Marked(s), |s.objs|), m3);
            NewHeap(s, Marked(s), t)
  {
    hide Survivors, Marked, NothingEnqueued, ClosedUnderEdges, Snapshot.PointersGood, FixedBelow, Snapshot.Parses;
    var t := Snapshot(newBegin, LiveSize(s, Marked(s)), NewObjs(s, Marked(s), |s.objs|), m3);
    FixedHeaders(s, Marked(s), newBegin, m2, s.current);
    SlidHeaders(s, Marked(s), m2, m3);
    LongEnough(s, Marked(s), newBegin, m2);
    NewHeapParses(s, Marked(s), newBegin, m3, |s.objs|);
    CompactionKeeps(s, Marked(s), t, m2);
  }

  lemma LongEnough(s: Snapshot, marked: set<int>, newBegin: nat, m2: seq<Word>)
    requires FixedBelow(s, marked, newBegin, m2, s.current)
    ensures |s.mem| <= |m2|
  {
  }

  lemma SameNewHeap(s: Snapshot, m: seq<Word>, marked: set<int>, t: Snapshot)
    requires s.Parses() && SameButForward(s, m) && NewHeap(s.(mem := m), marked, t)
    ensures NewHeap(s, marked, t)
  {
    hide Survivors, Snapshot.Parses, SameButForward;
    SameSurvivors(s, m, marked, t);
    SameLiveBefore(s, m, marked, |s.objs|);
    SameWidth(s, m);
  }

  lemma SameRedirects(s: Snapshot, m: seq<Word>, marked: set<int>, newBegin: nat, v: Word, w: Word)
    requires s.Parses() && SameButForward(s, m)
    ensures Redirects(s.(mem := m), marked, newBegin, v, w) <==> Redirects(s, marked, newBegin, v, w)
  {
    SameFix(s, m, marked, newBegin, v);
  }

  lemma SameAreasRedirected(s: Snapshot, m: seq<Word>, marked: set<int>, newBegin: nat, a: Areas, a': Areas)
    requires s.Parses() && SameButForward(s, m) && AreasRedirected(s.(mem := m), marked, newBegin, a, a')
    ensures AreasRedirected(s, marked, newBegin, a, a')
  {
    hide Redirects, Snapshot.Parses, SameButForward;
    forall v: Word, w: Word
      ensures Redirects(s.(mem := m), marked, newBegin, v, w) <==> Redirects(s, marked, newBegin, v, w)
    {
      SameRedirects(s, m, marked, newBegin, v, w);
    }
  }
}
