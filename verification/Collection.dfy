/** A whole collection: what is asked of the caller and of the system, and what it yields. */
module Collection {
  import opened Words
  import opened Layout
  import opened Marking
  import opened Compaction
  import opened Survival
  import opened Roots

  /** The objects reachable from the roots. */
  ghost function Live(s: Snapshot, a: Areas): set<int> {
    s.Reachable(s.RootsOf(a.Scanned()))
  }

  ghost function NextSize(s: Snapshot, a: Areas, additional: nat): nat {
    NextHeapSize(LiveSize(s, Live(s, a)), additional, |s.mem|)
  }

  /** The slots that hold roots lie inside the scanned areas, and the one word that is rewritten
      without being scanned (at __gc_stack_bottom) holds no pointer to a dead object. */
  ghost predicate RootsGood(s: Snapshot, a: Areas) {
    && a.WellFormed() && s.GoodWords(a.Scanned())
    && (forall k :: 0 <= k < |a.extra| ==> a.extra[k] != StackSlot(0) && a.extra[k] != StaticSlot(|a.statics| - 1))
    && var edge := a.stack[|a.stack| - 1]; s.GoodWord(edge) && (s.InRange(edge) ==> s.Target(edge) in Live(s, a))
  }

  ghost predicate NoStrayRoots(s: Snapshot, a: Areas, begin: nat, words: nat) {
    && (forall i :: 0 <= i < |a.Scanned()| && !s.InRange(a.Scanned()[i]) ==> Outside(begin, words, a.Scanned()[i]))
    && (2 <= |a.stack| && !s.InRange(a.stack[|a.stack| - 1]) ==> Outside(begin, words, a.stack[|a.stack| - 1]))
  }

  /** The system places the new chunk at `address`, clear of what the program still holds: the words of live objects
      and of root slots are heap pointers or no addresses in that chunk. */
  ghost predicate PlacedClear(s: Snapshot, a: Areas, address: nat, additional: nat) {
    && NoStrayWords(s, Live(s, a), address, NextSize(s, a, additional))
    && NoStrayRoots(s, a, address, NextSize(s, a, additional))
  }

  /** The collector may run and place the new chunk at `address`. */
  ghost predicate Collectable(s: Snapshot, a: Areas, address: nat, additional: nat) {
    RootsGood(s, a) && PlacedClear(s, a, address, additional)
  }

  /** A root word v became w. */
  ghost predicate RootKept(s: Snapshot, a: Areas, t: Snapshot, v: Word, w: Word) {
    Redirects(s, Live(s, a), t.begin, v, w) && t.SoundWord(w)
  }

  /** Heap t with roots a' is heap s with roots a after a collection. */
  ghost predicate Collected(s: Snapshot, a: Areas, t: Snapshot, a': Areas) {
    && t.Sound()
    && NewHeap(s, Live(s, a), t)
    && AreasRedirected(s, Live(s, a), t.begin, a, a')
    && |a'.Scanned()| == |a.Scanned()|
    && (forall i :: 0 <= i < |a.Scanned()| ==> RootKept(s, a, t, a.Scanned()[i], a'.Scanned()[i]))
    && (forall p :: p in t.objs ==> p in Live(t, a'))
  }

  // ------------------------------------------------------------- before the phases

  lemma ReachableClosed(s: Snapshot, roots: set<int>)
    requires s.PointersGood()
    ensures ClosedUnderEdges(s, s.Reachable(roots))
  {
    forall o, t | o in s.Reachable(roots) && s.Edge(o, t) ensures t in s.Reachable(roots) {
      EdgeTarget(s, o, t);
      ReachStep(s, roots, o, t);
    }
  }

  /** A scanned word leads, if anywhere, to a live object. */
  lemma ScannedIsLive(s: Snapshot, a: Areas, i: nat)
    requires s.GoodWords(a.Scanned()) && i < |a.Scanned()|
    ensures s.GoodWord(a.Scanned()[i])
    ensures s.InRange(a.Scanned()[i]) ==> s.Target(a.Scanned()[i]) in Live(s, a)
  {
    var v := a.Scanned()[i];
    if s.InRange(v) {
      RootsOfMember(s, a.Scanned(), i);
      assert s.Target(v) in s.RootOf(v);
      RootReached(s, s.RootsOf(a.Scanned()), s.Target(v));
    }
  }

  /** Where the words of the three areas are among the scanned ones. */
  lemma ScannedParts(a: Areas)
    requires a.WellFormed()
    ensures |a.Scanned()| == (|a.stack| - 2) + |a.extra| + (|a.statics| - 1)
    ensures forall i :: 1 <= i < |a.stack| - 1 ==> a.Scanned()[i - 1] == a.stack[i]
    ensures forall k :: 0 <= k < |a.extra| ==> a.Scanned()[|a.stack| - 2 + k] == a.Load(a.extra[k])
    ensures forall i :: 0 <= i < |a.statics| - 1 ==> a.Scanned()[|a.stack| - 2 + |a.extra| + i] == a.statics[i]
  {
    var n := |a.extra|;
    if n > 0 {
      ExtraWordsAt(a, n, 0);
    }
    forall k | 0 <= k < |a.extra|
      ensures |a.ExtraWords(n)| == n && a.Scanned()[|a.stack| - 2 + k] == a.Load(a.extra[k])
    {
      ExtraWordsAt(a, n, k);
    }
  }

  lemma RootsAreReady(s: Snapshot, a: Areas, m: seq<Word>)
    requires RootsGood(s, a) && SameButForward(s, m) && Marked(s.(mem := m)) == Live(s, a)
    ensures AreasReady(s.(mem := m), a)
  {
    hide Snapshot.GoodWord, Snapshot.InRange, Snapshot.Target, Marked, SameButForward, Live, Areas.Scanned;
    var t := s.(mem := m);
    ScannedParts(a);
    forall v: Word | s.GoodWord(v) && (s.InRange(v) ==> s.Target(v) in Live(s, a)) ensures FixReady(t, v) {
      SameWordFacts(s, m, v);
    }
    forall i | 1 <= i < |a.stack| ensures FixReady(t, a.stack[i]) {
      if i < |a.stack| - 1 {
        assert a.Scanned()[i - 1] == a.stack[i];
        ScannedIsLive(s, a, i - 1);
      }
    }
    forall i | 0 <= i < |a.statics| - 1 ensures FixReady(t, a.statics[i]) {
      assert a.Scanned()[|a.stack| - 2 + |a.extra| + i] == a.statics[i];
      ScannedIsLive(s, a, |a.stack| - 2 + |a.extra| + i);
    }
    forall i | 0 <= i < |a.locals| && LocalSlot(i) in a.extra ensures FixReady(t, a.locals[i]) {
      var k :| 0 <= k < |a.extra| && a.extra[k] == LocalSlot(i);
      assert a.Scanned()[|a.stack| - 2 + k] == a.Load(a.extra[k]);
      ScannedIsLive(s, a, |a.stack| - 2 + k);
    }
  }

  lemma SameWordFacts(s: Snapshot, m: seq<Word>, v: Word)
    ensures var t := s.(mem := m);
            (t.GoodWord(v) <==> s.GoodWord(v)) && (t.InRange(v) <==> s.InRange(v)) && t.Target(v) == s.Target(v)
  {
    hide HeaderAt;
  }

  lemma MarkedLiveSize(s: Snapshot, a: Areas, m: seq<Word>)
    requires s.Valid() && SameButForward(s, m) && Marked(s.(mem := m)) == Live(s, a)
    ensures LiveSize(s.(mem := m), Marked(s.(mem := m))) == LiveSize(s, Live(s, a)) && |m| == |s.mem|
  {
    hide Marked, Live, SameButForward;
    SameLiveBefore(s, m, Live(s, a), |s.objs|);
    SameWidth(s, m);
  }

  // -------------------------------------------------------------- after the phases

  lemma RedirectedLoad(s: Snapshot, marked: set<int>, newBegin: nat, a: Areas, a': Areas, sl: Slot)
    requires AreasRedirected(s, marked, newBegin, a, a') && sl in a.extra && a.InBounds(sl)
    requires sl != StackSlot(0) && sl != StaticSlot(|a.statics| - 1)
    ensures a'.InBounds(sl) && Redirects(s, marked, newBegin, a.Load(sl), a'.Load(sl))
  {
    hide Redirects;
  }

  lemma WellFormedAfter(s: Snapshot, marked: set<int>, newBegin: nat, a: Areas, a': Areas)
    requires AreasRedirected(s, marked, newBegin, a, a') && a.WellFormed()
    ensures a'.WellFormed() && |a'.stack| == |a.stack| && |a'.statics| == |a.statics| && a'.extra == a.extra
  {
    forall k | 0 <= k < |a'.extra| ensures a'.InBounds(a'.extra[k]) {
      assert a.InBounds(a.extra[k]);
    }
  }

  lemma ScannedRedirected(s: Snapshot, marked: set<int>, newBegin: nat, a: Areas, a': Areas, i: nat)
    requires AreasRedirected(s, marked, newBegin, a, a') && a.WellFormed() && i < |a.Scanned()|
    requires forall k :: 0 <= k < |a.extra| ==> a.extra[k] != StackSlot(0) && a.extra[k] != StaticSlot(|a.statics| - 1)
    ensures |a'.Scanned()| == |a.Scanned()|
    ensures Redirects(s, marked, newBegin, a.Scanned()[i], a'.Scanned()[i])
  {
    hide Redirects, Areas.Scanned, Areas.Load;
    WellFormedAfter(s, marked, newBegin, a, a');
    ScannedParts(a);
    ScannedParts(a');
    var x, y := |a.stack| - 2, |a.extra|;
    if i < x {
      assert a.Scanned()[i + 1 - 1] == a.stack[i + 1] && a'.Scanned()[i + 1 - 1] == a'.stack[i + 1];
    } else if i < x + y {
      var k := i - x;
      assert a.Scanned()[x + k] == a.Load(a.extra[k]) && a'.Scanned()[x + k] == a'.Load(a'.extra[k]);
      RedirectedLoad(s, marked, newBegin, a, a', a.extra[k]);
    } else {
      var k := i - x - y;
      assert a.Scanned()[x + y + k] == a.statics[k] && a'.Scanned()[x + y + k] == a'.statics[k];
    }
  }

  lemma {:induction false} RootsOfWhich(s: Snapshot, vs: seq<Word>, r: int) returns (i: nat)
    requires r in s.RootsOf(vs)
    ensures i < |vs| && s.InRange(vs[i]) && r == s.Target(vs[i])
  {
    var n := |vs| - 1;
    if r in s.RootOf(vs[n]) {
      i := n;
    } else {
      i := RootsOfWhich(s, vs[..n], r);
    }
  }

  /** The images of the old roots are the new roots. */
  lemma RootImages(s: Snapshot, a: Areas, t: Snapshot, a': Areas, r: int)
    requires NewHeap(s, Live(s, a), t) && RootsGood(s, a) && r in s.RootsOf(a.Scanned())
    requires NoStrayRoots(s, a, t.begin, |t.mem|)
    requires AreasRedirected(s, Live(s, a), t.begin, a, a')
    ensures Image(s, Live(s, a), r) in t.RootsOf(a'.Scanned())
  {
    hide Redirects, AreasRedirected, Areas.Scanned, Live, NewHeap, Image, HeaderAt;
    var i := RootsOfWhich(s, a.Scanned(), r);
    OneRoot(s, a, t, a', i);
    RootsOfMember(t, a'.Scanned(), i);
    assert Image(s, Live(s, a), r) in t.RootOf(a'.Scanned()[i]);
  }

  lemma OneRoot(s: Snapshot, a: Areas, t: Snapshot, a': Areas, i: nat)
    requires NewHeap(s, Live(s, a), t) && RootsGood(s, a) && i < |a.Scanned()|
    requires NoStrayRoots(s, a, t.begin, |t.mem|)
    requires AreasRedirected(s, Live(s, a), t.begin, a, a')
    ensures |a'.Scanned()| == |a.Scanned()|
    ensures RootKept(s, a, t, a.Scanned()[i], a'.Scanned()[i])
    ensures t.InRange(a'.Scanned()[i]) <==> s.InRange(a.Scanned()[i])
    ensures s.InRange(a.Scanned()[i]) ==> t.Target(a'.Scanned()[i]) == Image(s, Live(s, a), s.Target(a.Scanned()[i]))
  {
    hide AreasRedirected, Areas.Scanned, Live, NewHeap, Image, HeaderAt, Snapshot.GoodWord, Snapshot.InRange,
      Snapshot.SoundWord;
    ScannedRedirected(s, Live(s, a), t.begin, a, a', i);
    ScannedIsLive(s, a, i);
    FixedPointer(s, Live(s, a), t, a.Scanned()[i]);
  }

  /** A completed collection: the reachable objects, and only they, survive, all pointers among them and
      from the roots lead to the images of what they led to, and the result is a sound heap. */
  lemma CollectionCorrect(s: Snapshot, a: Areas, m: seq<Word>, t: Snapshot, a': Areas)
    requires s.Valid() && RootsGood(s, a)
    requires SameButForward(s, m) && Marked(s.(mem := m)) == Live(s, a)
    requires NewHeap(s.(mem := m), Live(s, a), t)
    requires AreasRedirected(s.(mem := m), Live(s, a), t.begin, a, a')
    requires NoStrayWords(s, Live(s, a), t.begin, |t.mem|) && NoStrayRoots(s, a, t.begin, |t.mem|)
    ensures Collected(s, a, t, a')
  {
    hide SameButForward, Marked, Live, NewHeap, AreasRedirected, NoStrayWords, NoStrayRoots, Survivors, Areas.Scanned,
      RootKept, Snapshot.Sound, Snapshot.Parses, Snapshot.PointersGood, ClosedUnderEdges;
    SameNewHeap(s, m, Live(s, a), t);
    SameAreasRedirected(s, m, Live(s, a), t.begin, a, a');
    HeapOfLive(s, a, t);
    NewHeapValid(s, Live(s, a), t);
    ScannedLength(s, Live(s, a), t.begin, a, a');
    forall i | 0 <= i < |a.Scanned()| ensures RootKept(s, a, t, a.Scanned()[i], a'.Scanned()[i]) {
      OneRoot(s, a, t, a', i);
    }
    NothingElseSurvives(s, a, t, a');
  }

  lemma HeapOfLive(s: Snapshot, a: Areas, t: Snapshot)
    requires s.Valid() && NewHeap(s, Live(s, a), t) && NoStrayWords(s, Live(s, a), t.begin, |t.mem|)
    ensures MarkedHeap(s, Live(s, a), t)
  {
    hide Survivors, NoStrayWords, Snapshot.Parses;
    ReachableClosed(s, s.RootsOf(a.Scanned()));
  }

  lemma ScannedLength(s: Snapshot, marked: set<int>, newBegin: nat, a: Areas, a': Areas)
    requires AreasRedirected(s, marked, newBegin, a, a') && a.WellFormed()
    ensures |a'.Scanned()| == |a.Scanned()|
  {
    hide Redirects, Areas.Scanned, Areas.Load;
    WellFormedAfter(s, marked, newBegin, a, a');
    ScannedParts(a);
    ScannedParts(a');
  }

  lemma NothingElseSurvives(s: Snapshot, a: Areas, t: Snapshot, a': Areas)
    requires MarkedHeap(s, Live(s, a), t) && RootsGood(s, a) && NoStrayRoots(s, a, t.begin, |t.mem|)
    requires AreasRedirected(s, Live(s, a), t.begin, a, a')
    ensures forall p :: p in t.objs ==> p in Live(t, a')
  {
    hide AreasRedirected, MarkedHeap, NoStrayRoots, Areas.Scanned, Snapshot.Reachable, Image;
    var roots, roots' := s.RootsOf(a.Scanned()), t.RootsOf(a'.Scanned());
    RootsAreObjects(s, a.Scanned());
    forall r | r in roots ensures Image(s, s.Reachable(roots), r) in roots' {
      MarkedIsNew(s, Live(s, a), t);
      RootImages(s, a, t, a', r);
    }
    OnlyReachableSurvive(s, t, roots, roots');
  }

  lemma MarkedIsNew(s: Snapshot, marked: set<int>, t: Snapshot)
    requires MarkedHeap(s, marked, t)
    ensures NewHeap(s, marked, t)
  {
  }

  /** The new chunk has room for the request that triggered the collection, and never shrinks. */
  lemma RoomAfterCollection(s: Snapshot, a: Areas, t: Snapshot, a': Areas, additional: nat)
    requires Collected(s, a, t, a') && |t.mem| == NextSize(s, a, additional)
    ensures t.current + additional <= |t.mem| && |s.mem| <= |t.mem|
  {
    hide Live, Snapshot.Sound, AreasRedirected, RootKept;
  }
}
