/** What a whole collection keeps: the surviving objects, and the heap they form. */
module Survival {
  import opened Words
  import opened Layout
  import opened Marking
  import opened Compaction

  /** Byte b of the string object with header o. */
  ghost function StringByte(m: seq<Word>, o: int, b: nat): nat {
    Byte(At(m, o + 2 + b / 8), b % 8)
  }

  /** Offsets of the objects of the new heap. */
  ghost function NewObjs(s: Snapshot, marked: set<int>, k: nat): seq<nat>
    requires k <= |s.objs|
  {
    if k == 0 then []
    else NewObjs(s, marked, k - 1) + (if s.objs[k - 1] in marked then [LiveBefore(s, marked, k - 1)] else [])
  }

  ghost predicate SameField(s: Snapshot, marked: set<int>, t: Snapshot, o: int, p: int, i: int) {
    At(t.mem, p + i) == FixWord(s, marked, t.begin, At(s.mem, o + i))
  }

  ghost predicate SameStringByte(s: Snapshot, t: Snapshot, o: int, p: int, b: nat) {
    StringByte(t.mem, p, b) == StringByte(s.mem, o, b)
  }

  /** Object p of heap t is object o of heap s: same kind and length, same code word or tag, same
      string bytes, and every scanned field redirected to the image of its old target. */
  ghost predicate Copied(s: Snapshot, marked: set<int>, t: Snapshot, o: int, p: int) {
    && ValidHeader(s.Header(o)) && t.Header(p) == s.Header(o)
    && FlagsClear(At(t.mem, p + 1))
    && (forall i :: 0 <= i && s.IsField(o, o + i) ==> SameField(s, marked, t, o, p, i))
    && (KindOf(s.Header(o)) in {CLOSURE, SEXP} && s.Size(o) >= 3 ==> At(t.mem, p + 2) == At(s.mem, o + 2))
    && (KindOf(s.Header(o)).STRING? ==>
          forall b :: 0 <= b < Len(s.Header(o)) + 1 ==> SameStringByte(s, t, o, p, b))
  }

  /** Heap t holds exactly the marked objects of s, at their images. */
  ghost predicate Survivors(s: Snapshot, marked: set<int>, t: Snapshot) {
    && t.current == LiveSize(s, marked)
    && t.objs == NewObjs(s, marked, |s.objs|)
    && forall o :: o in s.objs && o in marked ==> Copied(s, marked, t, o, Image(s, marked, o))
  }

  // --------------------------------------------------------- the new object list

  lemma {:induction false} NewObjsMembers(s: Snapshot, marked: set<int>, k: nat, p: int)
    requires k <= |s.objs|
    ensures p in NewObjs(s, marked, k) <==>
            exists j :: 0 <= j < k && s.objs[j] in marked && p == LiveBefore(s, marked, j)
  {
    if k > 0 {
      NewObjsMembers(s, marked, k - 1, p);
    }
  }

  /** The images of the marked objects, and nothing else, are the objects of the new heap. */
  lemma ImagesAreAll(s: Snapshot, marked: set<int>, p: int)
    requires s.Parses()
    ensures p in NewObjs(s, marked, |s.objs|) <==>
            exists o :: o in s.objs && o in marked && p == Image(s, marked, o)
  {
    NewObjsMembers(s, marked, |s.objs|, p);
    if p in NewObjs(s, marked, |s.objs|) {
      var j :| 0 <= j < |s.objs| && s.objs[j] in marked && p == LiveBefore(s, marked, j);
      IndexUnique(s, j);
      assert s.objs[j] in s.objs && p == Image(s, marked, s.objs[j]);
    }
    if o: int :| o in s.objs && o in marked && p == Image(s, marked, o) {
      var j := IndexOf(s.objs, o);
      assert s.objs[j] in marked && p == LiveBefore(s, marked, j);
    }
  }

  ghost predicate ObjectFits(u: Snapshot) {
    && u.current < |u.mem| && ValidHeader(u.mem[u.current])
    && u.current + SizeWords(u.mem[u.current]) <= |u.mem|
  }

  ghost function Appended(u: Snapshot): Snapshot
    requires ObjectFits(u)
  {
    u.(current := u.current + SizeWords(u.mem[u.current]), objs := u.objs + [u.current])
  }

  /** One more whole object after the last one. */
  lemma AppendParses(u: Snapshot)
    requires u.Parses() && ObjectFits(u)
    ensures Appended(u).Parses()
  {
    var t := Appended(u);
    forall k | 0 <= k < |t.objs| ensures t.ObjectAt(k) {
      if k < |u.objs| {
        assert u.ObjectAt(k);
      }
    }
    forall i, j | 0 <= i < j < |t.objs| ensures t.objs[i] + 2 <= t.objs[j] {
      Shape(u, u.objs[i]);
    }
  }

  ghost predicate Basics(begin: nat, mem: seq<Word>) {
    0 < begin && begin % 8 == 0 && begin + 8 * |mem| < MODULUS
  }

  lemma EmptyParses(newBegin: nat, m: seq<Word>)
    requires Basics(newBegin, m)
    ensures Snapshot(newBegin, 0, [], m).Parses()
  {
  }

  lemma {:induction false} NewHeapParses(s: Snapshot, marked: set<int>, newBegin: nat, m: seq<Word>, k: nat)
    requires s.Parses() && Basics(newBegin, m) && |s.mem| <= |m| && k <= |s.objs|
    requires forall j :: 0 <= j < k && s.objs[j] in marked ==> At(m, LiveBefore(s, marked, j)) == s.Header(s.objs[j])
    ensures Snapshot(newBegin, LiveBefore(s, marked, k), NewObjs(s, marked, k), m).Parses()
  {
    hide Snapshot.Parses;
    var t := Snapshot(newBegin, LiveBefore(s, marked, k), NewObjs(s, marked, k), m);
    if k == 0 {
      EmptyParses(newBegin, m);
    } else {
      NewHeapParses(s, marked, newBegin, m, k - 1);
      if s.objs[k - 1] in marked {
        var u := Snapshot(newBegin, LiveBefore(s, marked, k - 1), NewObjs(s, marked, k - 1), m);
        var o := s.objs[k - 1];
        Shape(s, o);
        LiveBeforeOrder(s, marked, k - 1, k - 1);
        AppendParses(u);
        assert Appended(u) == t;
      } else {
        assert NewObjs(s, marked, k) == NewObjs(s, marked, k - 1);
      }
    }
  }

  // ------------------------------------------------------ the surviving objects

  /** The heap after update_references and physically_relocate. */
  ghost predicate Compacted(s: Snapshot, marked: set<int>, newBegin: nat, m2: seq<Word>, m3: seq<Word>) {
    && FixedBelow(s, marked, newBegin, m2, s.current)
    && Slid(s, marked, m2, m3, |s.objs|)
  }

  lemma FixedHeaders(s: Snapshot, marked: set<int>, newBegin: nat, m2: seq<Word>, bound: int)
    requires s.Parses() && FixedBelow(s, marked, newBegin, m2, bound)
    ensures SameHeaders(s, m2)
  {
    forall o | o in s.objs ensures At(m2, o) == s.Header(o) {
      Shape(s, o);
      OnlyOwnFields(s, marked, o, o);
    }
  }

  /** Words of a marked object after fixing. */
  lemma FixedWords(s: Snapshot, marked: set<int>, newBegin: nat, m2: seq<Word>, o: int, i: int)
    requires s.Parses() && o in s.objs && o in marked && o <= i < o + s.Size(o)
    requires FixedBelow(s, marked, newBegin, m2, s.current)
    ensures At(m2, i) == if s.IsField(o, i) then FixWord(s, marked, newBegin, At(s.mem, i)) else At(s.mem, i)
  {
    Shape(s, o);
    OnlyOwnFields(s, marked, o, i);
  }

  /** Fields, code word and tag are whole words of the object. */
  lemma WholeWords(s: Snapshot, o: int, i: int)
    requires s.Parses() && o in s.objs && 2 <= i < s.Size(o) && !KindOf(s.Header(o)).STRING?
    ensures i < SizeBytes(s.Header(o)) / 8
  {
    Shape(s, o);
    SizeParts(s.Header(o));
    var n := s.Size(o);
    DivMod8(n, 0);
    assert SizeBytes(s.Header(o)) == 8 * n + 0;
  }

  lemma CopiedField(s: Snapshot, marked: set<int>, newBegin: nat, m2: seq<Word>, m3: seq<Word>, o: int, p: int, i: int)
    requires s.Parses() && o in s.objs && o in marked && FixedBelow(s, marked, newBegin, m2, s.current)
    requires Moved(m2, o, m3, p) && 2 <= i < s.Size(o) && !KindOf(s.Header(o)).STRING?
    requires At(m2, o) == s.Header(o)
    ensures At(m3, p + i) == if s.IsField(o, o + i) then FixWord(s, marked, newBegin, At(s.mem, o + i))
            else At(s.mem, o + i)
  {
    WholeWords(s, o, i);
    assert SameWord(m2, o, m3, p, i);
    FixedWords(s, marked, newBegin, m2, o, o + i);
  }

  lemma StringIsLong(h: Word, b: nat)
    requires ValidHeader(h) && KindOf(h).STRING? && b < Len(h) + 1
    ensures 2 + b / 8 < SizeWords(h)
    ensures 2 + b / 8 < SizeBytes(h) / 8 || (2 + b / 8 == SizeBytes(h) / 8 && b % 8 < SizeBytes(h) % 8)
  {
    var n := Len(h) + 1;
    SizeParts(h);
    assert n == 8 * (n / 8) + n % 8 && b == 8 * (b / 8) + b % 8;
    assert SizeBytes(h) == 8 * (n / 8 + 2) + n % 8;
    DivMod8(n / 8 + 2, n % 8);
  }

  lemma CopiedString(s: Snapshot, marked: set<int>, newBegin: nat, m2: seq<Word>, m3: seq<Word>, o: int, p: int, b: nat)
    requires s.Parses() && o in s.objs && o in marked && FixedBelow(s, marked, newBegin, m2, s.current)
    requires Moved(m2, o, m3, p) && At(m2, o) == s.Header(o)
    requires ValidHeader(s.Header(o)) && KindOf(s.Header(o)).STRING? && b < Len(s.Header(o)) + 1
    ensures StringByte(m3, p, b) == StringByte(s.mem, o, b)
  {
    hide FixedBelow, FixWord, Snapshot.Parses, Byte, SizeWords, ResetMarkBit;
    var i := 2 + b / 8;
    StringIsLong(s.Header(o), b);
    FixedWords(s, marked, newBegin, m2, o, o + i);
    if i < SizeBytes(s.Header(o)) / 8 {
      assert SameWord(m2, o, m3, p, i);
    } else {
      assert SameLowBytes(At(m2, o + i), At(m3, p + i), SizeBytes(s.Header(o)) % 8);
    }
  }

  lemma ClearedFlags(w: Word)
    requires !EnqueuedBit(w)
    ensures FlagsClear(ResetMarkBit(w))
  {
  }

  lemma CopiedObject(s: Snapshot, marked: set<int>, t: Snapshot, m2: seq<Word>, k: nat)
    requires s.Parses() && NothingEnqueued(s) && Compacted(s, marked, t.begin, m2, t.mem)
    requires k < |s.objs| && s.objs[k] in marked
    ensures Copied(s, marked, t, s.objs[k], LiveBefore(s, marked, k))
  {
    hide FixedBelow, Slid, Moved, FixWord, ResetMarkBit, StringByte, Snapshot.Parses, FlagsClear;
    var o, p := s.objs[k], LiveBefore(s, marked, k);
    Shape(s, o);
    FixedHeaders(s, marked, t.begin, m2, s.current);
    MovedObject(s, marked, m2, t.mem, k);
    FixedWords(s, marked, t.begin, m2, o, o + 1);
    ClearedFlags(At(m2, o + 1));
    forall i | 0 <= i && s.IsField(o, o + i) ensures SameField(s, marked, t, o, p, i) {
      CopiedField(s, marked, t.begin, m2, t.mem, o, p, i);
    }
    if KindOf(s.Header(o)) in {CLOSURE, SEXP} && s.Size(o) >= 3 {
      CopiedField(s, marked, t.begin, m2, t.mem, o, p, 2);
    }
    if KindOf(s.Header(o)).STRING? {
      forall b | 0 <= b < Len(s.Header(o)) + 1 ensures SameStringByte(s, t, o, p, b) {
        CopiedString(s, marked, t.begin, m2, t.mem, o, p, b);
      }
    }
  }

  lemma MovedObject(s: Snapshot, marked: set<int>, m2: seq<Word>, m3: seq<Word>, k: nat)
    requires s.Parses() && SameHeaders(s, m2) && Slid(s, marked, m2, m3, |s.objs|)
    requires k < |s.objs| && s.objs[k] in marked
    ensures var o, p := s.objs[k], LiveBefore(s, marked, k);
            && At(m2, o) == s.Header(o) && Moved(m2, o, m3, p)
            && At(m3, p) == s.Header(o) && At(m3, p + 1) == ResetMarkBit(At(m2, o + 1))
  {
  }

  /** Compaction leaves exactly the marked objects. */
  lemma CompactionKeeps(s: Snapshot, marked: set<int>, t: Snapshot, m2: seq<Word>)
    requires s.Parses() && NothingEnqueued(s) && Compacted(s, marked, t.begin, m2, t.mem)
    requires t.current == LiveSize(s, marked) && t.objs == NewObjs(s, marked, |s.objs|)
    ensures Survivors(s, marked, t)
  {
    forall o | o in s.objs && o in marked ensures Copied(s, marked, t, o, Image(s, marked, o)) {
      CopiedObject(s, marked, t, m2, IndexOf(s.objs, o));
    }
  }

  // ------------------------------------------------------------ the new heap

  /** A word that is no address inside the chunk of `words` words at `begin`, its end included. */
  ghost predicate Outside(begin: nat, words: nat, v: Word) {
    v % 2 == 0 ==> v < begin || v > begin + 8 * words
  }

  /** No word held by a marked object is, by accident, an address in the new chunk. */
  ghost predicate NoStrayWords(s: Snapshot, marked: set<int>, begin: nat, words: nat) {
    forall o, i :: o in marked && o in s.objs && s.IsField(o, i) && !s.InRange(s.mem[i]) ==>
        Outside(begin, words, s.mem[i])
  }

  /** A word the compaction may meet: a heap pointer leads to a marked object, and anything else
      is no address in the new chunk. */
  ghost predicate Followable(s: Snapshot, marked: set<int>, begin: nat, words: nat, v: Word) {
    && s.GoodWord(v)
    && (s.InRange(v) ==> s.Target(v) in marked)
    && (!s.InRange(v) ==> Outside(begin, words, v))
  }

  ghost predicate NewHeap(s: Snapshot, marked: set<int>, t: Snapshot) {
    && s.Parses() && Survivors(s, marked, t) && t.Parses()
    && ChunkFits(s, t.begin, |t.mem|) && 2 * LiveSize(s, marked) <= |t.mem|
  }

  /** A fixed word points to the image of what the word pointed to, or to nothing as before. */
  lemma FixedPointer(s: Snapshot, marked: set<int>, t: Snapshot, v: Word)
    requires NewHeap(s, marked, t) && Followable(s, marked, t.begin, |t.mem|, v)
    ensures 0 <= FixWord(s, marked, t.begin, v) < MODULUS
    ensures t.GoodWord(FixWord(s, marked, t.begin, v)) && t.SoundWord(FixWord(s, marked, t.begin, v))
    ensures t.InRange(FixWord(s, marked, t.begin, v)) <==> s.InRange(v)
    ensures s.InRange(v) ==>
              t.Target(FixWord(s, marked, t.begin, v)) == Image(s, marked, s.Target(v))
                  && Image(s, marked, s.Target(v)) in t.objs
  {
    hide Survivors, NewObjs, LiveBefore;
    FixedOnce(s, marked, t.begin, |t.mem|, v);
    if s.InRange(v) {
      var o := s.Target(v);
      NewObject(s, marked, t, o);
      ContentIsWord(t, Image(s, marked, o));
    }
  }

  lemma NewObject(s: Snapshot, marked: set<int>, t: Snapshot, o: int)
    requires NewHeap(s, marked, t) && o in s.objs && o in marked
    ensures Image(s, marked, o) in t.objs && Copied(s, marked, t, o, Image(s, marked, o))
    ensures t.Size(Image(s, marked, o)) == s.Size(o)
  {
    ImagesAreAll(s, marked, Image(s, marked, o));
  }

  lemma OldObject(s: Snapshot, marked: set<int>, t: Snapshot, p: int) returns (o: int)
    requires NewHeap(s, marked, t) && p in t.objs
    ensures o in s.objs && o in marked && p == Image(s, marked, o) && Copied(s, marked, t, o, p)
    ensures t.Size(p) == s.Size(o)
  {
    ImagesAreAll(s, marked, p);
    o :| o in s.objs && o in marked && p == Image(s, marked, o);
  }

  /** The scanned fields of an object and of its image correspond. */
  lemma CorrespondingFields(s: Snapshot, marked: set<int>, t: Snapshot, o: int, j: int)
    requires NewHeap(s, marked, t) && o in s.objs && o in marked
    ensures var p := Image(s, marked, o);
            && (t.IsField(p, p + j) <==> s.IsField(o, o + j))
            && (s.IsField(o, o + j) ==> t.mem[p + j] == FixWord(s, marked, t.begin, s.mem[o + j]))
  {
    hide Snapshot.Parses, NewObjs, LiveBefore, FixWord, FlagsClear, StringByte;
    NewObject(s, marked, t, o);
    var p := Image(s, marked, o);
    Shape(s, o);
    Shape(t, p);
    if s.IsField(o, o + j) {
      assert SameField(s, marked, t, o, p, j);
    }
  }

  ghost predicate MarkedHeap(s: Snapshot, marked: set<int>, t: Snapshot) {
    && NewHeap(s, marked, t) && s.PointersGood() && ClosedUnderEdges(s, marked)
    && NoStrayWords(s, marked, t.begin, |t.mem|)
  }

  lemma FieldFollowable(s: Snapshot, marked: set<int>, t: Snapshot, o: int, i: int)
    requires MarkedHeap(s, marked, t) && o in s.objs && o in marked && s.IsField(o, i)
    ensures Followable(s, marked, t.begin, |t.mem|, s.mem[i])
  {
    assert s.GoodWord(s.mem[i]);
    if s.InRange(s.mem[i]) {
      assert s.Edge(o, s.Target(s.mem[i]));
    }
  }

  /** The heap after a collection satisfies the heap invariant. */
  lemma NewHeapValid(s: Snapshot, marked: set<int>, t: Snapshot)
    requires MarkedHeap(s, marked, t)
    ensures t.Sound()
  {
    hide Snapshot.Parses, FixWord, StringByte, Followable, NoStrayWords, ClosedUnderEdges, HeaderAt;
    forall p, i | p in t.objs && t.IsField(p, i) ensures t.GoodWord(t.mem[i]) && t.SoundWord(t.mem[i]) {
      var o := OldObject(s, marked, t, p);
      var j := i - p;
      CorrespondingFields(s, marked, t, o, j);
      FieldFollowable(s, marked, t, o, o + j);
      FixedPointer(s, marked, t, s.mem[o + j]);
    }
    forall p | p in t.objs ensures FlagsClear(t.Header(p + 1)) {
      var o := OldObject(s, marked, t, p);
    }
  }

  /** Pointers between survivors are the pointers there were between their originals. */
  lemma EdgesPreserved(s: Snapshot, marked: set<int>, t: Snapshot, o: int, x: int)
    requires MarkedHeap(s, marked, t) && o in s.objs && o in marked && x in s.objs && x in marked
    ensures t.Edge(Image(s, marked, o), Image(s, marked, x)) <==> s.Edge(o, x)
  {
    hide Snapshot.Parses, FixWord, StringByte, Followable, NoStrayWords, ClosedUnderEdges, Survivors;
    var p, q := Image(s, marked, o), Image(s, marked, x);
    if s.Edge(o, x) {
      var i :| s.IsField(o, i) && s.InRange(s.mem[i]) && s.Target(s.mem[i]) == x;
      CorrespondingFields(s, marked, t, o, i - o);
      FieldFollowable(s, marked, t, o, i);
      FixedPointer(s, marked, t, s.mem[i]);
      assert t.IsField(p, p + (i - o)) && t.Target(t.mem[p + (i - o)]) == q;
    }
    if t.Edge(p, q) {
      var i :| t.IsField(p, i) && t.InRange(t.mem[i]) && t.Target(t.mem[i]) == q;
      CorrespondingFields(s, marked, t, o, i - p);
      var j := o + (i - p);
      FieldFollowable(s, marked, t, o, j);
      FixedPointer(s, marked, t, s.mem[j]);
      var y := s.Target(s.mem[j]);
      FieldTarget(s, marked, t, o, j);
      ImageInjective(s, marked, x, y);
    }
  }

  lemma FieldTarget(s: Snapshot, marked: set<int>, t: Snapshot, o: int, j: int)
    requires MarkedHeap(s, marked, t) && o in s.objs && o in marked && s.IsField(o, j) && s.InRange(s.mem[j])
    ensures s.Target(s.mem[j]) in s.objs && s.Target(s.mem[j]) in marked && s.Edge(o, s.Target(s.mem[j]))
  {
    FieldFollowable(s, marked, t, o, j);
  }

  /** Different objects have different images. */
  lemma ImageInjective(s: Snapshot, marked: set<int>, o: int, x: int)
    requires s.Parses() && o in s.objs && o in marked && x in s.objs && x in marked
    requires Image(s, marked, o) == Image(s, marked, x)
    ensures o == x
  {
    Shape(s, o);
    Shape(s, x);
    if o < x { ImagesApart(s, marked, o, x); }
    if x < o { ImagesApart(s, marked, x, o); }
  }

  lemma {:induction false} ReachPreserved(s: Snapshot, marked: set<int>, t: Snapshot, n: nat,
                                          roots: set<int>, roots': set<int>, o: int)
    requires MarkedHeap(s, marked, t) && (forall r :: r in roots ==> r in s.objs) && roots <= marked
    requires forall r :: r in roots ==> Image(s, marked, r) in roots'
    requires s.ReachIn(n, roots, o)
    ensures o in s.objs && o in marked && t.ReachIn(n, roots', Image(s, marked, o))
  {
    if n > 0 {
      var k: nat := n - 1;
      var p :| s.ReachIn(k, roots, p) && s.Edge(p, o);
      ReachPreserved(s, marked, t, k, roots, roots', p);
      EdgeTarget(s, p, o);
      EdgesPreserved(s, marked, t, p, o);
      assert t.ReachIn(k, roots', Image(s, marked, p)) && t.Edge(Image(s, marked, p), Image(s, marked, o));
    }
  }

  /** When the marked objects are the reachable ones, every object of the new heap is reachable
      from the fixed roots: nothing unreachable survives. */
  lemma OnlyReachableSurvive(s: Snapshot, t: Snapshot, roots: set<int>, roots': set<int>)
    requires MarkedHeap(s, s.Reachable(roots), t)
    requires forall r :: r in roots ==> r in s.objs
    requires forall r :: r in roots ==> Image(s, s.Reachable(roots), r) in roots'
    ensures forall p :: p in t.objs ==> p in t.Reachable(roots')
  {
    var marked := s.Reachable(roots);
    forall r | r in roots ensures r in marked {
      RootReached(s, roots, r);
    }
    forall p | p in t.objs ensures p in t.Reachable(roots') {
      var o := OldObject(s, marked, t, p);
      var n: nat :| s.ReachIn(n, roots, o);
      ReachPreserved(s, marked, t, n, roots, roots', o);
    }
  }

  // ------------------------------------ the same result seen from before marking

  lemma {:induction false} SameLiveBefore(s: Snapshot, m: seq<Word>, marked: set<int>, k: nat)
    requires s.Parses() && SameButForward(s, m) && k <= |s.objs|
    ensures LiveBefore(s.(mem := m), marked, k) == LiveBefore(s, marked, k)
  {
    if k > 0 {
      SameLiveBefore(s, m, marked, k - 1);
      SameObject(s, m, s.objs[k - 1]);
    }
  }

  lemma SameImage(s: Snapshot, m: seq<Word>, marked: set<int>, o: int)
    requires s.Parses() && SameButForward(s, m)
    ensures Image(s.(mem := m), marked, o) == Image(s, marked, o)
  {
    if o in s.objs {
      SameLiveBefore(s, m, marked, IndexOf(s.objs, o));
    }
  }

  lemma SameFix(s: Snapshot, m: seq<Word>, marked: set<int>, newBegin: nat, v: Word)
    requires s.Parses() && SameButForward(s, m)
    ensures FixWord(s.(mem := m), marked, newBegin, v) == FixWord(s, marked, newBegin, v)
  {
    SameImage(s, m, marked, s.Target(v));
  }

  lemma {:induction false} SameNewObjs(s: Snapshot, m: seq<Word>, marked: set<int>, k: nat)
    requires s.Parses() && SameButForward(s, m) && k <= |s.objs|
    ensures NewObjs(s.(mem := m), marked, k) == NewObjs(s, marked, k)
  {
    if k > 0 {
      SameNewObjs(s, m, marked, k - 1);
      SameLiveBefore(s, m, marked, k - 1);
    }
  }

  lemma SameWords(s: Snapshot, m: seq<Word>, o: int, i: int)
    requires s.Parses() && SameButForward(s, m) && o in s.objs && o + 2 <= i < o + s.Size(o)
    ensures At(m, i) == At(s.mem, i)
  {
    NotForwardWord(s, o, i);
  }

  lemma SameCopied(s: Snapshot, m: seq<Word>, marked: set<int>, t: Snapshot, o: int, p: int)
    requires s.Parses() && SameButForward(s, m) && o in s.objs && Copied(s.(mem := m), marked, t, o, p)
    ensures Copied(s, marked, t, o, p)
  {
    hide FixWord, Snapshot.Parses, SameButForward, StringByte, FlagsClear;
    var u := s.(mem := m);
    SameObject(s, m, o);
    Shape(s, o);
    forall i | 0 <= i && s.IsField(o, o + i) ensures SameField(s, marked, t, o, p, i) {
      assert u.IsField(o, o + i) && SameField(u, marked, t, o, p, i);
      SameFix(s, m, marked, t.begin, At(m, o + i));
      SameWords(s, m, o, o + i);
    }
    if KindOf(s.Header(o)) in {CLOSURE, SEXP} && s.Size(o) >= 3 {
      SameWords(s, m, o, o + 2);
    }
    if KindOf(s.Header(o)).STRING? {
      forall b | 0 <= b < Len(s.Header(o)) + 1 ensures SameStringByte(s, t, o, p, b) {
        assert SameStringByte(u, t, o, p, b);
        StringIsLong(s.Header(o), b);
        SameWords(s, m, o, o + 2 + b / 8);
        SameByteOf(s.mem, m, o, b);
      }
    }
  }

  lemma SameByteOf(m: seq<Word>, m': seq<Word>, o: int, b: nat)
    requires At(m, o + 2 + b / 8) == At(m', o + 2 + b / 8)
    ensures StringByte(m, o, b) == StringByte(m', o, b)
  {
  }

  lemma SameSurvivors(s: Snapshot, m: seq<Word>, marked: set<int>, t: Snapshot)
    requires s.Parses() && SameButForward(s, m) && Survivors(s.(mem := m), marked, t)
    ensures Survivors(s, marked, t)
  {
    hide Copied, SameButForward, Snapshot.Parses, Image, LiveBefore, NewObjs;
    SameLiveBefore(s, m, marked, |s.objs|);
    SameNewObjs(s, m, marked, |s.objs|);
    forall o | o in s.objs && o in marked ensures Copied(s, marked, t, o, Image(s, marked, o)) {
      SameImage(s, m, marked, o);
      SameCopied(s, m, marked, t, o, Image(s, marked, o));
    }
  }
}
