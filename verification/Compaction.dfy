/** Where marked objects go, how pointers to them are rewritten, and what sliding them keeps. */
module Compaction {
  import opened Words
  import opened Layout
  import opened Marking

  /** Words taken by the marked ones among the first k objects. */
  ghost function LiveBefore(s: Snapshot, marked: set<int>, k: nat): nat
    requires k <= |s.objs|
  {
    if k == 0 then 0
    else LiveBefore(s, marked, k - 1) + (if s.objs[k - 1] in marked then s.Size(s.objs[k - 1]) else 0)
  }

  ghost function LiveSize(s: Snapshot, marked: set<int>): nat {
    LiveBefore(s, marked, |s.objs|)
  }

  /** New offset of an object. */
  ghost function Image(s: Snapshot, marked: set<int>, o: int): nat {
    if o in s.objs then LiveBefore(s, marked, IndexOf(s.objs, o)) else 0
  }

  lemma IndexUnique(s: Snapshot, k: nat)
    requires s.Parses() && k < |s.objs|
    ensures IndexOf(s.objs, s.objs[k]) == k
  {
    var j := IndexOf(s.objs, s.objs[k]);
    InOrder(s, j, k);
  }

  /** Images are disjoint, in order, and not above the object of the same or a later number. */
  lemma {:induction false} LiveBeforeOrder(s: Snapshot, marked: set<int>, i: nat, k: nat)
    requires s.Parses() && i <= k <= |s.objs|
    ensures LiveBefore(s, marked, i) <= LiveBefore(s, marked, k)
    ensures i < k && s.objs[i] in marked ==> LiveBefore(s, marked, i) + s.Size(s.objs[i]) <= LiveBefore(s, marked, k)
    ensures LiveBefore(s, marked, k) <= Position(s, k)
  {
    if k > 0 {
      NextPosition(s, k - 1);
      if i < k {
        LiveBeforeOrder(s, marked, i, k - 1);
      } else {
        LiveBeforeOrder(s, marked, k - 1, k - 1);
      }
    }
  }

  /** The image of a marked object lies inside the live words. */
  lemma ImageBounds(s: Snapshot, marked: set<int>, o: int)
    requires s.Parses() && o in s.objs && o in marked
    ensures Image(s, marked, o) <= o
    ensures Image(s, marked, o) + s.Size(o) <= LiveSize(s, marked) <= s.current
  {
    var k := IndexOf(s.objs, o);
    LiveBeforeOrder(s, marked, k, k);
    LiveBeforeOrder(s, marked, k, |s.objs|);
  }

  /** Distinct marked objects have images that do not overlap, in the same order. */
  lemma ImagesApart(s: Snapshot, marked: set<int>, o: int, x: int)
    requires s.Parses() && o in s.objs && x in s.objs && o in marked && o < x
    ensures Image(s, marked, o) + s.Size(o) <= Image(s, marked, x)
  {
    var k, j := IndexOf(s.objs, o), IndexOf(s.objs, x);
    InOrder(s, j, k);
    LiveBeforeOrder(s, marked, k, j);
  }

  /** Every marked object up to the k-th one holds its new header address. */
  ghost predicate Located(s: Snapshot, marked: set<int>, m: seq<Word>, k: nat) {
    && k <= |s.objs|
    && forall i :: 0 <= i < k && s.objs[i] in marked ==>
         ForwardAddress(Forward(m, s.objs[i])) == s.begin + 8 * LiveBefore(s, marked, i)
  }

  ghost predicate SameFlags(s: Snapshot, m: seq<Word>) {
    forall o :: o in s.objs ==>
      && MarkBit(Forward(m, o)) == MarkBit(Forward(s.mem, o))
      && EnqueuedBit(Forward(m, o)) == EnqueuedBit(Forward(s.mem, o))
  }

  /** One step of compute_locations: what it reads and the address it writes. */
  lemma LocateFacts(s: Snapshot, m: seq<Word>, k: nat)
    requires s.Parses() && SameButForward(s, m) && SameFlags(s, m) && k < |s.objs|
    ensures var o, free := s.objs[k], LiveBefore(s, Marked(s), k);
            && o + 1 < |m| && ValidHeader(m[o]) && SizeWords(m[o]) == s.Size(o) && o + s.Size(o) == Position(s, k + 1)
            && 0 <= s.begin + 8 * free < MODULUS && (s.begin + 8 * free) % 4 == 0
            && (MarkBit(m[o + 1]) <==> o in Marked(s))
            && LiveBefore(s, Marked(s), k + 1) == free + (if o in Marked(s) then s.Size(o) else 0)
  {
    var o, free := s.objs[k], LiveBefore(s, Marked(s), k);
    Shape(s, o);
    SameObject(s, m, o);
    NextPosition(s, k);
    LiveBeforeOrder(s, Marked(s), k, k);
    AddressOf(s.begin, free);
  }

  lemma LocateMarked(s: Snapshot, marked: set<int>, m: seq<Word>, k: nat, a: Word)
    requires s.Parses() && SameButForward(s, m) && SameFlags(s, m) && Located(s, marked, m, k) && k < |s.objs|
    requires a == s.begin + 8 * LiveBefore(s, marked, k) && a % 4 == 0
    ensures var o := s.objs[k];
            && o + 1 < |m|
            && var m' := m[o + 1 := SetForwardAddress(m[o + 1], a)];
               SameButForward(s, m') && SameFlags(s, m') && Located(s, marked, m', k + 1)
  {
    hide SetForwardAddress, ForwardAddress, MarkBit, EnqueuedBit, Snapshot.Parses, Located, LiveBefore, SizeWords;
    var o := s.objs[k];
    Shape(s, o);
    var m' := m[o + 1 := SetForwardAddress(m[o + 1], a)];
    forall x | x in s.objs && x != o ensures Forward(m', x) == Forward(m, x) {
      Shape(s, x);
    }
    LocatedFurther(s, marked, m, m', k);
  }

  lemma LocatedFurther(s: Snapshot, marked: set<int>, m: seq<Word>, m': seq<Word>, k: nat)
    requires s.Parses() && k < |s.objs| && Located(s, marked, m, k)
    requires forall x :: x in s.objs && x != s.objs[k] ==> Forward(m', x) == Forward(m, x)
    requires ForwardAddress(Forward(m', s.objs[k])) == s.begin + 8 * LiveBefore(s, marked, k)
    ensures Located(s, marked, m', k + 1)
  {
    hide ForwardAddress, Forward;
    forall i | 0 <= i < k + 1 && s.objs[i] in marked
      ensures ForwardAddress(Forward(m', s.objs[i])) == s.begin + 8 * LiveBefore(s, marked, i)
    {
      InOrder(s, i, k);
    }
  }

  lemma LocatedUnmarked(s: Snapshot, marked: set<int>, m: seq<Word>, k: nat)
    requires Located(s, marked, m, k) && k < |s.objs| && s.objs[k] !in marked
    ensures Located(s, marked, m, k + 1)
  {
  }

  lemma NothingLocated(s: Snapshot)
    ensures SameButForward(s, s.mem) && SameFlags(s, s.mem) && Located(s, Marked(s), s.mem, 0)
  {
  }

  /** The object iterator: where it starts, when it is done, and that it moves on. */
  lemma FirstPosition(s: Snapshot)
    requires s.Parses()
    ensures Position(s, 0) == 0
  {
  }

  lemma BeforeEnd(s: Snapshot, k: nat)
    requires s.Parses() && k <= |s.objs| && Position(s, k) < s.current
    ensures k < |s.objs| && Position(s, k) < Position(s, k + 1) <= s.current && Position(s, k) == s.objs[k]
  {
    PositionsDiffer(s, k, k + 1);
  }

  lemma AtEnd(s: Snapshot, k: nat)
    requires s.Parses() && k <= |s.objs| && Position(s, k) >= s.current
    ensures k == |s.objs|
  {
    if k < |s.objs| {
      PositionsDiffer(s, k, |s.objs|);
    }
  }

  lemma AddressOf(begin: nat, i: nat)
    requires begin % 8 == 0
    ensures (begin + 8 * i) % 8 == 0 && (begin + 8 * i) % 4 == 0
    ensures (begin + 8 * i - begin) / 8 == i
  {
    DivMod8(begin / 8 + i, 0);
    assert begin + 8 * i == 8 * (begin / 8 + i) + 0;
    assert begin + 8 * i - begin == 8 * i + 0;
    DivMod8(i, 0);
    Aligned(begin + 8 * i);
  }

  // ------------------------------------------------------------ fixing pointers

  /** What a word becomes: a pointer into the old chunk is redirected to the image of its target. */
  ghost function FixWord(s: Snapshot, marked: set<int>, newBegin: nat, v: Word): int {
    if s.InRange(v) then newBegin + 8 * Image(s, marked, s.Target(v)) + 16 else v
  }

  /** The chunk chosen for the compacted heap. */
  ghost predicate ChunkFits(s: Snapshot, newBegin: nat, words: nat) {
    && 0 < newBegin && newBegin % 8 == 0 && newBegin + 8 * words < MODULUS
    && (newBegin + 8 * words <= s.begin || s.begin + 8 * |s.mem| <= newBegin)
  }

  /** A fixed word is a word, and one that pointed into the old chunk no longer does:
      fixing a slot twice is the same as fixing it once. */
  lemma FixedOnce(s: Snapshot, marked: set<int>, newBegin: nat, words: nat, v: Word)
    requires s.Parses() && s.GoodWord(v) && (s.InRange(v) ==> s.Target(v) in marked)
    requires ChunkFits(s, newBegin, words) && 2 * LiveSize(s, marked) <= words
    ensures 0 <= FixWord(s, marked, newBegin, v) < MODULUS
    ensures s.InRange(v) ==> newBegin + 16 <= FixWord(s, marked, newBegin, v) <= newBegin + 8 * LiveSize(s, marked)
    ensures FixWord(s, marked, newBegin, v) % 2 == v % 2
    ensures !s.InRange(FixWord(s, marked, newBegin, v))
    ensures FixWord(s, marked, newBegin, FixWord(s, marked, newBegin, v)) == FixWord(s, marked, newBegin, v)
  {
    if s.InRange(v) {
      var t := s.Target(v);
      Shape(s, t);
      ImageBounds(s, marked, t);
      AlignedAddress(newBegin, Image(s, marked, t));
    }
  }

  /** Word i is a scanned field of some marked object. */
  ghost predicate LiveField(s: Snapshot, marked: set<int>, i: int) {
    exists o :: o in marked && o in s.objs && s.IsField(o, i)
  }

  /** Every scanned field of a marked object before word `bound` is fixed; nothing else changed. */
  ghost predicate FixedBelow(s: Snapshot, marked: set<int>, newBegin: nat, m: seq<Word>, bound: int) {
    && |s.mem| <= |m|
    && forall i :: 0 <= i < |s.mem| ==>
         m[i] == if i < bound && LiveField(s, marked, i) then FixWord(s, marked, newBegin, s.mem[i]) else s.mem[i]
  }

  /** Words of an object that are not scanned fields of it are not scanned fields at all. */
  lemma OnlyOwnFields(s: Snapshot, marked: set<int>, o: int, i: int)
    requires s.Parses() && o in s.objs && o <= i < o + s.Size(o)
    ensures LiveField(s, marked, i) <==> o in marked && s.IsField(o, i)
  {
    if LiveField(s, marked, i) {
      var x :| x in marked && x in s.objs && s.IsField(x, i);
      Tiles(s, o, x);
      Tiles(s, x, o);
    }
  }

  lemma FixedFurther(s: Snapshot, marked: set<int>, newBegin: nat, m: seq<Word>, o: int, i: int, j: int)
    requires s.Parses() && o in s.objs && o <= i <= j <= o + s.Size(o)
    requires FixedBelow(s, marked, newBegin, m, i)
    requires forall x :: o in marked && s.IsField(o, x) && i <= x < j ==> !s.InRange(s.mem[x])
    ensures FixedBelow(s, marked, newBegin, m, j)
  {
    Shape(s, o);
    forall x | i <= x < j && LiveField(s, marked, x) ensures FixWord(s, marked, newBegin, s.mem[x]) == s.mem[x] {
      OnlyOwnFields(s, marked, o, x);
    }
  }

  lemma FixedField(s: Snapshot, marked: set<int>, newBegin: nat, m: seq<Word>, o: int, i: int, w: Word)
    requires s.Parses() && o in s.objs && o in marked && s.IsField(o, i)
    requires FixedBelow(s, marked, newBegin, m, i)
    requires w == FixWord(s, marked, newBegin, s.mem[i])
    ensures i < |m| && FixedBelow(s, marked, newBegin, m[i := w], i + 1)
  {
    OnlyOwnFields(s, marked, o, i);
  }

  /** The state in which pointers are rewritten: s is the old chunk with all new addresses known. */
  ghost predicate Relocating(s: Snapshot, newBegin: nat, words: nat) {
    && s.Parses() && s.PointersGood() && NothingEnqueued(s) && ClosedUnderEdges(s, Marked(s))
    && Located(s, Marked(s), s.mem, |s.objs|)
    && ChunkFits(s, newBegin, words) && 2 * LiveSize(s, Marked(s)) <= words && |s.mem| <= words
  }

  lemma RelocatingFacts(s: Snapshot, newBegin: nat, words: nat)
    requires Relocating(s, newBegin, words)
    ensures s.Parses()
  {
  }

  /** What a word of an object is while pointers are rewritten. */
  lemma CopyFacts(s: Snapshot, newBegin: nat, m: seq<Word>, bound: int, o: int)
    requires Relocating(s, newBegin, |m|) && FixedBelow(s, Marked(s), newBegin, m, bound) && o in s.objs
    ensures 0 <= o && o + 1 < |m| && m[o] == s.Header(o) && ValidHeader(m[o]) && SizeWords(m[o]) == s.Size(o)
    ensures m[o + 1] == Forward(s.mem, o) && (MarkBit(m[o + 1]) <==> o in Marked(s))
    ensures o + s.Size(o) <= s.current
    ensures Snapshot(newBegin, s.current, s.objs, m).Parses()
  {
    Shape(s, o);
    OnlyOwnFields(s, Marked(s), o, o);
    OnlyOwnFields(s, Marked(s), o, o + 1);
    CopyParses(s, newBegin, m, bound);
  }

  lemma CopyParses(s: Snapshot, newBegin: nat, m: seq<Word>, bound: int)
    requires Relocating(s, newBegin, |m|) && FixedBelow(s, Marked(s), newBegin, m, bound)
    ensures Snapshot(newBegin, s.current, s.objs, m).Parses()
  {
    var t := Snapshot(newBegin, s.current, s.objs, m);
    forall k | 0 <= k < |t.objs| ensures t.ObjectAt(k) {
      assert s.ObjectAt(k);
      Shape(s, s.objs[k]);
      OnlyOwnFields(s, Marked(s), s.objs[k], s.objs[k]);
    }
  }

  /** Offset arithmetic between the two chunks, from the forward word of a pointer's target. */
  function NewAddress(newBegin: nat, oldBegin: nat, forward: Word): int {
    newBegin + (ForwardAddress(forward) - oldBegin) + 16
  }

  /** The address computed for a pointer into the old chunk, from the copy of its target's forward word. */
  lemma RedirectedAddress(s: Snapshot, newBegin: nat, m: seq<Word>, bound: int, v: Word)
    requires Relocating(s, newBegin, |m|) && FixedBelow(s, Marked(s), newBegin, m, bound)
    requires s.InRange(v) && s.GoodWord(v) && s.Target(v) in Marked(s)
    ensures var o := HeaderAt(s.begin, v);
            && 0 <= o && o + 1 < |m|
            && NewAddress(newBegin, s.begin, m[o + 1]) == FixWord(s, Marked(s), newBegin, v)
    ensures 0 <= FixWord(s, Marked(s), newBegin, v) < MODULUS
  {
    hide HeaderAt, ForwardAddress, NewAddress, Image, Snapshot.Parses, Relocating, FixedBelow, Forward, Marked, MarkBit;
    var o := s.Target(v);
    LocatedAt(s, newBegin, |m|, v);
    CopyFacts(s, newBegin, m, bound, o);
    RedirectedWord(s, newBegin, |m|, v);
    RedirectSum(newBegin, s.begin, m[o + 1], Image(s, Marked(s), o));
  }

  lemma RedirectSum(newBegin: nat, oldBegin: nat, forward: Word, image: nat)
    requires ForwardAddress(forward) == oldBegin + 8 * image
    ensures NewAddress(newBegin, oldBegin, forward) == newBegin + 8 * image + 16
  {
    hide ForwardAddress;
  }

  lemma LocatedAt(s: Snapshot, newBegin: nat, words: nat, v: Word)
    requires Relocating(s, newBegin, words) && s.InRange(v) && s.GoodWord(v) && s.Target(v) in Marked(s)
    ensures s.Target(v) in s.objs
    ensures ForwardAddress(Forward(s.mem, s.Target(v))) == s.begin + 8 * Image(s, Marked(s), s.Target(v))
  {
    hide ForwardAddress, Forward, Marked, HeaderAt;
    assert s.objs[IndexOf(s.objs, s.Target(v))] in Marked(s);
  }

  lemma RedirectedWord(s: Snapshot, newBegin: nat, words: nat, v: Word)
    requires Relocating(s, newBegin, words)
    requires s.InRange(v) && s.GoodWord(v) && s.Target(v) in Marked(s)
    ensures 0 <= FixWord(s, Marked(s), newBegin, v) < MODULUS
  {
    FixedOnce(s, Marked(s), newBegin, words, v);
  }

  /** A scanned field not yet rewritten. */
  lemma FieldToFix(s: Snapshot, newBegin: nat, m: seq<Word>, o: int, i: int)
    requires Relocating(s, newBegin, |m|) && FixedBelow(s, Marked(s), newBegin, m, i)
    requires o in Marked(s) && s.IsField(o, i)
    ensures i < |m| && m[i] == s.mem[i] && s.GoodWord(m[i]) && (s.InRange(m[i]) ==> s.Target(m[i]) in Marked(s))
  {
    assert s.GoodWord(s.mem[i]);
    if s.InRange(s.mem[i]) {
      assert s.Edge(o, s.Target(s.mem[i]));
    }
  }

  /** No pointer between words i and j of object o: those words need no rewriting. */
  lemma FixedSkip(s: Snapshot, newBegin: nat, m: seq<Word>, o: int, i: int, j: int)
    requires Relocating(s, newBegin, |m|) && FixedBelow(s, Marked(s), newBegin, m, i)
    requires o in s.objs && o <= i <= o + s.Size(o) && i <= j
    requires forall x :: Snapshot(newBegin, s.current, s.objs, m).IsField(o, x) && i <= x < j ==> Unboxed(m[x])
    ensures FixedBelow(s, Marked(s), newBegin, m, Least(j, o + s.Size(o)))
  {
    CopyFacts(s, newBegin, m, i, o);
    var end := Least(j, o + s.Size(o));
    forall x | s.IsField(o, x) && i <= x < end ensures !s.InRange(s.mem[x]) {
      assert Snapshot(newBegin, s.current, s.objs, m).IsField(o, x);
    }
    FixedFurther(s, Marked(s), newBegin, m, o, i, end);
  }

  ghost function Least(i: int, j: int): int {
    if i <= j then i else j
  }

  /** A field holding no pointer into the old chunk is left alone. */
  lemma FixedForeign(s: Snapshot, marked: set<int>, newBegin: nat, m: seq<Word>, i: int)
    requires FixedBelow(s, marked, newBegin, m, i)
    requires 0 <= i < |s.mem| && !s.InRange(m[i])
    ensures FixedBelow(s, marked, newBegin, m, i + 1)
  {
    hide LiveField;
  }

  /** A dead object is skipped. */
  lemma FixedDead(s: Snapshot, newBegin: nat, m: seq<Word>, o: int)
    requires Relocating(s, newBegin, |m|) && FixedBelow(s, Marked(s), newBegin, m, o)
    requires o in s.objs && o !in Marked(s)
    ensures FixedBelow(s, Marked(s), newBegin, m, o + s.Size(o))
  {
    Shape(s, o);
    FixedFurther(s, Marked(s), newBegin, m, o, o, o + s.Size(o));
  }

  // --------------------------------------------------------------- the slide

  ghost function At(m: seq<Word>, i: int): Word {
    if 0 <= i < |m| then m[i] else 0
  }

  /** memmove of `bytes` bytes within one chunk: whole words, then the low bytes of the last one. */
  function Memmove(m: seq<Word>, to: nat, from: nat, bytes: nat): (r: seq<Word>)
    requires from + (bytes + 7) / 8 <= |m| && to + (bytes + 7) / 8 <= |m|
    ensures |r| == |m|
  {
    seq(|m|, i requires 0 <= i < |m| =>
      if to <= i < to + bytes / 8 then m[from + (i - to)]
      else if i == to + bytes / 8 && bytes % 8 > 0 then MergeWord(m[from + bytes / 8], m[i], bytes % 8)
      else m[i])
  }

  /** Word i after n whole words have been moved. */
  ghost function WordMoved(m: seq<Word>, to: nat, from: nat, n: nat, i: nat): Word {
    if to <= i < to + n then At(m, from + (i - to)) else At(m, i)
  }

  /** Whole words first, then the last one: the words r are those of a memmove. */
  lemma MemmoveIs(m: seq<Word>, to: nat, from: nat, bytes: nat, full: nat, tail: nat, r: seq<Word>)
    requires from + (bytes + 7) / 8 <= |m| && to + (bytes + 7) / 8 <= |m| && |r| == |m|
    requires full == bytes / 8 && tail == bytes % 8
    requires forall i :: 0 <= i < |m| && !(i == to + full && tail > 0) ==>
               r[i] == WordMoved(m, to, from, full, i)
    requires tail > 0 ==> r[to + full] == MergeWord(m[from + full], m[to + full], tail)
    ensures r == Memmove(m, to, from, bytes)
  {
    hide MergeWord;
    var x := Memmove(m, to, from, bytes);
    forall i | 0 <= i < |m| ensures r[i] == x[i] {
      assert !(i == to + full && tail > 0) ==> r[i] == WordMoved(m, to, from, full, i);
    }
  }

  lemma WordsOfBytes(bytes: nat)
    ensures (bytes + 7) / 8 == bytes / 8 + if bytes % 8 > 0 then 1 else 0
  {
    var q, t := bytes / 8, bytes % 8;
    if t > 0 {
      DivMod8(q + 1, t - 1);
      assert bytes + 7 == 8 * (q + 1) + (t - 1);
    } else {
      DivMod8(q, 7);
      assert bytes + 7 == 8 * q + 7;
    }
  }

  ghost predicate SameWord(m: seq<Word>, o: int, m': seq<Word>, p: int, i: int) {
    At(m', p + i) == At(m, o + i)
  }

  ghost predicate SameLowBytes(v: Word, w: Word, n: nat) {
    forall b :: 0 <= b < n ==> Byte(v, b) == Byte(w, b)
  }

  /** The object at `o` in m is found at `p` in m', with its mark cleared: header and whole words
      are equal, and of a last word only partly used (the tail of a string) the used bytes are. */
  ghost predicate Moved(m: seq<Word>, o: int, m': seq<Word>, p: int) {
    && ValidHeader(At(m, o))
    && At(m', p) == At(m, o)
    && At(m', p + 1) == ResetMarkBit(At(m, o + 1))
    && (forall i :: 2 <= i < SizeBytes(At(m, o)) / 8 ==> SameWord(m, o, m', p, i))
    && SameLowBytes(At(m, o + SizeBytes(At(m, o)) / 8), At(m', p + SizeBytes(At(m, o)) / 8), SizeBytes(At(m, o)) % 8)
  }

  /** m still has the objects of s, with other forward words and other field values. */
  ghost predicate SameHeaders(s: Snapshot, m: seq<Word>) {
    && |s.mem| <= |m|
    && forall o :: o in s.objs ==> At(m, o) == s.Header(o)
  }

  /** After k objects: everything from the k-th object on is untouched, and the marked ones among
      the first k are in place. */
  ghost predicate Slid(s: Snapshot, marked: set<int>, m0: seq<Word>, m: seq<Word>, k: nat) {
    && k <= |s.objs| && |m| == |m0|
    && (forall i :: Position(s, k) <= i < |m| ==> m[i] == m0[i])
    && (forall j :: 0 <= j < k && s.objs[j] in marked ==> Moved(m0, s.objs[j], m, LiveBefore(s, marked, j)))
  }

  /** The words of an object and the bytes in its last word. */
  lemma SizeParts(h: Word)
    requires ValidHeader(h)
    ensures SizeWords(h) == SizeBytes(h) / 8 + (if SizeBytes(h) % 8 > 0 then 1 else 0)
    ensures SizeWords(h) == (SizeBytes(h) + 7) / 8 && SizeBytes(h) / 8 >= 2
  {
    var q, r := SizeBytes(h) / 8, SizeBytes(h) % 8;
    assert SizeBytes(h) == 8 * q + r;
    DivMod8(q, r);
    if r > 0 {
      assert SizeBytes(h) - 1 == 8 * q + (r - 1) && SizeBytes(h) + 7 == 8 * (q + 1) + (r - 1);
      DivMod8(q, r - 1);
      DivMod8(q + 1, r - 1);
    } else {
      assert SizeBytes(h) - 1 == 8 * (q - 1) + 7 && SizeBytes(h) + 7 == 8 * q + 7;
      DivMod8(q - 1, 7);
      DivMod8(q, 7);
    }
  }

  /** Copying an object and clearing the mark of the copy moves it. */
  lemma CopyMoves(m: seq<Word>, o: nat, to: nat)
    requires o < |m| && ValidHeader(m[o]) && o + SizeWords(m[o]) <= |m| && to <= o
    ensures (SizeBytes(m[o]) + 7) / 8 == SizeWords(m[o]) && to + 1 < |m|
    ensures var m1 := Memmove(m, to, o, SizeBytes(m[o]));
            && m1[to] == m[o]
            && var m2 := m1[to + 1 := ResetMarkBit(m1[to + 1])];
               && Moved(m, o, m2, to)
               && (forall i :: 0 <= i < |m| && !(to <= i < to + SizeWords(m[o])) ==> m2[i] == m[i])
  {
    hide ResetMarkBit, MergeWord, Byte, SizeWords;
    SizeParts(m[o]);
    var m1 := Memmove(m, to, o, SizeBytes(m[o]));
    var m2 := m1[to + 1 := ResetMarkBit(m1[to + 1])];
    var n := SizeBytes(m[o]) / 8;
    forall i | 2 <= i < n ensures SameWord(m, o, m2, to, i) {
      assert m1[to + i] == m[o + i];
    }
    assert SizeBytes(m[o]) % 8 > 0 ==> m2[to + n] == MergeWord(m[o + n], m[to + n], SizeBytes(m[o]) % 8);
  }

  lemma MovedElsewhere(m: seq<Word>, o: int, m1: seq<Word>, m2: seq<Word>, p: nat)
    requires Moved(m, o, m1, p)
    requires forall i :: p <= i < p + SizeWords(At(m, o)) ==> At(m1, i) == At(m2, i)
    ensures Moved(m, o, m2, p)
  {
    hide ResetMarkBit, Byte, SizeWords;
    SizeParts(At(m, o));
    var n := SizeBytes(At(m, o)) / 8;
    forall i | 2 <= i < n ensures SameWord(m, o, m2, p, i) {
      assert SameWord(m, o, m1, p, i) && At(m1, p + i) == At(m2, p + i);
    }
    assert SizeBytes(At(m, o)) % 8 > 0 ==> At(m1, p + n) == At(m2, p + n);
  }

  /** What physically_relocate reads at one object. */
  lemma SlideFacts(s: Snapshot, marked: set<int>, m0: seq<Word>, m: seq<Word>, k: nat)
    requires s.Parses() && SameHeaders(s, m0) && Slid(s, marked, m0, m, k) && k < |s.objs|
    ensures var o := s.objs[k];
            && o + 1 < |m| && ValidHeader(m[o]) && m[o] == m0[o] == s.Header(o) && m[o + 1] == m0[o + 1]
            && SizeWords(m[o]) == s.Size(o) && o + s.Size(o) == Position(s, k + 1) <= |m|
            && LiveBefore(s, marked, k) <= o
  {
    Shape(s, s.objs[k]);
    NextPosition(s, k);
    LiveBeforeOrder(s, marked, k, k);
  }

  /** A marked object is moved; nothing not yet visited and nothing already moved is disturbed. */
  lemma SlideMarked(s: Snapshot, marked: set<int>, m0: seq<Word>, m: seq<Word>, k: nat)
    requires s.Parses() && SameHeaders(s, m0) && Slid(s, marked, m0, m, k) && k < |s.objs| && s.objs[k] in marked
    ensures var o, to := s.objs[k], LiveBefore(s, marked, k);
            && o < |m| && ValidHeader(m[o]) && to + 1 < |m|
            && o + (SizeBytes(m[o]) + 7) / 8 <= |m| && to + (SizeBytes(m[o]) + 7) / 8 <= |m|
            && var m1 := Memmove(m, to, o, SizeBytes(m[o]));
               m1[to] == m[o] && Slid(s, marked, m0, m1[to + 1 := ResetMarkBit(m1[to + 1])], k + 1)
  {
    hide ResetMarkBit, Memmove, Snapshot.Parses, Moved;
    SlideFacts(s, marked, m0, m, k);
    var o, to := s.objs[k], LiveBefore(s, marked, k);
    CopyMoves(m, o, to);
    var m1 := Memmove(m, to, o, SizeBytes(m[o]));
    var m2 := m1[to + 1 := ResetMarkBit(m1[to + 1])];
    MovedSameSource(s, m0, m, o, m2, to);
    forall j | 0 <= j < k && s.objs[j] in marked ensures Moved(m0, s.objs[j], m2, LiveBefore(s, marked, j)) {
      LiveBeforeOrder(s, marked, j, k);
      SlideHeader(s, m0, s.objs[j]);
      MovedElsewhere(m0, s.objs[j], m, m2, LiveBefore(s, marked, j));
    }
  }

  lemma SlideHeader(s: Snapshot, m0: seq<Word>, o: int)
    requires s.Parses() && SameHeaders(s, m0) && o in s.objs
    ensures ValidHeader(At(m0, o)) && SizeWords(At(m0, o)) == s.Size(o)
  {
    Shape(s, o);
  }

  lemma MovedSameSource(s: Snapshot, m0: seq<Word>, m: seq<Word>, o: nat, m2: seq<Word>, to: nat)
    requires |m| == |m0| && o < |m| && ValidHeader(m0[o]) && o + SizeWords(m0[o]) <= |m|
    requires forall i :: o <= i < |m| ==> m[i] == m0[i]
    requires Moved(m, o, m2, to)
    ensures Moved(m0, o, m2, to)
  {
    hide ResetMarkBit, Byte, SizeWords;
    SizeParts(m0[o]);
    assert m[o] == m0[o] && m[o + 1] == m0[o + 1];
    var n := SizeBytes(m0[o]) / 8;
    forall i | 2 <= i < n ensures SameWord(m0, o, m2, to, i) {
      assert SameWord(m, o, m2, to, i);
    }
    assert SizeBytes(m0[o]) % 8 > 0 ==> m[o + n] == m0[o + n];
  }

  /** A dead object is skipped. */
  lemma SlideUnmarked(s: Snapshot, marked: set<int>, m0: seq<Word>, m: seq<Word>, k: nat)
    requires s.Parses() && SameHeaders(s, m0) && Slid(s, marked, m0, m, k) && k < |s.objs| && s.objs[k] !in marked
    ensures Slid(s, marked, m0, m, k + 1)
  {
    SlideFacts(s, marked, m0, m, k);
  }

  /** The destination computed from the forward word of a marked object. */
  lemma SlideTarget(s: Snapshot, newBegin: nat, m0: seq<Word>, m: seq<Word>, k: nat)
    requires Relocating(s, newBegin, |m0|) && FixedBelow(s, Marked(s), newBegin, m0, s.current)
    requires Slid(s, Marked(s), m0, m, k) && k < |s.objs|
    ensures SameHeaders(s, m0) && s.objs[k] + 1 < |m|
    ensures MarkBit(m[s.objs[k] + 1]) <==> s.objs[k] in Marked(s)
    ensures s.objs[k] in Marked(s) ==>
            WordsBetween(s.begin, ForwardAddress(m[s.objs[k] + 1])) == LiveBefore(s, Marked(s), k)
  {
    hide MarkBit, ForwardAddress, Slid, WordsBetween, FixedBelow, Snapshot.Parses;
    var o := s.objs[k];
    CopyFacts(s, newBegin, m0, s.current, o);
    CopyHeaders(s, newBegin, m0);
    SlideFacts(s, Marked(s), m0, m, k);
    if o in Marked(s) {
      TargetOf(s.begin, LiveBefore(s, Marked(s), k), ForwardAddress(Forward(s.mem, o)));
    }
  }

  /** Pointer difference of two word pointers. */
  function WordsBetween(from: nat, to: nat): int {
    (to - from) / 8
  }

  lemma TargetOf(begin: nat, i: nat, a: Word)
    requires a == begin + 8 * i
    ensures WordsBetween(begin, a) == i
  {
    assert a - begin == 8 * i + 0;
    DivMod8(i, 0);
  }

  lemma CopyHeaders(s: Snapshot, newBegin: nat, m: seq<Word>)
    requires Relocating(s, newBegin, |m|) && FixedBelow(s, Marked(s), newBegin, m, s.current)
    ensures SameHeaders(s, m)
  {
    hide FixedBelow, MarkBit;
    LengthOfCopy(s, newBegin, m);
    forall o | o in s.objs ensures At(m, o) == s.Header(o) {
      CopyFacts(s, newBegin, m, s.current, o);
    }
  }

  lemma LengthOfCopy(s: Snapshot, newBegin: nat, m: seq<Word>)
    requires FixedBelow(s, Marked(s), newBegin, m, s.current)
    ensures |s.mem| <= |m|
  {
  }

  lemma NothingSlid(s: Snapshot, marked: set<int>, m0: seq<Word>)
    ensures Slid(s, marked, m0, m0, 0)
  {
  }
}
