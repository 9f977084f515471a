/** The value a word stands for, unfolded to any depth, and that collections and allocations keep it. */
module Values {
  import opened Words
  import opened Layout
  import opened Marking
  import opened Compaction
  import opened Survival
  import opened Roots
  import opened Collection
  import opened Allocation

  /** What a program can see of a word: an immediate word, a string, or an object with its fields,
      cut off at some depth. Addresses do not occur in it. */
  datatype Value =
    | Immediate(word: Word)
    | Cut
    | Text(bytes: seq<nat>)
    | Node(kind: Kind, len: nat, extra: Word, fields: seq<Value>)

  ghost function FieldCount(s: Snapshot, o: int): nat {
    if ValidHeader(s.Header(o)) && FirstField(s.Header(o)) <= s.Size(o) then s.Size(o) - FirstField(s.Header(o)) else 0
  }

  ghost function FieldWord(s: Snapshot, o: int, i: int): Word
    requires ValidHeader(s.Header(o))
  {
    At(s.mem, o + FirstField(s.Header(o)) + i)
  }

  /** The code word of a closure or the tag of an s-expression. */
  ghost function ExtraWord(s: Snapshot, o: int): Word {
    if ValidHeader(s.Header(o)) && KindOf(s.Header(o)) in {CLOSURE, SEXP} && s.Size(o) >= 3 then At(s.mem, o + 2) else 0
  }

  ghost function ValueOf(s: Snapshot, d: nat, v: Word): Value
    decreases d, 1
  {
    if !s.InRange(v) then Immediate(v)
    else if d == 0 then Cut
    else ObjectValue(s, d - 1, s.Target(v))
  }

  /** The value of an object, its fields unfolded to depth d. */
  ghost function ObjectValue(s: Snapshot, d: nat, o: int): Value
    decreases d, 2
  {
    var h := s.Header(o);
    if !ValidHeader(h) then Cut
    else if KindOf(h).STRING? then Text(seq(Len(h) + 1, b requires 0 <= b < Len(h) + 1 => StringByte(s.mem, o, b)))
    else Node(KindOf(h), Len(h), ExtraWord(s, o),
              seq(FieldCount(s, o), i requires 0 <= i < FieldCount(s, o) => ValueOf(s, d, FieldWord(s, o, i))))
  }

  lemma FieldIsField(s: Snapshot, o: int, i: int)
    requires s.Parses() && o in s.objs && 0 <= i < FieldCount(s, o)
    ensures s.IsField(o, o + FirstField(s.Header(o)) + i)
    ensures FieldWord(s, o, i) == s.mem[o + FirstField(s.Header(o)) + i]
  {
    Shape(s, o);
  }

  // ------------------------------------------------------------------- collections

  /** A collection does not change the value of any live word, at any depth. */
  lemma {:induction false} ValueKept(s: Snapshot, marked: set<int>, t: Snapshot, d: nat, v: Word)
    requires MarkedHeap(s, marked, t) && Followable(s, marked, t.begin, |t.mem|, v)
    ensures 0 <= FixWord(s, marked, t.begin, v) < MODULUS
    ensures ValueOf(t, d, FixWord(s, marked, t.begin, v)) == ValueOf(s, d, v)
    decreases d, 0
  {
    hide MarkedHeap, Snapshot.GoodWord, HeaderAt, Image, ObjectValue;
    MarkedIsNew(s, marked, t);
    FixedPointer(s, marked, t, v);
    if s.InRange(v) && d > 0 {
      TargetIsMarked(s, marked, t, v);
      ObjectKept(s, marked, t, d - 1, s.Target(v));
    }
  }

  lemma TargetIsMarked(s: Snapshot, marked: set<int>, t: Snapshot, v: Word)
    requires Followable(s, marked, t.begin, |t.mem|, v) && s.InRange(v)
    ensures s.Target(v) in s.objs && s.Target(v) in marked
  {
  }

  lemma {:induction false} ObjectKept(s: Snapshot, marked: set<int>, t: Snapshot, d: nat, o: int)
    requires MarkedHeap(s, marked, t) && o in s.objs && o in marked
    ensures ObjectValue(t, d, Image(s, marked, o)) == ObjectValue(s, d, o)
    decreases d, 2
  {
    hide MarkedHeap, FixWord, StringByte, FlagsClear, ValueOf, Image;
    MarkedIsNew(s, marked, t);
    var p := Image(s, marked, o);
    NewObject(s, marked, t, o);
    HeadersAgree(s, marked, t, o, p);
    if KindOf(s.Header(o)).STRING? {
      forall b | 0 <= b < Len(s.Header(o)) + 1 ensures StringByte(t.mem, p, b) == StringByte(s.mem, o, b) {
        assert SameStringByte(s, t, o, p, b);
      }
    } else {
      forall i | 0 <= i < FieldCount(s, o) ensures ValueOf(t, d, FieldWord(t, p, i))
          == ValueOf(s, d, FieldWord(s, o, i)) {
        FieldKept(s, marked, t, d, o, i);
      }
    }
  }

  lemma HeadersAgree(s: Snapshot, marked: set<int>, t: Snapshot, o: int, p: int)
    requires Copied(s, marked, t, o, p)
    ensures ValidHeader(s.Header(o)) && t.Header(p) == s.Header(o) && FieldCount(t, p) == FieldCount(s, o)
    ensures ExtraWord(t, p) == ExtraWord(s, o)
  {
  }

  lemma {:induction false} FieldKept(s: Snapshot, marked: set<int>, t: Snapshot, d: nat, o: int, i: int)
    requires MarkedHeap(s, marked, t) && o in s.objs && o in marked && 0 <= i < FieldCount(s, o)
    requires ValidHeader(s.Header(o)) && t.Header(Image(s, marked, o)) == s.Header(o)
    ensures ValueOf(t, d, FieldWord(t, Image(s, marked, o), i)) == ValueOf(s, d, FieldWord(s, o, i))
    decreases d, 1
  {
    hide FixWord, ValueOf, Image, NewHeap, Snapshot.PointersGood, ClosedUnderEdges, NoStrayWords, Followable;
    MarkedParses(s, marked, t);
    var j := FirstField(s.Header(o)) + i;
    FieldIsField(s, o, i);
    CorrespondingFields(s, marked, t, o, j);
    FieldFollowable(s, marked, t, o, o + j);
    ValueKept(s, marked, t, d, s.mem[o + j]);
  }

  lemma MarkedParses(s: Snapshot, marked: set<int>, t: Snapshot)
    requires MarkedHeap(s, marked, t)
    ensures s.Parses()
  {
  }

  // ------------------------------------------------------------------- allocations

  /** Heap u is heap t with something behind it: the used words of t are untouched. */
  ghost predicate Above(t: Snapshot, u: Snapshot) {
    && t.Sound() && u.begin == t.begin && |u.mem| == |t.mem|
    && t.current <= u.current <= |u.mem|
    && forall i :: 0 <= i < t.current ==> u.mem[i] == t.mem[i]
  }

  lemma AboveWord(t: Snapshot, u: Snapshot, v: Word)
    requires Above(t, u) && t.SoundWord(v)
    ensures u.InRange(v) <==> t.InRange(v)
    ensures t.InRange(v) ==> t.Target(v) in t.objs && u.Target(v) == t.Target(v)
  {
    hide HeaderAt;
    if u.InRange(v) {
      Shape(t, t.Target(v));
    }
  }

  lemma AboveObject(t: Snapshot, u: Snapshot, o: int)
    requires Above(t, u) && o in t.objs
    ensures ValidHeader(t.Header(o)) && u.Header(o) == t.Header(o) && FieldCount(u, o) == FieldCount(t, o)
    ensures ExtraWord(u, o) == ExtraWord(t, o)
    ensures forall i :: o <= i < o + t.Size(o) ==> At(u.mem, i) == At(t.mem, i)
  {
    Shape(t, o);
  }

  /** What is written behind the used words cannot be seen from a sound word. */
  lemma {:induction false} ValueAbove(t: Snapshot, u: Snapshot, d: nat, v: Word)
    requires Above(t, u) && t.SoundWord(v)
    ensures ValueOf(u, d, v) == ValueOf(t, d, v)
    decreases d, 0
  {
    hide Above, Snapshot.SoundWord, HeaderAt, ObjectValue;
    AboveWord(t, u, v);
    if t.InRange(v) && d > 0 {
      ObjectAbove(t, u, d - 1, t.Target(v));
    }
  }

  lemma {:induction false} ObjectAbove(t: Snapshot, u: Snapshot, d: nat, o: int)
    requires Above(t, u) && o in t.objs
    ensures ObjectValue(u, d, o) == ObjectValue(t, d, o)
    decreases d, 2
  {
    hide Above, StringByte, ValueOf;
    AboveObject(t, u, o);
    if KindOf(t.Header(o)).STRING? {
      forall b | 0 <= b < Len(t.Header(o)) + 1 ensures StringByte(u.mem, o, b) == StringByte(t.mem, o, b) {
        StringIsLong(t.Header(o), b);
        SameByteOf(t.mem, u.mem, o, b);
      }
    } else {
      forall i | 0 <= i < FieldCount(t, o) ensures ValueOf(u, d, FieldWord(u, o, i))
          == ValueOf(t, d, FieldWord(t, o, i)) {
        FieldAbove(t, u, d, o, i);
      }
    }
  }

  lemma {:induction false} FieldAbove(t: Snapshot, u: Snapshot, d: nat, o: int, i: int)
    requires Above(t, u) && o in t.objs && 0 <= i < FieldCount(t, o) && ValidHeader(t.Header(o))
             && ValidHeader(u.Header(o))
    ensures ValueOf(u, d, FieldWord(u, o, i)) == ValueOf(t, d, FieldWord(t, o, i))
    decreases d, 1
  {
    hide ValueOf;
    AboveObject(t, u, o);
    FieldIsField(t, o, i);
    ValueAbove(t, u, d, FieldWord(t, o, i));
  }

  // ------------------------------------------------------------------ from the roots

  lemma ScannedFollowable(s: Snapshot, a: Areas, begin: nat, words: nat, i: nat)
    requires s.GoodWords(a.Scanned()) && NoStrayRoots(s, a, begin, words) && i < |a.Scanned()|
    ensures Followable(s, Live(s, a), begin, words, a.Scanned()[i])
  {
    hide Areas.Scanned, Live;
    ScannedIsLive(s, a, i);
  }

  /** A program looking at the heap through its roots cannot tell that a collection took place. */
  lemma CollectionInvisible(s: Snapshot, a: Areas, t: Snapshot, a': Areas, additional: nat, d: nat, i: nat)
    requires s.Valid() && Collected(s, a, t, a')
    requires Collectable(s, a, t.begin, additional) && |t.mem| == NextSize(s, a, additional)
    requires i < |a.Scanned()|
    ensures |a'.Scanned()| == |a.Scanned()| && ValueOf(t, d, a'.Scanned()[i]) == ValueOf(s, d, a.Scanned()[i])
  {
    hide Areas.Scanned, Live, NewHeap, Snapshot.Valid, Snapshot.Sound, AreasRedirected, NoStrayRoots, NoStrayWords,
      Followable, ValueOf, MarkedHeap, NextSize;
    HeapOfLive(s, a, t);
    ScannedFollowable(s, a, t.begin, |t.mem|, i);
    assert RootKept(s, a, t, a.Scanned()[i], a'.Scanned()[i]);
    ValueKept(s, Live(s, a), t, d, a.Scanned()[i]);
  }

  /** Followable words that are redirected to the same word are the same word. */
  lemma RedirectedInjective(s: Snapshot, marked: set<int>, t: Snapshot, v: Word, w: Word)
    requires MarkedHeap(s, marked, t)
    requires Followable(s, marked, t.begin, |t.mem|, v) && Followable(s, marked, t.begin, |t.mem|, w)
    ensures FixWord(s, marked, t.begin, v) == FixWord(s, marked, t.begin, w) <==> v == w
  {
    hide Snapshot.GoodWord, Snapshot.SoundWord, Image, HeaderAt, NewObjs;
    if FixWord(s, marked, t.begin, v) == FixWord(s, marked, t.begin, w) {
      FixedPointer(s, marked, t, v);
      FixedPointer(s, marked, t, w);
      if s.InRange(v) {
        GoodWordIs(s, v);
        GoodWordIs(s, w);
        ImageInjective(s, marked, s.Target(v), s.Target(w));
      }
    }
  }

  lemma GoodWordIs(s: Snapshot, v: Word)
    requires s.InRange(v) && s.GoodWord(v)
    ensures s.Target(v) in s.objs && v == s.Content(s.Target(v))
  {
  }

  // ------------------------------------------------------------------------ identity

  /** What a path of field numbers leads to from a word. */
  datatype Found = Reached(word: Word) | Lost

  ghost function Walked(s: Snapshot, v: Word, path: seq<nat>): Found
    decreases |path|
  {
    if |path| == 0 then Reached(v)
    else if !s.InRange(v) || path[0] >= FieldCount(s, s.Target(v)) then Lost
    else Walked(s, FieldWord(s, s.Target(v), path[0]), path[1..])
  }

  lemma StepKept(s: Snapshot, marked: set<int>, t: Snapshot, v: Word, i: nat)
    requires MarkedHeap(s, marked, t) && Followable(s, marked, t.begin, |t.mem|, v) && s.InRange(v)
    ensures 0 <= FixWord(s, marked, t.begin, v) < MODULUS && t.InRange(FixWord(s, marked, t.begin, v))
    ensures var o, p := s.Target(v), t.Target(FixWord(s, marked, t.begin, v));
            && FieldCount(t, p) == FieldCount(s, o)
            && (i < FieldCount(s, o) ==>
                  && FieldWord(t, p, i) == FixWord(s, marked, t.begin, FieldWord(s, o, i))
                  && Followable(s, marked, t.begin, |t.mem|, FieldWord(s, o, i)))
  {
    hide FixWord, Image, NewHeap, Snapshot.PointersGood, ClosedUnderEdges, NoStrayWords, Followable, Snapshot.GoodWord,
      Snapshot.SoundWord, FlagsClear, StringByte;
    MarkedIsNew(s, marked, t);
    MarkedParses(s, marked, t);
    FixedPointer(s, marked, t, v);
    TargetIsMarked(s, marked, t, v);
    var o := s.Target(v);
    NewObject(s, marked, t, o);
    HeadersAgree(s, marked, t, o, Image(s, marked, o));
    if i < FieldCount(s, o) {
      var j := FirstField(s.Header(o)) + i;
      FieldIsField(s, o, i);
      CorrespondingFields(s, marked, t, o, j);
      FieldFollowable(s, marked, t, o, o + j);
    }
  }

  /** From a redirected word, a path leads to the redirected word. */
  lemma {:induction false} PathKept(s: Snapshot, marked: set<int>, t: Snapshot, v: Word, path: seq<nat>)
    requires MarkedHeap(s, marked, t) && Followable(s, marked, t.begin, |t.mem|, v)
    ensures 0 <= FixWord(s, marked, t.begin, v) < MODULUS
    ensures var r, r' := Walked(s, v, path), Walked(t, FixWord(s, marked, t.begin, v), path);
            && (r.Lost? <==> r'.Lost?)
            && (r.Reached? ==>
                  r'.word == FixWord(s, marked, t.begin, r.word) && Followable(s, marked, t.begin, |t.mem|, r.word))
    decreases |path|
  {
    hide MarkedHeap, FixWord, Followable, Snapshot.GoodWord, Snapshot.SoundWord, HeaderAt, FieldCount, Snapshot.InRange;
    MarkedIsNew(s, marked, t);
    FixedPointer(s, marked, t, v);
    if |path| > 0 && s.InRange(v) {
      StepKept(s, marked, t, v, path[0]);
      if path[0] < FieldCount(s, s.Target(v)) {
        CountedHeader(s, s.Target(v), path[0]);
        PathKept(s, marked, t, FieldWord(s, s.Target(v), path[0]), path[1..]);
      }
    }
  }

  lemma CountedHeader(s: Snapshot, o: int, i: nat)
    requires i < FieldCount(s, o)
    ensures ValidHeader(s.Header(o))
  {
  }

  /** Nor does comparing pointers tell: whatever two paths from the roots lead to is the same word after a collection if
      and only if it was before. Sharing and cycles are kept. */
  lemma CollectionKeepsIdentity(s: Snapshot, a: Areas, t: Snapshot, a': Areas, additional: nat,
                                i: nat, x: seq<nat>, j: nat, y: seq<nat>)
    requires s.Valid() && Collected(s, a, t, a')
    requires Collectable(s, a, t.begin, additional) && |t.mem| == NextSize(s, a, additional)
    requires i < |a.Scanned()| && j < |a.Scanned()|
    ensures |a'.Scanned()| == |a.Scanned()|
    ensures Walked(t, a'.Scanned()[i], x).Reached? <==> Walked(s, a.Scanned()[i], x).Reached?
    ensures Walked(t, a'.Scanned()[i], x) == Walked(t, a'.Scanned()[j], y) <==>
            Walked(s, a.Scanned()[i], x) == Walked(s, a.Scanned()[j], y)
  {
    hide Areas.Scanned, Live, NewHeap, Snapshot.Valid, Snapshot.Sound, AreasRedirected, NoStrayRoots, NoStrayWords,
      Followable, MarkedHeap, NextSize, FixWord, Walked;
    HeapOfLive(s, a, t);
    ScannedFollowable(s, a, t.begin, |t.mem|, i);
    ScannedFollowable(s, a, t.begin, |t.mem|, j);
    var v, w := a.Scanned()[i], a.Scanned()[j];
    assert RootKept(s, a, t, v, a'.Scanned()[i]);
    assert RootKept(s, a, t, w, a'.Scanned()[j]);
    PathKept(s, Live(s, a), t, v, x);
    PathKept(s, Live(s, a), t, w, y);
    var p, q := Walked(s, v, x), Walked(s, w, y);
    if p.Reached? && q.Reached? {
      RedirectedInjective(s, Live(s, a), t, p.word, q.word);
    }
  }

  lemma RootWalked(s: Snapshot, v: Word)
    ensures Walked(s, v, []) == Reached(v)
  {
  }

  lemma PreparedIdentity(s: Snapshot, a: Areas, t: Snapshot, a': Areas, additional: nat, i: nat, j: nat)
    requires s.Sound() && RootsSound(s, a) && Prepared(s, a, t, a')
    requires !(t == s && a' == a) ==>
               Collectable(s, a, t.begin, additional) && |t.mem| == NextSize(s, a, additional)
    requires i < |a.Scanned()| && j < |a.Scanned()|
    ensures |a'.Scanned()| == |a.Scanned()|
    ensures a'.Scanned()[i] == a'.Scanned()[j] <==> a.Scanned()[i] == a.Scanned()[j]
  {
    hide Areas.Scanned, Live, NewHeap, AreasRedirected, Collectable, NextSize, Snapshot.SoundWord;
    if !(t == s && a' == a) {
      CollectionKeepsIdentity(s, a, t, a', additional, i, [], j, []);
      RootWalked(s, a.Scanned()[i]);
      RootWalked(s, a.Scanned()[j]);
      RootWalked(t, a'.Scanned()[i]);
      RootWalked(t, a'.Scanned()[j]);
    }
  }

  /** The same for an allocation, whether or not it collected first. */
  lemma PreparedInvisible(s: Snapshot, a: Areas, t: Snapshot, a': Areas, additional: nat, d: nat, i: nat)
    requires s.Sound() && RootsSound(s, a) && Prepared(s, a, t, a')
    requires !(t == s && a' == a) ==>
               Collectable(s, a, t.begin, additional) && |t.mem| == NextSize(s, a, additional)
    requires i < |a.Scanned()|
    ensures |a'.Scanned()| == |a.Scanned()|
    ensures t.SoundWord(a'.Scanned()[i]) && ValueOf(t, d, a'.Scanned()[i]) == ValueOf(s, d, a.Scanned()[i])
  {
    hide Areas.Scanned, Live, NewHeap, AreasRedirected, Collectable, ValueOf, NextSize, Snapshot.SoundWord;
    if !(t == s && a' == a) {
      assert RootKept(s, a, t, a.Scanned()[i], a'.Scanned()[i]);
      CollectionInvisible(s, a, t, a', additional, d, i);
    }
  }
}
