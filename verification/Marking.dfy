/** Reachability, and what each step of the marking queue keeps. */
module Marking {
  import opened Words
  import opened Layout

  // ------------------------------------------------------------ reachability

  lemma {:induction false} ReachInUnion(s: Snapshot, n: nat, a: set<int>, b: set<int>, o: int)
    ensures s.ReachIn(n, a + b, o) <==> s.ReachIn(n, a, o) || s.ReachIn(n, b, o)
  {
    if n > 0 {
      var k: nat := n - 1;
      forall p ensures s.ReachIn(k, a + b, p) <==> s.ReachIn(k, a, p) || s.ReachIn(k, b, p) {
        ReachInUnion(s, k, a, b, p);
      }
    }
  }

  /** What a set of roots reaches is the union of what the roots reach. */
  lemma ReachableUnion(s: Snapshot, a: set<int>, b: set<int>)
    ensures s.Reachable(a + b) == s.Reachable(a) + s.Reachable(b)
  {
    forall o ensures s.Reach(a + b, o) <==> s.Reach(a, o) || s.Reach(b, o) {
      forall n: nat ensures s.ReachIn(n, a + b, o) <==> s.ReachIn(n, a, o) || s.ReachIn(n, b, o) {
        ReachInUnion(s, n, a, b, o);
      }
    }
  }

  lemma ReachableEmpty(s: Snapshot)
    ensures s.Reachable({}) == {}
  {
    forall n: nat, o ensures !s.ReachIn(n, {}, o) {
      ReachNothing(s, n, o);
    }
  }

  lemma {:induction false} ReachNothing(s: Snapshot, n: nat, o: int)
    ensures !s.ReachIn(n, {}, o)
  {
    if n > 0 {
      var k: nat := n - 1;
      forall p ensures !s.ReachIn(k, {}, p) {
        ReachNothing(s, k, p);
      }
    }
  }

  lemma RootReached(s: Snapshot, roots: set<int>, o: int)
    requires o in roots
    ensures s.Reach(roots, o)
  {
    assert s.ReachIn(0, roots, o);
  }

  lemma ReachStep(s: Snapshot, roots: set<int>, o: int, t: int)
    requires s.Reach(roots, o) && s.Edge(o, t)
    ensures s.Reach(roots, t)
  {
    var n: nat :| s.ReachIn(n, roots, o);
    assert s.ReachIn(n + 1, roots, t);
  }

  ghost predicate ClosedUnderEdges(s: Snapshot, c: set<int>) {
    forall o, t :: o in c && s.Edge(o, t) ==> t in c
  }

  lemma {:induction false} ClosedContainsReachIn(s: Snapshot, c: set<int>, n: nat, roots: set<int>, o: int)
    requires roots <= c && ClosedUnderEdges(s, c) && s.ReachIn(n, roots, o)
    ensures o in c
  {
    if n > 0 {
      var p :| s.ReachIn(n - 1, roots, p) && s.Edge(p, o);
      ClosedContainsReachIn(s, c, n - 1, roots, p);
    }
  }

  lemma ClosedContainsReachable(s: Snapshot, c: set<int>, roots: set<int>)
    requires roots <= c && ClosedUnderEdges(s, c)
    ensures s.Reachable(roots) <= c
  {
    forall o | o in s.Reachable(roots) ensures o in c {
      var n: nat :| s.ReachIn(n, roots, o);
      ClosedContainsReachIn(s, c, n, roots, o);
    }
  }

  // ------------------------------------------------- states of a marking pass

  /** Only forward words differ. */
  ghost predicate SameButForward(s: Snapshot, m: seq<Word>) {
    && |m| == |s.mem|
    && forall i :: 0 <= i < |m| && i - 1 !in s.objs ==> m[i] == s.mem[i]
  }

  ghost function Forward(m: seq<Word>, o: int): Word {
    if 0 <= o + 1 < |m| then m[o + 1] else 0
  }

  ghost function Marked(s: Snapshot): set<int> {
    set o | o in s.objs && MarkBit(Forward(s.mem, o))
  }

  ghost predicate NothingEnqueued(s: Snapshot) {
    forall o :: o in s.objs ==> !EnqueuedBit(Forward(s.mem, o))
  }

  /** The state between two calls of mark. */
  ghost predicate MarkState(s: Snapshot) {
    s.Parses() && s.PointersGood() && NothingEnqueued(s) && ClosedUnderEdges(s, Marked(s))
  }

  /** The graph lives in headers and contents, so forward words do not matter to it. */
  lemma SameObject(s: Snapshot, m: seq<Word>, o: int)
    requires s.Parses() && SameButForward(s, m) && o in s.objs
    ensures var t := s.(mem := m);
            && t.Header(o) == s.Header(o) && t.Size(o) == s.Size(o)
            && (forall i :: t.IsField(o, i) <==> s.IsField(o, i))
            && (forall i :: s.IsField(o, i) ==> i - 1 !in s.objs && m[i] == s.mem[i])
  {
    Shape(s, o);
    NotForwardWord(s, o, o);
    forall i | s.IsField(o, i) ensures i - 1 !in s.objs && m[i] == s.mem[i] {
      NotForwardWord(s, o, i);
    }
  }

  lemma SameParses(s: Snapshot, m: seq<Word>)
    requires s.Parses() && SameButForward(s, m)
    ensures s.(mem := m).Parses()
  {
    var t := s.(mem := m);
    forall k | 0 <= k < |t.objs| ensures t.ObjectAt(k) {
      assert s.ObjectAt(k);
      SameObject(s, m, s.objs[k]);
      Shape(s, s.objs[k]);
    }
  }

  lemma SameEdges(s: Snapshot, m: seq<Word>, o: int, x: int)
    requires s.Parses() && SameButForward(s, m) && o in s.objs
    ensures s.(mem := m).Edge(o, x) <==> s.Edge(o, x)
  {
    SameObject(s, m, o);
    var t := s.(mem := m);
    if s.Edge(o, x) {
      var i :| s.IsField(o, i) && s.InRange(s.mem[i]) && s.Target(s.mem[i]) == x;
      assert t.IsField(o, i) && t.InRange(t.mem[i]);
    }
    if t.Edge(o, x) {
      var i :| t.IsField(o, i) && t.InRange(t.mem[i]) && t.Target(t.mem[i]) == x;
      assert s.IsField(o, i) && s.InRange(s.mem[i]);
    }
  }

  lemma SamePointersGood(s: Snapshot, m: seq<Word>)
    requires s.Parses() && SameButForward(s, m) && s.PointersGood()
    ensures s.(mem := m).PointersGood()
  {
    var t := s.(mem := m);
    forall o, i | o in t.objs && t.IsField(o, i) ensures t.GoodWord(t.mem[i]) {
      SameObject(s, m, o);
      assert s.IsField(o, i);
    }
  }

  lemma EdgeTarget(s: Snapshot, o: int, t: int)
    requires s.PointersGood() && o in s.objs && s.Edge(o, t)
    ensures t in s.objs
  {
    var i :| s.IsField(o, i) && s.InRange(s.mem[i]) && s.Target(s.mem[i]) == t;
    assert s.GoodWord(s.mem[i]);
  }

  lemma {:induction false} SameReachIn(s: Snapshot, m: seq<Word>, n: nat, roots: set<int>, o: int)
    requires s.Parses() && s.PointersGood() && SameButForward(s, m)
    requires forall r :: r in roots ==> r in s.objs
    ensures s.ReachIn(n, roots, o) <==> s.(mem := m).ReachIn(n, roots, o)
    ensures s.ReachIn(n, roots, o) ==> o in s.objs
  {
    var t := s.(mem := m);
    if n > 0 {
      var k: nat := n - 1;
      forall p
        ensures s.ReachIn(k, roots, p) <==> t.ReachIn(k, roots, p)
        ensures s.ReachIn(k, roots, p) ==> p in s.objs
        ensures s.ReachIn(k, roots, p) ==> (s.Edge(p, o) <==> t.Edge(p, o))
        ensures s.ReachIn(k, roots, p) && s.Edge(p, o) ==> o in s.objs
      {
        SameReachIn(s, m, k, roots, p);
        if s.ReachIn(k, roots, p) {
          SameEdges(s, m, p, o);
          if s.Edge(p, o) { EdgeTarget(s, p, o); }
        }
      }
    }
  }

  lemma SameReachable(s: Snapshot, m: seq<Word>, roots: set<int>)
    requires s.Parses() && s.PointersGood() && SameButForward(s, m)
    requires forall r :: r in roots ==> r in s.objs
    ensures s.(mem := m).Reachable(roots) == s.Reachable(roots)
  {
    forall o, n: nat ensures s.ReachIn(n, roots, o) <==> s.(mem := m).ReachIn(n, roots, o) {
      SameReachIn(s, m, n, roots, o);
    }
  }

  // ------------------------------------------------------------- the queue

  ghost function ObjectSet(objs: seq<nat>): (r: set<int>)
    ensures forall o :: o in r <==> o in objs
  {
    set o | o in objs
  }

  lemma {:induction false} ObjectSetSize(objs: seq<nat>)
    ensures |ObjectSet(objs)| <= |objs|
  {
    if |objs| > 0 {
      var rest := objs[..|objs| - 1];
      ObjectSetSize(rest);
      assert objs == rest + [objs[|objs| - 1]];
      assert ObjectSet(objs) == ObjectSet(rest) + {objs[|objs| - 1]};
    }
  }

  lemma SubsetSize(a: set<int>, b: set<int>)
    requires a <= b
    ensures |a| <= |b|
  {
    assert b == a + (b - a);
  }

  ghost function EnqueueAt(m: seq<Word>, slot: int, o: int, content: Word): (r: seq<Word>)
    requires 0 <= slot && 0 <= o && slot + 1 < |m| && o + 1 < |m| && content % 4 == 0
    ensures |r| == |m|
  {
    var m1 := m[slot + 1 := SetForwardAddress(m[slot + 1], content)];
    m1[o + 1 := MakeEnqueued(m1[o + 1])]
  }

  ghost function DequeueMark(m: seq<Word>, o: int): (r: seq<Word>)
    requires 0 <= o && o + 1 < |m|
    ensures |r| == |m|
  {
    m[o + 1 := SetMarkBit(MakeDequeued(m[o + 1]))]
  }

  lemma ContentIsWord(s: Snapshot, o: int)
    requires s.Parses() && o in s.objs
    ensures 0 <= s.Content(o) < MODULUS && s.Content(o) % 8 == 0 && s.InRange(s.Content(o))
    ensures s.Target(s.Content(o)) == o && s.GoodWord(s.Content(o))
    ensures 0 <= o && o + 1 < |s.mem|
  {
    Shape(s, o);
    AlignedAddress(s.begin, o);
  }

  /** The effect of an enqueue on the two flags and the address of every object. */
  lemma EnqueueEffect(s: Snapshot, m: seq<Word>, slot: int, o: int, x: int)
    requires s.Parses() && SameButForward(s, m)
    requires slot in s.objs && o in s.objs && x in s.objs
    ensures 0 <= slot && slot + 1 < |m| && 0 <= o && o + 1 < |m| && 0 <= s.Content(o) < MODULUS
    ensures s.Content(o) % 4 == 0
    ensures var m' := EnqueueAt(m, slot, o, s.Content(o));
            && SameButForward(s, m')
            && MarkBit(Forward(m', x)) == MarkBit(Forward(m, x))
            && EnqueuedBit(Forward(m', x)) == (x == o || EnqueuedBit(Forward(m, x)))
            && ForwardAddress(Forward(m', x)) == if x == slot then s.Content(o) else ForwardAddress(Forward(m, x))
  {
    ContentIsWord(s, o);
    ContentIsWord(s, slot);
    ContentIsWord(s, x);
    AlignedAddress(s.begin, o);
  }

  lemma DequeueEffect(s: Snapshot, m: seq<Word>, o: int, x: int)
    requires s.Parses() && SameButForward(s, m) && o in s.objs && x in s.objs
    ensures 0 <= o && o + 1 < |m|
    ensures var m' := DequeueMark(m, o);
            && SameButForward(s, m')
            && MarkBit(Forward(m', x)) == (x == o || MarkBit(Forward(m, x)))
            && EnqueuedBit(Forward(m', x)) == (x != o && EnqueuedBit(Forward(m, x)))
            && ForwardAddress(Forward(m', x)) == ForwardAddress(Forward(m, x))
  {
    ContentIsWord(s, o);
    ContentIsWord(s, x);
  }

  /** Offset of the k-th object, or the end of the used words after the last one. */
  ghost function Position(s: Snapshot, k: nat): nat {
    if k < |s.objs| then s.objs[k] else s.current
  }

  lemma PositionsDiffer(s: Snapshot, i: nat, j: nat)
    requires s.Parses() && i < j <= |s.objs|
    ensures Position(s, i) < Position(s, j) <= s.current
  {
    Shape(s, s.objs[i]);
    if j < |s.objs| { Shape(s, s.objs[j]); }
  }

  lemma NextPosition(s: Snapshot, k: nat)
    requires s.Parses() && k < |s.objs|
    ensures s.objs[k] + s.Size(s.objs[k]) == Position(s, k + 1)
  {
    assert s.ObjectAt(k);
  }

  /** One call of mark in progress. `hist` lists, in order, every object enqueued so far; the i-th
      of them waits in the forward word of the i-th object of the heap. The first `head` have been
      dequeued and marked (`done`), the others wait (`pending`); `before` was marked before. */
  datatype Walk = Walk(s: Snapshot, root: int, before: set<int>, hist: seq<int>, head: nat,
                       done: set<int>, pending: set<int>)
  {
    ghost function Black(): set<int> {
      before + done
    }

    ghost function Known(): set<int> {
      before + done + pending
    }

    ghost function Push(t: int): Walk {
      this.(hist := hist + [t], pending := pending + {t})
    }

    ghost function Pop(): Walk
      requires head < |hist|
    {
      this.(head := head + 1, done := done + {hist[head]}, pending := pending - {hist[head]})
    }

    ghost predicate List() {
      && head <= |hist| <= |s.objs|
      && |done| == head && |pending| == |hist| - head
      && done !! pending && before !! done + pending
      && (forall o :: o in done + pending ==> o in s.objs)
      && (forall i, j :: 0 <= i < j < |hist| ==> hist[i] != hist[j])
      && (forall i :: 0 <= i < |hist| ==> hist[i] in (if i < head then done else pending))
    }

    /** The enqueued flag is set on exactly the waiting objects, the mark on exactly the black ones. */
    ghost predicate Bits(m: seq<Word>) {
      && (forall o :: o in s.objs ==> (EnqueuedBit(Forward(m, o)) <==> o in pending))
      && (forall o :: o in s.objs ==> (MarkBit(Forward(m, o)) <==> o in Black()))
    }

    ghost predicate Slots(m: seq<Word>) {
      && |hist| <= |s.objs|
      && forall i :: head <= i < |hist| ==> ForwardAddress(Forward(m, s.objs[i])) == s.Content(hist[i])
    }

    ghost predicate Queue(m: seq<Word>) {
      SameButForward(s, m) && List() && Bits(m) && Slots(m)
    }

    ghost predicate Started() {
      MarkState(s) && before == Marked(s) && root in Known()
    }

    /** Every pointer out of a black object other than `except` leads to a known object. */
    ghost predicate Frontier(except: set<int>) {
      forall o, t :: o in Black() - except && s.Edge(o, t) ==> t in Known()
    }

    /** The pointer fields of c before word i lead to known objects. */
    ghost predicate Scanned(c: int, i: int) {
      forall x :: s.IsField(c, x) && x < i && s.InRange(s.mem[x]) ==> s.Target(s.mem[x]) in Known()
    }

    ghost predicate OnlyReached() {
      forall o :: o in done + pending ==> s.Reach({root}, o)
    }

    /** The invariant of mark's outer loop. */
    ghost predicate Between(m: seq<Word>) {
      Started() && Queue(m) && Frontier({}) && OnlyReached()
    }

    /** The invariant of the loop over the fields of c. */
    ghost predicate Scanning(m: seq<Word>, c: int, i: int) {
      Started() && Queue(m) && c in done && Frontier({c}) && Scanned(c, i) && OnlyReached()
    }
  }

  /** There is always a free slot for an object not yet enqueued in this call. */
  lemma QueueHasRoom(w: Walk, o: int)
    requires w.List()
    requires o in w.s.objs && o !in w.done + w.pending
    ensures |w.hist| < |w.s.objs|
  {
    ObjectSetSize(w.s.objs);
    forall x | x in w.done + w.pending + {o} ensures x in ObjectSet(w.s.objs) {
      assert x == o || x in w.done + w.pending;
    }
    SubsetSize(w.done + w.pending + {o}, ObjectSet(w.s.objs));
  }

  lemma PushList(w: Walk, o: int)
    requires w.List() && o in w.s.objs && o !in w.Known()
    ensures |w.hist| < |w.s.objs| && w.Push(o).List()
  {
    QueueHasRoom(w, o);
    var v := w.Push(o);
    assert forall i :: 0 <= i < |w.hist| ==> w.hist[i] in w.done + w.pending;
    assert |v.pending| == |w.pending| + 1;
    forall i | 0 <= i < |v.hist| ensures v.hist[i] in (if i < v.head then v.done else v.pending) {
      assert i < |w.hist| ==> v.hist[i] == w.hist[i];
    }
  }

  /** Enqueueing an object that is neither marked nor waiting keeps the queue. */
  lemma PushQueue(w: Walk, m: seq<Word>, o: int)
    requires w.s.Parses() && w.Queue(m) && o in w.s.objs && o !in w.Known()
    ensures |w.hist| < |w.s.objs|
    ensures var slot := w.s.objs[|w.hist|];
            && slot + 1 < |m| && 0 <= o && o + 1 < |m| && 0 <= w.s.Content(o) < MODULUS
            && w.s.Content(o) % 4 == 0
            && w.Push(o).Queue(EnqueueAt(m, slot, o, w.s.Content(o)))
  {
    PushList(w, o);
    var slot := w.s.objs[|w.hist|];
    EnqueueEffect(w.s, m, slot, o, o);
    var m' := EnqueueAt(m, slot, o, w.s.Content(o));
    var w' := w.Push(o);
    assert w'.Bits(m') by {
      forall x | x in w.s.objs
        ensures EnqueuedBit(Forward(m', x)) <==> x in w'.pending
        ensures MarkBit(Forward(m', x)) <==> x in w'.Black()
      {
        EnqueueEffect(w.s, m, slot, o, x);
      }
    }
    PushSlots(w, m, o);
  }

  lemma PushSlots(w: Walk, m: seq<Word>, o: int)
    requires w.s.Parses() && SameButForward(w.s, m) && w.Slots(m)
    requires o in w.s.objs && |w.hist| < |w.s.objs|
    ensures var slot := w.s.objs[|w.hist|];
            && slot + 1 < |m| && 0 <= o && o + 1 < |m| && 0 <= w.s.Content(o) < MODULUS
            && w.s.Content(o) % 4 == 0
            && w.Push(o).Slots(EnqueueAt(m, slot, o, w.s.Content(o)))
  {
    var slot := w.s.objs[|w.hist|];
    EnqueueEffect(w.s, m, slot, o, o);
    var m' := EnqueueAt(m, slot, o, w.s.Content(o));
    var hist' := w.hist + [o];
    forall i | w.head <= i < |hist'|
      ensures ForwardAddress(Forward(m', w.s.objs[i])) == w.s.Content(hist'[i])
    {
      EnqueueEffect(w.s, m, slot, o, w.s.objs[i]);
      assert i < |w.hist| ==> w.s.objs[i] + 2 <= slot;
    }
  }

  lemma PopList(w: Walk)
    requires w.List() && w.head < |w.hist|
    ensures w.hist[w.head] in w.pending && w.Pop().List()
  {
    var o := w.hist[w.head];
    assert o in w.pending;
    assert w.done + {o} + (w.pending - {o}) == w.done + w.pending;
  }

  /** Dequeueing yields the oldest waiting object; marking it keeps the queue. */
  lemma PopQueue(w: Walk, m: seq<Word>)
    requires w.s.Parses() && w.Queue(m) && w.head < |w.hist|
    ensures var o := w.hist[w.head];
            && o in w.s.objs && 0 <= o && o + 1 < |m|
            && ForwardAddress(Forward(m, w.s.objs[w.head])) == w.s.Content(o)
            && w.Pop().Queue(DequeueMark(m, o))
  {
    var o := w.hist[w.head];
    PopList(w);
    assert o in w.done + w.pending;
    DequeueEffect(w.s, m, o, o);
    var m' := DequeueMark(m, o);
    var w' := w.Pop();
    assert w'.Bits(m') by {
      forall x | x in w.s.objs
        ensures EnqueuedBit(Forward(m', x)) <==> x in w'.pending
        ensures MarkBit(Forward(m', x)) <==> x in w'.Black()
      {
        DequeueEffect(w.s, m, o, x);
      }
    }
    forall i | w'.head <= i < |w'.hist|
      ensures ForwardAddress(Forward(m', w.s.objs[i])) == w.s.Content(w.hist[i])
    {
      DequeueEffect(w.s, m, o, w.s.objs[i]);
    }
  }

  // ------------------------------------------------------------ the traversal

  /** The call starts: its root is enqueued. */
  lemma WalkBegins(s: Snapshot, root: int)
    requires MarkState(s) && root in s.objs && root !in Marked(s)
    ensures var w := Walk(s, root, Marked(s), [], 0, {}, {});
            && 0 < |s.objs| && root + 1 < |s.mem| && 0 <= root && s.objs[0] + 1 < |s.mem|
            && 0 <= s.Content(root) < MODULUS && s.Content(root) % 4 == 0
            && w.Push(root).Between(EnqueueAt(s.mem, s.objs[0], root, s.Content(root)))
  {
    var w := Walk(s, root, Marked(s), [], 0, {}, {});
    assert w.Queue(s.mem);
    PushQueue(w, s.mem, root);
    RootReached(s, {root}, root);
    var w' := w.Push(root);
    assert w'.Black() == Marked(s) && Marked(s) <= w'.Known();
  }

  /** What holds between two calls: a root word outside the heap, or one already marked, adds nothing. */
  lemma MarkStateFacts(s: Snapshot, v: Word)
    requires MarkState(s) && s.GoodWord(v)
    ensures s.Parses() && SameButForward(s, s.mem)
    ensures !s.InRange(v) ==> Marked(s) == Marked(s) + s.Reachable(s.RootOf(v))
    ensures var r := s.Target(v);
            s.InRange(v) ==>
              && r in s.objs && 0 <= r && r + 1 < |s.mem| && v == s.Content(r) && v % 4 == 0
              && 0 < |s.objs| && s.objs[0] == 0
              && (MarkBit(s.mem[r + 1]) <==> r in Marked(s))
              && (r in Marked(s) ==> Marked(s) == Marked(s) + s.Reachable(s.RootOf(v)))
  {
    if s.InRange(v) {
      var r := s.Target(v);
      ContentIsWord(s, r);
      AlignedAddress(s.begin, r);
      if r in Marked(s) {
        MarkedRootAddsNothing(s, r);
      }
    } else {
      ReachableEmpty(s);
    }
  }

  /** What a state of the outer loop tells: the positions of head and tail meet exactly when the
      queue is empty, and otherwise the head slot names a waiting object. */
  lemma BetweenFacts(w: Walk, m: seq<Word>)
    requires w.Between(m)
    ensures SameButForward(w.s, m) && |m| == |w.s.mem| && w.s.Parses() && w.s.(mem := m).Parses()
    ensures w.head <= |w.hist| <= |w.s.objs|
    ensures Position(w.s, w.head) == Position(w.s, |w.hist|) <==> w.head == |w.hist|
    ensures w.head < |w.hist| ==>
              var x := w.s.objs[w.head];
              && x + 1 < |m| && w.s.(mem := m).Size(x) == w.s.Size(x)
              && w.s.GoodWord(ForwardAddress(m[x + 1])) && w.s.InRange(ForwardAddress(m[x + 1]))
  {
    SameParses(w.s, m);
    if w.head < |w.hist| {
      PositionsDiffer(w.s, w.head, |w.hist|);
      var x := w.s.objs[w.head];
      SizeUnchanged(w, m, x);
      PopQueue(w, m);
      ContentIsWord(w.s, w.hist[w.head]);
    }
  }

  lemma FirstPositions(s: Snapshot)
    requires s.Parses() && 0 < |s.objs|
    ensures s.objs[0] == 0 == Position(s, 0) && s.Size(0) == Position(s, 1)
  {
    NextPosition(s, 0);
  }

  /** What a state of the loop over the fields tells about one object. */
  lemma ObjectBits(w: Walk, m: seq<Word>, o: int)
    requires w.s.Parses() && w.Queue(m) && o in w.s.objs
    ensures 0 <= o && o + 1 < |m|
    ensures MarkBit(m[o + 1]) || EnqueuedBit(m[o + 1]) <==> o in w.Known()
  {
    Shape(w.s, o);
  }

  /** Taking the next object from the queue starts the scan of its fields. */
  lemma PopWalk(w: Walk, m: seq<Word>)
    requires w.Between(m) && w.head < |w.hist|
    ensures var o := w.hist[w.head];
            && o in w.s.objs && 0 <= o && o + 1 < |m|
            && ForwardAddress(Forward(m, w.s.objs[w.head])) == w.s.Content(o)
            && w.Pop().Started() && w.Pop().Queue(DequeueMark(m, o)) && o in w.Pop().done
            && w.Pop().Frontier({o}) && w.Pop().OnlyReached() && w.Pop().Known() == w.Known()
  {
    PopQueue(w, m);
    PopFrontier(w);
  }

  lemma PopFrontier(w: Walk)
    requires w.List() && w.head < |w.hist| && w.Frontier({}) && w.OnlyReached()
    ensures w.Pop().Frontier({w.hist[w.head]}) && w.Pop().OnlyReached() && w.Pop().Known() == w.Known()
  {
    var o := w.hist[w.head];
    assert o in w.pending;
    hide Walk.List, Snapshot.Reach, Snapshot.Edge;
    var w' := w.Pop();
    assert w'.done + w'.pending == w.done + w.pending;
    assert w'.Known() == w.Known();
    assert w'.Black() - {o} <= w.Black() - {};
  }

  /** The scan of c starts: nothing has been looked at. */
  lemma ScanBegins(w: Walk, m: seq<Word>, c: int)
    requires w.Started() && w.Queue(m) && c in w.done && w.Frontier({c}) && w.OnlyReached()
    ensures w.Scanning(m, c, 0) && c in w.s.objs
  {
    assert c in w.done + w.pending;
    Shape(w.s, c);
    assert w.Scanned(c, 0);
  }

  /** What a state of the scan tells about the object being scanned. */
  lemma ScanFacts(w: Walk, m: seq<Word>, c: int, i: int)
    requires w.Scanning(m, c, i)
    ensures c in w.s.objs && |m| == |w.s.mem| && w.s.Parses() && w.s.(mem := m).Parses()
    ensures 0 <= c < |m| && ValidHeader(m[c]) && m[c] == w.s.Header(c)
    ensures c + SizeWords(m[c]) == c + w.s.Size(c) <= |m|
    ensures w.s.(mem := m).Size(c) == w.s.Size(c)
  {
    assert c in w.done + w.pending;
    Shape(w.s, c);
    SameParses(w.s, m);
    SameObject(w.s, m, c);
  }

  lemma SizeUnchanged(w: Walk, m: seq<Word>, x: int)
    requires w.s.Parses() && w.Queue(m) && x in w.s.objs
    ensures 0 <= x && x + 1 < |m|
    ensures w.s.(mem := m).Parses() && w.s.(mem := m).Size(x) == w.s.Size(x)
  {
    Shape(w.s, x);
    SameObject(w.s, m, x);
    SameParses(w.s, m);
  }

  lemma SlotUnchanged(w: Walk, m: seq<Word>, c: int, i: int)
    requires w.Scanning(m, c, i) && |w.hist| < |w.s.objs|
    ensures var x := w.s.objs[|w.hist|];
            x + 1 < |m| && w.s.(mem := m).Size(x) == w.s.Size(x)
  {
    SizeUnchanged(w, m, w.s.objs[|w.hist|]);
  }

  /** What it tells about one of its fields and the object that field points to. */
  lemma FieldFacts(w: Walk, m: seq<Word>, c: int, i: int)
    requires w.Scanning(m, c, i) && ValidHeader(w.s.Header(c))
    requires c + FirstField(w.s.Header(c)) <= i < c + w.s.Size(c)
    ensures w.s.IsField(c, i) && i < |m| && m[i] == w.s.mem[i] && w.s.GoodWord(m[i])
    ensures var t := w.s.Target(m[i]);
            w.s.InRange(m[i]) ==>
              && t in w.s.objs && 0 <= t && t + 1 < |m| && m[i] == w.s.Content(t)
              && (MarkBit(m[t + 1]) || EnqueuedBit(m[t + 1]) <==> t in w.Known())
  {
    assert c in w.done + w.pending;
    Shape(w.s, c);
    SameObject(w.s, m, c);
    assert w.s.IsField(c, i);
    var t := w.s.Target(m[i]);
    if w.s.InRange(m[i]) {
      ObjectBits(w, m, t);
    }
  }

  /** Up to the first pointer field, and from one pointer field to the next, there is nothing to follow. */
  lemma SkipUnboxed(w: Walk, m: seq<Word>, c: int, i: int, j: int)
    requires w.Scanning(m, c, i)
    requires forall x :: w.s.(mem := m).IsField(c, x) && i <= x < j ==> Unboxed(m[x])
    ensures w.Scanning(m, c, j)
  {
    assert c in w.done + w.pending;
    SameObject(w.s, m, c);
    forall x | w.s.IsField(c, x) && x < j && w.s.InRange(w.s.mem[x]) ensures w.s.Target(w.s.mem[x]) in w.Known() {
      assert w.s.(mem := m).IsField(c, x);
    }
  }

  /** A pointer field leading to an unknown object: the object is enqueued. */
  lemma PushWalk(w: Walk, m: seq<Word>, c: int, i: int)
    requires w.Scanning(m, c, i) && c in w.s.objs && w.s.IsField(c, i) && w.s.InRange(w.s.mem[i])
    requires w.s.Target(w.s.mem[i]) !in w.Known()
    ensures var t := w.s.Target(w.s.mem[i]);
            && t in w.s.objs && w.s.mem[i] == w.s.Content(t) && |w.hist| < |w.s.objs|
            && w.s.objs[|w.hist|] + 1 < |m| && 0 <= t && t + 1 < |m| && w.s.mem[i] % 4 == 0
            && w.Push(t).Scanning(EnqueueAt(m, w.s.objs[|w.hist|], t, w.s.mem[i]), c, i + 1)
  {
    var t := w.s.Target(w.s.mem[i]);
    assert w.s.GoodWord(w.s.mem[i]);
    PushQueue(w, m, t);
    AlignedAddress(w.s.begin, t);
    PushFrontier(w, c, i, t);
    assert w.Push(t).OnlyReached() by {
      assert c in w.done + w.pending;
      assert w.s.Edge(c, t);
      ReachStep(w.s, {w.root}, c, t);
    }
  }

  lemma PushFrontier(w: Walk, c: int, i: int, t: int)
    requires w.Frontier({c}) && w.Scanned(c, i)
    requires w.s.IsField(c, i) && t == w.s.Target(w.s.mem[i])
    ensures w.Push(t).Frontier({c}) && w.Push(t).Scanned(c, i + 1) && w.Push(t).Known() == w.Known() + {t}
  {
    var w' := w.Push(t);
    assert w'.Known() == w.Known() + {t};
    forall o, x | o in w'.Black() - {c} && w'.s.Edge(o, x) ensures x in w'.Known() {
      assert o in w.Black() - {c};
    }
  }

  /** A pointer field leading to a known object needs nothing. */
  lemma KnownField(w: Walk, m: seq<Word>, c: int, i: int)
    requires w.Scanning(m, c, i)
    requires w.s.IsField(c, i) && w.s.InRange(w.s.mem[i]) ==> w.s.Target(w.s.mem[i]) in w.Known()
    ensures w.Scanning(m, c, i + 1)
  {
  }

  /** All fields of c scanned: back in the outer loop. */
  lemma ScanDone(w: Walk, m: seq<Word>, c: int, i: int)
    requires w.Scanning(m, c, i) && c + w.s.Size(c) <= i
    ensures w.Between(m)
  {
    forall o, t | o in w.Black() - {} && w.s.Edge(o, t) ensures t in w.Known() {
      if o == c {
        var x :| w.s.IsField(c, x) && w.s.InRange(w.s.mem[x]) && w.s.Target(w.s.mem[x]) == t;
      } else {
        assert o in w.Black() - {c};
      }
    }
  }

  /** With an empty queue the marks are exactly the old ones and what the root reaches. */
  lemma WalkEnds(w: Walk, m: seq<Word>)
    requires w.Between(m) && w.head == |w.hist|
    ensures MarkState(w.s.(mem := m))
    ensures Marked(w.s.(mem := m)) == Marked(w.s) + w.s.Reachable({w.root})
  {
    var black := w.Black();
    BlackIsMarked(w, m);
    ClosedContainsReachable(w.s, black, {w.root});
    assert w.done <= w.s.Reachable({w.root}) by {
      assert forall o :: o in w.done ==> o in w.done + w.pending;
    }
    ClosedState(w.s, m);
  }

  lemma BlackIsMarked(w: Walk, m: seq<Word>)
    requires w.Between(m) && w.head == |w.hist|
    ensures w.pending == {} && w.Known() == w.Black() && Marked(w.s.(mem := m)) == w.Black()
  {
    assert w.pending == {};
    var black := w.Black();
    assert w.Known() == black == black - {};
    assert Marked(w.s.(mem := m)) == black by {
      assert forall o :: o in w.done + w.pending ==> o in w.s.objs;
    }
  }

  lemma ClosedState(s: Snapshot, m: seq<Word>)
    requires s.Parses() && s.PointersGood() && SameButForward(s, m)
    requires NothingEnqueued(s.(mem := m)) && ClosedUnderEdges(s, Marked(s.(mem := m)))
    ensures MarkState(s.(mem := m))
  {
    var t := s.(mem := m);
    SameParses(s, m);
    SamePointersGood(s, m);
    forall o, x | o in Marked(t) && t.Edge(o, x) ensures x in Marked(t) {
      SameEdges(s, m, o, x);
    }
  }

  /** Marking from an already marked root has nothing to add. */
  lemma MarkedRootAddsNothing(s: Snapshot, root: int)
    requires MarkState(s) && root in Marked(s)
    ensures s.Reachable({root}) <= Marked(s)
  {
    ClosedContainsReachable(s, Marked(s), {root});
  }
}
