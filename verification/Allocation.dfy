/** Adding one object to a heap, and what the heap invariant says about the root areas. */
module Allocation {
  import opened Words
  import opened Layout
  import opened Compaction
  import opened Survival
  import opened Roots
  import opened Collection

  function ObjectWords(k: Kind, len: nat): (n: nat)
    ensures n >= 2
  {
    BytesToWords(ObjectBytes(k, len))
  }

  ghost predicate Fits(s: Snapshot, k: Kind, len: nat) {
    s.current + ObjectWords(k, len) <= |s.mem|
  }

  ghost function WordAfter(s: Snapshot, k: Kind, len: nat, i: nat): Word
    requires len < MODULUS / 8 && i < |s.mem|
  {
    if i == s.current then MakeHeader(k, len)
    else if s.current < i < s.current + ObjectWords(k, len) then 0
    else s.mem[i]
  }

  /** The chunk with a zeroed object of the given kind and length behind the last one. */
  ghost function Extended(s: Snapshot, k: Kind, len: nat): Snapshot
    requires len < MODULUS / 8
  {
    Snapshot(s.begin, s.current + ObjectWords(k, len), s.objs + [s.current],
             seq(|s.mem|, i requires 0 <= i < |s.mem| => WordAfter(s, k, len, i)))
  }

  lemma ExtendedParses(s: Snapshot, k: Kind, len: nat)
    requires s.Parses() && Fits(s, k, len) && len < MODULUS / 8
    ensures Extended(s, k, len).Parses()
    ensures Extended(s, k, len).Size(s.current) == ObjectWords(k, len)
  {
    hide MakeHeader;
    var t := Extended(s, k, len);
    var u := s.(mem := t.mem);
    forall i | 0 <= i < |s.objs| ensures u.ObjectAt(i) {
      assert s.ObjectAt(i);
      Shape(s, s.objs[i]);
    }
    assert u.Parses();
    assert SizeWords(u.mem[u.current]) == ObjectWords(k, len);
    AppendParses(u);
    assert Appended(u) == t;
  }

  /** Objects that were there before keep all their words. */
  lemma OldObjectKept(s: Snapshot, k: Kind, len: nat, o: int)
    requires s.Parses() && Fits(s, k, len) && len < MODULUS / 8 && o in s.objs
    ensures var t := Extended(s, k, len);
            && o in t.objs && t.Header(o) == s.Header(o) && t.Size(o) == s.Size(o)
            && (forall i :: o <= i < o + s.Size(o) ==> At(t.mem, i) == At(s.mem, i))
            && (forall i :: t.IsField(o, i) <==> s.IsField(o, i))
  {
    Shape(s, o);
    OldMember(s.objs, s.current, o);
  }

  lemma OldMember(objs: seq<nat>, x: nat, o: int)
    ensures o in objs + [x] <==> o in objs || o == x
  {
  }

  /** A word that is sound in the old heap stays sound: no stale address becomes a pointer. */
  lemma SoundWordKept(s: Snapshot, k: Kind, len: nat, v: Word)
    requires s.Parses() && Fits(s, k, len) && len < MODULUS / 8 && s.SoundWord(v)
    ensures var t := Extended(s, k, len);
            t.SoundWord(v) && t.GoodWord(v) && (t.InRange(v) <==> s.InRange(v))
  {
    hide HeaderAt, MakeHeader;
    if v % 2 == 0 && s.begin <= v <= s.begin + 8 * |s.mem| {
      Shape(s, s.Target(v));
      OldMember(s.objs, s.current, s.Target(v));
    }
  }

  lemma ZeroIsSound(s: Snapshot)
    requires s.Parses()
    ensures s.SoundWord(0) && s.GoodWord(0) && !s.InRange(0)
  {
  }

  lemma ExtendedFields(s: Snapshot, k: Kind, len: nat, o: int, i: int)
    requires s.Sound() && Fits(s, k, len) && len < MODULUS / 8
    requires o in s.objs + [s.current] && Extended(s, k, len).IsField(o, i)
    ensures var t := Extended(s, k, len); t.SoundWord(t.mem[i]) && t.GoodWord(t.mem[i])
  {
    hide MakeHeader, HeaderAt;
    var t := Extended(s, k, len);
    ExtendedParses(s, k, len);
    OldMember(s.objs, s.current, o);
    if o in s.objs {
      OldObjectKept(s, k, len, o);
      Shape(s, o);
      assert s.IsField(o, i) && At(t.mem, i) == At(s.mem, i);
      SoundWordKept(s, k, len, s.mem[i]);
    } else {
      ZeroIsSound(t);
    }
  }

  /** Allocating an object keeps the heap invariant. */
  lemma ExtendedSound(s: Snapshot, k: Kind, len: nat)
    requires s.Sound() && Fits(s, k, len) && len < MODULUS / 8
    ensures Extended(s, k, len).Sound()
  {
    hide MakeHeader, HeaderAt, Snapshot.Parses;
    var t := Extended(s, k, len);
    ExtendedParses(s, k, len);
    forall o, i | o in t.objs && t.IsField(o, i) ensures t.SoundWord(t.mem[i]) && t.GoodWord(t.mem[i]) {
      ExtendedFields(s, k, len, o, i);
    }
    forall o | o in t.objs ensures FlagsClear(t.Header(o + 1)) {
      OldMember(s.objs, s.current, o);
      if o in s.objs {
        OldObjectKept(s, k, len, o);
        Shape(s, o);
        assert FlagsClear(s.Header(o + 1));
        assert At(t.mem, o + 1) == At(s.mem, o + 1);
      }
    }
  }

  /** What gc_alloc_on_existing_heap and alloc return. */
  datatype Pointer = Null | Offset(offset: nat)

  datatype Outcome = Allocated(header: nat) | MmapFailed

  /** The heap an allocation takes place in: the one before, or what a collection made of it. */
  ghost predicate Prepared(s: Snapshot, a: Areas, t: Snapshot, a': Areas) {
    (t == s && a' == a) || Collected(s, a, t, a')
  }

  /** Invariant of the root areas: every scanned word is sound, extra roots lie where both marking and
      rewriting see them, and the word at __gc_stack_bottom is no heap pointer. */
  ghost predicate RootsSound(s: Snapshot, a: Areas) {
    && a.WellFormed()
    && (forall i :: 0 <= i < |a.Scanned()| ==> s.SoundWord(a.Scanned()[i]))
    && (forall k :: 0 <= k < |a.extra| ==> a.extra[k] != StackSlot(0) && a.extra[k] != StaticSlot(|a.statics| - 1))
    && s.SoundWord(a.stack[|a.stack| - 1]) && !s.InRange(a.stack[|a.stack| - 1])
  }

  lemma RootsWellFormed(s: Snapshot, a: Areas)
    requires RootsSound(s, a)
    ensures a.WellFormed()
  {
  }

  /** Sound roots are good ones, so that a collection depends on the place of the new chunk alone. */
  lemma SoundRootsCollectable(s: Snapshot, a: Areas, address: nat, additional: nat)
    requires s.Sound() && RootsSound(s, a) && PlacedClear(s, a, address, additional)
    ensures Collectable(s, a, address, additional)
  {
    hide PlacedClear, HeaderAt, Areas.Scanned, Snapshot.Sound;
    SoundFacts(s);
    forall i | 0 <= i < |a.Scanned()| ensures s.GoodWord(a.Scanned()[i]) {
      SoundIsGood(s, a.Scanned()[i]);
    }
  }

  lemma SoundFacts(s: Snapshot)
    requires s.Sound()
    ensures s.Valid() && s.Parses() && s.current <= |s.mem|
  {
  }

  lemma CollectedSound(s: Snapshot, a: Areas, t: Snapshot, a': Areas)
    requires Collected(s, a, t, a')
    ensures t.Sound()
  {
  }

  lemma SoundIsGood(s: Snapshot, v: Word)
    requires s.Parses() && s.SoundWord(v)
    ensures s.GoodWord(v)
  {
    hide HeaderAt;
  }

  /** Roots are sound again after a collection. */
  lemma RootsSoundAfterCollection(s: Snapshot, a: Areas, t: Snapshot, a': Areas)
    requires RootsSound(s, a) && Collected(s, a, t, a') && NoStrayRoots(s, a, t.begin, |t.mem|)
    ensures RootsSound(t, a')
  {
    hide Survivors, Snapshot.Sound, Live, Areas.Scanned, HeaderAt;
    WellFormedAfter(s, Live(s, a), t.begin, a, a');
    var n := |a.stack| - 1;
    assert Redirects(s, Live(s, a), t.begin, a.stack[n], a'.stack[n]);
    forall i | 0 <= i < |a'.Scanned()| ensures t.SoundWord(a'.Scanned()[i]) {
      assert RootKept(s, a, t, a.Scanned()[i], a'.Scanned()[i]);
    }
    OutsideIsSound(t, a.stack[n]);
  }

  lemma OutsideIsSound(t: Snapshot, v: Word)
    requires Outside(t.begin, |t.mem|, v) && t.Sound()
    ensures t.SoundWord(v) && !t.InRange(v)
  {
  }

  lemma RootsSoundAfterAllocation(s: Snapshot, a: Areas, k: Kind, len: nat)
    requires s.Sound() && RootsSound(s, a) && Fits(s, k, len) && len < MODULUS / 8
    ensures RootsSound(Extended(s, k, len), a)
  {
    hide Snapshot.Parses, Snapshot.SoundWord, Snapshot.InRange, Areas.Scanned, Extended;
    forall i | 0 <= i < |a.Scanned()| ensures Extended(s, k, len).SoundWord(a.Scanned()[i]) {
      SoundWordKept(s, k, len, a.Scanned()[i]);
    }
    SoundWordKept(s, k, len, a.stack[|a.stack| - 1]);
  }

  lemma SizeOfObject(k: Kind, len: nat)
    ensures ObjectWords(k, len) >= if k.SEXP? then 3 else 2
  {
    if k.SEXP? {
      assert ObjectBytes(k, len) - 1 == 8 * (len + 2) + 7;
      DivMod8(len + 2, 7);
    }
  }

  lemma ExtendedWords(s: Snapshot, k: Kind, len: nat, m: seq<Word>)
    requires s.Parses() && Fits(s, k, len) && len < MODULUS / 8 && |m| == |s.mem|
    requires forall i :: 0 <= i < |m| ==> m[i] == WordAfter(s, k, len, i)
    ensures m == Extended(s, k, len).mem
  {
    hide WordAfter;
  }
}
