/** Objects built from argument words that are registered as extra roots meanwhile. */
module Construction {
  import opened Words
  import opened Layout
  import opened Compaction
  import opened Survival
  import opened Roots
  import opened Collection
  import opened Allocation
  import opened Values

  /** Where the fields of a fresh object begin: after the code word or tag, if it has one. */
  function FieldStart(k: Kind): nat {
    if k.ARRAY? then 2 else 3
  }

  /** The length field of an object with n fields: closures count their code word. */
  function LengthFor(k: Kind, n: nat): nat {
    if k.CLOSURE? then n + 1 else n
  }

  /** The second word of a fresh closure or s-expression, from the argument it is given. */
  function ExtraFor(k: Kind, w: Word): Word {
    match k
    case CLOSURE => w
    case SEXP => UnboxWord(w)
    case _ => 0
  }

  lemma SizeFor(k: Kind, n: nat)
    requires !k.STRING?
    ensures ObjectWords(k, LengthFor(k, n)) == FieldStart(k) + n
  {
    var w := FieldStart(k) + n;
    assert ObjectBytes(k, LengthFor(k, n)) == 8 * w;
    assert 8 * w - 1 == 8 * (w - 1) + 7;
    DivMod8(w - 1, 7);
  }

  /** A fresh closure or s-expression has a second content word. */
  lemma ExtraInside(t: Snapshot, k: Kind, n: nat)
    requires !k.STRING? && !k.ARRAY? && Fits(t, k, LengthFor(k, n))
    ensures t.current + 2 < |t.mem|
  {
    hide ObjectWords;
    SizeFor(k, n);
  }

  ghost function FilledWord(t: Snapshot, k: Kind, extra: Word, fields: seq<Word>, i: nat): Word
    requires LengthFor(k, |fields|) < MODULUS / 8 && i < |t.mem|
  {
    var f := t.current + FieldStart(k);
    if f <= i < f + |fields| then fields[i - f]
    else if !k.ARRAY? && i == t.current + 2 then extra
    else WordAfter(t, k, LengthFor(k, |fields|), i)
  }

  /** The heap with a new object holding the given words. */
  ghost function Filled(t: Snapshot, k: Kind, extra: Word, fields: seq<Word>): Snapshot
    requires LengthFor(k, |fields|) < MODULUS / 8
  {
    Extended(t, k, LengthFor(k, |fields|)).(mem :=
      seq(|t.mem|, i requires 0 <= i < |t.mem| => FilledWord(t, k, extra, fields, i)))
  }

  ghost predicate Fillable(t: Snapshot, k: Kind, fields: seq<Word>) {
    && !k.STRING? && LengthFor(k, |fields|) < MODULUS / 8 && Fits(t, k, LengthFor(k, |fields|))
    && t.Sound() && forall i :: 0 <= i < |fields| ==> t.SoundWord(fields[i])
  }

  /** The object built: its header, its size, and its words. */
  lemma FilledObject(t: Snapshot, k: Kind, extra: Word, fields: seq<Word>)
    requires Fillable(t, k, fields)
    ensures var u, p := Filled(t, k, extra, fields), t.current;
            && u.Parses() && p in u.objs && Above(t, u)
            && u.Header(p) == MakeHeader(k, LengthFor(k, |fields|)) && u.Size(p) == FieldStart(k) + |fields|
            && FlagsClear(u.Header(p + 1))
            && (!k.ARRAY? ==> At(u.mem, p + 2) == extra)
            && (forall i :: 0 <= i < |fields| ==> At(u.mem, p + FieldStart(k) + i) == fields[i])
  {
    hide MakeHeader, HeaderAt;
    var e, u, p := Extended(t, k, LengthFor(k, |fields|)), Filled(t, k, extra, fields), t.current;
    SizeFor(k, |fields|);
    ExtendedParses(t, k, LengthFor(k, |fields|));
    forall j | 0 <= j < |u.objs| ensures u.ObjectAt(j) {
      assert e.ObjectAt(j);
      if j < |t.objs| { Shape(t, t.objs[j]); }
    }
  }

  lemma FilledField(t: Snapshot, k: Kind, extra: Word, fields: seq<Word>, o: int, i: int)
    requires Fillable(t, k, fields) && o in Filled(t, k, extra, fields).objs
    requires Filled(t, k, extra, fields).IsField(o, i)
    ensures var u := Filled(t, k, extra, fields);
            (o in t.objs && t.IsField(o, i) && u.mem[i] == t.mem[i]) || u.mem[i] in fields
  {
    hide MakeHeader, HeaderAt;
    FilledObject(t, k, extra, fields);
    OldMember(t.objs, t.current, o);
    if o in t.objs {
      Shape(t, o);
    } else {
      assert At(Filled(t, k, extra, fields).mem, t.current + FieldStart(k) + (i - t.current - FieldStart(k))) ==
             fields[i - t.current - FieldStart(k)];
    }
  }

  /** Building an object from sound words keeps the heap invariant. */
  lemma FilledSound(t: Snapshot, k: Kind, extra: Word, fields: seq<Word>)
    requires Fillable(t, k, fields)
    ensures Filled(t, k, extra, fields).Sound()
  {
    hide MakeHeader, HeaderAt;
    var u := Filled(t, k, extra, fields);
    FilledObject(t, k, extra, fields);
    forall o, i | o in u.objs && u.IsField(o, i) ensures u.SoundWord(u.mem[i]) && u.GoodWord(u.mem[i]) {
      FilledField(t, k, extra, fields, o, i);
      assert t.SoundWord(u.mem[i]);
      SoundWordAbove(t, u, u.mem[i]);
    }
    forall o | o in u.objs ensures FlagsClear(u.Header(o + 1)) {
      OldMember(t.objs, t.current, o);
      if o in t.objs {
        Shape(t, o);
        assert FlagsClear(t.Header(o + 1));
      }
    }
  }

  lemma SoundWordAbove(t: Snapshot, u: Snapshot, v: Word)
    requires Above(t, u) && t.SoundWord(v) && u.objs == t.objs + [t.current]
    ensures u.SoundWord(v) && u.GoodWord(v)
  {
    hide HeaderAt, Snapshot.Sound;
    OldMember(t.objs, t.current, t.Target(v));
  }

  /** Its value is the node of the values of the words it was built from. */
  lemma FilledValue(t: Snapshot, k: Kind, extra: Word, fields: seq<Word>, d: nat)
    requires Fillable(t, k, fields)
    ensures var u := Filled(t, k, extra, fields);
            ObjectValue(u, d, t.current) ==
            Node(k, LengthFor(k, |fields|), if k.ARRAY? then 0 else extra,
                 seq(|fields|, i requires 0 <= i < |fields| => ValueOf(t, d, fields[i])))
  {
    hide MakeHeader, HeaderAt, ValueOf, Filled, Above;
    var u, p := Filled(t, k, extra, fields), t.current;
    FilledObject(t, k, extra, fields);
    assert FirstField(u.Header(p)) == FieldStart(k);
    forall i | 0 <= i < |fields| ensures ValueOf(u, d, FieldWord(u, p, i)) == ValueOf(t, d, fields[i]) {
      assert At(u.mem, p + FieldStart(k) + i) == fields[i];
      ValueAbove(t, u, d, fields[i]);
    }
  }

  // ------------------------------------------------------------------- the arguments

  ghost function ArgSlots(first: nat, n: nat): seq<Slot> {
    seq(n, i requires 0 <= i < n => LocalSlot(first + i))
  }

  /** The root areas while the n argument words from `first` on are registered. */
  ghost function Registered(a: Areas, first: nat, n: nat): Areas {
    a.(extra := a.extra + ArgSlots(first, n))
  }

  ghost function ArgValues(s: Snapshot, a: Areas, first: nat, n: nat, d: nat): seq<Value> {
    seq(n, i requires 0 <= i < n => ValueOf(s, d, a.Load(LocalSlot(first + i))))
  }

  ghost predicate ArgsSound(s: Snapshot, a: Areas, first: nat, n: nat) {
    first + n <= |a.locals| && forall i :: first <= i < first + n ==> s.SoundWord(a.locals[i])
  }

  lemma {:induction false} ExtraWordsShared(a: Areas, b: Areas, n: nat)
    requires n <= |a.extra| && n <= |b.extra| && a.extra[..n] == b.extra[..n]
    requires a.stack == b.stack && a.statics == b.statics && a.locals == b.locals
    ensures a.ExtraWords(n) == b.ExtraWords(n)
  {
    if n > 0 {
      assert a.extra[..n][n - 1] == a.extra[n - 1] && b.extra[..n][n - 1] == b.extra[n - 1];
      assert a.extra[..n - 1] == a.extra[..n][..n - 1] == b.extra[..n - 1];
      assert forall sl :: a.Load(sl) == b.Load(sl);
      ExtraWordsShared(a, b, n - 1);
    }
  }

  /** Registering sound argument words keeps the roots sound. */
  lemma RegisteredSound(s: Snapshot, a: Areas, first: nat, n: nat)
    requires RootsSound(s, a) && ArgsSound(s, a, first, n) && |a.extra| + n <= MAX_EXTRA_ROOTS_NUMBER
    ensures RootsSound(s, Registered(a, first, n))
  {
    hide Snapshot.SoundWord, Snapshot.InRange, Areas.Scanned;
    var b := Registered(a, first, n);
    forall k | 0 <= k < |b.extra|
      ensures b.InBounds(b.extra[k]) && b.extra[k] != StackSlot(0) && b.extra[k] != StaticSlot(|b.statics| - 1)
    {
      if k < |a.extra| {
        assert b.extra[k] == a.extra[k];
      } else {
        assert b.extra[k] == LocalSlot(first + (k - |a.extra|));
      }
    }
    ScannedParts(a);
    ScannedParts(b);
    forall i | 0 <= i < |b.Scanned()| ensures s.SoundWord(b.Scanned()[i]) {
      RegisteredWord(s, a, first, n, i);
    }
  }

  /** Where word i of the scanned roots stands while n argument words are registered. */
  function PlaceOf(a: Areas, n: nat, i: nat): nat {
    if i + 2 < |a.stack| + |a.extra| then i else i + n
  }

  lemma PlaceHolds(a: Areas, first: nat, n: nat, i: nat)
    requires a.WellFormed() && Registered(a, first, n).WellFormed() && i < |a.Scanned()|
    ensures var r := Registered(a, first, n);
            PlaceOf(a, n, i) < |r.Scanned()| && r.Scanned()[PlaceOf(a, n, i)] == a.Scanned()[i]
  {
    hide Areas.Scanned;
    var b := Registered(a, first, n);
    ScannedParts(a);
    ScannedParts(b);
    var x, y := |a.stack| - 2, |a.extra|;
    if i < x {
      assert b.Scanned()[i + 1 - 1] == b.stack[i + 1] && a.Scanned()[i + 1 - 1] == a.stack[i + 1];
    } else if i < x + y {
      assert b.extra[i - x] == a.extra[i - x];
      assert b.Scanned()[x + (i - x)] == b.Load(b.extra[i - x]) && a.Scanned()[x + (i - x)] == a.Load(a.extra[i - x]);
    } else {
      var k := i - x - y;
      assert b.Scanned()[x + (y + n) + k] == b.statics[k] && a.Scanned()[x + y + k] == a.statics[k];
    }
  }

  lemma RegisteredWord(s: Snapshot, a: Areas, first: nat, n: nat, i: nat)
    requires RootsSound(s, a) && ArgsSound(s, a, first, n) && Registered(a, first, n).WellFormed()
    requires i < |Registered(a, first, n).Scanned()|
    ensures s.SoundWord(Registered(a, first, n).Scanned()[i])
  {
    hide Snapshot.SoundWord, Snapshot.InRange, Areas.Scanned;
    var b := Registered(a, first, n);
    ScannedParts(a);
    ScannedParts(b);
    var x, y := |a.stack| - 2, |a.extra|;
    if i < x {
      assert b.Scanned()[i + 1 - 1] == b.stack[i + 1] && a.Scanned()[i + 1 - 1] == a.stack[i + 1];
    } else if i < x + y {
      assert b.extra[i - x] == a.extra[i - x];
      assert b.Scanned()[x + (i - x)] == b.Load(b.extra[i - x]) && a.Scanned()[x + (i - x)] == a.Load(a.extra[i - x]);
    } else if i < x + y + n {
      assert b.extra[i - x] == LocalSlot(first + (i - x - y));
      assert b.Scanned()[x + (i - x)] == b.Load(b.extra[i - x]);
    } else {
      var k := i - x - y - n;
      assert b.Scanned()[x + (y + n) + k] == b.statics[k] && a.Scanned()[x + y + k] == a.statics[k];
    }
  }

  /** After the allocation the registered argument words stand for the values they had. */
  lemma ArgumentKept(s: Snapshot, a: Areas, first: nat, n: nat, t: Snapshot, b: Areas, additional: nat, i: nat, d: nat)
    requires s.Sound() && RootsSound(s, a) && ArgsSound(s, a, first, n) && |a.extra| + n <= MAX_EXTRA_ROOTS_NUMBER
    requires Prepared(s, Registered(a, first, n), t, b) && i < n
    requires !(t == s && b == Registered(a, first, n)) ==>
               Collectable(s, Registered(a, first, n), t.begin, additional)
               && |t.mem| == NextSize(s, Registered(a, first, n), additional)
    ensures first + i < |b.locals| && t.SoundWord(b.locals[first + i])
    ensures ValueOf(t, d, b.locals[first + i]) == ValueOf(s, d, a.Load(LocalSlot(first + i)))
  {
    hide Areas.Scanned, Snapshot.SoundWord, Snapshot.InRange, ValueOf, Collectable, NextSize, Collected, Snapshot.Sound;
    var r := Registered(a, first, n);
    RegisteredSound(s, a, first, n);
    var k := |a.stack| - 2 + |a.extra| + i;
    ScannedParts(r);
    assert r.extra[|a.extra| + i] == LocalSlot(first + i);
    assert r.Scanned()[|a.stack| - 2 + (|a.extra| + i)] == r.Load(LocalSlot(first + i));
    PreparedInvisible(s, r, t, b, additional, d, k);
    PreparedShape(s, r, t, b);
    ScannedParts(b);
    assert b.Scanned()[|b.stack| - 2 + (|a.extra| + i)] == b.Load(b.extra[|a.extra| + i]);
  }

  lemma PreparedShape(s: Snapshot, a: Areas, t: Snapshot, b: Areas)
    requires RootsSound(s, a) && Prepared(s, a, t, b)
    ensures b.WellFormed() && b.extra == a.extra && |b.stack| == |a.stack| && |b.statics| == |a.statics|
    ensures |b.locals| == |a.locals|
  {
    if b != a {
      WellFormedAfter(s, Live(s, a), t.begin, a, b);
    }
  }

  lemma ArgsInBounds(s: Snapshot, a: Areas, first: nat, n: nat)
    requires ArgsSound(s, a, first, n)
    ensures first + n <= |a.locals|
  {
  }

  lemma PreparedShapeOf(s: Snapshot, a: Areas, first: nat, n: nat, t: Snapshot, b: Areas)
    requires s.Sound() && RootsSound(s, a) && ArgsSound(s, a, first, n) && |a.extra| + n <= MAX_EXTRA_ROOTS_NUMBER
    requires Prepared(s, Registered(a, first, n), t, b)
    ensures b.extra == a.extra + ArgSlots(first, n) && |b.locals| == |a.locals| && first + n <= |b.locals|
  {
    hide Snapshot.Sound, Snapshot.SoundWord, Areas.Scanned, Prepared;
    RegisteredSound(s, a, first, n);
    PreparedShape(s, Registered(a, first, n), t, b);
  }

  lemma FilledWords(t: Snapshot, k: Kind, extra: Word, fields: seq<Word>, m: seq<Word>)
    requires LengthFor(k, |fields|) < MODULUS / 8 && |m| == |t.mem|
    requires forall i :: 0 <= i < |m| ==> m[i] == FilledWord(t, k, extra, fields, i)
    ensures m == Filled(t, k, extra, fields).mem
  {
    hide FilledWord;
  }

  /** What a constructor returns: the header of the new object, or nothing when the runtime exits. */
  datatype Built = Object(header: nat) | Exit

  /** The object fits into the chunk in use, or the system places a chunk of the next size clear of it. */
  ghost predicate RoomFor(s: Snapshot, a: Areas, first: nat, n: nat, k: Kind, len: nat, address: nat) {
    Fits(s, k, len) || ChunkFits(s, address, NextSize(s, Registered(a, first, n), ObjectWords(k, len)))
  }

  /** An object built in heap u from the argument words i in [first, first + n) of heap s with areas a. */
  ghost predicate BuiltFrom(s: Snapshot, a: Areas, first: nat, n: nat, k: Kind, extra: Word, u: Snapshot, p: nat) {
    && p in u.objs
    && forall d: nat ::
         ObjectValue(u, d, p) == Node(k, LengthFor(k, n), if k.ARRAY? then 0 else extra, ArgValues(s, a, first, n, d))
  }

  lemma BuiltObject(s: Snapshot, a: Areas, first: nat, n: nat, t: Snapshot, b: Areas, additional: nat,
                    k: Kind, extra: Word, fields: seq<Word>)
    requires s.Sound() && RootsSound(s, a) && ArgsSound(s, a, first, n) && |a.extra| + n <= MAX_EXTRA_ROOTS_NUMBER
    requires Prepared(s, Registered(a, first, n), t, b)
    requires !(t == s && b == Registered(a, first, n)) ==>
               Collectable(s, Registered(a, first, n), t.begin, additional)
               && |t.mem| == NextSize(s, Registered(a, first, n), additional)
    requires !k.STRING? && LengthFor(k, n) < MODULUS / 8 && Fits(t, k, LengthFor(k, n)) && t.Sound()
    requires |fields| == n && first + n <= |b.locals| && fields == b.locals[first..first + n]
    ensures Fillable(t, k, fields) && Filled(t, k, extra, fields).Sound()
    ensures BuiltFrom(s, a, first, n, k, extra, Filled(t, k, extra, fields), t.current)
  {
    hide Snapshot.SoundWord, Snapshot.Sound, ValueOf, Filled, Prepared, RootsSound, Collectable, NextSize, ObjectValue;
    forall i | 0 <= i < n ensures t.SoundWord(fields[i]) {
      ArgumentKept(s, a, first, n, t, b, additional, i, 0);
    }
    FilledSound(t, k, extra, fields);
    FilledObject(t, k, extra, fields);
    forall d: nat
      ensures ObjectValue(Filled(t, k, extra, fields), d, t.current) ==
              Node(k, LengthFor(k, n), if k.ARRAY? then 0 else extra, ArgValues(s, a, first, n, d))
    {
      FilledValue(t, k, extra, fields, d);
      forall i | 0 <= i < n ensures ValueOf(t, d, fields[i]) == ValueOf(s, d, a.Load(LocalSlot(first + i))) {
        ArgumentKept(s, a, first, n, t, b, additional, i, d);
      }
    }
  }

  // ------------------------------------------------------------- the other roots

  /** Every scanned root stands for the value it had, to any depth, and roots are equal words that were. */
  ghost predicate RootsKept(s: Snapshot, a: Areas, u: Snapshot, c: Areas) {
    && |c.Scanned()| == |a.Scanned()|
    && (forall i: nat, d: nat :: i < |a.Scanned()| ==> RootValueKept(s, a, u, c, i, d))
    && (forall i: nat, j: nat :: i < |a.Scanned()| && j < |a.Scanned()| ==> RootIdentityKept(a, c, i, j))
  }

  ghost predicate RootIdentityKept(a: Areas, c: Areas, i: nat, j: nat) {
    && i < |a.Scanned()| && i < |c.Scanned()| && j < |a.Scanned()| && j < |c.Scanned()|
    && (c.Scanned()[i] == c.Scanned()[j] <==> a.Scanned()[i] == a.Scanned()[j])
  }

  ghost predicate RootValueKept(s: Snapshot, a: Areas, u: Snapshot, c: Areas, i: nat, d: nat) {
    i < |a.Scanned()| && i < |c.Scanned()| && ValueOf(u, d, c.Scanned()[i]) == ValueOf(s, d, a.Scanned()[i])
  }

  /** The roots at the moment of the allocation, argument words included, are sound. */
  lemma PreparedRootsSound(s: Snapshot, r: Areas, t: Snapshot, b: Areas, additional: nat)
    requires RootsSound(s, r) && Prepared(s, r, t, b)
    requires !(t == s && b == r) ==> Collectable(s, r, t.begin, additional) && |t.mem| == NextSize(s, r, additional)
    ensures RootsSound(t, b)
  {
    hide RootsSound, Collected, NextSize, NoStrayRoots, NoStrayWords, RootsGood;
    if !(t == s && b == r) {
      RootsSoundAfterCollection(s, r, t, b);
    }
  }

  /** Once the argument words are off the pool again, the roots are sound in the heap with the new object. */
  lemma UnregisteredSound(t: Snapshot, c: Areas, first: nat, n: nat, k: Kind, extra: Word, fields: seq<Word>)
    requires Fillable(t, k, fields) && RootsSound(t, Registered(c, first, n))
    ensures RootsSound(Filled(t, k, extra, fields), c)
  {
    hide Areas.Scanned, Snapshot.SoundWord, Snapshot.InRange, Filled, Snapshot.Sound;
    var b, u := Registered(c, first, n), Filled(t, k, extra, fields);
    FilledObject(t, k, extra, fields);
    FilledObjects(t, k, extra, fields);
    forall j | 0 <= j < |c.extra|
      ensures c.InBounds(c.extra[j]) && c.extra[j] != StackSlot(0) && c.extra[j] != StaticSlot(|c.statics| - 1)
    {
      assert b.extra[j] == c.extra[j];
    }
    forall i | 0 <= i < |c.Scanned()| ensures u.SoundWord(c.Scanned()[i]) {
      PlaceHolds(c, first, n, i);
      SoundWordAbove(t, u, c.Scanned()[i]);
    }
    var last := c.stack[|c.stack| - 1];
    SoundWordAbove(t, u, last);
    AboveWord(t, u, last);
  }

  lemma FilledObjects(t: Snapshot, k: Kind, extra: Word, fields: seq<Word>)
    requires LengthFor(k, |fields|) < MODULUS / 8
    ensures Filled(t, k, extra, fields).objs == t.objs + [t.current]
  {
    hide MakeHeader;
  }

  /** No root changes its value when an object is built, whether or not a collection took place. */
  lemma UnregisteredKept(s: Snapshot, a: Areas, first: nat, n: nat, t: Snapshot, c: Areas, additional: nat,
                         k: Kind, extra: Word, fields: seq<Word>)
    requires s.Sound() && RootsSound(s, a) && ArgsSound(s, a, first, n) && |a.extra| + n <= MAX_EXTRA_ROOTS_NUMBER
    requires Prepared(s, Registered(a, first, n), t, Registered(c, first, n)) && c.extra == a.extra
    requires !(t == s && Registered(c, first, n) == Registered(a, first, n)) ==>
               Collectable(s, Registered(a, first, n), t.begin, additional)
               && |t.mem| == NextSize(s, Registered(a, first, n), additional)
    requires Fillable(t, k, fields)
    ensures RootsKept(s, a, Filled(t, k, extra, fields), c)
  {
    hide Areas.Scanned, Snapshot.SoundWord, Snapshot.Sound, ValueOf, Filled, Prepared, RootsSound, Collectable,
         NextSize, Areas.WellFormed;
    var r, b, u := Registered(a, first, n), Registered(c, first, n), Filled(t, k, extra, fields);
    RegisteredSound(s, a, first, n);
    RootsWellFormed(s, r);
    PreparedShape(s, r, t, b);
    SameScanned(s, a, c, first, n, b);
    FilledObject(t, k, extra, fields);
    forall i: nat, d: nat | i < |a.Scanned()|
      ensures RootValueKept(s, a, u, c, i, d)
    {
      PlaceHolds(a, first, n, i);
      PlaceHolds(c, first, n, i);
      PreparedInvisible(s, r, t, b, additional, d, PlaceOf(a, n, i));
      ValueAbove(t, u, d, c.Scanned()[i]);
    }
    forall i: nat, j: nat | i < |a.Scanned()| && j < |a.Scanned()|
      ensures RootIdentityKept(a, c, i, j)
    {
      PlaceHolds(a, first, n, i);
      PlaceHolds(c, first, n, i);
      PlaceHolds(a, first, n, j);
      PlaceHolds(c, first, n, j);
      PreparedIdentity(s, r, t, b, additional, PlaceOf(a, n, i), PlaceOf(a, n, j));
    }
  }

  lemma SameScanned(s: Snapshot, a: Areas, c: Areas, first: nat, n: nat, b: Areas)
    requires RootsSound(s, a) && |a.extra| + n <= MAX_EXTRA_ROOTS_NUMBER && b == Registered(c, first, n)
             && b.WellFormed()
    requires b.extra == Registered(a, first, n).extra && c.extra == a.extra && |b.stack| == |a.stack|
             && |b.statics| == |a.statics|
    ensures a.WellFormed() && c.WellFormed() && |c.Scanned()| == |a.Scanned()|
  {
    hide Areas.Scanned, Snapshot.SoundWord, Snapshot.InRange;
    forall j | 0 <= j < |c.extra| ensures c.InBounds(c.extra[j]) {
      assert b.extra[j] == c.extra[j];
    }
    ScannedParts(a);
    ScannedParts(c);
  }

  /** A word that is no heap pointer is the same after an allocation, registered or not. */
  lemma ForeignKept(s: Snapshot, a: Areas, t: Snapshot, b: Areas, i: nat)
    requires Prepared(s, a, t, b) && i < |a.locals| && !s.InRange(a.locals[i])
    ensures i < |b.locals| && b.locals[i] == a.locals[i]
  {
    if b != a {
      assert LocalsRedirected(s, Live(s, a), t.begin, a.locals, b.locals, a.extra);
    }
  }
}
