/** Lcompare and Lhash on the words of a heap, proved against the order and the hash of abstract values. */
module Runtime {
  import opened Words
  import opened Layout
  import opened Survival
  import opened Roots
  import opened Collection
  import opened Values
  import opened Ordering
  import opened Hashing
  import opened Collector

  // ------------------------------------------------------------------- strings

  ghost function Bytes(s: Snapshot, o: int): seq<nat> {
    seq(Len(s.Header(o)) + 1, b requires 0 <= b < Len(s.Header(o)) + 1 => StringByte(s.mem, o, b))
  }

  ghost predicate Terminated(bytes: seq<nat>) {
    |bytes| > 0 && bytes[|bytes| - 1] == 0
  }

  ghost predicate StringAt(s: Snapshot, o: int) {
    s.Parses() && o in s.objs && ValidHeader(s.Header(o)) && KindOf(s.Header(o)).STRING? && Terminated(Bytes(s, o))
  }

  lemma StringFacts(s: Snapshot, o: int, k: nat)
    requires StringAt(s, o) && k < |Bytes(s, o)|
    ensures 0 <= o && o + 2 + k / 8 < |s.mem| && Bytes(s, o)[k] == Byte(s.mem[o + 2 + k / 8], k % 8)
  {
    hide Byte;
    Shape(s, o);
    StringIsLong(s.Header(o), k);
  }

  method ReadByte(h: Heap, o: nat, k: nat) returns (b: nat)
    requires StringAt(h.Snap(), o) && k < |Bytes(h.Snap(), o)|
    ensures b == Bytes(h.Snap(), o)[k]
  {
    StringFacts(h.Snap(), o, k);
    b := Byte(h.mem[o + 2 + k / 8], k % 8);
  }

  lemma CStringStep(a: seq<nat>, k: nat)
    requires k < |a|
    ensures CString(a[k..]) == if a[k] == 0 then [] else [a[k]] + CString(a[k + 1..])
  {
    assert a[k..][1..] == a[k + 1..];
  }

  lemma DifferenceStep(a: seq<nat>, b: seq<nat>, k: nat)
    requires k < |a| && k < |b|
    ensures a[k] == b[k] && a[k] != 0 ==>
              StringDifference(CString(a[k..]), CString(b[k..]))
                  == StringDifference(CString(a[k + 1..]), CString(b[k + 1..]))
    ensures a[k] != b[k] || a[k] == 0 ==> StringDifference(CString(a[k..]), CString(b[k..])) == a[k] as int - b[k]
  {
    CStringStep(a, k);
    CStringStep(b, k);
    var x, y := CString(a[k + 1..]), CString(b[k + 1..]);
    assert ([a[k]] + x)[1..] == x && ([b[k]] + y)[1..] == y;
  }

  /** strcmp on the contents of two string objects. */
  method StrCmp(h: Heap, o: nat, x: nat) returns (d: int)
    requires StringAt(h.Snap(), o) && StringAt(h.Snap(), x)
    ensures d == StringDifference(CString(Bytes(h.Snap(), o)), CString(Bytes(h.Snap(), x)))
  {
    hide StringAt, CString, StringDifference, Bytes, Byte;
    ghost var a, b := Bytes(h.Snap(), o), Bytes(h.Snap(), x);
    assert a[0..] == a && b[0..] == b;
    StringsEnd(h.Snap(), o);
    StringsEnd(h.Snap(), x);
    var k := 0;
    var c := ReadByte(h, o, 0);
    var e := ReadByte(h, x, 0);
    while c == e && c != 0
      invariant 0 <= k < |a| && k < |b| && c == a[k] && e == b[k]
      invariant StringDifference(CString(a), CString(b)) == StringDifference(CString(a[k..]), CString(b[k..]))
      decreases |a| - k
    {
      DifferenceStep(a, b, k);
      k := k + 1;
      c := ReadByte(h, o, k);
      e := ReadByte(h, x, k);
    }
    DifferenceStep(a, b, k);
    d := c as int - e;
  }

  lemma StringsEnd(s: Snapshot, o: int)
    requires StringAt(s, o)
    ensures |Bytes(s, o)| > 0 && Bytes(s, o)[|Bytes(s, o)| - 1] == 0
  {
  }

  // ---------------------------------------------------------------- comparison

  /** BOX as the runtime computes it gives the same word before and after wrapping. */
  lemma BoxWraps(d: int)
    ensures BoxWord(Wrap(d)) == BoxWord(d)
  {
    var k := (d + BOXED_HALF) / (2 * BOXED_HALF);
    assert d + BOXED_HALF == 2 * BOXED_HALF * k + (d + BOXED_HALF) % (2 * BOXED_HALF);
    assert d == Wrap(d) + 2 * BOXED_HALF * k;
    BoxPeriod(Wrap(d), k);
  }

  lemma BoxPeriod(r: int, k: int)
    ensures BoxWord(r + 2 * BOXED_HALF * k) == BoxWord(r)
  {
    var x := 2 * r + 1;
    assert 2 * (r + 2 * BOXED_HALF * k) + 1 == x + MODULUS * k;
    assert x == MODULUS * (x / MODULUS) + x % MODULUS;
    var q, t := x / MODULUS + k, x % MODULUS;
    assert x + MODULUS * k == MODULUS * q + t;
    ModulusRemainder(q, t);
  }

  lemma ModulusRemainder(q: int, t: int)
    requires 0 <= t < MODULUS
    ensures (MODULUS * q + t) % MODULUS == t
  {
  }

  /** A boxed 63-bit number is the word of zero only for zero. */
  lemma BoxZero(r: int)
    requires -BOXED_HALF <= r < BOXED_HALF
    ensures BoxWord(r) == BoxWord(0) <==> r == 0
  {
    if r < 0 {
      ModulusRemainder(-1, 2 * r + 1 + MODULUS);
    } else {
      ModulusRemainder(0, 2 * r + 1);
    }
  }

  /** A word of a heap whose value unfolds completely within depth d. */
  ghost predicate Comparable(s: Snapshot, d: nat, p: Word) {
    s.Parses() && s.PointersGood() && s.GoodWord(p) && Proper(ValueOf(s, d, p))
  }

  ghost predicate ComparableObject(s: Snapshot, d: nat, o: int) {
    s.Parses() && s.PointersGood() && o in s.objs && Proper(ObjectValue(s, d, o))
  }

  lemma ComparablePointer(s: Snapshot, d: nat, p: Word)
    requires Comparable(s, d, p) && s.InRange(p)
    ensures d > 0 && ComparableObject(s, d - 1, s.Target(p)) && ValueOf(s, d, p) == ObjectValue(s, d - 1, s.Target(p))
    ensures !ObjectValue(s, d - 1, s.Target(p)).Immediate? && s.Target(p) >= 0
  {
    hide HeaderAt;
    Shape(s, s.Target(p));
  }

  lemma {:induction false} CompareReflexive(v: Value)
    ensures Compare(v, v) == 0
    decreases v
  {
    if v.Text? {
      DifferenceReflexive(CString(v.bytes));
    }
    if v.Node? {
      CompareFieldsReflexive(v.fields);
    }
  }

  lemma {:induction false} DifferenceReflexive(a: seq<nat>)
    ensures StringDifference(a, a) == 0
  {
    if |a| > 0 {
      DifferenceReflexive(a[1..]);
    }
  }

  lemma {:induction false} CompareFieldsReflexive(vs: seq<Value>)
    ensures CompareFields(vs, vs) == 0
    decreases vs
  {
    if |vs| > 0 {
      CompareReflexive(vs[0]);
      CompareFieldsReflexive(vs[1..]);
    }
  }

  /** What the words of an object say about its value. */
  lemma ObjectWordsOf(s: Snapshot, d: nat, o: int)
    requires ComparableObject(s, d, o)
    ensures 0 <= o && o < |s.mem| && ValidHeader(s.mem[o]) && s.mem[o] == s.Header(o)
    ensures var v, h := ObjectValue(s, d, o), s.Header(o);
            if KindOf(h).STRING? then StringAt(s, o) && v == Text(Bytes(s, o))
            else
              && v.Node? && v.kind == KindOf(h) && v.len == Len(h) && |v.fields| == FieldCount(s, o)
              && |v.fields| == (if v.kind.CLOSURE? then v.len - 1 else v.len)
              && (!v.kind.ARRAY? ==> o + 2 < |s.mem| && v.extra == s.mem[o + 2])
  {
    hide StringByte, ValueOf;
    Shape(s, o);
    SizeOfKind(s.Header(o));
  }

  /** Closures and s-expressions have a second content word. */
  lemma SizeOfKind(h: Word)
    requires ValidHeader(h)
    ensures KindOf(h).SEXP? ==> SizeWords(h) >= 3
    ensures KindOf(h).CLOSURE? && Len(h) >= 1 ==> SizeWords(h) >= 3
  {
  }

  lemma FieldsOf(s: Snapshot, d: nat, o: int, i: nat)
    requires ComparableObject(s, d, o) && ObjectValue(s, d, o).Node? && i < FieldCount(s, o)
    ensures var f := if KindOf(s.Header(o)).ARRAY? then 2 else 3;
            && |ObjectValue(s, d, o).fields| == FieldCount(s, o)
            && 0 <= o + f + i < |s.mem|
            && ObjectValue(s, d, o).fields[i] == ValueOf(s, d, s.mem[o + f + i])
            && Comparable(s, d, s.mem[o + f + i])
  {
    hide StringByte, ValueOf;
    FieldIsField(s, o, i);
    var v := ObjectValue(s, d, o);
    assert v.fields[i] in v.fields;
  }

  lemma FieldsStep(vs: seq<Value>, ws: seq<Value>, i: nat)
    requires i < |vs| && i < |ws|
    ensures Compare(vs[i], ws[i]) != 0 ==> CompareFields(vs[i..], ws[i..]) == Compare(vs[i], ws[i])
    ensures Compare(vs[i], ws[i]) == 0 ==> CompareFields(vs[i..], ws[i..]) == CompareFields(vs[i + 1..], ws[i + 1..])
  {
    hide Compare;
    assert vs[i..][1..] == vs[i + 1..] && ws[i..][1..] == ws[i + 1..];
  }

  /** Lcompare: the boxed result is the comparison of the two values. */
  method Lcompare(h: Heap, p: Word, q: Word, ghost d: nat) returns (c: Word)
    requires Comparable(h.Snap(), d, p) && Comparable(h.Snap(), d, q)
    ensures c == BoxWord(Compare(ValueOf(h.Snap(), d, p), ValueOf(h.Snap(), d, q)))
    decreases d, 0
  {
    hide Comparable, ComparableObject, ObjectValue, BoxWord, HeaderAt, Wrap;
    ghost var s := h.Snap();
    if p == q {
      CompareReflexive(ValueOf(s, d, p));
      return BoxWord(0);
    }
    if s.InRange(p) { ComparablePointer(s, d, p); }
    if s.InRange(q) { ComparablePointer(s, d, q); }
    if Unboxed(p) {
      if Unboxed(q) {
        BoxWraps(Number(p) - Number(q));
        return BoxWord(Number(p) - Number(q));
      }
      return BoxWord(-1);
    } else if Unboxed(q) {
      return BoxWord(1);
    }
    if h.IsValidHeapPointer(p) {
      if h.IsValidHeapPointer(q) {
        c := CompareObjects(h, h.HeaderOf(p), h.HeaderOf(q), d - 1);
        return;
      }
      return BoxWord(-1);
    } else if h.IsValidHeapPointer(q) {
      return BoxWord(1);
    }
    BoxWraps(p as int - q);
    return BoxWord(p as int - q);
  }

  /** Lcompare on two objects, kind by kind. */
  lemma CompareObjectValues(v: Value, w: Value)
    requires !v.Immediate? && !w.Immediate?
    ensures TagNumber(v) != TagNumber(w) ==> Compare(v, w) == Wrap(TagNumber(v) - TagNumber(w))
    ensures v.Text? && w.Text? ==> Compare(v, w) == Wrap(StringDifference(CString(v.bytes), CString(w.bytes)))
    ensures v.Node? && w.Node? && v.kind == w.kind ==>
              Compare(v, w) ==
              if ExtraDifference(v.kind, v.extra, w.extra) != 0 then Wrap(ExtraDifference(v.kind, v.extra, w.extra))
              else if v.len != w.len then Wrap(v.len - w.len)
              else CompareFields(v.fields, w.fields)
  {
  }

  /** The part of Lcompare for two heap objects. */
  method CompareObjects(h: Heap, o: nat, x: nat, ghost d: nat) returns (c: Word)
    requires ComparableObject(h.Snap(), d, o) && ComparableObject(h.Snap(), d, x)
    ensures c == BoxWord(Compare(ObjectValue(h.Snap(), d, o), ObjectValue(h.Snap(), d, x)))
    decreases d, 2
  {
    hide ComparableObject, ObjectValue, BoxWord, Wrap, Compare, CompareFields, StringAt, Bytes, Signed,
         StringDifference, CString, FieldCount;
    ghost var s := h.Snap();
    ghost var v, w := ObjectValue(s, d, o), ObjectValue(s, d, x);
    ObjectWordsOf(s, d, o);
    ObjectWordsOf(s, d, x);
    CompareObjectValues(v, w);
    var ka, kb := KindOf(h.mem[o]), KindOf(h.mem[x]);
    var la, lb := Len(h.mem[o]), Len(h.mem[x]);
    if TagOf(ka) != TagOf(kb) {
      BoxWraps(TagOf(ka) as int - TagOf(kb));
      return BoxWord(TagOf(ka) as int - TagOf(kb));
    }
    match ka {
      case STRING =>
        var e := StrCmp(h, o, x);
        BoxWraps(e);
        return BoxWord(e);
      case CLOSURE =>
        if h.mem[o + 2] != h.mem[x + 2] {
          BoxWraps(h.mem[o + 2] as int - h.mem[x + 2]);
          return BoxWord(h.mem[o + 2] as int - h.mem[x + 2]);
        }
      case SEXP =>
        if Signed(h.mem[o + 2]) != Signed(h.mem[x + 2]) {
          BoxWraps(Signed(h.mem[o + 2]) - Signed(h.mem[x + 2]));
          return BoxWord(Signed(h.mem[o + 2]) - Signed(h.mem[x + 2]));
        }
      case ARRAY =>
    }
    if la != lb {
      BoxWraps(la as int - lb);
      return BoxWord(la as int - lb);
    }
    c := CompareAllFields(h, o, x, ka, if ka.CLOSURE? then la - 1 else la, d);
  }

  /** The loop of Lcompare over the fields of two objects of one kind and length. */
  method CompareAllFields(h: Heap, o: nat, x: nat, k: Kind, n: nat, ghost d: nat) returns (c: Word)
    requires ComparableObject(h.Snap(), d, o) && ComparableObject(h.Snap(), d, x)
    requires ObjectValue(h.Snap(), d, o).Node? && ObjectValue(h.Snap(), d, x).Node?
    requires n == FieldCount(h.Snap(), o) == FieldCount(h.Snap(), x)
    requires n == |ObjectValue(h.Snap(), d, o).fields| == |ObjectValue(h.Snap(), d, x).fields|
    requires KindOf(h.Snap().Header(o)) == k == KindOf(h.Snap().Header(x))
    ensures c == BoxWord(CompareFields(ObjectValue(h.Snap(), d, o).fields, ObjectValue(h.Snap(), d, x).fields))
    decreases d, 1
  {
    hide ComparableObject, ObjectValue, BoxWord, Compare, ValueOf, Comparable;
    ghost var s := h.Snap();
    ghost var vs, ws := ObjectValue(s, d, o).fields, ObjectValue(s, d, x).fields;
    assert vs[0..] == vs && ws[0..] == ws;
    var f := if k.ARRAY? then 2 else 3;
    var i := 0;
    while i < n
      invariant 0 <= i <= n
      invariant CompareFields(vs, ws) == CompareFields(vs[i..], ws[i..])
    {
      FieldsOf(s, d, o, i);
      FieldsOf(s, d, x, i);
      FieldsStep(vs, ws, i);
      CompareRange(vs[i], ws[i]);
      BoxZero(Compare(vs[i], ws[i]));
      c := Lcompare(h, h.mem[o + f + i], h.mem[x + f + i], d);
      if c != BoxWord(0) {
        return;
      }
      i := i + 1;
    }
    c := BoxWord(0);
  }

  // ------------------------------------------------------------------- hashing

  /** Strings are ended by a zero and closures have a code word, as far as the value is unfolded. */
  ghost predicate Readable(v: Value)
    decreases v
  {
    match v
    case Text(bytes) => Terminated(bytes)
    case Node(k, len, _, fields) => !k.STRING? && (k.CLOSURE? ==> len >= 1) && forall f :: f in fields ==> Readable(f)
    case _ => true
  }

  ghost predicate Hashed(s: Snapshot, d: nat, p: Word) {
    s.Parses() && s.PointersGood() && s.GoodWord(p) && Readable(ValueOf(s, d, p))
  }

  ghost predicate HashedObject(s: Snapshot, d: nat, o: int) {
    s.Parses() && s.PointersGood() && o in s.objs && Readable(ObjectValue(s, d, o))
  }

  lemma HashedPointer(s: Snapshot, d: nat, p: Word)
    requires Hashed(s, d, p) && s.InRange(p) && d > 0
    ensures HashedObject(s, d - 1, s.Target(p)) && ValueOf(s, d, p) == ObjectValue(s, d - 1, s.Target(p))
    ensures s.Target(p) >= 0
  {
    hide HeaderAt;
    Shape(s, s.Target(p));
  }

  lemma HashedWords(s: Snapshot, d: nat, o: int)
    requires HashedObject(s, d, o)
    ensures 0 <= o && o < |s.mem| && ValidHeader(s.mem[o]) && s.mem[o] == s.Header(o)
    ensures var v, h := ObjectValue(s, d, o), s.Header(o);
            if KindOf(h).STRING? then StringAt(s, o) && v == Text(Bytes(s, o)) && |Bytes(s, o)| == Len(h) + 1
            else
              && v.Node? && v.kind == KindOf(h) && v.len == Len(h) && |v.fields| == FieldCount(s, o)
              && |v.fields| == (if v.kind.CLOSURE? then v.len - 1 else v.len)
              && (!v.kind.ARRAY? ==> o + 2 < |s.mem| && v.extra == s.mem[o + 2])
  {
    hide StringByte, ValueOf;
    Shape(s, o);
    SizeOfKind(s.Header(o));
    FieldCounts(s, o);
  }

  lemma FieldCounts(s: Snapshot, o: int)
    requires s.Parses() && o in s.objs
    ensures var h := s.Header(o);
            && ValidHeader(h)
            && (KindOf(h).ARRAY? || KindOf(h).SEXP? ==> FieldCount(s, o) == Len(h))
            && (KindOf(h).CLOSURE? && Len(h) >= 1 ==> FieldCount(s, o) == Len(h) - 1)
  {
    Shape(s, o);
    var n := Len(s.Header(o));
    DivMod8(n + 1, 7);
    DivMod8(n + 2, 7);
  }

  lemma HashedField(s: Snapshot, d: nat, o: int, i: nat)
    requires HashedObject(s, d, o) && ObjectValue(s, d, o).Node? && i < FieldCount(s, o)
    ensures var f := if KindOf(s.Header(o)).ARRAY? then 2 else 3;
            && |ObjectValue(s, d, o).fields| == FieldCount(s, o)
            && 0 <= o + f + i < |s.mem|
            && ObjectValue(s, d, o).fields[i] == ValueOf(s, d, s.mem[o + f + i])
            && Hashed(s, d, s.mem[o + f + i])
  {
    hide StringByte, ValueOf;
    FieldIsField(s, o, i);
    var v := ObjectValue(s, d, o);
    assert v.fields[i] in v.fields;
  }

  lemma HashBytesStep(acc: Word, bytes: seq<nat>, k: nat)
    requires k < |bytes|
    ensures bytes[k] == 0 ==> HashBytes(acc, CString(bytes[k..])) == acc
    ensures bytes[k] != 0 ==>
              HashBytes(acc, CString(bytes[k..])) == HashBytes(HashAppend(acc, bytes[k]), CString(bytes[k + 1..]))
  {
    hide HashAppend;
    CStringStep(bytes, k);
    var rest := CString(bytes[k + 1..]);
    assert ([bytes[k]] + rest)[1..] == rest;
  }

  method HashString(h: Heap, o: nat, start: Word) returns (acc: Word)
    requires StringAt(h.Snap(), o)
    ensures acc == HashBytes(start, CString(Bytes(h.Snap(), o)))
  {
    hide StringAt, CString, HashBytes, HashAppend, Bytes, Byte;
    ghost var a := Bytes(h.Snap(), o);
    assert a[0..] == a;
    StringsEnd(h.Snap(), o);
    acc := start;
    var k := 0;
    var c := ReadByte(h, o, 0);
    while c != 0
      invariant 0 <= k < |a| && c == a[k]
      invariant HashBytes(acc, CString(a[k..])) == HashBytes(start, CString(a))
      decreases |a| - k
    {
      HashBytesStep(acc, a, k);
      acc := HashAppend(acc, c);
      k := k + 1;
      c := ReadByte(h, o, k);
    }
    HashBytesStep(acc, a, k);
  }

  lemma HashFieldsStep(depth: nat, acc: Word, vs: seq<Value>, i: nat)
    requires i < |vs|
    ensures HashFields(depth, acc, vs[i..]) == HashFields(depth, HashValue(depth, acc, vs[i]), vs[i + 1..])
  {
    hide HashValue;
    assert vs[i..][1..] == vs[i + 1..];
  }

  /** inner_hash: the hash of the value unfolded to the depth that is left. */
  method InnerHash(h: Heap, depth: nat, acc: Word, p: Word) returns (r: Word)
    requires depth <= HASH_DEPTH + 1 && Hashed(h.Snap(), HASH_DEPTH + 1 - depth, p)
    ensures r == HashValue(depth, acc, ValueOf(h.Snap(), HASH_DEPTH + 1 - depth, p))
    decreases HASH_DEPTH + 1 - depth, 0
  {
    hide Hashed, HashedObject, ObjectValue, HashAppend, HeaderAt;
    ghost var s, d := h.Snap(), HASH_DEPTH + 1 - depth;
    if depth > HASH_DEPTH {
      return acc;
    }
    if Unboxed(p) {
      return HashAppend(acc, Number(p));
    }
    if h.IsValidHeapPointer(p) {
      HashedPointer(s, d, p);
      r := HashObject(h, depth, acc, h.HeaderOf(p));
    } else {
      r := HashAppend(acc, p);
    }
  }

  method HashObject(h: Heap, depth: nat, acc: Word, o: nat) returns (r: Word)
    requires depth <= HASH_DEPTH && HashedObject(h.Snap(), HASH_DEPTH - depth, o)
    ensures r == HashValue(depth, acc, ObjectValue(h.Snap(), HASH_DEPTH - depth, o))
    decreases HASH_DEPTH - depth, 2
  {
    hide HashedObject, ObjectValue, HashAppend, StringAt, Bytes, HashFields, HashBytes, CString, FieldCount;
    ghost var s, d := h.Snap(), HASH_DEPTH - depth;
    HashedWords(s, d, o);
    var k, l := KindOf(h.mem[o]), Len(h.mem[o]);
    var a := HashAppend(HashAppend(acc, TagOf(k)), l);
    match k {
      case STRING =>
        r := HashString(h, o, a);
        return;
      case CLOSURE => a := HashAppend(a, h.mem[o + 2]);
      case SEXP => a := HashAppend(a, h.mem[o + 2]);
      case ARRAY =>
    }
    r := HashAllFields(h, depth, a, o, k, if k.CLOSURE? then l - 1 else l);
  }

  method HashAllFields(h: Heap, depth: nat, start: Word, o: nat, k: Kind, n: nat) returns (acc: Word)
    requires depth <= HASH_DEPTH && HashedObject(h.Snap(), HASH_DEPTH - depth, o)
    requires ObjectValue(h.Snap(), HASH_DEPTH - depth, o).Node? && KindOf(h.Snap().Header(o)) == k
    requires n == FieldCount(h.Snap(), o) == |ObjectValue(h.Snap(), HASH_DEPTH - depth, o).fields|
    ensures acc == HashFields(depth + 1, start, ObjectValue(h.Snap(), HASH_DEPTH - depth, o).fields)
    decreases HASH_DEPTH - depth, 1
  {
    hide HashedObject, ObjectValue, HashValue, ValueOf, Hashed;
    ghost var s, d := h.Snap(), HASH_DEPTH - depth;
    ghost var vs := ObjectValue(s, d, o).fields;
    assert vs[0..] == vs;
    var f := if k.ARRAY? then 2 else 3;
    acc := start;
    var i := 0;
    while i < n
      invariant 0 <= i <= n
      invariant HashFields(depth + 1, start, vs) == HashFields(depth + 1, acc, vs[i..])
    {
      HashedField(s, d, o, i);
      HashFieldsStep(depth + 1, acc, vs, i);
      acc := InnerHash(h, depth + 1, acc, h.mem[o + f + i]);
      i := i + 1;
    }
  }

  /** Lhash: the low 22 bits, boxed. */
  method Lhash(h: Heap, p: Word) returns (r: Word)
    requires Hashed(h.Snap(), HASH_DEPTH + 1, p)
    ensures r == HashOf(ValueOf(h.Snap(), HASH_DEPTH + 1, p))
  {
    hide Hashed, HashValue, ValueOf;
    var x := InnerHash(h, 0, 0, p);
    r := BoxWord(x % HASH_MASK);
  }

  // --------------------------------------------------------------- and collections

  /** Comparing or hashing root words gives the same words before and after a collection, at every depth. */
  lemma CollectionKeepsResults(s: Snapshot, a: Areas, t: Snapshot, a': Areas, additional: nat, d: nat, i: nat, j: nat)
    requires s.Valid() && Collected(s, a, t, a')
    requires Collectable(s, a, t.begin, additional) && |t.mem| == NextSize(s, a, additional)
    requires i < |a.Scanned()| && j < |a.Scanned()|
    ensures |a'.Scanned()| == |a.Scanned()|
    ensures Compare(ValueOf(t, d, a'.Scanned()[i]), ValueOf(t, d, a'.Scanned()[j])) ==
            Compare(ValueOf(s, d, a.Scanned()[i]), ValueOf(s, d, a.Scanned()[j]))
    ensures HashOf(ValueOf(t, d, a'.Scanned()[i])) == HashOf(ValueOf(s, d, a.Scanned()[i]))
  {
    hide Areas.Scanned, Collected, Collectable, Snapshot.Valid, NextSize, ValueOf;
    CollectionInvisible(s, a, t, a', additional, d, i);
    CollectionInvisible(s, a, t, a', additional, d, j);
  }
}
