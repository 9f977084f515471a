/** What Lcompare and Lhash answer, rule by rule on the words of a heap. */
module WordRules {
  import opened Words
  import opened Layout
  import opened Compaction
  import opened Survival
  import opened Values
  import opened Ordering
  import opened Hashing
  import opened Runtime

  // ---------------------------------------------------------------- comparison

  /** The word Lcompare returns. */
  ghost function Answer(s: Snapshot, d: nat, p: Word, q: Word): Word {
    BoxWord(Compare(ValueOf(s, d, p), ValueOf(s, d, q)))
  }

  /** Unboxed words order as their numbers and precede all others; heap pointers precede addresses outside the heap,
      and those order as addresses. Differences are boxed. */
  lemma WordsOrder(s: Snapshot, d: nat, p: Word, q: Word)
    requires Comparable(s, d, p) && Comparable(s, d, q)
    ensures p % 2 == 1 && q % 2 == 1 ==> Answer(s, d, p, q) == BoxWord(Number(p) - Number(q))
    ensures p % 2 == 1 && q % 2 == 0 ==> Answer(s, d, p, q) == BoxWord(-1) && Answer(s, d, q, p) == BoxWord(1)
    ensures s.InRange(p) && q % 2 == 0 && !s.InRange(q) ==>
              Answer(s, d, p, q) == BoxWord(-1) && Answer(s, d, q, p) == BoxWord(1)
    ensures p % 2 == 0 && !s.InRange(p) && q % 2 == 0 && !s.InRange(q) ==>
              Answer(s, d, p, q) == BoxWord(p as int - q)
  {
    hide HeaderAt, BoxWord, Wrap, ObjectValue;
    if s.InRange(p) { ComparablePointer(s, d, p); }
    if s.InRange(q) { ComparablePointer(s, d, q); }
    BoxWraps(Number(p) - Number(q));
    BoxWraps(p as int - q);
  }

  ghost function ObjectAnswer(s: Snapshot, d: nat, o: int, x: int): Word {
    BoxWord(Compare(ObjectValue(s, d, o), ObjectValue(s, d, x)))
  }

  /** Two heap pointers compare as the objects they refer to. */
  lemma PointersOrder(s: Snapshot, d: nat, p: Word, q: Word)
    requires Comparable(s, d, p) && Comparable(s, d, q) && s.InRange(p) && s.InRange(q)
    ensures d > 0 && Answer(s, d, p, q) == ObjectAnswer(s, d - 1, s.Target(p), s.Target(q))
    ensures ComparableObject(s, d - 1, s.Target(p)) && ComparableObject(s, d - 1, s.Target(q))
  {
    hide HeaderAt;
    ComparablePointer(s, d, p);
    ComparablePointer(s, d, q);
  }

  /** The tags in the low three bits of the headers decide first. Then closures order by their code words, and
      s-expressions by their tags, read as signed numbers; then the shorter object comes first. */
  lemma ObjectsOrder(s: Snapshot, d: nat, o: int, x: int)
    requires ComparableObject(s, d, o) && ComparableObject(s, d, x)
    ensures 0 <= o < |s.mem| && 0 <= x < |s.mem|
    ensures var a: int, b: int := s.mem[o], s.mem[x];
            && (a % 8 != b % 8 ==> ObjectAnswer(s, d, o, x) == BoxWord(a % 8 - b % 8))
            && (a % 8 == b % 8 == 7 ==>
                  && o + 2 < |s.mem| && x + 2 < |s.mem|
                  && (s.mem[o + 2] != s.mem[x + 2] ==>
                        ObjectAnswer(s, d, o, x) == BoxWord(s.mem[o + 2] as int - s.mem[x + 2]))
                  && (s.mem[o + 2] == s.mem[x + 2] && a / 8 != b / 8 ==>
                        ObjectAnswer(s, d, o, x) == BoxWord(a / 8 - b / 8)))
            && (a % 8 == b % 8 == 5 ==>
                  && o + 2 < |s.mem| && x + 2 < |s.mem|
                  && (s.mem[o + 2] != s.mem[x + 2] ==>
                        ObjectAnswer(s, d, o, x) == BoxWord(Signed(s.mem[o + 2]) - Signed(s.mem[x + 2])))
                  && (s.mem[o + 2] == s.mem[x + 2] && a / 8 != b / 8 ==>
                        ObjectAnswer(s, d, o, x) == BoxWord(a / 8 - b / 8)))
            && (a % 8 == b % 8 == 3 && a / 8 != b / 8 ==> ObjectAnswer(s, d, o, x) == BoxWord(a / 8 - b / 8))
  {
    hide ObjectValue, BoxWord, Wrap, Compare, CompareFields, StringAt, Bytes, StringDifference, CString, FieldCount,
         ComparableObject;
    var v, w := ObjectValue(s, d, o), ObjectValue(s, d, x);
    ObjectWordsOf(s, d, o);
    ObjectWordsOf(s, d, x);
    CompareObjectValues(v, w);
    var a: int, b: int := s.mem[o], s.mem[x];
    HeaderTag(a);
    HeaderTag(b);
    BoxWraps(a % 8 - b % 8);
    BoxWraps(a / 8 - b / 8);
    if v.Node? && w.Node? && !v.kind.ARRAY? && !w.kind.ARRAY? {
      BoxWraps(ExtraDifference(v.kind, v.extra, w.extra));
    }
  }

  lemma HeaderTag(h: Word)
    requires ValidHeader(h)
    ensures TagOf(KindOf(h)) == h % 8 && Len(h) == h / 8
    ensures h % 8 == 1 || h % 8 == 3 || h % 8 == 5 || h % 8 == 7
  {
    OddRemainder(h);
  }

  lemma OddRemainder(h: nat)
    requires h % 2 == 1
    ensures h % 8 == 1 || h % 8 == 3 || h % 8 == 5 || h % 8 == 7
  {
    var q, t := h / 8, h % 8;
    assert h == 2 * (4 * q) + t;
  }

  /** The words of two objects with fields agree up to the fields. */
  ghost predicate SameFront(s: Snapshot, o: int, x: int) {
    && 0 <= o < |s.mem| && 0 <= x < |s.mem| && s.mem[o] == s.mem[x]
    && s.mem[o] % 8 != 1 && (s.mem[o] % 8 != 3 ==> At(s.mem, o + 2) == At(s.mem, x + 2))
  }

  /** The offset of the first field and their number, by the header. */
  function FieldsStart(h: Word): nat {
    if h % 8 == 3 then 2 else 3
  }

  function FieldsNumber(h: Word): int {
    if h % 8 == 7 then h / 8 - 1 else h / 8
  }

  /** What Lcompare answers on the i-th fields. */
  ghost function FieldAnswer(s: Snapshot, d: nat, o: int, x: int, i: int): Word {
    var f := FieldsStart(s.Header(o));
    Answer(s, d, At(s.mem, o + f + i), At(s.mem, x + f + i))
  }

  /** After that the first fields that Lcompare does not find equal decide, from the lowest offset on. */
  lemma FieldsOrder(s: Snapshot, d: nat, o: int, x: int, i: nat)
    requires ComparableObject(s, d, o) && ComparableObject(s, d, x) && SameFront(s, o, x)
    requires i <= FieldsNumber(s.mem[o])
    requires forall j :: 0 <= j < i ==> FieldAnswer(s, d, o, x, j) == BoxWord(0)
    ensures i == FieldsNumber(s.mem[o]) ==> ObjectAnswer(s, d, o, x) == BoxWord(0)
    ensures i < FieldsNumber(s.mem[o]) && FieldAnswer(s, d, o, x, i) != BoxWord(0) ==>
              ObjectAnswer(s, d, o, x) == FieldAnswer(s, d, o, x, i)
  {
    hide ObjectValue, BoxWord, Wrap, Compare, CompareFields, StringAt, Bytes, StringDifference, CString,
         ComparableObject, ValueOf, Comparable;
    var v, w := ObjectValue(s, d, o), ObjectValue(s, d, x);
    FrontValues(s, d, o, x);
    FieldsFrom(s, d, o, x, i, 0);
    assert v.fields[0..] == v.fields && w.fields[0..] == w.fields;
  }

  lemma FrontValues(s: Snapshot, d: nat, o: int, x: int)
    requires ComparableObject(s, d, o) && ComparableObject(s, d, x) && SameFront(s, o, x)
    ensures var v, w := ObjectValue(s, d, o), ObjectValue(s, d, x);
            && v.Node? && w.Node? && |v.fields| == |w.fields| == FieldsNumber(s.mem[o]) == FieldCount(s, o)
            && FieldCount(s, x) == FieldCount(s, o) && Compare(v, w) == CompareFields(v.fields, w.fields)
  {
    hide ObjectValue, Wrap, Compare, CompareFields, StringAt, Bytes, StringDifference, CString, FieldCount,
         ComparableObject;
    ObjectWordsOf(s, d, o);
    ObjectWordsOf(s, d, x);
    HeaderTag(s.mem[o]);
    CompareObjectValues(ObjectValue(s, d, o), ObjectValue(s, d, x));
  }

  lemma {:induction false} FieldsFrom(s: Snapshot, d: nat, o: int, x: int, i: nat, k: nat)
    requires ComparableObject(s, d, o) && ComparableObject(s, d, x) && SameFront(s, o, x)
    requires k <= i <= FieldsNumber(s.mem[o])
    requires forall j :: 0 <= j < i ==> FieldAnswer(s, d, o, x, j) == BoxWord(0)
    ensures var v, w := ObjectValue(s, d, o), ObjectValue(s, d, x);
            && v.Node? && w.Node? && |v.fields| == |w.fields| == FieldsNumber(s.mem[o])
            && (i == |v.fields| ==> CompareFields(v.fields[k..], w.fields[k..]) == 0)
            && (i < |v.fields| && FieldAnswer(s, d, o, x, i) != BoxWord(0) ==>
                  BoxWord(CompareFields(v.fields[k..], w.fields[k..])) == FieldAnswer(s, d, o, x, i))
    decreases i - k
  {
    hide ObjectValue, BoxWord, Wrap, Compare, StringAt, Bytes, StringDifference, CString, ComparableObject,
         ValueOf, Comparable, FieldCount, FieldAnswer;
    var v, w := ObjectValue(s, d, o), ObjectValue(s, d, x);
    FrontValues(s, d, o, x);
    if k < FieldsNumber(s.mem[o]) {
      FieldValues(s, d, o, x, k);
      FieldsStep(v.fields, w.fields, k);
      if k < i {
        FieldsFrom(s, d, o, x, i, k + 1);
      }
    }
  }

  lemma FieldValues(s: Snapshot, d: nat, o: int, x: int, k: nat)
    requires ComparableObject(s, d, o) && ComparableObject(s, d, x) && SameFront(s, o, x) && k < FieldsNumber(s.mem[o])
    ensures var v, w := ObjectValue(s, d, o), ObjectValue(s, d, x);
            && v.Node? && w.Node? && k < |v.fields| && k < |w.fields|
            && FieldAnswer(s, d, o, x, k) == BoxWord(Compare(v.fields[k], w.fields[k]))
            && (Compare(v.fields[k], w.fields[k]) == 0 <==> BoxWord(Compare(v.fields[k], w.fields[k])) == BoxWord(0))
  {
    hide ObjectValue, BoxWord, Wrap, Compare, StringAt, Bytes, StringDifference, CString, ComparableObject,
         ValueOf, Comparable, FieldCount;
    FrontValues(s, d, o, x);
    ObjectWordsOf(s, d, o);
    ObjectWordsOf(s, d, x);
    HeaderTag(s.mem[o]);
    FieldsOf(s, d, o, k);
    FieldsOf(s, d, x, k);
    var v, w := ObjectValue(s, d, o), ObjectValue(s, d, x);
    CompareRange(v.fields[k], w.fields[k]);
    BoxZero(Compare(v.fields[k], w.fields[k]));
  }

  /** Strings order by the first bytes that differ, a zero byte ending both. */
  lemma StringsOrder(s: Snapshot, d: nat, o: int, x: int, k: nat)
    requires ComparableObject(s, d, o) && ComparableObject(s, d, x)
    requires 0 <= o < |s.mem| && 0 <= x < |s.mem| && s.mem[o] % 8 == s.mem[x] % 8 == 1
    requires forall j :: 0 <= j < k ==> StringByte(s.mem, o, j) == StringByte(s.mem, x, j) != 0
    requires StringByte(s.mem, o, k) != StringByte(s.mem, x, k) || StringByte(s.mem, o, k) == 0
    ensures ObjectAnswer(s, d, o, x) == BoxWord(StringByte(s.mem, o, k) as int - StringByte(s.mem, x, k))
  {
    hide ObjectValue, BoxWord, Wrap, Compare, StringDifference, CString, StringByte, ComparableObject;
    ObjectWordsOf(s, d, o);
    ObjectWordsOf(s, d, x);
    HeaderTag(s.mem[o]);
    HeaderTag(s.mem[x]);
    var a, b := Bytes(s, o), Bytes(s, x);
    CompareObjectValues(ObjectValue(s, d, o), ObjectValue(s, d, x));
    DifferenceAt(a, b, k, 0);
    assert a[0..] == a && b[0..] == b;
    BoxWraps(StringByte(s.mem, o, k) as int - StringByte(s.mem, x, k));
  }

  lemma {:induction false} DifferenceAt(a: seq<nat>, b: seq<nat>, k: nat, i: nat)
    requires Terminated(a) && Terminated(b) && i <= k && i < |a| && i < |b|
    requires forall j :: 0 <= j < k && j < |a| && j < |b| ==> a[j] == b[j] != 0
    requires k < |a| && k < |b| ==> a[k] != b[k] || a[k] == 0
    ensures k < |a| && k < |b|
    ensures StringDifference(CString(a[i..]), CString(b[i..])) == a[k] as int - b[k]
    decreases k - i
  {
    DifferenceStep(a, b, i);
    if i < k {
      DifferenceAt(a, b, k, i + 1);
    }
  }

  // ------------------------------------------------------------------- hashing

  /** The hash of a list of numbers. */
  ghost function Folded(acc: Word, xs: seq<int>): Word
    decreases |xs|
  {
    if |xs| == 0 then acc else Folded(HashAppend(acc, xs[0]), xs[1..])
  }

  /** Appending adds modulo 2^64 and exchanges the halves of the sum. */
  lemma AppendExact(acc: Word, x: int)
    ensures var r := HashAppend(acc, x);
            r % 0x1_0000_0000 * 0x1_0000_0000 + r / 0x1_0000_0000 == (acc + x) % MODULUS
  {
    var t: Word := (acc + x) % MODULUS;
    var low, high := t % 0x1_0000_0000, t / 0x1_0000_0000;
    assert high < 0x1_0000_0000;
    Halves(high, low);
  }

  /** The numbers that inner_hash appends for a word: the number of an unboxed word, an address outside the heap, or
      those of an object; none below the last level. */
  ghost function WordTrace(s: Snapshot, depth: nat, p: Word): seq<int>
    decreases if depth > HASH_DEPTH then 0 else HASH_DEPTH + 1 - depth, 0
  {
    if depth > 3 then []
    else if p % 2 == 1 then [if p < MODULUS / 2 then p / 2 else p / 2 - MODULUS / 2]
    else if !s.InRange(p) then [p]
    else ObjectTrace(s, depth, s.Target(p))
  }

  /** Tag and length from the header, then the bytes of a string up to the first zero, or the code word of a closure or
      the tag of an s-expression and what the fields give one level below. */
  ghost function ObjectTrace(s: Snapshot, depth: nat, o: int): seq<int>
    requires depth <= HASH_DEPTH
    decreases HASH_DEPTH - depth, MODULUS, 1
  {
    var h := s.Header(o);
    [h % 8, h / 8] +
    if h % 8 == 1 then TextTrace(s, o, 0)
    else
      (if h % 8 == 3 then [] else [At(s.mem, o + 2)]) +
      FieldsTrace(s, depth + 1, o + FieldsStart(h), FieldsNumber(h))
  }

  ghost function TextTrace(s: Snapshot, o: int, k: nat): seq<int>
    decreases s.Header(o) / 8 + 1 - k
  {
    if k > s.Header(o) / 8
        || StringByte(s.mem, o, k) == 0 then [] else [StringByte(s.mem, o, k)] + TextTrace(s, o, k + 1)
  }

  /** The n fields from offset i on. */
  ghost function FieldsTrace(s: Snapshot, depth: nat, i: int, n: int): seq<int>
    decreases if depth > HASH_DEPTH then 0 else HASH_DEPTH + 1 - depth, if n > 0 then n else 0, 0
  {
    if n <= 0 then [] else WordTrace(s, depth, At(s.mem, i)) + FieldsTrace(s, depth, i + 1, n - 1)
  }

  lemma {:induction false} FoldedConcat(acc: Word, xs: seq<int>, ys: seq<int>)
    ensures Folded(acc, xs + ys) == Folded(Folded(acc, xs), ys)
    decreases |xs|
  {
    hide HashAppend;
    if |xs| == 0 {
      assert xs + ys == ys;
    } else {
      assert (xs + ys)[0] == xs[0] && (xs + ys)[1..] == xs[1..] + ys;
      FoldedConcat(HashAppend(acc, xs[0]), xs[1..], ys);
    }
  }

  lemma {:induction false} TextFolded(s: Snapshot, o: int, k: nat, acc: Word)
    requires StringAt(s, o) && |Bytes(s, o)| == Len(s.Header(o)) + 1 && k < |Bytes(s, o)|
    ensures HashBytes(acc, CString(Bytes(s, o)[k..])) == Folded(acc, TextTrace(s, o, k))
    decreases |Bytes(s, o)| - k
  {
    hide HashAppend, HashBytes, CString, StringByte;
    var b := Bytes(s, o);
    HeaderTag(s.Header(o));
    HashBytesStep(acc, b, k);
    assert b[k] == StringByte(s.mem, o, k);
    if b[k] != 0 {
      TextFolded(s, o, k + 1, HashAppend(acc, b[k]));
      FoldedFront(acc, b[k], TextTrace(s, o, k + 1));
    }
  }

  lemma FoldedFront(acc: Word, x: int, xs: seq<int>)
    ensures Folded(acc, [x] + xs) == Folded(HashAppend(acc, x), xs)
  {
    hide HashAppend;
    assert ([x] + xs)[1..] == xs;
  }

  lemma FoldedTwo(acc: Word, x: int, y: int, xs: seq<int>)
    ensures Folded(acc, [x, y] + xs) == Folded(HashAppend(HashAppend(acc, x), y), xs)
  {
    assert [x, y] + xs == [x] + ([y] + xs);
    FoldedFront(acc, x, [y] + xs);
    FoldedFront(HashAppend(acc, x), y, xs);
  }

  /** inner_hash folds the numbers of the word over the sum it starts from. */
  lemma {:induction false} HashIsFolded(s: Snapshot, depth: nat, acc: Word, p: Word)
    requires depth <= HASH_DEPTH + 1 && Hashed(s, HASH_DEPTH + 1 - depth, p)
    ensures HashValue(depth, acc, ValueOf(s, HASH_DEPTH + 1 - depth, p)) == Folded(acc, WordTrace(s, depth, p))
    decreases HASH_DEPTH + 1 - depth, 0, 0
  {
    hide HashAppend, ObjectTrace, HeaderAt, Hashed, ObjectValue, HashedObject;
    if depth <= HASH_DEPTH {
      if s.InRange(p) {
        HashedPointer(s, HASH_DEPTH + 1 - depth, p);
        ObjectFolded(s, depth, acc, s.Target(p));
      } else {
        var x: int := if p % 2 == 0 then p else if p < MODULUS / 2 then p / 2 else p / 2 - MODULUS / 2;
        FoldedFront(acc, x, []);
        assert [x] + [] == [x];
      }
    }
  }

  lemma {:induction false} ObjectFolded(s: Snapshot, depth: nat, acc: Word, o: int)
    requires depth <= HASH_DEPTH && HashedObject(s, HASH_DEPTH - depth, o)
    ensures HashValue(depth, acc, ObjectValue(s, HASH_DEPTH - depth, o)) == Folded(acc, ObjectTrace(s, depth, o))
    decreases HASH_DEPTH - depth, MODULUS, 1
  {
    hide HashAppend, HeaderAt, HashedObject, ObjectValue, TextTrace, FieldsTrace, Bytes, HashBytes, HashFields, CString,
         FieldCount, StringAt;
    var v, h := ObjectValue(s, HASH_DEPTH - depth, o), s.Header(o);
    HashedWords(s, HASH_DEPTH - depth, o);
    HeaderTag(h);
    var a := HashAppend(HashAppend(acc, h % 8), h / 8);
    if h % 8 == 1 {
      TextFolded(s, o, 0, a);
      assert Bytes(s, o)[0..] == Bytes(s, o);
      FoldedTwo(acc, h % 8, h / 8, TextTrace(s, o, 0));
    } else {
      var rest := FieldsTrace(s, depth + 1, o + FieldsStart(h), FieldsNumber(h));
      assert v.fields[0..] == v.fields;
      if h % 8 == 3 {
        FieldsFolded(s, depth, a, o, 0);
        FoldedTwo(acc, h % 8, h / 8, rest);
        assert [] + rest == rest;
      } else {
        var e := At(s.mem, o + 2);
        FieldsFolded(s, depth, HashAppend(a, e), o, 0);
        FoldedTwo(acc, h % 8, h / 8, [e] + rest);
        FoldedFront(a, e, rest);
      }
    }
  }

  lemma {:induction false} FieldsFolded(s: Snapshot, depth: nat, acc: Word, o: int, i: nat)
    requires depth <= HASH_DEPTH && HashedObject(s, HASH_DEPTH - depth, o)
    requires ObjectValue(s, HASH_DEPTH - depth, o).Node? && i <= FieldsNumber(s.Header(o))
    ensures var v, h := ObjectValue(s, HASH_DEPTH - depth, o), s.Header(o);
            && |v.fields| == FieldsNumber(h)
            && HashFields(depth + 1, acc, v.fields[i..])
               == Folded(acc, FieldsTrace(s, depth + 1, o + FieldsStart(h) + i, FieldsNumber(h) - i))
    decreases HASH_DEPTH - depth, FieldsNumber(s.Header(o)) - i, 0
  {
    hide HashAppend, HeaderAt, HashedObject, ObjectValue, WordTrace, FieldCount, HashValue, Hashed, ValueOf, StringAt,
         Bytes;
    var v, h := ObjectValue(s, HASH_DEPTH - depth, o), s.Header(o);
    HashedWords(s, HASH_DEPTH - depth, o);
    HeaderTag(h);
    if i < |v.fields| {
      HashedField(s, HASH_DEPTH - depth, o, i);
      var p := s.mem[o + FieldsStart(h) + i];
      HashFieldsStep(depth + 1, acc, v.fields, i);
      HashIsFolded(s, depth + 1, acc, p);
      var next := HashValue(depth + 1, acc, v.fields[i]);
      FieldsFolded(s, depth, next, o, i + 1);
      FoldedConcat(acc, WordTrace(s, depth + 1, p),
                   FieldsTrace(s, depth + 1, o + FieldsStart(h) + (i + 1), FieldsNumber(h) - (i + 1)));
    }
  }

  /** Lhash boxes the low 22 bits of what the word appends to zero. */
  lemma HashOfWord(s: Snapshot, p: Word)
    requires Hashed(s, HASH_DEPTH + 1, p)
    ensures HashOf(ValueOf(s, HASH_DEPTH + 1, p)) == 2 * (Folded(0, WordTrace(s, 0, p)) % 0x40_0000) + 1
  {
    hide Folded, WordTrace, ValueOf, HashValue, Hashed;
    HashIsFolded(s, 0, 0, p);
  }
}
