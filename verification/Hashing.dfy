/** The bounded-depth structural hash, on abstract values, and its agreement with the order. */
module Hashing {
  import opened Words
  import opened Layout
  import opened Survival
  import opened Values
  import opened Ordering

  const HASH_DEPTH := 3
  const HASH_MASK := 0x40_0000

  /** HASH_APPEND: the sum modulo 2^64 with its halves exchanged. */
  function HashAppend(acc: Word, x: int): Word {
    var s: Word := (acc + x) % MODULUS;
    SwapHalves(s);
    s % 0x1_0000_0000 * 0x1_0000_0000 + s / 0x1_0000_0000
  }

  lemma SwapHalves(s: Word)
    ensures 0 <= s % 0x1_0000_0000 * 0x1_0000_0000 + s / 0x1_0000_0000 < MODULUS
  {
  }

  ghost function HashBytes(acc: Word, bytes: seq<nat>): Word
    decreases |bytes|
  {
    if |bytes| == 0 then acc else HashBytes(HashAppend(acc, bytes[0]), bytes[1..])
  }

  /** inner_hash */
  ghost function HashValue(depth: nat, acc: Word, v: Value): Word
    decreases v
  {
    if depth > HASH_DEPTH then acc else
      match v
      case Immediate(w) => HashAppend(acc, if Unboxed(w) then Number(w) else w)
      case Cut => acc
      case Text(bytes) => HashBytes(HashAppend(HashAppend(acc, TagOf(STRING)), |bytes| - 1), CString(bytes))
      case Node(k, len, extra, fields) => HashFields(depth + 1, HashHeader(acc, k, len, extra), fields)
  }

  ghost function HashHeader(acc: Word, k: Kind, len: nat, extra: Word): Word {
    var a := HashAppend(HashAppend(acc, TagOf(k)), len);
    if k.ARRAY? then a else HashAppend(a, extra)
  }

  ghost function HashFields(depth: nat, acc: Word, vs: seq<Value>): Word
    decreases vs
  {
    if |vs| == 0 then acc else HashFields(depth, HashValue(depth, acc, vs[0]), vs[1..])
  }

  /** Lhash of a value unfolded far enough. */
  ghost function HashOf(v: Value): Word {
    BoxWord(HashValue(0, 0, v) % HASH_MASK)
  }

  /** No string has a zero byte before its end. */
  ghost predicate Clean(v: Value)
    decreases v
  {
    match v
    case Text(bytes) => |bytes| > 0 && NoZero(bytes[..|bytes| - 1]) && bytes[|bytes| - 1] == 0
    case Node(_, _, _, fields) => forall f :: f in fields ==> Clean(f)
    case _ => true
  }

  lemma {:induction false} CleanString(bytes: seq<nat>)
    requires |bytes| > 0 && NoZero(bytes[..|bytes| - 1]) && bytes[|bytes| - 1] == 0
    ensures CString(bytes) == bytes[..|bytes| - 1]
  {
    if |bytes| > 1 {
      assert bytes[..|bytes| - 1][0] == bytes[0];
      assert bytes[1..][..|bytes| - 2] == bytes[..|bytes| - 1][1..];
      CleanString(bytes[1..]);
      assert bytes[..|bytes| - 1] == [bytes[0]] + bytes[1..][..|bytes| - 2];
    }
  }

  /** Structurally equal values without embedded zeros are the same value. */
  lemma {:induction false} SameIsEqual(v: Value, w: Value)
    requires Clean(v) && Clean(w) && Same(v, w)
    ensures v == w
    decreases v
  {
    if v.Text? {
      CleanString(v.bytes);
      CleanString(w.bytes);
      assert v.bytes == v.bytes[..|v.bytes| - 1] + [0];
      assert w.bytes == w.bytes[..|w.bytes| - 1] + [0];
    }
    if v.Node? {
      SameFieldsAreEqual(v.fields, w.fields);
    }
  }

  lemma {:induction false} SameFieldsAreEqual(vs: seq<Value>, ws: seq<Value>)
    requires (forall f :: f in vs ==> Clean(f)) && (forall f :: f in ws ==> Clean(f)) && SameFields(vs, ws)
    ensures vs == ws
    decreases vs
  {
    if |vs| > 0 {
      SameIsEqual(vs[0], ws[0]);
      SameFieldsAreEqual(vs[1..], ws[1..]);
      assert vs == [vs[0]] + vs[1..] && ws == [ws[0]] + ws[1..];
    }
  }

  ghost predicate NoCut(v: Value)
    decreases v
  {
    match v
    case Cut => false
    case Node(_, _, _, fields) => forall f :: f in fields ==> NoCut(f)
    case _ => true
  }

  lemma {:induction false} ProperIsComplete(v: Value)
    requires Proper(v)
    ensures NoCut(v)
    decreases v
  {
    if v.Node? {
      forall f | f in v.fields ensures NoCut(f) {
        ProperIsComplete(f);
      }
    }
  }

  /** Two words with the same completely unfolded value have the same value at every depth. */
  lemma {:induction false} EqualAtEveryDepth(s: Snapshot, d: nat, e: nat, p: Word, q: Word)
    requires ValueOf(s, d, p) == ValueOf(s, d, q) && NoCut(ValueOf(s, d, p))
    ensures ValueOf(s, e, p) == ValueOf(s, e, q)
    decreases e, 0
  {
    hide Snapshot.InRange, HeaderAt, StringByte;
    if s.InRange(p) && e > 0 {
      NeverImmediate(s, d - 1, s.Target(p));
      NeverImmediate(s, d - 1, s.Target(q));
      ObjectEqualAtEveryDepth(s, d - 1, e - 1, s.Target(p), s.Target(q));
    } else if s.InRange(q) {
      NeverImmediate(s, d - 1, s.Target(q));
    }
  }

  lemma NeverImmediate(s: Snapshot, d: int, o: int)
    ensures d >= 0 ==> !ObjectValue(s, d, o).Immediate?
  {
  }

  lemma {:induction false} ObjectEqualAtEveryDepth(s: Snapshot, d: nat, e: nat, o: int, x: int)
    requires ObjectValue(s, d, o) == ObjectValue(s, d, x) && NoCut(ObjectValue(s, d, o))
    ensures ObjectValue(s, e, o) == ObjectValue(s, e, x)
    decreases e, 1
  {
    hide StringByte, ValueOf;
    var v := ObjectValue(s, d, o);
    if v.Node? {
      forall i | 0 <= i < FieldCount(s, o) ensures ValueOf(s, e, FieldWord(s, o, i))
          == ValueOf(s, e, FieldWord(s, x, i)) {
        assert v.fields[i] == ValueOf(s, d, FieldWord(s, o, i)) && v.fields[i] == ValueOf(s, d, FieldWord(s, x, i));
        EqualAtEveryDepth(s, d, e, FieldWord(s, o, i), FieldWord(s, x, i));
      }
    }
  }

  /** Hashing respects comparison up to top bits: words that Lcompare finds equal, with no embedded zeros in their
      strings, have the same hash, although the hash stops at a fixed depth. */
  lemma EqualWordsHashEqually(s: Snapshot, d: nat, p: Word, q: Word)
    requires var v, w := ValueOf(s, d, p), ValueOf(s, d, q);
             Proper(v) && Proper(w) && Clean(v) && Clean(w) && Compare(v, w) == 0 && TopBitsAgree(v, w)
    ensures HashOf(ValueOf(s, HASH_DEPTH + 1, p)) == HashOf(ValueOf(s, HASH_DEPTH + 1, q))
  {
    var v, w := ValueOf(s, d, p), ValueOf(s, d, q);
    HeapValueSized(s, d, p);
    HeapValueSized(s, d, q);
    EqualExact(v, w);
    SameIsEqual(v, w);
    ProperIsComplete(v);
    EqualAtEveryDepth(s, d, HASH_DEPTH + 1, p, q);
  }

  /** The same under a bound on the words of each value alone. */
  lemma BoundedWordsHashEqually(s: Snapshot, d: nat, p: Word, q: Word)
    requires var v, w := ValueOf(s, d, p), ValueOf(s, d, q);
             Proper(v) && Proper(w) && Clean(v) && Clean(w) && Bounded(v) && Bounded(w) && Compare(v, w) == 0
    ensures HashOf(ValueOf(s, HASH_DEPTH + 1, p)) == HashOf(ValueOf(s, HASH_DEPTH + 1, q))
  {
    var v, w := ValueOf(s, d, p), ValueOf(s, d, q);
    HeapValueSized(s, d, p);
    HeapValueSized(s, d, q);
    BoundedZero(v, w);
    EqualExact(v, w);
    EqualWordsHashEqually(s, d, p, q);
  }

  lemma LowHash()
    ensures HashOf(LOW_CLOSURE) == 3
  {
    hide HashAppend, BoxWord;
    Appended(0, TagOf(CLOSURE), 7, 0);
    Appended(7 * 0x1_0000_0000, 1, 1, 7);
    Appended(0x1_0000_0007, 16, 23, 1);
    var a := HashHeader(0, CLOSURE, 1, 16);
    assert HashValue(0, 0, LOW_CLOSURE) == HashFields(1, a, []) == a == 0x17_0000_0001;
    Boxed(0x17_0000_0001, 1);
  }

  lemma HighHash()
    ensures HashOf(HIGH_CLOSURE) == 47
  {
    hide HashAppend, BoxWord;
    Appended(0, TagOf(CLOSURE), 7, 0);
    Appended(7 * 0x1_0000_0000, 2, 2, 7);
    Appended(0x2_0000_0007, 0x8000_0000_0000_0010, 23, 0x8000_0002);
    Appended(0x17_8000_0002, 0, 0x8000_0002, 23);
    var a, f := HashHeader(0, CLOSURE, 2, 0x8000_0000_0000_0010), [Immediate(1)];
    assert HashValue(0, 0, HIGH_CLOSURE) == HashFields(1, a, f);
    assert HashFields(1, a, f) == HashFields(1, HashValue(1, a, f[0]), f[1..]) == HashValue(1, a, f[0]);
    Boxed(0x8000_0002_0000_0017, 23);
  }

  /** The two halves of a sum, exchanged. */
  lemma Appended(acc: Word, x: int, low: Word, high: Word)
    requires acc + x == high * 0x1_0000_0000 + low && low < 0x1_0000_0000 && high < 0x1_0000_0000
    ensures HashAppend(acc, x) == low * 0x1_0000_0000 + high
  {
    Halves(low, high);
  }

  lemma Halves(low: nat, high: nat)
    requires low < 0x1_0000_0000 && high < 0x1_0000_0000
    ensures var r := high * 0x1_0000_0000 + low;
            0 <= r < MODULUS && r % MODULUS == r && r % 0x1_0000_0000 == low && r / 0x1_0000_0000 == high
  {
  }

  lemma Boxed(hash: Word, low: nat)
    requires hash % HASH_MASK == low && low < HASH_MASK
    ensures BoxWord(hash % HASH_MASK) == 2 * low + 1
  {
  }

  /** Closures whose code words differ in bit 63 compare as equal and hash apart. */
  lemma EqualClosuresHashApart()
    ensures var v, w := LOW_CLOSURE, HIGH_CLOSURE;
            Proper(v) && Proper(w) && Clean(v) && Clean(w) && Compare(v, w) == 0 && HashOf(v) != HashOf(w)
  {
    hide HashOf, Compare;
    FarCodeWordsCollide();
    LowHash();
    HighHash();
  }

  /** The hash of the array [1, 2]: the numbers 3, 2, 1 and 2 are appended. */
  lemma PairHash()
    ensures HashOf(Node(ARRAY, 2, 0, [Immediate(3), Immediate(5)])) == 9
  {
    hide HashAppend, BoxWord;
    Appended(0, TagOf(ARRAY), 3, 0);
    Appended(3 * 0x1_0000_0000, 2, 2, 3);
    Appended(0x2_0000_0003, 1, 4, 2);
    Appended(0x4_0000_0002, 2, 4, 4);
    var a, f := HashHeader(0, ARRAY, 2, 0), [Immediate(3), Immediate(5)];
    var b := HashValue(1, a, f[0]);
    assert HashFields(1, a, f) == HashFields(1, b, f[1..]) && f[1..][0] == f[1] && f[1..][1..] == [];
    assert HashFields(1, b, f[1..]) == HashFields(1, HashValue(1, b, f[1]), []) == HashValue(1, b, f[1]);
    Boxed(0x4_0000_0004, 4);
  }
}
