/** Object layout: what a header word says about an object, and snapshots of a whole
    heap chunk together with the reachability graph they hold. */
module Layout {
  import opened Words

  datatype Kind = ARRAY | CLOSURE | STRING | SEXP

  /** The four known tags are the odd ones; on any other the runtime exits. */
  predicate ValidHeader(h: Word) {
    h % 2 == 1
  }

  /** get_type_header_ptr */
  function KindOf(h: Word): Kind
    requires ValidHeader(h)
  {
    match h % 8
    case 1 => STRING
    case 3 => ARRAY
    case 5 => SEXP
    case _ => CLOSURE
  }

  /** LEN: elements of an array, bytes of a string, captured words of a closure
      (code word included), members of an s-expression. */
  function Len(h: Word): nat {
    h / 8
  }

  function TagOf(k: Kind): nat {
    match k
    case STRING => 1
    case ARRAY => 3
    case SEXP => 5
    case CLOSURE => 7
  }

  /** The header written by the alloc_* functions. */
  function MakeHeader(k: Kind, len: nat): (h: Word)
    requires len < MODULUS / 8
    ensures ValidHeader(h) && KindOf(h) == k && Len(h) == len
  {
    DivMod8(len, TagOf(k));
    Mod2(4 * len + TagOf(k) / 2, 1);
    8 * len + TagOf(k)
  }

  /** array_size, string_size, closure_size and sexp_size: header, forward word and contents. */
  function ObjectBytes(k: Kind, len: nat): nat {
    match k
    case STRING => 16 + len + 1
    case ARRAY => 16 + 8 * len
    case CLOSURE => 16 + 8 * len
    case SEXP => 16 + 8 * (len + 1)
  }

  /** BYTES_TO_WORDS */
  function BytesToWords(bytes: nat): nat
    requires bytes > 0
  {
    (bytes - 1) / 8 + 1
  }

  /** obj_size_header_ptr */
  function SizeBytes(h: Word): nat
    requires ValidHeader(h)
  {
    ObjectBytes(KindOf(h), Len(h))
  }

  /** What heap_next_obj_iterator advances by. */
  function SizeWords(h: Word): (n: nat)
    requires ValidHeader(h)
    ensures n >= 2 && SizeBytes(h) <= 8 * n < SizeBytes(h) + 8
    ensures !KindOf(h).STRING? ==> SizeBytes(h) == 8 * n
  {
    BytesToWords(SizeBytes(h))
  }

  /** field_begin_iterator, in words from the header: strings have no fields, closures skip
      their code word and s-expressions their tag. */
  function FirstField(h: Word): (i: nat)
    requires ValidHeader(h)
    ensures i >= 2
  {
    match KindOf(h)
    case STRING => SizeWords(h)
    case CLOSURE => 3
    case SEXP => 3
    case ARRAY => 2
  }

  /** Headers in numbers: the tag of each kind stands in the low three bits, with the length above. */
  lemma HeadersExact(n: nat)
    requires n < MODULUS / 8
    ensures MakeHeader(STRING, n) == 8 * n + 1 && MakeHeader(ARRAY, n) == 8 * n + 3
    ensures MakeHeader(SEXP, n) == 8 * n + 5 && MakeHeader(CLOSURE, n) == 8 * n + 7
  {
    hide MakeHeader;
    HeaderOf(STRING, n);
    HeaderOf(ARRAY, n);
    HeaderOf(SEXP, n);
    HeaderOf(CLOSURE, n);
  }

  /** The words of an object and the offset of its first field. A string of n bytes takes its zero byte too, an
      s-expression a word for its tag; a closure counts its code word. */
  lemma SizesExact(h: Word)
    requires h % 8 == 1 || h % 8 == 3 || h % 8 == 5 || h % 8 == 7
    ensures ValidHeader(h)
    ensures h % 8 == 1 ==> SizeWords(h) == 3 + h / 8 / 8 == FirstField(h)
    ensures h % 8 == 3 ==> SizeWords(h) == 2 + h / 8 && FirstField(h) == 2
    ensures h % 8 == 5 ==> SizeWords(h) == 3 + h / 8 && FirstField(h) == 3
    ensures h % 8 == 7 ==> SizeWords(h) == 2 + h / 8 && FirstField(h) == 3
  {
    hide SizeWords, FirstField;
    SizesOf(KindOf(h), Len(h), h);
  }

  lemma HeaderOf(k: Kind, n: nat)
    requires n < MODULUS / 8
    ensures MakeHeader(k, n) == 8 * n + match k { case STRING => 1 case ARRAY => 3 case SEXP => 5 case CLOSURE => 7 }
  {
    hide KindOf, Len;
  }

  lemma SizesOf(k: Kind, n: nat, h: Word)
    requires ValidHeader(h) && KindOf(h) == k && Len(h) == n
    ensures SizeWords(h) == match k { case STRING => 3 + n / 8 case SEXP => 3 + n case _ => 2 + n }
    ensures FirstField(h) == match k { case STRING => 3 + n / 8 case ARRAY => 2 case _ => 3 }
  {
    hide BytesToWords, KindOf, Len;
    WordsNeeded(n + 1);
    WholeWords(2 + n);
    WholeWords(3 + n);
  }

  lemma WordsNeeded(bytes: nat)
    requires bytes > 0
    ensures BytesToWords(16 + bytes) == 3 + (bytes - 1) / 8
  {
  }

  lemma WholeWords(n: nat)
    requires n > 0
    ensures BytesToWords(8 * n) == n
  {
  }

  /** TO_DATA: the offset, in a chunk at `begin`, of the header that belongs to content pointer v. */
  function HeaderAt(begin: nat, v: Word): int {
    (v - begin) / 8 - 2
  }

  /** One state of a heap chunk: its address, the words in use, the offsets of the object
      headers in address order, and all words of the chunk. */
  datatype Snapshot = Snapshot(begin: nat, current: nat, objs: seq<nat>, mem: seq<Word>) {

    ghost function Header(o: int): Word {
      if 0 <= o < |mem| then mem[o] else 0
    }

    ghost function Size(o: int): nat {
      if ValidHeader(Header(o)) then SizeWords(Header(o)) else 0
    }

    ghost function EndOf(k: int): nat {
      if 0 <= k && k + 1 < |objs| then objs[k + 1] else current
    }

    ghost predicate ObjectAt(k: nat)
      requires k < |objs|
    {
      && objs[k] < |mem|
      && ValidHeader(mem[objs[k]])
      && objs[k] + SizeWords(mem[objs[k]]) == EndOf(k)
    }

    /** The used part of the chunk is a concatenation of whole objects. */
    ghost predicate Parses() {
      && 0 < begin && begin % 8 == 0
      && begin + 8 * |mem| < MODULUS
      && current <= |mem|
      && (if |objs| == 0 then current == 0 else objs[0] == 0)
      && (forall k {:trigger ObjectAt(k)} :: 0 <= k < |objs| ==> ObjectAt(k))
      && Ascending(objs)
    }

    ghost function Content(o: int): int {
      begin + 8 * o + 16
    }

    /** is_valid_heap_pointer: even, and inside the chunk with its end included. */
    ghost predicate InRange(v: Word) {
      v % 2 == 0 && begin <= v <= begin + 8 * current
    }

    /** Offset of the header a content pointer belongs to. */
    ghost function Target(v: Word): int {
      HeaderAt(begin, v)
    }

    /** A word the collector may follow: in range only if it is the content pointer of an object. */
    ghost predicate GoodWord(v: Word) {
      InRange(v) ==> Target(v) in objs && v == Content(Target(v))
    }

    /** Word i of the chunk is a scanned field of the object with header o. */
    ghost predicate IsField(o: int, i: int) {
      && 0 <= i < |mem| && ValidHeader(Header(o))
      && o + FirstField(Header(o)) <= i < o + Size(o)
    }

    /** The same for the whole chunk: what lies beyond the used words is not pointed to. */
    ghost predicate SoundWord(v: Word) {
      v % 2 == 0 && begin <= v <= begin + 8 * |mem| ==> Target(v) in objs && v == Content(Target(v))
    }

    ghost predicate PointersSound() {
      forall o, i :: o in objs && IsField(o, i) ==> SoundWord(mem[i])
    }

    ghost predicate PointersGood() {
      forall o, i :: o in objs && IsField(o, i) ==> GoodWord(mem[i])
    }

    ghost predicate AllFlagsClear() {
      forall o :: o in objs ==> FlagsClear(Header(o + 1))
    }

    /** The heap invariant between operations. */
    ghost predicate Valid() {
      Parses() && PointersGood() && AllFlagsClear()
    }

    /** The invariant every allocation and collection keeps. */
    ghost predicate Sound() {
      Valid() && PointersSound()
    }

    /** Object o holds a pointer to object t in a scanned field. */
    ghost predicate Edge(o: int, t: int) {
      exists i :: IsField(o, i) && InRange(mem[i]) && Target(mem[i]) == t
    }

    ghost predicate ReachIn(n: nat, roots: set<int>, o: int) {
      if n == 0 then o in roots
      else exists p :: ReachIn(n - 1, roots, p) && Edge(p, o)
    }

    ghost predicate Reach(roots: set<int>, o: int) {
      exists n: nat :: ReachIn(n, roots, o)
    }

    ghost function Reachable(roots: set<int>): set<int> {
      set o | o in objs && Reach(roots, o)
    }

    /** The object a root word refers to, if any. */
    ghost function RootOf(v: Word): set<int> {
      if InRange(v) then {Target(v)} else {}
    }

    ghost function RootsOf(vs: seq<Word>): set<int> {
      if |vs| == 0 then {} else RootsOf(vs[..|vs| - 1]) + RootOf(vs[|vs| - 1])
    }

    ghost predicate GoodWords(vs: seq<Word>) {
      forall i :: 0 <= i < |vs| ==> GoodWord(vs[i])
    }
  }

  ghost predicate Ascending(s: seq<nat>) {
    forall i, j :: 0 <= i < j < |s| ==> s[i] + 2 <= s[j]
  }

  lemma InOrder(s: Snapshot, i: nat, j: nat)
    requires s.Parses() && i < |s.objs| && j < |s.objs|
    ensures i < j ==> s.objs[i] + 2 <= s.objs[j]
    ensures j < i ==> s.objs[j] + 2 <= s.objs[i]
  {
  }

  /** Every object lies below `current`, and below the header of every later object. */
  lemma Tiles(s: Snapshot, o: int, x: int)
    requires s.Parses() && o in s.objs && x in s.objs
    ensures 0 <= o && ValidHeader(s.Header(o)) && s.Size(o) >= 2
    ensures o + s.Size(o) <= s.current <= |s.mem|
    ensures o < x ==> o + s.Size(o) <= x
  {
    var k, j := IndexOf(s.objs, o), IndexOf(s.objs, x);
    assert s.ObjectAt(k);
    EndsBelow(s, k);
    InOrder(s, j, k);
    assert k + 1 < j ==> s.objs[k + 1] + 2 <= s.objs[j];
  }

  lemma EndsBelow(s: Snapshot, k: nat)
    requires s.Parses() && k < |s.objs|
    ensures s.EndOf(k) <= s.current
  {
    var last := |s.objs| - 1;
    assert s.ObjectAt(last);
    if k < last {
      assert s.objs[k + 1] <= s.objs[last];
    }
  }

  lemma Shape(s: Snapshot, o: int)
    requires s.Parses() && o in s.objs
    ensures 0 <= o && ValidHeader(s.Header(o)) && s.Size(o) >= 2
    ensures o + s.Size(o) <= s.current <= |s.mem|
  {
    Tiles(s, o, o);
  }

  ghost function IndexOf(objs: seq<nat>, o: int): (k: nat)
    requires o in objs
    ensures k < |objs| && objs[k] == o
  {
    var k :| 0 <= k < |objs| && objs[k] == o;
    k
  }

  /** Words inside an object, other than its second one, are not forward words. */
  lemma NotForwardWord(s: Snapshot, o: int, i: int)
    requires s.Parses() && o in s.objs
    requires i == o || o + 2 <= i < o + s.Size(o)
    ensures i - 1 !in s.objs
  {
    if i - 1 in s.objs {
      Tiles(s, o, i - 1);
      Tiles(s, i - 1, o);
      assert false;
    }
  }

  lemma OwnField(s: Snapshot, o: int, i: int)
    requires s.Parses() && o in s.objs
    requires ValidHeader(s.Header(o)) && o + FirstField(s.Header(o)) <= i < o + s.Size(o)
    ensures s.IsField(o, i)
  {
    Shape(s, o);
  }

  lemma OwnFieldBounds(s: Snapshot, o: int, i: int)
    requires s.IsField(o, i)
    ensures 0 <= i < |s.mem|
  {
  }
}
