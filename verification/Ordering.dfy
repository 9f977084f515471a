/** The order that Lcompare decides, on abstract values: exact differences, and what is left of them
    after boxing. */
module Ordering {
  import opened Words
  import opened Layout
  import opened Values

  /** A C string: the bytes before the first zero. */
  ghost function CString(bytes: seq<nat>): seq<nat> {
    if |bytes| == 0 || bytes[0] == 0 then [] else [bytes[0]] + CString(bytes[1..])
  }

  /** strcmp: the difference of the first bytes that differ, the end counting as a zero byte. */
  ghost function StringDifference(a: seq<nat>, b: seq<nat>): int {
    if |a| == 0 then (if |b| == 0 then 0 else -b[0])
    else if |b| == 0 then a[0]
    else if a[0] != b[0] then a[0] - b[0]
    else StringDifference(a[1..], b[1..])
  }

  ghost function FirstNonZero(xs: seq<int>): int {
    if |xs| == 0 then 0 else if xs[0] != 0 then xs[0] else FirstNonZero(xs[1..])
  }

  /** Unboxed words come first, then heap objects, then addresses outside the heap. */
  ghost function Class(v: Value): int {
    match v
    case Immediate(w) => if Unboxed(w) then 0 else 2
    case _ => 1
  }

  ghost function TagNumber(v: Value): int {
    match v
    case Text(_) => TagOf(STRING)
    case Node(k, _, _, _) => TagOf(k)
    case _ => 0
  }

  /** Code words differ as addresses, tags as signed numbers. */
  ghost function ExtraDifference(k: Kind, x: Word, y: Word): int {
    match k
    case CLOSURE => x - y
    case SEXP => Signed(x) - Signed(y)
    case _ => 0
  }

  /** The difference that decides the order of two values, as a mathematical integer. */
  ghost function Difference(v: Value, w: Value): int
    decreases v
  {
    if Class(v) != Class(w) then (if Class(v) < Class(w) then -1 else 1)
    else if v.Immediate? then
      if !w.Immediate? then 0
      else if Unboxed(v.word) then Number(v.word) - Number(w.word) else v.word - w.word
    else if TagNumber(v) != TagNumber(w) then TagNumber(v) - TagNumber(w)
    else if v.Text? && w.Text? then StringDifference(CString(v.bytes), CString(w.bytes))
    else if !v.Node? || !w.Node? then 0
    else if ExtraDifference(v.kind, v.extra, w.extra) != 0 then ExtraDifference(v.kind, v.extra, w.extra)
    else if v.len != w.len then v.len - w.len
    else FieldDifference(v.fields, w.fields)
  }

  /** The first field that differs decides. */
  ghost function FieldDifference(vs: seq<Value>, ws: seq<Value>): int
    decreases vs
  {
    if |vs| == 0 || |ws| == 0 then 0
    else
      var d := Difference(vs[0], ws[0]);
      if d != 0 then d else FieldDifference(vs[1..], ws[1..])
  }

  /** Values Lcompare can compare: completely unfolded, fields as many as the length says, strings
      ended by a zero. */
  ghost predicate Proper(v: Value)
    decreases v
  {
    match v
    case Immediate(w) => true
    case Cut => false
    case Text(bytes) => |bytes| > 0 && bytes[|bytes| - 1] == 0
    case Node(k, len, extra, fields) =>
      && !k.STRING?
      && |fields| == (if k.CLOSURE? then len - 1 else len)
      && (k.ARRAY? ==> extra == 0)
      && forall f :: f in fields ==> Proper(f)
  }

  /** Structural equality, strings up to their first zero byte. */
  ghost predicate Same(v: Value, w: Value)
    decreases v
  {
    match v
    case Immediate(x) => w.Immediate? && x == w.word
    case Cut => w.Cut?
    case Text(bytes) => w.Text? && CString(bytes) == CString(w.bytes)
    case Node(k, len, extra, fields) =>
      && w.Node? && k == w.kind && len == w.len && extra == w.extra
      && SameFields(fields, w.fields)
  }

  ghost predicate SameFields(vs: seq<Value>, ws: seq<Value>)
    decreases vs
  {
    |vs| == |ws| && (|vs| > 0 ==> Same(vs[0], ws[0]) && SameFields(vs[1..], ws[1..]))
  }

  ghost predicate AllProper(vs: seq<Value>) {
    forall f :: f in vs ==> Proper(f)
  }

  lemma ProperTail(vs: seq<Value>)
    requires AllProper(vs) && |vs| > 0
    ensures Proper(vs[0]) && AllProper(vs[1..])
  {
  }

  // ------------------------------------------------------------------- strings

  lemma {:induction false} StringAntisymmetric(a: seq<nat>, b: seq<nat>)
    ensures StringDifference(b, a) == -StringDifference(a, b)
  {
    if |a| > 0 && |b| > 0 && a[0] == b[0] {
      StringAntisymmetric(a[1..], b[1..]);
    }
  }

  ghost predicate NoZero(a: seq<nat>) {
    forall i :: 0 <= i < |a| ==> a[i] > 0
  }

  lemma {:induction false} CStringNoZero(bytes: seq<nat>)
    ensures NoZero(CString(bytes))
  {
    if |bytes| > 0 && bytes[0] != 0 {
      CStringNoZero(bytes[1..]);
    }
  }

  lemma NoZeroTail(a: seq<nat>)
    requires NoZero(a) && |a| > 0
    ensures a[0] > 0 && NoZero(a[1..])
  {
  }

  lemma {:induction false} StringZero(a: seq<nat>, b: seq<nat>)
    requires NoZero(a) && NoZero(b)
    ensures StringDifference(a, b) == 0 <==> a == b
  {
    if |a| > 0 { NoZeroTail(a); }
    if |b| > 0 { NoZeroTail(b); }
    if |a| > 0 && |b| > 0 {
      StringZero(a[1..], b[1..]);
      assert a == [a[0]] + a[1..] && b == [b[0]] + b[1..];
    }
  }

  lemma {:induction false} StringTransitive(a: seq<nat>, b: seq<nat>, c: seq<nat>)
    requires NoZero(a) && NoZero(b) && NoZero(c)
    requires StringDifference(a, b) <= 0 && StringDifference(b, c) <= 0
    ensures StringDifference(a, c) <= 0
    ensures StringDifference(a, c) == 0 <==> StringDifference(a, b) == 0 && StringDifference(b, c) == 0
  {
    if |a| > 0 { NoZeroTail(a); }
    if |b| > 0 { NoZeroTail(b); }
    if |c| > 0 { NoZeroTail(c); }
    if |a| > 0 && |b| > 0 && |c| > 0 && a[0] == b[0] == c[0] {
      StringTransitive(a[1..], b[1..], c[1..]);
    }
  }

  // ------------------------------------------------------------------- values

  /** Swapping the arguments negates the difference. */
  lemma {:induction false} DifferenceAntisymmetric(v: Value, w: Value)
    ensures Difference(w, v) == -Difference(v, w)
    decreases v
  {
    if v.Text? && w.Text? {
      StringAntisymmetric(CString(v.bytes), CString(w.bytes));
    }
    if v.Node? && w.Node? {
      FieldsAntisymmetric(v.fields, w.fields);
    }
  }

  lemma {:induction false} FieldsAntisymmetric(vs: seq<Value>, ws: seq<Value>)
    ensures FieldDifference(ws, vs) == -FieldDifference(vs, ws)
    decreases vs
  {
    if |vs| > 0 && |ws| > 0 {
      DifferenceAntisymmetric(vs[0], ws[0]);
      FieldsAntisymmetric(vs[1..], ws[1..]);
    }
  }

  /** The difference is zero on exactly the structurally equal values. */
  lemma {:induction false} DifferenceZero(v: Value, w: Value)
    requires Proper(v) && Proper(w)
    ensures Difference(v, w) == 0 <==> Same(v, w)
    decreases v
  {
    if v.Immediate? && w.Immediate? {
      NumberInjective(v.word, w.word);
    }
    if v.Text? && w.Text? {
      CStringNoZero(v.bytes);
      CStringNoZero(w.bytes);
      StringZero(CString(v.bytes), CString(w.bytes));
    }
    if v.Node? && w.Node? && v.kind == w.kind && v.len == w.len {
      FieldsZero(v.fields, w.fields);
    }
  }

  lemma NumberInjective(x: Word, y: Word)
    ensures Unboxed(x) && Unboxed(y) ==> (Number(x) == Number(y) <==> x == y)
  {
    assert x == 2 * (x / 2) + x % 2 && y == 2 * (y / 2) + y % 2;
  }

  lemma {:induction false} FieldsZero(vs: seq<Value>, ws: seq<Value>)
    requires AllProper(vs) && AllProper(ws) && |vs| == |ws|
    ensures FieldDifference(vs, ws) == 0 <==> SameFields(vs, ws)
    decreases vs
  {
    if |vs| > 0 {
      ProperTail(vs);
      ProperTail(ws);
      DifferenceZero(vs[0], ws[0]);
      FieldsZero(vs[1..], ws[1..]);
    }
  }

  /** The order is transitive, and equal ends leave no room for a strict step between. */
  lemma {:induction false} DifferenceTransitive(u: Value, v: Value, w: Value)
    requires Proper(u) && Proper(v) && Proper(w)
    requires Difference(u, v) <= 0 && Difference(v, w) <= 0
    ensures Difference(u, w) <= 0
    ensures Difference(u, w) == 0 <==> Difference(u, v) == 0 && Difference(v, w) == 0
    decreases u
  {
    if u.Text? && v.Text? && w.Text? {
      CStringNoZero(u.bytes);
      CStringNoZero(v.bytes);
      CStringNoZero(w.bytes);
      StringTransitive(CString(u.bytes), CString(v.bytes), CString(w.bytes));
    } else if u.Node? && v.Node? && w.Node? {
      NodeTransitive(u, v, w);
    }
  }

  lemma {:induction false} NodeTransitive(u: Value, v: Value, w: Value)
    requires Proper(u) && Proper(v) && Proper(w) && u.Node? && v.Node? && w.Node?
    requires Difference(u, v) <= 0 && Difference(v, w) <= 0
    ensures Difference(u, w) <= 0
    ensures Difference(u, w) == 0 <==> Difference(u, v) == 0 && Difference(v, w) == 0
    decreases u, 0
  {
    if u.kind == v.kind == w.kind && u.len == v.len == w.len && u.extra == v.extra == w.extra {
      FieldsTransitive(u.fields, v.fields, w.fields);
    }
  }

  lemma {:induction false} FieldsTransitive(us: seq<Value>, vs: seq<Value>, ws: seq<Value>)
    requires AllProper(us) && AllProper(vs) && AllProper(ws) && |us| == |vs| == |ws|
    requires FieldDifference(us, vs) <= 0 && FieldDifference(vs, ws) <= 0
    ensures FieldDifference(us, ws) <= 0
    ensures FieldDifference(us, ws) == 0 <==> FieldDifference(us, vs) == 0 && FieldDifference(vs, ws) == 0
    decreases us
  {
    if |us| > 0 {
      ProperTail(us);
      ProperTail(vs);
      ProperTail(ws);
      DifferenceTransitive(us[0], vs[0], ws[0]);
      if Difference(us[0], vs[0]) == 0 && Difference(vs[0], ws[0]) == 0 {
        FieldsTransitive(us[1..], vs[1..], ws[1..]);
      }
    }
  }

  // ------------------------------------------------------------ after boxing

  /** Numbers from -BOXED_HALF up to BOXED_HALF survive boxing. */
  const BOXED_HALF := 0x4000_0000_0000_0000

  /** What UNBOX recovers from BOX: a 63-bit signed number. */
  function Wrap(d: int): (r: int)
    ensures -BOXED_HALF <= r < BOXED_HALF
    ensures -BOXED_HALF <= d < BOXED_HALF ==> r == d
    ensures -2 * BOXED_HALF < d < 2 * BOXED_HALF && r == 0 ==> d == 0
  {
    (d + BOXED_HALF) % (2 * BOXED_HALF) - BOXED_HALF
  }

  /** The unboxed result of Lcompare. */
  ghost function Compare(v: Value, w: Value): int
    decreases v
  {
    if Class(v) != Class(w) then (if Class(v) < Class(w) then -1 else 1)
    else if v.Immediate? then
      if !w.Immediate? then 0
      else if Unboxed(v.word) then Wrap(Number(v.word) - Number(w.word)) else Wrap(v.word - w.word)
    else if TagNumber(v) != TagNumber(w) then Wrap(TagNumber(v) - TagNumber(w))
    else if v.Text? && w.Text? then Wrap(StringDifference(CString(v.bytes), CString(w.bytes)))
    else if !v.Node? || !w.Node? then 0
    else if ExtraDifference(v.kind, v.extra, w.extra) != 0 then Wrap(ExtraDifference(v.kind, v.extra, w.extra))
    else if v.len != w.len then Wrap(v.len - w.len)
    else CompareFields(v.fields, w.fields)
  }

  ghost function CompareFields(vs: seq<Value>, ws: seq<Value>): int
    decreases vs
  {
    if |vs| == 0 || |ws| == 0 then 0
    else
      var d := Compare(vs[0], ws[0]);
      if d != 0 then d else CompareFields(vs[1..], ws[1..])
  }

  lemma {:induction false} CompareRange(v: Value, w: Value)
    ensures -BOXED_HALF <= Compare(v, w) < BOXED_HALF
    decreases v
  {
    if v.Node? && w.Node? {
      CompareFieldsRange(v.fields, w.fields);
    }
  }

  lemma {:induction false} CompareFieldsRange(vs: seq<Value>, ws: seq<Value>)
    ensures -BOXED_HALF <= CompareFields(vs, ws) < BOXED_HALF
    decreases vs
  {
    if |vs| > 0 && |ws| > 0 {
      CompareRange(vs[0], ws[0]);
      CompareFieldsRange(vs[1..], ws[1..]);
    }
  }

  /** Lcompare returns the deciding difference exactly when it survives boxing, that is, when it has
      63 bits. */
  lemma {:induction false} CompareExact(v: Value, w: Value)
    ensures Compare(v, w) == Difference(v, w) <==> -BOXED_HALF <= Difference(v, w) < BOXED_HALF
    decreases v
  {
    CompareRange(v, w);
    if v.Node? && w.Node? {
      CompareFieldsExact(v.fields, w.fields);
    }
  }

  lemma {:induction false} CompareFieldsExact(vs: seq<Value>, ws: seq<Value>)
    ensures CompareFields(vs, ws) == FieldDifference(vs, ws) <==> -BOXED_HALF <= FieldDifference(vs, ws) < BOXED_HALF
    decreases vs
  {
    CompareFieldsRange(vs, ws);
    if |vs| > 0 && |ws| > 0 {
      CompareExact(vs[0], ws[0]);
      CompareFieldsExact(vs[1..], ws[1..]);
    }
  }

  /** Where differences survive boxing, Lcompare is a total preorder. */
  lemma ComparePreorder(u: Value, v: Value, w: Value)
    requires Proper(u) && Proper(v) && Proper(w)
    requires -BOXED_HALF < Difference(u, v) < BOXED_HALF && -BOXED_HALF < Difference(v, w) < BOXED_HALF
             && -BOXED_HALF < Difference(u, w) < BOXED_HALF
    ensures Compare(v, u) == -Compare(u, v)
    ensures Compare(u, v) <= 0 && Compare(v, w) <= 0 ==> Compare(u, w) <= 0
    ensures Compare(u, v) == 0 <==> Same(u, v)
  {
    CompareExact(u, v);
    CompareExact(v, u);
    CompareExact(v, w);
    CompareExact(u, w);
    DifferenceAntisymmetric(u, v);
    DifferenceZero(u, v);
    if Difference(u, v) <= 0 && Difference(v, w) <= 0 {
      DifferenceTransitive(u, v, w);
    }
  }

  lemma {:induction false} SmallString(a: seq<nat>, b: seq<nat>)
    requires (forall i :: 0 <= i < |a| ==> a[i] < 256) && (forall i :: 0 <= i < |b| ==> b[i] < 256)
    ensures -256 < StringDifference(a, b) < 256
  {
    if |a| > 0 && |b| > 0 && a[0] == b[0] {
      SmallString(a[1..], b[1..]);
    }
  }

  lemma {:induction false} SmallCString(a: seq<nat>)
    requires forall i :: 0 <= i < |a| ==> a[i] < 256
    ensures forall i :: 0 <= i < |CString(a)| ==> CString(a)[i] < 256
  {
    if |a| > 0 && a[0] != 0 {
      SmallCString(a[1..]);
    }
  }

  // ------------------------------------------------------------- exact conditions

  /** A difference that is a multiple of 2^63 is lost by boxing. */
  function Reduced(d: int): int {
    if d % (2 * BOXED_HALF) == 0 then 0 else d
  }

  /** The first difference that is not lost, among those Lcompare comes to: after a lost difference of tags or code
      words it returns to the fields of the enclosing object. */
  ghost function Decisive(v: Value, w: Value): int
    decreases v
  {
    if Class(v) != Class(w) then (if Class(v) < Class(w) then -1 else 1)
    else if v.Immediate? then
      if !w.Immediate? then 0
      else Reduced(if Unboxed(v.word) then Number(v.word) - Number(w.word) else v.word - w.word)
    else if TagNumber(v) != TagNumber(w) then TagNumber(v) - TagNumber(w)
    else if v.Text? && w.Text? then Reduced(StringDifference(CString(v.bytes), CString(w.bytes)))
    else if !v.Node? || !w.Node? then 0
    else if ExtraDifference(v.kind, v.extra, w.extra) != 0 then Reduced(ExtraDifference(v.kind, v.extra, w.extra))
    else if v.len != w.len then Reduced(v.len - w.len)
    else DecisiveFields(v.fields, w.fields)
  }

  ghost function DecisiveFields(vs: seq<Value>, ws: seq<Value>): int
    decreases vs
  {
    if |vs| == 0 || |ws| == 0 then 0
    else
      var d := Decisive(vs[0], ws[0]);
      if d != 0 then d else DecisiveFields(vs[1..], ws[1..])
  }

  lemma WrapReduced(d: int)
    ensures Wrap(Reduced(d)) == Wrap(d) && (Wrap(d) == 0 <==> Reduced(d) == 0)
    ensures Reduced(Reduced(d)) == Reduced(d)
  {
    WrapZero(d);
  }

  lemma WrapZero(d: int)
    ensures Wrap(d) == 0 <==> d % (2 * BOXED_HALF) == 0
  {
    var q, r := d / (2 * BOXED_HALF), d % (2 * BOXED_HALF);
    assert d == 2 * BOXED_HALF * q + r;
    if r < BOXED_HALF {
      assert d + BOXED_HALF == 2 * BOXED_HALF * q + (r + BOXED_HALF);
      QuotientUnique(d + BOXED_HALF, q, r + BOXED_HALF);
    } else {
      assert d + BOXED_HALF == 2 * BOXED_HALF * (q + 1) + (r - BOXED_HALF);
      QuotientUnique(d + BOXED_HALF, q + 1, r - BOXED_HALF);
    }
  }

  lemma QuotientUnique(d: int, q: int, r: int)
    requires d == 2 * BOXED_HALF * q + r && 0 <= r < 2 * BOXED_HALF
    ensures d % (2 * BOXED_HALF) == r
  {
  }

  /** Lcompare returns the decisive difference, boxed. */
  lemma {:induction false} CompareDecisive(v: Value, w: Value)
    ensures Compare(v, w) == Wrap(Decisive(v, w)) && (Decisive(v, w) == 0 <==> Compare(v, w) == 0)
    decreases v
  {
    hide Wrap, Reduced;
    WrapSmall();
    if v.Immediate? && w.Immediate? {
      WrapReduced(Number(v.word) - Number(w.word));
      WrapReduced(v.word - w.word);
    } else if v.Text? && w.Text? {
      WrapReduced(StringDifference(CString(v.bytes), CString(w.bytes)));
    } else if v.Node? && w.Node? {
      WrapReduced(ExtraDifference(v.kind, v.extra, w.extra));
      WrapReduced(v.len - w.len);
      CompareFieldsDecisive(v.fields, w.fields);
    }
  }

  lemma {:induction false} CompareFieldsDecisive(vs: seq<Value>, ws: seq<Value>)
    ensures CompareFields(vs, ws) == Wrap(DecisiveFields(vs, ws))
    ensures DecisiveFields(vs, ws) == 0 <==> CompareFields(vs, ws) == 0
    decreases vs
  {
    hide Wrap;
    WrapSmall();
    if |vs| > 0 && |ws| > 0 {
      CompareDecisive(vs[0], ws[0]);
      CompareFieldsDecisive(vs[1..], ws[1..]);
    }
  }

  lemma WrapSmall()
    ensures forall d :: -16 < d < 16 ==> Wrap(d) == d
  {
  }

  /** Nothing is lost before the deciding difference, so the two agree unless that one is lost. */
  lemma {:induction false} DecisiveIsDifference(v: Value, w: Value)
    requires Difference(v, w) == 0 || Reduced(Difference(v, w)) != 0
    ensures Decisive(v, w) == Difference(v, w)
    decreases v
  {
    hide Reduced;
    ReducedZero();
    if v.Node? && w.Node? {
      FieldsDecisive(v.fields, w.fields);
    }
  }

  lemma ReducedZero()
    ensures Reduced(0) == 0 && forall d :: Reduced(d) != 0 ==> Reduced(d) == d
  {
  }

  lemma {:induction false} FieldsDecisive(vs: seq<Value>, ws: seq<Value>)
    ensures FieldDifference(vs, ws) == 0 || Reduced(FieldDifference(vs, ws)) != 0 ==>
              DecisiveFields(vs, ws) == FieldDifference(vs, ws)
    decreases vs
  {
    hide Reduced;
    if |vs| > 0 && |ws| > 0 && (FieldDifference(vs, ws) == 0 || Reduced(FieldDifference(vs, ws)) != 0) {
      DecisiveIsDifference(vs[0], ws[0]);
      FieldsDecisive(vs[1..], ws[1..]);
    }
  }

  function Sign(d: int): int {
    if d < 0 then -1 else if d > 0 then 1 else 0
  }

  /** Whether a decisive difference r orders like the difference d: bit 62 of r becomes the sign. */
  predicate OrdersLike(r: int, d: int) {
    if r == 0 then d == 0
    else if r % (2 * BOXED_HALF) < BOXED_HALF then d > 0
    else d < 0
  }

  /** Lcompare orders two values as their exact difference does if and only if the decisive difference meets
      OrdersLike. Where the difference itself is not lost, it is the decisive one. */
  lemma CompareSignExact(v: Value, w: Value)
    ensures Sign(Compare(v, w)) == Sign(Difference(v, w)) <==> OrdersLike(Decisive(v, w), Difference(v, w))
    ensures Difference(v, w) == 0 || Reduced(Difference(v, w)) != 0 ==> Decisive(v, w) == Difference(v, w)
  {
    hide Wrap, Compare, Difference, Decisive;
    CompareDecisive(v, w);
    WrapSign(Decisive(v, w));
    if Difference(v, w) == 0 || Reduced(Difference(v, w)) != 0 {
      DecisiveIsDifference(v, w);
    }
  }

  lemma WrapSign(r: int)
    ensures Wrap(r) < 0 <==> r % (2 * BOXED_HALF) >= BOXED_HALF
    ensures Wrap(r) == 0 <==> r % (2 * BOXED_HALF) == 0
  {
    WrapZero(r);
    var q, t := r / (2 * BOXED_HALF), r % (2 * BOXED_HALF);
    assert r == 2 * BOXED_HALF * q + t;
    if t < BOXED_HALF {
      QuotientUnique(r + BOXED_HALF, q, t + BOXED_HALF);
    } else {
      QuotientUnique(r + BOXED_HALF, q + 1, t - BOXED_HALF);
    }
  }

  /** Equal but for bit 63 of code words, tags and foreign words. A difference in that bit of a code word or tag hides
      the lengths and fields as well. */
  ghost predicate Alike(v: Value, w: Value)
    decreases v
  {
    match v
    case Immediate(x) =>
      w.Immediate? && if Unboxed(x) then x == w.word else !Unboxed(w.word) && (x - w.word) % (2 * BOXED_HALF) == 0
    case Cut => w.Cut?
    case Text(bytes) => w.Text? && CString(bytes) == CString(w.bytes)
    case Node(k, len, extra, fields) =>
      w.Node? && k == w.kind &&
      if extra != w.extra then ExtraDifference(k, extra, w.extra) % (2 * BOXED_HALF) == 0
      else len == w.len && AlikeFields(fields, w.fields)
  }

  ghost predicate AlikeFields(vs: seq<Value>, ws: seq<Value>)
    decreases vs
  {
    |vs| == |ws| && (|vs| > 0 ==> Alike(vs[0], ws[0]) && AlikeFields(vs[1..], ws[1..]))
  }

  /** Bytes and lengths in the ranges of a heap. */
  ghost predicate Sized(v: Value)
    decreases v
  {
    match v
    case Text(bytes) => forall i :: 0 <= i < |bytes| ==> bytes[i] < 256
    case Node(_, len, _, fields) => len < BOXED_HALF && forall f :: f in fields ==> Sized(f)
    case _ => true
  }

  /** Every value of a heap meets this bound. */
  lemma {:induction false} HeapValueSized(s: Snapshot, d: nat, v: Word)
    ensures Sized(ValueOf(s, d, v))
    decreases d
  {
    hide HeaderAt;
    if s.InRange(v) && d > 0 {
      var o := s.Target(v);
      var h := s.Header(o);
      if ValidHeader(h) && !KindOf(h).STRING? {
        forall i | 0 <= i < FieldCount(s, o)
          ensures Sized(ValueOf(s, d - 1, FieldWord(s, o, i)))
        {
          HeapValueSized(s, d - 1, FieldWord(s, o, i));
        }
      }
    }
  }

  /** Lcompare yields boxed zero exactly on alike values. */
  lemma {:induction false} CompareZeroExact(v: Value, w: Value)
    requires Proper(v) && Proper(w) && Sized(v) && Sized(w)
    ensures Compare(v, w) == 0 <==> Alike(v, w)
    decreases v
  {
    hide Wrap;
    if v.Immediate? && w.Immediate? {
      ImmediateAlike(v.word, w.word);
    } else if v.Text? && w.Text? {
      TextAlike(v.bytes, w.bytes);
    } else if v.Node? && w.Node? {
      WrapSmall();
      WrapZero(ExtraDifference(v.kind, v.extra, w.extra));
      WrapZero(v.len - w.len);
      if v.len == w.len && v.kind == w.kind {
        CompareFieldsZeroExact(v.fields, w.fields);
      }
    }
  }

  lemma ImmediateAlike(x: Word, y: Word)
    ensures Compare(Immediate(x), Immediate(y)) == 0 <==> Alike(Immediate(x), Immediate(y))
  {
    WrapZero(Number(x) - Number(y));
    WrapZero(x - y);
    NumberInjective(x, y);
  }

  lemma TextAlike(a: seq<nat>, b: seq<nat>)
    requires Sized(Text(a)) && Sized(Text(b))
    ensures Compare(Text(a), Text(b)) == 0 <==> CString(a) == CString(b)
  {
    SmallCString(a);
    SmallCString(b);
    SmallString(CString(a), CString(b));
    CStringNoZero(a);
    CStringNoZero(b);
    StringZero(CString(a), CString(b));
  }

  lemma {:induction false} CompareFieldsZeroExact(vs: seq<Value>, ws: seq<Value>)
    requires AllProper(vs) && AllProper(ws) && |vs| == |ws|
    requires (forall f :: f in vs ==> Sized(f)) && (forall f :: f in ws ==> Sized(f))
    ensures CompareFields(vs, ws) == 0 <==> AlikeFields(vs, ws)
    decreases vs
  {
    if |vs| > 0 {
      ProperTail(vs);
      ProperTail(ws);
      CompareZeroExact(vs[0], ws[0]);
      CompareFieldsZeroExact(vs[1..], ws[1..]);
    }
  }

  /** Where Lcompare comes to compare two code words, two tags or two foreign words, they agree in bit 63. */
  ghost predicate TopBitsAgree(v: Value, w: Value)
    decreases v
  {
    match v
    case Immediate(x) => w.Immediate? && !Unboxed(x) && !Unboxed(w.word) ==> SameTopBit(x, w.word)
    case Node(k, _, extra, fields) =>
      w.Node? && k == w.kind ==> (k.ARRAY? || SameTopBit(extra, w.extra)) && FieldTopBitsAgree(fields, w.fields)
    case _ => true
  }

  ghost predicate FieldTopBitsAgree(vs: seq<Value>, ws: seq<Value>)
    decreases vs
  {
    |vs| > 0 && |ws| > 0 ==> TopBitsAgree(vs[0], ws[0]) && FieldTopBitsAgree(vs[1..], ws[1..])
  }

  predicate SameTopBit(x: Word, y: Word) {
    x < 2 * BOXED_HALF <==> y < 2 * BOXED_HALF
  }

  /** Words a multiple of 2^63 apart are equal or differ in bit 63. */
  lemma TopBitDecides(d: int)
    requires d % (2 * BOXED_HALF) == 0 && -2 * BOXED_HALF < d < 2 * BOXED_HALF
    ensures d == 0
  {
  }

  /** Of alike values, exactly those whose top bits agree are equal. */
  lemma {:induction false} AlikeExact(v: Value, w: Value)
    requires Proper(v) && Proper(w) && Alike(v, w)
    ensures Same(v, w) <==> TopBitsAgree(v, w)
    decreases v
  {
    if v.Immediate? && SameTopBit(v.word, w.word) && !Unboxed(v.word) {
      TopBitDecides(v.word - w.word);
    } else if v.Node? && v.extra == w.extra {
      AlikeFieldsExact(v.fields, w.fields);
    } else if v.Node? && SameTopBit(v.extra, w.extra) {
      TopBitDecides(ExtraDifference(v.kind, v.extra, w.extra));
    }
  }

  lemma {:induction false} AlikeFieldsExact(vs: seq<Value>, ws: seq<Value>)
    requires AllProper(vs) && AllProper(ws) && AlikeFields(vs, ws)
    ensures SameFields(vs, ws) <==> FieldTopBitsAgree(vs, ws)
    decreases vs
  {
    if |vs| > 0 {
      ProperTail(vs);
      ProperTail(ws);
      AlikeExact(vs[0], ws[0]);
      AlikeFieldsExact(vs[1..], ws[1..]);
    }
  }

  lemma {:induction false} SameIsAlike(v: Value, w: Value)
    requires Proper(v) && Same(v, w)
    ensures Alike(v, w)
    decreases v
  {
    if v.Node? {
      SameFieldsAreAlike(v.fields, w.fields);
    }
  }

  lemma {:induction false} SameFieldsAreAlike(vs: seq<Value>, ws: seq<Value>)
    requires AllProper(vs) && SameFields(vs, ws)
    ensures AlikeFields(vs, ws)
    decreases vs
  {
    if |vs| > 0 {
      ProperTail(vs);
      SameIsAlike(vs[0], ws[0]);
      SameFieldsAreAlike(vs[1..], ws[1..]);
    }
  }

  /** Values are structurally equal if and only if Lcompare yields boxed zero and the top bits it compares agree. */
  lemma EqualExact(v: Value, w: Value)
    requires Proper(v) && Proper(w) && Sized(v) && Sized(w)
    ensures Same(v, w) <==> Compare(v, w) == 0 && TopBitsAgree(v, w)
  {
    CompareZeroExact(v, w);
    if Same(v, w) {
      SameIsAlike(v, w);
    }
    if Alike(v, w) {
      AlikeExact(v, w);
    }
  }

  /** A bound on one value under which top bits never matter: code words and foreign words below 2^63, tags of 63
      bits. Compiled code narrows tags to 32 bits, and tag hashes are below 2^60. */
  ghost predicate Bounded(v: Value)
    decreases v
  {
    match v
    case Immediate(w) => Unboxed(w) || w < 2 * BOXED_HALF
    case Node(k, _, extra, fields) =>
      && (k.SEXP? ==> -BOXED_HALF <= Signed(extra) < BOXED_HALF)
      && (k.CLOSURE? ==> extra < 2 * BOXED_HALF)
      && forall f :: f in fields ==> Bounded(f)
    case _ => true
  }

  lemma {:induction false} BoundedAgree(v: Value, w: Value)
    requires Proper(v) && Proper(w) && Bounded(v) && Bounded(w) && Alike(v, w)
    ensures TopBitsAgree(v, w)
    decreases v
  {
    if v.Node? {
      TopBitDecides(ExtraDifference(v.kind, v.extra, w.extra));
      BoundedFieldsAgree(v.fields, w.fields);
    }
  }

  lemma {:induction false} BoundedFieldsAgree(vs: seq<Value>, ws: seq<Value>)
    requires AllProper(vs) && AllProper(ws) && AlikeFields(vs, ws)
    requires (forall f :: f in vs ==> Bounded(f)) && (forall f :: f in ws ==> Bounded(f))
    ensures FieldTopBitsAgree(vs, ws)
    decreases vs
  {
    if |vs| > 0 {
      ProperTail(vs);
      ProperTail(ws);
      BoundedAgree(vs[0], ws[0]);
      BoundedFieldsAgree(vs[1..], ws[1..]);
    }
  }

  /** On bounded values Lcompare yields boxed zero exactly for structural equality. */
  lemma BoundedZero(v: Value, w: Value)
    requires Proper(v) && Proper(w) && Sized(v) && Sized(w) && Bounded(v) && Bounded(w)
    ensures Compare(v, w) == 0 <==> Same(v, w)
  {
    EqualExact(v, w);
    if Compare(v, w) == 0 {
      CompareZeroExact(v, w);
      BoundedAgree(v, w);
    }
  }

  /** Integers and tags of 62 bits, addresses below 2^62: a bound on every word of one value. */
  ghost predicate Modest(v: Value)
    decreases v
  {
    match v
    case Immediate(w) => if Unboxed(w) then -BOXED_HALF / 2 <= Number(w) < BOXED_HALF / 2 else w < BOXED_HALF
    case Cut => true
    case Text(bytes) => forall i :: 0 <= i < |bytes| ==> bytes[i] < 256
    case Node(k, len, extra, fields) =>
      && len < BOXED_HALF
      && (if k.SEXP? then -BOXED_HALF / 2 <= Signed(extra) < BOXED_HALF / 2 else extra < BOXED_HALF)
      && forall f :: f in fields ==> Modest(f)
  }

  /** Differences of modest values survive boxing. */
  lemma {:induction false} ModestDifference(v: Value, w: Value)
    requires Modest(v) && Modest(w)
    ensures -BOXED_HALF < Difference(v, w) < BOXED_HALF
    decreases v
  {
    if v.Text? && w.Text? {
      SmallCString(v.bytes);
      SmallCString(w.bytes);
      SmallString(CString(v.bytes), CString(w.bytes));
    }
    if v.Node? && w.Node? {
      ModestFields(v.fields, w.fields);
    }
  }

  lemma {:induction false} ModestFields(vs: seq<Value>, ws: seq<Value>)
    requires (forall f :: f in vs ==> Modest(f)) && (forall f :: f in ws ==> Modest(f))
    ensures -BOXED_HALF < FieldDifference(vs, ws) < BOXED_HALF
    decreases vs
  {
    if |vs| > 0 && |ws| > 0 {
      ModestDifference(vs[0], ws[0]);
      ModestFields(vs[1..], ws[1..]);
    }
  }

  /** On modest values Lcompare is a total preorder whose equality is structural equality. */
  lemma ModestPreorder(u: Value, v: Value, w: Value)
    requires Proper(u) && Proper(v) && Proper(w) && Modest(u) && Modest(v) && Modest(w)
    ensures Compare(v, u) == -Compare(u, v)
    ensures Compare(u, v) <= 0 && Compare(v, w) <= 0 ==> Compare(u, w) <= 0
    ensures Compare(u, v) == 0 <==> Same(u, v)
  {
    ModestDifference(u, v);
    ModestDifference(v, w);
    ModestDifference(u, w);
    ComparePreorder(u, v, w);
  }

  const LOW_CLOSURE := Node(CLOSURE, 1, 16, [])
  const HIGH_CLOSURE := Node(CLOSURE, 2, 0x8000_0000_0000_0010, [Immediate(1)])

  /** Two closures whose code words differ in bit 63 compare as equal, whatever they captured. */
  lemma FarCodeWordsCollide()
    ensures var v, w := LOW_CLOSURE, HIGH_CLOSURE;
            Proper(v) && Proper(w) && Compare(v, w) == 0 && !Same(v, w) && Alike(v, w) && !TopBitsAgree(v, w)
  {
    assert Wrap(-0x8000_0000_0000_0000) == 0;
  }

  /** Two integers that are far apart compare the wrong way round. */
  lemma FarIntegersSwap()
    ensures var v, w := Immediate(0x7FFF_FFFF_FFFF_FFFF), Immediate(0x8000_0000_0000_0001);
            Difference(v, w) > 0 && Compare(v, w) < 0
  {
  }
}
