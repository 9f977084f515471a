/** The operators as compiled: unbox both operands in place, one or two instructions, box again. They are
    compared with the functions of the runtime. */
module Operators {
  import opened Rv64
  import opened Bytecode
  import opened Lowering
  import TagHash

  /** What the emitted operator lines compute from unboxed operands. */
  function Operate(op: BinopKind, a: Int64, b: Int64): Int64 {
    match op
    case Plus => Compute(Add, a, b)
    case Minus => Compute(Sub, a, b)
    case Times => Compute(Mul, a, b)
    case Divide => Compute(Div, a, b)
    case Modulo => Compute(Rem, a, b)
    case LessThan => Compute(Slt, a, b)
    case LessEqual => ComputeImm(Xori, Compute(Sgt, a, b), 1)
    case GreaterThan => Compute(Sgt, a, b)
    case GreaterEqual => ComputeImm(Xori, Compute(Slt, a, b), 1)
    case Equal => if Compute(Sub, b, a) == 0 then 1 else 0
    case NotEqual => if Compute(Sub, b, a) != 0 then 1 else 0
    case Both => Compute(And, a, b)
    case Either => Compute(Or, a, b)
  }

  /** The word left in the slot of the first operand. */
  function CompiledValue(op: BinopKind, x: Int64, y: Int64): Int64 {
    ComputeImm(Addi, ComputeImm(Slli, Operate(op, ComputeImm(Srai, x, 1), ComputeImm(Srai, y, 1)), 1), 1)
  }

  /** Where compiled and runtime operators agree: always, except that && and !! are compiled to bitwise
      operations. */
  predicate Agrees(op: BinopKind, a: int, b: int) {
    match op
    case Both => a == 0 || b == 0 || (a % 2 == 1 && b % 2 == 1 && BitAnd(a / 2, b / 2) == 0)
    case Either => (a == 0 || a == 1) && (b == 0 || b == 1)
    case _ => true
  }

  /** The same for any words the runtime's function accepts, which may be pointers in `==` and `-`: `==` ignores their
      lowest bits when compiled, and `-` halves the distance of two pointers. */
  predicate WordsAgree(op: BinopKind, x: Int64, y: Int64) {
    if IsUnboxed(x) && IsUnboxed(y) then Agrees(op, Unbox(x), Unbox(y))
    else x == y || (op.Equal? && x / 2 != y / 2)
  }

  lemma Shifts(x: Int64)
    ensures ComputeImm(Srai, x, 1) == Unbox(x)
    ensures ComputeImm(Addi, ComputeImm(Slli, x, 1), 1) == Box(x)
  {
    assert TwoTo(1) == 2 * TwoTo(0) == 2;
    WrapEarly(2 * x, 1);
  }

  /** Boxing loses nothing on 63-bit numbers. */
  lemma BoxInjective(m: int, n: int)
    requires -HALF / 2 <= m < HALF / 2 && -HALF / 2 <= n < HALF / 2
    ensures Box(m) == Box(n) <==> m == n
    ensures IsUnboxed(Box(m)) && Unbox(Box(m)) == m
  {
  }

  lemma BoxWrap(n: int)
    ensures Box(Wrap(n)) == Box(n)
  {
    WrapEarly(n, 1);
  }

  lemma {:induction false} BitsBounded(a: int, b: int, k: nat)
    requires 0 <= a + TwoTo(k) < 2 * TwoTo(k) && 0 <= b + TwoTo(k) < 2 * TwoTo(k)
    ensures 0 <= BitAnd(a, b) + TwoTo(k) < 2 * TwoTo(k)
    ensures 0 <= BitOr(a, b) + TwoTo(k) < 2 * TwoTo(k)
    decreases k
  {
    if a != 0 && a != -1 {
      BitsBounded(a / 2, b / 2, k - 1);
    }
  }

  lemma {:induction false} OrSmall(a: int, b: int)
    ensures (BitOr(a, b) == 0 <==> a == 0 && b == 0) && (BitOr(a, b) == 1 ==> Agrees(Either, a, b))
    decreases Magnitude(a)
  {
    if a != 0 && a != -1 {
      OrSmall(a / 2, b / 2);
    }
  }

  lemma {:induction false} AndZero(a: int, b: int)
    requires a == 0 || b == 0
    ensures BitAnd(a, b) == 0
    decreases Magnitude(a)
  {
    if a != 0 && a != -1 {
      AndZero(a / 2, b / 2);
    }
  }

  lemma PowersOfTwo()
    ensures TwoTo(62) == HALF / 2
  {
    assert TwoTo(8) == 256;
    assert TwoTo(16) == 65536;
    assert TwoTo(24) == 0x100_0000;
    assert TwoTo(32) == 0x1_0000_0000;
    assert TwoTo(40) == 0x100_0000_0000;
    assert TwoTo(48) == 0x1_0000_0000_0000;
    assert TwoTo(56) == 0x100_0000_0000_0000;
    assert TwoTo(62) == 0x4000_0000_0000_0000;
  }

  lemma AndOne(a: int, b: int)
    requires a != 0 && b != 0
    ensures BitAnd(a, b) == 1 <==> Agrees(Both, a, b)
  {
    if a == -1 {
      assert a / 2 == -1;
    }
  }

  lemma AndExact(a: int, b: int)
    requires -HALF / 2 <= a < HALF / 2 && -HALF / 2 <= b < HALF / 2
    ensures Box(Wrap(BitAnd(a, b))) == Box(Truth(a != 0 && b != 0)) <==> Agrees(Both, a, b)
  {
    hide Wrap, Box, BitAnd, Agrees;
    PowersOfTwo();
    BitsBounded(a, b, 62);
    BoxInjective(BitAnd(a, b), Truth(a != 0 && b != 0));
    if a == 0 || b == 0 {
      AndZero(a, b);
      ZeroAgrees(a, b);
    } else {
      AndOne(a, b);
    }
  }

  lemma ZeroAgrees(a: int, b: int)
    requires a == 0 || b == 0
    ensures Agrees(Both, a, b)
  {
  }

  lemma OrOfBits(a: int, b: int)
    requires Agrees(Either, a, b)
    ensures BitOr(a, b) == Truth(a != 0 || b != 0)
  {
    assert BitOr(1, 0) == 2 * BitOr(0, 0) + 1 == 1;
    assert BitOr(1, 1) == 2 * BitOr(0, 0) + 1 == 1;
  }

  lemma OrExact(a: int, b: int)
    requires -HALF / 2 <= a < HALF / 2 && -HALF / 2 <= b < HALF / 2
    ensures Box(Wrap(BitOr(a, b))) == Box(Truth(a != 0 || b != 0)) <==> Agrees(Either, a, b)
  {
    hide Wrap, BitOr, Box;
    PowersOfTwo();
    BitsBounded(a, b, 62);
    BoxInjective(BitOr(a, b), Truth(a != 0 || b != 0));
    OrSmall(a, b);
    if Agrees(Either, a, b) {
      OrOfBits(a, b);
    }
  }

  lemma ComparisonExact(op: BinopKind, a: int, b: int)
    requires -HALF / 2 <= a < HALF / 2 && -HALF / 2 <= b < HALF / 2
    requires op.LessEqual? || op.GreaterEqual? || op.Equal? || op.NotEqual?
    ensures op.LessEqual? ==> Operate(op, a, b) == Truth(a <= b)
    ensures op.GreaterEqual? ==> Operate(op, a, b) == Truth(a >= b)
    ensures op.Equal? ==> Operate(op, a, b) == Truth(a == b)
    ensures op.NotEqual? ==> Operate(op, a, b) == Truth(a != b)
  {
    assert BitXor(0, 1) == 2 * BitXor(0, 0) + 1 == 1;
    assert BitXor(1, 1) == 2 * BitXor(0, 0) == 0;
  }

  lemma QuotientExact(op: BinopKind, a: int, b: int)
    requires -HALF / 2 <= a < HALF / 2 && -HALF / 2 <= b < HALF / 2 && b != 0
    ensures Box(Compute(Div, a, b)) == Box(TruncatedQuotient(a, b))
    ensures Box(Compute(Rem, a, b)) == Box(TruncatedRemainder(a, b))
  {
    BoxWrap(TruncatedQuotient(a, b));
    BoxWrap(TruncatedRemainder(a, b));
  }

  lemma SameNumber(x: Int64, y: Int64)
    requires IsUnboxed(x) && IsUnboxed(y)
    ensures x == y <==> Unbox(x) == Unbox(y)
  {
  }

  lemma OperateExact(op: BinopKind, a: int, b: int)
    requires -HALF / 2 <= a < HALF / 2 && -HALF / 2 <= b < HALF / 2
    requires op.Divide? || op.Modulo? ==> b != 0
    ensures Box(Operate(op, a, b)) == Box(Meaning(op, a, b)) <==> Agrees(op, a, b)
  {
    hide Wrap, BitAnd, BitOr, BitXor, TruncatedQuotient, TruncatedRemainder;
    match op
    case Plus => BoxWrap(a + b);
    case Minus => BoxWrap(a - b);
    case Times => BoxWrap(a * b);
    case Divide => QuotientExact(op, a, b);
    case Modulo => QuotientExact(op, a, b);
    case Both => AndExact(a, b);
    case Either => OrExact(a, b);
    case LessThan =>
    case GreaterThan =>
    case _ => ComparisonExact(op, a, b);
  }

  lemma UnboxedExact(op: BinopKind, x: Int64, y: Int64)
    requires IsUnboxed(x) && IsUnboxed(y) && Infix(op, x, y).Some?
    ensures CompiledValue(op, x, y) == Infix(op, x, y).value <==> Agrees(op, Unbox(x), Unbox(y))
  {
    hide Wrap, Compute, ComputeImm, Operate, BitAnd, BitOr, TruncatedQuotient, TruncatedRemainder, Agrees;
    var a, b := Unbox(x), Unbox(y);
    Shifts(x);
    Shifts(y);
    Shifts(Operate(op, a, b));
    SameNumber(x, y);
    OperateExact(op, a, b);
  }

  /** Compiled equality compares words without their lowest bits. */
  lemma EqualExact(x: Int64, y: Int64)
    ensures CompiledValue(Equal, x, y) == Infix(Equal, x, y).value <==> x == y || x / 2 != y / 2
  {
    hide ComputeImm, Box;
    Shifts(x);
    Shifts(y);
    Shifts(Operate(Equal, Unbox(x), Unbox(y)));
    BoxInjective(Operate(Equal, Unbox(x), Unbox(y)), Truth(x == y));
  }

  /** The compiled distance of two pointers is half the runtime's. */
  lemma DistanceExact(x: Int64, y: Int64)
    requires !IsUnboxed(x) && !IsUnboxed(y)
    ensures CompiledValue(Minus, x, y) == Infix(Minus, x, y).value <==> x == y
  {
    hide ComputeImm;
    var d := Unbox(x) - Unbox(y);
    Shifts(x);
    Shifts(y);
    Shifts(Operate(Minus, Unbox(x), Unbox(y)));
    assert x - y == 2 * d && Operate(Minus, Unbox(x), Unbox(y)) == Wrap(d) == d;
    DistinctBoxes(d);
  }

  lemma DistinctBoxes(d: int)
    requires -HALF < d < HALF
    ensures Box(d) == Box(Wrap(2 * d)) <==> d == 0
  {
  }

  /** The compiled operator yields the word of the runtime's function if and only if the operands meet WordsAgree: on
      unboxed operands every arithmetic operator and comparison always does. */
  lemma BinopExact(op: BinopKind, x: Int64, y: Int64)
    requires Infix(op, x, y).Some?
    ensures CompiledValue(op, x, y) == Infix(op, x, y).value <==> WordsAgree(op, x, y)
  {
    hide CompiledValue, Box, Wrap, Meaning, Agrees;
    if IsUnboxed(x) && IsUnboxed(y) {
      UnboxedExact(op, x, y);
    } else if op.Equal? {
      EqualExact(x, y);
    } else {
      DistanceExact(x, y);
    }
  }

  /** Quotient and remainder as C defines them: they make up the dividend, and the remainder is smaller than the divisor
      and has the dividend's sign. */
  predicate Divides(a: int, b: int, q: int, r: int) {
    a == b * q + r && Magnitude(r) < Magnitude(b) && (r == 0 || (r < 0 <==> a < 0))
  }

  lemma TruncationDivides(a: int, b: int)
    requires b != 0
    ensures Divides(a, b, TruncatedQuotient(a, b), TruncatedRemainder(a, b))
  {
    var m, n := Magnitude(a), Magnitude(b);
    Remainders(m, n);
    SignedProducts(b, m / n);
  }

  lemma Remainders(m: nat, n: nat)
    requires n > 0
    ensures m == n * (m / n) + m % n && m % n < n
  {
  }

  lemma SignedProducts(b: int, q: int)
    ensures b * q == (if b < 0 then -(Magnitude(b) * q) else Magnitude(b) * q)
    ensures b * -q == (if b < 0 then Magnitude(b) * q else -(Magnitude(b) * q))
  {
  }

  /** No other numbers do so. */
  lemma DivisionUnique(a: int, b: int, q: int, r: int, q': int, r': int)
    requires Divides(a, b, q, r) && Divides(a, b, q', r')
    ensures q == q' && r == r'
  {
    assert b * (q - q') == r' - r && b * (q' - q) == r - r';
    if q > q' {
      MultipleIsLarge(b, q - q');
    } else if q < q' {
      MultipleIsLarge(b, q' - q);
    }
  }

  lemma MultipleIsLarge(b: int, k: int)
    requires k > 0
    ensures Magnitude(b * k) >= Magnitude(b)
  {
    if b >= 0 {
      assert b * k >= b;
    } else {
      assert -b * k >= -b;
    }
  }

  /** Division of boxed numbers, by the runtime and as compiled, is the division of C. */
  lemma DivisionExact(a: int, b: int, q: int, r: int)
    requires -HALF / 2 <= a < HALF / 2 && -HALF / 2 <= b < HALF / 2 && b != 0 && Divides(a, b, q, r)
    ensures Infix(Divide, Box(a), Box(b)) == Some(Box(q)) && CompiledValue(Divide, Box(a), Box(b)) == Box(q)
    ensures Infix(Modulo, Box(a), Box(b)) == Some(Box(r)) && CompiledValue(Modulo, Box(a), Box(b)) == Box(r)
  {
    hide CompiledValue, Divides, TruncatedQuotient, TruncatedRemainder, Wrap;
    TruncationDivides(a, b);
    DivisionUnique(a, b, q, r, TruncatedQuotient(a, b), TruncatedRemainder(a, b));
    Boxed(a);
    Boxed(b);
    BinopExact(Divide, Box(a), Box(b));
    BinopExact(Modulo, Box(a), Box(b));
  }

  lemma Boxed(a: int)
    requires -HALF / 2 <= a < HALF / 2
    ensures IsUnboxed(Box(a)) && Unbox(Box(a)) == a
  {
  }

  /** What the runtime's functions yield on boxed numbers, up to the wrap-around of 63 bits. */
  lemma InfixExact(a: int, b: int)
    requires -HALF / 2 <= a < HALF / 2 && -HALF / 2 <= b < HALF / 2
    ensures Infix(Plus, Box(a), Box(b)) == Some(Box(a + b)) && Infix(Minus, Box(a), Box(b)) == Some(Box(a - b))
    ensures Infix(Times, Box(a), Box(b)) == Some(Box(a * b))
    ensures Infix(LessThan, Box(a), Box(b)) == Some(if a < b then 3 else 1)
    ensures Infix(LessEqual, Box(a), Box(b)) == Some(if a <= b then 3 else 1)
    ensures Infix(GreaterThan, Box(a), Box(b)) == Some(if a > b then 3 else 1)
    ensures Infix(GreaterEqual, Box(a), Box(b)) == Some(if a >= b then 3 else 1)
    ensures Infix(Equal, Box(a), Box(b)) == Some(if a == b then 3 else 1)
    ensures Infix(NotEqual, Box(a), Box(b)) == Some(if a == b then 1 else 3)
    ensures Infix(Both, Box(a), Box(b)) == Some(if a == 0 || b == 0 then 1 else 3)
    ensures Infix(Either, Box(a), Box(b)) == Some(if a == 0 && b == 0 then 1 else 3)
    ensures Infix(Divide, Box(a), Box(0)) == None && Infix(Modulo, Box(a), Box(0)) == None
  {
    Boxed(a);
    Boxed(b);
    Boxed(0);
    assert Box(0) == 1 && Box(1) == 3;
    BoxInjective(a, b);
  }

  /** Pointers can be compared for equality and, both of them, subtracted; every other operator asks for numbers. */
  lemma InfixOnPointers(op: BinopKind, x: Int64, y: Int64)
    requires x % 2 == 0 || y % 2 == 0
    ensures op.Equal? ==> Infix(op, x, y) == Some(if x == y then 3 else 1)
    ensures op.Minus? && x % 2 == y % 2 ==> Infix(op, x, y) == Some(Box(x - y))
    ensures !op.Equal? && !(op.Minus? && x % 2 == y % 2) ==> Infix(op, x, y) == None
  {
    hide Meaning;
    assert Box(0) == 1 && Box(1) == 3;
    BoxWrap(x - y);
  }

  /** The runtime's && and !! hold on the truth values that comparisons produce. */
  lemma TruthValuesAgree(op: BinopKind, p: bool, q: bool)
    ensures Agrees(op, Truth(p), Truth(q))
  {
    assert BitAnd(0, 0) == 0;
  }

  /** Both operands are true, yet their bitwise `and` is zero. */
  lemma BothDiffers()
    ensures var x, y := Box(1), Box(2);
            Infix(Both, x, y) == Some(Box(1)) && CompiledValue(Both, x, y) == Box(0)
  {
    Shifts(Box(1));
    Shifts(Box(2));
    assert BitAnd(1, 2) == 2 * BitAnd(0, 1) == 0;
    Shifts(0);
  }

  /** One operand is true, yet their bitwise `or` is three. */
  lemma EitherDiffers()
    ensures var x, y := Box(1), Box(2);
            Infix(Either, x, y) == Some(Box(1)) && CompiledValue(Either, x, y) == Box(3)
  {
    Shifts(Box(1));
    Shifts(Box(2));
    assert BitOr(0, 1) == 2 * BitOr(0, 0) + 1 == 1;
    assert BitOr(1, 2) == 2 * BitOr(0, 1) + 1 == 3;
    Shifts(3);
  }

  /** Two different words, one of them a pointer, that are equal when compiled. */
  lemma EqualDiffers()
    ensures Infix(Equal, 16, 17) == Some(Box(0)) && CompiledValue(Equal, 16, 17) == Box(1)
  {
    Shifts(16);
    Shifts(17);
    Shifts(1);
  }

  /** A constant is narrowed to 32 bits after boxing; it keeps its value exactly in the 31-bit range. */
  lemma ConstExact(v: int)
    requires -0x8000_0000 <= v < 0x8000_0000
    ensures Wrap(Narrow(2 * v + 1)) == Box(v) <==> -0x4000_0000 <= v < 0x4000_0000
  {
    assert -0x1_0000_0000 <= 2 * v + 1 < 0x1_0000_0000;
  }

  /** The boxed hash of a tag is narrowed likewise. The word keeps the hash if that has 30 bits, as with five characters
      it has, and two tags get the same word exactly when their hashes agree in the lowest 31 bits. */
  lemma TagWordExact(s: string, t: string)
    requires TagHash.Hashable(s) && TagHash.Hashable(t)
    ensures var m, n := TagHash.Number(TagHash.Prefix(s)), TagHash.Number(TagHash.Prefix(t));
            && (Wrap(Narrow(2 * m + 1)) == Box(m) <==> m < 0x4000_0000)
            && (Narrow(2 * m + 1) == Narrow(2 * n + 1) <==> m % 0x8000_0000 == n % 0x8000_0000)
    ensures |s| <= 5 ==> TagHash.Number(TagHash.Prefix(s)) < 0x4000_0000
  {
    hide TagHash.Number;
    TagHash.NumberIsSmall(s);
    NarrowExact(TagHash.Number(TagHash.Prefix(s)), TagHash.Number(TagHash.Prefix(t)));
    if |s| <= 5 {
      TagHash.NumberBound(s);
      TagHash.PowerMonotone(|s|, 5);
      assert TagHash.Power64(2) == 0x1000;
      assert TagHash.Power64(5) == 64 * 64 * 64 * TagHash.Power64(2);
    }
  }

  lemma NarrowExact(m: nat, n: nat)
    ensures Narrow(2 * m + 1) == Narrow(2 * n + 1) <==> m % 0x8000_0000 == n % 0x8000_0000
  {
    Remainder(m);
    Remainder(n);
  }

  lemma Remainder(m: nat)
    ensures (2 * m + 1 + 0x8000_0000) % 0x1_0000_0000 == (2 * (m % 0x8000_0000) + 1 + 0x8000_0000) % 0x1_0000_0000
  {
    var q, r := m / 0x8000_0000, m % 0x8000_0000;
    assert m == 0x8000_0000 * q + r;
    assert 2 * m + 1 + 0x8000_0000 == 0x1_0000_0000 * q + (2 * r + 1 + 0x8000_0000);
  }

  /** Two tags that the runtime tells apart and compiled code does not. */
  lemma ErrorTagsCollide()
    ensures TagHash.Hashable("TypeError") && TagHash.Hashable("NameError")
    ensures TagHash.Number("TypeError") != TagHash.Number("NameError")
    ensures Narrow(2 * TagHash.Number("TypeError") + 1) == Narrow(2 * TagHash.Number("NameError") + 1)
  {
    hide TagHash.Number, Narrow;
    TypeErrorNumber();
    NameErrorNumber();
    NarrowExact(TagHash.Number("TypeError"), TagHash.Number("NameError"));
  }

  lemma TypeErrorNumber()
    ensures TagHash.InAlphabet("TypeError") && TagHash.Number("TypeError") == 0x2e65015f4923d2
  {
    hide TagHash.Number, TagHash.InAlphabet;
    NoCharacters();
    Spelled("", 'T', 46, "T");
    Spelled("T", 'y', 25, "Ty");
    Spelled("Ty", 'p', 16, "Typ");
    Spelled("Typ", 'e', 5, "Type");
    Spelled("Type", 'E', 31, "TypeE");
    Spelled("TypeE", 'r', 18, "TypeEr");
    Spelled("TypeEr", 'r', 18, "TypeErr");
    Spelled("TypeErr", 'o', 15, "TypeErro");
    Spelled("TypeErro", 'r', 18, "TypeError");
  }

  lemma NameErrorNumber()
    ensures TagHash.InAlphabet("NameError") && TagHash.Number("NameError") == 0x2804d15f4923d2
  {
    hide TagHash.Number, TagHash.InAlphabet;
    NoCharacters();
    Spelled("", 'N', 40, "N");
    Spelled("N", 'a', 1, "Na");
    Spelled("Na", 'm', 13, "Nam");
    Spelled("Nam", 'e', 5, "Name");
    Spelled("Name", 'E', 31, "NameE");
    Spelled("NameE", 'r', 18, "NameEr");
    Spelled("NameEr", 'r', 18, "NameErr");
    Spelled("NameErr", 'o', 15, "NameErro");
    Spelled("NameErro", 'r', 18, "NameError");
  }

  lemma NoCharacters()
    ensures TagHash.InAlphabet("") && TagHash.Number("") == 0
  {
  }

  lemma Spelled(s: string, c: char, n: nat, t: string)
    requires TagHash.InAlphabet(s) && n < TagHash.ALPHABET_SIZE && TagHash.CharAt(n) == c && t == s + [c]
    ensures TagHash.InAlphabet(t) && TagHash.Number(t) == 64 * TagHash.Number(s) + n
  {
    TagHash.NumberOfLonger(s, c, n);
  }
}
