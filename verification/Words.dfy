/** Machine words of the runtime, and the two flag bits that share a word with a
    forwarding address. A word is an unsigned 64-bit value; `w & 1`, `w & 2` and
    `w & ~3` are written as arithmetic on the two low bits. */
module Words {

  const MODULUS: int := 0x1_0000_0000_0000_0000

  type Word = w: int | 0 <= w < MODULUS

  /** An odd word is an unboxed integer; an even one may be a pointer. */
  predicate Unboxed(w: Word) {
    w % 2 == 1
  }

  /** Two's complement reading of a word. */
  function Signed(w: Word): int {
    if w < MODULUS / 2 then w else w - MODULUS
  }

  /** UNBOX, as a number: an arithmetic shift to the right by one. */
  function Number(w: Word): int {
    if w < MODULUS / 2 then w / 2 else w / 2 - MODULUS / 2
  }

  /** UNBOX, as the word that holds the number. */
  function UnboxWord(w: Word): (u: Word)
    ensures Signed(u) == Number(w)
  {
    if Number(w) >= 0 then Number(w) else Number(w) + MODULUS
  }

  /** BOX, of a number of any width. */
  function BoxWord(d: int): Word {
    (2 * d + 1) % MODULUS
  }

  /** GET_MARK_BIT */
  predicate MarkBit(w: Word) {
    w % 2 == 1
  }

  /** IS_ENQUEUED */
  predicate EnqueuedBit(w: Word) {
    w % 4 >= 2
  }

  /** GET_FORWARD_ADDRESS */
  function ForwardAddress(w: Word): (a: Word)
    ensures a % 4 == 0
  {
    w - w % 4
  }

  predicate FlagsClear(w: Word) {
    w % 4 == 0
  }

  /** Splits a word into its upper part and the two flag bits. */
  lemma Flags(q: nat, f: nat)
    requires f < 4
    ensures (4 * q + f) % 4 == f && (4 * q + f) / 4 == q && (4 * q + f) % 2 == f % 2
  {
    DivMod4(q, f);
    Mod2(2 * q + f / 2, f % 2);
    assert 4 * q + f == 2 * (2 * q + f / 2) + f % 2;
  }

  /** The word with its two flag bits replaced. */
  function WithFlags(w: Word, f: nat): (r: Word)
    requires f < 4
    ensures r % 4 == f && r % 2 == f % 2 && w % 2 == w % 4 % 2
    ensures ForwardAddress(r) == ForwardAddress(w)
  {
    Flags(w / 4, w % 4);
    Flags(w / 4, f);
    4 * (w / 4) + f
  }

  /** SET_FORWARD_ADDRESS: keeps both flags and replaces the address, whatever it was.
      Addresses are at least 4-aligned, so the bitwise `or` is a sum. */
  function SetForwardAddress(w: Word, a: Word): (r: Word)
    requires a % 4 == 0
    ensures ForwardAddress(r) == a
    ensures MarkBit(r) == MarkBit(w) && EnqueuedBit(r) == EnqueuedBit(w)
  {
    Flags(w / 4, w % 4);
    Flags(a / 4, w % 4);
    a + w % 4
  }

  /** SET_MARK_BIT */
  function SetMarkBit(w: Word): (r: Word)
    ensures MarkBit(r)
    ensures EnqueuedBit(r) == EnqueuedBit(w) && ForwardAddress(r) == ForwardAddress(w)
  {
    WithFlags(w, if EnqueuedBit(w) then 3 else 1)
  }

  /** RESET_MARK_BIT */
  function ResetMarkBit(w: Word): (r: Word)
    ensures !MarkBit(r)
    ensures EnqueuedBit(r) == EnqueuedBit(w) && ForwardAddress(r) == ForwardAddress(w)
  {
    WithFlags(w, if EnqueuedBit(w) then 2 else 0)
  }

  /** MAKE_ENQUEUED */
  function MakeEnqueued(w: Word): (r: Word)
    ensures EnqueuedBit(r)
    ensures MarkBit(r) == MarkBit(w) && ForwardAddress(r) == ForwardAddress(w)
  {
    WithFlags(w, if MarkBit(w) then 3 else 2)
  }

  /** MAKE_DEQUEUED */
  function MakeDequeued(w: Word): (r: Word)
    ensures !EnqueuedBit(r)
    ensures MarkBit(r) == MarkBit(w) && ForwardAddress(r) == ForwardAddress(w)
  {
    WithFlags(w, if MarkBit(w) then 1 else 0)
  }

  function BytePower(n: nat): (p: nat)
    ensures p > 0
  {
    if n == 0 then 1 else 256 * BytePower(n - 1)
  }

  /** The n-th byte of a little-endian word. */
  function Byte(w: nat, n: nat): (b: nat)
    ensures b < 256
  {
    if n == 0 then w % 256 else Byte(w / 256, n - 1)
  }

  /** It is the n-th digit of the word in base 256, the lowest one first. */
  lemma {:induction false} ByteExact(high: nat, b: nat, low: nat, n: nat)
    requires b < 256 && low < BytePower(n)
    ensures Byte((256 * high + b) * BytePower(n) + low, n) == b
    decreases n
  {
    var x := 256 * high + b;
    if n > 0 {
      var p := BytePower(n - 1);
      assert x * BytePower(n) == 256 * (x * p);
      assert (256 * (x * p) + low) / 256 == x * p + low / 256;
      ByteExact(high, b, low / 256, n - 1);
    }
  }

  /** The word left behind when only the n lowest bytes of `src` are copied over `dst`. */
  function MergeLow(src: nat, dst: nat, n: nat): nat {
    if n == 0 then dst else src % 256 + 256 * MergeLow(src / 256, dst / 256, n - 1)
  }

  /** A partial copy takes the bytes below n from the source and leaves the others. */
  lemma {:induction false} MergeBytes(src: nat, dst: nat, n: nat, i: nat)
    ensures Byte(MergeLow(src, dst, n), i) == if i < n then Byte(src, i) else Byte(dst, i)
  {
    if n > 0 && i > 0 {
      MergeBytes(src / 256, dst / 256, n - 1, i - 1);
      assert MergeLow(src, dst, n) / 256 == MergeLow(src / 256, dst / 256, n - 1);
    }
  }

  lemma {:induction false} MergeBound(src: nat, dst: nat, n: nat, k: nat)
    requires dst < BytePower(k) && n <= k
    ensures MergeLow(src, dst, n) < BytePower(k)
  {
    if n > 0 {
      MergeBound(src / 256, dst / 256, n - 1, k - 1);
    }
  }

  lemma MergeIsWord(src: Word, dst: Word, n: nat)
    requires n <= 8
    ensures MergeLow(src, dst, n) < MODULUS
  {
    assert BytePower(2) == 0x1_0000;
    assert BytePower(4) == 0x1_0000_0000;
    assert BytePower(6) == 0x1_0000_0000_0000;
    assert BytePower(8) == MODULUS;
    MergeBound(src, dst, n, 8);
  }

  /** The word at the end of a copy of whole bytes. */
  function MergeWord(src: Word, dst: Word, n: nat): (r: Word)
    requires n <= 8
    ensures forall i :: 0 <= i < n ==> Byte(r, i) == Byte(src, i)
    ensures forall i :: n <= i ==> Byte(r, i) == Byte(dst, i)
  {
    MergeIsWord(src, dst, n);
    assert forall i: nat :: Byte(MergeLow(src, dst, n), i) == if i < n then Byte(src, i) else Byte(dst, i) by {
      forall i: nat ensures Byte(MergeLow(src, dst, n), i) == if i < n then Byte(src, i) else Byte(dst, i) {
        MergeBytes(src, dst, n, i);
      }
    }
    MergeLow(src, dst, n)
  }

  lemma DivMod8(q: nat, t: nat)
    requires t < 8
    ensures (8 * q + t) / 8 == q && (8 * q + t) % 8 == t
  {
  }

  lemma DivMod4(q: nat, t: nat)
    requires t < 4
    ensures (4 * q + t) / 4 == q && (4 * q + t) % 4 == t
  {
  }

  lemma Mod2(q: nat, t: nat)
    requires t < 2
    ensures (2 * q + t) % 2 == t
  {
  }

  /** A multiple of eight is a multiple of the smaller powers too. */
  lemma Aligned(a: nat)
    requires a % 8 == 0
    ensures a % 4 == 0 && a % 2 == 0
  {
    var q := a / 8;
    assert a == 4 * (2 * q) + 0 && a == 2 * (4 * q) + 0;
    DivMod4(2 * q, 0);
    Mod2(4 * q, 0);
  }

  /** A content address is aligned, and the header offset can be read back from it. */
  lemma AlignedAddress(begin: nat, o: nat)
    requires begin % 8 == 0
    ensures var a := begin + 8 * o + 16;
            a % 8 == 0 && a % 4 == 0 && a % 2 == 0 && (a - begin) / 8 - 2 == o
  {
    var q := begin / 8 + o + 2;
    var a := begin + 8 * o + 16;
    assert a == 8 * q + 0 && a - begin == 8 * (o + 2) + 0;
    DivMod8(q, 0);
    DivMod8(o + 2, 0);
    Aligned(a);
  }
}
