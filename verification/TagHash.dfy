/** The hash of s-expression tags, up to ten characters at six bits each, and its inverse. */
module TagHash {
  import Words

  const MAX_SEXP_TAGLEN := 10
  const ALPHABET_SIZE := 64

  /** The n-th character of the alphabet: '_', the small letters, the capitals, the digits, a quote. */
  function CharAt(n: nat): char
    requires n < ALPHABET_SIZE
  {
    if n == 0 then '_'
    else if n < 27 then ('a' as int + (n - 1)) as char
    else if n < 53 then ('A' as int + (n - 27)) as char
    else if n < 63 then ('0' as int + (n - 53)) as char
    else '\''
  }

  ghost predicate Known(c: char) {
    exists n: nat :: n < ALPHABET_SIZE && CharAt(n) == c
  }

  /** The place of a character in the alphabet. */
  ghost function CodeOf(c: char): (n: nat)
    requires Known(c)
    ensures n < ALPHABET_SIZE && CharAt(n) == c
  {
    var n: nat :| n < ALPHABET_SIZE && CharAt(n) == c;
    n
  }

  /** The alphabet repeats no character. */
  lemma CodeIsUnique(c: char, n: nat)
    requires n < ALPHABET_SIZE && CharAt(n) == c
    ensures Known(c) && CodeOf(c) == n
  {
  }

  /** The code of each character. */
  lemma CodesExact(c: char)
    ensures Known('_') && CodeOf('_') == 0 && Known('\'') && CodeOf('\'') == 63
    ensures 'a' <= c <= 'z' ==> Known(c) && CodeOf(c) == c as int - 'a' as int + 1
    ensures 'A' <= c <= 'Z' ==> Known(c) && CodeOf(c) == c as int - 'A' as int + 27
    ensures '0' <= c <= '9' ==> Known(c) && CodeOf(c) == c as int - '0' as int + 53
    ensures Known(c) ==> c == '_' || 'a' <= c <= 'z' || 'A' <= c <= 'Z' || '0' <= c <= '9' || c == '\''
  {
    CodeIsUnique('_', 0);
    CodeIsUnique('\'', 63);
    if 'a' <= c <= 'z' {
      CodeIsUnique(c, c as int - 'a' as int + 1);
    } else if 'A' <= c <= 'Z' {
      CodeIsUnique(c, c as int - 'A' as int + 27);
    } else if '0' <= c <= '9' {
      CodeIsUnique(c, c as int - '0' as int + 53);
    }
  }

  /** A tag is a C string: the characters up to its terminating zero. */
  ghost predicate InAlphabet(s: string) {
    forall i :: 0 <= i < |s| ==> Known(s[i])
  }

  /** The part of a tag the hash looks at. */
  ghost function Prefix(s: string): string {
    if |s| <= MAX_SEXP_TAGLEN then s else s[..MAX_SEXP_TAGLEN]
  }

  /** The tags that can be hashed. */
  ghost predicate Hashable(s: string) {
    InAlphabet(Prefix(s)) && (|s| > 0 ==> s[0] != '_')
  }

  /** Base-64 number of a tag, most significant character first. */
  ghost function Number(s: string): nat
    requires InAlphabet(s)
  {
    if |s| == 0 then 0 else ALPHABET_SIZE * Number(s[..|s| - 1]) + CodeOf(s[|s| - 1])
  }

  ghost function Power64(n: nat): (p: nat)
    ensures p > 0
  {
    if n == 0 then 1 else ALPHABET_SIZE * Power64(n - 1)
  }

  /** The characters de_hash produces. */
  ghost function Digits(n: nat): string {
    if n == 0 then "" else Digits(n / ALPHABET_SIZE) + [CharAt(n % ALPHABET_SIZE)]
  }

  lemma {:induction false} NumberBound(s: string)
    requires InAlphabet(s)
    ensures Number(s) < Power64(|s|)
  {
    if |s| > 0 {
      NumberBound(s[..|s| - 1]);
    }
  }

  lemma DivMod64(q: nat, t: nat)
    requires t < 64
    ensures (64 * q + t) / 64 == q && (64 * q + t) % 64 == t
  {
  }

  /** The first character decides whether digits are lost: a leading '_' is a leading zero. */
  lemma {:induction false} DigitsOfNumber(s: string)
    requires InAlphabet(s)
    ensures (Digits(Number(s)) == s) <==> (|s| > 0 ==> s[0] != '_')
    ensures |Digits(Number(s))| <= |s|
    ensures |s| > 0 && s[0] != '_' ==> Number(s) > 0
  {
    if |s| > 0 {
      var r, c := s[..|s| - 1], s[|s| - 1];
      assert s == r + [c];
      DigitsOfNumber(r);
      DivMod64(Number(r), CodeOf(c));
      CodeIsUnique('_', 0);
      if Number(s) == 0 {
        assert CodeOf(c) == 0 && Number(r) == 0;
      } else {
        assert Digits(Number(s)) == Digits(Number(r)) + [c];
      }
    }
  }

  /** The number of a tag with one more character. */
  lemma NumberOfLonger(s: string, c: char, n: nat)
    requires InAlphabet(s) && n < ALPHABET_SIZE && CharAt(n) == c
    ensures InAlphabet(s + [c]) && Number(s + [c]) == ALPHABET_SIZE * Number(s) + n
  {
    CodeIsUnique(c, n);
    assert (s + [c])[..|s|] == s;
  }

  /** Hashing is injective on the first ten characters. */
  lemma NumberInjective(s: string, t: string)
    requires Hashable(s) && Hashable(t)
    ensures Number(Prefix(s)) == Number(Prefix(t)) <==> Prefix(s) == Prefix(t)
  {
    DigitsOfNumber(Prefix(s));
    DigitsOfNumber(Prefix(t));
  }

  lemma PowerOfTen()
    ensures Power64(MAX_SEXP_TAGLEN) == 0x1000_0000_0000_0000
  {
    assert Power64(2) == 0x1000;
    assert Power64(4) == 0x100_0000;
    assert Power64(6) == 0x10_0000_0000;
    assert Power64(8) == 0x1_0000_0000_0000;
  }

  lemma {:induction false} PowerMonotone(m: nat, n: nat)
    requires m <= n
    ensures Power64(m) <= Power64(n)
  {
    if m < n {
      PowerMonotone(m, n - 1);
    }
  }

  /** A hash fits well below 63 bits. */
  lemma NumberIsSmall(s: string)
    requires Hashable(s)
    ensures Number(Prefix(s)) < 0x1000_0000_0000_0000
  {
    NumberBound(Prefix(s));
    PowerMonotone(|Prefix(s)|, MAX_SEXP_TAGLEN);
    PowerOfTen();
  }

  datatype Outcome = Hash(word: Words.Word) | Failure

  /** Boxing a hash loses nothing. */
  lemma HashIsKept(s: string)
    requires Hashable(s)
    ensures Words.Number(Words.BoxWord(Number(Prefix(s)))) == Number(Prefix(s))
  {
    NumberIsSmall(s);
  }

  /** de_hash: writes the digits backwards into a buffer of eleven characters, the terminating zero
      last, and returns where they begin. */
  method DeHash(n: nat, buf: array<char>) returns (p: nat)
    requires buf.Length == MAX_SEXP_TAGLEN + 1 && n < Power64(MAX_SEXP_TAGLEN)
    modifies buf
    ensures p <= MAX_SEXP_TAGLEN && buf[MAX_SEXP_TAGLEN] == '\0'
    ensures buf[p..MAX_SEXP_TAGLEN] == Digits(n)
  {
    buf[MAX_SEXP_TAGLEN] := '\0';
    var m: nat := n;
    p := MAX_SEXP_TAGLEN;
    assert buf[p..MAX_SEXP_TAGLEN] == [];
    while m != 0
      invariant 0 <= p <= MAX_SEXP_TAGLEN && m < Power64(p) && buf[MAX_SEXP_TAGLEN] == '\0'
      invariant Digits(m) + buf[p..MAX_SEXP_TAGLEN] == Digits(n)
    {
      ghost var written := buf[p..MAX_SEXP_TAGLEN];
      p := p - 1;
      buf[p] := CharAt(m % 64);
      assert buf[p..MAX_SEXP_TAGLEN] == [CharAt(m % 64)] + written;
      m := m / 64;
    }
  }

  /** The inner loop of LtagHash: the place of a character, or ALPHABET_SIZE. */
  method Lookup(c: char) returns (pos: nat)
    ensures pos < ALPHABET_SIZE <==> Known(c)
    ensures pos < ALPHABET_SIZE ==> pos == CodeOf(c)
    ensures pos <= ALPHABET_SIZE
  {
    pos := 0;
    while pos < ALPHABET_SIZE && CharAt(pos) != c
      invariant pos <= ALPHABET_SIZE
      invariant forall n: nat :: n < pos ==> CharAt(n) != c
    {
      pos := pos + 1;
    }
    if pos < ALPHABET_SIZE {
      CodeIsUnique(c, pos);
    }
  }

  /** strncmp(s, t, 10) == 0 for strings without embedded zeros. */
  predicate SamePrefix(s: string, t: string) {
    (if |s| <= MAX_SEXP_TAGLEN then s else s[..MAX_SEXP_TAGLEN]) ==
    (if |t| <= MAX_SEXP_TAGLEN then t else t[..MAX_SEXP_TAGLEN])
  }

  /** The first loop of LtagHash. */
  method Accumulate(s: string) returns (ok: bool, h: nat)
    ensures ok <==> InAlphabet(Prefix(s))
    ensures ok ==> h == Number(Prefix(s))
  {
    hide Known, CodeOf, CharAt;
    h := 0;
    var i: nat := 0;
    while i < |s| && i < MAX_SEXP_TAGLEN
      invariant 0 <= i <= |s| && i <= MAX_SEXP_TAGLEN
      invariant InAlphabet(s[..i]) && h == Number(s[..i])
    {
      var pos := Lookup(s[i]);
      if pos == ALPHABET_SIZE {
        assert Prefix(s)[i] == s[i];
        return false, h;
      }
      assert s[..i + 1][..i] == s[..i];
      h := h * 64 + pos;
      i := i + 1;
    }
    assert s[..i] == Prefix(s);
    ok := true;
  }

  /** LtagHash: succeeds on exactly the hashable tags; the boxed result names the first ten characters. */
  method LtagHash(s: string, buf: array<char>) returns (r: Outcome)
    requires buf.Length == MAX_SEXP_TAGLEN + 1
    modifies buf
    ensures r.Hash? <==> Hashable(s)
    ensures r.Hash? ==> r.word == Words.BoxWord(Number(Prefix(s)))
    ensures r.Hash? ==> Words.Number(r.word) >= 0 && Digits(Words.Number(r.word)) == Prefix(s)
  {
    hide Number, Digits, Power64, InAlphabet;
    var ok, h := Accumulate(s);
    if !ok {
      return Failure;
    }
    NumberBound(Prefix(s));
    PowerMonotone(|Prefix(s)|, MAX_SEXP_TAGLEN);
    DigitsOfNumber(Prefix(s));
    var p := DeHash(h, buf);
    if !SamePrefix(s, buf[p..MAX_SEXP_TAGLEN]) {
      return Failure;
    }
    HashIsKept(s);
    r := Hash(Words.BoxWord(h));
  }
}
