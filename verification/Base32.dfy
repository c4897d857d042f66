/** Shifts by small numbers, on words alone. */
module Words {
  lemma ShiftRight(v: bv32, n: nat)
    requires n < 8
    ensures v >> n ==
      if n == 0 then v else if n == 1 then v >> 1 else if n == 2 then v >> 2 else if n == 3 then v >> 3
      else if n == 4 then v >> 4 else if n == 5 then v >> 5 else if n == 6 then v >> 6 else v >> 7
  {
    if n == 0 {} else if n == 1 {} else if n == 2 {} else if n == 3 {}
    else if n == 4 {} else if n == 5 {} else if n == 6 {} else {}
  }

  lemma ShiftLeft(v: bv32, n: nat)
    requires 1 <= n <= 4
    ensures v << n == if n == 1 then v << 1 else if n == 2 then v << 2 else if n == 3 then v << 3 else v << 4
  {
    if n == 1 {} else if n == 2 {} else if n == 3 {} else {}
  }
}

/**
 Base32 without padding (section 6 of RFC 4648), on 32-bit accumulators that are shifted and never masked.
 Both loops are described by one conservation law: the bits handed over so far, followed by the pending low bits of
 the accumulator, are the bits read so far.
 */
module Base32 {
  import opened Wrappers
  import Seqs
  import Text
  import Words

  const ALPHABET := "ABCDEFGHIJKLMNOPQRSTUVWXYZ234567"

  /******* Bits *******/

  function Mask(k: nat): bv32
    requires k < 13
  {
    if k == 0 then 1 else if k == 1 then 2 else if k == 2 then 4 else if k == 3 then 8
    else if k == 4 then 16 else if k == 5 then 32 else if k == 6 then 64 else if k == 7 then 128
    else if k == 8 then 256 else if k == 9 then 512 else if k == 10 then 1024 else if k == 11 then 2048 else 4096
  }

  predicate On(v: bv32, m: bv32) { v & m != 0 }

  predicate Bit(v: bv32, k: nat)
    requires k < 13
  {
    On(v, Mask(k))
  }

  /** The low `n` bits of `v`, most significant first. */
  function LowBits(v: bv32, n: nat): (r: seq<bool>)
    requires n <= 13
    ensures |r| == n
  {
    seq(n, i requires 0 <= i < n => Bit(v, n - 1 - i))
  }

  function Zeros(n: nat): (r: seq<bool>)
    ensures |r| == n
  {
    seq(n, _ => false)
  }

  /** Eight bits for every byte, in order. */
  function BitsOf(bytes: seq<bv8>): (r: seq<bool>)
    ensures |r| == 8 * |bytes|
  {
    if bytes == [] then [] else BitsOf(bytes[..|bytes| - 1]) + LowBits(bytes[|bytes| - 1] as bv32, 8)
  }

  /** Five bits for every symbol, in order. */
  function BitsOfSymbols(symbols: seq<bv32>): (r: seq<bool>)
    ensures |r| == 5 * |symbols|
  {
    if symbols == [] then [] else BitsOfSymbols(symbols[..|symbols| - 1]) + LowBits(symbols[|symbols| - 1], 5)
  }

  lemma BitsOfLast(bytes: seq<bv8>, b: bv8)
    ensures BitsOf(bytes + [b]) == BitsOf(bytes) + LowBits(b as bv32, 8)
  {
    assert (bytes + [b])[..|bytes|] == bytes;
  }

  lemma BitsOfSymbolsLast(symbols: seq<bv32>, s: bv32)
    ensures BitsOfSymbols(symbols + [s]) == BitsOfSymbols(symbols) + LowBits(s, 5)
  {
    assert (symbols + [s])[..|symbols|] == symbols;
  }

  /** Bytes are determined by their bits. */
  lemma ByteBitsInjective(a: bv8, b: bv8)
    requires LowBits(a as bv32, 8) == LowBits(b as bv32, 8)
    ensures a == b
  {
    var x, y := LowBits(a as bv32, 8), LowBits(b as bv32, 8);
    assert x[7] == y[7] && x[6] == y[6] && x[5] == y[5] && x[4] == y[4];
    assert x[3] == y[3] && x[2] == y[2] && x[1] == y[1] && x[0] == y[0];
    SameBits(a as bv32, b as bv32);
  }

  lemma SameBits(a: bv32, b: bv32)
    requires a < 256 && b < 256
    requires Bit(a, 0) == Bit(b, 0) && Bit(a, 1) == Bit(b, 1) && Bit(a, 2) == Bit(b, 2) && Bit(a, 3) == Bit(b, 3)
    requires Bit(a, 4) == Bit(b, 4) && Bit(a, 5) == Bit(b, 5) && Bit(a, 6) == Bit(b, 6) && Bit(a, 7) == Bit(b, 7)
    ensures a == b
  {
  }

  lemma BitsSplit(a: seq<bv8>)
    requires a != []
    ensures var n := |a| - 1;
      BitsOf(a)[..8 * n] == BitsOf(a[..n]) && BitsOf(a)[8 * n..] == LowBits(a[n] as bv32, 8)
  {
    hide LowBits;
  }

  lemma {:induction false} BitsInjective(a: seq<bv8>, b: seq<bv8>)
    requires BitsOf(a) == BitsOf(b)
    ensures a == b
  {
    hide LowBits, BitsOf;
    assert |a| == |b|;
    if a != [] {
      var n := |a| - 1;
      BitsSplit(a);
      BitsSplit(b);
      BitsInjective(a[..n], b[..n]);
      ByteBitsInjective(a[n], b[n]);
      assert a == a[..n] + [a[n]] && b == b[..n] + [b[n]];
    }
  }

  /******* What the shifts do to single bits *******/

  /** What is shifted in takes the low places, and what was there moves up. */
  lemma ByteIn(v: bv32, b: bv32, m: bv32)
    requires b < 256
    ensures m < 256 ==> On((v << 8) | b, m) == On(b, m)
    ensures m < 32 ==> On((v << 8) | b, m << 8) == On(v, m)
  {
  }

  lemma SymbolIn(v: bv32, s: bv32, m: bv32)
    requires s < 32
    ensures m < 32 ==> On((v << 5) | s, m) == On(s, m)
    ensures m < 256 ==> On((v << 5) | s, m << 5) == On(v, m)
  {
  }

  lemma ShiftInByte(v: bv32, b: bv32, k: nat)
    requires k < 12 && b < 256
    ensures Bit((v << 8) | b, k) == if k < 8 then Bit(b, k) else Bit(v, k - 8)
  {
    hide Mask, On;
    MaskBound(k);
    if k < 8 {
      ByteIn(v, b, Mask(k));
    } else {
      MaskBound(k - 8);
      MaskByte(k - 8);
      ByteIn(v, b, Mask(k - 8));
    }
  }

  lemma MaskByte(k: nat)
    requires k < 5
    ensures Mask(k + 8) == Mask(k) << 8
  {
    if k == 0 {} else if k == 1 {} else if k == 2 {} else if k == 3 {} else {}
  }

  lemma ShiftInSymbol(v: bv32, s: bv32, k: nat)
    requires k < 13 && s < 32
    ensures Bit((v << 5) | s, k) == if k < 5 then Bit(s, k) else Bit(v, k - 5)
  {
    hide Mask, On;
    MaskBound(k);
    if k < 5 {
      SymbolIn(v, s, Mask(k));
    } else {
      MaskBound(k - 5);
      MaskSymbol(k - 5);
      SymbolIn(v, s, Mask(k - 5));
    }
  }

  lemma MaskSymbol(k: nat)
    requires k < 8
    ensures Mask(k + 5) == Mask(k) << 5
  {
    if k == 0 {} else if k == 1 {} else if k == 2 {} else if k == 3 {} else if k == 4 {} else if k == 5 {} else if k == 6 {} else {}
  }

  /** A shift by a small number, spelled out. */
  function Shr(v: bv32, n: nat): bv32
    requires n < 8
  {
    if n == 0 then v else if n == 1 then v >> 1 else if n == 2 then v >> 2 else if n == 3 then v >> 3
    else if n == 4 then v >> 4 else if n == 5 then v >> 5 else if n == 6 then v >> 6 else v >> 7
  }

  lemma ShiftIsShr(v: bv32, n: nat)
    requires n < 8
    ensures v >> n == Shr(v, n)
  {
    Words.ShiftRight(v, n);
  }

  /** A shift to the left by a small number, spelled out. */
  function Shl(v: bv32, n: nat): bv32
    requires n < 8
  {
    if n == 0 then v else if n == 1 then v << 1 else if n == 2 then v << 2 else if n == 3 then v << 3
    else if n == 4 then v << 4 else if n == 5 then v << 5 else if n == 6 then v << 6 else v << 7
  }

  lemma ShiftIsShl(v: bv32, n: nat)
    requires 1 <= n <= 4
    ensures v << n == Shl(v, n)
  {
    Words.ShiftLeft(v, n);
  }

  /** Which mask meets a shifted word: first for constant shifts, on words alone. */
  lemma RightByConstant(v: bv32, m: bv32)
    requires m < 8192
    ensures On(v >> 1, m) == On(v, m << 1) && On(v >> 2, m) == On(v, m << 2) && On(v >> 3, m) == On(v, m << 3)
    ensures On(v >> 4, m) == On(v, m << 4) && On(v >> 5, m) == On(v, m << 5) && On(v >> 6, m) == On(v, m << 6)
    ensures On(v >> 7, m) == On(v, m << 7)
  {
  }

  lemma LeftOne(v: bv32, m: bv32)
    requires m < 8192
    ensures On(v << 1, m << 1) == On(v, m) && (m < 2 ==> !On(v << 1, m))
  {
  }

  lemma LeftTwo(v: bv32, m: bv32)
    requires m < 8192
    ensures On(v << 2, m << 2) == On(v, m) && (m < 4 ==> !On(v << 2, m))
  {
  }

  lemma LeftThree(v: bv32, m: bv32)
    requires m < 8192
    ensures On(v << 3, m << 3) == On(v, m) && (m < 8 ==> !On(v << 3, m))
  {
  }

  lemma LeftFour(v: bv32, m: bv32)
    requires m < 8192
    ensures On(v << 4, m << 4) == On(v, m) && (m < 16 ==> !On(v << 4, m))
  {
  }

  lemma RightMask(v: bv32, n: nat, m: bv32)
    requires n < 8 && m < 8192
    ensures On(Shr(v, n), m) == On(v, Shl(m, n))
  {
    RightByConstant(v, m);
    hide On;
    if n == 0 {} else if n == 1 {} else if n == 2 {} else if n == 3 {} else if n == 4 {} else if n == 5 {} else if n == 6 {} else {}
  }

  lemma LeftMask(v: bv32, n: nat, m: bv32)
    requires n < 5 && m < 8192
    ensures On(Shl(v, n), Shl(m, n)) == On(v, m)
    ensures n > 0 && m < Shl(1, n) ==> !On(Shl(v, n), m)
  {
    hide On;
    if n == 0 {} else if n == 1 { LeftOne(v, m); } else if n == 2 { LeftTwo(v, m); } else if n == 3 { LeftThree(v, m); } else { LeftFour(v, m); }
  }

  lemma MaskBound(k: nat)
    requires k < 13
    ensures 0 < Mask(k) < 8192
    ensures (k < 4 ==> Mask(k) < 16) && (k < 5 ==> Mask(k) < 32) && (k < 8 ==> Mask(k) < 256)
  {
  }

  /** The masks are the powers of two. */
  lemma MaskShift(n: nat, k: nat)
    requires n < 8 && n + k < 13
    ensures Mask(n + k) == Shl(Mask(k), n)
    ensures k < n ==> Mask(k) < Shl(1, n)
  {
    if n == 0 {} else if n == 1 {} else if n == 2 {} else if n == 3 {} else if n == 4 {} else if n == 5 {} else if n == 6 {} else {}
  }

  /** Shifting moves every bit. */
  lemma Down(v: bv32, n: nat, k: nat)
    requires n < 8 && n + k < 13
    ensures Bit(Shr(v, n), k) == Bit(v, n + k)
  {
    hide Mask, On, Shr, Shl;
    MaskBound(k);
    RightMask(v, n, Mask(k));
    MaskShift(n, k);
  }

  lemma Up(v: bv32, n: nat, k: nat)
    requires n < 5 && k < 5
    ensures Bit(Shl(v, n), k) == (k >= n && Bit(v, k - n))
  {
    hide Mask, On, Shl;
    MaskBound(k);
    if k >= n {
      MaskBound(k - n);
      LeftMask(v, n, Mask(k - n));
      MaskShift(n, k - n);
    } else {
      LeftMask(v, n, Mask(k));
      MaskShift(n, k);
    }
  }

  /** Cutting off keeps the low bits. */
  lemma CutFive(v: bv32, m: bv32)
    requires m < 32
    ensures On(v & 31, m) == On(v, m) && v & 31 < 32
  {
  }

  lemma CutEight(v: bv32, m: bv32)
    requires m < 256
    ensures On(v & 255, m) == On(v, m) && v & 255 < 256
  {
  }

  lemma TakeSymbol(v: bv32, n: nat, k: nat)
    requires n < 8 && k < 5
    ensures Shr(v, n) & 31 < 32
    ensures Bit(Shr(v, n) & 31, k) == Bit(v, n + k)
  {
    hide Mask, On, Shr;
    MaskBound(k);
    CutFive(Shr(v, n), Mask(k));
    Down(v, n, k);
  }

  lemma TakeByte(v: bv32, n: nat, k: nat)
    requires n <= 4 && k < 8
    ensures Shr(v, n) & 255 < 256
    ensures Bit(Shr(v, n) & 255, k) == Bit(v, n + k)
  {
    hide Mask, On, Shr;
    MaskBound(k);
    CutEight(Shr(v, n), Mask(k));
    Down(v, n, k);
  }

  lemma TakeLast(v: bv32, n: nat, k: nat)
    requires 1 <= n <= 4 && k < 5
    ensures (v << (5 - n)) & 31 < 32
    ensures Bit((v << (5 - n)) & 31, k) == (k >= 5 - n && Bit(v, k - (5 - n)))
  {
    hide Mask, On, Shl;
    ShiftIsShl(v, 5 - n);
    MaskBound(k);
    CutFive(Shl(v, 5 - n), Mask(k));
    Up(v, 5 - n, k);
  }

  lemma ShiftInByteBits(v: bv32, b: bv32, n: nat)
    requires n <= 4 && b < 256
    ensures LowBits((v << 8) | b, n + 8) == LowBits(v, n) + LowBits(b, 8)
  {
    hide Bit;
    forall i | 0 <= i < n + 8 ensures LowBits((v << 8) | b, n + 8)[i] == (LowBits(v, n) + LowBits(b, 8))[i] {
      ShiftInByte(v, b, n + 8 - 1 - i);
    }
  }

  lemma ShiftInSymbolBits(v: bv32, s: bv32, n: nat)
    requires n <= 7 && s < 32
    ensures LowBits((v << 5) | s, n + 5) == LowBits(v, n) + LowBits(s, 5)
  {
    hide Bit;
    forall i | 0 <= i < n + 5 ensures LowBits((v << 5) | s, n + 5)[i] == (LowBits(v, n) + LowBits(s, 5))[i] {
      ShiftInSymbol(v, s, n + 5 - 1 - i);
    }
  }

  /** The low bits of `v` are those of `s`, if `s` is the top of them, followed by the rest. */
  lemma SplitBits(v: bv32, s: bv32, n: nat, m: nat)
    requires m <= n <= 12
    requires forall k :: 0 <= k < m ==> Bit(s, k) == Bit(v, n - m + k)
    ensures LowBits(v, n) == LowBits(s, m) + LowBits(v, n - m)
  {
    hide Bit;
    forall i | 0 <= i < n ensures LowBits(v, n)[i] == (LowBits(s, m) + LowBits(v, n - m))[i] {
      if i < m {
        assert Bit(s, m - 1 - i) == Bit(v, n - m + (m - 1 - i));
      }
    }
  }

  /** The symbol taken is the top of the pending bits. */
  lemma TakeSymbolBits(v: bv32, n: nat)
    requires 5 <= n <= 12
    ensures (v >> (n - 5)) & 31 < 32
    ensures LowBits(v, n) == LowBits((v >> (n - 5)) & 31, 5) + LowBits(v, n - 5)
  {
    hide *;
    ShiftIsShr(v, n - 5);
    TakeSymbol(v, n - 5, 0);
    var s := Shr(v, n - 5) & 31;
    forall k | 0 <= k < 5 ensures Bit(s, k) == Bit(v, n - 5 + k) { TakeSymbol(v, n - 5, k); }
    SplitBits(v, s, n, 5);
  }

  lemma TakeByteBits(v: bv32, n: nat)
    requires 8 <= n <= 12
    ensures (v >> (n - 8)) & 255 < 256
    ensures LowBits(v, n) == LowBits((v >> (n - 8)) & 255, 8) + LowBits(v, n - 8)
  {
    hide *;
    ShiftIsShr(v, n - 8);
    TakeByte(v, n - 8, 0);
    var b := Shr(v, n - 8) & 255;
    forall k | 0 <= k < 8 ensures Bit(b, k) == Bit(v, n - 8 + k) { TakeByte(v, n - 8, k); }
    SplitBits(v, b, n, 8);
  }

  lemma PadBits(v: bv32, s: bv32, n: nat)
    requires n <= 4
    requires forall k :: 0 <= k < 5 ==> Bit(s, k) == (k >= 5 - n && Bit(v, k - (5 - n)))
    ensures LowBits(s, 5) == LowBits(v, n) + Zeros(5 - n)
  {
    hide Bit;
    var z := LowBits(v, n) + Zeros(5 - n);
    forall i | 0 <= i < 5 ensures LowBits(s, 5)[i] == z[i] {
      assert Bit(s, 4 - i) == (4 - i >= 5 - n && Bit(v, 4 - i - (5 - n)));
    }
  }

  lemma TakeLastBits(v: bv32, n: nat)
    requires 1 <= n <= 4
    ensures (v << (5 - n)) & 31 < 32
    ensures LowBits((v << (5 - n)) & 31, 5) == LowBits(v, n) + Zeros(5 - n)
  {
    hide *;
    TakeLast(v, n, 0);
    var s := (v << (5 - n)) & 31;
    forall k | 0 <= k < 5 ensures Bit(s, k) == (k >= 5 - n && Bit(v, k - (5 - n))) { TakeLast(v, n, k); }
    PadBits(v, s, n);
  }

  /******* Characters *******/

  function CharOf(s: bv32): char
    requires s < 32
  {
    ALPHABET[s as int]
  }

  /** `s.indexOf(c)`. */
  function IndexOf(s: string, c: char): (r: int)
    ensures -1 <= r < |s|
    ensures r >= 0 ==> s[r] == c
    ensures r == -1 ==> c !in s
  {
    if s == "" then -1
    else if s[0] == c then 0
    else var r := IndexOf(s[1..], c); if r == -1 then -1 else r + 1
  }

  lemma {:induction false} IndexOfDistinct(s: string, i: nat)
    requires i < |s| && Seqs.Distinct(s)
    ensures IndexOf(s, s[i]) == i
  {
    if i > 0 {
      IndexOfDistinct(s[1..], i - 1);
    }
  }

  lemma AlphabetAt(i: nat)
    requires i < 32
    ensures ALPHABET[i] as int == if i < 26 then 65 + i else 24 + i
  {
  }

  lemma AlphabetDistinct()
    ensures Seqs.Distinct(ALPHABET)
  {
    forall i, j | 0 <= i < j < |ALPHABET| ensures ALPHABET[i] != ALPHABET[j] {
      AlphabetAt(i);
      AlphabetAt(j);
    }
  }

  /** The symbol a character stands for: its index in the alphabet. */
  function SymbolOf(c: char): (r: Option<bv32>)
    ensures r.Some? ==> r.value < 32
  {
    var i := IndexOf(ALPHABET, c);
    if i < 0 then None else Some(i as bv32)
  }

  lemma SymbolOfChar(s: bv32)
    requires s < 32
    ensures SymbolOf(CharOf(s)) == Some(s)
  {
    AlphabetDistinct();
    IndexOfDistinct(ALPHABET, s as int);
    assert (s as int) as bv32 == s;
  }

  lemma TextCharacter(c: char)
    requires SymbolOf(c).Some?
    ensures 'A' <= c <= 'Z' || '2' <= c <= '7'
  {
    AlphabetAt(IndexOf(ALPHABET, c));
  }

  predicate IsText(text: string) { forall c :: c in text ==> SymbolOf(c).Some? }

  function Symbols(text: string): (r: seq<bv32>)
    requires IsText(text)
    ensures |r| == |text|
  {
    if text == [] then []
    else
      assert text[|text| - 1] in text;
      Symbols(text[..|text| - 1]) + [SymbolOf(text[|text| - 1]).value]
  }

  lemma SymbolsLast(text: string, c: char)
    requires IsText(text) && SymbolOf(c).Some?
    ensures IsText(text + [c]) && Symbols(text + [c]) == Symbols(text) + [SymbolOf(c).value]
  {
    assert (text + [c])[..|text|] == text;
  }

  /******* Encoding and decoding *******/

  /** `text` spells the bits of the bytes, filled up with fewer than five zeros. */
  ghost predicate Encodes(text: string, bytes: seq<bv8>) {
    && IsText(text)
    && exists pad: nat :: pad < 5 && BitsOfSymbols(Symbols(text)) == BitsOf(bytes) + Zeros(pad)
  }

  /** The bytes are the bits the text spells, without fewer than eight left over. */
  ghost predicate Decodes(text: string, bytes: seq<bv8>) {
    && IsText(text)
    && exists rest :: |rest| < 8 && BitsOfSymbols(Symbols(text)) == BitsOf(bytes) + rest
  }

  lemma ByteOfWord(b: bv32)
    requires b < 256
    ensures (b as bv8) as bv32 == b
  {
  }

  lemma Shifted(a: seq<bool>, b: seq<bool>, c: seq<bool>)
    ensures (a + b) + c == a + (b + c)
  {
  }

  lemma EmitSymbol(text: string, s: bv32)
    requires IsText(text) && s < 32
    ensures IsText(text + [CharOf(s)])
    ensures BitsOfSymbols(Symbols(text + [CharOf(s)])) == BitsOfSymbols(Symbols(text)) + LowBits(s, 5)
  {
    hide LowBits;
    SymbolOfChar(s);
    SymbolsLast(text, CharOf(s));
    BitsOfSymbolsLast(Symbols(text), s);
  }

  /** The bits written as symbols, then the pending bits of the accumulator, are the bits of the bytes read. */
  ghost predicate Encoding(output: string, value: bv32, bits: nat, bytes: seq<bv8>) {
    bits <= 12 && IsText(output) && BitsOfSymbols(Symbols(output)) + LowBits(value, bits) == BitsOf(bytes)
  }

  lemma ReadByte(output: string, value: bv32, bits: nat, bytes: seq<bv8>, b: bv8)
    requires Encoding(output, value, bits, bytes) && bits < 5
    ensures Encoding(output, (value << 8) | (b as bv32), bits + 8, bytes + [b])
  {
    hide LowBits, BitsOf, BitsOfSymbols, Symbols, IsText;
    ShiftInByteBits(value, b as bv32, bits);
    Shifted(BitsOfSymbols(Symbols(output)), LowBits(value, bits), LowBits(b as bv32, 8));
    BitsOfLast(bytes, b);
  }

  lemma WriteSymbol(output: string, value: bv32, bits: nat, bytes: seq<bv8>)
    requires Encoding(output, value, bits, bytes) && bits >= 5
    ensures (value >> (bits - 5)) & 31 < 32
    ensures Encoding(output + [CharOf((value >> (bits - 5)) & 31)], value, bits - 5, bytes)
  {
    hide LowBits, BitsOf, BitsOfSymbols, Symbols, IsText, CharOf;
    TakeSymbolBits(value, bits);
    var s := (value >> (bits - 5)) & 31;
    EmitSymbol(output, s);
    Shifted(BitsOfSymbols(Symbols(output)), LowBits(s, 5), LowBits(value, bits - 5));
  }

  lemma Finish(output: string, value: bv32, bits: nat, bytes: seq<bv8>)
    requires Encoding(output, value, bits, bytes) && bits < 5
    ensures bits == 0 ==> Encodes(output, bytes)
    ensures bits > 0 ==> (value << (5 - bits)) & 31 < 32 && Encodes(output + [CharOf((value << (5 - bits)) & 31)], bytes)
  {
    hide BitsOf, BitsOfSymbols, Symbols, IsText, CharOf;
    if bits == 0 {
      assert BitsOfSymbols(Symbols(output)) == BitsOf(bytes) + Zeros(0);
    } else {
      TakeLastBits(value, bits);
      var s := (value << (5 - bits)) & 31;
      EmitSymbol(output, s);
      Shifted(BitsOfSymbols(Symbols(output)), LowBits(value, bits), Zeros(5 - bits));
      assert BitsOfSymbols(Symbols(output + [CharOf(s)])) == BitsOf(bytes) + Zeros(5 - bits);
    }
  }

  method Encode(bytes: seq<bv8>) returns (output: string)
    ensures Encodes(output, bytes)
  {
    hide Encoding, Encodes, CharOf;
    var bits: nat, value: bv32 := 0, 0;
    output := "";
    NothingEncoded();
    for i := 0 to |bytes|
      invariant bits < 5 && Encoding(output, value, bits, bytes[..i])
    {
      ReadByte(output, value, bits, bytes[..i], bytes[i]);
      assert bytes[..i + 1] == bytes[..i] + [bytes[i]];
      value := (value << 8) | (bytes[i] as bv32);
      bits := bits + 8;
      while bits >= 5
        invariant bits <= 12 && Encoding(output, value, bits, bytes[..i + 1])
        decreases bits
      {
        WriteSymbol(output, value, bits, bytes[..i + 1]);
        output := output + [CharOf((value >> (bits - 5)) & 31)];
        bits := bits - 5;
      }
    }
    assert bytes[..|bytes|] == bytes;
    Finish(output, value, bits, bytes);
    if bits > 0 {
      output := output + [CharOf((value << (5 - bits)) & 31)];
    }
  }

  lemma NothingEncoded()
    ensures Encoding("", 0, 0, [])
  {
  }

  /** What is asked of `toUpperCase`, whatever else it maps: texts over the alphabet are upper case already. */
  ghost predicate Uppers(upper: string -> string) { forall s :: IsText(s) ==> upper(s) == s }

  /** Upper case, without white space and padding signs. */
  function Clean(upper: string -> string, value: string): string {
    Seqs.Filter(upper(value), c => !Text.IsSpace(c) && c != '=')
  }

  /** The bits of the bytes written, then the pending bits of the buffer, are the bits the text spells so far. */
  ghost predicate Decoding(bytes: seq<bv8>, buffer: bv32, bits: nat, text: string) {
    bits <= 12 && IsText(text) && BitsOf(bytes) + LowBits(buffer, bits) == BitsOfSymbols(Symbols(text))
  }

  lemma ReadSymbol(bytes: seq<bv8>, buffer: bv32, bits: nat, text: string, c: char)
    requires Decoding(bytes, buffer, bits, text) && bits < 8 && SymbolOf(c).Some?
    ensures Decoding(bytes, (buffer << 5) | SymbolOf(c).value, bits + 5, text + [c])
  {
    hide LowBits, BitsOf, BitsOfSymbols, Symbols, IsText, SymbolOf;
    var s := SymbolOf(c).value;
    SymbolsLast(text, c);
    BitsOfSymbolsLast(Symbols(text), s);
    ShiftInSymbolBits(buffer, s, bits);
    Shifted(BitsOf(bytes), LowBits(buffer, bits), LowBits(s, 5));
  }

  lemma WriteByte(bytes: seq<bv8>, buffer: bv32, bits: nat, text: string)
    requires Decoding(bytes, buffer, bits, text) && bits >= 8
    ensures (buffer >> (bits - 8)) & 255 < 256
    ensures Decoding(bytes + [((buffer >> (bits - 8)) & 255) as bv8], buffer, bits - 8, text)
  {
    hide LowBits, BitsOf, BitsOfSymbols, Symbols, IsText;
    TakeByteBits(buffer, bits);
    var b := (buffer >> (bits - 8)) & 255;
    BitsOfLast(bytes, b as bv8);
    ByteOfWord(b);
    Shifted(BitsOf(bytes), LowBits(b, 8), LowBits(buffer, bits - 8));
  }

  lemma NothingDecoded()
    ensures Decoding([], 0, 0, "")
  {
  }

  lemma Decoded(bytes: seq<bv8>, buffer: bv32, bits: nat, text: string)
    requires Decoding(bytes, buffer, bits, text) && bits < 8
    ensures Decodes(text, bytes)
  {
    hide BitsOf, BitsOfSymbols, Symbols, IsText;
  }

  lemma AllSymbols(text: string)
    ensures IsText(text) <==> forall i :: 0 <= i < |text| ==> SymbolOf(text[i]).Some?
  {
    hide SymbolOf;
    forall i | 0 <= i < |text| ensures text[i] in text {}
  }

  method Decode(upper: string -> string, value: string) returns (r: Option<seq<bv8>>)
    ensures r.None? <==> Clean(upper, value) == "" || !IsText(Clean(upper, value))
    ensures r.Some? ==> Decodes(Clean(upper, value), r.value)
  {
    hide Clean, Decoding, Decodes, SymbolOf, IsText;
    var clean := Clean(upper, value);
    AllSymbols(clean);
    if clean == "" {
      return None;
    }
    var bits: nat, buffer: bv32 := 0, 0;
    var bytes: seq<bv8> := [];
    NothingDecoded();
    for i := 0 to |clean|
      invariant bits < 8 && Decoding(bytes, buffer, bits, clean[..i])
      invariant forall j :: 0 <= j < i ==> SymbolOf(clean[j]).Some?
    {
      var index := SymbolOf(clean[i]);
      if index.None? {
        return None;
      }
      ReadSymbol(bytes, buffer, bits, clean[..i], clean[i]);
      assert clean[..i + 1] == clean[..i] + [clean[i]];
      buffer := (buffer << 5) | index.value;
      bits := bits + 5;
      if bits >= 8 {
        WriteByte(bytes, buffer, bits, clean[..i + 1]);
        bytes := bytes + [((buffer >> (bits - 8)) & 255) as bv8];
        bits := bits - 8;
      }
    }
    assert clean[..|clean|] == clean;
    Decoded(bytes, buffer, bits, clean);
    return Some(bytes);
  }

  /******* The round trip *******/

  /** A text the encoder writes has nothing to clean. */
  lemma TextIsClean(upper: string -> string, text: string)
    requires IsText(text) && Uppers(upper)
    ensures Clean(upper, text) == text
  {
    hide SymbolOf;
    forall c | c in text ensures !Text.IsSpace(c) && c != '=' {
      TextCharacter(c);
    }
    Seqs.FilterAll(text, c => !Text.IsSpace(c) && c != '=');
  }

  /** Whatever decodes an encoding of the bytes is the bytes. */
  lemma DecodingUndoesEncoding(text: string, bytes: seq<bv8>, out: seq<bv8>)
    requires Encodes(text, bytes) && Decodes(text, out)
    ensures out == bytes
  {
    hide BitsOf, BitsOfSymbols, IsText, Symbols;
    var pad: nat :| pad < 5 && BitsOfSymbols(Symbols(text)) == BitsOf(bytes) + Zeros(pad);
    var rest :| |rest| < 8 && BitsOfSymbols(Symbols(text)) == BitsOf(out) + rest;
    assert 8 * |bytes| + pad == 8 * |out| + |rest|;
    assert |bytes| == |out|;
    assert BitsOf(bytes) == BitsOfSymbols(Symbols(text))[..8 * |bytes|] == BitsOf(out);
    BitsInjective(bytes, out);
  }

  /** Decoding the encoding of any bytes returns them, except that nothing encodes to nothing, which is refused. */
  method RoundTrip(bytes: seq<bv8>, upper: string -> string) returns (out: Option<seq<bv8>>)
    requires Uppers(upper)
    ensures out == if bytes == [] then None else Some(bytes)
  {
    hide BitsOf, BitsOfSymbols, IsText, Symbols, Clean;
    var text := Encode(bytes);
    out := Decode(upper, text);
    TextIsClean(upper, text);
    EmptyIff(text, bytes);
    if out.Some? {
      DecodingUndoesEncoding(text, bytes, out.value);
    }
  }

  lemma EmptyIff(text: string, bytes: seq<bv8>)
    requires Encodes(text, bytes)
    ensures text == "" <==> bytes == []
  {
    hide BitsOf, BitsOfSymbols;
    var pad: nat :| pad < 5 && BitsOfSymbols(Symbols(text)) == BitsOf(bytes) + Zeros(pad);
    assert 5 * |text| == 8 * |bytes| + pad;
  }
}
