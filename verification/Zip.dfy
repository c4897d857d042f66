/**
 The ZIP writer of markdown-archive.ts, and a reader written from sections 4.3.7, 4.3.12 and 4.3.16 of APPNOTE.TXT.
 Files are stored, not compressed. Names and contents are the encoded bytes.
 */
module Zip {
  import opened Wrappers

  type Byte = x: int | 0 <= x < 256

  /******* Little-endian fields *******/

  /** `setUint16`: the value modulo 2^16. */
  function U16(v: int): (r: seq<Byte>)
    ensures |r| == 2
  {
    [v % 256, v / 256 % 256]
  }

  /** `setUint32`: the value modulo 2^32. */
  function U32(v: int): (r: seq<Byte>)
    ensures |r| == 4
  {
    [v % 256, v / 256 % 256, v / 65536 % 256, v / 16777216 % 256]
  }

  function ReadU16(s: seq<Byte>, i: nat): nat
    requires i + 2 <= |s|
  {
    s[i] as int + 256 * s[i + 1] as int
  }

  function ReadU32(s: seq<Byte>, i: nat): nat
    requires i + 4 <= |s|
  {
    s[i] as int + 256 * s[i + 1] as int + 65536 * s[i + 2] as int + 16777216 * s[i + 3] as int
  }

  lemma ReadsU16(s: seq<Byte>, i: nat, v: int)
    requires i + 2 <= |s| && s[i..i + 2] == U16(v)
    ensures ReadU16(s, i) == v % 65536
  {
    assert s[i] == s[i..i + 2][0] && s[i + 1] == s[i..i + 2][1];
    var a := v / 256;
    assert v == 256 * a + v % 256 && a == 256 * (a / 256) + a % 256;
    assert v == 65536 * (a / 256) + (256 * (a % 256) + v % 256);
  }

  lemma ReadsU32(s: seq<Byte>, i: nat, v: int)
    requires i + 4 <= |s| && s[i..i + 4] == U32(v)
    ensures ReadU32(s, i) == v % 0x1_0000_0000
  {
    assert s[i] == s[i..i + 4][0] && s[i + 1] == s[i..i + 4][1] && s[i + 2] == s[i..i + 4][2] && s[i + 3] == s[i..i + 4][3];
    var a, b, c := v / 256, v / 65536, v / 16777216;
    assert b == a / 256 && c == b / 256;
    assert v == 256 * a + v % 256 && a == 256 * b + a % 256 && b == 256 * c + b % 256;
    assert v == 16777216 * c + (65536 * (b % 256) + 256 * (a % 256) + v % 256);
    assert c == 256 * (c / 256) + c % 256;
    assert v == 0x1_0000_0000 * (c / 256) + (16777216 * (c % 256) + 65536 * (b % 256) + 256 * (a % 256) + v % 256);
  }

  /******* Dates *******/

  /** The local calendar fields of a valid date; months count from 1. */
  datatype Date = Date(year: int, month: int, day: int, hours: int, minutes: int, seconds: int)

  predicate IsDate(d: Date) {
    1 <= d.month <= 12 && 1 <= d.day <= 31 && 0 <= d.hours < 24 && 0 <= d.minutes < 60 && 0 <= d.seconds < 60
  }

  /** The fields do not overlap, so `|` is addition; a year before 1980 is a negative multiple of 512. */
  function DosTime(d: Date): int { d.hours * 2048 + d.minutes * 32 + d.seconds / 2 }

  function DosDate(d: Date): int { (d.year - 1980) * 512 + d.month * 32 + d.day }

  /** What a reader makes of the two fields. */
  function ReadDate(time: nat, date: nat): Date {
    Date(1980 + date / 512, date / 32 % 16, date % 32, time / 2048, time / 32 % 64, time % 32 * 2)
  }

  lemma TimeReadsBack(d: Date)
    requires IsDate(d)
    ensures var t := DosTime(d); 0 <= t < 65536 && t / 2048 == d.hours && t / 32 % 64 == d.minutes && t % 32 == d.seconds / 2
  {
    var t := DosTime(d);
    assert t / 32 == 64 * d.hours + d.minutes;
  }

  lemma DayReadsBack(d: Date)
    requires IsDate(d)
    ensures var v := DosDate(d); v / 512 == d.year - 1980 && v / 32 % 16 == d.month && v % 32 == d.day
    ensures 1980 <= d.year <= 2107 <==> 0 <= DosDate(d) < 65536
  {
    var v := DosDate(d);
    assert v == 512 * (d.year - 1980) + (d.month * 32 + d.day) && 0 <= d.month * 32 + d.day < 512;
    assert v / 32 == 16 * (d.year - 1980) + d.month;
  }

  /** The stored date reads back to two seconds, if and only if its year is one the format can hold. */
  lemma DateReadsBackIff(d: Date)
    requires IsDate(d)
    ensures ReadDate(DosTime(d) % 65536, DosDate(d) % 65536) == d.(seconds := d.seconds / 2 * 2) <==> 1980 <= d.year <= 2107
  {
    hide DosTime, DosDate, IsDate;
    TimeReadsBack(d);
    DayReadsBack(d);
    var w := DosDate(d) % 65536;
    if !(0 <= DosDate(d) < 65536) {
      assert 0 <= w / 512 < 128;
    }
  }

  /******* Checksums *******/

  function CrcBit(crc: bv32): bv32 {
    if crc & 1 == 1 then (crc >> 1) ^ 0xedb88320 else crc >> 1
  }

  function CrcBits(crc: bv32, n: nat): bv32 {
    if n == 0 then crc else CrcBit(CrcBits(crc, n - 1))
  }

  /** The byte as a 32-bit word, bit by bit. */
  function Word(b: Byte): bv32 {
    (if b % 2 == 1 then 1 else 0) | (if b / 2 % 2 == 1 then 2 else 0) | (if b / 4 % 2 == 1 then 4 else 0) |
    (if b / 8 % 2 == 1 then 8 else 0) | (if b / 16 % 2 == 1 then 16 else 0) | (if b / 32 % 2 == 1 then 32 else 0) |
    (if b / 64 % 2 == 1 then 64 else 0) | (if b / 128 % 2 == 1 then 128 else 0)
  }

  function CrcByte(crc: bv32, b: Byte): bv32 { CrcBits(crc ^ Word(b), 8) }

  function CrcState(bytes: seq<Byte>): bv32 {
    if bytes == [] then 0xffffffff else CrcByte(CrcState(bytes[..|bytes| - 1]), bytes[|bytes| - 1])
  }

  /** CRC-32 of the bytes. */
  function Crc(bytes: seq<Byte>): bv32 { CrcState(bytes) ^ 0xffffffff }

  lemma CrcBitsNone(crc: bv32)
    ensures CrcBits(crc, 0) == crc
  {
  }

  lemma CrcBitsNext(crc: bv32, n: nat)
    ensures CrcBits(crc, n + 1) == CrcBit(CrcBits(crc, n))
  {
  }

  lemma CrcByteIs(crc: bv32, b: Byte)
    ensures CrcByte(crc, b) == CrcBits(crc ^ Word(b), 8)
  {
  }

  /** The inner loop: eight shifts for one byte. */
  method FeedByte(crc: bv32, b: Byte) returns (r: bv32)
    ensures r == CrcByte(crc, b)
  {
    hide CrcBit, Word, CrcBits, CrcByte;
    ghost var before := crc ^ Word(b);
    CrcBitsNone(before);
    r := crc ^ Word(b);
    for bit := 0 to 8
      invariant r == CrcBits(before, bit)
    {
      CrcBitsNext(before, bit);
      r := CrcBit(r);
    }
    CrcByteIs(crc, b);
  }

  method Crc32(bytes: seq<Byte>) returns (r: bv32)
    ensures r == Crc(bytes)
  {
    hide CrcByte;
    var crc: bv32 := 0xffffffff;
    for i := 0 to |bytes|
      invariant crc == CrcState(bytes[..i])
    {
      assert bytes[..i + 1][..i] == bytes[..i];
      crc := FeedByte(crc, bytes[i]);
    }
    assert bytes[..|bytes|] == bytes;
    r := crc ^ 0xffffffff;
  }

  lemma CrcBitInjective(a: bv32, b: bv32)
    requires CrcBit(a) == CrcBit(b)
    ensures a == b
  {
  }

  lemma {:induction false} CrcBitsInjective(a: bv32, b: bv32, n: nat)
    requires CrcBits(a, n) == CrcBits(b, n)
    ensures a == b
  {
    hide CrcBit;
    if n > 0 {
      CrcBitInjective(CrcBits(a, n - 1), CrcBits(b, n - 1));
      CrcBitsInjective(a, b, n - 1);
    }
  }

  lemma MixInjective(s: bv32, t: bv32, x: bv32, y: bv32)
    requires CrcBits(s ^ x, 8) == CrcBits(t ^ y, 8)
    ensures x == y ==> s == t
    ensures s == t ==> x == y
  {
    CrcBitsInjective(s ^ x, t ^ y, 8);
    Xors(s, t, x, y);
  }

  lemma Xors(s: bv32, t: bv32, x: bv32, y: bv32)
    requires s ^ x == t ^ y
    ensures x == y ==> s == t
    ensures s == t ==> x == y
  {
  }

  lemma FinalXorInjective(a: bv32, b: bv32)
    requires a ^ 0xffffffff == b ^ 0xffffffff
    ensures a == b
  {
  }

  lemma SameLowBits(a: Byte, b: Byte)
    requires Word(a) == Word(b)
    ensures a % 2 == b % 2 && a / 2 % 2 == b / 2 % 2 && a / 4 % 2 == b / 4 % 2 && a / 8 % 2 == b / 8 % 2
  {
  }

  lemma SameHighBits(a: Byte, b: Byte)
    requires Word(a) == Word(b)
    ensures a / 16 % 2 == b / 16 % 2 && a / 32 % 2 == b / 32 % 2 && a / 64 % 2 == b / 64 % 2 && a / 128 % 2 == b / 128 % 2
  {
  }

  lemma WordInjective(a: Byte, b: Byte)
    requires Word(a) == Word(b)
    ensures a == b
  {
    hide Word;
    SameLowBits(a, b);
    SameHighBits(a, b);
    SumOfBits(a);
    SumOfBits(b);
  }

  lemma SumOfBits(b: Byte)
    ensures b == b % 2 + 2 * (b / 2 % 2) + 4 * (b / 4 % 2) + 8 * (b / 8 % 2)
                 + 16 * (b / 16 % 2) + 32 * (b / 32 % 2) + 64 * (b / 64 % 2) + 128 * (b / 128 % 2)
  {
    assert b / 4 == b / 2 / 2 && b / 8 == b / 4 / 2 && b / 16 == b / 8 / 2 && b / 32 == b / 16 / 2;
    assert b / 64 == b / 32 / 2 && b / 128 == b / 64 / 2 && b / 128 < 2;
  }

  /** The checksum notices every change of a single byte. */
  lemma {:induction false} CrcNoticesOneByte(a: seq<Byte>, b: seq<Byte>, k: nat)
    requires |a| == |b| && k < |a| && a[k] != b[k] && forall i :: 0 <= i < |a| && i != k ==> a[i] == b[i]
    ensures Crc(a) != Crc(b)
  {
    hide CrcState;
    StatesDiffer(a, b, k);
    if Crc(a) == Crc(b) {
      FinalXorInjective(CrcState(a), CrcState(b));
    }
  }

  lemma DigitWord()
    ensures 0xffffffff ^ Word(49) == 0xffffffce
  {
  }

  lemma DigitSteps()
    ensures CrcBit(0xffffffce) == 0x7fffffe7
    ensures CrcBit(0x7fffffe7) == 0xd2477cd3
    ensures CrcBit(0xd2477cd3) == 0x849b3d49
    ensures CrcBit(0x849b3d49) == 0xaff51d84
    ensures CrcBit(0xaff51d84) == 0x57fa8ec2
    ensures CrcBit(0x57fa8ec2) == 0x2bfd4761
    ensures CrcBit(0x2bfd4761) == 0xf8462090
    ensures CrcBit(0xf8462090) == 0x7c231048
  {
  }

  /** The checksum of the one digit 1, so that the polynomial and the two complements are the standard's. */
  lemma CrcOfOneDigit()
    ensures Crc([49]) == 0x83dcefb7
  {
    hide CrcByte, CrcBits, CrcBit, Word;
    assert CrcState([]) == 0xffffffff && [49][..0] == [];
    CrcByteIs(0xffffffff, 49);
    DigitWord();
    DigitSteps();
    CrcBitsNone(0xffffffce);
    CrcBitsNext(0xffffffce, 0);
    CrcBitsNext(0xffffffce, 1);
    CrcBitsNext(0xffffffce, 2);
    CrcBitsNext(0xffffffce, 3);
    CrcBitsNext(0xffffffce, 4);
    CrcBitsNext(0xffffffce, 5);
    CrcBitsNext(0xffffffce, 6);
    CrcBitsNext(0xffffffce, 7);
  }

  /** One step of the checksum loses nothing: neither of the state nor of the byte. */
  lemma CrcByteInjective(s: bv32, t: bv32, x: Byte, y: Byte)
    requires CrcByte(s, x) == CrcByte(t, y)
    ensures x == y ==> s == t
    ensures s == t ==> x == y
  {
    hide CrcBits, Word, CrcByte;
    CrcByteIs(s, x);
    CrcByteIs(t, y);
    MixInjective(s, t, Word(x), Word(y));
    if Word(x) == Word(y) {
      WordInjective(x, y);
    }
  }

  lemma {:induction false} StatesDiffer(a: seq<Byte>, b: seq<Byte>, k: nat)
    requires |a| == |b| && k < |a| && a[k] != b[k] && forall i :: 0 <= i < |a| && i != k ==> a[i] == b[i]
    ensures CrcState(a) != CrcState(b)
  {
    hide CrcByte;
    var n := |a| - 1;
    if k < n {
      StatesDiffer(a[..n], b[..n], k);
    } else {
      assert a[..n] == b[..n];
    }
    if CrcState(a) == CrcState(b) {
      CrcByteInjective(CrcState(a[..n]), CrcState(b[..n]), a[n], b[n]);
    }
  }
}
