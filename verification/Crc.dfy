/**
 CRC-32 twice: bit by bit (engine/src/zip.rs) and a table look-up a byte (host/zip.js). The second is the
 first, and a checksum can be continued. A 32-bit word is its bits, the lowest first.
 */
module Crc {
  import opened ByteStrings

  type Word = w: seq<bool> | |w| == 32 witness seq(32, _ => false)

  function Pow2(n: nat): (r: nat)
    ensures r > 0
  {
    if n == 0 then 1 else 2 * Pow2(n - 1)
  }

  /** Bit `i` of a number. */
  predicate BitOf(n: nat, i: nat)
    decreases i
  {
    if i == 0 then n % 2 == 1 else BitOf(n / 2, i - 1)
  }

  function WordOf(n: nat): Word { seq(32, i requires 0 <= i < 32 => BitOf(n, i)) }

  /** The number the `k` bits from bit `from` stand for. */
  function Number(w: seq<bool>, from: nat, k: nat): (r: nat)
    requires from + k <= |w|
    ensures r < Pow2(k)
    decreases k
  {
    if k == 0 then 0 else (if w[from] then 1 else 0) + 2 * Number(w, from + 1, k - 1)
  }

  function Xor(a: Word, b: Word): Word { seq(32, i requires 0 <= i < 32 => a[i] != b[i]) }

  function And(a: Word, b: Word): Word { seq(32, i requires 0 <= i < 32 => a[i] && b[i]) }

  function ShiftRight(a: Word, k: nat): Word { seq(32, i requires 0 <= i < 32 => i + k < 32 && a[i + k]) }

  function Not(a: Word): Word { seq(32, i requires 0 <= i < 32 => !a[i]) }

  /** The byte a word ends in, alone. */
  function LowByte(a: Word): Word { seq(32, i requires 0 <= i < 32 => i < 8 && a[i]) }

  const POLYNOMIAL: Word := WordOf(0xedb8_8320)

  /** One bit shifted out, as the table is built. */
  function Shift(c: Word): Word {
    if c[0] then Xor(POLYNOMIAL, ShiftRight(c, 1)) else ShiftRight(c, 1)
  }

  function Shifts(c: Word, n: nat): Word {
    if n == 0 then c else Shift(Shifts(c, n - 1))
  }

  // ---- bit by bit ---------------------------------------------------------------------------------------

  /** The register after `bytes`, from `c`. */
  function Register(c: Word, bytes: seq<Byte>): Word {
    if bytes == [] then c
    else Shifts(Xor(Register(c, bytes[..|bytes| - 1]), WordOf(bytes[|bytes| - 1])), 8)
  }

  /** The checksum of `bytes` continued from checksum `crc` (no bits to start). */
  function Continue(bytes: seq<Byte>, crc: Word): Word { Not(Register(Not(crc), bytes)) }

  function Zero(): Word { seq(32, _ => false) }

  function Crc32(bytes: seq<Byte>): Word { Continue(bytes, Zero()) }

  /** 0 or 1, negated in 32 bits: a mask of no bits or all. */
  function Mask(bit: bool): Word { seq(32, _ => bit) }

  method BitwiseCrc(bytes: seq<Byte>) returns (r: Word)
    ensures r == Crc32(bytes)
  {
    var crc: Word := Not(Zero());
    for i := 0 to |bytes|
      invariant crc == Register(Not(Zero()), bytes[..i])
    {
      assert bytes[..i + 1][..i] == bytes[..i];
      crc := Xor(crc, WordOf(bytes[i]));
      ghost var start := crc;
      for k := 0 to 8
        invariant crc == Shifts(start, k)
      {
        MaskedShift(crc);
        crc := Xor(ShiftRight(crc, 1), And(POLYNOMIAL, Mask(crc[0])));
      }
    }
    assert bytes[..|bytes|] == bytes;
    r := Not(crc);
  }

  /** The branchless step of the bitwise form is the branch of the table's. */
  lemma {:induction false} MaskedShift(c: Word)
    ensures Xor(ShiftRight(c, 1), And(POLYNOMIAL, Mask(c[0]))) == Shift(c)
  {
    assert forall i :: 0 <= i < 32 ==> Xor(ShiftRight(c, 1), And(POLYNOMIAL, Mask(c[0])))[i] == Shift(c)[i];
  }

  // ---- a byte at a time ---------------------------------------------------------------------------------

  /** Shifting is linear over exclusive or. */
  lemma {:induction false} ShiftXor(a: Word, b: Word)
    ensures Shift(Xor(a, b)) == Xor(Shift(a), Shift(b))
  {
    assert forall i :: 0 <= i < 32 ==> Shift(Xor(a, b))[i] == Xor(Shift(a), Shift(b))[i];
  }

  lemma {:induction false} ShiftsXor(a: Word, b: Word, n: nat)
    ensures Shifts(Xor(a, b), n) == Xor(Shifts(a, n), Shifts(b, n))
    decreases n
  {
    if n > 0 {
      ShiftsXor(a, b, n - 1);
      ShiftXor(Shifts(a, n - 1), Shifts(b, n - 1));
    }
  }

  /** Bits above the first `n`, nothing being below, move down unchanged. */
  lemma {:induction false} UpperBits(h: Word, n: nat)
    requires n <= 32 && forall i :: 0 <= i < n ==> !h[i]
    ensures Shifts(h, n) == ShiftRight(h, n)
    decreases n
  {
    if n == 0 {
      assert ShiftRight(h, 0) == h;
    } else {
      UpperBits(h, n - 1);
      var c := ShiftRight(h, n - 1);
      assert !c[0];
      assert ShiftRight(c, 1) == ShiftRight(h, n);
    }
  }

  /** Eight shifts at once: the table's entry for the low byte, and the rest moved down. */
  lemma {:induction false} ByteStep(x: Word)
    ensures Shifts(x, 8) == Xor(Shifts(LowByte(x), 8), ShiftRight(x, 8))
  {
    var h: Word := seq(32, i requires 0 <= i < 32 => i >= 8 && x[i]);
    assert Xor(LowByte(x), h) == x;
    ShiftsXor(LowByte(x), h, 8);
    UpperBits(h, 8);
    assert ShiftRight(h, 8) == ShiftRight(x, 8);
  }

  /** The byte added in does not reach past the low byte. */
  lemma {:induction false} ByteDropsOut(c: Word, b: Byte)
    ensures ShiftRight(Xor(c, WordOf(b)), 8) == ShiftRight(c, 8)
  {
    assert Pow2(8) == 256 by { assert Pow2(4) == 16; }
    forall i | 8 <= i < 32 ensures !BitOf(b, i) { NoHighBit(b, 8, i); }
    assert forall i :: 0 <= i < 32 ==> ShiftRight(Xor(c, WordOf(b)), 8)[i] == ShiftRight(c, 8)[i];
  }

  /** A number below 2^k has no bits from `k` on. */
  lemma {:induction false} NoHighBit(n: nat, k: nat, i: nat)
    requires n < Pow2(k) && i >= k
    ensures !BitOf(n, i)
    decreases i
  {
    if i > 0 { NoHighBit(n / 2, if k == 0 then 0 else k - 1, i - 1); }
  }

  /** Numbers and their bits. */
  lemma {:induction false} NumberBits(w: seq<bool>, from: nat, k: nat, i: nat)
    requires i < k && from + k <= |w|
    ensures BitOf(Number(w, from, k), i) == w[from + i]
    decreases k
  {
    if i > 0 {
      assert Number(w, from, k) / 2 == Number(w, from + 1, k - 1);
      NumberBits(w, from + 1, k - 1, i - 1);
    }
  }

  /** Looking up the low byte's number finds the low byte's entry. */
  lemma {:induction false} LowByteNumber(x: Word)
    ensures Number(x, 0, 8) < 256 && WordOf(Number(x, 0, 8)) == LowByte(x)
  {
    assert Pow2(8) == 256 by { assert Pow2(4) == 16; }
    forall i | 0 <= i < 32 ensures BitOf(Number(x, 0, 8), i) == LowByte(x)[i] {
      if i < 8 { NumberBits(x, 0, 8, i); } else { NoHighBit(Number(x, 0, 8), 8, i); }
    }
  }

  method MakeTable() returns (table: seq<Word>)
    ensures |table| == 256 && forall n :: 0 <= n < 256 ==> table[n] == Shifts(WordOf(n), 8)
  {
    table := [];
    for n := 0 to 256
      invariant |table| == n && forall i :: 0 <= i < n ==> table[i] == Shifts(WordOf(i), 8)
    {
      var c := WordOf(n);
      for k := 0 to 8
        invariant c == Shifts(WordOf(n), k)
      {
        c := if c[0] then Xor(POLYNOMIAL, ShiftRight(c, 1)) else ShiftRight(c, 1);
      }
      table := table + [c];
    }
  }

  /** The table-driven checksum is the bitwise one, from any running value. */
  method TableCrc(bytes: seq<Byte>, crc: Word) returns (r: Word)
    ensures r == Continue(bytes, crc)
  {
    var table := MakeTable();
    var c := Not(crc);
    for i := 0 to |bytes|
      invariant c == Register(Not(crc), bytes[..i])
    {
      assert bytes[..i + 1][..i] == bytes[..i];
      var x := Xor(c, WordOf(bytes[i]));
      LowByteNumber(x);
      ByteStep(x);
      ByteDropsOut(c, bytes[i]);
      c := Xor(table[Number(x, 0, 8)], ShiftRight(c, 8));
    }
    assert bytes[..|bytes|] == bytes;
    r := Not(c);
  }

  // ---- continuing ---------------------------------------------------------------------------------------

  lemma {:induction false} RegisterConcat(c: Word, a: seq<Byte>, b: seq<Byte>)
    ensures Register(c, a + b) == Register(Register(c, a), b)
    decreases |b|
  {
    if b == [] {
      assert a + b == a;
    } else {
      RegisterConcat(c, a, b[..|b| - 1]);
      assert (a + b)[..|a + b| - 1] == a + b[..|b| - 1];
    }
  }

  /** Going on over `b` after `a` is the checksum of both. */
  lemma {:induction false} ContinueConcat(a: seq<Byte>, b: seq<Byte>, crc: Word)
    ensures Continue(b, Continue(a, crc)) == Continue(a + b, crc)
  {
    RegisterConcat(Not(crc), a, b);
    assert Not(Not(Register(Not(crc), a))) == Register(Not(crc), a);
  }

  /** The checksum as the number that goes into an archive. */
  function CrcNumber(bytes: seq<Byte>): (r: nat)
    ensures r < 0x1_0000_0000
  {
    assert Pow2(32) == 0x1_0000_0000 by {
      assert Pow2(4) == 16;
      assert Pow2(8) == 256;
      assert Pow2(12) == 4096;
      assert Pow2(16) == 65536;
      assert Pow2(20) == 1048576;
      assert Pow2(24) == 16777216;
      assert Pow2(28) == 268435456;
    }
    Number(Crc32(bytes), 0, 32)
  }

  lemma {:induction false} NumberOfNothing(w: seq<bool>, from: nat, k: nat)
    requires from + k <= |w| && forall i :: from <= i < from + k ==> !w[i]
    ensures Number(w, from, k) == 0
    decreases k
  {
    if k > 0 { NumberOfNothing(w, from + 1, k - 1); }
  }

  /** Nothing has the checksum 0, which is what a directory's entry says. */
  lemma {:induction false} EmptyIsZero()
    ensures CrcNumber([]) == 0
  {
    NumberOfNothing(Crc32([]), 0, 32);
  }
}
