/** CRC32 (src/coding.cc): the table-driven loop, the bit-serial division it stands for,
    and the changes it always detects. Word operations are named so that proofs about whole
    messages can treat them as opaque and use only their laws. */
module Checksum {
  import opened Slices

  type word = bv32

  const POLY: word := 0xEDB88320
  const ONES: word := 0xFFFF_FFFF

  function Xor(a: word, b: word): word { a ^ b }

  function Shr8(x: word): word { x >> 8 }

  function Shl8(x: word): word { x << 8 }

  function Low(x: word): word { x & 0xFF }

  function Shl1(x: word): word { x << 1 }

  function Bit(b: bool): word { if b then 1 else 0 }

  /** A small number as a word, and back from the `n` low bits of a word. */
  function Widen(b: nat): word
  {
    if b == 0 then 0 else Xor(Shl1(Widen(b / 2)), Bit(b % 2 == 1))
  }

  function Narrow(x: word, n: nat): (b: nat)
    ensures b < Pow2(n)
    decreases n
  {
    if n == 0 then 0 else (if Odd(x) then 1 else 0) + 2 * Narrow(Shr1(x), n - 1)
  }

  function Pow2(n: nat): nat
  {
    if n == 0 then 1 else 2 * Pow2(n - 1)
  }

  /** The number that all 32 bits stand for. */
  function ToNat(x: word): (n: nat)
    ensures n < 0x1_0000_0000
  {
    PowersOfTwo();
    Narrow(x, 32)
  }

  lemma PowersOfTwo()
    ensures Pow2(8) == 0x100 && Pow2(16) == 0x1_0000 && Pow2(24) == 0x100_0000 && Pow2(32) == 0x1_0000_0000
  {
    assert Pow2(4) == 16;
    assert Pow2(8) == 16 * Pow2(4);
    assert Pow2(12) == 16 * Pow2(8);
    assert Pow2(16) == 16 * Pow2(12);
    assert Pow2(20) == 16 * Pow2(16);
    assert Pow2(24) == 16 * Pow2(20);
    assert Pow2(28) == 16 * Pow2(24);
    assert Pow2(32) == 16 * Pow2(28);
  }

  function Shr1(x: word): word { x >> 1 }

  predicate Odd(x: word) { x & 1 == 1 }

  /** Divides by x once: the inner step of the table construction. */
  function Step(x: word): word
  {
    if Odd(x) then Xor(POLY, Shr1(x)) else Shr1(x)
  }

  function Steps(x: word, n: nat): word
    decreases n
  {
    if n == 0 then x else Steps(Step(x), n - 1)
  }

  /** The register after `data`, a byte at a time. */
  function Register(crc: word, data: Bytes): word
    decreases |data|
  {
    if data == [] then crc else Register(Steps(Xor(crc, Widen(data[0])), 8), data[1..])
  }

  /** The checksum every file format here stores. */
  function Crc32(data: Bytes): (r: nat)
    ensures r < 0x1_0000_0000
  {
    ToNat(Xor(Register(ONES, data), ONES))
  }

  // ---- Laws of the word operations ----

  lemma XorAssociative(a: word, b: word, c: word)
    ensures Xor(Xor(a, b), c) == Xor(a, Xor(b, c))
  {}

  lemma XorCommutes(a: word, b: word)
    ensures Xor(a, b) == Xor(b, a)
  {}

  lemma XorZero(a: word)
    ensures Xor(a, 0) == a
  {}

  lemma XorCancel(a: word, b: word, c: word)
    requires Xor(a, c) == Xor(b, c)
    ensures a == b
  {}

  lemma ShiftXor(x: word, y: word)
    ensures Shr1(Xor(x, y)) == Xor(Shr1(x), Shr1(y))
  {}

  lemma ParityXor(x: word, y: word)
    ensures Odd(Xor(x, y)) <==> Odd(x) != Odd(y)
  {}

  lemma XorTwice(p: word, a: word, b: word)
    ensures Xor(Xor(p, a), Xor(p, b)) == Xor(a, b)
  {
    hide Xor;
    XorCommutes(p, a);
    XorAssociative(a, p, Xor(p, b));
    XorSelfInverse(p, b);
  }

  lemma XorSelfInverse(p: word, b: word)
    ensures Xor(p, Xor(p, b)) == b
  {}

  lemma XorMiddle(p: word, a: word, b: word)
    ensures Xor(a, Xor(p, b)) == Xor(p, Xor(a, b))
  {}

  lemma StepLinear(x: word, y: word)
    ensures Step(Xor(x, y)) == Xor(Step(x), Step(y))
  {
    hide Xor, Shr1, Odd;
    ShiftXor(x, y);
    ParityXor(x, y);
    XorTwice(POLY, Shr1(x), Shr1(y));
    XorMiddle(POLY, Shr1(x), Shr1(y));
    XorAssociative(POLY, Shr1(x), Shr1(y));
  }

  lemma StepInjective(x: word, y: word)
    requires Step(x) == Step(y)
    ensures x == y
  {}

  lemma SplitWord(x: word)
    ensures x == Xor(Low(x), Shl8(Shr8(x)))
    ensures Shr8(x) <= 0xFF_FFFF
  {}

  lemma JoinWord(b: word, p: word)
    requires b <= 0xFF && p <= 0xFF_FFFF
    ensures Low(Xor(b, Shl8(p))) == b && Shr8(Xor(b, Shl8(p))) == p
  {}

  lemma JoinBound(b: word, p: word)
    requires b <= 0xFF
    ensures p == 0 ==> Xor(b, Shl8(p)) <= 0xFF
    ensures p <= 0xFF ==> Xor(b, Shl8(p)) <= 0xFFFF
    ensures p <= 0xFFFF ==> Xor(b, Shl8(p)) <= 0xFF_FFFF
  {}

  lemma HighPart(x: word, b: word)
    requires b <= 0xFF
    ensures Shr8(Xor(x, b)) == Shr8(x)
  {}

  lemma ShiftInBit(w: word, b: bool)
    requires w <= 0x7FFF_FFFF
    ensures Odd(Xor(Shl1(w), Bit(b))) == b && Shr1(Xor(Shl1(w), Bit(b))) == w
  {
    hide Xor, Shl1, Shr1, Odd, Bit;
    ParityXor(Shl1(w), Bit(b));
    ShiftXor(Shl1(w), Bit(b));
    BitParts(b);
    DoubleParts(w);
    XorZero(w);
  }

  lemma BitParts(b: bool)
    ensures Odd(Bit(b)) == b && Shr1(Bit(b)) == 0
  {}

  lemma DoubleParts(w: word)
    requires w <= 0x7FFF_FFFF
    ensures !Odd(Shl1(w)) && Shr1(Shl1(w)) == w
  {}

  lemma ShiftOutBit(x: word)
    ensures x == Xor(Shl1(Shr1(x)), Bit(Odd(x)))
  {}

  /** What is left of a word after shifting out `n` bits. */
  function Drop(bits: word, n: nat): word
    decreases n
  {
    if n == 0 then bits else Drop(Shr1(bits), n - 1)
  }

  lemma {:induction false} DropAdd(w: word, m: nat, n: nat)
    ensures Drop(Drop(w, m), n) == Drop(w, m + n)
    decreases m
  {
    hide Shr1;
    if m > 0 { DropAdd(Shr1(w), m - 1, n); }
  }

  lemma {:induction false} DropZero(n: nat)
    ensures Drop(0, n) == 0
  {
    if n > 0 { DropZero(n - 1); }
  }

  /** A word of at most eight bits is a byte. */
  lemma DropAll(w: word)
    ensures Drop(w, 8) == 0 <==> w <= 0xFF
  {
    hide Shr1;
    var y := Shr1(Shr1(Shr1(Shr1(w))));
    assert Drop(w, 8) == Drop(Shr1(Shr1(w)), 6) == Drop(y, 4);
    assert Drop(y, 4) == Drop(Shr1(Shr1(y)), 2) == Shr1(Shr1(Shr1(Shr1(y))));
    EightShifts(w);
  }

  lemma EightShifts(w: word)
    ensures Shr1(Shr1(Shr1(Shr1(Shr1(Shr1(Shr1(Shr1(w)))))))) == 0 <==> w <= 0xFF
  {}

  lemma {:induction false} WidenFits(b: nat, n: nat)
    requires n <= 8 && b < Pow2(n)
    ensures Drop(Widen(b), n) == 0 && Widen(b) <= 0xFF
    decreases n
  {
    hide Shr1, Shl1, Xor, Bit, Odd;
    if b == 0 {
      DropZero(n);
    } else {
      WidenFits(b / 2, n - 1);
      ShiftInBit(Widen(b / 2), b % 2 == 1);
    }
    DropAdd(Widen(b), n, 8 - n);
    DropZero(8 - n);
    DropAll(Widen(b));
  }

  lemma WidenLaws(b: byte)
    ensures Widen(b) <= 0xFF
  {
    assert Pow2(8) == 256;
    WidenFits(b, 8);
  }

  lemma {:induction false} NarrowUndoesWiden(b: nat, n: nat)
    requires n <= 8 && b < Pow2(n)
    ensures Narrow(Widen(b), n) == b
    decreases n
  {
    hide Shr1, Shl1, Xor, Bit, Odd;
    if b == 0 {
      NarrowZero(n);
    } else {
      WidenFits(b / 2, n - 1);
      ShiftInBit(Widen(b / 2), b % 2 == 1);
      NarrowUndoesWiden(b / 2, n - 1);
    }
  }

  lemma {:induction false} NarrowZero(n: nat)
    ensures Narrow(0, n) == 0
  {
    if n > 0 { NarrowZero(n - 1); }
  }

  lemma {:induction false} WidenUndoesNarrow(x: word, n: nat)
    requires Drop(x, n) == 0
    ensures Widen(Narrow(x, n)) == x
    decreases n
  {
    hide Shr1, Shl1, Xor, Bit, Odd;
    if n > 0 {
      WidenUndoesNarrow(Shr1(x), n - 1);
      ShiftOutBit(x);
      ZeroWord();
    }
  }

  lemma ZeroWord()
    ensures Xor(Shl1(0), Bit(false)) == 0
  {}

  lemma WidenInjective(b: byte, c: byte)
    requires Widen(b) == Widen(c)
    ensures b == c
  {
    assert Pow2(8) == 256;
    NarrowUndoesWiden(b, 8);
    NarrowUndoesWiden(c, 8);
  }

  lemma ToNatInjective(x: word, y: word)
    requires ToNat(x) == ToNat(y)
    ensures x == y
  {
    ToNatRoundTrip(x);
    ToNatRoundTrip(y);
  }

  lemma ToNatRoundTrip(x: word)
    ensures Widen(ToNat(x)) == x
  {
    DropsOf(x);
    WidenUndoesNarrow(x, 32);
  }

  /** Shifting out eight bits at a time. */
  lemma DropsOf(x: word)
    ensures Drop(x, 8) == Shr8(x) && Drop(x, 16) == Shr8(Shr8(x)) && Drop(x, 24) == Shr8(Shr8(Shr8(x))) && Drop(x, 32) == 0
  {
    hide Drop, Shr8;
    DropByte(x);
    DropByte(Shr8(x));
    DropByte(Shr8(Shr8(x)));
    DropByte(Shr8(Shr8(Shr8(x))));
    DropAdd(x, 8, 8);
    DropAdd(x, 16, 8);
    DropAdd(x, 24, 8);
    FourShifts(x);
  }

  lemma FourShifts(x: word)
    ensures Shr8(Shr8(Shr8(Shr8(x)))) == 0
  {}

  lemma DropByte(x: word)
    ensures Drop(x, 8) == Shr8(x)
  {
    hide Shr1, Shr8;
    var y := Shr1(Shr1(Shr1(Shr1(x))));
    assert Drop(x, 8) == Drop(Shr1(Shr1(x)), 6) == Drop(y, 4);
    assert Drop(y, 4) == Drop(Shr1(Shr1(y)), 2) == Shr1(Shr1(Shr1(Shr1(y))));
    EightShiftsAre(x);
  }

  lemma EightShiftsAre(x: word)
    ensures Shr1(Shr1(Shr1(Shr1(Shr1(Shr1(Shr1(Shr1(x)))))))) == Shr8(x)
  {}

  lemma EightSteps(x: word)
    ensures Steps(x, 8) == Step(Step(Step(Step(Step(Step(Step(Step(x))))))))
  {
    hide Step;
    var y := Step(Step(Step(Step(x))));
    assert Steps(x, 8) == Steps(Step(Step(x)), 6) == Steps(y, 4);
    assert Steps(y, 4) == Steps(Step(Step(y)), 2) == Step(Step(Step(Step(y))));
  }

  lemma StepHalves(q: word)
    requires q <= 0x7FFF_FFFF
    ensures Step(Shl1(q)) == q
  {}

  lemma EightDoublings(p: word)
    requires p <= 0xFF_FFFF
    ensures Shl8(p) == Shl1(Shl1(Shl1(Shl1(Shl1(Shl1(Shl1(Shl1(p))))))))
    ensures Shl1(p) <= 0x7FFF_FFFF && Shl1(Shl1(p)) <= 0x7FFF_FFFF && Shl1(Shl1(Shl1(p))) <= 0x7FFF_FFFF
    ensures Shl1(Shl1(Shl1(Shl1(p)))) <= 0x7FFF_FFFF
    ensures Shl1(Shl1(Shl1(Shl1(Shl1(p))))) <= 0x7FFF_FFFF
    ensures Shl1(Shl1(Shl1(Shl1(Shl1(Shl1(p)))))) <= 0x7FFF_FFFF
    ensures Shl1(Shl1(Shl1(Shl1(Shl1(Shl1(Shl1(p))))))) <= 0x7FFF_FFFF
  {}

  /** Eight steps of a word with eight zero low bits only shift it. */
  lemma ShiftBack(p: word)
    requires p <= 0xFF_FFFF
    ensures Steps(Shl8(p), 8) == p
  {
    hide Step, Steps, Shl1, Shl8;
    EightSteps(Shl8(p));
    EightDoublings(p);
    var p1 := Shl1(p); var p2 := Shl1(p1); var p3 := Shl1(p2); var p4 := Shl1(p3);
    var p5 := Shl1(p4); var p6 := Shl1(p5); var p7 := Shl1(p6);
    StepHalves(p7); StepHalves(p6); StepHalves(p5); StepHalves(p4);
    StepHalves(p3); StepHalves(p2); StepHalves(p1); StepHalves(p);
  }

  lemma {:induction false} StepsLinear(x: word, y: word, n: nat)
    ensures Steps(Xor(x, y), n) == Xor(Steps(x, n), Steps(y, n))
    decreases n
  {
    hide Step, Xor;
    if n > 0 {
      StepLinear(x, y);
      StepsLinear(Step(x), Step(y), n - 1);
    }
  }

  lemma {:induction false} StepsInjective(x: word, y: word, n: nat)
    requires Steps(x, n) == Steps(y, n)
    ensures x == y
    decreases n
  {
    hide Step;
    if n > 0 {
      StepsInjective(Step(x), Step(y), n - 1);
      StepInjective(x, y);
    }
  }

  lemma {:induction false} StepsAdd(x: word, m: nat, n: nat)
    ensures Steps(Steps(x, m), n) == Steps(x, m + n)
    decreases m
  {
    hide Step;
    if m > 0 { StepsAdd(Step(x), m - 1, n); }
  }

  // ---- Reference: the shift register of polynomial division, one message bit at a time ----

  /** Feeds one message bit into the register. */
  function FeedBit(crc: word, bit: word): word
  {
    if Odd(Xor(crc, bit)) then Xor(Shr1(crc), POLY) else Shr1(crc)
  }

  function Bit0(bits: word): word { bits & 1 }

  /** Feeds the `n` low bits of `bits`, least significant first. */
  function FeedBits(crc: word, bits: word, n: nat): word
    decreases n
  {
    if n == 0 then crc else FeedBits(FeedBit(crc, Bit0(bits)), Shr1(bits), n - 1)
  }

  function BitSerial(crc: word, data: Bytes): word
    decreases |data|
  {
    if data == [] then crc else BitSerial(FeedBits(crc, Widen(data[0]), 8), data[1..])
  }

  lemma FeedBitIsStep(crc: word, bits: word)
    ensures Step(Xor(crc, bits)) == Xor(FeedBit(crc, Bit0(bits)), Shr1(bits))
  {
    hide Xor, Shr1, Odd, Bit0;
    OddOfBit(crc, bits);
    ShiftXor(crc, bits);
    XorAssociative(POLY, Shr1(crc), Shr1(bits));
    XorCommutes(Shr1(crc), POLY);
  }

  lemma OddOfBit(crc: word, bits: word)
    ensures Odd(Xor(crc, bits)) <==> Odd(Xor(crc, Bit0(bits)))
  {}

  /** While `n` bits remain, the byte-wise register is the bit-serial one plus the bits not yet fed. */
  lemma {:induction false} FeedBitsIsSteps(crc: word, bits: word, n: nat)
    requires Drop(bits, n) == 0
    ensures Steps(Xor(crc, bits), n) == FeedBits(crc, bits, n)
    decreases n
  {
    hide Step, FeedBit, Bit0, Shr1, Xor;
    if n > 0 {
      FeedBitIsStep(crc, bits);
      FeedBitsIsSteps(FeedBit(crc, Bit0(bits)), Shr1(bits), n - 1);
    } else {
      XorZero(crc);
    }
  }

  lemma {:induction false} RegisterIsBitSerial(crc: word, data: Bytes)
    ensures Register(crc, data) == BitSerial(crc, data)
    decreases |data|
  {
    hide Steps, FeedBits, Widen, Xor, Drop;
    if data != [] {
      WidenLaws(data[0]);
      DropAll(Widen(data[0]));
      FeedBitsIsSteps(crc, Widen(data[0]), 8);
      RegisterIsBitSerial(FeedBits(crc, Widen(data[0]), 8), data[1..]);
    }
  }

  // ---- The table ----

  /** InitCRCTable. The C++ fills one global table on the first call; its contents never depend
      on when that is. */
  method InitTable() returns (table: array<word>)
    ensures fresh(table) && table.Length == 256
    ensures forall i: byte :: table[i] == Steps(Widen(i), 8)
  {
    hide Widen, Step;
    table := new word[256];
    var i := 0;
    while i < 256
      invariant 0 <= i <= 256
      invariant forall k: byte :: k < i ==> table[k] == Steps(Widen(k), 8)
    {
      var crc := TableEntry(i);
      table[i] := crc;
      i := i + 1;
    }
  }

  method TableEntry(i: byte) returns (crc: word)
    ensures crc == Steps(Widen(i), 8)
  {
    hide Widen;
    crc := Widen(i);
    var j := 0;
    while j < 8
      invariant 0 <= j <= 8
      invariant Steps(crc, 8 - j) == Steps(Widen(i), 8)
    {
      crc := Divide(crc);
      j := j + 1;
    }
  }

  /** The `if (crc & 1)` of the innermost loop. */
  method Divide(x: word) returns (y: word)
    ensures y == Step(x)
  {
    y := x >> 1;
    if x & 1 == 1 {
      y := 0xEDB88320 ^ y;
    }
  }

  /** `x & 0xFF` as a table index. */
  function LowByte(x: word): (b: byte)
    ensures Widen(b) == Low(x)
  {
    assert Pow2(8) == 256;
    LowIsByte(x);
    DropAll(Low(x));
    WidenUndoesNarrow(Low(x), 8);
    Narrow(Low(x), 8)
  }

  lemma LowIsByte(x: word)
    ensures Low(x) <= 0xFF
  {}

  /** One table look-up does the work of eight bit steps. */
  lemma TableStep(reg: word, b: byte)
    ensures Xor(Steps(Low(Xor(reg, Widen(b))), 8), Shr8(reg)) == Steps(Xor(reg, Widen(b)), 8)
  {
    hide Steps, Widen, Low, Xor, Shr8, Shl8;
    var y := Xor(reg, Widen(b));
    SplitWord(y);
    StepsLinear(Low(y), Shl8(Shr8(y)), 8);
    ShiftBack(Shr8(y));
    WidenLaws(b);
    HighPart(reg, Widen(b));
  }

  /** CRC32: one table look-up a byte, equal to the bit-serial division for every input. */
  method ComputeCrc32(data: Bytes) returns (crc: nat)
    ensures crc == Crc32(data)
    ensures crc == ToNat(Xor(BitSerial(0xFFFF_FFFF, data), 0xFFFF_FFFF))
  {
    hide Steps, Widen, Low, Xor, Shr8, ToNat;
    var table := InitTable();
    var reg: word := 0xFFFFFFFF;
    var i := 0;
    while i < |data|
      invariant 0 <= i <= |data|
      invariant Register(reg, data[i..]) == Register(ONES, data)
      invariant forall b: byte :: table[b] == Steps(Widen(b), 8)
    {
      TableStep(reg, data[i]);
      var index := LowByte(Xor(reg, Widen(data[i])));
      assert table[index] == Steps(Widen(index), 8);
      assert data[i..][0] == data[i];
      reg := Xor(table[index], Shr8(reg));
      assert data[i..][1..] == data[i + 1..];
      i := i + 1;
    }
    RegisterIsBitSerial(ONES, data);
    crc := ToNat(Xor(reg, 0xFFFFFFFF));
  }

  // ---- What the checksum detects ----

  /** Each byte step is injective on the register, so the rest of a message never hides a change. */
  lemma {:induction false} RegisterInjective(x: word, y: word, data: Bytes)
    requires Register(x, data) == Register(y, data)
    ensures x == y
    decreases |data|
  {
    hide Steps, Widen, Xor;
    if data != [] {
      var b := Widen(data[0]);
      RegisterInjective(Steps(Xor(x, b), 8), Steps(Xor(y, b), 8), data[1..]);
      StepsInjective(Xor(x, b), Xor(y, b), 8);
      XorCancel(x, y, b);
    }
  }

  lemma {:induction false} RegisterAppend(crc: word, a: Bytes, b: Bytes)
    ensures Register(crc, a + b) == Register(Register(crc, a), b)
    decreases |a|
  {
    hide Steps, Widen, Xor;
    if a == [] {
      assert a + b == b;
    } else {
      assert (a + b)[1..] == a[1..] + b;
      RegisterAppend(Steps(Xor(crc, Widen(a[0])), 8), a[1..], b);
    }
  }

  /** Up to four bytes as one word, the first byte lowest. */
  function Pack(w: Bytes): word
  {
    if w == [] then 0 else Xor(Widen(w[0]), Shl8(Pack(w[1..])))
  }

  lemma {:induction false} PackBound(w: Bytes)
    ensures |w| <= 1 ==> Pack(w) <= 0xFF
    ensures |w| <= 2 ==> Pack(w) <= 0xFFFF
    ensures |w| <= 3 ==> Pack(w) <= 0xFF_FFFF
  {
    hide Widen, Xor, Shl8;
    if w != [] {
      PackBound(w[1..]);
      WidenLaws(w[0]);
      JoinBound(Widen(w[0]), Pack(w[1..]));
    }
  }

  lemma {:induction false} PackInjective(v: Bytes, w: Bytes)
    requires |v| == |w| <= 4 && Pack(v) == Pack(w)
    ensures v == w
  {
    hide Widen, Xor, Shl8, Low, Shr8;
    if v != [] {
      PackBound(v[1..]); PackBound(w[1..]);
      WidenLaws(v[0]); WidenLaws(w[0]);
      JoinWord(Widen(v[0]), Pack(v[1..]));
      JoinWord(Widen(w[0]), Pack(w[1..]));
      WidenInjective(v[0], w[0]);
      PackInjective(v[1..], w[1..]);
      assert v == [v[0]] + v[1..] && w == [w[0]] + w[1..];
    }
  }

  /** Up to four bytes enter the register as one exclusive-or of a word. */
  lemma {:induction false} RegisterOfWord(crc: word, w: Bytes)
    requires |w| <= 4
    ensures Register(crc, w) == Steps(Xor(crc, Pack(w)), 8 * |w|)
    decreases |w|
  {
    hide Steps, Widen, Xor, Shl8;
    if w == [] {
      XorZero(crc);
      StepsAdd(crc, 0, 0);
      NoSteps(crc);
    } else {
      var b, p := Widen(w[0]), Pack(w[1..]);
      RegisterOfWord(Steps(Xor(crc, b), 8), w[1..]);
      PackBound(w[1..]);
      ShiftBack(p);
      StepsLinear(Xor(crc, b), Shl8(p), 8);
      XorAssociative(crc, b, Shl8(p));
      StepsAdd(Xor(crc, Pack(w)), 8, 8 * |w[1..]|);
    }
  }

  lemma NoSteps(x: word)
    ensures Steps(x, 0) == x
  {}

  /** A change confined to four consecutive bytes always changes the checksum. */
  lemma CrcDetectsBurst(before: Bytes, v: Bytes, w: Bytes, after: Bytes)
    requires |v| == |w| <= 4 && v != w
    ensures Crc32(before + v + after) != Crc32(before + w + after)
  {
    hide Steps, Widen, Xor, Register, Pack, ToNat;
    if Crc32(before + v + after) == Crc32(before + w + after) {
      var r, s := Register(ONES, before + v + after), Register(ONES, before + w + after);
      ToNatInjective(Xor(r, ONES), Xor(s, ONES));
      XorCancel(r, s, ONES);
      BurstRegisters(before, v, w, after);
    }
  }

  lemma BurstRegisters(before: Bytes, v: Bytes, w: Bytes, after: Bytes)
    requires |v| == |w| <= 4
    requires Register(ONES, before + v + after) == Register(ONES, before + w + after)
    ensures v == w
  {
    hide Steps, Widen, Xor, Register, Pack, ToNat;
    var start := Register(ONES, before);
    RegisterAppend(ONES, before + v, after); RegisterAppend(ONES, before, v);
    RegisterAppend(ONES, before + w, after); RegisterAppend(ONES, before, w);
    RegisterInjective(Register(start, v), Register(start, w), after);
    RegisterOfWord(start, v); RegisterOfWord(start, w);
    StepsInjective(Xor(start, Pack(v)), Xor(start, Pack(w)), 8 * |v|);
    XorCommutes(start, Pack(v)); XorCommutes(start, Pack(w));
    XorCancel(Pack(v), Pack(w), start);
    PackInjective(v, w);
  }
}
