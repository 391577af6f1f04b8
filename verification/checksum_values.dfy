/** Which CRC32 it is: the laws that hold for its start value, final inversion and polynomial only (src/coding.cc). */
module ChecksumValues {
  import opened Slices
  import opened Coding
  import opened Checksum

  // ---- Words and their bytes ----

  /** The `m` low bits and the rest. */
  lemma {:induction false} NarrowSplit(x: word, m: nat, n: nat)
    ensures Narrow(x, m + n) == Narrow(x, m) + Pow2(m) * Narrow(Drop(x, m), n)
    decreases m
  {
    hide Shr1, Odd;
    if m > 0 {
      NarrowSplit(Shr1(x), m - 1, n);
      Doubled(Pow2(m - 1), Narrow(Drop(Shr1(x), m - 1), n));
    }
  }

  lemma Doubled(p: nat, q: nat)
    ensures 2 * (p * q) == (2 * p) * q
  {}

  /** The low byte by its bits is the masked one. */
  lemma LowNarrow(x: word)
    ensures Widen(Narrow(x, 8)) == Low(x) && Narrow(x, 8) < 256
  {
    hide Widen, Drop, Low, Narrow;
    PowersOfTwo();
    SameLowBits(x);
    LowIsByte(x);
    DropAll(Low(x));
    WidenUndoesNarrow(Low(x), 8);
    assert Narrow(x, 8) < Pow2(8);
  }

  lemma SameLowBits(x: word)
    ensures Narrow(x, 8) == Narrow(Low(x), 8)
  {
    hide Shr1, Odd, Narrow, And;
    MaskOfByte();
    MaskKeeps(x, 0xFF, 8);
    LowIsMasked(x);
  }

  function And(x: word, m: word): word { x & m }

  lemma LowIsMasked(x: word)
    ensures And(x, 0xFF) == Low(x)
  {}

  /** The `n` low bits of a mask are set. */
  predicate Covers(m: word, n: nat)
    decreases n
  {
    n == 0 || (Odd(m) && Covers(Shr1(m), n - 1))
  }

  lemma MaskOfByte()
    ensures Covers(0xFF, 8)
  {
    hide Shr1, Odd;
    Halves();
    assert Covers(0xF, 4) by { assert Covers(0x3, 2); }
    assert Covers(0x3F, 6);
  }

  lemma Halves()
    ensures Shr1(0xFF) == 0x7F && Shr1(0x7F) == 0x3F && Shr1(0x3F) == 0x1F && Shr1(0x1F) == 0xF && Shr1(0xF) == 7
    ensures Shr1(7) == 3 && Shr1(3) == 1
    ensures Odd(0xFF) && Odd(0x7F) && Odd(0x3F) && Odd(0x1F) && Odd(0xF) && Odd(7) && Odd(3) && Odd(1)
  {}

  lemma {:induction false} MaskKeeps(x: word, m: word, n: nat)
    requires Covers(m, n)
    ensures Narrow(And(x, m), n) == Narrow(x, n)
    decreases n
  {
    hide Shr1, Odd, And;
    if n > 0 {
      MaskBit(x, m);
      MaskKeeps(Shr1(x), Shr1(m), n - 1);
    }
  }

  lemma MaskBit(x: word, m: word)
    ensures Shr1(And(x, m)) == And(Shr1(x), Shr1(m)) && (Odd(And(x, m)) <==> Odd(x) && Odd(m))
  {}

  /** Writing a word as little-endian bytes and packing them gives it back. */
  lemma {:induction false} PackFixed(x: word, k: nat)
    requires k <= 4 && Drop(x, 8 * k) == 0
    ensures Pack(Fixed(Narrow(x, 8 * k), k)) == x
    decreases k
  {
    hide Shr8, Low, Xor, Shl8, Widen, Narrow, Drop;
    if k == 0 {
      DropNothing(x);
    } else {
      var low, high := Narrow(x, 8), Narrow(Shr8(x), 8 * (k - 1));
      PowersOfTwo();
      NarrowSplit(x, 8, 8 * (k - 1));
      DropByte(x);
      LowNarrow(x);
      DropAdd(x, 8, 8 * (k - 1));
      PackFixed(Shr8(x), k - 1);
      Bytewise(low, high, k);
      SplitWord(x);
    }
  }

  lemma DropNothing(x: word)
    ensures Drop(x, 0) == x
  {}

  lemma Bytewise(low: nat, high: nat, k: nat)
    requires low < 256 && k > 0
    ensures Fixed(low + 256 * high, k) == [low] + Fixed(high, k - 1)
    ensures Pack(Fixed(low + 256 * high, k)) == Xor(Widen(low), Shl8(Pack(Fixed(high, k - 1))))
  {
    hide Xor, Widen, Shl8;
    var v := low + 256 * high;
    assert v / 256 == high && v % 256 == low;
    assert Fixed(v, k)[1..] == Fixed(high, k - 1);
  }

  lemma PackEncoded(x: word)
    ensures Pack(EncodeFixed32(ToNat(x))) == x
  {
    hide Narrow, Drop, Pack, Fixed;
    DropsOf(x);
    PackFixed(x, 4);
  }

  // ---- The residue ----

  lemma ThirtyTwoSteps()
    ensures Steps(0xFFFF_FFFF, 8) == 0x2DFD_1072 && Steps(0xFFFF_FFFF, 32) == 0xDEBB_20E3
  {
    hide Steps;
    StepsAdd(0xFFFF_FFFF, 8, 8);
    StepsAdd(0xFFFF_FFFF, 16, 8);
    StepsAdd(0xFFFF_FFFF, 24, 8);
    EightSteps(0xFFFF_FFFF);
    EightSteps(0x2DFD_1072);
    EightSteps(0xBE26_ED00);
    EightSteps(0x00BE_26ED);
  }

  lemma SelfXor(x: word)
    ensures Xor(x, Xor(x, 0xFFFF_FFFF)) == 0xFFFF_FFFF
  {}

  /** The residue: a message followed by its checksum always leaves the same register, whatever the message. */
  lemma Residue(b: Bytes)
    ensures Register(0xFFFF_FFFF, b + EncodeFixed32(Crc32(b))) == 0xDEBB_20E3
    ensures Crc32(b + EncodeFixed32(Crc32(b))) == 0x2144_DF1C
  {
    hide Steps, Register, Pack, ToNat, Xor, EncodeFixed32;
    var r := Register(0xFFFF_FFFF, b);
    var crc := EncodeFixed32(Crc32(b));
    RegisterAppend(0xFFFF_FFFF, b, crc);
    PackEncoded(Xor(r, 0xFFFF_FFFF));
    RegisterOfWord(r, crc);
    SelfXor(r);
    ThirtyTwoSteps();
    ResidueNumber();
  }

  // ---- Numbers ----

  /** A word of four given bytes. */
  lemma Bytes4(x: word, a: nat, b: nat, c: nat, d: nat)
    requires Narrow(x, 8) == a && Narrow(Shr8(x), 8) == b && Narrow(Shr8(Shr8(x)), 8) == c
    requires Narrow(Shr8(Shr8(Shr8(x))), 8) == d
    ensures ToNat(x) == a + 0x100 * b + 0x1_0000 * c + 0x100_0000 * d
  {
    hide Narrow, Drop, Shr8;
    PowersOfTwo();
    DropsOf(x);
    NarrowSplit(x, 8, 24);
    NarrowSplit(Drop(x, 8), 8, 16);
    DropAdd(x, 8, 8);
    NarrowSplit(Drop(x, 16), 8, 8);
    DropAdd(x, 16, 8);
  }

  lemma ByteOf(x: word, n: nat)
    requires n < 256 && Low(x) == Widen(n)
    ensures Narrow(x, 8) == n
  {
    hide Low, Widen, Narrow;
    SameLowBits(x);
    PowersOfTwo();
    NarrowUndoesWiden(n, 8);
  }

  lemma ResidueNumber()
    ensures ToNat(Xor(0xDEBB_20E3, 0xFFFF_FFFF)) == 0x2144_DF1C
  {
    hide ToNat, Narrow;
    ResidueBytes();
    ByteOf(0x2144_DF1C, 0x1C);
    ByteOf(0x0021_44DF, 0xDF);
    ByteOf(0x0000_2144, 0x44);
    ByteOf(0x0000_0021, 0x21);
    Bytes4(0x2144_DF1C, 0x1C, 0xDF, 0x44, 0x21);
  }

  lemma ResidueBytes()
    ensures Xor(0xDEBB_20E3, 0xFFFF_FFFF) == 0x2144_DF1C
    ensures Shr8(0x2144_DF1C) == 0x0021_44DF && Shr8(0x0021_44DF) == 0x2144 && Shr8(0x2144) == 0x21
    ensures Low(0x2144_DF1C) == Widen(0x1C) && Low(0x0021_44DF) == Widen(0xDF)
    ensures Low(0x2144) == Widen(0x44) && Low(0x21) == Widen(0x21)
  {}

  // ---- Leading zeros ----

  /** A zero byte in front always changes the checksum. */
  lemma LeadingZero(b: Bytes)
    ensures Crc32([0] + b) != Crc32(b)
  {
    hide Steps, Register, ToNat, Xor;
    if Crc32([0] + b) == Crc32(b) {
      var r, s := Register(0xFFFF_FFFF, [0] + b), Register(0xFFFF_FFFF, b);
      ToNatInjective(Xor(r, 0xFFFF_FFFF), Xor(s, 0xFFFF_FFFF));
      XorCancel(r, s, 0xFFFF_FFFF);
      RegisterAppend(0xFFFF_FFFF, [0], b);
      RegisterInjective(Register(0xFFFF_FFFF, [0]), 0xFFFF_FFFF, b);
      OneZero();
    }
  }

  lemma OneZero()
    ensures Register(0xFFFF_FFFF, [0]) == 0x2DFD_1072
  {
    hide Steps, Xor;
    ThirtyTwoSteps();
    XorZero(0xFFFF_FFFF);
    assert Widen(0) == 0;
    OneByte(0xFFFF_FFFF, 0);
  }

  lemma OneByte(reg: word, b: byte)
    ensures Register(reg, [b]) == Steps(Xor(reg, Widen(b)), 8)
  {
    hide Steps, Xor, Widen;
    assert [b][1..] == [];
  }

  // ---- The check value ----

  /** The byte at `i` takes the register from `a` to `b`. */
  lemma Digit(data: Bytes, i: nat, a: word, b: word)
    requires i < |data| && Steps8(Xor(a, Widen(data[i]))) == b
    ensures Register(a, data[i..]) == Register(b, data[i + 1..])
  {
    hide Steps, Xor, Widen, Step;
    EightSteps(Xor(a, Widen(data[i])));
    assert data[i..][0] == data[i] && data[i..][1..] == data[i + 1..];
  }

  function Steps8(x: word): word
  {
    Step(Step(Step(Step(Step(Step(Step(Step(x))))))))
  }

  lemma DigitRegisters()
    ensures Steps8(Xor(0xFFFF_FFFF, Widen(0x31))) == 0x7C23_1048
    ensures Steps8(Xor(0x7C23_1048, Widen(0x32))) == 0xB0AC_BB32
    ensures Steps8(Xor(0xB0AC_BB32, Widen(0x33))) == 0x77B7_9C2D
    ensures Steps8(Xor(0x77B7_9C2D, Widen(0x34))) == 0x641C_1F5C
    ensures Steps8(Xor(0x641C_1F5C, Widen(0x35))) == 0x340A_C5E3
    ensures Steps8(Xor(0x340A_C5E3, Widen(0x36))) == 0xF68D_2C9E
    ensures Steps8(Xor(0xF68D_2C9E, Widen(0x37))) == 0xAFFC_9660
    ensures Steps8(Xor(0xAFFC_9660, Widen(0x38))) == 0x651F_2550
    ensures Steps8(Xor(0x651F_2550, Widen(0x39))) == 0x340B_C6D9
  {
    DigitWords();
  }

  lemma DigitWords()
    ensures Widen(0x31) == 0x31
    ensures Widen(0x32) == 0x32
    ensures Widen(0x33) == 0x33
    ensures Widen(0x34) == 0x34
    ensures Widen(0x35) == 0x35
    ensures Widen(0x36) == 0x36
    ensures Widen(0x37) == 0x37
    ensures Widen(0x38) == 0x38
    ensures Widen(0x39) == 0x39
  {
    assert Widen(1) == 1 && Widen(3) == 3 && Widen(6) == 6;
    assert Widen(0x0C) == 0x0C;
    assert Widen(0x0D) == 0x0D;
    assert Widen(0x0E) == 0x0E;
    assert Widen(0x18) == 0x18;
    assert Widen(0x19) == 0x19;
    assert Widen(0x1A) == 0x1A;
    assert Widen(0x1B) == 0x1B;
    assert Widen(0x1C) == 0x1C;
  }

  /** CRC32 of the nine digits, by which implementations of it are compared. */
  lemma CheckValue()
    ensures Crc32([0x31, 0x32, 0x33, 0x34, 0x35, 0x36, 0x37, 0x38, 0x39]) == 0xCBF4_3926
  {
    hide Register, ToNat, Xor;
    var digits: Bytes := [0x31, 0x32, 0x33, 0x34, 0x35, 0x36, 0x37, 0x38, 0x39];
    FirstDigits(digits);
    LastDigits(digits);
    NoBytes(0x340B_C6D9);
    assert digits[0..] == digits && digits[9..] == [];
    CheckNumber();
  }

  lemma FirstDigits(digits: Bytes)
    requires |digits| == 9 && digits[0] == 0x31 && digits[1] == 0x32 && digits[2] == 0x33 && digits[3] == 0x34
    ensures Register(0xFFFF_FFFF, digits[0..]) == Register(0x641C_1F5C, digits[4..])
  {
    hide Register, Steps8, Widen, Xor;
    DigitRegisters();
    Digit(digits, 0, 0xFFFF_FFFF, 0x7C23_1048);
    Digit(digits, 1, 0x7C23_1048, 0xB0AC_BB32);
    Digit(digits, 2, 0xB0AC_BB32, 0x77B7_9C2D);
    Digit(digits, 3, 0x77B7_9C2D, 0x641C_1F5C);
  }

  lemma LastDigits(digits: Bytes)
    requires |digits| == 9 && digits[4] == 0x35 && digits[5] == 0x36 && digits[6] == 0x37
    requires digits[7] == 0x38 && digits[8] == 0x39
    ensures Register(0x641C_1F5C, digits[4..]) == Register(0x340B_C6D9, digits[9..])
  {
    hide Register, Steps8, Widen, Xor;
    DigitRegisters();
    Digit(digits, 4, 0x641C_1F5C, 0x340A_C5E3);
    Digit(digits, 5, 0x340A_C5E3, 0xF68D_2C9E);
    Digit(digits, 6, 0xF68D_2C9E, 0xAFFC_9660);
    Digit(digits, 7, 0xAFFC_9660, 0x651F_2550);
    Digit(digits, 8, 0x651F_2550, 0x340B_C6D9);
  }

  lemma NoBytes(reg: word)
    ensures Register(reg, []) == reg
  {}

  lemma CheckNumber()
    ensures ToNat(Xor(0x340B_C6D9, 0xFFFF_FFFF)) == 0xCBF4_3926
  {
    hide ToNat, Narrow;
    CheckBytes();
    CheckLows();
    ByteOf(0xCBF4_3926, 0x26);
    ByteOf(0x00CB_F439, 0x39);
    ByteOf(0x0000_CBF4, 0xF4);
    ByteOf(0x0000_00CB, 0xCB);
    Bytes4(0xCBF4_3926, 0x26, 0x39, 0xF4, 0xCB);
  }

  lemma CheckBytes()
    ensures Xor(0x340B_C6D9, 0xFFFF_FFFF) == 0xCBF4_3926
    ensures Shr8(0xCBF4_3926) == 0x00CB_F439 && Shr8(0x00CB_F439) == 0xCBF4 && Shr8(0xCBF4) == 0xCB
  {}

  lemma CheckLows()
    ensures Low(0xCBF4_3926) == Widen(0x26) && Low(0x00CB_F439) == Widen(0x39)
    ensures Low(0xCBF4) == Widen(0xF4) && Low(0xCB) == Widen(0xCB)
  {
    assert Widen(0xF) == 0xF && Widen(0xC) == 0xC;
  }
}
