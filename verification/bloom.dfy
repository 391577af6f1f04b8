/** The Bloom filter (src/bloom.cc): bits set by a wrapping double hash, read through its closed form. */
module BloomFilters {
  import opened Slices
  import opened Coding
  import Checksum
  import ChecksumValues

  // ---- Hashing ----

  function TimesPrime(hash: Checksum.word): Checksum.word { hash * 0x01000193 }

  function FnvFrom(hash: Checksum.word, data: Bytes): Checksum.word
    decreases |data|
  {
    if data == [] then hash else FnvFrom(TimesPrime(Checksum.Xor(hash, Checksum.Widen(data[0]))), data[1..])
  }

  /** FNV-1a. */
  function Fnv(data: Bytes): (h: nat)
    ensures h < U32
  {
    Checksum.ToNat(FnvFrom(0x811C9DC5, data))
  }

  method FnvHash(data: Bytes) returns (h: nat)
    ensures h == Fnv(data)
  {
    hide Checksum.Xor, Checksum.Widen, Checksum.ToNat, TimesPrime;
    var hash: Checksum.word := 0x811C9DC5;
    var i := 0;
    while i < |data|
      invariant 0 <= i <= |data|
      invariant FnvFrom(hash, data[i..]) == FnvFrom(0x811C9DC5, data)
    {
      hash := Checksum.Xor(hash, Checksum.Widen(data[i]));
      hash := TimesPrime(hash);
      assert data[i..][1..] == data[i + 1..];
      i := i + 1;
    }
    h := Checksum.ToNat(hash);
  }

  /** `(h >> 17) | (h << 15)` in 32 bits; the two parts have no bit in common. */
  function Rotate(h: nat): nat
  {
    h / 0x2_0000 + (h * 0x8000) % U32
  }

  /** The bits of the low part come first, those of the high part after them. */
  lemma {:induction false} BitSplit(a: nat, b: nat, m: nat, j: nat)
    requires a < Checksum.Pow2(m)
    ensures BitOf(a + Checksum.Pow2(m) * b, j) <==> if j < m then BitOf(a, j) else BitOf(b, j - m)
    decreases m
  {
    if m > 0 {
      var x, p := a + Checksum.Pow2(m) * b, Checksum.Pow2(m - 1);
      assert x == a + 2 * (p * b) by { Doubling(p, b); }
      assert x / 2 == a / 2 + p * b && x % 2 == a % 2;
      if j > 0 { BitSplit(a / 2, b, m - 1, j - 1); }
    }
  }

  lemma Doubling(p: nat, b: nat)
    ensures (2 * p) * b == 2 * (p * b)
  {}

  /** It moves every bit down by 17, the lowest ones to the top. */
  lemma RotateMovesBits(h: nat, j: nat)
    requires h < U32 && j < 32
    ensures Rotate(h) < U32 && (BitOf(Rotate(h), j) <==> BitOf(h, (j + 17) % 32))
  {
    hide BitOf;
    Checksum.PowersOfTwo();
    assert Checksum.Pow2(15) * 2 == Checksum.Pow2(16) && Checksum.Pow2(17) == 2 * Checksum.Pow2(16);
    var high, low := h / 0x2_0000, h % 0x2_0000;
    assert h == low + 0x2_0000 * high && high < 0x8000;
    Coding.ModuloOf(high, U32, low * 0x8000);
    assert h * 0x8000 == high * U32 + low * 0x8000;
    assert Rotate(h) == high + 0x8000 * low;
    BitSplit(high, low, 15, j);
    BitSplit(low, high, 17, (j + 17) % 32);
  }

  // ---- Check values of the hash ----

  /** The values published for the empty string, "a" and "foobar". */
  lemma FnvCheckValues()
    ensures Fnv([]) == 0x811C_9DC5 && Fnv([0x61]) == 0xE40C_292C
    ensures Fnv([0x66, 0x6F, 0x6F, 0x62, 0x61, 0x72]) == 0xBF9C_F968
  {
    hide Checksum.ToNat;
    FnvWords();
    FnvNumbers();
  }

  lemma FnvStep(hash: Checksum.word, data: Bytes, i: nat, next: Checksum.word)
    requires i < |data| && TimesPrime(Checksum.Xor(hash, Checksum.Widen(data[i]))) == next
    ensures FnvFrom(hash, data[i..]) == FnvFrom(next, data[i + 1..])
  {
    hide TimesPrime, Checksum.Xor, Checksum.Widen;
    assert data[i..][0] == data[i] && data[i..][1..] == data[i + 1..];
  }

  lemma FnvLetters()
    ensures Checksum.Widen(0x61) == 0x61 && Checksum.Widen(0x62) == 0x62 && Checksum.Widen(0x66) == 0x66
    ensures Checksum.Widen(0x6F) == 0x6F && Checksum.Widen(0x72) == 0x72
  {
    assert Checksum.Widen(6) == 6 && Checksum.Widen(7) == 7 && Checksum.Widen(0xC) == 0xC && Checksum.Widen(0xD) == 0xD;
    assert Checksum.Widen(0x18) == 0x18 && Checksum.Widen(0x19) == 0x19 && Checksum.Widen(0x1B) == 0x1B;
    assert Checksum.Widen(0x1C) == 0x1C;
    assert Checksum.Widen(0x30) == 0x30 && Checksum.Widen(0x31) == 0x31 && Checksum.Widen(0x33) == 0x33;
    assert Checksum.Widen(0x37) == 0x37 && Checksum.Widen(0x39) == 0x39;
  }

  lemma FnvProducts()
    ensures TimesPrime(Checksum.Xor(0x811C_9DC5, 0x61)) == 0xE40C_292C
    ensures TimesPrime(Checksum.Xor(0x811C_9DC5, 0x66)) == 0xE30C_2799
    ensures TimesPrime(Checksum.Xor(0xE30C_2799, 0x6F)) == 0x6222_E842
    ensures TimesPrime(Checksum.Xor(0x6222_E842, 0x6F)) == 0xA9F3_7ED7
    ensures TimesPrime(Checksum.Xor(0xA9F3_7ED7, 0x62)) == 0x3F50_76EF
    ensures TimesPrime(Checksum.Xor(0x3F50_76EF, 0x61)) == 0x39AA_A18A
    ensures TimesPrime(Checksum.Xor(0x39AA_A18A, 0x72)) == 0xBF9C_F968
  {}

  lemma FnvWords()
    ensures FnvFrom(0x811C_9DC5, []) == 0x811C_9DC5 && FnvFrom(0x811C_9DC5, [0x61]) == 0xE40C_292C
    ensures FnvFrom(0x811C_9DC5, [0x66, 0x6F, 0x6F, 0x62, 0x61, 0x72]) == 0xBF9C_F968
  {
    hide TimesPrime, Checksum.Xor, Checksum.Widen, FnvFrom;
    FnvLetters();
    FnvProducts();
    var a: Bytes, s: Bytes := [0x61], [0x66, 0x6F, 0x6F, 0x62, 0x61, 0x72];
    assert a[0..] == a && a[1..] == [] && s[0..] == s && s[6..] == [];
    FnvStep(0x811C_9DC5, a, 0, 0xE40C_292C);
    FnvStep(0x811C_9DC5, s, 0, 0xE30C_2799);
    FnvStep(0xE30C_2799, s, 1, 0x6222_E842);
    FnvStep(0x6222_E842, s, 2, 0xA9F3_7ED7);
    FnvStep(0xA9F3_7ED7, s, 3, 0x3F50_76EF);
    FnvStep(0x3F50_76EF, s, 4, 0x39AA_A18A);
    FnvStep(0x39AA_A18A, s, 5, 0xBF9C_F968);
    FnvNothing(0x811C_9DC5);
    FnvNothing(0xE40C_292C);
    FnvNothing(0xBF9C_F968);
  }

  lemma FnvNothing(hash: Checksum.word)
    ensures FnvFrom(hash, []) == hash
  {}

  lemma FnvNumbers()
    ensures Checksum.ToNat(0x811C_9DC5) == 0x811C_9DC5
    ensures Checksum.ToNat(0xE40C_292C) == 0xE40C_292C
    ensures Checksum.ToNat(0xBF9C_F968) == 0xBF9C_F968
  {
    hide Checksum.ToNat, Checksum.Narrow;
    FnvBytes0();
    ChecksumValues.ByteOf(0x811C9DC5, 0xC5);
    ChecksumValues.ByteOf(0x811C9D, 0x9D);
    ChecksumValues.ByteOf(0x811C, 0x1C);
    ChecksumValues.ByteOf(0x81, 0x81);
    ChecksumValues.Bytes4(0x811C_9DC5, 0xC5, 0x9D, 0x1C, 0x81);
    FnvBytes1();
    ChecksumValues.ByteOf(0xE40C292C, 0x2C);
    ChecksumValues.ByteOf(0xE40C29, 0x29);
    ChecksumValues.ByteOf(0xE40C, 0xC);
    ChecksumValues.ByteOf(0xE4, 0xE4);
    ChecksumValues.Bytes4(0xE40C_292C, 0x2C, 0x29, 0xC, 0xE4);
    FnvBytes2();
    ChecksumValues.ByteOf(0xBF9CF968, 0x68);
    ChecksumValues.ByteOf(0xBF9CF9, 0xF9);
    ChecksumValues.ByteOf(0xBF9C, 0x9C);
    ChecksumValues.ByteOf(0xBF, 0xBF);
    ChecksumValues.Bytes4(0xBF9C_F968, 0x68, 0xF9, 0x9C, 0xBF);
  }

  lemma FnvBytes0()
    ensures Checksum.Shr8(0x811C9DC5) == 0x811C9D && Checksum.Shr8(0x811C9D) == 0x811C && Checksum.Shr8(0x811C) == 0x81
    ensures Checksum.Low(0x811C9DC5) == Checksum.Widen(0xC5) && Checksum.Low(0x811C9D) == Checksum.Widen(0x9D)
    ensures Checksum.Low(0x811C) == Checksum.Widen(0x1C) && Checksum.Low(0x81) == Checksum.Widen(0x81)
  {
    assert Checksum.Widen(0x1) == 0x1 && Checksum.Widen(0x8) == 0x8 && Checksum.Widen(0x9) == 0x9 && Checksum.Widen(0xC) == 0xC;
  }

  lemma FnvBytes1()
    ensures Checksum.Shr8(0xE40C292C) == 0xE40C29 && Checksum.Shr8(0xE40C29) == 0xE40C && Checksum.Shr8(0xE40C) == 0xE4
    ensures Checksum.Low(0xE40C292C) == Checksum.Widen(0x2C) && Checksum.Low(0xE40C29) == Checksum.Widen(0x29)
    ensures Checksum.Low(0xE40C) == Checksum.Widen(0xC) && Checksum.Low(0xE4) == Checksum.Widen(0xE4)
  {
    assert Checksum.Widen(0x2) == 0x2 && Checksum.Widen(0xE) == 0xE;
  }

  lemma FnvBytes2()
    ensures Checksum.Shr8(0xBF9CF968) == 0xBF9CF9 && Checksum.Shr8(0xBF9CF9) == 0xBF9C && Checksum.Shr8(0xBF9C) == 0xBF
    ensures Checksum.Low(0xBF9CF968) == Checksum.Widen(0x68) && Checksum.Low(0xBF9CF9) == Checksum.Widen(0xF9)
    ensures Checksum.Low(0xBF9C) == Checksum.Widen(0x9C) && Checksum.Low(0xBF) == Checksum.Widen(0xBF)
  {
    assert Checksum.Widen(0x6) == 0x6 && Checksum.Widen(0x9) == 0x9 && Checksum.Widen(0xB) == 0xB && Checksum.Widen(0xF) == 0xF;
  }

  /** BloomFilter::Hash: the `i`-th bit position of a key. */
  function Position(i: nat, key: Bytes, totalBits: nat): (p: nat)
    requires totalBits > 0
    ensures p < totalBits
  {
    (Fnv(key) + i * Rotate(Fnv(key))) % U32 % totalBits
  }

  // ---- Bits ----

  /** `b & (1 << j)` and `b | (1 << j)`. */
  predicate BitOf(b: nat, j: nat)
  {
    if j == 0 then b % 2 == 1 else BitOf(b / 2, j - 1)
  }

  function WithBit(b: nat, j: nat): nat
  {
    if j == 0 then (if b % 2 == 1 then b else b + 1) else b % 2 + 2 * WithBit(b / 2, j - 1)
  }

  lemma {:induction false} WithBitSets(b: nat, j: nat, m: nat)
    ensures BitOf(WithBit(b, j), m) <==> m == j || BitOf(b, m)
    decreases j
  {
    var r := WithBit(b, j);
    if j > 0 {
      assert r / 2 == WithBit(b / 2, j - 1) && r % 2 == b % 2;
      if m > 0 { WithBitSets(b / 2, j - 1, m - 1); }
    } else {
      assert r / 2 == b / 2;
    }
  }

  lemma {:induction false} WithBitBound(b: nat, j: nat, n: nat)
    requires j < n && b < Checksum.Pow2(n)
    ensures WithBit(b, j) < Checksum.Pow2(n)
    decreases j
  {
    hide BitOf;
    var half := Checksum.Pow2(n - 1);
    assert Checksum.Pow2(n) == 2 * half;
    if j > 0 {
      HalfBound(b, half, 0);
      WithBitBound(b / 2, j - 1, n - 1);
      HalfBound(b, half, WithBit(b / 2, j - 1));
    } else {
      HalfBound(b, half, 0);
    }
  }

  lemma HalfBound(b: nat, half: nat, w: nat)
    requires b < 2 * half
    ensures b / 2 < half
    ensures w < half ==> b % 2 + 2 * w < 2 * half
    ensures b % 2 == 0 ==> b + 1 < 2 * half
  {
  }

  predicate GetBit(bits: Bytes, p: nat)
    requires p < 8 * |bits|
  {
    BitOf(bits[p / 8], p % 8)
  }

  function SetBit(bits: Bytes, p: nat): (r: Bytes)
    requires p < 8 * |bits|
    ensures |r| == |bits|
    ensures forall q :: 0 <= q < 8 * |bits| ==> (GetBit(r, q) <==> q == p || GetBit(bits, q))
  {
    hide BitOf, WithBit;
    assert Checksum.Pow2(8) == 256;
    WithBitBound(bits[p / 8], p % 8, 8);
    var r := bits[p / 8 := WithBit(bits[p / 8], p % 8)];
    assert forall q :: 0 <= q < 8 * |bits| ==> (GetBit(r, q) <==> q == p || GetBit(bits, q)) by {
      forall q | 0 <= q < 8 * |bits|
        ensures GetBit(r, q) <==> q == p || GetBit(bits, q)
      {
        WithBitSets(bits[p / 8], p % 8, q % 8);
      }
    }
    r
  }

  // ---- What a filter holds ----

  /** `static_cast<int>(bits_per_key * 0.69)`, clamped to 1..30. */
  function Probes(bitsPerKey: nat): (k: nat)
    ensures 1 <= k <= 30
    ensures 2 <= bitsPerKey <= 43 ==> 100 * k <= 69 * bitsPerKey < 100 * (k + 1)
    ensures (bitsPerKey < 2 ==> k == 1) && (bitsPerKey > 43 ==> k == 30)
  {
    var k := bitsPerKey * 69 / 100;
    if k < 1 then 1 else if k > 30 then 30 else k
  }

  /** Every probe of `key` is set. */
  ghost predicate Covers(bits: Bytes, k: nat, key: Bytes)
    requires bits != []
  {
    forall i :: 0 <= i < k ==> GetBit(bits, Position(i, key, 8 * |bits|))
  }

  /** Bit `q` is a probe of one of `keys`. */
  ghost predicate Probed(keys: seq<Bytes>, k: nat, total: nat, q: nat)
    requires total > 0
  {
    exists n, i :: 0 <= n < |keys| && 0 <= i < k && Position(i, keys[n], total) == q
  }

  /** Exactly the probes of `keys` are set. */
  ghost predicate Holds(bits: Bytes, k: nat, keys: seq<Bytes>)
    requires bits != []
  {
    forall q :: 0 <= q < 8 * |bits| ==> (GetBit(bits, q) <==> Probed(keys, k, 8 * |bits|, q))
  }

  /** No false negatives. */
  lemma HeldKeysAreCovered(bits: Bytes, k: nat, keys: seq<Bytes>, n: nat)
    requires bits != [] && Holds(bits, k, keys) && n < |keys|
    ensures Covers(bits, k, keys[n])
  {
    hide GetBit, Position;
    forall i | 0 <= i < k
      ensures GetBit(bits, Position(i, keys[n], 8 * |bits|))
    {
      assert Probed(keys, k, 8 * |bits|, Position(i, keys[n], 8 * |bits|));
    }
  }

  datatype Parameters = Parameters(bitsPerKey: nat, k: nat, bits: Bytes)

  /** What Decode reads: nothing from fewer than eight bytes. */
  function ParseFilter(data: Bytes): Option<Parameters>
  {
    if |data| < 8 then None
    else Some(Parameters(DecodeFixed(data[..4]), DecodeFixed(data[4..8]), data[8..]))
  }

  /** Decoding what Encode wrote gives back the bits and, as 32-bit numbers, both parameters. */
  lemma FilterRoundTrip(b: nat, n: nat, s: Bytes)
    ensures ParseFilter(FilterBytes(b, n, s)) == Some(Parameters(b % U32, n % U32, s))
  {
    var data := FilterBytes(b, n, s);
    assert data[..4] == EncodeFixed32(b) && data[4..8] == EncodeFixed32(n);
    assert data[8..] == s;
    Fixed32RoundTrip(b);
    Fixed32RoundTrip(n);
  }

  /** The bytes of a serialised filter: two fixed 32-bit numbers, then the bits. */
  function FilterBytes(bitsPerKey: nat, k: nat, bits: Bytes): Bytes
  {
    EncodeFixed32(bitsPerKey) + EncodeFixed32(k) + bits
  }

  function FilterSize(keyCount: nat, bitsPerKey: nat): (bytes: nat)
    ensures bytes >= 8
  {
    var bits := keyCount * bitsPerKey;
    ((if bits < 64 then 64 else bits) + 7) / 8
  }

  class BloomFilter {
    var bitsPerKey: nat
    var k: nat
    var bits: Bytes

    constructor (bitsPerKey: nat)
      ensures this.bitsPerKey == bitsPerKey && k == Probes(bitsPerKey) && bits == []
    {
      this.bitsPerKey := bitsPerKey;
      k := Probes(bitsPerKey);
      bits := [];
    }

    /** Hash: the closed form of the position sequence. */
    method Hash(i: nat, key: Bytes) returns (p: nat)
      requires 8 * |bits| < U32
      ensures bits == [] ==> p == 0
      ensures bits != [] ==> p == Position(i, key, 8 * |bits|)
    {
      hide Fnv;
      var h := FnvHash(key);
      var delta := Rotate(h);
      if |bits| == 0 { return 0; }
      p := (h + i * delta) % U32 % (8 * |bits|);
    }

    /** Add: the first call allocates a small array; bits are only ever set. */
    method Add(key: Bytes)
      requires 8 * |bits| < U32
      modifies this
      ensures bitsPerKey == old(bitsPerKey) && k == old(k)
      ensures |bits| == if old(bits) == [] then 13 else |old(bits)|
      ensures forall keys :: (old(bits) == [] && keys == []) || (old(bits) != [] && Holds(old(bits), k, keys))
                             ==> Holds(bits, k, keys + [key])
    {
      hide GetBit, Position;
      if bits == [] {
        bits := seq(13, _ => 0);
        ZeroBits(bits);
      }
      ghost var start := bits;
      var i := 0;
      while i < k
        invariant 0 <= i <= k == old(k) && |bits| == |start| && bitsPerKey == old(bitsPerKey)
        invariant forall q :: 0 <= q < 8 * |bits| ==> (GetBit(bits, q) <==> GetBit(start, q) || Probed([key], i, 8 * |bits|, q))
      {
        var p := Hash(i, key);
        ProbedMore(key, i, 8 * |bits|);
        bits := SetBit(bits, p);
        i := i + 1;
      }
      forall keys | (old(bits) == [] && keys == []) || (old(bits) != [] && Holds(old(bits), k, keys))
        ensures Holds(bits, k, keys + [key])
      {
        ProbedAppend(keys, key, k, 8 * |bits|);
      }
    }

    method MayContain(key: Bytes) returns (r: bool)
      requires 8 * |bits| < U32
      ensures r <==> bits != [] && Covers(bits, k, key)
    {
      hide GetBit, Position;
      if bits == [] { return false; }
      var i := 0;
      while i < k
        invariant 0 <= i <= k
        invariant forall j :: 0 <= j < i ==> GetBit(bits, Position(j, key, 8 * |bits|))
      {
        var p := Hash(i, key);
        if !GetBit(bits, p) { return false; }
        i := i + 1;
      }
      r := true;
    }

    method Encode() returns (r: Bytes)
      ensures r == FilterBytes(bitsPerKey, k, bits)
    {
      r := EncodeFixed32(bitsPerKey) + EncodeFixed32(k) + bits;
    }

    method Decode(data: Bytes) returns (ok: bool)
      modifies this
      ensures match ParseFilter(data)
              case Some(p) => ok && Parameters(bitsPerKey, k, bits) == p
              case None => !ok && bitsPerKey == old(bitsPerKey) && k == old(k) && bits == old(bits)
    {
      if |data| < 8 { return false; }
      bitsPerKey := DecodeFixed(data[..4]);
      k := DecodeFixed(data[4..8]);
      bits := data[8..];
      ok := true;
    }

    method Clear()
      modifies this
      ensures bits == [] && k == Probes(bitsPerKey) && bitsPerKey == old(bitsPerKey)
    {
      bits := [];
      k := Probes(bitsPerKey);
    }
  }

  lemma ZeroBits(bits: Bytes)
    requires forall i :: 0 <= i < |bits| ==> bits[i] == 0
    ensures forall q :: 0 <= q < 8 * |bits| ==> !GetBit(bits, q)
  {
    forall q | 0 <= q < 8 * |bits| ensures !GetBit(bits, q) { ZeroHasNoBit(q % 8); }
  }

  lemma {:induction false} ZeroHasNoBit(j: nat)
    ensures !BitOf(0, j)
  {
    if j > 0 { ZeroHasNoBit(j - 1); }
  }

  lemma ProbedMore(key: Bytes, i: nat, total: nat)
    requires total > 0
    ensures forall q :: Probed([key], i + 1, total, q) <==> q == Position(i, key, total) || Probed([key], i, total, q)
  {
    hide Position;
    forall q
      ensures Probed([key], i + 1, total, q) <==> q == Position(i, key, total) || Probed([key], i, total, q)
    {
      if q == Position(i, key, total) { assert Position(i, [key][0], total) == q; }
    }
  }

  lemma ProbedAppend(keys: seq<Bytes>, key: Bytes, k: nat, total: nat)
    requires total > 0
    ensures forall q :: Probed(keys + [key], k, total, q) <==> Probed(keys, k, total, q) || Probed([key], k, total, q)
  {
    hide Position;
    var all := keys + [key];
    forall q
      ensures Probed(all, k, total, q) <==> Probed(keys, k, total, q) || Probed([key], k, total, q)
    {
      if Probed(all, k, total, q) {
        var n, i :| 0 <= n < |all| && 0 <= i < k && Position(i, all[n], total) == q;
        if n == |keys| { assert Position(i, [key][0], total) == q; } else { assert Position(i, keys[n], total) == q; }
      }
      if Probed(keys, k, total, q) {
        var n, i :| 0 <= n < |keys| && 0 <= i < k && Position(i, keys[n], total) == q;
        assert Position(i, all[n], total) == q;
      }
      if Probed([key], k, total, q) {
        var n, i :| 0 <= n < 1 && 0 <= i < k && Position(i, [key][n], total) == q;
        assert Position(i, all[|keys|], total) == q;
      }
    }
  }

  /** CreateFilter: the batch construction, with the wrapping `h += delta`. It sets exactly the bits that
      Hash's closed form names. */
  method CreateFilter(keys: seq<Bytes>, bitsPerKey: nat) returns (r: Bytes)
    requires 8 * FilterSize(|keys|, bitsPerKey) < U32
    ensures |r| == 8 + FilterSize(|keys|, bitsPerKey) && r == FilterBytes(bitsPerKey, Probes(bitsPerKey), r[8..])
    ensures Holds(r[8..], Probes(bitsPerKey), keys)
  {
    hide GetBit, Position;
    var bytes := FilterSize(|keys|, bitsPerKey);
    var bits: Bytes := seq(bytes, _ => 0);
    var k := Probes(bitsPerKey);
    ZeroBits(bits);
    var n := 0;
    while n < |keys|
      invariant 0 <= n <= |keys| && |bits| == bytes
      invariant Holds(bits, k, keys[..n])
    {
      bits := SetProbes(bits, k, keys[n], keys[..n]);
      assert keys[..n + 1] == keys[..n] + [keys[n]];
      n := n + 1;
    }
    assert keys[..n] == keys;
    r := EncodeFixed32(bitsPerKey) + EncodeFixed32(k) + bits;
    assert r[8..] == bits;
  }

  method SetProbes(start: Bytes, k: nat, key: Bytes, ghost keys: seq<Bytes>) returns (bits: Bytes)
    requires start != [] && 8 * |start| < U32 && Holds(start, k, keys)
    ensures |bits| == |start| && Holds(bits, k, keys + [key])
  {
    hide GetBit, Fnv, Rotate;
    bits := start;
    var h := FnvHash(key);
    var delta := Rotate(h);
    var i := 0;
    while i < k
      invariant 0 <= i <= k && |bits| == |start|
      invariant h == (Fnv(key) + i * delta) % U32
      invariant forall q :: 0 <= q < 8 * |bits| ==> (GetBit(bits, q) <==> GetBit(start, q) || Probed([key], i, 8 * |bits|, q))
    {
      var p := h % (8 * |bits|);
      ProbedMore(key, i, 8 * |bits|);
      bits := SetBit(bits, p);
      WrapStep(Fnv(key), delta, i);
      h := (h + delta) % U32;
      i := i + 1;
    }
    ProbedAppend(keys, key, k, 8 * |bits|);
  }

  lemma WrapStep(h: nat, delta: nat, i: nat)
    ensures ((h + i * delta) % U32 + delta) % U32 == (h + (i + 1) * delta) % U32
  {
    var x := h + i * delta;
    assert x == x / U32 * U32 + x % U32;
    assert h + (i + 1) * delta == x / U32 * U32 + (x % U32 + delta);
    ModAddMultiple(x % U32 + delta, x / U32);
  }

  lemma {:induction false} ModAddMultiple(a: nat, n: nat)
    ensures (n * U32 + a) % U32 == a % U32
  {
    if n > 0 {
      ModAddMultiple(a, n - 1);
      assert n * U32 + a == ((n - 1) * U32 + a) + U32;
    }
  }
}
