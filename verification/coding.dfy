/** Varint and fixed-width codecs (src/coding.cc, include/minilsm/coding.h). */
module Coding {
  import opened Slices

  datatype Option<+T> = None | Some(value: T)

  const U32: int := 0x1_0000_0000
  const U64: int := 0x1_0000_0000_0000_0000

  // ---- Fixed width, little-endian: the host order of the stated platform ----

  /** The low `width` bytes of `v`, least significant first. */
  function Fixed(v: nat, width: nat): (r: Bytes)
    ensures |r| == width
  {
    if width == 0 then [] else [v % 256] + Fixed(v / 256, width - 1)
  }

  function EncodeFixed32(v: nat): (r: Bytes)
    ensures |r| == 4
  {
    Fixed(v, 4)
  }

  function EncodeFixed64(v: nat): (r: Bytes)
    ensures |r| == 8
  {
    Fixed(v, 8)
  }

  /** The number whose little-endian bytes are `b`. */
  function DecodeFixed(b: Bytes): nat
  {
    if b == [] then 0 else b[0] + 256 * DecodeFixed(b[1..])
  }

  /** 256 to the power `width`. */
  function Span(width: nat): (r: nat)
    ensures r > 0
  {
    if width == 0 then 1 else 256 * Span(width - 1)
  }

  /** Fixed-width bytes decode to the number modulo what the width can hold. */
  lemma {:induction false} FixedRoundTrip(v: nat, width: nat)
    ensures DecodeFixed(Fixed(v, width)) == v % Span(width)
    decreases width
  {
    if width > 0 {
      FixedRoundTrip(v / 256, width - 1);
      assert Fixed(v, width)[1..] == Fixed(v / 256, width - 1);
      SplitModulo(v, Span(width - 1));
    }
  }

  lemma SplitModulo(v: nat, m: nat)
    requires m > 0
    ensures v % (256 * m) == v % 256 + 256 * (v / 256 % m)
  {
    var q, r := v / 256, v % 256;
    var c := r + 256 * (q % m);
    assert q == q / m * m + q % m;
    assert v == q / m * (256 * m) + c;
    assert c < 256 * m;
    ModuloOf(q / m, 256 * m, c);
  }

  /** Quotient and remainder are unique. */
  lemma ModuloOf(a: nat, n: nat, c: nat)
    requires c < n
    ensures (a * n + c) % n == c
  {
    var x := a * n + c;
    var q, r := x / n, x % n;
    assert x == n * q + r;
    assert n * (q - a) == c - r;
    if q > a { Grows(n, q - a); }
    if q < a { Grows(n, a - q); }
  }

  lemma Grows(n: nat, d: nat)
    requires d > 0
    ensures n * d >= n
  {}

  /** Dividing twice is dividing by the product. */
  lemma DivTwice(v: nat, a: nat, b: nat)
    requires a > 0 && b > 0
    ensures a * b > 0 && v / a / b == v / (a * b)
  {
    Quotient(v, a);
    Quotient(v / a, b);
    var q, r := v / a, v % a;
    TwiceOf(v, a, b, q / b, q % b, r);
  }

  lemma TwiceOf(v: nat, a: nat, b: nat, p: nat, s: nat, r: nat)
    requires v == a * (b * p + s) + r && s < b && r < a
    ensures a * b > 0 && v / (a * b) == p
  {
    Regroup(v, a, b, p, s, r);
    SameQuotient(v, a * b, p, a * s + r);
  }

  lemma Quotient(v: nat, a: nat)
    requires a > 0
    ensures v == a * (v / a) + v % a && v % a < a
  {}

  lemma Regroup(v: nat, a: nat, b: nat, p: nat, s: nat, r: nat)
    requires v == a * (b * p + s) + r && s < b && r < a
    ensures a * b > 0 && v == p * (a * b) + (a * s + r) && a * s + r < a * b
  {
    assert a * (s + 1) <= a * b;
    Grows(a, b);
    Distribute(a, b, p, s);
  }

  lemma Distribute(a: nat, b: nat, p: nat, s: nat)
    ensures a * (b * p + s) == p * (a * b) + a * s
  {}

  lemma SameQuotient(v: nat, n: nat, p: nat, c: nat)
    requires c < n && v == p * n + c
    ensures v / n == p
  {
    ModuloOf(p, n, c);
    var q := v / n;
    assert v == q * n + c;
    if q > p { Grows(n, q - p); }
    if q < p { Grows(n, p - q); }
  }

  /** Byte `i` is the digit of 256 to the power `i`: the least significant comes first. */
  lemma {:induction false} FixedDigits(v: nat, width: nat, i: nat)
    requires i < width
    ensures Fixed(v, width)[i] == v / Span(i) % 256
    decreases width
  {
    if i > 0 {
      FixedDigits(v / 256, width - 1, i - 1);
      assert Fixed(v, width)[i] == Fixed(v / 256, width - 1)[i - 1];
      DivTwice(v, 256, Span(i - 1));
    }
  }

  lemma {:induction false} FixedInjective(a: Bytes, b: Bytes)
    requires |a| == |b| && DecodeFixed(a) == DecodeFixed(b)
    ensures a == b
  {
    if a != [] {
      FixedInjective(a[1..], b[1..]);
      assert a == [a[0]] + a[1..] && b == [b[0]] + b[1..];
    }
  }

  lemma Spans()
    ensures Span(4) == U32 && Span(8) == U64
  {
    assert Span(2) == 256 * Span(1) == 0x1_0000;
    assert Span(4) == 256 * Span(3) == 256 * (256 * Span(2));
    assert Span(6) == 256 * Span(5) == 256 * (256 * Span(4));
    assert Span(8) == 256 * Span(7) == 256 * (256 * Span(6));
  }

  lemma Fixed32RoundTrip(v: nat)
    ensures DecodeFixed(EncodeFixed32(v)) == v % U32
    ensures v < U32 ==> DecodeFixed(EncodeFixed32(v)) == v
  {
    hide Span;
    Spans();
    FixedRoundTrip(v, 4);
  }

  lemma Fixed64RoundTrip(v: nat)
    ensures DecodeFixed(EncodeFixed64(v)) == v % U64
    ensures v < U64 ==> DecodeFixed(EncodeFixed64(v)) == v
  {
    hide Span;
    Spans();
    FixedRoundTrip(v, 8);
  }

  // ---- Varint ----

  /** Seven bits a byte, least significant group first, top bit set on all but the last. */
  function Varint(v: nat): (r: Bytes)
    ensures |r| > 0
  {
    if v < 128 then [v] else [v % 128 + 128] + Varint(v / 128)
  }

  /** Reads one varint at `p`: its value and the position after it, or None when the
      bytes end before a terminating byte. */
  function ReadVarint(data: Bytes, p: nat): (r: Option<(nat, nat)>)
    ensures r.Some? ==> p < r.value.1 <= |data|
    decreases |data| - p
  {
    if p >= |data| then None
    else if data[p] < 128 then Some((data[p], p + 1))
    else match ReadVarint(data, p + 1)
      case None => None
      case Some(rest) => Some((data[p] - 128 + 128 * rest.0, rest.1))
  }

  /** The bytes of `part` stand in `data` at position `p`. */
  predicate At(data: Bytes, p: nat, part: Bytes)
  {
    p + |part| <= |data| && data[p..p + |part|] == part
  }

  lemma AtSplit(data: Bytes, p: nat, a: Bytes, b: Bytes)
    requires At(data, p, a + b)
    ensures At(data, p, a) && At(data, p + |a|, b)
  {
    var whole := data[p..p + |a + b|];
    assert data[p..p + |a|] == whole[..|a|] == a;
    assert data[p + |a|..p + |a| + |b|] == whole[|a|..] == b;
  }

  /** Decoding undoes encoding wherever the encoding stands. */
  lemma {:induction false} VarintRoundTrip(v: nat, data: Bytes, p: nat)
    requires At(data, p, Varint(v))
    ensures ReadVarint(data, p) == Some((v, p + |Varint(v)|))
    decreases v
  {
    assert data[p] == data[p..p + |Varint(v)|][0] == Varint(v)[0];
    if v >= 128 {
      AtSplit(data, p, [v % 128 + 128], Varint(v / 128));
      VarintRoundTrip(v / 128, data, p + 1);
    }
  }

  /** A varint cut short is never read as a number. */
  lemma {:induction false} VarintCut(v: nat, data: Bytes, p: nat)
    requires p <= |data| < p + |Varint(v)|
    requires data[p..] == Varint(v)[..|data| - p]
    ensures ReadVarint(data, p) == None
    decreases v
  {
    if p < |data| {
      assert data[p] == data[p..][0] == Varint(v)[0];
      if v >= 128 {
        assert data[p + 1..] == data[p..][1..] == Varint(v / 128)[..|data| - p - 1];
        VarintCut(v / 128, data, p + 1);
      }
    }
  }

  function Pow128(n: nat): (r: nat)
    ensures r > 0
  {
    if n == 0 then 1 else 128 * Pow128(n - 1)
  }

  /** A varint has `n` bytes exactly when its value needs `n` groups of seven bits. */
  lemma {:induction false} VarintSize(v: nat, n: nat)
    requires n > 0
    ensures |Varint(v)| <= n <==> v < Pow128(n)
    decreases v
  {
    if v < 128 {
      assert Pow128(n) >= 128 by { assert Pow128(n) == 128 * Pow128(n - 1); }
    } else if n == 1 {
      assert Pow128(1) == 128 * Pow128(0);
    } else {
      VarintSize(v / 128, n - 1);
      assert Pow128(n) == 128 * Pow128(n - 1);
    }
  }

  /** Byte `i` holds the digit of 128 to the power `i`, and 128 more on every byte but the last. */
  lemma {:induction false} VarintDigits(v: nat, i: nat)
    requires i < |Varint(v)|
    ensures Varint(v)[i] == v / Pow128(i) % 128 + if i + 1 < |Varint(v)| then 128 else 0
    decreases i
  {
    if i > 0 {
      VarintDigits(v / 128, i - 1);
      assert Varint(v)[i] == Varint(v / 128)[i - 1];
      DivTwice(v, 128, Pow128(i - 1));
    }
  }

  /** Varint32Length: the size of the encoding of every 32-bit value. */
  function Varint32Length(v: nat): (n: nat)
    requires v < U32
    ensures n == |Varint(v)|
  {
    VarintSize(v, 1); VarintSize(v, 2); VarintSize(v, 3); VarintSize(v, 4); VarintSize(v, 5);
    assert Pow128(1) == 0x80 && Pow128(2) == 0x4000 && Pow128(3) == 0x20_0000;
    assert Pow128(4) == 0x1000_0000 && Pow128(5) == 0x8_0000_0000;
    if v < 0x80 then 1
    else if v < 0x4000 then 2
    else if v < 0x20_0000 then 3
    else if v < 0x1000_0000 then 4
    else 5
  }

  /** Varint32Encode and Varint64Encode, which differ only in the width of `value`. */
  method VarintEncode(value: nat) returns (r: Bytes)
    ensures r == Varint(value)
  {
    var v := value;
    r := [];
    while v >= 0x80
      invariant r + Varint(v) == Varint(value)
    {
      assert r + Varint(v) == r + [v % 128 + 128] + Varint(v / 128);
      r := r + [v % 0x80 + 0x80];
      v := v / 0x80;
    }
    r := r + [v % 0x80];
  }

  /** A number whose low groups sum to `result` and whose further groups are still to be read. */
  ghost function Continue(result: nat, scale: nat, rest: Option<(nat, nat)>): Option<(nat, nat)> {
    if rest.None? then None else Some((result + scale * rest.value.0, rest.value.1))
  }

  lemma ContinueStep(result: nat, scale: nat, group: nat, rest: Option<(nat, nat)>)
    ensures Continue(result, scale, Continue(group, 128, rest))
            == Continue(result + group * scale, scale * 128, rest)
  {
    if rest.Some? {
      var v := rest.value.0;
      assert scale * (group + 128 * v) == group * scale + (scale * 128) * v;
    }
  }

  /** DecodeVarint32 and Varint64Decode. `width` is the modulus of the result's type; the C++
      reads past the buffer when no byte ends the number, which is None here. Adding the
      shifted group stands for `|=`: the groups do not overlap. */
  method VarintDecode(data: Bytes, start: nat, width: nat) returns (r: Option<(nat, nat)>)
    requires width > 0
    ensures r == match ReadVarint(data, start)
                 case None => None
                 case Some(n) => Some((n.0 % width, n.1))
  {
    var p, result: nat, scale: nat := start, 0, 1;
    while p < |data| && data[p] >= 128
      invariant start <= p
      invariant ReadVarint(data, start) == Continue(result, scale, ReadVarint(data, p))
      decreases |data| - p
    {
      ContinueStep(result, scale, data[p] - 128, ReadVarint(data, p + 1));
      result := result + (data[p] % 128) * scale;
      scale := scale * 128;
      p := p + 1;
    }
    if p >= |data| { return None; }
    r := Some(((result + data[p] * scale) % width, p + 1));
  }
}
