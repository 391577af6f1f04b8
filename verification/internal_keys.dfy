/** Internal keys (include/minilsm/internal_key.h): a user key followed by an eight-byte trailer
    that packs the complemented sequence number and the value type. */
module InternalKeys {
  import opened Slices
  import opened Coding
  import opened Entries

  const MAX_SEQUENCE: nat := 0xFF_FFFF_FFFF_FFFF

  datatype ValueType = Deletion | Value

  function TypeByte(t: ValueType): byte
  {
    match t case Deletion => 0 case Value => 1
  }

  /** MemTable::Add and SSTableBuilder::Add both call an empty value a deletion. */
  function TypeOf(value: Bytes): ValueType
  {
    if value == [] then Deletion else Value
  }

  function PackSequenceAndType(seqno: nat, t: ValueType): (r: nat)
    requires seqno <= MAX_SEQUENCE
    ensures r < U64
  {
    (MAX_SEQUENCE - seqno) * 256 + TypeByte(t)
  }

  function UnpackSequence(packed: nat): nat
    requires packed < U64
  {
    MAX_SEQUENCE - packed / 256
  }

  function Trailer(seqno: nat, t: ValueType): (r: Bytes)
    requires seqno <= MAX_SEQUENCE
    ensures |r| == 8
  {
    EncodeFixed64(PackSequenceAndType(seqno, t))
  }

  function MakeInternalKey(userKey: Bytes, seqno: nat, t: ValueType): (r: Bytes)
    requires seqno <= MAX_SEQUENCE
    ensures |r| == |userKey| + 8
  {
    userKey + Trailer(seqno, t)
  }

  /** Sorts before every version of its user key that the store can hold. */
  function MakeLookupKey(userKey: Bytes): Bytes
  {
    MakeInternalKey(userKey, MAX_SEQUENCE, Deletion)
  }

  function ExtractUserKey(internalKey: Bytes): Bytes
  {
    if |internalKey| < 8 then internalKey else internalKey[..|internalKey| - 8]
  }

  function ExtractSequence(internalKey: Bytes): nat
  {
    if |internalKey| < 8 then MAX_SEQUENCE
    else
      Fixed64Bound(internalKey[|internalKey| - 8..]);
      UnpackSequence(DecodeFixed(internalKey[|internalKey| - 8..]))
  }

  lemma Fixed64Bound(b: Bytes)
    requires |b| == 8
    ensures DecodeFixed(b) < U64
  {
    DecodeBound(b);
    assert Span(8) == U64 by { assert Span(2) == 0x1_0000; assert Span(4) == U32; assert Span(6) == 0x1_0000_0000_0000; }
  }

  lemma {:induction false} DecodeBound(b: Bytes)
    ensures DecodeFixed(b) < Span(|b|)
  {
    if b != [] { DecodeBound(b[1..]); }
  }

  /** Taking an internal key apart undoes making it. */
  lemma InternalKeyRoundTrip(userKey: Bytes, seqno: nat, t: ValueType)
    requires seqno <= MAX_SEQUENCE
    ensures ExtractUserKey(MakeInternalKey(userKey, seqno, t)) == userKey
    ensures ExtractSequence(MakeInternalKey(userKey, seqno, t)) == seqno
  {
    var k := MakeInternalKey(userKey, seqno, t);
    assert k[..|userKey|] == userKey;
    assert k[|k| - 8..] == Trailer(seqno, t);
    Fixed64RoundTrip(PackSequenceAndType(seqno, t));
  }

  /** Byte by byte: the user key, a type byte that is 0 for a deletion and 1 for a value, and the complement of the
      number with its least significant byte first. */
  lemma InternalKeyLayout(userKey: Bytes, seqno: nat, t: ValueType, i: nat)
    requires seqno <= MAX_SEQUENCE && i < 7
    ensures var k := MakeInternalKey(userKey, seqno, t);
            && |k| == |userKey| + 8 && k[..|userKey|] == userKey && k[|userKey|] == (if t.Deletion? then 0 else 1)
            && k[|userKey| + 1 + i] == (0xFF_FFFF_FFFF_FFFF - seqno) / Span(i) % 256
  {
    TrailerHead(seqno, t);
    FixedDigits(MAX_SEQUENCE - seqno, 7, i);
    assert Trailer(seqno, t)[1 + i] == Fixed(MAX_SEQUENCE - seqno, 7)[i];
  }

  lemma InternalKeyInjective(u: Bytes, s: nat, t: ValueType, v: Bytes, r: nat, w: ValueType)
    requires s <= MAX_SEQUENCE && r <= MAX_SEQUENCE
    requires MakeInternalKey(u, s, t) == MakeInternalKey(v, r, w)
    ensures u == v && s == r
  {
    InternalKeyRoundTrip(u, s, t);
    InternalKeyRoundTrip(v, r, w);
  }

  // ---- User keys first ----

  /** Keys on which byte order and user-key order agree: no byte that a type byte could reach. */
  predicate Plain(userKey: Bytes)
  {
    forall i :: 0 <= i < |userKey| ==> userKey[i] >= 2
  }

  lemma TrailerHead(seqno: nat, t: ValueType)
    requires seqno <= MAX_SEQUENCE
    ensures Trailer(seqno, t) == [TypeByte(t)] + Fixed(MAX_SEQUENCE - seqno, 7)
  {
    var p := PackSequenceAndType(seqno, t);
    assert p % 256 == TypeByte(t) && p / 256 == MAX_SEQUENCE - seqno;
  }

  /** The bytes of internal keys of different plain user keys compare as the user keys do. */
  lemma {:induction false} UserKeyOrderFirst(u: Bytes, v: Bytes, s: Bytes, t: Bytes)
    requires Plain(u) && Plain(v) && u != v
    requires s != [] && s[0] < 2 && t != [] && t[0] < 2
    ensures Less(u + s, v + t) <==> Less(u, v)
    decreases |u|
  {
    if u != [] && v != [] && u[0] == v[0] {
      assert (u + s)[1..] == u[1..] + s && (v + t)[1..] == v[1..] + t;
      assert u == [u[0]] + u[1..] && v == [v[0]] + v[1..];
      UserKeyOrderFirst(u[1..], v[1..], s, t);
    }
  }

  /** `v` is `u` and more. */
  predicate Extends(v: Bytes, u: Bytes)
  {
    |u| < |v| && v[..|u|] == u
  }

  /** For any keys: the orders agree exactly unless one key extends the other and what it adds sorts on the wrong side
      of the shorter key's trailer. */
  lemma {:induction false} UserKeyOrderExactly(u: Bytes, v: Bytes, s: Bytes, t: Bytes)
    requires u != v
    ensures (Less(u + s, v + t) <==> Less(u, v))
            <==> (Extends(v, u) ==> Less(s, v[|u|..] + t)) && (Extends(u, v) ==> !Less(u[|v|..] + s, t))
    decreases |u|
  {
    if u != [] && v != [] && u[0] == v[0] {
      var a, b := u[1..], v[1..];
      assert (u + s)[1..] == a + s && (v + t)[1..] == b + t;
      assert u == [u[0]] + a && v == [v[0]] + b;
      UserKeyOrderExactly(a, b, s, t);
      ExtendsTail(u, v);
      ExtendsTail(v, u);
    } else if u == [] {
      assert u + s == s && v[0..] == v && v[..0] == [];
    } else if v == [] {
      assert v + t == t && u[0..] == u && u[..0] == [];
    }
  }

  lemma ExtendsTail(v: Bytes, u: Bytes)
    requires u != [] && v != [] && u[0] == v[0]
    ensures Extends(v, u) <==> Extends(v[1..], u[1..])
    ensures Extends(v, u) ==> v[|u|..] == v[1..][|u[1..]|..]
  {
    if Extends(v[1..], u[1..]) {
      assert v == [v[0]] + v[1..];
      assert v[..|u|] == [v[0]] + v[1..][..|u| - 1] == u;
    }
    if Extends(v, u) { assert v[1..][..|u| - 1] == v[..|u|][1..]; }
  }

  /** A key with a small byte can break that agreement: the live entry of `""` sorts after
      a tombstone of the longer key whose only byte is 0. */
  lemma SmallBytesBreakTheOrder()
    ensures Less([], [0]) && !Less(MakeInternalKey([], 1, Value), MakeInternalKey([0], 1, Deletion))
  {
    TrailerHead(1, Value);
    TrailerHead(1, Deletion);
  }

  lemma LookupKeyIsZero()
    ensures Trailer(MAX_SEQUENCE, Deletion) == [0, 0, 0, 0, 0, 0, 0, 0]
  {
    assert Fixed(0, 2) == [0, 0];
    assert Fixed(0, 4) == [0, 0, 0, 0];
    assert Fixed(0, 6) == [0, 0, 0, 0, 0, 0];
  }

  lemma {:induction false} ZerosAreLeast(z: Bytes, b: Bytes)
    requires |z| == |b| && forall i :: 0 <= i < |z| ==> z[i] == 0
    ensures !Less(b, z)
  {
    if z != [] { ZerosAreLeast(z[1..], b[1..]); }
  }

  /** Against a lookup key, a stored entry compares by user key alone. */
  lemma LookupCompares(stored: Bytes, seqno: nat, t: ValueType, u: Bytes)
    requires seqno <= MAX_SEQUENCE && Plain(stored) && Plain(u)
    ensures Less(MakeInternalKey(stored, seqno, t), MakeLookupKey(u)) <==> Less(stored, u)
  {
    TrailerHead(seqno, t);
    TrailerHead(MAX_SEQUENCE, Deletion);
    if stored == u {
      LessIrreflexive(u);
      LookupKeyIsZero();
      ZerosAreLeast(Trailer(MAX_SEQUENCE, Deletion), Trailer(seqno, t));
      LessCommonPrefix(u, Trailer(seqno, t), Trailer(MAX_SEQUENCE, Deletion));
    } else {
      UserKeyOrderFirst(stored, u, Trailer(seqno, t), Trailer(MAX_SEQUENCE, Deletion));
    }
  }

  // ---- Newest first: exactly when ----

  /** `newer` exceeds `older` at the lowest byte in which the two numbers differ. */
  predicate LowBytesGrow(older: nat, newer: nat, width: nat)
  {
    width > 0 && (older % 256 < newer % 256
                  || (older % 256 == newer % 256 && LowBytesGrow(older / 256, newer / 256, width - 1)))
  }

  /** Whether the version (newer, t) of a key is stored before the version (older, r). */
  predicate SortsBefore(newer: nat, t: ValueType, older: nat, r: ValueType)
  {
    (t == Deletion && r == Value) || (t == r && LowBytesGrow(older, newer, 7))
  }

  /** Complementing a number complements each of its bytes. */
  lemma {:induction false} ComplementOrder(a: nat, b: nat, width: nat)
    requires a < Span(width) && b < Span(width)
    ensures Less(Fixed(Span(width) - 1 - b, width), Fixed(Span(width) - 1 - a, width)) <==> LowBytesGrow(a, b, width)
    decreases width
  {
    if width > 0 {
      var m := Span(width - 1);
      ComplementByte(a, m);
      ComplementByte(b, m);
      ComplementOrder(a / 256, b / 256, width - 1);
      var x, y := Fixed(256 * m - 1 - b, width), Fixed(256 * m - 1 - a, width);
      assert x[1..] == Fixed(m - 1 - b / 256, width - 1) && y[1..] == Fixed(m - 1 - a / 256, width - 1);
    }
  }

  lemma ComplementByte(a: nat, m: nat)
    requires a < 256 * m
    ensures (256 * m - 1 - a) % 256 == 255 - a % 256
    ensures (256 * m - 1 - a) / 256 == m - 1 - a / 256
  {
    var q, r := a / 256, a % 256;
    assert 256 * m - 1 - a == 256 * (m - 1 - q) + (255 - r);
  }

  /** The order of two versions of one key, exactly: type first, then the sequence numbers
      compared from their lowest byte up. */
  lemma VersionOrder(u: Bytes, newer: nat, t: ValueType, older: nat, r: ValueType)
    requires newer <= MAX_SEQUENCE && older <= MAX_SEQUENCE
    ensures Less(MakeInternalKey(u, newer, t), MakeInternalKey(u, older, r)) <==> SortsBefore(newer, t, older, r)
  {
    TrailerHead(newer, t);
    TrailerHead(older, r);
    LessCommonPrefix(u, Trailer(newer, t), Trailer(older, r));
    assert Span(7) == MAX_SEQUENCE + 1 by { assert Span(3) == 0x100_0000; assert Span(5) == 0x100_0000_0000; }
    ComplementOrder(older, newer, 7);
    assert Trailer(newer, t)[1..] == Fixed(MAX_SEQUENCE - newer, 7);
    assert Trailer(older, r)[1..] == Fixed(MAX_SEQUENCE - older, 7);
  }

  /** Within the first 255 numbers the promise holds for versions of one type: the newer one sorts first. */
  lemma NewestFirstBelow256(u: Bytes, newer: nat, older: nat, t: ValueType)
    requires older < newer < 256
    ensures Less(MakeInternalKey(u, newer, t), MakeInternalKey(u, older, t))
  {
    hide Less;
    LowBytesBelow256(newer, older);
    VersionOrder(u, newer, t, older, t);
  }

  lemma LowBytesBelow256(newer: nat, older: nat)
    requires older < newer < 256
    ensures LowBytesGrow(older, newer, 7)
  {}

  /** One number further it fails: version 255 of a key is stored before version 256. */
  lemma NewestFirstFails(u: Bytes)
    ensures Less(MakeInternalKey(u, 255, Value), MakeInternalKey(u, 256, Value))
  {
    assert !LowBytesGrow(255, 256, 7) && LowBytesGrow(256, 255, 7);
    VersionOrder(u, 255, Value, 256, Value);
  }

  // ---- Numbered entries: both the memory table and the table builder count their Adds from 1 ----

  /** The internal key of the `i`-th Add: sequence numbers start at 1 and never repeat. */
  function Version(h: seq<Entry>, i: nat): Bytes
    requires i < |h| <= MAX_SEQUENCE
  {
    MakeInternalKey(h[i].key, i + 1, TypeOf(h[i].value))
  }

  ghost predicate PlainEntries(h: seq<Entry>)
  {
    forall i :: 0 <= i < |h| ==> Plain(h[i].key)
  }

  lemma VersionInjective(h: seq<Entry>, i: nat, j: nat)
    requires i < |h| <= MAX_SEQUENCE && j < |h| && Version(h, i) == Version(h, j)
    ensures i == j
  {
    InternalKeyInjective(h[i].key, i + 1, TypeOf(h[i].value), h[j].key, j + 1, TypeOf(h[j].value));
  }

  lemma VersionsOfPrefix(h: seq<Entry>)
    requires 0 < |h| <= MAX_SEQUENCE
    ensures forall i :: 0 <= i < |h| - 1 ==> Version(h[..|h| - 1], i) == Version(h, i)
  {}

  lemma VersionOfOther(h: seq<Entry>, i: nat, j: nat)
    requires i < |h| <= MAX_SEQUENCE && j < |h| && PlainEntries(h) && h[i].key != h[j].key
    ensures Less(Version(h, i), Version(h, j)) <==> Less(h[i].key, h[j].key)
  {
    hide Less;
    TrailerHead(i + 1, TypeOf(h[i].value));
    TrailerHead(j + 1, TypeOf(h[j].value));
    UserKeyOrderFirst(h[i].key, h[j].key, Trailer(i + 1, TypeOf(h[i].value)), Trailer(j + 1, TypeOf(h[j].value)));
  }

  lemma VersionAgainstLookup(h: seq<Entry>, i: nat, u: Bytes)
    requires i < |h| <= MAX_SEQUENCE && PlainEntries(h) && Plain(u)
    ensures Less(Version(h, i), MakeLookupKey(u)) <==> Less(h[i].key, u)
    ensures ExtractUserKey(Version(h, i)) == h[i].key
  {
    LookupCompares(h[i].key, i + 1, TypeOf(h[i].value), u);
    InternalKeyRoundTrip(h[i].key, i + 1, TypeOf(h[i].value));
  }

  /** The search every reader makes in a run of internal keys: the first one that is not less than the
      lookup key, if it is a version of `u`. */
  function FindVersion(s: seq<Entry>, u: Bytes): Option<Bytes>
  {
    var p := LowerBound(s, MakeLookupKey(u));
    if p < |s| && ExtractUserKey(s[p].key) == u then Some(s[p].value) else None
  }

  /** The internal entries of a table to which `es` were added in order. */
  function Numbered(es: seq<Entry>): (s: seq<Entry>)
    requires |es| <= MAX_SEQUENCE
    ensures |s| == |es|
  {
    seq(|es|, i requires 0 <= i < |es| => Entry(Version(es, i), es[i].value))
  }

  /** In sorted plain entries the search finds the first entry of the key; the trailers do not matter. */
  lemma FindVersionIsLookup(es: seq<Entry>, u: Bytes)
    requires |es| <= MAX_SEQUENCE && UserSorted(es) && PlainEntries(es) && Plain(u)
    ensures FindVersion(Numbered(es), u) == Lookup(es, u)
    ensures forall i :: 0 <= i < LowerBound(Numbered(es), MakeLookupKey(u)) ==> Less(es[i].key, u)
    ensures forall i :: LowerBound(Numbered(es), MakeLookupKey(u)) <= i < |es| ==> !Less(es[i].key, u)
  {
    hide Less, Version, ExtractUserKey, LowerBound, MakeLookupKey, Lookup, Plain;
    var s := Numbered(es);
    var p := LowerBound(s, MakeLookupKey(u));
    LessIrreflexive(u);
    forall i | 0 <= i < |s|
      ensures Less(s[i].key, MakeLookupKey(u)) <==> Less(es[i].key, u)
      ensures ExtractUserKey(s[i].key) == es[i].key
    {
      VersionAgainstLookup(es, i, u);
    }
    forall i | p <= i < |es|
      ensures !Less(es[i].key, u)
    {
      if p < i && Less(es[i].key, u) {
        LessTotal(es[p].key, u);
        if es[p].key != u { LessTransitive(es[i].key, u, es[p].key); }
      }
    }
    LookupAt(es, u, p);
    if p < |s| && es[p].key != u {
      forall i | p <= i < |es|
        ensures es[i].key != u
      {
        LessTotal(es[p].key, u);
      }
      LookupAt(es, u, |es|);
    }
  }
}
