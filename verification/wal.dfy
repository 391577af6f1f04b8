/** The write-ahead log (src/wal.cc). A log file is the bytes written so far. */
module Wal {
  import opened Slices
  import opened Coding
  import opened Checksum

  datatype Record = Record(kind: byte, key: Bytes, value: Bytes)

  const PUT: byte := 1
  const DELETE: byte := 2

  /** Lengths from here on need five varint bytes, which the reader refuses. */
  const LENGTH_LIMIT: nat := 0x1000_0000

  /** The checked part of a record. */
  function Body(r: Record): Bytes
  {
    [r.kind] + (Varint(|r.key| % U32) + (r.key + (Varint(|r.value| % U32) + r.value)))
  }

  function Encode(r: Record): (e: Bytes)
    ensures |e| > 4
  {
    Body(r) + EncodeFixed32(Crc32(Body(r)))
  }

  function EncodeAll(rs: seq<Record>): Bytes
  {
    if rs == [] then [] else Encode(rs[0]) + EncodeAll(rs[1..])
  }

  predicate Readable(r: Record)
  {
    |r.key| < LENGTH_LIMIT && |r.value| < LENGTH_LIMIT
  }

  // ---- Reading: the specification ----

  datatype Outcome = EndOfLog | Corruption | Good(record: Record, next: nat)

  /** A length of at most four varint bytes. */
  function ReadLength(file: Bytes, p: nat): (r: Option<(nat, nat)>)
    ensures r.Some? ==> p < r.value.1 <= |file|
  {
    match ReadVarint(file, p)
    case None => None
    case Some(n) => if n.1 - p <= 4 then Some(n) else None
  }

  /** A length followed by that many bytes: the bytes and the position after them. */
  function ReadString(file: Bytes, p: nat): (r: Option<(Bytes, nat)>)
    ensures r.Some? ==> p < r.value.1 <= |file|
  {
    match ReadLength(file, p)
    case None => None
    case Some(n) => if n.1 + n.0 > |file| then None else Some((file[n.1..n.1 + n.0], n.1 + n.0))
  }

  function Parse(file: Bytes, p: nat): (r: Outcome)
    ensures r.Good? ==> p < r.next <= |file|
  {
    if p >= |file| then EndOfLog else
    match ReadString(file, p + 1)
    case None => Corruption
    case Some(key) => ParseValue(file, p, key.0, key.1)
  }

  function ParseValue(file: Bytes, p: nat, key: Bytes, q: nat): (r: Outcome)
    requires p < q <= |file|
    ensures r.Good? ==> p < r.next <= |file|
  {
    match ReadString(file, q)
    case None => Corruption
    case Some(value) => ParseChecksum(file, p, key, value.0, value.1)
  }

  function ParseChecksum(file: Bytes, p: nat, key: Bytes, value: Bytes, q: nat): (r: Outcome)
    requires p < q <= |file|
    ensures r.Good? ==> p < r.next <= |file|
  {
    if q + 4 > |file| then Corruption
    else if DecodeFixed(file[q..q + 4]) != Crc32(file[p..q]) then Corruption
    else Good(Record(file[p], key, value), q + 4)
  }

  /** The records delivered before the log ends or goes bad. */
  function Records(file: Bytes, p: nat): seq<Record>
    decreases |file| - p
  {
    match Parse(file, p)
    case Good(r, next) => [r] + Records(file, next)
    case _ => []
  }

  /** Without a terminator among the first `n` bytes a varint is longer than `n`. */
  lemma {:induction false} LongVarint(file: Bytes, p: nat, n: nat)
    requires p + n <= |file| && forall i :: p <= i < p + n ==> file[i] >= 128
    ensures ReadVarint(file, p).Some? ==> ReadVarint(file, p).value.1 > p + n
    decreases n
  {
    if n > 0 { LongVarint(file, p + 1, n - 1); }
  }

  // ---- The classes ----

  class WALWriter {
    var file: Bytes

    /** Open appends to whatever the file already holds. */
    constructor Open(existing: Bytes)
      ensures file == existing
    {
      file := existing;
    }

    method AddRecord(kind: byte, key: Bytes, value: Bytes)
      modifies this
      ensures file == old(file) + Encode(Record(kind, key, value))
    {
      hide Crc32;
      var record: Bytes := [kind];
      var keyLen := VarintEncode(|key| % U32);
      record := record + keyLen;
      record := record + key;
      var valueLen := VarintEncode(|value| % U32);
      record := record + valueLen;
      record := record + value;
      assert record == Body(Record(kind, key, value));
      var crc := ComputeCrc32(record);
      record := record + EncodeFixed32(crc);
      file := file + record;
    }
  }

  /** A reader's position in an open file. */
  class WALReader {
    const file: Bytes
    var pos: nat

    constructor (file: Bytes)
      ensures this.file == file && pos == 0
    {
      this.file := file;
      pos := 0;
    }

    /** One of the two length loops: byte by byte, with the overflow check before the terminator test.
        `read` is what the C++ appends to `raw`. */
    method ReadLen() returns (r: Option<nat>, read: Bytes)
      modifies this
      ensures match ReadLength(file, old(pos))
              case None => r == None
              case Some(n) => r == Some(n.0) && pos == n.1 && read == file[old(pos)..pos]
    {
      hide ReadVarint;
      var len: nat, shift, scale: nat := 0, 0, 1;
      ghost var start := pos;
      read := [];
      while true
        invariant start <= pos && shift == 7 * (pos - start) && shift < 35
        invariant ReadVarint(file, start) == Continue(len, scale, ReadVarint(file, pos))
        invariant pos > start ==> pos <= |file|
        invariant pos <= |file| ==> read == file[start..pos]
        invariant forall i :: start <= i < pos ==> file[i] >= 128
        decreases |file| - pos
      {
        VarintStep(file, pos, len, scale);
        if pos >= |file| { return None, read; }
        var b := file[pos];
        read := read + [b];
        len := len + (b % 128) * scale;
        scale := scale * 128;
        pos := pos + 1;
        shift := shift + 7;
        if shift >= 35 { LongVarint(file, start, 4); return None, read; }
        if b < 128 { return Some(len), read; }
      }
    }

    method ReadFull(n: nat) returns (r: Option<Bytes>)
      modifies this
      ensures r == if old(pos) + n <= |file| then Some(file[old(pos)..old(pos) + n]) else None
      ensures pos == if old(pos) + n <= |file| then old(pos) + n else |file|
    {
      if pos + n <= |file| {
        r := Some(file[pos..pos + n]);
        pos := pos + n;
      } else {
        r := None;
        pos := |file|;
      }
    }

    /** ReadRecord. */
    method ReadRecord() returns (r: Outcome)
      requires pos <= |file|
      modifies this
      ensures r == Parse(file, old(pos))
      ensures r.Good? ==> pos == r.next
    {
      hide ReadVarint, ReadLength, Crc32, DecodeFixed, ParseValue;
      if pos == |file| { return EndOfLog; }
      ghost var start := pos;
      var kind := file[pos];
      var raw: Bytes := [kind];
      pos := pos + 1;
      var keyLen, read := ReadLen();
      if keyLen == None { return Corruption; }
      raw := raw + read;
      var key := ReadFull(keyLen.value);
      if key == None { return Corruption; }
      raw := raw + key.value;
      assert raw == file[start..pos];
      r := ReadRest(start, kind, key.value, raw);
    }

    /** The second half of ReadRecord, from the value's length on. */
    method ReadRest(ghost start: nat, kind: byte, key: Bytes, rawKey: Bytes) returns (r: Outcome)
      requires start < pos <= |file| && kind == file[start] && rawKey == file[start..pos]
      modifies this
      ensures r == ParseValue(file, start, key, old(pos))
      ensures r.Good? ==> pos == r.next
    {
      hide ReadVarint, ReadLength, Crc32, DecodeFixed, ParseChecksum;
      var raw := rawKey;
      var valueLen, read := ReadLen();
      if valueLen == None { return Corruption; }
      raw := raw + read;
      var value := ReadFull(valueLen.value);
      if value == None { return Corruption; }
      raw := raw + value.value;
      assert raw == file[start..pos];
      r := ReadChecksum(start, kind, key, value.value, raw);
    }

    method ReadChecksum(ghost start: nat, kind: byte, key: Bytes, value: Bytes, raw: Bytes) returns (r: Outcome)
      requires start < pos <= |file| && kind == file[start] && raw == file[start..pos]
      modifies this
      ensures r == ParseChecksum(file, start, key, value, old(pos))
      ensures r.Good? ==> pos == r.next
    {
      hide Crc32, DecodeFixed, ToNat, Xor, BitSerial;
      var stored := ReadFull(4);
      if stored == None { return Corruption; }
      var actual := ComputeCrc32(raw);
      if DecodeFixed(stored.value) != actual { return Corruption; }
      r := Good(Record(kind, key, value), pos);
    }
  }

  /** What one more byte says about a varint. */
  lemma VarintStep(file: Bytes, p: nat, len: nat, scale: nat)
    ensures p >= |file| ==> ReadVarint(file, p) == None
    ensures p < |file| && file[p] < 128 ==>
              Continue(len, scale, ReadVarint(file, p)) == Some((len + (file[p] % 128) * scale, p + 1))
    ensures p < |file| && file[p] >= 128 ==>
              Continue(len, scale, ReadVarint(file, p))
              == Continue(len + (file[p] % 128) * scale, scale * 128, ReadVarint(file, p + 1))
  {
    if p < |file| && file[p] >= 128 {
      ContinueStep(len, scale, file[p] - 128, ReadVarint(file, p + 1));
    }
  }

  /** WALReader::Recover, with the callback's calls collected in order. */
  method Recover(file: Bytes) returns (delivered: seq<Record>)
    ensures delivered == Records(file, 0)
  {
    hide Parse;
    var reader := new WALReader(file);
    delivered := [];
    while true
      invariant reader.file == file && reader.pos <= |file|
      invariant delivered + Records(file, reader.pos) == Records(file, 0)
      decreases |file| - reader.pos
    {
      var r := reader.ReadRecord();
      if !r.Good? { break; }
      delivered := delivered + [r.record];
    }
  }

  // ---- Reading what was written ----

  lemma VarintOfShort(n: nat)
    requires n < U32
    ensures |Varint(n)| <= 4 <==> n < LENGTH_LIMIT
  {
    VarintSize(n, 4);
    assert Pow128(2) == 0x4000;
    assert Pow128(4) == LENGTH_LIMIT;
  }

  /** A length and its bytes, standing anywhere, are read back unless the length needs a fifth byte. */
  lemma ReadStringBack(file: Bytes, p: nat, s: Bytes)
    requires |s| < U32 && Coding.At(file, p, Varint(|s|) + s)
    ensures ReadString(file, p)
            == if |s| < LENGTH_LIMIT then Some((s, p + |Varint(|s|)| + |s|)) else None
  {
    hide Varint, ReadVarint;
    AtSplit(file, p, Varint(|s|), s);
    VarintRoundTrip(|s|, file, p);
    VarintOfShort(|s|);
  }

  /** The parser on a record body followed by any four bytes: it accepts exactly when the lengths are
      readable and the four bytes are the checksum of the body. */
  lemma ParseBody(file: Bytes, p: nat, r: Record, crc: Bytes)
    requires |r.key| < U32 && |r.value| < U32 && |crc| == 4
    requires Coding.At(file, p, Body(r) + crc)
    ensures Parse(file, p) == if Readable(r) && DecodeFixed(crc) == Crc32(Body(r))
                              then Good(r, p + |Body(r)| + 4) else Corruption
  {
    hide Varint, ReadVarint, ReadString, Crc32, DecodeFixed, ParseValue, Body;
    var k, v := Varint(|r.key|) + r.key, Varint(|r.value|) + r.value;
    BodyParts(r);
    AtSplit(file, p, Body(r), crc);
    AtSplit(file, p, [r.kind], k + v);
    AtSplit(file, p + 1, k, v);
    ReadStringBack(file, p + 1, r.key);
    assert file[p] == file[p..p + 1][0];
    if |r.key| < LENGTH_LIMIT {
      ParseTail(file, p, r, crc, p + 1 + |k|);
    }
  }

  lemma ParseTail(file: Bytes, p: nat, r: Record, crc: Bytes, q: nat)
    requires |r.value| < U32 && |crc| == 4 && p < q
    requires Coding.At(file, q, Varint(|r.value|) + r.value)
    requires Coding.At(file, p, Body(r)) && p + |Body(r)| == q + |Varint(|r.value|)| + |r.value|
    requires Coding.At(file, p + |Body(r)|, crc) && file[p] == r.kind
    ensures ParseValue(file, p, r.key, q) == if |r.value| < LENGTH_LIMIT && DecodeFixed(crc) == Crc32(Body(r))
                                             then Good(r, p + |Body(r)| + 4) else Corruption
  {
    hide Varint, ReadVarint, ReadString, Crc32, DecodeFixed, Body;
    ReadStringBack(file, q, r.value);
  }

  lemma BodyParts(r: Record)
    requires |r.key| < U32 && |r.value| < U32
    ensures Body(r) == [r.kind] + ((Varint(|r.key|) + r.key) + (Varint(|r.value|) + r.value))
  {
    hide Varint;
    var a, b, c, d := Varint(|r.key|), r.key, Varint(|r.value|), r.value;
    assert a + (b + (c + d)) == (a + b) + (c + d);
  }

  /** Field by field: the kind, each string behind its length, and four bytes of checksum over all of that. */
  lemma RecordLayout(r: Record)
    requires |r.key| < U32 && |r.value| < U32
    ensures var e := Encode(r);
            && e[0] == r.kind && ReadVarint(e, 1).Some? && ReadVarint(e, 1).value.0 == |r.key|
            && var q := ReadVarint(e, 1).value.1;
            && q + |r.key| <= |e| && e[q..q + |r.key|] == r.key
            && ReadVarint(e, q + |r.key|).Some? && ReadVarint(e, q + |r.key|).value.0 == |r.value|
            && var t := ReadVarint(e, q + |r.key|).value.1;
            && t + |r.value| + 4 == |e| && e[t..t + |r.value|] == r.value
            && DecodeFixed(e[|e| - 4..]) == Crc32(e[..|e| - 4])
  {
    hide Varint, ReadVarint, Crc32, DecodeFixed, EncodeFixed32;
    var e, crc := Encode(r), EncodeFixed32(Crc32(Body(r)));
    var a, b := Varint(|r.key|), Varint(|r.value|);
    assert e[..|e| - 4] == Body(r) && e[|e| - 4..] == crc;
    assert e == [r.kind] + (a + (r.key + (b + (r.value + crc))));
    FieldsPlaced(e, [r.kind], a, r.key, b, r.value, crc);
    StringRead(e, 1, |a|, r.key);
    StringRead(e, 1 + |a| + |r.key|, |b|, r.value);
    Fixed32RoundTrip(Crc32(Body(r)));
  }

  lemma StringRead(e: Bytes, p: nat, n: nat, s: Bytes)
    requires n == |Varint(|s|)| && Coding.At(e, p, Varint(|s|)) && Coding.At(e, p + n, s)
    ensures ReadVarint(e, p) == Some((|s|, p + n)) && p + n + |s| <= |e| && e[p + n..p + n + |s|] == s
  {
    hide Varint, ReadVarint;
    VarintRoundTrip(|s|, e, p);
  }

  lemma FieldsPlaced(e: Bytes, k: Bytes, a: Bytes, key: Bytes, b: Bytes, value: Bytes, crc: Bytes)
    requires e == k + (a + (key + (b + (value + crc))))
    ensures Coding.At(e, |k|, a) && Coding.At(e, |k| + |a|, key)
    ensures Coding.At(e, |k| + |a| + |key|, b) && Coding.At(e, |k| + |a| + |key| + |b|, value)
  {
    assert Coding.At(e, 0, k + (a + (key + (b + (value + crc)))));
    hide Coding.At;
    AtSplit(e, 0, k, a + (key + (b + (value + crc))));
    AtSplit(e, |k|, a, key + (b + (value + crc)));
    AtSplit(e, |k| + |a|, key, b + (value + crc));
    AtSplit(e, |k| + |a| + |key|, b, value + crc);
    AtSplit(e, |k| + |a| + |key| + |b|, value, crc);
  }

  /** A written record is read back exactly when both lengths are below 2^28; otherwise it is refused. */
  lemma WrittenIsReadExactly(file: Bytes, p: nat, r: Record)
    requires |r.key| < U32 && |r.value| < U32 && Coding.At(file, p, Encode(r))
    ensures Parse(file, p) == if Readable(r) then Good(r, p + |Encode(r)|) else Corruption
  {
    hide Body, Crc32, Parse;
    ParseBody(file, p, r, EncodeFixed32(Crc32(Body(r))));
    Fixed32RoundTrip(Crc32(Body(r)));
  }

  // ---- Cut logs ----

  /** How many of `rs` lie wholly before byte `cut`. */
  function Whole(rs: seq<Record>, cut: nat): (n: nat)
    ensures n <= |rs|
  {
    if rs == [] || |Encode(rs[0])| > cut then 0 else 1 + Whole(rs[1..], cut - |Encode(rs[0])|)
  }

  /** A string cut short is not read. */
  lemma ReadStringCut(file: Bytes, p: nat, s: Bytes)
    requires |s| < U32 && p <= |file| < p + |Varint(|s|) + s|
    requires file[p..] == (Varint(|s|) + s)[..|file| - p]
    ensures ReadString(file, p) == None
  {
    hide Varint, ReadVarint;
    var e := Varint(|s|);
    if |file| - p < |e| {
      assert file[p..] == e[..|file| - p];
      VarintCut(|s|, file, p);
    } else {
      assert file[p..p + |e|] == file[p..][..|e|] == e;
      VarintRoundTrip(|s|, file, p);
    }
  }

  lemma CutSplit(file: Bytes, p: nat, a: Bytes, b: Bytes)
    requires p <= |file| < p + |a + b| && file[p..] == (a + b)[..|file| - p]
    ensures |file| < p + |a| ==> file[p..] == a[..|file| - p]
    ensures p + |a| <= |file| ==> Coding.At(file, p, a) && file[p + |a|..] == b[..|file| - p - |a|]
  {
    if p + |a| <= |file| {
      assert file[p..p + |a|] == file[p..][..|a|] == a;
      assert file[p + |a|..] == file[p..][|a|..];
    }
  }

  /** A record cut short is refused: it is never taken for a shorter record. */
  lemma CutIsRefused(file: Bytes, p: nat, r: Record)
    requires |r.key| < U32 && |r.value| < U32
    requires p < |file| < p + |Encode(r)| && file[p..] == Encode(r)[..|file| - p]
    ensures Parse(file, p) == Corruption
  {
    hide Varint, ReadVarint, ReadString, Crc32, DecodeFixed, ParseValue, Body, EncodeFixed32;
    var k, v, c := Varint(|r.key|) + r.key, Varint(|r.value|) + r.value, EncodeFixed32(Crc32(Body(r)));
    BodyParts(r);
    assert Encode(r) == [r.kind] + (k + (v + c)) by { assert ([r.kind] + (k + v)) + c == [r.kind] + (k + (v + c)); }
    CutSplit(file, p, [r.kind], k + (v + c));
    CutSplit(file, p + 1, k, v + c);
    if |file| < p + 1 + |k| {
      ReadStringCut(file, p + 1, r.key);
    } else {
      ReadStringBack(file, p + 1, r.key);
      if |r.key| < LENGTH_LIMIT { CutTail(file, p, r.key, r.value, c, p + 1 + |k|); }
    }
  }

  lemma CutTail(file: Bytes, p: nat, key: Bytes, value: Bytes, crc: Bytes, q: nat)
    requires |value| < U32 && |crc| == 4 && p < q <= |file|
    requires |file| < q + |Varint(|value|) + value + crc|
    requires file[q..] == ((Varint(|value|) + value) + crc)[..|file| - q]
    ensures ParseValue(file, p, key, q) == Corruption
  {
    hide Varint, ReadVarint, ReadString, Crc32, DecodeFixed;
    var v := Varint(|value|) + value;
    CutSplit(file, q, v, crc);
    if |file| < q + |v| {
      ReadStringCut(file, q, value);
    } else {
      ReadStringBack(file, q, value);
    }
  }

  ghost predicate AllReadable(rs: seq<Record>)
  {
    forall i :: 0 <= i < |rs| ==> Readable(rs[i])
  }

  /** Writing any readable records and cutting the log at any byte, recovery delivers exactly the records
      wholly before the cut, in order. */
  lemma {:induction false} CutLogDelivers(file: Bytes, p: nat, rs: seq<Record>)
    requires AllReadable(rs) && p <= |file| <= p + |EncodeAll(rs)|
    requires file[p..] == EncodeAll(rs)[..|file| - p]
    ensures Records(file, p) == rs[..Whole(rs, |file| - p)]
    decreases |rs|
  {
    hide Encode, Parse, Readable;
    if rs == [] || p == |file| {
      AtEnd(file, p);
      if rs != [] { assert Whole(rs, 0) == 0; }
    } else {
      var r := rs[0];
      ReadableSizes(r);
      CutSplitOrWhole(file, p, Encode(r), EncodeAll(rs[1..]));
      if |file| < p + |Encode(r)| {
        CutIsRefused(file, p, r);
      } else {
        WrittenIsReadExactly(file, p, r);
        CutLogDelivers(file, p + |Encode(r)|, rs[1..]);
        assert rs[..Whole(rs, |file| - p)] == [r] + rs[1..][..Whole(rs[1..], |file| - p - |Encode(r)|)];
      }
    }
  }

  lemma AtEnd(file: Bytes, p: nat)
    requires p >= |file|
    ensures Parse(file, p) == EndOfLog
  {}

  lemma ReadableSizes(r: Record)
    ensures Readable(r) ==> |r.key| < U32 && |r.value| < U32
  {}

  lemma CutSplitOrWhole(file: Bytes, p: nat, a: Bytes, b: Bytes)
    requires p <= |file| <= p + |a + b| && file[p..] == (a + b)[..|file| - p]
    ensures |file| < p + |a| ==> file[p..] == a[..|file| - p]
    ensures p + |a| <= |file| ==> Coding.At(file, p, a) && file[p + |a|..] == b[..|file| - p - |a|]
  {
    if |file| < p + |a + b| {
      CutSplit(file, p, a, b);
    } else {
      assert file[p..] == a + b;
      assert file[p..p + |a|] == file[p..][..|a|];
      assert file[p + |a|..] == file[p..][|a|..];
    }
  }

  /** An uncut log gives back everything, and one more record appears after appending it. */
  lemma LogRoundTrip(rs: seq<Record>)
    requires AllReadable(rs)
    ensures Records(EncodeAll(rs), 0) == rs
  {
    var file := EncodeAll(rs);
    assert file[0..] == file[..|file|];
    CutLogDelivers(file, 0, rs);
    WholeLog(rs);
  }

  lemma {:induction false} WholeLog(rs: seq<Record>)
    ensures Whole(rs, |EncodeAll(rs)|) == |rs|
  {
    hide Encode;
    if rs != [] { WholeLog(rs[1..]); }
  }

  lemma {:induction false} EncodeAllAppend(rs: seq<Record>, r: Record)
    ensures EncodeAll(rs + [r]) == EncodeAll(rs) + Encode(r)
  {
    hide Encode;
    if rs == [] {
      assert EncodeAll([]) == [] && rs + [r] == [r] && [r][1..] == [];
    } else {
      assert (rs + [r])[1..] == rs[1..] + [r];
      EncodeAllAppend(rs[1..], r);
    }
  }

  // ---- Damage ----

  /** `t` is `s` with at most four consecutive bytes changed. */
  ghost predicate Burst(s: Bytes, t: Bytes, from: nat, width: nat)
  {
    && width <= 4 && from + width <= |s| == |t| && s != t
    && s[..from] == t[..from] && s[from + width..] == t[from + width..]
  }

  /** A change of at most four consecutive bytes inside a record's key or inside its value is reported. */
  lemma DamageIsReported(file: Bytes, p: nat, r: Record, damaged: Record, from: nat, width: nat)
    requires |r.key| < U32 && |r.value| < U32
    requires damaged.kind == r.kind
    requires (Burst(r.key, damaged.key, from, width) && damaged.value == r.value)
             || (Burst(r.value, damaged.value, from, width) && damaged.key == r.key)
    requires Coding.At(file, p, Body(damaged) + EncodeFixed32(Crc32(Body(r))))
    ensures Parse(file, p) == Corruption
  {
    hide Varint, Crc32, Parse, Body, Burst;
    Fixed32RoundTrip(Crc32(Body(r)));
    if Burst(r.key, damaged.key, from, width) && damaged.value == r.value {
      BurstInKey(r, damaged, from, width);
    } else {
      BurstInValue(r, damaged, from, width);
    }
    BurstSizes(r, damaged, from, width);
    ParseBody(file, p, damaged, EncodeFixed32(Crc32(Body(r))));
  }

  lemma BurstSizes(r: Record, damaged: Record, from: nat, width: nat)
    requires (Burst(r.key, damaged.key, from, width) && damaged.value == r.value)
             || (Burst(r.value, damaged.value, from, width) && damaged.key == r.key)
    ensures |damaged.key| == |r.key| && |damaged.value| == |r.value|
  {}

  lemma BurstSplits(s: Bytes, t: Bytes, from: nat, width: nat)
    requires Burst(s, t, from, width)
    ensures s == s[..from] + (s[from..from + width] + s[from + width..])
    ensures t == s[..from] + (t[from..from + width] + s[from + width..])
    ensures s[from..from + width] != t[from..from + width]
  {
    assert t == t[..from] + (t[from..from + width] + t[from + width..]);
  }

  lemma BurstChangesCrc(before: Bytes, s: Bytes, t: Bytes, after: Bytes, from: nat, width: nat)
    requires Burst(s, t, from, width)
    ensures Crc32(before + (s + after)) != Crc32(before + (t + after))
  {
    hide Crc32;
    BurstSplits(s, t, from, width);
    var a, z := s[..from], s[from + width..];
    var v, w := s[from..from + width], t[from..from + width];
    assert before + (s + after) == (before + a) + v + (z + after);
    assert before + (t + after) == (before + a) + w + (z + after);
    CrcDetectsBurst(before + a, v, w, z + after);
  }

  lemma BurstInKey(r: Record, damaged: Record, from: nat, width: nat)
    requires |r.key| < U32 && |r.value| < U32
    requires damaged.kind == r.kind && Burst(r.key, damaged.key, from, width) && damaged.value == r.value
    ensures Crc32(Body(damaged)) != Crc32(Body(r))
  {
    hide Varint, Crc32;
    var n, rest := Varint(|r.key|), Varint(|r.value|) + r.value;
    assert Body(r) == ([r.kind] + n) + (r.key + rest);
    assert Body(damaged) == ([r.kind] + n) + (damaged.key + rest);
    BurstChangesCrc([r.kind] + n, r.key, damaged.key, rest, from, width);
  }

  lemma BurstInValue(r: Record, damaged: Record, from: nat, width: nat)
    requires |r.key| < U32 && |r.value| < U32
    requires damaged.kind == r.kind && Burst(r.value, damaged.value, from, width) && damaged.key == r.key
    ensures Crc32(Body(damaged)) != Crc32(Body(r))
  {
    hide Varint, Crc32;
    var n, m := Varint(|r.key|), Varint(|r.value|);
    var before := [r.kind] + (n + (r.key + m));
    assert Body(r) == before + (r.value + []);
    assert Body(damaged) == before + (damaged.value + []);
    BurstChangesCrc(before, r.value, damaged.value, [], from, width);
  }
}
