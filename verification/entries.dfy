/** Key-value entries and the sorted sequence of them that a skip list stands for. */
module Entries {
  import opened Slices
  import opened Coding

  datatype Entry = Entry(key: Bytes, value: Bytes)

  /** Strictly increasing keys. */
  ghost predicate Sorted(s: seq<Entry>)
  {
    forall i, j :: 0 <= i < j < |s| ==> Less(s[i].key, s[j].key)
  }

  /** The position of the first key that is not less than `key`. */
  function LowerBound(s: seq<Entry>, key: Bytes): (p: nat)
    ensures p <= |s|
    ensures forall i :: 0 <= i < p ==> Less(s[i].key, key)
    ensures p < |s| ==> !Less(s[p].key, key)
  {
    if s == [] || !Less(s[0].key, key) then 0 else 1 + LowerBound(s[1..], key)
  }

  /** The only position with that property in a sorted sequence. */
  lemma LowerBoundUnique(s: seq<Entry>, key: Bytes, p: nat)
    requires Sorted(s) && p <= |s|
    requires p > 0 ==> Less(s[p - 1].key, key)
    requires p < |s| ==> !Less(s[p].key, key)
    ensures LowerBound(s, key) == p
  {
    var q := LowerBound(s, key);
    if q < p {
      if q < p - 1 { LessTransitive(s[q].key, s[p - 1].key, key); }
      assert false;
    }
  }

  /** Inserting or updating one key: what SkipList::Insert does to the contents. */
  function Put(s: seq<Entry>, key: Bytes, value: Bytes): seq<Entry>
  {
    var p := LowerBound(s, key);
    if p < |s| && s[p].key == key then s[p := Entry(key, value)]
    else s[..p] + [Entry(key, value)] + s[p..]
  }

  /** What a sorted sequence holds for a key: what SkipList::Contains reports. */
  function Find(s: seq<Entry>, key: Bytes): Option<Bytes>
  {
    var p := LowerBound(s, key);
    if p < |s| && s[p].key == key then Some(s[p].value) else None
  }

  lemma FindExactly(s: seq<Entry>, key: Bytes)
    requires Sorted(s)
    ensures forall e :: e in s && e.key == key ==> Find(s, key) == Some(e.value)
    ensures Find(s, key).Some? ==> Entry(key, Find(s, key).value) in s
  {
    LessIrreflexive(key);
  }

  lemma PutKeepsSorted(s: seq<Entry>, key: Bytes, value: Bytes)
    requires Sorted(s)
    ensures Sorted(Put(s, key, value))
  {
    var p := LowerBound(s, key);
    var r := Put(s, key, value);
    if !(p < |s| && s[p].key == key) {
      if p < |s| { LessTotal(key, s[p].key); }
      forall i, j | 0 <= i < j < |r|
        ensures Less(r[i].key, r[j].key)
      {
        if i == p && j > p + 1 { LessTransitive(key, s[p].key, s[j - 1].key); }
      }
    }
  }

  /** Put changes what is found for exactly that key. */
  lemma PutFind(s: seq<Entry>, key: Bytes, value: Bytes, other: Bytes)
    requires Sorted(s)
    ensures Find(Put(s, key, value), other) == if other == key then Some(value) else Find(s, other)
  {
    var r := Put(s, key, value);
    PutKeepsSorted(s, key, value);
    FindExactly(s, other);
    FindExactly(r, other);
    var p := LowerBound(s, key);
    assert r[p] == Entry(key, value);
    if other != key {
      if Find(s, other).Some? {
        var i := LowerBound(s, other);
        assert s[i] in r by { assert s[i] == r[i] || s[i] == r[i + 1]; }
      }
      if Find(r, other).Some? {
        var i := LowerBound(r, other);
        assert r[i] in s by { assert i != p; }
      }
    }
  }

  // ---- Entries by user key: what a sorted file holds ----

  /** The value of the first entry with key `u`. */
  function Lookup(es: seq<Entry>, u: Bytes): Option<Bytes>
  {
    if es == [] then None
    else if es[0].key == u then Some(es[0].value)
    else Lookup(es[1..], u)
  }

  /** Keys never decrease. */
  ghost predicate UserSorted(es: seq<Entry>)
  {
    forall i, j :: 0 <= i < j < |es| ==> !Less(es[j].key, es[i].key)
  }

  lemma {:induction false} LookupAt(es: seq<Entry>, u: Bytes, p: nat)
    requires p <= |es| && forall i :: 0 <= i < p ==> es[i].key != u
    ensures p < |es| && es[p].key == u ==> Lookup(es, u) == Some(es[p].value)
    ensures p == |es| ==> Lookup(es, u) == None
    ensures Lookup(es, u) == Lookup(es[p..], u)
  {
    if p == 0 {
      assert es[p..] == es;
    } else {
      LookupAt(es[1..], u, p - 1);
      assert es[p..] == es[1..][p - 1..];
    }
  }

  lemma {:induction false} LookupFinds(es: seq<Entry>, u: Bytes) returns (p: nat)
    requires Lookup(es, u).Some?
    ensures p < |es| && es[p] == Entry(u, Lookup(es, u).value)
    ensures forall i :: 0 <= i < p ==> es[i].key != u
  {
    if es[0].key == u {
      p := 0;
    } else {
      p := LookupFinds(es[1..], u);
      p := p + 1;
    }
  }

  lemma {:induction false} LookupNone(es: seq<Entry>, u: Bytes)
    ensures Lookup(es, u).None? <==> forall e :: e in es ==> e.key != u
  {
    if es != [] { LookupNone(es[1..], u); }
  }
}
