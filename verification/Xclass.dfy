/** _pcre_xclass(): the test of a character against an extended class, laid out as the compiler
    does it: flags, an optional map for values below 256, and a list of single values and ranges
    in UTF-8. */
module Xclass {
  import opened Tree
  import opened Utf8

  const XCL_NOT := 1
  const XCL_MAP := 2
  const XCL_END: byte := 0
  const XCL_SINGLE: byte := 1
  const XCL_RANGE: byte := 2

  type Ord = v: nat | v <= MAX_ORD

  datatype Entry = Single(x: Ord) | Range(x: Ord, y: Ord)
  datatype Class = Class(negated: bool, hasMap: bool, bits: Bitmap, entries: seq<Entry>)

  predicate InEntry(e: Entry, c: nat) {
    match e case Single(x) => c == x case Range(x, y) => x <= c <= y
  }

  /** Membership in the union of the map and the entries. */
  ghost predicate InUnion(k: Class, c: nat) {
    || (c < 256 && k.hasMap && InBitmap(k.bits, c))
    || exists i :: 0 <= i < |k.entries| && InEntry(k.entries[i], c)
  }

  function Flags(k: Class): byte {
    (if k.negated then XCL_NOT else 0) + (if k.hasMap then XCL_MAP else 0)
  }

  function EmitEntry(e: Entry): (s: seq<byte>)
    ensures |s| > 0
  {
    match e
    case Single(x) => [XCL_SINGLE] + Encode(x)
    case Range(x, y) => [XCL_RANGE] + Encode(x) + Encode(y)
  }

  function EmitEntries(es: seq<Entry>): (s: seq<byte>)
    ensures |s| > 0
  {
    if es == [] then [XCL_END] else EmitEntry(es[0]) + EmitEntries(es[1..])
  }

  function EmitClass(k: Class): seq<byte> {
    [Flags(k)] + (if k.hasMap then k.bits else []) + EmitEntries(k.entries)
  }

  lemma EncodeAt(data: seq<byte>, p: nat, x: Ord, rest: seq<byte>)
    requires p <= |data| && data[p..] == Encode(x) + rest
    ensures p + |Encode(x)| <= |data| && data[p + |Encode(x)|..] == rest && (rest != [] ==> ReadAt(data, p, x))
  {
    hide Encode, Decode, LengthAt;
    var e := Encode(x);
    assert data[p..p + |e|] == data[p..][..|e|];
    assert data[p + |e|..] == data[p..][|e|..];
    RoundTrip(data, p, x);
  }

  /** The result is membership in the union, negated if the class is; the data are not read past their end. */
  method MatchXclass(c: nat, data: seq<byte>, ghost k: Class) returns (r: bool)
    requires data == EmitClass(k)
    ensures r <==> (InUnion(k, c) != k.negated)
  {
    hide Encode, EmitEntry, EmitEntries, InBitmap, InUnion, InEntry, Decode, LengthAt, EmitClass;
    ClassParts(k);
    UnionParts(k, c);
    var negated, has_map := data[0] % 2 == 1, data[0] / 2 % 2 == 1;
    if c < 256 && has_map {
      if InBitmap(data[1..33], c) {
        return !negated;
      }
    }
    var p: nat := if has_map then 33 else 1;
    ghost var i := 0;
    assert k.entries[0..] == k.entries;
    EndStep(k.entries, 0);
    while data[p] != XCL_END
      invariant 0 <= i <= |k.entries| && p < |data| && data[p..] == EmitEntries(k.entries[i..])
      invariant forall j :: 0 <= j < i ==> !InEntry(k.entries[j], c)
      invariant data[p] == XCL_END <==> i == |k.entries|
      decreases |k.entries| - i
    {
      EndStep(k.entries, i);
      ghost var e, rest := k.entries[i], EmitEntries(k.entries[i + 1..]);
      var t := data[p];
      EntryBytes(data, p, e, rest);
      EntryTest(e, c);
      var x, y: nat;
      x, p := GetCharInc(data, p + 1);
      if t == XCL_SINGLE {
        if c == x {
          return !negated;
        }
      } else {
        y, p := GetCharInc(data, p);
        if x <= c <= y {
          return !negated;
        }
      }
      assert !InEntry(e, c) && data[p..] == rest;
      i := i + 1;
      EndStep(k.entries, i);
    }
    return negated;
  }

  lemma EntryTest(e: Entry, c: nat)
    ensures InEntry(e, c) <==> if e.Single? then c == e.x else e.x <= c <= e.y
  {
  }

  lemma UnionParts(k: Class, c: nat)
    ensures c < 256 && k.hasMap && InBitmap(k.bits, c) ==> InUnion(k, c)
    ensures forall i :: 0 <= i < |k.entries| && InEntry(k.entries[i], c) ==> InUnion(k, c)
    ensures InUnion(k, c) ==>
      (c < 256 && k.hasMap && InBitmap(k.bits, c)) || exists i :: 0 <= i < |k.entries| && InEntry(k.entries[i], c)
  {
  }

  lemma ClassParts(k: Class)
    ensures var data := EmitClass(k);
      && |data| > 1 && (data[0] % 2 == 1 <==> k.negated) && (data[0] / 2 % 2 == 1 <==> k.hasMap)
      && (k.hasMap ==> |data| > 33 && data[1..33] == k.bits && data[33..] == EmitEntries(k.entries))
      && (!k.hasMap ==> data[1..] == EmitEntries(k.entries))
  {
    hide EmitEntries;
  }

  lemma EndStep(es: seq<Entry>, i: nat)
    requires i <= |es|
    ensures |EmitEntries(es[i..])| > 0 && (EmitEntries(es[i..])[0] == XCL_END <==> i == |es|)
    ensures i < |es| ==> EmitEntries(es[i..]) == EmitEntry(es[i]) + EmitEntries(es[i + 1..])
  {
    hide Encode;
    if i < |es| {
      assert es[i..][0] == es[i] && es[i..][1..] == es[i + 1..];
    }
  }

  /** What is read at an entry, and where the next one begins. */
  lemma {:induction false} EntryBytes(data: seq<byte>, p: nat, e: Entry, rest: seq<byte>)
    requires p < |data| && data[p..] == EmitEntry(e) + rest && |rest| > 0
    ensures data[p] == (if e.Single? then XCL_SINGLE else XCL_RANGE) && ReadAt(data, p + 1, e.x)
    ensures e.Single? ==> data[p + 1 + |Encode(e.x)|..] == rest
    ensures e.Range? ==>
      ReadAt(data, p + 1 + |Encode(e.x)|, e.y) && data[p + 1 + |Encode(e.x)| + |Encode(e.y)|..] == rest
  {
    hide Encode, ReadAt, EmitEntry;
    var tag, after := if e.Single? then XCL_SINGLE else XCL_RANGE, if e.Single? then rest else Encode(e.y) + rest;
    EntrySplit(e, rest, tag, after);
    assert data[p..][0] == tag;
    assert data[p + 1..] == data[p..][1..];
    EncodeAt(data, p + 1, e.x, after);
    if e.Range? {
      EncodeAt(data, p + 1 + |Encode(e.x)|, e.y, rest);
    }
  }

  lemma EntrySplit(e: Entry, rest: seq<byte>, tag: byte, after: seq<byte>)
    requires tag == (if e.Single? then XCL_SINGLE else XCL_RANGE)
    requires after == (if e.Single? then rest else Encode(e.y) + rest)
    ensures EmitEntry(e) + rest == [tag] + (Encode(e.x) + after)
  {
    hide Encode;
  }

  /** Decoding at p gives x and stays inside the data. */
  ghost predicate ReadAt(data: seq<byte>, p: nat, x: Ord) {
    p < |data| && LengthAt(data, p) == |Encode(x)| && p + |Encode(x)| < |data| && Decode(data, p) == x
  }
}
