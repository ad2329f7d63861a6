/** UTF-8: encoding, decoding and the validity check. Masks and shifts are written as the
    divisions and remainders that they stand for. */
module Utf8 {
  import opened Tree

  const MAX_ORD := 0x7fffffff

  /** The number of bytes after the first: _pcre_utf8_table1. */
  function Extra(v: nat): (k: nat)
    ensures k <= 5
  {
    if v <= 0x7f then 0 else if v <= 0x7ff then 1 else if v <= 0xffff then 2
    else if v <= 0x1fffff then 3 else if v <= 0x3ffffff then 4 else 5
  }

  /** The bits that say so in the first byte: _pcre_utf8_table2. */
  function Lead(k: nat): (b: byte)
    requires k <= 5
  {
    if k == 0 then 0 else if k == 1 then 0xc0 else if k == 2 then 0xe0 else if k == 3 then 0xf0 else if k == 4 then 0xf8 else 0xfc
  }

  /** How many values the data bits of the first byte can have: _pcre_utf8_table3. */
  function Room(k: nat): (n: nat)
    requires k <= 5
    ensures 0 < n <= 256
  {
    if k == 0 then 256 else if k == 1 then 32 else if k == 2 then 16 else if k == 3 then 8 else if k == 4 then 4 else 2
  }

  /** The number of bytes after a first byte of 0xc0 or more: _pcre_utf8_table4. */
  function ExtraOf(b: byte): (k: nat)
    ensures 1 <= k <= 5
  {
    var i := b % 64;
    if i < 32 then 1 else if i < 48 then 2 else if i < 56 then 3 else if i < 60 then 4 else 5
  }

  function Pow64(k: nat): (n: nat)
    ensures n >= 1
  {
    if k == 0 then 1 else 64 * Pow64(k - 1)
  }

  /** The value without its last k groups of six bits. */
  function Shift(v: nat, k: nat): nat {
    if k == 0 then v else Shift(v / 64, k - 1)
  }

  /** The last k groups of six bits as continuation bytes. */
  function Tail(v: nat, k: nat): (s: seq<byte>)
    ensures |s| == k
  {
    if k == 0 then [] else Tail(v / 64, k - 1) + [128 + v % 64]
  }

  lemma ShiftFits(v: nat)
    requires v <= MAX_ORD
    ensures Extra(v) == 0 ==> Shift(v, 0) < 128
    ensures Extra(v) > 0 ==> Shift(v, Extra(v)) < Room(Extra(v)) && Shift(v, Extra(v)) + Lead(Extra(v)) < 256
  {
    Shifts(v);
  }

  lemma Shifts(v: nat)
    ensures Shift(v, 0) == v && Shift(v, 1) == v / 64 && Shift(v, 2) == v / 64 / 64 && Shift(v, 3) == v / 64 / 64 / 64
    ensures Shift(v, 4) == v / 64 / 64 / 64 / 64 && Shift(v, 5) == v / 64 / 64 / 64 / 64 / 64
  {
    assert Shift(v / 64, 1) == v / 64 / 64;
    assert Shift(v / 64 / 64, 1) == v / 64 / 64 / 64;
    assert Shift(v / 64 / 64 / 64, 1) == v / 64 / 64 / 64 / 64;
    assert Shift(v / 64 / 64 / 64 / 64, 1) == v / 64 / 64 / 64 / 64 / 64;
    assert Shift(v / 64, 2) == v / 64 / 64 / 64;
    assert Shift(v / 64 / 64, 2) == v / 64 / 64 / 64 / 64;
    assert Shift(v / 64 / 64 / 64, 2) == v / 64 / 64 / 64 / 64 / 64;
    assert Shift(v / 64, 3) == v / 64 / 64 / 64 / 64;
    assert Shift(v / 64 / 64, 3) == v / 64 / 64 / 64 / 64 / 64;
    assert Shift(v / 64, 4) == v / 64 / 64 / 64 / 64 / 64;
  }

  function Encode(v: nat): (s: seq<byte>)
    requires v <= MAX_ORD
    ensures |s| == Extra(v) + 1
  {
    ShiftFits(v);
    [Lead(Extra(v)) + Shift(v, Extra(v))] + Tail(v, Extra(v))
  }

  /** The data bits of a continuation byte. */
  function Data(b: byte): nat {
    b % 64
  }

  /** Continuing a value with the data bits of more bytes. */
  function Fold(c: nat, s: seq<byte>): nat {
    if s == [] then c else Fold(c, s[..|s| - 1]) * 64 + Data(s[|s| - 1])
  }

  lemma {:induction false} FoldTail(v: nat, k: nat)
    ensures Fold(Shift(v, k), Tail(v, k)) == v
    decreases k
  {
    if k > 0 {
      var s := Tail(v, k);
      assert s[..k - 1] == Tail(v / 64, k - 1) && s[k - 1] == 128 + v % 64;
      FoldTail(v / 64, k - 1);
    }
  }

  /** How many bytes the character at p has, by its first byte. */
  function LengthAt(s: seq<byte>, p: nat): nat
    requires p < |s|
  {
    if s[p] < 0xc0 then 1 else 1 + ExtraOf(s[p])
  }

  function Decode(s: seq<byte>, p: nat): nat
    requires p < |s| && p + LengthAt(s, p) <= |s|
  {
    if s[p] < 0xc0 then s[p] else Fold(s[p] % Room(ExtraOf(s[p])), s[p + 1..p + LengthAt(s, p)])
  }

  /** The encoding of v is in s at p. */
  ghost predicate IsAt(s: seq<byte>, p: nat, v: nat) {
    v <= MAX_ORD && p + |Encode(v)| <= |s| && s[p..p + |Encode(v)|] == Encode(v)
  }

  /** Decoding inverts encoding, wherever the encoding is. */
  lemma {:induction false} RoundTrip(s: seq<byte>, p: nat, v: nat)
    requires IsAt(s, p, v)
    ensures p < |s| && LengthAt(s, p) == |Encode(v)| && Decode(s, p) == v
  {
    hide Tail, Fold;
    var k := Extra(v);
    ShiftFits(v);
    FoldTail(v, k);
    assert s[p] == Encode(v)[0];
    if k > 0 {
      FirstByte(k, Shift(v, k));
      assert s[p + 1..p + k + 1] == Encode(v)[1..];
    }
  }

  lemma FirstByte(k: nat, d: nat)
    requires 1 <= k <= 5 && d < Room(k)
    requires Lead(k) + d < 256
    ensures Lead(k) + d >= 0xc0 && ExtraOf(Lead(k) + d) == k && (Lead(k) + d) % Room(k) == d
  {
  }

  // ---------------------------------------------------------------------------------------
  // The functions of the library

  /** _pcre_ord2utf8(): the buffer is filled from the end. */
  method Ord2Utf8(cvalue: nat, buffer: array<byte>) returns (n: nat)
    requires cvalue <= MAX_ORD && buffer.Length >= 6
    modifies buffer
    ensures n == |Encode(cvalue)| && buffer[..n] == Encode(cvalue) && buffer[n..] == old(buffer[n..])
  {
    hide Shift, Tail;
    var i := Extra(cvalue);
    var j, v: nat := i, cvalue;
    ShiftFits(cvalue);
    TailEnds(cvalue);
    while j > 0
      invariant 0 <= j <= i && Shift(cvalue, i) == Shift(v, j)
      invariant Tail(cvalue, i) == Tail(v, j) + buffer[j + 1..i + 1]
      invariant buffer[i + 1..] == old(buffer[i + 1..])
    {
      TailStep(v, j);
      ghost var rest := buffer[j + 1..i + 1];
      buffer[j] := 128 + v % 64;
      assert buffer[j..i + 1] == [128 + v % 64] + rest;
      v := v / 64;
      j := j - 1;
    }
    TailEnds(v);
    buffer[0] := Lead(i) + v;
    n := i + 1;
    assert buffer[..n] == [Lead(i) + v] + buffer[1..i + 1];
  }

  lemma TailEnds(v: nat)
    ensures Shift(v, 0) == v && Tail(v, 0) == []
  {
  }

  lemma TailStep(v: nat, j: nat)
    requires j > 0
    ensures Shift(v, j) == Shift(v / 64, j - 1) && Tail(v, j) == Tail(v / 64, j - 1) + [128 + v % 64]
  {
  }

  /** GETCHARINC: the data bits of each byte are shifted to their place. */
  method GetCharInc(s: seq<byte>, p: nat) returns (c: nat, next: nat)
    requires p < |s| && p + LengthAt(s, p) <= |s|
    ensures c == Decode(s, p) && next == p + LengthAt(s, p)
  {
    hide Fold, Pow64, Data;
    c, next := s[p], p + 1;
    if c >= 0xc0 {
      var gcaa := ExtraOf(s[p]);
      var lead := s[p] % Room(gcaa);
      c := lead * Pow64(gcaa);
      FoldNone(lead, s[p + 1..next]);
      while gcaa > 0
        invariant next + gcaa == p + LengthAt(s, p) && p < next
        invariant c == Fold(lead, s[p + 1..next]) * Pow64(gcaa)
      {
        FoldStep(lead, s, p + 1, next, gcaa);
        gcaa := gcaa - 1;
        c := c + Data(s[next]) * Pow64(gcaa);
        next := next + 1;
      }
      PowZero();
    }
  }

  lemma PowZero()
    ensures Pow64(0) == 1
  {
  }

  lemma FoldNone(c: nat, s: seq<byte>)
    requires s == []
    ensures Fold(c, s) == c
  {
  }

  lemma FoldStep(c: nat, s: seq<byte>, p: nat, q: nat, k: nat)
    requires p <= q < |s| && k > 0
    ensures Fold(c, s[p..q + 1]) * Pow64(k - 1) == Fold(c, s[p..q]) * Pow64(k) + Data(s[q]) * Pow64(k - 1)
  {
    hide Pow64;
    var t := s[p..q + 1];
    assert t[..|t| - 1] == s[p..q] && t[|t| - 1] == s[q];
    PowStep(k);
    Spread(Fold(c, s[p..q]), Data(s[q]), Pow64(k - 1));
  }

  lemma PowStep(k: nat)
    requires k > 0
    ensures Pow64(k) == 64 * Pow64(k - 1)
  {
  }

  lemma Spread(f: nat, d: nat, w: nat)
    ensures (f * 64 + d) * w == f * (64 * w) + d * w
  {
  }

  // ---------------------------------------------------------------------------------------
  // Validity

  /** The values of section 3 of RFC 3629. */
  predicate Scalar(v: nat) {
    v <= 0x10ffff && !(0xd800 <= v <= 0xdfff)
  }

  ghost predicate Scalars(vs: seq<nat>) {
    forall i :: 0 <= i < |vs| ==> Scalar(vs[i])
  }

  ghost function Concat(vs: seq<nat>): seq<byte>
    requires Scalars(vs)
  {
    if vs == [] then [] else Encode(vs[0]) + Concat(vs[1..])
  }

  /** A concatenation of encodings. */
  ghost predicate IsUtf8(s: seq<byte>) {
    exists vs: seq<nat> :: Scalars(vs) && s == Concat(vs)
  }

  ghost predicate CharAt(s: seq<byte>, p: nat, v: nat) {
    Scalar(v) && IsAt(s, p, v)
  }

  predicate Cont(b: byte) {
    b / 64 == 2
  }

  /** The forms of well-formed characters, as in the table of section 4 of RFC 3629. */
  predicate WellFormed(s: seq<byte>, p: nat) {
    && p < |s|
    && var c := s[p];
      || c < 128
      || (0xc2 <= c <= 0xdf && p + 1 < |s| && Cont(s[p + 1]))
      || (0xe0 <= c <= 0xef && p + 2 < |s| && Cont(s[p + 1]) && Cont(s[p + 2])
          && (c == 0xe0 ==> s[p + 1] >= 0xa0) && (c == 0xed ==> s[p + 1] <= 0x9f))
      || (0xf0 <= c <= 0xf4 && p + 3 < |s| && Cont(s[p + 1]) && Cont(s[p + 2]) && Cont(s[p + 3])
          && (c == 0xf0 ==> s[p + 1] >= 0x90) && (c == 0xf4 ==> s[p + 1] <= 0x8f))
  }

  /** The value of a well-formed character. */
  function ValueAt(s: seq<byte>, p: nat): (v: nat)
    requires WellFormed(s, p)
  {
    var c: int := s[p];
    if c < 128 then c
    else if c < 0xe0 then (c - 0xc0) * 64 + Data(s[p + 1])
    else if c < 0xf0 then (c - 0xe0) * 4096 + Data(s[p + 1]) * 64 + Data(s[p + 2])
    else (c - 0xf0) * 262144 + Data(s[p + 1]) * 4096 + Data(s[p + 2]) * 64 + Data(s[p + 3])
  }

  lemma EncodeIs(v: nat)
    requires v <= 0x1fffff
    ensures Encode(v) ==
      if v < 0x80 then [v]
      else if v < 0x800 then [0xc0 + v / 64, 128 + v % 64]
      else if v < 0x10000 then [0xe0 + v / 64 / 64, 128 + v / 64 % 64, 128 + v % 64]
      else [0xf0 + v / 64 / 64 / 64, 128 + v / 64 / 64 % 64, 128 + v / 64 % 64, 128 + v % 64]
  {
    Shifts(v);
    assert Tail(v, 1) == [128 + v % 64];
    assert Tail(v / 64, 1) == [128 + v / 64 % 64];
    assert Tail(v / 64 / 64, 1) == [128 + v / 64 / 64 % 64];
    assert Tail(v, 2) == [128 + v / 64 % 64, 128 + v % 64];
    assert Tail(v / 64, 2) == [128 + v / 64 / 64 % 64, 128 + v / 64 % 64];
    assert Tail(v, 3) == [128 + v / 64 / 64 % 64, 128 + v / 64 % 64, 128 + v % 64];
  }

  lemma FormedValue(s: seq<byte>, p: nat)
    requires WellFormed(s, p)
    ensures CharAt(s, p, ValueAt(s, p))
  {
    hide Encode;
    var v := ValueAt(s, p);
    FormedRange(s, p);
    EncodeIs(v);
    FormedBytes(s, p);
  }

  lemma FormedRange(s: seq<byte>, p: nat)
    requires WellFormed(s, p)
    ensures Scalar(ValueAt(s, p))
  {
  }

  lemma FormedBytes(s: seq<byte>, p: nat)
    requires WellFormed(s, p)
    ensures var c, v := s[p], ValueAt(s, p);
      if c < 128 then v == c && v < 0x80
      else if c < 0xe0 then 0x80 <= v < 0x800 && c == 0xc0 + v / 64 && s[p + 1] == 128 + v % 64
      else if c < 0xf0 then 0x800 <= v < 0x10000 && c == 0xe0 + v / 64 / 64 && s[p + 1] == 128 + v / 64 % 64 && s[p + 2] == 128 + v % 64
      else 0x10000 <= v && c == 0xf0 + v / 64 / 64 / 64 && s[p + 1] == 128 + v / 64 / 64 % 64 && s[p + 2] == 128 + v / 64 % 64 && s[p + 3] == 128 + v % 64
  {
  }

  /** A scalar value is encoded at p exactly if the bytes there have one of the forms. */
  lemma {:induction false} FormedExact(s: seq<byte>, p: nat)
    ensures (exists v: nat :: CharAt(s, p, v)) <==> WellFormed(s, p)
  {
    if WellFormed(s, p) {
      FormedValue(s, p);
    }
    forall v: nat | CharAt(s, p, v) ensures WellFormed(s, p) {
      ValueFormed(s, p, v);
    }
  }

  lemma {:induction false} ValueFormed(s: seq<byte>, p: nat, v: nat)
    requires CharAt(s, p, v)
    ensures WellFormed(s, p)
  {
    hide Encode;
    EncodeIs(v);
    var e := Encode(v);
    assert forall i :: 0 <= i < |e| ==> s[p + i] == e[i];
    assert s[p + 0] == e[0];
  }

  function FormLength(c: byte): (n: nat)
    ensures 1 <= n <= 4
  {
    if c < 0xc0 then 1 else if c < 0xe0 then 2 else if c < 0xf0 then 3 else 4
  }

  lemma FormedLength(s: seq<byte>, p: nat, v: nat)
    requires CharAt(s, p, v)
    ensures WellFormed(s, p) && |Encode(v)| == FormLength(s[p]) && p + FormLength(s[p]) <= |s|
  {
    hide Encode;
    EncodeIs(v);
    ValueFormed(s, p, v);
    assert s[p] == Encode(v)[0];
  }

  /** From p on there are well-formed characters only. */
  predicate ValidFrom(s: seq<byte>, p: nat)
    decreases |s| - p
  {
    p == |s| || (WellFormed(s, p) && ValidFrom(s, p + FormLength(s[p])))
  }

  lemma {:induction false} ConcatValid(s: seq<byte>, p: nat, vs: seq<nat>)
    requires p <= |s| && Scalars(vs) && s[p..] == Concat(vs)
    ensures ValidFrom(s, p)
    decreases |vs|
  {
    hide Encode, WellFormed;
    if vs != [] {
      var e := Encode(vs[0]);
      assert s[p..p + |e|] == s[p..][..|e|] == e;
      assert CharAt(s, p, vs[0]);
      FormedLength(s, p, vs[0]);
      assert s[p + |e|..] == s[p..][|e|..] == Concat(vs[1..]);
      ConcatValid(s, p + |e|, vs[1..]);
    }
  }

  lemma {:induction false} ConcatSnoc(vs: seq<nat>, v: nat)
    requires Scalars(vs) && Scalar(v)
    ensures Scalars(vs + [v]) && Concat(vs + [v]) == Concat(vs) + Encode(v)
    decreases |vs|
  {
    hide Encode;
    if vs == [] {
      assert Concat([]) == [] && ([v])[1..] == [];
    } else {
      ConcatSnoc(vs[1..], v);
      assert (vs + [v])[1..] == vs[1..] + [v];
    }
  }

  /** _pcre_valid_utf8() on one character: the offset of a bad byte, or -1 and the length of the character. */
  method CheckChar(s: seq<byte>, start: nat) returns (bad: int, length: nat)
    requires start < |s|
    ensures bad < 0 <==> WellFormed(s, start)
    ensures bad < 0 ==> length == FormLength(s[start])
    ensures bad >= 0 ==> start <= bad < |s| && bad < start + 4
  {
    var p, c := start, s[start];
    if c < 128 {
      return -1, 1;
    }
    if c < 0xc0 {
      return p, 0;
    }
    var ab := ExtraOf(c);
    if |s| - p - 1 < ab || ab > 3 {
      return p, 0;
    }
    length := ab + 1;
    p := p + 1;
    if s[p] / 64 != 2 {
      return p, length;
    }
    if ab == 1 && c % 64 / 2 == 0 {
      return p, length;
    }
    if ab == 2 && ((c == 0xe0 && s[p] / 32 % 2 == 0) || (c == 0xed && s[p] >= 0xa0)) {
      return p, length;
    }
    if ab == 3 && ((c == 0xf0 && s[p] / 16 % 4 == 0) || c > 0xf4 || (c == 0xf4 && s[p] > 0x8f)) {
      return p, length;
    }
    var left := ab - 1;
    while left > 0
      invariant 0 <= left < ab && p == start + ab - left
      invariant forall k :: start < k <= p ==> Cont(s[k])
    {
      p := p + 1;
      if s[p] / 64 != 2 {
        return p, length;
      }
      left := left - 1;
    }
    bad := -1;
  }

  /** _pcre_valid_utf8(): a string is accepted exactly if it is a concatenation of encodings of
      scalar values; otherwise the result is an offset inside the first character that is not one. */
  method ValidUtf8(s: seq<byte>) returns (bad: int, ghost at: nat)
    ensures bad < 0 <==> IsUtf8(s)
    ensures bad >= 0 ==> at <= bad < |s| && bad < at + 4 && IsUtf8(s[..at]) && forall v: nat :: !CharAt(s, at, v)
  {
    hide WellFormed, Encode, ValueAt, CharAt, Concat, Scalars;
    var p := 0;
    ghost var vs: seq<nat> := [];
    NoChars();
    while p < |s|
      invariant p <= |s| && (ValidFrom(s, 0) <==> ValidFrom(s, p))
      invariant Scalars(vs) && s[..p] == Concat(vs)
    {
      var length;
      bad, length := CheckChar(s, p);
      FormedExact(s, p);
      at := p;
      if bad >= 0 {
        Refused(s);
        return;
      }
      ghost var v := ValueAt(s, p);
      FormedValue(s, p);
      FormedLength(s, p, v);
      CharBytes(s, p, v);
      ConcatSnoc(vs, v);
      vs := vs + [v];
      assert s[..p + length] == s[..p] + s[p..p + length];
      p := p + length;
    }
    bad, at := -1, |s|;
    assert s[..p] == s;
  }

  lemma CharBytes(s: seq<byte>, p: nat, v: nat)
    requires CharAt(s, p, v)
    ensures Scalar(v) && p + |Encode(v)| <= |s| && s[p..p + |Encode(v)|] == Encode(v)
  {
  }

  lemma NoChars()
    ensures Scalars([]) && Concat([]) == []
  {
  }

  lemma {:induction false} Refused(s: seq<byte>)
    requires !ValidFrom(s, 0)
    ensures !IsUtf8(s)
  {
    hide Concat, WellFormed;
    if IsUtf8(s) {
      var vs: seq<nat> :| Scalars(vs) && s == Concat(vs);
      assert s[0..] == s;
      ConcatValid(s, 0, vs);
      assert false;
    }
  }
}
