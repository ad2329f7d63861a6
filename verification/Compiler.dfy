/** compile_regex() and compile_branch() in the real compile phase: they write the code vector from
    left to right, go back to fill in links, and move or copy what they have written when a
    quantifier asks for it. */
module Compiler {
  import opened Tree
  import opened Layout
  import opened Regex
  import opened AutoPossess
  import opened Emptiness
  import opened DotStar
  import opened Compile
  import opened Brackets
  import opened Sizing
  import opened Emit
  import opened FirstByte

  // ---------------------------------------------------------------------------------------
  // The bytes of an unfinished bracket

  /** The branches of a bracket compiled so far, the last one outermost. */
  datatype Open = First(op: byte, cap: nat, b: Items) | Next(prev: Open, b: Items)

  /** The length of the last header together with its branch. */
  function Segment(o: Open): (n: nat)
    ensures n >= 3
  {
    match o
    case First(_, cap, b) => (if cap == 0 then 3 else 5) + LenItems(b)
    case Next(_, b) => 3 + LenItems(b)
  }

  function OpeningOf(o: Open, link: nat): seq<byte> {
    match o case First(op, cap, _) => Opening(op, link, cap) case Next(prev, _) => [OP_ALT] + Two(link)
  }

  function Before(o: Open): seq<byte>
    decreases o, 0
  {
    match o case First(_, _, _) => [] case Next(prev, _) => Chained(prev)
  }

  /** While the bracket is open, each ALT holds the distance back to the previous header, and the
      opening bracket holds zero. */
  function Chained(o: Open): seq<byte>
    decreases o, 1
  {
    Before(o) + OpeningOf(o, Back(o)) + EmitItems(o.b)
  }

  function Back(o: Open): nat {
    match o case First(_, _, _) => 0 case Next(prev, _) => Segment(prev)
  }

  /** Once it is closed, each header holds the distance to the next one. */
  function Linked(o: Open): seq<byte> {
    match o
    case First(_, _, _) => OpeningOf(o, Segment(o)) + EmitItems(o.b)
    case Next(prev, _) => Linked(prev) + (OpeningOf(o, Segment(o)) + EmitItems(o.b))
  }

  /** The alternatives that have been compiled, followed by `tail`. */
  function Joined(o: Open, tail: Alts): Alts {
    match o case First(_, _, b) => More(b, tail) case Next(prev, b) => Joined(prev, More(b, tail))
  }

  function AltsOf(o: Open): Alts {
    match o case First(_, _, b) => Last(b) case Next(prev, b) => Joined(prev, Last(b))
  }

  function Root(o: Open): Open {
    match o case First(_, _, _) => o case Next(prev, _) => Root(prev)
  }

  lemma {:induction false} LinkedJoined(o: Open, tail: Alts)
    ensures Linked(o) + Alternative(tail) == OpeningOf(Root(o), Segment(Root(o))) + EmitAlts(Joined(o, tail))
    decreases o
  {
    hide EmitItems, LenItems, Two, OpeningOf, EmitAlts, Segment, Alternative;
    MoreBytes(o.b, tail);
    Assoc(OpeningOf(o, Segment(o)), EmitItems(o.b), Alternative(tail));
    if o.Next? {
      LinkedJoined(o.prev, More(o.b, tail));
      NextBytes(o, tail);
      Assoc(Linked(o.prev), OpeningOf(o, Segment(o)) + EmitItems(o.b), Alternative(tail));
    }
  }

  /** An alternative and those after it, with its ALT. */
  function Alternative(tail: Alts): seq<byte> {
    [OP_ALT] + Two(3 + LenItems(tail.b)) + EmitAlts(tail)
  }

  lemma MoreBytes(b: Items, tail: Alts)
    ensures EmitAlts(More(b, tail)) == EmitItems(b) + Alternative(tail) && EmitAlts(Last(b)) == EmitItems(b)
  {
    hide EmitItems, LenItems, Two;
  }

  lemma NextBytes(o: Open, tail: Alts)
    requires o.Next?
    ensures Alternative(More(o.b, tail)) == OpeningOf(o, Segment(o)) + EmitAlts(More(o.b, tail))
    ensures Alternative(Last(o.b)) == OpeningOf(o, Segment(o)) + EmitAlts(Last(o.b))
  {
    hide EmitItems, LenItems, Two, EmitAlts;
  }

  /** The closed chain of headers is what the group is laid out as. */
  lemma {:induction false} LinkedAlts(o: Open)
    ensures Linked(o) == OpeningOf(Root(o), Segment(Root(o))) + EmitAlts(AltsOf(o))
  {
    hide EmitItems, LenItems, Two, OpeningOf, EmitAlts, Segment, Alternative;
    MoreBytes(o.b, AltsOf(o));
    if o.Next? {
      LinkedJoined(o.prev, Last(o.b));
      NextBytes(o, Last(o.b));
    }
  }

  /** Putting a value into the link field of the last header. */
  function Patched(s: seq<byte>, p: nat, v: nat): (r: seq<byte>)
    requires p + 2 <= |s|
    ensures |r| == |s|
  {
    s[..p] + Two(v) + s[p + 2..]
  }

  lemma PatchedTwo(a: seq<byte>, v: nat, v': nat, c: seq<byte>)
    ensures Patched(a + Two(v) + c, |a|, v') == a + Two(v') + c
  {
    hide Two;
    var s := a + Two(v) + c;
    assert s[..|a|] == a;
    assert s[|a| + 2..] == c;
  }

  lemma PatchedOpening(pre: seq<byte>, o: Open, link: nat, link': nat, tail: seq<byte>)
    ensures var s := pre + OpeningOf(o, link) + tail;
      |pre| + 3 <= |s| && Patched(s, |pre| + 1, link') == pre + OpeningOf(o, link') + tail
  {
    hide Two, Patched;
    var op := if o.First? then o.op else OP_ALT;
    var cap := if o.First? && o.cap != 0 then Two(o.cap) else [];
    OpeningParts(pre, o, link, tail);
    OpeningParts(pre, o, link', tail);
    PatchedTwo(pre + [op], link, link', cap + tail);
  }

  lemma OpeningParts(pre: seq<byte>, o: Open, link: nat, tail: seq<byte>)
    ensures var op := if o.First? then o.op else OP_ALT;
      var cap := if o.First? && o.cap != 0 then Two(o.cap) else [];
      pre + OpeningOf(o, link) + tail == (pre + [op]) + Two(link) + (cap + tail)
  {
    hide Two;
  }

  lemma ReadOpening(s: seq<byte>, pre: seq<byte>, o: Open, link: nat, tail: seq<byte>)
    requires s == pre + OpeningOf(o, link) + tail && link < 65536
    ensures |pre| + 3 <= |s| && Get2(s, |pre| + 1) == link
  {
    var op := OpeningOf(o, link);
    assert op[1..3] == Two(link);
    assert s[|pre| + 1] == op[1] && s[|pre| + 2] == op[2];
  }

  lemma ChainedLength(o: Open)
    ensures |Chained(o)| == |Before(o)| + Segment(o)
  {
    hide EmitItems, LenItems, Before;
  }

  // ---------------------------------------------------------------------------------------
  // The bytes of nested optional copies

  /** t brackets that are still open, each with one copy of the group in it. Their link fields
      hold the distances between them, and zero in the first. */
  function Nested(z: Zero, g: Grp, t: nat): seq<byte> {
    if t == 0 then []
    else Nested(z, g, t - 1) + (EmitZero(z) + Opening(OP_BRA, if t == 1 then 0 else LenGrp(g) + 4, 0) + EmitGrp(g))
  }

  lemma {:induction false} NestedLength(z: Zero, g: Grp, t: nat)
    requires z == BraZero || z == BraMinZero
    ensures t > 0 ==> |Nested(z, g, t)| == |Nested(z, g, t - 1)| + LenGrp(g) + 4
  {
    hide LenGrp, EmitGrp;
  }

  /** Closing the innermost of the open brackets. */
  lemma {:induction false} NestedClose(z: Zero, g: Grp, n: nat)
    requires n > 0
    ensures var inside := EmitItems(Optional(z, g, n));
      var len := 3 + LenGrp(g) + |inside|;
      EmitItems(Optional(z, g, n + 1)) == EmitZero(z) +
        (Opening(OP_BRA, len, 0) + EmitGrp(g) + inside + [OP_KET] + Two(len))
  {
    hide EmitGrp, LenGrp, Two, EmitItems, LenItems, Opening;
    var b := Cons(Group(Once, g), Optional(z, g, n));
    NestBytes(g, b, Optional(z, g, n));
    OneGroup(z, Grp(false, 0, Last(b), Ket));
  }

  lemma OneGroup(z: Zero, g: Grp)
    ensures EmitItems(Cons(Group(z, g), Nil)) == EmitZero(z) + EmitGrp(g)
    ensures LenItems(Cons(Group(z, g), Nil)) == |EmitZero(z)| + LenGrp(g)
  {
    hide EmitGrp;
    assert EmitItems(Cons(Group(z, g), Nil)) == EmitItem(Group(z, g)) + [];
  }

  lemma NestBytes(g: Grp, b: Items, t: Items)
    requires b == Cons(Group(Once, g), t)
    ensures EmitGrp(Grp(false, 0, Last(b), Ket)) ==
      Opening(OP_BRA, 3 + LenGrp(g) + LenItems(t), 0) + EmitGrp(g) + EmitItems(t) + [OP_KET] +
        Two(3 + LenGrp(g) + LenItems(t))
  {
    hide Two, EmitGrp, LenGrp, Opening, EmitItems, LenItems;
    GrpBytes(Grp(false, 0, Last(b), Ket));
    ConsBytes(b);
    Assoc(Opening(OP_BRA, 3 + LenGrp(g) + LenItems(t), 0), EmitGrp(g), EmitItems(t));
  }

  lemma GrpBytes(g: Grp)
    ensures EmitGrp(g) == Opening(BraOp(g), HeadLen(g) + LenItems(g.alts.b), g.cap) + EmitAlts(g.alts) +
      [KetOp(g.ket)] + Two(HeadLen(g) + LenAlts(g.alts))
  {
    hide EmitAlts, Opening, LenItems, LenAlts, LenGrp, BraOp, KetOp, Two;
  }

  lemma ConsBytes(items: Items)
    requires items.Cons?
    ensures EmitItems(items) == EmitItem(items.head) + EmitItems(items.tail)
    ensures LenItems(items) == LenItem(items.head) + LenItems(items.tail)
    ensures items.head.Group? && items.head.zero == Once ==>
      EmitItem(items.head) == EmitGrp(items.head.g) && LenItem(items.head) == LenGrp(items.head.g)
  {
  }

  lemma Assoc(a: seq<byte>, b: seq<byte>, c: seq<byte>)
    ensures a + (b + c) == a + b + c
  {
  }

  lemma {:induction false} CopiesBytes(g: Grp, n: nat, tail: Items)
    ensures n > 0 ==> EmitItems(Copies(g, n, tail)) == EmitGrp(g) + EmitItems(Copies(g, n - 1, tail))
    ensures EmitItems(Copies(g, 0, tail)) == EmitItems(tail)
  {
    hide EmitGrp;
    if n > 0 {
      assert EmitItem(Group(Once, g)) == EmitGrp(g);
    }
  }

  class CompileData {
    const ctypes: CTypes
    const codestart: array<byte>
    var code: nat                // how much of the vector is in use
    var bracount: nat
    ghost var out: seq<byte>     // its contents

    constructor (ctypes: CTypes, length: nat)
      requires length <= MAX_PATTERN_SIZE
      ensures Valid() && out == [] && bracount == 0 && this.ctypes == ctypes && fresh(codestart)
      ensures codestart.Length == length
    {
      this.ctypes := ctypes;
      codestart := new byte[length](_ => 0);
      code, bracount, out := 0, 0, [];
    }

    ghost predicate Valid()
      reads this, codestart
    {
      && codestart.Length <= MAX_PATTERN_SIZE
      && code <= codestart.Length && out == codestart[..code]
      && bracount <= code
    }

    ghost function Room(): int
      reads this
    {
      codestart.Length - |out|
    }

    // -------------------------------------------------------------------------------------
    // Writing

    method Add(s: seq<byte>)
      requires Valid() && |s| <= Room()
      modifies this`code, this`out, codestart
      ensures Valid() && out == old(out) + s
    {
      var n := code;
      forall k | 0 <= k < |s| {
        codestart[n + k] := s[k];
      }
      code := n + |s|;
      out := out + s;
      assert codestart[..n] == old(out);
      assert codestart[n..code] == s;
    }

    /** Store a 2-byte value at a place that has been written before. */
    method Put(p: nat, v: nat)
      requires Valid() && p + 2 <= |out|
      modifies this`out, codestart
      ensures Valid() && out == Patched(old(out), p, v)
    {
      codestart[p], codestart[p + 1] := (v / 256) % 256, v % 256;
      out := Patched(out, p, v);
    }

    method Set(p: nat, b: byte)
      requires Valid() && p < |out|
      modifies this`out, codestart
      ensures Valid() && out == old(out)[p := b]
    {
      codestart[p] := b;
      out := out[p := b];
    }

    /** Forget what has been written from p on. */
    method Cut(p: nat)
      requires Valid() && bracount <= p <= |out|
      modifies this`code, this`out
      ensures Valid() && out == old(out)[..p]
    {
      code := p;
      out := out[..p];
    }

    /** Move what has been written from p on upwards and put s in front of it. */
    method Insert(p: nat, s: seq<byte>)
      requires Valid() && p <= |out| && |s| <= Room()
      modifies this`code, this`out, codestart
      ensures Valid() && out == old(out)[..p] + s + old(out)[p..]
    {
      var n, d := code, |s|;
      forall k | p <= k < n + d {
        codestart[k] := if k < p + d then s[k - p] else codestart[k - d];
      }
      code := n + d;
      out := out[..p] + s + out[p..];
      assert forall j :: 0 <= j < code ==> codestart[j] == out[j];
    }

    /** Append a copy of what is at p. */
    method Copy(p: nat, len: nat)
      requires Valid() && p + len <= |out| && len <= Room()
      modifies this`code, this`out, codestart
      ensures Valid() && out == old(out) + old(out)[p..p + len]
    {
      var n := code;
      forall k | n <= k < n + len {
        codestart[k] := codestart[p + (k - n)];
      }
      code := n + len;
      out := out + out[p..p + len];
      assert forall j :: 0 <= j < code ==> codestart[j] == out[j];
    }

    function Get(p: nat): (v: nat)
      requires p + 1 < codestart.Length
      reads codestart
      ensures v == Get2(codestart[..], p)
    {
      var high: int := codestart[p];
      high * 256 + codestart[p + 1]
    }

    lemma GetOut(p: nat)
      requires Valid() && p + 1 < |out|
      ensures Get(p) == Get2(out, p)
    {
    }

    // -------------------------------------------------------------------------------------
    // Closing a bracket

    /** Go back through the branches and reverse the chain of offsets. */
    method ReverseLinks(start: nat, last: nat, ghost o: Open, ghost pre: seq<byte>)
      requires Valid() && start == |pre| && out == pre + Chained(o) && last == |pre| + |Before(o)|
      modifies this`out, codestart
      ensures Valid() && out == pre + Linked(o)
    {
      hide Valid, Chained, Before, Linked, OpeningOf, Segment, EmitItems, Patched, Two;
      var last_branch, branch_length := last, code - last;
      ghost var cur, done := o, [];
      CodeIs();
      ChainedLength(o);
      assert out == pre + Chained(cur) + done && pre + Linked(o) == pre + (Linked(cur) + done);
      while branch_length > 0
        invariant Valid() && branch_length >= 0 && |out| == |old(out)|
        invariant branch_length > 0 ==> last_branch == |pre| + |Before(cur)| && branch_length == Segment(cur)
        invariant branch_length > 0 ==>
          out == pre + Chained(cur) + done && pre + Linked(o) == pre + (Linked(cur) + done)
        invariant branch_length == 0 ==> out == pre + Linked(o)
        decreases branch_length > 0, cur
      {
        ReverseStep(pre, cur, done);
        ghost var link, tail := OpeningOf(cur, Back(cur)), EmitItems(cur.b) + done;
        ReadOpening(out, pre + Before(cur), cur, Back(cur), tail);
        PatchedOpening(pre + Before(cur), cur, Back(cur), Segment(cur), tail);
        GetOut(last_branch + 1);
        var prev_length := Get(last_branch + 1);
        Put(last_branch + 1, branch_length);
        branch_length := prev_length;
        last_branch := last_branch - branch_length;
        if cur.Next? {
          done := OpeningOf(cur, Segment(cur)) + tail;
          cur := cur.prev;
        }
      }
    }

    lemma CodeIs()
      requires Valid()
      ensures code == |out| <= codestart.Length <= MAX_PATTERN_SIZE && bracount <= code
    {
    }

    // -------------------------------------------------------------------------------------
    // Replicating a group

    /** One optional copy: all but the last open a bracket, whose link field is used to chain the open
        brackets. */
    method OptionalCopy(previous: nat, len: nat, lazy: bool, nest: bool, bralink: int, ghost g: Grp,
                        ghost base: seq<byte>, ghost t: nat)
      returns (newlink: int)
      requires Valid() && Holds(out, previous, EmitGrp(g)) && len == LenGrp(g)
      requires len + (if nest then 4 else 1) <= Room()
      requires out == base + Nested(ZeroOf(lazy), g, t)
      requires if t == 0 then bralink < 0 else bralink == |base| + |Nested(ZeroOf(lazy), g, t - 1)| + 2
      modifies this`code, this`out, codestart
      ensures Valid() && Holds(out, previous, EmitGrp(g))
      ensures nest ==>
        out == base + Nested(ZeroOf(lazy), g, t + 1) && newlink == |base| + |Nested(ZeroOf(lazy), g, t)| + 2
      ensures !nest ==>
        out == base + (Nested(ZeroOf(lazy), g, t) + EmitItems(Optional(ZeroOf(lazy), g, 1))) && newlink == bralink
    {
      hide Valid, Nested, EmitItems, EmitGrp, LenGrp, Two, Holds, Optional, Opening;
      ghost var z := ZeroOf(lazy);
      CodeIs();
      NestedLength(z, g, t);
      NestedStep(base, z, g, t);
      newlink := bralink;
      var op := if lazy then OP_BRAMINZERO else OP_BRAZERO;
      if nest {
        var offset := if bralink < 0 then 0 else code + 2 - bralink;
        OpeningIs(z, OP_BRA, offset);
        newlink := code + 2;
        AddCopy([op, OP_BRA] + Two(offset), previous, len, EmitGrp(g));
      } else {
        AddCopy([op], previous, len, EmitGrp(g));
      }
    }

    /** All the optional copies. If `link` is not negative, one bracket has been opened already. */
    method OptionalCopies(previous: nat, len: nat, lazy: bool, copies: nat, link: int, ghost g: Grp,
                          ghost base: seq<byte>)
      requires Valid() && Holds(out, previous, EmitGrp(g)) && len == LenGrp(g)
      requires (link < 0 || (copies > 0 && link == |base| + 2))
      requires out == base + Nested(ZeroOf(lazy), g, if link < 0 then 0 else 1)
      requires |base| + LenItems(Optional(ZeroOf(lazy), g, copies + (if link < 0 then 0 else 1))) <= codestart.Length
      modifies this`code, this`out, codestart
      ensures Valid() && out == base + EmitItems(Optional(ZeroOf(lazy), g, copies + (if link < 0 then 0 else 1)))
    {
      hide Valid, Nested, EmitItems, LenItems, Optional, EmitGrp, LenGrp, Two, Holds;
      if copies == 0 {
        NestedFirst(ZeroOf(lazy), g);
        return;
      }
      var bralink, i := link, copies - 1;
      ghost var z := ZeroOf(lazy);
      ghost var t := if link < 0 then 0 else 1;
      ghost var m := copies + t;
      NestedFirst(z, g);
      NestedLength(z, g, 1);
      OptionalStep(z, g, m);
      while i >= 0
        invariant Valid() && Holds(out, previous, EmitGrp(g))
        invariant if i >= 0 then t + i + 1 == m else t + 1 == m
        invariant i >= 0 ==>
          out == base + Nested(z, g, t) && |out| + LenItems(Optional(z, g, m - t)) + 3 * t <= codestart.Length
        invariant i < 0 ==>
          out == base + (Nested(z, g, t) + EmitItems(Optional(z, g, m - t))) && |out| + 3 * t <= codestart.Length
        invariant if t == 0 then bralink < 0 else bralink == |base| + |Nested(z, g, t - 1)| + 2
      {
        OptionalStep(z, g, m - t);
        NestedLength(z, g, t + 1);
        bralink := OptionalCopy(previous, len, lazy, i != 0, bralink, g, base, t);
        if i != 0 {
          t := t + 1;
        } else {
          OptionalLast(z, g);
        }
        i := i - 1;
      }
      CloseNested(bralink, len, g, z, base, t, m);
    }

    /** Chain through the pending brackets, end each with a ket, and fill in its length. */
    method CloseNested(link: int, len: nat, ghost g: Grp, ghost z: Zero, ghost base: seq<byte>, ghost t0: nat,
                       ghost m: nat)
      requires Valid() && (z == BraZero || z == BraMinZero) && t0 < m && len == LenGrp(g)
      requires out == base + (Nested(z, g, t0) + EmitItems(Optional(z, g, m - t0)))
      requires |out| + 3 * t0 <= codestart.Length
      requires if t0 == 0 then link < 0 else link == |base| + |Nested(z, g, t0 - 1)| + 2
      modifies this`code, this`out, codestart
      ensures Valid() && out == base + EmitItems(Optional(z, g, m))
    {
      hide Valid, Nested, EmitItems, LenItems, Optional, EmitGrp, LenGrp, Two, Patched;
      var bralink := link;
      ghost var t: nat := t0;
      while bralink >= 0
        invariant Valid() && t < m && |out| + 3 * t <= codestart.Length
        invariant out == base + (Nested(z, g, t) + EmitItems(Optional(z, g, m - t)))
        invariant if t == 0 then bralink < 0 else bralink == |base| + |Nested(z, g, t - 1)| + 2
        decreases t
      {
        CodeIs();
        CloseStep(base, z, g, t, m - t);
        if t > 1 {
          NestedLength(z, g, t - 1);
        }
        GetOut(bralink);
        var offset := code - bralink + 1;
        var oldlinkoffset := Get(bralink);
        Add([OP_KET] + Two(offset));
        Put(bralink, offset);
        bralink := if oldlinkoffset == 0 then -1 else bralink - oldlinkoffset;
        t := t - 1;
      }
      NestedFirst(z, g);
    }

    /** Set a repeating ket in the last copy, and the S form of its bracket if it could match an empty
        string. */
    method MarkLoop(bra: nat, lazy: bool, ghost g: Grp, ghost pre: seq<byte>)
      requires Valid() && bra == |pre| && out == pre + EmitGrp(g) && g.ket == Ket && !g.s && WfGrp(g)
      requires |out| < codestart.Length
      modifies this`out, codestart
      ensures Valid() && out == pre + EmitGrp(Loop(g, if lazy then Lazy else Greedy))
    {
      hide Valid, EmitGrp, LenGrp, GrpAt, LeadsTo, WfGrp, AnyLooksEmpty, Holds;
      var kind := if lazy then KetRmin else KetRmax;
      ghost var g1 := g.(ket := kind);
      CodeIs();
      View();
      HoldsLast(pre, EmitGrp(g));
      GrpHeld(out, bra, g);
      GroupLeads(out, bra, g);
      GetOut(bra + 1);
      var ketcode := FollowLinks(codestart[..code], bra + Get(bra + 1), bra + LenGrp(g) - 3);
      SetKet(pre, g, kind);
      Set(ketcode, if lazy then OP_KETRMIN else OP_KETRMAX);
      View();
      HoldsLast(pre, EmitGrp(g1));
      SameWf(g, kind);
      GrpHeld(out, bra, g1);
      var any, k := AnyBranch(codestart[..code], bra, ketcode, g1);
      if any {
        SetBra(pre, g1);
        OutAt(bra);
        Set(bra, codestart[bra] + (OP_SBRA - OP_BRA));
      }
    }

    lemma View()
      requires Valid()
      ensures codestart[..code] == out
    {
    }

    lemma OutAt(p: nat)
      requires Valid() && p < |out|
      ensures codestart[p] == out[p]
    {
    }

    /** The quantifier of a group that has just been compiled. */
    method RepeatGroup(previous: nat, q: Quant, ghost g: Grp, ghost pre: seq<byte>)
      requires Valid() && previous == |pre| && out == pre + EmitGrp(g) && g.ket == Ket && !g.s && WfGrp(g)
      requires WfQuant(q) && (q.Quant? ==> q.mode != Poss) && |pre| + LenItems(GroupItems(g, q)) < codestart.Length
      modifies this`code, this`out, codestart
      ensures Valid() && out == pre + EmitItems(GroupItems(g, q))
    {
      hide Valid, EmitGrp, LenGrp, EmitItems, LenItems, GroupItems, Nested, Optional, Copies, Two, Holds, WfGrp, Loop;
      GroupCases(g, q);
      CodeIs();
      if q.Plain? {
        OneGroup(Once, g);
        return;
      }
      var len, lazy := code - previous, q.mode == Lazy;
      if q.lo == 0 && q.hi == Max(0) {
        OneGroup(SkipZero, g);
        PutBefore(pre, EmitGrp(g), [OP_SKIPZERO]);
        Insert(previous, [OP_SKIPZERO]);
      } else if q.lo == 0 {
        OneGroup(ZeroOf(lazy), Loop(g, q.mode));
        ZeroGroup(previous, lazy, len, q.hi, g, pre);
      } else {
        AtLeastOne(previous, lazy, len, q, g, pre);
      }
    }

    /** A zero minimum and a maximum that is not zero. */
    method ZeroGroup(previous: nat, lazy: bool, len: nat, hi: Bound, ghost g: Grp, ghost pre: seq<byte>)
      requires Valid() && previous == |pre| && len == LenGrp(g) && out == pre + EmitGrp(g) && g.ket == Ket && !g.s
      requires WfGrp(g)
      requires hi.Max? ==> hi.n > 0 && |pre| + LenItems(Optional(ZeroOf(lazy), g, hi.n)) < codestart.Length
      requires hi.NoMax? ==> |pre| + 1 + LenGrp(g) < codestart.Length
      modifies this`code, this`out, codestart
      ensures Valid()
      ensures hi.Max? ==> out == pre + EmitItems(Optional(ZeroOf(lazy), g, hi.n))
      ensures hi.NoMax? ==> out == pre + (EmitZero(ZeroOf(lazy)) + EmitGrp(Loop(g, if lazy then Lazy else Greedy)))
    {
      hide Valid, EmitGrp, LenGrp, EmitItems, LenItems, Nested, Optional, Two, Holds, WfGrp, Loop, Opening;
      ghost var z, x := ZeroOf(lazy), EmitGrp(g);
      var op := if lazy then OP_BRAMINZERO else OP_BRAZERO;
      CodeIs();
      if hi.Max? {
        OptionalStep(z, g, hi.n);
        OptionalStep(z, g, 1);
      }
      if hi.Max? && hi.n > 1 {
        var s := [op, OP_BRA] + Two(0);
        PutBefore(pre, x, s);
        Insert(previous, s);
        OpeningIs(z, OP_BRA, 0);
        NestedFirst(z, g);
        NestedStep(pre, z, g, 0);
        Assoc(pre, s, x);
        HoldsLast(pre + s, x);
        OptionalCopies(previous + 4, len, lazy, hi.n - 1, previous + 2, g, pre);
      } else {
        PutBefore(pre, x, [op]);
        Insert(previous, [op]);
        if hi.NoMax? {
          Assoc(pre, [op], x);
          MarkLoop(previous + 1, lazy, g, pre + [op]);
          Assoc(pre, [op], EmitGrp(Loop(g, if lazy then Lazy else Greedy)));
        } else {
          OptionalLast(z, g);
        }
      }
    }

    /** A minimum of one or more. */
    method AtLeastOne(previous: nat, lazy: bool, len: nat, q: Quant, ghost g: Grp, ghost pre: seq<byte>)
      requires Valid() && previous == |pre| && len == LenGrp(g) && out == pre + EmitGrp(g) && g.ket == Ket && !g.s
      requires WfGrp(g)
      requires WfQuant(q) && q.Quant? && q.lo > 0 && lazy == (q.mode == Lazy) && q.mode != Poss
      requires |pre| + LenItems(GroupItems(g, q)) < codestart.Length
      modifies this`code, this`out, codestart
      ensures Valid() && out == pre + EmitItems(GroupItems(g, q))
    {
      hide Valid, EmitGrp, LenGrp, EmitItems, LenItems, GroupItems, Nested, Optional, Copies, Two, Holds, WfGrp, Loop,
           Times;
      GroupCases(g, q);
      ghost var x := EmitGrp(g);
      HoldsLast(pre, x);
      TimesOne(x);
      var i: nat := 1;
      while i < q.lo
        invariant Valid() && 1 <= i <= q.lo && Holds(out, previous, x) && out == pre + Times(x, i)
      {
        TimesNext(pre, x, i);
        CopiesRoom(g, q, i);
        AddCopy([], previous, len, x);
        i := i + 1;
      }
      if q.hi.Max? {
        NestedFirst(ZeroOf(lazy), g);
        CopiesTimes(g, q.lo, Optional(ZeroOf(lazy), g, q.hi.n - q.lo));
        Assoc(pre, Times(x, q.lo), EmitItems(Optional(ZeroOf(lazy), g, q.hi.n - q.lo)));
        OptionalCopies(previous, len, lazy, q.hi.n - q.lo, -1, g, pre + Times(x, q.lo));
      } else {
        ghost var loop := Loop(g, q.mode);
        CodeIs();
        TimesNext(pre, x, q.lo - 1);
        CopiesTimes(g, q.lo - 1, Cons(Group(Once, loop), Nil));
        OneGroup(Once, loop);
        LoopLength(g, q.mode);
        Assoc(pre, Times(x, q.lo - 1), EmitGrp(loop));
        MarkLoop(code - len, lazy, g, pre + Times(x, q.lo - 1));
      }
    }

    // -------------------------------------------------------------------------------------
    // Repeating a byte

    /** A repeat opcode, its count unless that is negative, and the character or type. */
    method AddRepeat(x: Single, op: byte, count: int, ghost r: Rep)
      requires Valid() && !x.Set? && !r.Range? && op == RepBase(x) + RepIndex(r)
      requires if r.Upto? || r.Exact? then count == r.n else count < 0
      requires LenMany(x, r) <= Room()
      modifies this`code, this`out, codestart
      ensures Valid() && out == old(out) + EmitMany(x, r)
    {
      hide Valid, Two, RepIndex;
      Add([op] + (if count < 0 then [] else Two(count)) + [Operand(x)]);
    }

    /** The quantifier of a literal, negated literal or type that has just been written: usually it
        overwrites the item. */
    method RepeatSingle(previous: nat, x: Single, lo: nat, hi: Bound, lazy: bool, ghost pre: seq<byte>)
      requires Valid() && previous == |pre| && out == pre + EmitSingle(x) && !x.Set? && bracount <= |pre|
      requires (hi.Max? ==> lo <= hi.n) && |pre| + LenItems(PlainItems(x, lo, hi, ModeFor(lazy))) < codestart.Length
      modifies this`code, this`out, codestart
      ensures Valid() && out == pre + EmitItems(PlainItems(x, lo, hi, ModeFor(lazy)))
    {
      hide Valid, EmitItems, LenItems, PlainItems, EmitMany, EmitSingle;
      ghost var m := ModeFor(lazy);
      var star, rt := RepBase(x), if lazy then 1 else 0;
      PlainBytes(x, lo, hi, m);
      if lo == 1 && hi.Max? {
        if hi.n > 1 {
          AddRepeat(x, star + 6 + rt, hi.n - 1, Upto(hi.n - 1, m));
          Assoc(pre, EmitSingle(x), EmitMany(x, Upto(hi.n - 1, m)));
        }
        return;
      }
      Cut(previous);
      if hi == Max(0) {
        return;
      }
      if lo > 1 {
        AddRepeat(x, star + 8, lo, Exact(lo));
      }
      if hi.NoMax? {
        var k := if lo == 1 then 2 else 0;
        AddRepeat(x, star + k + rt, -1, if lo == 1 then Plus(m) else Star(m));
      } else if hi.n - lo == 1 {
        AddRepeat(x, star + 4 + rt, -1, Query(m));
      } else if hi.n > lo {
        AddRepeat(x, star + 6 + rt, hi.n - lo, Upto(hi.n - lo, m));
      }
    }

    /** Turn the repeat into its possessive form, after an EXACT if there is one. */
    method Possessify(previous: nat, x: Single, lo: nat, hi: Bound, ghost pre: seq<byte>)
      requires Valid() && previous == |pre| && !x.Set? && (hi.Max? ==> lo <= hi.n && hi.n > 0 && lo != 1)
      requires out == pre + EmitItems(PlainItems(x, lo, hi, Greedy))
      modifies this`out, codestart
      ensures Valid() && out == pre + EmitItems(PlainItems(x, lo, hi, Poss))
    {
      hide Valid, EmitItems, LenItems, PlainItems, EmitMany, EmitSingle, Varying, RepIndex;
      var star := RepBase(x);
      ghost var e, r, r' := FixedPart(x, lo), Varying(lo, hi, Greedy), Varying(lo, hi, Poss);
      PossessiveParts(x, lo, hi, pre);
      CodeIs();
      OutAt(previous);
      var tempcode := if codestart[previous] == star + 8 then previous + 4 else previous;
      if code > tempcode {
        OutAt(tempcode);
        var op := codestart[tempcode];
        SetOp(pre + e, x, r, r');
        Set(tempcode,
            if op == star then star + 9 else if op == star + 2 then star + 10 else if op == star + 4 then star + 11 else star + 12);
      }
    }

    /** The quantifier of a class goes after it. */
    method RepeatClass(previous: nat, x: Single, lo: nat, hi: Bound, lazy: bool, ghost pre: seq<byte>)
      requires Valid() && previous == |pre| && out == pre + EmitSingle(x) && x.Set? && bracount <= |pre|
      requires (hi.Max? ==> lo <= hi.n) && |pre| + LenItems(ClassItems(x, lo, hi, ModeFor(lazy))) < codestart.Length
      modifies this`code, this`out, codestart
      ensures Valid() && out == pre + EmitItems(ClassItems(x, lo, hi, ModeFor(lazy)))
    {
      hide Valid, EmitItems, LenItems, ClassItems, EmitSingle, Two;
      ClassCases(x, lo, hi, ModeFor(lazy));
      if hi == Max(0) {
        Cut(previous);
        return;
      }
      var rt := if lazy then 1 else 0;
      var s: seq<byte>;
      if lo == 0 && hi.NoMax? {
        s := [OP_CRSTAR + rt];
      } else if lo == 1 && hi.NoMax? {
        s := [OP_CRSTAR + 2 + rt];
      } else if lo == 0 && hi == Max(1) {
        s := [OP_CRSTAR + 4 + rt];
      } else {
        s := [OP_CRRANGE + rt] + Two(lo) + Two(if hi.NoMax? then 0 else hi.n);
      }
      Assoc(pre, EmitSingle(x), s);
      Add(s);
    }

    /** A literal, type or class with its quantifier. */
    method CompileByte(x: Single, q: Quant, rest: Branch)
      requires Valid() && WfQuant(q) && (q.Quant? && q.mode == Poss ==> !x.Set? && !(q.lo == 1 && q.hi.Max?))
      requires |out| + LenSingle(x) < codestart.Length && |out| + LenItems(ByteItems(x, q)) < codestart.Length
      modifies this`code, this`out, codestart
      ensures Valid() && out == old(out) + EmitItems(ByteItems(x, Possessified(ctypes, x, q, rest)))
    {
      hide Valid, EmitItems, LenItems, PlainItems, ClassItems, EmitSingle, CheckAuto;
      ghost var pre := out;
      CodeIs();
      var previous := code;
      Add(EmitSingle(x));
      OneByte(x);
      if q.Plain? {
        return;
      }
      var lazy, possessive := q.mode == Lazy, q.mode == Poss;
      PossessifiedLength(ctypes, x, q, rest);
      if x.Set? {
        RepeatClass(previous, x, q.lo, q.hi, lazy, pre);
      } else {
        if !possessive && q.hi.NoMax? && CheckAuto(ctypes, x, rest) {
          lazy, possessive := false, true;
        }
        ModeLength(x, q.lo, q.hi, q.mode, ModeFor(lazy));
        RepeatSingle(previous, x, q.lo, q.hi, lazy, pre);
        if possessive && q.hi != Max(0) {
          Possessify(previous, x, q.lo, q.hi, pre);
        }
        NoCode(x, q);
      }
    }

    // -------------------------------------------------------------------------------------
    // Branches and brackets

    /** One item with its quantifier; the hints are those up to this item. */
    method CompilePiece(p: Piece, rest: Branch, h0: Hints) returns (h: Hints)
      requires Valid() && WfPiece(p) && |out| + NeededPiece(p) < codestart.Length
      modifies this`code, this`out, this`bracount, codestart
      ensures Valid() && bracount == old(bracount) + Parens(p) && h == AfterPiece(h0, p)
      ensures out == old(out) + EmitItems(PieceItems(ctypes, p, rest, old(bracount)))
      ensures |out| <= |old(out)| + NeededPiece(p)
      decreases SizePiece(p), 0
    {
      hide Valid, EmitItems, LenItems, EmitGrp, LenGrp, ByteItems, GroupItems, NeededGroup, ChoiceHints, LenSingle,
           WfGrp;
      ghost var pre, k := out, bracount;
      PieceFits(ctypes, p, rest, k);
      CodeIs();
      if p.Byte? {
        var (more, zero) := AfterByte(h0, p.x);
        h := if Least(p.q) == 0 then zero else if Least(p.q) > 1 && p.x.Chr? then more.(req := Is(p.x.c)) else more;
        CompileByte(p.x, p.q, rest);
      } else {
        ghost var g := ParenGrp(ctypes, p.capturing, p.alts, k);
        ReplicatedMono(NeededGroup(p.capturing, p.alts), NeededGroup(p.capturing, p.alts), p.q);
        var previous := code;
        var sub := CompileRegex(p.capturing, p.alts);
        var (more, zero) := AfterGroup(h0, sub);
        h := if Least(p.q) == 0 then zero
             else if Least(p.q) > 1 && h0.first.Unset? && more.first.Is? && !more.req.Is? then more.(req := more.first) else more;
        RepeatGroup(previous, p.q, g, pre);
      }
    }

    /** The items of a branch in order. */
    method CompileBranch(b0: Branch) returns (h: Hints)
      requires Valid() && WfBranch(b0) && |out| + NeededBranch(b0) < codestart.Length
      modifies this`code, this`out, this`bracount, codestart
      ensures Valid() && bracount == old(bracount) + ParensBranch(b0) && h == BranchHints(b0)
      ensures out == old(out) + EmitItems(BranchItems(ctypes, b0, old(bracount)))
      ensures |out| <= |old(out)| + NeededBranch(b0)
      decreases SizeBranch(b0), 1
    {
      hide Valid, EmitItems, WfPiece, NeededPiece, PieceItems, AfterPiece, Parens;
      var b := b0;
      h := Hints(Unset, Unset);
      ghost var pre, k := out, bracount;
      EmptyBytes(pre);
      while b.Then?
        invariant Valid() && WfBranch(b) && SizeBranch(b) <= SizeBranch(b0) && BranchHints(b0) == AfterBranch(h, b)
        invariant k + ParensBranch(b0) == bracount + ParensBranch(b)
        invariant pre + EmitItems(BranchItems(ctypes, b0, k)) == out + EmitItems(BranchItems(ctypes, b, bracount))
        invariant |out| + NeededBranch(b) <= |pre| + NeededBranch(b0)
        decreases b
      {
        ghost var items, next := PieceItems(ctypes, b.p, b.rest, bracount),
                  BranchItems(ctypes, b.rest, bracount + Parens(b.p));
        EmitAppend(items, next);
        Assoc(out, EmitItems(items), EmitItems(next));
        h := CompilePiece(b.p, b.rest, h);
        b := b.rest;
      }
      EmptyBytes(out);
    }

    /** The alternatives of a bracket: headers, branches and the closing bracket. */
    method CompileRegex(capturing: bool, alts0: Choice) returns (h: Hints)
      requires Valid() && WfChoice(alts0) && |out| + NeededGroup(capturing, alts0) < codestart.Length
      modifies this`code, this`out, this`bracount, codestart
      ensures Valid() && bracount == old(bracount) + (if capturing then 1 else 0) + ParensChoice(alts0)
      ensures h == ChoiceHints(alts0)
      ensures var g := ParenGrp(ctypes, capturing, alts0, old(bracount));
        out == old(out) + EmitGrp(g) && |out| <= |old(out)| + NeededGroup(capturing, alts0) && WfGrp(g) &&
          g.ket == Ket && !g.s
      decreases SizeChoice(alts0), 3
    {
      hide Valid, EmitGrp, LenAlts, EmitAlts, NeededChoice, WfChoice, ParensChoice, ChoiceHints, ChoiceAlts,
        Chained, Before, Opening, SizeChoice, AltsOf, Root, WfAlts;
      ghost var pre, k := out, bracount;
      var start := OpenBracket(capturing);
      var last_branch: nat;
      ghost var o: Open;
      ghost var g := ParenGrp(ctypes, capturing, alts0, k);
      h, last_branch, o := Alternatives(start, alts0, pre, BraOp(g), g.cap);
      CodeIs();
      ChoiceWf(ctypes, alts0, k + if capturing then 1 else 0);
      GroupWf(g);
      GroupFits(ctypes, capturing, alts0, k);
      CloseBracket(start, last_branch, o, g, pre);
    }

    /** The branches, separated by ALTs that hold the distance back to the previous header. */
    method Alternatives(start: nat, alts0: Choice, ghost pre: seq<byte>, ghost op: byte, ghost cap: nat)
      returns (h: Hints, last_branch: nat, ghost o: Open)
      requires Valid() && WfChoice(alts0) && start == |pre| && out == pre + Opening(op, 0, cap)
      requires |out| + NeededChoice(alts0) < codestart.Length
      modifies this`code, this`out, this`bracount, codestart
      ensures Valid() && bracount == old(bracount) + ParensChoice(alts0) && h == ChoiceHints(alts0)
      ensures |out| <= |old(out)| + NeededChoice(alts0)
      ensures out == pre + Chained(o) && last_branch == |pre| + |Before(o)|
      ensures AltsOf(o) == ChoiceAlts(ctypes, alts0, old(bracount))
      ensures Root(o) == First(op, cap, AltsOf(o).b)
      decreases SizeChoice(alts0), 2
    {
      hide Valid, EmitItems, LenItems, BranchItems, NeededBranch, WfBranch, Merge, BranchHints, Chained, Before,
           Opening, Two, SizeBranch, Reached;
      ghost var k := bracount;
      CodeIs();
      var alts := alts0;
      last_branch := start;
      h := CompileBranch(alts.b);
      o := First(op, cap, BranchItems(ctypes, alts.b, k));
      ghost var root := o;
      OpenFirst(o, pre);
      ReachedFirst(ctypes, alts0, o, h, k, bracount);
      while alts.Or?
        invariant Valid() && out == pre + Chained(o) && last_branch == |pre| + |Before(o)|
        invariant Reached(ctypes, alts0, k, alts, o, h, bracount, root)
        invariant |out| + (if alts.Or? then 3 + NeededChoice(alts.more) else 0) <= |old(out)| + NeededChoice(alts0)
        decreases alts
      {
        ReachedParts(ctypes, alts0, k, alts, o, h, bracount, root);
        CodeIs();
        ChainedLength(o);
        var alt := code;
        ghost var items, n := BranchItems(ctypes, alts.more.b, bracount), bracount;
        Add([OP_ALT] + Two(code - last_branch));
        last_branch := alt;
        var b := CompileBranch(alts.more.b);
        OpenNext(o, items, pre);
        ReachedNext(ctypes, alts0, k, alts, o, h, n, root);
        h := Merge(h, b);
        alts := alts.more;
        o := Next(o, items);
      }
      ReachedParts(ctypes, alts0, k, alts, o, h, bracount, root);
    }

    /** Reverse the chain and fill in the ket. */
    method CloseBracket(start: nat, last_branch: nat, ghost o: Open, ghost g: Grp, ghost pre: seq<byte>)
      requires Valid() && out == pre + Chained(o) && start == |pre| && last_branch == |pre| + |Before(o)| && 3 <= Room()
      requires g.alts == AltsOf(o) && !g.s && g.ket == Ket && Root(o) == First(BraOp(g), g.cap, g.alts.b)
      modifies this`code, this`out, codestart
      ensures Valid() && out == pre + EmitGrp(g)
    {
      hide Valid, EmitGrp, Chained, Before, Linked, OpeningOf, Two, AltsOf, Root, LenGrp;
      ReverseLinks(start, last_branch, o, pre);
      LinkedAlts(o);
      LinkedLength(o);
      CodeIs();
      CloseBytes(pre, g, o, Root(o));
      Add([OP_KET] + Two(code - start));
    }

    /** The opening bracket, with a zero link that marks it as open, and its number. */
    method OpenBracket(capturing: bool) returns (start: nat)
      requires Valid() && (if capturing then 5 else 3) <= Room()
      modifies this`code, this`out, this`bracount, codestart
      ensures Valid() && start == |old(out)| && bracount == old(bracount) + if capturing then 1 else 0
      ensures out == old(out) + Opening(if capturing then OP_CBRA else OP_BRA, 0, if capturing then old(bracount) + 1 else 0)
    {
      start := code;
      if capturing {
        Add(Opening(OP_CBRA, 0, bracount + 1));
        bracount := bracount + 1;
      } else {
        Add(Opening(OP_BRA, 0, 0));
      }
    }

    /** Some bytes and a copy of what is at `previous`. */
    method AddCopy(s: seq<byte>, previous: nat, len: nat, ghost x: seq<byte>)
      requires Valid() && Holds(out, previous, x) && len == |x| && |s| + len <= Room()
      modifies this`code, this`out, codestart
      ensures Valid() && Holds(out, previous, x) && out == old(out) + s + x
    {
      hide Valid, Holds;
      HoldsMore(out, previous, x, s);
      Add(s);
      HoldsBytes(out, previous, x);
      HoldsMore(out, previous, x, x);
      Copy(previous, len);
    }
  }

  function ZeroOf(lazy: bool): Zero {
    if lazy then BraMinZero else BraZero
  }

  lemma NestedFirst(z: Zero, g: Grp)
    ensures Nested(z, g, 0) == [] && EmitItems(Optional(z, g, 0)) == []
  {
  }

  lemma NestedStep(base: seq<byte>, z: Zero, g: Grp, t: nat)
    ensures base + Nested(z, g, t + 1) == base + Nested(z, g, t) + (EmitZero(z) + Opening(OP_BRA, if t == 0 then 0 else LenGrp(g) + 4, 0)) + EmitGrp(g)
    ensures base + (Nested(z, g, t) + EmitItems(Optional(z, g, 1))) == base + Nested(z, g, t) + EmitZero(z) + EmitGrp(g)
  {
    hide EmitGrp, LenGrp, Two, EmitItems, EmitZero, Opening;
    var opening := Opening(OP_BRA, if t == 0 then 0 else LenGrp(g) + 4, 0);
    OneGroup(z, g);
    Assoc(base, Nested(z, g, t), EmitZero(z) + opening + EmitGrp(g));
    Assoc(base + Nested(z, g, t), EmitZero(z) + opening, EmitGrp(g));
    Assoc(base, Nested(z, g, t), EmitZero(z) + EmitGrp(g));
    Assoc(base + Nested(z, g, t), EmitZero(z), EmitGrp(g));
  }

  lemma HoldsLast(pre: seq<byte>, x: seq<byte>)
    ensures Holds(pre + x, |pre|, x)
  {
  }

  lemma SetKet(pre: seq<byte>, g: Grp, k: Ket)
    ensures LenGrp(g.(ket := k)) == LenGrp(g)
    ensures (pre + EmitGrp(g))[|pre| + LenGrp(g) - 3 := KetOp(k)] == pre + EmitGrp(g.(ket := k))
  {
    hide EmitGrp, Two, Opening, KetOp, LenAlts, LenItems;
    GrpBytes(g);
    GrpBytes(g.(ket := k));
    var a := Opening(BraOp(g), HeadLen(g) + LenItems(g.alts.b), g.cap) + EmitAlts(g.alts);
    ReplaceOne(pre, a, KetOp(g.ket), KetOp(k), Two(HeadLen(g) + LenAlts(g.alts)));
  }

  lemma ReplaceOne(pre: seq<byte>, a: seq<byte>, b: byte, b': byte, c: seq<byte>)
    ensures (pre + (a + [b] + c))[|pre| + |a| := b'] == pre + (a + [b'] + c)
  {
  }

  lemma SetBra(pre: seq<byte>, g: Grp)
    requires !g.s
    ensures |pre| < |pre + EmitGrp(g)| && (pre + EmitGrp(g))[|pre|] == BraOp(g) && BraOp(g) + 3 == BraOp(g.(s := true))
    ensures (pre + EmitGrp(g))[|pre| := BraOp(g) + 3] == pre + EmitGrp(g.(s := true))
  {
    hide EmitGrp, Two, KetOp, LenAlts, LenItems, LenGrp, EmitAlts;
    GrpBytes(g);
    GrpBytes(g.(s := true));
  }

  lemma SameWf(g: Grp, k: Ket)
    requires WfGrp(g)
    ensures WfGrp(g.(ket := k))
  {
  }

  /** n copies of some bytes. */
  function Times(x: seq<byte>, n: nat): seq<byte> {
    if n == 0 then [] else Times(x, n - 1) + x
  }

  lemma TimesOne(x: seq<byte>)
    ensures Times(x, 1) == x && Times(x, 0) == []
  {
  }

  lemma TimesNext(pre: seq<byte>, x: seq<byte>, n: nat)
    ensures pre + Times(x, n) + [] + x == pre + Times(x, n + 1) && pre + Times(x, n + 1) == pre + Times(x, n) + x
  {
  }

  lemma {:induction false} TimesFront(x: seq<byte>, n: nat)
    ensures Times(x, n + 1) == x + Times(x, n)
  {
    if n > 0 {
      TimesFront(x, n - 1);
    }
  }

  lemma {:induction false} CopiesTimes(g: Grp, n: nat, tail: Items)
    ensures EmitItems(Copies(g, n, tail)) == Times(EmitGrp(g), n) + EmitItems(tail)
    ensures LenItems(Copies(g, n, tail)) == |Times(EmitGrp(g), n)| + LenItems(tail)
    decreases n
  {
    hide EmitGrp, EmitItems, LenItems;
    CopiesBytes(g, n, tail);
    if n > 0 {
      CopiesTimes(g, n - 1, tail);
      TimesFront(EmitGrp(g), n - 1);
    }
  }

  /** Which items a quantifier leads to. */
  lemma GroupCases(g: Grp, q: Quant)
    requires WfQuant(q) && (q.Quant? ==> q.mode != Poss)
    ensures q.Plain? ==> GroupItems(g, q) == Cons(Group(Once, g), Nil)
    ensures q.Quant? && q.hi == Max(0) ==> GroupItems(g, q) == Cons(Group(SkipZero, g), Nil)
    ensures q.Quant? && q.hi.Max? && q.hi.n > 0 ==>
      GroupItems(g, q) == Copies(g, q.lo, Optional(ZeroOf(q.mode == Lazy), g, q.hi.n - q.lo))
    ensures q.Quant? && q.hi.Max? && q.hi.n > 0 && q.lo == 0 ==>
      GroupItems(g, q) == Optional(ZeroOf(q.mode == Lazy), g, q.hi.n)
    ensures q.Quant? && q.hi.NoMax? && q.lo == 0 ==>
      GroupItems(g, q) == Cons(Group(ZeroOf(q.mode == Lazy), Loop(g, q.mode)), Nil)
    ensures q.Quant? && q.hi.NoMax? && q.lo > 0 ==>
      GroupItems(g, q) == Copies(g, q.lo - 1, Cons(Group(Once, Loop(g, q.mode)), Nil))
    ensures q.Quant? ==> Loop(g, q.mode) == Loop(g, if q.mode == Lazy then Lazy else Greedy)
    ensures q.Plain? ==> LenItems(GroupItems(g, q)) == LenGrp(g)
    ensures q.Quant? && q.lo == 0 && (q.hi == Max(0) || q.hi.NoMax?) ==> LenItems(GroupItems(g, q)) == LenGrp(g) + 1
  {
    hide LenGrp, AnyLooksEmpty, Optional;
    if q.Quant? {
      LoopLength(g, q.mode);
    }
    assert LenItem(Group(Once, g)) == LenGrp(g);
    assert LenItem(Group(SkipZero, g)) == LenGrp(g) + 1;
  }

  /** Up to the minimum there is room for one more copy. */
  lemma {:induction false} CopiesRoom(g: Grp, q: Quant, n: nat)
    requires WfQuant(q) && q.Quant? && q.mode != Poss && n < q.lo
    ensures |Times(EmitGrp(g), n)| + LenGrp(g) <= LenItems(GroupItems(g, q))
    decreases q.lo - n
  {
    hide LenGrp, AnyLooksEmpty, Optional, EmitGrp, GroupItems, LenItems, Copies, Loop;
    TimesNext([], EmitGrp(g), n);
    if n + 1 < q.lo {
      CopiesRoom(g, q, n + 1);
    } else {
      GroupCases(g, q);
      if q.hi.Max? {
        CopiesTimes(g, q.lo, Optional(ZeroOf(q.mode == Lazy), g, q.hi.n - q.lo));
      } else {
        CopiesTimes(g, q.lo - 1, Cons(Group(Once, Loop(g, q.mode)), Nil));
        OneGroup(Once, Loop(g, q.mode));
        LoopLength(g, q.mode);
      }
    }
  }

  lemma PutBefore(pre: seq<byte>, x: seq<byte>, s: seq<byte>)
    ensures (pre + x)[..|pre|] + s + (pre + x)[|pre|..] == pre + (s + x)
  {
  }

  function ModeFor(lazy: bool): Mode {
    if lazy then Lazy else Greedy
  }

  /** The varying part of a repeat, if there is one. */
  function Varying(lo: nat, hi: Bound, m: Mode): Rep {
    if hi.NoMax? then (if lo == 1 then Plus(m) else Star(m))
    else if hi.n == lo + 1 then Query(m)
    else if hi.n > lo then Upto(hi.n - lo, m)
    else Star(m)
  }

  predicate Even(lo: nat, hi: Bound) {
    hi.Max? && hi.n <= lo
  }

  lemma PlainBytes(x: Single, lo: nat, hi: Bound, m: Mode)
    requires !x.Set? && (hi.Max? ==> lo <= hi.n)
    ensures var s := EmitItems(PlainItems(x, lo, hi, m));
      var n := LenItems(PlainItems(x, lo, hi, m));
      && n == |s|
      && (hi == Max(0) ==> s == [])
      && (lo == 1 && hi.Max? ==> s == if hi.n == 1 then EmitSingle(x) else EmitSingle(x) + EmitMany(x, Upto(hi.n - 1, m)))
      && ((lo == 0 && hi != Max(0)) || (lo == 1 && hi.NoMax?) ==> s == EmitMany(x, Varying(lo, hi, m)))
      && (lo > 1 ==> s == EmitMany(x, Exact(lo)) + if Even(lo, hi) then [] else EmitMany(x, Varying(lo, hi, m)))
  {
    hide EmitMany, EmitSingle;
    var items := PlainItems(x, lo, hi, m);
    if items.Cons? {
      ConsBytes(items);
      if items.tail.Cons? {
        ConsBytes(items.tail);
      }
    }
  }

  /** The fixed part of a repeat that has a varying part. */
  function FixedPart(x: Single, lo: nat): seq<byte> {
    if lo > 1 then EmitMany(x, Exact(lo)) else []
  }

  /** Where the opcode that becomes possessive is, and what it is. */
  lemma PossessiveParts(x: Single, lo: nat, hi: Bound, pre: seq<byte>)
    requires !x.Set? && (hi.Max? ==> lo <= hi.n && hi.n > 0 && lo != 1)
    ensures var e, r, r' := FixedPart(x, lo), Varying(lo, hi, Greedy), Varying(lo, hi, Poss);
      var s := pre + EmitItems(PlainItems(x, lo, hi, Greedy));
      && |e| == (if lo > 1 then 4 else 0)
      && |pre| < |s| && (s[|pre|] == RepBase(x) + 8 <==> lo > 1)
      && (Even(lo, hi) ==> |s| == |pre| + 4 && lo > 1 && s == pre + EmitItems(PlainItems(x, lo, hi, Poss)))
      && (!Even(lo, hi) ==>
        && s == pre + e + EmitMany(x, r) && pre + EmitItems(PlainItems(x, lo, hi, Poss)) == pre + e + EmitMany(x, r')
        && |pre + e| < |s| && s[|pre + e|] == RepBase(x) + RepIndex(r) && RepIndex(r) in {0, 2, 4, 6}
        && RepIndex(r') == (if RepIndex(r) == 0 then 9 else if RepIndex(r) == 2 then 10 else if RepIndex(r) == 4 then 11 else 12)
        && r'.Upto? == r.Upto? && !r.Exact? && !r'.Exact? && (r.Upto? ==> r'.n == r.n))
  {
    hide EmitItems, LenItems, PlainItems, EmitMany, EmitSingle;
    PlainBytes(x, lo, hi, Greedy);
    PlainBytes(x, lo, hi, Poss);
    var e, r, r' := FixedPart(x, lo), Varying(lo, hi, Greedy), Varying(lo, hi, Poss);
    Joins(pre, e, EmitMany(x, r));
    Joins(pre, e, EmitMany(x, r'));
    FirstOp(pre, x, Exact(lo), if Even(lo, hi) then [] else EmitMany(x, r));
    FirstOp(pre + e, x, r, []);
  }

  lemma Joins(pre: seq<byte>, e: seq<byte>, s: seq<byte>)
    ensures s + [] == s && e + [] == e && pre + (e + s) == pre + e + s && (e == [] ==> e + s == s && pre + e == pre)
  {
  }

  lemma FirstOp(pre: seq<byte>, x: Single, r: Rep, more: seq<byte>)
    requires !x.Set?
    ensures var s := pre + (EmitMany(x, r) + more); |pre| < |s| && s[|pre|] == RepBase(x) + RepIndex(r)
  {
    hide RepIndex, Two;
  }

  lemma SetOp(pre: seq<byte>, x: Single, r: Rep, r': Rep)
    requires !x.Set? && r'.Upto? == r.Upto? && !r.Exact? && !r'.Exact? && (r.Upto? ==> r'.n == r.n)
    ensures (pre + EmitMany(x, r))[|pre| := RepBase(x) + RepIndex(r')] == pre + EmitMany(x, r')
  {
    hide RepIndex, Two;
  }

  // Sizes for termination.

  function SizePiece(p: Piece): nat
    decreases p
  {
    match p case Byte(_, _, _) => 1 case Paren(_, alts, _) => 1 + SizeChoice(alts)
  }

  function SizeBranch(b: Branch): nat
    decreases b
  {
    match b case Done => 0 case Then(p, rest) => SizePiece(p) + SizeBranch(rest)
  }

  function SizeChoice(alts: Choice): nat
    decreases alts
  {
    match alts case Only(b) => SizeBranch(b) case Or(b, more) => SizeBranch(b) + SizeChoice(more)
  }

  lemma OpenFirst(o: Open, pre: seq<byte>)
    requires o.First?
    ensures pre + Opening(o.op, 0, o.cap) + EmitItems(o.b) == pre + Chained(o) && Before(o) == [] && Root(o) == o
    ensures forall tail :: Joined(o, tail) == More(o.b, tail)
    ensures AltsOf(o) == Last(o.b)
  {
    hide EmitItems, Opening;
  }

  lemma OpenNext(o: Open, b: Items, pre: seq<byte>)
    ensures pre + Chained(o) + ([OP_ALT] + Two(Segment(o))) + EmitItems(b) == pre + Chained(Next(o, b))
    ensures Before(Next(o, b)) == Chained(o) && Root(Next(o, b)) == Root(o)
    ensures forall tail :: Joined(Next(o, b), tail) == Joined(o, More(b, tail))
    ensures AltsOf(Next(o, b)) == Joined(o, Last(b))
  {
    hide EmitItems, Segment, Two, OpeningOf;
    assert OpeningOf(Next(o, b), Segment(o)) == [OP_ALT] + Two(Segment(o)) by { NextOpening(o, b, Segment(o)); }
    Regroup(pre, Chained(o), [OP_ALT] + Two(Segment(o)), EmitItems(b));
  }

  lemma Regroup(a: seq<byte>, b: seq<byte>, c: seq<byte>, d: seq<byte>)
    ensures a + b + c + d == a + (b + c + d)
  {
  }

  lemma {:induction false} LinkedLength(o: Open)
    ensures |Linked(o)| == |Chained(o)|
    decreases o
  {
    hide EmitItems, Two;
    if o.Next? {
      LinkedLength(o.prev);
    }
  }

  /** How far the compilation of alternatives has come: `alts` begins with the last compiled branch. */
  ghost predicate Reached(ct: CTypes, alts0: Choice, k: nat, alts: Choice, o: Open, h: Hints, n: nat, root: Open) {
    && ChoiceAlts(ct, alts0, k) == (if alts.Or? then Joined(o, ChoiceAlts(ct, alts.more, n)) else AltsOf(o))
    && ChoiceHints(alts0) == (if alts.Or? then MergeAll(h, alts.more) else h)
    && k + ParensChoice(alts0) == n + (if alts.Or? then ParensChoice(alts.more) else 0)
    && SizeChoice(alts) <= SizeChoice(alts0) && WfChoice(alts)
    && Root(o) == root && root.b == ChoiceAlts(ct, alts0, k).b
  }

  lemma ReachedFirst(ct: CTypes, alts0: Choice, o: Open, h: Hints, k: nat, n: nat)
    requires o.First? && o.b == BranchItems(ct, alts0.b, k) && h == BranchHints(alts0.b)
    requires n == k + ParensBranch(alts0.b) && WfChoice(alts0)
    ensures Reached(ct, alts0, k, alts0, o, h, n, o)
  {
    hide BranchItems, BranchHints, WfBranch;
  }

  lemma ReachedNext(ct: CTypes, alts0: Choice, k: nat, alts: Choice, o: Open, h: Hints, n: nat, root: Open)
    requires alts.Or? && Reached(ct, alts0, k, alts, o, h, n, root)
    ensures Reached(ct, alts0, k, alts.more, Next(o, BranchItems(ct, alts.more.b, n)),
      Merge(h, BranchHints(alts.more.b)), n + ParensBranch(alts.more.b), root)
  {
    hide BranchItems, BranchHints, WfBranch, SizeBranch, Merge;
  }

  lemma ReachedParts(ct: CTypes, alts0: Choice, k: nat, alts: Choice, o: Open, h: Hints, n: nat, root: Open)
    requires Reached(ct, alts0, k, alts, o, h, n, root)
    ensures alts.Or? ==> SizeBranch(alts.more.b) <= SizeChoice(alts0) && WfBranch(alts.more.b)
    ensures alts.Only? ==>
      AltsOf(o) == ChoiceAlts(ct, alts0, k) && h == ChoiceHints(alts0) && n == k + ParensChoice(alts0)
    ensures Root(o) == root && root.b == ChoiceAlts(ct, alts0, k).b
  {
    if alts.Or? {
      assert WfChoice(alts.more) && SizeChoice(alts.more) <= SizeChoice(alts);
      assert SizeBranch(alts.more.b) <= SizeChoice(alts.more);
    }
  }

  lemma NextOpening(o: Open, b: Items, link: nat)
    ensures OpeningOf(Next(o, b), link) == [OP_ALT] + Two(link)
  {
  }

  /** The closing bracket completes the bytes of the group. */
  lemma CloseBytes(pre: seq<byte>, g: Grp, o: Open, root: Open)
    requires !g.s && g.ket == Ket && g.alts == AltsOf(o) && Root(o) == root && root.First? && root.b == g.alts.b
    requires root.op == BraOp(g) && root.cap == g.cap
    requires Linked(o) == OpeningOf(root, Segment(root)) + EmitAlts(AltsOf(o))
    ensures pre + Linked(o) + ([OP_KET] + Two(|Linked(o)|)) == pre + EmitGrp(g)
    ensures |Linked(o)| + 3 == LenGrp(g)
  {
    hide EmitGrp, EmitAlts, LenItems, LenAlts, Two, AltsOf, Root, Linked, BraOp;
    GrpBytes(g);
  }

  /** Compiled patterns are well formed as long as the capture numbers fit. */
  lemma {:induction false} ChoiceWf(ct: CTypes, alts: Choice, k: nat)
    requires WfChoice(alts) && k + ParensChoice(alts) < 65536
    ensures WfAlts(ChoiceAlts(ct, alts, k))
    decreases alts, 1
  {
    hide WfItems, BranchItems, WfBranch;
    BranchWf(ct, alts.b, k);
    if alts.Or? {
      ChoiceWf(ct, alts.more, k + ParensBranch(alts.b));
    }
  }

  lemma {:induction false} BranchWf(ct: CTypes, b: Branch, k: nat)
    requires WfBranch(b) && k + ParensBranch(b) < 65536
    ensures WfItems(BranchItems(ct, b, k))
    decreases b, 0
  {
    hide WfItem, GroupItems, ByteItems, CheckAuto, WfGrp;
    if b.Then? {
      var items := PieceItems(ct, b.p, b.rest, k);
      if b.p.Byte? {
        ByteWf(b.p.x, Possessified(ct, b.p.x, b.p.q, b.rest));
      } else {
        var g := ParenGrp(ct, b.p.capturing, b.p.alts, k);
        ChoiceWf(ct, b.p.alts, if b.p.capturing then k + 1 else k);
        GroupWf(g);
        GroupItemsWf(g, b.p.q);
      }
      BranchWf(ct, b.rest, k + Parens(b.p));
      AppendWf(items, BranchItems(ct, b.rest, k + Parens(b.p)));
    }
  }

  lemma GroupWf(g: Grp)
    requires WfAlts(g.alts) && g.cap < 65536
    ensures WfGrp(g)
  {
  }

  lemma {:induction false} AppendWf(a: Items, b: Items)
    requires WfItems(a) && WfItems(b)
    ensures WfItems(Append(a, b))
  {
    hide WfItem;
    if a.Cons? {
      AppendWf(a.tail, b);
    }
  }

  lemma ByteWf(x: Single, q: Quant)
    requires WfQuant(q) && (q.Quant? && q.mode == Poss ==> !x.Set?)
    ensures WfItems(ByteItems(x, q))
  {
    var items := ByteItems(x, q);
    assert items.Cons? && items.tail.Cons? ==> items.tail.tail.Nil?;
  }

  lemma {:induction false} GroupItemsWf(g: Grp, q: Quant)
    requires WfGrp(g)
    ensures WfItems(GroupItems(g, q))
  {
    hide WfGrp, AnyLooksEmpty;
    assert WfItem(Group(Once, g)) && WfItem(Group(SkipZero, g));
    match q
    case Plain =>
    case Quant(lo, Max(hi), m, _) =>
      if 0 < hi && lo <= hi {
        OptionalWf(ZeroOf(m == Lazy), g, hi - lo);
        CopiesWf(g, lo, Optional(ZeroOf(m == Lazy), g, hi - lo));
      }
    case Quant(lo, NoMax, m, _) =>
      LoopWf(g, m);
      if lo > 0 {
        CopiesWf(g, lo - 1, Cons(Group(Once, Loop(g, m)), Nil));
      }
  }

  lemma LoopWf(g: Grp, m: Mode)
    requires WfGrp(g)
    ensures WfGrp(Loop(g, m))
  {
    hide WfAlts, AnyLooksEmpty;
  }

  lemma {:induction false} CopiesWf(g: Grp, n: nat, tail: Items)
    requires WfGrp(g) && WfItems(tail)
    ensures WfItems(Copies(g, n, tail))
  {
    hide WfGrp;
    if n > 0 {
      CopiesWf(g, n - 1, tail);
    }
  }

  lemma {:induction false} OptionalWf(z: Zero, g: Grp, n: nat)
    requires WfGrp(g)
    ensures WfItems(Optional(z, g, n))
  {
    hide WfAlts;
    if n > 1 {
      OptionalWf(z, g, n - 1);
      var b := Cons(Group(Once, g), Optional(z, g, n - 1));
      assert WfItem(Group(Once, g)) && WfItems(b);
      LastWf(b);
      assert WfGrp(Grp(false, 0, Last(b), Ket));
    }
  }

  lemma LastWf(b: Items)
    requires WfItems(b)
    ensures WfAlts(Last(b))
  {
  }

  lemma OneByte(x: Single)
    ensures EmitItems(ByteItems(x, Plain)) == EmitSingle(x)
  {
    hide EmitSingle;
    assert EmitItems(Cons(One(x), Nil)) == EmitItem(One(x)) + [];
  }

  lemma EmptyBytes(pre: seq<byte>)
    ensures pre + EmitItems(Nil) == pre
  {
  }

  /** A maximum of zero leaves no code, whatever the mode. */
  lemma NoCode(x: Single, q: Quant)
    requires q.Quant?
    ensures q.hi == Max(0) ==> PlainItems(x, q.lo, q.hi, Greedy) == PlainItems(x, q.lo, q.hi, Poss)
  {
  }

  lemma ModeLength(x: Single, lo: nat, hi: Bound, m: Mode, m': Mode)
    requires !x.Set? && (hi.Max? ==> lo <= hi.n)
    ensures LenItems(PlainItems(x, lo, hi, m)) == LenItems(PlainItems(x, lo, hi, m'))
  {
    hide EmitItems, LenItems, PlainItems, EmitMany, EmitSingle;
    PlainBytes(x, lo, hi, m);
    PlainBytes(x, lo, hi, m');
  }

  lemma ClassCases(x: Single, lo: nat, hi: Bound, m: Mode)
    requires x.Set? && m != Poss && (hi.Max? ==> lo <= hi.n)
    ensures var items := ClassItems(x, lo, hi, m);
      var rt := if m == Lazy then 1 else 0;
      && LenItems(items) == |EmitItems(items)|
      && EmitItems(items) ==
        if hi == Max(0) then []
        else EmitSingle(x) + if lo == 0 && hi.NoMax? then [OP_CRSTAR + rt]
                             else if lo == 1 && hi.NoMax? then [OP_CRSTAR + 2 + rt]
                             else if lo == 0 && hi == Max(1) then [OP_CRSTAR + 4 + rt]
                             else [OP_CRRANGE + rt] + Two(lo) + Two(if hi.NoMax? then 0 else hi.n)
  {
    hide EmitSingle, Two;
    var items := ClassItems(x, lo, hi, m);
    if items.Cons? {
      ConsBytes(items);
    }
  }

  lemma OptionalLast(z: Zero, g: Grp)
    ensures LenItems(Optional(z, g, 1)) == |EmitItems(Optional(z, g, 1))|
    ensures EmitItems(Optional(z, g, 1)) == EmitZero(z) + EmitGrp(g)
  {
    OneGroup(z, g);
  }

  /** Closing the innermost open bracket: what its link field holds, and what the bytes become. */
  lemma {:induction false} CloseStep(base: seq<byte>, z: Zero, g: Grp, t: nat, n: nat)
    requires t > 0 && n > 0 && (z == BraZero || z == BraMinZero)
    requires |base + Nested(z, g, t)| < 65536
    ensures var inside := EmitItems(Optional(z, g, n));
      var s := base + (Nested(z, g, t) + inside);
      var p := |base| + |Nested(z, g, t - 1)| + 2;
      var len := |s| - p + 1;
      && p + 2 <= |s| && Get2(s, p) == (if t == 1 then 0 else LenGrp(g) + 4)
      && Patched(s + ([OP_KET] + Two(len)), p, len) == base + (Nested(z, g, t - 1) + EmitItems(Optional(z, g, n + 1)))
      && len + p == |s| + 1 && |EmitItems(Optional(z, g, n + 1))| == LenGrp(g) + 7 + |inside|
  {
    hide Nested, EmitItems, Optional, EmitGrp, LenGrp, Two, Patched;
    var inside := EmitItems(Optional(z, g, n));
    var s := base + (Nested(z, g, t) + inside);
    var link := if t == 1 then 0 else LenGrp(g) + 4;
    var head := base + Nested(z, g, t - 1) + EmitZero(z) + [OP_BRA];
    var len := 3 + LenGrp(g) + |inside|;
    NestedLength(z, g, t);
    NestedSplit(base, z, g, t);
    Assoc(base, Nested(z, g, t), inside);
    Assoc(head + Two(link), EmitGrp(g), inside);
    TwoAt(s, head, link, EmitGrp(g) + inside);
    PatchedTwo(head, link, len, EmitGrp(g) + inside + ([OP_KET] + Two(len)));
    Assoc(head + Two(link), EmitGrp(g) + inside, [OP_KET] + Two(len));
    NestedClose(z, g, n);
    ClosedBytes(base, Nested(z, g, t - 1), EmitZero(z), Opening(OP_BRA, len, 0), EmitGrp(g), inside, Two(len));
  }

  lemma ClosedBytes(base: seq<byte>, nested: seq<byte>, zero: seq<byte>, opening: seq<byte>, grp: seq<byte>,
                    inside: seq<byte>, len: seq<byte>)
    requires |len| == 2 && opening == [OP_BRA] + len
    ensures base + nested + zero + [OP_BRA] + len + (grp + inside + ([OP_KET] + len))
         == base + (nested + (zero + (opening + grp + inside + [OP_KET] + len)))
  {
  }

  lemma NestedSplit(base: seq<byte>, z: Zero, g: Grp, t: nat)
    requires t > 0
    ensures base + Nested(z, g, t) == base + Nested(z, g, t - 1) + EmitZero(z) + [OP_BRA] +
      Two(if t == 1 then 0 else LenGrp(g) + 4) + EmitGrp(g)
  {
    hide EmitGrp, LenGrp, Two, EmitZero;
  }

  lemma TwoAt(s: seq<byte>, a: seq<byte>, v: nat, b: seq<byte>)
    requires s == a + Two(v) + b && v < 65536
    ensures |a| + 2 <= |s| && Get2(s, |a|) == v
  {
    assert s[|a|] == Two(v)[0] && s[|a| + 1] == Two(v)[1];
  }

  lemma OpeningIs(z: Zero, op: byte, link: nat)
    ensures z == BraZero ==> [OP_BRAZERO, op] + Two(link) == EmitZero(z) + Opening(op, link, 0)
    ensures z == BraMinZero ==> [OP_BRAMINZERO, op] + Two(link) == EmitZero(z) + Opening(op, link, 0)
  {
    hide Two;
  }

  lemma HoldsMore(s: seq<byte>, p: nat, x: seq<byte>, more: seq<byte>)
    requires Holds(s, p, x)
    ensures Holds(s + more, p, x)
  {
    assert (s + more)[p..p + |x|] == s[p..p + |x|];
  }

  lemma HoldsBytes(s: seq<byte>, p: nat, x: seq<byte>)
    requires Holds(s, p, x)
    ensures p + |x| <= |s| && s[p..p + |x|] == x
  {
  }

  /** One step of the reversal: what is read, and what the bytes are afterwards. */
  lemma {:induction false} ReverseStep(pre: seq<byte>, cur: Open, done: seq<byte>)
    ensures var before, tail := pre + Before(cur), EmitItems(cur.b) + done;
      && pre + Chained(cur) + done == before + OpeningOf(cur, Back(cur)) + tail
      && |before| + Segment(cur) == |pre + Chained(cur)|
      && (cur.First? ==> before + OpeningOf(cur, Segment(cur)) + tail == pre + (Linked(cur) + done) && Back(cur) == 0)
      && (cur.Next? ==>
        && before + OpeningOf(cur, Segment(cur)) + tail == pre + Chained(cur.prev) +
           (OpeningOf(cur, Segment(cur)) + tail)
        && Linked(cur) + done == Linked(cur.prev) + (OpeningOf(cur, Segment(cur)) + tail)
        && |Before(cur)| == |Before(cur.prev)| + Segment(cur.prev) && Back(cur) == Segment(cur.prev))
  {
    hide OpeningOf, EmitItems, Two;
    ChainedLength(cur);
    if cur.Next? {
      ChainedLength(cur.prev);
    }
  }

  // ---------------------------------------------------------------------------------------
  // The whole pattern

  datatype Result<T> = Ok(value: T) | Err(number: nat)

  /** A compiled pattern: the code and what pcre_exec() is told about it. */
  datatype Compiled = Compiled(code: Code, hints: Hints, top_bracket: nat, anchored: bool, startline: bool)

  function TopGrp(ct: CTypes, alts: Choice): Grp {
    ParenGrp(ct, false, alts, 0)
  }

  lemma PatternGroup(code: Code, g: Grp)
    requires PatternAt(code, g)
    ensures GrpAt(code, 0, g)
  {
  }

  /** pcre_compile2(): size the code, refuse what is too long for 2-byte links, compile into a vector
      of exactly that size. */
  method PcreCompile(ctypes: CTypes, alts: Choice) returns (r: Result<Compiled>)
    requires WfChoice(alts)
    ensures r.Err? <==> NeededGroup(false, alts) + 1 > MAX_PATTERN_SIZE
    ensures r.Err? ==> r.number == 20
    ensures r.Ok? ==> PatternAt(r.value.code, TopGrp(ctypes, alts)) && |r.value.code| <= NeededGroup(false, alts) + 1
    ensures r.Ok? ==> r.value.hints == ChoiceHints(alts) && r.value.top_bracket == ParensChoice(alts)
    ensures r.Ok? ==>
      GrpAt(r.value.code, 0, TopGrp(ctypes, alts)) && InStep(ReadGrp(r.value.code, 0, TopGrp(ctypes, alts)), 0)
    ensures r.Ok? ==> (r.value.anchored <==> DotAlts(OP_ALLANY, TopGrp(ctypes, alts).alts))
    ensures r.Ok? ==>
      (r.value.startline <==> !r.value.anchored && !r.value.hints.first.Is? && DotAlts(OP_ANY, TopGrp(ctypes, alts).alts))
  {
    hide NeededGroup, ChoiceHints, ParensChoice, WfChoice, PatternAt, EmitGrp, LenGrp, WfGrp, ChoiceAlts, GrpAt,
         DotAlts;
    var length := NeededGroup(false, alts) + 1;
    if length > MAX_PATTERN_SIZE {
      return Err(20);
    }
    var cd := new CompileData(ctypes, length);
    var h := cd.CompileRegex(false, alts);
    cd.Add([OP_END]);
    PatternHeld(cd.out, TopGrp(ctypes, alts));
    cd.View();
    var code := cd.codestart[..cd.code];
    PatternGroup(code, TopGrp(ctypes, alts));
    ReadGrpCaps(code, 0, TopGrp(ctypes, alts));
    ParenNumbered(ctypes, false, alts, 0);
    var anchored := StartsWithDot(code, 0, OP_ALLANY, TopGrp(ctypes, alts));
    var startline := false;
    if !anchored && !h.first.Is? {
      startline := StartsWithDot(code, 0, OP_ANY, TopGrp(ctypes, alts));
    }
    return Ok(Compiled(code, h, cd.bracount, anchored, startline));
  }

  lemma PatternHeld(code: Code, g: Grp)
    requires code == EmitGrp(g) + [OP_END] && WfGrp(g) && |code| <= MAX_PATTERN_SIZE
    ensures PatternAt(code, g) && |code| == LenGrp(g) + 1
  {
    hide EmitGrp, GrpAt, LenGrp, WfGrp;
    assert Holds(code, 0, EmitGrp(g));
    GrpHeld(code, 0, g);
  }
}
