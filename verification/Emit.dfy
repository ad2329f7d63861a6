/** The bytes of a code tree as one sequence, and the proof that they are laid out as module
    Layout says wherever they are put. */
module Emit {
  import opened Tree
  import opened Layout
  import opened Compile

  /** The bytes that PUT and PUT2 store. */
  function Two(v: nat): (s: seq<byte>)
    ensures |s| == 2
  {
    [(v / 256) % 256, v % 256]
  }

  function EmitSingle(x: Single): (s: seq<byte>)
    ensures |s| == LenSingle(x)
  {
    match x
    case Chr(c) => [OP_CHAR, c]
    case NotChr(c) => [OP_NOT, c]
    case Typ(t) => [t]
    case Set(neg, bits) => [if neg then OP_NCLASS else OP_CLASS] + bits
  }

  function Operand(x: Single): byte {
    match x case Chr(c) => c case NotChr(c) => c case Typ(t) => t case Set(_, _) => 0
  }

  function EmitMany(x: Single, r: Rep): (s: seq<byte>)
    ensures |s| == LenMany(x, r)
  {
    if x.Set? then
      EmitSingle(x) + [OP_CRSTAR + RepIndex(r)] + (if r.Range? then Two(r.lo) + Two(r.hi) else [])
    else
      [RepBase(x) + RepIndex(r)] + (if r.Upto? || r.Exact? then Two(r.n) else []) + [Operand(x)]
  }

  function EmitZero(z: Zero): seq<byte> {
    match z case Once => [] case BraZero => [OP_BRAZERO] case BraMinZero => [OP_BRAMINZERO] case SkipZero => [OP_SKIPZERO]
  }

  function EmitItem(it: Item): (s: seq<byte>)
    ensures |s| == LenItem(it)
    decreases it
  {
    match it
    case One(x) => EmitSingle(x)
    case Many(x, r) => EmitMany(x, r)
    case Group(z, g) => EmitZero(z) + EmitGrp(g)
  }

  /** An opening bracket with its link and number. */
  function Opening(op: byte, link: nat, cap: nat): (s: seq<byte>)
    ensures |s| == if cap == 0 then 3 else 5
  {
    [op] + Two(link) + (if cap == 0 then [] else Two(cap))
  }

  function EmitGrp(g: Grp): (s: seq<byte>)
    ensures |s| == LenGrp(g)
    decreases g
  {
    Opening(BraOp(g), HeadLen(g) + LenItems(g.alts.b), g.cap) + EmitAlts(g.alts) + [KetOp(g.ket)] +
      Two(HeadLen(g) + LenAlts(g.alts))
  }

  function EmitAlts(alts: Alts): (s: seq<byte>)
    ensures |s| == LenAlts(alts)
    decreases alts
  {
    match alts
    case Last(b) => EmitItems(b)
    case More(b, rest) => EmitItems(b) + [OP_ALT] + Two(3 + LenItems(rest.b)) + EmitAlts(rest)
  }

  function EmitItems(items: Items): (s: seq<byte>)
    ensures |s| == LenItems(items)
    decreases items
  {
    match items case Nil => [] case Cons(it, t) => EmitItem(it) + EmitItems(t)
  }

  lemma {:induction false} EmitAppend(a: Items, b: Items)
    ensures EmitItems(Append(a, b)) == EmitItems(a) + EmitItems(b)
  {
    hide EmitItem, LenItem;
    if a.Cons? {
      EmitAppend(a.tail, b);
    }
  }

  // ---------------------------------------------------------------------------------------
  // From bytes to layout

  /** The bytes s are in the code at p. */
  ghost predicate Holds(code: Code, p: nat, s: seq<byte>) {
    p + |s| <= |code| && code[p..p + |s|] == s
  }

  lemma HoldsParts(code: Code, p: nat, a: seq<byte>, b: seq<byte>)
    requires Holds(code, p, a + b)
    ensures Holds(code, p, a) && Holds(code, p + |a|, b)
  {
    assert code[p..p + |a|] == (a + b)[..|a|];
    assert code[p + |a|..p + |a| + |b|] == (a + b)[|a|..];
  }

  lemma HoldsTwo(code: Code, p: nat, v: nat)
    requires Holds(code, p, Two(v)) && v < 65536
    ensures p + 1 < |code| && Get2(code, p) == v
  {
    assert code[p] == Two(v)[0] && code[p + 1] == Two(v)[1];
  }

  lemma HoldsOne(code: Code, p: nat, b: byte)
    requires Holds(code, p, [b])
    ensures p < |code| && code[p] == b
  {
  }

  lemma SingleHeld(code: Code, p: nat, x: Single)
    requires Holds(code, p, EmitSingle(x))
    ensures SingleAt(code, p, x)
  {
    match x
    case Set(neg, bits) =>
      HoldsParts(code, p, [if neg then OP_NCLASS else OP_CLASS], bits);
    case Chr(c) =>
      HoldsParts(code, p, [OP_CHAR], [c]);
    case NotChr(c) =>
      HoldsParts(code, p, [OP_NOT], [c]);
    case Typ(t) =>
  }

  lemma ManyHeld(code: Code, p: nat, x: Single, r: Rep)
    requires Holds(code, p, EmitMany(x, r)) && WfRep(x, r)
    ensures ManyAt(code, p, x, r)
  {
    hide Holds, EmitMany, ManyAt;
    if x.Set? {
      ClassHeld(code, p, x, r);
    } else {
      PlainHeld(code, p, x, r);
    }
  }

  lemma ClassHeld(code: Code, p: nat, x: Single, r: Rep)
    requires x.Set? && Holds(code, p, EmitMany(x, r)) && WfRep(x, r)
    ensures ManyAt(code, p, x, r)
  {
    hide Holds, EmitSingle, SingleAt, Two;
    var op := [OP_CRSTAR + RepIndex(r)];
    var counts := if r.Range? then Two(r.lo) + Two(r.hi) else [];
    HoldsParts(code, p, EmitSingle(x) + op, counts);
    HoldsParts(code, p, EmitSingle(x), op);
    SingleHeld(code, p, x);
    HoldsOne(code, p + 33, op[0]);
    if r.Range? {
      HoldsParts(code, p + 34, Two(r.lo), Two(r.hi));
      HoldsTwo(code, p + 34, r.lo);
      HoldsTwo(code, p + 36, r.hi);
    }
    HeldBounds(code, p, EmitMany(x, r));
  }

  lemma PlainHeld(code: Code, p: nat, x: Single, r: Rep)
    requires !x.Set? && Holds(code, p, EmitMany(x, r)) && WfRep(x, r)
    ensures ManyAt(code, p, x, r)
  {
    hide Holds, Two;
    var op := [RepBase(x) + RepIndex(r)];
    var count := if r.Upto? || r.Exact? then Two(r.n) else [];
    HoldsParts(code, p, op + count, [Operand(x)]);
    HoldsParts(code, p, op, count);
    HoldsOne(code, p, op[0]);
    HoldsOne(code, p + LenMany(x, r) - 1, Operand(x));
    if r.Upto? || r.Exact? {
      HoldsTwo(code, p + 1, r.n);
    }
    HeldBounds(code, p, EmitMany(x, r));
  }

  lemma {:induction false} ItemsHeld(code: Code, p: nat, items: Items)
    requires Holds(code, p, EmitItems(items)) && WfItems(items) && LenItems(items) < 65536
    ensures ItemsAt(code, p, items)
    decreases items, 1
  {
    hide EmitItem, LenItem, WfItem, ItemAt, Holds;
    if items.Cons? {
      HoldsParts(code, p, EmitItem(items.head), EmitItems(items.tail));
      ItemHeld(code, p, items.head);
      ItemsHeld(code, p + LenItem(items.head), items.tail);
    }
  }

  lemma {:induction false} ItemHeld(code: Code, p: nat, it: Item)
    requires Holds(code, p, EmitItem(it)) && WfItem(it) && LenItem(it) < 65536
    ensures ItemAt(code, p, it)
    decreases it, 0
  {
    hide EmitSingle, EmitMany, EmitGrp, LenGrp, WfGrp, Holds, SingleAt, ManyAt, GrpAt;
    match it
    case One(x) => SingleHeld(code, p, x);
    case Many(x, r) => ManyHeld(code, p, x, r);
    case Group(z, g) =>
      HoldsParts(code, p, EmitZero(z), EmitGrp(g));
      if z != Once {
        HoldsOne(code, p, EmitZero(z)[0]);
      }
      GrpHeld(code, p + |EmitZero(z)|, g);
  }

  /** The parts of a group, each where it belongs. */
  lemma GrpParts(code: Code, q: nat, g: Grp)
    requires Holds(code, q, EmitGrp(g))
    ensures Holds(code, q, [BraOp(g)]) && Holds(code, q + 1, Two(HeadLen(g) + LenItems(g.alts.b)))
    ensures g.cap != 0 ==> Holds(code, q + 3, Two(g.cap))
    ensures Holds(code, q + HeadLen(g), EmitAlts(g.alts))
    ensures Holds(code, q + HeadLen(g) + LenAlts(g.alts), [KetOp(g.ket)])
    ensures Holds(code, q + HeadLen(g) + LenAlts(g.alts) + 1, Two(HeadLen(g) + LenAlts(g.alts)))
  {
    hide EmitAlts, LenAlts, LenItems, Holds, BraOp, KetOp, Two;
    var l1, l2 := HeadLen(g) + LenItems(g.alts.b), HeadLen(g) + LenAlts(g.alts);
    var cap := if g.cap == 0 then [] else Two(g.cap);
    var s0, s1, s2, s3 := [BraOp(g)] + Two(l1), cap, EmitAlts(g.alts), [KetOp(g.ket)];
    HoldsParts(code, q, s0 + s1 + s2 + s3, Two(l2));
    HoldsParts(code, q, s0 + s1 + s2, s3);
    HoldsParts(code, q, s0 + s1, s2);
    HoldsParts(code, q, s0, s1);
    HoldsParts(code, q, [BraOp(g)], Two(l1));
  }

  /** A group is laid out correctly wherever its bytes are, so copying them is enough to replicate it. */
  lemma {:induction false} GrpHeld(code: Code, q: nat, g: Grp)
    requires Holds(code, q, EmitGrp(g)) && WfGrp(g) && LenGrp(g) < 65536
    ensures GrpAt(code, q, g)
    decreases g, 0
  {
    hide EmitGrp, EmitAlts, LenAlts, WfAlts, Holds, AltsAt, BraOp, KetOp, Two;
    var a, l1, l2 := g.alts, HeadLen(g) + LenItems(g.alts.b), HeadLen(g) + LenAlts(g.alts);
    GrpParts(code, q, g);
    HoldsOne(code, q, BraOp(g));
    HoldsOne(code, q + HeadLen(g) + LenAlts(a), KetOp(g.ket));
    HoldsTwo(code, q + 1, l1);
    HoldsTwo(code, q + HeadLen(g) + LenAlts(a) + 1, l2);
    if g.cap != 0 {
      HoldsTwo(code, q + 3, g.cap);
    }
    AltsHeld(code, q + HeadLen(g), a);
  }

  lemma {:induction false} AltsHeld(code: Code, p: nat, alts: Alts)
    requires Holds(code, p, EmitAlts(alts)) && WfAlts(alts) && LenAlts(alts) < 65536
    ensures AltsAt(code, p, alts)
    decreases alts, 2
  {
    hide EmitItems, LenItems, WfItems, Holds, ItemsAt, Two;
    if alts.Last? {
      ItemsHeld(code, p, alts.b);
      HeldBounds(code, p, EmitItems(alts.b));
    } else {
      var s0, s1, s2 := EmitItems(alts.b), [OP_ALT], Two(3 + LenItems(alts.rest.b));
      HoldsParts(code, p, s0 + s1 + s2, EmitAlts(alts.rest));
      HoldsParts(code, p, s0 + s1, s2);
      HoldsParts(code, p, s0, s1);
      ItemsHeld(code, p, alts.b);
      HoldsOne(code, p + LenItems(alts.b), OP_ALT);
      HoldsTwo(code, p + LenItems(alts.b) + 1, 3 + LenItems(alts.rest.b));
      AltsHeld(code, p + LenItems(alts.b) + 3, alts.rest);
      HeldBounds(code, p + LenItems(alts.b) + 3, EmitAlts(alts.rest));
    }
  }

  lemma HeldBounds(code: Code, p: nat, s: seq<byte>)
    requires Holds(code, p, s)
    ensures p + |s| <= |code|
  {
  }
}
