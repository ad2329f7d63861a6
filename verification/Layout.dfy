/** The bytes of the code vector: how a code tree is laid out with its 2-byte links, and what
    reading the vector at a position of the tree finds there. */
module Layout {
  import opened Tree

  const OP_END: byte := 0
  const OP_CHAR: byte := 28
  const OP_NOT: byte := 30
  const OP_STAR: byte := 31
  const OP_NOTSTAR: byte := 44
  const OP_TYPESTAR: byte := 57
  const OP_CRSTAR: byte := 70
  const OP_CRRANGE: byte := 76
  const OP_CRMINRANGE: byte := 77
  const OP_CLASS: byte := 78
  const OP_NCLASS: byte := 79
  const OP_ALT: byte := 84
  const OP_KET: byte := 85
  const OP_KETRMAX: byte := 86
  const OP_KETRMIN: byte := 87
  const OP_BRA: byte := 94
  const OP_CBRA: byte := 95
  const OP_SBRA: byte := 97
  const OP_SCBRA: byte := 98
  const OP_BRAZERO: byte := 103
  const OP_BRAMINZERO: byte := 104
  const OP_SKIPZERO: byte := 111

  const MAX_PATTERN_SIZE := 65536

  type Code = seq<byte>

  /** Big-endian 2-byte quantities: the GET and GET2 macros. */
  function Get2(code: Code, p: nat): nat
    requires p + 1 < |code|
  {
    var high: int := code[p];
    high * 256 + code[p + 1]
  }

  // ---------------------------------------------------------------------------------------
  // Lengths

  function LenSingle(x: Single): nat {
    match x
    case Chr(_) => 2
    case NotChr(_) => 2
    case Typ(_) => 1
    case Set(_, _) => 33
  }

  function LenMany(x: Single, r: Rep): nat {
    if x.Set? then 33 + (if r.Range? then 5 else 1)
    else if r.Upto? || r.Exact? then 4
    else 2
  }

  function LenItem(it: Item): (n: nat)
    ensures n > 0
    decreases it
  {
    match it
    case One(x) => LenSingle(x)
    case Many(x, r) => LenMany(x, r)
    case Group(z, g) => (if z == Once then 0 else 1) + LenGrp(g)
  }

  function HeadLen(g: Grp): nat {
    if g.cap == 0 then 3 else 5
  }

  function LenGrp(g: Grp): (n: nat)
    ensures n >= 6
    decreases g
  {
    HeadLen(g) + LenAlts(g.alts) + 3
  }

  function LenAlts(alts: Alts): (n: nat)
    ensures n >= LenItems(alts.b)
    decreases alts
  {
    match alts
    case Last(b) => LenItems(b)
    case More(b, rest) => LenItems(b) + 3 + LenAlts(rest)
  }

  function LenItems(items: Items): nat
    decreases items
  {
    match items case Nil => 0 case Cons(it, t) => LenItem(it) + LenItems(t)
  }

  // ---------------------------------------------------------------------------------------
  // Bytes

  /** The position of a repeat opcode in the block of opcodes that each kind of item has. */
  function RepIndex(r: Rep): (k: nat)
    ensures k < 13
  {
    match r
    case Star(m) => (match m case Greedy => 0 case Lazy => 1 case Poss => 9)
    case Plus(m) => (match m case Greedy => 2 case Lazy => 3 case Poss => 10)
    case Query(m) => (match m case Greedy => 4 case Lazy => 5 case Poss => 11)
    case Upto(_, m) => (match m case Greedy => 6 case Lazy => 7 case Poss => 12)
    case Exact(_) => 8
    case Range(_, _, m) => if m == Lazy then 7 else 6
  }

  function RepBase(x: Single): byte {
    match x
    case Chr(_) => OP_STAR
    case NotChr(_) => OP_NOTSTAR
    case Typ(_) => OP_TYPESTAR
    case Set(_, _) => OP_CRSTAR
  }

  predicate SingleAt(code: Code, p: nat, x: Single) {
    && p + LenSingle(x) <= |code|
    && match x
       case Chr(c) => code[p] == OP_CHAR && code[p + 1] == c
       case NotChr(c) => code[p] == OP_NOT && code[p + 1] == c
       case Typ(t) => code[p] == t
       case Set(neg, bits) => code[p] == (if neg then OP_NCLASS else OP_CLASS) && code[p + 1..p + 33] == bits
  }

  /** The character or type that a repeat opcode of a plain item carries as its last byte. */
  predicate OperandIs(x: Single, b: byte) {
    match x
    case Chr(c) => b == c
    case NotChr(c) => b == c
    case Typ(t) => b == t
    case Set(_, _) => false
  }

  predicate ManyAt(code: Code, p: nat, x: Single, r: Rep) {
    && p + LenMany(x, r) <= |code|
    && WfRep(x, r)
    && if x.Set? then
         && SingleAt(code, p, x)
         && code[p + 33] == OP_CRSTAR + RepIndex(r)
         && (r.Range? ==> Get2(code, p + 34) == r.lo && Get2(code, p + 36) == r.hi)
       else
         && code[p] == RepBase(x) + RepIndex(r)
         && OperandIs(x, code[p + LenMany(x, r) - 1])
         && (r.Upto? || r.Exact? ==> Get2(code, p + 1) == r.n)
  }

  predicate ZeroAt(code: Code, p: nat, z: Zero) {
    match z
    case Once => true
    case BraZero => p < |code| && code[p] == OP_BRAZERO
    case BraMinZero => p < |code| && code[p] == OP_BRAMINZERO
    case SkipZero => p < |code| && code[p] == OP_SKIPZERO
  }

  function BraOp(g: Grp): byte {
    if g.cap == 0 then (if g.s then OP_SBRA else OP_BRA) else (if g.s then OP_SCBRA else OP_CBRA)
  }

  function KetOp(k: Ket): byte {
    match k case Ket => OP_KET case KetRmax => OP_KETRMAX case KetRmin => OP_KETRMIN
  }

  predicate ItemAt(code: Code, p: nat, it: Item)
    decreases it
  {
    match it
    case One(x) => SingleAt(code, p, x)
    case Many(x, r) => ManyAt(code, p, x, r)
    case Group(z, g) => ZeroAt(code, p, z) && GrpAt(code, p + (if z == Once then 0 else 1), g)
  }

  /** Opening opcode with the link to the first alternative or the end, capture number, branches
      separated by linked ALTs, and the closing opcode with the distance back. */
  predicate GrpAt(code: Code, q: nat, g: Grp)
    decreases g
  {
    var ket := q + LenGrp(g) - 3;
    && ket + 3 <= |code|
    && code[q] == BraOp(g)
    && Get2(code, q + 1) == HeadLen(g) + LenItems(g.alts.b)
    && (g.cap != 0 ==> Get2(code, q + 3) == g.cap)
    && AltsAt(code, q + HeadLen(g), g.alts)
    && code[ket] == KetOp(g.ket)
    && Get2(code, ket + 1) == ket - q
  }

  predicate AltsAt(code: Code, p: nat, alts: Alts)
    decreases alts
  {
    var end := p + LenItems(alts.b);
    && p + LenAlts(alts) <= |code|
    && ItemsAt(code, p, alts.b)
    && (alts.More? ==> code[end] == OP_ALT && Get2(code, end + 1) == 3 + LenItems(alts.rest.b) && AltsAt(code, end + 3, alts.rest))
  }

  predicate ItemsAt(code: Code, p: nat, items: Items)
    decreases items
  {
    items.Cons? ==> ItemAt(code, p, items.head) && ItemsAt(code, p + LenItem(items.head), items.tail)
  }

  /** A whole compiled pattern. */
  predicate PatternAt(code: Code, g: Grp) {
    |code| == LenGrp(g) + 1 && GrpAt(code, 0, g) && code[|code| - 1] == OP_END
  }

  // ---------------------------------------------------------------------------------------
  // Code positions

  /** Whether p is the end of one of the branches that are laid out from `start`. */
  ghost predicate EndOf(p: nat, start: nat, alts: Alts)
    decreases alts
  {
    match alts
    case Last(b) => p == start + LenItems(b)
    case More(b, rest) => p == start + LenItems(b) || EndOf(p, start + LenItems(b) + 3, rest)
  }

  /** p is the end of a branch of the group that starts at q. */
  ghost predicate Inside(code: Code, p: nat, q: nat, g: Grp) {
    GrpAt(code, q, g) && EndOf(p, q + HeadLen(g), g.alts)
  }

  /** The bytes at p encode the rest of a branch, and what follows encodes the open brackets. */
  ghost predicate At(code: Code, p: nat, items: Items, ctx: Ctx)
    decreases ctx, items
  {
    match items
    case Cons(it, t) => ItemAt(code, p, it) && At(code, p + LenItem(it), t, ctx)
    case Nil =>
      match ctx
      case Top => p == |code| - 1 && code[p] == OP_END
      case In(g, rest, outer) => exists q: nat :: Inside(code, p, q, g) && At(code, q + LenGrp(g), rest, outer)
  }

  lemma {:induction false} AtIntro(code: Code, p: nat, items: Items, ctx: Ctx)
    requires ItemsAt(code, p, items) && At(code, p + LenItems(items), Nil, ctx)
    ensures At(code, p, items, ctx)
    decreases items
  {
    hide LenItem, ItemAt;
    if items.Cons? {
      AtIntro(code, p + LenItem(items.head), items.tail, ctx);
    }
  }

  /** The code of a whole pattern, seen from its first byte. */
  lemma {:induction false} AtPattern(code: Code, g: Grp)
    requires PatternAt(code, g)
    ensures At(code, 0, Cons(Group(Once, g), Nil), Top)
  {
    assert At(code, LenGrp(g), Nil, Top);
    assert ItemAt(code, 0, Group(Once, g));
  }

  lemma {:induction false} AtBounds(code: Code, p: nat, items: Items, ctx: Ctx)
    requires At(code, p, items, ctx)
    ensures p + LenItems(items) < |code|
    decreases ctx, items
  {
    hide LenItem, ItemAt, Inside, LenGrp;
    if items.Cons? {
      AtBounds(code, p + LenItem(items.head), items.tail, ctx);
    } else if ctx.In? {
      var q: nat :| Inside(code, p, q, ctx.g) && At(code, q + LenGrp(ctx.g), ctx.rest, ctx.outer);
      InsideEnd(code, p, q, ctx.g);
    }
  }

  lemma {:induction false} EndBounds(p: nat, start: nat, alts: Alts)
    requires EndOf(p, start, alts)
    ensures start <= p <= start + LenAlts(alts)
    decreases alts
  {
    if p != start + LenItems(alts.b) {
      EndBounds(p, start + LenItems(alts.b) + 3, alts.rest);
    }
  }

  lemma {:induction false} LastEnd(p: nat, start: nat, alts: Alts)
    requires p == start + LenAlts(alts)
    ensures EndOf(p, start, alts)
    decreases alts
  {
    hide LenItems;
    if alts.More? {
      var next := start + LenItems(alts.b) + 3;
      LastEnd(p, next, alts.rest);
    }
  }

  // ---------------------------------------------------------------------------------------
  // Following links

  /** A header (opening bracket or ALT) of length hl at h, whose branch and all later ones are
      `alts`, inside the group g at q. */
  ghost predicate Header(code: Code, h: nat, hl: nat, alts: Alts, g: Grp, q: nat) {
    && GrpAt(code, q, g)
    && q <= h && hl >= 3
    && h + hl + LenAlts(alts) == q + LenGrp(g) - 3
    && AltsAt(code, h + hl, alts)
    && Get2(code, h + 1) == hl + LenItems(alts.b)
    && PartOf(h + hl, alts, q + HeadLen(g), g.alts)
  }

  /** The branches `alts`, laid out from `start`, are among those laid out from `start'`. */
  ghost predicate PartOf(start: nat, alts: Alts, start': nat, alts': Alts) {
    && (forall p: nat :: EndOf(p, start, alts) ==> EndOf(p, start', alts'))
    && (forall b :: InAlts(b, alts) ==> InAlts(b, alts'))
  }

  lemma OpenGroup(code: Code, q: nat, g: Grp)
    requires GrpAt(code, q, g)
    ensures Header(code, q, HeadLen(g), g.alts, g, q)
  {
  }

  lemma {:induction false} PartRest(start: nat, alts: Alts, next: nat, start': nat, alts': Alts)
    requires alts.More? && PartOf(start, alts, start', alts') && next == start + LenItems(alts.b) + 3
    ensures PartOf(next, alts.rest, start', alts')
  {
    hide LenItems;
    forall p: nat | EndOf(p, next, alts.rest) ensures EndOf(p, start', alts') {
      assert EndOf(p, start, alts);
    }
  }

  lemma KetOfGrp(code: Code, p: nat, q: nat, g: Grp)
    requires GrpAt(code, q, g) && p == q + LenGrp(g) - 3
    ensures p + 2 < |code| && Get2(code, p + 1) == p - q && code[p] == KetOp(g.ket)
    ensures q + 5 < |code| && code[q] == BraOp(g) && (g.cap != 0 ==> Get2(code, q + 3) == g.cap)
  {
    hide AltsAt, LenItems;
  }

  /** Following the link of a header leads to the next header, or to the closing bracket after the last
      branch. */
  lemma {:induction false} NextHeader(code: Code, h: nat, hl: nat, alts: Alts, g: Grp, q: nat)
    requires Header(code, h, hl, alts, g, q)
    ensures q <= h < q + LenGrp(g) - 3 < |code| - 2
    ensures var h' := h + Get2(code, h + 1);
      && h < h' < |code| && h' == h + hl + LenItems(alts.b) && h' <= q + LenGrp(g) - 3
      && (alts.Last? ==> h' == q + LenGrp(g) - 3 && code[h'] == KetOp(g.ket))
      && (alts.More? ==> code[h'] == OP_ALT && h' < q + LenGrp(g) - 3 && Header(code, h', 3, alts.rest, g, q))
  {
    hide GrpAt, ItemsAt, LenItems, LenGrp, PartOf;
    KetOfGrp(code, q + LenGrp(g) - 3, q, g);
    if alts.More? {
      PartRest(h + hl, alts, h + hl + LenItems(alts.b) + 3, q + HeadLen(g), g.alts);
    }
  }

  /** After a header comes its branch. */
  lemma {:induction false} BranchAt(code: Code, h: nat, hl: nat, alts: Alts, g: Grp, q: nat, rest: Items, outer: Ctx)
    requires Header(code, h, hl, alts, g, q) && At(code, q + LenGrp(g), rest, outer)
    ensures At(code, h + hl, alts.b, In(g, rest, outer))
  {
    hide GrpAt, ItemsAt, LenItems, LenGrp, At, EndOf;
    FirstEnd(code, h, hl, alts, g, q);
    AtInside(code, h + hl + LenItems(alts.b), q, In(g, rest, outer));
    AtIntro(code, h + hl, alts.b, In(g, rest, outer));
  }

  lemma {:induction false} FirstEnd(code: Code, h: nat, hl: nat, alts: Alts, g: Grp, q: nat)
    requires Header(code, h, hl, alts, g, q)
    ensures Inside(code, h + hl + LenItems(alts.b), q, g)
  {
    hide GrpAt, AltsAt, LenItems, LenGrp;
    assert EndOf(h + hl + LenItems(alts.b), h + hl, alts);
  }

  /** The end of a branch is an ALT, whose link leads to the end of a later branch, or the closing bracket. */
  ghost predicate EndReads(code: Code, p: nat, q: nat, g: Grp, ket: nat) {
    && q <= p <= ket < |code| - 2
    && (p == ket ==> code[p] == KetOp(g.ket))
    && (p != ket ==> code[p] == OP_ALT && Get2(code, p + 1) > 0 && Inside(code, p + Get2(code, p + 1), q, g))
  }

  lemma {:induction false} BranchEnd(code: Code, h: nat, hl: nat, alts: Alts, g: Grp, q: nat, p: nat)
    requires Header(code, h, hl, alts, g, q) && EndOf(p, h + hl, alts)
    ensures EndReads(code, p, q, g, q + LenGrp(g) - 3)
    decreases alts
  {
    hide Header, LenGrp, LenItems, Inside;
    var h' := h + hl + LenItems(alts.b);
    NextHeader(code, h, hl, alts, g, q);
    if p != h' {
      BranchEnd(code, h', 3, alts.rest, g, q, p);
    } else if alts.More? {
      NextHeader(code, h', 3, alts.rest, g, q);
      FirstEnd(code, h', 3, alts.rest, g, q);
    }
  }

  lemma {:induction false} InsideEnd(code: Code, p: nat, q: nat, g: Grp)
    requires Inside(code, p, q, g)
    ensures EndReads(code, p, q, g, q + LenGrp(g) - 3)
  {
    hide GrpAt, EndOf, LenGrp;
    OpenGroup(code, q, g);
    BranchEnd(code, q, HeadLen(g), g.alts, g, q, p);
  }

  /** Following the links of ALTs from p ends at the byte k, which is not an ALT. */
  ghost predicate LeadsTo(code: Code, p: nat, k: nat)
    decreases |code| - p
  {
    && p < |code|
    && (code[p] != OP_ALT ==> p == k)
    && (code[p] == OP_ALT ==> p + 2 < |code| && Get2(code, p + 1) > 0 && LeadsTo(code, p + Get2(code, p + 1), k))
  }

  lemma LeadsIntro(code: Code, p: nat, k: nat)
    requires p <= k < |code| - 2
    requires p == k ==> code[p] != OP_ALT
    requires p != k ==> code[p] == OP_ALT && Get2(code, p + 1) > 0 && LeadsTo(code, p + Get2(code, p + 1), k)
    ensures LeadsTo(code, p, k)
  {
  }

  /** From the end of any branch the links lead to the closing bracket of the group. */
  lemma {:induction false} EndLeads(code: Code, p: nat, q: nat, g: Grp)
    requires Inside(code, p, q, g)
    ensures LeadsTo(code, p, q + LenGrp(g) - 3)
    decreases |code| - p
  {
    hide GrpAt, LenGrp, EndOf, LeadsTo;
    var k := q + LenGrp(g) - 3;
    InsideEnd(code, p, q, g);
    if p != k {
      EndLeads(code, p + Get2(code, p + 1), q, g);
    }
    LeadsIntro(code, p, k);
  }

  /** So they do from the link of the opening bracket. */
  lemma {:induction false} GroupLeads(code: Code, q: nat, g: Grp)
    requires GrpAt(code, q, g)
    ensures q + 2 < |code| && LeadsTo(code, q + Get2(code, q + 1), q + LenGrp(g) - 3)
  {
    hide AltsAt, LenAlts, LenItems, LeadsTo;
    EndLeads(code, q + Get2(code, q + 1), q, g);
  }

  /** Following the links, as both matchers do it. */
  method FollowLinks(code: Code, p: nat, ghost k: nat) returns (end: nat)
    requires LeadsTo(code, p, k)
    ensures end == k && p <= k < |code| && code[k] != OP_ALT
  {
    end := p;
    while code[end] == OP_ALT
      invariant p <= end && LeadsTo(code, end, k)
      decreases |code| - end
    {
      end := end + Get2(code, end + 1);
    }
  }

  lemma {:induction false} KetInside(code: Code, q: nat, g: Grp)
    requires GrpAt(code, q, g)
    ensures Inside(code, q + LenGrp(g) - 3, q, g)
  {
    hide GrpAt, LenAlts, LenItems, EndOf;
    LastEnd(q + LenGrp(g) - 3, q + HeadLen(g), g.alts);
  }

  lemma AtInside(code: Code, p: nat, q: nat, ctx: Ctx)
    requires ctx.In? && Inside(code, p, q, ctx.g) && At(code, q + LenGrp(ctx.g), ctx.rest, ctx.outer)
    ensures At(code, p, Nil, ctx)
  {
  }

  lemma InsideGrp(code: Code, p: nat, q: nat, g: Grp)
    requires Inside(code, p, q, g)
    ensures GrpAt(code, q, g)
  {
  }

  /** The group that a position at the end of a branch lies in. */
  lemma {:induction false} Enclosing(code: Code, p: nat, ctx: Ctx) returns (q: nat)
    requires At(code, p, Nil, ctx) && ctx.In?
    ensures Inside(code, p, q, ctx.g) && At(code, q + LenGrp(ctx.g), ctx.rest, ctx.outer)
  {
    q :| Inside(code, p, q, ctx.g) && At(code, q + LenGrp(ctx.g), ctx.rest, ctx.outer);
  }

  lemma {:induction false} KetAt(code: Code, p: nat, q: nat, ctx: Ctx)
    requires ctx.In? && Inside(code, p, q, ctx.g) && At(code, q + LenGrp(ctx.g), ctx.rest, ctx.outer)
    ensures LeadsTo(code, p, q + LenGrp(ctx.g) - 3)
    ensures At(code, q + LenGrp(ctx.g) - 3, Nil, ctx)
  {
    hide Inside, LeadsTo, LenGrp, At;
    InsideGrp(code, p, q, ctx.g);
    EndLeads(code, p, q, ctx.g);
    KetInside(code, q, ctx.g);
    AtInside(code, q + LenGrp(ctx.g) - 3, q, ctx);
  }

  // ---------------------------------------------------------------------------------------
  // What is found at a position of the tree

  /** Which opcodes are found at which positions of the tree. */
  lemma {:induction false} Shape(code: Code, p: nat, items: Items, ctx: Ctx)
    requires At(code, p, items, ctx) && p < |code|
    ensures var op := code[p];
      if items.Nil? then
        if ctx.Top? then op == OP_END else OP_ALT <= op <= OP_KETRMIN
      else match items.head
        case One(x) => if x.Set? then op == OP_CLASS || op == OP_NCLASS else op == OP_CHAR || op == OP_NOT || 6 <= op <= 13
        case Many(x, r) => if x.Set? then op == OP_CLASS || op == OP_NCLASS else OP_STAR <= op < OP_CRSTAR
        case Group(z, g) => if z == Once then op in {OP_BRA, OP_CBRA, OP_SBRA, OP_SCBRA} else op in {OP_BRAZERO, OP_BRAMINZERO, OP_SKIPZERO}
  {
    hide At, Inside, GrpAt, LenGrp;
    if items.Nil? {
      if ctx.In? {
        var q := Enclosing(code, p, ctx);
        InsideEnd(code, p, q, ctx.g);
      } else {
        AtTop(code, p);
      }
    } else if items.head.One? {
      OneBytes(code, p, items, ctx);
    } else if items.head.Many? {
      ManyBytes(code, p, items, ctx);
    } else if items.head.zero == Once {
      BraBytes(code, p, items.head.g, items.tail, ctx);
    } else {
      ZeroBytes(code, p, items, ctx);
    }
  }

  lemma AtTop(code: Code, p: nat)
    requires At(code, p, Nil, Top)
    ensures p == |code| - 1 && code[p] == OP_END
  {
  }

  /** The bytes of a closing bracket and of the opening bracket that it leads back to. */
  lemma {:induction false} KetBytes(code: Code, p: nat, ctx: Ctx)
    requires At(code, p, Nil, ctx) && ctx.In? && p < |code| && OP_KET <= code[p] <= OP_KETRMIN
    ensures p + 2 < |code| && Get2(code, p + 1) <= p && code[p] == KetOp(ctx.g.ket)
    ensures var q := p - Get2(code, p + 1);
      && q + 5 < |code| && code[q] == BraOp(ctx.g) && (ctx.g.cap != 0 ==> Get2(code, q + 3) == ctx.g.cap)
      && At(code, p + 3, ctx.rest, ctx.outer)
      && At(code, q, Cons(Group(Once, ctx.g), ctx.rest), ctx.outer)
  {
    hide At, Inside, GrpAt, LenGrp;
    var q := Enclosing(code, p, ctx);
    InsideEnd(code, p, q, ctx.g);
    InsideGrp(code, p, q, ctx.g);
    KetOfGrp(code, p, q, ctx.g);
    AtGroup(code, q, ctx.g, ctx.rest, ctx.outer);
  }

  lemma AtGroup(code: Code, q: nat, g: Grp, t: Items, ctx: Ctx)
    requires GrpAt(code, q, g) && At(code, q + LenGrp(g), t, ctx)
    ensures At(code, q, Cons(Group(Once, g), t), ctx)
  {
    hide GrpAt, LenGrp;
    assert ItemAt(code, q, Group(Once, g));
  }

  lemma ZeroBytes(code: Code, p: nat, items: Items, ctx: Ctx)
    requires At(code, p, items, ctx) && items.Cons? && items.head.Group? && items.head.zero != Once
    ensures p < |code| && ZeroAt(code, p, items.head.zero)
    ensures GrpAt(code, p + 1, items.head.g) && At(code, p + 1, Cons(Group(Once, items.head.g), items.tail), ctx)
    ensures At(code, p + 1 + LenGrp(items.head.g), items.tail, ctx)
  {
    hide GrpAt, LenGrp;
    assert ItemAt(code, p, items.head);
    AtGroup(code, p + 1, items.head.g, items.tail, ctx);
  }

  lemma BraBytes(code: Code, q: nat, g: Grp, t: Items, ctx: Ctx)
    requires At(code, q, Cons(Group(Once, g), t), ctx)
    ensures GrpAt(code, q, g) && At(code, q + LenGrp(g), t, ctx)
    ensures q + 5 < |code| && code[q] == BraOp(g) && (g.cap != 0 ==> Get2(code, q + 3) == g.cap)
  {
    hide GrpAt, LenGrp;
    assert ItemAt(code, q, Group(Once, g));
    KetOfGrp(code, q + LenGrp(g) - 3, q, g);
  }

  lemma BraHead(code: Code, q: nat, g: Grp)
    requires GrpAt(code, q, g)
    ensures q < |code| && code[q] == BraOp(g)
    ensures Header(code, q, if code[q] == OP_CBRA || code[q] == OP_SCBRA then 5 else 3, g.alts, g, q)
  {
    OpenGroup(code, q, g);
  }

  lemma OneBytes(code: Code, p: nat, items: Items, ctx: Ctx)
    requires At(code, p, items, ctx) && items.Cons? && items.head.One?
    ensures SingleAt(code, p, items.head.x) && At(code, p + LenSingle(items.head.x), items.tail, ctx)
  {
    assert ItemAt(code, p, items.head);
  }

  lemma ManyBytes(code: Code, p: nat, items: Items, ctx: Ctx)
    requires At(code, p, items, ctx) && items.Cons? && items.head.Many?
    ensures ManyAt(code, p, items.head.x, items.head.r)
    ensures At(code, p + LenMany(items.head.x, items.head.r), items.tail, ctx)
  {
    assert ItemAt(code, p, items.head);
  }

  /** After a class comes its repeat opcode, or the opcode of something else. */
  lemma {:induction false} ClassBytes(code: Code, p: nat, items: Items, ctx: Ctx)
    requires At(code, p, items, ctx) && items.Cons? && !items.head.Group? && items.head.x.Set?
    ensures p + 33 < |code| && items.head.x == Set(code[p] == OP_NCLASS, code[p + 1..p + 33])
    ensures items.head.Many? <==> OP_CRSTAR <= code[p + 33] <= OP_CRMINRANGE
    ensures items.head.Many? ==>
      ManyAt(code, p, items.head.x, items.head.r) && At(code, p + LenMany(items.head.x, items.head.r), items.tail, ctx)
    ensures items.head.One? ==> At(code, p + 33, items.tail, ctx)
  {
    hide At;
    if items.head.Many? {
      ManyBytes(code, p, items, ctx);
    } else {
      OneBytes(code, p, items, ctx);
      AtBounds(code, p + 33, items.tail, ctx);
      Shape(code, p + 33, items.tail, ctx);
    }
  }
}
