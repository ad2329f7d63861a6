/** The length that the pre-compile phase accumulates, and the proof that it is enough for the
    code of the real compile phase. */
module Sizing {
  import opened Tree
  import opened Layout
  import opened Regex
  import opened AutoPossess
  import opened Compile

  /** What a quantifier makes of a group of length len: the formulas that the pre-compile phase
      uses instead of replicating. */
  function Replicated(len: nat, q: Quant): nat {
    match q
    case Plain => len
    case Quant(lo, Max(hi), _, _) =>
      if lo == 0 then
        if hi <= 1 then len + 1 else len + 4 + 3 + ((hi - 1) * (len + 7) - 6)
      else len + (lo - 1) * len + (if hi > lo then (hi - lo) * (len + 7) - 6 else 0)
    case Quant(lo, NoMax, _, _) => if lo == 0 then len + 1 else len + (lo - 1) * len
  }

  /** An item is written before its quantifier is seen, and the length is never reduced. */
  function NeededPiece(p: Piece): nat
    decreases p, 0
  {
    match p
    case Byte(x, _, q) =>
      var item, all := LenSingle(x), LenItems(ByteItems(x, q));
      item + (if all > item then all - item else 0)
    case Paren(capturing, alts, q) => Replicated(NeededGroup(capturing, alts), q)
  }

  function NeededGroup(capturing: bool, alts: Choice): nat
    decreases alts, 1
  {
    6 + (if capturing then 2 else 0) + NeededChoice(alts)
  }

  function NeededBranch(b: Branch): nat
    decreases b, 0
  {
    match b case Done => 0 case Then(p, rest) => NeededPiece(p) + NeededBranch(rest)
  }

  function NeededChoice(alts: Choice): nat
    decreases alts, 0
  {
    match alts case Only(b) => NeededBranch(b) case Or(b, more) => NeededBranch(b) + 3 + NeededChoice(more)
  }

  // ---------------------------------------------------------------------------------------
  // The formulas are the lengths of the replicated code

  lemma {:induction false} CopiesLength(g: Grp, n: nat, tail: Items)
    ensures LenItems(Copies(g, n, tail)) == n * LenGrp(g) + LenItems(tail)
    decreases n
  {
    hide LenGrp;
    if n > 0 {
      CopiesLength(g, n - 1, tail);
      assert LenItem(Group(Once, g)) == LenGrp(g);
      OneMore(n - 1, LenGrp(g));
    }
  }

  lemma OneMore(n: nat, len: nat)
    ensures (n + 1) * len == len + n * len
  {
  }

  /** n nested optional copies. */
  lemma {:induction false} OptionalLength(z: Zero, g: Grp, n: nat)
    requires z == BraZero || z == BraMinZero
    ensures LenItems(Optional(z, g, n)) == if n == 0 then 0 else n * (LenGrp(g) + 7) - 6
    decreases n
  {
    hide LenGrp, LenItems, Optional;
    OptionalStep(z, g, n);
    if n > 1 {
      OptionalLength(z, g, n - 1);
      OneMore(n - 1, LenGrp(g) + 7);
    }
  }

  lemma OptionalStep(z: Zero, g: Grp, n: nat)
    requires z == BraZero || z == BraMinZero
    ensures LenItems(Optional(z, g, n)) ==
      if n == 0 then 0 else if n == 1 then LenGrp(g) + 1 else LenGrp(g) + 7 + LenItems(Optional(z, g, n - 1))
  {
    if n == 1 {
      assert LenItem(Group(z, g)) == LenGrp(g) + 1;
    } else if n > 1 {
      var inner := Cons(Group(Once, g), Optional(z, g, n - 1));
      assert LenItems(inner) == LenGrp(g) + LenItems(Optional(z, g, n - 1));
      var nest := Grp(false, 0, Last(inner), Ket);
      assert LenGrp(nest) == 6 + LenItems(inner);
      assert LenItem(Group(z, nest)) == 1 + LenGrp(nest);
    }
  }

  lemma LoopLength(g: Grp, m: Mode)
    ensures LenGrp(Loop(g, m)) == LenGrp(g)
  {
    hide LenAlts;
  }

  /** The closed formulas equal the number of bytes that the replication emits. */
  lemma {:induction false} ReplicatedExact(g: Grp, q: Quant)
    requires WfQuant(q)
    ensures LenItems(GroupItems(g, q)) == Replicated(LenGrp(g), q)
  {
    hide LenGrp, Copies, Optional, Loop;
    match q
    case Plain =>
      assert LenItem(Group(Once, g)) == LenGrp(g);
    case Quant(lo, Max(hi), m, _) =>
      var z := if m == Lazy then BraMinZero else BraZero;
      if hi == 0 {
        assert LenItem(Group(SkipZero, g)) == LenGrp(g) + 1;
      } else {
        LimitedExact(z, g, q);
      }
    case Quant(lo, NoMax, m, _) =>
      LoopLength(g, m);
      assert LenItem(Group(Once, Loop(g, m))) == LenGrp(g);
      if lo > 0 {
        CopiesLength(g, lo - 1, Cons(Group(Once, Loop(g, m)), Nil));
      }
  }

  lemma LimitedExact(z: Zero, g: Grp, q: Quant)
    requires (z == BraZero || z == BraMinZero) && q.Quant? && q.hi.Max? && q.hi.n > 0 && q.lo <= q.hi.n
    ensures LenItems(Copies(g, q.lo, Optional(z, g, q.hi.n - q.lo))) == Replicated(LenGrp(g), q)
  {
    hide LenGrp, Copies, Optional, LenItems, Replicated;
    OptionalLength(z, g, q.hi.n - q.lo);
    CopiesLength(g, q.lo, Optional(z, g, q.hi.n - q.lo));
    Limited(LenGrp(g), q);
  }

  lemma Limited(len: nat, q: Quant)
    requires q.Quant? && q.hi.Max? && q.hi.n > 0 && q.lo <= q.hi.n
    ensures Replicated(len, q) == q.lo * len + (if q.hi.n == q.lo then 0 else (q.hi.n - q.lo) * (len + 7) - 6)
  {
    if q.lo == 0 {
      OneMore(q.hi.n - 1, len + 7);
    } else {
      OneMore(q.lo - 1, len);
    }
  }

  lemma {:induction false} ReplicatedMono(a: nat, b: nat, q: Quant)
    requires a <= b && WfQuant(q)
    ensures a <= Replicated(a, q) <= Replicated(b, q)
  {
    match q
    case Plain =>
    case Quant(lo, Max(hi), _, _) =>
      if lo == 0 {
        if hi > 1 {
          TimesMono(hi - 1, a + 7, b + 7);
        }
      } else {
        TimesMono(lo - 1, a, b);
        if hi > lo {
          TimesMono(hi - lo, a + 7, b + 7);
        }
      }
    case Quant(lo, NoMax, _, _) =>
      if lo > 0 {
        TimesMono(lo - 1, a, b);
      }
  }

  lemma TimesMono(n: nat, a: nat, b: nat)
    requires a <= b
    ensures 0 <= n * a <= n * b && (n >= 1 ==> a <= n * a)
  {
  }

  // ---------------------------------------------------------------------------------------
  // The accumulated length is enough

  lemma PossessifiedLength(ct: CTypes, x: Single, q: Quant, rest: Branch)
    ensures LenItems(ByteItems(x, Possessified(ct, x, q, rest))) == LenItems(ByteItems(x, q))
  {
    hide CheckAuto;
    if q.Quant? && q.hi.NoMax? && !x.Set? {
      UnlimitedLength(x, q.lo, q.mode);
      UnlimitedLength(x, q.lo, Poss);
    }
  }

  lemma UnlimitedLength(x: Single, lo: nat, m: Mode)
    requires !x.Set?
    ensures LenItems(PlainItems(x, lo, NoMax, m)) == if lo <= 1 then 2 else 6
  {
    if lo > 1 {
      assert LenItems(Cons(Many(x, Star(m)), Nil)) == 2;
    }
  }

  lemma {:induction false} AppendLength(a: Items, b: Items)
    ensures LenItems(Append(a, b)) == LenItems(a) + LenItems(b)
  {
    hide LenItem;
    if a.Cons? {
      AppendLength(a.tail, b);
    }
  }

  /** No single byte is repeated zero times at most: then nothing that is written is dropped again. */
  predicate NoDrops(p: Piece)
    decreases p
  {
    match p
    case Byte(_, _, q) => !(q.Quant? && q.hi == Max(0))
    case Paren(_, alts, _) => NoDropsChoice(alts)
  }

  predicate NoDropsBranch(b: Branch)
    decreases b
  {
    match b case Done => true case Then(p, rest) => NoDrops(p) && NoDropsBranch(rest)
  }

  predicate NoDropsChoice(alts: Choice)
    decreases alts
  {
    match alts case Only(b) => NoDropsBranch(b) case Or(b, more) => NoDropsBranch(b) && NoDropsChoice(more)
  }

  lemma ByteLength(x: Single, q: Quant)
    requires WfQuant(q)
    ensures !(q.Quant? && q.hi == Max(0)) ==> LenItems(ByteItems(x, q)) >= LenSingle(x)
  {
    var items := ByteItems(x, q);
    assert items.Cons? ==> LenItems(items) >= LenItem(items.head);
  }

  lemma {:induction false} PieceFits(ct: CTypes, p: Piece, rest: Branch, k: nat)
    requires WfPiece(p)
    ensures LenItems(PieceItems(ct, p, rest, k)) <= NeededPiece(p)
    ensures NoDrops(p) ==> LenItems(PieceItems(ct, p, rest, k)) == NeededPiece(p)
    decreases p, 1
  {
    hide LenItems, GroupItems, ByteItems, LenGrp, Possessified, LenSingle;
    match p
    case Byte(x, _, q) =>
      PossessifiedLength(ct, x, q, rest);
      ByteLength(x, q);
    case Paren(capturing, alts, q) =>
      var g := ParenGrp(ct, capturing, alts, k);
      GroupFits(ct, capturing, alts, k);
      ReplicatedExact(g, q);
      ReplicatedMono(LenGrp(g), NeededGroup(capturing, alts), q);
  }

  lemma {:induction false} GroupFits(ct: CTypes, capturing: bool, alts: Choice, k: nat)
    requires WfChoice(alts)
    ensures LenGrp(ParenGrp(ct, capturing, alts, k)) <= NeededGroup(capturing, alts)
    ensures NoDropsChoice(alts) ==> LenGrp(ParenGrp(ct, capturing, alts, k)) == NeededGroup(capturing, alts)
    decreases alts, 3
  {
    hide LenAlts, NeededChoice, ChoiceAlts;
    ChoiceFits(ct, alts, if capturing then k + 1 else k);
  }

  lemma {:induction false} BranchFits(ct: CTypes, b: Branch, k: nat)
    requires WfBranch(b)
    ensures LenItems(BranchItems(ct, b, k)) <= NeededBranch(b)
    ensures NoDropsBranch(b) ==> LenItems(BranchItems(ct, b, k)) == NeededBranch(b)
    decreases b, 2
  {
    hide NeededPiece, PieceItems, NoDrops;
    if b.Then? {
      PieceFits(ct, b.p, b.rest, k);
      BranchFits(ct, b.rest, k + Parens(b.p));
      AppendLength(PieceItems(ct, b.p, b.rest, k), BranchItems(ct, b.rest, k + Parens(b.p)));
    }
  }

  /** For every pattern the length of the first pass is at least that of the code, and equal to it if
      nothing is dropped. */
  lemma {:induction false} ChoiceFits(ct: CTypes, alts: Choice, k: nat)
    requires WfChoice(alts)
    ensures LenAlts(ChoiceAlts(ct, alts, k)) <= NeededChoice(alts)
    ensures NoDropsChoice(alts) ==> LenAlts(ChoiceAlts(ct, alts, k)) == NeededChoice(alts)
    decreases alts, 2
  {
    hide LenItems, BranchItems, NeededBranch, NoDropsBranch;
    BranchFits(ct, alts.b, k);
    if alts.Or? {
      ChoiceFits(ct, alts.more, k + ParensBranch(alts.b));
    }
  }
}
