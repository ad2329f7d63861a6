/** Capture numbers: the n-th opening parenthesis of a pattern gets number n, its copies share it,
    and no bracket is inside another with the same number. */
module Numbering {
  import opened Tree
  import opened Regex
  import opened AutoPossess
  import opened Emptiness
  import opened Compile
  import opened Captures

  /** The capturing parentheses by number, if k have been opened before. */
  function Groups(alts: Choice, k: nat): map<nat, Choice>
    decreases alts, 0
  {
    match alts
    case Only(b) => GroupsBranch(b, k)
    case Or(b, more) => GroupsBranch(b, k) + Groups(more, k + ParensBranch(b))
  }

  function GroupsBranch(b: Branch, k: nat): map<nat, Choice>
    decreases b, 0
  {
    match b
    case Done => map[]
    case Then(p, rest) => GroupsPiece(p, k) + GroupsBranch(rest, k + Parens(p))
  }

  function GroupsPiece(p: Piece, k: nat): map<nat, Choice>
    decreases p, 0
  {
    match p
    case Byte(_, _, _) => map[]
    case Paren(capturing, alts, _) => if capturing then Groups(alts, k + 1)[k + 1 := alts] else Groups(alts, k)
  }

  /** The code of each. */
  function NamesOf(ct: CTypes, groups: map<nat, Choice>): Names {
    map n: nat | n in groups :: ChoiceAlts(ct, groups[n], n)
  }

  ghost predicate Range(groups: map<nat, Choice>, k: nat, n: nat) {
    forall i: nat :: i in groups <==> k < i <= k + n
  }

  /** The numbers are exactly those from 1 to the number of capturing parentheses. */
  lemma {:induction false} ChoiceRange(alts: Choice, k: nat)
    ensures Range(Groups(alts, k), k, ParensChoice(alts))
    decreases alts, 0
  {
    BranchRange(alts.b, k);
    if alts.Or? {
      ChoiceRange(alts.more, k + ParensBranch(alts.b));
    }
  }

  lemma {:induction false} BranchRange(b: Branch, k: nat)
    ensures Range(GroupsBranch(b, k), k, ParensBranch(b))
    decreases b, 0
  {
    if b.Then? {
      PieceRange(b.p, k);
      BranchRange(b.rest, k + Parens(b.p));
    }
  }

  lemma {:induction false} PieceRange(p: Piece, k: nat)
    ensures Range(GroupsPiece(p, k), k, Parens(p))
    decreases p, 0
  {
    if p.Paren? {
      ChoiceRange(p.alts, if p.capturing then k + 1 else k);
    }
  }

  /** Each numbered parenthesis is a well-formed part of the pattern. */
  lemma {:induction false} ChoiceParts(ct: CTypes, alts: Choice, k: nat, n: nat)
    requires WfChoice(alts) && SureChoice(ct, alts) && n in Groups(alts, k)
    ensures WfChoice(Groups(alts, k)[n]) && SureChoice(ct, Groups(alts, k)[n])
    decreases alts, 0
  {
    if n in GroupsBranch(alts.b, k) {
      BranchParts(ct, alts.b, k, n);
    }
    if alts.Or? && n in Groups(alts.more, k + ParensBranch(alts.b)) {
      ChoiceParts(ct, alts.more, k + ParensBranch(alts.b), n);
    }
  }

  lemma {:induction false} BranchParts(ct: CTypes, b: Branch, k: nat, n: nat)
    requires WfBranch(b) && SureBranch(ct, b) && n in GroupsBranch(b, k)
    ensures WfChoice(GroupsBranch(b, k)[n]) && SureChoice(ct, GroupsBranch(b, k)[n])
    decreases b, 0
  {
    if n in GroupsPiece(b.p, k) {
      var k' := if b.p.capturing then k + 1 else k;
      if n in Groups(b.p.alts, k') {
        ChoiceParts(ct, b.p.alts, k', n);
      }
    }
    if n in GroupsBranch(b.rest, k + Parens(b.p)) {
      BranchParts(ct, b.rest, k + Parens(b.p), n);
    }
  }

  // ---------------------------------------------------------------------------------------
  // Compiled code is numbered consistently

  ghost predicate Has(ct: CTypes, names: Names, groups: map<nat, Choice>) {
    forall n: nat :: n in groups ==> n in names && names[n] == ChoiceAlts(ct, groups[n], n)
  }

  ghost predicate Clear(open: set<nat>, k: nat, n: nat) {
    forall i: nat :: i in open ==> i <= k || i > k + n
  }

  lemma HasParts(ct: CTypes, names: Names, a: map<nat, Choice>, b: map<nat, Choice>, k: nat, n: nat, m: nat)
    requires Has(ct, names, a + b) && Range(a, k, n) && Range(b, k + n, m)
    ensures Has(ct, names, a) && Has(ct, names, b)
  {
    hide ChoiceAlts;
    forall i: nat | i in a ensures i in names && names[i] == ChoiceAlts(ct, a[i], i) {
      assert i in a + b && (a + b)[i] == a[i];
    }
    forall i: nat | i in b ensures i in names && names[i] == ChoiceAlts(ct, b[i], i) {
      assert i in a + b && (a + b)[i] == b[i];
    }
  }

  lemma {:induction false} ChoiceNamed(ct: CTypes, alts: Choice, k: nat, names: Names, open: set<nat>)
    requires Has(ct, names, Groups(alts, k)) && Clear(open, k, ParensChoice(alts))
    ensures NamedAlts(ChoiceAlts(ct, alts, k), names, open)
    decreases alts, 1
  {
    hide Has, BranchItems, NamedItems, GroupsBranch, ParensBranch;
    if alts.Only? {
      BranchNamed(ct, alts.b, k, names, open);
    } else {
      var k' := k + ParensBranch(alts.b);
      BranchRange(alts.b, k);
      ChoiceRange(alts.more, k');
      HasParts(ct, names, GroupsBranch(alts.b, k), Groups(alts.more, k'), k, ParensBranch(alts.b),
               ParensChoice(alts.more));
      BranchNamed(ct, alts.b, k, names, open);
      ChoiceNamed(ct, alts.more, k', names, open);
    }
  }

  lemma {:induction false} BranchNamed(ct: CTypes, b: Branch, k: nat, names: Names, open: set<nat>)
    requires Has(ct, names, GroupsBranch(b, k)) && Clear(open, k, ParensBranch(b))
    ensures NamedItems(BranchItems(ct, b, k), names, open)
    decreases b, 1
  {
    hide Has, PieceItems, NamedItem, GroupsPiece, Parens;
    if b.Then? {
      var k' := k + Parens(b.p);
      PieceRange(b.p, k);
      BranchRange(b.rest, k');
      HasParts(ct, names, GroupsPiece(b.p, k), GroupsBranch(b.rest, k'), k, Parens(b.p), ParensBranch(b.rest));
      PieceNamed(ct, b.p, b.rest, k, names, open);
      BranchNamed(ct, b.rest, k', names, open);
      AppendNamed(PieceItems(ct, b.p, b.rest, k), BranchItems(ct, b.rest, k'), names, open);
    }
  }

  lemma {:induction false} PieceNamed(ct: CTypes, p: Piece, rest: Branch, k: nat, names: Names, open: set<nat>)
    requires Has(ct, names, GroupsPiece(p, k)) && Clear(open, k, Parens(p))
    ensures NamedItems(PieceItems(ct, p, rest, k), names, open)
    decreases p, 1
  {
    hide ByteItems, GroupItems, Possessified, NamedItems, NamedGrp, ChoiceAlts;
    match p
    case Byte(x, _, q) => BytesNamed(x, Possessified(ct, x, q, rest), names, open);
    case Paren(capturing, alts, q) =>
      var g := ParenGrp(ct, capturing, alts, k);
      ParenNamed(ct, capturing, alts, k, names, open);
      ParenNamed(ct, capturing, alts, k, names, open + {0});
      GroupNamed(g, q, names, open);
  }

  lemma {:induction false} ParenNamed(ct: CTypes, capturing: bool, alts: Choice, k: nat, names: Names, open: set<nat>)
    requires Has(ct, names, GroupsPiece(Paren(capturing, alts, Plain), k))
    requires Clear(open, k, Parens(Paren(capturing, alts, Plain)))
    ensures NamedGrp(ParenGrp(ct, capturing, alts, k), names, open)
    decreases alts, 2
  {
    hide ChoiceAlts, NamedAlts;
    var k' := if capturing then k + 1 else k;
    ChoiceRange(alts, k');
    assert Has(ct, names, Groups(alts, k')) by {
      forall n: nat | n in Groups(alts, k') ensures n in names && names[n] == ChoiceAlts(ct, Groups(alts, k')[n], n) {
        assert n in GroupsPiece(Paren(capturing, alts, Plain), k);
      }
    }
    if capturing {
      assert k + 1 in GroupsPiece(Paren(capturing, alts, Plain), k);
    }
    ChoiceNamed(ct, alts, k', names, open + {if capturing then k + 1 else 0});
  }

  /** A repeated byte is compiled to at most two items, none of them a group. */
  lemma ByteShape(x: Single, q: Quant)
    ensures var items := ByteItems(x, q);
      items.Cons? ==> !items.head.Group? && (items.tail.Cons? ==> !items.tail.head.Group? && items.tail.tail.Nil?)
  {
  }

  lemma BytesNamed(x: Single, q: Quant, names: Names, open: set<nat>)
    ensures NamedItems(ByteItems(x, q), names, open)
  {
    hide ByteItems;
    ByteShape(x, q);
    var items := ByteItems(x, q);
    if items.Cons? && items.tail.Cons? {
      assert NamedItem(items.tail.head, names, open) && NamedItems(items.tail.tail, names, open);
    }
  }

  lemma {:induction false} AppendNamed(a: Items, b: Items, names: Names, open: set<nat>)
    requires NamedItems(a, names, open) && NamedItems(b, names, open)
    ensures NamedItems(Append(a, b), names, open)
  {
    hide NamedItem;
    if a.Cons? {
      AppendNamed(a.tail, b, names, open);
    }
  }

  lemma {:induction false} GroupNamed(g: Grp, q: Quant, names: Names, open: set<nat>)
    requires NamedGrp(g, names, open) && NamedGrp(g, names, open + {0})
    ensures NamedItems(GroupItems(g, q), names, open)
  {
    hide NamedGrp, AnyLooksEmpty;
    match q
    case Plain =>
    case Quant(lo, Max(hi), m, _) =>
      var z := if m == Lazy then BraMinZero else BraZero;
      if 0 < hi && lo <= hi {
        OptionalNamed(z, g, hi - lo, names, open);
        CopiesNamed(g, lo, Optional(z, g, hi - lo), names, open);
      }
    case Quant(lo, NoMax, m, _) =>
      LoopNamed(g, m, names, open);
      if lo > 0 {
        CopiesNamed(g, lo - 1, Cons(Group(Once, Loop(g, m)), Nil), names, open);
      }
  }

  lemma LoopNamed(g: Grp, m: Mode, names: Names, open: set<nat>)
    requires NamedGrp(g, names, open)
    ensures NamedGrp(Loop(g, m), names, open)
  {
    hide NamedAlts, AnyLooksEmpty;
  }

  lemma {:induction false} CopiesNamed(g: Grp, n: nat, tail: Items, names: Names, open: set<nat>)
    requires NamedGrp(g, names, open) && NamedItems(tail, names, open)
    ensures NamedItems(Copies(g, n, tail), names, open)
  {
    hide NamedGrp;
    if n > 0 {
      CopiesNamed(g, n - 1, tail, names, open);
    }
  }

  lemma {:induction false} OptionalNamed(z: Zero, g: Grp, n: nat, names: Names, open: set<nat>)
    requires NamedGrp(g, names, open) && NamedGrp(g, names, open + {0})
    ensures NamedItems(Optional(z, g, n), names, open)
    decreases n
  {
    if n > 1 {
      assert open + {0} + {0} == open + {0};
      OptionalNamed(z, g, n - 1, names, open + {0});
      var b := Cons(Group(Once, g), Optional(z, g, n - 1));
      NestNamed(g, b, names, open);
      assert NamedItem(Group(z, Grp(false, 0, Last(b), Ket)), names, open);
    }
  }

  lemma NestNamed(g: Grp, b: Items, names: Names, open: set<nat>)
    requires NamedGrp(g, names, open + {0}) && b.Cons? && b.head == Group(Once, g)
    requires NamedItems(b.tail, names, open + {0})
    ensures NamedGrp(Grp(false, 0, Last(b), Ket), names, open)
  {
    assert NamedItem(b.head, names, open + {0});
    assert NamedItems(b, names, open + {0});
    assert NamedAlts(Last(b), names, open + {0});
  }
}
