/** The numbers of the capturing brackets: in a pattern they follow the order of the opening
    parentheses, and in compiled code, read from the front, each is a known one or the next one. */
module Brackets {
  import opened Tree
  import opened Layout
  import opened Regex
  import opened Emptiness
  import opened Compile
  import opened AutoPossess
  import opened Numbering

  // ---------------------------------------------------------------------------------------
  // In the pattern

  /** The capturing parentheses in the order in which they are opened: a parenthesis before what it contains,
      and what is to the left before what is to the right. */
  function Opened(alts: Choice): seq<Choice>
    decreases alts, 0
  {
    match alts case Only(b) => OpenedBranch(b) case Or(b, more) => OpenedBranch(b) + Opened(more)
  }

  function OpenedBranch(b: Branch): seq<Choice>
    decreases b, 0
  {
    match b case Done => [] case Then(p, rest) => OpenedPiece(p) + OpenedBranch(rest)
  }

  function OpenedPiece(p: Piece): seq<Choice>
    decreases p, 0
  {
    match p
    case Byte(_, _, _) => []
    case Paren(capturing, alts, _) => (if capturing then [alts] else []) + Opened(alts)
  }

  /** The numbers after k belong to the parentheses of the list, one after the other. */
  ghost predicate Listed(groups: map<nat, Choice>, k: nat, list: seq<Choice>) {
    && (forall n: nat :: n in groups <==> k < n <= k + |list|)
    && forall n: nat :: k < n <= k + |list| ==> groups[n] == list[n - k - 1]
  }

  lemma ListedJoin(a: map<nat, Choice>, b: map<nat, Choice>, k: nat, u: seq<Choice>, v: seq<Choice>)
    requires Listed(a, k, u) && Listed(b, k + |u|, v)
    ensures Listed(a + b, k, u + v)
  {
    forall n: nat | k < n <= k + |u + v| ensures n in a + b && (a + b)[n] == (u + v)[n - k - 1] {
      assert n in b <==> n > k + |u|;
    }
  }

  lemma {:induction false} ChoiceListed(alts: Choice, k: nat)
    ensures Listed(Groups(alts, k), k, Opened(alts)) && |Opened(alts)| == ParensChoice(alts)
    decreases alts, 0
  {
    hide Listed, GroupsBranch, OpenedBranch;
    BranchListed(alts.b, k);
    if alts.Or? {
      var k' := k + ParensBranch(alts.b);
      ChoiceListed(alts.more, k');
      ListedJoin(GroupsBranch(alts.b, k), Groups(alts.more, k'), k, OpenedBranch(alts.b), Opened(alts.more));
    }
  }

  lemma ListedNone(k: nat)
    ensures Listed(map[], k, [])
  {
  }

  lemma ListedNext(groups: map<nat, Choice>, k: nat, alts: Choice, list: seq<Choice>)
    requires Listed(groups, k + 1, list)
    ensures Listed(groups[k + 1 := alts], k, [alts] + list)
  {
    var all, s := groups[k + 1 := alts], [alts] + list;
    forall n: nat | k < n <= k + |s| ensures n in all && all[n] == s[n - k - 1] {
      assert n in groups <==> n > k + 1;
    }
  }

  lemma {:induction false} BranchListed(b: Branch, k: nat)
    ensures Listed(GroupsBranch(b, k), k, OpenedBranch(b)) && |OpenedBranch(b)| == ParensBranch(b)
    decreases b, 0
  {
    hide Listed, GroupsPiece, OpenedPiece, Parens;
    ListedNone(k);
    if b.Then? {
      var k' := k + Parens(b.p);
      PieceListed(b.p, k);
      BranchListed(b.rest, k');
      ListedJoin(GroupsPiece(b.p, k), GroupsBranch(b.rest, k'), k, OpenedPiece(b.p), OpenedBranch(b.rest));
    }
  }

  lemma {:induction false} PieceListed(p: Piece, k: nat)
    ensures Listed(GroupsPiece(p, k), k, OpenedPiece(p)) && |OpenedPiece(p)| == Parens(p)
    decreases p, 0
  {
    hide Listed, Groups, Opened, ParensChoice;
    ListedNone(k);
    if p.Paren? {
      ChoiceListed(p.alts, if p.capturing then k + 1 else k);
      if p.capturing {
        ListedNext(Groups(p.alts, k + 1), k, p.alts, Opened(p.alts));
      } else {
        assert [] + Opened(p.alts) == Opened(p.alts);
      }
    }
  }

  // ---------------------------------------------------------------------------------------
  // In the code

  function CapsItems(items: Items): seq<nat>
    decreases items
  {
    match items
    case Nil => []
    case Cons(it, t) => (if it.Group? then CapsGrp(it.g) else []) + CapsItems(t)
  }

  function CapsGrp(g: Grp): seq<nat>
    decreases g
  {
    (if g.cap == 0 then [] else [g.cap]) + CapsAlts(g.alts)
  }

  function CapsAlts(alts: Alts): seq<nat>
    decreases alts
  {
    match alts case Last(b) => CapsItems(b) case More(b, rest) => CapsItems(b) + CapsAlts(rest)
  }

  /** The numbers in the bytes of a group, from the front. */
  ghost function ReadGrp(code: Code, q: nat, g: Grp): seq<nat>
    requires GrpAt(code, q, g)
    decreases g
  {
    (if code[q] == OP_CBRA || code[q] == OP_SCBRA then [Get2(code, q + 3)] else []) + ReadAlts(code, q + HeadLen(g), g.alts)
  }

  ghost function ReadAlts(code: Code, p: nat, alts: Alts): seq<nat>
    requires AltsAt(code, p, alts)
    decreases alts
  {
    match alts
    case Last(b) => ReadItems(code, p, b)
    case More(b, rest) => ReadItems(code, p, b) + ReadAlts(code, p + LenItems(b) + 3, rest)
  }

  ghost function ReadItems(code: Code, p: nat, items: Items): seq<nat>
    requires ItemsAt(code, p, items)
    decreases items
  {
    match items
    case Nil => []
    case Cons(it, t) =>
      assert ItemAt(code, p, it);
      (if it.Group? then ReadGrp(code, p + (if it.zero == Once then 0 else 1), it.g) else []) + ReadItems(code, p + LenItem(it), t)
  }

  lemma {:induction false} ReadGrpCaps(code: Code, q: nat, g: Grp)
    requires GrpAt(code, q, g)
    ensures ReadGrp(code, q, g) == CapsGrp(g)
    decreases g
  {
    hide AltsAt, LenItems, LenAlts;
    ReadAltsCaps(code, q + HeadLen(g), g.alts);
  }

  lemma {:induction false} ReadAltsCaps(code: Code, p: nat, alts: Alts)
    requires AltsAt(code, p, alts)
    ensures ReadAlts(code, p, alts) == CapsAlts(alts)
    decreases alts
  {
    ReadItemsCaps(code, p, alts.b);
    if alts.More? {
      ReadAltsCaps(code, p + LenItems(alts.b) + 3, alts.rest);
    }
  }

  lemma {:induction false} ReadItemsCaps(code: Code, p: nat, items: Items)
    requires ItemsAt(code, p, items)
    ensures ReadItems(code, p, items) == CapsItems(items)
    decreases items
  {
    if items.Cons? {
      assert ItemAt(code, p, items.head);
      if items.head.Group? {
        ReadGrpCaps(code, p + (if items.head.zero == Once then 0 else 1), items.head.g);
      }
      ReadItemsCaps(code, p + LenItem(items.head), items.tail);
    }
  }

  /** Where the numbers up to k have occurred, each number is one that has occurred or the next one. */
  predicate InStep(s: seq<nat>, k: nat)
    decreases |s|
  {
    s == [] || (1 <= s[0] <= k + 1 && InStep(s[1..], Later(s[0], k)))
  }

  function Later(n: nat, k: nat): nat {
    if n > k then n else k
  }

  /** The greatest number that has occurred then. */
  function Greatest(s: seq<nat>, k: nat): nat
    decreases |s|
  {
    if s == [] then k else Greatest(s[1..], Later(s[0], k))
  }

  lemma {:induction false} StepAppend(a: seq<nat>, b: seq<nat>, k: nat)
    requires InStep(a, k) && InStep(b, Greatest(a, k))
    ensures InStep(a + b, k) && Greatest(a + b, k) == Greatest(b, Greatest(a, k))
    decreases |a|
  {
    if a == [] {
      assert a + b == b;
    } else {
      assert (a + b)[1..] == a[1..] + b;
      StepAppend(a[1..], b, Later(a[0], k));
    }
  }

  lemma {:induction false} StepBound(s: seq<nat>, k: nat)
    requires InStep(s, k)
    ensures k <= Greatest(s, k) && forall x :: x in s ==> 1 <= x <= Greatest(s, k)
    decreases |s|
  {
    if s != [] {
      StepBound(s[1..], Later(s[0], k));
      assert forall x :: x in s ==> x == s[0] || x in s[1..];
    }
  }

  lemma {:induction false} StepKnown(s: seq<nat>, k: nat)
    requires forall x :: x in s ==> 1 <= x <= k
    ensures InStep(s, k) && Greatest(s, k) == k
    decreases |s|
  {
    if s != [] {
      assert s[0] in s && forall x :: x in s[1..] ==> x in s;
      StepKnown(s[1..], k);
    }
  }

  ghost predicate Numbered(s: seq<nat>, k: nat, n: nat) {
    InStep(s, k) && Greatest(s, k) == k + n
  }

  lemma NumberedAppend(a: seq<nat>, b: seq<nat>, k: nat, m: nat, n: nat)
    requires Numbered(a, k, m) && Numbered(b, k + m, n)
    ensures Numbered(a + b, k, m + n)
  {
    StepAppend(a, b, k);
  }

  /** Copies bring no new numbers. */
  function Repeated(s: seq<nat>, m: nat): seq<nat> {
    if m == 0 then [] else s + Repeated(s, m - 1)
  }

  lemma {:induction false} NumberedRepeated(s: seq<nat>, m: nat, k: nat, n: nat)
    requires Numbered(s, k, n) && m > 0
    ensures Numbered(Repeated(s, m), k, n)
  {
    StepBound(s, k);
    RepeatedIn(s, m - 1);
    StepKnown(Repeated(s, m - 1), k + n);
    NumberedAppend(s, Repeated(s, m - 1), k, n, 0);
  }

  lemma {:induction false} RepeatedIn(s: seq<nat>, m: nat)
    ensures forall x :: x in Repeated(s, m) ==> x in s
  {
    if m > 0 {
      RepeatedIn(s, m - 1);
    }
  }

  lemma {:induction false} RepeatedJoin(s: seq<nat>, m: nat, n: nat)
    ensures Repeated(s, m + n) == Repeated(s, m) + Repeated(s, n)
  {
    if m > 0 {
      RepeatedJoin(s, m - 1, n);
    }
  }

  lemma RepeatedOne(s: seq<nat>)
    ensures Repeated(s, 1) == s
  {
    assert Repeated(s, 1) == s + Repeated(s, 0);
  }

  lemma {:induction false} AppendCaps(a: Items, b: Items)
    ensures CapsItems(Append(a, b)) == CapsItems(a) + CapsItems(b)
  {
    hide CapsGrp;
    if a.Cons? {
      AppendCaps(a.tail, b);
    }
  }

  lemma {:induction false} CopiesCaps(g: Grp, n: nat, t: Items)
    ensures CapsItems(Copies(g, n, t)) == Repeated(CapsGrp(g), n) + CapsItems(t)
  {
    hide CapsGrp;
    if n > 0 {
      CopiesCaps(g, n - 1, t);
    }
  }

  lemma OneCaps(z: Zero, g: Grp, t: Items)
    ensures CapsItems(Cons(Group(z, g), t)) == CapsGrp(g) + CapsItems(t) && CapsItems(Nil) == []
  {
    hide CapsGrp;
  }

  lemma {:induction false} OptionalCaps(z: Zero, g: Grp, n: nat)
    ensures CapsItems(Optional(z, g, n)) == Repeated(CapsGrp(g), n)
  {
    hide CapsGrp, CapsItems;
    if n == 0 {
      OneCaps(z, g, Nil);
    } else if n == 1 {
      OneCaps(z, g, Nil);
      RepeatedOne(CapsGrp(g));
    } else {
      OptionalCaps(z, g, n - 1);
      var inner := Cons(Group(Once, g), Optional(z, g, n - 1));
      OneCaps(Once, g, Optional(z, g, n - 1));
      OneCaps(z, Grp(false, 0, Last(inner), Ket), Nil);
      PlainCaps(inner);
    }
  }

  lemma PlainCaps(b: Items)
    ensures CapsGrp(Grp(false, 0, Last(b), Ket)) == CapsItems(b)
  {
    hide CapsItems;
  }

  lemma LoopCaps(g: Grp, m: Mode)
    ensures CapsGrp(Loop(g, m)) == CapsGrp(g)
  {
    hide AnyLooksEmpty;
  }

  /** A quantified group has at least one copy. */
  lemma {:induction false} GroupCaps(g: Grp, q: Quant) returns (m: nat)
    requires WfQuant(q)
    ensures m > 0 && CapsItems(GroupItems(g, q)) == Repeated(CapsGrp(g), m)
  {
    hide CapsGrp, CapsItems, Copies, Optional, Loop, Repeated;
    var s := CapsGrp(g);
    RepeatedOne(s);
    OneCaps(Once, g, Nil);
    m := 1;
    match q
    case Plain =>
    case Quant(lo, Max(hi), mode, _) =>
      if hi == 0 {
        OneCaps(SkipZero, g, Nil);
      } else {
        var z := if mode == Lazy then BraMinZero else BraZero;
        OptionalCaps(z, g, hi - lo);
        CopiesCaps(g, lo, Optional(z, g, hi - lo));
        RepeatedJoin(s, lo, hi - lo);
        m := hi;
      }
    case Quant(lo, NoMax, mode, _) =>
      LoopCaps(g, mode);
      if lo == 0 {
        OneCaps(if mode == Lazy then BraMinZero else BraZero, Loop(g, mode), Nil);
      } else {
        OneCaps(Once, Loop(g, mode), Nil);
        CopiesCaps(g, lo - 1, Cons(Group(Once, Loop(g, mode)), Nil));
        RepeatedJoin(s, lo - 1, 1);
        m := lo;
      }
  }

  lemma {:induction false} ChoiceNumbered(ct: CTypes, alts: Choice, k: nat)
    requires WfChoice(alts)
    ensures Numbered(CapsAlts(ChoiceAlts(ct, alts, k)), k, ParensChoice(alts))
    decreases alts, 0
  {
    hide CapsItems, BranchItems, WfBranch, Numbered;
    BranchNumbered(ct, alts.b, k);
    if alts.Or? {
      ChoiceNumbered(ct, alts.more, k + ParensBranch(alts.b));
      NumberedAppend(CapsItems(BranchItems(ct, alts.b, k)), CapsAlts(ChoiceAlts(ct, alts.more, k + ParensBranch(alts.b))),
                     k, ParensBranch(alts.b), ParensChoice(alts.more));
    }
  }

  lemma {:induction false} BranchNumbered(ct: CTypes, b: Branch, k: nat)
    requires WfBranch(b)
    ensures Numbered(CapsItems(BranchItems(ct, b, k)), k, ParensBranch(b))
    decreases b, 0
  {
    hide PieceItems, WfPiece;
    if b.Then? {
      var first, next := PieceItems(ct, b.p, b.rest, k), BranchItems(ct, b.rest, k + Parens(b.p));
      PieceNumbered(ct, b.p, b.rest, k);
      BranchNumbered(ct, b.rest, k + Parens(b.p));
      AppendCaps(first, next);
      NumberedAppend(CapsItems(first), CapsItems(next), k, Parens(b.p), ParensBranch(b.rest));
    }
  }

  lemma {:induction false} PieceNumbered(ct: CTypes, p: Piece, rest: Branch, k: nat)
    requires WfPiece(p)
    ensures Numbered(CapsItems(PieceItems(ct, p, rest, k)), k, Parens(p))
    decreases p, 0
  {
    hide CapsItems, CapsGrp, ByteItems, GroupItems, ChoiceAlts, WfChoice, Numbered;
    match p
    case Byte(x, _, q) =>
      ByteCaps(x, Possessified(ct, x, q, rest));
      NoneNumbered(k);
    case Paren(capturing, alts, q) =>
      var g := ParenGrp(ct, capturing, alts, k);
      ParenNumbered(ct, capturing, alts, k);
      var m := GroupCaps(g, q);
      NumberedRepeated(CapsGrp(g), m, k, Parens(p));
  }

  lemma NoneNumbered(k: nat)
    ensures Numbered([], k, 0)
  {
  }

  lemma ByteCaps(x: Single, q: Quant)
    ensures CapsItems(ByteItems(x, q)) == []
  {
    hide ByteItems;
    ByteShape(x, q);
    var items := ByteItems(x, q);
    if items.Cons? {
      assert CapsItems(items.tail) == if items.tail.Cons? then CapsItems(items.tail.tail) else [];
    }
  }

  /** The opening bracket of a parenthesis has the next number, and what it contains those after it. */
  lemma {:induction false} ParenNumbered(ct: CTypes, capturing: bool, alts: Choice, k: nat)
    requires WfChoice(alts)
    ensures Numbered(CapsGrp(ParenGrp(ct, capturing, alts, k)), k, (if capturing then 1 else 0) + ParensChoice(alts))
    decreases alts, 1
  {
    hide CapsAlts, ChoiceAlts, WfChoice;
    var k' := if capturing then k + 1 else k;
    ChoiceNumbered(ct, alts, k');
    if capturing {
      NextNumbered(k);
      NumberedAppend([k + 1], CapsAlts(ChoiceAlts(ct, alts, k')), k, 1, ParensChoice(alts));
    } else {
      assert [] + CapsAlts(ChoiceAlts(ct, alts, k')) == CapsAlts(ChoiceAlts(ct, alts, k'));
    }
  }

  lemma NextNumbered(k: nat)
    ensures Numbered([k + 1], k, 1)
  {
    assert [k + 1][1..] == [];
  }
}
