/** is_anchored() and is_startline(): a pattern all of whose branches start with .* cannot have its
    first match anywhere but at the start of the search, or after a byte that dot does not match. */
module DotStar {
  import opened Tree
  import opened Semantics
  import opened Layout
  import opened Emptiness
  import opened Regex
  import opened AutoPossess
  import opened Compile

  /** The branch starts with an unlimited repeat of the type t, possibly inside brackets that are not
      in the S form. */
  predicate DotFirst(t: TypeOp, items: Items)
    decreases items
  {
    items.Cons? && match items.head
                   case One(_) => false
                   case Many(x, r) => x == Typ(t) && r.Star?
                   case Group(z, g) => z == Once && !g.s && DotAlts(t, g.alts)
  }

  predicate DotAlts(t: TypeOp, alts: Alts)
    decreases alts
  {
    DotFirst(t, alts.b) && (alts.More? ==> DotAlts(t, alts.rest))
  }

  // ---------------------------------------------------------------------------------------
  // What it means for matching

  /** Two attempts on the same subject. */
  ghost predicate Alike(env: Env, env': Env) {
    env'.subject == env.subject && env'.ctypes == env.ctypes && env'.nl == env.nl
  }

  lemma {:induction false} AlikeItems(env: Env, env': Env, items: Items, i: nat, j: nat)
    requires Alike(env, env') && MatchItems(env, items, i, j)
    ensures MatchItems(env', items, i, j)
    decreases items, 0, 0
  {
    hide Alike, MatchGrp;
    if items.Cons? {
      var m := ItemsElim(env, items, i, j);
      AlikeItems(env, env', items.tail, m, j);
      AlikeItem(env, env', items.head, i, m);
      ItemsIntro(env', items, i, m, j);
    }
  }

  lemma {:induction false} AlikeItem(env: Env, env': Env, it: Item, i: nat, j: nat)
    requires Alike(env, env') && MatchItem(env, it, i, j)
    ensures MatchItem(env', it, i, j)
    decreases it, 1, 0
  {
    hide MatchGrp;
    if it.Group? && it.zero != SkipZero && MatchGrp(env, it.g, i, j) {
      var n := GrpElim(env, it.g, i, j);
      AlikeTimes(env, env', it.g.alts, n, i, j);
      GrpIntro(env', it.g, n, i, j);
    }
  }

  lemma {:induction false} AlikeTimes(env: Env, env': Env, alts: Alts, n: nat, i: nat, j: nat)
    requires Alike(env, env') && MatchTimes(env, alts, n, i, j)
    ensures MatchTimes(env', alts, n, i, j)
    decreases alts, 1, n
  {
    hide Alike, MatchAlts;
    if n == 0 {
      TimesZero(env, alts, i, j);
      TimesZero(env', alts, i, j);
    } else {
      var m := TimesElim(env, alts, n, i, j);
      AlikeAlts(env, env', alts, i, m);
      AlikeTimes(env, env', alts, n - 1, m, j);
      TimesSucc(env', alts, n - 1, i, m, j);
    }
  }

  lemma {:induction false} AlikeAlts(env: Env, env': Env, alts: Alts, i: nat, j: nat)
    requires Alike(env, env') && MatchAlts(env, alts, i, j)
    ensures MatchAlts(env', alts, i, j)
    decreases alts, 0, 0
  {
    hide Alike, MatchItems;
    if MatchItems(env, alts.b, i, j) {
      AlikeItems(env, env', alts.b, i, j);
    } else {
      AlikeAlts(env, env', alts.rest, i, j);
    }
  }

  /** A match that starts behind a byte of the type can be extended to start at that byte. */
  lemma {:induction false} ItemsBack(env: Env, env': Env, t: TypeOp, items: Items, i: nat, j: nat)
    requires Alike(env, env') && DotFirst(t, items) && MatchItems(env, items, i, j)
    requires 0 < i <= |env.subject| && TypeTest(env, t, env.subject[i - 1])
    ensures MatchItems(env', items, i - 1, j)
    decreases items, 0, 0
  {
    hide MatchItems, MatchGrp;
    var m := ItemsElim(env, items, i, j);
    AlikeItems(env, env', items.tail, m, j);
    if items.head.Many? {
      ManyBack(env, env', t, items.head.r, i, m);
    } else {
      GrpBack(env, env', t, items.head.g, i, m);
    }
    ItemsIntro(env', items, i - 1, m, j);
  }

  lemma ManyBack(env: Env, env': Env, t: TypeOp, r: Rep, i: nat, j: nat)
    requires Alike(env, env') && r.Star? && ManyMatches(env, Typ(t), r, i, j)
    requires 0 < i <= |env.subject| && TypeTest(env, t, env.subject[i - 1])
    ensures ManyMatches(env', Typ(t), r, i - 1, j)
  {
  }

  lemma {:induction false} GrpBack(env: Env, env': Env, t: TypeOp, g: Grp, i: nat, j: nat)
    requires Alike(env, env') && DotAlts(t, g.alts) && MatchGrp(env, g, i, j)
    requires 0 < i <= |env.subject| && TypeTest(env, t, env.subject[i - 1])
    ensures MatchGrp(env', g, i - 1, j)
    decreases g, 1, 0
  {
    hide Alike, MatchAlts, MatchTimes, MatchGrp, DotAlts, TypeTest;
    var n := GrpElim(env, g, i, j);
    var m := TimesElim(env, g.alts, n, i, j);
    AltsBack(env, env', t, g.alts, i, m);
    AlikeTimes(env, env', g.alts, n - 1, m, j);
    TimesSucc(env', g.alts, n - 1, i - 1, m, j);
    GrpIntro(env', g, n, i - 1, j);
  }

  lemma {:induction false} AltsBack(env: Env, env': Env, t: TypeOp, alts: Alts, i: nat, j: nat)
    requires Alike(env, env') && DotAlts(t, alts) && MatchAlts(env, alts, i, j)
    requires 0 < i <= |env.subject| && TypeTest(env, t, env.subject[i - 1])
    ensures MatchAlts(env', alts, i - 1, j)
    decreases alts, 0, 0
  {
    hide Alike, MatchItems, DotFirst, TypeTest;
    if MatchItems(env, alts.b, i, j) {
      ItemsBack(env, env', t, alts.b, i, j);
    } else {
      AltsBack(env, env', t, alts.rest, i, j);
    }
  }

  // ---------------------------------------------------------------------------------------
  // The scan of the code

  /** is_anchored() for the type that dot has with PCRE_DOTALL, is_startline() for the other one. */
  method StartsWithDot(code: Code, q: nat, t: TypeOp, ghost g: Grp) returns (yes: bool)
    requires GrpAt(code, q, g)
    ensures yes <==> DotAlts(t, g.alts)
    decreases LenAlts(g.alts)
  {
    hide Header, Ahead, LenGrp, LenItems, LenAlts, LenItem, GrpAt, DotFirst;
    var h: nat := q;
    OpenGroup(code, q, g);
    GrpOp(code, q, g);
    ghost var alts := g.alts;
    var more := true;
    while more
      invariant more ==>
        h < |code| && Header(code, h, OpLength(code[h]), alts, g, q) && LenAlts(alts) <= LenAlts(g.alts)
      invariant DotAlts(t, g.alts) <==> (more ==> DotAlts(t, alts))
      decreases more, alts
    {
      NextHeader(code, h, OpLength(code[h]), alts, g, q);
      HeaderAhead(code, h, OpLength(code[h]), alts, g, q);
      SmallerBranch(alts);
      var scode := h + OpLength(code[h]);
      ghost var items := alts.b;
      FirstItem(code, scode, t, items);
      var op := code[scode];
      if op == OP_BRA || op == OP_CBRA {
        SmallerGroup(items);
        var inner := StartsWithDot(code, scode, t, items.head.g);
        if !inner {
          return false;
        }
      } else if op == OP_TYPESTAR || op == OP_TYPESTAR + 1 || op == OP_TYPESTAR + 9 {
        if code[scode + 1] != t {
          return false;
        }
      } else {
        return false;
      }
      h := h + Get2(code, h + 1);
      if code[h] == OP_ALT {
        alts := alts.rest;
      } else {
        more := false;
      }
    }
    return true;
  }

  /** What the first byte of a branch tells. */
  lemma {:induction false} FirstItem(code: Code, p: nat, t: TypeOp, items: Items)
    requires Ahead(code, p, items)
    ensures p + 1 < |code|
    ensures code[p] == OP_BRA || code[p] == OP_CBRA <==>
      items.Cons? && items.head.Group? && items.head.zero == Once && !items.head.g.s
    ensures code[p] == OP_BRA || code[p] == OP_CBRA ==>
      GrpAt(code, p, items.head.g) && (DotFirst(t, items) <==> DotAlts(t, items.head.g.alts))
    ensures code[p] !in {OP_BRA, OP_CBRA, OP_TYPESTAR, OP_TYPESTAR + 1, OP_TYPESTAR + 9} ==> !DotFirst(t, items)
    ensures code[p] in {OP_TYPESTAR, OP_TYPESTAR + 1, OP_TYPESTAR + 9} ==> (DotFirst(t, items) <==> code[p + 1] == t)
  {
    hide Ahead, LenItems, GrpAt, LenGrp, DotAlts;
    AheadRoom(code, p, items);
    if items.Nil? {
      AheadNil(code, p);
    } else {
      AheadCons(code, p, items);
      if items.head.Group? {
        GrpOp(code, p + (if items.head.zero == Once then 0 else 1), items.head.g);
      } else if items.head.One? {
        SingleOp(code, p, items.head.x);
      }
    }
  }

  lemma AheadRoom(code: Code, p: nat, items: Items)
    requires Ahead(code, p, items)
    ensures p + 2 < |code|
  {
  }

  lemma SingleOp(code: Code, p: nat, x: Single)
    requires SingleAt(code, p, x)
    ensures p < |code| && code[p] !in {OP_BRA, OP_CBRA, OP_TYPESTAR, OP_TYPESTAR + 1, OP_TYPESTAR + 9}
  {
  }

  // ---------------------------------------------------------------------------------------
  // In the pattern as it is written

  /** Every branch begins with an unlimited repeat of the type from zero on, or with a parenthesis whose branches
      do and which occurs at least once; an unlimited one must not get the S form. */
  predicate DotsChoice(ct: CTypes, t: TypeOp, alts: Choice, k: nat)
    decreases alts, 0
  {
    DotsBranch(ct, t, alts.b, k) && (alts.Or? ==> DotsChoice(ct, t, alts.more, k + ParensBranch(alts.b)))
  }

  predicate DotsBranch(ct: CTypes, t: TypeOp, b: Branch, k: nat)
    decreases b, 0
  {
    b.Then? && if Dropped(b.p) then DotsBranch(ct, t, b.rest, k) else DotsPiece(ct, t, b.p, k)
  }

  /** Such an item leaves no code. */
  predicate Dropped(p: Piece) {
    p.Byte? && p.q.Quant? && p.q.hi == Max(0)
  }

  predicate DotsPiece(ct: CTypes, t: TypeOp, p: Piece, k: nat)
    decreases p, 0
  {
    match p
    case Byte(x, _, q) => x == Typ(t) && q.Quant? && q.lo == 0 && q.hi.NoMax?
    case Paren(capturing, alts, q) =>
      var k' := if capturing then k + 1 else k;
      && DotsChoice(ct, t, alts, k') && (q.Quant? ==> q.lo > 0)
      && (q.Quant? && q.lo == 1 && q.hi.NoMax? ==> !AnyLooksEmpty(ChoiceAlts(ct, alts, k')))
  }

  lemma {:induction false} ChoiceDots(ct: CTypes, t: TypeOp, alts: Choice, k: nat)
    requires WfChoice(alts)
    ensures DotAlts(t, ChoiceAlts(ct, alts, k)) <==> DotsChoice(ct, t, alts, k)
    decreases alts, 1
  {
    hide DotFirst, DotsBranch, BranchItems, WfBranch;
    BranchDots(ct, t, alts.b, k);
    if alts.Or? {
      ChoiceDots(ct, t, alts.more, k + ParensBranch(alts.b));
    }
  }

  lemma {:induction false} BranchDots(ct: CTypes, t: TypeOp, b: Branch, k: nat)
    requires WfBranch(b)
    ensures DotFirst(t, BranchItems(ct, b, k)) <==> DotsBranch(ct, t, b, k)
    decreases b, 1
  {
    hide DotFirst, DotsPiece, WfPiece, PieceItems;
    if b.Then? {
      var first, next := PieceItems(ct, b.p, b.rest, k), BranchItems(ct, b.rest, k + Parens(b.p));
      PieceDots(ct, t, b.p, b.rest, k);
      BranchDots(ct, t, b.rest, k + Parens(b.p));
      AppendDots(t, first, next);
    } else {
      AppendDots(t, Nil, Nil);
    }
  }

  lemma AppendDots(t: TypeOp, a: Items, b: Items)
    ensures DotFirst(t, Append(a, b)) == if a.Nil? then DotFirst(t, b) else DotFirst(t, a)
    ensures !DotFirst(t, Nil)
  {
  }

  lemma {:induction false} PieceDots(ct: CTypes, t: TypeOp, p: Piece, rest: Branch, k: nat)
    requires WfPiece(p)
    ensures PieceItems(ct, p, rest, k).Nil? <==> Dropped(p)
    ensures !Dropped(p) ==> (DotFirst(t, PieceItems(ct, p, rest, k)) <==> DotsPiece(ct, t, p, k))
    decreases p, 1
  {
    hide WfChoice, ChoiceAlts, GroupItems, ByteItems, AnyLooksEmpty, CheckAuto;
    match p
    case Byte(x, _, q) => ByteDots(t, x, Possessified(ct, x, q, rest));
    case Paren(capturing, alts, q) =>
      ChoiceDots(ct, t, alts, if capturing then k + 1 else k);
      GroupDots(t, ParenGrp(ct, capturing, alts, k), q);
  }

  lemma ByteDots(t: TypeOp, x: Single, q: Quant)
    requires WfQuant(q)
    ensures ByteItems(x, q).Nil? <==> q.Quant? && q.hi == Max(0)
    ensures DotFirst(t, ByteItems(x, q)) <==> x == Typ(t) && q.Quant? && q.lo == 0 && q.hi.NoMax?
  {
  }

  lemma GroupDots(t: TypeOp, g: Grp, q: Quant)
    requires WfQuant(q) && !g.s
    ensures GroupItems(g, q).Cons?
    ensures DotFirst(t, GroupItems(g, q)) <==>
      && DotAlts(t, g.alts) && (q.Quant? ==> q.lo > 0)
      && (q.Quant? && q.lo == 1 && q.hi.NoMax? ==> !AnyLooksEmpty(g.alts))
  {
    hide AnyLooksEmpty, DotAlts;
  }
}
