/** The map of pcre_study() has no byte too many: it exists unless a match can be empty, and each of its
    bytes is the first one of some match. */
module StudyExact {
  import opened Tree
  import opened Progress
  import opened Regex
  import opened AutoPossess
  import opened Compile
  import opened Study
  import opened Emptiness

  // ---------------------------------------------------------------------------------------
  // What the scan can read

  /** Up to the first item that cannot be empty the scan comes to opcodes that it knows only, and to
      no bracket whose number it would take for an opcode. */
  predicate Legible(items: Items)
    decreases items
  {
    items.Cons? ==> LegibleItem(items.head) && (NullableItem(items.head) ==> Legible(items.tail))
  }

  predicate LegibleItem(it: Item)
    decreases it
  {
    match it
    case One(x) => x.Chr? || x.Set? || (x.Typ? && x.t < OP_ANY)
    case Many(x, r) => x.Chr? || x.Set? || (x.Typ? && x.t < OP_ANY && r != Plus(Poss))
    case Group(z, g) => z != SkipZero && LegibleGrp(g)
  }

  predicate LegibleGrp(g: Grp)
    decreases g
  {
    !Misplaced(g) && LegibleAlts(g.alts)
  }

  predicate LegibleAlts(alts: Alts)
    decreases alts
  {
    Legible(alts.b) && (alts.More? ==> LegibleAlts(alts.rest))
  }

  /** Such code the scan reads to the end, and the answer says whether it can be empty. */
  lemma {:induction false} ItemsLegible(ct: CTypes, items: Items)
    requires Legible(items)
    ensures ItemsYield(items) == if Nullable(items) then SsbContinue else SsbDone
    ensures Tame(items) && Sober(ct, items)
    decreases items
  {
    hide GrpYield, TameGrp, SoberGrp, LegibleGrp, NullableAlts;
    if items.Cons? {
      if items.head.Group? {
        GrpLegible(ct, items.head.g);
      }
      if NullableItem(items.head) {
        ItemsLegible(ct, items.tail);
      }
    }
  }

  lemma {:induction false} GrpLegible(ct: CTypes, g: Grp)
    requires LegibleGrp(g)
    ensures GrpYield(g) == if NullableAlts(g.alts) then SsbContinue else SsbDone
    ensures TameGrp(g) && SoberGrp(ct, g)
    decreases g
  {
    hide AltsYield, TameAlts, SoberAlts, LegibleAlts, NullableAlts;
    AltsLegible(ct, g.alts);
  }

  lemma {:induction false} AltsLegible(ct: CTypes, alts: Alts)
    requires LegibleAlts(alts)
    ensures AltsYield(alts) == if NullableAlts(alts) then SsbContinue else SsbDone
    ensures TameAlts(alts) && SoberAlts(ct, alts)
    decreases alts
  {
    hide ItemsYield, Tame, Sober, Nullable;
    ItemsLegible(ct, alts.b);
    if alts.More? {
      AltsLegible(ct, alts.rest);
    }
  }

  /** No bracket inside has such a number, and none is behind a SKIPZERO. */
  predicate Placed(items: Items)
    decreases items
  {
    items.Cons? ==> PlacedItem(items.head) && Placed(items.tail)
  }

  predicate PlacedItem(it: Item)
    decreases it
  {
    it.Group? ==> it.zero != SkipZero && !Misplaced(it.g) && PlacedAlts(it.g.alts)
  }

  predicate PlacedAlts(alts: Alts)
    decreases alts
  {
    Placed(alts.b) && (alts.More? ==> PlacedAlts(alts.rest))
  }

  /** Other opcodes make the scan fail. */
  lemma {:induction false} ItemsRead(items: Items)
    requires Placed(items) && ItemsYield(items) != SsbFail
    ensures Legible(items)
    decreases items
  {
    hide GrpYield, NullableAlts, LegibleGrp;
    if items.Cons? {
      assert PlacedItem(items.head);
      if items.head.Group? {
        GrpRead(items.head.g);
      }
      if NullableItem(items.head) {
        ItemLegible(seq(256, _ => CType(false, false, false)), items.head);
        ItemsRead(items.tail);
      }
    }
  }

  lemma {:induction false} GrpRead(g: Grp)
    requires !Misplaced(g) && PlacedAlts(g.alts) && GrpYield(g) != SsbFail
    ensures LegibleGrp(g)
    decreases g
  {
    AltsRead(g.alts);
  }

  lemma {:induction false} AltsRead(alts: Alts)
    requires PlacedAlts(alts) && AltsYield(alts) != SsbFail
    ensures LegibleAlts(alts)
    decreases alts
  {
    hide ItemsYield, Placed, Legible;
    ItemsRead(alts.b);
    if alts.More? {
      AltsRead(alts.rest);
    }
  }

  lemma AppendLegible(ct: CTypes, env: Env, a: Items, b: Items, c: byte)
    requires Legible(Append(a, b))
    ensures Legible(a) && (Nullable(a) ==> Legible(b))
    ensures Starts(env, Append(a, b), c) ==> Starts(env, a, c) || (Nullable(a) && Starts(env, b, c))
    decreases a
  {
    hide StartsItem, LegibleItem, NullableItem, ItemYield;
    if a.Cons? {
      ItemLegible(ct, a.head);
      if NullableItem(a.head) {
        AppendLegible(ct, env, a.tail, b, c);
      }
    }
  }

  lemma ItemLegible(ct: CTypes, it: Item)
    requires LegibleItem(it)
    ensures ItemYield(it) == if NullableItem(it) then SsbContinue else SsbDone
  {
    hide GrpYield, LegibleGrp, NullableAlts;
    if it.Group? {
      GrpLegible(ct, it.g);
    }
  }

  // ---------------------------------------------------------------------------------------
  // Strings that match wherever they stand

  /** The string w is in the subject at i; the tables are those of e. */
  ghost predicate At(e: Env, env: Env, i: nat, w: seq<byte>) {
    env.ctypes == e.ctypes && env.nl == e.nl && i + |w| <= |env.subject| && env.subject[i..i + |w|] == w
  }

  ghost predicate SpellsPiece(e: Env, p: Piece, w: seq<byte>) {
    forall env: Env, i: nat :: At(e, env, i, w) ==> MeansPiece(env, p, i, i + |w|)
  }

  ghost predicate SpellsTimes(e: Env, alts: Choice, n: nat, w: seq<byte>) {
    forall env: Env, i: nat :: At(e, env, i, w) ==> MeansTimes(env, alts, n, i, i + |w|)
  }

  ghost predicate SpellsBranch(e: Env, b: Branch, w: seq<byte>) {
    forall env: Env, i: nat :: At(e, env, i, w) ==> MeansBranch(env, b, i, i + |w|)
  }

  ghost predicate SpellsChoice(e: Env, alts: Choice, w: seq<byte>) {
    forall env: Env, i: nat :: At(e, env, i, w) ==> MeansChoice(env, alts, i, i + |w|)
  }

  lemma AtSplit(e: Env, env: Env, i: nat, u: seq<byte>, v: seq<byte>)
    requires At(e, env, i, u + v)
    ensures At(e, env, i, u) && At(e, env, i + |u|, v)
  {
    var s := env.subject[i..i + |u + v|];
    assert env.subject[i..i + |u|] == s[..|u|] == u;
    assert env.subject[i + |u|..i + |u| + |v|] == s[|u|..] == v;
  }

  lemma JoinBranch(e: Env, b: Branch, u: seq<byte>, v: seq<byte>)
    requires b.Then? && SpellsPiece(e, b.p, u) && SpellsBranch(e, b.rest, v)
    ensures SpellsBranch(e, b, u + v)
  {
    hide MeansPiece, MeansBranch, At;
    forall env: Env, i: nat | At(e, env, i, u + v) ensures MeansBranch(env, b, i, i + |u + v|) {
      AtSplit(e, env, i, u, v);
      BranchIntro(env, b, i, i + |u|, i + |u| + |v|);
    }
  }

  lemma JoinTimes(e: Env, alts: Choice, n: nat, u: seq<byte>, v: seq<byte>)
    requires SpellsChoice(e, alts, u) && SpellsTimes(e, alts, n, v)
    ensures SpellsTimes(e, alts, n + 1, u + v)
  {
    hide MeansChoice, At;
    forall env: Env, i: nat | At(e, env, i, u + v) ensures MeansTimes(env, alts, n + 1, i, i + |u + v|) {
      AtSplit(e, env, i, u, v);
      assert MeansChoice(env, alts, i, i + |u|) && MeansTimes(env, alts, n, i + |u|, i + |u| + |v|);
    }
  }

  lemma NoTimes(e: Env, alts: Choice)
    ensures SpellsTimes(e, alts, 0, [])
  {
  }

  lemma AsPiece(e: Env, p: Piece, n: nat, w: seq<byte>)
    requires p.Paren? && Within(p.q, n) && SpellsTimes(e, p.alts, n, w)
    ensures SpellsPiece(e, p, w)
  {
    hide MeansTimes, At;
    forall env: Env, i: nat | At(e, env, i, w) ensures MeansPiece(env, p, i, i + |w|) {
      assert MeansTimes(env, p.alts, n, i, i + |w|);
    }
  }

  lemma AsChoice(e: Env, alts: Choice, w: seq<byte>)
    requires SpellsBranch(e, alts.b, w) || (alts.Or? && SpellsChoice(e, alts.more, w))
    ensures SpellsChoice(e, alts, w)
  {
    hide MeansBranch, At;
  }

  /** Bytes that pass the test. */
  lemma AsByte(e: Env, p: Piece, w: seq<byte>)
    requires p.Byte? && FreePiece(p) && Within(p.q, |w|) && forall k :: 0 <= k < |w| ==> Test(e, p.x, w[k])
    ensures SpellsPiece(e, p, w)
  {
    forall env: Env, i: nat | At(e, env, i, w) ensures MeansPiece(env, p, i, i + |w|) {
      forall k | i <= k < i + |w| ensures Test(env, p.x, env.subject[k]) {
        assert env.subject[k] == env.subject[i..i + |w|][k - i] == w[k - i];
      }
    }
  }

  // ---------------------------------------------------------------------------------------
  // Patterns that have such strings

  /** No quantifier is written as possessive. */
  predicate FreePiece(p: Piece)
    decreases p
  {
    match p
    case Byte(_, _, q) => q.Quant? ==> q.mode != Poss
    case Paren(_, alts, _) => FreeChoice(alts)
  }

  predicate FreeBranch(b: Branch)
    decreases b
  {
    b.Then? ==> FreePiece(b.p) && FreeBranch(b.rest)
  }

  predicate FreeChoice(alts: Choice)
    decreases alts
  {
    FreeBranch(alts.b) && (alts.Or? ==> FreeChoice(alts.more))
  }

  /** Each item can match something. */
  ghost predicate CanPiece(e: Env, p: Piece)
    decreases p
  {
    match p
    case Byte(x, _, _) => exists c: byte :: Test(e, x, c)
    case Paren(_, alts, _) => CanChoice(e, alts)
  }

  ghost predicate CanBranch(e: Env, b: Branch)
    decreases b
  {
    b.Then? ==> CanPiece(e, b.p) && CanBranch(e, b.rest)
  }

  ghost predicate CanChoice(e: Env, alts: Choice)
    decreases alts
  {
    CanBranch(e, alts.b) && (alts.Or? ==> CanChoice(e, alts.more))
  }

  function Least(q: Quant): nat {
    if q.Plain? then 1 else q.lo
  }

  lemma {:induction false} PieceString(e: Env, p: Piece) returns (w: seq<byte>)
    requires WfPiece(p) && FreePiece(p) && CanPiece(e, p)
    ensures SpellsPiece(e, p, w)
    decreases p
  {
    hide WfChoice, FreeChoice, CanChoice, SpellsPiece, SpellsTimes;
    match p
    case Byte(x, _, q) =>
      var c: byte :| Test(e, x, c);
      w := seq(Least(q), _ => c);
      AsByte(e, p, w);
    case Paren(_, alts, q) =>
      w := TimesString(e, alts, Least(q));
      AsPiece(e, p, Least(q), w);
  }

  lemma {:induction false} TimesString(e: Env, alts: Choice, n: nat) returns (w: seq<byte>)
    requires WfChoice(alts) && FreeChoice(alts) && CanChoice(e, alts)
    ensures SpellsTimes(e, alts, n, w)
    decreases alts, n
  {
    hide WfChoice, FreeChoice, CanChoice, SpellsTimes, SpellsChoice;
    if n == 0 {
      w := [];
      NoTimes(e, alts);
    } else {
      var u := ChoiceString(e, alts);
      var v := TimesString(e, alts, n - 1);
      JoinTimes(e, alts, n - 1, u, v);
      w := u + v;
    }
  }

  lemma {:induction false} BranchString(e: Env, b: Branch) returns (w: seq<byte>)
    requires WfBranch(b) && FreeBranch(b) && CanBranch(e, b)
    ensures SpellsBranch(e, b, w)
    decreases b
  {
    hide WfPiece, FreePiece, CanPiece, SpellsPiece;
    if b.Done? {
      w := [];
    } else {
      hide SpellsBranch;
      var u := PieceString(e, b.p);
      var v := BranchString(e, b.rest);
      JoinBranch(e, b, u, v);
      w := u + v;
    }
  }

  lemma {:induction false} ChoiceString(e: Env, alts: Choice) returns (w: seq<byte>)
    requires WfChoice(alts) && FreeChoice(alts) && CanChoice(e, alts)
    ensures SpellsChoice(e, alts, w)
    decreases alts, 0
  {
    hide WfBranch, FreeBranch, CanBranch, SpellsBranch, SpellsChoice;
    w := BranchString(e, alts.b);
    AsChoice(e, alts, w);
  }

  // ---------------------------------------------------------------------------------------
  // Empty strings

  lemma {:induction false} AppendNullable(a: Items, b: Items)
    ensures Nullable(Append(a, b)) <==> Nullable(a) && Nullable(b)
  {
    hide NullableItem;
    if a.Cons? {
      AppendNullable(a.tail, b);
    }
  }

  lemma ByteEmpty(x: Single, q: Quant)
    requires WfQuant(q) && Nullable(ByteItems(x, q))
    ensures Least(q) == 0
  {
  }

  lemma {:induction false} CopiesEmpty(g: Grp, n: nat, t: Items)
    requires n > 0 && Nullable(Copies(g, n, t))
    ensures NullableAlts(g.alts)
  {
    hide NullableAlts;
  }

  lemma GroupEmpty(g: Grp, q: Quant)
    requires WfQuant(q) && Nullable(GroupItems(g, q))
    ensures Least(q) == 0 || NullableAlts(g.alts)
  {
    hide NullableAlts, AnyLooksEmpty, Optional;
    match q
    case Plain =>
    case Quant(lo, Max(hi), m, _) =>
      if lo > 0 {
        CopiesEmpty(g, lo, Optional(if m == Lazy then BraMinZero else BraZero, g, hi - lo));
      }
    case Quant(lo, NoMax, m, _) =>
      if lo > 1 {
        CopiesEmpty(g, lo - 1, Cons(Group(Once, Loop(g, m)), Nil));
      }
  }

  lemma {:induction false} PieceEmpty(e: Env, p: Piece, rest: Branch, k: nat)
    requires WfPiece(p) && FreePiece(p) && Nullable(PieceItems(e.ctypes, p, rest, k))
    ensures SpellsPiece(e, p, [])
    decreases p
  {
    hide WfChoice, FreeChoice, SpellsPiece, SpellsTimes, ByteItems, GroupItems, NullableAlts, ChoiceAlts;
    match p
    case Byte(x, _, q) =>
      ByteEmpty(x, Possessified(e.ctypes, x, q, rest));
      AsByte(e, p, []);
    case Paren(capturing, alts, q) =>
      GroupEmpty(ParenGrp(e.ctypes, capturing, alts, k), q);
      if Least(q) == 0 {
        NoTimes(e, alts);
      } else {
        ChoiceEmpty(e, alts, if capturing then k + 1 else k);
        TimesEmpty(e, alts, Least(q));
      }
      AsPiece(e, p, Least(q), []);
  }

  lemma EmptyJoin()
    ensures var none: seq<byte> := []; none + none == none
  {
  }

  lemma {:induction false} TimesEmpty(e: Env, alts: Choice, n: nat)
    requires SpellsChoice(e, alts, [])
    ensures SpellsTimes(e, alts, n, [])
  {
    hide SpellsTimes, SpellsChoice;
    NoTimes(e, alts);
    if n > 0 {
      TimesEmpty(e, alts, n - 1);
      JoinTimes(e, alts, n - 1, [], []);
      EmptyJoin();
    }
  }

  lemma {:induction false} BranchEmpty(e: Env, b: Branch, k: nat)
    requires WfBranch(b) && FreeBranch(b) && Nullable(BranchItems(e.ctypes, b, k))
    ensures SpellsBranch(e, b, [])
    decreases b
  {
    hide WfPiece, FreePiece, SpellsPiece, Nullable, PieceItems;
    if b.Then? {
      hide SpellsBranch;
      AppendNullable(PieceItems(e.ctypes, b.p, b.rest, k), BranchItems(e.ctypes, b.rest, k + Parens(b.p)));
      PieceEmpty(e, b.p, b.rest, k);
      BranchEmpty(e, b.rest, k + Parens(b.p));
      JoinBranch(e, b, [], []);
      EmptyJoin();
    }
  }

  lemma {:induction false} ChoiceEmpty(e: Env, alts: Choice, k: nat)
    requires WfChoice(alts) && FreeChoice(alts) && NullableAlts(ChoiceAlts(e.ctypes, alts, k))
    ensures SpellsChoice(e, alts, [])
    decreases alts, 0
  {
    hide WfBranch, FreeBranch, SpellsBranch, SpellsChoice, Nullable, BranchItems;
    if Nullable(BranchItems(e.ctypes, alts.b, k)) {
      BranchEmpty(e, alts.b, k);
    } else {
      ChoiceEmpty(e, alts.more, k + ParensBranch(alts.b));
    }
    AsChoice(e, alts, []);
  }

  // ---------------------------------------------------------------------------------------
  // Every collected byte begins such a string

  lemma ByteStarts(e: Env, x: Single, q: Quant, c: byte)
    requires WfQuant(q) && Starts(e, ByteItems(x, q), c)
    ensures Test(e, x, c) && !(q.Quant? && q.hi == Max(0))
  {
    hide ByteItems, Test;
    ByteOf(x, q);
    StartsOf(e, ByteItems(x, q), x, c);
  }

  /** At most two items, for the byte itself. */
  predicate Of(items: Items, x: Single) {
    items.Nil? || (!items.head.Group? && items.head.x == x && (items.tail.Nil? || OneOf(items.tail, x)))
  }

  predicate OneOf(items: Items, x: Single) {
    items.Cons? && !items.head.Group? && items.head.x == x && items.tail.Nil?
  }

  lemma ByteOf(x: Single, q: Quant)
    requires WfQuant(q)
    ensures Of(ByteItems(x, q), x) && (q.Quant? && q.hi == Max(0) ==> ByteItems(x, q).Nil?)
  {
  }

  lemma StartsOf(e: Env, items: Items, x: Single, c: byte)
    requires Of(items, x) && Starts(e, items, c)
    ensures Test(e, x, c) && items.Cons?
  {
    hide Test;
    if items.tail.Cons? && !StartsItem(e, items.head, c) {
      assert Starts(e, items.tail, c) && !Starts(e, items.tail.tail, c);
    }
  }

  lemma {:induction false} CopiesStart(e: Env, g: Grp, n: nat, t: Items, c: byte)
    requires Legible(Copies(g, n, t)) && Starts(e, Copies(g, n, t), c)
    ensures (LegibleGrp(g) && StartsGrp(e, g, c)) || (Legible(t) && Starts(e, t, c))
  {
    hide StartsGrp, LegibleGrp, GrpYield, NullableAlts;
    if n > 0 {
      ItemLegible(e.ctypes, Group(Once, g));
      if !StartsGrp(e, g, c) {
        CopiesStart(e, g, n - 1, t, c);
      }
    }
  }

  lemma {:induction false} OptionalStart(e: Env, z: Zero, g: Grp, n: nat, c: byte)
    requires z != Once && Legible(Optional(z, g, n)) && Starts(e, Optional(z, g, n), c)
    ensures n > 0 && LegibleGrp(g) && StartsGrp(e, g, c)
  {
    if n > 1 {
      var inner := Cons(Group(Once, g), Optional(z, g, n - 1));
      NestStarts(e, z, inner, c);
      hide StartsGrp, LegibleGrp, GrpYield, NullableAlts;
      ItemLegible(e.ctypes, Group(Once, g));
      if !StartsGrp(e, g, c) {
        OptionalStart(e, z, g, n - 1, c);
      }
    }
  }

  lemma NestStarts(e: Env, z: Zero, b: Items, c: byte)
    requires z != Once && Legible(Cons(Group(z, Grp(false, 0, Last(b), Ket)), Nil))
    requires Starts(e, Cons(Group(z, Grp(false, 0, Last(b), Ket)), Nil), c)
    ensures Legible(b) && Starts(e, b, c)
  {
    var g := Grp(false, 0, Last(b), Ket);
    assert StartsItem(e, Group(z, g), c);
    assert StartsGrp(e, g, c) && StartsAlts(e, g.alts, c);
    assert LegibleItem(Group(z, g)) && LegibleGrp(g) && LegibleAlts(g.alts);
  }

  lemma LoopStarts(e: Env, g: Grp, m: Mode, z: Zero, c: byte)
    requires Legible(Cons(Group(z, Loop(g, m)), Nil)) && Starts(e, Cons(Group(z, Loop(g, m)), Nil), c)
    ensures LegibleAlts(g.alts) && StartsAlts(e, g.alts, c)
  {
    hide AnyLooksEmpty;
    var it := Group(z, Loop(g, m));
    assert LegibleItem(it) && LegibleGrp(it.g);
    assert !Starts(e, Nil, c) && StartsItem(e, it, c) && StartsGrp(e, it.g, c);
  }

  lemma {:induction false} GroupStarts(e: Env, g: Grp, q: Quant, c: byte)
    requires WfQuant(q) && Legible(GroupItems(g, q)) && Starts(e, GroupItems(g, q), c)
    ensures LegibleAlts(g.alts) && StartsAlts(e, g.alts, c) && !(q.Quant? && q.hi == Max(0))
  {
    hide Starts, Legible, LegibleAlts, StartsAlts, AnyLooksEmpty, Optional, Loop;
    match q
    case Plain => CopiesStart(e, g, 1, Nil, c); OneStart(e, g, c);
    case Quant(lo, Max(hi), m, _) =>
      if hi == 0 {
        SkipStarts(e, g, c);
      } else {
        var z := if m == Lazy then BraMinZero else BraZero;
        CopiesStart(e, g, lo, Optional(z, g, hi - lo), c);
        if Legible(Optional(z, g, hi - lo)) && Starts(e, Optional(z, g, hi - lo), c) {
          OptionalStart(e, z, g, hi - lo, c);
        }
      }
    case Quant(lo, NoMax, m, _) =>
      if lo == 0 {
        LoopStarts(e, g, m, if m == Lazy then BraMinZero else BraZero, c);
      } else {
        CopiesStart(e, g, lo - 1, Cons(Group(Once, Loop(g, m)), Nil), c);
        if Legible(Cons(Group(Once, Loop(g, m)), Nil)) && Starts(e, Cons(Group(Once, Loop(g, m)), Nil), c) {
          LoopStarts(e, g, m, Once, c);
        }
      }
  }

  lemma OneStart(e: Env, g: Grp, c: byte)
    ensures !Starts(e, Nil, c) && Copies(g, 1, Nil) == Cons(Group(Once, g), Nil)
  {
  }

  lemma SkipStarts(e: Env, g: Grp, c: byte)
    ensures !Starts(e, Cons(Group(SkipZero, g), Nil), c)
  {
  }

  ghost predicate Begun(w: seq<byte>, c: byte) {
    |w| > 0 && w[0] == c
  }

  lemma {:induction false} PieceStarts(e: Env, p: Piece, rest: Branch, k: nat, c: byte) returns (w: seq<byte>)
    requires WfPiece(p) && FreePiece(p) && CanPiece(e, p)
    requires Legible(PieceItems(e.ctypes, p, rest, k)) && Starts(e, PieceItems(e.ctypes, p, rest, k), c)
    ensures SpellsPiece(e, p, w) && Begun(w, c)
    decreases p
  {
    hide WfChoice, FreeChoice, CanChoice, SpellsPiece, SpellsTimes, SpellsChoice, Legible, Starts, ByteItems, GroupItems,
         LegibleAlts, StartsAlts, ChoiceAlts;
    var n := if Least(p.q) == 0 then 1 else Least(p.q);
    match p
    case Byte(x, _, q) =>
      ByteStarts(e, x, Possessified(e.ctypes, x, q, rest), c);
      w := seq(n, _ => c);
      AsByte(e, p, w);
    case Paren(capturing, alts, q) =>
      GroupStarts(e, ParenGrp(e.ctypes, capturing, alts, k), q, c);
      var u := ChoiceStarts(e, alts, if capturing then k + 1 else k, c);
      var v := TimesString(e, alts, n - 1);
      JoinTimes(e, alts, n - 1, u, v);
      w := u + v;
      AsPiece(e, p, n, w);
  }

  lemma {:induction false} BranchStarts(e: Env, b: Branch, k: nat, c: byte) returns (w: seq<byte>)
    requires WfBranch(b) && FreeBranch(b) && CanBranch(e, b)
    requires Legible(BranchItems(e.ctypes, b, k)) && Starts(e, BranchItems(e.ctypes, b, k), c)
    ensures SpellsBranch(e, b, w) && Begun(w, c)
    decreases b
  {
    hide WfPiece, FreePiece, CanPiece, SpellsPiece, SpellsBranch, Legible, Nullable, PieceItems;
    if b.Done? {
      assert false;
    } else {
      hide Starts;
      var first, next := PieceItems(e.ctypes, b.p, b.rest, k), BranchItems(e.ctypes, b.rest, k + Parens(b.p));
      AppendLegible(e.ctypes, e, first, next, c);
      var u, v: seq<byte>;
      if Starts(e, first, c) {
        u := PieceStarts(e, b.p, b.rest, k, c);
        v := BranchString(e, b.rest);
      } else {
        u := [];
        PieceEmpty(e, b.p, b.rest, k);
        v := BranchStarts(e, b.rest, k + Parens(b.p), c);
      }
      JoinBranch(e, b, u, v);
      w := u + v;
    }
  }

  /** A collected byte begins a string that the pattern matches wherever it stands. */
  lemma {:induction false} ChoiceStarts(e: Env, alts: Choice, k: nat, c: byte) returns (w: seq<byte>)
    requires WfChoice(alts) && FreeChoice(alts) && CanChoice(e, alts)
    requires LegibleAlts(ChoiceAlts(e.ctypes, alts, k)) && StartsAlts(e, ChoiceAlts(e.ctypes, alts, k), c)
    ensures SpellsChoice(e, alts, w) && Begun(w, c)
    decreases alts, 0
  {
    hide WfBranch, FreeBranch, CanBranch, SpellsBranch, SpellsChoice, Legible, Starts, BranchItems;
    if Starts(e, BranchItems(e.ctypes, alts.b, k), c) {
      w := BranchStarts(e, alts.b, k, c);
    } else {
      w := ChoiceStarts(e, alts.more, k + ParensBranch(alts.b), c);
    }
    AsChoice(e, alts, w);
  }
}
