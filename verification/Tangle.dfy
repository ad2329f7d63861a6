/** An input on which match() does not report the match that the pattern prefers: (?:a(?:b|)*|d|)* on "abd".
    The inner loop ends at 2 with an empty iteration and leaves its mark there; the closing bracket of
    the outer one finds it and takes it for its own. */
module Tangle {
  import opened Tree
  import opened Machine
  import opened Search
  import opened Progress
  import opened Regex
  import opened Emptiness
  import opened Compile
  import opened Compiler
  import opened Ordered
  import opened Preference
  import opened RegexOrder
  import opened Exec

  function Star(alts: Choice): Branch {
    Then(Paren(false, alts, Quant(0, NoMax, Greedy, true)), Done)
  }

  function Literal(c: byte, rest: Branch): Branch {
    Then(Byte(Chr(c), true, Plain), rest)
  }

  function InnerLoop(b: byte): Choice {
    Or(Literal(b, Done), Only(Done))
  }

  function OuterLoop(a: byte, b: byte, d: byte): Choice {
    Or(Literal(a, Star(InnerLoop(b))), Or(Literal(d, Done), Only(Done)))
  }

  function Tangled(a: byte, b: byte, d: byte): Choice {
    Only(Star(OuterLoop(a, b, d)))
  }

  // Its code.

  function Inner(b: byte): Grp {
    Grp(true, 0, More(Cons(One(Chr(b)), Nil), Last(Nil)), KetRmax)
  }

  function InnerItems(b: byte): Items {
    Cons(Group(BraZero, Inner(b)), Nil)
  }

  function OuterGrp(a: byte, b: byte, d: byte): Grp {
    Grp(true, 0, More(Cons(One(Chr(a)), InnerItems(b)), More(Cons(One(Chr(d)), Nil), Last(Nil))), KetRmax)
  }

  function Whole(a: byte, b: byte, d: byte): Grp {
    Grp(false, 0, Last(Cons(Group(BraZero, OuterGrp(a, b, d)), Nil)), Ket)
  }

  lemma LiteralItems(ct: CTypes, c: byte, rest: Branch, k: nat)
    ensures BranchItems(ct, Literal(c, rest), k) == Cons(One(Chr(c)), BranchItems(ct, rest, k))
    ensures WfBranch(rest) ==> WfBranch(Literal(c, rest))
    ensures SureBranch(ct, rest) ==> SureBranch(ct, Literal(c, rest))
  {
    var first := Byte(Chr(c), true, Plain);
    assert PieceItems(ct, first, rest, k) == Cons(One(Chr(c)), Nil) && Parens(first) == 0;
    assert Append(Cons(One(Chr(c)), Nil), BranchItems(ct, rest, k)) ==
           Cons(One(Chr(c)), Append(Nil, BranchItems(ct, rest, k)));
  }

  lemma StarItems(ct: CTypes, alts: Choice, k: nat)
    ensures BranchItems(ct, Star(alts), k) == Cons(Group(BraZero, Loop(Grp(false, 0, ChoiceAlts(ct, alts, k), Ket), Greedy)), Nil)
    ensures WfChoice(alts) ==> WfBranch(Star(alts))
    ensures SureChoice(ct, alts) ==> SureBranch(ct, Star(alts))
  {
    hide ChoiceAlts, AnyLooksEmpty;
    var p := Star(alts).p;
    var items := Cons(Group(BraZero, Loop(Grp(false, 0, ChoiceAlts(ct, alts, k), Ket), Greedy)), Nil);
    assert ParenGrp(ct, false, alts, k) == Grp(false, 0, ChoiceAlts(ct, alts, k), Ket);
    assert PieceItems(ct, p, Done, k) == items;
    assert BranchItems(ct, Done, k + Parens(p)) == Nil;
    assert Append(items, Nil) == Cons(items.head, Append(Nil, Nil));
  }

  lemma InnerCode(ct: CTypes, b: byte)
    ensures WfBranch(Star(InnerLoop(b))) && SureBranch(ct, Star(InnerLoop(b)))
    ensures BranchItems(ct, Star(InnerLoop(b)), 0) == InnerItems(b)
  {
    hide Loop;
    LiteralItems(ct, b, Done, 0);
    DoneItems(ct);
    NoParens(b, Done);
    OrAlts(ct, Literal(b, Done), Only(Done));
    StarItems(ct, InnerLoop(b), 0);
    LoopOf(Inner(b).alts);
  }

  lemma DoneItems(ct: CTypes)
    ensures WfBranch(Done) && SureBranch(ct, Done) && BranchItems(ct, Done, 0) == Nil
    ensures WfChoice(Only(Done)) && SureChoice(ct, Only(Done)) && ChoiceAlts(ct, Only(Done), 0) == Last(Nil)
  {
  }

  lemma NoParens(c: byte, rest: Branch)
    ensures ParensBranch(Literal(c, rest)) == ParensBranch(rest) && ParensBranch(Done) == 0
  {
  }

  lemma OrAlts(ct: CTypes, b: Branch, more: Choice)
    requires ParensBranch(b) == 0
    ensures ChoiceAlts(ct, Or(b, more), 0) == More(BranchItems(ct, b, 0), ChoiceAlts(ct, more, 0))
    ensures WfBranch(b) && WfChoice(more) ==> WfChoice(Or(b, more))
    ensures SureBranch(ct, b) && SureChoice(ct, more) ==> SureChoice(ct, Or(b, more))
  {
  }

  /** A loop whose last branch is empty gets the S form. */
  lemma LoopOf(alts: Alts)
    requires AnyLooksEmpty(alts)
    ensures Loop(Grp(false, 0, alts, Ket), Greedy) == Grp(true, 0, alts, KetRmax)
  {
  }

  lemma LastEmpty(alts: Alts)
    requires alts.More? && (alts.rest == Last(Nil) || AnyLooksEmpty(alts.rest))
    ensures AnyLooksEmpty(alts)
  {
    assert LooksEmpty(Nil);
  }

  lemma OuterCode(ct: CTypes, a: byte, b: byte, d: byte)
    ensures WfBranch(Star(OuterLoop(a, b, d))) && SureBranch(ct, Star(OuterLoop(a, b, d)))
    ensures BranchItems(ct, Star(OuterLoop(a, b, d)), 0) == Cons(Group(BraZero, OuterGrp(a, b, d)), Nil)
  {
    hide Loop, BranchItems, WfBranch, SureBranch, ChoiceAlts;
    var inner := Star(InnerLoop(b));
    InnerCode(ct, b);
    LiteralItems(ct, a, inner, 0);
    LiteralItems(ct, d, Done, 0);
    DoneItems(ct);
    NoParens(d, Done);
    NoParens(b, Done);
    InnerParens(b);
    NoParens(a, inner);
    OrAlts(ct, Literal(d, Done), Only(Done));
    OrAlts(ct, Literal(a, inner), Or(Literal(d, Done), Only(Done)));
    StarItems(ct, OuterLoop(a, b, d), 0);
    LastEmpty(OuterGrp(a, b, d).alts.rest);
    LastEmpty(OuterGrp(a, b, d).alts);
    LoopOf(OuterGrp(a, b, d).alts);
  }

  lemma InnerParens(b: byte)
    ensures ParensBranch(Star(InnerLoop(b))) == 0
  {
    NoParens(b, Done);
    assert ParensChoice(InnerLoop(b)) == ParensBranch(Literal(b, Done)) + ParensChoice(Only(Done));
    assert Parens(Star(InnerLoop(b)).p) == 0;
  }

  lemma TangledCode(ct: CTypes, a: byte, b: byte, d: byte)
    ensures WfChoice(Tangled(a, b, d)) && SureChoice(ct, Tangled(a, b, d))
    ensures TopGrp(ct, Tangled(a, b, d)) == Whole(a, b, d)
    ensures GuardedItems(Items1(ct, Tangled(a, b, d))) && !Untangled(Items1(ct, Tangled(a, b, d)), false)
  {
    hide BranchItems, WfBranch, SureBranch;
    OuterCode(ct, a, b, d);
    assert ChoiceAlts(ct, Tangled(a, b, d), 0) == Last(Cons(Group(BraZero, OuterGrp(a, b, d)), Nil));
    WholeGuarded(a, b, d);
    WholeTangled(a, b, d);
  }

  lemma WholeGuarded(a: byte, b: byte, d: byte)
    ensures GuardedItems(Cons(Group(Once, Whole(a, b, d)), Nil))
  {
    OneGuarded(b, Nil);
    assert GuardedAlts(Inner(b).alts.rest);
    assert GuardedGrp(Inner(b));
    assert GuardedItem(Group(BraZero, Inner(b)));
    assert GuardedItems(InnerItems(b));
    OneGuarded(a, InnerItems(b));
    OneGuarded(d, Nil);
    assert GuardedAlts(OuterGrp(a, b, d).alts.rest);
    assert GuardedGrp(OuterGrp(a, b, d)) && GuardedItems(Whole(a, b, d).alts.b) && GuardedGrp(Whole(a, b, d));
  }

  lemma OneGuarded(c: byte, t: Items)
    requires GuardedItems(t)
    ensures GuardedItems(Cons(One(Chr(c)), t))
  {
  }

  lemma WholeTangled(a: byte, b: byte, d: byte)
    ensures !Untangled(Cons(Group(Once, Whole(a, b, d)), Nil), false)
  {
    assert NullableAlts(Inner(b).alts.rest) && LeavesMark(Inner(b));
    assert !UntangledGrp(Inner(b), true) && !Untangled(InnerItems(b), true);
    assert !Untangled(OuterGrp(a, b, d).alts.b, true);
    assert !UntangledGrp(OuterGrp(a, b, d), false);
    assert !UntangledItem(Group(BraZero, OuterGrp(a, b, d)), false);
    assert !Untangled(Whole(a, b, d).alts.b, false);
    assert !UntangledGrp(Whole(a, b, d), false);
  }

  // ---------------------------------------------------------------------------------------
  // What the search reports

  /** With k calls the opcode loop at p reports a match that ends at e, whatever the captures. */
  ghost predicate Gives(env: Env, p: Point, chain: Chain, k: nat, e: nat) {
    forall n: nat, caps: Caps :: k <= n ==> Go(env, n, p, chain, caps).Matched? && Go(env, n, p, chain, caps).end == e
  }

  lemma GivesEnd(env: Env, chain: Chain, e: nat)
    requires Accepts(env, e)
    ensures Gives(env, Point(Nil, Top, e), chain, 0, e)
  {
  }

  lemma GivesOne(env: Env, p: Point, chain: Chain, k: nat, e: nat)
    requires p.items.Cons? && p.items.head.One? && p.i < |env.subject| && Test(env, p.items.head.x, env.subject[p.i])
    requires Gives(env, Point(p.items.tail, p.ctx, p.i + 1), chain, k, e)
    ensures Gives(env, p, chain, k, e)
  {
  }

  lemma GivesZero(env: Env, g: Grp, t: Items, ctx: Ctx, i: nat, chain: Chain, k: nat, e: nat)
    requires Gives(env, Point(Cons(Group(Once, g), t), ctx, i), chain, k, e)
    ensures Gives(env, Point(Cons(Group(BraZero, g), t), ctx, i), chain, k + 1, e)
  {
    hide Gives;
    var p, enter := Point(Cons(Group(BraZero, g), t), ctx, i), Point(Cons(Group(Once, g), t), ctx, i);
    forall n: nat, caps: Caps | k + 1 <= n ensures var r := Go(env, n, p, chain, caps); r.Matched? && r.end == e {
      GivesGo(env, enter, chain, k, e, n - 1, caps);
      assert Call(env, n, enter, chain, caps) == Go(env, n - 1, enter, chain, caps);
    }
    GivesIntro(env, p, chain, k + 1, e);
  }

  lemma GivesFirst(env: Env, g: Grp, t: Items, ctx: Ctx, i: nat, chain: Chain, k: nat, e: nat)
    requires Gives(env, Point(g.alts.b, In(g, t, ctx), i), Push(g.s, chain, i), k, e)
    ensures Gives(env, Point(Cons(Group(Once, g), t), ctx, i), chain, k + 1, e)
  {
    forall n: nat, caps: Caps | k + 1 <= n
      ensures var r := Go(env, n, Point(Cons(Group(Once, g), t), ctx, i), chain, caps); r.Matched? && r.end == e
    {
      var caps' := OpenCap(env, caps, g.cap, i);
      var r := Call(env, n, Point(g.alts.b, In(g, t, ctx), i), Push(g.s, chain, i), caps');
      assert r == Go(env, n - 1, Point(g.alts.b, In(g, t, ctx), i), Push(g.s, chain, i), caps');
    }
  }

  /** The first branch is a literal that is not there, and the second one is the last. */
  lemma GivesSecond(env: Env, g: Grp, t: Items, ctx: Ctx, i: nat, chain: Chain, k: nat, e: nat)
    requires g.alts.More? && g.alts.rest.Last? && g.alts.b.Cons? && g.alts.b.head.One?
    requires i < |env.subject| && !Test(env, g.alts.b.head.x, env.subject[i])
    requires Gives(env, Point(g.alts.rest.b, In(g, t, ctx), i), Push(g.s, chain, i), k, e)
    ensures Gives(env, Point(Cons(Group(Once, g), t), ctx, i), chain, k + 2, e)
  {
    forall n: nat, caps: Caps | k + 2 <= n
      ensures var r := Go(env, n, Point(Cons(Group(Once, g), t), ctx, i), chain, caps); r.Matched? && r.end == e
    {
      var caps', chain', inner := OpenCap(env, caps, g.cap, i), Push(g.s, chain, i), In(g, t, ctx);
      var r := Call(env, n, Point(g.alts.b, inner, i), chain', caps');
      assert r == Go(env, n - 1, Point(g.alts.b, inner, i), chain', caps') == Failed(n - 1, caps'.vec, caps'.over);
      var r' := Call(env, n - 1, Point(g.alts.rest.b, inner, i), chain', Resume(caps', r));
      assert r' == Go(env, n - 2, Point(g.alts.rest.b, inner, i), chain', Resume(caps', r));
      assert Try(env, n - 1, g.alts.rest, g, t, ctx, i, chain', Resume(caps', r)) == r';
    }
  }

  lemma GivesLeave(env: Env, ctx: Ctx, i: nat, chain: Chain, k: nat, e: nat)
    requires ctx.In? && (ctx.g.ket == Ket || (ctx.g.s && MarkedHere(chain, i)))
    requires Gives(env, Point(ctx.rest, ctx.outer, i), if ctx.g.s then Pop(chain) else chain, k, e)
    ensures Gives(env, Point(Nil, ctx, i), chain, k, e)
  {
    hide Gives, CloseCap;
    var leave, chain' := Point(ctx.rest, ctx.outer, i), if ctx.g.s then Pop(chain) else chain;
    forall n: nat, caps: Caps | k <= n
      ensures var r := Go(env, n, Point(Nil, ctx, i), chain, caps); r.Matched? && r.end == e
    {
      var caps' := CloseCap(env, caps, ctx.g.cap, i);
      GivesGo(env, leave, chain', k, e, n, caps');
      assert Go(env, n, Point(Nil, ctx, i), chain, caps) == AtKet(env, n, Point(Nil, ctx, i), chain, caps);
    }
    GivesIntro(env, Point(Nil, ctx, i), chain, k, e);
  }

  lemma GivesAgain(env: Env, ctx: Ctx, i: nat, chain: Chain, k: nat, e: nat)
    requires ctx.In? && ctx.g.ket == KetRmax && ctx.g.s && !MarkedHere(chain, i)
    requires Gives(env, Point(Cons(Group(Once, ctx.g), ctx.rest), ctx.outer, i), Mark(i, Pop(chain)), k, e)
    ensures Gives(env, Point(Nil, ctx, i), chain, k + 1, e)
  {
    hide Gives, CloseCap;
    forall n: nat, caps: Caps | k + 1 <= n
      ensures var r := Go(env, n, Point(Nil, ctx, i), chain, caps); r.Matched? && r.end == e
    {
      var caps', again, chain' := CloseCap(env, caps, ctx.g.cap, i),
          Point(Cons(Group(Once, ctx.g), ctx.rest), ctx.outer, i), Mark(i, Pop(chain));
      var r := Call(env, n, again, chain', caps');
      GivesGo(env, again, chain', k, e, n - 1, caps');
      assert r == Go(env, n - 1, again, chain', caps');
    }
    GivesIntro(env, Point(Nil, ctx, i), chain, k + 1, e);
  }

  lemma GivesGo(env: Env, p: Point, chain: Chain, k: nat, e: nat, n: nat, caps: Caps)
    requires Gives(env, p, chain, k, e) && k <= n
    ensures Go(env, n, p, chain, caps).Matched? && Go(env, n, p, chain, caps).end == e
  {
  }

  lemma GivesIntro(env: Env, p: Point, chain: Chain, k: nat, e: nat)
    requires forall n: nat, caps: Caps :: k <= n ==> var r := Go(env, n, p, chain, caps); r.Matched? && r.end == e
    ensures Gives(env, p, chain, k, e)
  {
  }

  lemma {:induction false} InnerGives(env: Env, a: byte, b: byte, d: byte)
    requires env.subject == [a, b, d] && b != d && Accepts(env, 2)
    ensures var outer := In(OuterGrp(a, b, d), Nil, In(Whole(a, b, d), Nil, Top));
      Gives(env, Point(InnerItems(b), outer, 1), Mark(0, NoMark), 5, 2)
  {
    hide Gives, Go, Accepts;
    var top := In(Whole(a, b, d), Nil, Top);
    var outer := In(OuterGrp(a, b, d), Nil, top);
    var g, start := Inner(b), Mark(0, NoMark);
    var inner := In(g, Nil, outer);
    GivesEnd(env, start, 2);
    GivesLeave(env, top, 2, start, 0, 2);
    GivesLeave(env, outer, 2, Mark(2, start), 0, 2);
    GivesLeave(env, inner, 2, Mark(2, Mark(2, start)), 0, 2);
    GivesSecond(env, g, Nil, outer, 2, Mark(2, start), 0, 2);
    GivesAgain(env, inner, 2, Mark(1, start), 2, 2);
    GivesOne(env, Point(g.alts.b, inner, 1), Mark(1, start), 3, 2);
    GivesFirst(env, g, Nil, outer, 1, start, 3, 2);
    GivesZero(env, g, Nil, outer, 1, start, 4, 2);
  }

  lemma {:induction false} SearchGives(env: Env, a: byte, b: byte, d: byte)
    requires env.subject == [a, b, d] && b != d && Accepts(env, 2)
    ensures Gives(env, Point(Cons(Group(Once, Whole(a, b, d)), Nil), Top, 0), NoMark, 8, 2)
  {
    hide Gives, Go, Accepts;
    var g, top := OuterGrp(a, b, d), In(Whole(a, b, d), Nil, Top);
    InnerGives(env, a, b, d);
    GivesOne(env, Point(g.alts.b, In(g, Nil, top), 0), Mark(0, NoMark), 5, 2);
    GivesFirst(env, g, Nil, top, 0, NoMark, 5, 2);
    GivesZero(env, g, Nil, top, 0, NoMark, 6, 2);
    GivesFirst(env, Whole(a, b, d), Nil, Top, 0, NoMark, 7, 2);
  }

  // ---------------------------------------------------------------------------------------
  // What the pattern prefers

  predicate Starts(ws: seq<nat>, e: nat) {
    ws != [] && ws[0] == e
  }

  lemma LiteralWays(env: Env, c: byte, i: nat)
    requires i <= |env.subject|
    ensures PieceWays(env, Byte(Chr(c), true, Plain), i) == if i < |env.subject| && env.subject[i] == c then [i + 1] else []
  {
    hide Pick;
    var p := (j: nat) => MeansByte(env, Chr(c), Plain, i, j);
    if i < |env.subject| && env.subject[i] == c {
      PickOne(p, i, |env.subject| + 1, false, i + 1);
    } else {
      PickNone(p, i, |env.subject| + 1, false);
    }
  }

  lemma LiteralBranch(env: Env, c: byte, rest: Branch, i: nat)
    requires i <= |env.subject|
    ensures BranchWays(env, Literal(c, rest), i) == if i < |env.subject| && env.subject[i] == c then BranchWays(env, rest, i + 1) else []
  {
    hide PieceWays;
    LiteralWays(env, c, i);
    if i < |env.subject| && env.subject[i] == c {
      BranchOnOne(env, rest, i + 1);
    }
  }

  lemma {:induction false} DoneOn(env: Env, ms: seq<nat>)
    ensures BranchOn(env, Done, ms) == ms
    decreases |ms|
  {
    if ms != [] {
      DoneOn(env, ms[1..]);
    }
  }

  /** The first way through a loop: the first way through its body, and on from there. */
  lemma StarStarts(env: Env, alts: Choice, i: nat, m: nat, e: nat)
    requires Starts(ChoiceWays(env, alts, i), m) && i <= m <= |env.subject|
    requires if m == i then e == i else Starts(BranchWays(env, Star(alts), m), e)
    ensures Starts(BranchWays(env, Star(alts), i), e)
  {
    hide ChoiceWays;
    DoneOn(env, Repeat(env, alts, 0, NoMax, false, i));
    DoneOn(env, Repeat(env, alts, 0, NoMax, false, m));
    var ms := ChoiceWays(env, alts, i);
    assert Starts(RepeatFrom(env, alts, 0, NoMax, false, i, m), e);
    assert Starts(RepeatOn(env, alts, 0, NoMax, false, i, ms), e);
  }

  lemma {:induction false} InnerWays(env: Env, b: byte, i: nat)
    requires i <= |env.subject|
    ensures Starts(ChoiceWays(env, InnerLoop(b), i), if i < |env.subject| && env.subject[i] == b then i + 1 else i)
  {
    hide BranchWays;
    LiteralBranch(env, b, Done, i);
    DoneWays(env, i);
    DoneWays(env, i + 1);
  }

  lemma DoneWays(env: Env, i: nat)
    ensures BranchWays(env, Done, i) == [i]
  {
  }

  lemma {:induction false} OuterWays(env: Env, a: byte, b: byte, d: byte, i: nat)
    requires env.subject == [a, b, d] && a != d && b != d && (i == 0 || i == 2 || i == 3)
    ensures Starts(ChoiceWays(env, OuterLoop(a, b, d), i), if i == 0 then 2 else 3)
  {
    hide BranchWays;
    hide ChoiceWays;
    var more := Or(Literal(d, Done), Only(Done));
    OrWays(env, Literal(a, Star(InnerLoop(b))), more, i);
    OrWays(env, Literal(d, Done), Only(Done), i);
    OnlyWays(env, Done, i);
    LiteralBranch(env, a, Star(InnerLoop(b)), i);
    LiteralBranch(env, d, Done, i);
    DoneWays(env, i);
    DoneWays(env, i + 1);
    if i == 0 {
      InnerWays(env, b, 2);
      StarStarts(env, InnerLoop(b), 2, 2, 2);
      InnerWays(env, b, 1);
      StarStarts(env, InnerLoop(b), 1, 2, 2);
    }
  }

  lemma {:induction false} TangledWays(env: Env, a: byte, b: byte, d: byte)
    requires env.subject == [a, b, d] && a != d && b != d
    ensures Starts(ChoiceWays(env, Tangled(a, b, d), 0), 3)
  {
    hide ChoiceWays, BranchWays;
    var o := OuterLoop(a, b, d);
    OuterWays(env, a, b, d, 3);
    StarStarts(env, o, 3, 3, 3);
    OuterWays(env, a, b, d, 2);
    StarStarts(env, o, 2, 3, 3);
    OuterWays(env, a, b, d, 0);
    StarStarts(env, o, 0, 2, 3);
    OnlyWays(env, Star(o), 0);
  }

  lemma OrWays(env: Env, b: Branch, more: Choice, i: nat)
    ensures ChoiceWays(env, Or(b, more), i) == BranchWays(env, b, i) + ChoiceWays(env, more, i)
  {
    hide BranchWays;
  }

  lemma OnlyWays(env: Env, b: Branch, i: nat)
    ensures ChoiceWays(env, Only(b), i) == BranchWays(env, b, i)
  {
  }

  /** The pattern prefers the match that ends at 3, match() reports the one that ends at 2. */
  lemma {:induction false} MarkInTheWay(env: Env, a: byte, b: byte, d: byte, n: nat, caps: Caps)
    requires env.subject == [a, b, d] && a != d && b != d && env.mstart == 0 && 9 <= n
    ensures Sound(env.ctypes, Tangled(a, b, d)) && GuardedItems(Items1(env.ctypes, Tangled(a, b, d)))
    ensures forall e: nat :: FirstOf(env, ChoiceWays(env, Tangled(a, b, d), 0), e) <==> e == 3
    ensures var r := Call(env, n, Point(Items1(env.ctypes, Tangled(a, b, d)), Top, 0), NoMark, caps); r.Matched? && r.end == 2
  {
    hide Go, Gives, ChoiceWays;
    TangledCode(env.ctypes, a, b, d);
    SearchGives(env, a, b, d);
    GivesGo(env, Point(Items1(env.ctypes, Tangled(a, b, d)), Top, 0), NoMark, 8, 2, n - 1, caps);
    TangledWays(env, a, b, d);
    var ws := ChoiceWays(env, Tangled(a, b, d), 0);
    assert FirstOf(env, ws, 3);
    forall e: nat | FirstOf(env, ws, e) ensures e == 3 {
      FirstUnique(env, ws, e, 3);
    }
  }
}
