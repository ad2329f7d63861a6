/** Unlimited groups of compiled patterns: when every iteration is guaranteed to make progress,
    so that match() needs only finitely many calls, and what happens when it is not. */
module Loops {
  import opened Tree
  import opened Machine
  import opened Search
  import opened Progress
  import opened Regex
  import opened Emptiness
  import opened Compile

  // ---------------------------------------------------------------------------------------
  // Which groups the compiler guards

  /** The S form is used exactly for unlimited groups some branch of which looks empty. */
  predicate FlaggedItems(items: Items)
    decreases items
  {
    items.Cons? ==> FlaggedItem(items.head) && FlaggedItems(items.tail)
  }

  predicate FlaggedItem(it: Item)
    decreases it
  {
    it.Group? ==> FlaggedGrp(it.g)
  }

  predicate FlaggedGrp(g: Grp)
    decreases g
  {
    g.s == (g.ket != Ket && AnyLooksEmpty(g.alts)) && FlaggedAlts(g.alts)
  }

  predicate FlaggedAlts(alts: Alts)
    decreases alts
  {
    FlaggedItems(alts.b) && (alts.More? ==> FlaggedAlts(alts.rest))
  }

  lemma {:induction false} FlaggedAppend(a: Items, b: Items)
    requires FlaggedItems(a) && FlaggedItems(b)
    ensures FlaggedItems(Append(a, b))
  {
    if a.Cons? {
      FlaggedAppend(a.tail, b);
    }
  }

  lemma {:induction false} FlaggedCopies(g: Grp, n: nat, tail: Items)
    requires FlaggedGrp(g) && FlaggedItems(tail)
    ensures FlaggedItems(Copies(g, n, tail))
  {
    if n > 0 {
      FlaggedCopies(g, n - 1, tail);
    }
  }

  lemma {:induction false} FlaggedOptional(z: Zero, g: Grp, n: nat)
    requires FlaggedGrp(g)
    ensures FlaggedItems(Optional(z, g, n))
  {
    if n > 1 {
      FlaggedOptional(z, g, n - 1);
      var inner := Grp(false, 0, Last(Cons(Group(Once, g), Optional(z, g, n - 1))), Ket);
      assert FlaggedItems(inner.alts.b);
      assert FlaggedGrp(inner);
    }
  }

  lemma {:induction false} FlaggedGroup(g: Grp, q: Quant)
    requires FlaggedGrp(g) && g.ket == Ket
    ensures FlaggedItems(GroupItems(g, q))
  {
    hide AnyLooksEmpty;
    match q
    case Plain =>
    case Quant(lo, Max(hi), m, _) =>
      var z := if m == Lazy then BraMinZero else BraZero;
      if 0 < hi && lo <= hi {
        FlaggedOptional(z, g, hi - lo);
        FlaggedCopies(g, lo, Optional(z, g, hi - lo));
      }
    case Quant(lo, NoMax, m, _) =>
      assert FlaggedGrp(Loop(g, m));
      if lo > 0 {
        FlaggedCopies(g, lo - 1, Cons(Group(Once, Loop(g, m)), Nil));
      }
  }

  /** Compiled branches have this form. */
  lemma {:induction false} CompiledFlagged(ct: CTypes, b: Branch, k: nat)
    ensures FlaggedItems(BranchItems(ct, b, k))
    decreases b
  {
    if b.Then? {
      CompiledFlagged(ct, b.rest, k + Parens(b.p));
      if b.p.Paren? {
        var g := PieceGrp(ct, b.p, k);
        ChoiceFlagged(ct, b.p.alts, if b.p.capturing then k + 1 else k);
        FlaggedGroup(g, b.p.q);
      }
      FlaggedAppend(PieceItems(ct, b.p, b.rest, k), BranchItems(ct, b.rest, k + Parens(b.p)));
    }
  }

  function PieceGrp(ct: CTypes, p: Piece, k: nat): Grp
    requires p.Paren?
  {
    ParenGrp(ct, p.capturing, p.alts, k)
  }

  lemma {:induction false} ChoiceFlagged(ct: CTypes, alts: Choice, k: nat)
    ensures FlaggedAlts(ChoiceAlts(ct, alts, k))
    decreases alts
  {
    CompiledFlagged(ct, alts.b, k);
    if alts.Or? {
      ChoiceFlagged(ct, alts.more, k + ParensBranch(alts.b));
    }
  }

  // ---------------------------------------------------------------------------------------
  // When that is enough

  /** No unlimited group whose branches all look non-empty has a branch that misleads the scan. */
  predicate NoTraps(items: Items)
    decreases items
  {
    items.Cons? ==> NoTrapsItem(items.head) && NoTraps(items.tail)
  }

  predicate NoTrapsItem(it: Item)
    decreases it
  {
    it.Group? && it.zero != SkipZero ==> NoTrapsGrp(it.g)
  }

  predicate NoTrapsGrp(g: Grp)
    decreases g
  {
    (g.ket != Ket && !AnyLooksEmpty(g.alts) ==> !AnyTrap(g.alts)) && NoTrapsAlts(g.alts)
  }

  predicate NoTrapsAlts(alts: Alts)
    decreases alts
  {
    NoTraps(alts.b) && (alts.More? ==> NoTrapsAlts(alts.rest))
  }

  /** Every unlimited group of compiled code is guarded exactly if there are no traps. */
  lemma {:induction false} GuardedExact(items: Items)
    requires FlaggedItems(items)
    ensures GuardedItems(items) <==> NoTraps(items)
    decreases items
  {
    if items.Cons? {
      GuardedExact(items.tail);
      if items.head.Group? {
        GuardedGroup(items.head.g);
      }
    }
  }

  lemma {:induction false} GuardedGroup(g: Grp)
    requires FlaggedGrp(g)
    ensures GuardedGrp(g) <==> NoTrapsGrp(g)
    decreases g
  {
    GuardedChoice(g.alts);
    if !AnyLooksEmpty(g.alts) {
      AnyTrapExact(g.alts);
    }
  }

  lemma {:induction false} GuardedChoice(alts: Alts)
    requires FlaggedAlts(alts)
    ensures GuardedAlts(alts) <==> NoTrapsAlts(alts)
    decreases alts
  {
    GuardedExact(alts.b);
    if alts.More? {
      GuardedChoice(alts.rest);
    }
  }

  /** In particular there are none if the bodies of unlimited groups have S groups only where the scan skips
      them. */
  predicate ShelteredLoops(items: Items)
    decreases items
  {
    items.Cons? ==> ShelteredLoop(items.head) && ShelteredLoops(items.tail)
  }

  predicate ShelteredLoop(it: Item)
    decreases it
  {
    it.Group? && it.zero != SkipZero ==> (it.g.ket != Ket ==> ShelteredAlts(it.g.alts)) && ShelteredLoopsAlts(it.g.alts)
  }

  predicate ShelteredLoopsAlts(alts: Alts)
    decreases alts
  {
    ShelteredLoops(alts.b) && (alts.More? ==> ShelteredLoopsAlts(alts.rest))
  }

  lemma {:induction false} ShelteredGuarded(items: Items)
    requires FlaggedItems(items) && ShelteredLoops(items)
    ensures GuardedItems(items)
    decreases items
  {
    if items.Cons? {
      ShelteredGuarded(items.tail);
      if items.head.Group? && items.head.zero != SkipZero {
        assert FlaggedItem(items.head) && FlaggedGrp(items.head.g);
        ShelteredGuardedAlts(items.head.g.alts);
        if items.head.g.ket != Ket {
          ShelteredChoice(items.head.g.alts);
        }
        assert GuardedGrp(items.head.g);
      }
    }
  }

  lemma {:induction false} ShelteredGuardedAlts(alts: Alts)
    requires FlaggedAlts(alts) && ShelteredLoopsAlts(alts)
    ensures GuardedAlts(alts)
    decreases alts
  {
    ShelteredGuarded(alts.b);
    if alts.More? {
      ShelteredGuardedAlts(alts.rest);
    }
  }

  // ---------------------------------------------------------------------------------------
  // What happens otherwise

  /** A group that is repeated without the check for empty iterations although it has an empty branch. */
  predicate Unchecked(g: Grp) {
    g.ket != Ket && !g.s && NullableAlts(g.alts)
  }

  /** The start of the group of a context, at the end of the subject. */
  function Outset(env: Env, base: Ctx): Point
    requires base.In?
  {
    Point(Cons(Group(Once, base.g), base.rest), base.outer, |env.subject|)
  }

  /** Inside the group of the context. */
  predicate Under(base: Ctx, ctx: Ctx) {
    ctx == base || (ctx.In? && Under(base, ctx.outer))
  }

  /** The same, and the end of that group can be reached from the end of the current branch without
      consuming anything. */
  predicate Near(base: Ctx, ctx: Ctx) {
    ctx == base || (ctx.In? && Nullable(ctx.rest) && Near(base, ctx.outer))
  }

  ghost predicate Going(env: Env, base: Ctx, p: Point) {
    base.In? && p.i == |env.subject| && (p == Outset(env, base) || (Near(base, p.ctx) && p.ctx.In? && Nullable(p.items)))
  }

  /** From such a point no attempt ever fails: it always comes to start the group once more. */
  lemma {:induction false} CallGoes(env: Env, base: Ctx, n: nat, p: Point, chain: Chain, caps: Caps)
    requires Going(env, base, p) && Unchecked(base.g)
    ensures !Call(env, n, p, chain, caps).Failed?
    decreases n, 0, 0
  {
    if n > 0 {
      GoGoes(env, base, n - 1, p, chain, caps);
    }
  }

  lemma {:induction false} GoGoes(env: Env, base: Ctx, n: nat, p: Point, chain: Chain, caps: Caps)
    requires Going(env, base, p) && Unchecked(base.g)
    ensures !Go(env, n, p, chain, caps).Failed?
    decreases n, 2, 2 * (Length(p.items) + Weight(p.ctx)) + 1
  {
    hide Test, MarkedHere, CloseCap, OpenCap, PutBack, NullableAlts;
    var e, ctx := p.i, p.ctx;
    match p.items
    case Nil => KetGoes(env, base, n, p, chain, caps);
    case Cons(One(x), t) =>
      assert !Nullable(p.items);
    case Cons(Many(x, r), t) =>
      assert Nullable(p.items) <==> Min(r) == 0 && Nullable(t);
      GoMany(env, n, p, chain, caps);
      if Fixed(r) || ModeOf(r) == Poss {
        GoGoes(env, base, n, Point(t, ctx, e), chain, caps);
      } else {
        CallGoes(env, base, n, Point(t, ctx, e), chain, caps);
      }
    case Cons(Group(z, g'), t) =>
      if z == Once {
        assert p == Outset(env, base) || (NullableItem(p.items.head) && Nullable(t));
        TryGoes(env, base, n, g'.alts, g', t, ctx, Push(g'.s, chain, e), OpenCap(env, caps, g'.cap, e));
      } else {
        assert Nullable(t);
        var enter, skip := Point(Cons(Group(Once, g'), t), ctx, e), Point(t, ctx, e);
        if z == BraMinZero {
          CallGoes(env, base, n, skip, chain, caps);
        } else {
          var r := Call(env, n, enter, chain, caps);
          if z == SkipZero {
            GoGoes(env, base, n, skip, chain, caps);
          } else if r.Failed? {
            GoGoes(env, base, r.left, skip, chain, Resume(caps, r));
          }
        }
      }
  }

  lemma {:induction false} TryGoes(env: Env, base: Ctx, n: nat, alts: Alts, g: Grp, t: Items, ctx: Ctx, chain: Chain,
                                   caps: Caps)
    requires base.In? && Near(base, In(g, t, ctx)) && Unchecked(base.g) && NullableAlts(alts)
    ensures !Try(env, n, alts, g, t, ctx, |env.subject|, chain, caps).Failed?
    decreases n, 1, alts
  {
    var p := Point(alts.b, In(g, t, ctx), |env.subject|);
    var r := Call(env, n, p, chain, caps);
    if Nullable(alts.b) {
      CallGoes(env, base, n, p, chain, caps);
    } else if r.Failed? {
      TryGoes(env, base, r.left, alts.rest, g, t, ctx, chain, Resume(caps, r));
    }
  }

  lemma {:induction false} KetGoes(env: Env, base: Ctx, n: nat, p: Point, chain: Chain, caps: Caps)
    requires Going(env, base, p) && Unchecked(base.g) && p.items.Nil?
    ensures p.ctx.In? && !AtKet(env, n, p, chain, caps).Failed?
    decreases n, 2, 2 * Weight(p.ctx)
  {
    hide CloseCap, NullableAlts, Nullable;
    if p.ctx != base {
      assert Nullable(p.ctx.rest) && Near(base, p.ctx.outer) && p.ctx.outer.In?;
    }
    var g := p.ctx.g;
    var leave, again := Point(p.ctx.rest, p.ctx.outer, p.i), Point(Cons(Group(Once, g), p.ctx.rest), p.ctx.outer, p.i);
    var chain' := if g.s then Pop(chain) else chain;
    var caps' := CloseCap(env, caps, g.cap, p.i);
    if p.ctx == base {
      var r := Call(env, n, leave, chain', caps');
      if g.ket == KetRmax {
        CallGoes(env, base, n, again, chain', caps');
      } else if r.Failed? {
        CallGoes(env, base, r.left, again, chain', Resume(caps', r));
      }
    } else if g.ket == Ket || (g.s && MarkedHere(chain, p.i)) {
      GoGoes(env, base, n, leave, chain', caps');
    } else if g.ket == KetRmin {
      CallGoes(env, base, n, leave, chain', caps');
    } else {
      var r := Call(env, n, again, Push(g.s, chain', p.i), caps');
      if r.Failed? {
        CallGoes(env, base, r.left, leave, chain', Resume(caps', r));
      }
    }
  }

  /** Leaving the group is never tried, or leads nowhere. */
  ghost predicate Closed(env: Env, base: Ctx) {
    base.In? && Unchecked(base.g) && (base.g.ket == KetRmin ==>
      Doomed(env, Point(base.rest, base.outer, |env.subject|), {}))
  }

  ghost predicate Kept(env: Env, base: Ctx, p: Point) {
    base.In? && p.i == |env.subject| && (p == Outset(env, base) || (Under(base, p.ctx) && p.ctx.In?))
  }

  /** From inside such a group nothing is ever reported as matched. */
  lemma {:induction false} CallStays(env: Env, base: Ctx, n: nat, p: Point, chain: Chain, caps: Caps)
    requires Closed(env, base) && Kept(env, base, p)
    ensures !Call(env, n, p, chain, caps).Matched?
    decreases n, 0, 0
  {
    if n > 0 {
      GoStays(env, base, n - 1, p, chain, caps);
    }
  }

  lemma {:induction false} GoStays(env: Env, base: Ctx, n: nat, p: Point, chain: Chain, caps: Caps)
    requires Closed(env, base) && Kept(env, base, p)
    ensures !Go(env, n, p, chain, caps).Matched?
    decreases n, 2, 2 * (Length(p.items) + Weight(p.ctx)) + 1
  {
    hide Closed, Test, MarkedHere, CloseCap, OpenCap, PutBack;
    var e, ctx := p.i, p.ctx;
    match p.items
    case Nil => KetStays(env, base, n, p, chain, caps);
    case Cons(One(x), t) =>
    case Cons(Many(x, r), t) =>
      GoMany(env, n, p, chain, caps);
      if Min(r) == 0 {
        if Fixed(r) || ModeOf(r) == Poss {
          GoStays(env, base, n, Point(t, ctx, e), chain, caps);
        } else {
          CallStays(env, base, n, Point(t, ctx, e), chain, caps);
        }
      }
    case Cons(Group(z, g'), t) =>
      var enter, skip := Point(Cons(Group(Once, g'), t), ctx, e), Point(t, ctx, e);
      if z == Once {
        TryStays(env, base, n, g'.alts, g', t, ctx, Push(g'.s, chain, e), OpenCap(env, caps, g'.cap, e));
      } else if z == SkipZero {
        GoStays(env, base, n, skip, chain, caps);
      } else {
        var first, second := if z == BraZero then enter else skip, if z == BraZero then skip else enter;
        var r := Call(env, n, first, chain, caps);
        CallStays(env, base, n, first, chain, caps);
        if r.Failed? {
          GoStays(env, base, r.left, second, chain, Resume(caps, r));
        }
      }
  }

  lemma {:induction false} TryStays(env: Env, base: Ctx, n: nat, alts: Alts, g: Grp, t: Items, ctx: Ctx, chain: Chain,
                                    caps: Caps)
    requires Closed(env, base) && base.In? && Under(base, In(g, t, ctx))
    ensures !Try(env, n, alts, g, t, ctx, |env.subject|, chain, caps).Matched?
    decreases n, 1, alts
  {
    var p := Point(alts.b, In(g, t, ctx), |env.subject|);
    var r := Call(env, n, p, chain, caps);
    CallStays(env, base, n, p, chain, caps);
    if alts.More? && r.Failed? {
      TryStays(env, base, r.left, alts.rest, g, t, ctx, chain, Resume(caps, r));
    }
  }

  lemma {:induction false} KetStays(env: Env, base: Ctx, n: nat, p: Point, chain: Chain, caps: Caps)
    requires Closed(env, base) && Kept(env, base, p) && p.items.Nil?
    ensures p.ctx.In? && !AtKet(env, n, p, chain, caps).Matched?
    decreases n, 2, 2 * Weight(p.ctx)
  {
    hide CloseCap, NullableAlts;
    if p.ctx != base {
      assert Under(base, p.ctx.outer) && p.ctx.outer.In?;
    }
    var h := p.ctx.g;
    var leave, again := Point(p.ctx.rest, p.ctx.outer, p.i), Point(Cons(Group(Once, h), p.ctx.rest), p.ctx.outer, p.i);
    var chain' := if h.s then Pop(chain) else chain;
    var caps' := CloseCap(env, caps, h.cap, p.i);
    if p.ctx == base && h.ket == KetRmax {
      CallStays(env, base, n, again, chain', caps');
      CallGoes(env, base, n, again, chain', caps');
    } else if p.ctx == base {
      var r := Call(env, n, leave, chain', caps');
      CallSound(env, n, leave, chain', caps');
      if r.Failed? {
        CallStays(env, base, r.left, again, chain', Resume(caps', r));
      }
    } else if h.ket == Ket || (h.s && MarkedHere(chain, p.i)) {
      GoStays(env, base, n, leave, chain', caps');
    } else {
      var first, second := if h.ket == KetRmax then again else leave, if h.ket == KetRmax then leave else again;
      var chain1, chain2 := if h.ket == KetRmax then Push(h.s, chain', p.i) else chain', if h.ket == KetRmax then chain' else Push(h.s, chain', p.i);
      var r := Call(env, n, first, chain1, caps');
      CallStays(env, base, n, first, chain1, caps');
      if r.Failed? {
        CallStays(env, base, r.left, second, chain2, Resume(caps', r));
      }
    }
  }

  /** An unchecked group in any context, with any marks: started at the end of the subject it exhausts
      every call limit, for KETRMAX always, for KETRMIN if what follows cannot succeed there. */
  lemma {:induction false} NeverEnds(env: Env, base: Ctx, n: nat, chain: Chain, caps: Caps)
    requires Closed(env, base)
    ensures Call(env, n, Outset(env, base), chain, caps) == Limit
  {
    CallStays(env, base, n, Outset(env, base), chain, caps);
    CallGoes(env, base, n, Outset(env, base), chain, caps);
  }

  // ---------------------------------------------------------------------------------------
  // Exactly when an unlimited group ends

  ghost predicate EndsBy(env: Env, p: Point, chain: Chain, k: nat) {
    forall n: nat, caps: Caps :: k <= n ==> !Call(env, n, p, chain, caps).Limit?
  }

  /** Some call limit is high enough for an attempt at p. */
  ghost predicate Ends(env: Env, p: Point, chain: Chain) {
    exists k: nat :: EndsBy(env, p, chain, k)
  }

  /** What is around the group is guarded, with marks as match() keeps them. */
  ghost predicate Surrounded(env: Env, g: Grp, rest: Items, outer: Ctx, trail: Trail, chain: Chain, i: nat) {
    i <= |env.subject| && GuardedItems(rest) && Fit(outer, trail, chain, i, Nullable(Cons(Group(Once, g), rest)))
  }

  ghost predicate AlwaysEnds(g: Grp) {
    forall env: Env, rest: Items, outer: Ctx, trail: Trail, chain: Chain, i: nat ::
      Surrounded(env, g, rest, outer, trail, chain, i) ==> Ends(env, Point(Cons(Group(Once, g), rest), outer, i), chain)
  }

  /** An unlimited group whose inner groups are guarded ends in every context, at every position of every
      subject, exactly if it is guarded itself. */
  lemma {:induction false} GroupEnds(g: Grp)
    requires g.ket != Ket && GuardedAlts(g.alts)
    ensures AlwaysEnds(g) <==> GuardedGrp(g)
  {
    hide Ends, Surrounded, GuardedAlts, NullableAlts;
    if GuardedGrp(g) {
      forall env: Env, rest: Items, outer: Ctx, trail: Trail, chain: Chain,
             i: nat | Surrounded(env, g, rest, outer, trail, chain, i)
        ensures Ends(env, Point(Cons(Group(Once, g), rest), outer, i), chain)
      {
        GuardedEnds(env, g, rest, outer, trail, chain, i);
      }
    } else {
      var x := One(Chr(0));
      var env, rest := Env([], seq(256, _ => CType(false, false, false)), 0, 0, false, 0, 0), if g.ket == KetRmin then Cons(x, Nil) else Nil;
      RestDoomed(env, x.x);
      var base := In(g, rest, Top);
      UncheckedRuns(env, base);
      TopSurrounded(env, g, rest);
    }
  }

  lemma RestDoomed(env: Env, x: Single)
    requires env.subject == []
    ensures Doomed(env, Point(Cons(One(x), Nil), Top, 0), {})
  {
    hide Can;
    DoomedStep(env, Point(Cons(One(x), Nil), Top, 0), {});
  }

  lemma TopSurrounded(env: Env, g: Grp, rest: Items)
    requires rest == Nil || (rest.Cons? && rest.head.One? && rest.tail == Nil)
    ensures Surrounded(env, g, rest, Top, NoTrail, NoMark, |env.subject|)
  {
    assert GuardedItems(Nil);
  }

  lemma {:induction false} UncheckedRuns(env: Env, base: Ctx)
    requires base.In? && Closed(env, base)
    ensures !Ends(env, Outset(env, base), NoMark)
  {
    hide Closed, Call;
    forall k: nat ensures !EndsBy(env, Outset(env, base), NoMark, k) {
      NeverEnds(env, base, k, NoMark, Caps([], 2, false));
    }
  }

  lemma {:induction false} GuardedEnds(env: Env, g: Grp, rest: Items, outer: Ctx, trail: Trail, chain: Chain, i: nat)
    requires GuardedGrp(g) && Surrounded(env, g, rest, outer, trail, chain, i)
    ensures Ends(env, Point(Cons(Group(Once, g), rest), outer, i), chain)
  {
    hide Fit, GuardedGrp, Enough, Nullable;
    var p := Point(Cons(Group(Once, g), rest), outer, i);
    assert GuardedItem(Group(Once, g)) && GuardedItems(p.items);
    var k := Terminates(env, p, trail, chain);
    forall n: nat, caps: Caps | k + 1 <= n ensures !Call(env, n, p, chain, caps).Limit? {
      EnoughCall(env, p, chain, k, n, caps);
    }
    assert EndsBy(env, p, chain, k + 1);
  }

  // ---------------------------------------------------------------------------------------
  // Whole patterns

  /** A pattern that consists of the group g. */
  function Around(g: Grp): Grp {
    Grp(false, 0, Last(Cons(Group(Once, g), Nil)), Ket)
  }

  lemma {:induction false} PatternNeverEnds(env: Env, g: Grp, n: nat, caps: Caps)
    requires Unchecked(g) && g.ket == KetRmax
    ensures Call(env, n, Point(Cons(Group(Once, Around(g)), Nil), Top, |env.subject|), NoMark, caps) == Limit
  {
    hide NullableAlts;
    if n > 0 {
      var e, caps' := |env.subject|, OpenCap(env, caps, 0, |env.subject|);
      var base := In(g, Nil, In(Around(g), Nil, Top));
      NeverEnds(env, base, n - 1, NoMark, caps');
      assert Around(g).alts.b == Cons(Group(Once, g), Nil);
      assert Try(env, n - 1, Around(g).alts, Around(g), Nil, Top, e, NoMark, caps') == Limit;
      assert Go(env, n - 1, Point(Cons(Group(Once, Around(g)), Nil), Top, e), NoMark, caps) == Limit;
    }
  }

  // ---------------------------------------------------------------------------------------
  // Such patterns exist

  /** The pattern (?:(?:a|b*)+)+ : the inner group is in the S form, and the scan for the outer one
      takes the literal a at the start of its first branch for something that must be matched. */
  function Nasty(): Branch {
    var plus := Quant(1, NoMax, Greedy, false);
    var a, b := Byte(Chr(97), true, Plain), Byte(Chr(98), true, Quant(0, NoMax, Greedy, true));
    var inner := Paren(false, Or(Then(a, Done), Only(Then(b, Done))), plus);
    Then(Paren(false, Only(Then(inner, Done)), plus), Done)
  }

  lemma {:induction false} NastyRunsAway(ct: CTypes)
    ensures WfBranch(Nasty()) && SureBranch(ct, Nasty())
    ensures var items := BranchItems(ct, Nasty(), 0);
      items.Cons? && items.tail.Nil? && items.head.Group? && items.head.zero == Once
      && items.head.g.ket == KetRmax && !items.head.g.s && NullableAlts(items.head.g.alts)
  {
    var plus, star := Quant(1, NoMax, Greedy, false), Quant(0, NoMax, Greedy, true);
    var a, b := Byte(Chr(97), true, Plain), Byte(Chr(98), true, star);
    var ia, ib := Cons(One(Chr(97)), Nil), Cons(Many(Chr(98), Star(Greedy)), Nil);
    assert BranchItems(ct, Then(a, Done), 0) == ia;
    assert PieceItems(ct, b, Done, 0) == ib;
    assert BranchItems(ct, Then(b, Done), 0) == ib;
    var choice := Or(Then(a, Done), Only(Then(b, Done)));
    assert ChoiceAlts(ct, choice, 0) == More(ia, Last(ib));
    var inner := Paren(false, choice, plus);
    var g := Grp(true, 0, More(ia, Last(ib)), KetRmax);
    assert LooksEmpty(ib) && !LooksEmpty(ia);
    assert PieceItems(ct, inner, Done, 0) == Cons(Group(Once, g), Nil);
    assert BranchItems(ct, Then(inner, Done), 0) == Cons(Group(Once, g), Nil);
    var outer := Grp(false, 0, Last(Cons(Group(Once, g), Nil)), KetRmax);
    assert !LooksEmpty(Cons(Group(Once, g), Nil));
    assert Nullable(ib) && NullableAlts(More(ia, Last(ib)));
    assert Nullable(Cons(Group(Once, g), Nil)) && NullableAlts(outer.alts);
    assert PieceItems(ct, Nasty().p, Done, 0) == Cons(Group(Once, outer), Nil);
  }
}
