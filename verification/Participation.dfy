/** Brackets that every match passes through: after success their captures are set. */
module Participation {
  import opened Tree
  import opened Machine
  import opened Search
  import opened Restore

  /** Every match of the items completes a bracket with the number n. */
  predicate Must(items: Items, n: nat)
    decreases items
  {
    items.Cons? && (MustItem(items.head, n) || Must(items.tail, n))
  }

  predicate MustItem(it: Item, n: nat)
    decreases it
  {
    it.Group? && it.zero == Once && (it.g.cap == n || MustAlts(it.g.alts, n))
  }

  predicate MustAlts(alts: Alts, n: nat)
    decreases alts
  {
    Must(alts.b, n) && (alts.More? ==> MustAlts(alts.rest, n))
  }

  predicate MustCtx(ctx: Ctx, n: nat) {
    ctx.In? && (ctx.g.cap == n || Must(ctx.rest, n) || MustCtx(ctx.outer, n))
  }

  lemma {:induction false} MustBranch(b: Items, alts: Alts, n: nat)
    requires InAlts(b, alts) && MustAlts(alts, n)
    ensures Must(b, n)
  {
    if alts.More? && b != alts.b {
      MustBranch(b, alts.rest, n);
    }
  }

  ghost predicate IsSet(env: Env, caps: Caps, n: nat) {
    HasSlots(env, caps, n) && caps.vec[2 * n] >= 0 && caps.vec[2 * n + 1] >= 0
  }

  /** The capture is set, or will be before the end; the working slot of an open bracket holds a position. */
  ghost predicate Due(env: Env, items: Items, ctx: Ctx, caps: Caps, n: nat) {
    && ValidEnv(env) && |caps.vec| == env.oend && HasSlots(env, caps, n)
    && (IsSet(env, caps, n) || Must(items, n) || MustCtx(ctx, n))
    && (n in Open(ctx) ==> caps.vec[env.oend - n] >= 0)
  }

  lemma {:induction false} DueOpen(env: Env, items: Items, ctx: Ctx, caps: Caps, i: nat, b: Items, n: nat)
    requires items.Cons? && items.head.Group? && items.head.zero == Once && InAlts(b, items.head.g.alts)
    requires Due(env, items, ctx, caps, n)
    ensures Due(env, b, In(items.head.g, items.tail, ctx), OpenCap(env, caps, items.head.g.cap, i), n)
  {
    var g := items.head.g;
    MustStep(items, n);
    if MustAlts(g.alts, n) {
      MustBranch(b, g.alts, n);
    }
  }

  /** Closing a bracket, and leaving it or starting it again. */
  lemma {:induction false} DueClose(env: Env, ctx: Ctx, caps: Caps, i: nat, n: nat)
    requires ctx.In? && Due(env, Nil, ctx, caps, n)
    ensures Due(env, ctx.rest, ctx.outer, CloseCap(env, caps, ctx.g.cap, i), n)
    ensures Due(env, Cons(Group(Once, ctx.g), ctx.rest), ctx.outer, CloseCap(env, caps, ctx.g.cap, i), n)
  {
  }

  lemma {:induction false} OpenMust(ctx: Ctx, n: nat)
    requires n in Open(ctx)
    ensures MustCtx(ctx, n)
  {
    if ctx.g.cap != n {
      OpenMust(ctx.outer, n);
    }
  }

  /** What a failed attempt leaves does not matter: the captures of open brackets will be set again. */
  lemma {:induction false} DueResume(env: Env, k: nat, p: Point, chain: Chain, caps: Caps, items: Items, n: nat)
    requires Due(env, items, p.ctx, caps, n) && Call(env, k, p, chain, caps).Failed?
    ensures Due(env, items, p.ctx, Resume(caps, Call(env, k, p, chain, caps)), n)
  {
    hide Call;
    CallRestores(env, k, p, chain, caps);
    assert !Loose(env, Open(p.ctx), env.oend - n);
    if n in Open(p.ctx) {
      OpenMust(p.ctx, n);
    } else {
      assert !Loose(env, Open(p.ctx), 2 * n) && !Loose(env, Open(p.ctx), 2 * n + 1);
    }
  }

  ghost predicate Done(env: Env, res: Res, n: nat) {
    res.Matched? ==> IsSet(env, res.caps, n)
  }

  lemma {:induction false} CallSets(env: Env, k: nat, p: Point, chain: Chain, caps: Caps, n: nat)
    requires Due(env, p.items, p.ctx, caps, n)
    ensures Done(env, Call(env, k, p, chain, caps), n)
    decreases k, 0, 0
  {
    hide Due, IsSet;
    if k > 0 {
      GoSets(env, k - 1, p, chain, caps, n);
    }
  }

  lemma {:induction false} GoSets(env: Env, k: nat, p: Point, chain: Chain, caps: Caps, n: nat)
    requires Due(env, p.items, p.ctx, caps, n)
    ensures Done(env, Go(env, k, p, chain, caps), n)
    decreases k, 2, 2 * (Length(p.items) + Weight(p.ctx)) + 1
  {
    hide Due, IsSet, Test, OpenCap;
    match p.items
    case Nil =>
      if p.ctx.In? {
        KetSets(env, k, p, chain, caps, n);
      } else {
        DueEnd(env, caps, n);
      }
    case Cons(One(x), t) =>
      DueNext(env, p.items, p.ctx, caps, n);
      if p.i < |env.subject| && Test(env, x, env.subject[p.i]) {
        GoSets(env, k, Point(t, p.ctx, p.i + 1), chain, caps, n);
      }
    case Cons(Many(x, r), t) =>
      ManySets(env, k, p, chain, caps, n);
    case Cons(Group(z, g), t) =>
      if z == Once {
        forall b | InAlts(b, g.alts) ensures Due(env, b, In(g, t, p.ctx), OpenCap(env, caps, g.cap, p.i), n) {
          DueOpen(env, p.items, p.ctx, caps, p.i, b, n);
        }
        TrySets(env, k, g.alts, g, t, p.ctx, p.i, Push(g.s, chain, p.i), OpenCap(env, caps, g.cap, p.i), n);
      } else {
        ZeroSets(env, k, p, chain, caps, n);
      }
  }

  lemma DueEnd(env: Env, caps: Caps, n: nat)
    requires Due(env, Nil, Top, caps, n)
    ensures IsSet(env, caps, n)
  {
  }

  lemma DueNext(env: Env, items: Items, ctx: Ctx, caps: Caps, n: nat)
    requires items.Cons? && Due(env, items, ctx, caps, n) && !(items.head.Group? && items.head.zero == Once)
    ensures Due(env, items.tail, ctx, caps, n)
    ensures items.head.Group? ==> Due(env, Cons(Group(Once, items.head.g), items.tail), ctx, caps, n)
  {
    MustStep(items, n);
  }

  lemma MustStep(items: Items, n: nat)
    requires items.Cons?
    ensures Must(items, n) <==> MustItem(items.head, n) || Must(items.tail, n)
  {
  }

  lemma {:induction false} ZeroSets(env: Env, k: nat, p: Point, chain: Chain, caps: Caps, n: nat)
    requires Due(env, p.items, p.ctx, caps, n) && p.items.Cons? && p.items.head.Group? && p.items.head.zero != Once
    ensures Done(env, Go(env, k, p, chain, caps), n)
    decreases k, 2, 2 * (Length(p.items) + Weight(p.ctx))
  {
    hide Due, IsSet;
    var Cons(Group(z, g), t) := p.items;
    var skip, enter := Point(t, p.ctx, p.i), Point(Cons(Group(Once, g), t), p.ctx, p.i);
    DueNext(env, p.items, p.ctx, caps, n);
    if z == SkipZero {
      GoSets(env, k, skip, chain, caps, n);
    } else {
      var first, second := if z == BraZero then enter else skip, if z == BraZero then skip else enter;
      var r := Call(env, k, first, chain, caps);
      CallSets(env, k, first, chain, caps, n);
      if r.Failed? {
        DueResume(env, k, first, chain, caps, second.items, n);
        GoSets(env, r.left, second, chain, Resume(caps, r), n);
      }
    }
  }

  lemma {:induction false} ManySets(env: Env, k: nat, p: Point, chain: Chain, caps: Caps, n: nat)
    requires Due(env, p.items, p.ctx, caps, n) && p.items.Cons? && p.items.head.Many?
    ensures Done(env, Go(env, k, p, chain, caps), n)
    decreases k, 2, 2 * (Length(p.items) + Weight(p.ctx))
  {
    hide Go, Up, Down, RunEnd, Due, IsSet, AllTest;
    GoMany(env, k, p, chain, caps);
    DueNext(env, p.items, p.ctx, caps, n);
    var Cons(Many(x, r), t) := p.items;
    var lo := p.i + Min(r);
    if lo <= |env.subject| && AllTest(env, x, p.i, lo) {
      var hi := RunEnd(env, x, r, p.i, lo);
      if Fixed(r) || ModeOf(r) == Poss {
        GoSets(env, k, Point(t, p.ctx, if Fixed(r) then lo else hi), chain, caps, n);
      } else if ModeOf(r) == Greedy {
        DownSets(env, k, t, p.ctx, lo, hi, chain, caps, n);
      } else {
        UpSets(env, k, x, r, t, p.ctx, p.i, lo, chain, caps, n);
      }
    }
  }

  lemma {:induction false} DownSets(env: Env, k: nat, t: Items, ctx: Ctx, lo: nat, j: nat, chain: Chain, caps: Caps,
                                    n: nat)
    requires Due(env, t, ctx, caps, n)
    ensures Done(env, Down(env, k, t, ctx, lo, j, chain, caps), n)
    decreases k, 1, j
  {
    hide Due, IsSet;
    var r := Call(env, k, Point(t, ctx, j), chain, caps);
    CallSets(env, k, Point(t, ctx, j), chain, caps, n);
    if j > lo && r.Failed? {
      DueResume(env, k, Point(t, ctx, j), chain, caps, t, n);
      DownSets(env, r.left, t, ctx, lo, j - 1, chain, Resume(caps, r), n);
    }
  }

  lemma {:induction false} UpSets(env: Env, k: nat, x: Single, r: Rep, t: Items, ctx: Ctx, i: nat, j: nat,
                                  chain: Chain, caps: Caps, n: nat)
    requires Due(env, t, ctx, caps, n) && i <= j <= |env.subject|
    ensures Done(env, Up(env, k, x, r, t, ctx, i, j, chain, caps), n)
    decreases k, 1, |env.subject| - j
  {
    hide Due, IsSet;
    var res := Call(env, k, Point(t, ctx, j), chain, caps);
    CallSets(env, k, Point(t, ctx, j), chain, caps, n);
    if res.Failed? && AtMost(r, j + 1 - i) && j < |env.subject| && Test(env, x, env.subject[j]) {
      DueResume(env, k, Point(t, ctx, j), chain, caps, t, n);
      UpSets(env, res.left, x, r, t, ctx, i, j + 1, chain, Resume(caps, res), n);
    }
  }

  lemma {:induction false} TrySets(env: Env, k: nat, alts: Alts, g: Grp, t: Items, ctx: Ctx, i: nat, chain: Chain,
                                   caps: Caps, n: nat)
    requires forall b :: InAlts(b, alts) ==> Due(env, b, In(g, t, ctx), caps, n)
    ensures Done(env, Try(env, k, alts, g, t, ctx, i, chain, caps), n)
    decreases k, 1, alts
  {
    hide Due, IsSet;
    var q := Point(alts.b, In(g, t, ctx), i);
    var r := Call(env, k, q, chain, caps);
    assert InAlts(alts.b, alts);
    CallSets(env, k, q, chain, caps, n);
    if alts.More? && r.Failed? {
      forall b | InAlts(b, alts.rest) ensures Due(env, b, In(g, t, ctx), Resume(caps, r), n) {
        DueResume(env, k, q, chain, caps, b, n);
      }
      TrySets(env, r.left, alts.rest, g, t, ctx, i, chain, Resume(caps, r), n);
    }
  }

  lemma {:induction false} KetSets(env: Env, k: nat, p: Point, chain: Chain, caps: Caps, n: nat)
    requires p.items.Nil? && p.ctx.In? && Due(env, Nil, p.ctx, caps, n)
    ensures Done(env, AtKet(env, k, p, chain, caps), n)
    decreases k, 2, 2 * Weight(p.ctx)
  {
    hide Due, IsSet, CloseCap;
    var g := p.ctx.g;
    var leave, again := Point(p.ctx.rest, p.ctx.outer, p.i), Point(Cons(Group(Once, g), p.ctx.rest), p.ctx.outer, p.i);
    var chain' := if g.s then Pop(chain) else chain;
    var caps' := CloseCap(env, caps, g.cap, p.i);
    DueClose(env, p.ctx, caps, p.i, n);
    if g.ket == Ket || (g.s && MarkedHere(chain, p.i)) {
      GoSets(env, k, leave, chain', caps', n);
    } else if g.ket == KetRmax {
      var r := Call(env, k, again, Push(g.s, chain', p.i), caps');
      CallSets(env, k, again, Push(g.s, chain', p.i), caps', n);
      if r.Failed? {
        DueResume(env, k, again, Push(g.s, chain', p.i), caps', leave.items, n);
        CallSets(env, r.left, leave, chain', Resume(caps', r), n);
      }
    } else {
      var r := Call(env, k, leave, chain', caps');
      CallSets(env, k, leave, chain', caps', n);
      if r.Failed? {
        DueResume(env, k, leave, chain', caps', again.items, n);
        CallSets(env, r.left, again, Push(g.s, chain', p.i), Resume(caps', r), n);
      }
    }
  }

  /** After success the captures of all brackets that every match passes through are set. */
  lemma {:induction false} MandatorySet(env: Env, k: nat, items: Items, caps: Caps, n: nat)
    requires ValidEnv(env) && |caps.vec| == env.oend && HasSlots(env, caps, n) && Must(items, n)
    ensures var r := Call(env, k, Point(items, Top, env.mstart), NoMark, caps); r.Matched? ==> IsSet(env, r.caps, n)
  {
    CallSets(env, k, Point(items, Top, env.mstart), NoMark, caps, n);
  }
}
