/** The value of offset_top after success: the highest capture that was set, plus one, as a pair. */
module Topmost {
  import opened Tree
  import opened Machine
  import opened Search
  import opened Restore
  import opened Participation

  /** The highest capture counted is set, unless its bracket is open, and then it will be set again; the working
      slots of open brackets hold positions. */
  ghost predicate TopDue(env: Env, ctx: Ctx, caps: Caps) {
    && ValidEnv(env) && |caps.vec| == env.oend && caps.top >= 2 && caps.top % 2 == 0
    && (caps.top > 2 ==>
         && HasSlots(env, caps, caps.top / 2 - 1)
         && (IsSet(env, caps, caps.top / 2 - 1) || caps.top / 2 - 1 in Open(ctx)))
    && forall k :: k in Open(ctx) && HasSlots(env, caps, k) ==> caps.vec[env.oend - k] >= 0
  }

  lemma TopOpen(env: Env, g: Grp, t: Items, ctx: Ctx, caps: Caps, i: nat)
    requires TopDue(env, ctx, caps)
    ensures TopDue(env, In(g, t, ctx), OpenCap(env, caps, g.cap, i))
  {
  }

  lemma TopClose(env: Env, ctx: Ctx, caps: Caps, i: nat)
    requires ctx.In? && TopDue(env, ctx, caps)
    ensures TopDue(env, ctx.outer, CloseCap(env, caps, ctx.g.cap, i))
  {
    var g, caps' := ctx.g, CloseCap(env, caps, ctx.g.cap, i);
    SlotsClosed(env, caps, g.cap, i);
    forall k | k in Open(ctx.outer) && HasSlots(env, caps', k) ensures caps'.vec[env.oend - k] >= 0 {
      assert k in Open(ctx) && HasSlots(env, caps, k);
    }
    hide CloseCap;
    if caps'.top > 2 {
      var m := caps'.top / 2 - 1;
      if m == g.cap && HasSlots(env, caps, g.cap) {
        assert IsSet(env, caps', m);
      } else {
        assert caps'.top == caps.top && (m in Open(ctx) ==> m in Open(ctx.outer));
      }
    }
  }

  /** What closing a bracket does to the slots. */
  lemma SlotsClosed(env: Env, caps: Caps, cap: nat, i: nat)
    requires ValidEnv(env) && |caps.vec| == env.oend && caps.top % 2 == 0
    ensures var caps' := CloseCap(env, caps, cap, i);
      && |caps'.vec| == env.oend && caps'.top % 2 == 0 && caps'.top >= caps.top
      && (forall k: nat :: HasSlots(env, caps', k) <==> HasSlots(env, caps, k))
      && (forall k: nat :: HasSlots(env, caps, k) ==> caps'.vec[env.oend - k] == caps.vec[env.oend - k])
      && (forall k: nat :: HasSlots(env, caps, k) && k != cap ==>
            caps'.vec[2 * k] == caps.vec[2 * k] && caps'.vec[2 * k + 1] == caps.vec[2 * k + 1])
      && (HasSlots(env, caps, cap) ==> caps'.vec[2 * cap] == caps.vec[env.oend - cap] && caps'.vec[2 * cap + 1] == i)
      && (caps'.top != caps.top ==> HasSlots(env, caps, cap) && caps'.top == 2 * cap + 2)
  {
  }

  lemma {:induction false} TopResume(env: Env, k: nat, p: Point, chain: Chain, caps: Caps)
    requires TopDue(env, p.ctx, caps) && Call(env, k, p, chain, caps).Failed?
    ensures TopDue(env, p.ctx, Resume(caps, Call(env, k, p, chain, caps)))
  {
    hide Call;
    CallRestores(env, k, p, chain, caps);
    var m := caps.top / 2 - 1;
    if m !in Open(p.ctx) {
      assert !Loose(env, Open(p.ctx), 2 * m) && !Loose(env, Open(p.ctx), 2 * m + 1);
    }
    forall j | j in Open(p.ctx) && HasSlots(env, caps, j) ensures Call(env, k, p, chain, caps).vec[env.oend - j] >= 0 {
      assert !Loose(env, Open(p.ctx), env.oend - j);
    }
  }

  ghost predicate TopDone(env: Env, res: Res) {
    res.Matched? ==> TopDue(env, Top, res.caps)
  }

  lemma {:induction false} CallTops(env: Env, k: nat, p: Point, chain: Chain, caps: Caps)
    requires TopDue(env, p.ctx, caps)
    ensures TopDone(env, Call(env, k, p, chain, caps))
    decreases k, 0, 0
  {
    hide TopDue;
    if k > 0 {
      GoTops(env, k - 1, p, chain, caps);
    }
  }

  lemma {:induction false} GoTops(env: Env, k: nat, p: Point, chain: Chain, caps: Caps)
    requires TopDue(env, p.ctx, caps)
    ensures TopDone(env, Go(env, k, p, chain, caps))
    decreases k, 2, 2 * (Length(p.items) + Weight(p.ctx)) + 1
  {
    hide TopDue, Test, OpenCap;
    match p.items
    case Nil =>
      if p.ctx.In? {
        KetTops(env, k, p, chain, caps);
      }
    case Cons(One(x), t) =>
      if p.i < |env.subject| && Test(env, x, env.subject[p.i]) {
        GoTops(env, k, Point(t, p.ctx, p.i + 1), chain, caps);
      }
    case Cons(Many(x, r), t) =>
      ManyTops(env, k, p, chain, caps);
    case Cons(Group(z, g), t) =>
      if z == Once {
        TopOpen(env, g, t, p.ctx, caps, p.i);
        TryTops(env, k, g.alts, g, t, p.ctx, p.i, Push(g.s, chain, p.i), OpenCap(env, caps, g.cap, p.i));
      } else {
        ZeroTops(env, k, p, chain, caps);
      }
  }

  lemma {:induction false} ZeroTops(env: Env, k: nat, p: Point, chain: Chain, caps: Caps)
    requires TopDue(env, p.ctx, caps) && p.items.Cons? && p.items.head.Group? && p.items.head.zero != Once
    ensures TopDone(env, Go(env, k, p, chain, caps))
    decreases k, 2, 2 * (Length(p.items) + Weight(p.ctx))
  {
    hide TopDue;
    var Cons(Group(z, g), t) := p.items;
    var skip, enter := Point(t, p.ctx, p.i), Point(Cons(Group(Once, g), t), p.ctx, p.i);
    if z == SkipZero {
      GoTops(env, k, skip, chain, caps);
    } else {
      var first, second := if z == BraZero then enter else skip, if z == BraZero then skip else enter;
      var r := Call(env, k, first, chain, caps);
      CallTops(env, k, first, chain, caps);
      if r.Failed? {
        TopResume(env, k, first, chain, caps);
        GoTops(env, r.left, second, chain, Resume(caps, r));
      }
    }
  }

  lemma {:induction false} ManyTops(env: Env, k: nat, p: Point, chain: Chain, caps: Caps)
    requires TopDue(env, p.ctx, caps) && p.items.Cons? && p.items.head.Many?
    ensures TopDone(env, Go(env, k, p, chain, caps))
    decreases k, 2, 2 * (Length(p.items) + Weight(p.ctx))
  {
    hide Go, Up, Down, RunEnd, TopDue, AllTest;
    GoMany(env, k, p, chain, caps);
    var Cons(Many(x, r), t) := p.items;
    var lo := p.i + Min(r);
    if lo <= |env.subject| && AllTest(env, x, p.i, lo) {
      var hi := RunEnd(env, x, r, p.i, lo);
      if Fixed(r) || ModeOf(r) == Poss {
        GoTops(env, k, Point(t, p.ctx, if Fixed(r) then lo else hi), chain, caps);
      } else if ModeOf(r) == Greedy {
        DownTops(env, k, t, p.ctx, lo, hi, chain, caps);
      } else {
        UpTops(env, k, x, r, t, p.ctx, p.i, lo, chain, caps);
      }
    }
  }

  lemma {:induction false} DownTops(env: Env, k: nat, t: Items, ctx: Ctx, lo: nat, j: nat, chain: Chain, caps: Caps)
    requires TopDue(env, ctx, caps)
    ensures TopDone(env, Down(env, k, t, ctx, lo, j, chain, caps))
    decreases k, 1, j
  {
    hide TopDue;
    var r := Call(env, k, Point(t, ctx, j), chain, caps);
    CallTops(env, k, Point(t, ctx, j), chain, caps);
    if j > lo && r.Failed? {
      TopResume(env, k, Point(t, ctx, j), chain, caps);
      DownTops(env, r.left, t, ctx, lo, j - 1, chain, Resume(caps, r));
    }
  }

  lemma {:induction false} UpTops(env: Env, k: nat, x: Single, r: Rep, t: Items, ctx: Ctx, i: nat, j: nat, chain: Chain, caps: Caps)
    requires TopDue(env, ctx, caps) && i <= j <= |env.subject|
    ensures TopDone(env, Up(env, k, x, r, t, ctx, i, j, chain, caps))
    decreases k, 1, |env.subject| - j
  {
    hide TopDue;
    var res := Call(env, k, Point(t, ctx, j), chain, caps);
    CallTops(env, k, Point(t, ctx, j), chain, caps);
    if res.Failed? && AtMost(r, j + 1 - i) && j < |env.subject| && Test(env, x, env.subject[j]) {
      TopResume(env, k, Point(t, ctx, j), chain, caps);
      UpTops(env, res.left, x, r, t, ctx, i, j + 1, chain, Resume(caps, res));
    }
  }

  lemma {:induction false} TryTops(env: Env, k: nat, alts: Alts, g: Grp, t: Items, ctx: Ctx, i: nat, chain: Chain, caps: Caps)
    requires TopDue(env, In(g, t, ctx), caps)
    ensures TopDone(env, Try(env, k, alts, g, t, ctx, i, chain, caps))
    decreases k, 1, alts
  {
    hide TopDue;
    var q := Point(alts.b, In(g, t, ctx), i);
    var r := Call(env, k, q, chain, caps);
    CallTops(env, k, q, chain, caps);
    if alts.More? && r.Failed? {
      TopResume(env, k, q, chain, caps);
      TryTops(env, r.left, alts.rest, g, t, ctx, i, chain, Resume(caps, r));
    }
  }

  lemma {:induction false} KetTops(env: Env, k: nat, p: Point, chain: Chain, caps: Caps)
    requires p.items.Nil? && p.ctx.In? && TopDue(env, p.ctx, caps)
    ensures TopDone(env, AtKet(env, k, p, chain, caps))
    decreases k, 2, 2 * Weight(p.ctx)
  {
    hide TopDue, CloseCap;
    var g := p.ctx.g;
    var leave, again := Point(p.ctx.rest, p.ctx.outer, p.i), Point(Cons(Group(Once, g), p.ctx.rest), p.ctx.outer, p.i);
    var chain' := if g.s then Pop(chain) else chain;
    var caps' := CloseCap(env, caps, g.cap, p.i);
    TopClose(env, p.ctx, caps, p.i);
    if g.ket == Ket || (g.s && MarkedHere(chain, p.i)) {
      GoTops(env, k, leave, chain', caps');
    } else if g.ket == KetRmax {
      var r := Call(env, k, again, Push(g.s, chain', p.i), caps');
      CallTops(env, k, again, Push(g.s, chain', p.i), caps');
      if r.Failed? {
        TopResume(env, k, again, Push(g.s, chain', p.i), caps');
        CallTops(env, r.left, leave, chain', Resume(caps', r));
      }
    } else {
      var r := Call(env, k, leave, chain', caps');
      CallTops(env, k, leave, chain', caps');
      if r.Failed? {
        TopResume(env, k, leave, chain', caps');
        CallTops(env, r.left, again, Push(g.s, chain', p.i), Resume(caps', r));
      }
    }
  }

  /** After success offset_top is twice the number of the highest capture that is set, plus two, or two if none is. */
  lemma {:induction false} TopmostSet(env: Env, n: nat, items: Items, i: nat, caps: Caps)
    requires ValidEnv(env) && |caps.vec| == env.oend && caps.top == 2
    ensures var r := Call(env, n, Point(items, Top, i), NoMark, caps);
      r.Matched? ==> r.caps.top >= 2 && r.caps.top % 2 == 0 && (r.caps.top > 2 ==> IsSet(env, r.caps, r.caps.top / 2 - 1))
  {
    CallTops(env, n, Point(items, Top, i), NoMark, caps);
  }
}
