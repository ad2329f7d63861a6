/** Which match match() reports: the first end, in the order of module Ordered, that the options permit,
    if every loop that has to be is checked for empty iterations and no such loop leaves its mark where
    the check of another one finds it. */
module Preference {
  import opened Tree
  import opened Machine
  import opened Search
  import opened Progress
  import opened Ordered

  // ---------------------------------------------------------------------------------------
  // Marks in the way

  /** A loop that can consume something in one iteration and nothing in the next leaves a mark behind
      at the place where it ends. */
  predicate LeavesMark(g: Grp) {
    g.s && g.ket != Ket && NullableAlts(g.alts)
  }

  /** No such loop can be followed by nothing up to the closing bracket of a group that is checked.
      `shown` says that there is such a closing bracket after the items and what comes next. */
  predicate Untangled(items: Items, shown: bool)
    decreases items
  {
    items.Cons? ==> UntangledItem(items.head, shown && Nullable(items.tail)) && Untangled(items.tail, shown)
  }

  predicate UntangledItem(it: Item, shown: bool)
    decreases it
  {
    it.Group? && it.zero != SkipZero ==> UntangledGrp(it.g, shown)
  }

  predicate UntangledGrp(g: Grp, shown: bool)
    decreases g
  {
    !(shown && LeavesMark(g)) && UntangledAlts(g.alts, g.s || shown)
  }

  predicate UntangledAlts(alts: Alts, shown: bool)
    decreases alts
  {
    Untangled(alts.b, shown) && (alts.More? ==> UntangledAlts(alts.rest, shown))
  }

  /** The same for the brackets that are open. */
  predicate Shown(ctx: Ctx)
    decreases ctx
  {
    ctx.In? && (ctx.g.s || (Nullable(ctx.rest) && Shown(ctx.outer)))
  }

  lemma {:induction false} UntangledBranch(b: Items, alts: Alts, shown: bool)
    requires InAlts(b, alts) && UntangledAlts(alts, shown)
    ensures Untangled(b, shown)
  {
    if alts.More? && b != alts.b {
      UntangledBranch(b, alts.rest, shown);
    }
  }

  /** The mark that the closing bracket of each open group in the S form will find is where the group
      was entered, or behind the current position, unless something has to be consumed before. */
  ghost predicate Aligned(ctx: Ctx, trail: Trail, chain: Chain, i: nat, canEnd: bool)
    decreases ctx
  {
    match ctx
    case Top => true
    case In(g, rest, outer) =>
      && UntangledGrp(g, Nullable(rest) && Shown(outer)) && Untangled(rest, Shown(outer))
      && trail.Trail? && trail.entry <= i && (outer.In? ==> trail.outer.Trail? && trail.outer.entry <= trail.entry)
      && (g.s ==> chain.Mark? && trail.entry <= chain.at <= i && (chain.at == i && canEnd ==> trail.entry == i))
      && Aligned(outer, trail.outer, if g.s then chain.prev else chain, i, canEnd && Nullable(rest))
  }

  lemma {:induction false} AlignMove(ctx: Ctx, trail: Trail, chain: Chain, i: nat, j: nat, canEnd: bool, canEnd': bool)
    requires Aligned(ctx, trail, chain, i, canEnd)
    requires i < j || (i == j && (canEnd' ==> canEnd))
    ensures Aligned(ctx, trail, chain, j, canEnd')
    decreases ctx
  {
    if ctx.In? {
      AlignMove(ctx.outer, trail.outer, if ctx.g.s then chain.prev else chain, i, j, canEnd && Nullable(ctx.rest),
                canEnd' && Nullable(ctx.rest));
    }
  }

  /** A superfluous mark does no harm if no closing bracket can find it without something being consumed. */
  lemma {:induction false} AlignMark(ctx: Ctx, trail: Trail, chain: Chain, i: nat, canEnd: bool, at: nat)
    requires Aligned(ctx, trail, chain, i, canEnd) && at <= i && (ctx.In? ==> trail.entry <= at)
    requires !(canEnd && Shown(ctx))
    ensures Aligned(ctx, trail, Mark(at, chain), i, canEnd)
    decreases ctx
  {
    if ctx.In? {
      if ctx.g.s {
        AlignMark(ctx.outer, trail.outer, chain.prev, i, false, chain.at);
      } else {
        AlignMark(ctx.outer, trail.outer, chain, i, canEnd && Nullable(ctx.rest), at);
      }
    }
  }

  ghost predicate Lined(p: Point, trail: Trail, chain: Chain) {
    Untangled(p.items, Shown(p.ctx)) && Aligned(p.ctx, trail, chain, p.i, Nullable(p.items))
  }

  lemma LinedMove(p: Point, q: Point, trail: Trail, chain: Chain)
    requires Lined(p, trail, chain) && q.ctx == p.ctx && Untangled(q.items, Shown(p.ctx))
    requires p.i < q.i || (p.i == q.i && (Nullable(q.items) ==> Nullable(p.items)))
    ensures Lined(q, trail, chain)
  {
    hide Aligned, Nullable, Untangled;
    AlignMove(p.ctx, trail, chain, p.i, q.i, Nullable(p.items), Nullable(q.items));
  }

  lemma LinedTail(p: Point, trail: Trail, chain: Chain, j: nat)
    requires Lined(p, trail, chain) && p.items.Cons? && p.i <= j && (p.i == j ==> NullableItem(p.items.head))
    ensures Lined(Point(p.items.tail, p.ctx, j), trail, chain)
  {
    hide Aligned;
    LinedMove(p, Point(p.items.tail, p.ctx, j), trail, chain);
  }

  lemma LinedOnce(p: Point, trail: Trail, chain: Chain)
    requires Lined(p, trail, chain) && p.items.Cons? && p.items.head.Group? && p.items.head.zero != Once
    requires p.items.head.zero != SkipZero
    ensures Lined(Point(Cons(Group(Once, p.items.head.g), p.items.tail), p.ctx, p.i), trail, chain)
  {
    hide Aligned;
    var Cons(Group(_, g), t) := p.items;
    assert UntangledItem(p.items.head, Shown(p.ctx) && Nullable(t)) &&
           UntangledItem(Group(Once, g), Shown(p.ctx) && Nullable(t));
    assert NullableItem(p.items.head);
    LinedMove(p, Point(Cons(Group(Once, g), t), p.ctx, p.i), trail, chain);
  }

  lemma LinedEnter(p: Point, trail: Trail, chain: Chain, b: Items)
    requires Lined(p, trail, chain) && p.items.Cons? && p.items.head.Group? && p.items.head.zero == Once
    requires InAlts(b, p.items.head.g.alts)
    ensures var g := p.items.head.g; Lined(Point(b, In(g, p.items.tail, p.ctx), p.i), Trail(p.i, trail),
      Push(g.s, chain, p.i))
  {
    var g, t := p.items.head.g, p.items.tail;
    assert UntangledItem(p.items.head, Shown(p.ctx) && Nullable(t)) && UntangledGrp(g, Nullable(t) && Shown(p.ctx));
    UntangledBranch(b, g.alts, g.s || (Nullable(t) && Shown(p.ctx)));
    NullableBranch(b, g.alts);
    assert Nullable(b) ==> NullableItem(p.items.head);
    AlignMove(p.ctx, trail, chain, p.i, p.i, Nullable(p.items), Nullable(b) && Nullable(t));
  }

  lemma {:induction false} NullableBranch(b: Items, alts: Alts)
    requires InAlts(b, alts)
    ensures Nullable(b) ==> NullableAlts(alts)
  {
    if alts.More? && b != alts.b {
      NullableBranch(b, alts.rest);
    }
  }

  lemma LinedLeave(p: Point, trail: Trail, chain: Chain)
    requires Lined(p, trail, chain) && p.items.Nil? && p.ctx.In?
    ensures trail.Trail?
    ensures Lined(Point(p.ctx.rest, p.ctx.outer, p.i), trail.outer, if p.ctx.g.s then Pop(chain) else chain)
  {
  }

  lemma LinedAgain(p: Point, trail: Trail, chain: Chain)
    requires Lined(p, trail, chain) && p.items.Nil? && p.ctx.In? && p.ctx.g.ket != Ket
    ensures var g := p.ctx.g;
      Lined(Point(Cons(Group(Once, g), p.ctx.rest), p.ctx.outer, p.i), trail.outer, Push(g.s, if g.s then Pop(chain) else chain, p.i))
  {
    var g, rest, outer := p.ctx.g, p.ctx.rest, p.ctx.outer;
    var chain' := if g.s then Pop(chain) else chain;
    var items := Cons(Group(Once, g), rest);
    assert UntangledItem(Group(Once, g), Nullable(rest) && Shown(outer));
    assert Nullable(items) <==> NullableAlts(g.alts) && Nullable(rest);
    AlignMove(outer, trail.outer, chain', p.i, p.i, Nullable(rest), Nullable(items));
    if g.s {
      AlignMark(outer, trail.outer, chain', p.i, Nullable(items), p.i);
    }
  }

  /** The checks of loops are all there, and the marks are where they should be. */
  ghost predicate Clear(p: Point, trail: Trail, chain: Chain) {
    Ready(p, trail, chain) && Lined(p, trail, chain)
  }

  lemma ClearTail(p: Point, trail: Trail, chain: Chain, j: nat)
    requires Clear(p, trail, chain) && p.items.Cons? && p.i <= j && (p.i == j ==> NullableItem(p.items.head))
    ensures Clear(Point(p.items.tail, p.ctx, j), trail, chain)
  {
    hide Fit, Lined;
    LinedTail(p, trail, chain, j);
    FitMove(p.ctx, trail, chain, p.i, j, Nullable(p.items), Nullable(p.items.tail));
  }

  lemma ClearOnce(p: Point, trail: Trail, chain: Chain)
    requires Clear(p, trail, chain) && p.items.Cons? && p.items.head.Group? && p.items.head.zero != Once
    requires p.items.head.zero != SkipZero
    ensures Clear(Point(Cons(Group(Once, p.items.head.g), p.items.tail), p.ctx, p.i), trail, chain)
  {
    hide Fit, Lined;
    var Cons(Group(_, g), t) := p.items;
    LinedOnce(p, trail, chain);
    assert GuardedItem(p.items.head) && GuardedItem(Group(Once, g)) && NullableItem(p.items.head);
    FitMove(p.ctx, trail, chain, p.i, p.i, Nullable(p.items), Nullable(Cons(Group(Once, g), t)));
  }

  lemma ClearEnter(p: Point, trail: Trail, chain: Chain, b: Items)
    requires Clear(p, trail, chain) && p.items.Cons? && p.items.head.Group? && p.items.head.zero == Once
    requires InAlts(b, p.items.head.g.alts)
    ensures var g := p.items.head.g; Clear(Point(b, In(g, p.items.tail, p.ctx), p.i), Trail(p.i, trail),
      Push(g.s, chain, p.i))
  {
    hide Lined;
    var g, t := p.items.head.g, p.items.tail;
    LinedEnter(p, trail, chain, b);
    assert GuardedItem(p.items.head) && GuardedGrp(g);
    BranchParts(b, g.alts);
    assert Nullable(b) ==> NullableItem(p.items.head);
    FitMove(p.ctx, trail, chain, p.i, p.i, Nullable(p.items), Nullable(b) && Nullable(t));
  }

  /** At a closing bracket: what the check finds is whether the iteration consumed something. */
  lemma ClearKet(p: Point, trail: Trail, chain: Chain)
    requires Clear(p, trail, chain) && p.items.Nil? && p.ctx.In?
    ensures trail.Trail? && trail.entry <= p.i
    ensures p.ctx.g.ket != Ket ==> (trail.entry == p.i <==> p.ctx.g.s && MarkedHere(chain, p.i))
    ensures Clear(Point(p.ctx.rest, p.ctx.outer, p.i), trail.outer, if p.ctx.g.s then Pop(chain) else chain)
  {
  }

  lemma ClearAgain(p: Point, trail: Trail, chain: Chain)
    requires Clear(p, trail, chain) && p.items.Nil? && p.ctx.In? && p.ctx.g.ket != Ket && trail.entry != p.i
    ensures var g := p.ctx.g;
      Clear(Point(Cons(Group(Once, g), p.ctx.rest), p.ctx.outer, p.i), trail.outer, Push(g.s, if g.s then Pop(chain) else chain, p.i))
  {
    hide Lined;
    var g, rest, outer := p.ctx.g, p.ctx.rest, p.ctx.outer;
    var chain' := if g.s then Pop(chain) else chain;
    var items := Cons(Group(Once, g), rest);
    LinedAgain(p, trail, chain);
    assert GuardedItem(Group(Once, g));
    assert Nullable(items) <==> NullableAlts(g.alts) && Nullable(rest);
    FitMove(outer, trail.outer, chain', p.i, p.i, Nullable(rest), Nullable(items));
    if g.s {
      FitMark(outer, trail.outer, chain', p.i, Nullable(items), p.i);
    }
  }

  // ---------------------------------------------------------------------------------------
  // The ends of the pattern from a point on

  function Entry(trail: Trail): nat {
    if trail.Trail? then trail.entry else 0
  }

  function Outer(trail: Trail): Trail {
    if trail.Trail? then trail.outer else NoTrail
  }

  /** The ends of the pattern, in order, when the current branch can end at the places ms. */
  ghost function Out(env: Env, ctx: Ctx, trail: Trail, ms: seq<nat>): seq<nat>
    decreases ctx, 1, |ms|
  {
    if ms == [] then [] else OutOne(env, ctx, trail, ms[0]) + Out(env, ctx, trail, ms[1..])
  }

  ghost function OutOne(env: Env, ctx: Ctx, trail: Trail, m: nat): seq<nat>
    decreases ctx, 0, 0
  {
    match ctx
    case Top => if Accepts(env, m) then [m] else []
    case In(g, rest, outer) => Out(env, outer, Outer(trail), WaysOn(env, rest, Close(env, g, Entry(trail), m)))
  }

  ghost function WaysAt(env: Env, p: Point, trail: Trail): seq<nat> {
    Out(env, p.ctx, trail, Ways(env, p.items, p.i))
  }

  lemma WaysCons(env: Env, p: Point, trail: Trail)
    requires p.items.Cons?
    ensures WaysAt(env, p, trail) == OutOn(env, p.items.tail, p.ctx, trail, WaysItem(env, p.items.head, p.i))
  {
    hide Out, WaysOn, WaysItem;
  }

  lemma {:induction false} OutAppend(env: Env, ctx: Ctx, trail: Trail, a: seq<nat>, b: seq<nat>)
    ensures Out(env, ctx, trail, a + b) == Out(env, ctx, trail, a) + Out(env, ctx, trail, b)
    decreases |a|
  {
    hide OutOne;
    if a == [] {
      assert a + b == b;
    } else {
      assert (a + b)[1..] == a[1..] + b;
      OutAppend(env, ctx, trail, a[1..], b);
    }
  }

  lemma OutSingle(env: Env, ctx: Ctx, trail: Trail, m: nat)
    ensures Out(env, ctx, trail, [m]) == OutOne(env, ctx, trail, m)
  {
    hide OutOne;
    assert Out(env, ctx, trail, [m][1..]) == [];
  }

  ghost function OutOn(env: Env, items: Items, ctx: Ctx, trail: Trail, ms: seq<nat>): seq<nat> {
    Out(env, ctx, trail, WaysOn(env, items, ms))
  }

  lemma OutOnAppend(env: Env, items: Items, ctx: Ctx, trail: Trail, a: seq<nat>, b: seq<nat>)
    ensures OutOn(env, items, ctx, trail, a + b) == OutOn(env, items, ctx, trail, a) + OutOn(env, items, ctx, trail, b)
  {
    OnAppend(env, items, a, b);
    OutAppend(env, ctx, trail, WaysOn(env, items, a), WaysOn(env, items, b));
  }

  lemma OutOnOne(env: Env, items: Items, ctx: Ctx, trail: Trail, m: nat)
    ensures OutOn(env, items, ctx, trail, [m]) == WaysAt(env, Point(items, ctx, m), trail)
  {
    OnOne(env, items, m);
  }

  /** The ends by way of a group are the ends by way of its branches. */
  lemma {:induction false} OutGroup(env: Env, g: Grp, t: Items, ctx: Ctx, trail: Trail, i: nat, ms: seq<nat>)
    ensures OutOn(env, t, ctx, trail, CloseAll(env, g, i, ms)) == Out(env, In(g, t, ctx), Trail(i, trail), ms)
    decreases |ms|
  {
    hide Close, WaysOn;
    if ms == [] {
      OnNone(env, t);
    } else {
      OutOnAppend(env, t, ctx, trail, Close(env, g, i, ms[0]), CloseAll(env, g, i, ms[1..]));
      OutGroup(env, g, t, ctx, trail, i, ms[1..]);
    }
  }

  // ---------------------------------------------------------------------------------------
  // The search

  /** A match that is reported ends where the first way ends, and failure means that there is none. */
  ghost predicate Says(ws: seq<nat>, r: Res) {
    && (r.Matched? ==> ws != [] && ws[0] == r.end)
    && (r.Failed? ==> ws == [])
  }

  lemma SaysTwo(w1: seq<nat>, w2: seq<nat>, r1: Res, r2: Res)
    requires Says(w1, r1) && (r1.Failed? ==> Says(w2, r2))
    ensures Says(w1 + w2, if r1.Failed? then r2 else r1)
  {
  }

  lemma {:induction false} CallSays(env: Env, n: nat, p: Point, trail: Trail, chain: Chain, caps: Caps)
    requires Clear(p, trail, chain) && p.i <= |env.subject|
    ensures Says(WaysAt(env, p, trail), Call(env, n, p, chain, caps))
    decreases n, 0, 0
  {
    hide Clear, WaysAt;
    if n > 0 {
      GoSays(env, n - 1, p, trail, chain, caps);
    }
  }

  lemma {:induction false} GoSays(env: Env, n: nat, p: Point, trail: Trail, chain: Chain, caps: Caps)
    requires Clear(p, trail, chain) && p.i <= |env.subject|
    ensures Says(WaysAt(env, p, trail), Go(env, n, p, chain, caps))
    decreases n, 2, 2 * (Length(p.items) + Weight(p.ctx)) + 1
  {
    hide Clear, Says, WaysAt, Go;
    match p.items
    case Nil =>
      if p.ctx.In? {
        KetSays(env, n, p, trail, chain, caps);
        GoKet(env, n, p, chain, caps);
      } else {
        TopSays(env, n, p, trail, chain, caps);
      }
    case Cons(One(x), t) =>
      OneSays(env, n, p, trail, chain, caps);
    case Cons(Many(x, r), t) =>
      ManySays(env, n, p, trail, chain, caps);
    case Cons(Group(z, g), t) =>
      if z == Once {
        GroupSays(env, n, p, trail, chain, caps);
      } else {
        ZeroSays(env, n, p, trail, chain, caps);
      }
  }

  lemma TopSays(env: Env, n: nat, p: Point, trail: Trail, chain: Chain, caps: Caps)
    requires p.items.Nil? && p.ctx.Top?
    ensures Says(WaysAt(env, p, trail), Go(env, n, p, chain, caps))
  {
    OutSingle(env, Top, trail, p.i);
  }

  lemma GoKet(env: Env, n: nat, p: Point, chain: Chain, caps: Caps)
    requires p.items.Nil? && p.ctx.In?
    ensures Go(env, n, p, chain, caps) == AtKet(env, n, p, chain, caps)
  {
    hide AtKet;
  }

  lemma {:induction false} GroupSays(env: Env, n: nat, p: Point, trail: Trail, chain: Chain, caps: Caps)
    requires Clear(p, trail, chain) && p.i <= |env.subject| && p.items.Cons? && p.items.head.Group?
    requires p.items.head.zero == Once
    ensures Says(WaysAt(env, p, trail), Go(env, n, p, chain, caps))
    decreases n, 2, 2 * (Length(p.items) + Weight(p.ctx))
  {
    hide Clear, Says, Out, OutOn, WaysAt, WaysOn, WaysAlts, CloseAll, OpenCap, Try;
    var Cons(Group(_, g), t) := p.items;
    var caps' := OpenCap(env, caps, g.cap, p.i);
    WaysCons(env, p, trail);
    OutGroup(env, g, t, p.ctx, trail, p.i, WaysAlts(env, g.alts, p.i));
    TrySays(env, n, g.alts, p, trail, chain, caps');
    OpenLength(env, caps, g.cap, p.i);
    BackSays(env, caps, g.cap, Try(env, n, g.alts, g, t, p.ctx, p.i, Push(g.s, chain, p.i), caps'),
             WaysAt(env, p, trail));
  }

  lemma OpenLength(env: Env, caps: Caps, cap: nat, i: nat)
    ensures |OpenCap(env, caps, cap, i).vec| == |caps.vec|
  {
  }

  lemma BackSays(env: Env, caps: Caps, cap: nat, r: Res, ws: seq<nat>)
    requires (r.Failed? ==> |r.vec| == |caps.vec|) && Says(ws, r)
    ensures Says(ws, PutBack(env, caps, cap, r))
  {
  }

  lemma {:induction false} OneSays(env: Env, n: nat, p: Point, trail: Trail, chain: Chain, caps: Caps)
    requires Clear(p, trail, chain) && p.i <= |env.subject| && p.items.Cons? && p.items.head.One?
    ensures Says(WaysAt(env, p, trail), Go(env, n, p, chain, caps))
    decreases n, 2, 2 * (Length(p.items) + Weight(p.ctx))
  {
    hide Clear, Says, Test, WaysAt, OutOn, Out;
    var Cons(One(x), t) := p.items;
    WaysCons(env, p, trail);
    if p.i < |env.subject| && Test(env, x, env.subject[p.i]) {
      ClearTail(p, trail, chain, p.i + 1);
      OutOnOne(env, t, p.ctx, trail, p.i + 1);
      GoSays(env, n, Point(t, p.ctx, p.i + 1), trail, chain, caps);
    } else {
      OutOnNone(env, t, p.ctx, trail);
      NothingSays(n, caps);
    }
  }

  lemma NothingSays(n: nat, caps: Caps)
    ensures Says([], Failed(n, caps.vec, caps.over))
  {
  }

  lemma {:induction false} ZeroSays(env: Env, n: nat, p: Point, trail: Trail, chain: Chain, caps: Caps)
    requires Clear(p, trail, chain) && p.i <= |env.subject| && p.items.Cons? && p.items.head.Group?
    requires p.items.head.zero != Once
    ensures Says(WaysAt(env, p, trail), Go(env, n, p, chain, caps))
    decreases n, 2, 2 * (Length(p.items) + Weight(p.ctx))
  {
    hide Clear, Says, OutOn, WaysAt, WaysGrp;
    var Cons(Group(z, g), t) := p.items;
    WaysCons(env, p, trail);
    var skip, enter := Point(t, p.ctx, p.i), Point(Cons(Group(Once, g), t), p.ctx, p.i);
    var here, inside := [p.i], WaysGrp(env, g, p.i);
    ClearTail(p, trail, chain, p.i);
    OutOnOne(env, t, p.ctx, trail, p.i);
    if z == SkipZero {
      GoSays(env, n, skip, trail, chain, caps);
    } else {
      ClearOnce(p, trail, chain);
      WaysCons(env, enter, trail);
      if z == BraZero {
        OutOnAppend(env, t, p.ctx, trail, inside, here);
        var r := Call(env, n, enter, chain, caps);
        CallSays(env, n, enter, trail, chain, caps);
        if r.Failed? {
          GoSays(env, r.left, skip, trail, chain, Resume(caps, r));
          SaysTwo(WaysAt(env, enter, trail), WaysAt(env, skip, trail), r,
                  Go(env, r.left, skip, chain, Resume(caps, r)));
        } else {
          SaysTwo(WaysAt(env, enter, trail), WaysAt(env, skip, trail), r, r);
        }
      } else {
        OutOnAppend(env, t, p.ctx, trail, here, inside);
        var r := Call(env, n, skip, chain, caps);
        CallSays(env, n, skip, trail, chain, caps);
        if r.Failed? {
          GoSays(env, r.left, enter, trail, chain, Resume(caps, r));
          SaysTwo(WaysAt(env, skip, trail), WaysAt(env, enter, trail), r,
                  Go(env, r.left, enter, chain, Resume(caps, r)));
        } else {
          SaysTwo(WaysAt(env, skip, trail), WaysAt(env, enter, trail), r, r);
        }
      }
    }
  }

  lemma WaysKet(env: Env, p: Point, trail: Trail)
    requires p.items.Nil? && p.ctx.In? && trail.Trail?
    ensures WaysAt(env, p, trail) == OutOn(env, p.ctx.rest, p.ctx.outer, trail.outer,
      Close(env, p.ctx.g, trail.entry, p.i))
  {
    hide WaysOn, Close;
    OutSingle(env, p.ctx, trail, p.i);
  }

  /** Another iteration is started exactly if this one consumed something, before or after leaving. */
  lemma {:induction false} KetSays(env: Env, n: nat, p: Point, trail: Trail, chain: Chain, caps: Caps)
    requires Clear(p, trail, chain) && p.i <= |env.subject| && p.items.Nil? && p.ctx.In?
    ensures Says(WaysAt(env, p, trail), AtKet(env, n, p, chain, caps))
    decreases n, 2, 2 * Weight(p.ctx)
  {
    hide Clear, Says, CloseCap, OutOn, WaysAt, WaysGrp;
    ClearKet(p, trail, chain);
    var In(g, rest, outer) := p.ctx;
    var leave, again := Point(rest, outer, p.i), Point(Cons(Group(Once, g), rest), outer, p.i);
    var chain', trail', caps' := if g.s then Pop(chain) else chain, trail.outer, CloseCap(env, caps, g.cap, p.i);
    var here, more := [p.i], WaysGrp(env, g, p.i);
    WaysKet(env, p, trail);
    OutOnOne(env, rest, outer, trail', p.i);
    if g.ket == Ket || trail.entry == p.i {
      GoSays(env, n, leave, trail', chain', caps');
    } else {
      ClearAgain(p, trail, chain);
      WaysCons(env, again, trail');
      var chain'' := Push(g.s, chain', p.i);
      if g.ket == KetRmax {
        OutOnAppend(env, rest, outer, trail', more, here);
        var r := Call(env, n, again, chain'', caps');
        CallSays(env, n, again, trail', chain'', caps');
        if r.Failed? {
          CallSays(env, r.left, leave, trail', chain', Resume(caps', r));
          SaysTwo(WaysAt(env, again, trail'), WaysAt(env, leave, trail'), r,
                  Call(env, r.left, leave, chain', Resume(caps', r)));
        } else {
          SaysTwo(WaysAt(env, again, trail'), WaysAt(env, leave, trail'), r, r);
        }
      } else {
        OutOnAppend(env, rest, outer, trail', here, more);
        var r := Call(env, n, leave, chain', caps');
        CallSays(env, n, leave, trail', chain', caps');
        if r.Failed? {
          CallSays(env, r.left, again, trail', chain'', Resume(caps', r));
          SaysTwo(WaysAt(env, leave, trail'), WaysAt(env, again, trail'), r,
                  Call(env, r.left, again, chain'', Resume(caps', r)));
        } else {
          SaysTwo(WaysAt(env, leave, trail'), WaysAt(env, again, trail'), r, r);
        }
      }
    }
  }

  /** The branches in order. */
  lemma {:induction false} TrySays(env: Env, n: nat, alts: Alts, p: Point, trail: Trail, chain: Chain, caps: Caps)
    requires Clear(p, trail, chain) && p.i <= |env.subject| && p.items.Cons? && p.items.head.Group?
    requires p.items.head.zero == Once
    requires forall b :: InAlts(b, alts) ==> InAlts(b, p.items.head.g.alts)
    ensures var g, t := p.items.head.g, p.items.tail;
      Says(Out(env, In(g, t, p.ctx), Trail(p.i, trail), WaysAlts(env, alts, p.i)),
           Try(env, n, alts, g, t, p.ctx, p.i, Push(g.s, chain, p.i), caps))
    decreases n, 1, alts
  {
    hide Clear, Says, Out, Ways, Call;
    var g, t := p.items.head.g, p.items.tail;
    var chain', trail', inner := Push(g.s, chain, p.i), Trail(p.i, trail), In(g, t, p.ctx);
    var q := Point(alts.b, inner, p.i);
    assert InAlts(alts.b, alts);
    ClearEnter(p, trail, chain, alts.b);
    var r := Call(env, n, q, chain', caps);
    CallSays(env, n, q, trail', chain', caps);
    if alts.More? {
      OutAppend(env, inner, trail', Ways(env, alts.b, p.i), WaysAlts(env, alts.rest, p.i));
      var w1, w2 := WaysAt(env, q, trail'), Out(env, inner, trail', WaysAlts(env, alts.rest, p.i));
      if r.Failed? {
        TrySays(env, r.left, alts.rest, p, trail, chain, Resume(caps, r));
        SaysTwo(w1, w2, r, Try(env, r.left, alts.rest, g, t, p.ctx, p.i, chain', Resume(caps, r)));
      } else {
        SaysTwo(w1, w2, r, r);
      }
    }
  }

  // Repeated items

  lemma {:induction false} RunsList(env: Env, x: Single, r: Rep, i: nat)
    requires i <= |env.subject|
    ensures var lo := i + Min(r);
      if lo > |env.subject| || !AllTest(env, x, i, lo) then Runs(env, x, r, i) == []
      else
        var hi := RunEnd(env, x, r, i, lo);
        && lo <= hi <= |env.subject|
        && Runs(env, x, r, i) ==
          if Fixed(r) then [lo] else if ModeOf(r) == Poss then [hi] else if ModeOf(r) == Lazy then Rising(lo, hi) else Falling(lo, hi)
  {
    hide RunEnd, Runs, AllTest;
    var lo := i + Min(r);
    if lo > |env.subject| || !AllTest(env, x, i, lo) {
      NoRuns(env, x, r, i, lo);
    } else if Fixed(r) {
      FixedRuns(env, x, r, i, lo);
    } else {
      OpenRuns(env, x, r, i, lo);
    }
  }

  lemma NoRuns(env: Env, x: Single, r: Rep, i: nat, lo: nat)
    requires lo == i + Min(r) && (lo > |env.subject| || !AllTest(env, x, i, lo))
    ensures Runs(env, x, r, i) == []
  {
    hide Test;
    PickNone((j: nat) => ManyMatches(env, x, r, i, j), i, |env.subject| + 1, ModeOf(r) == Lazy);
  }

  lemma OpenRuns(env: Env, x: Single, r: Rep, i: nat, lo: nat)
    requires !Fixed(r) && lo == i + Min(r) <= |env.subject| && AllTest(env, x, i, lo)
    ensures var hi := RunEnd(env, x, r, i, lo);
      Runs(env, x, r, i) == if ModeOf(r) == Poss then [hi] else if ModeOf(r) == Lazy then Rising(lo, hi) else Falling(lo, hi)
  {
    hide RunEnd, Test, ManyMatches, Pick;
    var p, hi, end := (j: nat) => ManyMatches(env, x, r, i, j), RunEnd(env, x, r, i, lo), |env.subject| + 1;
    forall j: nat ensures p(j) <==> (if ModeOf(r) == Poss then j == hi else lo <= j <= hi) {
      RunAt(env, x, r, i, lo, j);
    }
    if ModeOf(r) == Poss {
      PickOne(p, i, end, ModeOf(r) == Lazy, hi);
    } else {
      PickInterval(p, i, end, ModeOf(r) == Lazy, lo, hi);
    }
  }

  /** Where a repeated item can end: from the minimum to the end of the run, possessively only there. */
  lemma RunAt(env: Env, x: Single, r: Rep, i: nat, lo: nat, j: nat)
    requires !Fixed(r) && lo == i + Min(r) <= |env.subject| && AllTest(env, x, i, lo)
    ensures var hi := RunEnd(env, x, r, i, lo); ManyMatches(env, x, r, i, j) <==> if ModeOf(r) == Poss then j == hi else lo <= j <= hi
  {
    hide RunEnd, Test;
    RunEndMax(env, x, r, i, lo);
    if ModeOf(r) == Poss && ManyMatches(env, x, r, i, j) {
      StuckUnique(env, x, r, i, j, RunEnd(env, x, r, i, lo));
    }
  }

  lemma FixedRuns(env: Env, x: Single, r: Rep, i: nat, lo: nat)
    requires Fixed(r) && lo == i + Min(r) <= |env.subject| && AllTest(env, x, i, lo)
    ensures Runs(env, x, r, i) == [lo]
  {
    hide Test;
    var p := (j: nat) => ManyMatches(env, x, r, i, j);
    forall k: nat | i <= k < |env.subject| + 1 ensures p(k) <==> k == lo {
      if p(k) {
        FixedAt(r, k - i);
      }
    }
    PickOne(p, i, |env.subject| + 1, ModeOf(r) == Lazy, lo);
  }

  lemma {:induction false} ManySays(env: Env, n: nat, p: Point, trail: Trail, chain: Chain, caps: Caps)
    requires Clear(p, trail, chain) && p.i <= |env.subject| && p.items.Cons? && p.items.head.Many?
    ensures Says(WaysAt(env, p, trail), Go(env, n, p, chain, caps))
    decreases n, 2, 2 * (Length(p.items) + Weight(p.ctx))
  {
    hide Clear, Says, Go, Up, Down, RunEnd, Runs, AllTest, Test, OutOn, WaysAt;
    GoMany(env, n, p, chain, caps);
    WaysCons(env, p, trail);
    var Cons(Many(x, r), t) := p.items;
    var lo := p.i + Min(r);
    RunsList(env, x, r, p.i);
    if lo > |env.subject| || !AllTest(env, x, p.i, lo) {
      OutOnNone(env, t, p.ctx, trail);
      NothingSays(n, caps);
    } else {
      var hi := RunEnd(env, x, r, p.i, lo);
      forall k | lo <= k <= hi ensures Clear(Point(t, p.ctx, k), trail, chain) {
        ClearTail(p, trail, chain, k);
      }
      if Fixed(r) || ModeOf(r) == Poss {
        var m := if Fixed(r) then lo else hi;
        OutOnOne(env, t, p.ctx, trail, m);
        GoSays(env, n, Point(t, p.ctx, m), trail, chain, caps);
      } else if ModeOf(r) == Greedy {
        DownSays(env, n, t, p.ctx, lo, hi, trail, chain, caps);
      } else {
        UpSays(env, n, x, r, t, p.ctx, p.i, lo, trail, chain, caps);
      }
    }
  }

  lemma OutOnNone(env: Env, items: Items, ctx: Ctx, trail: Trail)
    ensures OutOn(env, items, ctx, trail, []) == []
  {
  }

  lemma {:induction false} DownSays(env: Env, n: nat, t: Items, ctx: Ctx, lo: nat, j: nat, trail: Trail, chain: Chain,
                                    caps: Caps)
    requires lo <= j <= |env.subject| && forall k :: lo <= k <= j ==> Clear(Point(t, ctx, k), trail, chain)
    ensures Says(OutOn(env, t, ctx, trail, Falling(lo, j)), Down(env, n, t, ctx, lo, j, chain, caps))
    decreases n, 1, j
  {
    hide Clear, Says, Call, Out, OutOn, WaysAt;
    var r := Call(env, n, Point(t, ctx, j), chain, caps);
    CallSays(env, n, Point(t, ctx, j), trail, chain, caps);
    OutOnOne(env, t, ctx, trail, j);
    if j > lo {
      FallingTop(lo, j);
      OutOnAppend(env, t, ctx, trail, [j], Falling(lo, j - 1));
      var w1, w2 := WaysAt(env, Point(t, ctx, j), trail), OutOn(env, t, ctx, trail, Falling(lo, j - 1));
      if r.Failed? {
        DownSays(env, r.left, t, ctx, lo, j - 1, trail, chain, Resume(caps, r));
        SaysTwo(w1, w2, r, Down(env, r.left, t, ctx, lo, j - 1, chain, Resume(caps, r)));
      } else {
        SaysTwo(w1, w2, r, r);
      }
    }
  }

  lemma {:induction false} UpSays(env: Env, n: nat, x: Single, r: Rep, t: Items, ctx: Ctx, i: nat, j: nat,
                                  trail: Trail, chain: Chain, caps: Caps)
    requires i <= j <= |env.subject|
    requires forall k :: j <= k <= RunEnd(env, x, r, i, j) ==> Clear(Point(t, ctx, k), trail, chain)
    ensures Says(OutOn(env, t, ctx, trail, Rising(j, RunEnd(env, x, r, i, j))),
      Up(env, n, x, r, t, ctx, i, j, chain, caps))
    decreases n, 1, |env.subject| - j
  {
    hide Clear, Says, Call, Out, OutOn, WaysAt, Test;
    var res := Call(env, n, Point(t, ctx, j), chain, caps);
    CallSays(env, n, Point(t, ctx, j), trail, chain, caps);
    OutOnOne(env, t, ctx, trail, j);
    if AtMost(r, j + 1 - i) && j < |env.subject| && Test(env, x, env.subject[j]) {
      var hi := RunEnd(env, x, r, i, j + 1);
      OutOnAppend(env, t, ctx, trail, [j], Rising(j + 1, hi));
      var w1, w2 := WaysAt(env, Point(t, ctx, j), trail), OutOn(env, t, ctx, trail, Rising(j + 1, hi));
      if res.Failed? {
        UpSays(env, res.left, x, r, t, ctx, i, j + 1, trail, chain, Resume(caps, res));
        SaysTwo(w1, w2, res, Up(env, res.left, x, r, t, ctx, i, j + 1, chain, Resume(caps, res)));
      } else {
        SaysTwo(w1, w2, res, res);
      }
    }
  }

  // ---------------------------------------------------------------------------------------
  // Whole patterns

  /** Of the ends in order, e is the first that the options permit. */
  ghost predicate FirstOf(env: Env, ws: seq<nat>, e: nat) {
    exists k :: 0 <= k < |ws| && ws[k] == e && Accepts(env, e) && forall j :: 0 <= j < k ==> !Accepts(env, ws[j])
  }

  lemma {:induction false} OutTop(env: Env, trail: Trail, ws: seq<nat>)
    ensures var out := Out(env, Top, trail, ws);
      && (out != [] ==> FirstOf(env, ws, out[0]))
      && (out == [] ==> forall k :: 0 <= k < |ws| ==> !Accepts(env, ws[k]))
    decreases |ws|
  {
    hide Accepts;
    if ws != [] {
      OutTop(env, trail, ws[1..]);
      var out, more := Out(env, Top, trail, ws), Out(env, Top, trail, ws[1..]);
      if Accepts(env, ws[0]) {
        assert FirstOf(env, ws, ws[0]);
      } else if more != [] {
        var k :| 0 <= k < |ws[1..]| && ws[1..][k] == more[0] && Accepts(env, more[0]) && forall j :: 0 <= j < k ==>
            !Accepts(env, ws[1..][j]);
        forall j | 0 <= j < k + 1 ensures !Accepts(env, ws[j]) {
          if j > 0 {
            assert ws[j] == ws[1..][j - 1];
          }
        }
        assert ws[k + 1] == more[0];
      }
    }
  }

  lemma FirstUnique(env: Env, ws: seq<nat>, e: nat, e': nat)
    requires FirstOf(env, ws, e) && FirstOf(env, ws, e')
    ensures e == e'
  {
    var k :| 0 <= k < |ws| && ws[k] == e && Accepts(env, e) && forall j :: 0 <= j < k ==> !Accepts(env, ws[j]);
    var k' :| 0 <= k' < |ws| && ws[k'] == e' && Accepts(env, e') && forall j :: 0 <= j < k' ==> !Accepts(env, ws[j]);
  }

  /** The reported end is the first acceptable one in the order of preference; a failure means that
      there is none. */
  lemma {:induction false} SearchPrefers(env: Env, n: nat, items: Items, i: nat, caps: Caps)
    requires GuardedItems(items) && Untangled(items, false) && i <= |env.subject|
    ensures var r, ws := Call(env, n, Point(items, Top, i), NoMark, caps), Ways(env, items, i);
      && (r.Matched? ==> forall e: nat :: FirstOf(env, ws, e) <==> e == r.end)
      && (r.Failed? ==> forall e: nat :: e in ws ==> !Accepts(env, e))
  {
    hide Call, Ways, GuardedItems, Untangled, FirstOf, Accepts;
    var r, ws := Call(env, n, Point(items, Top, i), NoMark, caps), Ways(env, items, i);
    CallSays(env, n, Point(items, Top, i), NoTrail, NoMark, caps);
    OutTop(env, NoTrail, ws);
    if r.Matched? {
      forall e: nat | FirstOf(env, ws, e) ensures e == r.end {
        FirstUnique(env, ws, e, r.end);
      }
    }
  }
}
