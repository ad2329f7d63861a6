/** md->offset_overflow: the note that a bracket was closed which has no slots in the vector. It is never taken
    back, not even when the attempt fails, and is not made where all brackets have slots. */
module Overflow {
  import opened Tree
  import opened Machine
  import opened Search
  import opened Captures

  predicate Roomy(env: Env, items: Items)
    decreases items
  {
    items.Cons? ==> (items.head.Group? ==> RoomyGrp(env, items.head.g)) && Roomy(env, items.tail)
  }

  predicate RoomyGrp(env: Env, g: Grp)
    decreases g
  {
    (g.cap > 0 ==> 2 * g.cap < env.omax) && RoomyAlts(env, g.alts)
  }

  predicate RoomyAlts(env: Env, alts: Alts)
    decreases alts
  {
    Roomy(env, alts.b) && (alts.More? ==> RoomyAlts(env, alts.rest))
  }

  predicate RoomyCtx(env: Env, ctx: Ctx)
    decreases ctx
  {
    ctx.In? ==> RoomyGrp(env, ctx.g) && Roomy(env, ctx.rest) && RoomyCtx(env, ctx.outer)
  }

  predicate RoomyPoint(env: Env, p: Point) {
    Roomy(env, p.items) && RoomyCtx(env, p.ctx)
  }

  /** All the brackets of consistently named code have slots if all the numbers have. */
  lemma {:induction false} NamedRoomy(env: Env, items: Items, names: Names, open: set<nat>)
    requires NamedItems(items, names, open) && forall n :: n in names ==> 2 * n < env.omax
    ensures Roomy(env, items)
    decreases items
  {
    if items.Cons? {
      assert NamedItem(items.head, names, open);
      if items.head.Group? {
        assert NamedGrp(items.head.g, names, open);
        NamedRoomyAlts(env, items.head.g.alts, names, open + {items.head.g.cap});
      }
      NamedRoomy(env, items.tail, names, open);
    }
  }

  lemma {:induction false} NamedRoomyAlts(env: Env, alts: Alts, names: Names, open: set<nat>)
    requires NamedAlts(alts, names, open) && forall n :: n in names ==> 2 * n < env.omax
    ensures RoomyAlts(env, alts)
    decreases alts
  {
    NamedRoomy(env, alts.b, names, open);
    if alts.More? {
      NamedRoomyAlts(env, alts.rest, names, open);
    }
  }

  /** The note after a search, where `was` is the one before. */
  predicate Noted(was: bool, roomy: bool, r: Res) {
    var now := if r.Matched? then r.caps.over else if r.Failed? then r.over else was;
    (was ==> now) && (roomy ==> now == was)
  }

  /** Closing a bracket that has slots makes no note. */
  lemma NotedClose(env: Env, g: Grp, caps: Caps, i: nat)
    requires ValidEnv(env) && |caps.vec| == env.oend
    ensures var caps' := CloseCap(env, caps, g.cap, i);
      |caps'.vec| == env.oend && (caps.over ==> caps'.over) && (RoomyGrp(env, g) ==> caps'.over == caps.over)
  {
    hide RoomyAlts;
  }

  lemma {:induction false} CallNotes(env: Env, n: nat, p: Point, chain: Chain, caps: Caps)
    requires ValidEnv(env) && |caps.vec| == env.oend
    ensures Noted(caps.over, RoomyPoint(env, p), Call(env, n, p, chain, caps))
    decreases n, 0, 0
  {
    if n > 0 {
      GoNotes(env, n - 1, p, chain, caps);
    }
  }

  lemma {:induction false} GoNotes(env: Env, n: nat, p: Point, chain: Chain, caps: Caps)
    requires ValidEnv(env) && |caps.vec| == env.oend
    ensures Noted(caps.over, RoomyPoint(env, p), Go(env, n, p, chain, caps))
    decreases n, 2, 2 * (Length(p.items) + Weight(p.ctx)) + 1
  {
    hide Test;
    match p.items
    case Nil =>
      if p.ctx.In? {
        KetNotes(env, n, p, chain, caps);
      }
    case Cons(One(x), t) =>
      if p.i < |env.subject| && Test(env, x, env.subject[p.i]) {
        GoNotes(env, n, Point(t, p.ctx, p.i + 1), chain, caps);
      }
    case Cons(Many(x, r), t) => ManyNotes(env, n, p, chain, caps);
    case Cons(Group(z, g), t) =>
      if z == Once {
        TryNotes(env, n, g.alts, g, t, p.ctx, p.i, Push(g.s, chain, p.i), OpenCap(env, caps, g.cap, p.i));
        assert RoomyPoint(env, p) ==> RoomyGrp(env, g) && RoomyCtx(env, In(g, t, p.ctx));
      } else {
        ZeroNotes(env, n, p, chain, caps);
      }
  }

  lemma {:induction false} ZeroNotes(env: Env, n: nat, p: Point, chain: Chain, caps: Caps)
    requires ValidEnv(env) && |caps.vec| == env.oend
    requires p.items.Cons? && p.items.head.Group? && p.items.head.zero != Once
    ensures Noted(caps.over, RoomyPoint(env, p), Go(env, n, p, chain, caps))
    decreases n, 2, 2 * (Length(p.items) + Weight(p.ctx))
  {
    var Cons(Group(z, g), t) := p.items;
    var skip, enter := Point(t, p.ctx, p.i), Point(Cons(Group(Once, g), t), p.ctx, p.i);
    if z == SkipZero {
      GoNotes(env, n, skip, chain, caps);
    } else {
      var q, q' := if z == BraZero then enter else skip, if z == BraZero then skip else enter;
      var r := Call(env, n, q, chain, caps);
      CallNotes(env, n, q, chain, caps);
      if r.Failed? {
        GoNotes(env, r.left, q', chain, Resume(caps, r));
      }
    }
  }

  lemma {:induction false} KetNotes(env: Env, n: nat, p: Point, chain: Chain, caps: Caps)
    requires ValidEnv(env) && |caps.vec| == env.oend && p.items.Nil? && p.ctx.In?
    ensures Noted(caps.over, RoomyPoint(env, p), AtKet(env, n, p, chain, caps))
    decreases n, 2, 2 * Weight(p.ctx)
  {
    hide CloseCap, RoomyGrp;
    var g := p.ctx.g;
    var leave, again := Point(p.ctx.rest, p.ctx.outer, p.i), Point(Cons(Group(Once, g), p.ctx.rest), p.ctx.outer, p.i);
    var chain' := if g.s then Pop(chain) else chain;
    var caps' := CloseCap(env, caps, g.cap, p.i);
    NotedClose(env, g, caps, p.i);
    if g.ket == Ket || (g.s && MarkedHere(chain, p.i)) {
      GoNotes(env, n, leave, chain', caps');
    } else {
      var max := g.ket == KetRmax;
      var q, q' := if max then again else leave, if max then leave else again;
      var c, c' := if max then Push(g.s, chain', p.i) else chain', if max then chain' else Push(g.s, chain', p.i);
      var r := Call(env, n, q, c, caps');
      CallNotes(env, n, q, c, caps');
      if r.Failed? {
        CallNotes(env, r.left, q', c', Resume(caps', r));
      }
    }
  }

  lemma {:induction false} TryNotes(env: Env, n: nat, alts: Alts, g: Grp, t: Items, ctx: Ctx, i: nat, chain: Chain,
                                    caps: Caps)
    requires ValidEnv(env) && |caps.vec| == env.oend
    ensures Noted(caps.over, RoomyAlts(env, alts) && RoomyCtx(env, In(g, t, ctx)),
                  Try(env, n, alts, g, t, ctx, i, chain, caps))
    decreases n, 1, alts
  {
    hide RoomyGrp;
    var q := Point(alts.b, In(g, t, ctx), i);
    var r := Call(env, n, q, chain, caps);
    CallNotes(env, n, q, chain, caps);
    if alts.More? && r.Failed? {
      TryNotes(env, r.left, alts.rest, g, t, ctx, i, chain, Resume(caps, r));
    }
  }

  lemma {:induction false} ManyNotes(env: Env, n: nat, p: Point, chain: Chain, caps: Caps)
    requires ValidEnv(env) && |caps.vec| == env.oend && p.items.Cons? && p.items.head.Many?
    ensures Noted(caps.over, RoomyPoint(env, p), Go(env, n, p, chain, caps))
    decreases n, 2, 2 * (Length(p.items) + Weight(p.ctx))
  {
    hide Go, Up, Down, RunEnd;
    GoMany(env, n, p, chain, caps);
    var Cons(Many(x, r), t) := p.items;
    var lo := p.i + Min(r);
    if lo <= |env.subject| && AllTest(env, x, p.i, lo) {
      var hi := RunEnd(env, x, r, p.i, lo);
      if Fixed(r) {
        GoNotes(env, n, Point(t, p.ctx, lo), chain, caps);
      } else if ModeOf(r) == Poss {
        GoNotes(env, n, Point(t, p.ctx, hi), chain, caps);
      } else if ModeOf(r) == Greedy {
        DownNotes(env, n, t, p.ctx, lo, hi, chain, caps);
      } else {
        UpNotes(env, n, x, r, t, p.ctx, p.i, lo, chain, caps);
      }
    }
  }

  lemma {:induction false} DownNotes(env: Env, n: nat, t: Items, ctx: Ctx, lo: nat, j: nat, chain: Chain, caps: Caps)
    requires ValidEnv(env) && |caps.vec| == env.oend
    ensures Noted(caps.over, Roomy(env, t) && RoomyCtx(env, ctx), Down(env, n, t, ctx, lo, j, chain, caps))
    decreases n, 1, j
  {
    var r := Call(env, n, Point(t, ctx, j), chain, caps);
    CallNotes(env, n, Point(t, ctx, j), chain, caps);
    if j > lo && r.Failed? {
      DownNotes(env, r.left, t, ctx, lo, j - 1, chain, Resume(caps, r));
    }
  }

  lemma {:induction false} UpNotes(env: Env, n: nat, x: Single, r: Rep, t: Items, ctx: Ctx, i: nat, j: nat,
                                   chain: Chain, caps: Caps)
    requires ValidEnv(env) && |caps.vec| == env.oend && i <= j <= |env.subject|
    ensures Noted(caps.over, Roomy(env, t) && RoomyCtx(env, ctx), Up(env, n, x, r, t, ctx, i, j, chain, caps))
    decreases n, 1, |env.subject| - j
  {
    hide Test;
    var res := Call(env, n, Point(t, ctx, j), chain, caps);
    CallNotes(env, n, Point(t, ctx, j), chain, caps);
    if res.Failed? && AtMost(r, j + 1 - i) && j < |env.subject| && Test(env, x, env.subject[j]) {
      UpNotes(env, res.left, x, r, t, ctx, i, j + 1, chain, Resume(caps, res));
    }
  }

  // ---------------------------------------------------------------------------------------
  // A note that the reported match has no part in

  function Guess(a: byte, b: byte): Alts {
    var inner := Grp(false, 1, Last(Cons(One(Chr(a)), Nil)), Ket);
    More(Cons(Group(Once, inner), Cons(One(Chr(b)), Nil)), Last(Cons(One(Chr(a)), Nil)))
  }

  /** (a)b|a on "a", with no room for the bracket: it is closed in the first alternative, which then fails, and the
      match is that of the second. */
  lemma {:induction false} NotedInVain(env: Env, a: byte, b: byte, n: nat, caps: Caps)
    requires ValidEnv(env) && |caps.vec| == env.oend && env.omax <= 2
    requires env.subject == [a] && env.mstart == 0 && n >= 4
    ensures var g := Grp(false, 0, Guess(a, b), Ket);
      var r := Call(env, n, Point(Cons(Group(Once, g), Nil), Top, 0), NoMark, caps);
      r.Matched? && r.end == 1 && r.caps == caps.(over := true)
  {
    var g := Grp(false, 0, Guess(a, b), Ket);
    var inner, rest := g.alts.b.head.g, g.alts.b.tail;
    var ctx, noted := In(g, Nil, Top), caps.(over := true);
    assert OpenCap(env, caps, 0, 0) == caps && OpenCap(env, caps, 1, 0) == caps;
    assert CloseCap(env, caps, 1, 1) == noted && CloseCap(env, noted, 0, 1) == noted;
    var q := Point(inner.alts.b, In(inner, rest, ctx), 0);
    assert Go(env, n - 3, Point(rest, ctx, 1), NoMark, noted) == Failed(n - 3, caps.vec, true);
    assert Go(env, n - 3, Point(Nil, q.ctx, 1), NoMark, caps) == Failed(n - 3, caps.vec, true);
    assert Go(env, n - 3, q, NoMark, caps) == Failed(n - 3, caps.vec, true);
    assert Try(env, n - 2, inner.alts, inner, rest, ctx, 0, NoMark, caps) == Failed(n - 3, caps.vec, true);
    assert Call(env, n - 1, Point(g.alts.b, ctx, 0), NoMark, caps) == Failed(n - 3, caps.vec, true);
    assert Go(env, n - 4, Point(Nil, Top, 1), NoMark, noted) == Matched(1, noted, n - 4);
    assert Go(env, n - 4, Point(Nil, ctx, 1), NoMark, noted) == Matched(1, noted, n - 4);
    assert Go(env, n - 4, Point(g.alts.rest.b, ctx, 0), NoMark, noted) == Matched(1, noted, n - 4);
    assert Try(env, n - 3, g.alts.rest, g, Nil, Top, 0, NoMark, noted) == Matched(1, noted, n - 4);
    assert Try(env, n - 1, g.alts, g, Nil, Top, 0, NoMark, caps) == Matched(1, noted, n - 4);
    assert Go(env, n - 1, Point(Cons(Group(Once, g), Nil), Top, 0), NoMark, caps) == Matched(1, noted, n - 4);
  }
}
