/** What a failed attempt leaves in the capture vector: everything has its old value, except the
    data slots of brackets that were open when the attempt began. */
module Restore {
  import opened Tree
  import opened Machine
  import opened Search

  function Open(ctx: Ctx): set<nat> {
    match ctx case Top => {} case In(g, _, outer) => Open(outer) + {g.cap}
  }

  /** The data slots of the brackets with the given numbers. */
  predicate Loose(env: Env, open: set<nat>, k: nat) {
    2 <= k < env.omax && k / 2 in open
  }

  ghost predicate Kept(env: Env, open: set<nat>, v: seq<int>, v': seq<int>) {
    |v| == |v'| && forall k :: 0 <= k < |v| && !Loose(env, open, k) ==> v'[k] == v[k]
  }

  lemma KeptTrans(env: Env, open: set<nat>, u: seq<int>, v: seq<int>, w: seq<int>)
    requires Kept(env, open, u, v) && Kept(env, open, v, w)
    ensures Kept(env, open, u, w)
  {
  }

  lemma KeptMore(env: Env, open: set<nat>, open': set<nat>, v: seq<int>, v': seq<int>)
    requires Kept(env, open, v, v') && open <= open'
    ensures Kept(env, open', v, v')
  {
  }

  /** Closing a bracket changes its own data slots only. */
  lemma KeptClose(env: Env, caps: Caps, cap: nat, i: nat)
    requires ValidEnv(env)
    ensures Kept(env, {cap}, caps.vec, CloseCap(env, caps, cap, i).vec)
  {
  }

  /** Putting back the three slots of a bracket undoes what it and its branches changed. */
  lemma KeptBracket(env: Env, open: set<nat>, caps: Caps, cap: nat, i: nat, r: Res)
    requires ValidEnv(env) && |caps.vec| == env.oend && r.Failed?
    requires Kept(env, open + {cap}, OpenCap(env, caps, cap, i).vec, r.vec)
    ensures Kept(env, open, caps.vec, PutBack(env, caps, cap, r).vec)
  {
  }

  ghost predicate Restores(env: Env, ctx: Ctx, caps: Caps, r: Res) {
    r.Failed? ==> Kept(env, Open(ctx), caps.vec, r.vec)
  }

  lemma RestoresThen(env: Env, ctx: Ctx, caps: Caps, r: Res, r': Res)
    requires r.Failed? && Restores(env, ctx, caps, r) && Restores(env, ctx, Resume(caps, r), r')
    ensures Restores(env, ctx, caps, r')
  {
    hide Kept;
    if r'.Failed? {
      KeptTrans(env, Open(ctx), caps.vec, r.vec, r'.vec);
    }
  }

  /** Every failed attempt, wherever it begins, restores the vector up to the data slots of the open
      brackets. */
  lemma {:induction false} CallRestores(env: Env, n: nat, p: Point, chain: Chain, caps: Caps)
    requires ValidEnv(env) && |caps.vec| == env.oend
    ensures Restores(env, p.ctx, caps, Call(env, n, p, chain, caps))
    decreases n, 0, 0
  {
    hide Restores;
    if n > 0 {
      GoRestores(env, n - 1, p, chain, caps);
    } else {
      NotFailed(env, p.ctx, caps, Limit);
    }
  }

  lemma NotFailed(env: Env, ctx: Ctx, caps: Caps, r: Res)
    ensures !r.Failed? || r.vec == caps.vec ==> Restores(env, ctx, caps, r)
  {
  }

  lemma {:induction false} GoRestores(env: Env, n: nat, p: Point, chain: Chain, caps: Caps)
    requires ValidEnv(env) && |caps.vec| == env.oend
    ensures Restores(env, p.ctx, caps, Go(env, n, p, chain, caps))
    decreases n, 2, 2 * (Length(p.items) + Weight(p.ctx)) + 1
  {
    hide Restores, OpenCap, PutBack, Test;
    match p.items
    case Nil =>
      if p.ctx.In? {
        KetRestores(env, n, p, chain, caps);
      } else {
        NotFailed(env, p.ctx, caps, Go(env, n, p, chain, caps));
      }
    case Cons(One(x), t) =>
      if p.i < |env.subject| && Test(env, x, env.subject[p.i]) {
        GoRestores(env, n, Point(t, p.ctx, p.i + 1), chain, caps);
      } else {
        NotFailed(env, p.ctx, caps, Failed(n, caps.vec, caps.over));
      }
    case Cons(Many(x, r), t) =>
      ManyRestores(env, n, p, chain, caps);
    case Cons(Group(z, g), t) =>
      if z == Once {
        BracketRestores(env, n, g, t, p.ctx, p.i, Push(g.s, chain, p.i), caps);
      } else {
        ZeroRestores(env, n, p, chain, caps);
      }
  }

  lemma {:induction false} BracketRestores(env: Env, n: nat, g: Grp, t: Items, ctx: Ctx, i: nat, chain: Chain,
                                           caps: Caps)
    requires ValidEnv(env) && |caps.vec| == env.oend
    ensures Restores(env, ctx, caps, PutBack(env, caps, g.cap, Try(env, n, g.alts, g, t, ctx, i, chain, OpenCap(env, caps, g.cap, i))))
    decreases n, 2, 0
  {
    hide Kept, OpenCap, PutBack;
    var caps' := OpenCap(env, caps, g.cap, i);
    OpenLength(env, caps, g.cap, i);
    var r := Try(env, n, g.alts, g, t, ctx, i, chain, caps');
    TryRestores(env, n, g.alts, g, t, ctx, i, chain, caps');
    if r.Failed? {
      KeptBracket(env, Open(ctx), caps, g.cap, i, r);
    }
  }

  lemma OpenLength(env: Env, caps: Caps, cap: nat, i: nat)
    ensures |OpenCap(env, caps, cap, i).vec| == |CloseCap(env, caps, cap, i).vec| == |caps.vec|
  {
  }

  lemma {:induction false} ZeroRestores(env: Env, n: nat, p: Point, chain: Chain, caps: Caps)
    requires ValidEnv(env) && |caps.vec| == env.oend && p.items.Cons? && p.items.head.Group?
    requires p.items.head.zero != Once
    ensures Restores(env, p.ctx, caps, Go(env, n, p, chain, caps))
    decreases n, 2, 2 * (Length(p.items) + Weight(p.ctx))
  {
    hide Restores;
    var Cons(Group(z, g), t) := p.items;
    var skip, enter := Point(t, p.ctx, p.i), Point(Cons(Group(Once, g), t), p.ctx, p.i);
    if z == SkipZero {
      GoRestores(env, n, skip, chain, caps);
    } else {
      var first, second := if z == BraZero then enter else skip, if z == BraZero then skip else enter;
      var r := Call(env, n, first, chain, caps);
      CallRestores(env, n, first, chain, caps);
      if r.Failed? {
        GoRestores(env, r.left, second, chain, Resume(caps, r));
        RestoresThen(env, p.ctx, caps, r, Go(env, r.left, second, chain, Resume(caps, r)));
      }
    }
  }

  lemma {:induction false} ManyRestores(env: Env, n: nat, p: Point, chain: Chain, caps: Caps)
    requires ValidEnv(env) && |caps.vec| == env.oend && p.items.Cons? && p.items.head.Many?
    ensures Restores(env, p.ctx, caps, Go(env, n, p, chain, caps))
    decreases n, 2, 2 * (Length(p.items) + Weight(p.ctx))
  {
    hide Restores, Go, Up, Down, RunEnd, AllTest;
    GoMany(env, n, p, chain, caps);
    var Cons(Many(x, r), t) := p.items;
    var lo := p.i + Min(r);
    if lo > |env.subject| || !AllTest(env, x, p.i, lo) {
      NotFailed(env, p.ctx, caps, Failed(n, caps.vec, caps.over));
    } else if Fixed(r) || ModeOf(r) == Poss {
      GoRestores(env, n, Point(t, p.ctx, if Fixed(r) then lo else RunEnd(env, x, r, p.i, lo)), chain, caps);
    } else if ModeOf(r) == Greedy {
      DownRestores(env, n, t, p.ctx, lo, RunEnd(env, x, r, p.i, lo), chain, caps);
    } else {
      UpRestores(env, n, x, r, t, p.ctx, p.i, lo, chain, caps);
    }
  }

  lemma {:induction false} DownRestores(env: Env, n: nat, t: Items, ctx: Ctx, lo: nat, j: nat, chain: Chain, caps: Caps)
    requires ValidEnv(env) && |caps.vec| == env.oend
    ensures Restores(env, ctx, caps, Down(env, n, t, ctx, lo, j, chain, caps))
    decreases n, 1, j
  {
    hide Restores;
    var r := Call(env, n, Point(t, ctx, j), chain, caps);
    CallRestores(env, n, Point(t, ctx, j), chain, caps);
    if j > lo && r.Failed? {
      DownRestores(env, r.left, t, ctx, lo, j - 1, chain, Resume(caps, r));
      RestoresThen(env, ctx, caps, r, Down(env, r.left, t, ctx, lo, j - 1, chain, Resume(caps, r)));
    }
  }

  lemma {:induction false} UpRestores(env: Env, n: nat, x: Single, r: Rep, t: Items, ctx: Ctx, i: nat, j: nat,
                                      chain: Chain, caps: Caps)
    requires ValidEnv(env) && |caps.vec| == env.oend && i <= j <= |env.subject|
    ensures Restores(env, ctx, caps, Up(env, n, x, r, t, ctx, i, j, chain, caps))
    decreases n, 1, |env.subject| - j
  {
    hide Restores;
    var res := Call(env, n, Point(t, ctx, j), chain, caps);
    CallRestores(env, n, Point(t, ctx, j), chain, caps);
    if res.Failed? && AtMost(r, j + 1 - i) && j < |env.subject| && Test(env, x, env.subject[j]) {
      UpRestores(env, res.left, x, r, t, ctx, i, j + 1, chain, Resume(caps, res));
      RestoresThen(env, ctx, caps, res, Up(env, res.left, x, r, t, ctx, i, j + 1, chain, Resume(caps, res)));
    }
  }

  lemma {:induction false} TryRestores(env: Env, n: nat, alts: Alts, g: Grp, t: Items, ctx: Ctx, i: nat, chain: Chain,
                                       caps: Caps)
    requires ValidEnv(env) && |caps.vec| == env.oend
    ensures Restores(env, In(g, t, ctx), caps, Try(env, n, alts, g, t, ctx, i, chain, caps))
    decreases n, 1, alts
  {
    hide Restores;
    var inner := In(g, t, ctx);
    var r := Call(env, n, Point(alts.b, inner, i), chain, caps);
    CallRestores(env, n, Point(alts.b, inner, i), chain, caps);
    if alts.More? && r.Failed? {
      TryRestores(env, r.left, alts.rest, g, t, ctx, i, chain, Resume(caps, r));
      RestoresThen(env, inner, caps, r, Try(env, r.left, alts.rest, g, t, ctx, i, chain, Resume(caps, r)));
    }
  }

  lemma {:induction false} KetRestores(env: Env, n: nat, p: Point, chain: Chain, caps: Caps)
    requires ValidEnv(env) && |caps.vec| == env.oend && p.items.Nil? && p.ctx.In?
    ensures Restores(env, p.ctx, caps, AtKet(env, n, p, chain, caps))
    decreases n, 2, 2 * Weight(p.ctx)
  {
    hide Restores, CloseCap;
    var g, outer := p.ctx.g, p.ctx.outer;
    var leave, again := Point(p.ctx.rest, outer, p.i), Point(Cons(Group(Once, g), p.ctx.rest), outer, p.i);
    var chain' := if g.s then Pop(chain) else chain;
    var caps' := CloseCap(env, caps, g.cap, p.i);
    OpenLength(env, caps, g.cap, p.i);
    if g.ket == Ket || (g.s && MarkedHere(chain, p.i)) {
      GoRestores(env, n, leave, chain', caps');
    } else {
      var first, second := if g.ket == KetRmax then again else leave, if g.ket == KetRmax then leave else again;
      var chain1, chain2 := if g.ket == KetRmax then Push(g.s, chain', p.i) else chain', if g.ket == KetRmax then chain' else Push(g.s, chain', p.i);
      var r := Call(env, n, first, chain1, caps');
      CallRestores(env, n, first, chain1, caps');
      if r.Failed? {
        CallRestores(env, r.left, second, chain2, Resume(caps', r));
        RestoresThen(env, outer, caps', r, Call(env, r.left, second, chain2, Resume(caps', r)));
      }
    }
    ClosedRestores(env, p.ctx, caps, p.i, AtKet(env, n, p, chain, caps));
  }

  lemma ClosedRestores(env: Env, ctx: Ctx, caps: Caps, i: nat, r: Res)
    requires ValidEnv(env) && ctx.In? && Restores(env, ctx.outer, CloseCap(env, caps, ctx.g.cap, i), r)
    ensures Restores(env, ctx, caps, r)
  {
    hide Kept, CloseCap;
    if r.Failed? {
      var v := CloseCap(env, caps, ctx.g.cap, i).vec;
      KeptClose(env, caps, ctx.g.cap, i);
      KeptMore(env, {ctx.g.cap}, Open(ctx), caps.vec, v);
      KeptMore(env, Open(ctx.outer), Open(ctx), v, r.vec);
      KeptTrans(env, Open(ctx), caps.vec, v, r.vec);
    }
  }

  /** Outside all capturing brackets for which there is room, a failed attempt leaves the vector as it was. */
  lemma {:induction false} Untouched(env: Env, n: nat, p: Point, chain: Chain, caps: Caps)
    requires ValidEnv(env) && |caps.vec| == env.oend && forall k :: k in Open(p.ctx) ==> k == 0 || 2 * k >= env.omax
    ensures var r := Call(env, n, p, chain, caps); r.Failed? ==> r.vec == caps.vec
  {
    hide Call, Open;
    CallRestores(env, n, p, chain, caps);
    var r := Call(env, n, p, chain, caps);
    assert forall k: nat :: !Loose(env, Open(p.ctx), k);
  }

  /** The exception is needed for every bracket k that is open and has slots: in a pattern like ((a))b on
      "ac" the attempt at the inner bracket, numbered m here, passes the end of the outer one, sets its
      capture, and fails after that. */
  lemma {:induction false} LeftBehind(env: Env, k: nat, m: nat, a: byte, b: byte, n: nat, caps: Caps)
    requires ValidEnv(env) && |caps.vec| == env.oend && HasSlots(env, caps, k) && HasSlots(env, caps, m) && k != m
    requires |env.subject| >= 2 && env.subject[0] == a && env.subject[1] != b && n >= 2 && caps.vec[env.oend - k] == 0
    ensures var inner := Grp(false, m, Last(Cons(One(Chr(a)), Nil)), Ket);
      var outer := Grp(false, k, Last(Cons(Group(Once, inner), Nil)), Ket);
      var p := Point(outer.alts.b, In(outer, Cons(One(Chr(b)), Nil), Top), 0);
      var r := Call(env, n, p, NoMark, caps);
      r.Failed? && r.vec == caps.vec[2 * k := 0][2 * k + 1 := 1]
  {
    hide OpenCap, CloseCap, PutBack;
    var inner := Grp(false, m, Last(Cons(One(Chr(a)), Nil)), Ket);
    var outer := Grp(false, k, Last(Cons(Group(Once, inner), Nil)), Ket);
    var ctx := In(outer, Cons(One(Chr(b)), Nil), Top);
    var caps1 := OpenCap(env, caps, m, 0);
    var caps2 := CloseCap(env, caps1, m, 1);
    var caps3 := CloseCap(env, caps2, k, 1);
    var inside := In(inner, Nil, ctx);
    assert Go(env, n - 2, Point(Cons(One(Chr(b)), Nil), Top, 1), NoMark, caps3) == Failed(n - 2, caps3.vec, caps3.over);
    assert Go(env, n - 2, Point(Nil, ctx, 1), NoMark, caps2) == Failed(n - 2, caps3.vec, caps3.over);
    assert Go(env, n - 2, Point(Nil, inside, 1), NoMark, caps1) == Failed(n - 2, caps3.vec, caps3.over);
    assert Go(env, n - 2, Point(inner.alts.b, inside, 0), NoMark, caps1) == Failed(n - 2, caps3.vec, caps3.over);
    var r := Try(env, n - 1, inner.alts, inner, Nil, ctx, 0, NoMark, caps1);
    assert inner.alts.Last? && Call(env, n - 1, Point(inner.alts.b, inside, 0), NoMark, caps1) == Failed(n - 2,
           caps3.vec, caps3.over);
    assert r == Failed(n - 2, caps3.vec, caps3.over);
    OpenLength(env, caps, m, 0);
    OpenLength(env, caps1, m, 1);
    OpenLength(env, caps2, k, 1);
    assert Go(env, n - 1, Point(outer.alts.b, ctx, 0), NoMark, caps) == PutBack(env, caps, m, r);
    LeftSlots(env, caps, k, m, r);
  }

  lemma LeftSlots(env: Env, caps: Caps, k: nat, m: nat, r: Res)
    requires ValidEnv(env) && |caps.vec| == env.oend && HasSlots(env, caps, k) && HasSlots(env, caps, m) && k != m
    requires r.Failed? && r.vec == CloseCap(env, CloseCap(env, OpenCap(env, caps, m, 0), m, 1), k, 1).vec
    requires caps.vec[env.oend - k] == 0
    ensures PutBack(env, caps, m, r).vec == caps.vec[2 * k := 0][2 * k + 1 := 1]
  {
  }

  // ---------------------------------------------------------------------------------------
  // Exactly when a failed attempt leaves no trace

  /** The numbers of the open brackets, innermost first. */
  function Numbers(ctx: Ctx): seq<nat> {
    match ctx case Top => [] case In(g, _, outer) => [g.cap] + Numbers(outer)
  }

  predicate Roomy(env: Env, k: nat) {
    0 < k && 2 * k < env.omax
  }

  /** With a vector like that of `size`, no failed attempt inside brackets with these numbers changes it. */
  ghost predicate Traceless(size: Env, ks: seq<nat>) {
    forall env: Env, p: Point, n: nat, chain: Chain, caps: Caps ::
      env.omax == size.omax && env.oend == size.oend && |caps.vec| == env.oend && Numbers(p.ctx) == ks ==>
      (Call(env, n, p, chain, caps).Failed? ==> Call(env, n, p, chain, caps).vec == caps.vec)
  }

  lemma {:induction false} OpenNumbers(ctx: Ctx, k: nat)
    ensures k in Open(ctx) <==> k in Numbers(ctx)
  {
    if ctx.In? {
      OpenNumbers(ctx.outer, k);
    }
  }

  /** For every nest of open brackets: an attempt at the contents that fails always leaves the vector as it
      was, if and only if none of the brackets has slots in it. */
  lemma {:induction false} TracelessExact(size: Env, ks: seq<nat>)
    requires ValidEnv(size)
    ensures Traceless(size, ks) <==> forall k :: k in ks ==> !Roomy(size, k)
  {
    hide Call, Numbers, Open;
    if forall k :: k in ks ==> !Roomy(size, k) {
      forall env: Env, p: Point, n: nat, chain: Chain, caps: Caps |
        env.omax == size.omax && env.oend == size.oend && |caps.vec| == env.oend && Numbers(p.ctx) == ks
        ensures Call(env, n, p, chain, caps).Failed? ==> Call(env, n, p, chain, caps).vec == caps.vec
      {
        forall k | k in Open(p.ctx) ensures k == 0 || 2 * k >= env.omax {
          OpenNumbers(p.ctx, k);
        }
        Untouched(env, n, p, chain, caps);
      }
    } else {
      var k :| k in ks && Roomy(size, k);
      var env, vec := size.(subject := [], notempty := true, mstart := 0), seq(size.oend, _ => -1);
      NestNumbers(ks);
      CallNest(env, ks, vec);
      var r := Call(env, 1, Point(Nil, Nest(ks), 0), NoMark, Caps(vec, 2, false));
      assert r.vec[2 * k + 1] != vec[2 * k + 1];
    }
  }

  /** Brackets around nothing. */
  function Nest(ks: seq<nat>): Ctx {
    if ks == [] then Top else In(Grp(false, ks[0], Last(Nil), Ket), Nil, Nest(ks[1..]))
  }

  lemma {:induction false} NestNumbers(ks: seq<nat>)
    ensures Numbers(Nest(ks)) == ks
  {
    if ks != [] {
      NestNumbers(ks[1..]);
    }
  }

  lemma CallNest(env: Env, ks: seq<nat>, vec: seq<int>)
    requires ValidEnv(env) && |vec| == env.oend && env.notempty && env.mstart == 0
    ensures var r := Call(env, 1, Point(Nil, Nest(ks), 0), NoMark, Caps(vec, 2, false));
      r.Failed? && |r.vec| == |vec| && forall k: nat :: Roomy(env, k) && k in ks ==> r.vec[2 * k + 1] == 0
  {
    hide Go, Nest;
    CloseNest(env, 0, ks, Caps(vec, 2, false));
  }

  /** They are all closed, one after the other, before the empty match is refused. */
  lemma {:induction false} CloseNest(env: Env, n: nat, ks: seq<nat>, caps: Caps)
    requires ValidEnv(env) && |caps.vec| == env.oend && env.notempty && env.mstart == 0
    ensures var r := Go(env, n, Point(Nil, Nest(ks), 0), NoMark, caps);
      && r.Failed? && |r.vec| == |caps.vec|
      && forall k: nat :: Roomy(env, k) ==> r.vec[2 * k + 1] == if k in ks then 0 else caps.vec[2 * k + 1]
    decreases |ks|
  {
    hide CloseCap;
    var p := Point(Nil, Nest(ks), 0);
    if ks != [] {
      var caps' := CloseCap(env, caps, ks[0], 0);
      CloseOdd(env, caps, ks[0]);
      CloseNest(env, n, ks[1..], caps');
      var r := Go(env, n, Point(Nil, Nest(ks[1..]), 0), NoMark, caps');
      assert Go(env, n, p, NoMark, caps) == AtKet(env, n, p, NoMark, caps) == r;
      forall k: nat | Roomy(env, k) ensures r.vec[2 * k + 1] == if k in ks then 0 else caps.vec[2 * k + 1] {
        assert k in ks <==> k == ks[0] || k in ks[1..];
      }
    }
  }

  lemma CloseOdd(env: Env, caps: Caps, cap: nat)
    requires ValidEnv(env) && |caps.vec| == env.oend
    ensures var vec := CloseCap(env, caps, cap, 0).vec;
      |vec| == |caps.vec| && forall k: nat :: Roomy(env, k) ==> vec[2 * k + 1] == if k == cap then 0 else caps.vec[2 * k + 1]
  {
  }
}
