/** The call limit is a threshold: every search has a number of entries to match() that it needs, with fewer it
    reports the limit, and with more its result is always the same. */
module Budget {
  import opened Tree
  import opened Machine
  import opened Search

  /** With d more calls to begin with, d more are left. */
  function More(r: Res, d: nat): Res {
    match r
    case Matched(end, caps, left) => Matched(end, caps, left + d)
    case Failed(left, vec, over) => Failed(left + d, vec, over)
    case Limit => Limit
  }

  /** The results with some budget and with d more: the same, unless the lower one was too low, and then the
      higher one does not leave d. */
  predicate Differ(r: Res, r': Res, d: nat) {
    if r.Limit? then r'.Limit? || r'.left < d else r' == More(r, d)
  }

  lemma {:induction false} CallMore(env: Env, n: nat, d: nat, p: Point, chain: Chain, caps: Caps)
    ensures Differ(Call(env, n, p, chain, caps), Call(env, n + d, p, chain, caps), d)
    decreases n, 0, 0
  {
    if n > 0 {
      GoMore(env, n - 1, d, p, chain, caps);
    }
  }

  lemma {:induction false} GoMore(env: Env, n: nat, d: nat, p: Point, chain: Chain, caps: Caps)
    ensures Differ(Go(env, n, p, chain, caps), Go(env, n + d, p, chain, caps), d)
    decreases n, 2, 2 * (Length(p.items) + Weight(p.ctx)) + 1
  {
    hide Test, OpenCap;
    match p.items
    case Nil =>
      if p.ctx.In? {
        KetMore(env, n, d, p, chain, caps);
      }
    case Cons(One(x), t) =>
      if p.i < |env.subject| && Test(env, x, env.subject[p.i]) {
        GoMore(env, n, d, Point(t, p.ctx, p.i + 1), chain, caps);
      }
    case Cons(Many(x, r), t) => ManyMore(env, n, d, p, chain, caps);
    case Cons(Group(z, g), t) =>
      if z == Once {
        TryMore(env, n, d, g.alts, g, t, p.ctx, p.i, Push(g.s, chain, p.i), OpenCap(env, caps, g.cap, p.i));
      } else {
        ZeroMore(env, n, d, p, chain, caps);
      }
  }

  lemma {:induction false} ZeroMore(env: Env, n: nat, d: nat, p: Point, chain: Chain, caps: Caps)
    requires p.items.Cons? && p.items.head.Group? && p.items.head.zero != Once
    ensures Differ(Go(env, n, p, chain, caps), Go(env, n + d, p, chain, caps), d)
    decreases n, 2, 2 * (Length(p.items) + Weight(p.ctx))
  {
    var Cons(Group(z, g), t) := p.items;
    var skip, enter := Point(t, p.ctx, p.i), Point(Cons(Group(Once, g), t), p.ctx, p.i);
    if z == SkipZero {
      GoMore(env, n, d, skip, chain, caps);
    } else {
      var q, q' := if z == BraZero then enter else skip, if z == BraZero then skip else enter;
      var r := Call(env, n, q, chain, caps);
      CallMore(env, n, d, q, chain, caps);
      if r.Failed? {
        GoMore(env, r.left, d, q', chain, Resume(caps, r));
      }
    }
  }

  lemma {:induction false} KetMore(env: Env, n: nat, d: nat, p: Point, chain: Chain, caps: Caps)
    requires p.items.Nil? && p.ctx.In?
    ensures Differ(AtKet(env, n, p, chain, caps), AtKet(env, n + d, p, chain, caps), d)
    decreases n, 2, 2 * Weight(p.ctx)
  {
    hide CloseCap;
    var g := p.ctx.g;
    var leave, again := Point(p.ctx.rest, p.ctx.outer, p.i), Point(Cons(Group(Once, g), p.ctx.rest), p.ctx.outer, p.i);
    var chain' := if g.s then Pop(chain) else chain;
    var caps' := CloseCap(env, caps, g.cap, p.i);
    if g.ket == Ket || (g.s && MarkedHere(chain, p.i)) {
      GoMore(env, n, d, leave, chain', caps');
    } else {
      var max := g.ket == KetRmax;
      var q, q' := if max then again else leave, if max then leave else again;
      var c, c' := if max then Push(g.s, chain', p.i) else chain', if max then chain' else Push(g.s, chain', p.i);
      var r := Call(env, n, q, c, caps');
      CallMore(env, n, d, q, c, caps');
      if r.Failed? {
        CallMore(env, r.left, d, q', c', Resume(caps', r));
      }
    }
  }

  lemma {:induction false} TryMore(env: Env, n: nat, d: nat, alts: Alts, g: Grp, t: Items, ctx: Ctx, i: nat,
                                   chain: Chain, caps: Caps)
    ensures Differ(Try(env, n, alts, g, t, ctx, i, chain, caps), Try(env, n + d, alts, g, t, ctx, i, chain, caps), d)
    decreases n, 1, alts
  {
    var q := Point(alts.b, In(g, t, ctx), i);
    var r := Call(env, n, q, chain, caps);
    CallMore(env, n, d, q, chain, caps);
    if alts.More? && r.Failed? {
      TryMore(env, r.left, d, alts.rest, g, t, ctx, i, chain, Resume(caps, r));
    }
  }

  lemma {:induction false} ManyMore(env: Env, n: nat, d: nat, p: Point, chain: Chain, caps: Caps)
    requires p.items.Cons? && p.items.head.Many?
    ensures Differ(Go(env, n, p, chain, caps), Go(env, n + d, p, chain, caps), d)
    decreases n, 2, 2 * (Length(p.items) + Weight(p.ctx))
  {
    hide Go, Up, Down, RunEnd;
    GoMany(env, n, p, chain, caps);
    GoMany(env, n + d, p, chain, caps);
    var Cons(Many(x, r), t) := p.items;
    var lo := p.i + Min(r);
    if lo <= |env.subject| && AllTest(env, x, p.i, lo) {
      var hi := RunEnd(env, x, r, p.i, lo);
      if Fixed(r) {
        GoMore(env, n, d, Point(t, p.ctx, lo), chain, caps);
      } else if ModeOf(r) == Poss {
        GoMore(env, n, d, Point(t, p.ctx, hi), chain, caps);
      } else if ModeOf(r) == Greedy {
        DownMore(env, n, d, t, p.ctx, lo, hi, chain, caps);
      } else {
        UpMore(env, n, d, x, r, t, p.ctx, p.i, lo, chain, caps);
      }
    }
  }

  lemma {:induction false} DownMore(env: Env, n: nat, d: nat, t: Items, ctx: Ctx, lo: nat, j: nat, chain: Chain,
                                    caps: Caps)
    ensures Differ(Down(env, n, t, ctx, lo, j, chain, caps), Down(env, n + d, t, ctx, lo, j, chain, caps), d)
    decreases n, 1, j
  {
    var r := Call(env, n, Point(t, ctx, j), chain, caps);
    CallMore(env, n, d, Point(t, ctx, j), chain, caps);
    if j > lo && r.Failed? {
      DownMore(env, r.left, d, t, ctx, lo, j - 1, chain, Resume(caps, r));
    }
  }

  lemma {:induction false} UpMore(env: Env, n: nat, d: nat, x: Single, r: Rep, t: Items, ctx: Ctx, i: nat, j: nat,
                                  chain: Chain, caps: Caps)
    requires i <= j <= |env.subject|
    ensures Differ(Up(env, n, x, r, t, ctx, i, j, chain, caps), Up(env, n + d, x, r, t, ctx, i, j, chain, caps), d)
    decreases n, 1, |env.subject| - j
  {
    hide Test;
    var res := Call(env, n, Point(t, ctx, j), chain, caps);
    CallMore(env, n, d, Point(t, ctx, j), chain, caps);
    if res.Failed? && AtMost(r, j + 1 - i) && j < |env.subject| && Test(env, x, env.subject[j]) {
      UpMore(env, res.left, d, x, r, t, ctx, i, j + 1, chain, Resume(caps, res));
    }
  }

  /** A search that ends at all with some limit n, leaving some of the calls unused, ends in the same way with every
      limit that is not lower than the number it used, and with no other. */
  lemma {:induction false} Threshold(env: Env, p: Point, chain: Chain, caps: Caps, n: nat, m: nat)
    requires !Call(env, n, p, chain, caps).Limit?
    ensures var r, r' := Call(env, n, p, chain, caps), Call(env, m, p, chain, caps);
      var used := n - r.left;
      && used > 0 && (r'.Limit? <==> m < used)
      && (m >= used ==> r' == r.(left := m - used))
  {
    hide Call;
    if n <= m {
      CallMore(env, n, m - n, p, chain, caps);
    } else {
      CallMore(env, m, n - m, p, chain, caps);
    }
  }

  // ---------------------------------------------------------------------------------------
  // How many: a*b on m bytes a takes one entry for the start, one for the branch, and one for each length of the run

  function StarThen(a: byte, b: byte): Items {
    Cons(Many(Chr(a), Star(Greedy)), Then(b))
  }

  function Then(b: byte): Items {
    Cons(One(Chr(b)), Nil)
  }

  predicate AllSame(s: seq<byte>, a: byte) {
    forall k :: 0 <= k < |s| ==> s[k] == a
  }

  /** With n calls, of which `used` are made, the search fails, or it reaches the limit. */
  predicate FailsAfter(n: nat, used: nat, caps: Caps, r: Res) {
    if n < used then r.Limit? else r == Failed(n - used, caps.vec, caps.over)
  }

  lemma {:induction false} DownCalls(env: Env, n: nat, a: byte, b: byte, ctx: Ctx, j: nat, chain: Chain, caps: Caps)
    requires AllSame(env.subject, a) && a != b && j <= |env.subject|
    ensures FailsAfter(n, j + 1, caps, Down(env, n, Then(b), ctx, 0, j, chain, caps))
    decreases j
  {
    var q := Point(Then(b), ctx, j);
    assert n > 0 ==> Call(env, n, q, chain, caps) == Go(env, n - 1, q, chain, caps) == Failed(n - 1, caps.vec, caps.over);
    if n > 0 && j > 0 {
      DownCalls(env, n - 1, a, b, ctx, j - 1, chain, caps);
    }
  }

  lemma {:induction false} RunAll(env: Env, a: byte, j: nat)
    requires AllSame(env.subject, a) && j <= |env.subject|
    ensures RunEnd(env, Chr(a), Star(Greedy), 0, j) == |env.subject|
    decreases |env.subject| - j
  {
    if j < |env.subject| {
      RunAll(env, a, j + 1);
    }
  }

  /** The branch in a bracket. */
  lemma {:induction false} StarCalls(env: Env, n: nat, a: byte, b: byte, caps: Caps)
    requires AllSame(env.subject, a) && a != b
    ensures var g := Grp(false, 0, Last(StarThen(a, b)), Ket);
      FailsAfter(n, |env.subject| + 3, caps, Call(env, n, Point(Cons(Group(Once, g), Nil), Top, 0), NoMark, caps))
  {
    hide RunEnd, Down;
    var g := Grp(false, 0, Last(StarThen(a, b)), Ket);
    var p, q := Point(Cons(Group(Once, g), Nil), Top, 0), Point(StarThen(a, b), In(g, Nil, Top), 0);
    if n > 0 {
      assert OpenCap(env, caps, 0, 0) == caps;
      assert Call(env, n, p, NoMark, caps) == Go(env, n - 1, p, NoMark, caps);
      assert Try(env, n - 1, g.alts, g, Nil, Top, 0, NoMark, caps) == Call(env, n - 1, q, NoMark, caps);
      assert Call(env, n, p, NoMark, caps) == PutBack(env, caps, 0, Call(env, n - 1, q, NoMark, caps));
      if n > 1 {
        RunAll(env, a, 0);
        GoMany(env, n - 2, q, NoMark, caps);
        DownCalls(env, n - 2, a, b, q.ctx, |env.subject|, NoMark, caps);
      }
    }
  }
}
