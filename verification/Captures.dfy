/** What the capture vector holds when the search succeeds: every set pair of data slots is a
    substring of the match that the branches of that bracket do match. */
module Captures {
  import opened Tree
  import opened Semantics
  import opened Machine
  import opened Search
  import opened Restore

  /** Which branches belong to which capture number. Replicated copies of a bracket share both. */
  type Names = map<nat, Alts>

  /** Every bracket that captures is named consistently and is not nested in one of the same number. */
  ghost predicate NamedItems(items: Items, names: Names, open: set<nat>)
    decreases items
  {
    match items
    case Nil => true
    case Cons(it, t) => NamedItem(it, names, open) && NamedItems(t, names, open)
  }

  ghost predicate NamedItem(it: Item, names: Names, open: set<nat>)
    decreases it
  {
    it.Group? ==> NamedGrp(it.g, names, open)
  }

  ghost predicate NamedGrp(g: Grp, names: Names, open: set<nat>)
    decreases g
  {
    && (g.cap > 0 ==> g.cap !in open && g.cap in names && names[g.cap] == g.alts)
    && NamedAlts(g.alts, names, open + {g.cap})
  }

  ghost predicate NamedAlts(alts: Alts, names: Names, open: set<nat>)
    decreases alts
  {
    NamedItems(alts.b, names, open) && (alts.More? ==> NamedAlts(alts.rest, names, open))
  }

  ghost predicate NamedCtx(ctx: Ctx, names: Names) {
    match ctx
    case Top => true
    case In(g, rest, outer) => NamedGrp(g, names, Open(outer)) && NamedItems(rest, names, Open(outer)) && NamedCtx(outer, names)
  }

  lemma {:induction false} NamedBranch(b: Items, alts: Alts, names: Names, open: set<nat>)
    requires InAlts(b, alts) && NamedAlts(alts, names, open)
    ensures NamedItems(b, names, open)
  {
    if alts.More? && b != alts.b {
      NamedBranch(b, alts.rest, names, open);
    }
  }

  /** The data slots of brackets that are not open: unset, or a substring that starts and ends inside the
      match and that the bracket matches. Those of open brackets may hold what a failed attempt left. */
  ghost predicate DataOk(env: Env, names: Names, caps: Caps, i: nat, open: set<nat>)
    requires ValidEnv(env) && |caps.vec| == env.oend
  {
    forall n: nat :: n in names && n !in open && HasSlots(env, caps, n) ==> SlotOk(env, names, caps, n, i)
  }

  ghost predicate SlotOk(env: Env, names: Names, caps: Caps, n: nat, i: nat)
    requires ValidEnv(env) && |caps.vec| == env.oend && HasSlots(env, caps, n)
  {
    var a, b := caps.vec[2 * n], caps.vec[2 * n + 1];
    || (a == -1 && b == -1)
    || (env.mstart <= a <= b <= i && 2 * n + 2 <= caps.top && n in names && MatchAlts(env, names[n], a, b))
  }

  ghost function Ends(env: Env, items: Items, i: nat): iset<nat> {
    iset j: nat | MatchItems(env, items, i, j)
  }

  /** Where a run that leaves the innermost bracket somewhere in `ends` can be when the rest of the
      surrounding branch is matched. */
  ghost function After(env: Env, g: Grp, rest: Items, ends: iset<nat>): iset<nat> {
    iset j: nat | IsAfter(env, g, rest, ends, j)
  }

  ghost predicate IsAfter(env: Env, g: Grp, rest: Items, ends: iset<nat>, j: nat) {
    exists m: nat, n: nat, a: nat ::
      m in ends && MatchTimes(env, g.alts, n, m, a) && (g.ket == Ket ==> n == 0) && MatchItems(env, rest, a, j)
  }

  /** The working slots of the open brackets: wherever the current branch can end, the bracket has
      been matched from the remembered position. */
  ghost predicate Promise(env: Env, ctx: Ctx, caps: Caps, ends: iset<nat>)
    decreases ctx
  {
    match ctx
    case Top => true
    case In(g, rest, outer) =>
      && (HasSlots(env, caps, g.cap) ==>
            var w := caps.vec[env.oend - g.cap];
            env.mstart <= w && forall j: nat :: j in ends ==> w <= j && MatchAlts(env, g.alts, w, j))
      && Promise(env, outer, caps, After(env, g, rest, ends))
  }

  lemma {:induction false} PromiseLess(env: Env, ctx: Ctx, caps: Caps, ends: iset<nat>, ends': iset<nat>)
    requires Promise(env, ctx, caps, ends) && ends' <= ends
    ensures Promise(env, ctx, caps, ends')
    decreases ctx
  {
    if ctx.In? {
      PromiseLess(env, ctx.outer, caps, After(env, ctx.g, ctx.rest, ends), After(env, ctx.g, ctx.rest, ends'));
    }
  }

  /** Only the working slots of the open brackets matter. */
  lemma {:induction false} PromiseFrame(env: Env, ctx: Ctx, caps: Caps, caps': Caps, ends: iset<nat>)
    requires Promise(env, ctx, caps, ends) && |caps.vec| == |caps'.vec|
    requires forall n :: n in Open(ctx) && HasSlots(env, caps, n) ==> caps'.vec[env.oend - n] == caps.vec[env.oend - n]
    ensures Promise(env, ctx, caps', ends)
    decreases ctx
  {
    if ctx.In? {
      PromiseFrame(env, ctx.outer, caps, caps', After(env, ctx.g, ctx.rest, ends));
    }
  }

  /** offset_top counts no capture that the pattern does not have. */
  ghost predicate TopNamed(names: Names, caps: Caps) {
    caps.top >= 2 && caps.top % 2 == 0 && (caps.top > 2 ==> caps.top / 2 - 1 in names)
  }

  ghost predicate Inv(env: Env, names: Names, p: Point, caps: Caps) {
    && ValidEnv(env) && |caps.vec| == env.oend && TopNamed(names, caps)
    && env.mstart <= p.i <= |env.subject|
    && NamedItems(p.items, names, Open(p.ctx)) && NamedCtx(p.ctx, names)
    && DataOk(env, names, caps, p.i, Open(p.ctx))
    && Promise(env, p.ctx, caps, Ends(env, p.items, p.i))
  }

  ghost predicate Good(env: Env, names: Names, res: Res) {
    res.Matched? ==>
      ValidEnv(env) && |res.caps.vec| == env.oend && DataOk(env, names, res.caps, res.end, {}) && TopNamed(names, res.caps)
  }

  lemma DataLater(env: Env, names: Names, caps: Caps, i: nat, j: nat, open: set<nat>)
    requires ValidEnv(env) && |caps.vec| == env.oend && DataOk(env, names, caps, i, open) && i <= j
    ensures DataOk(env, names, caps, j, open)
  {
    forall n: nat | n in names && n !in open && HasSlots(env, caps, n) ensures SlotOk(env, names, caps, n, j) {
      assert SlotOk(env, names, caps, n, i);
    }
  }

  /** Moving over a matched item inside a branch. */
  lemma {:induction false} InvOver(env: Env, names: Names, p: Point, j: nat, caps: Caps)
    requires Inv(env, names, p, caps) && p.items.Cons? && MatchItem(env, p.items.head, p.i, j)
    ensures Inv(env, names, Point(p.items.tail, p.ctx, j), caps)
  {
    ItemBounds(env, p.items.head, p.i, j);
    DataLater(env, names, caps, p.i, j, Open(p.ctx));
    forall e: nat | e in Ends(env, p.items.tail, j) ensures e in Ends(env, p.items, p.i) {
      assert MatchItem(env, p.items.head, p.i, j) && MatchItems(env, p.items.tail, j, e);
    }
    PromiseLess(env, p.ctx, caps, Ends(env, p.items, p.i), Ends(env, p.items.tail, j));
  }

  /** Taking the prefix opcode off an optional bracket. */
  lemma {:induction false} InvEnter(env: Env, names: Names, p: Point, caps: Caps)
    requires Inv(env, names, p, caps) && p.items.Cons? && p.items.head.Group?
    requires p.items.head.zero in {BraZero, BraMinZero}
    ensures Inv(env, names, Point(Cons(Group(Once, p.items.head.g), p.items.tail), p.ctx, p.i), caps)
  {
    var Cons(Group(z, g), t) := p.items;
    var enter := Cons(Group(Once, g), t);
    forall e: nat | e in Ends(env, enter, p.i) ensures e in Ends(env, p.items, p.i) {
      assert MatchItems(env, enter, p.i, e);
      var m: nat :| MatchItem(env, Group(Once, g), p.i, m) && MatchItems(env, t, m, e);
      assert MatchItem(env, p.items.head, p.i, m);
    }
    PromiseLess(env, p.ctx, caps, Ends(env, p.items, p.i), Ends(env, enter, p.i));
    assert NamedItem(p.items.head, names, Open(p.ctx));
    assert NamedItem(Group(Once, g), names, Open(p.ctx));
  }

  /** Opening a bracket. */
  lemma {:induction false} InvOpen(env: Env, names: Names, g: Grp, t: Items, ctx: Ctx, i: nat, caps: Caps, b: Items)
    requires Inv(env, names, Point(Cons(Group(Once, g), t), ctx, i), caps) && InAlts(b, g.alts)
    ensures Inv(env, names, Point(b, In(g, t, ctx), i), OpenCap(env, caps, g.cap, i))
  {
    hide DataOk, Promise, MatchAlts, Ends;
    var p := Point(Cons(Group(Once, g), t), ctx, i);
    assert NamedItem(p.items.head, names, Open(ctx));
    assert NamedGrp(g, names, Open(ctx));
    NamedBranch(b, g.alts, names, Open(ctx) + {g.cap});
    DataOpen(env, names, g, t, ctx, i, caps);
    PromiseOpen(env, names, g, t, ctx, i, caps, b);
  }

  lemma DataOpen(env: Env, names: Names, g: Grp, t: Items, ctx: Ctx, i: nat, caps: Caps)
    requires ValidEnv(env) && |caps.vec| == env.oend && DataOk(env, names, caps, i, Open(ctx))
    ensures |OpenCap(env, caps, g.cap, i).vec| == env.oend
    ensures DataOk(env, names, OpenCap(env, caps, g.cap, i), i, Open(In(g, t, ctx)))
  {
    var caps' := OpenCap(env, caps, g.cap, i);
    forall n: nat | n in names && n !in Open(In(g, t, ctx)) && HasSlots(env, caps', n)
      ensures SlotOk(env, names, caps', n, i)
    {
      assert HasSlots(env, caps, n) && SlotOk(env, names, caps, n, i);
    }
  }

  lemma {:induction false} PromiseOpen(env: Env, names: Names, g: Grp, t: Items, ctx: Ctx, i: nat, caps: Caps, b: Items)
    requires Inv(env, names, Point(Cons(Group(Once, g), t), ctx, i), caps) && InAlts(b, g.alts)
    ensures Promise(env, In(g, t, ctx), OpenCap(env, caps, g.cap, i), Ends(env, b, i))
  {
    var p := Point(Cons(Group(Once, g), t), ctx, i);
    var caps' := OpenCap(env, caps, g.cap, i);
    assert NamedItem(p.items.head, names, Open(ctx)) && NamedGrp(g, names, Open(ctx));
    hide DataOk, MatchAlts, NamedItems, NamedAlts, TopNamed;
    var ends := Ends(env, b, i);
    forall j: nat | j in ends ensures i <= j && MatchAlts(env, g.alts, i, j) {
      AltsInclude(env, b, g.alts, i, j);
      ItemsBounds(env, b, i, j);
    }
    forall e: nat | e in After(env, g, t, ends) ensures e in Ends(env, p.items, i) {
      var m: nat, n: nat, a: nat :| m in ends && MatchTimes(env, g.alts, n, m, a) && (g.ket == Ket ==> n == 0) &&
          MatchItems(env, t, a, e);
      TimesSucc(env, g.alts, n, i, m, a);
      assert MatchGrp(env, g, i, a);
      assert MatchItem(env, p.items.head, i, a);
    }
    PromiseFrame(env, ctx, caps, caps', Ends(env, p.items, i));
    PromiseLess(env, ctx, caps', Ends(env, p.items, i), After(env, g, t, ends));
  }

  /** Closing a bracket, then leaving it or starting it again. */
  lemma {:induction false} InvClose(env: Env, names: Names, p: Point, caps: Caps)
    requires Inv(env, names, p, caps) && p.items.Nil? && p.ctx.In?
    ensures var g, rest, outer := p.ctx.g, p.ctx.rest, p.ctx.outer;
      var caps' := CloseCap(env, caps, g.cap, p.i);
      && Inv(env, names, Point(rest, outer, p.i), caps')
      && (g.ket != Ket ==> Inv(env, names, Point(Cons(Group(Once, g), rest), outer, p.i), caps'))
  {
    var g, rest, outer := p.ctx.g, p.ctx.rest, p.ctx.outer;
    var caps' := CloseCap(env, caps, g.cap, p.i);
    var ends := Ends(env, Nil, p.i);
    var after := After(env, g, rest, ends);
    assert p.i in ends;
    CloseData(env, names, p, caps);
    PromiseFrame(env, outer, caps, caps', after);
    forall e: nat | e in Ends(env, rest, p.i) ensures e in after {
      assert MatchTimes(env, g.alts, 0, p.i, p.i) && MatchItems(env, rest, p.i, e);
    }
    PromiseLess(env, outer, caps', after, Ends(env, rest, p.i));
    if g.ket != Ket {
      var again := Cons(Group(Once, g), rest);
      forall e: nat | e in Ends(env, again, p.i) ensures e in after {
        assert MatchItems(env, again, p.i, e);
        var m: nat :| MatchItem(env, Group(Once, g), p.i, m) && MatchItems(env, rest, m, e);
        assert MatchGrp(env, g, p.i, m);
        var n: nat :| MatchTimes(env, g.alts, n, p.i, m) && n >= 1;
      }
      PromiseLess(env, outer, caps', after, Ends(env, again, p.i));
      assert NamedItem(Group(Once, g), names, Open(outer));
    }
  }

  lemma {:induction false} CloseData(env: Env, names: Names, p: Point, caps: Caps)
    requires Inv(env, names, p, caps) && p.items.Nil? && p.ctx.In?
    ensures DataOk(env, names, CloseCap(env, caps, p.ctx.g.cap, p.i), p.i, Open(p.ctx.outer))
  {
    var g := p.ctx.g;
    var caps' := CloseCap(env, caps, g.cap, p.i);
    assert p.i in Ends(env, Nil, p.i);
    forall n: nat | n in names && n !in Open(p.ctx.outer) && HasSlots(env, caps', n)
      ensures SlotOk(env, names, caps', n, p.i)
    {
      assert HasSlots(env, caps, n);
      if n != g.cap {
        assert SlotOk(env, names, caps, n, p.i);
      } else {
        assert NamedGrp(g, names, Open(p.ctx.outer));
      }
    }
  }

  /** After a failed attempt the search goes on with captures that are as good as before. */
  lemma {:induction false} InvKept(env: Env, names: Names, p: Point, caps: Caps, vec: seq<int>, over: bool)
    requires Inv(env, names, p, caps) && Kept(env, Open(p.ctx), caps.vec, vec)
    ensures Inv(env, names, p, caps.(vec := vec, over := over))
  {
    hide DataOk, Promise, SlotOk;
    DataKept(env, names, p.ctx, p.i, caps, vec, over);
    PromiseKept(env, p.ctx, caps, vec, over, Ends(env, p.items, p.i));
  }

  lemma DataKept(env: Env, names: Names, ctx: Ctx, i: nat, caps: Caps, vec: seq<int>, over: bool)
    requires ValidEnv(env) && |caps.vec| == env.oend && DataOk(env, names, caps, i, Open(ctx))
    requires Kept(env, Open(ctx), caps.vec, vec)
    ensures DataOk(env, names, caps.(vec := vec, over := over), i, Open(ctx))
  {
    forall n: nat | n in names && n !in Open(ctx) && HasSlots(env, caps, n)
      ensures SlotOk(env, names, caps.(vec := vec, over := over), n, i)
    {
      assert SlotOk(env, names, caps, n, i);
      assert !Loose(env, Open(ctx), 2 * n) && !Loose(env, Open(ctx), 2 * n + 1);
    }
  }

  lemma {:induction false} PromiseKept(env: Env, ctx: Ctx, caps: Caps, vec: seq<int>, over: bool, ends: iset<nat>)
    requires ValidEnv(env) && |caps.vec| == env.oend && Promise(env, ctx, caps, ends)
    requires Kept(env, Open(ctx), caps.vec, vec)
    ensures Promise(env, ctx, caps.(vec := vec, over := over), ends)
  {
    hide Promise;
    forall n | n in Open(ctx) && HasSlots(env, caps, n) ensures vec[env.oend - n] == caps.vec[env.oend - n] {
      assert !Loose(env, Open(ctx), env.oend - n);
    }
    PromiseFrame(env, ctx, caps, caps.(vec := vec, over := over), ends);
  }

  /** The same for another point in the same context. */
  lemma {:induction false} InvResume(env: Env, names: Names, n: nat, p: Point, chain: Chain, q: Point, caps: Caps)
    requires Inv(env, names, p, caps) && Inv(env, names, q, caps) && p.ctx == q.ctx
    requires Call(env, n, p, chain, caps).Failed?
    ensures Inv(env, names, q, Resume(caps, Call(env, n, p, chain, caps)))
  {
    hide Inv, Call;
    InvValid(env, names, p, caps);
    CallRestores(env, n, p, chain, caps);
    InvKept(env, names, q, caps, Call(env, n, p, chain, caps).vec, Call(env, n, p, chain, caps).over);
  }

  lemma InvValid(env: Env, names: Names, p: Point, caps: Caps)
    requires Inv(env, names, p, caps)
    ensures ValidEnv(env) && |caps.vec| == env.oend
  {
  }

  lemma {:induction false} CallCaps(env: Env, names: Names, n: nat, p: Point, chain: Chain, caps: Caps)
    requires Inv(env, names, p, caps)
    ensures Good(env, names, Call(env, n, p, chain, caps))
    decreases n, 0, 0
  {
    if n > 0 {
      GoCaps(env, names, n - 1, p, chain, caps);
    }
  }

  lemma {:induction false} GoCaps(env: Env, names: Names, n: nat, p: Point, chain: Chain, caps: Caps)
    requires Inv(env, names, p, caps)
    ensures Good(env, names, Go(env, n, p, chain, caps))
    decreases n, 2, 2 * (Length(p.items) + Weight(p.ctx)) + 1
  {
    match p.items
    case Nil =>
      if p.ctx.In? {
        KetCaps(env, names, n, p, chain, caps);
      }
    case Cons(One(x), t) =>
      if p.i < |env.subject| && Test(env, x, env.subject[p.i]) {
        InvOver(env, names, p, p.i + 1, caps);
        GoCaps(env, names, n, Point(t, p.ctx, p.i + 1), chain, caps);
      }
    case Cons(Many(x, r), t) =>
      ManyCaps(env, names, n, p, chain, caps);
    case Cons(Group(z, g), t) =>
      if z == Once {
        var caps' := OpenCap(env, caps, g.cap, p.i);
        forall b | InAlts(b, g.alts) ensures Inv(env, names, Point(b, In(g, t, p.ctx), p.i), caps') {
          InvOpen(env, names, g, t, p.ctx, p.i, caps, b);
        }
        TryCaps(env, names, n, g.alts, g, t, p.ctx, p.i, Push(g.s, chain, p.i), caps');
      } else {
        ZeroCaps(env, names, n, p, chain, caps);
      }
  }

  lemma {:induction false} ZeroCaps(env: Env, names: Names, n: nat, p: Point, chain: Chain, caps: Caps)
    requires Inv(env, names, p, caps) && p.items.Cons? && p.items.head.Group? && p.items.head.zero != Once
    ensures Good(env, names, Go(env, n, p, chain, caps))
    decreases n, 2, 2 * (Length(p.items) + Weight(p.ctx))
  {
    var Cons(Group(z, g), t) := p.items;
    var skip := Point(t, p.ctx, p.i);
    InvOver(env, names, p, p.i, caps);
    if z == SkipZero {
      GoCaps(env, names, n, skip, chain, caps);
    } else {
      var enter := Point(Cons(Group(Once, g), t), p.ctx, p.i);
      InvEnter(env, names, p, caps);
      var first, second := if z == BraZero then enter else skip, if z == BraZero then skip else enter;
      var r := Call(env, n, first, chain, caps);
      CallCaps(env, names, n, first, chain, caps);
      if r.Failed? {
        InvResume(env, names, n, first, chain, second, caps);
        GoCaps(env, names, r.left, second, chain, Resume(caps, r));
      }
    }
  }

  lemma {:induction false} ManyCaps(env: Env, names: Names, n: nat, p: Point, chain: Chain, caps: Caps)
    requires Inv(env, names, p, caps) && p.items.Cons? && p.items.head.Many?
    ensures Good(env, names, Go(env, n, p, chain, caps))
    decreases n, 2, 2 * (Length(p.items) + Weight(p.ctx))
  {
    hide Go, Up, Down, RunEnd, Inv;
    GoMany(env, n, p, chain, caps);
    var Cons(Many(x, r), t) := p.items;
    var lo := p.i + Min(r);
    if lo <= |env.subject| && AllTest(env, x, p.i, lo) {
      RunEndMax(env, x, r, p.i, lo);
      var hi := RunEnd(env, x, r, p.i, lo);
      forall j: nat | ManyMatches(env, x, r, p.i, j) ensures Inv(env, names, Point(t, p.ctx, j), caps) {
        InvOver(env, names, p, j, caps);
      }
      if Fixed(r) {
        assert ManyMatches(env, x, r, p.i, lo);
        GoCaps(env, names, n, Point(t, p.ctx, lo), chain, caps);
      } else if ModeOf(r) == Poss {
        assert ManyMatches(env, x, r, p.i, hi);
        GoCaps(env, names, n, Point(t, p.ctx, hi), chain, caps);
      } else if ModeOf(r) == Greedy {
        forall j: nat | lo <= j <= hi ensures Inv(env, names, Point(t, p.ctx, j), caps) {
          assert ManyMatches(env, x, r, p.i, j);
        }
        DownCaps(env, names, n, t, p.ctx, lo, hi, chain, caps);
      } else {
        UpCaps(env, names, n, x, r, t, p.ctx, p.i, lo, chain, caps);
      }
    }
  }

  lemma {:induction false} DownCaps(env: Env, names: Names, n: nat, t: Items, ctx: Ctx, lo: nat, j: nat, chain: Chain,
                                    caps: Caps)
    requires lo <= j && forall k: nat :: lo <= k <= j ==> Inv(env, names, Point(t, ctx, k), caps)
    ensures Good(env, names, Down(env, n, t, ctx, lo, j, chain, caps))
    decreases n, 1, j
  {
    var r := Call(env, n, Point(t, ctx, j), chain, caps);
    CallCaps(env, names, n, Point(t, ctx, j), chain, caps);
    if j > lo && r.Failed? {
      forall k: nat | lo <= k <= j - 1 ensures Inv(env, names, Point(t, ctx, k), Resume(caps, r)) {
        InvResume(env, names, n, Point(t, ctx, j), chain, Point(t, ctx, k), caps);
      }
      DownCaps(env, names, r.left, t, ctx, lo, j - 1, chain, Resume(caps, r));
    }
  }

  lemma {:induction false} UpCaps(env: Env, names: Names, n: nat, x: Single, r: Rep, t: Items, ctx: Ctx, i: nat,
                                  j: nat, chain: Chain, caps: Caps)
    requires forall k: nat :: ManyMatches(env, x, r, i, k) ==> Inv(env, names, Point(t, ctx, k), caps)
    requires ModeOf(r) == Lazy && i + Min(r) <= j <= |env.subject| && AtMost(r, j - i) && AllTest(env, x, i, j)
    ensures Good(env, names, Up(env, n, x, r, t, ctx, i, j, chain, caps))
    decreases n, 1, |env.subject| - j
  {
    assert ManyMatches(env, x, r, i, j);
    var res := Call(env, n, Point(t, ctx, j), chain, caps);
    CallCaps(env, names, n, Point(t, ctx, j), chain, caps);
    if res.Failed? && AtMost(r, j + 1 - i) && j < |env.subject| && Test(env, x, env.subject[j]) {
      forall k: nat | ManyMatches(env, x, r, i, k) ensures Inv(env, names, Point(t, ctx, k), Resume(caps, res)) {
        InvResume(env, names, n, Point(t, ctx, j), chain, Point(t, ctx, k), caps);
      }
      UpCaps(env, names, res.left, x, r, t, ctx, i, j + 1, chain, Resume(caps, res));
    }
  }

  lemma {:induction false} TryCaps(env: Env, names: Names, n: nat, alts: Alts, g: Grp, t: Items, ctx: Ctx, i: nat,
                                   chain: Chain, caps: Caps)
    requires forall b :: InAlts(b, alts) ==> Inv(env, names, Point(b, In(g, t, ctx), i), caps)
    ensures Good(env, names, Try(env, n, alts, g, t, ctx, i, chain, caps))
    decreases n, 1, alts
  {
    var r := Call(env, n, Point(alts.b, In(g, t, ctx), i), chain, caps);
    assert InAlts(alts.b, alts);
    CallCaps(env, names, n, Point(alts.b, In(g, t, ctx), i), chain, caps);
    if alts.More? && r.Failed? {
      forall b | InAlts(b, alts.rest) ensures Inv(env, names, Point(b, In(g, t, ctx), i), Resume(caps, r)) {
        InvResume(env, names, n, Point(alts.b, In(g, t, ctx), i), chain, Point(b, In(g, t, ctx), i), caps);
      }
      TryCaps(env, names, r.left, alts.rest, g, t, ctx, i, chain, Resume(caps, r));
    }
  }

  lemma {:induction false} KetCaps(env: Env, names: Names, n: nat, p: Point, chain: Chain, caps: Caps)
    requires Inv(env, names, p, caps) && p.items.Nil? && p.ctx.In?
    ensures Good(env, names, AtKet(env, n, p, chain, caps))
    decreases n, 2, 2 * Weight(p.ctx)
  {
    var g := p.ctx.g;
    var leave := Point(p.ctx.rest, p.ctx.outer, p.i);
    var again := Point(Cons(Group(Once, g), p.ctx.rest), p.ctx.outer, p.i);
    var chain' := if g.s then Pop(chain) else chain;
    var caps' := CloseCap(env, caps, g.cap, p.i);
    InvClose(env, names, p, caps);
    if g.ket == Ket || (g.s && MarkedHere(chain, p.i)) {
      GoCaps(env, names, n, leave, chain', caps');
    } else if g.ket == KetRmax {
      var r := Call(env, n, again, Push(g.s, chain', p.i), caps');
      CallCaps(env, names, n, again, Push(g.s, chain', p.i), caps');
      if r.Failed? {
        InvResume(env, names, n, again, Push(g.s, chain', p.i), leave, caps');
        CallCaps(env, names, r.left, leave, chain', Resume(caps', r));
      }
    } else {
      var r := Call(env, n, leave, chain', caps');
      CallCaps(env, names, n, leave, chain', caps');
      if r.Failed? {
        InvResume(env, names, n, leave, chain', again, caps');
        CallCaps(env, names, r.left, again, Push(g.s, chain', p.i), Resume(caps', r));
      }
    }
  }

  /** On success from a cleared vector, every set capture lies inside the match, is covered by
      the reported number of captures, and is a substring that the branches of its bracket match. */
  lemma {:induction false} CapturesRight(env: Env, names: Names, n: nat, items: Items, caps: Caps)
    requires ValidEnv(env) && |caps.vec| == env.oend && caps.top == 2 && env.mstart <= |env.subject|
    requires NamedItems(items, names, {})
    requires forall n: nat :: n in names && HasSlots(env, caps, n) ==>
      caps.vec[2 * n] == -1 && caps.vec[2 * n + 1] == -1
    ensures var r := Call(env, n, Point(items, Top, env.mstart), NoMark, caps);
      r.Matched? ==> |r.caps.vec| == env.oend && DataOk(env, names, r.caps, r.end, {}) && TopNamed(names, r.caps)
  {
    CallCaps(env, names, n, Point(items, Top, env.mstart), NoMark, caps);
  }
}
