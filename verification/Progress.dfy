/** Termination of match() without its call limit: if every group with an unlimited repeat either
    is in the S form or cannot match the empty string, some finite number of calls is enough. */
module Progress {
  import opened Tree
  import opened Semantics
  import opened Machine
  import opened Search

  /** Whether an item list can match nothing for some subject. */
  predicate Nullable(items: Items)
    decreases items
  {
    match items
    case Nil => true
    case Cons(it, t) => NullableItem(it) && Nullable(t)
  }

  predicate NullableItem(it: Item)
    decreases it
  {
    match it
    case One(_) => false
    case Many(_, r) => Min(r) == 0
    case Group(z, g) => z != Once || NullableAlts(g.alts)
  }

  predicate NullableAlts(alts: Alts)
    decreases alts
  {
    Nullable(alts.b) || (alts.More? && NullableAlts(alts.rest))
  }

  /** Every unlimited group inside, unless it is never entered, is in the S form or cannot match the empty
      string. */
  predicate GuardedItems(items: Items)
    decreases items
  {
    items.Cons? ==> GuardedItem(items.head) && GuardedItems(items.tail)
  }

  predicate GuardedItem(it: Item)
    decreases it
  {
    it.Group? && it.zero != SkipZero ==> GuardedGrp(it.g)
  }

  predicate GuardedGrp(g: Grp)
    decreases g
  {
    (g.ket == Ket || g.s || !NullableAlts(g.alts)) && GuardedAlts(g.alts)
  }

  predicate GuardedAlts(alts: Alts)
    decreases alts
  {
    GuardedItems(alts.b) && (alts.More? ==> GuardedAlts(alts.rest))
  }

  lemma {:induction false} BranchParts(b: Items, alts: Alts)
    requires InAlts(b, alts) && GuardedAlts(alts)
    ensures GuardedItems(b) && (Nullable(b) ==> NullableAlts(alts))
  {
    if alts.More? && b != alts.b {
      BranchParts(b, alts.rest);
    }
  }

  /** The subject positions at which the open groups were entered, innermost first. */
  datatype Trail = NoTrail | Trail(entry: nat, outer: Trail)

  function Size(items: Items): nat {
    match items case Nil => 0 case Cons(it, t) => SizeItem(it) + Size(t)
  }

  function SizeItem(it: Item): (s: nat)
    ensures s >= 1
  {
    match it
    case Group(z, g) => SizeAlts(g.alts) + (if z == Once then 2 else 3)
    case _ => 1
  }

  function SizeAlts(alts: Alts): nat {
    Size(alts.b) + if alts.More? then SizeAlts(alts.rest) else 0
  }

  function SizeCtx(ctx: Ctx): nat {
    match ctx case Top => 0 case In(_, rest, outer) => 1 + Size(rest) + SizeCtx(outer)
  }

  lemma {:induction false} BranchSize(b: Items, alts: Alts)
    requires InAlts(b, alts)
    ensures Size(b) <= SizeAlts(alts)
  {
    if alts.More? && b != alts.b {
      BranchSize(b, alts.rest);
    }
  }

  /** How many open groups may still be started again at the current position. */
  function Pending(ctx: Ctx, trail: Trail, i: nat): nat
    decreases ctx
  {
    if ctx.In? && trail.Trail? then
      (if ctx.g.ket != Ket && trail.entry < i then 1 else 0) + Pending(ctx.outer, trail.outer, i)
    else 0
  }

  /** The chain against the trail: for every open S group the mark that its closing bracket will
      find lies between the entry of the group and the current position. An open unlimited group
      that is not in the S form and was entered here cannot be completed without consuming a byte;
      canEnd says whether the rest of the current branch may match nothing. */
  ghost predicate Fit(ctx: Ctx, trail: Trail, chain: Chain, i: nat, canEnd: bool)
    decreases ctx
  {
    match ctx
    case Top => true
    case In(g, rest, outer) =>
      && GuardedGrp(g) && GuardedItems(rest)
      && trail.Trail? && trail.entry <= i
      && (outer.In? ==> trail.outer.Trail? && trail.outer.entry <= trail.entry)
      && (g.ket != Ket && !g.s && trail.entry == i ==> !canEnd)
      && (if g.s then chain.Mark? && trail.entry <= chain.at <= i &&
         Fit(outer, trail.outer, chain.prev, i, canEnd && Nullable(rest))
          else Fit(outer, trail.outer, chain, i, canEnd && Nullable(rest)))
  }

  lemma {:induction false} FitMove(ctx: Ctx, trail: Trail, chain: Chain, i: nat, j: nat, canEnd: bool, canEnd': bool)
    requires Fit(ctx, trail, chain, i, canEnd)
    requires i < j || (i == j && (canEnd' ==> canEnd))
    ensures Fit(ctx, trail, chain, j, canEnd')
    decreases ctx
  {
    if ctx.In? {
      FitMove(ctx.outer, trail.outer, if ctx.g.s then chain.prev else chain, i, j, canEnd && Nullable(ctx.rest),
              canEnd' && Nullable(ctx.rest));
    }
  }

  /** A superfluous mark on top keeps every mark between entry and current position. */
  lemma {:induction false} FitMark(ctx: Ctx, trail: Trail, chain: Chain, i: nat, canEnd: bool, at: nat)
    requires Fit(ctx, trail, chain, i, canEnd) && at <= i && (ctx.In? ==> trail.entry <= at)
    ensures Fit(ctx, trail, Mark(at, chain), i, canEnd)
    decreases ctx
  {
    if ctx.In? {
      if ctx.g.s {
        FitMark(ctx.outer, trail.outer, chain.prev, i, canEnd && Nullable(ctx.rest), chain.at);
      } else {
        FitMark(ctx.outer, trail.outer, chain, i, canEnd && Nullable(ctx.rest), at);
      }
    }
  }

  ghost predicate Ready(p: Point, trail: Trail, chain: Chain) {
    GuardedItems(p.items) && Fit(p.ctx, trail, chain, p.i, Nullable(p.items))
  }

  /** k more calls are enough for the opcode loop at p, whatever the captures. */
  ghost predicate Enough(env: Env, p: Point, chain: Chain, k: nat) {
    forall n: nat, caps: Caps :: k <= n ==> !Go(env, n, p, chain, caps).Limit? && n - Go(env, n, p, chain, caps).left <= k
  }

  lemma EnoughCall(env: Env, p: Point, chain: Chain, k: nat, n: nat, caps: Caps)
    requires Enough(env, p, chain, k) && k + 1 <= n
    ensures var r := Call(env, n, p, chain, caps); !r.Limit? && n - r.left <= k + 1
  {
  }

  lemma {:induction false} Terminates(env: Env, p: Point, trail: Trail, chain: Chain) returns (k: nat)
    requires Ready(p, trail, chain) && p.i <= |env.subject|
    ensures Enough(env, p, chain, k)
    decreases |env.subject| - p.i, Pending(p.ctx, trail, p.i), Size(p.items) + SizeCtx(p.ctx), 0, 0
  {
    match p.items
    case Nil =>
      if p.ctx.Top? {
        k := 0;
      } else {
        k := KetTerminates(env, p, trail, chain);
      }
    case Cons(One(x), t) =>
      k := 0;
      if p.i < |env.subject| && Test(env, x, env.subject[p.i]) {
        FitMove(p.ctx, trail, chain, p.i, p.i + 1, Nullable(p.items), Nullable(t));
        k := Terminates(env, Point(t, p.ctx, p.i + 1), trail, chain);
      }
    case Cons(Many(x, r), t) =>
      k := ManyTerminates(env, p, trail, chain);
    case Cons(Group(z, g), t) =>
      if z == Once {
        k := TryTerminates(env, p, g.alts, trail, chain);
      } else {
        k := ZeroTerminates(env, p, trail, chain);
      }
  }

  lemma {:induction false} ZeroTerminates(env: Env, p: Point, trail: Trail, chain: Chain) returns (k: nat)
    requires Ready(p, trail, chain) && p.i <= |env.subject|
    requires p.items.Cons? && p.items.head.Group? && p.items.head.zero != Once
    ensures Enough(env, p, chain, k)
    decreases |env.subject| - p.i, Pending(p.ctx, trail, p.i), Size(p.items) + SizeCtx(p.ctx) - 1, 1, 0
  {
    var Cons(Group(z, g), t) := p.items;
    var skip := Point(t, p.ctx, p.i);
    var enter := Point(Cons(Group(Once, g), t), p.ctx, p.i);
    assert NullableItem(p.items.head) && SizeItem(p.items.head) == SizeItem(Group(Once, g)) + 1;
    FitMove(p.ctx, trail, chain, p.i, p.i, Nullable(p.items), Nullable(skip.items));
    var k1 := Terminates(env, skip, trail, chain);
    k := k1;
    if z != SkipZero {
      assert GuardedItem(p.items.head) && GuardedItem(Group(Once, g));
      FitMove(p.ctx, trail, chain, p.i, p.i, Nullable(p.items), Nullable(enter.items));
      var k2 := Terminates(env, enter, trail, chain);
      k := k1 + k2 + 1;
      forall n: nat, caps: Caps | k <= n
        ensures !Go(env, n, p, chain, caps).Limit? && n - Go(env, n, p, chain, caps).left <= k
      {
        if z == BraZero {
          EnoughCall(env, enter, chain, k2, n, caps);
        } else {
          EnoughCall(env, skip, chain, k1, n, caps);
        }
      }
    }
  }

  lemma {:induction false} ManyTerminates(env: Env, p: Point, trail: Trail, chain: Chain) returns (k: nat)
    requires Ready(p, trail, chain) && p.i <= |env.subject| && p.items.Cons? && p.items.head.Many?
    ensures Enough(env, p, chain, k)
    decreases |env.subject| - p.i, Pending(p.ctx, trail, p.i), Size(p.items) + SizeCtx(p.ctx) - 1, 2, 0
  {
    var Cons(Many(x, r), t) := p.items;
    var lo := p.i + Min(r);
    k := 0;
    if lo <= |env.subject| {
      var each := TailsTerminate(env, p, lo, trail, chain);
      k := (|env.subject| + 1) * (each + 1);
      forall n: nat, caps: Caps | k <= n
        ensures !Go(env, n, p, chain, caps).Limit? && n - Go(env, n, p, chain, caps).left <= k
      {
        ManyEnough(env, n, p, each, chain, caps);
      }
    }
  }

  /** If `each` calls are enough for every continuation, a product is enough for the repeated item. */
  lemma {:induction false} ManyEnough(env: Env, n: nat, p: Point, each: nat, chain: Chain, caps: Caps)
    requires p.items.Cons? && p.items.head.Many? && p.i + Min(p.items.head.r) <= |env.subject|
    requires forall j :: p.i + Min(p.items.head.r) <= j <= |env.subject| ==>
      Enough(env, Point(p.items.tail, p.ctx, j), chain, each)
    requires (|env.subject| + 1) * (each + 1) <= n
    ensures var r := Go(env, n, p, chain, caps); !r.Limit? && n - r.left <= (|env.subject| + 1) * (each + 1)
  {
    var Cons(Many(x, r), t) := p.items;
    var lo := p.i + Min(r);
    MulMono(1, |env.subject| + 1, each + 1);
    if AllTest(env, x, p.i, lo) {
      var hi := RunEnd(env, x, r, p.i, lo);
      if Fixed(r) {
        assert Enough(env, Point(t, p.ctx, lo), chain, each);
      } else if ModeOf(r) == Poss {
        assert Enough(env, Point(t, p.ctx, hi), chain, each);
      } else if ModeOf(r) == Greedy {
        MulMono(hi + 1 - lo, |env.subject| + 1, each + 1);
        DownEnough(env, n, t, p.ctx, lo, hi, each, chain, caps);
      } else {
        MulMono(|env.subject| + 1 - lo, |env.subject| + 1, each + 1);
        UpEnough(env, n, x, r, t, p.ctx, p.i, lo, each, chain, caps);
      }
    }
  }

  /** One bound for all continuations of a repeated item. */
  lemma {:induction false} TailsTerminate(env: Env, p: Point, lo: nat, trail: Trail, chain: Chain) returns (each: nat)
    requires Ready(p, trail, chain) && p.items.Cons? && p.items.head.Many?
    requires lo == p.i + Min(p.items.head.r) <= |env.subject|
    ensures forall j :: lo <= j <= |env.subject| ==> Enough(env, Point(p.items.tail, p.ctx, j), chain, each)
    decreases |env.subject| - p.i, Pending(p.ctx, trail, p.i), Size(p.items) + SizeCtx(p.ctx) - 1, 1, 0
  {
    each := 0;
    var t := p.items.tail;
    var j := lo;
    while j <= |env.subject|
      invariant lo <= j <= |env.subject| + 1
      invariant forall m :: lo <= m < j ==> Enough(env, Point(t, p.ctx, m), chain, each)
    {
      assert j == p.i ==> NullableItem(p.items.head);
      FitMove(p.ctx, trail, chain, p.i, j, Nullable(p.items), Nullable(t));
      var k := Terminates(env, Point(t, p.ctx, j), trail, chain);
      forall m | lo <= m < j ensures Enough(env, Point(t, p.ctx, m), chain, each + k) {
        EnoughMore(env, Point(t, p.ctx, m), chain, each, each + k);
      }
      EnoughMore(env, Point(t, p.ctx, j), chain, k, each + k);
      each := each + k;
      j := j + 1;
    }
  }

  lemma EnoughMore(env: Env, p: Point, chain: Chain, k: nat, k': nat)
    requires Enough(env, p, chain, k) && k <= k'
    ensures Enough(env, p, chain, k')
  {
  }

  lemma {:induction false} DownEnough(env: Env, n: nat, t: Items, ctx: Ctx, lo: nat, j: nat, each: nat, chain: Chain,
                                      caps: Caps)
    requires lo <= j <= |env.subject|
    requires forall m :: lo <= m <= j ==> Enough(env, Point(t, ctx, m), chain, each)
    requires (j + 1 - lo) * (each + 1) <= n
    ensures var r := Down(env, n, t, ctx, lo, j, chain, caps); !r.Limit? && n - r.left <= (j + 1 - lo) * (each + 1)
    decreases j
  {
    MulStep(j - lo, each + 1);
    EnoughCall(env, Point(t, ctx, j), chain, each, n, caps);
    var r := Call(env, n, Point(t, ctx, j), chain, caps);
    if j > lo && r.Failed? {
      DownEnough(env, r.left, t, ctx, lo, j - 1, each, chain, Resume(caps, r));
    }
  }

  lemma {:induction false} UpEnough(env: Env, n: nat, x: Single, r: Rep, t: Items, ctx: Ctx, i: nat, j: nat, each: nat,
                                    chain: Chain, caps: Caps)
    requires i <= j <= |env.subject|
    requires forall m :: j <= m <= |env.subject| ==> Enough(env, Point(t, ctx, m), chain, each)
    requires (|env.subject| + 1 - j) * (each + 1) <= n
    ensures var r := Up(env, n, x, r, t, ctx, i, j, chain, caps); !r.Limit? && n - r.left <= (|env.subject| + 1 - j) * (each + 1)
    decreases |env.subject| - j
  {
    MulStep(|env.subject| - j, each + 1);
    EnoughCall(env, Point(t, ctx, j), chain, each, n, caps);
    var res := Call(env, n, Point(t, ctx, j), chain, caps);
    if res.Failed? && AtMost(r, j + 1 - i) && j < |env.subject| && Test(env, x, env.subject[j]) {
      UpEnough(env, res.left, x, r, t, ctx, i, j + 1, each, chain, Resume(caps, res));
    }
  }

  lemma MulMono(a: nat, b: nat, d: nat)
    requires a <= b
    ensures a * d <= b * d
  {
  }

  lemma MulStep(m: nat, d: nat)
    ensures (m + 1) * d == m * d + d && m * d >= 0
  {
  }

  lemma {:induction false} TryTerminates(env: Env, p: Point, alts: Alts, trail: Trail, chain: Chain) returns (k: nat)
    requires Ready(p, trail, chain) && p.i <= |env.subject|
    requires p.items.Cons? && p.items.head.Group? && p.items.head.zero == Once
    requires forall b :: InAlts(b, alts) ==> InAlts(b, p.items.head.g.alts)
    ensures forall n: nat, caps: Caps :: k <= n ==>
      var r := Try(env, n, alts, p.items.head.g, p.items.tail, p.ctx, p.i, Push(p.items.head.g.s, chain, p.i), caps);
      !r.Limit? && n - r.left <= k
    decreases |env.subject| - p.i, Pending(p.ctx, trail, p.i), Size(p.items) + SizeCtx(p.ctx) - 1, 2, alts
  {
    var g, t := p.items.head.g, p.items.tail;
    var chain' := Push(g.s, chain, p.i);
    var q := Point(alts.b, In(g, t, p.ctx), p.i);
    assert InAlts(alts.b, alts);
    var k1 := BranchTerminates(env, p, alts.b, trail, chain);
    k := k1 + 1;
    if alts.More? {
      var k2 := TryTerminates(env, p, alts.rest, trail, chain);
      k := k1 + 1 + k2;
    }
    forall n: nat, caps: Caps | k <= n
      ensures var r := Try(env, n, alts, g, t, p.ctx, p.i, chain', caps); !r.Limit? && n - r.left <= k
    {
      EnoughCall(env, q, chain', k1, n, caps);
    }
  }

  lemma {:induction false} BranchTerminates(env: Env, p: Point, b: Items, trail: Trail, chain: Chain) returns (k: nat)
    requires Ready(p, trail, chain) && p.i <= |env.subject|
    requires p.items.Cons? && p.items.head.Group? && p.items.head.zero == Once && InAlts(b, p.items.head.g.alts)
    ensures Enough(env, Point(b, In(p.items.head.g, p.items.tail, p.ctx), p.i), Push(p.items.head.g.s, chain, p.i), k)
    decreases |env.subject| - p.i, Pending(p.ctx, trail, p.i), Size(p.items) + SizeCtx(p.ctx) - 1, 1, 0
  {
    var g, t := p.items.head.g, p.items.tail;
    assert GuardedItem(p.items.head) && GuardedGrp(g);
    BranchParts(b, g.alts);
    BranchSize(b, g.alts);
    assert Nullable(b) ==> NullableItem(p.items.head);
    assert SizeItem(p.items.head) == SizeAlts(g.alts) + 2;
    FitMove(p.ctx, trail, chain, p.i, p.i, Nullable(p.items), Nullable(b) && Nullable(t));
    assert Fit(In(g, t, p.ctx), Trail(p.i, trail), Push(g.s, chain, p.i), p.i, Nullable(b));
    k := Terminates(env, Point(b, In(g, t, p.ctx), p.i), Trail(p.i, trail), Push(g.s, chain, p.i));
  }

  lemma {:induction false} KetTerminates(env: Env, p: Point, trail: Trail, chain: Chain) returns (k: nat)
    requires Ready(p, trail, chain) && p.i <= |env.subject| && p.items.Nil? && p.ctx.In?
    ensures Enough(env, p, chain, k)
    decreases |env.subject| - p.i, Pending(p.ctx, trail, p.i), Size(p.items) + SizeCtx(p.ctx) - 1, 1, 0
  {
    var g := p.ctx.g;
    var leave := Point(p.ctx.rest, p.ctx.outer, p.i);
    var again := Point(Cons(Group(Once, g), p.ctx.rest), p.ctx.outer, p.i);
    var chain' := if g.s then Pop(chain) else chain;
    var k1 := Terminates(env, leave, trail.outer, chain');
    if g.ket == Ket || (g.s && MarkedHere(chain, p.i)) {
      k := k1;
      forall n: nat, caps: Caps | k <= n
        ensures !Go(env, n, p, chain, caps).Limit? && n - Go(env, n, p, chain, caps).left <= k
      {
        assert Go(env, n, p, chain, caps) == Go(env, n, leave, chain', CloseCap(env, caps, g.cap, p.i));
      }
    } else {
      assert trail.entry < p.i;
      assert GuardedItem(Group(Once, g));
      FitMove(p.ctx.outer, trail.outer, chain', p.i, p.i, Nullable(p.ctx.rest), Nullable(again.items));
      if g.s {
        FitMark(p.ctx.outer, trail.outer, chain', p.i, Nullable(again.items), p.i);
      }
      var again' := Push(g.s, chain', p.i);
      var k2 := Terminates(env, again, trail.outer, again');
      k := k1 + k2 + 2;
      forall n: nat, caps: Caps | k <= n
        ensures !Go(env, n, p, chain, caps).Limit? && n - Go(env, n, p, chain, caps).left <= k
      {
        var caps' := CloseCap(env, caps, g.cap, p.i);
        if g.ket == KetRmax {
          EnoughCall(env, again, again', k2, n, caps');
          var r := Call(env, n, again, again', caps');
          if r.Failed? {
            EnoughCall(env, leave, chain', k1, r.left, Resume(caps', r));
          }
        } else {
          EnoughCall(env, leave, chain', k1, n, caps');
          var r := Call(env, n, leave, chain', caps');
          if r.Failed? {
            EnoughCall(env, again, again', k2, r.left, Resume(caps', r));
          }
        }
      }
    }
  }

  /** For a pattern whose loops are guarded there is a number of calls that the limit need only
      exceed: with it, match() never reports MATCHLIMIT, and so decides whether there is a match. */
  lemma {:induction false} EnoughBudget(env: Env, items: Items, i: nat) returns (k: nat)
    requires GuardedItems(items) && i <= |env.subject|
    ensures forall n: nat, caps: Caps :: k <= n ==>
      var r := Call(env, n, Point(items, Top, i), NoMark, caps);
      !r.Limit? && (r.Matched? <==> exists e: nat :: MatchItems(env, items, i, e) && Accepts(env, e))
  {
    var p := Point(items, Top, i);
    var m := Terminates(env, p, NoTrail, NoMark);
    k := m + 1;
    forall n: nat, caps: Caps | k <= n
      ensures var r := Call(env, n, p, NoMark, caps);
        !r.Limit? && (r.Matched? <==> exists e: nat :: MatchItems(env, items, i, e) && Accepts(env, e))
    {
      EnoughCall(env, p, NoMark, m, n, caps);
      SearchExact(env, n, items, i, caps);
    }
  }
}
