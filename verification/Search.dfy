/** The backtracking search of match() as a function: which recursive calls are made, in which
    order, with which chain of remembered group starts and which capture vector. Every entry to
    match() is charged to a budget, as match_call_count and match_limit do.

    The search is proved sound and complete for the machine, whatever the budget, as long as the
    budget is not exhausted. */
module Search {
  import opened Tree
  import opened Semantics
  import opened Machine

  /** The chain of eptrblocks, most recent first. */
  datatype Chain = NoMark | Mark(at: nat, prev: Chain)

  /** The capture vector (data slots below omax, working slots above) with the offset_top and offset_overflow values. */
  datatype Caps = Caps(vec: seq<int>, top: nat, over: bool)

  datatype Res =
    | Matched(end: nat, caps: Caps, left: nat)
    | Failed(left: nat, vec: seq<int>, over: bool)
    | Limit

  /** After a failure the search goes on with the vector, and the note, as they were left. */
  function Resume(caps: Caps, r: Res): Caps
    requires r.Failed?
  {
    caps.(vec := r.vec, over := r.over)
  }

  function Pop(chain: Chain): Chain {
    if chain.Mark? then chain.prev else NoMark
  }

  predicate MarkedHere(chain: Chain, i: nat) {
    chain.Mark? && chain.at == i
  }

  function Push(s: bool, chain: Chain, i: nat): Chain {
    if s then Mark(i, chain) else chain
  }

  predicate HasSlots(env: Env, caps: Caps, cap: nat) {
    0 < cap && 2 * cap < env.omax && 2 * cap + 1 < |caps.vec| && 0 <= env.oend - cap < |caps.vec|
  }

  /** Entering a capturing bracket remembers the subject position in the working slot. */
  function OpenCap(env: Env, caps: Caps, cap: nat, i: nat): Caps {
    if HasSlots(env, caps, cap) then caps.(vec := caps.vec[env.oend - cap := i]) else caps
  }

  /** Leaving it copies the working slot and the current position to the data slots; if it has none, that is noted. */
  function CloseCap(env: Env, caps: Caps, cap: nat, i: nat): Caps {
    if HasSlots(env, caps, cap) then
      Caps(caps.vec[2 * cap := caps.vec[env.oend - cap]][2 * cap + 1 := i],
           if caps.top <= 2 * cap then 2 * cap + 2 else caps.top, caps.over)
    else caps.(over := caps.over || cap > 0)
  }

  /** When all branches of a capturing bracket have failed its three slots get their old values. */
  function PutBack(env: Env, caps: Caps, cap: nat, r: Res): (r': Res)
    requires r.Failed? ==> |r.vec| == |caps.vec|
    ensures r'.Failed? <==> r.Failed?
    ensures r.Failed? ==> r'.left == r.left && |r'.vec| == |caps.vec| && r'.over == r.over
    ensures !r.Failed? ==> r' == r
  {
    if r.Failed? && HasSlots(env, caps, cap) then
      var work := env.oend - cap;
      r.(vec := r.vec[2 * cap := caps.vec[2 * cap]][2 * cap + 1 := caps.vec[2 * cap + 1]][work := caps.vec[work]])
    else r
  }

  /** Where the longest run of matching bytes from j ends, within the maximum counted from i. */
  function RunEnd(env: Env, x: Single, r: Rep, i: nat, j: nat): (k: nat)
    requires i <= j <= |env.subject|
    ensures j <= k <= |env.subject|
    decreases |env.subject| - j
  {
    if j < |env.subject| && AtMost(r, j + 1 - i) && Test(env, x, env.subject[j])
    then RunEnd(env, x, r, i, j + 1) else j
  }

  function Length(items: Items): nat {
    match items case Nil => 0 case Cons(_, t) => 1 + Length(t)
  }

  function Weight(ctx: Ctx): nat {
    match ctx case Top => 0 case In(_, rest, outer) => 1 + Length(rest) + Weight(outer)
  }

  /** One entry to match(). */
  ghost function Call(env: Env, n: nat, p: Point, chain: Chain, caps: Caps): (res: Res)
    ensures !res.Limit? ==> res.left < n
    ensures res.Failed? ==> |res.vec| == |caps.vec|
    decreases n, 0, 0
  {
    if n == 0 then Limit else Go(env, n - 1, p, chain, caps)
  }

  /** The opcode loop inside one entry to match(). */
  ghost function Go(env: Env, n: nat, p: Point, chain: Chain, caps: Caps): (res: Res)
    ensures !res.Limit? ==> res.left <= n
    ensures res.Failed? ==> |res.vec| == |caps.vec|
    decreases n, 2, 2 * (Length(p.items) + Weight(p.ctx)) + 1
  {
    match p.items
    case Nil =>
      if p.ctx.Top? then
        if Accepts(env, p.i) then Matched(p.i, caps, n) else Failed(n, caps.vec, caps.over)
      else AtKet(env, n, p, chain, caps)
    case Cons(One(x), t) =>
      if p.i < |env.subject| && Test(env, x, env.subject[p.i])
      then Go(env, n, Point(t, p.ctx, p.i + 1), chain, caps) else Failed(n, caps.vec, caps.over)
    case Cons(Many(x, r), t) =>
      var lo := p.i + Min(r);
      if lo > |env.subject| || !AllTest(env, x, p.i, lo) then Failed(n, caps.vec, caps.over)
      else if Fixed(r) then Go(env, n, Point(t, p.ctx, lo), chain, caps)
      else
        (match ModeOf(r)
         case Lazy => Up(env, n, x, r, t, p.ctx, p.i, lo, chain, caps)
         case Poss => Go(env, n, Point(t, p.ctx, RunEnd(env, x, r, p.i, lo)), chain, caps)
         case Greedy => Down(env, n, t, p.ctx, lo, RunEnd(env, x, r, p.i, lo), chain, caps))
    case Cons(Group(z, g), t) =>
      (match z
       case Once =>
         PutBack(env, caps, g.cap, Try(env, n, g.alts, g, t, p.ctx, p.i, Push(g.s, chain, p.i), OpenCap(env, caps, g.cap, p.i)))
       case SkipZero => Go(env, n, Point(t, p.ctx, p.i), chain, caps)
       case BraZero =>
         var r := Call(env, n, Point(Cons(Group(Once, g), t), p.ctx, p.i), chain, caps);
         if r.Failed? then Go(env, r.left, Point(t, p.ctx, p.i), chain, Resume(caps, r)) else r
       case BraMinZero =>
         var r := Call(env, n, Point(t, p.ctx, p.i), chain, caps);
         if r.Failed? then Go(env, r.left, Point(Cons(Group(Once, g), t), p.ctx, p.i), chain, Resume(caps, r)) else r)
  }

  /** A closing bracket: leave the group, or try another iteration unless the head of the chain
      says that nothing was consumed since. Another iteration enters match() at the opening
      bracket with the flag that pushes a mark, and the bracket itself pushes one more. */
  ghost function AtKet(env: Env, n: nat, p: Point, chain: Chain, caps: Caps): (res: Res)
    requires p.items.Nil? && p.ctx.In?
    ensures !res.Limit? ==> res.left <= n
    ensures res.Failed? ==> |res.vec| == |caps.vec|
    decreases n, 2, 2 * Weight(p.ctx)
  {
    var g := p.ctx.g;
    var leave := Point(p.ctx.rest, p.ctx.outer, p.i);
    var again := Point(Cons(Group(Once, g), p.ctx.rest), p.ctx.outer, p.i);
    var chain' := if g.s then Pop(chain) else chain;
    var caps' := CloseCap(env, caps, g.cap, p.i);
    if g.ket == Ket || (g.s && MarkedHere(chain, p.i)) then Go(env, n, leave, chain', caps')
    else if g.ket == KetRmax then
      var r := Call(env, n, again, Push(g.s, chain', p.i), caps');
      if r.Failed? then Call(env, r.left, leave, chain', Resume(caps', r)) else r
    else
      var r := Call(env, n, leave, chain', caps');
      if r.Failed? then Call(env, r.left, again, Push(g.s, chain', p.i), Resume(caps', r)) else r
  }

  /** The branches of a bracket in order. */
  ghost function Try(env: Env, n: nat, alts: Alts, g: Grp, t: Items, ctx: Ctx, i: nat, chain: Chain,
                     caps: Caps): (res: Res)
    ensures !res.Limit? ==> res.left <= n
    ensures res.Failed? ==> |res.vec| == |caps.vec|
    decreases n, 1, alts
  {
    var r := Call(env, n, Point(alts.b, In(g, t, ctx), i), chain, caps);
    if alts.More? && r.Failed? then Try(env, r.left, alts.rest, g, t, ctx, i, chain, Resume(caps, r)) else r
  }

  /** Maximizing: from the longest run back to the minimum. */
  ghost function Down(env: Env, n: nat, t: Items, ctx: Ctx, lo: nat, j: nat, chain: Chain, caps: Caps): (res: Res)
    ensures !res.Limit? ==> res.left <= n
    ensures res.Failed? ==> |res.vec| == |caps.vec|
    decreases n, 1, j
  {
    var r := Call(env, n, Point(t, ctx, j), chain, caps);
    if j > lo && r.Failed? then Down(env, r.left, t, ctx, lo, j - 1, chain, Resume(caps, r)) else r
  }

  /** Minimizing: from the minimum upwards while bytes match. */
  ghost function Up(env: Env, n: nat, x: Single, r: Rep, t: Items, ctx: Ctx, i: nat, j: nat, chain: Chain,
                    caps: Caps): (res: Res)
    requires i <= j <= |env.subject|
    ensures !res.Limit? ==> res.left <= n
    ensures res.Failed? ==> |res.vec| == |caps.vec|
    decreases n, 1, |env.subject| - j
  {
    var res := Call(env, n, Point(t, ctx, j), chain, caps);
    if res.Failed? && AtMost(r, j + 1 - i) && j < |env.subject| && Test(env, x, env.subject[j])
    then Up(env, res.left, x, r, t, ctx, i, j + 1, chain, Resume(caps, res)) else res
  }

  // ---------------------------------------------------------------------------------------
  // Repeated items

  lemma {:induction false} RunEndMax(env: Env, x: Single, r: Rep, i: nat, j: nat)
    requires i <= j <= |env.subject| && AtMost(r, j - i) && AllTest(env, x, i, j)
    ensures var k := RunEnd(env, x, r, i, j);
      AtMost(r, k - i) && AllTest(env, x, i, k) && Stuck(env, x, r, i, k)
    ensures forall m :: j <= m <= |env.subject| && AtMost(r, m - i) && AllTest(env, x, i, m) ==>
      m <= RunEnd(env, x, r, i, j)
    decreases |env.subject| - j
  {
    if j < |env.subject| && AtMost(r, j + 1 - i) && Test(env, x, env.subject[j]) {
      RunEndMax(env, x, r, i, j + 1);
    }
  }

  lemma GoMany(env: Env, n: nat, p: Point, chain: Chain, caps: Caps)
    requires p.items.Cons? && p.items.head.Many?
    ensures var x, r, t := p.items.head.x, p.items.head.r, p.items.tail;
      var lo := p.i + Min(r);
      Go(env, n, p, chain, caps) ==
      if lo > |env.subject| || !AllTest(env, x, p.i, lo) then Failed(n, caps.vec, caps.over)
      else if Fixed(r) then Go(env, n, Point(t, p.ctx, lo), chain, caps)
      else if ModeOf(r) == Lazy then Up(env, n, x, r, t, p.ctx, p.i, lo, chain, caps)
      else if ModeOf(r) == Poss then Go(env, n, Point(t, p.ctx, RunEnd(env, x, r, p.i, lo)), chain, caps)
      else Down(env, n, t, p.ctx, lo, RunEnd(env, x, r, p.i, lo), chain, caps)
  {
  }

  // ---------------------------------------------------------------------------------------
  // Soundness: a reported match is a run of the machine.

  lemma {:induction false} CallSound(env: Env, n: nat, p: Point, chain: Chain, caps: Caps)
    ensures var r := Call(env, n, p, chain, caps); r.Matched? ==> Can(env, p, r.end, {})
    decreases n, 0, 0
  {
    if n > 0 {
      GoSound(env, n - 1, p, chain, caps);
    }
  }

  lemma {:induction false} GoSound(env: Env, n: nat, p: Point, chain: Chain, caps: Caps)
    ensures var r := Go(env, n, p, chain, caps); r.Matched? ==> Can(env, p, r.end, {})
    decreases n, 2, 2 * (Length(p.items) + Weight(p.ctx)) + 1
  {
    var res := Go(env, n, p, chain, caps);
    if res.Matched? {
      match p.items
      case Nil =>
        if p.ctx.Top? {
          assert Run(env, p, res.end, {}, 0);
        } else {
          KetSound(env, n, p, chain, caps);
        }
      case Cons(One(x), t) =>
        var q := Point(t, p.ctx, p.i + 1);
        GoSound(env, n, q, chain, caps);
        CanStep(env, p, q, res.end);
      case Cons(Many(x, r), t) =>
        ManySound(env, n, p, chain, caps);
      case Cons(Group(z, g), t) =>
        var skip := Point(t, p.ctx, p.i);
        var enter := Point(Cons(Group(Once, g), t), p.ctx, p.i);
        match z {
          case Once =>
            TrySound(env, n, g.alts, g, t, p.ctx, p.i, Push(g.s, chain, p.i), OpenCap(env, caps, g.cap, p.i));
          case SkipZero =>
            GoSound(env, n, skip, chain, caps);
            CanStep(env, p, skip, res.end);
          case BraZero =>
            var r := Call(env, n, enter, chain, caps);
            CallSound(env, n, enter, chain, caps);
            if r.Failed? {
              GoSound(env, r.left, skip, chain, Resume(caps, r));
              CanStep(env, p, skip, res.end);
            } else {
              CanStep(env, p, enter, res.end);
            }
          case BraMinZero =>
            var r := Call(env, n, skip, chain, caps);
            CallSound(env, n, skip, chain, caps);
            if r.Failed? {
              GoSound(env, r.left, enter, chain, Resume(caps, r));
              CanStep(env, p, enter, res.end);
            } else {
              CanStep(env, p, skip, res.end);
            }
        }
    }
  }

  lemma {:induction false} ManySound(env: Env, n: nat, p: Point, chain: Chain, caps: Caps)
    requires p.items.Cons? && p.items.head.Many?
    ensures var r := Go(env, n, p, chain, caps); r.Matched? ==> Can(env, p, r.end, {})
    decreases n, 2, 2 * (Length(p.items) + Weight(p.ctx))
  {
    hide Go, Up, Down, RunEnd, Run;
    GoMany(env, n, p, chain, caps);
    var Cons(Many(x, r), t) := p.items;
    var res := Go(env, n, p, chain, caps);
    var lo := p.i + Min(r);
    if res.Matched? {
      RunEndMax(env, x, r, p.i, lo);
      if Fixed(r) {
        var q := Point(t, p.ctx, lo);
        GoSound(env, n, q, chain, caps);
        CanStep(env, p, q, res.end);
      } else if ModeOf(r) == Poss {
        var q := Point(t, p.ctx, RunEnd(env, x, r, p.i, lo));
        GoSound(env, n, q, chain, caps);
        CanStep(env, p, q, res.end);
      } else if ModeOf(r) == Greedy {
        DownSound(env, n, t, p.ctx, lo, RunEnd(env, x, r, p.i, lo), chain, caps, p);
      } else {
        UpSound(env, n, x, r, t, p.ctx, p.i, lo, chain, caps, p);
      }
    }
  }

  lemma {:induction false} DownSound(env: Env, n: nat, t: Items, ctx: Ctx, lo: nat, j: nat, chain: Chain, caps: Caps,
                                     p: Point)
    requires lo <= j
    requires forall k :: lo <= k <= j ==> Step(env, p, Point(t, ctx, k))
    ensures var r := Down(env, n, t, ctx, lo, j, chain, caps); r.Matched? ==> Can(env, p, r.end, {})
    decreases n, 1, j
  {
    var q := Point(t, ctx, j);
    var r := Call(env, n, q, chain, caps);
    CallSound(env, n, q, chain, caps);
    if r.Matched? {
      CanStep(env, p, q, r.end);
    } else if j > lo && r.Failed? {
      DownSound(env, r.left, t, ctx, lo, j - 1, chain, Resume(caps, r), p);
    }
  }

  lemma {:induction false} UpSound(env: Env, n: nat, x: Single, r: Rep, t: Items, ctx: Ctx, i: nat, j: nat,
                                   chain: Chain, caps: Caps, p: Point)
    requires p == Point(Cons(Many(x, r), t), ctx, i) && ModeOf(r) == Lazy
    requires i + Min(r) <= j <= |env.subject| && AtMost(r, j - i) && AllTest(env, x, i, j)
    ensures var r := Up(env, n, x, r, t, ctx, i, j, chain, caps); r.Matched? ==> Can(env, p, r.end, {})
    decreases n, 1, |env.subject| - j
  {
    var q := Point(t, ctx, j);
    var res := Call(env, n, q, chain, caps);
    CallSound(env, n, q, chain, caps);
    if res.Matched? {
      CanStep(env, p, q, res.end);
    } else if res.Failed? && AtMost(r, j + 1 - i) && j < |env.subject| && Test(env, x, env.subject[j]) {
      UpSound(env, res.left, x, r, t, ctx, i, j + 1, chain, Resume(caps, res), p);
    }
  }

  lemma {:induction false} TrySound(env: Env, n: nat, alts: Alts, g: Grp, t: Items, ctx: Ctx, i: nat, chain: Chain,
                                    caps: Caps)
    requires forall b :: InAlts(b, alts) ==> InAlts(b, g.alts)
    ensures var r := Try(env, n, alts, g, t, ctx, i, chain, caps);
      r.Matched? ==> Can(env, Point(Cons(Group(Once, g), t), ctx, i), r.end, {})
    decreases n, 1, alts
  {
    var q := Point(alts.b, In(g, t, ctx), i);
    var r := Call(env, n, q, chain, caps);
    CallSound(env, n, q, chain, caps);
    assert InAlts(alts.b, alts);
    if r.Matched? {
      CanStep(env, Point(Cons(Group(Once, g), t), ctx, i), q, r.end);
    } else if alts.More? && r.Failed? {
      TrySound(env, r.left, alts.rest, g, t, ctx, i, chain, Resume(caps, r));
    }
  }

  lemma {:induction false} KetSound(env: Env, n: nat, p: Point, chain: Chain, caps: Caps)
    requires p.items.Nil? && p.ctx.In?
    ensures var r := AtKet(env, n, p, chain, caps); r.Matched? ==> Can(env, p, r.end, {})
    decreases n, 2, 2 * Weight(p.ctx)
  {
    var g := p.ctx.g;
    var leave := Point(p.ctx.rest, p.ctx.outer, p.i);
    var again := Point(Cons(Group(Once, g), p.ctx.rest), p.ctx.outer, p.i);
    var chain' := if g.s then Pop(chain) else chain;
    var caps' := CloseCap(env, caps, g.cap, p.i);
    var res := AtKet(env, n, p, chain, caps);
    if res.Matched? {
      if g.ket == Ket || (g.s && MarkedHere(chain, p.i)) {
        GoSound(env, n, leave, chain', caps');
        CanStep(env, p, leave, res.end);
      } else if g.ket == KetRmax {
        var r := Call(env, n, again, Push(g.s, chain', p.i), caps');
        CallSound(env, n, again, Push(g.s, chain', p.i), caps');
        if r.Failed? {
          CallSound(env, r.left, leave, chain', Resume(caps', r));
          CanStep(env, p, leave, res.end);
        } else {
          CanStep(env, p, again, res.end);
        }
      } else {
        var r := Call(env, n, leave, chain', caps');
        CallSound(env, n, leave, chain', caps');
        if r.Failed? {
          CallSound(env, r.left, again, Push(g.s, chain', p.i), Resume(caps', r));
          CanStep(env, p, again, res.end);
        } else {
          CanStep(env, p, leave, res.end);
        }
      }
    }
  }

  // ---------------------------------------------------------------------------------------
  // Completeness: a reported failure means that no run exists.
  //
  // When match() refuses another iteration of a group, the bracket would be entered at a subject
  // position at which it is already being tried. The refused moves lead to points of a set
  // `avoid`, and a run that avoids these exists whenever any run exists. The chain also holds
  // marks that no bracket will take off: an iteration pushes two and takes off one. Such a mark
  // sits on top of the mark of an enclosing group, which then consults the wrong one. That does
  // no harm, because to get there without consuming anything the search must first pass the
  // closing bracket it came from, and that point is in `avoid` too.

  /** The marks of the open groups are there, in order, none beyond the current position; a mark at
      the current position belongs to a group whose start is avoided, unless a closing bracket
      further in is avoided (`covered`). */
  ghost predicate ChainOk(chain: Chain, ctx: Ctx, i: nat, avoid: set<Point>, covered: bool)
    decreases ctx
  {
    match ctx
    case Top => AllUpTo(chain, i)
    case In(g, rest, outer) =>
      var covered' := covered || Point(Nil, ctx, i) in avoid;
      if g.s then
        && chain.Mark? && chain.at <= i
        && (chain.at == i ==> covered || Point(Cons(Group(Once, g), rest), outer, i) in avoid)
        && ChainOk(chain.prev, outer, i, avoid, covered')
      else ChainOk(chain, outer, i, avoid, covered')
  }

  ghost predicate AllUpTo(chain: Chain, i: nat) {
    chain.Mark? ==> chain.at <= i && AllUpTo(chain.prev, i)
  }

  /** Enough marks for the open S groups: the chain cannot underflow. */
  ghost predicate Deep(chain: Chain, ctx: Ctx)
    decreases ctx
  {
    match ctx
    case Top => true
    case In(g, _, outer) => if g.s then chain.Mark? && Deep(chain.prev, outer) else Deep(chain, outer)
  }

  lemma {:induction false} ChainOkParts(chain: Chain, ctx: Ctx, i: nat, avoid: set<Point>, covered: bool)
    requires ChainOk(chain, ctx, i, avoid, covered)
    ensures Deep(chain, ctx) && AllUpTo(chain, i)
    decreases ctx
  {
    if ctx.In? {
      ChainOkParts(if ctx.g.s then chain.prev else chain, ctx.outer, i, avoid, covered || Point(Nil, ctx, i) in avoid);
    }
  }

  /** One more mark than needed does no harm. */
  lemma {:induction false} DeeperOk(chain: Chain, ctx: Ctx, at: nat)
    requires Deep(chain, ctx)
    ensures Deep(Mark(at, chain), ctx)
    decreases ctx
  {
    if ctx.In? {
      if ctx.g.s {
        DeeperOk(chain.prev, ctx.outer, chain.at);
      } else {
        DeeperOk(chain, ctx.outer, at);
      }
    }
  }

  lemma {:induction false} CoveredOk(chain: Chain, ctx: Ctx, i: nat, avoid: set<Point>)
    requires Deep(chain, ctx) && AllUpTo(chain, i)
    ensures ChainOk(chain, ctx, i, avoid, true)
    decreases ctx
  {
    if ctx.In? {
      CoveredOk(if ctx.g.s then chain.prev else chain, ctx.outer, i, avoid);
    }
  }

  lemma {:induction false} AllUpToLater(chain: Chain, i: nat, j: nat)
    requires AllUpTo(chain, i) && i <= j
    ensures AllUpTo(chain, j)
  {
    if chain.Mark? {
      AllUpToLater(chain.prev, i, j);
    }
  }

  /** Once a byte has been consumed no mark is at the current position. */
  lemma {:induction false} LaterOk(chain: Chain, ctx: Ctx, i: nat, j: nat, avoid: set<Point>)
    requires Deep(chain, ctx) && AllUpTo(chain, i) && i < j
    ensures ChainOk(chain, ctx, j, avoid, false)
    decreases ctx
  {
    AllUpToLater(chain, i, j);
    if ctx.In? {
      LaterOk(if ctx.g.s then chain.prev else chain, ctx.outer, i, j, avoid);
      Weaken(if ctx.g.s then chain.prev else chain, ctx.outer, j, avoid, avoid, false, Point(Nil, ctx, j) in avoid);
    }
  }

  lemma {:induction false} MovedOk(chain: Chain, ctx: Ctx, i: nat, j: nat, avoid: set<Point>)
    requires ChainOk(chain, ctx, i, avoid, false) && i <= j
    ensures ChainOk(chain, ctx, j, avoid, false)
  {
    if i < j {
      ChainOkParts(chain, ctx, i, avoid, false);
      LaterOk(chain, ctx, i, j, avoid);
    }
  }

  lemma {:induction false} Weaken(chain: Chain, ctx: Ctx, i: nat, avoid: set<Point>, avoid': set<Point>, covered: bool,
                                  covered': bool)
    requires ChainOk(chain, ctx, i, avoid, covered) && avoid <= avoid' && (covered ==> covered')
    ensures ChainOk(chain, ctx, i, avoid', covered')
    decreases ctx
  {
    if ctx.In? {
      var c := covered || Point(Nil, ctx, i) in avoid;
      var c' := covered' || Point(Nil, ctx, i) in avoid';
      Weaken(if ctx.g.s then chain.prev else chain, ctx.outer, i, avoid, avoid', c, c');
    }
  }

  ghost predicate Doomed(env: Env, p: Point, avoid: set<Point>) {
    forall e: nat :: !Can(env, p, e, avoid)
  }

  /** Nothing can be reached from p if nothing can be reached from any point one move further. */
  lemma {:induction false} DoomedStep(env: Env, p: Point, avoid: set<Point>)
    requires !(p.items.Nil? && p.ctx.Top?)
    requires forall q :: Step(env, p, q) ==> Doomed(env, q, avoid)
    ensures Doomed(env, p, avoid)
  {
    forall e: nat ensures !Can(env, p, e, avoid) {
      if Can(env, p, e, avoid) {
        var n: nat :| Run(env, p, e, avoid, n);
        var q :| Step(env, p, q) && Run(env, q, e, avoid, n - 1);
        assert Can(env, q, e, avoid);
      }
    }
  }

  /** The same when the points one move further are searched under the assumption that p is not visited
      again. */
  lemma {:induction false} DoomedCycle(env: Env, p: Point, avoid: set<Point>)
    requires !(p.items.Nil? && p.ctx.Top?)
    requires forall q :: Step(env, p, q) ==> Doomed(env, q, avoid + {p})
    ensures Doomed(env, p, avoid)
  {
    forall e: nat ensures !Can(env, p, e, avoid) {
      if Can(env, p, e, avoid) {
        var n: nat :| Run(env, p, e, avoid, n);
        var q, m := NeverReturn(env, p, e, avoid, n);
        assert Can(env, q, e, avoid + {p});
      }
    }
  }

  lemma {:induction false} CallComplete(env: Env, n: nat, p: Point, chain: Chain, caps: Caps, avoid: set<Point>)
    requires ChainOk(chain, p.ctx, p.i, avoid, false)
    ensures Call(env, n, p, chain, caps).Failed? ==> Doomed(env, p, avoid)
    decreases n, 0, 0
  {
    if n > 0 {
      GoComplete(env, n - 1, p, chain, caps, avoid);
    }
  }

  lemma {:induction false} GoComplete(env: Env, n: nat, p: Point, chain: Chain, caps: Caps, avoid: set<Point>)
    requires ChainOk(chain, p.ctx, p.i, avoid, false)
    ensures Go(env, n, p, chain, caps).Failed? ==> Doomed(env, p, avoid)
    decreases n, 2, 3 * (Length(p.items) + Weight(p.ctx)) + 2
  {
    if Go(env, n, p, chain, caps).Failed? {
      match p.items
      case Nil =>
        if p.ctx.In? {
          KetComplete(env, n, p, chain, caps, avoid);
        }
      case Cons(One(x), t) =>
        if p.i < |env.subject| && Test(env, x, env.subject[p.i]) {
          MovedOk(chain, p.ctx, p.i, p.i + 1, avoid);
          GoComplete(env, n, Point(t, p.ctx, p.i + 1), chain, caps, avoid);
        }
        DoomedStep(env, p, avoid);
      case Cons(Many(x, r), t) =>
        ManyComplete(env, n, p, chain, caps, avoid);
      case Cons(Group(z, g), t) =>
        if z == Once {
          EnterComplete(env, n, g, t, p.ctx, p.i, chain, caps, avoid);
        } else {
          ZeroComplete(env, n, p, chain, caps, avoid);
        }
    }
  }

  lemma {:induction false} ZeroComplete(env: Env, n: nat, p: Point, chain: Chain, caps: Caps, avoid: set<Point>)
    requires p.items.Cons? && p.items.head.Group? && p.items.head.zero != Once
    requires ChainOk(chain, p.ctx, p.i, avoid, false) && Go(env, n, p, chain, caps).Failed?
    ensures Doomed(env, p, avoid)
    decreases n, 2, 3 * (Length(p.items) + Weight(p.ctx)) + 1
  {
    var Cons(Group(z, g), t) := p.items;
    var skip := Point(t, p.ctx, p.i);
    var enter := Point(Cons(Group(Once, g), t), p.ctx, p.i);
    match z {
      case SkipZero =>
        GoComplete(env, n, skip, chain, caps, avoid);
      case BraZero =>
        var r := Call(env, n, enter, chain, caps);
        CallComplete(env, n, enter, chain, caps, avoid);
        GoComplete(env, r.left, skip, chain, Resume(caps, r), avoid);
      case BraMinZero =>
        var r := Call(env, n, skip, chain, caps);
        CallComplete(env, n, skip, chain, caps, avoid);
        GoComplete(env, r.left, enter, chain, Resume(caps, r), avoid);
    }
    forall q | Step(env, p, q) ensures Doomed(env, q, avoid) {
      assert q == skip || (z != SkipZero && q == enter);
    }
    DoomedStep(env, p, avoid);
  }

  lemma {:induction false} ManyComplete(env: Env, n: nat, p: Point, chain: Chain, caps: Caps, avoid: set<Point>)
    requires p.items.Cons? && p.items.head.Many?
    requires ChainOk(chain, p.ctx, p.i, avoid, false) && Go(env, n, p, chain, caps).Failed?
    ensures Doomed(env, p, avoid)
    decreases n, 2, 3 * (Length(p.items) + Weight(p.ctx)) + 1
  {
    var Cons(Many(x, r), t) := p.items;
    forall j: nat | ManyMatches(env, x, r, p.i, j) ensures Doomed(env, Point(t, p.ctx, j), avoid) {
      OneComplete(env, n, p, j, chain, caps, avoid);
    }
    forall q | Step(env, p, q) ensures Doomed(env, q, avoid) {
      assert q == Point(t, p.ctx, q.i);
    }
    DoomedStep(env, p, avoid);
  }

  /** Every length that a repeated item may consume is tried. */
  lemma {:induction false} OneComplete(env: Env, n: nat, p: Point, j: nat, chain: Chain, caps: Caps, avoid: set<Point>)
    requires p.items.Cons? && p.items.head.Many? && ManyMatches(env, p.items.head.x, p.items.head.r, p.i, j)
    requires ChainOk(chain, p.ctx, p.i, avoid, false) && Go(env, n, p, chain, caps).Failed?
    ensures Doomed(env, Point(p.items.tail, p.ctx, j), avoid)
    decreases n, 2, 3 * (Length(p.items) + Weight(p.ctx))
  {
    hide Go, Up, Down, RunEnd, Can, ChainOk;
    GoMany(env, n, p, chain, caps);
    var Cons(Many(x, r), t) := p.items;
    var lo := p.i + Min(r);
    RunEndMax(env, x, r, p.i, lo);
    var hi := RunEnd(env, x, r, p.i, lo);
    assert lo <= j <= hi;
    if Fixed(r) {
      FixedAt(r, j - p.i);
      MovedOk(chain, p.ctx, p.i, lo, avoid);
      GoComplete(env, n, Point(t, p.ctx, lo), chain, caps, avoid);
    } else if ModeOf(r) == Poss {
      StuckUnique(env, x, r, p.i, j, hi);
      MovedOk(chain, p.ctx, p.i, hi, avoid);
      GoComplete(env, n, Point(t, p.ctx, hi), chain, caps, avoid);
    } else if ModeOf(r) == Greedy {
      DownComplete(env, n, t, p.ctx, p.i, lo, hi, chain, caps, avoid);
    } else {
      UpComplete(env, n, x, r, t, p.ctx, p.i, lo, chain, caps, avoid);
    }
  }

  lemma FixedAt(r: Rep, k: nat)
    requires Fixed(r) && Min(r) <= k && AtMost(r, k)
    ensures k == Min(r)
  {
  }

  lemma StuckUnique(env: Env, x: Single, r: Rep, i: nat, j: nat, k: nat)
    requires i <= j <= |env.subject| && AtMost(r, j - i) && AllTest(env, x, i, j) && Stuck(env, x, r, i, j)
    requires i <= k <= |env.subject| && AtMost(r, k - i) && AllTest(env, x, i, k) && Stuck(env, x, r, i, k)
    ensures j == k
  {
  }

  lemma {:induction false} DownComplete(env: Env, n: nat, t: Items, ctx: Ctx, i: nat, lo: nat, j: nat, chain: Chain,
                                        caps: Caps, avoid: set<Point>)
    requires ChainOk(chain, ctx, i, avoid, false) && i <= lo <= j
    requires Down(env, n, t, ctx, lo, j, chain, caps).Failed?
    ensures forall k :: lo <= k <= j ==> Doomed(env, Point(t, ctx, k), avoid)
    decreases n, 1, j
  {
    var r := Call(env, n, Point(t, ctx, j), chain, caps);
    MovedOk(chain, ctx, i, j, avoid);
    CallComplete(env, n, Point(t, ctx, j), chain, caps, avoid);
    if j > lo {
      DownComplete(env, r.left, t, ctx, i, lo, j - 1, chain, Resume(caps, r), avoid);
    }
  }

  lemma {:induction false} UpComplete(env: Env, n: nat, x: Single, r: Rep, t: Items, ctx: Ctx, i: nat, j: nat,
                                      chain: Chain, caps: Caps, avoid: set<Point>)
    requires ChainOk(chain, ctx, i, avoid, false) && i <= j <= |env.subject|
    requires AtMost(r, j - i) && AllTest(env, x, i, j)
    requires Up(env, n, x, r, t, ctx, i, j, chain, caps).Failed?
    ensures forall k :: j <= k <= |env.subject| && AtMost(r, k - i) && AllTest(env, x, i, k) ==>
      Doomed(env, Point(t, ctx, k), avoid)
    decreases n, 1, |env.subject| - j
  {
    var res := Call(env, n, Point(t, ctx, j), chain, caps);
    MovedOk(chain, ctx, i, j, avoid);
    CallComplete(env, n, Point(t, ctx, j), chain, caps, avoid);
    if AtMost(r, j + 1 - i) && j < |env.subject| && Test(env, x, env.subject[j]) {
      UpComplete(env, res.left, x, r, t, ctx, i, j + 1, chain, Resume(caps, res), avoid);
    }
  }

  /** Entering a bracket at a point that a surrounding search already avoids or is about to. */
  lemma {:induction false} EnterComplete(env: Env, n: nat, g: Grp, t: Items, ctx: Ctx, i: nat, chain: Chain,
                                         caps: Caps, avoid: set<Point>)
    requires ChainOk(chain, ctx, i, avoid, false) || (AllUpTo(chain, i) && Deep(chain, ctx) &&
      Point(Nil, In(g, t, ctx), i) in avoid)
    requires Try(env, n, g.alts, g, t, ctx, i, Push(g.s, chain, i), OpenCap(env, caps, g.cap, i)).Failed?
    ensures Doomed(env, Point(Cons(Group(Once, g), t), ctx, i), avoid)
    decreases n, 2, 0
  {
    var p := Point(Cons(Group(Once, g), t), ctx, i);
    var inner := In(g, t, ctx);
    var avoid' := avoid + {p};
    var covered := Point(Nil, inner, i) in avoid';
    if ChainOk(chain, ctx, i, avoid, false) {
      Weaken(chain, ctx, i, avoid, avoid', false, covered);
    } else {
      CoveredOk(chain, ctx, i, avoid');
    }
    assert ChainOk(Push(g.s, chain, i), inner, i, avoid', false);
    TryComplete(env, n, g.alts, g, t, ctx, i, Push(g.s, chain, i), OpenCap(env, caps, g.cap, i), avoid');
    DoomedCycle(env, p, avoid);
  }

  lemma {:induction false} TryComplete(env: Env, n: nat, alts: Alts, g: Grp, t: Items, ctx: Ctx, i: nat, chain: Chain,
                                       caps: Caps, avoid: set<Point>)
    requires ChainOk(chain, In(g, t, ctx), i, avoid, false)
    requires Try(env, n, alts, g, t, ctx, i, chain, caps).Failed?
    ensures forall b :: InAlts(b, alts) ==> Doomed(env, Point(b, In(g, t, ctx), i), avoid)
    decreases n, 1, alts
  {
    var r := Call(env, n, Point(alts.b, In(g, t, ctx), i), chain, caps);
    CallComplete(env, n, Point(alts.b, In(g, t, ctx), i), chain, caps, avoid);
    if alts.More? {
      TryComplete(env, r.left, alts.rest, g, t, ctx, i, chain, Resume(caps, r), avoid);
    }
  }

  lemma {:induction false} KetComplete(env: Env, n: nat, p: Point, chain: Chain, caps: Caps, avoid: set<Point>)
    requires p.items.Nil? && p.ctx.In?
    requires ChainOk(chain, p.ctx, p.i, avoid, false) && AtKet(env, n, p, chain, caps).Failed?
    ensures Doomed(env, p, avoid)
    decreases n, 2, 3 * Weight(p.ctx) + 1
  {
    var g := p.ctx.g;
    var leave := Point(p.ctx.rest, p.ctx.outer, p.i);
    var again := Point(Cons(Group(Once, g), p.ctx.rest), p.ctx.outer, p.i);
    var chain' := if g.s then Pop(chain) else chain;
    var caps' := CloseCap(env, caps, g.cap, p.i);
    if p !in avoid {
      if g.ket == Ket || (g.s && MarkedHere(chain, p.i)) {
        GoComplete(env, n, leave, chain', caps', avoid);
        DoomedStep(env, p, avoid);
      } else {
        Weaken(chain', p.ctx.outer, p.i, avoid, avoid + {p}, false, false);
        if g.ket == KetRmax {
          var r := Call(env, n, again, Push(g.s, chain', p.i), caps');
          AgainComplete(env, n, g, p.ctx.rest, p.ctx.outer, p.i, chain', caps', avoid + {p});
          CallComplete(env, r.left, leave, chain', Resume(caps', r), avoid + {p});
        } else {
          var r := Call(env, n, leave, chain', caps');
          CallComplete(env, n, leave, chain', caps', avoid + {p});
          AgainComplete(env, r.left, g, p.ctx.rest, p.ctx.outer, p.i, chain', Resume(caps', r), avoid + {p});
        }
        DoomedCycle(env, p, avoid);
      }
    }
  }

  /** Another iteration, started from a closing bracket that is avoided from then on. */
  lemma {:induction false} AgainComplete(env: Env, n: nat, g: Grp, rest: Items, outer: Ctx, i: nat, chain: Chain,
                                         caps: Caps, avoid: set<Point>)
    requires ChainOk(chain, outer, i, avoid, false) && Point(Nil, In(g, rest, outer), i) in avoid
    requires Call(env, n, Point(Cons(Group(Once, g), rest), outer, i), Push(g.s, chain, i), caps).Failed?
    ensures Doomed(env, Point(Cons(Group(Once, g), rest), outer, i), avoid)
    decreases n, 0, 0
  {
    ChainOkParts(chain, outer, i, avoid, false);
    DeeperOk(chain, outer, i);
    EnterComplete(env, n - 1, g, rest, outer, i, Push(g.s, chain, i), caps, avoid);
  }

  /** match() entered at the start of a pattern with no mark: it reports only ends that the pattern
      matches, and reports failure exactly when there is none, provided the budget suffices. */
  lemma {:induction false} SearchExact(env: Env, n: nat, items: Items, i: nat, caps: Caps)
    ensures var r := Call(env, n, Point(items, Top, i), NoMark, caps);
      && (r.Matched? ==> MatchItems(env, items, i, r.end) && Accepts(env, r.end))
      && (r.Failed? ==> forall e: nat :: !(MatchItems(env, items, i, e) && Accepts(env, e)))
  {
    var p := Point(items, Top, i);
    var r := Call(env, n, p, NoMark, caps);
    CallSound(env, n, p, NoMark, caps);
    CallComplete(env, n, p, NoMark, caps, {});
    if r.Matched? {
      MachineExact(env, items, i, r.end);
    }
    if r.Failed? {
      forall e: nat ensures !(MatchItems(env, items, i, e) && Accepts(env, e)) {
        MachineExact(env, items, i, e);
      }
    }
  }
}
