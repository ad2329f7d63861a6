/** The code tree as a machine: the moves that a matching engine may make between code
    positions, and the runs that end at the end of the pattern. A run may be asked to avoid a
    finite set of points; that is what the check for empty iterations in match() amounts to. */
module Machine {
  import opened Tree
  import opened Semantics

  /** A code position (the rest of the current branch and the open brackets) with a subject position. */
  datatype Point = Point(items: Items, ctx: Ctx, i: nat)

  ghost predicate Step(env: Env, p: Point, q: Point)
  {
    match p.items
    case Nil =>
      && p.ctx.In?
      && q.i == p.i
      && q.ctx == p.ctx.outer
      && (q.items == p.ctx.rest || (p.ctx.g.ket != Ket && q.items == Cons(Group(Once, p.ctx.g), p.ctx.rest)))
    case Cons(One(x), t) =>
      && p.i < |env.subject|
      && Test(env, x, env.subject[p.i])
      && q == Point(t, p.ctx, p.i + 1)
    case Cons(Many(x, r), t) =>
      && ManyMatches(env, x, r, p.i, q.i)
      && q.items == t && q.ctx == p.ctx
    case Cons(Group(z, g), t) =>
      && q.i == p.i
      && match z
         case Once => InAlts(q.items, g.alts) && q.ctx == In(g, t, p.ctx)
         case SkipZero => q.items == t && q.ctx == p.ctx
         case _ => q.ctx == p.ctx && (q.items == t || q.items == Cons(Group(Once, g), t))
  }

  /** A run of at most n moves from p to the end of the pattern at subject position e, avoiding the points
      in `avoid`. */
  ghost predicate Run(env: Env, p: Point, e: nat, avoid: set<Point>, n: nat)
    decreases n
  {
    && p !in avoid
    && (|| (p == Point(Nil, Top, e) && Accepts(env, e))
        || (n > 0 && exists q :: Step(env, p, q) && Run(env, q, e, avoid, n - 1)))
  }

  ghost predicate Can(env: Env, p: Point, e: nat, avoid: set<Point>)
  {
    exists n: nat :: Run(env, p, e, avoid, n)
  }

  lemma {:induction false} RunLonger(env: Env, p: Point, e: nat, avoid: set<Point>, n: nat, m: nat)
    requires Run(env, p, e, avoid, n) && n <= m
    ensures Run(env, p, e, avoid, m)
    decreases n
  {
    if !(p == Point(Nil, Top, e) && Accepts(env, e)) {
      var q :| Step(env, p, q) && Run(env, q, e, avoid, n - 1);
      RunLonger(env, q, e, avoid, n - 1, m - 1);
    }
  }

  lemma CanStep(env: Env, p: Point, q: Point, e: nat)
    requires Step(env, p, q) && Can(env, q, e, {})
    ensures Can(env, p, e, {})
  {
    var n: nat :| Run(env, q, e, {}, n);
    assert Run(env, p, e, {}, n + 1);
  }

  /** A run that would stop being one if p had to be avoided passes through p. */
  lemma {:induction false} PassesThrough(env: Env, q: Point, e: nat, avoid: set<Point>, p: Point, n: nat)
    returns (m: nat)
    requires Run(env, q, e, avoid, n) && !Run(env, q, e, avoid + {p}, n)
    ensures m <= n && Run(env, p, e, avoid, m)
    decreases n
  {
    if q == p {
      m := n;
    } else {
      var r :| Step(env, q, r) && Run(env, r, e, avoid, n - 1);
      m := PassesThrough(env, r, e, avoid, p, n - 1);
    }
  }

  /** Removing cycles: a run that makes a move can be chosen never to come back to where it starts. */
  lemma {:induction false} NeverReturn(env: Env, p: Point, e: nat, avoid: set<Point>, n: nat) returns (q: Point, m: nat)
    requires Run(env, p, e, avoid, n) && !(p.items == Nil && p.ctx == Top)
    ensures m < n && Step(env, p, q) && Run(env, q, e, avoid + {p}, m)
    decreases n
  {
    q :| Step(env, p, q) && Run(env, q, e, avoid, n - 1);
    if Run(env, q, e, avoid + {p}, n - 1) {
      m := n - 1;
    } else {
      var k := PassesThrough(env, q, e, avoid, p, n - 1);
      q, m := NeverReturn(env, p, e, avoid, k);
    }
  }

  // ---------------------------------------------------------------------------------------
  // The machine accepts what the relation of module Semantics describes.

  /** What may follow a point once the rest of its branch has been matched up to m. */
  ghost predicate Tail(env: Env, ctx: Ctx, m: nat, e: nat)
    decreases ctx
  {
    match ctx
    case Top => m == e && Accepts(env, e)
    case In(g, rest, outer) =>
      exists n: nat, a: nat, b: nat ::
        MatchTimes(env, g.alts, n, m, a) && (g.ket == Ket ==> n == 0) && MatchItems(env, rest, a, b) &&
          Tail(env, outer, b, e)
  }

  ghost predicate Meaning(env: Env, p: Point, e: nat)
  {
    exists m: nat :: MatchItems(env, p.items, p.i, m) && Tail(env, p.ctx, m, e)
  }

  lemma {:induction false} StepMeaning(env: Env, p: Point, q: Point, e: nat)
    requires Step(env, p, q) && Meaning(env, q, e)
    ensures Meaning(env, p, e)
  {
    var m: nat :| MatchItems(env, q.items, q.i, m) && Tail(env, q.ctx, m, e);
    match p.items
    case Nil =>
      var g, rest, outer := p.ctx.g, p.ctx.rest, p.ctx.outer;
      if q.items == rest {
        assert MatchTimes(env, g.alts, 0, p.i, p.i);
        TailIntro(env, g, rest, outer, 0, p.i, p.i, m, e);
      } else {
        GroupMeaning(env, g, rest, outer, p.i, m, e);
      }
      assert MatchItems(env, Nil, p.i, p.i);
    case Cons(One(x), t) =>
      assert MatchItem(env, p.items.head, p.i, q.i);
    case Cons(Many(x, r), t) =>
      assert MatchItem(env, p.items.head, p.i, q.i);
    case Cons(Group(z, g), t) =>
      if z == Once {
        var n: nat, a: nat, b: nat :| MatchTimes(env, g.alts, n, m, a) && (g.ket == Ket ==> n == 0) &&
            MatchItems(env, t, a, b) && Tail(env, p.ctx, b, e);
        AltsInclude(env, q.items, g.alts, p.i, m);
        TimesSucc(env, g.alts, n, p.i, m, a);
        assert MatchGrp(env, g, p.i, a);
        assert MatchItem(env, p.items.head, p.i, a);
        assert MatchItems(env, p.items, p.i, b);
      } else if q.items == t {
        assert MatchItem(env, p.items.head, p.i, p.i);
      } else {
        assert q.items == Cons(Group(Once, g), t);
        assert MatchItems(env, Cons(Group(Once, g), t), p.i, m);
        var a: nat :| MatchItem(env, Group(Once, g), p.i, a) && MatchItems(env, t, a, m);
        assert MatchItem(env, p.items.head, p.i, a);
        assert MatchItems(env, p.items, p.i, m);
      }
  }

  lemma TailIntro(env: Env, g: Grp, rest: Items, outer: Ctx, n: nat, m: nat, a: nat, b: nat, e: nat)
    requires MatchTimes(env, g.alts, n, m, a) && (g.ket == Ket ==> n == 0) && MatchItems(env, rest, a, b)
    requires Tail(env, outer, b, e)
    ensures Tail(env, In(g, rest, outer), m, e)
  {
  }

  lemma {:induction false} GroupMeaning(env: Env, g: Grp, rest: Items, outer: Ctx, i: nat, m: nat, e: nat)
    requires g.ket != Ket
    requires MatchItems(env, Cons(Group(Once, g), rest), i, m) && Tail(env, outer, m, e)
    ensures Tail(env, In(g, rest, outer), i, e)
  {
    var a: nat :| MatchItem(env, Group(Once, g), i, a) && MatchItems(env, rest, a, m);
    assert MatchGrp(env, g, i, a);
    var n: nat :| MatchTimes(env, g.alts, n, i, a) && n >= 1;
    TailIntro(env, g, rest, outer, n, i, a, m, e);
  }

  /** Soundness of the machine: every run is a match. */
  lemma {:induction false} RunMeaning(env: Env, p: Point, e: nat, n: nat)
    requires Run(env, p, e, {}, n)
    ensures Meaning(env, p, e)
    decreases n
  {
    if p == Point(Nil, Top, e) && Accepts(env, e) {
      assert MatchItems(env, Nil, e, e);
    } else {
      var q :| Step(env, p, q) && Run(env, q, e, {}, n - 1);
      RunMeaning(env, q, e, n - 1);
      StepMeaning(env, p, q, e);
    }
  }

  /** Completeness of the machine: whatever an item list matches, the machine can move across. */
  lemma {:induction false} CrossItems(env: Env, items: Items, ctx: Ctx, i: nat, m: nat, e: nat)
    requires MatchItems(env, items, i, m) && Can(env, Point(Nil, ctx, m), e, {})
    ensures Can(env, Point(items, ctx, i), e, {})
    decreases items, 0, 0
  {
    if items.Cons? {
      var k: nat :| MatchItem(env, items.head, i, k) && MatchItems(env, items.tail, k, m);
      CrossItems(env, items.tail, ctx, k, m, e);
      CrossItem(env, items.head, items.tail, ctx, i, k, e);
    }
  }

  lemma {:induction false} CrossItem(env: Env, it: Item, t: Items, ctx: Ctx, i: nat, k: nat, e: nat)
    requires MatchItem(env, it, i, k) && Can(env, Point(t, ctx, k), e, {})
    ensures Can(env, Point(Cons(it, t), ctx, i), e, {})
    decreases it, 1, 0
  {
    var p := Point(Cons(it, t), ctx, i);
    var q := Point(t, ctx, k);
    match it
    case One(x) => CanStep(env, p, q, e);
    case Many(x, r) => CanStep(env, p, q, e);
    case Group(z, g) =>
      if z == SkipZero || (z != Once && i == k) {
        CanStep(env, p, q, e);
      } else {
        CrossGrp(env, g, t, ctx, i, k, e);
        if z != Once {
          CanStep(env, p, Point(Cons(Group(Once, g), t), ctx, i), e);
        }
      }
  }

  lemma {:induction false} CrossGrp(env: Env, g: Grp, t: Items, ctx: Ctx, i: nat, k: nat, e: nat)
    requires MatchGrp(env, g, i, k) && Can(env, Point(t, ctx, k), e, {})
    ensures Can(env, Point(Cons(Group(Once, g), t), ctx, i), e, {})
    decreases g, 1, 0
  {
    if g.ket == Ket {
      CanStep(env, Point(Nil, In(g, t, ctx), k), Point(t, ctx, k), e);
      CrossAlts(env, g, g.alts, t, ctx, i, k, e);
    } else {
      var n: nat :| MatchTimes(env, g.alts, n, i, k) && n >= 1;
      CrossTimes(env, g, n, t, ctx, i, k, e);
    }
  }

  lemma {:induction false} CrossTimes(env: Env, g: Grp, n: nat, t: Items, ctx: Ctx, i: nat, k: nat, e: nat)
    requires g.ket != Ket && n >= 1
    requires MatchTimes(env, g.alts, n, i, k) && Can(env, Point(t, ctx, k), e, {})
    ensures Can(env, Point(Cons(Group(Once, g), t), ctx, i), e, {})
    decreases g, 0, n
  {
    var m: nat :| MatchAlts(env, g.alts, i, m) && MatchTimes(env, g.alts, n - 1, m, k);
    var ket := Point(Nil, In(g, t, ctx), m);
    if n == 1 {
      CanStep(env, ket, Point(t, ctx, k), e);
    } else {
      CrossTimes(env, g, n - 1, t, ctx, m, k, e);
      CanStep(env, ket, Point(Cons(Group(Once, g), t), ctx, m), e);
    }
    CrossAlts(env, g, g.alts, t, ctx, i, m, e);
  }

  lemma {:induction false} CrossAlts(env: Env, g: Grp, alts: Alts, t: Items, ctx: Ctx, i: nat, m: nat, e: nat)
    requires forall b :: InAlts(b, alts) ==> InAlts(b, g.alts)
    requires MatchAlts(env, alts, i, m) && Can(env, Point(Nil, In(g, t, ctx), m), e, {})
    ensures Can(env, Point(Cons(Group(Once, g), t), ctx, i), e, {})
    decreases alts, 0, 0
  {
    if MatchItems(env, alts.b, i, m) {
      assert InAlts(alts.b, alts);
      CrossItems(env, alts.b, In(g, t, ctx), i, m, e);
      CanStep(env, Point(Cons(Group(Once, g), t), ctx, i), Point(alts.b, In(g, t, ctx), i), e);
    } else {
      CrossAlts(env, g, alts.rest, t, ctx, i, m, e);
    }
  }

  /** The machine started at a top-level list of items reaches the end of the pattern at e exactly
      when the items match from the start to e and the empty-match option allows it. */
  lemma {:induction false} MachineExact(env: Env, items: Items, i: nat, e: nat)
    ensures Can(env, Point(items, Top, i), e, {}) <==> MatchItems(env, items, i, e) && Accepts(env, e)
  {
    var p := Point(items, Top, i);
    if Can(env, p, e, {}) {
      var n: nat :| Run(env, p, e, {}, n);
      RunMeaning(env, p, e, n);
    }
    if MatchItems(env, items, i, e) && Accepts(env, e) {
      assert Run(env, Point(Nil, Top, e), e, {}, 0);
      CrossItems(env, items, Top, i, e, e);
    }
  }
}
