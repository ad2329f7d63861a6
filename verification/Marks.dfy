/** What the remembered group starts make of the search, for all code: match() reports the match that is
    reached by taking, at each choice, the most preferred move from which the end can be reached at all, but
    a group is started again or not as the chain of remembered starts has it, which is not always where
    the group was entered. When it is, and an input on which it is not. */
module Marks {
  import opened Tree
  import opened Semantics
  import opened Machine
  import opened Search
  import opened Progress
  import opened Preference
  import opened Record

  datatype State = State(p: Point, chain: Chain)

  /** Another iteration is refused when nothing was consumed since the remembered start. */
  predicate Refused(s: State, q: Point) {
    && s.p.items.Nil? && s.p.ctx.In? && s.p.ctx.g.s && MarkedHere(s.chain, s.p.i)
    && q.items == Cons(Group(Once, s.p.ctx.g), s.p.ctx.rest)
  }

  /** The chain after a move to q. */
  function ChainTo(s: State, q: Point): Chain {
    match s.p.items
    case Nil =>
      if s.p.ctx.Top? then s.chain
      else
        var g := s.p.ctx.g;
        var popped := if g.s then Pop(s.chain) else s.chain;
        Push(g.s && q.items == Cons(Group(Once, g), s.p.ctx.rest), popped, s.p.i)
    case Cons(Group(Once, g), _) => Push(g.s, s.chain, s.p.i)
    case _ => s.chain
  }

  ghost predicate Move(env: Env, s: State, s': State) {
    Step(env, s.p, s'.p) && !Refused(s, s'.p) && s'.chain == ChainTo(s, s'.p)
  }

  ghost predicate Final(env: Env, s: State, e: nat) {
    s.p == Point(Nil, Top, e) && Accepts(env, e)
  }

  ghost predicate Reaches(env: Env, s: State, e: nat, n: nat)
    decreases n
  {
    Final(env, s, e) || (n > 0 && exists s' :: Move(env, s, s') && Reaches(env, s', e, n - 1))
  }

  /** The end of the pattern cannot be reached. */
  ghost predicate Dead(env: Env, s: State) {
    forall e: nat, n: nat :: !Reaches(env, s, e, n)
  }

  lemma {:induction false} DeadStep(env: Env, s: State)
    requires !(s.p.items.Nil? && s.p.ctx.Top?) && forall s' :: Move(env, s, s') ==> Dead(env, s')
    ensures Dead(env, s)
  {
    hide Move;
    forall e: nat, n: nat ensures !Reaches(env, s, e, n) {
      assert !Final(env, s, e);
    }
  }

  lemma DeadEnd(env: Env, s: State)
    requires s.p.items.Nil? && s.p.ctx.Top? && !Accepts(env, s.p.i)
    ensures Dead(env, s)
  {
    assert forall s' :: !Move(env, s, s');
  }

  // ---------------------------------------------------------------------------------------
  // The preferred way

  /** Of two different alternatives, b comes first. */
  predicate Earlier(alts: Alts, b: Items, b': Items)
    decreases alts
  {
    alts.More? && alts.b != b' && (alts.b == b || Earlier(alts.rest, b, b'))
  }

  /** Of two moves from p, the one to q is preferred to the one to q'. */
  predicate Better(p: Point, q: Point, q': Point) {
    match p.items
    case Nil =>
      p.ctx.In? && (match p.ctx.g.ket
        case Ket => false
        case KetRmax => q.items == Cons(Group(Once, p.ctx.g), p.ctx.rest) && q'.items == p.ctx.rest
        case KetRmin => q.items == p.ctx.rest && q'.items == Cons(Group(Once, p.ctx.g), p.ctx.rest))
    case Cons(One(_), _) => false
    case Cons(Many(_, r), _) => if ModeOf(r) == Lazy then q.i < q'.i else q.i > q'.i
    case Cons(Group(z, g), t) =>
      (match z
       case Once => Earlier(g.alts, q.items, q'.items)
       case SkipZero => false
       case BraZero => q.items == Cons(Group(Once, g), t) && q'.items == t
       case BraMinZero => q.items == t && q'.items == Cons(Group(Once, g), t))
  }

  /** No move that is preferred to the one to s' leads to the end. */
  ghost predicate BestMove(env: Env, s: State, s': State) {
    forall s'' :: Move(env, s, s'') && Better(s.p, s''.p, s'.p) ==> Dead(env, s'')
  }

  /** The points of a sequence of moves to the end at e, each of them the most preferred that can succeed. */
  ghost predicate Prefers(env: Env, s: State, e: nat, run: seq<Point>)
    decreases |run|, 0
  {
    && run != [] && run[0] == s.p
    && (if |run| == 1 then Final(env, s, e) else PrefersOn(env, s, State(run[1], ChainTo(s, run[1])), e, run[1..]))
  }

  ghost predicate PrefersOn(env: Env, s: State, s': State, e: nat, run: seq<Point>)
    decreases |run|, 1
  {
    Move(env, s, s') && BestMove(env, s, s') && Prefers(env, s', e, run)
  }

  ghost predicate Preferred(env: Env, s: State, e: nat) {
    exists run :: Prefers(env, s, e, run)
  }

  /** Such a sequence, of which the captures are the record. */
  ghost predicate Traced(env: Env, s: State, was: seq<int>, past: seq<Point>, e: nat, caps: Caps) {
    exists run :: Prefers(env, s, e, run) && Recorded(env, was, past + run, caps)
  }

  lemma TracedStep(env: Env, s: State, s': State, was: seq<int>, past: seq<Point>, e: nat, caps: Caps)
    requires Move(env, s, s') && Traced(env, s', was, past + [s.p], e, caps) && BestMove(env, s, s')
    ensures Traced(env, s, was, past, e, caps)
  {
    hide Move, BestMove, Recorded;
    var run :| Prefers(env, s', e, run) && Recorded(env, was, past + [s.p] + run, caps);
    assert ([s.p] + run)[1..] == run && past + [s.p] + run == past + ([s.p] + run);
    MoveChain(env, s, s');
    assert PrefersOn(env, s, s', e, run);
    assert Prefers(env, s, e, [s.p] + run);
  }

  lemma MoveChain(env: Env, s: State, s': State)
    requires Move(env, s, s')
    ensures s' == State(s'.p, ChainTo(s, s'.p))
  {
  }

  lemma TracedEnd(env: Env, e: nat, chain: Chain, was: seq<int>, past: seq<Point>, caps: Caps)
    requires Accepts(env, e) && Written(env, was, Top, past, caps)
    ensures Traced(env, State(Point(Nil, Top, e), chain), was, past, e, caps)
  {
    hide Written, Recorded;
    var p := Point(Nil, Top, e);
    WrittenEnd(env, was, p, past, caps);
    assert Prefers(env, State(p, chain), e, [p]);
  }

  // ---------------------------------------------------------------------------------------
  // There is only one such match

  lemma {:induction false} PrefersReaches(env: Env, s: State, e: nat, run: seq<Point>)
    requires Prefers(env, s, e, run)
    ensures Reaches(env, s, e, |run|)
    decreases |run|
  {
    hide Move, BestMove, Final;
    if |run| > 1 {
      var s' := State(run[1], ChainTo(s, run[1]));
      assert PrefersOn(env, s, s', e, run[1..]);
      PrefersReaches(env, s', e, run[1..]);
    }
  }

  lemma {:induction false} EarlierTotal(alts: Alts, b: Items, b': Items)
    requires InAlts(b, alts) && InAlts(b', alts) && b != b'
    ensures Earlier(alts, b, b') || Earlier(alts, b', b)
  {
    if alts.More? && alts.b != b && alts.b != b' {
      EarlierTotal(alts.rest, b, b');
    }
  }

  lemma {:induction false} BetterTotal(env: Env, s: State, s1: State, s2: State)
    requires Move(env, s, s1) && Move(env, s, s2) && s1 != s2
    ensures Better(s.p, s1.p, s2.p) || Better(s.p, s2.p, s1.p)
  {
    var p := s.p;
    if p.items.Cons? && p.items.head.Group? && p.items.head.zero == Once {
      EarlierTotal(p.items.head.g.alts, s1.p.items, s2.p.items);
    }
  }

  /** The preferred end and the way to it are unique. */
  lemma {:induction false} PreferredUnique(env: Env, s: State, e: nat, run: seq<Point>, e': nat, run': seq<Point>)
    requires Prefers(env, s, e, run) && Prefers(env, s, e', run')
    ensures e == e' && run == run'
    decreases |run|
  {
    hide Move, Better;
    if s.p.items.Nil? && s.p.ctx.Top? {
      EndStuck(env, s);
    } else {
      var s1, s2 := State(run[1], ChainTo(s, run[1])), State(run'[1], ChainTo(s, run'[1]));
      assert PrefersOn(env, s, s1, e, run[1..]) && PrefersOn(env, s, s2, e', run'[1..]);
      PrefersReaches(env, s1, e, run[1..]);
      PrefersReaches(env, s2, e', run'[1..]);
      if s1 != s2 {
        BetterTotal(env, s, s1, s2);
      }
      PreferredUnique(env, s1, e, run[1..], e', run'[1..]);
      assert run == [s.p] + run[1..] && run' == [s.p] + run'[1..];
    }
  }

  lemma EndStuck(env: Env, s: State)
    requires s.p.items.Nil? && s.p.ctx.Top?
    ensures forall s' :: !Move(env, s, s')
  {
  }

  // ---------------------------------------------------------------------------------------
  // The search follows it

  /** What a result says about the state in which the search began: a match is the preferred one and its captures
      are the record of the way there, continuing what is past; a failure means that there is none. */
  ghost predicate Follows(env: Env, s: State, was: seq<int>, past: seq<Point>, r: Res) {
    && (r.Matched? ==> Traced(env, s, was, past, r.end, r.caps))
    && (r.Failed? ==> Dead(env, s))
  }

  /** The only move. */
  lemma FollowsOne(env: Env, s: State, s': State, was: seq<int>, past: seq<Point>, r: Res)
    requires Move(env, s, s') && (forall s'' :: Move(env, s, s'') ==> s'' == s' || !Better(s.p, s''.p, s'.p))
    requires Follows(env, s', was, past + [s.p], r) && (r.Failed? ==> forall s'' :: Move(env, s, s'') ==> s'' == s')
    requires !Better(s.p, s'.p, s'.p) && !(s.p.items.Nil? && s.p.ctx.Top?)
    ensures Follows(env, s, was, past, r)
  {
    hide Move, Better, Traced, Dead;
    if r.Matched? {
      TracedStep(env, s, s', was, past, r.end, r.caps);
    }
    if r.Failed? {
      DeadStep(env, s);
    }
  }

  lemma FollowsRanked(env: Env, s: State, s': State, was: seq<int>, past: seq<Point>, r: Res)
    requires Ranked(env, s, s', s') && Follows(env, s', was, past + [s.p], r)
    ensures Follows(env, s, was, past, r)
  {
    hide Move, Better, Follows;
    FollowsOne(env, s, s', was, past, r);
  }

  /** Two moves, the first of which is preferred. */
  lemma FollowsTwo(env: Env, s: State, s1: State, s2: State, was: seq<int>, past: seq<Point>, r1: Res, r2: Res)
    requires Ranked(env, s, s1, s2)
    requires Follows(env, s1, was, past + [s.p], r1) && (r1.Failed? ==> Follows(env, s2, was, past + [s.p], r2))
    ensures Follows(env, s, was, past, if r1.Failed? then r2 else r1)
  {
    hide Move, Better, Traced, Dead;
    if r1.Matched? {
      TracedStep(env, s, s1, was, past, r1.end, r1.caps);
    }
    if r1.Failed? && r2.Matched? {
      TracedStep(env, s, s2, was, past, r2.end, r2.caps);
    }
    if r1.Failed? && r2.Failed? {
      DeadStep(env, s);
    }
  }

  lemma {:induction false} CallFollows(env: Env, n: nat, p: Point, chain: Chain, caps: Caps, was: seq<int>,
                                       past: seq<Point>)
    requires Written(env, was, p.ctx, past, caps)
    ensures Follows(env, State(p, chain), was, past, Call(env, n, p, chain, caps))
    decreases n, 0, 0
  {
    hide Traced, Dead;
    if n > 0 {
      GoFollows(env, n - 1, p, chain, caps, was, past);
    }
  }

  lemma {:induction false} GoFollows(env: Env, n: nat, p: Point, chain: Chain, caps: Caps, was: seq<int>,
                                     past: seq<Point>)
    requires Written(env, was, p.ctx, past, caps)
    ensures Follows(env, State(p, chain), was, past, Go(env, n, p, chain, caps))
    decreases n, 2, 2 * (Length(p.items) + Weight(p.ctx)) + 1
  {
    hide Traced, Dead, OpenCap, PutBack, Test, Written;
    var s := State(p, chain);
    match p.items
    case Nil =>
      if p.ctx.In? {
        KetFollows(env, n, p, chain, caps, was, past);
      } else if Accepts(env, p.i) {
        TracedEnd(env, p.i, chain, was, past, caps);
      } else {
        DeadEnd(env, s);
      }
    case Cons(One(x), t) =>
      var q := Point(t, p.ctx, p.i + 1);
      if p.i < |env.subject| && Test(env, x, env.subject[p.i]) {
        WrittenOn(env, was, p, past, caps);
        GoFollows(env, n, q, chain, caps, was, past + [p]);
        FollowsOne(env, s, State(q, chain), was, past, Go(env, n, q, chain, caps));
      } else {
        DeadStep(env, s);
      }
    case Cons(Many(x, r), t) =>
      ManyFollows(env, n, p, chain, caps, was, past);
    case Cons(Group(z, g), t) =>
      if z == Once {
        NonePrior(g.alts);
        WrittenOpen(env, was, p, past, caps);
        TryFollows(env, n, g.alts, p, chain, OpenCap(env, caps, g.cap, p.i), was, past);
      } else {
        ZeroFollows(env, n, p, chain, caps, was, past);
      }
  }

  /** The moves s1 and s2 are all there are, and s1 is preferred. */
  ghost predicate Ranked(env: Env, s: State, s1: State, s2: State) {
    && !(s.p.items.Nil? && s.p.ctx.Top?) && Move(env, s, s1) && Move(env, s, s2)
    && (forall s' :: Move(env, s, s') ==> s' == s1 || s' == s2)
    && !Better(s.p, s1.p, s1.p) && !Better(s.p, s2.p, s2.p) && !Better(s.p, s2.p, s1.p)
  }

  lemma RestShorter(rest: Items, g: Grp)
    ensures rest != Cons(Group(Once, g), rest)
  {
    assert Length(Cons(Group(Once, g), rest)) > Length(rest);
  }

  lemma ZeroMoves(env: Env, s: State)
    requires s.p.items.Cons? && s.p.items.head.Group? && s.p.items.head.zero != Once
    ensures var Cons(Group(z, g), t) := s.p.items;
      var skip, enter := State(Point(t, s.p.ctx, s.p.i), s.chain),
          State(Point(Cons(Group(Once, g), t), s.p.ctx, s.p.i), s.chain);
      match z
      case SkipZero => Ranked(env, s, skip, skip)
      case BraZero => Ranked(env, s, enter, skip)
      case BraMinZero => Ranked(env, s, skip, enter)
  {
    RestShorter(s.p.items.tail, s.p.items.head.g);
  }

  lemma {:induction false} ZeroFollows(env: Env, n: nat, p: Point, chain: Chain, caps: Caps, was: seq<int>,
                                       past: seq<Point>)
    requires Written(env, was, p.ctx, past, caps)
    requires p.items.Cons? && p.items.head.Group? && p.items.head.zero != Once
    ensures Follows(env, State(p, chain), was, past, Go(env, n, p, chain, caps))
    decreases n, 2, 2 * (Length(p.items) + Weight(p.ctx))
  {
    hide Follows, Ranked, Move, Better, Written;
    var s := State(p, chain);
    ZeroMoves(env, s);
    WrittenOn(env, was, p, past, caps);
    var Cons(Group(z, g), t) := p.items;
    var skip, enter := Point(t, p.ctx, p.i), Point(Cons(Group(Once, g), t), p.ctx, p.i);
    if z == SkipZero {
      GoFollows(env, n, skip, chain, caps, was, past + [p]);
      FollowsRanked(env, s, State(skip, chain), was, past, Go(env, n, skip, chain, caps));
    } else {
      var q, q' := if z == BraZero then enter else skip, if z == BraZero then skip else enter;
      var r := Call(env, n, q, chain, caps);
      CallFollows(env, n, q, chain, caps, was, past + [p]);
      if r.Failed? {
        WrittenResume(env, was, past + [p], n, q, chain, caps);
        GoFollows(env, r.left, q', chain, Resume(caps, r), was, past + [p]);
        FollowsTwo(env, s, State(q, chain), State(q', chain), was, past, r,
                   Go(env, r.left, q', chain, Resume(caps, r)));
      } else {
        FollowsTwo(env, s, State(q, chain), State(q', chain), was, past, r, r);
      }
    }
  }

  lemma KetMoves(env: Env, s: State)
    requires s.p.items.Nil? && s.p.ctx.In?
    ensures var g, ctx, i := s.p.ctx.g, s.p.ctx, s.p.i;
      var popped := if g.s then Pop(s.chain) else s.chain;
      var leave, again := State(Point(ctx.rest, ctx.outer, i), popped),
          State(Point(Cons(Group(Once, g), ctx.rest), ctx.outer, i), Push(g.s, popped, i));
      if g.ket == Ket || (g.s && MarkedHere(s.chain, i)) then Ranked(env, s, leave, leave)
      else if g.ket == KetRmax then Ranked(env, s, again, leave)
      else Ranked(env, s, leave, again)
  {
    RestShorter(s.p.ctx.rest, s.p.ctx.g);
  }

  lemma {:induction false} KetFollows(env: Env, n: nat, p: Point, chain: Chain, caps: Caps, was: seq<int>,
                                      past: seq<Point>)
    requires Written(env, was, p.ctx, past, caps)
    requires p.items.Nil? && p.ctx.In?
    ensures Follows(env, State(p, chain), was, past, AtKet(env, n, p, chain, caps))
    decreases n, 2, 2 * Weight(p.ctx)
  {
    hide Follows, CloseCap, Ranked, Move, Better, Written;
    WrittenClose(env, was, p, past, caps);
    var g, s := p.ctx.g, State(p, chain);
    KetMoves(env, s);
    var leave, again := Point(p.ctx.rest, p.ctx.outer, p.i), Point(Cons(Group(Once, g), p.ctx.rest), p.ctx.outer, p.i);
    var chain' := if g.s then Pop(chain) else chain;
    var caps' := CloseCap(env, caps, g.cap, p.i);
    var sl, sa := State(leave, chain'), State(again, Push(g.s, chain', p.i));
    if g.ket == Ket || (g.s && MarkedHere(chain, p.i)) {
      GoFollows(env, n, leave, chain', caps', was, past + [p]);
      FollowsRanked(env, s, sl, was, past, Go(env, n, leave, chain', caps'));
    } else {
      var s1, s2 := if g.ket == KetRmax then sa else sl, if g.ket == KetRmax then sl else sa;
      var r := Call(env, n, s1.p, s1.chain, caps');
      CallFollows(env, n, s1.p, s1.chain, caps', was, past + [p]);
      if r.Failed? {
        WrittenResume(env, was, past + [p], n, s1.p, s1.chain, caps');
        CallFollows(env, r.left, s2.p, s2.chain, Resume(caps', r), was, past + [p]);
        FollowsTwo(env, s, s1, s2, was, past, r, Call(env, r.left, s2.p, s2.chain, Resume(caps', r)));
      } else {
        FollowsTwo(env, s, s1, s2, was, past, r, r);
      }
    }
  }

  // Alternatives

  predicate Suffix(alts: Alts, whole: Alts)
    decreases whole
  {
    alts == whole || (whole.More? && Suffix(alts, whole.rest))
  }

  /** The branch b occurs before the suffix. */
  predicate Prior(whole: Alts, alts: Alts, b: Items)
    decreases whole
  {
    whole != alts && whole.More? && (whole.b == b || Prior(whole.rest, alts, b))
  }

  lemma NonePrior(alts: Alts)
    ensures Suffix(alts, alts) && forall b :: !Prior(alts, alts, b)
  {
  }

  lemma {:induction false} EarlierPrior(whole: Alts, alts: Alts, b: Items)
    requires Suffix(alts, whole) && Earlier(whole, b, alts.b)
    ensures Prior(whole, alts, b)
    decreases whole
  {
    if whole.b != b {
      EarlierPrior(whole.rest, alts, b);
    }
  }

  lemma {:induction false} SuffixRest(whole: Alts, alts: Alts, b: Items)
    requires Suffix(alts, whole) && alts.More?
    ensures Suffix(alts.rest, whole)
    ensures Prior(whole, alts.rest, b) ==> Prior(whole, alts, b) || b == alts.b
    decreases whole
  {
    if alts != whole {
      SuffixRest(whole.rest, alts, b);
    } else {
      assert !Prior(alts.rest, alts.rest, b);
    }
  }

  lemma {:induction false} SuffixIn(whole: Alts, alts: Alts)
    requires Suffix(alts, whole)
    ensures InAlts(alts.b, whole)
    ensures alts.Last? ==> forall b :: InAlts(b, whole) ==> b == alts.b || Prior(whole, alts, b)
    decreases whole
  {
    if alts != whole {
      SuffixIn(whole.rest, alts);
    }
  }

  lemma {:induction false} TryFollows(env: Env, n: nat, alts: Alts, p: Point, chain: Chain, caps: Caps, was: seq<int>,
                                       past: seq<Point>)
    requires p.items.Cons? && p.items.head.Group? && p.items.head.zero == Once
    requires Written(env, was, In(p.items.head.g, p.items.tail, p.ctx), past + [p], caps)
    requires var g, inner := p.items.head.g, In(p.items.head.g, p.items.tail, p.ctx);
      Suffix(alts, g.alts) && forall b :: Prior(g.alts, alts, b) ==>
        Dead(env, State(Point(b, inner, p.i), Push(g.s, chain, p.i)))
    ensures var g := p.items.head.g;
      Follows(env, State(p, chain), was, past, Try(env, n, alts, g, p.items.tail, p.ctx, p.i, Push(g.s, chain, p.i), caps))
    decreases n, 1, alts
  {
    hide Traced, Dead, Call, Written;
    var Cons(Group(_, g), t) := p.items;
    var s, inner, chain' := State(p, chain), In(g, t, p.ctx), Push(g.s, chain, p.i);
    var q := Point(alts.b, inner, p.i);
    var r := Call(env, n, q, chain', caps);
    SuffixIn(g.alts, alts);
    CallFollows(env, n, q, chain', caps, was, past + [p]);
    if r.Matched? {
      forall s' | Move(env, s, s') && Better(p, s'.p, q) ensures Dead(env, s') {
        EarlierPrior(g.alts, alts, s'.p.items);
        assert s' == State(Point(s'.p.items, inner, p.i), chain');
      }
      TracedStep(env, s, State(q, chain'), was, past, r.end, r.caps);
    } else if alts.More? && r.Failed? {
      forall b | Prior(g.alts, alts.rest, b) ensures Dead(env, State(Point(b, inner, p.i), chain')) {
        SuffixRest(g.alts, alts, b);
      }
      SuffixRest(g.alts, alts, alts.b);
      WrittenResume(env, was, past + [p], n, q, chain', caps);
      TryFollows(env, r.left, alts.rest, p, chain, Resume(caps, r), was, past);
    } else if r.Failed? {
      forall s' | Move(env, s, s') ensures Dead(env, s') {
        assert s' == State(Point(s'.p.items, inner, p.i), chain') && InAlts(s'.p.items, g.alts);
      }
      DeadStep(env, s);
    }
  }

  // Repeated items

  lemma {:induction false} ManyFollows(env: Env, n: nat, p: Point, chain: Chain, caps: Caps, was: seq<int>,
                                       past: seq<Point>)
    requires Written(env, was, p.ctx, past, caps)
    requires p.items.Cons? && p.items.head.Many?
    ensures Follows(env, State(p, chain), was, past, Go(env, n, p, chain, caps))
    decreases n, 2, 2 * (Length(p.items) + Weight(p.ctx))
  {
    hide Go, Up, Down, RunEnd, Follows, Move, Better, AllTest, Test, Dead, Traced, Written;
    GoMany(env, n, p, chain, caps);
    WrittenOn(env, was, p, past, caps);
    var Cons(Many(x, r), t) := p.items;
    var s, lo := State(p, chain), p.i + Min(r);
    if lo > |env.subject| || !AllTest(env, x, p.i, lo) {
      NoneMatch(env, s, was, past, Failed(n, caps.vec, caps.over));
    } else {
      var hi := RunEnd(env, x, r, p.i, lo);
      ManyMoves(env, s);
      if Fixed(r) || ModeOf(r) == Poss {
        var q := Point(t, p.ctx, if Fixed(r) then lo else hi);
        GoFollows(env, n, q, chain, caps, was, past + [p]);
        OnlyOne(env, s, State(q, chain));
        Unbiased(s, State(q, chain));
        FollowsOne(env, s, State(q, chain), was, past, Go(env, n, q, chain, caps));
      } else if ModeOf(r) == Greedy {
        DownFollows(env, n, p, lo, hi, chain, caps, was, past);
      } else {
        UpFollows(env, n, p, lo, chain, caps, was, past);
      }
    }
  }

  /** Where a repeated item can be left: after its minimum, in possessive mode at the end of the run, and
      never after that. */
  lemma ManyMoves(env: Env, s: State)
    requires s.p.items.Cons? && s.p.items.head.Many?
    requires var lo := s.p.i + Min(s.p.items.head.r); lo <= |env.subject| && AllTest(env, s.p.items.head.x, s.p.i, lo)
    ensures var Cons(Many(x, r), t) := s.p.items;
      var lo := s.p.i + Min(r);
      var hi := RunEnd(env, x, r, s.p.i, lo);
      && lo <= hi && (forall s' :: Move(env, s, s') ==> lo <= s'.p.i <= hi)
      && (Fixed(r) ==> Move(env, s, State(Point(t, s.p.ctx, lo), s.chain)))
      && (!Fixed(r) && ModeOf(r) == Poss ==> Move(env, s, State(Point(t, s.p.ctx, hi), s.chain)))
      && (ModeOf(r) != Poss ==> forall k :: lo <= k <= hi ==> Move(env, s, State(Point(t, s.p.ctx, k), s.chain)))
  {
    hide RunEnd, Test;
    var r := s.p.items.head.r;
    RunEndMax(env, s.p.items.head.x, r, s.p.i, s.p.i + Min(r));
  }

  lemma Unbiased(s: State, s': State)
    requires s.p.items.Cons? && s.p.items.head.Many?
    ensures !Better(s.p, s'.p, s'.p)
  {
  }

  lemma NoneMatch(env: Env, s: State, was: seq<int>, past: seq<Point>, r: Res)
    requires s.p.items.Cons? && s.p.items.head.Many? && r.Failed?
    requires var lo := s.p.i + Min(s.p.items.head.r); lo > |env.subject| || !AllTest(env, s.p.items.head.x, s.p.i, lo)
    ensures Follows(env, s, was, past, r)
  {
    hide Dead, Test;
    DeadStep(env, s);
  }

  /** Where a repeated item can be left in one place only there is one move. */
  lemma {:induction false} OnlyOne(env: Env, s: State, s': State)
    requires s.p.items.Cons? && s.p.items.head.Many? && Move(env, s, s')
    requires (Fixed(s.p.items.head.r) || ModeOf(s.p.items.head.r) == Poss)
    ensures forall s'' :: Move(env, s, s'') ==> s'' == s'
  {
    hide Test;
    var Cons(Many(x, r), t) := s.p.items;
    forall s'' | Move(env, s, s'') ensures s'' == s' {
      if Fixed(r) {
        FixedAt(r, s'.p.i - s.p.i);
        FixedAt(r, s''.p.i - s.p.i);
      } else {
        StuckUnique(env, x, r, s.p.i, s'.p.i, s''.p.i);
      }
    }
  }

  lemma {:induction false} DownFollows(env: Env, n: nat, p: Point, lo: nat, j: nat, chain: Chain, caps: Caps,
                                        was: seq<int>, past: seq<Point>)
    requires Written(env, was, p.ctx, past + [p], caps)
    requires p.items.Cons? && p.items.head.Many? && lo <= j
    requires ModeOf(p.items.head.r) == Greedy
    requires forall k :: lo <= k <= j ==> Move(env, State(p, chain), State(Point(p.items.tail, p.ctx, k), chain))
    requires forall s' :: Move(env, State(p, chain), s') ==> s'.p.i >= lo && (s'.p.i > j ==> Dead(env, s'))
    ensures Follows(env, State(p, chain), was, past, Down(env, n, p.items.tail, p.ctx, lo, j, chain, caps))
    decreases n, 1, j
  {
    hide Traced, Dead, Call, ManyMatches, Written;
    var s, q := State(p, chain), Point(p.items.tail, p.ctx, j);
    var r := Call(env, n, q, chain, caps);
    CallFollows(env, n, q, chain, caps, was, past + [p]);
    if r.Matched? {
      TracedStep(env, s, State(q, chain), was, past, r.end, r.caps);
    } else if j > lo && r.Failed? {
      WrittenResume(env, was, past + [p], n, q, chain, caps);
      DownFollows(env, r.left, p, lo, j - 1, chain, Resume(caps, r), was, past);
    } else if r.Failed? {
      DeadStep(env, s);
    }
  }

  lemma {:induction false} UpFollows(env: Env, n: nat, p: Point, j: nat, chain: Chain, caps: Caps, was: seq<int>,
                                      past: seq<Point>)
    requires Written(env, was, p.ctx, past + [p], caps)
    requires p.items.Cons? && p.items.head.Many?
    requires ModeOf(p.items.head.r) == Lazy && Move(env, State(p, chain), State(Point(p.items.tail, p.ctx, j), chain))
    requires forall s' :: Move(env, State(p, chain), s') && s'.p.i < j ==> Dead(env, s')
    ensures p.i <= j <= |env.subject|
    ensures Follows(env, State(p, chain), was, past, Up(env, n, p.items.head.x, p.items.head.r, p.items.tail, p.ctx, p.i, j, chain, caps))
    decreases n, 1, |env.subject| - j
  {
    hide Traced, Dead, Call, Test, Written;
    var Cons(Many(x, r), t) := p.items;
    var s, q := State(p, chain), Point(t, p.ctx, j);
    var res := Call(env, n, q, chain, caps);
    CallFollows(env, n, q, chain, caps, was, past + [p]);
    if res.Matched? {
      TracedStep(env, s, State(q, chain), was, past, res.end, res.caps);
    } else if res.Failed? && AtMost(r, j + 1 - p.i) && j < |env.subject| && Test(env, x, env.subject[j]) {
      WrittenResume(env, was, past + [p], n, q, chain, caps);
      UpFollows(env, res.left, p, j + 1, chain, Resume(caps, res), was, past);
    } else if res.Failed? {
      NoneLater(env, s, j);
      DeadStep(env, s);
    }
  }

  lemma NoneLater(env: Env, s: State, j: nat)
    requires s.p.items.Cons? && s.p.items.head.Many? && s.p.i <= j <= |env.subject|
    requires var r := s.p.items.head.r; !AtMost(r, j + 1 - s.p.i) || j == |env.subject| || !Test(env,
      s.p.items.head.x, env.subject[j])
    ensures forall s' :: Move(env, s, s') ==> s'.p.i <= j
  {
    hide Test;
  }

  /** A match that is reported for a pattern ends at the preferred end, and nowhere else could one that is preferred
      end; the captures record the only way there. A failure means that no sequence of moves reaches the end. */
  lemma {:induction false} SearchFollows(env: Env, n: nat, items: Items, i: nat, caps: Caps)
    ensures var s, r := State(Point(items, Top, i), NoMark), Call(env, n, Point(items, Top, i), NoMark, caps);
      && (r.Matched? ==> forall e: nat :: Preferred(env, s, e) <==> e == r.end)
      && (r.Matched? ==> Traced(env, s, caps.vec, [], r.end, r.caps))
      && (r.Matched? ==> forall run :: Prefers(env, s, r.end, run) ==> Recorded(env, caps.vec, run, r.caps))
      && (r.Failed? ==> Dead(env, s))
  {
    hide Call, Dead, Prefers, Recorded, Written;
    var s, r := State(Point(items, Top, i), NoMark), Call(env, n, Point(items, Top, i), NoMark, caps);
    WrittenStart(env, caps);
    CallFollows(env, n, s.p, NoMark, caps, caps.vec, []);
    if r.Matched? {
      var run :| Prefers(env, s, r.end, run) && Recorded(env, caps.vec, [] + run, r.caps);
      assert [] + run == run;
      forall e: nat, run' | Prefers(env, s, e, run') ensures e == r.end && run' == run {
        PreferredUnique(env, s, e, run', r.end, run);
      }
    }
  }

  // ---------------------------------------------------------------------------------------
  // The remembered starts against the true ones

  /** A state together with the positions at which the open groups were entered. */
  datatype Timed = Timed(s: State, trail: Trail)

  function TrailTo(t: Timed): Trail {
    match t.s.p.items
    case Nil => Outer(t.trail)
    case Cons(Group(Once, _), _) => Trail(t.s.p.i, t.trail)
    case _ => t.trail
  }

  ghost predicate Goes(env: Env, t: Timed, t': Timed) {
    Move(env, t.s, t'.s) && t'.trail == TrailTo(t)
  }

  ghost predicate Comes(env: Env, t: Timed, t': Timed, n: nat)
    decreases n
  {
    t == t' || (n > 0 && exists u :: Goes(env, t, u) && Comes(env, u, t', n - 1))
  }

  /** Where the chain says that nothing was consumed since the group was started, nothing was. */
  predicate Fair(t: Timed) {
    var p := t.s.p;
    p.items.Nil? && p.ctx.In? && p.ctx.g.s && MarkedHere(t.s.chain, p.i) ==> Entry(t.trail) == p.i
  }

  ghost predicate AlwaysFair(env: Env, t: Timed) {
    forall t': Timed, n: nat :: Comes(env, t, t', n) ==> Fair(t')
  }

  lemma {:induction false} GoesLined(env: Env, t: Timed, t': Timed)
    requires Lined(t.s.p, t.trail, t.s.chain) && Goes(env, t, t')
    ensures Lined(t'.s.p, t'.trail, t'.s.chain)
  {
    hide Aligned, Untangled, Nullable, Test;
    var p, q := t.s.p, t'.s.p;
    match p.items
    case Nil =>
      if p.ctx.In? {
        RestShorter(p.ctx.rest, p.ctx.g);
        LinedLeave(p, t.trail, t.s.chain);
        if q.items != p.ctx.rest {
          LinedAgain(p, t.trail, t.s.chain);
        }
      }
    case Cons(One(_), _) => LinedTail(p, t.trail, t.s.chain, q.i);
    case Cons(Many(_, _), _) => LinedTail(p, t.trail, t.s.chain, q.i);
    case Cons(Group(z, g), tail) =>
      if z == Once {
        LinedEnter(p, t.trail, t.s.chain, q.items);
      } else if q.items == tail {
        LinedTail(p, t.trail, t.s.chain, q.i);
      } else {
        LinedOnce(p, t.trail, t.s.chain);
      }
  }

  lemma {:induction false} LinedFair(env: Env, t: Timed, t': Timed, n: nat)
    requires Lined(t.s.p, t.trail, t.s.chain) && Comes(env, t, t', n)
    ensures Fair(t')
    decreases n
  {
    hide Goes, Lined;
    if t == t' {
      LinedHere(t);
    } else {
      var u :| Goes(env, t, u) && Comes(env, u, t', n - 1);
      GoesLined(env, t, u);
      LinedFair(env, u, t', n - 1);
    }
  }

  lemma LinedHere(t: Timed)
    requires Lined(t.s.p, t.trail, t.s.chain)
    ensures Fair(t)
  {
  }

  // Ways through code that take each inner group once.

  ghost predicate Straight(env: Env, items: Items, i: nat, j: nat)
    decreases items
  {
    match items case Nil => i == j case Cons(it, t) => exists m: nat :: StraightItem(env, it, i, m) && Straight(env, t, m, j)
  }

  ghost predicate StraightItem(env: Env, it: Item, i: nat, j: nat)
    decreases it
  {
    match it
    case One(_) => MatchItem(env, it, i, j)
    case Many(_, _) => MatchItem(env, it, i, j)
    case Group(z, g) => (z != Once && i == j) || (z != SkipZero && StraightAlts(env, g.alts, i, j))
  }

  ghost predicate StraightAlts(env: Env, alts: Alts, i: nat, j: nat)
    decreases alts
  {
    Straight(env, alts.b, i, j) || (alts.More? && StraightAlts(env, alts.rest, i, j))
  }

  /** On some subject the body of a group can match up to the end and consume something. */
  ghost predicate Consumes(alts: Alts) {
    exists env: Env, i: nat :: i < |env.subject| && StraightAlts(env, alts, i, |env.subject|)
  }

  lemma {:induction false} StraightBranch(env: Env, alts: Alts, i: nat, j: nat) returns (b: Items)
    requires StraightAlts(env, alts, i, j)
    ensures InAlts(b, alts) && Straight(env, b, i, j)
  {
    hide Straight;
    if Straight(env, alts.b, i, j) {
      b := alts.b;
    } else {
      b := StraightBranch(env, alts.rest, i, j);
    }
  }

  lemma {:induction false} StraightEmpty(env: Env, items: Items)
    requires Nullable(items)
    ensures Straight(env, items, |env.subject|, |env.subject|)
    decreases items
  {
    if items.Cons? {
      if items.head.Group? && items.head.zero == Once {
        AltsEmpty(env, items.head.g.alts);
      }
      StraightEmpty(env, items.tail);
      assert StraightItem(env, items.head, |env.subject|, |env.subject|);
    }
  }

  lemma {:induction false} AltsEmpty(env: Env, alts: Alts)
    requires NullableAlts(alts)
    ensures StraightAlts(env, alts, |env.subject|, |env.subject|)
    decreases alts
  {
    if Nullable(alts.b) {
      StraightEmpty(env, alts.b);
    } else {
      AltsEmpty(env, alts.rest);
    }
  }

  function At(items: Items, ctx: Ctx, i: nat, chain: Chain, trail: Trail): Timed {
    Timed(State(Point(items, ctx, i), chain), trail)
  }

  lemma ComesOne(env: Env, t: Timed, t': Timed)
    requires Goes(env, t, t')
    ensures Comes(env, t, t', 1)
  {
    hide Goes;
    assert Comes(env, t', t', 0);
  }

  lemma {:induction false} ComesTrans(env: Env, t: Timed, u: Timed, v: Timed, m: nat, n: nat)
    requires Comes(env, t, u, m) && Comes(env, u, v, n)
    ensures Comes(env, t, v, m + n)
    decreases m
  {
    hide Goes;
    if t == u {
      ComesLonger(env, t, v, n, m + n);
    } else {
      var w :| Goes(env, t, w) && Comes(env, w, u, m - 1);
      ComesTrans(env, w, u, v, m - 1, n);
    }
  }

  lemma {:induction false} ComesLonger(env: Env, t: Timed, v: Timed, n: nat, m: nat)
    requires Comes(env, t, v, n) && n <= m
    ensures Comes(env, t, v, m)
    decreases n
  {
    hide Goes;
    if t != v {
      var w :| Goes(env, t, w) && Comes(env, w, v, n - 1);
      ComesLonger(env, w, v, n - 1, m - 1);
    }
  }

  /** They leave the chain as it was. */
  lemma {:induction false} StraightRun(env: Env, items: Items, ctx: Ctx, i: nat, j: nat, chain: Chain, trail: Trail)
    returns (n: nat)
    requires Straight(env, items, i, j)
    ensures Comes(env, At(items, ctx, i, chain, trail), At(Nil, ctx, j, chain, trail), n)
    decreases items
  {
    hide Goes, Comes, StraightItem;
    n := 0;
    if items.Nil? {
      ComesHere(env, At(Nil, ctx, j, chain, trail));
    } else {
      var m: nat :| StraightItem(env, items.head, i, m) && Straight(env, items.tail, m, j);
      var k := ItemRun(env, items, ctx, i, m, chain, trail);
      var l := StraightRun(env, items.tail, ctx, m, j, chain, trail);
      n := k + l;
      ComesTrans(env, At(items, ctx, i, chain, trail), At(items.tail, ctx, m, chain, trail),
                 At(Nil, ctx, j, chain, trail), k, l);
    }
  }

  lemma ComesHere(env: Env, t: Timed)
    ensures Comes(env, t, t, 0)
  {
  }

  lemma {:induction false} ItemRun(env: Env, items: Items, ctx: Ctx, i: nat, m: nat, chain: Chain, trail: Trail)
    returns (n: nat)
    requires items.Cons? && StraightItem(env, items.head, i, m)
    ensures Comes(env, At(items, ctx, i, chain, trail), At(items.tail, ctx, m, chain, trail), n)
    decreases items, 0
  {
    hide Comes, Test, StraightAlts;
    var start, end := At(items, ctx, i, chain, trail), At(items.tail, ctx, m, chain, trail);
    if items.head.Group? && !(items.head.zero != Once && i == m) {
      var g, t := items.head.g, items.tail;
      var once := At(Cons(Group(Once, g), t), ctx, i, chain, trail);
      var k := GrpRun(env, g, t, ctx, i, m, chain, trail);
      n := k;
      if items.head.zero != Once {
        ComesOne(env, start, once);
        ComesTrans(env, start, once, end, 1, k);
        n := k + 1;
      }
    } else {
      ComesOne(env, start, end);
      n := 1;
    }
  }

  lemma {:induction false} GrpRun(env: Env, g: Grp, t: Items, ctx: Ctx, i: nat, m: nat, chain: Chain, trail: Trail)
    returns (n: nat)
    requires StraightAlts(env, g.alts, i, m)
    ensures Comes(env, At(Cons(Group(Once, g), t), ctx, i, chain, trail), At(t, ctx, m, chain, trail), n)
    decreases g, 0
  {
    hide Comes, Straight, StraightAlts;
    var start, end := At(Cons(Group(Once, g), t), ctx, i, chain, trail), At(t, ctx, m, chain, trail);
    var b := StraightBranch(env, g.alts, i, m);
    var inner := In(g, t, ctx);
    var open, close := At(b, inner, i, Push(g.s, chain, i), Trail(i, trail)),
        At(Nil, inner, m, Push(g.s, chain, i), Trail(i, trail));
    BranchSmaller(b, g.alts);
    ComesOne(env, start, open);
    var k := StraightRun(env, b, inner, i, m, Push(g.s, chain, i), Trail(i, trail));
    RestShorter(t, g);
    ComesOne(env, close, end);
    ComesTrans(env, start, open, close, 1, k);
    ComesTrans(env, start, close, end, 1 + k, 1);
    n := k + 2;
  }

  lemma {:induction false} BranchSmaller(b: Items, alts: Alts)
    requires InAlts(b, alts)
    ensures b < alts
  {
    if alts.More? && alts.b != b {
      BranchSmaller(b, alts.rest);
    }
  }

  // A loop and its surroundings.

  function MarksAt(ctx: Ctx, i: nat): Chain
    decreases ctx
  {
    match ctx case Top => NoMark case In(g, _, outer) => Push(g.s, MarksAt(outer, i), i)
  }

  function EnteredAt(ctx: Ctx, i: nat): Trail
    decreases ctx
  {
    match ctx case Top => NoTrail case In(_, _, outer) => Trail(i, EnteredAt(outer, i))
  }

  /** No loop in the surroundings leaves its mark in the way of another. */
  predicate Settled(ctx: Ctx)
    decreases ctx
  {
    match ctx
    case Top => true
    case In(g, rest, outer) => UntangledGrp(g, Nullable(rest) && Shown(outer)) && Untangled(rest, Shown(outer)) && Settled(outer)
  }

  lemma {:induction false} AlignStart(ctx: Ctx, i: nat, canEnd: bool)
    requires Settled(ctx)
    ensures Aligned(ctx, EnteredAt(ctx, i), MarksAt(ctx, i), i, canEnd)
    decreases ctx
  {
    hide Untangled, UntangledGrp;
    if ctx.In? {
      AlignStart(ctx.outer, i, canEnd && Nullable(ctx.rest));
    }
  }

  /** What the loop h is followed by in its surroundings, and the chain and trail there. */
  ghost predicate Around(env: Env, h: Grp, rest: Items, outer: Ctx, i: nat, chain: Chain, trail: Trail) {
    i <= |env.subject| && Aligned(outer, trail, chain, i, NullableAlts(h.alts) && Nullable(rest))
  }

  ghost predicate LoopFair(h: Grp, rest: Items, outer: Ctx) {
    forall env: Env, i: nat, chain: Chain, trail: Trail ::
      Around(env, h, rest, outer, i, chain, trail) ==> AlwaysFair(env,
        At(Cons(Group(Once, h), rest), outer, i, chain, trail))
  }

  /** With a stale mark from k on top, nothing is consumed up to a closing bracket that finds it. */
  lemma {:induction false} StaleFound(env: Env, items: Items, ctx: Ctx, i: nat, chain: Chain) returns (t: Timed, n: nat)
    requires i < |env.subject| && Nullable(items) && Shown(ctx)
    ensures Comes(env, At(items, ctx, |env.subject|, Mark(|env.subject|, chain), EnteredAt(ctx, i)), t, n) && !Fair(t)
    decreases ctx
  {
    hide Comes, Straight, Goes, Nullable;
    var k, stale, trail := |env.subject|, Mark(|env.subject|, chain), EnteredAt(ctx, i);
    StraightEmpty(env, items);
    n := StraightRun(env, items, ctx, k, k, stale, trail);
    t := At(Nil, ctx, k, stale, trail);
    if !ctx.g.s {
      var next := At(ctx.rest, ctx.outer, k, stale, trail.outer);
      LeaveGoes(env, ctx, k, stale, trail);
      ComesOne(env, t, next);
      var u, m := StaleFound(env, ctx.rest, ctx.outer, i, chain);
      ComesTrans(env, At(items, ctx, k, stale, trail), t, next, n, 1);
      ComesTrans(env, At(items, ctx, k, stale, trail), next, u, n + 1, m);
      t, n := u, n + 1 + m;
    }
  }

  lemma LeaveGoes(env: Env, ctx: Ctx, k: nat, chain: Chain, trail: Trail)
    requires ctx.In?
    ensures Goes(env, At(Nil, ctx, k, chain, trail), At(ctx.rest, ctx.outer, k, if ctx.g.s then Pop(chain) else chain, Outer(trail)))
  {
    RestShorter(ctx.rest, ctx.g);
  }

  /** Two iterations of a loop, the first of which consumes something and the second nothing. */
  lemma {:induction false} TwoIterations(env: Env, h: Grp, rest: Items, outer: Ctx, i: nat, chain: Chain,
                                         trail: Trail) returns (n: nat)
    requires h.s && h.ket != Ket && NullableAlts(h.alts) && i < |env.subject|
    requires StraightAlts(env, h.alts, i, |env.subject|)
    ensures Comes(env, At(Cons(Group(Once, h), rest), outer, i, chain, trail),
      At(rest, outer, |env.subject|, Mark(|env.subject|, chain), trail), n)
  {
    hide Comes, Straight, StraightAlts, NullableAlts;
    var k, inner, items := |env.subject|, In(h, rest, outer), Cons(Group(Once, h), rest);
    var b := StraightBranch(env, h.alts, i, k);
    var s0, s1, s2 := At(items, outer, i, chain, trail), At(b, inner, i, Mark(i, chain), Trail(i, trail)),
        At(Nil, inner, k, Mark(i, chain), Trail(i, trail));
    var s3, s4 := At(items, outer, k, Mark(k, chain), trail), At(rest, outer, k, Mark(k, chain), trail);
    ComesOne(env, s0, s1);
    var n1 := StraightRun(env, b, inner, i, k, Mark(i, chain), Trail(i, trail));
    ComesOne(env, s2, s3);
    AltsEmpty(env, h.alts);
    var n2 := GrpRun(env, h, rest, outer, k, k, Mark(k, chain), trail);
    ComesTrans(env, s0, s1, s2, 1, n1);
    ComesTrans(env, s0, s2, s3, 1 + n1, 1);
    ComesTrans(env, s0, s3, s4, 2 + n1, n2);
    n := 2 + n1 + n2;
  }

  /** For an unlimited group in the S form that can consume something, with no stale marks inside or around
      it: every refusal, of it and of the groups around it, on every subject, is of an iteration that consumed
      nothing, exactly if its body cannot be empty or something has to be consumed between it and the
      closing bracket of the next group in the S form around it. */
  lemma {:induction false} LoopExact(h: Grp, rest: Items, outer: Ctx)
    requires h.s && h.ket != Ket && Consumes(h.alts)
    requires UntangledAlts(h.alts, true) && Untangled(rest, Shown(outer)) && Settled(outer)
    ensures LoopFair(h, rest, outer) <==> !(NullableAlts(h.alts) && Nullable(rest) && Shown(outer))
  {
    hide Comes, Fair, StraightAlts, Aligned, Untangled, UntangledAlts, Settled, NullableAlts, Nullable, Shown;
    var items := Cons(Group(Once, h), rest);
    if NullableAlts(h.alts) && Nullable(rest) && Shown(outer) {
      var env: Env, i: nat :| i < |env.subject| && StraightAlts(env, h.alts, i, |env.subject|);
      var chain, trail := MarksAt(outer, i), EnteredAt(outer, i);
      AlignStart(outer, i, true);
      assert Around(env, h, rest, outer, i, chain, trail);
      var n := TwoIterations(env, h, rest, outer, i, chain, trail);
      var t, m := StaleFound(env, rest, outer, i, chain);
      ComesTrans(env, At(items, outer, i, chain, trail),
                 At(rest, outer, |env.subject|, Mark(|env.subject|, chain), trail), t, n, m);
      assert !AlwaysFair(env, At(items, outer, i, chain, trail));
    } else {
      forall env: Env, i: nat, chain: Chain, trail: Trail | Around(env, h, rest, outer, i, chain, trail)
        ensures AlwaysFair(env, At(items, outer, i, chain, trail))
      {
        LoopLined(h, rest, outer, i, chain, trail);
        forall t: Timed, n: nat | Comes(env, At(items, outer, i, chain, trail), t, n) ensures Fair(t) {
          LinedFair(env, At(items, outer, i, chain, trail), t, n);
        }
      }
    }
  }

  lemma LoopLined(h: Grp, rest: Items, outer: Ctx, i: nat, chain: Chain, trail: Trail)
    requires h.s && UntangledAlts(h.alts, true) && Untangled(rest, Shown(outer))
    requires !(NullableAlts(h.alts) && Nullable(rest) && Shown(outer))
    requires Aligned(outer, trail, chain, i, NullableAlts(h.alts) && Nullable(rest))
    ensures Lined(Point(Cons(Group(Once, h), rest), outer, i), trail, chain)
  {
    hide Aligned, Untangled, UntangledAlts, Nullable, NullableAlts, Shown;
    HeadLined(h, rest, Shown(outer));
  }

  lemma HeadLined(h: Grp, rest: Items, shown: bool)
    requires h.s && UntangledAlts(h.alts, true) && Untangled(rest, shown)
    requires !(NullableAlts(h.alts) && Nullable(rest) && shown)
    ensures Untangled(Cons(Group(Once, h), rest), shown)
    ensures Nullable(Cons(Group(Once, h), rest)) <==> NullableAlts(h.alts) && Nullable(rest)
  {
    hide UntangledAlts, UntangledGrp, Untangled, NullableAlts;
    LoopUntangled(h, shown && Nullable(rest));
    ConsUntangled(h, rest, shown);
  }

  lemma LoopUntangled(h: Grp, shown: bool)
    requires h.s && UntangledAlts(h.alts, true) && !(NullableAlts(h.alts) && shown)
    ensures UntangledGrp(h, shown)
  {
    hide UntangledAlts, NullableAlts;
  }

  lemma ConsUntangled(h: Grp, rest: Items, shown: bool)
    requires UntangledGrp(h, shown && Nullable(rest)) && Untangled(rest, shown)
    ensures Untangled(Cons(Group(Once, h), rest), shown)
  {
    hide UntangledGrp, Nullable;
    assert UntangledItem(Group(Once, h), shown && Nullable(rest));
  }
}
