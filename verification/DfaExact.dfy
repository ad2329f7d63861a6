/** The states of the DFA matcher against the code tree: the closing bracket of the pattern is
    reached at a subject position exactly when the pattern matches up to there. */
module DfaExact {
  import opened Tree
  import opened Machine
  import opened Semantics
  import opened Layout
  import opened DfaStates

  // ---------------------------------------------------------------------------------------
  // Counts

  /** The counts that a state at a repeated item can have. */
  predicate CountOk(r: Rep, cnt: nat) {
    match r
    case Star(_) => cnt == 0
    case Plus(_) => true
    case Query(_) => cnt == 0
    case Upto(n, _) => cnt < n
    case Exact(n) => cnt < n
    case Range(_, hi, m) => (hi == 0 || cnt < hi) && m != Poss
  }

  /** What a repeated item may still consume from i to j after cnt repetitions. */
  ghost predicate ManyFrom(env: Env, x: Single, r: Rep, cnt: nat, i: nat, j: nat) {
    && i <= j <= |env.subject|
    && AllTest(env, x, i, j)
    && Min(r) <= cnt + j - i
    && AtMost(r, cnt + j - i)
    && (ModeOf(r) == Poss ==> !AtMost(r, cnt + j - i + 1) || !Here(env, x, j))
  }

  lemma ManyFromStart(env: Env, x: Single, r: Rep, i: nat, j: nat)
    ensures ManyFrom(env, x, r, 0, i, j) <==> ManyMatches(env, x, r, i, j)
  {
  }

  lemma LeaveMany(env: Env, x: Single, r: Rep, cnt: nat, i: nat)
    requires CountOk(r, cnt) && i <= |env.subject|
    ensures Leaves(r, cnt, Here(env, x, i)) <==> ManyFrom(env, x, r, cnt, i, i)
  {
  }

  lemma ConsumeMany(env: Env, x: Single, r: Rep, cnt: nat, i: nat)
    requires CountOk(r, cnt) && Here(env, x, i)
    ensures !Full(r, cnt) ==> CountOk(r, Counted(r, cnt))
    ensures Full(r, cnt) ==> forall j: nat :: i < j ==> (ManyFrom(env, x, r, cnt, i, j) <==> j == i + 1)
    ensures !Full(r, cnt) ==>
      forall j: nat :: i < j ==> (ManyFrom(env, x, r, cnt, i, j) <==> ManyFrom(env, x, r, Counted(r, cnt), i + 1, j))
  {
    forall j: nat | i < j <= |env.subject| ensures AllTest(env, x, i, j) <==> AllTest(env, x, i + 1, j) {
    }
  }

  // ---------------------------------------------------------------------------------------
  // Decoding what the tree has emitted

  lemma RepOfIndex(x: Single, r: Rep, n: nat)
    requires WfRep(x, r) && !r.Range? && (r.Upto? || r.Exact? ==> n == r.n)
    ensures RepOf(RepIndex(r), n) == r
  {
  }

  lemma DecodeOne(code: Code, p: nat, x: Single)
    requires SingleAt(code, p, x) && p + LenSingle(x) < |code|
    requires x.Set? ==> !(OP_CRSTAR <= code[p + 33] <= OP_CRMINRANGE)
    ensures Decode(code, p).Decoded? && Decode(code, p).x == x && !Decode(code, p).rep
    ensures Decode(code, p).len == LenSingle(x)
  {
  }

  lemma DecodeMany(code: Code, p: nat, x: Single, r: Rep)
    requires ManyAt(code, p, x, r)
    ensures Decode(code, p) == Decoded(x, true, r, LenMany(x, r))
  {
    if x.Set? {
      if !r.Range? {
        RepOfIndex(x, r, 0);
      }
    } else {
      var n := if r.Upto? || r.Exact? then r.n else 0;
      RepOfIndex(x, r, n);
    }
  }

  // ---------------------------------------------------------------------------------------
  // Links

  lemma {:induction false} LeadsKet(code: Code, p: nat, k: nat)
    requires LeadsTo(code, p, k)
    ensures KetFrom(code, p) == k
    decreases |code| - p
  {
    if code[p] == OP_ALT {
      LeadsKet(code, p + Get2(code, p + 1), k);
    }
  }

  lemma {:induction false} SkipKet(code: Code, q: nat, g: Grp)
    requires GrpAt(code, q, g)
    ensures KetFrom(code, q + Link(code, q)) == q + LenGrp(g) - 3
  {
    hide GrpAt, KetFrom, LeadsTo, LenAlts, Get2;
    GroupLeads(code, q, g);
    LeadsKet(code, q + Get2(code, q + 1), q + LenGrp(g) - 3);
  }

  /** The states that an opening bracket adds are the starts of its branches, all of them and no others. */
  lemma {:induction false} HeadsSound(code: Code, h: nat, hl: nat, alts: Alts, g: Grp, q: nat, rest: Items, outer: Ctx,
                                      st: State) returns (b: Items)
    requires Header(code, h, hl, alts, g, q) && At(code, q + LenGrp(g), rest, outer)
    requires st in Heads(code, h, hl)
    ensures st.cnt == 0 && InAlts(b, alts) && At(code, st.off, b, In(g, rest, outer))
    decreases alts
  {
    hide Header, At, LenGrp, LenItems, Heads, Get2;
    NextHeader(code, h, hl, alts, g, q);
    HeadsTail(code, h, hl, st, alts.More?);
    if st == State(h + hl, 0) {
      BranchAt(code, h, hl, alts, g, q, rest, outer);
      b := alts.b;
    } else {
      b := HeadsSound(code, h + Get2(code, h + 1), 3, alts.rest, g, q, rest, outer, st);
    }
  }

  lemma HeadsTail(code: Code, h: nat, hl: nat, st: State, more: bool)
    requires h + 2 < |code| && h < h + Get2(code, h + 1) < |code| && (more <==> code[h + Get2(code, h + 1)] == OP_ALT)
    ensures st in Heads(code, h, hl) <==>
      st == State(h + hl, 0) || (more && st in Heads(code, h + Get2(code, h + 1), 3))
  {
  }

  lemma {:induction false} HeadsComplete(code: Code, h: nat, hl: nat, alts: Alts, g: Grp, q: nat, rest: Items,
                                         outer: Ctx, b: Items) returns (off: nat)
    requires Header(code, h, hl, alts, g, q) && At(code, q + LenGrp(g), rest, outer)
    requires InAlts(b, alts)
    ensures State(off, 0) in Heads(code, h, hl) && At(code, off, b, In(g, rest, outer))
    decreases alts
  {
    hide Header, At, LenGrp, LenItems, Heads, Get2;
    NextHeader(code, h, hl, alts, g, q);
    HeadsTail(code, h, hl, State(h + hl, 0), alts.More?);
    if b == alts.b {
      BranchAt(code, h, hl, alts, g, q, rest, outer);
      off := h + hl;
    } else {
      off := HeadsComplete(code, h + Get2(code, h + 1), 3, alts.rest, g, q, rest, outer, b);
      HeadsTail(code, h, hl, State(off, 0), alts.More?);
    }
  }

  // ---------------------------------------------------------------------------------------
  // Places

  /** The position lies inside the bracket of the whole pattern. */
  ghost predicate Rooted(ctx: Ctx, top: Grp) {
    ctx.In? && (ctx == In(top, Nil, Top) || Rooted(ctx.outer, top))
  }

  ghost predicate Placed(code: Code, top: Grp, st: State, items: Items, ctx: Ctx) {
    && At(code, st.off, items, ctx) && Rooted(ctx, top)
    && (if items.Cons? && items.head.Many? then CountOk(items.head.r, st.cnt) else st.cnt == 0)
  }

  lemma PlacedFresh(code: Code, top: Grp, off: nat, items: Items, ctx: Ctx)
    requires At(code, off, items, ctx) && Rooted(ctx, top)
    ensures Placed(code, top, State(off, 0), items, ctx)
  {
    if items.Cons? && items.head.Many? {
      assert ItemAt(code, off, items.head);
    }
  }

  /** Only the closing bracket of the whole pattern is at the end of the code. */
  lemma {:induction false} BeforeEnd(code: Code, top: Grp, p: nat, items: Items, ctx: Ctx)
    requires At(code, p, items, ctx) && Rooted(ctx, top)
    ensures p + LenItems(items) <= |code| - 4
    ensures items.Nil? && ctx != In(top, Nil, Top) ==> p < |code| - 4
    decreases ctx, items
  {
    if items.Cons? {
      BeforeEnd(code, top, p + LenItem(items.head), items.tail, ctx);
    } else {
      var q := Enclosing(code, p, ctx);
      EndBounds(p, q + HeadLen(ctx.g), ctx.g.alts);
      if ctx != In(top, Nil, Top) {
        BeforeEnd(code, top, q + LenGrp(ctx.g), ctx.rest, ctx.outer);
      }
    }
  }

  // ---------------------------------------------------------------------------------------
  // The moves at each kind of place

  function End(code: Code): nat {
    if |code| >= 4 then |code| - 4 else 0
  }

  /** At the end of a branch: ALT leads to the closing bracket, which leads out of the group and, if it
      repeats, back to its start. */
  lemma {:induction false} EpsNil(env: Env, code: Code, top: Grp, p: nat, ctx: Ctx, i: nat) returns (ket: nat, q: nat)
    requires At(code, p, Nil, ctx) && Rooted(ctx, top)
    ensures At(code, ket, Nil, ctx)
    ensures p < |code| && ket < |code| && code[ket] != OP_ALT && (p != ket ==> code[p] == OP_ALT)
    ensures p != ket ==> Eps(env, code, End(code), State(p, 0), i) == [State(ket, 0)]
    ensures ctx == In(top, Nil, Top) ==>
      ket == End(code) && (p == ket ==> Eps(env, code, End(code), State(p, 0), i) == [])
    ensures ctx != In(top, Nil, Top) ==>
      At(code, ket + 3, ctx.rest, ctx.outer) && At(code, q, Cons(Group(Once, ctx.g), ctx.rest), ctx.outer)
    ensures ctx != In(top, Nil, Top) && p == ket ==>
      Eps(env, code, End(code), State(p, 0), i) == [State(ket + 3, 0)] +
        (if ctx.g.ket != Ket then [State(q, 0)] else [])
  {
    hide At, Inside, LenGrp, LeadsTo, KetFrom, GrpAt, Eps;
    q := Enclosing(code, p, ctx);
    ket := q + LenGrp(ctx.g) - 3;
    KetAt(code, p, q, ctx);
    LeadsKet(code, p, ket);
    InsideEnd(code, p, q, ctx.g);
    InsideGrp(code, p, q, ctx.g);
    KetOfGrp(code, ket, q, ctx.g);
    BeforeEnd(code, top, ket, Nil, ctx);
    if ctx == In(top, Nil, Top) {
      AtTop(code, ket + 3);
    } else {
      BracketAgain(code, p, q, ctx);
    }
    EpsKet(env, code, p, q, ket, ctx.g, i);
  }

  lemma {:induction false} BracketAgain(code: Code, p: nat, q: nat, ctx: Ctx)
    requires ctx.In? && Inside(code, p, q, ctx.g) && At(code, q + LenGrp(ctx.g), ctx.rest, ctx.outer)
    ensures At(code, q, Cons(Group(Once, ctx.g), ctx.rest), ctx.outer)
  {
    hide At, GrpAt, EndOf, LenGrp;
    AtGroup(code, q, ctx.g, ctx.rest, ctx.outer);
  }

  lemma {:induction false} EpsKet(env: Env, code: Code, p: nat, q: nat, ket: nat, g: Grp, i: nat)
    requires Inside(code, p, q, g) && ket == q + LenGrp(g) - 3 && EndReads(code, p, q, g, ket)
    requires KetFrom(code, p) == ket && ket <= |code| - 4
    ensures p != ket ==> Eps(env, code, End(code), State(p, 0), i) == [State(ket, 0)]
    ensures p == ket == End(code) ==> Eps(env, code, End(code), State(p, 0), i) == []
    ensures p == ket != End(code) ==>
      Eps(env, code, End(code), State(p, 0), i) == [State(ket + 3, 0)] + (if g.ket != Ket then [State(q, 0)] else [])
  {
    hide GrpAt, EndOf, LenGrp, KetFrom, Decode, Heads;
    InsideGrp(code, p, q, g);
    KetOfGrp(code, ket, q, g);
  }

  lemma {:induction false} DecodeAt(code: Code, p: nat, items: Items, ctx: Ctx)
    requires At(code, p, items, ctx) && items.Cons? && !items.head.Group?
    ensures items.head.Many? ==> Decode(code, p) == Decoded(items.head.x, true, items.head.r, LenItem(items.head))
    ensures items.head.One? ==>
      Decode(code, p).Decoded? && Decode(code, p).x == items.head.x && !Decode(code, p).rep &&
        Decode(code, p).len == LenItem(items.head)
    ensures At(code, p + LenItem(items.head), items.tail, ctx)
    ensures p < |code| && (code[p] < OP_ALT || code[p] > OP_SKIPZERO)
  {
    hide At, Decode;
    AtBounds(code, p, items, ctx);
    Shape(code, p, items, ctx);
    if items.head.Many? {
      ManyBytes(code, p, items, ctx);
      DecodeMany(code, p, items.head.x, items.head.r);
    } else {
      OneBytes(code, p, items, ctx);
      if items.head.x.Set? {
        ClassBytes(code, p, items, ctx);
      }
      AtBounds(code, p + LenItem(items.head), items.tail, ctx);
      DecodeOne(code, p, items.head.x);
    }
  }

  /** At an item: leaving a repeat is the only move without consuming. */
  lemma {:induction false} EpsItem(env: Env, code: Code, st: State, items: Items, ctx: Ctx, i: nat)
    requires At(code, st.off, items, ctx) && items.Cons? && !items.head.Group?
    ensures Eps(env, code, End(code), st, i) ==
      if items.head.Many? && Leaves(items.head.r, st.cnt, Here(env, items.head.x, i)) then [State(st.off + LenItem(items.head), 0)] else []
    ensures Con(env, code, st, i) ==
      if !Here(env, items.head.x, i) then []
      else if items.head.One? || Full(items.head.r, st.cnt) then [State(st.off + LenItem(items.head), 0)]
      else [State(st.off, Counted(items.head.r, st.cnt))]
  {
    hide At, Decode, LenItem, Here;
    DecodeAt(code, st.off, items, ctx);
  }

  /** At a bracket or an optional bracket. */
  lemma {:induction false} EpsGroup(env: Env, code: Code, p: nat, items: Items, ctx: Ctx, i: nat)
    requires At(code, p, items, ctx) && items.Cons? && items.head.Group?
    ensures Con(env, code, State(p, 0), i) == []
    ensures items.head.zero == Once ==>
      GrpAt(code, p, items.head.g) && Eps(env, code, End(code), State(p, 0), i) == Heads(code, p, HeadLen(items.head.g))
    ensures items.head.zero != Once ==> GrpAt(code, p + 1, items.head.g)
    ensures items.head.zero != Once ==>
      Eps(env, code, End(code), State(p, 0), i) ==
        (if items.head.zero == SkipZero then [] else [State(p + 1, 0)]) + [State(p + 1 + LenGrp(items.head.g), 0)]
  {
    hide At, GrpAt, LenGrp, Heads, KetFrom;
    var z, g := items.head.zero, items.head.g;
    if z == Once {
      BraBytes(code, p, g, items.tail, ctx);
    } else {
      ZeroBytes(code, p, items, ctx);
      SkipKet(code, p + 1, g);
    }
  }

  // ---------------------------------------------------------------------------------------
  // Soundness: what is reached can be completed only to a match

  /** A place can be completed to a match that ends at e. */
  ghost predicate Alive(env: Env, items: Items, ctx: Ctx, cnt: nat, i: nat, e: nat) {
    if items.Cons? && items.head.Many? then
      exists j: nat :: ManyFrom(env, items.head.x, items.head.r, cnt, i, j) &&
             Can(env, Point(items.tail, ctx, j), e, {})
    else Can(env, Point(items, ctx, i), e, {})
  }

  lemma {:induction false} AliveFresh(env: Env, items: Items, ctx: Ctx, i: nat, e: nat)
    ensures Alive(env, items, ctx, 0, i, e) <==> Can(env, Point(items, ctx, i), e, {})
  {
    if items.Cons? && items.head.Many? {
      var x, r, p := items.head.x, items.head.r, Point(items, ctx, i);
      if Can(env, p, e, {}) {
        var n: nat :| Run(env, p, e, {}, n);
        var q :| Step(env, p, q) && Run(env, q, e, {}, n - 1);
        assert Can(env, q, e, {});
        ManyFromStart(env, x, r, i, q.i);
        assert q == Point(items.tail, ctx, q.i);
      }
      if Alive(env, items, ctx, 0, i, e) {
        var j: nat :| ManyFrom(env, x, r, 0, i, j) && Can(env, Point(items.tail, ctx, j), e, {});
        ManyFromStart(env, x, r, i, j);
        CanStep(env, p, Point(items.tail, ctx, j), e);
      }
    }
  }

  /** Moves without consuming lead to places from which nothing new can be completed. */
  lemma {:induction false} EpsSound(env: Env, code: Code, top: Grp, st: State, items: Items, ctx: Ctx, st': State,
                                    i: nat) returns (items': Items, ctx': Ctx)
    requires Placed(code, top, st, items, ctx) && st' in Eps(env, code, End(code), st, i) && i <= |env.subject|
    ensures Placed(code, top, st', items', ctx') && st'.cnt == 0
    ensures forall e: nat :: Can(env, Point(items', ctx', i), e, {}) ==> Alive(env, items, ctx, st.cnt, i, e)
  {
    hide At, Eps, Can, Heads;
    if items.Nil? {
      items', ctx' := EpsSoundNil(env, code, top, st, ctx, st', i);
    } else if !items.head.Group? {
      EpsItem(env, code, st, items, ctx, i);
      DecodeAt(code, st.off, items, ctx);
      items', ctx' := items.tail, ctx;
      PlacedFresh(code, top, st'.off, items', ctx');
      LeaveMany(env, items.head.x, items.head.r, st.cnt, i);
    } else {
      items', ctx' := EpsSoundGroup(env, code, top, st, items, ctx, st', i);
    }
  }

  lemma {:induction false} EpsSoundNil(env: Env, code: Code, top: Grp, st: State, ctx: Ctx, st': State, i: nat)
    returns (items': Items, ctx': Ctx)
    requires At(code, st.off, Nil, ctx) && Rooted(ctx, top) && st.cnt == 0 && st' in Eps(env, code, End(code), st, i)
    ensures Placed(code, top, st', items', ctx') && st'.cnt == 0
    ensures forall e: nat :: Can(env, Point(items', ctx', i), e, {}) ==> Can(env, Point(Nil, ctx, i), e, {})
  {
    hide At, Eps, Can;
    var ket, q := EpsNil(env, code, top, st.off, ctx, i);
    if st' == State(ket, 0) {
      items', ctx' := Nil, ctx;
    } else {
      ctx' := ctx.outer;
      items' := if st' == State(ket + 3, 0) then ctx.rest else Cons(Group(Once, ctx.g), ctx.rest);
      forall e: nat | Can(env, Point(items', ctx', i), e, {}) ensures Can(env, Point(Nil, ctx, i), e, {}) {
        CanStep(env, Point(Nil, ctx, i), Point(items', ctx', i), e);
      }
    }
    PlacedFresh(code, top, st'.off, items', ctx');
  }

  lemma {:induction false} EpsSoundGroup(env: Env, code: Code, top: Grp, st: State, items: Items, ctx: Ctx, st': State,
                                         i: nat) returns (items': Items, ctx': Ctx)
    requires At(code, st.off, items, ctx) && Rooted(ctx, top) && st.cnt == 0 && st' in Eps(env, code, End(code), st, i)
    requires items.Cons? && items.head.Group?
    ensures Placed(code, top, st', items', ctx') && st'.cnt == 0
    ensures forall e: nat :: Can(env, Point(items', ctx', i), e, {}) ==> Can(env, Point(items, ctx, i), e, {})
  {
    hide At, Eps, Can, Heads, GrpAt, Header, LenGrp;
    EpsGroup(env, code, st.off, items, ctx, i);
    var z, g, t := items.head.zero, items.head.g, items.tail;
    if z == Once {
      BraBytes(code, st.off, g, t, ctx);
      OpenGroup(code, st.off, g);
      ctx' := In(g, t, ctx);
      items' := HeadsSound(code, st.off, HeadLen(g), g.alts, g, st.off, t, ctx, st');
    } else {
      ZeroBytes(code, st.off, items, ctx);
      ctx' := ctx;
      items' := if st' == State(st.off + 1 + LenGrp(g), 0) then t else Cons(Group(Once, g), t);
    }
    PlacedFresh(code, top, st'.off, items', ctx');
    forall e: nat | Can(env, Point(items', ctx', i), e, {}) ensures Can(env, Point(items, ctx, i), e, {}) {
      CanStep(env, Point(items, ctx, i), Point(items', ctx', i), e);
    }
  }

  /** So do moves that consume the current byte. */
  lemma {:induction false} ConSound(env: Env, code: Code, top: Grp, st: State, items: Items, ctx: Ctx, st': State,
                                    i: nat) returns (items': Items, ctx': Ctx)
    requires Placed(code, top, st, items, ctx) && st' in Con(env, code, st, i)
    ensures i < |env.subject| && Placed(code, top, st', items', ctx')
    ensures forall e: nat :: Alive(env, items', ctx', st'.cnt, i + 1, e) ==> Alive(env, items, ctx, st.cnt, i, e)
  {
    hide At, Con, Can, ManyFrom;
    ctx' := ctx;
    if items.Nil? {
      ConNil(env, code, st, ctx, i);
    } else if items.head.Group? {
      EpsGroup(env, code, st.off, items, ctx, i);
    } else {
      EpsItem(env, code, st, items, ctx, i);
      DecodeAt(code, st.off, items, ctx);
      var x := items.head.x;
      if items.head.Many? {
        ConsumeMany(env, x, items.head.r, st.cnt, i);
      }
      if items.head.One? || Full(items.head.r, st.cnt) {
        items' := items.tail;
        PlacedFresh(code, top, st'.off, items', ctx');
        forall e: nat | Alive(env, items', ctx', 0, i + 1, e) ensures Alive(env, items, ctx, st.cnt, i, e) {
          AliveFresh(env, items', ctx', i + 1, e);
          if items.head.One? {
            CanStep(env, Point(items, ctx, i), Point(items', ctx', i + 1), e);
          } else {
            assert ManyFrom(env, x, items.head.r, st.cnt, i, i + 1);
          }
        }
      } else {
        items' := items;
        forall e: nat | Alive(env, items, ctx, st'.cnt, i + 1, e) ensures Alive(env, items, ctx, st.cnt, i, e) {
          var j: nat :| ManyFrom(env, x, items.head.r, st'.cnt, i + 1, j) && Can(env, Point(items.tail, ctx, j), e, {});
          ManyFromForward(env, x, items.head.r, st'.cnt, i + 1, j);
          assert ManyFrom(env, x, items.head.r, st.cnt, i, j);
        }
      }
    }
  }

  lemma ManyFromForward(env: Env, x: Single, r: Rep, cnt: nat, i: nat, j: nat)
    requires ManyFrom(env, x, r, cnt, i, j)
    ensures i <= j
  {
  }

  lemma {:induction false} ConNil(env: Env, code: Code, st: State, ctx: Ctx, i: nat)
    requires At(code, st.off, Nil, ctx)
    ensures Con(env, code, st, i) == []
  {
    hide At;
    AtBounds(code, st.off, Nil, ctx);
    Shape(code, st.off, Nil, ctx);
  }

  /** The point at which a match of the whole pattern starts. */
  function Origin(top: Grp, start: nat): Point {
    Point(Cons(Group(Once, top), Nil), Top, start)
  }

  /** A state that is reached has a place, and what can be completed from there is a match from the start. */
  ghost predicate Grounded(env: Env, code: Code, top: Grp, start: nat, st: State, i: nat, items: Items, ctx: Ctx) {
    && i <= |env.subject| && Placed(code, top, st, items, ctx)
    && forall e: nat :: Alive(env, items, ctx, st.cnt, i, e) ==> Can(env, Origin(top, start), e, {})
  }

  /** The pattern is a plain bracket that is not repeated, followed by END. */
  ghost predicate Whole(code: Code, top: Grp) {
    PatternAt(code, top) && top.cap == 0 && top.ket == Ket
  }

  lemma {:induction false} SeedGrounded(env: Env, code: Code, top: Grp, start: nat, st: State, i: nat)
    returns (items: Items, ctx: Ctx)
    requires Whole(code, top) && start <= |env.subject| && Seed(env, code, End(code), start, st, i)
    ensures Grounded(env, code, top, start, st, i, items, ctx)
    decreases i, 0, 0
  {
    hide At, Can, Eps, Con, Heads, Alive;
    if i == start {
      items, ctx := FirstGrounded(env, code, top, start, st);
    } else {
      assert Fed(env, code, End(code), start, st, i - 1);
      var s0 :| Reach(env, code, End(code), start, s0, i - 1) && st in Con(env, code, s0, i - 1);
      var items0, ctx0 := ReachGrounded(env, code, top, start, s0, i - 1);
      items, ctx := ConSound(env, code, top, s0, items0, ctx0, st, i - 1);
    }
  }

  lemma {:induction false} FirstGrounded(env: Env, code: Code, top: Grp, start: nat, st: State)
    returns (items: Items, ctx: Ctx)
    requires Whole(code, top) && start <= |env.subject| && st in Heads(code, 0, 3)
    ensures Grounded(env, code, top, start, st, start, items, ctx)
  {
    hide Can, Heads, GrpAt, Header, Alive;
    OpenGroup(code, 0, top);
    TopAt(code);
    items := HeadsSound(code, 0, 3, top.alts, top, 0, Nil, Top, st);
    ctx := In(top, Nil, Top);
    PlacedFresh(code, top, st.off, items, ctx);
    forall e: nat | Alive(env, items, ctx, 0, start, e) ensures Can(env, Origin(top, start), e, {}) {
      AliveFresh(env, items, ctx, start, e);
      CanStep(env, Origin(top, start), Point(items, ctx, start), e);
    }
  }

  lemma TopAt(code: Code)
    requires |code| > 0 && code[|code| - 1] == OP_END
    ensures At(code, |code| - 1, Nil, Top)
  {
  }

  lemma {:induction false} ReachInGrounded(env: Env, code: Code, top: Grp, start: nat, st: State, i: nat, n: nat)
    returns (items: Items, ctx: Ctx)
    requires Whole(code, top) && start <= |env.subject| && ReachIn(env, code, End(code), start, st, i, n)
    ensures Grounded(env, code, top, start, st, i, items, ctx)
    decreases i, 1, n
  {
    hide At, Can, Eps, Con, Heads, Alive;
    if Seed(env, code, End(code), start, st, i) {
      items, ctx := SeedGrounded(env, code, top, start, st, i);
    } else {
      var s0 :| ReachIn(env, code, End(code), start, s0, i, n - 1) && st in Eps(env, code, End(code), s0, i);
      var items0, ctx0 := ReachInGrounded(env, code, top, start, s0, i, n - 1);
      items, ctx := EpsSound(env, code, top, s0, items0, ctx0, st, i);
      forall e: nat | Alive(env, items, ctx, 0, i, e) ensures Can(env, Origin(top, start), e, {}) {
        AliveFresh(env, items, ctx, i, e);
      }
    }
  }

  lemma {:induction false} ReachGrounded(env: Env, code: Code, top: Grp, start: nat, st: State, i: nat)
    returns (items: Items, ctx: Ctx)
    requires Whole(code, top) && start <= |env.subject| && Reach(env, code, End(code), start, st, i)
    ensures Grounded(env, code, top, start, st, i, items, ctx)
    decreases i, 2, 0
  {
    var n: nat :| ReachIn(env, code, End(code), start, st, i, n);
    items, ctx := ReachInGrounded(env, code, top, start, st, i, n);
  }

  // ---------------------------------------------------------------------------------------
  // Completeness: every match is found

  /** The states between a repeated item and what follows it. */
  lemma {:induction false} ManyReach(env: Env, code: Code, start: nat, st: State, items: Items, ctx: Ctx, i: nat,
                                     j: nat)
    requires At(code, st.off, items, ctx) && items.Cons? && items.head.Many? && CountOk(items.head.r, st.cnt)
    requires start <= i
    requires Reach(env, code, End(code), start, st, i) && ManyFrom(env, items.head.x, items.head.r, st.cnt, i, j)
    ensures Reach(env, code, End(code), start, State(st.off + LenItem(items.head), 0), j)
    decreases j - i
  {
    hide At, Reach, Eps, Con, LenItem;
    var x, r, next := items.head.x, items.head.r, State(st.off + LenItem(items.head), 0);
    EpsItem(env, code, st, items, ctx, i);
    if i == j {
      LeaveMany(env, x, r, st.cnt, i);
      ReachEps(env, code, End(code), start, st, next, i);
    } else {
      assert Here(env, x, i);
      ConsumeMany(env, x, r, st.cnt, i);
      if Full(r, st.cnt) {
        ReachCon(env, code, End(code), start, st, next, i);
      } else {
        var st' := State(st.off, Counted(r, st.cnt));
        ReachCon(env, code, End(code), start, st, st', i);
        ManyReach(env, code, start, st', items, ctx, i + 1, j);
      }
    }
  }

  /** One move of the machine is made by moves between states. */
  lemma {:induction false} StepReach(env: Env, code: Code, top: Grp, start: nat, off: nat, p: Point, q: Point)
    returns (off': nat)
    requires At(code, off, p.items, p.ctx) && Rooted(p.ctx, top) && start <= p.i
    requires Reach(env, code, End(code), start, State(off, 0), p.i) && Step(env, p, q)
    requires p.items.Nil? ==> p.ctx != In(top, Nil, Top)
    ensures At(code, off', q.items, q.ctx) && Rooted(q.ctx, top) && start <= q.i
    ensures Reach(env, code, End(code), start, State(off', 0), q.i)
  {
    hide At, Reach, Eps, Con, LenItem, Heads;
    if p.items.Nil? {
      off' := StepNil(env, code, top, start, off, p, q);
    } else if p.items.head.Group? {
      off' := StepGroup(env, code, top, start, off, p, q);
    } else {
      off' := off + LenItem(p.items.head);
      DecodeAt(code, off, p.items, p.ctx);
      if p.items.head.One? {
        EpsItem(env, code, State(off, 0), p.items, p.ctx, p.i);
        ReachCon(env, code, End(code), start, State(off, 0), State(off', 0), p.i);
      } else {
        ManyFromStart(env, p.items.head.x, p.items.head.r, p.i, q.i);
        PlacedFresh(code, top, off, p.items, p.ctx);
        ManyReach(env, code, start, State(off, 0), p.items, p.ctx, p.i, q.i);
      }
    }
  }

  /** The closing bracket of the group at whose branch end we are is reached too. */
  lemma {:induction false} KetReached(env: Env, code: Code, top: Grp, start: nat, off: nat, ctx: Ctx, i: nat)
    returns (ket: nat)
    requires At(code, off, Nil, ctx) && Rooted(ctx, top) && Reach(env, code, End(code), start, State(off, 0), i)
    ensures At(code, ket, Nil, ctx) && Reach(env, code, End(code), start, State(ket, 0), i)
    ensures ctx == In(top, Nil, Top) ==> ket == End(code)
    ensures ctx != In(top, Nil, Top) ==>
      At(code, ket + 3, ctx.rest, ctx.outer) && State(ket + 3, 0) in Eps(env, code, End(code), State(ket, 0), i)
    ensures ctx != In(top, Nil, Top) && ctx.g.ket != Ket ==>
      exists q: nat :: At(code, q, Cons(Group(Once, ctx.g), ctx.rest), ctx.outer) &&
             State(q, 0) in Eps(env, code, End(code), State(ket, 0), i)
  {
    hide At, Reach, Eps;
    var k, q := EpsNil(env, code, top, off, ctx, i);
    if off != k {
      ReachEps(env, code, End(code), start, State(off, 0), State(k, 0), i);
    }
    var k', q' := EpsNil(env, code, top, k, ctx, i);
    ket := k';
  }

  lemma {:induction false} StepNil(env: Env, code: Code, top: Grp, start: nat, off: nat, p: Point, q: Point)
    returns (off': nat)
    requires At(code, off, Nil, p.ctx) && Rooted(p.ctx, top) && p.ctx != In(top, Nil, Top) && p.items.Nil?
    requires Reach(env, code, End(code), start, State(off, 0), p.i) && Step(env, p, q)
    ensures At(code, off', q.items, q.ctx) && Rooted(q.ctx, top)
    ensures Reach(env, code, End(code), start, State(off', 0), q.i)
  {
    hide At, Reach, Eps;
    var ket := KetReached(env, code, top, start, off, p.ctx, p.i);
    if q.items == p.ctx.rest {
      off' := ket + 3;
    } else {
      off' :| At(code, off', Cons(Group(Once, p.ctx.g), p.ctx.rest), p.ctx.outer) &&
        State(off', 0) in Eps(env, code, End(code), State(ket, 0), p.i);
    }
    ReachEps(env, code, End(code), start, State(ket, 0), State(off', 0), p.i);
  }

  lemma {:induction false} StepGroup(env: Env, code: Code, top: Grp, start: nat, off: nat, p: Point, q: Point)
    returns (off': nat)
    requires At(code, off, p.items, p.ctx) && Rooted(p.ctx, top) && p.items.Cons? && p.items.head.Group?
    requires Reach(env, code, End(code), start, State(off, 0), p.i) && Step(env, p, q)
    ensures At(code, off', q.items, q.ctx) && Rooted(q.ctx, top)
    ensures Reach(env, code, End(code), start, State(off', 0), q.i)
  {
    hide At, Reach, Eps, Heads, Header, GrpAt, LenGrp;
    var z, g, t := p.items.head.zero, p.items.head.g, p.items.tail;
    EpsGroup(env, code, off, p.items, p.ctx, p.i);
    if z == Once {
      BraBytes(code, off, g, t, p.ctx);
      OpenGroup(code, off, g);
      off' := HeadsComplete(code, off, HeadLen(g), g.alts, g, off, t, p.ctx, q.items);
    } else {
      ZeroBytes(code, off, p.items, p.ctx);
      off' := if q.items == t then off + 1 + LenGrp(g) else off + 1;
    }
    ReachEps(env, code, End(code), start, State(off, 0), State(off', 0), p.i);
  }

  /** Following a run of the machine from a state that is reached. */
  lemma {:induction false} RunReach(env: Env, code: Code, top: Grp, start: nat, off: nat, p: Point, e: nat, n: nat)
    requires Whole(code, top) && At(code, off, p.items, p.ctx) && Rooted(p.ctx, top) && start <= p.i
    requires Reach(env, code, End(code), start, State(off, 0), p.i) && Run(env, p, e, {}, n)
    ensures Reach(env, code, End(code), start, State(End(code), 0), e) && Accepts(env, e)
    decreases n
  {
    hide At, Reach, Step, PatternAt;
    var q :| Step(env, p, q) && Run(env, q, e, {}, n - 1);
    if p.items.Nil? && p.ctx == In(top, Nil, Top) {
      LastStep(env, top, p.i, q, e, n - 1);
      var ket := KetReached(env, code, top, start, off, p.ctx, p.i);
    } else {
      var off' := StepReach(env, code, top, start, off, p, q);
      RunReach(env, code, top, start, off', q, e, n - 1);
    }
  }

  lemma {:induction false} LastStep(env: Env, top: Grp, i: nat, q: Point, e: nat, n: nat)
    requires top.ket == Ket && Step(env, Point(Nil, In(top, Nil, Top), i), q) && Run(env, q, e, {}, n)
    ensures i == e && Accepts(env, e)
  {
    assert q == Point(Nil, Top, i);
  }

  /** The closing bracket of the pattern is reached at e exactly when the pattern matches from the start to
      e. */
  lemma {:induction false} ReachExact(env: Env, code: Code, top: Grp, start: nat, e: nat)
    requires Whole(code, top) && start <= |env.subject|
    ensures Reach(env, code, End(code), start, State(End(code), 0), e) && Accepts(env, e)
       <==> MatchItems(env, Cons(Group(Once, top), Nil), start, e) && Accepts(env, e)
  {
    hide Reach, Can, MatchItems, PatternAt;
    MachineExact(env, Cons(Group(Once, top), Nil), start, e);
    if Reach(env, code, End(code), start, State(End(code), 0), e) && Accepts(env, e) {
      EndSound(env, code, top, start, e);
    }
    if Can(env, Origin(top, start), e, {}) {
      EndComplete(env, code, top, start, e);
    }
  }

  lemma {:induction false} EndSound(env: Env, code: Code, top: Grp, start: nat, e: nat)
    requires Whole(code, top) && start <= |env.subject| && Accepts(env, e)
    requires Reach(env, code, End(code), start, State(End(code), 0), e)
    ensures Can(env, Origin(top, start), e, {})
  {
    hide Reach, At, GrpAt, Alive, Can;
    var items, ctx := ReachGrounded(env, code, top, start, State(End(code), 0), e);
    AtTheEnd(code, top, items, ctx);
    AliveFresh(env, Nil, ctx, e, e);
    CanEnd(env, e);
    CanStep(env, Point(Nil, ctx, e), Point(Nil, Top, e), e);
  }

  lemma CanEnd(env: Env, e: nat)
    requires Accepts(env, e)
    ensures Can(env, Point(Nil, Top, e), e, {})
  {
    assert Run(env, Point(Nil, Top, e), e, {}, 0);
  }

  lemma {:induction false} AtTheEnd(code: Code, top: Grp, items: Items, ctx: Ctx)
    requires |code| >= 4 && At(code, |code| - 4, items, ctx) && Rooted(ctx, top)
    ensures items == Nil && ctx == In(top, Nil, Top)
  {
    hide At;
    BeforeEnd(code, top, |code| - 4, items, ctx);
  }

  lemma {:induction false} EndComplete(env: Env, code: Code, top: Grp, start: nat, e: nat)
    requires Whole(code, top) && start <= |env.subject| && Can(env, Origin(top, start), e, {})
    ensures Reach(env, code, End(code), start, State(End(code), 0), e) && Accepts(env, e)
  {
    hide Reach, At, Heads, Header, GrpAt, Step;
    var n: nat :| Run(env, Origin(top, start), e, {}, n);
    var q :| Step(env, Origin(top, start), q) && Run(env, q, e, {}, n - 1);
    StepOrigin(env, top, start, q);
    OpenGroup(code, 0, top);
    TopAt(code);
    var off := HeadsComplete(code, 0, 3, top.alts, top, 0, Nil, Top, q.items);
    ReachSeed(env, code, End(code), start, State(off, 0), start);
    RunReach(env, code, top, start, off, q, e, n - 1);
  }

  lemma StepOrigin(env: Env, top: Grp, start: nat, q: Point)
    requires Step(env, Origin(top, start), q)
    ensures InAlts(q.items, top.alts) && q.ctx == In(top, Nil, Top) && q.i == start
  {
  }
}
