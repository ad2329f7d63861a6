/** The function match() on the bytes of the code vector: an opcode loop with recursive calls that
    keeps the captures in one vector, which it changes in place and restores when it fails.
    It computes the functional search of module Search. */
module Matcher {
  import opened Tree
  import opened Machine
  import opened Search
  import opened Layout

  /** MATCH_MATCH, MATCH_NOMATCH and PCRE_ERROR_MATCHLIMIT; GO is used between the parts of the opcode loop. */
  datatype Rc = MATCH | NOMATCH | MATCHLIMIT | GO

  /** The local variables of match() that opcodes change. */
  datatype Frame = Frame(eptr: nat, ecode: nat, offset_top: nat, eptrb: Chain)

  /** What a repeat opcode says; max < 0 means no limit. */
  datatype Limits = Limits(min: nat, max: int, minimize: bool, possessive: bool)

  ghost predicate LimitsOf(l: Limits, r: Rep) {
    && l.min == Min(r)
    && (forall k: nat :: AtMost(r, k) <==> (l.max < 0 || k <= l.max))
    && (l.min == l.max <==> Fixed(r))
    && (!Fixed(r) ==> (l.minimize <==> ModeOf(r) == Lazy) && (l.possessive <==> ModeOf(r) == Poss))
  }

  /** The repeat opcodes of literals, negated literals and types, k-th in their block; n is the 2-byte count
      of those that have one. */
  function PlainLimits(k: nat, n: nat): Limits {
    if k == 0 then Limits(0, -1, false, false)
    else if k == 1 then Limits(0, -1, true, false)
    else if k == 2 then Limits(1, -1, false, false)
    else if k == 3 then Limits(1, -1, true, false)
    else if k == 4 then Limits(0, 1, false, false)
    else if k == 5 then Limits(0, 1, true, false)
    else if k == 6 then Limits(0, n, false, false)
    else if k == 7 then Limits(0, n, true, false)
    else if k == 8 then Limits(n, n, false, false)
    else if k == 9 then Limits(0, -1, false, true)
    else if k == 10 then Limits(1, -1, false, true)
    else if k == 11 then Limits(0, 1, false, true)
    else Limits(0, n, false, true)
  }

  /** The repeat opcodes of classes. */
  function ClassLimits(k: nat, lo: nat, hi: nat): Limits {
    if k < 6 then PlainLimits(k, 0)
    else Limits(lo, if hi == 0 then -1 else hi, k == 7, false)
  }

  lemma PlainLimitsRight(x: Single, r: Rep, n: nat)
    requires WfRep(x, r) && !x.Set? && (r.Upto? || r.Exact? ==> n == r.n)
    ensures LimitsOf(PlainLimits(RepIndex(r), n), r)
  {
  }

  lemma ClassLimitsRight(x: Single, r: Rep, lo: nat, hi: nat)
    requires WfRep(x, r) && x.Set? && (r.Range? ==> lo == r.lo && hi == r.hi)
    ensures LimitsOf(ClassLimits(RepIndex(r), lo, hi), r)
  {
  }

  /** What can be observed of a match_data block: the calls left, the recorded end and the vector. */
  datatype Snap = Snap(left: int, end: nat, top: nat, vec: seq<int>, over: bool)

  /** How the imperative result agrees with the functional one. */
  ghost predicate Outcome(res: Res, rc: Rc, after: Snap) {
    match res
    case Matched(e, caps, n) => rc == MATCH && after == Snap(n, e, caps.top, caps.vec, caps.over)
    case Failed(n, vec, over) => rc == NOMATCH && after.left == n && after.vec == vec && after.over == over
    case Limit => rc == MATCHLIMIT
  }

  /** Where the code position is in the tree. */
  datatype View = View(items: Items, ctx: Ctx)

  /** The captures as the functional search sees them. */
  function Held(s: Snap, top: nat): Caps {
    Caps(s.vec, top, s.over)
  }

  ghost function Continue(env: Env, s: Snap, f: Frame, w: View): Res
    requires s.left >= 0
  {
    Go(env, s.left, Point(w.items, w.ctx, f.eptr), f.eptrb, Held(s, f.offset_top))
  }

  function Ahead(w: View): nat {
    Length(w.items) + Weight(w.ctx)
  }

  /** One turn of the opcode loop: it either finishes with the result of the search, or leaves the
      search to be continued with the same result from a place nearer to the end. */
  ghost predicate Turn(env: Env, f: Frame, w: View, before: Snap, rc: Rc, f': Frame, w': View, after: Snap)
    requires before.left >= 0
  {
    if rc == GO then
      && 0 <= after.left <= before.left
      && Continue(env, before, f, w) == Continue(env, after, f', w')
      && (after.left < before.left || Ahead(w') < Ahead(w) || (Ahead(w') == Ahead(w) && f.ecode < f'.ecode))
    else Outcome(Continue(env, before, f, w), rc, after)
  }

  /** A mark for each open S group is what the closing brackets rely on. */
  lemma {:induction false} DeepPush(s: bool, chain: Chain, ctx: Ctx, i: nat)
    requires Deep(chain, ctx)
    ensures Deep(Push(s, chain, i), ctx)
  {
    if s {
      DeeperOk(chain, ctx, i);
    }
  }

  lemma DeepEnter(g: Grp, t: Items, ctx: Ctx, chain: Chain, i: nat)
    requires Deep(chain, ctx)
    ensures Deep(Push(g.s, chain, i), In(g, t, ctx))
  {
  }

  lemma GoBracket(env: Env, n: nat, g: Grp, t: Items, ctx: Ctx, i: nat, chain: Chain, caps: Caps)
    ensures Go(env, n, Point(Cons(Group(Once, g), t), ctx, i), chain, caps)
         == PutBack(env, caps, g.cap, Try(env, n, g.alts, g, t, ctx, i, Push(g.s, chain, i), OpenCap(env, caps, g.cap, i)))
  {
  }

  lemma GoKet(env: Env, n: nat, ctx: Ctx, i: nat, chain: Chain, caps: Caps)
    requires ctx.In?
    ensures var leave, again := Point(ctx.rest, ctx.outer, i), Point(Cons(Group(Once, ctx.g), ctx.rest), ctx.outer, i);
      var chain' := if ctx.g.s then Pop(chain) else chain;
      var caps' := CloseCap(env, caps, ctx.g.cap, i);
      Go(env, n, Point(Nil, ctx, i), chain, caps) ==
      if ctx.g.ket == Ket || (ctx.g.s && MarkedHere(chain, i)) then Go(env, n, leave, chain', caps')
      else if ctx.g.ket == KetRmax then Either(env, n, again, Push(ctx.g.s, chain', i), leave, chain', caps')
      else Either(env, n, leave, chain', again, Push(ctx.g.s, chain', i), caps')
  {
  }

  /** The slots of a bracket for which there is room. */
  lemma Room(env: Env, caps: Caps, cap: nat)
    requires ValidEnv(env) && |caps.vec| == env.oend && 0 < cap
    ensures HasSlots(env, caps, cap) <==> 2 * cap < env.omax
  {
  }

  /** A bracket without slots in the vector is treated like one that does not capture. */
  lemma NoRoom(env: Env, caps: Caps, cap: nat, i: nat, r: Res)
    requires !HasSlots(env, caps, cap) && (r.Failed? ==> |r.vec| == |caps.vec|)
    ensures OpenCap(env, caps, cap, i) == caps && PutBack(env, caps, cap, r) == r && CloseCap(env, caps, cap, i) == caps.(over := caps.over || cap > 0)
  {
  }

  lemma NoNumber(env: Env, caps: Caps)
    ensures !HasSlots(env, caps, 0)
  {
  }

  lemma OpenSlot(env: Env, caps: Caps, number: nat, eptr: nat)
    requires ValidEnv(env) && |caps.vec| == env.oend && 0 < number && 2 * number < env.omax
    ensures OpenCap(env, caps, number, eptr) == caps.(vec := caps.vec[env.oend - number := eptr])
  {
  }

  /** Restoring the three slots after a failure is what the search does when a bracket fails. */
  lemma BackOutcome(env: Env, caps: Caps, number: nat, r: Res, rc: Rc, before: Snap, after: Snap)
    requires ValidEnv(env) && |caps.vec| == env.oend && 0 < number && 2 * number < env.omax && Outcome(r, rc, before)
    requires r.Failed? ==> |r.vec| == |caps.vec|
    requires rc != NOMATCH ==> after == before
    requires rc == NOMATCH ==> after == before.(vec := after.vec) && |before.vec| == env.oend
    requires rc == NOMATCH ==>
      after.vec == before.vec[2 * number := caps.vec[2 * number]][2 * number + 1 := caps.vec[2 * number + 1]][env.oend - number := caps.vec[env.oend - number]]
    ensures Outcome(PutBack(env, caps, number, r), rc, after)
  {
  }

  ghost function Either(env: Env, n: nat, p1: Point, chain1: Chain, p2: Point, chain2: Chain, caps: Caps): Res {
    var r := Call(env, n, p1, chain1, caps);
    if r.Failed? then Call(env, r.left, p2, chain2, Resume(caps, r)) else r
  }

  /** What the result of one branch means for the branches together. */
  lemma TryOutcome(env: Env, alts: Alts, g: Grp, t: Items, ctx: Ctx, i: nat, chain: Chain, top: nat, rc: Rc,
                   before: Snap, after: Snap)
    requires before.left >= 0
    requires Outcome(Call(env, before.left, Point(alts.b, In(g, t, ctx), i), chain, Held(before, top)), rc, after)
    ensures rc != GO
    ensures rc != NOMATCH || alts.Last? ==>
      Outcome(Try(env, before.left, alts, g, t, ctx, i, chain, Held(before, top)), rc, after)
    ensures rc == NOMATCH ==> 0 <= after.left < before.left
    ensures rc == NOMATCH && alts.More? ==>
      Try(env, before.left, alts, g, t, ctx, i, chain, Held(before, top)) ==
        Try(env, after.left, alts.rest, g, t, ctx, i, chain, Held(after, top))
  {
  }

  lemma DownOutcome(env: Env, t: Items, ctx: Ctx, lo: nat, j: nat, chain: Chain, top: nat, rc: Rc, before: Snap,
                    after: Snap)
    requires before.left >= 0 && lo <= j
    requires Outcome(Call(env, before.left, Point(t, ctx, j), chain, Held(before, top)), rc, after)
    ensures rc != GO
    ensures rc != NOMATCH || j == lo ==>
      Outcome(Down(env, before.left, t, ctx, lo, j, chain, Held(before, top)), rc, after)
    ensures rc == NOMATCH ==> 0 <= after.left < before.left
    ensures rc == NOMATCH && j > lo ==>
      Down(env, before.left, t, ctx, lo, j, chain, Held(before, top)) ==
        Down(env, after.left, t, ctx, lo, j - 1, chain, Held(after, top))
  {
  }

  lemma UpOutcome(env: Env, x: Single, r: Rep, t: Items, ctx: Ctx, i: nat, j: nat, chain: Chain, top: nat, rc: Rc,
                  before: Snap, after: Snap)
    requires before.left >= 0 && i <= j <= |env.subject|
    requires Outcome(Call(env, before.left, Point(t, ctx, j), chain, Held(before, top)), rc, after)
    ensures rc != GO
    ensures var more := AtMost(r, j + 1 - i) && j < |env.subject| && Test(env, x, env.subject[j]);
      && (rc != NOMATCH || !more ==> Outcome(Up(env, before.left, x, r, t, ctx, i, j, chain, Held(before, top)), rc, after))
      && (rc == NOMATCH && more ==> after.left >= 0)
      && (rc == NOMATCH && more ==>
            Up(env, before.left, x, r, t, ctx, i, j, chain, Held(before, top)) ==
              Up(env, after.left, x, r, t, ctx, i, j + 1, chain, Held(after, top)))
    ensures rc == NOMATCH ==> 0 <= after.left < before.left
  {
  }

  class MatchData {
    const code: Code
    const env: Env
    const offset_vector: array<int>
    const match_limit: nat
    var match_call_count: nat
    var end_match_ptr: nat
    var end_offset_top: nat
    var offset_overflow: bool
    ghost var captures: seq<int>  // the part of offset_vector that is used

    constructor (code: Code, env: Env, offset_vector: array<int>, match_limit: nat, offset_overflow: bool)
      requires env.oend <= offset_vector.Length
      ensures this.code == code && this.env == env && this.offset_vector == offset_vector
      ensures this.match_limit == match_limit && match_call_count == 0 && captures == offset_vector[..env.oend]
      ensures this.offset_overflow == offset_overflow
    {
      this.code, this.env, this.offset_vector, this.match_limit := code, env, offset_vector, match_limit;
      match_call_count, end_match_ptr, end_offset_top, this.offset_overflow := 0, 0, 0, offset_overflow;
      captures := offset_vector[..env.oend];
    }

    ghost predicate Valid()
      reads this, offset_vector
    {
      && ValidEnv(env) && env.oend <= offset_vector.Length && match_call_count <= match_limit
      && captures == offset_vector[..env.oend]
    }

    ghost function Now(): Snap
      reads this
    {
      Snap(match_limit - match_call_count, end_match_ptr, end_offset_top, captures, offset_overflow)
    }

    /** The local variables and the bytes agree with the tree. */
    ghost predicate Sync(f: Frame, w: View)
      reads this, offset_vector
    {
      && Valid()
      && At(code, f.ecode, w.items, w.ctx) && f.eptr <= |env.subject|
      && Deep(f.eptrb, w.ctx)
    }

    /** One call of match(); cbegroup is the flag that the group may match an empty string. */
    method Match(f: Frame, cbegroup: bool, ghost w: View) returns (rc: Rc)
      requires Sync(f.(eptrb := Push(cbegroup, f.eptrb, f.eptr)), w)
      modifies this, offset_vector
      ensures Valid()
      ensures Outcome(Call(env, old(Now().left), Point(w.items, w.ctx, f.eptr), Push(cbegroup, f.eptrb, f.eptr), Held(old(Now()), f.offset_top)), rc, Now())
      decreases match_limit - match_call_count, 0
    {
      if match_call_count >= match_limit {
        return MATCHLIMIT;
      }
      match_call_count := match_call_count + 1;
      rc := Opcodes(f.(eptrb := Push(cbegroup, f.eptrb, f.eptr)), w);
    }

    /** The loop over opcodes. */
    method Opcodes(f0: Frame, ghost w0: View) returns (rc: Rc)
      requires Sync(f0, w0)
      modifies this, offset_vector
      ensures Valid() && Outcome(Continue(env, old(Now()), f0, w0), rc, Now())
      decreases match_limit - match_call_count, 5
    {
      hide At, Go, Deep;
      var f := f0;
      ghost var w, first := w0, Now();
      rc := GO;
      while rc == GO
        invariant Valid() && (rc == GO ==> match_call_count >= old(match_call_count))
        invariant rc == GO ==> Sync(f, w) && Continue(env, first, f0, w0) == Continue(env, Now(), f, w)
        invariant rc != GO ==> Outcome(Continue(env, first, f0, w0), rc, Now())
        decreases rc == GO, match_limit - match_call_count, Ahead(w), |code| - f.ecode
      {
        AtBounds(code, f.ecode, w.items, w.ctx);
        rc, f, w := Opcode(f, w);
        if rc == GO {
          AtBounds(code, f.ecode, w.items, w.ctx);
        }
      }
    }

    /** One opcode. */
    method Opcode(f: Frame, ghost w: View) returns (rc: Rc, f': Frame, ghost w': View)
      requires Sync(f, w) && f.ecode < |code|
      modifies this, offset_vector
      ensures Valid() && (rc == GO ==> Sync(f', w')) && Turn(env, f, w, old(Now()), rc, f', w', Now())
      decreases match_limit - match_call_count, 4
    {
      hide At, Go, Deep;
      f', w' := f, w;
      Shape(code, f.ecode, w.items, w.ctx);
      var op := code[f.ecode];
      if op == OP_END {
        rc := End(f, w);
      } else if op == OP_ALT {
        f' := Alternative(f, w);
        rc := GO;
      } else if op == OP_KET || op == OP_KETRMAX || op == OP_KETRMIN {
        rc, f', w' := Closing(f, w);
      } else if op == OP_BRA || op == OP_CBRA || op == OP_SBRA || op == OP_SCBRA {
        rc := Bracket(f, w);
      } else if op == OP_BRAZERO || op == OP_BRAMINZERO || op == OP_SKIPZERO {
        rc, f', w' := Optional(f, w);
      } else if op < OP_STAR {
        rc, f', w' := Literal(f, w);
      } else if op < OP_CRSTAR {
        rc, f', w' := Repeat(f, w);
      } else {
        rc, f', w' := Class(f, w);
      }
    }

    /** The end of the pattern. */
    method End(f: Frame, ghost w: View) returns (rc: Rc)
      requires Sync(f, w) && w.items.Nil? && w.ctx.Top?
      modifies this
      ensures Valid() && Outcome(Continue(env, old(Now()), f, w), rc, Now()) && rc != GO
    {
      if env.notempty && f.eptr == env.mstart {
        return NOMATCH;
      }
      end_match_ptr := f.eptr;
      end_offset_top := f.offset_top;
      rc := MATCH;
    }

    /** The end of a branch that is not the last: go to the closing bracket. */
    method Alternative(f: Frame, ghost w: View) returns (f': Frame)
      requires Sync(f, w) && f.ecode < |code| && code[f.ecode] == OP_ALT && w.items.Nil? && w.ctx.In?
      ensures Sync(f', w) && f' == f.(ecode := f'.ecode) && f.ecode < f'.ecode
    {
      hide At, Inside, LeadsTo, LenAlts, Deep;
      ghost var q := Enclosing(code, f.ecode, w.ctx);
      KetAt(code, f.ecode, q, w.ctx);
      var p := FollowLinks(code, f.ecode, q + LenGrp(w.ctx.g) - 3);
      f' := f.(ecode := p);
    }

    /** From the start of a group along its alternatives to its closing bracket. */
    method SkipGroup(q: nat, ghost g: Grp) returns (ket: nat)
      requires GrpAt(code, q, g)
      ensures ket == q + LenGrp(g) - 3 && ket < |code|
    {
      hide GrpAt, LeadsTo, Get2, LenAlts;
      GroupLeads(code, q, g);
      ket := FollowLinks(code, q + Get2(code, q + 1), q + LenGrp(g) - 3);
    }

    /** BRAZERO, BRAMINZERO and SKIPZERO in front of a group. */
    method Optional(f: Frame, ghost w: View) returns (rc: Rc, f': Frame, ghost w': View)
      requires Sync(f, w) && f.ecode < |code| && w.items.Cons? && w.items.head.Group? && w.items.head.zero != Once
      modifies this, offset_vector
      ensures Valid() && (rc == GO ==> Sync(f', w')) && Turn(env, f, w, old(Now()), rc, f', w', Now())
      decreases match_limit - match_call_count, 3
    {
      hide At, GrpAt, LenGrp, Deep;
      ghost var g, t := w.items.head.g, w.items.tail;
      ghost var enter, skip := w.(items := Cons(Group(Once, g), t)), w.(items := t);
      var next := f.ecode + 1;
      ZeroBytes(code, f.ecode, w.items, w.ctx);
      var ket := SkipGroup(next, g);
      var inside, after := f.(ecode := next), f.(ecode := ket + 3);
      f', w' := f, w;
      if code[f.ecode] == OP_SKIPZERO {
        rc, f', w' := GO, after, skip;
      } else if code[f.ecode] == OP_BRAZERO {
        rc := Match(inside, false, enter);
        if rc == NOMATCH {
          rc, f', w' := GO, after, skip;
        }
      } else {
        rc := Match(after, false, skip);
        if rc == NOMATCH {
          rc, f', w' := GO, inside, enter;
        }
      }
    }

    /** A closing bracket: take off the mark of an S group, complete the capture, then leave the
        group or start it again, in the order that the opcode says. */
    method Closing(f: Frame, ghost w: View) returns (rc: Rc, f': Frame, ghost w': View)
      requires Sync(f, w) && f.ecode < |code| && OP_KET <= code[f.ecode] <= OP_KETRMIN && w.items.Nil? && w.ctx.In?
      modifies this, offset_vector
      ensures Valid() && (rc == GO ==> Sync(f', w')) && Turn(env, f, w, old(Now()), rc, f', w', Now())
      decreases match_limit - match_call_count, 3
    {
      hide At, Call, Go, Either, Get2, CloseCap;
      ghost var g, outer, caps := w.ctx.g, w.ctx.outer, Held(Now(), f.offset_top);
      KetBytes(code, f.ecode, w.ctx);
      var prev := f.ecode - Get2(code, f.ecode + 1);
      var s := code[prev] >= OP_SBRA;
      var eptrb, here := f.eptrb, false;
      if s {
        here := eptrb.at == f.eptr;
        eptrb := eptrb.prev;
      }
      GoKet(env, Now().left, w.ctx, f.eptr, f.eptrb, caps);
      var top := f.offset_top;
      if code[prev] == OP_CBRA || code[prev] == OP_SCBRA {
        top := CloseCapture(Get2(code, prev + 3), f.eptr, top);
      } else {
        NoRoom(env, caps, 0, f.eptr, Limit);
      }
      var leave, again := Frame(f.eptr, f.ecode + 3, top, eptrb), Frame(f.eptr, prev, top, eptrb);
      ghost var wl, wa := View(w.ctx.rest, outer), View(Cons(Group(Once, g), w.ctx.rest), outer);
      f', w' := leave, wl;
      if code[f.ecode] == OP_KET || (s && here) {
        rc := GO;
      } else if code[f.ecode] == OP_KETRMIN {
        rc := TwoWays(leave, false, again, s, wl, wa);
      } else {
        rc := TwoWays(again, s, leave, false, wa, wl);
      }
    }

    /** A recursive call, and another if it fails. */
    method TwoWays(f1: Frame, s1: bool, f2: Frame, s2: bool, ghost w1: View, ghost w2: View) returns (rc: Rc)
      requires Sync(f1, w1) && Sync(f2, w2) && w1.ctx == w2.ctx
      requires f1.eptr == f2.eptr && f1.eptrb == f2.eptrb && f1.offset_top == f2.offset_top
      modifies this, offset_vector
      ensures Valid() && rc != GO
      ensures Outcome(Either(env, old(Now().left), Point(w1.items, w1.ctx, f1.eptr), Push(s1, f1.eptrb, f1.eptr),
                             Point(w2.items, w1.ctx, f1.eptr), Push(s2, f1.eptrb, f1.eptr),
                               Held(old(Now()), f1.offset_top)),
                      rc, Now())
      decreases match_limit - match_call_count, 1
    {
      hide At, Go, Call;
      DeepPush(s1, f1.eptrb, w1.ctx, f1.eptr);
      DeepPush(s2, f1.eptrb, w1.ctx, f1.eptr);
      rc := Match(f1, s1, w1);
      if rc == NOMATCH {
        rc := Match(f2, s2, w2);
      }
    }

    /** Setting the data slots of a completed capture, or noting that there is no room for them. */
    method CloseCapture(number: nat, eptr: nat, offset_top: nat) returns (top: nat)
      requires Valid() && number > 0
      modifies this`captures, this`offset_overflow, offset_vector
      ensures Valid() && CloseCap(env, Held(old(Now()), offset_top), number, eptr) == Held(Now(), top)
    {
      InRange();
      top := offset_top;
      var offset := 2 * number;
      Room(env, Held(Now(), top), number);
      if offset >= env.omax {
        offset_overflow := true;
      } else {
        Slots(number);
        SetSlot(offset, offset_vector[env.oend - number]);
        SetSlot(offset + 1, eptr);
        if top <= offset {
          top := offset + 2;
        }
      }
    }

    lemma InRange()
      requires Valid()
      ensures ValidEnv(env) && |captures| == env.oend && Now().left >= 0
    {
    }

    /** An opening bracket. */
    method Bracket(f: Frame, ghost w: View) returns (rc: Rc)
      requires Sync(f, w) && f.ecode < |code| && w.items.Cons? && w.items.head.Group? && w.items.head.zero == Once
      modifies this, offset_vector
      ensures Valid() && Outcome(Continue(env, old(Now()), f, w), rc, Now()) && rc != GO
      decreases match_limit - match_call_count, 3
    {
      hide GrpAt, At, Go, Try, Deep, Get2, LenGrp, Outcome, OpenCap, PutBack, ValidEnv, HasSlots;
      ghost var g, t, first := w.items.head.g, w.items.tail, Now();
      ghost var caps := Held(first, f.offset_top);
      InRange();
      BraBytes(code, f.ecode, g, t, w.ctx);
      GoBracket(env, first.left, g, t, w.ctx, f.eptr, f.eptrb, caps);
      var op := code[f.ecode];
      var s := op == OP_SBRA || op == OP_SCBRA;
      if op == OP_CBRA || op == OP_SCBRA {
        var number := Get2(code, f.ecode + 3);
        Room(env, caps, number);
        if 2 * number < env.omax {
          rc := Capturing(number, f, s, g, t, w.ctx);
          return;
        }
      } else {
        NoNumber(env, caps);
      }
      NoRoom(env, caps, g.cap, f.eptr,
             Try(env, first.left, g.alts, g, t, w.ctx, f.eptr, Push(s, f.eptrb, f.eptr), caps));
      rc := Branches(f, s, g, t, w.ctx);
    }

    /** A capturing bracket for which the vector has room: its three slots are saved, and restored when all
        branches fail. */
    method Capturing(number: nat, f: Frame, s: bool, ghost g: Grp, ghost t: Items, ghost ctx: Ctx) returns (rc: Rc)
      requires Valid() && f.eptr <= |env.subject| && Deep(f.eptrb, ctx) && s == g.s
      requires number == g.cap > 0 && 2 * number < env.omax
      requires GrpAt(code, f.ecode, g) && At(code, f.ecode + LenGrp(g), t, ctx)
      modifies this, offset_vector
      ensures Valid() && rc != GO
      ensures var caps := Held(old(Now()), f.offset_top);
        Outcome(PutBack(env, caps, number, Try(env, old(Now().left), g.alts, g, t, ctx, f.eptr, Push(s, f.eptrb, f.eptr), OpenCap(env, caps, number, f.eptr))),
                rc, Now())
      decreases match_limit - match_call_count, 2
    {
      hide GrpAt, At, Try, Deep, LenGrp, Valid, ValidEnv, OpenCap, PutBack, Outcome;
      ghost var caps := Held(Now(), f.offset_top);
      var offset, work := 2 * number, env.oend - number;
      Slots(number);
      OpenSlot(env, caps, number, f.eptr);
      var save1, save2, save3 := offset_vector[offset], offset_vector[offset + 1], offset_vector[work];
      SetSlot(work, f.eptr);
      InRange();
      ghost var res := Try(env, Now().left, g.alts, g, t, ctx, f.eptr, Push(s, f.eptrb, f.eptr),
                Held(Now(), f.offset_top));
      rc := Branches(f, s, g, t, ctx);
      ghost var before := Now();
      if rc == NOMATCH {
        Slots(number);
        SetSlot(offset, save1);
        SetSlot(offset + 1, save2);
        SetSlot(work, save3);
      }
      BackOutcome(env, caps, number, res, rc, before, Now());
    }

    method SetSlot(k: nat, v: int)
      requires Valid() && k < env.oend
      modifies this`captures, offset_vector
      ensures Valid() && captures == old(captures)[k := v]
    {
      offset_vector[k] := v;
      captures := captures[k := v];
    }

    /** The data slots and the working slot of a bracket are different and inside the vector. */
    lemma Slots(number: nat)
      requires Valid() && number > 0 && 2 * number < env.omax
      ensures ValidEnv(env) && |captures| == env.oend <= offset_vector.Length
      ensures 2 * number + 1 < env.omax <= env.oend - number < env.oend
      ensures forall k :: 0 <= k < env.oend ==> offset_vector[k] == captures[k]
    {
    }

    /** The branches of a bracket in order, each by a recursive call. */
    method Branches(f: Frame, s: bool, ghost g: Grp, ghost t: Items, ghost ctx: Ctx) returns (rc: Rc)
      requires Valid() && f.eptr <= |env.subject| && Deep(f.eptrb, ctx) && s == g.s
      requires GrpAt(code, f.ecode, g) && At(code, f.ecode + LenGrp(g), t, ctx)
      modifies this, offset_vector
      ensures Valid() && rc != GO
      ensures Outcome(Try(env, old(Now().left), g.alts, g, t, ctx, f.eptr, Push(s, f.eptrb, f.eptr), Held(old(Now()), f.offset_top)), rc, Now())
      decreases match_limit - match_call_count, 1
    {
      hide GrpAt, At, Header, Outcome, Call, Try, Deep, LenGrp, LenItems, Get2;
      ghost var alts, inner := g.alts, In(g, t, ctx);
      BraHead(code, f.ecode, g);
      DeepEnter(g, t, ctx, f.eptrb, f.eptr);
      ghost var chain, top, first := Push(s, f.eptrb, f.eptr), f.offset_top, Now();
      var h := f.ecode;
      var hl := if code[h] == OP_CBRA || code[h] == OP_SCBRA then 5 else 3;
      rc := GO;
      while rc == GO
        invariant Valid() && (rc == GO ==> match_call_count >= old(match_call_count))
        invariant rc == GO ==> Header(code, h, hl, alts, g, f.ecode)
        invariant rc == GO ==>
          Try(env, first.left, g.alts, g, t, ctx, f.eptr, chain, Held(first, top)) ==
            Try(env, Now().left, alts, g, t, ctx, f.eptr, chain, Held(Now(), top))
        invariant rc != GO ==>
          Outcome(Try(env, first.left, g.alts, g, t, ctx, f.eptr, chain, Held(first, top)), rc, Now())
        decreases rc == GO, alts
      {
        ghost var before := Now();
        BranchAt(code, h, hl, alts, g, f.ecode, t, ctx);
        rc := Match(f.(ecode := h + hl), s, View(alts.b, inner));
        TryOutcome(env, alts, g, t, ctx, f.eptr, chain, top, rc, before, Now());
        if rc == NOMATCH {
          NextHeader(code, h, hl, alts, g, f.ecode);
          h, hl := h + Get2(code, h + 1), 3;
          if code[h] == OP_ALT {
            alts := alts.rest;
            rc := GO;
          }
        }
      }
    }

    /** One byte against a literal, a negated literal or a character type. */
    method Literal(f: Frame, ghost w: View) returns (rc: Rc, f': Frame, ghost w': View)
      requires Sync(f, w) && f.ecode < |code| && w.items.Cons? && w.items.head.One? && !w.items.head.x.Set?
      ensures Valid() && (rc == GO ==> Sync(f', w')) && Turn(env, f, w, Now(), rc, f', w', Now())
    {
      hide At, Go, Deep;
      OneBytes(code, f.ecode, w.items, w.ctx);
      var op := code[f.ecode];
      var x, next := Typ(OP_ALLANY), f.ecode + 1;
      if op == OP_CHAR {
        x, next := Chr(code[f.ecode + 1]), f.ecode + 2;
      } else if op == OP_NOT {
        x, next := NotChr(code[f.ecode + 1]), f.ecode + 2;
      } else {
        x := Typ(op);
      }
      rc, f', w' := Single(x, next, f, w);
    }

    /** One byte against a decoded item. */
    method Single(x: Single, next: nat, f: Frame, ghost w: View) returns (rc: Rc, f': Frame, ghost w': View)
      requires Sync(f, w) && w.items.Cons? && w.items.head == One(x) && At(code, next, w.items.tail, w.ctx)
      ensures Valid() && (rc == GO ==> Sync(f', w')) && Turn(env, f, w, Now(), rc, f', w', Now())
    {
      hide At, Deep;
      f', w' := f, w;
      if f.eptr >= |env.subject| || !Test(env, x, env.subject[f.eptr]) {
        rc := NOMATCH;
      } else {
        rc, f', w' := GO, f.(eptr := f.eptr + 1, ecode := next), w.(items := w.items.tail);
      }
    }

    /** The repeat opcodes of literals, negated literals and character types. */
    method Repeat(f: Frame, ghost w: View) returns (rc: Rc, f': Frame, ghost w': View)
      requires Sync(f, w) && f.ecode < |code| && w.items.Cons? && w.items.head.Many? && !w.items.head.x.Set?
      modifies this, offset_vector
      ensures Valid() && (rc == GO ==> Sync(f', w')) && Turn(env, f, w, old(Now()), rc, f', w', Now())
      decreases match_limit - match_call_count, 3
    {
      hide At, Go, Deep, LimitsOf;
      ghost var x0, r := w.items.head.x, w.items.head.r;
      ManyBytes(code, f.ecode, w.items, w.ctx);
      var op := code[f.ecode];
      var base := if op < OP_NOTSTAR then OP_STAR else if op < OP_TYPESTAR then OP_NOTSTAR else OP_TYPESTAR;
      var k := op - base;
      var wide := 6 <= k <= 8 || k == 12;
      var arg, n := f.ecode + 1, 0;
      if wide {
        arg, n := f.ecode + 3, Get2(code, f.ecode + 1);
      }
      PlainLimitsRight(x0, r, n);
      var x := if base == OP_STAR then Chr(code[arg]) else if base == OP_NOTSTAR then NotChr(code[arg]) else Typ(code[arg]);
      rc, f', w' := Repeated(x, PlainLimits(k, n), arg + 1, f, w);
    }

    /** A class, possibly followed by a repeat opcode. */
    method Class(f: Frame, ghost w: View) returns (rc: Rc, f': Frame, ghost w': View)
      requires Sync(f, w) && f.ecode < |code| && w.items.Cons? && !w.items.head.Group? && w.items.head.x.Set?
      modifies this, offset_vector
      ensures Valid() && (rc == GO ==> Sync(f', w')) && Turn(env, f, w, old(Now()), rc, f', w', Now())
      decreases match_limit - match_call_count, 3
    {
      hide At, Go, Deep, LimitsOf;
      ClassBytes(code, f.ecode, w.items, w.ctx);
      var x := Set(code[f.ecode] == OP_NCLASS, code[f.ecode + 1..f.ecode + 33]);
      var next := f.ecode + 33;
      if OP_CRSTAR <= code[next] <= OP_CRMINRANGE {
        var k, lo, hi, after := code[next] - OP_CRSTAR, 0, 0, next + 1;
        if k >= 6 {
          lo, hi, after := Get2(code, next + 1), Get2(code, next + 3), next + 5;
        }
        ClassLimitsRight(x, w.items.head.r, lo, hi);
        rc, f', w' := Repeated(x, ClassLimits(k, lo, hi), after, f, w);
      } else {
        rc, f', w' := Single(x, next, f, w);
      }
    }

    /** The common code of all repeated items: the minimum, then one by one or back from the longest run. */
    method Repeated(x: Single, l: Limits, next: nat, f: Frame, ghost w: View)
      returns (rc: Rc, f': Frame, ghost w': View)
      requires Sync(f, w) && w.items.Cons? && w.items.head.Many? && w.items.head.x == x
      requires LimitsOf(l, w.items.head.r) && At(code, next, w.items.tail, w.ctx)
      modifies this, offset_vector
      ensures Valid() && (rc == GO ==> Sync(f', w')) && Turn(env, f, w, old(Now()), rc, f', w', Now())
      decreases match_limit - match_call_count, 2
    {
      hide At, Deep, AllTest, Call;
      ghost var r, w1 := w.items.head.r, w.(items := w.items.tail);
      rc, f', w' := NOMATCH, f, w;
      if l.min > |env.subject| - f.eptr {
        return;
      }
      var ok := Minimum(x, f.eptr, f.eptr + l.min);
      if !ok {
        return;
      }
      var g := f.(eptr := f.eptr + l.min, ecode := next);
      if l.min == l.max {
        rc, f', w' := GO, g, w1;
      } else if l.minimize {
        rc := Lazily(x, l, r, f.eptr, g, w1);
      } else {
        var hi := Longest(x, l, r, f.eptr, g.eptr);
        if l.possessive {
          rc, f', w' := GO, g.(eptr := hi), w1;
        } else {
          rc := Greedily(hi, g, w1);
        }
      }
    }

    /** Whether all bytes from i to j pass the test. */
    method Minimum(x: Single, i: nat, j: nat) returns (ok: bool)
      requires i <= j <= |env.subject|
      ensures ok <==> AllTest(env, x, i, j)
    {
      var k := i;
      while k < j
        invariant i <= k <= j && AllTest(env, x, i, k)
      {
        if !Test(env, x, env.subject[k]) {
          return false;
        }
        k := k + 1;
      }
      return true;
    }

    /** The end of the longest run from j. */
    method Longest(x: Single, l: Limits, ghost r: Rep, i: nat, j: nat) returns (k: nat)
      requires LimitsOf(l, r) && i <= j <= |env.subject|
      ensures k == RunEnd(env, x, r, i, j)
    {
      k := j;
      while k < |env.subject| && (l.max < 0 || k + 1 - i <= l.max) && Test(env, x, env.subject[k])
        invariant j <= k <= |env.subject| && RunEnd(env, x, r, i, j) == RunEnd(env, x, r, i, k)
      {
        k := k + 1;
      }
    }

    /** Maximizing: the rest of the pattern from the longest run back to the minimum. */
    method Greedily(hi: nat, f: Frame, ghost w: View) returns (rc: Rc)
      requires Sync(f, w) && f.eptr <= hi <= |env.subject|
      modifies this, offset_vector
      ensures Valid() && rc != GO
      ensures Outcome(Down(env, old(Now().left), w.items, w.ctx, f.eptr, hi, f.eptrb, Held(old(Now()), f.offset_top)), rc, Now())
      decreases match_limit - match_call_count, 1
    {
      hide At, Outcome, Call, Down, Deep;
      ghost var top, first := f.offset_top, Now();
      var j := hi;
      rc := GO;
      while rc == GO
        invariant Valid() && (rc == GO ==> match_call_count >= old(match_call_count)) && f.eptr <= j <= hi
        invariant rc == GO ==>
          Down(env, first.left, w.items, w.ctx, f.eptr, hi, f.eptrb, Held(first, top)) ==
            Down(env, Now().left, w.items, w.ctx, f.eptr, j, f.eptrb, Held(Now(), top))
        invariant rc != GO ==>
          Outcome(Down(env, first.left, w.items, w.ctx, f.eptr, hi, f.eptrb, Held(first, top)), rc, Now())
        decreases rc == GO, j
      {
        ghost var before := Now();
        rc := Match(f.(eptr := j), false, w);
        DownOutcome(env, w.items, w.ctx, f.eptr, j, f.eptrb, top, rc, before, Now());
        if rc == NOMATCH && j > f.eptr {
          j := j - 1;
          rc := GO;
        }
      }
    }

    /** Minimizing: the rest of the pattern, and one more byte each time it fails. */
    method Lazily(x: Single, l: Limits, ghost r: Rep, i: nat, f: Frame, ghost w: View) returns (rc: Rc)
      requires Sync(f, w) && LimitsOf(l, r) && i <= f.eptr
      modifies this, offset_vector
      ensures Valid() && rc != GO
      ensures Outcome(Up(env, old(Now().left), x, r, w.items, w.ctx, i, f.eptr, f.eptrb, Held(old(Now()), f.offset_top)), rc, Now())
      decreases match_limit - match_call_count, 1
    {
      hide At, Outcome, Call, Up, Deep;
      ghost var top, first := f.offset_top, Now();
      var j := f.eptr;
      rc := GO;
      while rc == GO
        invariant Valid() && (rc == GO ==> match_call_count >= old(match_call_count)) && f.eptr <= j <= |env.subject|
        invariant rc == GO ==>
          Up(env, first.left, x, r, w.items, w.ctx, i, f.eptr, f.eptrb, Held(first, top)) ==
            Up(env, Now().left, x, r, w.items, w.ctx, i, j, f.eptrb, Held(Now(), top))
        invariant rc != GO ==>
          Outcome(Up(env, first.left, x, r, w.items, w.ctx, i, f.eptr, f.eptrb, Held(first, top)), rc, Now())
        decreases rc == GO, |env.subject| - j
      {
        ghost var before := Now();
        rc := Match(f.(eptr := j), false, w);
        UpOutcome(env, x, r, w.items, w.ctx, i, j, f.eptrb, top, rc, before, Now());
        if rc == NOMATCH && (l.max < 0 || j + 1 - i <= l.max) && j < |env.subject| && Test(env, x, env.subject[j]) {
          j := j + 1;
          rc := GO;
        }
      }
    }
  }
}
