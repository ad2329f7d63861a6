/** What the capture vector says of the points that a match passed through: each pair of data slots
    holds where the bracket was opened and closed for the last time. */
module Record {
  import opened Tree
  import opened Machine
  import opened Search
  import opened Restore
  import Overflow

  /** At this point a bracket with the number n is opened. */
  predicate Opens(p: Point, n: nat) {
    p.items.Cons? && p.items.head.Group? && p.items.head.zero == Once && p.items.head.g.cap == n
  }

  predicate Closes(p: Point, n: nat) {
    p.items.Nil? && p.ctx.In? && p.ctx.g.cap == n
  }

  /** The last time that a bracket n was opened was at subject position a. */
  ghost predicate LastOpen(run: seq<Point>, n: nat, a: int) {
    exists j :: 0 <= j < |run| && Opens(run[j], n) && run[j].i == a && forall m :: j < m < |run| ==> !Opens(run[m], n)
  }

  /** The last time that a bracket n was closed was at subject position b, and at a it had been opened. */
  ghost predicate LastSpan(run: seq<Point>, n: nat, a: int, b: int) {
    exists k :: 0 <= k < |run| && Closes(run[k], n) && run[k].i == b && LastOpen(run[..k], n, a) &&
                forall m :: k < m < |run| ==> !Closes(run[m], n)
  }

  ghost predicate NeverClosed(run: seq<Point>, n: nat) {
    forall m :: 0 <= m < |run| ==> !Closes(run[m], n)
  }

  /** The two values, where (a0, b0) are the old ones. */
  ghost predicate Span(run: seq<Point>, n: nat, a0: int, b0: int, a: int, b: int) {
    (NeverClosed(run, n) && a == a0 && b == b0) || LastSpan(run, n, a, b)
  }

  ghost predicate Sized(env: Env, was: seq<int>, caps: Caps) {
    ValidEnv(env) && |caps.vec| == |was| == env.oend
  }

  ghost predicate SpanAt(env: Env, was: seq<int>, run: seq<Point>, caps: Caps, n: nat)
    requires |caps.vec| == |was|
  {
    HasSlots(env, caps, n) ==> Span(run, n, was[2 * n], was[2 * n + 1], caps.vec[2 * n], caps.vec[2 * n + 1])
  }

  /** While brackets are open: their working slots say where they were opened, and the data slots of the others
      where those were opened and closed. */
  ghost predicate Written(env: Env, was: seq<int>, ctx: Ctx, past: seq<Point>, caps: Caps) {
    && (Sized(env, was, caps) ==>
          forall n: nat ::
            if n in Open(ctx) then HasSlots(env, caps, n) ==> LastOpen(past, n, caps.vec[env.oend - n])
            else SpanAt(env, was, past, caps, n))
    && Told(env, past, caps)
  }

  /** At the end. */
  ghost predicate Recorded(env: Env, was: seq<int>, run: seq<Point>, caps: Caps) {
    (Sized(env, was, caps) ==> forall n: nat :: SpanAt(env, was, run, caps, n)) && Told(env, run, caps)
  }

  /** A bracket is closed that has no slots in the vector. */
  predicate Lost(env: Env, p: Point) {
    p.items.Nil? && p.ctx.In? && p.ctx.g.cap > 0 && 2 * p.ctx.g.cap >= env.omax
  }

  ghost predicate AnyLost(env: Env, run: seq<Point>) {
    exists k :: 0 <= k < |run| && Lost(env, run[k])
  }

  /** Then that is noted. */
  ghost predicate Told(env: Env, run: seq<Point>, caps: Caps) {
    ValidEnv(env) && |caps.vec| == env.oend && AnyLost(env, run) ==> caps.over
  }

  lemma ToldOn(env: Env, past: seq<Point>, p: Point, caps: Caps, caps': Caps)
    requires Told(env, past, caps) && |caps'.vec| == |caps.vec| && (caps.over ==> caps'.over)
    requires ValidEnv(env) && |caps.vec| == env.oend && Lost(env, p) ==> caps'.over
    ensures Told(env, past + [p], caps')
  {
    if AnyLost(env, past + [p]) && !Lost(env, p) {
      var k :| 0 <= k < |past + [p]| && Lost(env, (past + [p])[k]);
      assert Lost(env, past[k]);
    }
  }

  lemma OpenLater(past: seq<Point>, p: Point, n: nat, a: int)
    requires LastOpen(past, n, a) && !Opens(p, n)
    ensures LastOpen(past + [p], n, a)
  {
    var j :| 0 <= j < |past| && Opens(past[j], n) && past[j].i == a && forall m :: j < m < |past| ==> !Opens(past[m], n);
    assert (past + [p])[j] == past[j];
  }

  lemma SpanLater(past: seq<Point>, p: Point, n: nat, a0: int, b0: int, a: int, b: int)
    requires Span(past, n, a0, b0, a, b) && !Closes(p, n)
    ensures Span(past + [p], n, a0, b0, a, b)
  {
    if LastSpan(past, n, a, b) {
      hide LastOpen;
      var k :| 0 <= k < |past| && Closes(past[k], n) && past[k].i == b && LastOpen(past[..k], n, a) &&
               forall m :: k < m < |past| ==> !Closes(past[m], n);
      assert (past + [p])[..k] == past[..k] && (past + [p])[k] == past[k];
    }
  }

  lemma OpenNow(past: seq<Point>, p: Point, n: nat)
    requires Opens(p, n)
    ensures LastOpen(past + [p], n, p.i)
  {
    assert (past + [p])[|past|] == p;
  }

  lemma SpanNow(past: seq<Point>, p: Point, n: nat, a: int)
    requires Closes(p, n) && LastOpen(past, n, a)
    ensures LastSpan(past + [p], n, a, p.i)
  {
    hide LastOpen;
    assert (past + [p])[..|past|] == past && (past + [p])[|past|] == p;
  }

  /** A move that opens and closes nothing. */
  lemma WrittenOn(env: Env, was: seq<int>, p: Point, past: seq<Point>, caps: Caps)
    requires Written(env, was, p.ctx, past, caps)
    requires p.items.Cons? && !(p.items.head.Group? && p.items.head.zero == Once)
    ensures Written(env, was, p.ctx, past + [p], caps)
  {
    hide LastOpen, Span, Told;
    ToldOn(env, past, p, caps, caps);
    if Sized(env, was, caps) {
      forall n: nat | HasSlots(env, caps, n)
        ensures n in Open(p.ctx) ==> LastOpen(past + [p], n, caps.vec[env.oend - n])
        ensures n !in Open(p.ctx) ==> SpanAt(env, was, past + [p], caps, n)
      {
        if n in Open(p.ctx) {
          OpenLater(past, p, n, caps.vec[env.oend - n]);
        } else {
          assert SpanAt(env, was, past, caps, n);
          SpanLater(past, p, n, was[2 * n], was[2 * n + 1], caps.vec[2 * n], caps.vec[2 * n + 1]);
        }
      }
    }
  }

  lemma WrittenOpen(env: Env, was: seq<int>, p: Point, past: seq<Point>, caps: Caps)
    requires Written(env, was, p.ctx, past, caps)
    requires p.items.Cons? && p.items.head.Group? && p.items.head.zero == Once
    ensures var g := p.items.head.g;
      Written(env, was, In(g, p.items.tail, p.ctx), past + [p], OpenCap(env, caps, g.cap, p.i))
  {
    hide LastOpen, Span, Told;
    var g := p.items.head.g;
    var ctx, caps' := In(g, p.items.tail, p.ctx), OpenCap(env, caps, g.cap, p.i);
    ToldOn(env, past, p, caps, caps');
    if Sized(env, was, caps') {
      forall n: nat | HasSlots(env, caps', n)
        ensures n in Open(ctx) ==> LastOpen(past + [p], n, caps'.vec[env.oend - n])
        ensures n !in Open(ctx) ==> SpanAt(env, was, past + [p], caps', n)
      {
        assert HasSlots(env, caps, n);
        if n == g.cap {
          OpenNow(past, p, n);
        } else if n in Open(p.ctx) {
          OpenLater(past, p, n, caps.vec[env.oend - n]);
        } else {
          assert SpanAt(env, was, past, caps, n);
          SpanLater(past, p, n, was[2 * n], was[2 * n + 1], caps.vec[2 * n], caps.vec[2 * n + 1]);
        }
      }
    }
  }

  lemma WrittenClose(env: Env, was: seq<int>, p: Point, past: seq<Point>, caps: Caps)
    requires Written(env, was, p.ctx, past, caps) && p.items.Nil? && p.ctx.In?
    ensures Written(env, was, p.ctx.outer, past + [p], CloseCap(env, caps, p.ctx.g.cap, p.i))
  {
    hide LastOpen, NeverClosed, LastSpan, Told;
    var g, ctx := p.ctx.g, p.ctx.outer;
    var caps' := CloseCap(env, caps, g.cap, p.i);
    ToldOn(env, past, p, caps, caps');
    if Sized(env, was, caps') {
      forall n: nat | HasSlots(env, caps', n)
        ensures n in Open(ctx) ==> LastOpen(past + [p], n, caps'.vec[env.oend - n])
        ensures n !in Open(ctx) ==> SpanAt(env, was, past + [p], caps', n)
      {
        assert HasSlots(env, caps, n);
        if n in Open(p.ctx) {
          OpenLater(past, p, n, caps.vec[env.oend - n]);
          if n == g.cap {
            SpanNow(past, p, n, caps.vec[env.oend - n]);
          }
        } else {
          assert SpanAt(env, was, past, caps, n);
          SpanLater(past, p, n, was[2 * n], was[2 * n + 1], caps.vec[2 * n], caps.vec[2 * n + 1]);
        }
      }
    }
  }

  /** A failed attempt spoils nothing of this. */
  lemma WrittenResume(env: Env, was: seq<int>, past: seq<Point>, k: nat, p: Point, chain: Chain, caps: Caps)
    requires Written(env, was, p.ctx, past, caps) && Call(env, k, p, chain, caps).Failed?
    ensures Written(env, was, p.ctx, past, Resume(caps, Call(env, k, p, chain, caps)))
  {
    hide Call, LastOpen, Span;
    var caps' := Resume(caps, Call(env, k, p, chain, caps));
    if ValidEnv(env) && |caps.vec| == env.oend {
      Overflow.CallNotes(env, k, p, chain, caps);
    }
    if Sized(env, was, caps') {
      CallRestores(env, k, p, chain, caps);
      forall n: nat | HasSlots(env, caps', n)
        ensures n in Open(p.ctx) ==> LastOpen(past, n, caps'.vec[env.oend - n])
        ensures n !in Open(p.ctx) ==> SpanAt(env, was, past, caps', n)
      {
        if n in Open(p.ctx) {
          assert !Loose(env, Open(p.ctx), env.oend - n);
        } else {
          assert !Loose(env, Open(p.ctx), 2 * n) && !Loose(env, Open(p.ctx), 2 * n + 1);
          assert SpanAt(env, was, past, caps, n);
        }
      }
    }
  }

  lemma WrittenEnd(env: Env, was: seq<int>, p: Point, past: seq<Point>, caps: Caps)
    requires Written(env, was, Top, past, caps) && p.items.Nil? && p.ctx.Top?
    ensures Recorded(env, was, past + [p], caps)
  {
    hide LastOpen, Span, Told;
    ToldOn(env, past, p, caps, caps);
    if Sized(env, was, caps) {
      forall n: nat | HasSlots(env, caps, n) ensures SpanAt(env, was, past + [p], caps, n) {
        assert SpanAt(env, was, past, caps, n);
        SpanLater(past, p, n, was[2 * n], was[2 * n + 1], caps.vec[2 * n], caps.vec[2 * n + 1]);
      }
    }
  }

  lemma WrittenStart(env: Env, caps: Caps)
    ensures Written(env, caps.vec, Top, [], caps)
  {
  }
}
