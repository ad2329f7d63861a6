/** The order in which the ends of a pattern are preferred, defined on the pattern, and the proof that
    compilation keeps it: replicated groups, split repeats and possessified items included. */
module RegexOrder {
  import opened Tree
  import opened Semantics
  import opened Regex
  import opened AutoPossess
  import opened Emptiness
  import opened Compile
  import opened Ordered

  ghost function ByteWays(env: Env, x: Single, q: Quant, i: nat): seq<nat> {
    Pick((j: nat) => MeansByte(env, x, q, i, j), i, |env.subject| + 1, q.Quant? && q.mode == Lazy)
  }

  ghost function BranchWays(env: Env, b: Branch, i: nat): seq<nat>
    decreases b, 0, 0, 0, 0
  {
    match b case Done => [i] case Then(p, rest) => BranchOn(env, rest, PieceWays(env, p, i))
  }

  /** The branch from each of the places. */
  ghost function BranchOn(env: Env, b: Branch, ms: seq<nat>): seq<nat>
    decreases b, 1, |ms|, 0, 0
  {
    if ms == [] then [] else BranchWays(env, b, ms[0]) + BranchOn(env, b, ms[1..])
  }

  ghost function PieceWays(env: Env, p: Piece, i: nat): seq<nat>
    decreases p, 0, 0, 0, 0
  {
    match p
    case Byte(x, _, q) => ByteWays(env, x, q, i)
    case Paren(_, alts, Plain) => ChoiceWays(env, alts, i)
    case Paren(_, alts, Quant(lo, hi, m, _)) => Repeat(env, alts, lo, hi, m == Lazy, i)
  }

  ghost function ChoiceWays(env: Env, alts: Choice, i: nat): seq<nat>
    decreases alts, 0, 0, 0, 0
  {
    match alts case Only(b) => BranchWays(env, b, i) case Or(b, more) => BranchWays(env, b, i) + ChoiceWays(env, more, i)
  }

  function Less(hi: Bound): Bound {
    match hi case Max(n) => Max(if n == 0 then 0 else n - 1) case NoMax => NoMax
  }

  function Pred(n: nat): nat {
    if n == 0 then 0 else n - 1
  }

  function Todo(lo: nat, hi: Bound): nat {
    match hi case Max(n) => n case NoMax => lo
  }

  /** At least lo and at most hi more repetitions: once the minimum is done, one more before none if
      greedy, none before one more if lazy. */
  ghost function Repeat(env: Env, alts: Choice, lo: nat, hi: Bound, lazy: bool, i: nat): seq<nat>
    decreases alts, Todo(lo, hi), Left(env, i), 2, 0
  {
    if hi == Max(0) then [i]
    else
      var more := RepeatOn(env, alts, lo, hi, lazy, i, ChoiceWays(env, alts, i));
      if lo > 0 then more else if lazy then [i] + more else more + [i]
  }

  /** After a repetition that began at `entry` and ended at one of the places. A repetition that
      consumes nothing and is not needed for the minimum any more is the last one of an unlimited group. */
  ghost function RepeatOn(env: Env, alts: Choice, lo: nat, hi: Bound, lazy: bool, entry: nat, ms: seq<nat>): seq<nat>
    requires hi != Max(0)
    decreases alts, Todo(lo, hi), Left(env, entry), 1, |ms|
  {
    if ms == [] then []
    else RepeatFrom(env, alts, lo, hi, lazy, entry, ms[0]) + RepeatOn(env, alts, lo, hi, lazy, entry, ms[1..])
  }

  ghost function RepeatFrom(env: Env, alts: Choice, lo: nat, hi: Bound, lazy: bool, entry: nat, m: nat): seq<nat>
    requires hi != Max(0)
    decreases alts, Todo(lo, hi), Left(env, entry), 1, 0
  {
    if hi.NoMax? && lo <= 1 && (m <= entry || m > |env.subject|) then [m]
    else Repeat(env, alts, Pred(lo), Less(hi), lazy, m)
  }

  // ---------------------------------------------------------------------------------------
  // Sequences of places

  lemma {:induction false} BranchIn(env: Env, b: Branch, ms: seq<nat>, m: nat, j: nat)
    requires m in ms && j in BranchWays(env, b, m)
    ensures j in BranchOn(env, b, ms)
    decreases |ms|
  {
    hide BranchWays;
    if m != ms[0] {
      BranchIn(env, b, ms[1..], m, j);
    }
  }

  lemma {:induction false} BranchOut(env: Env, b: Branch, ms: seq<nat>, j: nat) returns (m: nat)
    requires j in BranchOn(env, b, ms)
    ensures m in ms && j in BranchWays(env, b, m)
    decreases |ms|
  {
    hide BranchWays;
    if j in BranchWays(env, b, ms[0]) {
      m := ms[0];
    } else {
      m := BranchOut(env, b, ms[1..], j);
    }
  }

  lemma {:induction false} RepeatIn(env: Env, alts: Choice, lo: nat, hi: Bound, lazy: bool, entry: nat, ms: seq<nat>,
                                    m: nat, j: nat)
    requires hi != Max(0) && m in ms && j in RepeatFrom(env, alts, lo, hi, lazy, entry, m)
    ensures j in RepeatOn(env, alts, lo, hi, lazy, entry, ms)
    decreases |ms|
  {
    hide RepeatFrom;
    if m != ms[0] {
      RepeatIn(env, alts, lo, hi, lazy, entry, ms[1..], m, j);
    }
  }

  lemma {:induction false} RepeatOut(env: Env, alts: Choice, lo: nat, hi: Bound, lazy: bool, entry: nat, ms: seq<nat>,
                                     j: nat) returns (m: nat)
    requires hi != Max(0) && j in RepeatOn(env, alts, lo, hi, lazy, entry, ms)
    ensures m in ms && j in RepeatFrom(env, alts, lo, hi, lazy, entry, m)
    decreases |ms|
  {
    hide RepeatFrom;
    if j in RepeatFrom(env, alts, lo, hi, lazy, entry, ms[0]) {
      m := ms[0];
    } else {
      m := RepeatOut(env, alts, lo, hi, lazy, entry, ms[1..], j);
    }
  }

  // ---------------------------------------------------------------------------------------
  // The places are those where a match can end.

  lemma {:induction false} ByteMeans(env: Env, x: Single, q: Quant, i: nat, j: nat)
    ensures j in ByteWays(env, x, q, i) <==> MeansByte(env, x, q, i, j)
  {
    hide AllTest;
    PickIn((j: nat) => MeansByte(env, x, q, i, j), i, |env.subject| + 1, q.Quant? && q.mode == Lazy, j);
  }

  lemma {:induction false} BranchMeans(env: Env, b: Branch, i: nat, j: nat)
    requires i <= |env.subject| && WfBranch(b)
    ensures j in BranchWays(env, b, i) <==> MeansBranch(env, b, i, j)
    ensures MeansBranch(env, b, i, j) ==> i <= j <= |env.subject|
    decreases b, 1, 0, 0
  {
    hide MeansBranch, MeansPiece, PieceWays, BranchOn, WfPiece;
    if b.Done? {
      DoneMeans(env, i, j);
    } else {
      WfParts(b);
      if j in BranchOn(env, b.rest, PieceWays(env, b.p, i)) {
        var m := BranchOut(env, b.rest, PieceWays(env, b.p, i), j);
        PieceMeans(env, b.p, i, m);
        BranchMeans(env, b.rest, m, j);
        BranchIntro(env, b, i, m, j);
      }
      if MeansBranch(env, b, i, j) {
        var m := BranchElim(env, b, i, j);
        PieceMeans(env, b.p, i, m);
        BranchMeans(env, b.rest, m, j);
        BranchIn(env, b.rest, PieceWays(env, b.p, i), m, j);
      }
    }
  }

  lemma WfParts(b: Branch)
    requires b.Then? && WfBranch(b)
    ensures WfPiece(b.p) && WfBranch(b.rest)
  {
  }

  lemma DoneMeans(env: Env, i: nat, j: nat)
    ensures MeansBranch(env, Done, i, j) <==> i == j
  {
  }

  lemma {:induction false} PieceMeans(env: Env, p: Piece, i: nat, j: nat)
    requires i <= |env.subject| && WfPiece(p)
    ensures j in PieceWays(env, p, i) <==> MeansPiece(env, p, i, j)
    ensures MeansPiece(env, p, i, j) ==> i <= j <= |env.subject|
    decreases p, 1, 0, 0
  {
    hide MeansChoice, MeansTimes, ChoiceWays, Repeat, ByteWays, WfChoice, AllTest;
    match p
    case Byte(x, _, q) => ByteMeans(env, x, q, i, j);
    case Paren(_, alts, q) =>
      if q.Plain? {
        ChoiceMeans(env, alts, i, j);
        OnceMeans(env, alts, i, j);
      } else {
        if j in Repeat(env, alts, q.lo, q.hi, q.mode == Lazy, i) {
          var n := RepeatMeans(env, alts, q.lo, q.hi, q.mode == Lazy, i, j);
          assert Within(q, n) && MeansTimes(env, alts, n, i, j);
        }
        forall n: nat | Within(q, n) && MeansTimes(env, alts, n, i, j)
          ensures j in Repeat(env, alts, q.lo, q.hi, q.mode == Lazy, i) && i <= j <= |env.subject|
        {
          TimesListed(env, alts, q.lo, q.hi, q.mode == Lazy, n, i, j);
        }
      }
  }

  lemma OnceMeans(env: Env, alts: Choice, i: nat, j: nat)
    ensures MeansTimes(env, alts, 1, i, j) <==> MeansChoice(env, alts, i, j)
  {
    hide MeansChoice;
    if MeansChoice(env, alts, i, j) {
      assert MeansTimes(env, alts, 0, j, j);
    }
  }

  lemma {:induction false} ChoiceMeans(env: Env, alts: Choice, i: nat, j: nat)
    requires i <= |env.subject| && WfChoice(alts)
    ensures j in ChoiceWays(env, alts, i) <==> MeansChoice(env, alts, i, j)
    ensures MeansChoice(env, alts, i, j) ==> i <= j <= |env.subject|
    decreases alts, 0, 0, 0
  {
    hide BranchWays, MeansBranch, WfBranch;
    BranchMeans(env, alts.b, i, j);
    if alts.Or? {
      ChoiceMeans(env, alts.more, i, j);
    }
  }

  lemma TimesMore(env: Env, alts: Choice, n: nat, i: nat, m: nat, j: nat)
    requires MeansChoice(env, alts, i, m) && MeansTimes(env, alts, n, m, j)
    ensures MeansTimes(env, alts, n + 1, i, j)
  {
  }

  lemma NoTimes(env: Env, alts: Choice, i: nat, j: nat)
    ensures MeansTimes(env, alts, 0, i, j) <==> i == j
  {
  }

  lemma {:induction false} RepeatMeans(env: Env, alts: Choice, lo: nat, hi: Bound, lazy: bool, i: nat, j: nat)
    returns (n: nat)
    requires i <= |env.subject| && WfChoice(alts) && UpTo(hi, lo) && j in Repeat(env, alts, lo, hi, lazy, i)
    ensures lo <= n && UpTo(hi, n) && MeansTimes(env, alts, n, i, j)
    decreases alts, Todo(lo, hi), Left(env, i), 1
  {
    hide MeansChoice, MeansTimes, ChoiceWays, RepeatOn, Repeat, WfChoice;
    RepeatParts(env, alts, lo, hi, lazy, i, j);
    if lo == 0 && i == j {
      n := 0;
      NoTimes(env, alts, i, j);
    } else {
      var m := RepeatOut(env, alts, lo, hi, lazy, i, ChoiceWays(env, alts, i), j);
      ChoiceMeans(env, alts, i, m);
      n := 1;
      if hi.NoMax? && lo <= 1 && m <= i {
        NoTimes(env, alts, j, j);
        TimesMore(env, alts, 0, i, j, j);
      } else {
        var n' := RepeatMeans(env, alts, Pred(lo), Less(hi), lazy, m, j);
        n := n' + 1;
        TimesMore(env, alts, n', i, m, j);
      }
    }
  }

  lemma RepeatParts(env: Env, alts: Choice, lo: nat, hi: Bound, lazy: bool, i: nat, j: nat)
    ensures hi == Max(0) ==> Repeat(env, alts, lo, hi, lazy, i) == [i]
    ensures hi != Max(0) ==>
      (j in Repeat(env, alts, lo, hi, lazy, i) <==> (lo == 0 && j == i) || j in RepeatOn(env, alts, lo, hi, lazy, i, ChoiceWays(env, alts, i)))
  {
    hide RepeatOn, ChoiceWays;
  }

  lemma {:induction false} TimesListed(env: Env, alts: Choice, lo: nat, hi: Bound, lazy: bool, n: nat, i: nat, j: nat)
    requires i <= |env.subject| && WfChoice(alts) && lo <= n && UpTo(hi, n) && MeansTimes(env, alts, n, i, j)
    ensures j in Repeat(env, alts, lo, hi, lazy, i) && i <= j <= |env.subject|
    decreases alts, 0, n, 0
  {
    hide MeansChoice, MeansTimes, ChoiceWays, RepeatOn, Repeat, WfChoice;
    RepeatParts(env, alts, lo, hi, lazy, i, j);
    NoTimes(env, alts, i, j);
    if n > 0 {
      var m := MeansTimesElim(env, alts, n, i, j);
      ChoiceMeans(env, alts, i, m);
      NoTimes(env, alts, m, j);
      if hi.NoMax? && lo <= 1 && m == i {
        if j == i {
          RepeatIn(env, alts, lo, hi, lazy, i, ChoiceWays(env, alts, i), m, j);
        } else {
          TimesListed(env, alts, lo, hi, lazy, n - 1, i, j);
        }
      } else {
        TimesListed(env, alts, Pred(lo), Less(hi), lazy, n - 1, m, j);
        RepeatIn(env, alts, lo, hi, lazy, i, ChoiceWays(env, alts, i), m, j);
      }
    }
  }

  // ---------------------------------------------------------------------------------------
  // Bytes

  /** Where one place at most has the property, the direction does not matter. */
  lemma {:induction false} PickFlip(p: nat -> bool, a: nat, b: nat, up: bool)
    requires forall m: nat, m': nat :: a <= m < m' < b ==> !(p(m) && p(m'))
    ensures Pick(p, a, b, up) == Pick(p, a, b, !up)
  {
    if m: nat :| a <= m < b && p(m) {
      PickOne(p, a, b, up, m);
      PickOne(p, a, b, !up, m);
    } else {
      PickNone(p, a, b, up);
      PickNone(p, a, b, !up);
    }
  }

  lemma WaysNil(env: Env, i: nat)
    ensures Ways(env, Nil, i) == [i]
  {
  }

  lemma WaysOne(env: Env, it: Item, i: nat)
    ensures Ways(env, Cons(it, Nil), i) == WaysItem(env, it, i)
  {
    hide WaysItem;
    OnNil(env, WaysItem(env, it, i));
  }

  lemma {:induction false} ByteOrder(env: Env, x: Single, q: Quant, i: nat)
    requires WfQuant(q) && i <= |env.subject|
    requires q.Quant? && q.mode == Poss ==> !x.Set? && !(q.lo == 1 && q.hi.Max?)
    ensures Ways(env, ByteItems(x, q), i) == ByteWays(env, x, q, i)
  {
    hide MatchItems, Ways, AllTest, Pick, ManyMatches, PlainItems, ClassItems;
    var items := ByteItems(x, q);
    var p := (j: nat) => MeansByte(env, x, q, i, j);
    forall j: nat ensures MatchItems(env, items, i, j) <==> p(j) {
      ByteExact(env, x, q, i, j);
    }
    ByteShape(x, q);
    if items.Nil? {
      WaysNil(env, i);
      forall j: nat ensures p(j) <==> j == i {
        NoItems(env, i, j);
      }
      PickOne(p, i, |env.subject| + 1, q.Quant? && q.mode == Lazy, i);
    } else if items.tail.Nil? {
      SingleOrder(env, x, q, items.head, i);
    } else {
      DoubleOrder(env, x, q, items, i);
    }
  }

  predicate SingleShape(x: Single, q: Quant, it: Item) {
    || it == One(x)
    || (q.Quant? && it.Many? && it.x == x && (ModeOf(it.r) == q.mode || Fixed(it.r)))
  }

  predicate DoubleShape(x: Single, q: Quant, items: Items) {
    && q.Quant? && items.Cons? && items.tail.Cons? && items.tail.tail.Nil?
    && items.tail.head.Many? && items.tail.head.x == x && ModeOf(items.tail.head.r) == q.mode
    && ((items.head == One(x) && q.lo == 1) || items.head == Many(x, Exact(q.lo)))
  }

  /** A repeated byte is compiled to at most two items; the second is repeated, the first one is not
      variable. */
  lemma ByteShape(x: Single, q: Quant)
    requires WfQuant(q)
    ensures var items := ByteItems(x, q); items.Cons? ==> if items.tail.Nil? then SingleShape(x, q, items.head) else DoubleShape(x, q, items)
  {
  }

  lemma {:induction false} SingleOrder(env: Env, x: Single, q: Quant, it: Item, i: nat)
    requires i <= |env.subject| && SingleShape(x, q, it)
    requires forall j: nat :: MatchItems(env, Cons(it, Nil), i, j) <==> MeansByte(env, x, q, i, j)
    ensures Ways(env, Cons(it, Nil), i) == ByteWays(env, x, q, i)
  {
    hide MatchItems, Ways, MeansByte, AllTest, ManyMatches, Test, Pick;
    var p, end, up := (j: nat) => MeansByte(env, x, q, i, j), |env.subject| + 1, q.Quant? && q.mode == Lazy;
    WaysOne(env, it, i);
    forall j: nat ensures MatchItem(env, it, i, j) <==> p(j) {
      OneItem(env, it, i, j);
    }
    if it.One? {
      OneOrder(env, x, p, i, up);
    } else {
      var p' := (j: nat) => ManyMatches(env, x, it.r, i, j);
      assert forall j: nat :: p'(j) == p(j);
      PickSame(p, p', i, end, ModeOf(it.r) == Lazy);
      if Fixed(it.r) {
        FixedFlip(env, x, it.r, p, i, up);
      }
    }
  }

  lemma OneOrder(env: Env, x: Single, p: nat -> bool, i: nat, up: bool)
    requires i <= |env.subject| && forall j: nat :: MatchItem(env, One(x), i, j) <==> p(j)
    ensures Pick(p, i, |env.subject| + 1, up) == WaysItem(env, One(x), i)
  {
    hide Test, Pick;
    assert forall j: nat :: p(j) <==> MatchItem(env, One(x), i, j);
    if i < |env.subject| && Test(env, x, env.subject[i]) {
      PickOne(p, i, |env.subject| + 1, up, i + 1);
    } else {
      PickNone(p, i, |env.subject| + 1, up);
    }
  }

  lemma FixedFlip(env: Env, x: Single, r: Rep, p: nat -> bool, i: nat, up: bool)
    requires Fixed(r) && forall j: nat :: ManyMatches(env, x, r, i, j) <==> p(j)
    ensures Pick(p, i, |env.subject| + 1, up) == Pick(p, i, |env.subject| + 1, ModeOf(r) == Lazy)
  {
    hide AllTest;
    forall m: nat, m': nat | i <= m < m' < |env.subject| + 1 ensures !(p(m) && p(m')) {
      assert ManyMatches(env, x, r, i, m) ==> m == i + Min(r);
      assert ManyMatches(env, x, r, i, m') ==> m' == i + Min(r);
    }
    if up != (ModeOf(r) == Lazy) {
      PickFlip(p, i, |env.subject| + 1, up);
    }
  }

  /** A fixed part, then the variable one. */
  lemma {:induction false} DoubleOrder(env: Env, x: Single, q: Quant, items: Items, i: nat)
    requires i <= |env.subject| && DoubleShape(x, q, items)
    requires forall j: nat :: MatchItems(env, items, i, j) <==> MeansByte(env, x, q, i, j)
    ensures Ways(env, items, i) == ByteWays(env, x, q, i)
  {
    hide MatchItems, MatchItem, Ways, WaysItem, MeansByte, AllTest, ManyMatches, Test, Pick;
    var c, r, end, up := i + q.lo, items.tail.head.r, |env.subject| + 1, q.mode == Lazy;
    var p, p' := (j: nat) => MeansByte(env, x, q, i, j), (j: nat) => ManyMatches(env, x, r, c, j);
    HeadEnds(env, x, items.head, q.lo, i);
    forall j: nat ensures p(j) <==> MatchItem(env, items.head, i, c) && p'(j) {
      TwoItems(env, items.head, items.tail.head, i, j, c);
      ManyItem(env, x, r, c, j);
    }
    WaysTwo(env, items, i);
    if MatchItem(env, items.head, i, c) {
      OnOne(env, items.tail, c);
      WaysOne(env, items.tail.head, c);
      LowNone(env, x, r, c);
      PickFrom(p, i, c, end, up);
      PickSame(p, p', c, end, up);
      ManyWays(env, x, r, c);
    } else {
      OnNone(env, items.tail);
      PickNone(p, i, end, up);
    }
  }

  lemma ManyItem(env: Env, x: Single, r: Rep, i: nat, j: nat)
    ensures MatchItem(env, Many(x, r), i, j) <==> ManyMatches(env, x, r, i, j)
  {
  }

  lemma ManyWays(env: Env, x: Single, r: Rep, i: nat)
    ensures WaysItem(env, Many(x, r), i) == Pick((j: nat) => ManyMatches(env, x, r, i, j), i, |env.subject| + 1,
      ModeOf(r) == Lazy)
  {
  }

  lemma LowNone(env: Env, x: Single, r: Rep, c: nat)
    ensures forall j: nat :: j < c ==> !ManyMatches(env, x, r, c, j)
  {
  }

  lemma WaysTwo(env: Env, items: Items, i: nat)
    requires items.Cons?
    ensures Ways(env, items, i) == WaysOn(env, items.tail, WaysItem(env, items.head, i))
  {
    hide WaysItem, WaysOn;
  }

  lemma {:induction false} HeadEnds(env: Env, x: Single, it: Item, lo: nat, i: nat)
    requires i <= |env.subject| && ((it == One(x) && lo == 1) || it == Many(x, Exact(lo)))
    ensures WaysItem(env, it, i) == if MatchItem(env, it, i, i + lo) then [i + lo] else []
    ensures forall m: nat :: MatchItem(env, it, i, m) ==> m == i + lo
  {
    hide AllTest, Pick;
    if it.Many? {
      var p := (j: nat) => ManyMatches(env, x, Exact(lo), i, j);
      if MatchItem(env, it, i, i + lo) {
        PickOne(p, i, |env.subject| + 1, false, i + lo);
      } else {
        PickNone(p, i, |env.subject| + 1, false);
      }
    }
  }

  // ---------------------------------------------------------------------------------------
  // Groups

  /** The branches of a group against the alternatives that they come from. */
  ghost predicate SameWays(env: Env, a: Alts, alts: Choice) {
    forall m: nat :: m <= |env.subject| ==> WaysAlts(env, a, m) == ChoiceWays(env, alts, m)
  }

  lemma {:induction false} KetAll(env: Env, g: Grp, i: nat, ms: seq<nat>)
    requires g.ket == Ket
    ensures CloseAll(env, g, i, ms) == ms
    decreases |ms|
  {
    if ms != [] {
      KetAll(env, g, i, ms[1..]);
    }
  }

  lemma KetWays(env: Env, g: Grp, alts: Choice, i: nat)
    requires g.ket == Ket && i <= |env.subject| && SameWays(env, g.alts, alts)
    ensures WaysGrp(env, g, i) == ChoiceWays(env, alts, i) && Inside(env, i, ChoiceWays(env, alts, i))
  {
    hide CloseAll, WaysAlts, ChoiceWays;
    KetAll(env, g, i, WaysAlts(env, g.alts, i));
    AltsInside(env, g.alts, i);
  }

  lemma InsideParts(env: Env, i: nat, ms: seq<nat>)
    requires Inside(env, i, ms) && ms != []
    ensures i <= ms[0] <= |env.subject| && Inside(env, i, ms[1..])
  {
    assert ms[0] in ms && forall m :: m in ms[1..] ==> m in ms;
  }

  /** What follows a group is what follows its repetitions. */
  ghost predicate Continues(env: Env, t: Items, alts: Choice, lo: nat, hi: Bound, lazy: bool) {
    forall m: nat :: m <= |env.subject| ==> Ways(env, t, m) == Repeat(env, alts, lo, hi, lazy, m)
  }

  /** A needed repetition, or one of limited many, has no check. */
  lemma {:induction false} OnRepeat(env: Env, t: Items, alts: Choice, lo: nat, hi: Bound, lazy: bool, i: nat,
                                    ms: seq<nat>)
    requires hi != Max(0) && (hi.NoMax? ==> lo > 1) && Continues(env, t, alts, Pred(lo), Less(hi), lazy)
    requires Inside(env, i, ms)
    ensures WaysOn(env, t, ms) == RepeatOn(env, alts, lo, hi, lazy, i, ms)
    decreases |ms|
  {
    hide Ways, Repeat;
    if ms != [] {
      InsideParts(env, i, ms);
      OnRepeat(env, t, alts, lo, hi, lazy, i, ms[1..]);
    }
  }

  lemma RepeatNeeded(env: Env, alts: Choice, lo: nat, hi: Bound, lazy: bool, i: nat)
    requires hi != Max(0) && lo > 0
    ensures Repeat(env, alts, lo, hi, lazy, i) == RepeatOn(env, alts, lo, hi, lazy, i, ChoiceWays(env, alts, i))
  {
    hide RepeatOn;
  }

  lemma {:induction false} CopiesOrder(env: Env, g: Grp, n: nat, t: Items, alts: Choice, lo: nat, hi: Bound, lazy: bool)
    requires g.ket == Ket && SameWays(env, g.alts, alts) && Continues(env, t, alts, lo, hi, lazy)
    requires (hi.NoMax? ==> lo > 0)
    ensures Continues(env, Copies(g, n, t), alts, lo + n, if hi.Max? then Max(hi.n + n) else NoMax, lazy)
    decreases n
  {
    hide Ways, WaysGrp, Repeat, ChoiceWays, SameWays, WaysOn, RepeatOn;
    if n > 0 {
      CopiesOrder(env, g, n - 1, t, alts, lo, hi, lazy);
      var rest, items, lo', hi' := Copies(g, n - 1, t), Copies(g, n, t), lo + n, if hi.Max? then Max(hi.n + n) else NoMax;
      forall m: nat | m <= |env.subject| ensures Ways(env, items, m) == Repeat(env, alts, lo', hi', lazy, m) {
        WaysTwo(env, items, m);
        KetWays(env, g, alts, m);
        OnRepeat(env, rest, alts, lo', hi', lazy, m, ChoiceWays(env, alts, m));
        RepeatNeeded(env, alts, lo', hi', lazy, m);
      }
    }
  }

  lemma {:induction false} OptionalOrder(env: Env, z: Zero, g: Grp, n: nat, alts: Choice)
    requires g.ket == Ket && SameWays(env, g.alts, alts) && (z == BraZero || z == BraMinZero)
    ensures Continues(env, Optional(z, g, n), alts, 0, Max(n), z == BraMinZero)
    decreases n
  {
    hide Ways, WaysGrp, Repeat, ChoiceWays, SameWays, WaysOn, RepeatOn;
    var lazy := z == BraMinZero;
    forall m: nat | m <= |env.subject|
      ensures Ways(env, Optional(z, g, n), m) == Repeat(env, alts, 0, Max(n), lazy, m)
    {
      WaysNil(env, m);
      RepeatNone(env, alts, n, lazy, m);
      if n > 0 {
        OptionalOrder(env, z, g, n - 1, alts);
        var rest := Optional(z, g, n - 1);
        KetWays(env, g, alts, m);
        OnRepeat(env, rest, alts, 0, Max(n), lazy, m, ChoiceWays(env, alts, m));
        WaysOne(env, Optional(z, g, n).head, m);
        if n == 1 {
          OnNil(env, ChoiceWays(env, alts, m));
        } else {
          WrappedWays(env, g, rest, m);
        }
      }
    }
  }

  lemma RepeatNone(env: Env, alts: Choice, n: nat, lazy: bool, i: nat)
    ensures n == 0 ==> Repeat(env, alts, 0, Max(n), lazy, i) == [i]
    ensures n > 0 ==> var more := RepeatOn(env, alts, 0, Max(n), lazy, i, ChoiceWays(env, alts, i));
      Repeat(env, alts, 0, Max(n), lazy, i) == if lazy then [i] + more else more + [i]
  {
    hide RepeatOn;
  }

  lemma WrappedWays(env: Env, g: Grp, t: Items, i: nat)
    ensures WaysGrp(env, Grp(false, 0, Last(Cons(Group(Once, g), t)), Ket), i) == WaysOn(env, t, WaysGrp(env, g, i))
  {
    hide WaysOn, CloseAll;
    var inner := Cons(Group(Once, g), t);
    var wrapper := Grp(false, 0, Last(inner), Ket);
    KetAll(env, wrapper, i, WaysAlts(env, Last(inner), i));
    WaysTwo(env, inner, i);
  }

  /** The last needed repetition and those after it: the loop. */
  lemma {:induction false} LoopOrder(env: Env, g: Grp, mode: Mode, alts: Choice, lo: nat, i: nat)
    requires g.ket == Ket && SameWays(env, g.alts, alts) && i <= |env.subject| && lo <= 1 && mode != Poss
    ensures WaysGrp(env, Loop(g, mode), i) == RepeatOn(env, alts, lo, NoMax, mode == Lazy, i, ChoiceWays(env, alts, i))
    decreases Left(env, i), 1, 0
  {
    hide WaysAlts, ChoiceWays, CloseAll, RepeatOn, AnyLooksEmpty;
    AltsInside(env, g.alts, i);
    LoopEach(env, g, mode, alts, lo, i, ChoiceWays(env, alts, i));
  }

  lemma {:induction false} LoopEach(env: Env, g: Grp, mode: Mode, alts: Choice, lo: nat, i: nat, ms: seq<nat>)
    requires g.ket == Ket && SameWays(env, g.alts, alts) && i <= |env.subject| && lo <= 1 && mode != Poss
    requires Inside(env, i, ms)
    ensures CloseAll(env, Loop(g, mode), i, ms) == RepeatOn(env, alts, lo, NoMax, mode == Lazy, i, ms)
    decreases Left(env, i), 0, |ms|
  {
    hide Close, RepeatFrom, SameWays, AnyLooksEmpty;
    if ms != [] {
      InsideParts(env, i, ms);
      LoopEach(env, g, mode, alts, lo, i, ms[1..]);
      if ms[0] > i {
        LoopOrder(env, g, mode, alts, 0, ms[0]);
      }
      LoopClose(env, g, mode, alts, lo, i, ms[0]);
    }
  }

  lemma LoopClose(env: Env, g: Grp, mode: Mode, alts: Choice, lo: nat, i: nat, m: nat)
    requires g.ket == Ket && i <= m <= |env.subject| && lo <= 1 && mode != Poss
    requires m > i ==>
      WaysGrp(env, Loop(g, mode), m) == RepeatOn(env, alts, 0, NoMax, mode == Lazy, m, ChoiceWays(env, alts, m))
    ensures Close(env, Loop(g, mode), i, m) == RepeatFrom(env, alts, lo, NoMax, mode == Lazy, i, m)
  {
    hide WaysGrp, RepeatOn, AnyLooksEmpty, ChoiceWays;
  }

  /** For every body and every quantifier, replication keeps the order. */
  lemma {:induction false} GroupOrder(env: Env, g: Grp, q: Quant, alts: Choice, i: nat)
    requires g.ket == Ket && SameWays(env, g.alts, alts) && i <= |env.subject| && WfQuant(q)
    requires (q.Quant? ==> q.mode != Poss)
    ensures Ways(env, GroupItems(g, q), i) == match q case Plain => ChoiceWays(env, alts, i) case Quant(lo, hi, m, _) => Repeat(env, alts, lo, hi, m == Lazy, i)
  {
    hide Ways, WaysGrp, Repeat, ChoiceWays, SameWays, Continues, Copies, Optional, Loop;
    match q
    case Plain =>
      WaysOne(env, Group(Once, g), i);
      KetWays(env, g, alts, i);
    case Quant(lo, Max(hi), m, _) =>
      if hi == 0 {
        WaysOne(env, Group(SkipZero, g), i);
        RepeatNone(env, alts, 0, m == Lazy, i);
      } else {
        var z := if m == Lazy then BraMinZero else BraZero;
        OptionalOrder(env, z, g, hi - lo, alts);
        CopiesOrder(env, g, lo, Optional(z, g, hi - lo), alts, 0, Max(hi - lo), m == Lazy);
        ContinuesAt(env, GroupItems(g, q), alts, lo, Max(hi), m == Lazy, i);
      }
    case Quant(lo, NoMax, m, _) =>
      if lo == 0 {
        LoopOrder(env, g, m, alts, 0, i);
        WaysOne(env, GroupItems(g, q).head, i);
        RepeatFree(env, alts, m == Lazy, i);
      } else {
        var last := Cons(Group(Once, Loop(g, m)), Nil);
        forall k: nat | k <= |env.subject| ensures Ways(env, last, k) == Repeat(env, alts, 1, NoMax, m == Lazy, k) {
          LoopOrder(env, g, m, alts, 1, k);
          WaysOne(env, last.head, k);
          RepeatNeeded(env, alts, 1, NoMax, m == Lazy, k);
        }
        ContinuesIntro(env, last, alts, 1, NoMax, m == Lazy);
        CopiesOrder(env, g, lo - 1, last, alts, 1, NoMax, m == Lazy);
        ContinuesAt(env, GroupItems(g, q), alts, lo, NoMax, m == Lazy, i);
      }
  }

  lemma ContinuesAt(env: Env, t: Items, alts: Choice, lo: nat, hi: Bound, lazy: bool, i: nat)
    requires Continues(env, t, alts, lo, hi, lazy) && i <= |env.subject|
    ensures Ways(env, t, i) == Repeat(env, alts, lo, hi, lazy, i)
  {
  }

  lemma ContinuesIntro(env: Env, t: Items, alts: Choice, lo: nat, hi: Bound, lazy: bool)
    requires forall m: nat :: m <= |env.subject| ==> Ways(env, t, m) == Repeat(env, alts, lo, hi, lazy, m)
    ensures Continues(env, t, alts, lo, hi, lazy)
  {
  }

  lemma RepeatFree(env: Env, alts: Choice, lazy: bool, i: nat)
    ensures var more := RepeatOn(env, alts, 0, NoMax, lazy, i, ChoiceWays(env, alts, i));
      Repeat(env, alts, 0, NoMax, lazy, i) == if lazy then [i] + more else more + [i]
  {
    hide RepeatOn;
  }

  // ---------------------------------------------------------------------------------------
  // Branches

  lemma {:induction false} AppendWays(env: Env, a: Items, b: Items, i: nat)
    ensures Ways(env, Append(a, b), i) == WaysOn(env, b, Ways(env, a, i))
    decreases a, 0, 0
  {
    hide WaysOn, WaysItem;
    if a.Nil? {
      OnOne(env, b, i);
    } else {
      AppendOn(env, a.tail, b, WaysItem(env, a.head, i));
    }
  }

  lemma {:induction false} AppendOn(env: Env, a: Items, b: Items, ms: seq<nat>)
    ensures WaysOn(env, Append(a, b), ms) == WaysOn(env, b, WaysOn(env, a, ms))
    decreases a, 1, |ms|
  {
    hide Ways, Append;
    if ms == [] {
      OnNone(env, b);
    } else {
      AppendWays(env, a, b, ms[0]);
      AppendOn(env, a, b, ms[1..]);
      OnAppend(env, b, Ways(env, a, ms[0]), WaysOn(env, a, ms[1..]));
    }
  }

  lemma {:induction false} OnPick(env: Env, b: Branch, p: nat -> bool, p': nat -> bool, a: nat, c: nat, up: bool)
    requires forall m: nat :: a <= m < c ==> (p'(m) ==> p(m)) && (p(m) && !p'(m) ==> BranchWays(env, b, m) == [])
    ensures BranchOn(env, b, Pick(p, a, c, up)) == BranchOn(env, b, Pick(p', a, c, up))
    decreases c - a
  {
    hide BranchWays;
    if a < c {
      OnPick(env, b, p, p', a + 1, c, up);
      var here, here' := if p(a) then [a] else [], if p'(a) then [a] else [];
      BranchOnAppend(env, b, here, Pick(p, a + 1, c, up));
      BranchOnAppend(env, b, here', Pick(p', a + 1, c, up));
      BranchOnAppend(env, b, Pick(p, a + 1, c, up), here);
      BranchOnAppend(env, b, Pick(p', a + 1, c, up), here');
      assert BranchOn(env, b, []) == [];
      BranchOnOne(env, b, a);
    }
  }

  lemma {:induction false} BranchOnAppend(env: Env, b: Branch, x: seq<nat>, y: seq<nat>)
    ensures BranchOn(env, b, x + y) == BranchOn(env, b, x) + BranchOn(env, b, y)
    decreases |x|
  {
    hide BranchWays;
    if x == [] {
      assert x + y == y;
    } else {
      assert (x + y)[1..] == x[1..] + y;
      BranchOnAppend(env, b, x[1..], y);
    }
  }

  lemma BranchOnOne(env: Env, b: Branch, m: nat)
    ensures BranchOn(env, b, [m]) == BranchWays(env, b, m)
  {
    hide BranchWays;
    assert [m][1..] == [] && BranchOn(env, b, []) == [];
  }

  /** After a positive answer that can be trusted, the places that the possessive form gives up lead nowhere. */
  lemma {:induction false} AutoOrder(env: Env, x: Single, q: Quant, rest: Branch, i: nat)
    requires CheckAuto(env.ctypes, x, rest) && Safe(env.ctypes, x, rest.p.x, rest.p.q) && q.Quant? && q.hi.NoMax?
    requires WfBranch(rest)
    ensures BranchOn(env, rest, ByteWays(env, x, q, i)) == BranchOn(env, rest, ByteWays(env, x, q.(mode := Poss), i))
  {
    hide BranchOn, BranchWays, MeansBranch, Safe, Excludes, Pick, AllTest, WfBranch;
    var q', end := q.(mode := Poss), |env.subject| + 1;
    var p, p' := (j: nat) => MeansByte(env, x, q, i, j), (j: nat) => MeansByte(env, x, q', i, j);
    forall m: nat | i <= m < end ensures (p'(m) ==> p(m)) && (p(m) && !p'(m) ==> BranchWays(env, rest, m) == []) {
      if p(m) && !p'(m) && BranchWays(env, rest, m) != [] {
        var j := BranchWays(env, rest, m)[0];
        BranchMeans(env, rest, m, j);
        var m' := BranchElim(env, rest, m, j);
        NextBegins(env, x, rest.p.x, rest.p.q, m, m');
      }
    }
    OnPick(env, rest, p, p', i, end, q.mode == Lazy);
    forall m: nat, m': nat | i <= m < m' < end ensures !(p'(m) && p'(m')) {
      StuckOnce(env, x, q', i, m, m');
    }
    if q.mode == Lazy {
      PickFlip(p', i, end, true);
    }
  }

  lemma StuckOnce(env: Env, x: Single, q: Quant, i: nat, m: nat, m': nat)
    requires q.Quant? && q.hi.NoMax? && q.mode == Poss && m < m'
    ensures !(MeansByte(env, x, q, i, m) && MeansByte(env, x, q, i, m'))
  {
  }

  lemma {:induction false} OnSame(env: Env, items: Items, b: Branch, i: nat, ms: seq<nat>)
    requires Inside(env, i, ms) && forall m: nat :: m <= |env.subject| ==> Ways(env, items, m) == BranchWays(env, b, m)
    ensures WaysOn(env, items, ms) == BranchOn(env, b, ms)
    decreases |ms|
  {
    hide Ways, BranchWays;
    if ms != [] {
      InsideParts(env, i, ms);
      OnSame(env, items, b, i, ms[1..]);
    }
  }

  /** The code of a branch prefers the ends that the branch prefers. */
  lemma {:induction false} BranchOrder(env: Env, b: Branch, k: nat, i: nat)
    requires i <= |env.subject| && WfBranch(b) && SureBranch(env.ctypes, b)
    ensures Ways(env, BranchItems(env.ctypes, b, k), i) == BranchWays(env, b, i)
    decreases b, 1
  {
    hide Ways, WaysOn, PieceItems, PieceWays, BranchOn, WfPiece, Sure, CheckAuto;
    if b.Done? {
      WaysNil(env, i);
    } else {
      WfFirst(env.ctypes, b);
      var first, next := PieceItems(env.ctypes, b.p, b.rest, k), BranchItems(env.ctypes, b.rest, k + Parens(b.p));
      AppendWays(env, first, next, i);
      forall m: nat | m <= |env.subject| ensures Ways(env, next, m) == BranchWays(env, b.rest, m) {
        BranchOrder(env, b.rest, k + Parens(b.p), m);
      }
      WaysInside(env, first, i);
      OnSame(env, next, b.rest, i, Ways(env, first, i));
      PieceOrder(env, b, k, i);
    }
  }

  lemma {:induction false} PieceOrder(env: Env, b: Branch, k: nat, i: nat)
    requires i <= |env.subject| && b.Then? && WfBranch(b) && SureBranch(env.ctypes, b)
    ensures BranchOn(env, b.rest, Ways(env, PieceItems(env.ctypes, b.p, b.rest, k), i)) ==
      BranchOn(env, b.rest, PieceWays(env, b.p, i))
    decreases b, 0
  {
    hide Ways, BranchOn, ByteWays, ChoiceWays, Repeat, GroupItems, ByteItems, CheckAuto, WfBranch, SureBranch,
         WfChoice, SureChoice, Safe, ChoiceAlts, WaysAlts;
    WfFirst(env.ctypes, b);
    match b.p
    case Byte(x, _, q) =>
      var q' := Possessified(env.ctypes, x, q, b.rest);
      ByteOrder(env, x, q', i);
      if q' != q {
        AutoOrder(env, x, q, b.rest, i);
      }
    case Paren(capturing, alts, q) =>
      var g, k' := ParenGrp(env.ctypes, capturing, alts, k), if capturing then k + 1 else k;
      forall m: nat | m <= |env.subject| ensures WaysAlts(env, g.alts, m) == ChoiceWays(env, alts, m) {
        ChoiceOrder(env, alts, k', m);
      }
      GroupOrder(env, g, q, alts, i);
  }

  /** The code of alternatives prefers the ends that the alternatives prefer. */
  lemma {:induction false} ChoiceOrder(env: Env, alts: Choice, k: nat, i: nat)
    requires i <= |env.subject| && WfChoice(alts) && SureChoice(env.ctypes, alts)
    ensures WaysAlts(env, ChoiceAlts(env.ctypes, alts, k), i) == ChoiceWays(env, alts, i)
    decreases alts, 2
  {
    hide Ways, BranchWays, BranchItems, WfBranch, SureBranch;
    BranchOrder(env, alts.b, k, i);
    if alts.Or? {
      ChoiceOrder(env, alts.more, k + ParensBranch(alts.b), i);
    }
  }
}
