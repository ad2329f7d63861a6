/** What compile_branch() and compile_regex() turn a pattern into, as code trees, and the proof
    that the tree matches what the pattern means. */
module Compile {
  import opened Tree
  import opened Semantics
  import opened Regex
  import opened AutoPossess
  import opened Emptiness

  function Append(a: Items, b: Items): Items {
    match a case Nil => b case Cons(it, t) => Cons(it, Append(t, b))
  }

  /** The number of capturing parentheses. */
  function Parens(p: Piece): nat
    decreases p
  {
    match p
    case Byte(_, _, _) => 0
    case Paren(capturing, alts, _) => (if capturing then 1 else 0) + ParensChoice(alts)
  }

  function ParensBranch(b: Branch): nat
    decreases b
  {
    match b case Done => 0 case Then(p, rest) => Parens(p) + ParensBranch(rest)
  }

  function ParensChoice(alts: Choice): nat
    decreases alts
  {
    match alts case Only(b) => ParensBranch(b) case Or(b, more) => ParensBranch(b) + ParensChoice(more)
  }

  // ---------------------------------------------------------------------------------------
  // Bytes

  /** The code of a repeated literal, negated literal or type. */
  function PlainItems(x: Single, lo: nat, hi: Bound, m: Mode): Items {
    match hi
    case Max(n) =>
      if n == 0 then Nil
      else if lo == 0 then Cons(Many(x, if n == 1 then Query(m) else Upto(n, m)), Nil)
      else if lo == 1 then Cons(One(x), if n == 1 then Nil else Cons(Many(x, Upto(n - 1, m)), Nil))
      else
        Cons(Many(x, Exact(lo)),
             if n <= lo then Nil
             else Cons(Many(x, if n - lo == 1 then Query(m) else Upto(n - lo, m)), Nil))
    case NoMax =>
      if lo == 0 then Cons(Many(x, Star(m)), Nil)
      else if lo == 1 then Cons(Many(x, Plus(m)), Nil)
      else Cons(Many(x, Exact(lo)), Cons(Many(x, Star(m)), Nil))
  }

  /** The code of a repeated class. */
  function ClassItems(x: Single, lo: nat, hi: Bound, m: Mode): Items {
    match hi
    case Max(n) =>
      if n == 0 then Nil
      else Cons(Many(x, if lo == 0 && n == 1 then Query(m) else if lo <= n then Range(lo, n, m) else Query(m)), Nil)
    case NoMax => Cons(Many(x, if lo == 0 then Star(m) else if lo == 1 then Plus(m) else Range(lo, 0, m)), Nil)
  }

  function ByteItems(x: Single, q: Quant): Items {
    match q
    case Plain => Cons(One(x), Nil)
    case Quant(lo, hi, m, _) => if x.Set? then ClassItems(x, lo, hi, m) else PlainItems(x, lo, hi, m)
  }

  // ---------------------------------------------------------------------------------------
  // Groups

  function Copies(g: Grp, n: nat, tail: Items): Items {
    if n == 0 then tail else Cons(Group(Once, g), Copies(g, n - 1, tail))
  }

  /** Up to n optional copies, each nested in the one before. */
  function Optional(z: Zero, g: Grp, n: nat): Items {
    if n == 0 then Nil
    else if n == 1 then Cons(Group(z, g), Nil)
    else Cons(Group(z, Grp(false, 0, Last(Cons(Group(Once, g), Optional(z, g, n - 1))), Ket)), Nil)
  }

  /** The last copy of an unlimited group: it gets a repeating ket, and the S form if some branch looks
      empty. */
  function Loop(g: Grp, m: Mode): Grp {
    g.(ket := if m == Lazy then KetRmin else KetRmax, s := AnyLooksEmpty(g.alts))
  }

  function GroupItems(g: Grp, q: Quant): Items {
    match q
    case Plain => Cons(Group(Once, g), Nil)
    case Quant(lo, hi, m, _) =>
      var z := if m == Lazy then BraMinZero else BraZero;
      match hi
      case Max(n) =>
        if n == 0 then Cons(Group(SkipZero, g), Nil)
        else if lo <= n then Copies(g, lo, Optional(z, g, n - lo)) else Nil
      case NoMax =>
        if lo == 0 then Cons(Group(z, Loop(g, m)), Nil)
        else Copies(g, lo - 1, Cons(Group(Once, Loop(g, m)), Nil))
  }

  /** Capture numbers are given out in the order of the opening parentheses; k have been used before. */
  function PieceItems(ct: CTypes, p: Piece, rest: Branch, k: nat): Items
    decreases p
  {
    match p
    case Byte(x, _, q) => ByteItems(x, Possessified(ct, x, q, rest))
    case Paren(capturing, alts, q) => GroupItems(ParenGrp(ct, capturing, alts, k), q)
  }

  function ParenGrp(ct: CTypes, capturing: bool, alts: Choice, k: nat): Grp
    decreases alts, 1
  {
    if capturing then Grp(false, k + 1, ChoiceAlts(ct, alts, k + 1), Ket)
    else Grp(false, 0, ChoiceAlts(ct, alts, k), Ket)
  }

  function BranchItems(ct: CTypes, b: Branch, k: nat): Items
    decreases b
  {
    match b
    case Done => Nil
    case Then(p, rest) => Append(PieceItems(ct, p, rest, k), BranchItems(ct, rest, k + Parens(p)))
  }

  function ChoiceAlts(ct: CTypes, alts: Choice, k: nat): Alts
    decreases alts, 0
  {
    match alts
    case Only(b) => Last(BranchItems(ct, b, k))
    case Or(b, more) => More(BranchItems(ct, b, k), ChoiceAlts(ct, more, k + ParensBranch(b)))
  }

  // ---------------------------------------------------------------------------------------
  // Bytes: the code matches between the minimum and the maximum number of bytes.

  lemma {:induction false} AppendIntro(env: Env, a: Items, b: Items, i: nat, m: nat, j: nat)
    requires MatchItems(env, a, i, m) && MatchItems(env, b, m, j)
    ensures MatchItems(env, Append(a, b), i, j)
    decreases a
  {
    hide MatchItem;
    if a.Cons? {
      var m' := ItemsElim(env, a, i, m);
      AppendIntro(env, a.tail, b, m', m, j);
      ItemsIntro(env, Append(a, b), i, m', j);
    }
  }

  lemma {:induction false} AppendElim(env: Env, a: Items, b: Items, i: nat, j: nat) returns (m: nat)
    requires MatchItems(env, Append(a, b), i, j)
    ensures MatchItems(env, a, i, m) && MatchItems(env, b, m, j)
    decreases a
  {
    hide MatchItem;
    if a.Nil? {
      m := i;
    } else {
      var m' := ItemsElim(env, Append(a, b), i, j);
      m := AppendElim(env, a.tail, b, m', j);
      ItemsIntro(env, a, i, m', m);
    }
  }

  lemma OneItem(env: Env, it: Item, i: nat, j: nat)
    ensures MatchItems(env, Cons(it, Nil), i, j) <==> MatchItem(env, it, i, j)
  {
    if MatchItem(env, it, i, j) {
      assert MatchItems(env, Nil, j, j);
    }
  }

  lemma TwoItems(env: Env, a: Item, b: Item, i: nat, j: nat, m: nat)
    requires forall m': nat :: MatchItem(env, a, i, m') ==> m' == m
    ensures MatchItems(env, Cons(a, Cons(b, Nil)), i, j) <==> MatchItem(env, a, i, m) && MatchItem(env, b, m, j)
  {
    hide MatchItem;
    OneItem(env, b, m, j);
    var items := Cons(a, Cons(b, Nil));
    if MatchItems(env, items, i, j) {
      var m' := ItemsElim(env, items, i, j);
    }
  }

  lemma AllTestSplit(env: Env, x: Single, i: nat, m: nat, j: nat)
    requires i <= m <= j <= |env.subject|
    ensures AllTest(env, x, i, j) <==> AllTest(env, x, i, m) && AllTest(env, x, m, j)
  {
  }

  /** A fixed part followed by a variable one. */
  lemma {:induction false} SplitBytes(env: Env, x: Single, lo: nat, r: Rep, i: nat, j: nat)
    requires lo >= 1 && Min(r) == 0 && i <= |env.subject|
    ensures var head := if lo == 1 then One(x) else Many(x, Exact(lo));
      MatchItems(env, Cons(head, Cons(Many(x, r), Nil)), i, j) <==>
      i + lo <= j <= |env.subject| && AllTest(env, x, i, j) && AtMost(r, j - i - lo) &&
        (ModeOf(r) == Poss ==> Stuck(env, x, r, i + lo, j))
  {
    hide MatchItems;
    var head := if lo == 1 then One(x) else Many(x, Exact(lo));
    TwoItems(env, head, Many(x, r), i, j, i + lo);
    if i + lo <= j <= |env.subject| {
      AllTestSplit(env, x, i, i + lo, j);
    }
  }

  lemma {:induction false} PlainExact(env: Env, x: Single, q: Quant, i: nat, j: nat)
    requires q.Quant? && WfQuant(q) && i <= |env.subject| && !(q.mode == Poss && q.lo == 1 && q.hi.Max?)
    ensures MatchItems(env, PlainItems(x, q.lo, q.hi, q.mode), i, j) <==> MeansByte(env, x, q, i, j)
  {
    var lo, hi, m := q.lo, q.hi, q.mode;
    var items := PlainItems(x, lo, hi, m);
    if items.Cons? && items.tail.Nil? {
      OneItem(env, items.head, i, j);
    } else if items.Cons? {
      SplitBytes(env, x, lo, items.tail.head.r, i, j);
    }
  }

  lemma {:induction false} ByteExact(env: Env, x: Single, q: Quant, i: nat, j: nat)
    requires WfQuant(q) && i <= |env.subject|
    requires q.Quant? && q.mode == Poss ==> !x.Set? && !(q.lo == 1 && q.hi.Max?)
    ensures MatchItems(env, ByteItems(x, q), i, j) <==> MeansByte(env, x, q, i, j)
  {
    if q.Quant? && !x.Set? {
      PlainExact(env, x, q, i, j);
    } else if ByteItems(x, q).Cons? {
      OneItem(env, ByteItems(x, q).head, i, j);
    }
  }

  // ---------------------------------------------------------------------------------------
  // Groups: the code matches between the minimum and the maximum number of times.

  lemma {:induction false} TimesJoin(env: Env, alts: Alts, a: nat, b: nat, i: nat, m: nat, j: nat)
    requires MatchTimes(env, alts, a, i, m) && MatchTimes(env, alts, b, m, j)
    ensures MatchTimes(env, alts, a + b, i, j)
    decreases a
  {
    hide MatchAlts;
    if a > 0 {
      var m' := TimesElim(env, alts, a, i, m);
      TimesJoin(env, alts, a - 1, b, m', m, j);
      TimesSucc(env, alts, a - 1 + b, i, m', j);
    }
  }

  lemma {:induction false} TimesCut(env: Env, alts: Alts, a: nat, b: nat, i: nat, j: nat) returns (m: nat)
    requires MatchTimes(env, alts, a + b, i, j)
    ensures MatchTimes(env, alts, a, i, m) && MatchTimes(env, alts, b, m, j)
    decreases a
  {
    hide MatchAlts;
    if a == 0 {
      m := i;
    } else {
      var m' := TimesElim(env, alts, a + b, i, j);
      m := TimesCut(env, alts, a - 1, b, m', j);
      TimesSucc(env, alts, a - 1, i, m', m);
    }
  }

  lemma {:induction false} CopiesIntro(env: Env, g: Grp, n: nat, tail: Items, i: nat, m: nat, j: nat)
    requires g.ket == Ket && MatchTimes(env, g.alts, n, i, m) && MatchItems(env, tail, m, j)
    ensures MatchItems(env, Copies(g, n, tail), i, j)
    decreases n
  {
    hide MatchItems, MatchAlts;
    if n > 0 {
      var m' := TimesElim(env, g.alts, n, i, m);
      CopiesIntro(env, g, n - 1, tail, m', m, j);
      ItemsIntro(env, Copies(g, n, tail), i, m', j);
    }
  }

  lemma {:induction false} CopiesElim(env: Env, g: Grp, n: nat, tail: Items, i: nat, j: nat) returns (m: nat)
    requires g.ket == Ket && MatchItems(env, Copies(g, n, tail), i, j)
    ensures MatchTimes(env, g.alts, n, i, m) && MatchItems(env, tail, m, j)
    decreases n
  {
    hide MatchItems, MatchAlts;
    if n == 0 {
      m := i;
    } else {
      var m' := ItemsElim(env, Copies(g, n, tail), i, j);
      m := CopiesElim(env, g, n - 1, tail, m', j);
      TimesSucc(env, g.alts, n - 1, i, m', m);
    }
  }

  lemma {:induction false} OptionalIntro(env: Env, z: Zero, g: Grp, n: nat, t: nat, i: nat, j: nat)
    requires g.ket == Ket && (z == BraZero || z == BraMinZero) && t <= n && MatchTimes(env, g.alts, t, i, j)
    ensures MatchItems(env, Optional(z, g, n), i, j)
    decreases n
  {
    hide MatchItems, MatchTimes, MatchAlts;
    TimesZero(env, g.alts, i, j);
    NoItems(env, i, j);
    if n > 0 {
      OneItem(env, Optional(z, g, n).head, i, j);
      if t > 0 {
        var m := TimesElim(env, g.alts, t, i, j);
        OptionalIntro(env, z, g, n - 1, t - 1, m, j);
        NoItems(env, m, j);
        if n > 1 {
          var inner := Cons(Group(Once, g), Optional(z, g, n - 1));
          ItemsIntro(env, inner, i, m, j);
          OneBranch(env, inner, i, j);
        }
      }
    }
  }

  lemma {:induction false} OptionalElim(env: Env, z: Zero, g: Grp, n: nat, i: nat, j: nat) returns (t: nat)
    requires g.ket == Ket && (z == BraZero || z == BraMinZero) && MatchItems(env, Optional(z, g, n), i, j)
    ensures t <= n && MatchTimes(env, g.alts, t, i, j)
    decreases n
  {
    hide MatchItems, MatchTimes, MatchAlts;
    t := 0;
    TimesZero(env, g.alts, i, j);
    NoItems(env, i, j);
    if n > 0 && i != j {
      OneItem(env, Optional(z, g, n).head, i, j);
      if n == 1 {
        t := 1;
        TimesZero(env, g.alts, j, j);
        TimesSucc(env, g.alts, 0, i, j, j);
      } else {
        var inner := Cons(Group(Once, g), Optional(z, g, n - 1));
        OneBranch(env, inner, i, j);
        var m := ItemsElim(env, inner, i, j);
        var t' := OptionalElim(env, z, g, n - 1, m, j);
        t := t' + 1;
        TimesSucc(env, g.alts, t', i, m, j);
      }
    }
  }

  lemma NoItems(env: Env, i: nat, j: nat)
    ensures MatchItems(env, Nil, i, j) <==> i == j
  {
  }

  lemma OneBranch(env: Env, b: Items, i: nat, j: nat)
    ensures MatchAlts(env, Last(b), i, j) <==> MatchItems(env, b, i, j)
  {
  }

  lemma {:induction false} LoopIntro(env: Env, g: Grp, q: Quant, n: nat, i: nat, j: nat)
    requires g.ket == Ket && q.Quant? && q.hi.NoMax? && q.lo <= n && MatchTimes(env, g.alts, n, i, j)
    ensures MatchItems(env, GroupItems(g, q), i, j)
  {
    hide MatchItems, MatchTimes, MatchAlts, MatchGrp, AnyLooksEmpty;
    var lo, loop := q.lo, Loop(g, q.mode);
    var last := Cons(Group(Once, loop), Nil);
    if lo == 0 {
      TimesZero(env, g.alts, i, j);
      if n > 0 {
        GrpIntro(env, loop, n, i, j);
      }
      OneItem(env, GroupItems(g, q).head, i, j);
    } else {
      var m := TimesCut(env, g.alts, lo - 1, n - (lo - 1), i, j);
      GrpIntro(env, loop, n - (lo - 1), m, j);
      OneItem(env, last.head, m, j);
      CopiesIntro(env, g, lo - 1, last, i, m, j);
    }
  }

  lemma {:induction false} LoopElim(env: Env, g: Grp, q: Quant, i: nat, j: nat) returns (n: nat)
    requires g.ket == Ket && q.Quant? && q.hi.NoMax? && MatchItems(env, GroupItems(g, q), i, j)
    ensures q.lo <= n && MatchTimes(env, g.alts, n, i, j)
  {
    hide MatchItems, MatchTimes, MatchAlts, MatchGrp, AnyLooksEmpty;
    var lo, loop := q.lo, Loop(g, q.mode);
    var last := Cons(Group(Once, loop), Nil);
    if lo == 0 {
      n := 0;
      TimesZero(env, g.alts, i, j);
      OneItem(env, GroupItems(g, q).head, i, j);
      if i != j {
        n := GrpElim(env, loop, i, j);
      }
    } else {
      var m := CopiesElim(env, g, lo - 1, last, i, j);
      OneItem(env, last.head, m, j);
      var n' := GrpElim(env, loop, m, j);
      n := lo - 1 + n';
      TimesJoin(env, g.alts, lo - 1, n', i, m, j);
    }
  }

  lemma {:induction false} GroupIntro(env: Env, g: Grp, q: Quant, n: nat, i: nat, j: nat)
    requires g.ket == Ket && WfQuant(q) && Within(q, n) && MatchTimes(env, g.alts, n, i, j)
    ensures MatchItems(env, GroupItems(g, q), i, j)
  {
    hide MatchItems, MatchTimes, MatchAlts, AnyLooksEmpty, Copies, Optional;
    match q
    case Plain =>
      GrpIntro(env, g, n, i, j);
      OneItem(env, Group(Once, g), i, j);
    case Quant(lo, Max(hi), m, _) =>
      if hi == 0 {
        TimesZero(env, g.alts, i, j);
        OneItem(env, Group(SkipZero, g), i, j);
      } else {
        var z := if m == Lazy then BraMinZero else BraZero;
        var m := TimesCut(env, g.alts, lo, n - lo, i, j);
        OptionalIntro(env, z, g, hi - lo, n - lo, m, j);
        CopiesIntro(env, g, lo, Optional(z, g, hi - lo), i, m, j);
      }
    case Quant(lo, NoMax, m, _) =>
      LoopIntro(env, g, q, n, i, j);
  }

  lemma {:induction false} GroupElim(env: Env, g: Grp, q: Quant, i: nat, j: nat) returns (n: nat)
    requires g.ket == Ket && WfQuant(q) && MatchItems(env, GroupItems(g, q), i, j)
    ensures Within(q, n) && MatchTimes(env, g.alts, n, i, j)
  {
    hide MatchItems, MatchTimes, MatchAlts, AnyLooksEmpty, Copies, Optional;
    match q
    case Plain =>
      OneItem(env, Group(Once, g), i, j);
      n := GrpElim(env, g, i, j);
    case Quant(lo, Max(hi), m, _) =>
      if hi == 0 {
        n := 0;
        TimesZero(env, g.alts, i, j);
        OneItem(env, Group(SkipZero, g), i, j);
      } else {
        var z := if m == Lazy then BraMinZero else BraZero;
        var m := CopiesElim(env, g, lo, Optional(z, g, hi - lo), i, j);
        var t := OptionalElim(env, z, g, hi - lo, m, j);
        n := lo + t;
        TimesJoin(env, g.alts, lo, t, i, m, j);
      }
    case Quant(lo, NoMax, m, _) =>
      n := LoopElim(env, g, q, i, j);
  }

  /** For every body and every quantifier, the replicated code of a group matches exactly the
      permitted numbers of repetitions. */
  lemma {:induction false} GroupExact(env: Env, g: Grp, q: Quant, i: nat, j: nat)
    requires g.ket == Ket && WfQuant(q)
    ensures MatchItems(env, GroupItems(g, q), i, j) <==>
      exists n: nat :: Within(q, n) && MatchTimes(env, g.alts, n, i, j)
  {
    hide MatchItems, MatchTimes, GroupItems;
    if MatchItems(env, GroupItems(g, q), i, j) {
      var n := GroupElim(env, g, q, i, j);
      assert Within(q, n) && MatchTimes(env, g.alts, n, i, j);
    }
    forall n: nat | Within(q, n) && MatchTimes(env, g.alts, n, i, j) ensures MatchItems(env, GroupItems(g, q), i, j) {
      GroupIntro(env, g, q, n, i, j);
    }
  }

  // ---------------------------------------------------------------------------------------
  // Whole patterns

  /** Every byte that is made possessive is followed by an item that has to occur and matches nothing
      that the byte matches. With the tables of the C locale the latter follows from the answer. */
  ghost predicate Sure(ct: CTypes, p: Piece, rest: Branch)
    decreases p
  {
    match p
    case Byte(x, _, q) => Possessified(ct, x, q, rest) != q ==> Safe(ct, x, rest.p.x, rest.p.q)
    case Paren(_, alts, _) => SureChoice(ct, alts)
  }

  ghost predicate SureBranch(ct: CTypes, b: Branch)
    decreases b
  {
    match b case Done => true case Then(p, rest) => Sure(ct, p, rest) && SureBranch(ct, rest)
  }

  ghost predicate SureChoice(ct: CTypes, alts: Choice)
    decreases alts
  {
    match alts case Only(b) => SureBranch(ct, b) case Or(b, more) => SureBranch(ct, b) && SureChoice(ct, more)
  }

  /** Then the possessive form changes nothing, whatever the mode was, */
  lemma {:induction false} AutoSafe(env: Env, x: Single, q: Quant, rest: Branch, i: nat, m: nat, j: nat)
    requires CheckAuto(env.ctypes, x, rest) && Safe(env.ctypes, x, rest.p.x, rest.p.q)
    requires q.Quant? && q.hi.NoMax? && MeansBranch(env, rest, m, j)
    ensures MeansByte(env, x, q, i, m) <==> MeansByte(env, x, q.(mode := Poss), i, m)
  {
    hide Safe, Excludes, MeansBranch, AllTest;
    var m' := BranchElim(env, rest, m, j);
    NextBegins(env, x, rest.p.x, rest.p.q, m, m');
  }

  /** and there is only one place where the repeat can end and the rest match. */
  lemma {:induction false} AutoUnique(env: Env, x: Single, q: Quant, rest: Branch, i: nat, m: nat, j: nat, m': nat,
                                      j': nat)
    requires CheckAuto(env.ctypes, x, rest) && Safe(env.ctypes, x, rest.p.x, rest.p.q)
    requires MeansByte(env, x, q, i, m) && MeansBranch(env, rest, m, j)
    requires MeansByte(env, x, q, i, m') && MeansBranch(env, rest, m', j')
    ensures m == m'
  {
    hide Safe, Excludes, MeansBranch;
    var m1 := BranchElim(env, rest, m, j);
    NextBegins(env, x, rest.p.x, rest.p.q, m, m1);
    var m2 := BranchElim(env, rest, m', j');
    NextBegins(env, x, rest.p.x, rest.p.q, m', m2);
  }

  lemma {:induction false} TimesExact(env: Env, alts: Choice, k: nat, n: nat, i: nat, j: nat)
    requires i <= |env.subject| && WfChoice(alts) && SureChoice(env.ctypes, alts)
    ensures MatchTimes(env, ChoiceAlts(env.ctypes, alts, k), n, i, j) <==> MeansTimes(env, alts, n, i, j)
    decreases alts, 1, n
  {
    hide MatchAlts, MeansChoice, ChoiceAlts, WfChoice, SureChoice;
    var g := ChoiceAlts(env.ctypes, alts, k);
    if n > 0 {
      if MatchTimes(env, g, n, i, j) {
        var m := TimesElim(env, g, n, i, j);
        AltsBounds(env, g, i, m);
        ChoiceExact(env, alts, k, i, m);
        TimesExact(env, alts, k, n - 1, m, j);
      }
      if MeansTimes(env, alts, n, i, j) {
        var m := MeansTimesElim(env, alts, n, i, j);
        ChoiceExact(env, alts, k, i, m);
        AltsBounds(env, g, i, m);
        TimesExact(env, alts, k, n - 1, m, j);
      }
    }
  }

  /** The code of a parenthesis, or of a whole pattern, matches what the alternatives mean. */
  lemma {:induction false} ChoiceExact(env: Env, alts: Choice, k: nat, i: nat, j: nat)
    requires i <= |env.subject| && WfChoice(alts) && SureChoice(env.ctypes, alts)
    ensures MatchAlts(env, ChoiceAlts(env.ctypes, alts, k), i, j) <==> MeansChoice(env, alts, i, j)
    decreases alts, 0, 0
  {
    hide MatchItems, MeansBranch, BranchItems, WfBranch, SureBranch;
    BranchExact(env, alts.b, k, i, j);
    if alts.Or? {
      ChoiceExact(env, alts.more, k + ParensBranch(alts.b), i, j);
    }
  }

  /** One item: for a byte with the mode that it is compiled with. */
  lemma {:induction false} PieceExact(env: Env, p: Piece, rest: Branch, k: nat, i: nat, m: nat)
    requires i <= |env.subject| && WfPiece(p) && Sure(env.ctypes, p, rest)
    ensures MatchItems(env, PieceItems(env.ctypes, p, rest, k), i, m) <==>
      match p
      case Byte(x, _, q) => MeansByte(env, x, Possessified(env.ctypes, x, q, rest), i, m)
      case Paren(_, _, _) => MeansPiece(env, p, i, m)
    decreases p, 1, 0
  {
    hide MatchItems, MatchTimes, MeansTimes, MeansByte, Safe, GroupItems, ByteItems, CheckAuto;
    match p
    case Byte(x, _, q) =>
      ByteExact(env, x, Possessified(env.ctypes, x, q, rest), i, m);
    case Paren(capturing, alts, q) =>
      var g := ParenGrp(env.ctypes, capturing, alts, k);
      GroupExact(env, g, q, i, m);
      forall n: nat ensures MatchTimes(env, g.alts, n, i, m) <==> MeansTimes(env, alts, n, i, m) {
        TimesExact(env, alts, if capturing then k + 1 else k, n, i, m);
      }
  }

  /** The code of a branch matches what the branch means. */
  lemma {:induction false} BranchExact(env: Env, b: Branch, k: nat, i: nat, j: nat)
    requires i <= |env.subject| && WfBranch(b) && SureBranch(env.ctypes, b)
    ensures MatchItems(env, BranchItems(env.ctypes, b, k), i, j) <==> MeansBranch(env, b, i, j)
    decreases b, 1, 0
  {
    hide MatchItems, MeansPiece, PieceItems, WfPiece, Sure, MeansByte, CheckAuto;
    NoItems(env, i, j);
    if b.Then? {
      var first, next := PieceItems(env.ctypes, b.p, b.rest, k), BranchItems(env.ctypes, b.rest, k + Parens(b.p));
      if MatchItems(env, BranchItems(env.ctypes, b, k), i, j) {
        var m := AppendElim(env, first, next, i, j);
        StepExact(env, b, k, i, m, j);
        BranchExact(env, b.rest, k + Parens(b.p), m, j);
      }
      if MeansBranch(env, b, i, j) {
        var m := BranchElim(env, b, i, j);
        StepExact(env, b, k, i, m, j);
        BranchExact(env, b.rest, k + Parens(b.p), m, j);
        AppendIntro(env, first, next, i, m, j);
      }
    }
  }

  lemma {:induction false} StepExact(env: Env, b: Branch, k: nat, i: nat, m: nat, j: nat)
    requires i <= |env.subject| && b.Then? && WfBranch(b) && SureBranch(env.ctypes, b)
    ensures var first := PieceItems(env.ctypes, b.p, b.rest, k);
      && (MatchItems(env, first, i, m) ==> m <= |env.subject|)
      && (MeansBranch(env, b.rest, m, j) ==> (MatchItems(env, first, i, m) <==> MeansPiece(env, b.p, i, m)))
      && (MatchItems(env, first, i, m) ==> MeansPiece(env, b.p, i, m))
    decreases b, 0, 0
  {
    hide MatchItems, PieceItems, MeansTimes, MeansBranch, AllTest, CheckAuto, WfBranch, SureBranch, Safe;
    var first := PieceItems(env.ctypes, b.p, b.rest, k);
    WfFirst(env.ctypes, b);
    PieceExact(env, b.p, b.rest, k, i, m);
    if MatchItems(env, first, i, m) {
      ItemsBounds(env, first, i, m);
    }
    if MeansBranch(env, b.rest, m, j) && b.p.Byte? && Possessified(env.ctypes, b.p.x, b.p.q, b.rest) != b.p.q {
      AutoSafe(env, b.p.x, b.p.q, b.rest, i, m, j);
    }
  }

  lemma WfFirst(ct: CTypes, b: Branch)
    requires b.Then? && WfBranch(b) && SureBranch(ct, b)
    ensures WfPiece(b.p) && Sure(ct, b.p, b.rest) && WfBranch(b.rest) && SureBranch(ct, b.rest)
  {
  }
}
