/** What a code tree matches: a relation between the start and the end of the matched bytes,
    given by structural recursion and independent of any matching engine. */
module Semantics {
  import opened Tree

  ghost predicate MatchItem(env: Env, it: Item, i: nat, j: nat)
    decreases it, 0, 0
  {
    match it
    case One(x) => i < |env.subject| && j == i + 1 && Test(env, x, env.subject[i])
    case Many(x, r) => ManyMatches(env, x, r, i, j)
    case Group(z, g) =>
      match z
      case Once => MatchGrp(env, g, i, j)
      case BraZero => i == j || MatchGrp(env, g, i, j)
      case BraMinZero => i == j || MatchGrp(env, g, i, j)
      case SkipZero => i == j
  }

  /** A bracket without an unlimited repeat is matched once, one with KETRMAX or KETRMIN one or more times. */
  ghost predicate MatchGrp(env: Env, g: Grp, i: nat, j: nat)
    decreases g, 1, 0
  {
    if g.ket == Ket then MatchAlts(env, g.alts, i, j)
    else exists n: nat :: MatchTimes(env, g.alts, n, i, j) && n >= 1
  }

  /** Exactly n consecutive matches of some branch. */
  ghost predicate MatchTimes(env: Env, alts: Alts, n: nat, i: nat, j: nat)
    decreases alts, 1, n
  {
    if n == 0 then i == j
    else exists m: nat :: MatchAlts(env, alts, i, m) && MatchTimes(env, alts, n - 1, m, j)
  }

  ghost predicate MatchAlts(env: Env, alts: Alts, i: nat, j: nat)
    decreases alts, 0, 0
  {
    match alts
    case Last(b) => MatchItems(env, b, i, j)
    case More(b, rest) => MatchItems(env, b, i, j) || MatchAlts(env, rest, i, j)
  }

  ghost predicate MatchItems(env: Env, items: Items, i: nat, j: nat)
    decreases items, 0, 0
  {
    match items
    case Nil => i == j
    case Cons(it, t) => exists m: nat :: MatchItem(env, it, i, m) && MatchItems(env, t, m, j)
  }

  lemma {:induction false} AltsInclude(env: Env, b: Items, alts: Alts, i: nat, j: nat)
    requires InAlts(b, alts) && MatchItems(env, b, i, j)
    ensures MatchAlts(env, alts, i, j)
  {
    if alts.More? && b != alts.b {
      AltsInclude(env, b, alts.rest, i, j);
    }
  }

  /** Unrolling a repeated bracket at its front. */
  lemma {:induction false} TimesSucc(env: Env, alts: Alts, n: nat, i: nat, m: nat, j: nat)
    requires MatchAlts(env, alts, i, m) && MatchTimes(env, alts, n, m, j)
    ensures MatchTimes(env, alts, n + 1, i, j)
  {
  }

  lemma TimesElim(env: Env, alts: Alts, n: nat, i: nat, j: nat) returns (m: nat)
    requires n > 0 && MatchTimes(env, alts, n, i, j)
    ensures MatchAlts(env, alts, i, m) && MatchTimes(env, alts, n - 1, m, j)
  {
    m :| MatchAlts(env, alts, i, m) && MatchTimes(env, alts, n - 1, m, j);
  }

  lemma TimesZero(env: Env, alts: Alts, i: nat, j: nat)
    ensures MatchTimes(env, alts, 0, i, j) <==> i == j
  {
  }

  lemma ItemsElim(env: Env, items: Items, i: nat, j: nat) returns (m: nat)
    requires items.Cons? && MatchItems(env, items, i, j)
    ensures MatchItem(env, items.head, i, m) && MatchItems(env, items.tail, m, j)
  {
    m :| MatchItem(env, items.head, i, m) && MatchItems(env, items.tail, m, j);
  }

  lemma ItemsIntro(env: Env, items: Items, i: nat, m: nat, j: nat)
    requires items.Cons? && MatchItem(env, items.head, i, m) && MatchItems(env, items.tail, m, j)
    ensures MatchItems(env, items, i, j)
  {
  }

  lemma GrpElim(env: Env, g: Grp, i: nat, j: nat) returns (n: nat)
    requires MatchGrp(env, g, i, j)
    ensures MatchTimes(env, g.alts, n, i, j) && n >= 1 && (g.ket == Ket ==> n == 1)
  {
    if g.ket == Ket {
      n := 1;
      TimesSucc(env, g.alts, 0, i, j, j);
    } else {
      n :| MatchTimes(env, g.alts, n, i, j) && n >= 1;
    }
  }

  lemma GrpIntro(env: Env, g: Grp, n: nat, i: nat, j: nat)
    requires MatchTimes(env, g.alts, n, i, j) && n >= 1 && (g.ket == Ket ==> n == 1)
    ensures MatchGrp(env, g, i, j)
  {
    if g.ket == Ket {
      var m := TimesElim(env, g.alts, n, i, j);
    }
  }

  /** A match never moves backwards and never leaves the subject. */
  lemma {:induction false} ItemBounds(env: Env, it: Item, i: nat, j: nat)
    requires i <= |env.subject|
    requires MatchItem(env, it, i, j)
    ensures i <= j <= |env.subject|
    decreases it, 1, 0
  {
    if it.Group? && it.zero != SkipZero && (it.zero == Once || i != j) {
      var g := it.g;
      if g.ket == Ket {
        AltsBounds(env, g.alts, i, j);
      } else {
        assert MatchGrp(env, g, i, j);
        var n: nat :| MatchTimes(env, g.alts, n, i, j) && n >= 1;
        TimesBounds(env, g.alts, n, i, j);
      }
    }
  }

  lemma {:induction false} TimesBounds(env: Env, alts: Alts, n: nat, i: nat, j: nat)
    requires i <= |env.subject|
    requires MatchTimes(env, alts, n, i, j)
    ensures i <= j <= |env.subject|
    decreases alts, 1, n
  {
    if n > 0 {
      var m: nat :| MatchAlts(env, alts, i, m) && MatchTimes(env, alts, n - 1, m, j);
      AltsBounds(env, alts, i, m);
      TimesBounds(env, alts, n - 1, m, j);
    }
  }

  lemma {:induction false} AltsBounds(env: Env, alts: Alts, i: nat, j: nat)
    requires i <= |env.subject|
    requires MatchAlts(env, alts, i, j)
    ensures i <= j <= |env.subject|
    decreases alts, 0, 0
  {
    if MatchItems(env, alts.b, i, j) {
      ItemsBounds(env, alts.b, i, j);
    } else {
      AltsBounds(env, alts.rest, i, j);
    }
  }

  lemma {:induction false} ItemsBounds(env: Env, items: Items, i: nat, j: nat)
    requires i <= |env.subject|
    requires MatchItems(env, items, i, j)
    ensures i <= j <= |env.subject|
    decreases items, 0, 0
  {
    if items.Cons? {
      var m: nat :| MatchItem(env, items.head, i, m) && MatchItems(env, items.tail, m, j);
      ItemBounds(env, items.head, i, m);
      ItemsBounds(env, items.tail, m, j);
    }
  }
}
