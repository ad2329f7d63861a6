/** could_be_empty_branch(): the scan that decides whether an unlimited group gets the S form, that
    is, whether match() checks at run time that its iterations consume something. */
module Emptiness {
  import opened Tree
  import opened Semantics
  import opened Progress
  import opened Layout

  /** The answer of the scan for the rest of a branch. Brackets in the S form are not recognized as
      groups: their opening opcode is stepped over, and the end of their first branch ends the scan. */
  predicate LooksEmpty(items: Items)
    decreases items
  {
    match items
    case Nil => true
    case Cons(it, t) =>
      match it
      case One(_) => false
      case Many(_, r) => Min(r) == 0 && LooksEmpty(t)
      case Group(z, g) =>
        if z != Once then LooksEmpty(t)
        else if g.s then LooksEmpty(g.alts.b)
        else AnyLooksEmpty(g.alts) && LooksEmpty(t)
  }

  predicate AnyLooksEmpty(alts: Alts)
    decreases alts
  {
    LooksEmpty(alts.b) || (alts.More? && AnyLooksEmpty(alts.rest))
  }

  // ---------------------------------------------------------------------------------------
  // What the answer should be

  /** Nullable is about empty matches: a branch that is not nullable has none, and one that is has
      one at the end of every subject. */
  lemma {:induction false} NullableItems(env: Env, items: Items, i: nat)
    requires i <= |env.subject|
    ensures MatchItems(env, items, i, i) ==> Nullable(items)
    ensures Nullable(items) && i == |env.subject| ==> MatchItems(env, items, i, i)
    decreases items, 2
  {
    hide MatchItem, NullableItem;
    if items.Cons? {
      NullableOne(env, items.head, i);
      NullableItems(env, items.tail, i);
      if MatchItems(env, items, i, i) {
        var m := ItemsElim(env, items, i, i);
        ItemBounds(env, items.head, i, m);
        ItemsBounds(env, items.tail, m, i);
      }
      if Nullable(items) && i == |env.subject| {
        ItemsIntro(env, items, i, i, i);
      }
    }
  }

  lemma {:induction false} NullableOne(env: Env, it: Item, i: nat)
    requires i <= |env.subject|
    ensures MatchItem(env, it, i, i) ==> NullableItem(it)
    ensures NullableItem(it) && i == |env.subject| ==> MatchItem(env, it, i, i)
    decreases it, 1
  {
    hide MatchGrp, NullableAlts;
    if it.Group? {
      NullableGroup(env, it.g, i);
    }
  }

  lemma {:induction false} NullableGroup(env: Env, g: Grp, i: nat)
    requires i <= |env.subject|
    ensures MatchGrp(env, g, i, i) ==> NullableAlts(g.alts)
    ensures NullableAlts(g.alts) && i == |env.subject| ==> MatchGrp(env, g, i, i)
    decreases g, 1
  {
    hide MatchGrp, NullableAlts, MatchTimes, MatchAlts;
    NullableChoice(env, g.alts, i);
    if MatchGrp(env, g, i, i) {
      var n := GrpElim(env, g, i, i);
      var m := TimesElim(env, g.alts, n, i, i);
      AltsBounds(env, g.alts, i, m);
      TimesBounds(env, g.alts, n - 1, m, i);
    }
    if NullableAlts(g.alts) && i == |env.subject| {
      TimesZero(env, g.alts, i, i);
      TimesSucc(env, g.alts, 0, i, i, i);
      GrpIntro(env, g, 1, i, i);
    }
  }

  lemma {:induction false} NullableChoice(env: Env, alts: Alts, i: nat)
    requires i <= |env.subject|
    ensures MatchAlts(env, alts, i, i) ==> NullableAlts(alts)
    ensures NullableAlts(alts) && i == |env.subject| ==> MatchAlts(env, alts, i, i)
    decreases alts, 3
  {
    hide MatchItems, Nullable;
    NullableItems(env, alts.b, i);
    if alts.More? {
      NullableChoice(env, alts.rest, i);
    }
  }

  // ---------------------------------------------------------------------------------------
  // When the answer is right

  /** The scan stops at an item inside the first branch of an S group, although the group has an
      empty branch and what follows may be empty too. */
  predicate Trap(items: Items)
    decreases items
  {
    match items
    case Nil => false
    case Cons(it, t) =>
      match it
      case One(_) => false
      case Many(_, r) => Min(r) == 0 && Trap(t)
      case Group(z, g) =>
        if z != Once then Trap(t)
        else if g.s then !LooksEmpty(g.alts.b) && NullableAlts(g.alts) && Nullable(t)
        else if AnyLooksEmpty(g.alts) then NullableAlts(g.alts) && Trap(t)
        else AnyTrap(g.alts) && Nullable(t)
  }

  predicate AnyTrap(alts: Alts)
    decreases alts
  {
    Trap(alts.b) || (alts.More? && AnyTrap(alts.rest))
  }

  /** The scan says "cannot be empty" of a branch that can exactly if it walks into the trap. */
  lemma {:induction false} TrapExact(items: Items)
    ensures Trap(items) <==> !LooksEmpty(items) && Nullable(items)
    decreases items
  {
    if items.Cons? {
      TrapExact(items.tail);
      if items.head.Group? && items.head.zero == Once && !items.head.g.s && !AnyLooksEmpty(items.head.g.alts) {
        AnyTrapExact(items.head.g.alts);
      }
    }
  }

  lemma {:induction false} AnyTrapExact(alts: Alts)
    requires !AnyLooksEmpty(alts)
    ensures AnyTrap(alts) <==> NullableAlts(alts)
    decreases alts
  {
    TrapExact(alts.b);
    if alts.More? {
      AnyTrapExact(alts.rest);
    }
  }

  /** S groups only behind BRAZERO, BRAMINZERO or SKIPZERO. */
  predicate Sheltered(items: Items)
    decreases items
  {
    match items
    case Nil => true
    case Cons(it, t) => (it.Group? && it.zero == Once ==> !it.g.s && ShelteredAlts(it.g.alts)) && Sheltered(t)
  }

  predicate ShelteredAlts(alts: Alts)
    decreases alts
  {
    Sheltered(alts.b) && (alts.More? ==> ShelteredAlts(alts.rest))
  }

  /** Then the scan decides whether a branch can match the empty string. */
  lemma {:induction false} ShelteredExact(items: Items)
    requires Sheltered(items)
    ensures LooksEmpty(items) <==> Nullable(items)
    decreases items
  {
    if items.Cons? {
      ShelteredExact(items.tail);
      if items.head.Group? && items.head.zero == Once {
        ShelteredChoice(items.head.g.alts);
      }
    }
  }

  lemma {:induction false} ShelteredChoice(alts: Alts)
    requires ShelteredAlts(alts)
    ensures AnyLooksEmpty(alts) <==> NullableAlts(alts)
    decreases alts
  {
    ShelteredExact(alts.b);
    if alts.More? {
      ShelteredChoice(alts.rest);
    }
  }

  // ---------------------------------------------------------------------------------------
  // The scan of the bytes

  /** The bytes from p are the items and then the end of a branch. */
  ghost predicate Ahead(code: Code, p: nat, items: Items) {
    var end := p + LenItems(items);
    ItemsAt(code, p, items) && end + 2 < |code| && OP_ALT <= code[end] <= OP_KETRMIN
  }

  lemma HeaderAhead(code: Code, h: nat, hl: nat, alts: Alts, g: Grp, q: nat)
    requires Header(code, h, hl, alts, g, q)
    ensures Ahead(code, h + hl, alts.b) && h + hl + LenItems(alts.b) <= q + LenGrp(g) - 3
  {
    hide GrpAt, ItemsAt, LenItems, LenGrp, PartOf;
    NextHeader(code, h, hl, alts, g, q);
  }

  lemma AheadCons(code: Code, p: nat, items: Items)
    requires Ahead(code, p, items) && items.Cons?
    ensures ItemAt(code, p, items.head) && Ahead(code, p + LenItem(items.head), items.tail)
    ensures LenItems(items) == LenItem(items.head) + LenItems(items.tail)
  {
    hide ItemAt, LenItem;
  }

  lemma AheadNil(code: Code, p: nat)
    requires Ahead(code, p, Nil)
    ensures p + 2 < |code| && OP_ALT <= code[p] <= OP_KETRMIN
  {
  }

  lemma {:induction false} AheadOp(code: Code, p: nat, items: Items)
    requires Ahead(code, p, items)
    ensures p < |code| && !(OP_CRSTAR <= code[p] <= OP_CRMINRANGE)
  {
    hide Ahead, LenItem, LenItems, GrpAt;
    if items.Nil? {
      AheadNil(code, p);
    } else {
      AheadCons(code, p, items);
      if items.head.Group? {
        GrpOp(code, p + (if items.head.zero == Once then 0 else 1), items.head.g);
      }
    }
  }

  lemma GrpOp(code: Code, q: nat, g: Grp)
    requires GrpAt(code, q, g)
    ensures q + 2 < |code| && code[q] == BraOp(g)
  {
  }

  /** What the byte at p says about the item there: whether it must match something, may match
      nothing, is a group, or ends the branch. */
  ghost predicate Reads(code: Code, p: nat, items: Items) {
    && p < |code|
    && var op := code[p];
      match items
      case Nil => OP_ALT <= op <= OP_KETRMIN
      case Cons(One(x), _) =>
        if x.Set? then (op == OP_CLASS || op == OP_NCLASS) && p + 33 < |code| && !(OP_CRSTAR <= code[p + 33] <= OP_CRMINRANGE)
        else op == OP_CHAR || op == OP_NOT || 6 <= op <= 13
      case Cons(Many(x, r), _) =>
        if x.Set? then
          && (op == OP_CLASS || op == OP_NCLASS) && p + 33 < |code| && code[p + 33] == OP_CRSTAR + RepIndex(r) &&
             RepIndex(r) < 8
          && (r.Range? <==> RepIndex(r) >= 6) && (r.Range? ==> p + 35 < |code| && Get2(code, p + 34) == r.lo)
        else OP_STAR <= op < OP_CRSTAR && (op - OP_STAR) % 13 == RepIndex(r) && !r.Range? && (r.Exact? ==> r.n > 0)
      case Cons(Group(z, g), _) =>
        if z == Once then op == BraOp(g) else op == OP_BRAZERO || op == OP_BRAMINZERO || op == OP_SKIPZERO
  }

  lemma {:induction false} AheadReads(code: Code, p: nat, items: Items)
    requires Ahead(code, p, items)
    ensures Reads(code, p, items)
  {
    hide Ahead, LenItems, GrpAt, LenGrp;
    if items.Nil? {
      AheadNil(code, p);
    } else {
      AheadCons(code, p, items);
      if items.head.Group? {
        GrpOp(code, p + (if items.head.zero == Once then 0 else 1), items.head.g);
      } else if items.head.One? && items.head.x.Set? {
        AheadOp(code, p + 33, items.tail);
      }
    }
  }

  /** The entry of an opcode in the table of lengths, for bracket opcodes and ALT. */
  function OpLength(op: byte): nat {
    if op == OP_CBRA || op == OP_SCBRA then 5 else 3
  }

  /** The scan goes on after an item that may match nothing. */
  lemma StepEmpty(items: Items)
    requires items.Cons?
    ensures items.head.One? ==> !LooksEmpty(items)
    ensures items.head.Many? ==> (LooksEmpty(items) <==> Min(items.head.r) == 0 && LooksEmpty(items.tail))
    ensures items.head.Group? && items.head.zero != Once ==> (LooksEmpty(items) <==> LooksEmpty(items.tail))
    ensures items.head.Group? && items.head.zero == Once && items.head.g.s ==>
      (LooksEmpty(items) <==> LooksEmpty(items.head.g.alts.b))
    ensures items.head.Group? && items.head.zero == Once && !items.head.g.s ==>
      (LooksEmpty(items) <==> AnyLooksEmpty(items.head.g.alts) && LooksEmpty(items.tail))
  {
  }

  lemma SmallerGroup(items: Items)
    requires items.Cons? && items.head.Group?
    ensures LenAlts(items.head.g.alts) < LenItems(items) && LenItems(items.head.g.alts.b) < LenItems(items)
  {
    GroupLen(items.head);
    assert LenItems(items) == LenItem(items.head) + LenItems(items.tail);
    assert LenGrp(items.head.g) > LenAlts(items.head.g.alts);
  }

  lemma SmallerBranch(alts: Alts)
    ensures LenItems(alts.b) <= LenAlts(alts) && (alts.More? ==> LenAlts(alts.rest) < LenAlts(alts))
  {
  }

  /** could_be_empty_branch() on the header at h, an opening bracket or an ALT. */
  method CouldBeEmptyBranch(code: Code, h: nat, endcode: nat, ghost alts: Alts, ghost g: Grp, ghost q: nat)
    returns (empty: bool)
    requires h < |code| && Header(code, h, OpLength(code[h]), alts, g, q) && q + LenGrp(g) - 3 <= endcode
    ensures empty <==> LooksEmpty(alts.b)
    decreases LenAlts(alts), 1
  {
    hide Header, Ahead, LenGrp, LenItems, LooksEmpty, AnyLooksEmpty, LenAlts, LenItem, LenMany, LenSingle, SingleAt,
         ManyAt, GrpAt;
    HeaderAhead(code, h, OpLength(code[h]), alts, g, q);
    SmallerBranch(alts);
    var p: nat := h + OpLength(code[h]);
    ghost var items := alts.b;
    NothingLeft(Nil);
    while p < endcode
      invariant Ahead(code, p, items) && p + LenItems(items) <= endcode
      invariant LenItems(items) <= LenItems(alts.b) && (LooksEmpty(items) <==> LooksEmpty(alts.b))
      decreases LenItems(items)
    {
      AheadReads(code, p, items);
      var op := code[p];
      if items.Cons? {
        AheadCons(code, p, items);
        StepEmpty(items);
        if items.head.Many? {
          ManyLen(items.head);
        }
      }
      if op == OP_BRAZERO || op == OP_BRAMINZERO || op == OP_SKIPZERO {
        ghost var ket := p + 1 + LenGrp(items.head.g) - 3;
        GroupLeads(code, p + 1, items.head.g);
        GroupLen(items.head);
        var k := FollowLinks(code, p + 1 + Get2(code, p + 2), ket);
        p, items := k + 3, items.tail;
      } else if op == OP_BRA || op == OP_CBRA {
        SmallerGroup(items);
        GroupLen(items.head);
        var any, k := AnyBranch(code, p, endcode, items.head.g);
        if !any {
          return false;
        }
        p, items := k + 3, items.tail;
      } else if op == OP_SBRA || op == OP_SCBRA {
        SmallerGroup(items);
        GroupLen(items.head);
        OpenGroup(code, p, items.head.g);
        HeaderAhead(code, p, OpLength(op), items.head.g.alts, items.head.g, p);
        p, items := p + OpLength(op), items.head.g.alts.b;
      } else if OP_ALT <= op <= OP_KETRMIN {
        return true;
      } else {
        var must, len := MustMatch(code, p, items);
        if must {
          return false;
        }
        p, items := p + len, items.tail;
      }
    }
    NothingLeft(items);
    return true;
  }

  lemma NothingLeft(items: Items)
    ensures LenItems(items) == 0 ==> LooksEmpty(items)
    ensures LooksEmpty(Nil)
  {
  }

  /** Opcodes for single bytes: whether they must match one, and the length of those that need not. */
  method MustMatch(code: Code, p: nat, ghost items: Items) returns (must: bool, len: nat)
    requires Reads(code, p, items) && items.Cons? && !items.head.Group?
    ensures must <==> items.head.One? || Min(items.head.r) > 0
    ensures !must ==> len == LenMany(items.head.x, items.head.r)
  {
    var op := code[p];
    must, len := true, 0;
    if op == OP_CLASS || op == OP_NCLASS {
      var rep := code[p + 33];
      if rep == OP_CRRANGE || rep == OP_CRMINRANGE {
        must, len := Get2(code, p + 34) > 0, 38;
      } else if OP_CRSTAR <= rep < OP_CRRANGE && rep != OP_CRSTAR + 2 && rep != OP_CRSTAR + 3 {
        must, len := false, 34;
      }
    } else if OP_STAR <= op < OP_CRSTAR {
      var k := (op - OP_STAR) % 13;
      if k != 2 && k != 3 && k != 8 && k != 10 {
        must, len := false, if k == 6 || k == 7 || k == 12 then 4 else 2;
      }
    }
  }

  lemma GroupLen(it: Item)
    requires it.Group?
    ensures LenItem(it) == (if it.zero == Once then 0 else 1) + LenGrp(it.g)
  {
  }

  lemma ManyLen(it: Item)
    requires it.Many?
    ensures LenItem(it) == LenMany(it.x, it.r)
  {
  }

  /** The scan of all the branches of a closed bracket, following the links. */
  method AnyBranch(code: Code, q: nat, endcode: nat, ghost g: Grp) returns (any: bool, k: nat)
    requires GrpAt(code, q, g) && q + LenGrp(g) - 3 <= endcode
    ensures k == q + LenGrp(g) - 3 && (any <==> AnyLooksEmpty(g.alts))
    decreases LenAlts(g.alts), 2
  {
    hide Header, LenGrp, LenItems, LooksEmpty, LenAlts, GrpAt;
    var h: nat := q;
    any := false;
    OpenGroup(code, q, g);
    GrpOp(code, q, g);
    ghost var alts := g.alts;
    var more := true;
    while more
      invariant more ==>
        h < |code| && Header(code, h, OpLength(code[h]), alts, g, q) && LenAlts(alts) <= LenAlts(g.alts)
      invariant more ==> (AnyLooksEmpty(g.alts) <==> any || AnyLooksEmpty(alts))
      invariant !more ==> h == q + LenGrp(g) - 3 && (AnyLooksEmpty(g.alts) <==> any)
      decreases more, alts
    {
      NextHeader(code, h, OpLength(code[h]), alts, g, q);
      SmallerBranch(alts);
      if !any {
        any := CouldBeEmptyBranch(code, h, endcode, alts, g, q);
      }
      h := h + Get2(code, h + 1);
      if code[h] == OP_ALT {
        alts := alts.rest;
      } else {
        more := false;
      }
    }
    k := h;
  }
}
