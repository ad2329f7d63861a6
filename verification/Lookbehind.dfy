/** find_fixedlength(): how far the branch of a lookbehind assertion has to move back, and what a
    match that starts there says about the bytes before the current point. */
module Lookbehind {
  import opened Tree
  import opened Semantics
  import opened Layout
  import opened Emptiness
  import opened Compile

  /** The length of the rest of a branch, or -1. Groups in the S form, optional groups and repeats of
      negated literals are not understood; a repeating ket is taken for an ordinary one. */
  function Fixed(items: Items): (n: int)
    ensures n >= -1
    decreases items
  {
    match items
    case Nil => 0
    case Cons(it, t) =>
      var n := FixedItem(it);
      if n < 0 || Fixed(t) < 0 then -1 else n + Fixed(t)
  }

  function FixedItem(it: Item): (n: int)
    ensures n >= -1
    decreases it
  {
    match it
    case One(_) => 1
    case Many(x, r) => if r.Exact? && !x.NotChr? then r.n else if r.Range? && r.lo == r.hi then r.lo else -1
    case Group(z, g) => if z != Once || g.s then -1 else FixedAlts(g.alts)
  }

  function FixedAlts(alts: Alts): (n: int)
    ensures n >= -1
    decreases alts
  {
    match alts
    case Last(b) => Fixed(b)
    case More(b, rest) => if Fixed(b) == FixedAlts(rest) then Fixed(b) else -1
  }

  // ---------------------------------------------------------------------------------------
  // What the length means

  predicate NoLoops(items: Items)
    decreases items
  {
    items.Cons? ==> NoLoopsItem(items.head) && NoLoops(items.tail)
  }

  predicate NoLoopsItem(it: Item)
    decreases it
  {
    match it
    case One(_) => true
    case Many(_, r) => !(r.Range? && r.hi == 0)
    case Group(_, g) => g.ket == Ket && NoLoopsAlts(g.alts)
  }

  predicate NoLoopsAlts(alts: Alts)
    decreases alts
  {
    NoLoops(alts.b) && (alts.More? ==> NoLoopsAlts(alts.rest))
  }

  /** Every match has at least the length, and exactly the length if nothing in it is repeated without limit. */
  lemma {:induction false} FixedItems(env: Env, items: Items, i: nat, j: nat)
    requires i <= |env.subject| && MatchItems(env, items, i, j) && Fixed(items) >= 0
    ensures i + Fixed(items) <= j && (NoLoops(items) ==> j == i + Fixed(items))
    decreases items, 0, 0
  {
    hide MatchItem, FixedItem, NoLoopsItem;
    if items.Cons? {
      var m := ItemsElim(env, items, i, j);
      ItemBounds(env, items.head, i, m);
      FixedOne(env, items.head, i, m);
      FixedItems(env, items.tail, m, j);
    }
  }

  lemma {:induction false} FixedOne(env: Env, it: Item, i: nat, j: nat)
    requires i <= |env.subject| && MatchItem(env, it, i, j) && FixedItem(it) >= 0
    ensures i + FixedItem(it) <= j && (NoLoopsItem(it) ==> j == i + FixedItem(it))
    decreases it, 1, 0
  {
    hide MatchGrp, MatchTimes, MatchAlts, FixedAlts, NoLoopsAlts;
    if it.Group? {
      var g := it.g;
      var n := GrpElim(env, g, i, j);
      var m := TimesElim(env, g.alts, n, i, j);
      AltsBounds(env, g.alts, i, m);
      FixedBranches(env, g.alts, i, m);
      TimesBounds(env, g.alts, n - 1, m, j);
      if n == 1 {
        TimesZero(env, g.alts, m, j);
      }
    }
  }

  lemma {:induction false} FixedBranches(env: Env, alts: Alts, i: nat, j: nat)
    requires i <= |env.subject| && MatchAlts(env, alts, i, j) && FixedAlts(alts) >= 0
    ensures i + FixedAlts(alts) <= j && (NoLoopsAlts(alts) ==> j == i + FixedAlts(alts))
    decreases alts, 0, 0
  {
    hide MatchItems, Fixed, NoLoops;
    if MatchItems(env, alts.b, i, j) {
      FixedItems(env, alts.b, i, j);
    } else {
      FixedBranches(env, alts.rest, i, j);
    }
  }

  // ---------------------------------------------------------------------------------------
  // When the length is exact

  ghost predicate SameTables(env: Env, tab: Env) {
    env.ctypes == tab.ctypes && env.nl == tab.nl
  }

  /** Some byte passes each test. */
  ghost predicate Solvable(tab: Env, items: Items)
    decreases items
  {
    items.Cons? ==> SolvableItem(tab, items.head) && Solvable(tab, items.tail)
  }

  ghost predicate SolvableItem(tab: Env, it: Item)
    decreases it
  {
    match it
    case One(x) => Passes(tab, x)
    case Many(x, _) => Passes(tab, x)
    case Group(_, g) => SolvableAlts(tab, g.alts)
  }

  ghost predicate SolvableAlts(tab: Env, alts: Alts)
    decreases alts
  {
    Solvable(tab, alts.b) && (alts.More? ==> SolvableAlts(tab, alts.rest))
  }

  ghost predicate Passes(tab: Env, x: Single) {
    exists c: byte :: Test(tab, x, c)
  }

  /** What is repeated without limit has some length. */
  predicate Bulky(items: Items)
    decreases items
  {
    items.Cons? ==> BulkyItem(items.head) && Bulky(items.tail)
  }

  predicate BulkyItem(it: Item)
    decreases it
  {
    it.Group? ==> (it.g.ket != Ket ==> FixedAlts(it.g.alts) > 0) && BulkyAlts(it.g.alts)
  }

  predicate BulkyAlts(alts: Alts)
    decreases alts
  {
    Bulky(alts.b) && (alts.More? ==> BulkyAlts(alts.rest))
  }

  /** The bytes w are in the subject at i. */
  ghost predicate WordAt(env: Env, tab: Env, w: seq<byte>, i: nat) {
    SameTables(env, tab) && i + |w| <= |env.subject| && env.subject[i..i + |w|] == w
  }

  lemma WordParts(env: Env, tab: Env, a: seq<byte>, b: seq<byte>, i: nat)
    requires WordAt(env, tab, a + b, i)
    ensures WordAt(env, tab, a, i) && WordAt(env, tab, b, i + |a|)
  {
    var w := env.subject[i..i + |a + b|];
    assert w[..|a|] == a && w[|a|..] == b;
    assert env.subject[i..i + |a|] == w[..|a|];
    assert env.subject[i + |a|..i + |a| + |b|] == w[|a|..];
  }

  /** The code matches w wherever it is. */
  ghost predicate Spells(tab: Env, items: Items, w: seq<byte>) {
    forall env: Env, i: nat :: WordAt(env, tab, w, i) ==> MatchItems(env, items, i, i + |w|)
  }

  ghost predicate SpellsItem(tab: Env, it: Item, w: seq<byte>) {
    forall env: Env, i: nat :: WordAt(env, tab, w, i) ==> MatchItem(env, it, i, i + |w|)
  }

  ghost predicate SpellsAlts(tab: Env, alts: Alts, w: seq<byte>) {
    forall env: Env, i: nat :: WordAt(env, tab, w, i) ==> MatchAlts(env, alts, i, i + |w|)
  }

  lemma {:induction false} SpellsCons(tab: Env, it: Item, t: Items, a: seq<byte>, b: seq<byte>)
    requires SpellsItem(tab, it, a) && Spells(tab, t, b)
    ensures Spells(tab, Cons(it, t), a + b)
  {
    hide MatchItems, MatchItem, WordAt;
    forall env: Env, i: nat | WordAt(env, tab, a + b, i) ensures MatchItems(env, Cons(it, t), i, i + |a + b|) {
      WordParts(env, tab, a, b, i);
      ItemsIntro(env, Cons(it, t), i, i + |a|, i + |a| + |b|);
    }
  }

  lemma {:induction false} SpellsRun(tab: Env, it: Item, c: byte, n: nat)
    requires it.One? ==> n == 1
    requires it.Many? ==> Min(it.r) <= n && AtMost(it.r, n) && ModeOf(it.r) != Poss
    requires !it.Group? && Test(tab, it.x, c)
    ensures SpellsItem(tab, it, seq(n, _ => c))
  {
    var w := seq(n, _ => c);
    forall env: Env, i: nat | WordAt(env, tab, w, i) ensures MatchItem(env, it, i, i + n) {
      forall k | i <= k < i + n ensures Test(env, it.x, env.subject[k]) {
        assert env.subject[i..i + n][k - i] == w[k - i];
      }
    }
  }

  /** One iteration of a group, or two. */
  lemma {:induction false} SpellsGroup(tab: Env, g: Grp, w: seq<byte>)
    requires SpellsAlts(tab, g.alts, w)
    ensures SpellsItem(tab, Group(Once, g), w)
    ensures g.ket != Ket ==> SpellsItem(tab, Group(Once, g), w + w)
  {
    hide MatchAlts, MatchTimes, MatchGrp, WordAt;
    forall env: Env, i: nat | WordAt(env, tab, w, i) ensures MatchItem(env, Group(Once, g), i, i + |w|) {
      TimesZero(env, g.alts, i + |w|, i + |w|);
      TimesSucc(env, g.alts, 0, i, i + |w|, i + |w|);
      GrpIntro(env, g, 1, i, i + |w|);
    }
    if g.ket != Ket {
      forall env: Env, i: nat | WordAt(env, tab, w + w, i) ensures MatchItem(env, Group(Once, g), i, i + |w + w|) {
        WordParts(env, tab, w, w, i);
        var m, j := i + |w|, i + |w| + |w|;
        TimesZero(env, g.alts, j, j);
        TimesSucc(env, g.alts, 0, m, j, j);
        TimesSucc(env, g.alts, 1, i, m, j);
        GrpIntro(env, g, 2, i, j);
      }
    }
  }

  lemma {:induction false} SpellsBranch(tab: Env, alts: Alts, w: seq<byte>)
    ensures Spells(tab, alts.b, w) ==> SpellsAlts(tab, alts, w)
    ensures alts.More? && SpellsAlts(tab, alts.rest, w) ==> SpellsAlts(tab, alts, w)
  {
    hide MatchItems, WordAt;
  }

  /** Some word of the computed length is matched. */
  lemma {:induction false} Word(tab: Env, items: Items) returns (w: seq<byte>)
    requires WfItems(items) && Fixed(items) >= 0 && Solvable(tab, items)
    ensures |w| == Fixed(items) && Spells(tab, items, w)
    decreases items, 1
  {
    hide FixedItem, SolvableItem, WfItem, MatchItem, SpellsItem, WordAt;
    if items.Nil? {
      w := [];
    } else {
      var a := ItemWord(tab, items.head);
      var b := Word(tab, items.tail);
      SpellsCons(tab, items.head, items.tail, a, b);
      w := a + b;
    }
  }

  lemma {:induction false} ItemWord(tab: Env, it: Item) returns (w: seq<byte>)
    requires WfItem(it) && FixedItem(it) >= 0 && SolvableItem(tab, it)
    ensures |w| == FixedItem(it) && SpellsItem(tab, it, w)
    decreases it, 0
  {
    hide SpellsItem, Spells, SpellsAlts, WfAlts, FixedAlts, SolvableAlts, Test, Fixed, WfItems, Solvable;
    if it.Group? {
      FirstBranch(tab, it.g.alts);
      w := Word(tab, it.g.alts.b);
      SpellsBranch(tab, it.g.alts, w);
      SpellsGroup(tab, it.g, w);
    } else {
      var c: byte :| Test(tab, it.x, c);
      w := seq(FixedItem(it), _ => c);
      SpellsRun(tab, it, c, FixedItem(it));
    }
  }

  lemma FirstBranch(tab: Env, alts: Alts)
    requires WfAlts(alts) && FixedAlts(alts) >= 0 && SolvableAlts(tab, alts)
    ensures WfItems(alts.b) && Fixed(alts.b) == FixedAlts(alts) && Solvable(tab, alts.b)
    ensures alts.More? ==> WfAlts(alts.rest) && FixedAlts(alts.rest) == FixedAlts(alts) && SolvableAlts(tab, alts.rest)
    ensures BulkyAlts(alts) ==> Bulky(alts.b) && (alts.More? ==> BulkyAlts(alts.rest))
  {
  }

  /** With an unlimited repeat some longer word is matched too. */
  lemma {:induction false} LongWord(tab: Env, items: Items) returns (w: seq<byte>)
    requires WfItems(items) && Fixed(items) >= 0 && Solvable(tab, items) && Bulky(items) && !NoLoops(items)
    ensures |w| > Fixed(items) && Spells(tab, items, w)
    decreases items, 1
  {
    hide FixedItem, SolvableItem, WfItem, BulkyItem, NoLoopsItem, MatchItem, SpellsItem, WordAt;
    var a, b;
    if NoLoopsItem(items.head) {
      a := ItemWord(tab, items.head);
      b := LongWord(tab, items.tail);
    } else {
      a := LongItem(tab, items.head);
      b := Word(tab, items.tail);
    }
    SpellsCons(tab, items.head, items.tail, a, b);
    w := a + b;
  }

  lemma {:induction false} LongItem(tab: Env, it: Item) returns (w: seq<byte>)
    requires WfItem(it) && FixedItem(it) >= 0 && SolvableItem(tab, it) && BulkyItem(it) && !NoLoopsItem(it)
    ensures |w| > FixedItem(it) && SpellsItem(tab, it, w)
    decreases it, 0
  {
    hide SpellsItem, Spells, SpellsAlts, WfAlts, FixedAlts, SolvableAlts, BulkyAlts, NoLoopsAlts, Test;
    if it.Group? && it.g.ket != Ket {
      var v := AltsWord(tab, it.g.alts);
      SpellsGroup(tab, it.g, v);
      w := v + v;
    } else if it.Group? {
      w := LongAlts(tab, it.g.alts);
      SpellsGroup(tab, it.g, w);
    } else {
      var c: byte :| Test(tab, it.x, c);
      w := seq(1, _ => c);
      SpellsRun(tab, it, c, 1);
    }
  }

  lemma {:induction false} AltsWord(tab: Env, alts: Alts) returns (w: seq<byte>)
    requires WfAlts(alts) && FixedAlts(alts) >= 0 && SolvableAlts(tab, alts)
    ensures |w| == FixedAlts(alts) && SpellsAlts(tab, alts, w)
    decreases alts, 2
  {
    hide Spells, SpellsAlts, WfAlts, FixedAlts, SolvableAlts;
    FirstBranch(tab, alts);
    w := Word(tab, alts.b);
    SpellsBranch(tab, alts, w);
  }

  lemma {:induction false} LongAlts(tab: Env, alts: Alts) returns (w: seq<byte>)
    requires WfAlts(alts) && FixedAlts(alts) >= 0 && SolvableAlts(tab, alts) && BulkyAlts(alts) && !NoLoopsAlts(alts)
    ensures |w| > FixedAlts(alts) && SpellsAlts(tab, alts, w)
    decreases alts, 2
  {
    hide Spells, SpellsAlts, WfAlts, FixedAlts, SolvableAlts, BulkyAlts;
    FirstBranch(tab, alts);
    if NoLoops(alts.b) {
      w := LongAlts(tab, alts.rest);
    } else {
      w := LongWord(tab, alts.b);
    }
    SpellsBranch(tab, alts, w);
  }

  /** Every match has the computed length. */
  ghost predicate Exactly(tab: Env, b: Items) {
    forall env: Env, i: nat, j: nat :: SameTables(env, tab) && i <= |env.subject| && MatchItems(env, b, i, j) ==>
           j == i + Fixed(b)
  }

  /** The computed length is the length of every match on every subject exactly if nothing is repeated
      without limit. */
  lemma {:induction false} FixedExact(tab: Env, b: Items)
    requires WfItems(b) && Fixed(b) >= 0 && Solvable(tab, b) && Bulky(b)
    ensures Exactly(tab, b) <==> NoLoops(b)
  {
    hide MatchItems, Fixed, NoLoops, WfItems, Solvable, Bulky;
    if NoLoops(b) {
      forall env: Env, i: nat, j: nat | SameTables(env, tab) && i <= |env.subject| && MatchItems(env, b, i, j)
        ensures j == i + Fixed(b)
      {
        FixedItems(env, b, i, j);
      }
    } else {
      var w := LongWord(tab, b);
      var env := tab.(subject := w);
      assert env.subject[0..|w|] == w;
      assert WordAt(env, tab, w, 0);
      assert MatchItems(env, b, 0, 0 + |w|);
    }
  }

  // ---------------------------------------------------------------------------------------
  // When there is a length

  /** Only what the function understands: no optional brackets, none in the S form or with a repeating ket, no
      counts for negated literals. Possessive repeats are left out too, since what they match depends on
      what comes next. */
  predicate Readable(items: Items)
    decreases items
  {
    items.Cons? ==> ReadableItem(items.head) && Readable(items.tail)
  }

  predicate ReadableItem(it: Item)
    decreases it
  {
    match it
    case One(_) => true
    case Many(x, r) => ModeOf(r) != Poss && !(r.Exact? && x.NotChr?) && !(r.Range? && r.lo == r.hi == 0)
    case Group(z, g) => z == Once && !g.s && g.ket == Ket && ReadableAlts(g.alts)
  }

  predicate ReadableAlts(alts: Alts)
    decreases alts
  {
    Readable(alts.b) && (alts.More? ==> ReadableAlts(alts.rest))
  }

  /** Two words, of different lengths if there is no fixed length. */
  predicate Lengths(n: int, u: seq<byte>, v: seq<byte>) {
    if n < 0 then |u| != |v| else |u| == |v| == n
  }

  lemma {:induction false} Words(tab: Env, items: Items) returns (u: seq<byte>, v: seq<byte>)
    requires WfItems(items) && Solvable(tab, items) && Readable(items)
    ensures Lengths(Fixed(items), u, v) && Spells(tab, items, u) && Spells(tab, items, v)
    decreases items, 1
  {
    hide FixedItem, SolvableItem, WfItem, ReadableItem, MatchItem, SpellsItem, WordAt;
    if items.Nil? {
      u, v := [], [];
    } else {
      var a, a' := ItemWords(tab, items.head);
      var b, b' := Words(tab, items.tail);
      if FixedItem(items.head) < 0 {
        b' := b;
      }
      SpellsCons(tab, items.head, items.tail, a, b);
      SpellsCons(tab, items.head, items.tail, a', b');
      u, v := a + b, a' + b';
    }
  }

  lemma {:induction false} ItemWords(tab: Env, it: Item) returns (u: seq<byte>, v: seq<byte>)
    requires WfItem(it) && SolvableItem(tab, it) && ReadableItem(it)
    ensures Lengths(FixedItem(it), u, v) && SpellsItem(tab, it, u) && SpellsItem(tab, it, v)
    decreases it, 0
  {
    hide SpellsItem, SpellsAlts, WfAlts, FixedAlts, SolvableAlts, ReadableAlts, Test;
    if it.Group? {
      u, v := AltsWords(tab, it.g.alts);
      SpellsGroup(tab, it.g, u);
      SpellsGroup(tab, it.g, v);
    } else {
      var c: byte :| Test(tab, it.x, c);
      var n := if it.One? then 1 else Min(it.r);
      var n' := if FixedItem(it) < 0 then n + 1 else n;
      u, v := seq(n, _ => c), seq(n', _ => c);
      SpellsRun(tab, it, c, n);
      SpellsRun(tab, it, c, n');
    }
  }

  lemma {:induction false} AltsWords(tab: Env, alts: Alts) returns (u: seq<byte>, v: seq<byte>)
    requires WfAlts(alts) && SolvableAlts(tab, alts) && ReadableAlts(alts)
    ensures Lengths(FixedAlts(alts), u, v) && SpellsAlts(tab, alts, u) && SpellsAlts(tab, alts, v)
    decreases alts, 2
  {
    hide Spells, SpellsAlts, Fixed, WfItems, Solvable, Readable;
    u, v := Words(tab, alts.b);
    if alts.More? {
      var u', v' := AltsWords(tab, alts.rest);
      SpellsBranch(tab, alts, u');
      SpellsBranch(tab, alts, v');
      if Fixed(alts.b) >= 0 && FixedAlts(alts.rest) < 0 {
        u, v := u', v';
      } else {
        SpellsBranch(tab, alts, u);
        SpellsBranch(tab, alts, v);
        if Fixed(alts.b) >= 0 && Fixed(alts.b) != FixedAlts(alts.rest) {
          v := u';
        }
      }
    } else {
      SpellsBranch(tab, alts, u);
      SpellsBranch(tab, alts, v);
    }
  }

  lemma {:induction false} ReadableNoLoops(items: Items)
    requires Readable(items) && Fixed(items) >= 0
    ensures NoLoops(items)
    decreases items
  {
    if items.Cons? {
      ReadableNoLoops(items.tail);
      if items.head.Group? {
        ReadableAltsNoLoops(items.head.g.alts);
      }
    }
  }

  lemma {:induction false} ReadableAltsNoLoops(alts: Alts)
    requires ReadableAlts(alts) && FixedAlts(alts) >= 0
    ensures NoLoopsAlts(alts)
    decreases alts
  {
    ReadableNoLoops(alts.b);
    if alts.More? {
      ReadableAltsNoLoops(alts.rest);
    }
  }

  /** Every match on every subject has the length n. */
  ghost predicate AllOfLength(tab: Env, b: Items, n: nat) {
    forall env: Env, i: nat, j: nat :: SameTables(env, tab) && i <= |env.subject| && MatchItems(env, b, i, j) ==>
           j == i + n
  }

  /** A branch of such items is refused exactly if its matches are not all of one length. */
  lemma {:induction false} FixedRefuses(tab: Env, b: Items)
    requires WfItems(b) && Solvable(tab, b) && Readable(b)
    ensures Fixed(b) < 0 <==> !exists n: nat :: AllOfLength(tab, b, n)
  {
    hide MatchItems, Fixed, WfItems, Solvable, Readable, NoLoops;
    if Fixed(b) >= 0 {
      ReadableNoLoops(b);
      forall env: Env, i: nat, j: nat | SameTables(env, tab) && i <= |env.subject| && MatchItems(env, b, i, j)
        ensures j == i + Fixed(b)
      {
        FixedItems(env, b, i, j);
      }
      assert AllOfLength(tab, b, Fixed(b));
    } else {
      var u, v := Words(tab, b);
      forall n: nat ensures !AllOfLength(tab, b, n) {
        if AllOfLength(tab, b, n) {
          WordLength(tab, b, u, n);
          WordLength(tab, b, v, n);
        }
      }
    }
  }

  lemma WordLength(tab: Env, b: Items, w: seq<byte>, n: nat)
    requires Spells(tab, b, w) && AllOfLength(tab, b, n)
    ensures |w| == n
  {
    hide MatchItems;
    var env := tab.(subject := w);
    assert env.subject[0..|w|] == w;
    assert WordAt(env, tab, w, 0);
    assert MatchItems(env, b, 0, 0 + |w|);
  }

  /** What OP_REVERSE and the branch after it do at the point e: fail if there are too few bytes
      before it, else match the branch from as many bytes back as its length. */
  ghost predicate BranchSucceeds(env: Env, b: Items, e: nat) {
    Fixed(b) >= 0 && e >= Fixed(b) && MatchesFrom(env, b, e - Fixed(b))
  }

  ghost predicate MatchesFrom(env: Env, b: Items, i: nat) {
    exists j: nat :: MatchItems(env, b, i, j)
  }

  /** So a lookbehind branch succeeds exactly if it matches some bytes that end at the current point. */
  lemma {:induction false} LandsExactly(env: Env, b: Items, e: nat)
    requires e <= |env.subject| && NoLoops(b) && Fixed(b) >= 0
    ensures BranchSucceeds(env, b, e) <==> exists i: nat :: i <= e && MatchItems(env, b, i, e)
  {
    hide MatchItems, Fixed, NoLoops;
    if BranchSucceeds(env, b, e) {
      var i: nat := e - Fixed(b);
      var j: nat :| MatchItems(env, b, i, j);
      FixedItems(env, b, e - Fixed(b), j);
      assert MatchItems(env, b, e - Fixed(b), e);
    }
    forall i: nat | i <= e && MatchItems(env, b, i, e) ensures BranchSucceeds(env, b, e) {
      FixedItems(env, b, i, e);
      assert MatchesFrom(env, b, i);
    }
  }

  /** With a repeating ket it can succeed although nothing before the point matches: (?:a)+b is
      given the length 2, and on "aab" matches from the start past the second byte. */
  lemma {:induction false} LandsBeyond(env: Env, a: byte, b: byte)
    requires a != b && env.subject == [a, a, b]
    ensures var items := Cons(Group(Once, Grp(false, 0, Last(Cons(One(Chr(a)), Nil)), KetRmax)),
      Cons(One(Chr(b)), Nil));
      Fixed(items) == 2 && BranchSucceeds(env, items, 2) && forall i: nat :: i <= 2 ==> !MatchItems(env, items, i, 2)
  {
    var one := Cons(One(Chr(a)), Nil);
    var g := Grp(false, 0, Last(one), KetRmax);
    var items := Cons(Group(Once, g), Cons(One(Chr(b)), Nil));
    FixedStep(one);
    FixedStep(Nil);
    SameLength(g.alts);
    FixedStep(items.tail);
    FixedStep(items);
    OneItem(env, One(Chr(a)), 0, 1);
    OneItem(env, One(Chr(a)), 1, 2);
    OneItem(env, One(Chr(b)), 2, 3);
    TimesZero(env, g.alts, 2, 2);
    TimesSucc(env, g.alts, 0, 1, 2, 2);
    TimesSucc(env, g.alts, 1, 0, 1, 2);
    GrpIntro(env, g, 2, 0, 2);
    ItemsIntro(env, items, 0, 2, 3);
    assert MatchesFrom(env, items, 0);
    forall i: nat | i <= 2 ensures !MatchItems(env, items, i, 2) {
      NotBefore(env, items, i, b);
    }
  }

  lemma {:induction false} NotBefore(env: Env, items: Items, i: nat, b: byte)
    requires items.Cons? && items.tail == Cons(One(Chr(b)), Nil) && i <= 2 <= |env.subject| && env.subject[1] != b
    ensures !MatchItems(env, items, i, 2)
  {
    hide MatchItem;
    if MatchItems(env, items, i, 2) {
      var m := ItemsElim(env, items, i, 2);
      OneItem(env, One(Chr(b)), m, 2);
      LiteralAt(env, b, m, 2);
      assert false;
    }
  }

  lemma LiteralAt(env: Env, b: byte, i: nat, j: nat)
    ensures MatchItem(env, One(Chr(b)), i, j) <==> i < |env.subject| && j == i + 1 && env.subject[i] == b
  {
  }

  // ---------------------------------------------------------------------------------------
  // The scan of the bytes

  /** One branch. */
  method ScanFixed(code: Code, start: nat, ghost all: Items) returns (length: int)
    requires Ahead(code, start, all)
    ensures length == Fixed(all)
    decreases LenItems(all), 0
  {
    hide Ahead, LenItems, LenItem, LenGrp, GrpAt, Fixed, FixedItem, FixedAlts;
    var p: nat := start;
    ghost var items := all;
    length := 0;
    FixedStep(items);
    while true
      invariant Ahead(code, p, items) && LenItems(items) <= LenItems(all) && length >= 0
      invariant Fixed(all) == if Fixed(items) < 0 then -1 else length + Fixed(items)
      decreases LenItems(items)
    {
      ReadsFixed(code, p, items);
      FixedStep(items);
      var op := code[p];
      if OP_ALT <= op <= OP_KETRMIN {
        return;
      }
      AheadCons(code, p, items);
      if op == OP_BRA || op == OP_CBRA {
        ghost var g := items.head.g;
        SmallerGroup(items);
        GroupLen(items.head);
        var d := FindFixedLength(code, p, g);
        if d < 0 {
          return -1;
        }
        GroupLeads(code, p, g);
        var ket := FollowLinks(code, p + Get2(code, p + 1), p + LenGrp(g) - 3);
        length, p, items := length + d, ket + 3, items.tail;
      } else if op == OP_CLASS || op == OP_NCLASS {
        var rep := code[p + 33];
        if rep == OP_CRRANGE || rep == OP_CRMINRANGE {
          if Get2(code, p + 34) != Get2(code, p + 36) {
            return -1;
          }
          length, p, items := length + Get2(code, p + 34), p + 38, items.tail;
        } else if OP_CRSTAR <= rep < OP_CRRANGE {
          return -1;
        } else {
          length, p, items := length + 1, p + 33, items.tail;
        }
      } else if op == OP_CHAR || op == OP_NOT {
        length, p, items := length + 1, p + 2, items.tail;
      } else if OP_NOT_DIGIT <= op <= OP_ALLANY {
        length, p, items := length + 1, p + 1, items.tail;
      } else if op == OP_STAR + 8 || op == OP_TYPESTAR + 8 {
        length, p, items := length + Get2(code, p + 1), p + 4, items.tail;
      } else {
        return -1;
      }
    }
  }

  /** All the branches of a group: their lengths have to be the same. */
  method FindFixedLength(code: Code, q: nat, ghost g: Grp) returns (length: int)
    requires GrpAt(code, q, g)
    ensures length == FixedAlts(g.alts)
    decreases LenAlts(g.alts), 1
  {
    hide Ahead, LenItems, LenAlts, LenGrp, GrpAt, Header, Fixed, FixedAlts;
    OpenGroup(code, q, g);
    BraHead(code, q, g);
    length := -1;
    var h: nat, more := q, true;
    ghost var alts := g.alts;
    while more
      invariant more ==>
        h < |code| && Header(code, h, OpLength(code[h]), alts, g, q) && LenAlts(alts) <= LenAlts(g.alts)
      invariant more ==>
        FixedAlts(g.alts) == if length < 0 then FixedAlts(alts) else if FixedAlts(alts) == length then length else -1
      invariant !more ==> length == FixedAlts(g.alts)
      decreases more, alts
    {
      NextHeader(code, h, OpLength(code[h]), alts, g, q);
      HeaderAhead(code, h, OpLength(code[h]), alts, g, q);
      SmallerBranch(alts);
      SameLength(alts);
      var branchlength := ScanFixed(code, h + OpLength(code[h]), alts.b);
      if branchlength < 0 || (length >= 0 && length != branchlength) {
        return -1;
      }
      length := branchlength;
      h := h + Get2(code, h + 1);
      if code[h] == OP_ALT {
        alts := alts.rest;
      } else {
        more := false;
      }
    }
  }

  lemma SameLength(alts: Alts)
    ensures FixedAlts(alts) == if alts.Last? || Fixed(alts.b) == FixedAlts(alts.rest) then Fixed(alts.b) else -1
  {
  }

  lemma FixedStep(items: Items)
    ensures items.Nil? ==> Fixed(items) == 0
    ensures items.Cons? ==>
      Fixed(items) == if FixedItem(items.head) < 0 || Fixed(items.tail) < 0 then -1 else FixedItem(items.head) + Fixed(items.tail)
    ensures items.Cons? && items.head.Group? ==>
      FixedItem(items.head) == if items.head.zero != Once || items.head.g.s then -1 else FixedAlts(items.head.g.alts)
  {
  }

  /** What the bytes say about the length of an item. */
  lemma {:induction false} ReadsFixed(code: Code, p: nat, items: Items)
    requires Ahead(code, p, items)
    ensures p < |code|
    ensures var op := code[p];
      match items
      case Nil => OP_ALT <= op <= OP_KETRMIN
      case Cons(One(x), _) =>
        && FixedItem(items.head) == 1 && LenItem(items.head) == LenSingle(x)
        && if x.Set? then (op == OP_CLASS || op == OP_NCLASS) && p + 33 < |code| && !(OP_CRSTAR <= code[p + 33] <= OP_CRMINRANGE)
           else if x.Typ? then OP_NOT_DIGIT <= op <= OP_ALLANY else op == OP_CHAR || op == OP_NOT
      case Cons(Many(x, r), _) =>
        if x.Set? then
          && (op == OP_CLASS || op == OP_NCLASS) && p + 33 < |code| && OP_CRSTAR <= code[p + 33] <= OP_CRMINRANGE
          && (r.Range? <==> code[p + 33] >= OP_CRRANGE) && (!r.Range? ==> FixedItem(items.head) == -1)
          && (r.Range? ==> p + 37 < |code| && Get2(code, p + 34) == r.lo && Get2(code, p + 36) == r.hi && LenItem(items.head) == 38)
          && (r.Range? ==> FixedItem(items.head) == if r.lo == r.hi then r.lo else -1)
        else
          && OP_STAR <= op < OP_CRSTAR
          && if op == OP_STAR + 8 || op == OP_TYPESTAR + 8 then p + 2 < |code| && FixedItem(items.head) == Get2(code, p + 1) && LenItem(items.head) == 4
             else FixedItem(items.head) == -1
      case Cons(Group(z, g), _) =>
        if z == Once then GrpAt(code, p, g) && op == BraOp(g) else op in {OP_BRAZERO, OP_BRAMINZERO, OP_SKIPZERO}
  {
    hide Ahead, LenItems, GrpAt, LenGrp, FixedAlts;
    AheadReads(code, p, items);
    if items.Cons? {
      AheadCons(code, p, items);
    }
  }
}
