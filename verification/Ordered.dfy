/** All the places where a match of code can end, in the order in which they are preferred: earlier
    alternatives first, greedy repeats from the longest to the shortest, lazy ones the other way. An
    unlimited group is left after an iteration that consumed nothing. There is no search here, and
    nothing is remembered but where the iteration began. */
module Ordered {
  import opened Tree

  /** The numbers from a up to b, without b, that have the property, upwards or downwards. */
  ghost function Pick(p: nat -> bool, a: nat, b: nat, up: bool): seq<nat>
    decreases b - a
  {
    if a >= b then []
    else
      var here := if p(a) then [a] else [];
      if up then here + Pick(p, a + 1, b, up) else Pick(p, a + 1, b, up) + here
  }

  ghost function Runs(env: Env, x: Single, r: Rep, i: nat): seq<nat> {
    Pick((j: nat) => ManyMatches(env, x, r, i, j), i, |env.subject| + 1, ModeOf(r) == Lazy)
  }

  ghost function Ways(env: Env, items: Items, i: nat): seq<nat>
    decreases items, 0, 0, 0
  {
    match items case Nil => [i] case Cons(it, t) => WaysOn(env, t, WaysItem(env, it, i))
  }

  /** The items from each of the places. */
  ghost function WaysOn(env: Env, items: Items, ms: seq<nat>): seq<nat>
    decreases items, 1, |ms|, 0
  {
    if ms == [] then [] else Ways(env, items, ms[0]) + WaysOn(env, items, ms[1..])
  }

  ghost function WaysItem(env: Env, it: Item, i: nat): seq<nat>
    decreases it, 0, 0, 0
  {
    match it
    case One(x) => if i < |env.subject| && Test(env, x, env.subject[i]) then [i + 1] else []
    case Many(x, r) => Runs(env, x, r, i)
    case Group(z, g) =>
      match z
      case Once => WaysGrp(env, g, i)
      case BraZero => WaysGrp(env, g, i) + [i]
      case BraMinZero => [i] + WaysGrp(env, g, i)
      case SkipZero => [i]
  }

  function Left(env: Env, i: nat): nat {
    if i <= |env.subject| then |env.subject| - i else 0
  }

  ghost function WaysAlts(env: Env, alts: Alts, i: nat): seq<nat>
    decreases alts, 0, 0, 0
  {
    match alts case Last(b) => Ways(env, b, i) case More(b, rest) => Ways(env, b, i) + WaysAlts(env, rest, i)
  }

  ghost function WaysGrp(env: Env, g: Grp, i: nat): seq<nat>
    decreases g, Left(env, i), 2, 0
  {
    CloseAll(env, g, i, WaysAlts(env, g.alts, i))
  }

  ghost function CloseAll(env: Env, g: Grp, entry: nat, ms: seq<nat>): seq<nat>
    decreases g, Left(env, entry), 1, |ms|
  {
    if ms == [] then [] else Close(env, g, entry, ms[0]) + CloseAll(env, g, entry, ms[1..])
  }

  /** At the end m of an iteration that began at `entry`. */
  ghost function Close(env: Env, g: Grp, entry: nat, m: nat): seq<nat>
    decreases g, Left(env, entry), 0, 0
  {
    if g.ket == Ket || m <= entry || m > |env.subject| then [m]
    else if g.ket == KetRmax then WaysGrp(env, g, m) + [m]
    else [m] + WaysGrp(env, g, m)
  }

  // ---------------------------------------------------------------------------------------
  // Sequences of places

  lemma {:induction false} OnAppend(env: Env, items: Items, a: seq<nat>, b: seq<nat>)
    ensures WaysOn(env, items, a + b) == WaysOn(env, items, a) + WaysOn(env, items, b)
    decreases |a|
  {
    hide Ways;
    if a == [] {
      assert a + b == b;
    } else {
      assert (a + b)[1..] == a[1..] + b;
      OnAppend(env, items, a[1..], b);
    }
  }

  lemma OnNone(env: Env, items: Items)
    ensures WaysOn(env, items, []) == []
  {
  }

  lemma OnOne(env: Env, items: Items, m: nat)
    ensures WaysOn(env, items, [m]) == Ways(env, items, m)
  {
    hide Ways;
    OnNone(env, items);
    assert WaysOn(env, items, [m]) == Ways(env, items, m) + WaysOn(env, items, [m][1..]);
  }

  lemma {:induction false} OnNil(env: Env, ms: seq<nat>)
    ensures WaysOn(env, Nil, ms) == ms
    decreases |ms|
  {
    if ms != [] {
      OnNil(env, ms[1..]);
    }
  }

  lemma {:induction false} PickIn(p: nat -> bool, a: nat, b: nat, up: bool, m: nat)
    ensures m in Pick(p, a, b, up) <==> a <= m < b && p(m)
    decreases b - a
  {
    if a < b {
      PickIn(p, a + 1, b, up, m);
    }
  }

  lemma {:induction false} PickSame(p: nat -> bool, p': nat -> bool, a: nat, b: nat, up: bool)
    requires forall m: nat :: a <= m < b ==> p(m) == p'(m)
    ensures Pick(p, a, b, up) == Pick(p', a, b, up)
    decreases b - a
  {
    if a < b {
      PickSame(p, p', a + 1, b, up);
    }
  }

  /** Nothing is lost by starting at the first number that has the property. */
  lemma {:induction false} PickFrom(p: nat -> bool, a: nat, c: nat, b: nat, up: bool)
    requires a <= c && forall m: nat :: a <= m < b && m < c ==> !p(m)
    ensures Pick(p, a, b, up) == Pick(p, c, b, up)
    decreases c - a
  {
    if a < c && a < b {
      PickFrom(p, a + 1, c, b, up);
    }
  }

  lemma {:induction false} PickNone(p: nat -> bool, a: nat, b: nat, up: bool)
    requires forall m: nat :: a <= m < b ==> !p(m)
    ensures Pick(p, a, b, up) == []
    decreases b - a
  {
    if a < b {
      PickNone(p, a + 1, b, up);
    }
  }

  lemma {:induction false} PickOne(p: nat -> bool, a: nat, b: nat, up: bool, m: nat)
    requires a <= m < b && forall k: nat :: a <= k < b ==> (p(k) <==> k == m)
    ensures Pick(p, a, b, up) == [m]
  {
    PickFrom(p, a, m, b, up);
    PickNone(p, m + 1, b, up);
  }

  function Rising(lo: nat, hi: nat): seq<nat>
    decreases hi - lo
  {
    if lo >= hi then [lo] else [lo] + Rising(lo + 1, hi)
  }

  function Falling(lo: nat, hi: nat): seq<nat>
    decreases hi - lo
  {
    if lo >= hi then [lo] else Falling(lo + 1, hi) + [lo]
  }

  lemma {:induction false} FallingTop(lo: nat, hi: nat)
    requires lo < hi
    ensures Falling(lo, hi) == [hi] + Falling(lo, hi - 1)
    decreases hi - lo
  {
    if lo + 1 < hi {
      FallingTop(lo + 1, hi);
    }
  }

  lemma {:induction false} PickInterval(p: nat -> bool, a: nat, b: nat, up: bool, lo: nat, hi: nat)
    requires a <= lo <= hi < b && forall m: nat :: a <= m < b ==> (p(m) <==> lo <= m <= hi)
    ensures Pick(p, a, b, up) == if up then Rising(lo, hi) else Falling(lo, hi)
    decreases hi - lo
  {
    PickFrom(p, a, lo, b, up);
    if lo == hi {
      PickNone(p, lo + 1, b, up);
    } else {
      PickInterval(p, lo + 1, b, up, lo + 1, hi);
    }
  }

  // ---------------------------------------------------------------------------------------
  // Places are not before the start and inside the subject.

  ghost predicate Inside(env: Env, i: nat, ms: seq<nat>) {
    forall m: nat :: m in ms ==> i <= m <= |env.subject|
  }

  lemma {:induction false} WaysInside(env: Env, items: Items, i: nat)
    requires i <= |env.subject|
    ensures Inside(env, i, Ways(env, items, i))
    decreases items, 0, 0, 0
  {
    if items.Cons? {
      ItemInside(env, items.head, i);
      OnInside(env, items.tail, i, WaysItem(env, items.head, i));
    }
  }

  lemma {:induction false} OnInside(env: Env, items: Items, i: nat, ms: seq<nat>)
    requires Inside(env, i, ms)
    ensures Inside(env, i, WaysOn(env, items, ms))
    decreases items, 1, |ms|, 0
  {
    hide Ways;
    if ms != [] {
      assert ms[0] in ms && forall m :: m in ms[1..] ==> m in ms;
      WaysInside(env, items, ms[0]);
      OnInside(env, items, i, ms[1..]);
    }
  }

  lemma {:induction false} ItemInside(env: Env, it: Item, i: nat)
    requires i <= |env.subject|
    ensures Inside(env, i, WaysItem(env, it, i))
    decreases it, 0, 0, 0
  {
    hide WaysGrp, ManyMatches;
    match it
    case One(x) =>
    case Many(x, r) =>
      forall m: nat | m in Runs(env, x, r, i) ensures i <= m <= |env.subject| {
        PickIn((j: nat) => ManyMatches(env, x, r, i, j), i, |env.subject| + 1, ModeOf(r) == Lazy, m);
      }
    case Group(_, g) => GrpInside(env, g, i);
  }

  lemma {:induction false} AltsInside(env: Env, alts: Alts, i: nat)
    requires i <= |env.subject|
    ensures Inside(env, i, WaysAlts(env, alts, i))
    decreases alts, 0, 0, 0
  {
    hide Ways;
    WaysInside(env, alts.b, i);
    if alts.More? {
      AltsInside(env, alts.rest, i);
    }
  }

  lemma {:induction false} GrpInside(env: Env, g: Grp, i: nat)
    requires i <= |env.subject|
    ensures Inside(env, i, WaysGrp(env, g, i))
    decreases g, Left(env, i), 2, 0
  {
    hide WaysAlts, CloseAll;
    AltsInside(env, g.alts, i);
    CloseInside(env, g, i, WaysAlts(env, g.alts, i));
  }

  lemma {:induction false} CloseInside(env: Env, g: Grp, entry: nat, ms: seq<nat>)
    requires entry <= |env.subject| && Inside(env, entry, ms)
    ensures Inside(env, entry, CloseAll(env, g, entry, ms))
    decreases g, Left(env, entry), 1, |ms|
  {
    hide WaysGrp;
    if ms != [] {
      assert ms[0] in ms && forall m :: m in ms[1..] ==> m in ms;
      CloseInside(env, g, entry, ms[1..]);
      if ms[0] > entry {
        GrpInside(env, g, ms[0]);
      }
    }
  }
}
