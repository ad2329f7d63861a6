/** RE::GlobalReplace(): replacing all matches in a string, with the rule for empty matches. */
module Replace {
  import opened Tree
  import opened Utf8

  /** The result of TryMatch(). */
  datatype Found = NoMatch | Match(s: nat, e: nat)

  /** A part of the string that is copied, or the match from s to e with what it is replaced by. */
  datatype Part = Kept(text: seq<byte>) | Swapped(s: nat, e: nat, text: seq<byte>, new_text: seq<byte>)

  function Before(parts: seq<Part>): seq<byte> {
    if parts == [] then [] else Before(parts[..|parts| - 1]) + parts[|parts| - 1].text
  }

  function After(parts: seq<Part>): seq<byte> {
    if parts == [] then []
    else
      var p := parts[|parts| - 1];
      After(parts[..|parts| - 1]) + (match p case Kept(t) => t case Swapped(_, _, _, t) => t)
  }

  lemma AddPart(parts: seq<Part>, p: Part)
    ensures Before(parts + [p]) == Before(parts) + p.text
    ensures After(parts + [p]) == After(parts) + (match p case Kept(t) => t case Swapped(_, _, _, t) => t)
    ensures Matches(parts + [p]) == Matches(parts) + if p.Swapped? then [Match(p.s, p.e)] else []
  {
    assert (parts + [p])[..|parts|] == parts;
  }

  /** What is demanded of the matcher: a match from a start on lies inside the string and not before the
      start. */
  ghost predicate Proper(str: seq<byte>, find: nat -> Found) {
    forall start: nat :: start <= |str| && find(start).Match? ==> start <= find(start).s <= find(start).e <= |str|
  }

  /** Each replaced part is a match, and has the rewritten text in its place. */
  ghost predicate Honest(parts: seq<Part>, str: seq<byte>, find: nat -> Found, rewrite: (nat, nat) -> seq<byte>) {
    forall k :: 0 <= k < |parts| && parts[k].Swapped? ==> IsSwap(parts[k], str, find, rewrite)
  }

  ghost predicate IsSwap(p: Part, str: seq<byte>, find: nat -> Found, rewrite: (nat, nat) -> seq<byte>)
    requires p.Swapped?
  {
    && p.s <= p.e <= |str| && p.text == str[p.s..p.e] && p.new_text == rewrite(p.s, p.e)
    && exists start: nat :: start <= |str| && find(start) == Match(p.s, p.e)
  }

  /** Where to go on after an empty match at the end of the previous match: past one character, past
      CR and LF together if they are a newline, in UTF-8 mode past all the bytes of the character. */
  function Next(str: seq<byte>, start: nat, crlf: bool, utf8: bool): (next: nat)
    requires start <= |str|
    ensures start < next <= |str| + 1 && (start < |str| ==> next <= |str|)
    ensures crlf && !utf8 && start + 1 < |str| && str[start] == 13 && str[start + 1] == 10 ==> next == start + 2
    ensures !utf8 && !(crlf && start + 1 < |str| && str[start] == 13 && str[start + 1] == 10) ==> next == start + 1
    ensures crlf && start + 1 < |str| && str[start] == 13 && str[start + 1] == 10 ==> start + 2 <= next
    ensures utf8 && next < |str| ==> !Cont(str[next])
    ensures forall k :: start + 1 <= k < next ==>
      k < |str| && (Cont(str[k]) || (crlf && k == start + 1 && str[start] == 13 && str[k] == 10))
  {
    var next := if start + 1 < |str| && str[start] == 13 && str[start + 1] == 10 && crlf then start + 2 else start + 1;
    if utf8 && next <= |str| then Boundary(str, next) else next
  }

  /** The next byte that is not a continuation byte. */
  function Boundary(str: seq<byte>, p: nat): (q: nat)
    requires p <= |str|
    ensures p <= q <= |str| && (q < |str| ==> !Cont(str[q])) && forall k :: p <= k < q ==> Cont(str[k])
    decreases |str| - p
  {
    if p < |str| && Cont(str[p]) then Boundary(str, p + 1) else p
  }

  method Skip(str: seq<byte>, start: nat, crlf: bool, utf8: bool) returns (next: nat)
    requires start <= |str|
    ensures next == Next(str, start, crlf, utf8)
    ensures crlf && !utf8 && start + 1 < |str| && str[start] == 13 && str[start + 1] == 10 ==> next == start + 2
    ensures !utf8 && !(crlf && start + 1 < |str| && str[start] == 13 && str[start + 1] == 10) ==> next == start + 1
    ensures crlf && start + 1 < |str| && str[start] == 13 && str[start + 1] == 10 ==> start + 2 <= next
    ensures utf8 && next < |str| ==> !Cont(str[next])
    ensures forall k :: start + 1 <= k < next ==>
      k < |str| && (Cont(str[k]) || (crlf && k == start + 1 && str[start] == 13 && str[k] == 10))
  {
    next := start + 1;
    if start + 1 < |str| && str[start] == 13 && str[start + 1] == 10 && crlf {
      next := next + 1;
    }
    if utf8 {
      ghost var first := next;
      while next < |str| && str[next] / 64 == 2
        invariant first <= next && (first <= |str| ==> next <= |str| && Boundary(str, first) == Boundary(str, next))
        invariant (first > |str| ==> next == first)
      {
        next := next + 1;
      }
    }
  }

  /** The matches that are to be replaced from `start` on: each is the first that is found from the end
      of the one before, but an empty match at that very end is passed over. */
  function Plan(str: seq<byte>, find: nat -> Found, start: nat, lastend: int, crlf: bool, utf8: bool): seq<Found>
    requires Proper(str, find) && lastend <= start
    decreases |str| + 1 - start, if start == lastend then 0 else 1
  {
    if start > |str| || find(start).NoMatch? then []
    else
      var m := find(start);
      if m.s == m.e && m.s == lastend then Plan(str, find, Next(str, start, crlf, utf8), lastend, crlf, utf8)
      else [m] + Plan(str, find, m.e, m.e, crlf, utf8)
  }

  /** They are in order, do not overlap, and none is empty and at the end of the one before. */
  lemma {:induction false} PlanOrdered(str: seq<byte>, find: nat -> Found, start: nat, lastend: int, crlf: bool,
                                       utf8: bool)
    requires Proper(str, find) && lastend <= start
    ensures var ms := Plan(str, find, start, lastend, crlf, utf8);
      && (forall k :: 0 <= k < |ms| ==> ms[k].Match? && start <= ms[k].s <= ms[k].e <= |str|)
      && (|ms| > 0 ==> !(ms[0].s == ms[0].e == lastend))
      && (forall k :: 0 <= k < |ms| - 1 ==> ms[k].e <= ms[k + 1].s && !(ms[k].e == ms[k + 1].s == ms[k + 1].e))
    decreases |str| + 1 - start, if start == lastend then 0 else 1
  {
    if start <= |str| && find(start).Match? {
      var m := find(start);
      if m.s == m.e && m.s == lastend {
        PlanOrdered(str, find, Next(str, start, crlf, utf8), lastend, crlf, utf8);
      } else {
        PlanOrdered(str, find, m.e, m.e, crlf, utf8);
      }
    }
  }

  /** The matches lie in the string from `from` on, one after the other. */
  predicate InOrder(str: seq<byte>, ms: seq<Found>, from: nat) {
    from <= |str| && (ms != [] ==> ms[0].Match? && from <= ms[0].s <= ms[0].e <= |str| && InOrder(str, ms[1..], ms[0].e))
  }

  /** The string from `from` on with these matches rewritten. */
  function Rewritten(str: seq<byte>, ms: seq<Found>, from: nat, rewrite: (nat, nat) -> seq<byte>): seq<byte>
    requires InOrder(str, ms, from)
  {
    if ms == [] then str[from..]
    else str[from..ms[0].s] + rewrite(ms[0].s, ms[0].e) + Rewritten(str, ms[1..], ms[0].e, rewrite)
  }

  lemma Later(str: seq<byte>, ms: seq<Found>, a: nat, b: nat, rewrite: (nat, nat) -> seq<byte>)
    requires a <= b && InOrder(str, ms, b)
    ensures InOrder(str, ms, a) && Rewritten(str, ms, a, rewrite) == str[a..b] + Rewritten(str, ms, b, rewrite)
  {
    if ms == [] {
      assert str[a..] == str[a..b] + str[b..];
    } else {
      var m := ms[0];
      Chain(str[a..b], str[b..m.s], rewrite(m.s, m.e), Rewritten(str, ms[1..], m.e, rewrite));
      assert str[a..m.s] == str[a..b] + str[b..m.s];
    }
  }

  lemma Chain(a: seq<byte>, b: seq<byte>, c: seq<byte>, d: seq<byte>)
    ensures a + b + c + d == a + (b + c + d)
  {
  }

  lemma First(str: seq<byte>, m: Found, ms: seq<Found>, from: nat, rewrite: (nat, nat) -> seq<byte>)
    requires m.Match? && from <= m.s <= m.e && InOrder(str, ms, m.e)
    ensures InOrder(str, [m] + ms, from)
    ensures Rewritten(str, [m] + ms, from, rewrite) ==
      str[from..m.s] + rewrite(m.s, m.e) + Rewritten(str, ms, m.e, rewrite)
  {
    assert ([m] + ms)[1..] == ms;
    InOrderEnd(str, ms, m.e);
  }

  lemma InOrderEnd(str: seq<byte>, ms: seq<Found>, from: nat)
    requires InOrder(str, ms, from)
    ensures from <= |str|
  {
  }

  lemma {:induction false} PlanInOrder(str: seq<byte>, find: nat -> Found, start: nat, lastend: int, crlf: bool,
                                       utf8: bool, rewrite: (nat, nat) -> seq<byte>)
    requires Proper(str, find) && lastend <= start <= |str|
    ensures InOrder(str, Plan(str, find, start, lastend, crlf, utf8), start)
    decreases |str| + 1 - start, if start == lastend then 0 else 1
  {
    hide Plan, InOrder, Rewritten, Next;
    PlanStep(str, find, start, lastend, crlf, utf8);
    var m, next := find(start), Next(str, start, crlf, utf8);
    if m.NoMatch? {
      NoneInOrder(str, start);
    } else if m.s == m.e && m.s == lastend {
      if next <= |str| {
        PlanInOrder(str, find, next, lastend, crlf, utf8, rewrite);
        Later(str, Plan(str, find, next, lastend, crlf, utf8), start, next, rewrite);
      } else {
        PlanStep(str, find, next, lastend, crlf, utf8);
        NoneInOrder(str, start);
      }
    } else {
      PlanInOrder(str, find, m.e, m.e, crlf, utf8, rewrite);
      First(str, m, Plan(str, find, m.e, m.e, crlf, utf8), start, rewrite);
    }
  }

  lemma NoneInOrder(str: seq<byte>, from: nat)
    requires from <= |str|
    ensures InOrder(str, [], from)
  {
  }

  /** The matches among the parts. */
  function Matches(parts: seq<Part>): seq<Found> {
    if parts == [] then []
    else
      var p := parts[|parts| - 1];
      Matches(parts[..|parts| - 1]) + if p.Swapped? then [Match(p.s, p.e)] else []
  }

  /** The loop ends for every matcher. It replaces the matches of the plan, and the result differs from
      the string in these only: putting back the text of each gives the string again. */
  method GlobalReplace(str: seq<byte>, find: nat -> Found, rewrite: (nat, nat) -> seq<byte>, crlf: bool, utf8: bool)
    returns (result: seq<byte>, count: nat, ghost parts: seq<Part>)
    requires Proper(str, find)
    ensures Before(parts) == str && After(parts) == result && Honest(parts, str, find, rewrite)
    ensures Matches(parts) == Plan(str, find, 0, -1, crlf, utf8) && count == |Plan(str, find, 0, -1, crlf, utf8)|
    ensures InOrder(str, Plan(str, find, 0, -1, crlf, utf8), 0)
    ensures result == Rewritten(str, Plan(str, find, 0, -1, crlf, utf8), 0, rewrite)
  {
    hide Before, After, Matches, Honest, Sofar, Plan, InOrder, Rewritten, Next, Proper;
    var out: seq<byte>, start: nat, lastend: int := [], 0, -1;
    count, parts := 0, [];
    SofarStart(str, find, rewrite, crlf, utf8);
    while start <= |str|
      invariant start <= |str| + 1 && lastend <= start
      invariant Sofar(parts, out, count, start, lastend, str, find, rewrite, crlf, utf8)
      decreases |str| + 1 - start, if start == lastend then 0 else 1
    {
      var m := find(start);
      if m.NoMatch? {
        break;
      }
      Inside(str, find, start);
      if m.s == m.e && m.s == lastend {
        var matchend := Skip(str, start, crlf, utf8);
        SofarKeep(parts, out, count, start, lastend, str, find, rewrite, crlf, utf8);
        if matchend <= |str| {
          parts := parts + [Kept(str[start..matchend])];
          out := out + str[start..matchend];
        }
        start := matchend;
      } else {
        var text := rewrite(m.s, m.e);
        SofarSwap(parts, out, count, start, lastend, str, find, rewrite, crlf, utf8);
        parts := parts + [Kept(str[start..m.s]), Swapped(m.s, m.e, str[m.s..m.e], text)];
        out := out + str[start..m.s] + text;
        start, lastend := m.e, m.e;
        count := count + 1;
      }
    }
    SofarEnd(parts, out, count, start, lastend, str, find, rewrite, crlf, utf8);
    assert parts + [] == parts;
    if start < |str| {
      parts := parts + [Kept(str[start..])];
      out := out + str[start..];
    }
    result := if count == 0 then str else out;
  }

  // ---------------------------------------------------------------------------------------
  // Empty matches everywhere

  /** A place inside a character: between CR and LF if they are a newline, or before a continuation byte. */
  predicate InsideChar(str: seq<byte>, p: nat, crlf: bool, utf8: bool) {
    0 < p < |str| && ((crlf && str[p - 1] == 13 && str[p] == 10) || (utf8 && Cont(str[p])))
  }

  ghost predicate Everywhere(str: seq<byte>, find: nat -> Found) {
    forall p: nat :: p <= |str| ==> find(p) == Match(p, p)
  }

  /** The places from `start` on that are not inside a character, each an empty match. */
  function Places(str: seq<byte>, start: nat, crlf: bool, utf8: bool): seq<Found>
    decreases |str| + 1 - start
  {
    if start > |str| then []
    else (if InsideChar(str, start, crlf, utf8) then [] else [Match(start, start)]) + Places(str, start + 1, crlf, utf8)
  }

  /** What is passed over after an empty match are the places inside the character there. */
  lemma {:induction false} PlacesSkip(str: seq<byte>, a: nat, b: nat, crlf: bool, utf8: bool)
    requires a <= b <= |str| + 1 && forall k :: a <= k < b ==> InsideChar(str, k, crlf, utf8)
    ensures Places(str, a, crlf, utf8) == Places(str, b, crlf, utf8)
    decreases b - a
  {
    if a < b {
      PlacesSkip(str, a + 1, b, crlf, utf8);
    }
  }

  /** A matcher that finds an empty match everywhere: what is replaced are all the places that are not inside
      a character, no others, and each once. */
  lemma {:induction false} EverywherePlan(str: seq<byte>, find: nat -> Found, crlf: bool, utf8: bool)
    requires Everywhere(str, find) && Proper(str, find)
    ensures Plan(str, find, 0, -1, crlf, utf8) == Places(str, 0, crlf, utf8)
  {
    hide Next;
    EverywhereFrom(str, find, 0, -1, crlf, utf8);
  }

  lemma {:induction false} EverywhereFrom(str: seq<byte>, find: nat -> Found, start: nat, lastend: int, crlf: bool, utf8: bool)
    requires Everywhere(str, find) && Proper(str, find) && lastend < start <= |str| + 1
    requires !InsideChar(str, start, crlf, utf8)
    ensures Plan(str, find, start, lastend, crlf, utf8) == Places(str, start, crlf, utf8)
    decreases |str| + 1 - start
  {
    hide Next, Plan;
    PlanStep(str, find, start, lastend, crlf, utf8);
    if start <= |str| {
      PlanStep(str, find, start, start, crlf, utf8);
      var next := Next(str, start, crlf, utf8);
      NextInside(str, start, crlf, utf8);
      EverywhereFrom(str, find, next, start, crlf, utf8);
      PlacesSkip(str, start + 1, next, crlf, utf8);
    }
  }

  lemma NextInside(str: seq<byte>, start: nat, crlf: bool, utf8: bool)
    requires start <= |str|
    ensures var next := Next(str, start, crlf, utf8);
      && !InsideChar(str, next, crlf, utf8)
      && forall k :: start + 1 <= k < next ==> InsideChar(str, k, crlf, utf8)
  {
  }

  /** What the loop has done when it gets to `start`. */
  ghost predicate Sofar(parts: seq<Part>, out: seq<byte>, count: nat, start: nat, lastend: int,
                        str: seq<byte>, find: nat -> Found, rewrite: (nat, nat) -> seq<byte>, crlf: bool, utf8: bool)
  {
    && Proper(str, find) && lastend <= start <= |str| + 1
    && Before(parts) == str[..if start <= |str| then start else |str|] && After(parts) == out
    && Honest(parts, str, find, rewrite) && (count == 0 ==> After(parts) == Before(parts)) && count == |Matches(parts)|
    && Plan(str, find, 0, -1, crlf, utf8) == Matches(parts) + Plan(str, find, start, lastend, crlf, utf8)
    && WritesTo(out, Plan(str, find, start, lastend, crlf, utf8), if start <= |str| then start else |str|, Plan(str, find, 0, -1, crlf, utf8), str, rewrite)
  }

  /** The rest of the matches, rewritten after `out`, gives what all the matches together give. */
  ghost predicate WritesTo(out: seq<byte>, rest: seq<Found>, from: nat, all: seq<Found>, str: seq<byte>,
                           rewrite: (nat, nat) -> seq<byte>) {
    InOrder(str, rest, from) && InOrder(str, all, 0) &&
      out + Rewritten(str, rest, from, rewrite) == Rewritten(str, all, 0, rewrite)
  }

  lemma WritesKeep(out: seq<byte>, rest: seq<Found>, a: nat, b: nat, all: seq<Found>, str: seq<byte>,
                   rewrite: (nat, nat) -> seq<byte>)
    requires a <= b && InOrder(str, rest, b) && WritesTo(out, rest, a, all, str, rewrite)
    ensures WritesTo(out + str[a..b], rest, b, all, str, rewrite)
  {
    hide InOrder, Rewritten;
    InOrderEnd(str, rest, b);
    Later(str, rest, a, b, rewrite);
    assert out + (str[a..b] + Rewritten(str, rest, b, rewrite)) == out + str[a..b] + Rewritten(str, rest, b, rewrite);
  }

  lemma WritesSwap(out: seq<byte>, m: Found, rest: seq<Found>, from: nat, all: seq<Found>, str: seq<byte>,
                   rewrite: (nat, nat) -> seq<byte>)
    requires m.Match? && from <= m.s <= m.e && InOrder(str, rest, m.e)
    requires WritesTo(out, [m] + rest, from, all, str, rewrite)
    ensures m.e <= |str| && WritesTo(out + str[from..m.s] + rewrite(m.s, m.e), rest, m.e, all, str, rewrite)
  {
    hide InOrder, Rewritten;
    InOrderEnd(str, rest, m.e);
    First(str, m, rest, from, rewrite);
    var t := Rewritten(str, rest, m.e, rewrite);
    assert out + (str[from..m.s] + rewrite(m.s, m.e) + t) == out + str[from..m.s] + rewrite(m.s, m.e) + t;
  }

  lemma WritesEnd(out: seq<byte>, from: nat, all: seq<Found>, str: seq<byte>, rewrite: (nat, nat) -> seq<byte>)
    requires WritesTo(out, [], from, all, str, rewrite)
    ensures InOrder(str, all, 0) && from <= |str| && out + str[from..] == Rewritten(str, all, 0, rewrite)
  {
  }

  lemma SofarStart(str: seq<byte>, find: nat -> Found, rewrite: (nat, nat) -> seq<byte>, crlf: bool, utf8: bool)
    requires Proper(str, find)
    ensures Sofar([], [], 0, 0, -1, str, find, rewrite, crlf, utf8)
  {
    hide Plan, Proper, InOrder, Rewritten;
    PlanInOrder(str, find, 0, -1, crlf, utf8, rewrite);
    var plan := Plan(str, find, 0, -1, crlf, utf8);
    assert [] + Rewritten(str, plan, 0, rewrite) == Rewritten(str, plan, 0, rewrite);
  }

  /** An empty match at the end of the previous one: one character is kept. */
  lemma SofarKeep(parts: seq<Part>, out: seq<byte>, count: nat, start: nat, lastend: int,
                  str: seq<byte>, find: nat -> Found, rewrite: (nat, nat) -> seq<byte>, crlf: bool, utf8: bool)
    requires Sofar(parts, out, count, start, lastend, str, find, rewrite, crlf, utf8)
    requires start <= |str| && find(start).Match? && find(start).s == find(start).e == lastend
    ensures var next := Next(str, start, crlf, utf8);
      if next <= |str| then Sofar(parts + [Kept(str[start..next])], out + str[start..next], count, next, lastend, str, find, rewrite, crlf, utf8)
      else Sofar(parts, out, count, next, lastend, str, find, rewrite, crlf, utf8)
  {
    hide Before, After, Matches, Honest, WritesTo, InOrder, Plan, Next, Proper;
    var next, all := Next(str, start, crlf, utf8), Plan(str, find, 0, -1, crlf, utf8);
    PlanStep(str, find, start, lastend, crlf, utf8);
    if next <= |str| {
      KeepPart(parts, str, find, rewrite, start, next);
      PlanInOrder(str, find, next, lastend, crlf, utf8, rewrite);
      WritesKeep(out, Plan(str, find, next, lastend, crlf, utf8), start, next, all, str, rewrite);
    }
  }

  /** Any other match: the text before it is kept and the match replaced. */
  lemma SofarSwap(parts: seq<Part>, out: seq<byte>, count: nat, start: nat, lastend: int,
                  str: seq<byte>, find: nat -> Found, rewrite: (nat, nat) -> seq<byte>, crlf: bool, utf8: bool)
    requires Sofar(parts, out, count, start, lastend, str, find, rewrite, crlf, utf8)
    requires start <= |str| && find(start).Match? && !(find(start).s == find(start).e == lastend)
    ensures var Match(a, b) := find(start);
      && start <= a <= b <= |str|
      && Sofar(parts + [Kept(str[start..a]), Swapped(a, b, str[a..b], rewrite(a, b))], out + str[start..a] +
         rewrite(a, b), count + 1, b, b,
               str, find, rewrite, crlf, utf8)
  {
    hide Before, After, Matches, Honest, IsSwap, WritesTo, InOrder, Plan, Next, Proper;
    Inside(str, find, start);
    var Match(a, b) := find(start);
    PlanStep(str, find, start, lastend, crlf, utf8);
    SwapPart(parts, str, find, rewrite, start, a, b);
    PlanInOrder(str, find, b, b, crlf, utf8, rewrite);
    WritesSwap(out, Match(a, b), Plan(str, find, b, b, crlf, utf8), start, Plan(str, find, 0, -1, crlf, utf8), str,
               rewrite);
    assert Matches(parts) + ([Match(a, b)] + Plan(str, find, b, b, crlf, utf8)) ==
           (Matches(parts) + [Match(a, b)]) + Plan(str, find, b, b, crlf, utf8);
  }

  /** When the loop has ended: the rest is kept. */
  lemma SofarEnd(parts: seq<Part>, out: seq<byte>, count: nat, start: nat, lastend: int,
                 str: seq<byte>, find: nat -> Found, rewrite: (nat, nat) -> seq<byte>, crlf: bool, utf8: bool)
    requires Sofar(parts, out, count, start, lastend, str, find, rewrite, crlf, utf8)
    requires (start > |str| || find(start).NoMatch?)
    ensures var more := if start < |str| then [Kept(str[start..])] else [];
      && Before(parts + more) == str && Honest(parts + more, str, find, rewrite)
      && After(parts + more) == (if count == 0 then str else if start < |str| then out + str[start..] else out)
      && Matches(parts + more) == Plan(str, find, 0, -1, crlf, utf8) && count == |Matches(parts + more)|
      && InOrder(str, Plan(str, find, 0, -1, crlf, utf8), 0) &&
         After(parts + more) == Rewritten(str, Plan(str, find, 0, -1, crlf, utf8), 0, rewrite)
  {
    hide Before, After, Matches, Honest, WritesTo, InOrder, Rewritten, Plan, Proper;
    PlanStep(str, find, start, lastend, crlf, utf8);
    WritesEnd(out, if start <= |str| then start else |str|, Plan(str, find, 0, -1, crlf, utf8), str, rewrite);
    assert start >= |str| ==> str[|str|..] == [] && out + [] == out;
    assert str[..|str|] == str && parts + [] == parts;
    if start < |str| {
      KeepPart(parts, str, find, rewrite, start, |str|);
      assert str[..start] + str[start..] == str;
    }
  }

  lemma PlanStep(str: seq<byte>, find: nat -> Found, start: nat, lastend: int, crlf: bool, utf8: bool)
    requires Proper(str, find) && lastend <= start
    ensures var plan := Plan(str, find, start, lastend, crlf, utf8);
      if start > |str| || find(start).NoMatch? then plan == []
      else if find(start).s == find(start).e == lastend then plan == Plan(str, find, Next(str, start, crlf, utf8), lastend, crlf, utf8)
      else plan == [find(start)] + Plan(str, find, find(start).e, find(start).e, crlf, utf8)
  {
  }

  lemma KeepPart(parts: seq<Part>, str: seq<byte>, find: nat -> Found, rewrite: (nat, nat) -> seq<byte>, a: nat, b: nat)
    requires a <= b <= |str| && Before(parts) == str[..a] && Honest(parts, str, find, rewrite)
    ensures var p := Kept(str[a..b]);
      && Before(parts + [p]) == str[..b] && After(parts + [p]) == After(parts) + p.text &&
         Matches(parts + [p]) == Matches(parts)
      && Honest(parts + [p], str, find, rewrite)
  {
    hide Before, After, Matches, IsSwap;
    AddPart(parts, Kept(str[a..b]));
    assert str[..a] + str[a..b] == str[..b];
  }

  lemma SwapPart(parts: seq<Part>, str: seq<byte>, find: nat -> Found, rewrite: (nat, nat) -> seq<byte>, start: nat,
                 a: nat, b: nat)
    requires start <= a <= b <= |str| && Before(parts) == str[..start] && Honest(parts, str, find, rewrite)
    requires find(start) == Match(a, b)
    ensures var more := [Kept(str[start..a]), Swapped(a, b, str[a..b], rewrite(a, b))];
      && Before(parts + more) == str[..b] && After(parts + more) == After(parts) + str[start..a] + rewrite(a, b)
      && Matches(parts + more) == Matches(parts) + [Match(a, b)] && Honest(parts + more, str, find, rewrite)
  {
    hide Before, After, Matches;
    var k, p := Kept(str[start..a]), Swapped(a, b, str[a..b], rewrite(a, b));
    KeepPart(parts, str, find, rewrite, start, a);
    AddPart(parts + [k], p);
    assert parts + [k, p] == parts + [k] + [p];
    assert IsSwap(p, str, find, rewrite);
    assert str[..a] + str[a..b] == str[..b];
  }

  lemma Inside(str: seq<byte>, find: nat -> Found, start: nat)
    requires Proper(str, find) && start <= |str| && find(start).Match?
    ensures start <= find(start).s <= find(start).e <= |str|
  {
  }
}
