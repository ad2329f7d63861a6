/** The function internal_dfa_exec(): a scan of the subject that keeps the states of all possible
    matches in two vectors, swapped at each byte, and records every end that it passes. */
module Dfa {
  import opened Tree
  import opened Semantics
  import opened Layout
  import opened DfaStates
  import opened DfaExact

  /** PCRE_ERROR_DFA_WSSIZE, or the value of match_count. */
  datatype Rc = WSSIZE | Count(n: int)

  const NOMATCH := -1

  /** match_count after k matches, for an offsets vector of oc usable elements. */
  function CountOf(k: nat, oc: nat): int {
    if k == 0 then NOMATCH else if oc < 2 then 0 else if k == 1 then 1 else if 2 * k < oc then k else 0
  }

  /** The offsets vector holds the longest matches, longest first, as many as fit. */
  ghost predicate Recorded(ends: seq<nat>, start: nat, offsets: seq<int>, oc: nat, count: int) {
    && oc <= |offsets| && oc % 2 == 0
    && count == CountOf(|ends|, oc)
    && forall t: nat :: t < |ends| && 2 * t + 1 < oc ==>
       offsets[2 * t] == start && offsets[2 * t + 1] == ends[|ends| - 1 - t]
  }

  /** Moving the pairs up by one and putting a new one in front. */
  lemma Shifted(ends: seq<nat>, ptr: nat, start: nat, before: seq<int>, after: seq<int>, oc: nat, count: int)
    requires Recorded(ends, start, before, oc, count) && |after| == |before|
    requires oc >= 2 ==> after[0] == start && after[1] == ptr
    requires forall k: nat :: 2 <= k < oc && k < 2 * |ends| + 2 ==> after[k] == before[k - 2]
    ensures Recorded(ends + [ptr], start, after, oc, CountOf(|ends| + 1, oc))
  {
    var ends' := ends + [ptr];
    forall t: nat | t < |ends'| && 2 * t + 1 < oc
      ensures after[2 * t] == start && after[2 * t + 1] == ends'[|ends'| - 1 - t]
    {
      if t > 0 {
        var u := t - 1;
        assert before[2 * u] == start && before[2 * u + 1] == ends[|ends| - 1 - u];
        assert after[2 * t] == before[2 * u] && after[2 * t + 1] == before[2 * u + 1];
      }
    }
  }

  ghost predicate Ascending(s: seq<nat>) {
    forall i, j :: 0 <= i < j < |s| ==> s[i] < s[j]
  }

  lemma AscendingSnoc(s: seq<nat>, e: nat)
    requires Ascending(s) && forall x :: x in s ==> x < e
    ensures Ascending(s + [e]) && Ascending(s + [])
  {
    assert forall i :: 0 <= i < |s| ==> s[i] in s;
  }

  lemma PrefixGrows(a: seq<State>, b: seq<State>, i: nat)
    requires i < |a|
    ensures (a + b)[..i + 1] == a[..i] + [a[i]]
    ensures b == [] ==> a + b == a
  {
  }

  lemma MoveFirst(a: seq<State>, b: seq<State>)
    requires b != []
    ensures a + b == (a + [b[0]]) + b[1..]
  {
  }

  lemma HeadsUnfold(code: Code, h: nat, hl: nat, more: bool)
    requires h + 2 < |code| && h < h + Get2(code, h + 1) < |code| && (more <==> code[h + Get2(code, h + 1)] == OP_ALT)
    ensures Heads(code, h, hl) != [] && Heads(code, h, hl)[0] == State(h + hl, 0)
    ensures Heads(code, h, hl)[1..] == if more then Heads(code, h + Get2(code, h + 1), 3) else []
  {
  }

  /** What an item-matching opcode adds to the two lists. */
  function ItemEps(env: Env, st: State, d: Decoded, i: nat): seq<State> {
    if d.Decoded? && d.rep && Leaves(d.r, st.cnt, Here(env, d.x, i)) then [State(st.off + d.len, 0)] else []
  }

  function ItemCon(env: Env, st: State, d: Decoded, i: nat): seq<State> {
    if d.NotItem? || !Here(env, d.x, i) then []
    else if !d.rep || Full(d.r, st.cnt) then [State(st.off + d.len, 0)]
    else [State(st.off, Counted(d.r, st.cnt))]
  }

  /** The bytes that are read for a state, and the states that they stand for. */
  ghost predicate Reads(env: Env, code: Code, st: State, items: Items, i: nat) {
    var p := st.off;
    var eps, con := Eps(env, code, End(code), st, i), Con(env, code, st, i);
    && p < |code|
    && var op := code[p];
      if op == OP_KET || op == OP_KETRMAX || op == OP_KETRMIN then
        p + 2 < |code| && Get2(code, p + 1) <= p && con == [] && st.cnt == 0
        && (p != End(code) ==> eps == [State(p + 3, 0)] + (if op != OP_KET then [State(p - Get2(code, p + 1), 0)] else []))
      else if op == OP_ALT then
        LeadsTo(code, p, KetFrom(code, p)) && con == [] && eps == [State(KetFrom(code, p), 0)]
      else if op == OP_BRA || op == OP_SBRA || op == OP_CBRA || op == OP_SCBRA then
        var hl := if op == OP_BRA || op == OP_SBRA then 3 else 5;
        items.Cons? && items.head.Group? && Header(code, p, hl, items.head.g.alts, items.head.g, p) && con == [] &&
          eps == Heads(code, p, hl)
      else if op == OP_BRAZERO || op == OP_BRAMINZERO || op == OP_SKIPZERO then
        p + 3 < |code|
        && var q := p + 1 + Get2(code, p + 2);
          LeadsTo(code, q, KetFrom(code, q)) && con == []
          && eps == (if op == OP_SKIPZERO then [] else [State(p + 1, 0)]) + [State(KetFrom(code, q) + 3, 0)]
      else
        eps == ItemEps(env, st, Decode(code, p), i) && con == ItemCon(env, st, Decode(code, p), i)
  }

  lemma {:induction false} PlaceReads(env: Env, code: Code, top: Grp, st: State, items: Items, ctx: Ctx, i: nat)
    requires Placed(code, top, st, items, ctx)
    ensures Reads(env, code, st, items, i)
  {
    hide At, LeadsTo, KetFrom, GrpAt, LenGrp, Heads, Header;
    AtBounds(code, st.off, items, ctx);
    Shape(code, st.off, items, ctx);
    if items.Nil? {
      ReadsNil(code, st.off, ctx);
    } else if items.head.Group? {
      if items.head.zero == Once {
        BraBytes(code, st.off, items.head.g, items.tail, ctx);
        OpenGroup(code, st.off, items.head.g);
      } else {
        ZeroBytes(code, st.off, items, ctx);
        GroupLeads(code, st.off + 1, items.head.g);
        SkipKet(code, st.off + 1, items.head.g);
      }
    }
  }

  lemma {:induction false} ReadsNil(code: Code, p: nat, ctx: Ctx)
    requires At(code, p, Nil, ctx) && ctx.In?
    ensures p < |code|
    ensures code[p] == OP_ALT ==> LeadsTo(code, p, KetFrom(code, p))
    ensures OP_KET <= code[p] <= OP_KETRMIN ==> p + 2 < |code| && Get2(code, p + 1) <= p
  {
    hide At, LeadsTo, KetFrom;
    AtBounds(code, p, Nil, ctx);
    var q := Enclosing(code, p, ctx);
    KetAt(code, p, q, ctx);
    LeadsKet(code, p, q + LenGrp(ctx.g) - 3);
    if OP_KET <= code[p] <= OP_KETRMIN {
      KetBytes(code, p, ctx);
    }
  }

  /** The scan of the active list up to the i-th state. */
  ghost predicate Scanned(env: Env, code: Code, start: nat, ptr: nat, active: seq<State>, next: seq<State>, i: nat) {
    var end := End(code);
    && i <= |active|
    && (forall k :: 0 <= k < |active| ==> Reach(env, code, end, start, active[k], ptr))
    && (forall st :: Seed(env, code, end, start, st, ptr) ==> st in active)
    && (forall k, st :: 0 <= k < i && st in Eps(env, code, end, active[k], ptr) ==> st in active)
    && (forall k, st :: 0 <= k < i && st in Con(env, code, active[k], ptr) ==> st in next)
    && (forall st :: st in next ==> Fed(env, code, end, start, st, ptr))
  }

  lemma {:induction false} ScanStart(env: Env, code: Code, start: nat, ptr: nat, active: seq<State>)
    requires forall st :: st in active <==> Seed(env, code, End(code), start, st, ptr)
    ensures Scanned(env, code, start, ptr, active, [], 0)
  {
    hide Eps, Con, Seed, Reach, Fed;
    forall k | 0 <= k < |active| ensures Reach(env, code, End(code), start, active[k], ptr) {
      ReachSeed(env, code, End(code), start, active[k], ptr);
    }
  }

  lemma {:induction false} ScanStep(env: Env, code: Code, start: nat, ptr: nat, active: seq<State>, next: seq<State>,
                                    i: nat)
    requires Scanned(env, code, start, ptr, active, next, i) && i < |active|
    ensures Scanned(env, code, start, ptr, active + Eps(env, code, End(code), active[i], ptr), next +
      Con(env, code, active[i], ptr), i + 1)
  {
    hide Eps, Con, Seed, Reach;
    var end := End(code);
    var eps, con := Eps(env, code, end, active[i], ptr), Con(env, code, active[i], ptr);
    forall st | st in eps ensures Reach(env, code, end, start, st, ptr) {
      ReachEps(env, code, end, start, active[i], st, ptr);
    }
    forall st | st in con ensures Fed(env, code, end, start, st, ptr) {
    }
  }

  lemma ScanReached(env: Env, code: Code, start: nat, ptr: nat, active: seq<State>, next: seq<State>, i: nat)
    requires Scanned(env, code, start, ptr, active, next, i)
    ensures i <= |active| && forall k :: 0 <= k < |active| ==> Reach(env, code, End(code), start, active[k], ptr)
  {
  }

  lemma {:induction false} ScanSkip(env: Env, code: Code, start: nat, ptr: nat, active: seq<State>, next: seq<State>,
                                    i: nat)
    requires Scanned(env, code, start, ptr, active, next, i) && i < |active| && active[i] in active[..i]
    ensures Scanned(env, code, start, ptr, active, next, i + 1)
  {
    hide Eps, Con, Seed, Reach, Fed;
    var k :| 0 <= k < i && active[k] == active[i];
  }

  /** Once every active state has been processed, the list holds exactly the states that are reached. */
  lemma {:induction false} ScanEnd(env: Env, code: Code, start: nat, ptr: nat, active: seq<State>, next: seq<State>)
    requires Scanned(env, code, start, ptr, active, next, |active|)
    ensures forall st :: st in active <==> Reach(env, code, End(code), start, st, ptr)
    ensures forall st :: st in next <==> Fed(env, code, End(code), start, st, ptr)
  {
    hide Eps, Con, Seed, Reach, ReachIn, Fed;
    var have := set st | st in active;
    forall st | Reach(env, code, End(code), start, st, ptr) ensures st in active {
      var n := ReachElim(env, code, End(code), start, st, ptr);
      ClosedHasReach(env, code, End(code), start, ptr, have, st, n);
    }
    forall st | Fed(env, code, End(code), start, st, ptr) ensures st in next {
      var s0 := FedElim(env, code, End(code), start, st, ptr);
      assert s0 in active;
      var k :| 0 <= k < |active| && active[k] == s0;
    }
  }

  /** The closing bracket of the pattern adds no states. */
  lemma {:induction false} FinalSilent(env: Env, code: Code, top: Grp, start: nat, ptr: nat)
    requires Whole(code, top)
    ensures Eps(env, code, End(code), State(End(code), 0), ptr) == [] && Con(env, code, State(End(code), 0), ptr) == []
  {
    hide At, Eps, Con, GrpAt, Decode, Heads, KetFrom;
    var ctx := In(top, Nil, Top);
    TopAt(code);
    KetInside(code, 0, top);
    AtInside(code, End(code), 0, ctx);
    var ket, q := EpsNil(env, code, top, End(code), ctx, ptr);
    ConNil(env, code, State(End(code), 0), ctx, ptr);
  }

  lemma FirstSeeds(env: Env, code: Code, start: nat)
    ensures forall st :: st in Heads(code, 0, 3) <==> Seed(env, code, End(code), start, st, start)
    ensures forall st, e: nat :: e < start ==> !Reach(env, code, End(code), start, st, e)
  {
    forall st, e: nat | e < start ensures !Reach(env, code, End(code), start, st, e) {
      NoneBefore(env, code, start, st, e);
    }
  }

  lemma {:induction false} NoneBefore(env: Env, code: Code, start: nat, st: State, e: nat)
    requires e < start
    ensures !Reach(env, code, End(code), start, st, e)
  {
    if Reach(env, code, End(code), start, st, e) {
      var n := ReachElim(env, code, End(code), start, st, e);
      ClosedHasReach(env, code, End(code), start, e, {}, st, n);
    }
  }

  /** A non-empty new list means that there was a byte to consume, and its states enter the next position. */
  lemma {:induction false} FedSeed(env: Env, code: Code, start: nat, ptr: nat, next: seq<State>)
    requires next != [] && start <= ptr && forall st :: st in next <==> Fed(env, code, End(code), start, st, ptr)
    ensures ptr < |env.subject| && forall st :: st in next <==> Seed(env, code, End(code), start, st, ptr + 1)
  {
    hide Reach, Eps, Fed, Decode;
    assert next[0] in next;
    var s0 := FedElim(env, code, End(code), start, next[0], ptr);
  }

  /** If nothing is carried over from ptr, nothing is reached later. */
  lemma {:induction false} NoMore(env: Env, code: Code, start: nat, ptr: nat, e: nat, st: State)
    requires start <= ptr < e && forall s0 :: !Fed(env, code, End(code), start, s0, ptr)
    ensures !Reach(env, code, End(code), start, st, e)
    decreases e
  {
    hide Eps, Con;
    if Reach(env, code, End(code), start, st, e) {
      var n := ReachElim(env, code, End(code), start, st, e);
      NoMoreIn(env, code, start, ptr, e, st, n);
    }
  }

  /** When no state is left, all the ends have been recorded. */
  lemma Finished(env: Env, code: Code, top: Grp, start: nat, ptr: nat, ends: seq<nat>)
    requires Whole(code, top) && start <= ptr <= |env.subject| && env.mstart == start
    requires forall s0 :: !Fed(env, code, End(code), start, s0, ptr)
    requires forall e: nat :: e in ends <==> e <= ptr && Reach(env, code, End(code), start, State(End(code), 0), e) && Accepts(env, e)
    ensures forall e: nat :: e in ends <==> MatchItems(env, Cons(Group(Once, top), Nil), start, e) && Accepts(env, e)
  {
    hide Reach, Fed, MatchItems, Accepts;
    forall e: nat ensures e in ends <==> MatchItems(env, Cons(Group(Once, top), Nil), start, e) && Accepts(env, e) {
      ReachExact(env, code, top, start, e);
      if e > ptr {
        NoMore(env, code, start, ptr, e, State(End(code), 0));
      }
    }
  }

  lemma {:induction false} NoMoreIn(env: Env, code: Code, start: nat, ptr: nat, e: nat, st: State, n: nat)
    requires start <= ptr < e && forall s0 :: !Fed(env, code, End(code), start, s0, ptr)
    ensures !ReachIn(env, code, End(code), start, st, e, n)
    decreases e, n
  {
    hide Eps, Con, Reach;
    if Seed(env, code, End(code), start, st, e) {
      assert Fed(env, code, End(code), start, st, e - 1);
      var s0 := FedElim(env, code, End(code), start, st, e - 1);
      NoMore(env, code, start, ptr, e - 1, s0);
    }
    if ReachIn(env, code, End(code), start, st, e, n) {
      var s0 :| ReachIn(env, code, End(code), start, s0, e, n - 1) && st in Eps(env, code, End(code), s0, e);
      NoMoreIn(env, code, start, ptr, e, s0, n - 1);
    }
  }

  class DfaRun {
    const env: Env
    const code: Code
    const offsets: array<int>
    const wscount: nat
    var active_states: array<State>
    var new_states: array<State>
    var active_count: nat
    var new_count: nat
    var match_count: int
    ghost var active: seq<State>  // the states in use in each vector
    ghost var next: seq<State>
    ghost var ends: seq<nat>      // the ends recorded so far

    constructor (env: Env, code: Code, offsets: array<int>, wscount: nat)
      ensures Valid() && fresh(active_states) && fresh(new_states)
      ensures this.env == env && this.code == code && this.offsets == offsets && this.wscount == wscount
      ensures active == [] && next == [] && ends == [] && match_count == NOMATCH
    {
      this.env, this.code, this.offsets, this.wscount := env, code, offsets, wscount;
      active_states := new State[wscount](_ => State(0, 0));
      new_states := new State[wscount](_ => State(0, 0));
      active_count, new_count, match_count := 0, 0, NOMATCH;
      active, next, ends := [], [], [];
    }

    ghost predicate Valid()
      reads this, active_states, new_states
    {
      && active_states != new_states
      && active_states.Length == new_states.Length == wscount
      && active_count <= wscount && new_count <= wscount
      && active == active_states[..active_count]
      && next == new_states[..new_count]
    }

    function Oc(): nat {
      offsets.Length - offsets.Length % 2
    }

    // -------------------------------------------------------------------------------------
    // The two vectors

    method AddActive(st: State) returns (ok: bool)
      requires Valid()
      modifies this`active_count, this`active, active_states
      ensures Valid() && ok == (|old(active)| < wscount) && |active| <= wscount
      ensures active == if ok then old(active) + [st] else old(active)
    {
      ok := active_count < wscount;
      if ok {
        active_states[active_count] := st;
        active_count := active_count + 1;
        active := active + [st];
      }
    }

    method AddNew(st: State) returns (ok: bool)
      requires Valid()
      modifies this`new_count, this`next, new_states
      ensures Valid() && ok == (|old(next)| < wscount) && |next| <= wscount
      ensures next == if ok then old(next) + [st] else old(next)
    {
      ok := new_count < wscount;
      if ok {
        new_states[new_count] := st;
        new_count := new_count + 1;
        next := next + [st];
      }
    }

    /** Take the state that was added last off the active list: how possessive repeats remove the
        possibility of stopping. */
    method DropActive()
      requires Valid() && active != []
      modifies this`active_count, this`active
      ensures Valid() && active == old(active)[..|old(active)| - 1]
    {
      active_count := active_count - 1;
      active := active[..|active| - 1];
    }

    /** Make the new list the active one. */
    method Swap()
      requires Valid()
      modifies this
      ensures Valid() && active == old(next) && next == [] && ends == old(ends) && match_count == old(match_count)
      ensures active_states == old(new_states) && new_states == old(active_states)
    {
      active_states, new_states := new_states, active_states;
      active_count, new_count := new_count, 0;
      active, next := next, [];
    }

    /** Whether the i-th active state occurs before. */
    method Duplicate(i: nat) returns (dup: bool)
      requires Valid() && i < |active|
      ensures dup <==> active[i] in active[..i]
    {
      for j := 0 to i
        invariant active[i] !in active[..j]
      {
        if active_states[j] == active_states[i] {
          return true;
        }
      }
      return false;
    }

    // -------------------------------------------------------------------------------------
    // Recording a match

    /** Shift up all previous matches and put the new one, which is longer, in front. */
    method Record(start: nat, ptr: nat)
      requires Valid() && Recorded(ends, start, offsets[..], Oc(), match_count)
      modifies this`match_count, this`ends, offsets
      ensures Valid() && ends == old(ends) + [ptr] && Recorded(ends, start, offsets[..], Oc(), match_count)
    {
      var offsetcount := Oc();
      if match_count < 0 {
        match_count := if offsetcount >= 2 then 1 else 0;
      } else if match_count > 0 {
        match_count := match_count + 1;
        if match_count * 2 >= offsetcount {
          match_count := 0;
        }
      }
      var count := (if match_count == 0 then offsetcount else match_count * 2) - 2;
      if count > 0 {
        forall k | 2 <= k < count + 2 {
          offsets[k] := offsets[k - 2];
        }
      }
      if offsetcount >= 2 {
        offsets[0], offsets[1] := start, ptr;
      }
      ends := ends + [ptr];
      Shifted(old(ends), ptr, start, old(offsets[..]), offsets[..], offsetcount, old(match_count));
    }

    // -------------------------------------------------------------------------------------
    // One state

    /** Add the states that a state leads to: to the active list without looking at the byte, to
        the new list if the byte at ptr matches. */
    method Process(st: State, ptr: nat, ghost top: Grp, ghost items: Items, ghost ctx: Ctx) returns (ok: bool)
      requires Valid() && Placed(code, top, st, items, ctx) && st != State(End(code), 0)
      modifies this`active_count, this`active, this`new_count, this`next, active_states, new_states
      ensures Valid() && (!ok ==> |active| == wscount || |next| == wscount)
      ensures ok ==>
        active == old(active) + Eps(env, code, End(code), st, ptr) && next == old(next) + Con(env, code, st, ptr)
    {
      hide Placed, Eps, Con, Decode, Heads, KetFrom, At, Valid, Header, LeadsTo, Get2, ItemEps, ItemCon;
      PlaceReads(env, code, top, st, items, ctx, ptr);
      var p, op := st.off, code[st.off];
      if op == OP_KET || op == OP_KETRMAX || op == OP_KETRMIN {
        ok := AddTwo(State(p + 3, 0), State(p - Get2(code, p + 1), 0), true, op != OP_KET);
      } else if op == OP_ALT {
        var ket := FollowLinks(code, p, KetFrom(code, p));
        ok := AddActive(State(ket, 0));
      } else if op == OP_BRA || op == OP_SBRA || op == OP_CBRA || op == OP_SCBRA {
        ok := AddBranches(p, if op == OP_BRA || op == OP_SBRA then 3 else 5, items.head.g);
      } else if op == OP_BRAZERO || op == OP_BRAMINZERO || op == OP_SKIPZERO {
        var q := p + 1 + Get2(code, p + 2);
        var ket := FollowLinks(code, q, KetFrom(code, q));
        ok := AddTwo(State(p + 1, 0), State(ket + 3, 0), op != OP_SKIPZERO, true);
      } else {
        ok := ProcessItem(st, ptr, Decode(code, p));
      }
    }

    /** Up to two active states. */
    method AddTwo(a: State, b: State, first: bool, second: bool) returns (ok: bool)
      requires Valid()
      modifies this`active_count, this`active, active_states
      ensures Valid() && (!ok ==> |active| == wscount)
      ensures ok ==> active == old(active) + ((if first then [a] else []) + (if second then [b] else []))
    {
      hide Valid;
      ok := true;
      if first {
        ok := AddActive(a);
      }
      if ok && second {
        ok := AddActive(b);
      }
    }

    /** The branches of a group, along the links of its headers. */
    method AddBranches(p: nat, hl: nat, ghost g: Grp) returns (ok: bool)
      requires Valid() && Header(code, p, hl, g.alts, g, p)
      modifies this`active_count, this`active, active_states
      ensures Valid() && (ok ==> active == old(active) + Heads(code, p, hl)) && (!ok ==> |active| == wscount)
    {
      hide Header, Heads, LenItems, LenGrp, Get2, Valid;
      var h: nat, l: nat := p, hl;
      ghost var alts := g.alts;
      ghost var rest := Heads(code, p, hl);
      var more := true;
      ok := true;
      while more && ok
        invariant Valid() && (ok ==> old(active) + Heads(code, p, hl) == active + rest) && (!ok ==> |active| == wscount)
        invariant ok && more ==> Header(code, h, l, alts, g, p) && rest == Heads(code, h, l)
        invariant ok && !more ==> rest == []
        decreases more && ok, alts
      {
        NextHeader(code, h, l, alts, g, p);
        HeadsUnfold(code, h, l, alts.More?);
        MoveFirst(active, rest);
        ok := AddActive(State(h + l, 0));
        rest := rest[1..];
        h, l := h + Get2(code, h + 1), 3;
        if code[h] == OP_ALT {
          alts := alts.rest;
        } else {
          more := false;
        }
      }
    }

    /** Literals, character types and classes, and their repeats. */
    method ProcessItem(st: State, ptr: nat, d: Decoded) returns (ok: bool)
      requires Valid()
      modifies this`active_count, this`active, this`new_count, this`next, active_states, new_states
      ensures Valid() && (!ok ==> |active| == wscount || |next| == wscount)
      ensures ok ==> active == old(active) + ItemEps(env, st, d, ptr) && next == old(next) + ItemCon(env, st, d, ptr)
    {
      hide Valid, Test, Leaves, Full, ModeOf;
      ok := true;
      if d.NotItem? {
        return;
      }
      var here := ptr < |env.subject| && Test(env, d.x, env.subject[ptr]);
      var after, count := State(st.off + d.len, 0), st.cnt;
      if !d.rep {
        if here {
          ok := AddNew(after);
        }
        return;
      }
      var adds, drops, stays := Ways(d.r, count);
      if adds {
        ok := AddActive(after);
      }
      if ok && here {
        if adds && drops {
          DropActive();
        }
        ok := AddNew(if stays then State(st.off, if d.r.Star? then 0 else count + 1) else after);
      }
    }

    /** The possibilities of a repeat with a given count: to stop, to stop only if the byte does not match,
        to go on. */
    method Ways(r: Rep, count: nat) returns (adds: bool, drops: bool, stays: bool)
      ensures adds == Leaves(r, count, false) && (adds && !drops) == Leaves(r, count, true) && stays == !Full(r, count)
    {
      adds := match r
        case Plus(_) => count > 0
        case Range(lo, _, _) => count >= lo
        case Exact(_) => false
        case _ => true;
      drops := !r.Range? && ModeOf(r) == Poss;
      stays := match r
        case Star(_) => true
        case Plus(_) => true
        case Query(_) => false
        case Upto(n, _) => count + 1 < n
        case Exact(n) => count + 1 < n
        case Range(_, hi, _) => hi == 0 || count + 1 < hi;
    }

    // -------------------------------------------------------------------------------------
    // One subject position

    /** Process the active states in order, including those that are added meanwhile, skipping duplicates. */
    method Scan(start: nat, ptr: nat, end: nat, ghost top: Grp) returns (ok: bool)
      requires Valid() && Whole(code, top) && start <= ptr && start <= |env.subject| && env.mstart == start
      requires end == End(code)
      requires next == [] && forall st :: st in active <==> Seed(env, code, end, start, st, ptr)
      requires Recorded(ends, start, offsets[..], Oc(), match_count)
      modifies this, active_states, new_states, offsets
      ensures Valid() && active_states == old(active_states) && new_states == old(new_states)
      ensures !ok ==> |active| == wscount || |next| == wscount
      ensures ok ==> forall st :: st in active <==> Reach(env, code, end, start, st, ptr)
      ensures ok ==> forall st :: st in next <==> Fed(env, code, end, start, st, ptr)
      ensures ok ==> Recorded(ends, start, offsets[..], Oc(), match_count)
      ensures ok ==>
        ends == old(ends) + (if Reach(env, code, end, start, State(end, 0), ptr) &&
          Accepts(env, ptr) then [ptr] else [])
    {
      hide Eps, Con, Seed, Reach, Fed, Valid, Recorded, PatternAt, Scanned;
      var i := 0;
      ok := true;
      ScanStart(env, code, start, ptr, active);
      while i < active_count && ok
        invariant Valid() && Recorded(ends, start, offsets[..], Oc(), match_count)
        invariant !ok ==> |active| == wscount || |next| == wscount
        invariant active_states == old(active_states) && new_states == old(new_states)
        invariant ok ==> Scanned(env, code, start, ptr, active, next, i) && i <= |active|
        invariant ok ==> ends == old(ends) + (if State(end, 0) in active[..i] && Accepts(env, ptr) then [ptr] else [])
        decreases wscount - i
      {
        ValidCounts();
        ScanReached(env, code, start, ptr, active, next, i);
        var st := active_states[i];
        var dup := Duplicate(i);
        PrefixGrows(active, Eps(env, code, end, st, ptr), i);
        PrefixGrows(active, [], i);
        if dup {
          ScanSkip(env, code, start, ptr, active, next, i);
        } else if st == State(end, 0) {
          FinalSilent(env, code, top, start, ptr);
          assert active + [] == active && next + [] == next;
          ScanStep(env, code, start, ptr, active, next, i);
          if ptr > start || !env.notempty {
            Record(start, ptr);
          }
        } else {
          ghost var items, ctx := ReachGrounded(env, code, top, start, st, ptr);
          ScanStep(env, code, start, ptr, active, next, i);
          ok := Process(st, ptr, top, items, ctx);
        }
        i := i + 1;
      }
      ValidCounts();
      if ok {
        ScanReached(env, code, start, ptr, active, next, i);
        assert active[..i] == active;
        ScanEnd(env, code, start, ptr, active, next);
      }
    }

    lemma ValidCounts()
      requires Valid()
      ensures |active| == active_count <= wscount == active_states.Length && |next| == new_count
      ensures forall k :: 0 <= k < active_count ==> active[k] == active_states[k]
    {
    }

    // -------------------------------------------------------------------------------------
    // The whole run

    /** Put the starts of the top-level branches on the new list and find the closing bracket of the pattern. */
    method Start(ghost top: Grp) returns (ok: bool, end: nat)
      requires Valid() && Whole(code, top) && next == []
      modifies this`new_count, this`next, new_states
      ensures Valid() && end == End(code) && (ok ==> next == Heads(code, 0, 3)) && (!ok ==> |next| == wscount)
    {
      hide Header, Heads, LenItems, Get2, Valid, GrpAt;
      OpenGroup(code, 0, top);
      var h: nat, l: nat := 0, 3;
      ghost var alts, rest := top.alts, Heads(code, 0, 3);
      var more := true;
      ok := true;
      while more
        invariant Valid() && (ok ==> Heads(code, 0, 3) == next + rest) && (!ok ==> |next| == wscount)
        invariant more ==> Header(code, h, l, alts, top, 0) && rest == Heads(code, h, l)
        invariant !more ==> rest == [] && h == End(code)
        decreases more, alts
      {
        NextHeader(code, h, l, alts, top, 0);
        HeadsUnfold(code, h, l, alts.More?);
        MoveFirst(next, rest);
        if ok {
          ok := AddNew(State(h + l, 0));
        }
        rest := rest[1..];
        h, l := h + Get2(code, h + 1), 3;
        if code[h] == OP_ALT {
          alts := alts.rest;
        } else {
          more := false;
        }
      }
      end := h;
    }

    /** Unless the workspace is too small, the recorded ends are all the ends of matches from `start`,
        and the offsets vector holds the longest of them. */
    method Exec(start: nat, ghost top: Grp) returns (rc: Rc)
      requires Valid() && next == [] && ends == [] && match_count == NOMATCH
      requires Whole(code, top) && start <= |env.subject| && env.mstart == start
      modifies this, active_states, new_states, offsets
      ensures rc != WSSIZE ==> Ascending(ends) && Recorded(ends, start, offsets[..], Oc(), match_count)
      ensures rc != WSSIZE && |ends| == 0 ==> rc == Count(-1)
      ensures rc != WSSIZE && |ends| > 0 && offsets.Length < 2 ==> rc == Count(0)
      ensures rc != WSSIZE && |ends| == 1 && offsets.Length >= 2 ==> rc == Count(1)
      ensures rc != WSSIZE && |ends| > 1 ==> rc == if 2 * |ends| < Oc() then Count(|ends|) else Count(0)
      ensures rc == WSSIZE ==> |active| == wscount || |next| == wscount
      ensures rc != WSSIZE ==>
        forall e: nat :: e in ends <==> MatchItems(env, Cons(Group(Once, top), Nil), start, e) && Accepts(env, e)
    {
      hide Reach, Seed, Fed, Eps, Con, Valid, PatternAt, Heads, MatchItems, Accepts;
      var ok, end := Start(top);
      if !ok {
        return WSSIZE;
      }
      var ptr := start;
      FirstSeeds(env, code, start);
      while true
        invariant Valid() && start <= ptr <= |env.subject|
        invariant {active_states, new_states} == old({active_states, new_states})
        invariant forall st :: st in next <==> Seed(env, code, end, start, st, ptr)
        invariant Recorded(ends, start, offsets[..], Oc(), match_count) && Ascending(ends)
        invariant forall e: nat :: e in ends <==> e < ptr && Reach(env, code, end, start, State(end, 0), e) && Accepts(env, e)
        decreases |env.subject| - ptr
      {
        Swap();
        AscendingSnoc(ends, ptr);
        ok := Scan(start, ptr, end, top);
        if !ok {
          return WSSIZE;
        }
        ValidCounts();
        if new_count == 0 {
          break;
        }
        FedSeed(env, code, start, ptr, next);
        ptr := ptr + 1;
      }
      Finished(env, code, top, start, ptr, ends);
      rc := Count(match_count);
    }
  }
}
