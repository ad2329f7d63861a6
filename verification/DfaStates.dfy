/** The states of the DFA matcher: pairs of a code offset and a repeat count, the states that each
    adds to the current list and to the next one, read off the bytes of the code vector, and the
    states that are reached at each subject position. */
module DfaStates {
  import opened Tree
  import opened Layout

  datatype State = State(off: nat, cnt: nat)

  /** Bytes and links read without regard to the end of the vector. */
  function Byte(code: Code, p: nat): byte {
    if p < |code| then code[p] else OP_END
  }

  function Link(code: Code, p: nat): nat {
    if p + 2 < |code| then Get2(code, p + 1) else 0
  }

  /** Following ALT links. */
  function KetFrom(code: Code, p: nat): nat
    decreases |code| - p
  {
    if p < |code| && code[p] == OP_ALT && Link(code, p) > 0 then KetFrom(code, p + Link(code, p)) else p
  }

  /** The starts of the branches of a group, given a header of length hl. */
  function Heads(code: Code, p: nat, hl: nat): seq<State>
    decreases |code| - p
  {
    [State(p + hl, 0)] +
    var q := p + Link(code, p);
    if p < q < |code| && code[q] == OP_ALT then Heads(code, q, 3) else []
  }

  /** The repeat that the k-th opcode of a block stands for. */
  function RepOf(k: nat, n: nat): Rep {
    if k == 0 then Star(Greedy) else if k == 1 then Star(Lazy) else if k == 9 then Star(Poss)
    else if k == 2 then Plus(Greedy) else if k == 3 then Plus(Lazy) else if k == 10 then Plus(Poss)
    else if k == 4 then Query(Greedy) else if k == 5 then Query(Lazy) else if k == 11 then Query(Poss)
    else if k == 6 then Upto(n, Greedy) else if k == 7 then Upto(n, Lazy) else if k == 12 then Upto(n, Poss)
    else Exact(n)
  }

  /** What an item-matching opcode at p says: its test, its repeat if it has one, and its length. */
  datatype Decoded = Decoded(x: Single, rep: bool, r: Rep, len: nat) | NotItem

  function DecodePlain(code: Code, p: nat): Decoded {
    var op := Byte(code, p);
    var base: byte := if op < OP_NOTSTAR then OP_STAR else if op < OP_TYPESTAR then OP_NOTSTAR else OP_TYPESTAR;
    var k := op - base;
    if k < 0 then NotItem else
    var wide := 6 <= k <= 8 || k == 12;
    var arg := Byte(code, if wide then p + 3 else p + 1);
    var r := RepOf(k, if wide then Link(code, p) else 0);
    var len := if wide then 4 else 2;
    if base == OP_STAR then Decoded(Chr(arg), true, r, len)
    else if base == OP_NOTSTAR then Decoded(NotChr(arg), true, r, len)
    else if 6 <= arg <= 13 then Decoded(Typ(arg), true, r, len)
    else NotItem
  }

  function DecodeClass(code: Code, p: nat): Decoded {
    if p + 33 > |code| then NotItem else
    var x := Set(code[p] == OP_NCLASS, code[p + 1..p + 33]);
    var op := Byte(code, p + 33);
    if op == OP_CRRANGE || op == OP_CRMINRANGE then
      var lo, hi := Link(code, p + 33), Link(code, p + 35);
      if hi != 0 && lo > hi then NotItem
      else Decoded(x, true, Range(lo, hi, if op == OP_CRMINRANGE then Lazy else Greedy), 38)
    else if OP_CRSTAR <= op < OP_CRRANGE then Decoded(x, true, RepOf(op - OP_CRSTAR, 0), 34)
    else Decoded(x, false, Star(Greedy), 33)
  }

  function Decode(code: Code, p: nat): Decoded {
    var op := Byte(code, p);
    if op == OP_CHAR then Decoded(Chr(Byte(code, p + 1)), false, Star(Greedy), 2)
    else if op == OP_NOT then Decoded(NotChr(Byte(code, p + 1)), false, Star(Greedy), 2)
    else if 6 <= op <= 13 then Decoded(Typ(op), false, Star(Greedy), 1)
    else if OP_STAR <= op < OP_CRSTAR then DecodePlain(code, p)
    else if op == OP_CLASS || op == OP_NCLASS then DecodeClass(code, p)
    else NotItem
  }

  /** Whether a repeat that has matched cnt bytes may be left; here says that one more byte would match. */
  predicate Leaves(r: Rep, cnt: nat, here: bool) {
    match r
    case Star(m) => !(m == Poss && here)
    case Plus(m) => cnt > 0 && !(m == Poss && here)
    case Query(m) => !(m == Poss && here)
    case Upto(_, m) => !(m == Poss && here)
    case Exact(_) => false
    case Range(lo, _, _) => cnt >= lo
  }

  /** Whether the repeat is over once another byte has matched, and the count if it is not. */
  predicate Full(r: Rep, cnt: nat) {
    match r
    case Star(_) => false
    case Plus(_) => false
    case Query(_) => true
    case Upto(n, _) => cnt + 1 >= n
    case Exact(n) => cnt + 1 >= n
    case Range(_, hi, _) => hi != 0 && cnt + 1 >= hi
  }

  function Counted(r: Rep, cnt: nat): nat {
    if r.Star? then 0 else cnt + 1
  }

  /** Whether the byte at the current position passes the test of an item. */
  predicate Here(env: Env, x: Single, i: nat) {
    i < |env.subject| && Test(env, x, env.subject[i])
  }

  /** The states that a state adds to the current list; `end` is the closing bracket of the whole pattern. */
  function Eps(env: Env, code: Code, end: nat, st: State, i: nat): seq<State> {
    var p := st.off;
    var op := Byte(code, p);
    if op == OP_KET || op == OP_KETRMAX || op == OP_KETRMIN then
      if p == end then []
      else [State(p + 3, 0)] + (if op != OP_KET && Link(code, p) <= p then [State(p - Link(code, p), 0)] else [])
    else if op == OP_ALT then [State(KetFrom(code, p), 0)]
    else if op == OP_BRA || op == OP_SBRA then Heads(code, p, 3)
    else if op == OP_CBRA || op == OP_SCBRA then Heads(code, p, 5)
    else if op == OP_BRAZERO || op == OP_BRAMINZERO then
      [State(p + 1, 0), State(KetFrom(code, p + 1 + Link(code, p + 1)) + 3, 0)]
    else if op == OP_SKIPZERO then [State(KetFrom(code, p + 1 + Link(code, p + 1)) + 3, 0)]
    else
      var d := Decode(code, p);
      if d.Decoded? && d.rep && Leaves(d.r, st.cnt, Here(env, d.x, i)) then [State(p + d.len, 0)] else []
  }

  /** The states that a state adds to the list for the next byte. */
  function Con(env: Env, code: Code, st: State, i: nat): seq<State> {
    var d := Decode(code, st.off);
    if d.NotItem? || !Here(env, d.x, i) then []
    else if !d.rep || Full(d.r, st.cnt) then [State(st.off + d.len, 0)]
    else [State(st.off, Counted(d.r, st.cnt))]
  }

  /** States with which position i is entered: those of the first branches at the start, later
      those that the previous byte leads to. */
  ghost predicate Seed(env: Env, code: Code, end: nat, start: nat, st: State, i: nat)
    decreases i, 0, 0
  {
    if i <= start then i == start && st in Heads(code, 0, 3)
    else Fed(env, code, end, start, st, i - 1)
  }

  /** States that the byte at position k leads to. */
  ghost predicate Fed(env: Env, code: Code, end: nat, start: nat, st: State, k: nat)
    decreases k, 3, 0
  {
    exists s0 :: Reach(env, code, end, start, s0, k) && st in Con(env, code, s0, k)
  }

  /** States that are reached at position i in at most n moves without consuming. */
  ghost predicate ReachIn(env: Env, code: Code, end: nat, start: nat, st: State, i: nat, n: nat)
    decreases i, 1, n
  {
    || Seed(env, code, end, start, st, i)
    || (n > 0 && exists s0 :: ReachIn(env, code, end, start, s0, i, n - 1) && st in Eps(env, code, end, s0, i))
  }

  ghost predicate Reach(env: Env, code: Code, end: nat, start: nat, st: State, i: nat)
    decreases i, 2, 0
  {
    exists n: nat :: ReachIn(env, code, end, start, st, i, n)
  }

  lemma ReachSeed(env: Env, code: Code, end: nat, start: nat, st: State, i: nat)
    requires Seed(env, code, end, start, st, i)
    ensures Reach(env, code, end, start, st, i)
  {
    assert ReachIn(env, code, end, start, st, i, 0);
  }

  lemma ReachElim(env: Env, code: Code, end: nat, start: nat, st: State, i: nat) returns (n: nat)
    requires Reach(env, code, end, start, st, i)
    ensures ReachIn(env, code, end, start, st, i, n)
  {
    n :| ReachIn(env, code, end, start, st, i, n);
  }

  lemma FedElim(env: Env, code: Code, end: nat, start: nat, st: State, k: nat) returns (s0: State)
    requires Fed(env, code, end, start, st, k)
    ensures Reach(env, code, end, start, s0, k) && st in Con(env, code, s0, k)
  {
    s0 :| Reach(env, code, end, start, s0, k) && st in Con(env, code, s0, k);
  }

  lemma ReachEps(env: Env, code: Code, end: nat, start: nat, st: State, st': State, i: nat)
    requires Reach(env, code, end, start, st, i) && st' in Eps(env, code, end, st, i)
    ensures Reach(env, code, end, start, st', i)
  {
    var n: nat :| ReachIn(env, code, end, start, st, i, n);
    assert ReachIn(env, code, end, start, st', i, n + 1);
  }

  lemma ReachCon(env: Env, code: Code, end: nat, start: nat, st: State, st': State, i: nat)
    requires Reach(env, code, end, start, st, i) && st' in Con(env, code, st, i) && start <= i
    ensures Seed(env, code, end, start, st', i + 1) && Reach(env, code, end, start, st', i + 1)
  {
    ReachSeed(env, code, end, start, st', i + 1);
  }

  /** A set of states that holds the seeds and is closed under moves without consuming holds all reached
      states. */
  lemma {:induction false} ClosedHasReach(env: Env, code: Code, end: nat, start: nat, i: nat, have: set<State>,
                                          st: State, n: nat)
    requires forall s0 :: Seed(env, code, end, start, s0, i) ==> s0 in have
    requires forall s0, s1 :: s0 in have && s1 in Eps(env, code, end, s0, i) ==> s1 in have
    requires ReachIn(env, code, end, start, st, i, n)
    ensures st in have
    decreases n
  {
    if !Seed(env, code, end, start, st, i) {
      var s0 :| ReachIn(env, code, end, start, s0, i, n - 1) && st in Eps(env, code, end, s0, i);
      ClosedHasReach(env, code, end, start, i, have, s0, n - 1);
    }
  }
}
