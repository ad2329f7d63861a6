/** A pattern of the plain fragment as it is written, after tokenizing: branches of quantified
    bytes and parentheses, with a meaning of its own that knows nothing about code. */
module Regex {
  import opened Tree

  datatype Bound = Max(n: nat) | NoMax

  /** The quantifier of an item. `marked` says that its text begins with '*', '?' or "{0,": what
      check_auto_possessive() recognizes as an optional item. */
  datatype Quant = Plain | Quant(lo: nat, hi: Bound, mode: Mode, marked: bool)

  /** An item. `bare` says that a byte is written as a literal or an escape sequence rather than
      as a class in square brackets or a dot. */
  datatype Piece =
    | Byte(x: Single, bare: bool, q: Quant)
    | Paren(capturing: bool, alts: Choice, q: Quant)

  datatype Branch = Done | Then(p: Piece, rest: Branch)
  datatype Choice = Only(b: Branch) | Or(b: Branch, more: Choice)

  /** Whether n repetitions satisfy a quantifier. */
  predicate Within(q: Quant, n: nat) {
    match q
    case Plain => n == 1
    case Quant(lo, hi, _, _) => lo <= n && UpTo(hi, n)
  }

  predicate UpTo(hi: Bound, n: nat) {
    hi.Max? ==> n <= hi.n
  }

  // ---------------------------------------------------------------------------------------
  // Meaning

  ghost predicate MeansByte(env: Env, x: Single, q: Quant, i: nat, j: nat) {
    && i <= j <= |env.subject|
    && Within(q, j - i)
    && AllTest(env, x, i, j)
    && (q.Quant? && q.mode == Poss ==> !UpTo(q.hi, j + 1 - i) || j == |env.subject| || !Test(env, x, env.subject[j]))
  }

  ghost predicate MeansPiece(env: Env, p: Piece, i: nat, j: nat)
    decreases p, 0, 0
  {
    match p
    case Byte(x, _, q) => MeansByte(env, x, q, i, j)
    case Paren(_, alts, q) => exists n: nat :: Within(q, n) && MeansTimes(env, alts, n, i, j)
  }

  ghost predicate MeansTimes(env: Env, alts: Choice, n: nat, i: nat, j: nat)
    decreases alts, 1, n
  {
    if n == 0 then i == j
    else exists m: nat :: MeansChoice(env, alts, i, m) && MeansTimes(env, alts, n - 1, m, j)
  }

  ghost predicate MeansChoice(env: Env, alts: Choice, i: nat, j: nat)
    decreases alts, 0, 0
  {
    match alts
    case Only(b) => MeansBranch(env, b, i, j)
    case Or(b, more) => MeansBranch(env, b, i, j) || MeansChoice(env, more, i, j)
  }

  ghost predicate MeansBranch(env: Env, b: Branch, i: nat, j: nat)
    decreases b, 0, 0
  {
    match b
    case Done => i == j
    case Then(p, rest) => exists m: nat :: MeansPiece(env, p, i, m) && MeansBranch(env, rest, m, j)
  }

  lemma MeansTimesElim(env: Env, alts: Choice, n: nat, i: nat, j: nat) returns (m: nat)
    requires n > 0 && MeansTimes(env, alts, n, i, j)
    ensures MeansChoice(env, alts, i, m) && MeansTimes(env, alts, n - 1, m, j)
  {
    m :| MeansChoice(env, alts, i, m) && MeansTimes(env, alts, n - 1, m, j);
  }

  lemma BranchElim(env: Env, b: Branch, i: nat, j: nat) returns (m: nat)
    requires b.Then? && MeansBranch(env, b, i, j)
    ensures MeansPiece(env, b.p, i, m) && MeansBranch(env, b.rest, m, j)
  {
    m :| MeansPiece(env, b.p, i, m) && MeansBranch(env, b.rest, m, j);
  }

  lemma BranchIntro(env: Env, b: Branch, i: nat, m: nat, j: nat)
    requires b.Then? && MeansPiece(env, b.p, i, m) && MeansBranch(env, b.rest, m, j)
    ensures MeansBranch(env, b, i, j)
  {
  }

  lemma NoBranch(env: Env, i: nat)
    ensures MeansBranch(env, Done, i, i)
  {
  }

  // ---------------------------------------------------------------------------------------
  // What the parser hands over

  /** Counts are at most 65535 and ordered. A possessive quantifier stays in the fragment where it
      has an opcode of its own: for bytes other than classes, unless the minimum is 1 and the
      maximum limited. */
  predicate WfQuant(q: Quant) {
    q.Quant? ==> q.lo < 65536 && (q.hi.Max? ==> q.lo <= q.hi.n < 65536) && (q.marked ==> q.lo == 0)
  }

  predicate WfPiece(p: Piece)
    decreases p
  {
    match p
    case Byte(x, bare, q) =>
      && WfQuant(q) && (bare ==> x.Chr? || (x.Typ? && x.t < OP_ANY))
      && (q.Quant? && q.mode == Poss ==> !x.Set? && !(q.lo == 1 && q.hi.Max?))
    case Paren(_, alts, q) => WfQuant(q) && (q.Quant? ==> q.mode != Poss) && WfChoice(alts)
  }

  predicate WfBranch(b: Branch)
    decreases b
  {
    match b case Done => true case Then(p, rest) => WfPiece(p) && WfBranch(rest)
  }

  predicate WfChoice(alts: Choice)
    decreases alts
  {
    match alts case Only(b) => WfBranch(b) case Or(b, more) => WfBranch(b) && WfChoice(more)
  }
}
