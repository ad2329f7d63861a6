/** The first byte and the required byte that compile_branch() and compile_regex() work out while
    compiling, and why every match has them. */
module FirstByte {
  import opened Tree
  import opened Regex

  /** The values of firstbyte and reqbyte: REQ_UNSET, REQ_NONE or a byte. */
  datatype Known = Unset | None | Is(b: byte)

  datatype Hints = Hints(first: Known, req: Known)

  /** After an item without regard to a quantifier; the second result is what a minimum of zero falls back
      to. */
  function AfterByte(h: Hints, x: Single): (Hints, Hints) {
    if x.Chr? then
      if h.first.Unset? then (h.(first := Is(x.c)), h.(first := None))
      else (h.(req := Is(x.c)), h)
    else
      var h' := if h.first.Unset? then h.(first := None) else h;
      (h', h')
  }

  function AfterGroup(h: Hints, sub: Hints): (Hints, Hints) {
    if h.first.Unset? then
      (Hints(if sub.first.Is? then sub.first else None, if sub.req.Is? then sub.req else h.req), h.(first := None))
    else
      (h.(req := if sub.req.Is? then sub.req else if sub.first.Is? then sub.first else h.req), h)
  }

  function Least(q: Quant): nat {
    if q.Plain? then 1 else q.lo
  }

  function AfterPiece(h: Hints, p: Piece): Hints
    decreases p, 0
  {
    match p
    case Byte(x, _, q) =>
      var (more, zero) := AfterByte(h, x);
      if Least(q) == 0 then zero
      else if Least(q) > 1 && x.Chr? then more.(req := Is(x.c)) else more
    case Paren(_, alts, q) =>
      var (more, zero) := AfterGroup(h, ChoiceHints(alts));
      if Least(q) == 0 then zero
      else if Least(q) > 1 && h.first.Unset? && more.first.Is? && !more.req.Is? then more.(req := more.first) else more
  }

  function AfterBranch(h: Hints, b: Branch): Hints
    decreases b, 0
  {
    match b case Done => h case Then(p, rest) => AfterBranch(AfterPiece(h, p), rest)
  }

  function BranchHints(b: Branch): Hints
    decreases b, 1
  {
    AfterBranch(Hints(Unset, Unset), b)
  }

  /** What is left of the values of the previous branches when another branch is added. */
  function Merge(h: Hints, b: Hints): Hints {
    var h1 := if h.first.Is? && h.first != b.first then Hints(None, if h.req.Is? then h.req else h.first) else h;
    var req := if !h1.first.Is? && b.first.Is? && !b.req.Is? then b.first else b.req;
    if h1.req == req then h1 else h1.(req := None)
  }

  function MergeAll(h: Hints, alts: Choice): Hints
    decreases alts, 2
  {
    match alts
    case Only(b) => Merge(h, BranchHints(b))
    case Or(b, more) => MergeAll(Merge(h, BranchHints(b)), more)
  }

  function ChoiceHints(alts: Choice): Hints
    decreases alts, 3
  {
    match alts
    case Only(b) => BranchHints(b)
    case Or(b, more) => MergeAll(BranchHints(b), more)
  }

  // ---------------------------------------------------------------------------------------
  // What the values promise of a match from i to j

  /** The match begins with the first byte and contains the required byte, later if there is a first byte. */
  ghost predicate Promised(env: Env, h: Hints, i: nat, j: nat) {
    && i <= j <= |env.subject|
    && (h.first.Is? ==> i < j && env.subject[i] == h.first.b)
    && (h.req.Is? ==> Occurs(env, h.req.b, if h.first.Is? then i + 1 else i, j))
  }

  ghost predicate Occurs(env: Env, b: byte, i: nat, j: nat)
    requires j <= |env.subject|
  {
    exists k :: i <= k < j && env.subject[k] == b
  }

  /** While no item has been seen, nothing has been matched. */
  ghost predicate Fresh(h: Hints, i: nat, j: nat) {
    h.first.Unset? ==> i == j && !h.req.Is?
  }

  lemma PromiseMore(env: Env, h: Hints, i: nat, j: nat, j': nat)
    requires Promised(env, h, i, j) && j <= j' <= |env.subject|
    ensures Promised(env, h, i, j')
  {
  }

  lemma {:induction false} ByteSound(env: Env, h: Hints, x: Single, q: Quant, bare: bool, i: nat, m: nat, j: nat)
    requires Promised(env, h, i, m) && Fresh(h, i, m) && MeansByte(env, x, q, m, j)
    ensures Promised(env, AfterPiece(h, Byte(x, bare, q)), i, j) && Fresh(AfterPiece(h, Byte(x, bare, q)), i, j)
  {
    PromiseMore(env, h, i, m, j);
    if Least(q) > 0 && x.Chr? {
      assert j - m >= Least(q) && Test(env, x, env.subject[m]);
      assert Least(q) > 1 ==> Test(env, x, env.subject[m + 1]);
    }
  }

  /** A group that is matched at least as often as its quantifier says. */
  lemma {:induction false} GroupSound(env: Env, h: Hints, p: Piece, sub: Hints, n: nat, i: nat, m: nat, m1: nat,
                                      m2: nat, j: nat)
    requires p.Paren? && sub == ChoiceHints(p.alts) && Within(p.q, n)
    requires Promised(env, h, i, m) && Fresh(h, i, m) && m <= j <= |env.subject|
    requires n >= 1 ==> Promised(env, sub, m, m1) && m1 <= j
    requires n >= 2 ==> Promised(env, sub, m1, m2) && m2 <= j
    ensures Promised(env, AfterPiece(h, p), i, j) && Fresh(AfterPiece(h, p), i, j)
  {
    PromiseMore(env, h, i, m, j);
    if n >= 1 {
      PromiseMore(env, sub, m, m1, j);
    }
  }

  lemma MergeSound(env: Env, h: Hints, b: Hints, i: nat, j: nat)
    requires Promised(env, h, i, j) || Promised(env, b, i, j)
    ensures Promised(env, Merge(h, b), i, j)
  {
  }

  // ---------------------------------------------------------------------------------------
  // Every match keeps the promise

  lemma {:induction false} PieceSound(env: Env, h: Hints, p: Piece, i: nat, m: nat, j: nat)
    requires Promised(env, h, i, m) && Fresh(h, i, m) && MeansPiece(env, p, m, j)
    ensures Promised(env, AfterPiece(h, p), i, j) && Fresh(AfterPiece(h, p), i, j)
    decreases p, 0, 0
  {
    hide AfterPiece, Promised, Fresh, MeansTimes, ChoiceHints, MeansByte;
    match p
    case Byte(x, bare, q) => ByteSound(env, h, x, q, bare, i, m, j);
    case Paren(_, alts, q) =>
      var n: nat :| Within(q, n) && MeansTimes(env, alts, n, m, j);
      var sub := ChoiceHints(alts);
      PromiseBounds(env, h, i, m);
      TimesSound(env, alts, n, m, j);
      var m1, m2 := m, m;
      if n >= 1 {
        m1 := MeansTimesElim(env, alts, n, m, j);
        ChoiceSound(env, alts, m, m1);
        PromiseBounds(env, sub, m, m1);
        TimesSound(env, alts, n - 1, m1, j);
        if n >= 2 {
          m2 := MeansTimesElim(env, alts, n - 1, m1, j);
          ChoiceSound(env, alts, m1, m2);
          PromiseBounds(env, sub, m1, m2);
          TimesSound(env, alts, n - 2, m2, j);
        }
      }
      GroupSound(env, h, p, sub, n, i, m, m1, m2, j);
  }

  lemma PromiseBounds(env: Env, h: Hints, i: nat, j: nat)
    requires Promised(env, h, i, j)
    ensures i <= j <= |env.subject|
  {
  }

  lemma {:induction false} TimesSound(env: Env, alts: Choice, n: nat, i: nat, j: nat)
    requires i <= |env.subject| && MeansTimes(env, alts, n, i, j)
    ensures i <= j <= |env.subject|
    decreases alts, 3, n
  {
    hide MeansChoice;
    if n > 0 {
      var m := MeansTimesElim(env, alts, n, i, j);
      ChoiceSound(env, alts, i, m);
      TimesSound(env, alts, n - 1, m, j);
    }
  }

  lemma {:induction false} BranchSound(env: Env, h: Hints, b: Branch, i: nat, m: nat, j: nat)
    requires Promised(env, h, i, m) && Fresh(h, i, m) && MeansBranch(env, b, m, j)
    ensures Promised(env, AfterBranch(h, b), i, j) && Fresh(AfterBranch(h, b), i, j)
    decreases b, 0, 0
  {
    hide Promised, Fresh, AfterPiece, MeansPiece;
    if b.Then? {
      var m' := BranchElim(env, b, m, j);
      PieceSound(env, h, b.p, i, m, m');
      BranchSound(env, AfterPiece(h, b.p), b.rest, i, m', j);
    }
  }

  lemma {:induction false} MergeAllSound(env: Env, h: Hints, alts: Choice, i: nat, j: nat)
    requires i <= |env.subject| && (Promised(env, h, i, j) || MeansChoice(env, alts, i, j))
    ensures Promised(env, MergeAll(h, alts), i, j)
    decreases alts, 1, 0
  {
    hide Promised, Fresh, Merge, BranchHints, MeansBranch;
    var b := BranchHints(alts.b);
    if MeansBranch(env, alts.b, i, j) {
      FirstSound(env, alts.b, i, j);
    }
    if Promised(env, h, i, j) || Promised(env, b, i, j) {
      MergeSound(env, h, b, i, j);
    }
    if alts.Or? {
      MergeAllSound(env, Merge(h, b), alts.more, i, j);
    }
  }

  lemma {:induction false} FirstSound(env: Env, b: Branch, i: nat, j: nat)
    requires i <= |env.subject| && MeansBranch(env, b, i, j)
    ensures Promised(env, BranchHints(b), i, j)
    decreases b, 1, 0
  {
    hide MeansBranch, AfterBranch;
    BranchSound(env, Hints(Unset, Unset), b, i, i, j);
  }

  /** Every match of a pattern begins with its first byte and contains its required byte. */
  lemma {:induction false} ChoiceSound(env: Env, alts: Choice, i: nat, j: nat)
    requires i <= |env.subject| && MeansChoice(env, alts, i, j)
    ensures Promised(env, ChoiceHints(alts), i, j)
    decreases alts, 2, 0
  {
    hide Promised, Fresh, Merge, BranchHints, MeansBranch;
    if MeansBranch(env, alts.b, i, j) {
      FirstSound(env, alts.b, i, j);
    }
    if alts.Or? {
      MergeAllSound(env, BranchHints(alts.b), alts.more, i, j);
    }
  }

  // ---------------------------------------------------------------------------------------
  // When there is a first byte

  /** Every branch begins with the literal c, at least once, or with a group that does. */
  predicate LeadsChoice(alts: Choice, c: byte)
    decreases alts
  {
    LeadsBranch(alts.b, c) && (alts.Or? ==> LeadsChoice(alts.more, c))
  }

  predicate LeadsBranch(b: Branch, c: byte)
    decreases b
  {
    b.Then? && LeadsPiece(b.p, c)
  }

  predicate LeadsPiece(p: Piece, c: byte)
    decreases p
  {
    Least(p.q) > 0 && if p.Byte? then p.x == Chr(c) else LeadsChoice(p.alts, c)
  }

  /** Once an item has been seen the first byte stays as it is. */
  lemma {:induction false} FirstStays(h: Hints, b: Branch)
    requires !h.first.Unset?
    ensures AfterBranch(h, b).first == h.first
    decreases b
  {
    if b.Then? {
      FirstStays(AfterPiece(h, b.p), b.rest);
    }
  }

  lemma {:induction false} BranchFirst(b: Branch, c: byte)
    ensures BranchHints(b).first == Is(c) <==> LeadsBranch(b, c)
    decreases b, 0
  {
    hide ChoiceHints, LeadsChoice;
    if b.Then? {
      var h := AfterPiece(Hints(Unset, Unset), b.p);
      if b.p.Paren? {
        ChoiceFirst(b.p.alts, c);
      }
      FirstStays(h, b.rest);
    }
  }

  lemma {:induction false} MergeFirst(h: Hints, alts: Choice, c: byte)
    ensures MergeAll(h, alts).first == Is(c) <==> h.first == Is(c) && LeadsChoice(alts, c)
    decreases alts, 1
  {
    hide BranchHints, LeadsBranch;
    BranchFirst(alts.b, c);
    if alts.Or? {
      MergeFirst(Merge(h, BranchHints(alts.b)), alts.more, c);
    }
  }

  /** There is a first byte exactly if every branch begins with it. */
  lemma {:induction false} ChoiceFirst(alts: Choice, c: byte)
    ensures ChoiceHints(alts).first == Is(c) <==> LeadsChoice(alts, c)
    decreases alts, 2
  {
    hide BranchHints, LeadsBranch, MergeAll;
    BranchFirst(alts.b, c);
    if alts.Or? {
      MergeFirst(BranchHints(alts.b), alts.more, c);
    }
  }

  // ---------------------------------------------------------------------------------------
  // Which byte is the required one

  /** The byte that an item contributes; `leading` says that it is the first of its branch, whose first byte is
      not also the required one unless the item is there twice. */
  function Needed(p: Piece, leading: bool): Known {
    if Least(p.q) == 0 then None
    else
      match p
      case Byte(x, _, q) => if x.Chr? && (leading ==> Least(q) > 1) then Is(x.c) else None
      case Paren(_, alts, q) =>
        var sub := ChoiceHints(alts);
        if sub.req.Is? then sub.req else if leading ==> Least(q) > 1 then sub.first else None
  }

  /** That of the last item that contributes one. */
  function LastNeeded(b: Branch, leading: bool): Known
    decreases b
  {
    match b
    case Done => None
    case Then(p, rest) => if LastNeeded(rest, false).Is? then LastNeeded(rest, false) else Needed(p, leading)
  }

  lemma {:induction false} RequiredLast(h: Hints, b: Branch)
    requires h.first.Unset? ==> !h.req.Is?
    ensures var n, req := LastNeeded(b, h.first.Unset?), AfterBranch(h, b).req;
      if n.Is? then req == n else req == h.req || (!req.Is? && !h.req.Is?)
    decreases b
  {
    hide ChoiceHints;
    if b.Then? {
      RequiredLast(AfterPiece(h, b.p), b.rest);
    }
  }

  /** The required byte of a branch is that of the last item which has one. */
  lemma {:induction false} BranchRequired(b: Branch, c: byte)
    ensures BranchHints(b).req == Is(c) <==> LastNeeded(b, true) == Is(c)
  {
    RequiredLast(Hints(Unset, Unset), b);
  }

  /** What a branch has to offer when the first byte is given up: its first byte stands in for a required one. */
  function Offered(h: Hints, kept: bool): Known {
    if kept || h.req.Is? then h.req else h.first
  }

  /** A byte is required of two alternatives exactly if both offer it. */
  lemma MergeExact(h: Hints, b: Hints, c: byte)
    ensures var kept := h.first.Is? && h.first == b.first;
      && (Merge(h, b).first == Is(c) <==> kept && h.first == Is(c))
      && (Merge(h, b).req == Is(c) <==> Offered(h, kept) == Offered(b, kept) == Is(c))
  {
  }
}
