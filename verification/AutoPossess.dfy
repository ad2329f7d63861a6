/** check_auto_possessive(): when the item after an unlimited repeat cannot match what is repeated,
    the repeat is compiled in its possessive form. */
module AutoPossess {
  import opened Tree
  import opened Regex

  /** A byte above 127 is taken to have no type bits, whatever the table says. */
  predicate Has(ct: CTypes, t: TypeOp, c: byte) {
    c <= 127 && (if t == OP_DIGIT then ct[c].digit else if t == OP_WHITESPACE then ct[c].space else ct[c].word)
  }

  /** The answer for a repeated item x and the literal that follows it. */
  predicate NoLiteral(ct: CTypes, x: Single, c: byte) {
    match x
    case Chr(d) => d != c
    case NotChr(d) => d == c
    case Typ(t) =>
      if t == OP_DIGIT || t == OP_WHITESPACE || t == OP_WORDCHAR then !Has(ct, t, c)
      else if t == OP_NOT_DIGIT || t == OP_NOT_WHITESPACE || t == OP_NOT_WORDCHAR then Has(ct, t + 1, c)
      else false
    case Set(_, _) => false
  }

  /** The answer for a repeated item x and the type that follows it. */
  predicate NoType(ct: CTypes, x: Single, t: TypeOp) {
    match x
    case Chr(d) =>
      if t == OP_DIGIT || t == OP_WHITESPACE || t == OP_WORDCHAR then !Has(ct, t, d)
      else if t == OP_NOT_DIGIT || t == OP_NOT_WHITESPACE || t == OP_NOT_WORDCHAR then Has(ct, t + 1, d)
      else false
    case NotChr(_) => false
    case Typ(u) =>
      if u == OP_DIGIT then t == OP_NOT_DIGIT || t == OP_WHITESPACE || t == OP_NOT_WORDCHAR
      else if u == OP_NOT_DIGIT then t == OP_DIGIT
      else if u == OP_WHITESPACE then t == OP_NOT_WHITESPACE || t == OP_DIGIT || t == OP_WORDCHAR
      else if u == OP_NOT_WHITESPACE then t == OP_WHITESPACE
      else if u == OP_WORDCHAR then t == OP_NOT_WORDCHAR || t == OP_WHITESPACE
      else if u == OP_NOT_WORDCHAR then t == OP_WORDCHAR || t == OP_DIGIT
      else false
    case Set(_, _) => false
  }

  /** The answer for the item y, written as a literal or an escape sequence. */
  predicate Excludes(ct: CTypes, x: Single, y: Single) {
    match y case Chr(c) => NoLiteral(ct, x, c) case Typ(t) => NoType(ct, x, t) case _ => false
  }

  /** The answer for a repeated item x and the rest of the branch. */
  predicate CheckAuto(ct: CTypes, x: Single, rest: Branch) {
    && rest.Then? && rest.p.Byte? && rest.p.bare
    && !(rest.p.q.Quant? && rest.p.q.marked)
    && Excludes(ct, x, rest.p.x)
  }

  function Possessified(ct: CTypes, x: Single, q: Quant, rest: Branch): Quant {
    if q.Quant? && q.hi.NoMax? && !x.Set? && CheckAuto(ct, x, rest) then q.(mode := Poss) else q
  }

  // ---------------------------------------------------------------------------------------
  // When the answer can be trusted

  /** The tables of the C locale: no types above 127, digits are word characters, white space is not. */
  predicate Ascii(ct: CTypes) {
    forall c: byte ::
      && (c > 127 ==> ct[c] == CType(false, false, false))
      && (ct[c].digit ==> ct[c].word)
      && (ct[c].space ==> !ct[c].word)
  }

  ghost predicate Disjoint(env: Env, x: Single, y: Single) {
    forall c: byte :: !(Test(env, x, c) && Test(env, y, c))
  }

  /** A positive answer means that the two items have no byte in common, for all items exactly if
      the tables are those of the C locale in the three respects above. */
  lemma {:induction false} AutoExact(env: Env)
    ensures (forall x, y :: Excludes(env.ctypes, x, y) ==> Disjoint(env, x, y)) <==> Ascii(env.ctypes)
  {
    var ct := env.ctypes;
    if forall x, y :: Excludes(ct, x, y) ==> Disjoint(env, x, y) {
      forall c: byte
        ensures (c > 127 ==> ct[c] == CType(false, false, false)) && (ct[c].digit ==> ct[c].word)
        ensures (ct[c].space ==> !ct[c].word)
      {
        if c > 127 {
          Apart(env, Typ(OP_DIGIT), Chr(c), c);
          Apart(env, Typ(OP_WHITESPACE), Chr(c), c);
          Apart(env, Typ(OP_WORDCHAR), Chr(c), c);
        }
        Apart(env, Typ(OP_DIGIT), Typ(OP_NOT_WORDCHAR), c);
        Apart(env, Typ(OP_WHITESPACE), Typ(OP_WORDCHAR), c);
      }
    }
  }

  /** There are digits, white space, other word characters and other characters. */
  ghost predicate Varied(ct: CTypes) {
    && (exists c: byte :: ct[c].digit) && (exists c: byte :: ct[c].space)
    && (exists c: byte :: ct[c].word && !ct[c].digit) && (exists c: byte :: !ct[c].word && !ct[c].space)
  }

  /** What is repeated and what follows: a class or a dot is never taken into account, nor is a type after a negated
      literal. */
  predicate Considered(x: Single, y: Single) {
    match y
    case Chr(_) => !x.Set? && (x.Typ? ==> x.t < OP_ANY)
    case Typ(t) => t < OP_ANY && (x.Chr? || (x.Typ? && x.t < OP_ANY))
    case _ => false
  }

  /** For these the answer is positive whenever the two items have no byte in common. */
  lemma {:induction false} AutoComplete(env: Env, x: Single, y: Single)
    requires Ascii(env.ctypes) && Varied(env.ctypes) && Considered(x, y)
    ensures Excludes(env.ctypes, x, y) <==> Disjoint(env, x, y)
  {
    if y.Chr? {
      assert Test(env, x, y.c) <==> !Excludes(env.ctypes, x, y);
    } else if x.Chr? {
      assert Test(env, y, x.c) <==> !Excludes(env.ctypes, x, y);
    } else {
      AutoTypes(env, x.t, y.t);
    }
  }

  lemma {:induction false} AutoTypes(env: Env, t: TypeOp, u: TypeOp)
    requires Ascii(env.ctypes) && Varied(env.ctypes) && t < OP_ANY && u < OP_ANY
    ensures NoType(env.ctypes, Typ(t), u) <==> Disjoint(env, Typ(t), Typ(u))
  {
    var d: byte :| env.ctypes[d].digit;
    var s: byte :| env.ctypes[s].space;
    var w: byte :| env.ctypes[w].word && !env.ctypes[w].digit;
    var o: byte :| !env.ctypes[o].word && !env.ctypes[o].space;
    if !NoType(env.ctypes, Typ(t), u) {
      assert Both(env, t, u, d) || Both(env, t, u, s) || Both(env, t, u, w) || Both(env, t, u, o);
    }
  }

  predicate Both(env: Env, t: TypeOp, u: TypeOp, c: byte) {
    Test(env, Typ(t), c) && Test(env, Typ(u), c)
  }

  lemma Apart(env: Env, x: Single, y: Single, c: byte)
    requires forall x', y' :: Excludes(env.ctypes, x', y') ==> Disjoint(env, x', y')
    requires Excludes(env.ctypes, x, y)
    ensures !(Test(env, x, c) && Test(env, y, c))
  {
  }

  /** The tables are all that the tests depend on. */
  lemma SameTest(env: Env, env': Env, x: Single, y: Single, c: byte)
    requires env.ctypes == env'.ctypes && Excludes(env.ctypes, x, y)
    ensures (Test(env, x, c) <==> Test(env', x, c)) && (Test(env, y, c) <==> Test(env', y, c))
  {
  }

  // ---------------------------------------------------------------------------------------
  // Exactly when possessification preserves the meaning

  function Blank(ct: CTypes, subject: seq<byte>): Env {
    Env(subject, ct, 0, 0, false, 0, 0)
  }

  /** The item x, repeated without limit and followed by y, with any more items after it. */
  function Followed(x: Single, bare: bool, q: Quant, y: Single, qy: Quant, tail: Branch): Branch {
    Then(Byte(x, bare, q), Then(Byte(y, true, qy), tail))
  }

  /** Making the repeat possessive changes no match of any such branch. */
  ghost predicate Preserved(ct: CTypes, x: Single, bare: bool, q: Quant, y: Single, qy: Quant)
    requires q.Quant?
  {
    forall env: Env, tail: Branch, i: nat, j: nat :: env.ctypes == ct && i <= |env.subject| ==>
      (MeansBranch(env, Followed(x, bare, q, y, qy, tail), i, j) <==>
        MeansBranch(env, Followed(x, bare, q.(mode := Poss), y, qy, tail), i, j))
  }

  /** What a caller would have to know before: the next item has to occur, and matches nothing that x
      matches. */
  ghost predicate Safe(ct: CTypes, x: Single, y: Single, qy: Quant) {
    !Within(qy, 0) && Disjoint(Blank(ct, []), x, y)
  }

  /** After a positive answer the repeat ends where the run of matching bytes ends. */
  lemma {:induction false} NextBegins(env: Env, x: Single, y: Single, qy: Quant, m: nat, m': nat)
    requires Excludes(env.ctypes, x, y) && Safe(env.ctypes, x, y, qy) && MeansByte(env, y, qy, m, m')
    ensures m < |env.subject| && !Test(env, x, env.subject[m])
  {
    SameTest(env, Blank(env.ctypes, []), x, y, env.subject[m]);
  }

  lemma {:induction false} Run(env: Env, x: Single, q: Quant, c: byte, i: nat, j: nat)
    requires forall k :: i <= k < j <= |env.subject| ==> env.subject[k] == c
    requires i <= j <= |env.subject| && Within(q, j - i) && Test(env, x, c)
    requires q.Quant? && q.mode == Poss ==> j == |env.subject|
    ensures MeansByte(env, x, q, i, j)
  {
  }

  /** A subject of equal bytes is taken whole by a possessive repeat of an item that matches them. */
  lemma {:induction false} TakesAll(env: Env, x: Single, q: Quant, c: byte, m: nat)
    requires (forall k :: 0 <= k < |env.subject| ==> env.subject[k] == c) && Test(env, x, c)
    requires q.Quant? && q.mode == Poss && q.hi.NoMax? && MeansByte(env, x, q, 0, m)
    ensures m == |env.subject|
  {
  }

  /** For every item x that some byte matches, every unlimited quantifier, and every next item for which
      the answer is positive: possessification preserves the meaning exactly if the next item has to
      occur and has no byte in common with x. */
  lemma {:induction false} PreservedExact(ct: CTypes, x: Single, bare: bool, q: Quant, y: Single, qy: Quant, c: byte)
    requires q.Quant? && q.hi.NoMax? && q.mode != Poss && Excludes(ct, x, y) && WfQuant(qy)
    requires qy.Quant? && qy.mode == Poss ==> Disjoint(Blank(ct, []), x, y)
    requires Test(Blank(ct, []), x, c)
    ensures Preserved(ct, x, bare, q, y, qy) <==> Safe(ct, x, y, qy)
  {
    hide Preserved, Safe;
    if Safe(ct, x, y, qy) {
      SafePreserved(ct, x, bare, q, y, qy);
    } else if Within(qy, 0) {
      ZeroFails(ct, x, bare, q, y, qy, c);
    } else {
      var d := Common(ct, x, y, qy);
      CommonFails(ct, x, bare, q, y, qy, d);
    }
  }

  lemma Common(ct: CTypes, x: Single, y: Single, qy: Quant) returns (d: byte)
    requires !Safe(ct, x, y, qy) && !Within(qy, 0)
    ensures Test(Blank(ct, []), x, d) && Test(Blank(ct, []), y, d)
  {
    d :| Test(Blank(ct, []), x, d) && Test(Blank(ct, []), y, d);
  }

  lemma {:induction false} SafePreserved(ct: CTypes, x: Single, bare: bool, q: Quant, y: Single, qy: Quant)
    requires q.Quant? && q.hi.NoMax? && q.mode != Poss && Excludes(ct, x, y) && Safe(ct, x, y, qy)
    ensures Preserved(ct, x, bare, q, y, qy)
  {
    hide Safe, Excludes;
    var q' := q.(mode := Poss);
    forall env: Env, tail: Branch, i: nat, j: nat | env.ctypes == ct && i <= |env.subject|
      ensures MeansBranch(env, Followed(x, bare, q, y, qy, tail), i, j) <==>
        MeansBranch(env, Followed(x, bare, q', y, qy, tail), i, j)
    {
      if MeansBranch(env, Followed(x, bare, q, y, qy, tail), i, j) {
        SafeOnce(env, x, bare, q, q', y, qy, tail, i, j);
      }
      if MeansBranch(env, Followed(x, bare, q', y, qy, tail), i, j) {
        SafeOnce(env, x, bare, q', q, y, qy, tail, i, j);
      }
    }
  }

  lemma {:induction false} SafeOnce(env: Env, x: Single, bare: bool, q: Quant, q': Quant, y: Single, qy: Quant,
                                    tail: Branch, i: nat, j: nat)
    requires q.Quant? && q'.Quant? && q' == q.(mode := q'.mode) && Excludes(env.ctypes, x, y)
    requires Safe(env.ctypes, x, y, qy)
    requires MeansBranch(env, Followed(x, bare, q, y, qy, tail), i, j)
    ensures MeansBranch(env, Followed(x, bare, q', y, qy, tail), i, j)
  {
    hide MeansBranch, Safe, Excludes, AllTest, Test;
    var b, b' := Followed(x, bare, q, y, qy, tail), Followed(x, bare, q', y, qy, tail);
    var m := BranchElim(env, b, i, j);
    var m' := BranchElim(env, b.rest, m, j);
    NextBegins(env, x, y, qy, m, m');
    BranchIntro(env, b', i, m, j);
  }

  /** The next item may be missing: c*d{0}c on enough bytes c. */
  lemma {:induction false} ZeroFails(ct: CTypes, x: Single, bare: bool, q: Quant, y: Single, qy: Quant, c: byte)
    requires q.Quant? && q.hi.NoMax? && q.mode != Poss && Within(qy, 0) && Test(Blank(ct, []), x, c)
    requires Excludes(ct, x, y)
    requires qy.Quant? && qy.mode == Poss ==> !Test(Blank(ct, []), y, c)
    ensures !Preserved(ct, x, bare, q, y, qy)
  {
    hide MeansBranch, Test, Excludes;
    var s := seq(q.lo + 1, _ => c);
    var env, n, tail := Blank(ct, s), q.lo + 1, Then(Byte(x, bare, Plain), Done);
    SameTest(env, Blank(ct, []), x, y, c);
    var b, b' := Followed(x, bare, q, y, qy, tail), Followed(x, bare, q.(mode := Poss), y, qy, tail);
    Run(env, x, q, c, 0, n - 1);
    Run(env, x, Plain, c, n - 1, n);
    NoBranch(env, n);
    BranchIntro(env, tail, n - 1, n, n);
    assert MeansByte(env, y, qy, n - 1, n - 1);
    BranchIntro(env, b.rest, n - 1, n - 1, n);
    BranchIntro(env, b, 0, n - 1, n);
    if MeansBranch(env, b', 0, n) {
      var m := BranchElim(env, b', 0, n);
      var m1 := BranchElim(env, b'.rest, m, n);
      var m2 := BranchElim(env, tail, m1, n);
      TakesAll(env, x, b'.p.q, c, m);
    }
  }

  /** The next item matches a byte that x matches too. */
  lemma {:induction false} CommonFails(ct: CTypes, x: Single, bare: bool, q: Quant, y: Single, qy: Quant, d: byte)
    requires q.Quant? && q.hi.NoMax? && q.mode != Poss && !Within(qy, 0) && WfQuant(qy)
    requires (qy.Quant? ==> qy.mode != Poss)
    requires Test(Blank(ct, []), x, d) && Test(Blank(ct, []), y, d) && Excludes(ct, x, y)
    ensures !Preserved(ct, x, bare, q, y, qy)
  {
    hide MeansBranch, Test, Excludes;
    var k := if qy.Plain? then 1 else qy.lo;
    var n := q.lo + k;
    var s := seq(n, _ => d);
    var env := Blank(ct, s);
    SameTest(env, Blank(ct, []), x, y, d);
    var b, b' := Followed(x, bare, q, y, qy, Done), Followed(x, bare, q.(mode := Poss), y, qy, Done);
    Run(env, x, q, d, 0, q.lo);
    Run(env, y, qy, d, q.lo, n);
    NoBranch(env, n);
    BranchIntro(env, b.rest, q.lo, n, n);
    BranchIntro(env, b, 0, q.lo, n);
    if MeansBranch(env, b', 0, n) {
      var m := BranchElim(env, b', 0, n);
      var m1 := BranchElim(env, b'.rest, m, n);
      TakesAll(env, x, b'.p.q, d, m);
    }
  }
}
