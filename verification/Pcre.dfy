/** The library as a whole: compiling and matching together, the two matchers against each other,
    and the limits of what is guaranteed. */
module Pcre {
  import opened Tree
  import opened Semantics
  import opened Machine
  import opened Search
  import opened Progress
  import opened Layout
  import opened Regex
  import opened AutoPossess
  import opened DotStar
  import opened Compile
  import opened Loops
  import Emptiness
  import opened FirstByte
  import opened Sizing
  import opened Compiler
  import opened Exec
  import opened Study
  import StudyExact
  import Matcher
  import Dfa

  // ---------------------------------------------------------------------------------------
  // Compiling and matching

  /** Compile a pattern, study it if that is asked for, and search a subject with it: unless the pattern is
      too large or the call limit too low, the result is a match at the first start at which the pattern
      means there is one, or the information that there is none. */
  method FindPattern(alts: Choice, subject: seq<byte>, ctypes: CTypes, nl: byte, start_offset: nat, anchored: bool,
                     notempty: bool,
                study: bool, cb: CBits, offsets: array<int>, match_limit: nat)
    returns (r: Result<ExecRc>, from: nat, to: nat)
    requires Sound(ctypes, alts) && start_offset <= |subject|
    requires study ==> Agree(cb, ctypes) && (Unstudied(ctypes, alts) || Readable(ctypes, alts))
    modifies offsets
    ensures r.Err? <==> NeededGroup(false, alts) + 1 > MAX_PATTERN_SIZE
    ensures var env := EnvFor(subject, ctypes, nl, notempty, offsets.Length);
      r.Ok? ==>
        && NoneIn(env, alts, start_offset, from) && start_offset <= from && (anchored ==> from == start_offset)
        && (r.value.NoMatch? ==> NoneIn(env, alts, start_offset, if anchored then start_offset + 1 else |subject| + 1))
        && (r.value.Matches? ==> from <= |subject| && IsMatch(env, alts, from, to) && IsBest(env, alts, from, to))
        && (r.value.Matches? && offsets.Length >= 2 ==> offsets[0] == from && offsets[1] == to)
        && (r.value.Matches? && offsets.Length < 2 ==> r.value.count == 0)
        && (r.value.Matches? && offsets.Length >= 2 ==>
           CapturesOk(env.(mstart := from), alts, offsets[..env.oend], to, r.value.count))
        && (r.value.TooManyCalls? ==> from <= |subject| && Exhausted(env.(mstart := from), alts, match_limit))
  {
    hide NoneIn, IsMatch, IsBest, CapturesOk, Exhausted, PatternAt, WfChoice, SureChoice, NeededGroup, Agree, Readable,
         BitsSound, ChoiceHints, DotAlts;
    from, to := start_offset, start_offset;
    var c := PcreCompile(ctypes, alts);
    if c.Err? {
      return Err(c.number), from, to;
    }
    var bits := NoBits;
    if study {
      bits := PcreStudy(c.value, ctypes, cb, alts);
    }
    var rc: ExecRc;
    rc, from, to := PcreExec(c.value, bits, subject, ctypes, nl, start_offset, anchored, notempty, offsets,
      match_limit, alts);
    r := Ok(rc);
  }

  /** The starts of such a pattern are known without studying it. */
  predicate Unstudied(ct: CTypes, alts: Choice) {
    DotAlts(OP_ALLANY, TopGrp(ct, alts).alts) || ChoiceHints(alts).first.Is? || DotAlts(OP_ANY, TopGrp(ct, alts).alts)
  }

  /** The scan of its code comes to nothing that it cannot read, and to no number that it mistakes with harm. */
  ghost predicate Readable(ct: CTypes, alts: Choice) {
    TameAlts(TopGrp(ct, alts).alts) && SoberAlts(ct, TopGrp(ct, alts).alts)
  }

  /** pcre_study(): the map is for every subject. Where the scan can read the code, there is one unless a match
      can be empty, and where each item can match something, it has exactly the first bytes of the matches. */
  method PcreStudy(re: Compiled, ctypes: CTypes, cb: CBits, ghost alts: Choice) returns (bits: StartBits)
    requires PatternAt(re.code, TopGrp(ctypes, alts)) && Sound(ctypes, alts) && Agree(cb, ctypes)
    requires re.anchored || re.hints.first.Is? || re.startline || Readable(ctypes, alts)
    ensures bits.Bits? <==>
      !(re.anchored || re.hints.first.Is? || re.startline) && AltsYield(TopGrp(ctypes, alts).alts) == SsbDone
    ensures bits.Bits? ==> forall env: Env :: env.ctypes == ctypes ==> BitsSound(env, alts, bits.bits)
    ensures bits.Bits? ==>
      forall env: Env, c: byte :: env.ctypes == ctypes ==>
             (InBitmap(bits.bits, c) <==> StartsAlts(env, TopGrp(ctypes, alts).alts, c))
    ensures bits.Bits? ==> NeverEmpty(ctypes, alts)
    ensures bits.NoBits? && Legible(ctypes, alts) ==>
      re.anchored || re.hints.first.Is? || re.startline || EmptyAtEnd(ctypes, alts)
    ensures bits.Bits? && Placed(ctypes, alts) ==> Legible(ctypes, alts)
    ensures bits.Bits? && Legible(ctypes, alts) && StudyExact.FreeChoice(alts) ==>
      forall env: Env, c: byte :: env.ctypes == ctypes && StudyExact.CanChoice(env, alts) ==>
        (InBitmap(bits.bits, c) <==> BeginsMatch(env, alts, c))
  {
    hide PatternAt, Sound, Agree, TameAlts, SoberAlts, TameGrp, AltsYield, BitsSound, Gained, SetAlts, SetGrp;
    if re.anchored || re.hints.first.Is? || re.startline {
      return NoBits;
    }
    StudyAnswer(ctypes, alts);
    ghost var top, some := TopGrp(ctypes, alts), Env([], ctypes, 0, 0, false, 0, 0);
    var start_bits := new byte[32](_ => 0);
    TopAt(re.code, top);
    TameTop(top);
    TopSet(some, top);
    ghost var none := start_bits[..];
    var y := SetStartBits(re.code, 0, start_bits, cb, some, top);
    if y != SsbDone {
      return NoBits;
    }
    bits := Bits(start_bits[..]);
    assert |none| == 32 && forall k :: 0 <= k < 32 ==> none[k] == 0;
    forall env: Env | env.ctypes == ctypes
      ensures BitsSound(env, alts, bits.bits)
      ensures forall c: byte :: InBitmap(bits.bits, c) <==> StartsAlts(env, top.alts, c)
    {
      StudySound(env, some, alts, none, bits.bits);
    }
    StudyTight(ctypes, alts, bits.bits);
  }

  /** Up to the first item that cannot be empty the code has only what the scan can read. */
  predicate Legible(ct: CTypes, alts: Choice) {
    StudyExact.LegibleAlts(TopGrp(ct, alts).alts)
  }

  /** No bracket is behind a SKIPZERO or has a number that the scan takes for an opcode. */
  predicate Placed(ct: CTypes, alts: Choice) {
    StudyExact.PlacedAlts(TopGrp(ct, alts).alts)
  }

  ghost predicate NeverEmpty(ct: CTypes, alts: Choice) {
    forall env: Env, s: nat :: env.ctypes == ct && s <= |env.subject| ==> !MeansChoice(env, alts, s, s)
  }

  ghost predicate EmptyAtEnd(ct: CTypes, alts: Choice) {
    forall env: Env :: env.ctypes == ct ==> MeansChoice(env, alts, |env.subject|, |env.subject|)
  }

  /** On some subject there is a match whose first byte is c. */
  ghost predicate BeginsMatch(env: Env, alts: Choice, c: byte) {
    exists subject: seq<byte>, s: nat, e: nat ::
      s < e <= |subject| && subject[s] == c && IsMatch(env.(subject := subject), alts, s, e)
  }

  lemma TopAt(code: Code, g: Grp)
    requires PatternAt(code, g)
    ensures GrpAt(code, 0, g)
  {
  }

  lemma TopSet(env: Env, g: Grp)
    requires g.cap == 0
    ensures SetGrp(env, g) == SetAlts(env, g.alts)
  {
  }

  lemma TameTop(g: Grp)
    requires TameAlts(g.alts) && g.cap == 0
    ensures TameGrp(g) && GrpYield(g) == AltsYield(g.alts)
  {
  }

  /** If every branch has to begin with some byte, every match begins with a byte of the map. */
  lemma {:induction false} StudySound(env: Env, some: Env, alts: Choice, none: Bitmap, bits: Bitmap)
    requires Sound(env.ctypes, alts) && some.ctypes == env.ctypes && AltsYield(TopGrp(env.ctypes, alts).alts) == SsbDone
    requires Readable(env.ctypes, alts)
    requires (forall k :: 0 <= k < 32 ==> none[k] == 0)
    requires Gained(none, bits, SetAlts(some, TopGrp(env.ctypes, alts).alts))
    ensures BitsSound(env, alts, bits)
    ensures forall c: byte :: InBitmap(bits, c) <==> StartsAlts(env, TopGrp(env.ctypes, alts).alts, c)
  {
    hide AltsYield, StartsAlts, TameAlts, SoberAlts, MeansChoice, MatchAlts, ChoiceAlts, WfChoice, SureChoice, Bit;
    var tree := TopGrp(env.ctypes, alts).alts;
    forall c: byte ensures InBitmap(bits, c) <==> StartsAlts(env, tree, c) {
      ZeroBit(c % 8);
      SameStartsAlts(env, some, tree, c);
    }
    forall s: nat, e: nat | s <= |env.subject| && IsMatch(env, alts, s, e)
      ensures s < |env.subject| && InBitmap(bits, env.subject[s])
    {
      var here := env.(mstart := s);
      ChoiceExact(here, alts, 0, s, e);
      AltsBegin(here, tree, s, e);
      SameStartsAlts(here, env, tree, env.subject[s]);
    }
  }

  /** The answer of the scan is about empty matches. */
  lemma {:induction false} StudyAnswer(ct: CTypes, alts: Choice)
    requires Sound(ct, alts) && Readable(ct, alts)
    ensures AltsYield(TopGrp(ct, alts).alts) == SsbDone ==> NeverEmpty(ct, alts)
    ensures Legible(ct, alts) ==> AltsYield(TopGrp(ct, alts).alts) == SsbDone || EmptyAtEnd(ct, alts)
    ensures Placed(ct, alts) && AltsYield(TopGrp(ct, alts).alts) == SsbDone ==> Legible(ct, alts)
  {
    hide AltsYield, TameAlts, SoberAlts, MeansChoice, MatchAlts, ChoiceAlts, WfChoice, SureChoice, NullableAlts,
         StudyExact.LegibleAlts, StudyExact.PlacedAlts, StartsAlts;
    var tree := TopGrp(ct, alts).alts;
    if AltsYield(tree) == SsbDone {
      forall env: Env, s: nat | env.ctypes == ct && s <= |env.subject| ensures !MeansChoice(env, alts, s, s) {
        if MeansChoice(env, alts, s, s) {
          ChoiceExact(env, alts, 0, s, s);
          AltsBegin(env, tree, s, s);
        }
      }
      if Placed(ct, alts) {
        StudyExact.AltsRead(tree);
      }
    }
    if Legible(ct, alts) {
      StudyExact.AltsLegible(ct, tree);
      forall env: Env | env.ctypes == ct && NullableAlts(tree)
        ensures MeansChoice(env, alts, |env.subject|, |env.subject|)
      {
        Emptiness.NullableChoice(env, tree, |env.subject|);
        ChoiceExact(env, alts, 0, |env.subject|, |env.subject|);
      }
    }
  }

  /** Every byte of the map begins a match. */
  lemma {:induction false} StudyTight(ct: CTypes, alts: Choice, bits: Bitmap)
    requires Sound(ct, alts) && forall env: Env :: env.ctypes == ct ==> BitsSound(env, alts, bits)
    requires forall env: Env, c: byte :: env.ctypes == ct ==>
      (InBitmap(bits, c) <==> StartsAlts(env, TopGrp(ct, alts).alts, c))
    ensures Legible(ct, alts) && StudyExact.FreeChoice(alts) ==>
      forall env: Env, c: byte :: env.ctypes == ct && StudyExact.CanChoice(env, alts) ==>
        (InBitmap(bits, c) <==> BeginsMatch(env, alts, c))
  {
    hide StartsAlts, IsMatch, MeansChoice, ChoiceAlts, WfChoice, InBitmap, StudyExact.FreeChoice, StudyExact.CanChoice,
         StudyExact.LegibleAlts;
    if Legible(ct, alts) && StudyExact.FreeChoice(alts) {
      forall env: Env, c: byte | env.ctypes == ct && StudyExact.CanChoice(env, alts)
        ensures InBitmap(bits, c) <==> BeginsMatch(env, alts, c)
      {
        if InBitmap(bits, c) {
          var w := StudyExact.ChoiceStarts(env, alts, 0, c);
          WholeMatch(env, alts, w);
        }
      }
    }
  }

  lemma WholeMatch(env: Env, alts: Choice, w: seq<byte>)
    requires StudyExact.SpellsChoice(env, alts, w) && w != []
    ensures BeginsMatch(env, alts, w[0])
  {
    hide MeansChoice;
    var here := env.(subject := w, mstart := 0);
    assert w[0..0 + |w|] == w;
    assert StudyExact.At(env, here, 0, w);
    assert IsMatch(env.(subject := w), alts, 0, |w|);
  }

  // ---------------------------------------------------------------------------------------
  // The two matchers

  /** match() and the DFA matcher on the same code at the same start. */
  method BothMatchers(code: Code, env: Env, offsets: array<int>, match_limit: nat, dfa_offsets: array<int>,
                      wscount: nat, ghost alts: Choice)
    returns (rc: Matcher.Rc, end: nat, dfa: Dfa.Rc, ghost ends: seq<nat>)
    requires PatternAt(code, TopGrp(env.ctypes, alts)) && Sound(env.ctypes, alts) && env.mstart <= |env.subject|
    requires env.oend <= offsets.Length && Cleared(env, alts, offsets[..env.oend]) && offsets != dfa_offsets
    modifies offsets, dfa_offsets
    ensures rc != Matcher.GO && (rc == Matcher.MATCHLIMIT ==> Exhausted(env, alts, match_limit))
    ensures dfa != Dfa.WSSIZE ==>
      Dfa.Ascending(ends) && forall e: nat :: e in ends <==> IsMatch(env, alts, env.mstart, e)
    ensures dfa != Dfa.WSSIZE && rc == Matcher.MATCH ==> end in ends
    ensures dfa != Dfa.WSSIZE && rc == Matcher.NOMATCH ==> ends == []
    ensures dfa != Dfa.WSSIZE && |ends| == 0 ==> dfa == Dfa.Count(-1)
    ensures dfa != Dfa.WSSIZE && |ends| > 0 && dfa_offsets.Length < 2 ==> dfa == Dfa.Count(0)
    ensures dfa != Dfa.WSSIZE && |ends| == 1 && dfa_offsets.Length >= 2 ==> dfa == Dfa.Count(1)
    ensures dfa != Dfa.WSSIZE && |ends| > 1 ==>
      dfa == if 2 * |ends| < dfa_offsets.Length - dfa_offsets.Length % 2 then Dfa.Count(|ends|) else Dfa.Count(0)
    ensures dfa != Dfa.WSSIZE && rc == Matcher.MATCH && dfa_offsets.Length >= 2 ==>
      dfa_offsets[0] == env.mstart && end <= dfa_offsets[1]
  {
    hide Sound, PatternAt, IsMatch, IsBest, Cleared, CapturesOk, Exhausted, Dfa.CountOf;
    var top: nat;
    var overflow: bool;
    rc, end, top, overflow := Attempt(code, env, offsets, match_limit, false, alts);
    var run := new Dfa.DfaRun(env, code, dfa_offsets, wscount);
    dfa := run.Exec(env.mstart, TopGrp(env.ctypes, alts));
    ends := run.ends;
    if dfa != Dfa.WSSIZE {
      EndsMeaning(env, alts, ends);
      assert ends != [] ==> ends[0] in ends;
      if rc == Matcher.MATCH {
        LongestFirst(ends, env.mstart, dfa_offsets[..], run.Oc(), run.match_count, end);
      }
    }
  }

  lemma {:induction false} EndsMeaning(env: Env, alts: Choice, ends: seq<nat>)
    requires Sound(env.ctypes, alts) && env.mstart <= |env.subject|
    requires forall e: nat :: e in ends <==> MatchItems(env, Items1(env.ctypes, alts), env.mstart, e) && Accepts(env, e)
    ensures forall e: nat :: e in ends <==> IsMatch(env, alts, env.mstart, e)
  {
    hide Sound, MatchItems, MeansChoice;
    assert env.(mstart := env.mstart) == env;
    forall e: nat ensures e in ends <==> IsMatch(env, alts, env.mstart, e) {
      TopExact(env, alts, env.mstart, e);
    }
  }

  lemma LongestFirst(ends: seq<nat>, start: nat, offsets: seq<int>, oc: nat, count: int, e: nat)
    requires Dfa.Recorded(ends, start, offsets, oc, count) && Dfa.Ascending(ends) && e in ends
    ensures oc >= 2 ==> offsets[0] == start && e <= offsets[1]
  {
    if oc >= 2 {
      var i :| 0 <= i < |ends| && ends[i] == e;
      assert offsets[2 * 0] == start && offsets[2 * 0 + 1] == ends[|ends| - 1 - 0];
    }
  }

  // ---------------------------------------------------------------------------------------
  // The call limit

  /** For a pattern without traps some limit is high enough for every start. */
  lemma {:induction false} LoopsEnd(env: Env, alts: Choice) returns (k: nat)
    requires NoTraps(Items1(env.ctypes, alts))
    ensures forall s: nat, limit: nat :: s <= |env.subject| && k <= limit ==> !Exhausted(env.(mstart := s), alts, limit)
  {
    hide NoTraps, Exhausted;
    k := LoopsEndFrom(env, alts, |env.subject|);
  }

  lemma {:induction false} LoopsEndFrom(env: Env, alts: Choice, n: nat) returns (k: nat)
    requires NoTraps(Items1(env.ctypes, alts)) && n <= |env.subject|
    ensures forall s: nat, limit: nat :: s <= n && k <= limit ==> !Exhausted(env.(mstart := s), alts, limit)
    decreases n
  {
    hide NoTraps, Call, GuardedItems, MatchItems;
    var items, here := Items1(env.ctypes, alts), env.(mstart := n);
    TopFlagged(env.ctypes, alts);
    GuardedExact(items);
    k := EnoughBudget(here, items, n);
    if n > 0 {
      var k' := LoopsEndFrom(env, alts, n - 1);
      k := if k' > k then k' else k;
    }
  }

  lemma TopFlagged(ct: CTypes, alts: Choice)
    ensures FlaggedItems(Items1(ct, alts))
  {
    hide FlaggedAlts, ChoiceAlts;
    ChoiceFlagged(ct, alts, 0);
    assert FlaggedGrp(TopGrp(ct, alts));
    assert FlaggedItem(Items1(ct, alts).head);
  }

  /** With the trap, no limit is: the pattern (?:(?:a|b*)+)+ matches the empty string, but at the end
      of a subject match() never finds out. */
  lemma {:induction false} LoopsNeverEnd(env: Env, n: nat)
    requires env.mstart == |env.subject| && !env.notempty
    ensures Exhausted(env, Only(Nasty()), n) && IsMatch(env, Only(Nasty()), env.mstart, env.mstart)
  {
    hide Call, MeansChoice, MatchItems, Nullable, NullableAlts, BranchItems, Nasty;
    var alts := Only(Nasty());
    var items := BranchItems(env.ctypes, Nasty(), 0);
    NastyRunsAway(env.ctypes);
    var g := items.head.g;
    assert TopGrp(env.ctypes, alts) == Around(g);
    var caps := Caps([], 2, false);
    PatternNeverEnds(env, g, n, caps);
    assert Call(env, n, Point(Items1(env.ctypes, alts), Top, env.mstart), NoMark, caps) == Limit;
    NastyEmpty(env);
  }

  lemma {:induction false} NastyEmpty(env: Env)
    requires env.mstart == |env.subject| && !env.notempty
    ensures IsMatch(env, Only(Nasty()), env.mstart, env.mstart)
  {
    var e := env.mstart;
    assert env.(mstart := e) == env;
    var outer := Nasty().p;
    var inner := outer.alts.b.p;
    var b := inner.alts.more.b;
    assert MeansByte(env, b.p.x, b.p.q, e, e);
    assert MeansBranch(env, Done, e, e);
    assert MeansBranch(env, b, e, e);
    assert MeansChoice(env, inner.alts, e, e);
    OnePass(env, inner, e);
    assert MeansBranch(env, outer.alts.b, e, e);
    assert MeansChoice(env, outer.alts, e, e);
    OnePass(env, outer, e);
    assert MeansBranch(env, Nasty(), e, e);
  }

  lemma OnePass(env: Env, p: Piece, e: nat)
    requires p.Paren? && Within(p.q, 1) && MeansChoice(env, p.alts, e, e)
    ensures MeansPiece(env, p, e, e)
  {
    hide MeansChoice;
    assert MeansTimes(env, p.alts, 0, e, e);
    assert MeansTimes(env, p.alts, 1, e, e);
  }

  // ---------------------------------------------------------------------------------------
  // Automatic possessification

  /** c*d{0}c: the quantifier {0} does not look optional to check_auto_possessive(), so c* becomes
      possessive and takes the last c as well. */
  function Hidden(c: byte, d: byte): Branch {
    Then(Byte(Chr(c), true, Quant(0, NoMax, Greedy, true)),
      Then(Byte(Chr(d), true, Quant(0, Max(0), Greedy, false)),
        Then(Byte(Chr(c), true, Plain), Done)))
  }

  lemma {:induction false} HiddenZero(env: Env, c: byte, d: byte)
    requires c != d && env.subject == [c]
    ensures WfBranch(Hidden(c, d)) && !SureBranch(env.ctypes, Hidden(c, d))
    ensures MeansBranch(env, Hidden(c, d), 0, 1)
    ensures forall j: nat :: !MatchItems(env, BranchItems(env.ctypes, Hidden(c, d), 0), 0, j)
  {
    var b := Hidden(c, d);
    ByteThen(env.ctypes, b);
    ByteThen(env.ctypes, b.rest);
    ByteThen(env.ctypes, b.rest.rest);
    assert MeansBranch(env, Done, 1, 1);
    assert MeansByte(env, Chr(c), Plain, 0, 1) && MeansBranch(env, b.rest.rest, 0, 1);
    assert MeansByte(env, Chr(d), b.rest.p.q, 0, 0) && MeansBranch(env, b.rest, 0, 1);
    assert MeansByte(env, Chr(c), b.p.q, 0, 0);
    HiddenItems(env.ctypes, c, d);
    var items := Cons(Many(Chr(c), Star(Poss)), Cons(One(Chr(c)), Nil));
    forall j: nat ensures !MatchItems(env, items, 0, j) {
      TwoItems(env, items.head, items.tail.head, 0, j, 1);
    }
  }

  lemma HiddenItems(ct: CTypes, c: byte, d: byte)
    requires c != d
    ensures BranchItems(ct, Hidden(c, d), 0) == Cons(Many(Chr(c), Star(Poss)), Cons(One(Chr(c)), Nil))
  {
    hide BranchItems;
    var b := Hidden(c, d);
    ByteThen(ct, b);
    ByteThen(ct, b.rest);
    ByteThen(ct, b.rest.rest);
    assert BranchItems(ct, b.rest.rest, 0) == Cons(One(Chr(c)), Nil);
    assert CheckAuto(ct, Chr(c), b.rest);
  }

  lemma ByteThen(ct: CTypes, b: Branch)
    requires b.Then? && b.p.Byte?
    ensures BranchItems(ct, b, 0) == Append(ByteItems(b.p.x, Possessified(ct, b.p.x, b.p.q, b.rest)),
      BranchItems(ct, b.rest, 0))
    ensures WfBranch(b) <==> WfPiece(b.p) && WfBranch(b.rest)
    ensures SureBranch(ct, b) <==> Sure(ct, b.p, b.rest) && SureBranch(ct, b.rest)
    ensures BranchItems(ct, Done, 0) == Nil && WfBranch(Done)
  {
    hide ByteItems, Possessified;
    assert Parens(b.p) == 0;
  }
}
