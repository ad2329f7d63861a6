/** pcre_exec(): match() is tried at one start after another; what is known about the first and the
    required byte is used to pass over starts without trying them. */
module Exec {
  import opened Tree
  import opened Semantics
  import opened Machine
  import opened Search
  import Preference
  import RegexOrder
  import Ordered
  import opened Progress
  import Participation
  import Restore
  import opened Layout
  import opened Captures
  import opened DotStar
  import opened Regex
  import opened Compile
  import opened FirstByte
  import opened Numbering
  import opened Brackets
  import Topmost
  import Record
  import Marks
  import Overflow
  import opened Compiler
  import opened Matcher

  const REQ_BYTE_MAX := 1000

  /** The number of captured strings plus one or 0 if there were too many, PCRE_ERROR_NOMATCH or
      PCRE_ERROR_MATCHLIMIT. */
  datatype ExecRc = Matches(count: nat) | NoMatch | TooManyCalls

  /** A pattern of the plain fragment in which automatic possessification is safe. */
  ghost predicate Sound(ct: CTypes, alts: Choice) {
    WfChoice(alts) && SureChoice(ct, alts)
  }

  function Items1(ct: CTypes, alts: Choice): Items {
    Cons(Group(Once, TopGrp(ct, alts)), Nil)
  }

  /** A match of the pattern from s to e that the options permit. */
  ghost predicate IsMatch(env: Env, alts: Choice, s: nat, e: nat) {
    MeansChoice(env.(mstart := s), alts, s, e) && Accepts(env.(mstart := s), e)
  }

  lemma {:induction false} TopExact(env: Env, alts: Choice, i: nat, j: nat)
    requires Sound(env.ctypes, alts) && i <= |env.subject|
    ensures MatchItems(env, Items1(env.ctypes, alts), i, j) <==> MeansChoice(env, alts, i, j)
  {
    hide MatchItems, MatchAlts, ChoiceAlts, MeansChoice, WfChoice, SureChoice;
    OneItem(env, Items1(env.ctypes, alts).head, i, j);
    ChoiceExact(env, alts, 0, i, j);
  }

  /** The code of the pattern has the checks for empty iterations that it needs, and the mark that one
      of them leaves is not in the way of another. */
  predicate Direct(ct: CTypes, alts: Choice) {
    GuardedItems(Items1(ct, alts)) && Preference.Untangled(Items1(ct, alts), false)
  }

  /** The match from s to e is the one that the pattern prefers, of those that the options permit. */
  ghost predicate IsBest(env: Env, alts: Choice, s: nat, e: nat) {
    var here := env.(mstart := s);
    Direct(env.ctypes, alts) ==> Preference.FirstOf(here, RegexOrder.ChoiceWays(here, alts, s), e)
  }

  /** What substring number n is worth after a match that ended at e: it is unset, unless every match passes
      through the n-th of the parentheses that the pattern opens, or a part of the match that this one matches. */
  ghost predicate CaptureOk(env: Env, alts: Choice, n: nat, a: int, b: int, e: nat, count: nat)
    requires 1 <= n <= |Opened(alts)|
  {
    || (a == -1 && b == -1 && !Participation.Must(Items1(env.ctypes, alts), n))
    || (env.mstart <= a <= b <= e && (count > 0 ==> n < count) && MeansChoice(env, Opened(alts)[n - 1], a, b))
  }

  /** All the substrings, and the returned count, which is 0 only if some parenthesis has no room in the vector. */
  ghost predicate CapturesOk(env: Env, alts: Choice, vec: seq<int>, e: nat, count: nat) {
    && |vec| == env.oend && ValidEnv(env)
    && (forall n: nat :: 1 <= n <= |Opened(alts)| && 2 * n + 1 < env.omax ==>
          CaptureOk(env, alts, n, vec[2 * n], vec[2 * n + 1], e, count))
    && (if count > 0 then Counted(env, alts, vec, count) else !AllFit(env, alts))
    && FromTheWay(env, alts, vec, e, count)
  }

  predicate AllFit(env: Env, alts: Choice) {
    |Opened(alts)| > 0 ==> 2 * |Opened(alts)| < env.omax
  }

  function CountOf(top: nat, overflow: bool): nat {
    if overflow then 0 else top / 2
  }

  /** Each substring is where its parenthesis was opened and closed for the last time on the preferred way to e,
      which is the only one; it is unset if that never closes it. If one is closed for which there is no room, the
      count is 0. */
  ghost predicate FromTheWay(env: Env, alts: Choice, vec: seq<int>, e: nat, count: nat)
    requires ValidEnv(env) && |vec| == env.oend
  {
    exists run :: Marks.Prefers(env, Start(env, alts), e, run) && Records(env, alts, vec, run, count)
  }

  function Start(env: Env, alts: Choice): Marks.State {
    Marks.State(Point(Items1(env.ctypes, alts), Top, env.mstart), NoMark)
  }

  ghost predicate Records(env: Env, alts: Choice, vec: seq<int>, run: seq<Point>, count: nat)
    requires ValidEnv(env) && |vec| == env.oend
  {
    && (forall n: nat :: 1 <= n <= |Opened(alts)| && 2 * n + 1 < env.omax ==>
          Record.Span(run, n, -1, -1, vec[2 * n], vec[2 * n + 1]))
    && (Record.AnyLost(env, run) ==> count == 0)
  }

  /** The highest substring that is set comes just below the count. */
  ghost predicate Counted(env: Env, alts: Choice, vec: seq<int>, count: nat)
    requires ValidEnv(env) && |vec| == env.oend
  {
    1 <= count <= |Opened(alts)| + 1 &&
      (count > 1 ==> 2 * count <= env.omax && vec[2 * count - 2] != -1 && vec[2 * count - 1] != -1)
  }

  /** The data slots of all the brackets of the pattern are unset. */
  ghost predicate Cleared(env: Env, alts: Choice, vec: seq<int>) {
    && |vec| == env.oend && ValidEnv(env)
    && forall k :: 2 <= k < 2 * ParensChoice(alts) + 2 && k < env.omax ==> vec[k] == -1
  }

  /** The working slots of all the brackets of the pattern are unset. */
  ghost predicate Idle(env: Env, alts: Choice, vec: seq<int>) {
    && |vec| == env.oend && ValidEnv(env)
    && forall n: nat :: 1 <= n <= ParensChoice(alts) && 2 * n + 1 < env.omax ==> vec[env.oend - n] == -1
  }

  /** What a successful search leaves in the vector. */
  lemma {:induction false} CapturesMeaning(env: Env, alts: Choice, n: nat, vec: seq<int>, over: bool)
    requires Sound(env.ctypes, alts) && Cleared(env, alts, vec) && env.mstart <= |env.subject|
    requires over ==> !AllFit(env, alts)
    ensures var r := Call(env, n, Point(Items1(env.ctypes, alts), Top, env.mstart), NoMark, Caps(vec, 2, over));
      && (r.Matched? ==> CapturesOk(env, alts, r.caps.vec, r.end, CountOf(r.caps.top, r.caps.over)))
      && (r.Matched? && r.caps.over ==> !AllFit(env, alts)) && (r.Failed? && r.over ==> !AllFit(env, alts))
  {
    hide Sound, Call, CaptureOk, FromTheWay, Opened, AllFit;
    EachMeaning(env, alts, n, vec, over);
    CountMeaning(env, alts, n, vec, over);
    WayMeaning(env, alts, n, vec, over);
    OverMeaning(env, alts, n, vec, over);
  }

  lemma {:induction false} EachMeaning(env: Env, alts: Choice, n: nat, vec: seq<int>, over: bool)
    requires Sound(env.ctypes, alts) && Cleared(env, alts, vec) && env.mstart <= |env.subject|
    ensures var r := Call(env, n, Point(Items1(env.ctypes, alts), Top, env.mstart), NoMark, Caps(vec, 2, over));
      && (r.Matched? ==> |r.caps.vec| == env.oend)
      && (r.Matched? ==> forall i: nat :: 1 <= i <= |Opened(alts)| && 2 * i + 1 < env.omax ==>
            CaptureOk(env, alts, i, r.caps.vec[2 * i], r.caps.vec[2 * i + 1], r.end, CountOf(r.caps.top, r.caps.over)))
  {
    hide Sound, Call, MatchAlts, ChoiceAlts, MeansChoice, NamedItems, Participation.Must, Opened, Groups;
    var ct, groups := env.ctypes, Groups(alts, 0);
    var names := NamesOf(ct, groups);
    ChoiceListed(alts, 0);
    NamedTop(ct, alts);
    CapturesRight(env, names, n, Items1(ct, alts), Caps(vec, 2, over));
    var r := Call(env, n, Point(Items1(ct, alts), Top, env.mstart), NoMark, Caps(vec, 2, over));
    if r.Matched? {
      forall i: nat | 1 <= i <= |Opened(alts)| && 2 * i + 1 < env.omax
        ensures CaptureOk(env, alts, i, r.caps.vec[2 * i], r.caps.vec[2 * i + 1], r.end, CountOf(r.caps.top, r.caps.over))
      {
        assert i in names && HasSlots(env, r.caps, i);
        assert SlotOk(env, names, r.caps, i, r.end);
        if Participation.Must(Items1(ct, alts), i) {
          Participation.MandatorySet(env, n, Items1(ct, alts), Caps(vec, 2, over), i);
        }
        var a, b := r.caps.vec[2 * i], r.caps.vec[2 * i + 1];
        if a != -1 || b != -1 {
          CallEnd(env, n, alts, vec, over);
          GroupMeaning(env, alts, i, a, b);
        }
      }
    }
  }

  lemma {:induction false} CountMeaning(env: Env, alts: Choice, n: nat, vec: seq<int>, over: bool)
    requires Cleared(env, alts, vec) && env.mstart <= |env.subject|
    ensures var r := Call(env, n, Point(Items1(env.ctypes, alts), Top, env.mstart), NoMark, Caps(vec, 2, over));
      r.Matched? && |r.caps.vec| == env.oend ==> Counted(env, alts, r.caps.vec, r.caps.top / 2)
  {
    hide Call, NamedItems, Opened, Groups, DataOk;
    var names := NamesOf(env.ctypes, Groups(alts, 0));
    ChoiceListed(alts, 0);
    NamedTop(env.ctypes, alts);
    CapturesRight(env, names, n, Items1(env.ctypes, alts), Caps(vec, 2, over));
    Topmost.TopmostSet(env, n, Items1(env.ctypes, alts), env.mstart, Caps(vec, 2, over));
  }

  lemma {:induction false} WayMeaning(env: Env, alts: Choice, n: nat, vec: seq<int>, over: bool)
    requires Cleared(env, alts, vec)
    ensures var r := Call(env, n, Point(Items1(env.ctypes, alts), Top, env.mstart), NoMark, Caps(vec, 2, over));
      r.Matched? && |r.caps.vec| == env.oend ==>
        FromTheWay(env, alts, r.caps.vec, r.end, CountOf(r.caps.top, r.caps.over))
  {
    hide Call, Marks.Prefers, Record.Span, Opened, Groups;
    ChoiceListed(alts, 0);
    Marks.SearchFollows(env, n, Items1(env.ctypes, alts), env.mstart, Caps(vec, 2, over));
    var r := Call(env, n, Point(Items1(env.ctypes, alts), Top, env.mstart), NoMark, Caps(vec, 2, over));
    if r.Matched? && |r.caps.vec| == env.oend {
      var run :| Marks.Prefers(env, Start(env, alts), r.end, run) && Record.Recorded(env, vec, [] + run, r.caps);
      assert [] + run == run;
      assert Record.Recorded(env, vec, run, r.caps) && Record.Sized(env, vec, r.caps);
      forall i: nat | 1 <= i <= |Opened(alts)| && 2 * i + 1 < env.omax
        ensures Record.Span(run, i, -1, -1, r.caps.vec[2 * i], r.caps.vec[2 * i + 1])
      {
        assert HasSlots(env, r.caps, i);
        assert Record.SpanAt(env, vec, run, r.caps, i);
      }
    }
  }

  lemma {:induction false} OverMeaning(env: Env, alts: Choice, n: nat, vec: seq<int>, over: bool)
    requires Cleared(env, alts, vec)
    requires over ==> !AllFit(env, alts)
    ensures var r := Call(env, n, Point(Items1(env.ctypes, alts), Top, env.mstart), NoMark, Caps(vec, 2, over));
      (r.Matched? && r.caps.over ==> !AllFit(env, alts)) && (r.Failed? && r.over ==> !AllFit(env, alts))
  {
    hide Call, NamedItems, Opened, Groups, Overflow.Roomy;
    var items, names := Items1(env.ctypes, alts), NamesOf(env.ctypes, Groups(alts, 0));
    Overflow.CallNotes(env, n, Point(items, Top, env.mstart), NoMark, Caps(vec, 2, over));
    if AllFit(env, alts) {
      ChoiceListed(alts, 0);
      NamedTop(env.ctypes, alts);
      Overflow.NamedRoomy(env, items, names, {});
    }
  }

  lemma {:induction false} CallEnd(env: Env, n: nat, alts: Choice, vec: seq<int>, over: bool)
    requires env.mstart <= |env.subject|
    ensures var r := Call(env, n, Point(Items1(env.ctypes, alts), Top, env.mstart), NoMark,
      Caps(vec, 2, over)); r.Matched? ==> r.end <= |env.subject|
  {
    hide Call, MatchItems;
    SearchExact(env, n, Items1(env.ctypes, alts), env.mstart, Caps(vec, 2, over));
    var r := Call(env, n, Point(Items1(env.ctypes, alts), Top, env.mstart), NoMark, Caps(vec, 2, over));
    if r.Matched? {
      ItemsBounds(env, Items1(env.ctypes, alts), env.mstart, r.end);
    }
  }

  lemma {:induction false} GroupMeaning(env: Env, alts: Choice, n: nat, a: nat, b: nat)
    requires Sound(env.ctypes, alts) && n in Groups(alts, 0) && a <= |env.subject|
    ensures MatchAlts(env, ChoiceAlts(env.ctypes, Groups(alts, 0)[n], n), a, b) <==>
      MeansChoice(env, Groups(alts, 0)[n], a, b)
  {
    hide MatchAlts, ChoiceAlts, MeansChoice, Groups, WfChoice, SureChoice;
    ChoiceParts(env.ctypes, alts, 0, n);
    ChoiceExact(env, Groups(alts, 0)[n], n, a, b);
  }

  lemma {:induction false} NamedTop(ct: CTypes, alts: Choice)
    ensures NamedItems(Items1(ct, alts), NamesOf(ct, Groups(alts, 0)), {})
  {
    hide NamedAlts, ChoiceAlts, Groups;
    var names := NamesOf(ct, Groups(alts, 0));
    ChoiceNamed(ct, alts, 0, names, {} + {0});
    assert NamedGrp(TopGrp(ct, alts), names, {});
    assert NamedItem(Items1(ct, alts).head, names, {});
  }

  // ---------------------------------------------------------------------------------------
  // One start

  /** One call of match() from the start of the code. A match_data block is set up for each attempt:
      it differs from the previous one in start_match_ptr and the call count only: offset_overflow is carried over. */
  method Attempt(code: Code, env: Env, offsets: array<int>, match_limit: nat, overflow0: bool, ghost alts: Choice)
    returns (rc: Matcher.Rc, end: nat, top: nat, overflow: bool)
    requires PatternAt(code, TopGrp(env.ctypes, alts)) && Sound(env.ctypes, alts) && env.mstart <= |env.subject|
    requires env.oend <= offsets.Length && Cleared(env, alts, offsets[..env.oend])
    requires overflow0 ==> !AllFit(env, alts)
    modifies offsets
    ensures rc != GO && (rc != MATCHLIMIT && overflow ==> !AllFit(env, alts))
    ensures rc == MATCH ==>
      IsMatch(env, alts, env.mstart, end) && IsBest(env, alts, env.mstart, end) &&
        CapturesOk(env, alts, offsets[..env.oend], end, CountOf(top, overflow))
    ensures rc == NOMATCH ==>
      (forall e: nat :: !IsMatch(env, alts, env.mstart, e)) && offsets[..env.oend] == old(offsets[..env.oend])
    ensures rc == MATCHLIMIT ==> Exhausted(env, alts, match_limit)
  {
    hide Sound, Call, At, PatternAt, IsMatch, IsBest, ValidEnv, CaptureOk, ParensChoice;
    ghost var items, vec := Items1(env.ctypes, alts), offsets[..env.oend];
    ghost var caps := Caps(vec, 2, overflow0);
    var md := new MatchData(code, env, offsets, match_limit, overflow0);
    AtPattern(code, TopGrp(env.ctypes, alts));
    rc := md.Match(Frame(env.mstart, 0, 2, NoMark), false, View(items, Top));
    end, top, overflow := md.end_match_ptr, md.end_offset_top, md.offset_overflow;
    ghost var r := Call(env, match_limit, Point(items, Top, env.mstart), NoMark, caps);
    Restore.Untouched(env, match_limit, Point(items, Top, env.mstart), NoMark, caps);
    SearchMeaning(env, alts, match_limit, vec, overflow0);
    CapturesMeaning(env, alts, match_limit, vec, overflow0);
  }

  /** The limit is too low for an attempt at this start. */
  ghost predicate Exhausted(env: Env, alts: Choice, match_limit: nat) {
    exists caps :: Call(env, match_limit, Point(Items1(env.ctypes, alts), Top, env.mstart), NoMark, caps) == Limit
  }

  /** The search finds a match from a given start exactly if there is one. */
  lemma {:induction false} SearchMeaning(env: Env, alts: Choice, n: nat, vec: seq<int>, over: bool)
    requires Sound(env.ctypes, alts) && env.mstart <= |env.subject|
    ensures var r := Call(env, n, Point(Items1(env.ctypes, alts), Top, env.mstart), NoMark, Caps(vec, 2, over));
      && (r.Matched? ==> IsMatch(env, alts, env.mstart, r.end) && IsBest(env, alts, env.mstart, r.end))
      && (r.Failed? ==> forall e: nat :: !IsMatch(env, alts, env.mstart, e))
  {
    hide Sound, Direct, Call, MatchItems, MeansChoice, Preference.FirstOf, RegexOrder.ChoiceWays;
    var items := Items1(env.ctypes, alts);
    SearchExact(env, n, items, env.mstart, Caps(vec, 2, over));
    assert env.(mstart := env.mstart) == env;
    if Direct(env.ctypes, alts) {
      BestMeaning(env, alts, n, vec, over);
    }
    forall e: nat ensures MatchItems(env, items, env.mstart, e) <==> MeansChoice(env, alts, env.mstart, e) {
      TopExact(env, alts, env.mstart, e);
    }
  }

  lemma {:induction false} BestMeaning(env: Env, alts: Choice, n: nat, vec: seq<int>, over: bool)
    requires Sound(env.ctypes, alts) && Direct(env.ctypes, alts) && env.mstart <= |env.subject|
    ensures var r := Call(env, n, Point(Items1(env.ctypes, alts), Top, env.mstart), NoMark, Caps(vec, 2, over));
      r.Matched? ==> Preference.FirstOf(env, RegexOrder.ChoiceWays(env, alts, env.mstart), r.end)
  {
    hide Call, GuardedItems, Preference.Untangled, Preference.FirstOf, RegexOrder.ChoiceWays, WfChoice, SureChoice,
         Ordered.Ways, Accepts;
    var items := Items1(env.ctypes, alts);
    Preference.SearchPrefers(env, n, items, env.mstart, Caps(vec, 2, over));
    TopOrder(env, alts, env.mstart);
  }

  lemma {:induction false} TopOrder(env: Env, alts: Choice, i: nat)
    requires Sound(env.ctypes, alts) && i <= |env.subject|
    ensures Ordered.Ways(env, Items1(env.ctypes, alts), i) == RegexOrder.ChoiceWays(env, alts, i)
  {
    hide Sound, Ordered.Ways, Ordered.WaysGrp, RegexOrder.ChoiceWays, ChoiceAlts;
    var top := TopGrp(env.ctypes, alts);
    RegexOrder.WaysOne(env, Group(Once, top), i);
    forall m: nat | m <= |env.subject|
      ensures Ordered.WaysAlts(env, top.alts, m) == RegexOrder.ChoiceWays(env, alts, m)
    {
      SoundParts(env.ctypes, alts);
      RegexOrder.ChoiceOrder(env, alts, 0, m);
    }
    RegexOrder.KetWays(env, top, alts, i);
  }

  lemma SoundParts(ct: CTypes, alts: Choice)
    requires Sound(ct, alts)
    ensures WfChoice(alts) && SureChoice(ct, alts)
  {
  }

  // ---------------------------------------------------------------------------------------
  // Passing over starts

  datatype StartBits = NoBits | Bits(bits: Bitmap)

  ghost predicate NoneIn(env: Env, alts: Choice, lo: nat, hi: nat) {
    forall s: nat, e: nat :: lo <= s < hi ==> !IsMatch(env, alts, s, e)
  }

  /** Every match starts with a byte of the map. */
  ghost predicate BitsSound(env: Env, alts: Choice, bits: Bitmap) {
    forall s: nat, e: nat :: s <= |env.subject| && IsMatch(env, alts, s, e) ==>
           s < |env.subject| && InBitmap(bits, env.subject[s])
  }

  lemma {:induction false} HintsSound(env: Env, alts: Choice, s: nat, e: nat)
    requires s <= |env.subject| && IsMatch(env, alts, s, e)
    ensures Promised(env, ChoiceHints(alts), s, e)
  {
    hide MeansChoice, ChoiceHints;
    ChoiceSound(env.(mstart := s), alts, s, e);
  }

  /** Where the next byte b is, or the end of the subject. */
  method FindByte(subject: seq<byte>, from: nat, b: byte) returns (p: nat)
    requires from <= |subject|
    ensures from <= p <= |subject| && (p < |subject| ==> subject[p] == b)
    ensures forall k :: from <= k < p ==> subject[k] != b
  {
    p := from;
    while p < |subject| && subject[p] != b
      invariant from <= p <= |subject| && forall k :: from <= k < p ==> subject[k] != b
    {
      p := p + 1;
    }
  }

  method FindBits(subject: seq<byte>, from: nat, bits: Bitmap) returns (p: nat)
    requires from <= |subject|
    ensures from <= p <= |subject| && forall k :: from <= k < p ==> !InBitmap(bits, subject[k])
  {
    p := from;
    while p < |subject| && !InBitmap(bits, subject[p])
      invariant from <= p <= |subject| && forall k :: from <= k < p ==> !InBitmap(bits, subject[k])
    {
      p := p + 1;
    }
  }

  /** If all branches start with an unlimited repeat of the type t, a match that starts behind a byte
      of that type could also have started there. */
  lemma {:induction false} MatchBack(env: Env, alts: Choice, t: TypeOp, s: nat, e: nat)
    requires Sound(env.ctypes, alts) && DotAlts(t, TopGrp(env.ctypes, alts).alts) && IsMatch(env, alts, s, e)
    requires 0 < s <= |env.subject| && TypeTest(env, t, env.subject[s - 1])
    ensures IsMatch(env, alts, s - 1, e)
  {
    hide Sound, MatchItems, MeansChoice, TopGrp, TypeTest;
    var items, here, before := Items1(env.ctypes, alts), env.(mstart := s), env.(mstart := s - 1);
    TopExact(here, alts, s, e);
    DotTop(env.ctypes, alts, t);
    SameType(env, here, t, env.subject[s - 1]);
    ItemsBack(here, before, t, items, s, e);
    ItemsBounds(here, items, s, e);
    TopExact(before, alts, s - 1, e);
  }

  lemma DotTop(ct: CTypes, alts: Choice, t: TypeOp)
    requires DotAlts(t, TopGrp(ct, alts).alts)
    ensures DotFirst(t, Items1(ct, alts))
  {
  }

  lemma SameType(env: Env, env': Env, t: TypeOp, c: byte)
    requires Alike(env, env')
    ensures TypeTest(env, t, c) <==> TypeTest(env', t, c)
  {
  }

  /** No start behind a byte of the type is any good if none before it was. */
  lemma {:induction false} NoneBehind(env: Env, alts: Choice, t: TypeOp, a: nat, b: nat, c: nat)
    requires Sound(env.ctypes, alts) && DotAlts(t, TopGrp(env.ctypes, alts).alts) && NoneIn(env, alts, a, b)
    requires a < b <= c <= |env.subject| + 1 && forall k :: b - 1 <= k < c - 1 ==> TypeTest(env, t, env.subject[k])
    ensures NoneIn(env, alts, a, c)
    decreases c
  {
    hide Sound, DotAlts, IsMatch, TypeTest;
    if b < c {
      var s := c - 1;
      NoneBehind(env, alts, t, a, b, s);
      forall e: nat ensures !IsMatch(env, alts, s, e) {
        if IsMatch(env, alts, s, e) {
          MatchBack(env, alts, t, s, e);
        }
      }
    }
  }

  /** Go on to just after a newline, or beyond the end of the subject. */
  method FindLine(subject: seq<byte>, from: nat, nl: byte) returns (p: nat)
    requires 0 < from <= |subject|
    ensures from <= p <= |subject| + 1 && (p <= |subject| ==> subject[p - 1] == nl)
    ensures forall k :: from - 1 <= k < p - 1 ==> subject[k] != nl
  {
    p := from;
    while p <= |subject| && subject[p - 1] != nl
      invariant from <= p <= |subject| + 1 && forall k :: from - 1 <= k < p - 1 ==> subject[k] != nl
    {
      p := p + 1;
    }
  }

  /** Advance to a start at which the first byte of a match could be. */
  method Advance(env: Env, first: Known, startline: bool, bits: StartBits, start_offset: nat, start: nat,
                 ghost alts: Choice) returns (s: nat)
    requires start_offset <= start <= |env.subject| && (first.Is? ==> first == ChoiceHints(alts).first)
    requires (bits.Bits? ==> BitsSound(env, alts, bits.bits))
    requires startline ==> Sound(env.ctypes, alts) && DotAlts(OP_ANY, TopGrp(env.ctypes, alts).alts)
    requires NoneIn(env, alts, start_offset, start)
    ensures start <= s <= |env.subject| + 1 && NoneIn(env, alts, start_offset, s)
    ensures s == |env.subject| + 1 ==> startline && start > start_offset
    ensures !first.Is? && bits.NoBits? && start == start_offset ==> s == start
  {
    hide ChoiceHints, IsMatch, Sound, DotAlts;
    s := start;
    if first.Is? {
      s := FindByte(env.subject, start, first.b);
      forall t: nat, e: nat | start <= t < s ensures !IsMatch(env, alts, t, e) {
        if IsMatch(env, alts, t, e) {
          HintsSound(env, alts, t, e);
        }
      }
    } else if startline {
      if start > start_offset {
        s := FindLine(env.subject, start, env.nl);
        NoneBehind(env, alts, OP_ANY, start_offset, start, s);
      }
    } else if bits.Bits? {
      s := FindBits(env.subject, start, bits.bits);
    }
  }

  /** If the required byte does not occur from p on, no start from here on is any good. */
  lemma {:induction false} RequiredMissing(env: Env, alts: Choice, s: nat, first: Known)
    requires s <= |env.subject| && ChoiceHints(alts).req.Is? && (first.Is? ==> first == ChoiceHints(alts).first)
    requires forall k: nat :: (if first.Is? then s + 1 else s) <= k < |env.subject| ==>
      env.subject[k] != ChoiceHints(alts).req.b
    ensures NoneIn(env, alts, s, |env.subject| + 1)
  {
    hide ChoiceHints, IsMatch;
    forall t: nat, e: nat | s <= t < |env.subject| + 1 ensures !IsMatch(env, alts, t, e) {
      if IsMatch(env, alts, t, e) {
        HintsSound(env, alts, t, e);
      }
    }
  }

  // ---------------------------------------------------------------------------------------
  // All starts

  function EnvFor(subject: seq<byte>, ctypes: CTypes, nl: byte, notempty: bool, offsetcount: nat): Env {
    var ocount := offsetcount - offsetcount % 3;
    Env(subject, ctypes, nl, 0, notempty, ocount / 3 * 2, ocount)
  }

  /** How many slots are reset for each attempt. */
  function ResetCount(offsetcount: nat, top_bracket: nat): nat {
    if 2 + 2 * top_bracket > offsetcount then offsetcount - offsetcount % 3 else 2 + 2 * top_bracket
  }

  /** The vector has room for the brackets of the pattern. */
  ghost predicate Prepared(env: Env, offsetcount: nat, top_bracket: nat, alts: Choice) {
    ValidEnv(env) && env.oend == offsetcount - offsetcount % 3 && top_bracket == ParensChoice(alts)
  }

  /** Set the data slots that the pattern can use to -1; the working slots are not touched. */
  method Reset(env: Env, offsets: array<int>, top_bracket: nat, ghost alts: Choice)
    requires Prepared(env, offsets.Length, top_bracket, alts)
    modifies offsets
    ensures Cleared(env, alts, offsets[..env.oend])
    ensures old(Idle(env, alts, offsets[..env.oend])) ==> Idle(env, alts, offsets[..env.oend])
    ensures forall k :: ResetCount(offsets.Length, top_bracket) <= k < offsets.Length ==> offsets[k] == old(offsets[k])
  {
    hide ParensChoice;
    var resetcount := ResetCount(offsets.Length, top_bracket);
    for i := 0 to resetcount
      invariant forall k :: 0 <= k < i ==> offsets[k] == -1
      invariant forall k :: i <= k < offsets.Length ==> offsets[k] == old(offsets[k])
    {
      offsets[i] := -1;
    }
  }

  /** Set the working slots that the pattern can use to -1, from the end of the vector downwards. */
  method ResetWorking(env: Env, offsets: array<int>, top_bracket: nat, ghost alts: Choice)
    requires Prepared(env, offsets.Length, top_bracket, alts)
    modifies offsets
    ensures Idle(env, alts, offsets[..env.oend])
    ensures forall k :: 0 <= k < offsets.Length && !(env.oend - top_bracket <= k < env.oend) ==>
      offsets[k] == old(offsets[k])
  {
    hide ParensChoice;
    var i, end := env.oend - 1, env.oend - ResetCount(offsets.Length, top_bracket) / 2 + 1;
    while i >= end
      invariant end - 1 <= i < env.oend || i == env.oend - 1
      invariant forall k :: i < k < env.oend ==> offsets[k] == -1
      invariant forall k :: 0 <= k < offsets.Length && !(end <= k < env.oend) ==> offsets[k] == old(offsets[k])
    {
      offsets[i] := -1;
      i := i - 1;
    }
  }

  /** The first start from start_offset on at which the pattern matches, and a match from there; with
      PCRE_ANCHORED only start_offset itself. What is known about the start of a match never changes the answer.
      The start one beyond the end, where the search for a line start can end, is not tried. */
  method PcreExec(re: Compiled, bits: StartBits, subject: seq<byte>, ctypes: CTypes, nl: byte, start_offset: nat,
                  anchored: bool, notempty: bool,
                  offsets: array<int>, match_limit: nat, ghost alts: Choice)
    returns (rc: ExecRc, from: nat, to: nat)
    requires start_offset <= |subject| && Sound(ctypes, alts) && PatternAt(re.code, TopGrp(ctypes, alts))
    requires re.hints == ChoiceHints(alts) && re.top_bracket == ParensChoice(alts)
    requires re.anchored ==> DotAlts(OP_ALLANY, TopGrp(ctypes, alts).alts)
    requires re.startline ==> DotAlts(OP_ANY, TopGrp(ctypes, alts).alts)
    requires bits.Bits? ==> BitsSound(EnvFor(subject, ctypes, nl, notempty, offsets.Length), alts, bits.bits)
    modifies offsets
    ensures var env := EnvFor(subject, ctypes, nl, notempty, offsets.Length);
      rc.NoMatch? ==> Cleared(env, alts, offsets[..env.oend]) && Idle(env, alts, offsets[..env.oend])
    ensures var env := EnvFor(subject, ctypes, nl, notempty, offsets.Length);
      && start_offset <= from && (anchored ==> from == start_offset)
      && NoneIn(env, alts, start_offset, from)
      && (rc.NoMatch? ==> NoneIn(env, alts, start_offset, if anchored then start_offset + 1 else |subject| + 1))
      && (rc.Matches? ==> from <= |subject| && IsMatch(env, alts, from, to) && IsBest(env, alts, from, to))
      && (rc.TooManyCalls? ==> from <= |subject| && Exhausted(env.(mstart := from), alts, match_limit))
      && (rc.Matches? && offsets.Length >= 2 ==> offsets[0] == from && offsets[1] == to)
      && (rc.Matches? && offsets.Length < 2 ==> rc.count == 0)
      && (rc.Matches? && offsets.Length >= 2 ==> CapturesOk(env.(mstart := from), alts, offsets[..env.oend], to, rc.count))
  {
    hide Sound, PatternAt, ChoiceHints, ParensChoice, DotAlts, TopGrp, IsMatch, IsBest, BitsSound, NoneIn, Cleared,
         Idle, CapturesOk, Exhausted;
    var env := EnvFor(subject, ctypes, nl, notempty, offsets.Length);
    ResetWorking(env, offsets, re.top_bracket, alts);
    var once := anchored || re.anchored;
    var first, start_bits := if once then None else re.hints.first, if once || re.startline then NoBits else bits;
    var start_match, req_byte_ptr: int, overflow := start_offset, start_offset - 1, false;
    NoneYet(env, alts, start_offset);
    while true
      invariant start_offset <= start_match <= |subject| && NoneIn(env, alts, start_offset, start_match)
      invariant once ==> start_match == start_offset
      invariant overflow ==> !AllFit(env, alts)
      invariant Idle(env, alts, offsets[..env.oend])
      invariant req_byte_ptr >= start_offset ==>
        req_byte_ptr < |subject| && re.hints.req.Is? && subject[req_byte_ptr] == re.hints.req.b
      decreases |subject| - start_match
    {
      Reset(env, offsets, re.top_bracket, alts);
      start_match := Advance(env, first, re.startline, start_bits, start_offset, start_match, alts);
      if start_match > |subject| {
        NoneSub(env, alts, start_offset, start_offset + 1, |subject| + 1);
        return NoMatch, start_match, 0;
      }
      if re.hints.req.Is? && |subject| - start_match < REQ_BYTE_MAX {
        var p := start_match + (if first.Is? then 1 else 0);
        if p > req_byte_ptr {
          if p < |subject| {
            p := FindByte(subject, p, re.hints.req.b);
          }
          if p >= |subject| {
            RequiredMissing(env, alts, start_match, first);
            NoneJoin(env, alts, start_offset, start_match, |subject| + 1);
            NoneSub(env, alts, start_offset, start_offset + 1, |subject| + 1);
            return NoMatch, start_match, 0;
          }
          req_byte_ptr := p;
        }
      }
      var here := env.(mstart := start_match);
      ClearedFrom(env, alts, offsets[..env.oend], start_match);
      var result, end, top: nat;
      result, end, top, overflow := Attempt(re.code, here, offsets, match_limit, overflow, alts);
      Same(env, alts, start_match);
      if result == MATCH {
        if offsets.Length >= 2 {
          SlotsApart(here, alts, offsets[..], start_match, end, CountOf(top, overflow));
          offsets[0], offsets[1] := start_match, end;
          return Matches(if overflow then 0 else top / 2), start_match, end;
        }
        return Matches(0), start_match, end;
      } else if result == MATCHLIMIT {
        return TooManyCalls, start_match, 0;
      }
      NoneJoin(env, alts, start_offset, start_match, start_match + 1);
      if once || start_match == |subject| {
        if re.anchored {
          NoneAnywhere(env, alts, start_offset);
        }
        return NoMatch, start_match, 0;
      }
      start_match := start_match + 1;
    }
  }

  /** A pattern that is anchored because it starts with .* matches from the first start or not at all. */
  lemma NoneAnywhere(env: Env, alts: Choice, s: nat)
    requires Sound(env.ctypes, alts) && DotAlts(OP_ALLANY, TopGrp(env.ctypes, alts).alts) && s <= |env.subject|
    requires NoneIn(env, alts, s, s + 1)
    ensures NoneIn(env, alts, s, |env.subject| + 1)
  {
    hide Sound, DotAlts, NoneIn;
    NoneBehind(env, alts, OP_ALLANY, s, s + 1, |env.subject| + 1);
  }

  lemma NoneSub(env: Env, alts: Choice, a: nat, b: nat, c: nat)
    requires NoneIn(env, alts, a, c) && b <= c
    ensures NoneIn(env, alts, a, b)
  {
  }

  lemma Same(env: Env, alts: Choice, s: nat)
    ensures forall e: nat :: IsMatch(env, alts, s, e) <==> IsMatch(env.(mstart := s), alts, s, e)
    ensures forall e: nat :: IsBest(env, alts, s, e) <==> IsBest(env.(mstart := s), alts, s, e)
    ensures (forall e: nat :: !IsMatch(env, alts, s, e)) ==> NoneIn(env, alts, s, s + 1)
  {
    assert env.(mstart := s).(mstart := s) == env.(mstart := s);
  }

  /** The first two slots belong to the match as a whole. */
  lemma SlotsApart(env: Env, alts: Choice, vec: seq<int>, s: int, e: nat, count: nat)
    requires env.oend <= |vec| && |vec| >= 2 && CapturesOk(env, alts, vec[..env.oend], e, count)
    ensures CapturesOk(env, alts, vec[0 := s][1 := e][..env.oend], e, count)
  {
    hide CaptureOk, Opened, Marks.Prefers;
    var v, w := vec[..env.oend], vec[0 := s][1 := e][..env.oend];
    assert forall k :: 2 <= k < env.oend ==> v[k] == w[k];
    forall n: nat | 1 <= n <= |Opened(alts)| && 2 * n + 1 < env.omax
      ensures CaptureOk(env, alts, n, w[2 * n], w[2 * n + 1], e, count)
    {
      assert CaptureOk(env, alts, n, v[2 * n], v[2 * n + 1], e, count);
    }
  }

  lemma ClearedFrom(env: Env, alts: Choice, vec: seq<int>, s: nat)
    requires Cleared(env, alts, vec)
    ensures Cleared(env.(mstart := s), alts, vec)
  {
  }

  lemma NoneYet(env: Env, alts: Choice, s: nat)
    ensures NoneIn(env, alts, s, s)
  {
  }

  lemma NoneJoin(env: Env, alts: Choice, a: nat, b: nat, c: nat)
    requires NoneIn(env, alts, a, b) && NoneIn(env, alts, b, c)
    ensures NoneIn(env, alts, a, c)
  {
  }
}
