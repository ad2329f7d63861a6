/** pcre_study(): the scan of the code for the set of bytes that a match can start with. */
module Study {
  import opened Tree
  import opened Semantics
  import opened Layout
  import opened Emptiness
  import opened Progress

  datatype Yield = SsbFail | SsbDone | SsbContinue

  /** The cbits tables: which bytes are digits, white space and word characters. */
  datatype CBits = CBits(digit: Bitmap, space: Bitmap, word: Bitmap)

  const VT := 11

  /** They agree with the ctypes table, except that the vertical tab counts as white space here. */
  ghost predicate Agree(cb: CBits, ct: CTypes) {
    && (forall c: byte :: InBitmap(cb.digit, c) <==> ct[c].digit)
    && (forall c: byte :: c != VT ==> (InBitmap(cb.space, c) <==> ct[c].space)) && !ct[VT].space
    && (forall c: byte :: InBitmap(cb.word, c) <==> ct[c].word)
  }

  // ---------------------------------------------------------------------------------------
  // The result of the scan, for the tree

  predicate Known(x: Single) {
    match x case Chr(_) => true case NotChr(_) => false case Typ(t) => t < OP_ANY case Set(_, _) => true
  }

  /** What the scan makes of one item: whether it understands it, and whether it goes on after it. */
  function ItemYield(it: Item): Yield
    decreases it, 0
  {
    match it
    case One(x) => if Known(x) then SsbDone else SsbFail
    case Many(x, r) =>
      if !Known(x) || (x.Typ? && r == Plus(Poss)) then SsbFail
      else if Min(r) == 0 then SsbContinue else SsbDone
    case Group(z, g) =>
      match z
      case Once => GrpYield(g)
      case SkipZero => SsbContinue
      case _ => if GrpYield(g) == SsbFail then SsbFail else SsbContinue
  }

  /** The scan looks for the first branch of these brackets two bytes too early, where it finds the number. */
  predicate Misplaced(g: Grp) {
    g.s && g.cap > 0
  }

  const OP_OPT := 25

  /** The high byte of a number is an opcode for something that must match a byte. */
  predicate TakenForMust(number: nat) {
    OP_NOT_DIGIT <= number / 256 < OP_ANY || number / 256 == OP_CHAR || number / 256 == OP_CHAR + 1
  }

  /** What the scan makes of the first branch when it begins at the number: some high bytes are opcodes
      that end the scan of the branch, that of STAR takes the low byte for a literal and goes on with
      the branch, and the others are not understood. */
  function NumberYield(g: Grp): Yield
    decreases g, 0
  {
    if TakenForMust(g.cap) then SsbDone else if g.cap / 256 == OP_STAR then ItemsYield(g.alts.b) else SsbFail
  }

  function GrpYield(g: Grp): Yield
    decreases g, 1
  {
    if Misplaced(g) then
      match g.alts
      case Last(_) => NumberYield(g)
      case More(_, rest) => Both(NumberYield(g), AltsYield(rest))
    else AltsYield(g.alts)
  }

  /** Two branches together. */
  function Both(a: Yield, b: Yield): Yield {
    if a == SsbFail || b == SsbFail then SsbFail else if a == SsbContinue then SsbContinue else b
  }

  function AltsYield(alts: Alts): Yield
    decreases alts, 0
  {
    match alts
    case Last(b) => ItemsYield(b)
    case More(b, rest) => Both(ItemsYield(b), AltsYield(rest))
  }

  function ItemsYield(items: Items): Yield
    decreases items, 0
  {
    match items
    case Nil => SsbContinue
    case Cons(it, t) => match ItemYield(it) case SsbFail => SsbFail case SsbDone => SsbDone case SsbContinue => ItemsYield(t)
  }

  /** The bytes that it collects on its way. */
  ghost predicate Starts(env: Env, items: Items, c: byte)
    decreases items, 0
  {
    match items
    case Nil => false
    case Cons(it, t) => StartsItem(env, it, c) || (ItemYield(it) == SsbContinue && Starts(env, t, c))
  }

  ghost predicate StartsItem(env: Env, it: Item, c: byte)
    decreases it, 0
  {
    match it
    case One(x) => Test(env, x, c)
    case Many(x, _) => Test(env, x, c)
    case Group(z, g) => z != SkipZero && StartsGrp(env, g, c)
  }

  ghost predicate StartsNumber(env: Env, g: Grp, c: byte)
    decreases g, 0
  {
    var high, low := g.cap / 256, g.cap % 256;
    if OP_NOT_DIGIT <= high < OP_ANY then TypeTest(env, high, c)
    else if high == OP_STAR then c == low || Starts(env, g.alts.b, c)
    else TakenForMust(g.cap) && c == low
  }

  ghost predicate StartsGrp(env: Env, g: Grp, c: byte)
    decreases g, 1
  {
    if Misplaced(g) then StartsNumber(env, g, c) || (g.alts.More? && StartsAlts(env, g.alts.rest, c))
    else StartsAlts(env, g.alts, c)
  }

  ghost predicate StartsAlts(env: Env, alts: Alts, c: byte)
    decreases alts, 0
  {
    Starts(env, alts.b, c) || (alts.More? && StartsAlts(env, alts.rest, c))
  }

  // ---------------------------------------------------------------------------------------
  // What the scan comes to

  /** What the scan comes to before it stops is no SKIPZERO, whose bracket it does not find, and no number
      that would change the caseless flag. (A compiled pattern has fewer than 8192 brackets, since each takes
      eight bytes.) */
  predicate Tame(items: Items)
    decreases items, 0
  {
    items.Cons? ==> TameItem(items.head) && (ItemYield(items.head) == SsbContinue ==> Tame(items.tail))
  }

  predicate TameItem(it: Item)
    decreases it, 0
  {
    it.Group? ==> it.zero != SkipZero && TameGrp(it.g)
  }

  predicate TameGrp(g: Grp)
    decreases g, 0
  {
    if Misplaced(g) then
      && g.cap < 8192 && g.cap / 256 != OP_OPT
      && (g.cap / 256 == OP_STAR ==> Tame(g.alts.b))
      && (g.alts.More? && NumberYield(g) != SsbFail ==> TameAlts(g.alts.rest))
    else TameAlts(g.alts)
  }

  predicate TameAlts(alts: Alts)
    decreases alts, 0
  {
    Tame(alts.b) && (alts.More? && ItemsYield(alts.b) != SsbFail ==> TameAlts(alts.rest))
  }

  /** A match of the branch that is not empty can begin with c. */
  ghost predicate Leads(ct: CTypes, b: Items, c: byte) {
    exists env: Env, i: nat, j: nat :: env.ctypes == ct && i < j <= |env.subject| && MatchItems(env, b, i, j) &&
           env.subject[i] == c
  }

  /** Taking the number of the bracket for something that must match does no harm: the bracket cannot be
      empty, unless another branch says that it can, and what its first branch can begin with is collected
      all the same, from the number or from the other branches. */
  ghost predicate Harmless(ct: CTypes, g: Grp) {
    && (GrpYield(g) == SsbContinue || !NullableAlts(g.alts))
    && forall c: byte :: Leads(ct, g.alts.b, c) ==> StartsGrp(Tables(ct), g, c)
  }

  function Tables(ct: CTypes): Env {
    Env([], ct, 0, 0, false, 0, 0)
  }

  /** All the mistaken numbers that the scan comes to are harmless. */
  ghost predicate Sober(ct: CTypes, items: Items)
    decreases items, 0
  {
    items.Cons? ==> SoberItem(ct, items.head) && (ItemYield(items.head) == SsbContinue ==> Sober(ct, items.tail))
  }

  ghost predicate SoberItem(ct: CTypes, it: Item)
    decreases it, 0
  {
    it.Group? && it.zero != SkipZero ==> SoberGrp(ct, it.g)
  }

  ghost predicate SoberGrp(ct: CTypes, g: Grp)
    decreases g, 0
  {
    if Misplaced(g) then
      && (TakenForMust(g.cap) ==> Harmless(ct, g))
      && (g.cap / 256 == OP_STAR ==> Sober(ct, g.alts.b))
      && (g.alts.More? && NumberYield(g) != SsbFail ==> SoberAlts(ct, g.alts.rest))
    else SoberAlts(ct, g.alts)
  }

  ghost predicate SoberAlts(ct: CTypes, alts: Alts)
    decreases alts, 0
  {
    Sober(ct, alts.b) && (alts.More? && ItemsYield(alts.b) != SsbFail ==> SoberAlts(ct, alts.rest))
  }

  // ---------------------------------------------------------------------------------------
  // What the result means

  /** A match from i to j begins with a collected byte, or is empty and the scan goes on. */
  ghost predicate Begins(env: Env, y: Yield, starts: iset<byte>, i: nat, j: nat) {
    || (i < j <= |env.subject| && env.subject[i] in starts)
    || (y == SsbContinue && i == j)
  }

  ghost function Set1(env: Env, items: Items): iset<byte> {
    iset c: byte | Starts(env, items, c)
  }

  ghost function SetItem(env: Env, it: Item): iset<byte> {
    iset c: byte | StartsItem(env, it, c)
  }

  ghost function SetAlts(env: Env, alts: Alts): iset<byte> {
    iset c: byte | StartsAlts(env, alts, c)
  }

  ghost function SetGrp(env: Env, g: Grp): iset<byte> {
    iset c: byte | StartsGrp(env, g, c)
  }

  lemma {:induction false} ItemBegins(env: Env, it: Item, i: nat, j: nat)
    requires i <= |env.subject| && MatchItem(env, it, i, j) && ItemYield(it) != SsbFail && TameItem(it)
    requires SoberItem(env.ctypes, it)
    ensures Begins(env, ItemYield(it), SetItem(env, it), i, j)
    decreases it, 1, 0
  {
    hide MatchGrp, GrpYield, StartsGrp, TameGrp, SoberGrp;
    if it.Group? && (i != j || it.zero == Once) {
      GrpBegins(env, it.g, i, j);
    }
  }

  lemma {:induction false} GrpBegins(env: Env, g: Grp, i: nat, j: nat)
    requires i <= |env.subject| && MatchGrp(env, g, i, j) && GrpYield(g) != SsbFail && TameGrp(g)
    requires SoberGrp(env.ctypes, g)
    ensures i <= j && Begins(env, GrpYield(g), SetGrp(env, g), i, j)
    decreases g, 1, 0
  {
    hide MatchGrp, MatchTimes, MatchAlts, Harmless;
    var n := GrpElim(env, g, i, j);
    if Misplaced(g) && TakenForMust(g.cap) {
      MistakenTimes(env, g, n, i, j);
    } else {
      GrpAsAlts(env, g);
      hide StartsGrp, GrpYield, AltsYield, StartsAlts;
      TimesBegins(env, g.alts, n, i, j);
    }
  }

  /** If its number is not mistaken for something else, a bracket is as good as its branches. */
  lemma {:induction false} GrpAsAlts(env: Env, g: Grp)
    requires GrpYield(g) != SsbFail && TameGrp(g) && SoberGrp(env.ctypes, g) && !(Misplaced(g) && TakenForMust(g.cap))
    ensures GrpYield(g) == AltsYield(g.alts) && TameAlts(g.alts) && SoberAlts(env.ctypes, g.alts)
    ensures SetAlts(env, g.alts) <= SetGrp(env, g)
  {
    hide ItemsYield, Starts, Tame, Sober, TypeTest;
    forall c | c in SetAlts(env, g.alts) ensures c in SetGrp(env, g) {
      assert StartsAlts(env, g.alts, c);
      if Misplaced(g) {
        assert g.cap / 256 == OP_STAR;
        assert Starts(env, g.alts.b, c) ==> StartsNumber(env, g, c);
      }
    }
  }

  /** A bracket whose number is taken for something that must match, without harm. */
  lemma {:induction false} MistakenTimes(env: Env, g: Grp, n: nat, i: nat, j: nat)
    requires i <= |env.subject| && MatchTimes(env, g.alts, n, i, j) && Mistaken(env.ctypes, g)
    requires Harmless(env.ctypes, g)
    ensures i <= j <= |env.subject| && (i < j ==> env.subject[i] in SetGrp(env, g))
    ensures n > 0 && i == j ==> GrpYield(g) == SsbContinue
    decreases g, 0, n
  {
    hide MatchAlts, GrpYield, Mistaken, Harmless, SetGrp, NullableAlts;
    if n > 0 {
      var m := TimesElim(env, g.alts, n, i, j);
      AltsBounds(env, g.alts, i, m);
      MistakenOnce(env, g, i, m);
      MistakenTimes(env, g, n - 1, m, j);
    }
  }

  /** The scan understands the bracket and the other branches, but takes its number for something that must
      match. */
  ghost predicate Mistaken(ct: CTypes, g: Grp) {
    && Misplaced(g) && TakenForMust(g.cap) && GrpYield(g) != SsbFail
    && (g.alts.More? ==> TameAlts(g.alts.rest) && SoberAlts(ct, g.alts.rest))
  }

  lemma {:induction false} MistakenOnce(env: Env, g: Grp, i: nat, m: nat)
    requires i <= m <= |env.subject| && MatchAlts(env, g.alts, i, m) && Mistaken(env.ctypes, g)
    requires Harmless(env.ctypes, g)
    ensures i < m ==> env.subject[i] in SetGrp(env, g)
    ensures i == m ==> GrpYield(g) == SsbContinue
    decreases g, 0, 0
  {
    hide MatchItems, ItemsYield, AltsYield, Starts, Tame, Sober, NullableAlts, TypeTest, StartsAlts, TameAlts,
         SoberAlts;
    if i == m {
      NullableChoice(env, g.alts, i);
    } else if MatchItems(env, g.alts.b, i, m) {
      assert Leads(env.ctypes, g.alts.b, env.subject[i]);
      SameStartsGrp(env, Tables(env.ctypes), g, env.subject[i]);
    } else {
      AltsBegin(env, g.alts.rest, i, m);
      assert StartsAlts(env, g.alts.rest, env.subject[i]);
    }
  }

  lemma {:induction false} TimesBegins(env: Env, alts: Alts, n: nat, i: nat, j: nat)
    requires i <= |env.subject| && MatchTimes(env, alts, n, i, j) && AltsYield(alts) != SsbFail && TameAlts(alts)
    requires SoberAlts(env.ctypes, alts)
    ensures n > 0 ==> Begins(env, AltsYield(alts), SetAlts(env, alts), i, j)
    ensures i <= j <= |env.subject| && (i < j ==> env.subject[i] in SetAlts(env, alts))
    decreases alts, 1, n
  {
    hide MatchAlts, AltsYield, StartsAlts, TameAlts, SoberAlts;
    if n > 0 {
      var m := TimesElim(env, alts, n, i, j);
      AltsBounds(env, alts, i, m);
      AltsBegin(env, alts, i, m);
      TimesBegins(env, alts, n - 1, m, j);
    }
  }

  lemma {:induction false} AltsBegin(env: Env, alts: Alts, i: nat, j: nat)
    requires i <= |env.subject| && MatchAlts(env, alts, i, j) && AltsYield(alts) != SsbFail && TameAlts(alts)
    requires SoberAlts(env.ctypes, alts)
    ensures Begins(env, AltsYield(alts), SetAlts(env, alts), i, j)
    decreases alts, 0, 0
  {
    hide MatchItems, ItemsYield, Starts, Tame, Sober;
    if MatchItems(env, alts.b, i, j) {
      ItemsBegin(env, alts.b, i, j);
    } else {
      AltsBegin(env, alts.rest, i, j);
    }
  }

  lemma {:induction false} ItemsBegin(env: Env, items: Items, i: nat, j: nat)
    requires i <= |env.subject| && MatchItems(env, items, i, j) && ItemsYield(items) != SsbFail && Tame(items)
    requires Sober(env.ctypes, items)
    ensures Begins(env, ItemsYield(items), Set1(env, items), i, j)
    decreases items, 0, 0
  {
    hide MatchItem, ItemYield, StartsItem, TameItem, SoberItem;
    if items.Cons? {
      var m := ItemsElim(env, items, i, j);
      ItemBounds(env, items.head, i, m);
      ItemsBounds(env, items.tail, m, j);
      ItemBegins(env, items.head, i, m);
      if ItemYield(items.head) == SsbContinue {
        ItemsBegin(env, items.tail, m, j);
      }
    }
  }

  /** Whenever the group is matched the answer for it is right. */
  ghost predicate RightFor(ct: CTypes, g: Grp) {
    forall env: Env, i: nat, j: nat :: env.ctypes == ct && i <= |env.subject| && MatchGrp(env, g, i, j) ==>
           Begins(env, GrpYield(g), SetGrp(env, g), i, j)
  }

  /** For a bracket whose number is taken for something that must match, and all its other branches right:
      the answer is right for every match on every subject exactly if the mistake is harmless. */
  lemma {:induction false} NumberMistaken(ct: CTypes, g: Grp)
    requires Mistaken(ct, g)
    ensures RightFor(ct, g) <==> Harmless(ct, g)
  {
    hide MatchGrp, MatchTimes, NullableAlts, SetGrp, StartsGrp, GrpYield, Mistaken, Leads, MatchItems;
    if Harmless(ct, g) {
      forall env: Env, i: nat, j: nat | env.ctypes == ct && i <= |env.subject| && MatchGrp(env, g, i, j)
        ensures Begins(env, GrpYield(g), SetGrp(env, g), i, j)
      {
        var n := GrpElim(env, g, i, j);
        MistakenTimes(env, g, n, i, j);
      }
    } else if GrpYield(g) != SsbContinue && NullableAlts(g.alts) {
      NullableGroup(Tables(ct), g, 0);
      assert !Begins(Tables(ct), GrpYield(g), SetGrp(Tables(ct), g), 0, 0);
    } else {
      var c: byte :| Leads(ct, g.alts.b, c) && !StartsGrp(Tables(ct), g, c);
      LeadsMatch(ct, g, c);
    }
  }

  lemma {:induction false} LeadsMatch(ct: CTypes, g: Grp, c: byte)
    requires Leads(ct, g.alts.b, c) && !StartsGrp(Tables(ct), g, c) && Mistaken(ct, g)
    ensures !RightFor(ct, g)
  {
    hide MatchGrp, MatchTimes, MatchItems, StartsGrp, GrpYield, NullableAlts;
    var env: Env, i: nat, j: nat :| env.ctypes == ct && i < j <= |env.subject| && MatchItems(env, g.alts.b, i, j) &&
        env.subject[i] == c;
    FirstAlt(env, g.alts, i, j);
    TimesZero(env, g.alts, j, j);
    TimesSucc(env, g.alts, 0, i, j, j);
    GrpIntro(env, g, 1, i, j);
    SameStartsGrp(env, Tables(ct), g, c);
    assert !Begins(env, GrpYield(g), SetGrp(env, g), i, j);
  }

  lemma FirstAlt(env: Env, alts: Alts, i: nat, j: nat)
    requires MatchItems(env, alts.b, i, j)
    ensures MatchAlts(env, alts, i, j)
  {
    hide MatchItems;
  }

  /** At a SKIPZERO the links are followed from the wrong byte: the opcode of the bracket is taken for the
      high byte of a link, which leads at least 24064 bytes on. */
  lemma SkipZeroAstray(code: Code, p: nat, g: Grp)
    requires p < |code| && code[p] == OP_SKIPZERO && GrpAt(code, p + 1, g)
    ensures p + 2 < |code| && Get2(code, p + 1) >= 24064 && (|code| <= p + 24064 ==> p + Get2(code, p + 1) >= |code|)
  {
    hide AltsAt, LenItems, LenAlts;
  }

  /** The bytes depend on the tables only. */
  lemma {:induction false} SameStarts(env: Env, env': Env, items: Items, c: byte)
    requires env.ctypes == env'.ctypes && ItemsYield(items) != SsbFail
    ensures Starts(env, items, c) <==> Starts(env', items, c)
    decreases items
  {
    hide GrpYield, StartsGrp;
    if items.Cons? {
      if items.head.Group? && items.head.zero != SkipZero {
        SameStartsGrp(env, env', items.head.g, c);
      }
      if ItemYield(items.head) == SsbContinue {
        SameStarts(env, env', items.tail, c);
      }
    }
  }

  lemma {:induction false} SameStartsGrp(env: Env, env': Env, g: Grp, c: byte)
    requires env.ctypes == env'.ctypes && GrpYield(g) != SsbFail
    ensures StartsGrp(env, g, c) <==> StartsGrp(env', g, c)
    decreases g
  {
    hide ItemsYield, Starts;
    if !Misplaced(g) {
      SameStartsAlts(env, env', g.alts, c);
    } else {
      if g.cap / 256 == OP_STAR {
        SameStarts(env, env', g.alts.b, c);
      }
      if g.alts.More? {
        SameStartsAlts(env, env', g.alts.rest, c);
      }
    }
  }

  lemma {:induction false} SameStartsAlts(env: Env, env': Env, alts: Alts, c: byte)
    requires env.ctypes == env'.ctypes && AltsYield(alts) != SsbFail
    ensures StartsAlts(env, alts, c) <==> StartsAlts(env', alts, c)
    decreases alts
  {
    SameStarts(env, env', alts.b, c);
    if alts.More? {
      SameStartsAlts(env, env', alts.rest, c);
    }
  }

  // ---------------------------------------------------------------------------------------
  // Bits of bytes

  function Pow2(w: nat): (n: nat)
    ensures n >= 1 && (w <= 8 ==> n <= 256) && (w < 8 ==> n <= 128)
  {
    if w == 0 then 1 else if w > 8 then 2 * Pow2(w - 1) else if w == 1 then 2 else if w == 2 then 4 else if w == 3 then 8
    else if w == 4 then 16 else if w == 5 then 32 else if w == 6 then 64 else if w == 7 then 128 else 256
  }

  /** The bitwise "or" of two numbers of w bits. */
  function Or(a: byte, b: byte, w: nat): (r: byte)
    requires w <= 8
    ensures r < Pow2(w)
  {
    if w == 0 then 0
    else 2 * Or(a / 2, b / 2, w - 1) + (if a % 2 == 1 || b % 2 == 1 then 1 else 0)
  }

  lemma {:induction false} OrBit(a: byte, b: byte, w: nat, k: nat)
    requires k < w <= 8
    ensures Bit(Or(a, b, w), k) <==> Bit(a, k) || Bit(b, k)
  {
    if k > 0 {
      OrBit(a / 2, b / 2, w - 1, k - 1);
    }
  }

  lemma {:induction false} PowBit(w: nat, k: nat)
    requires w < 8
    ensures Bit(Pow2(w), k) <==> k == w
    decreases k
  {
    if k > 0 {
      if w > 0 {
        PowBit(w - 1, k - 1);
      } else {
        ZeroBit(k - 1);
      }
    }
  }

  lemma {:induction false} ZeroBit(k: nat)
    ensures !Bit(0, k)
  {
    if k > 0 {
      ZeroBit(k - 1);
    }
  }

  lemma {:induction false} NotBit(b: byte, w: nat, k: nat)
    requires k < w <= 8 && b < Pow2(w)
    ensures Bit(Pow2(w) - 1 - b, k) <==> !Bit(b, k)
  {
    if k > 0 {
      NotBit(b / 2, w - 1, k - 1);
      assert (Pow2(w) - 1 - b) / 2 == Pow2(w - 1) - 1 - b / 2;
    }
  }

  /** The number b without its bit n. */
  function Without(b: byte, n: nat): (r: byte)
    ensures r <= b
  {
    if n == 0 then b - b % 2 else 2 * Without(b / 2, n - 1) + b % 2
  }

  lemma {:induction false} WithoutBit(b: byte, n: nat, k: nat)
    ensures Bit(Without(b, n), k) <==> Bit(b, k) && k != n
    decreases k
  {
    if k > 0 {
      if n > 0 {
        WithoutBit(b / 2, n - 1, k - 1);
      }
    }
  }

  // ---------------------------------------------------------------------------------------
  // Setting bits of the map

  /** The map has gained exactly the bytes in s. */
  ghost predicate Gained(before: seq<byte>, after: seq<byte>, s: iset<byte>) {
    |before| == |after| == 32 && forall c: byte :: InBitmap(after, c) <==> InBitmap(before, c) || c in s
  }

  lemma GainedMore(a: seq<byte>, b: seq<byte>, c: seq<byte>, s: iset<byte>, t: iset<byte>)
    requires Gained(a, b, s) && Gained(b, c, t)
    ensures Gained(a, c, s + t)
  {
  }

  /** One byte of the map with the bits of another byte added. */
  lemma {:induction false} GainedByte(v: Bitmap, i: nat, d: byte, c: byte)
    requires i < 32
    ensures InBitmap(v[i := Or(v[i], d, 8)], c) <==> InBitmap(v, c) || (c / 8 == i && Bit(d, c % 8))
  {
    OrBit(v[i], d, 8, c % 8);
  }

  method SetBit(start_bits: array<byte>, c: byte)
    requires start_bits.Length == 32
    modifies start_bits
    ensures Gained(old(start_bits[..]), start_bits[..], iset{c})
  {
    hide Bit, Or, Pow2;
    ghost var v := start_bits[..];
    start_bits[c / 8] := Or(start_bits[c / 8], Pow2(c % 8), 8);
    assert start_bits[..] == v[c / 8 := Or(v[c / 8], Pow2(c % 8), 8)];
    forall d: byte ensures InBitmap(start_bits[..], d) <==> InBitmap(v, d) || d == c {
      GainedByte(v, c / 8, Pow2(c % 8), d);
      PowBit(c % 8, d % 8);
    }
  }

  /** Add the bits of another map. */
  method OrBits(start_bits: array<byte>, bits: Bitmap)
    requires start_bits.Length == 32
    modifies start_bits
    ensures Gained(old(start_bits[..]), start_bits[..], iset c: byte | InBitmap(bits, c))
  {
    hide Bit, Or;
    ghost var v := start_bits[..];
    for i := 0 to 32
      invariant forall k :: 0 <= k < i ==> start_bits[k] == Or(v[k], bits[k], 8)
      invariant forall k :: i <= k < 32 ==> start_bits[k] == v[k]
    {
      start_bits[i] := Or(start_bits[i], bits[i], 8);
    }
    forall c: byte ensures InBitmap(start_bits[..], c) <==> InBitmap(v, c) || InBitmap(bits, c) {
      OrBit(v[c / 8], bits[c / 8], 8, c % 8);
    }
  }

  /** The i-th byte of the bits of a type. */
  function TypeByte(cb: CBits, t: TypeOp, i: nat): byte
    requires i < 32
  {
    var d := if t == OP_DIGIT || t == OP_NOT_DIGIT then cb.digit[i]
             else if t == OP_WORDCHAR || t == OP_NOT_WORDCHAR then cb.word[i]
             else if i == 1 then Without(cb.space[i], 3) else cb.space[i];
    if t == OP_DIGIT || t == OP_WORDCHAR || t == OP_WHITESPACE then d else 255 - d
  }

  lemma {:induction false} TypeBit(env: Env, cb: CBits, t: TypeOp, c: byte)
    requires t < OP_ANY && Agree(cb, env.ctypes)
    ensures Bit(TypeByte(cb, t, c / 8), c % 8) <==> TypeTest(env, t, c)
  {
    hide Bit;
    var i, k := c / 8, c % 8;
    WithoutBit(cb.space[i], 3, k);
    assert c == VT <==> i == 1 && k == 3;
    assert InBitmap(cb.digit, c) <==> Bit(cb.digit[i], k);
    assert InBitmap(cb.space, c) <==> Bit(cb.space[i], k);
    assert InBitmap(cb.word, c) <==> Bit(cb.word[i], k);
    NotBit(cb.digit[i], 8, k);
    NotBit(cb.word[i], 8, k);
    NotBit(if i == 1 then Without(cb.space[i], 3) else cb.space[i], 8, k);
  }

  method AddType(start_bits: array<byte>, t: TypeOp, cb: CBits, ghost env: Env)
    requires start_bits.Length == 32 && t < OP_ANY && Agree(cb, env.ctypes)
    modifies start_bits
    ensures Gained(old(start_bits[..]), start_bits[..], iset c: byte | TypeTest(env, t, c))
  {
    hide Bit, Or, TypeByte, TypeTest, Agree;
    ghost var v := start_bits[..];
    for i := 0 to 32
      invariant forall k :: 0 <= k < i ==> start_bits[k] == Or(v[k], TypeByte(cb, t, k), 8)
      invariant forall k :: i <= k < 32 ==> start_bits[k] == v[k]
    {
      start_bits[i] := Or(start_bits[i], TypeByte(cb, t, i), 8);
    }
    forall c: byte ensures InBitmap(start_bits[..], c) <==> InBitmap(v, c) || TypeTest(env, t, c) {
      OrBit(v[c / 8], TypeByte(cb, t, c / 8), 8, c % 8);
      TypeBit(env, cb, t, c);
    }
  }

  // ---------------------------------------------------------------------------------------
  // The scan of the bytes

  /** Opcodes for single bytes. */
  method ScanSingle(code: Code, p: nat, start_bits: array<byte>, cb: CBits, ghost env: Env, ghost items: Items)
    returns (y: Yield, len: nat)
    requires Ahead(code, p, items) && items.Cons? && !items.head.Group? && start_bits.Length == 32
    requires Agree(cb, env.ctypes)
    modifies start_bits
    ensures y == ItemYield(items.head) && (y == SsbContinue ==> len == LenItem(items.head))
    ensures y != SsbFail ==> Gained(old(start_bits[..]), start_bits[..], SetItem(env, items.head))
  {
    hide Ahead, Agree, TypeTest, Gained, LenItems, Reads;
    AheadCons(code, p, items);
    AheadReads(code, p, items);
    ReadsSingle(code, p, items);
    SingleSet(env, items.head);
    var op := code[p];
    len := 0;
    if op == OP_CLASS || op == OP_NCLASS {
      OrBits(start_bits, code[p + 1..p + 33]);
      var rep := code[p + 33];
      if rep == OP_CRRANGE || rep == OP_CRMINRANGE {
        y, len := if Get2(code, p + 34) == 0 then SsbContinue else SsbDone, 38;
      } else {
        y, len := if OP_CRSTAR <= rep < OP_CRRANGE && rep != OP_CRSTAR + 2 && rep != OP_CRSTAR + 3 then SsbContinue else SsbDone, 34;
      }
    } else if op == OP_CHAR {
      SetBit(start_bits, code[p + 1]);
      y := SsbDone;
    } else if OP_STAR <= op < OP_NOTSTAR {
      var k := op - OP_STAR;
      len := if k == 6 || k == 7 || k == 8 || k == 12 then 4 else 2;
      SetBit(start_bits, code[p + len - 1]);
      y := if k == 2 || k == 3 || k == 8 || k == 10 then SsbDone else SsbContinue;
    } else if OP_TYPESTAR <= op < OP_CRSTAR {
      var k := op - OP_TYPESTAR;
      len := if k == 6 || k == 7 || k == 8 || k == 12 then 4 else 2;
      var t := code[p + len - 1];
      if k == 10 || t >= OP_ANY {
        return SsbFail, len;
      }
      AddType(start_bits, t, cb, env);
      y := if k == 2 || k == 3 || k == 8 then SsbDone else SsbContinue;
    } else if OP_NOT_DIGIT <= op < OP_ANY {
      AddType(start_bits, op, cb, env);
      y := SsbDone;
    } else {
      y := SsbFail;
    }
  }

  lemma SingleSet(env: Env, it: Item)
    requires !it.Group?
    ensures it.x.Chr? ==> SetItem(env, it) == iset{it.x.c}
    ensures it.x.Typ? ==> SetItem(env, it) == iset c: byte | TypeTest(env, it.x.t, c)
    ensures it.x.Set? ==> SetItem(env, it) == iset c: byte | InBitmap(it.x.bits, c)
  {
  }

  /** The bytes of an item for single bytes: opcode, operand and count. */
  lemma ReadsSingle(code: Code, p: nat, items: Items)
    requires Reads(code, p, items) && items.Cons? && !items.head.Group? && ItemAt(code, p, items.head)
    ensures var op := code[p];
      match items.head
      case One(x) =>
        (match x
         case Chr(c) => p + 1 < |code| && op == OP_CHAR && code[p + 1] == c
         case NotChr(_) => op == OP_NOT
         case Typ(t) => op == t
         case Set(_, bits) => (op == OP_CLASS || op == OP_NCLASS) && p + 33 < |code| && code[p + 1..p + 33] == bits && !(OP_CRSTAR <= code[p + 33] <= OP_CRMINRANGE))
      case Many(x, r) =>
        && (r.Exact? ==> r.n > 0)
        && match x
           case Chr(c) => op == OP_STAR + RepIndex(r) && !r.Range? && p + LenMany(x, r) <= |code| &&
             code[p + LenMany(x, r) - 1] == c
           case NotChr(_) => OP_NOTSTAR <= op < OP_TYPESTAR
           case Typ(t) => op == OP_TYPESTAR + RepIndex(r) && !r.Range? && p + LenMany(x, r) <= |code| &&
             code[p + LenMany(x, r) - 1] == t
           case Set(_, bits) =>
             && (op == OP_CLASS || op == OP_NCLASS) && p + 33 < |code| && code[p + 1..p + 33] == bits
             && code[p + 33] == OP_CRSTAR + RepIndex(r) && RepIndex(r) < 8 && (r.Range? <==> RepIndex(r) >= 6)
             && (r.Range? ==> p + 35 < |code| && Get2(code, p + 34) == r.lo)
  {
  }

  /** The items of one branch, until one must match something. */
  method ScanBranch(code: Code, start: nat, start_bits: array<byte>, cb: CBits, ghost env: Env, ghost all: Items)
    returns (y: Yield)
    requires Ahead(code, start, all) && Tame(all) && start_bits.Length == 32 && Agree(cb, env.ctypes)
    modifies start_bits
    ensures y == ItemsYield(all) && (y != SsbFail ==> Gained(old(start_bits[..]), start_bits[..], Set1(env, all)))
    decreases LenItems(all), 0
  {
    hide Ahead, Agree, Gained, LenItems, LenItem, LenGrp, Reads, GrpAt, ItemsYield, ItemYield, Tame, Set1, SetItem,
         GrpYield, TameGrp, SetGrp;
    var p: nat := start;
    ghost var items := all;
    ghost var had: iset<byte> := iset{};
    NoneGained(start_bits[..]);
    SetAll(env, all);
    while true
      invariant Ahead(code, p, items) && Tame(items) && LenItems(items) <= LenItems(all)
      invariant ItemsYield(items) == ItemsYield(all)
      invariant Gained(old(start_bits[..]), start_bits[..], had) && Set1(env, all) == had + Set1(env, items)
      decreases LenItems(items)
    {
      AheadReads(code, p, items);
      ReadsKind(code, p, items);
      var op := code[p];
      if OP_ALT <= op <= OP_KETRMIN {
        SetNil(env, items);
        return SsbContinue;
      }
      AheadCons(code, p, items);
      YieldStep(env, items);
      ghost var before := start_bits[..];
      var rc, next: nat := SsbFail, p;
      if op == OP_BRAZERO || op == OP_BRAMINZERO || op == OP_BRA || op == OP_SBRA || op == OP_CBRA || op == OP_SCBRA {
        var zero := op == OP_BRAZERO || op == OP_BRAMINZERO;
        var q := if zero then p + 1 else p;
        GroupStep(env, items);
        SmallerGroup(items);
        GroupLen(items.head);
        rc := SetStartBits(code, q, start_bits, cb, env, items.head.g);
        if zero && rc == SsbDone {
          rc := SsbContinue;
        }
        GroupLeads(code, q, items.head.g);
        var ket := FollowLinks(code, q + Get2(code, q + 1), q + LenGrp(items.head.g) - 3);
        next := ket + 3;
      } else {
        var len;
        rc, len := ScanSingle(code, p, start_bits, cb, env, items);
        next := p + len;
      }
      if rc == SsbFail {
        return SsbFail;
      }
      GainedMore(old(start_bits[..]), before, start_bits[..], had, SetItem(env, items.head));
      if rc == SsbDone {
        return SsbDone;
      }
      had := had + SetItem(env, items.head);
      p, items := next, items.tail;
    }
  }

  /** The first branch of a capturing bracket in the S form, as it is read: from the number on. */
  method ScanNumber(code: Code, q: nat, start_bits: array<byte>, cb: CBits, ghost env: Env, ghost g: Grp)
    returns (y: Yield)
    requires GrpAt(code, q, g) && Misplaced(g) && TameGrp(g) && start_bits.Length == 32 && Agree(cb, env.ctypes)
    modifies start_bits
    ensures y == NumberYield(g) && (y != SsbFail ==> Gained(old(start_bits[..]), start_bits[..], SetNumber(env, g)))
    decreases LenAlts(g.alts), 1
  {
    hide Agree, Gained, GrpAt, Header, Ahead, ItemsYield, TypeTest, LenAlts, LenItems, LenGrp;
    KetOfGrp(code, q + LenGrp(g) - 3, q, g);
    NumberBytes(code, q, g);
    NumberSet(env, g);
    var high, low := code[q + 3], code[q + 4];
    if OP_NOT_DIGIT <= high < OP_ANY {
      AddType(start_bits, high, cb, env);
      y := SsbDone;
    } else if high == OP_CHAR || high == OP_CHAR + 1 {
      SetBit(start_bits, low);
      y := SsbDone;
    } else if high == OP_STAR {
      ghost var before := start_bits[..];
      SetBit(start_bits, low);
      ghost var between := start_bits[..];
      OpenGroup(code, q, g);
      HeaderAhead(code, q, 5, g.alts, g, q);
      SmallerBranch(g.alts);
      y := ScanBranch(code, q + 5, start_bits, cb, env, g.alts.b);
      if y != SsbFail {
        GainedMore(before, between, start_bits[..], iset{low}, Set1(env, g.alts.b));
      }
    } else {
      y := SsbFail;
    }
  }

  lemma NumberBytes(code: Code, q: nat, g: Grp)
    requires q + 5 < |code| && g.cap != 0 && Get2(code, q + 3) == g.cap
    ensures code[q + 3] == g.cap / 256 && code[q + 4] == g.cap % 256
  {
  }

  ghost function SetNumber(env: Env, g: Grp): iset<byte> {
    iset c: byte | StartsNumber(env, g, c)
  }

  lemma NumberSet(env: Env, g: Grp)
    ensures var high, low, s := g.cap / 256, g.cap % 256, SetNumber(env, g);
      if OP_NOT_DIGIT <= high < OP_ANY then s == iset c: byte | TypeTest(env, high, c)
      else if high == OP_STAR then s == iset{low} + Set1(env, g.alts.b)
      else TakenForMust(g.cap) ==> s == iset{low}
  {
    hide TypeTest, Starts;
  }

  /** The branches of a bracket, which each have to begin with something for the bracket to do so. */
  method SetStartBits(code: Code, q: nat, start_bits: array<byte>, cb: CBits, ghost env: Env, ghost g: Grp)
    returns (y: Yield)
    requires GrpAt(code, q, g) && TameGrp(g) && start_bits.Length == 32 && Agree(cb, env.ctypes)
    modifies start_bits
    ensures y == GrpYield(g) && (y != SsbFail ==> Gained(old(start_bits[..]), start_bits[..], SetGrp(env, g)))
    decreases LenAlts(g.alts), 2
  {
    hide Agree, Gained, LenItems, LenAlts, LenGrp, GrpAt, Header, Ahead, ItemsYield, AltsYield, NumberYield, Tame,
         TameAlts, TameGrp, Set1, SetAlts, SetNumber, SetGrp, GrpYield;
    OpenGroup(code, q, g);
    BraHead(code, q, g);
    KetOfGrp(code, q + LenGrp(g) - 3, q, g);
    NextHeader(code, q, OpLength(code[q]), g.alts, g, q);
    HeaderAhead(code, q, OpLength(code[q]), g.alts, g, q);
    SmallerBranch(g.alts);
    FirstStep(env, g);
    if code[q] == OP_SCBRA {
      y := ScanNumber(code, q, start_bits, cb, env, g);
    } else {
      y := ScanBranch(code, q + OpLength(code[q]), start_bits, cb, env, g.alts.b);
    }
    if y == SsbFail {
      return;
    }
    var h: nat := q + Get2(code, q + 1);
    ghost var had := if Misplaced(g) then SetNumber(env, g) else Set1(env, g.alts.b);
    ghost var alts := g.alts;
    while code[h] == OP_ALT
      invariant h < |code| && (code[h] == OP_ALT <==> alts.More?) && y != SsbFail
      invariant alts.More? ==>
        Header(code, h, 3, alts.rest, g, q) && TameAlts(alts.rest) && LenAlts(alts.rest) < LenAlts(g.alts)
      invariant GrpYield(g) == if alts.More? then Both(y, AltsYield(alts.rest)) else y
      invariant Gained(old(start_bits[..]), start_bits[..], had) && SetGrp(env, g) == if alts.More? then had + SetAlts(env, alts.rest) else had
      decreases alts
    {
      alts := alts.rest;
      NextHeader(code, h, 3, alts, g, q);
      HeaderAhead(code, h, 3, alts, g, q);
      SmallerBranch(alts);
      BranchStep(env, alts);
      ghost var before := start_bits[..];
      var rc := ScanBranch(code, h + 3, start_bits, cb, env, alts.b);
      if rc == SsbFail {
        return SsbFail;
      }
      GainedMore(old(start_bits[..]), before, start_bits[..], had, Set1(env, alts.b));
      had := had + Set1(env, alts.b);
      if rc == SsbContinue {
        y := SsbContinue;
      }
      h := h + Get2(code, h + 1);
    }
  }

  lemma FirstStep(env: Env, g: Grp)
    requires TameGrp(g)
    ensures var y, s := if Misplaced(g) then NumberYield(g) else ItemsYield(g.alts.b), if Misplaced(g) then SetNumber(env, g) else Set1(env, g.alts.b);
      && (!Misplaced(g) ==> Tame(g.alts.b))
      && (g.alts.More? && y != SsbFail ==> TameAlts(g.alts.rest))
      && GrpYield(g) == (if g.alts.More? then Both(y, AltsYield(g.alts.rest)) else y)
      && SetGrp(env, g) == (if g.alts.More? then s + SetAlts(env, g.alts.rest) else s)
  {
    hide ItemsYield, Starts, Tame, NumberYield, StartsNumber;
    var s := if Misplaced(g) then SetNumber(env, g) else Set1(env, g.alts.b);
    forall c: byte ensures c in SetGrp(env, g) <==> c in s || (g.alts.More? && c in SetAlts(env, g.alts.rest)) {
      assert StartsAlts(env, g.alts, c) <==> Starts(env, g.alts.b, c) || (g.alts.More? && StartsAlts(env, g.alts.rest, c));
    }
  }

  lemma BranchStep(env: Env, alts: Alts)
    requires TameAlts(alts)
    ensures Tame(alts.b) && (alts.More? && ItemsYield(alts.b) != SsbFail ==> TameAlts(alts.rest))
    ensures AltsYield(alts) == if alts.More? then Both(ItemsYield(alts.b), AltsYield(alts.rest)) else ItemsYield(alts.b)
    ensures SetAlts(env, alts) == if alts.More? then Set1(env, alts.b) + SetAlts(env, alts.rest) else Set1(env, alts.b)
  {
    hide ItemsYield, Starts, Tame;
  }

  lemma NoneGained(v: seq<byte>)
    requires |v| == 32
    ensures Gained(v, v, iset{})
  {
  }

  lemma SetAll(env: Env, items: Items)
    ensures Set1(env, items) == iset{} + Set1(env, items)
  {
  }

  lemma SetNil(env: Env, items: Items)
    requires items.Nil?
    ensures Set1(env, items) == iset{} && ItemsYield(items) == SsbContinue
    ensures forall s: iset<byte> :: s + Set1(env, items) == s
  {
  }

  lemma ReadsKind(code: Code, p: nat, items: Items)
    requires Reads(code, p, items)
    ensures p < |code|
    ensures OP_ALT <= code[p] <= OP_KETRMIN <==> items.Nil?
    ensures items.Cons? && items.head.Group? ==>
      if items.head.zero == Once then code[p] == BraOp(items.head.g) else code[p] in {OP_BRAZERO, OP_BRAMINZERO, OP_SKIPZERO}
    ensures items.Cons? && !items.head.Group? ==> code[p] < OP_ALT
  {
  }

  /** How the result for a branch depends on its first item. */
  lemma YieldStep(env: Env, items: Items)
    requires items.Cons? && Tame(items)
    ensures TameItem(items.head) && (ItemYield(items.head) == SsbContinue ==> Tame(items.tail))
    ensures ItemYield(items.head) == SsbContinue ==>
      ItemsYield(items) == ItemsYield(items.tail) && Set1(env, items) == SetItem(env, items.head) +
        Set1(env, items.tail)
    ensures ItemYield(items.head) != SsbContinue ==>
      ItemsYield(items) == ItemYield(items.head) && Set1(env, items) == SetItem(env, items.head)
  {
    hide ItemYield, StartsItem, TameItem;
  }

  lemma GroupStep(env: Env, items: Items)
    requires items.Cons? && items.head.Group? && TameItem(items.head)
    ensures TameGrp(items.head.g) && items.head.zero != SkipZero
    ensures SetItem(env, items.head) == SetGrp(env, items.head.g)
    ensures ItemYield(items.head) == if items.head.zero != Once && GrpYield(items.head.g) == SsbDone then SsbContinue else GrpYield(items.head.g)
  {
    hide TameGrp, GrpYield, StartsGrp;
  }
}
