/** The compiled pattern as a tree: the structure that the bytes of the code vector encode.

    A code vector of the plain fragment is a nest of bracket groups whose branches hold
    single-byte items, repeated single-byte items and further groups. Every other module
    speaks about this tree; module `Layout` ties it to the bytes.
 */
module Tree {

  type byte = x: int | 0 <= x < 256

  /** A 256-bit map, stored as 32 bytes. */
  type Bitmap = s: seq<byte> | |s| == 32 witness seq(32, _ => 0)

  /** The opcodes of the character types \D \d \S \s \W \w, dot and dotall. */
  type TypeOp = t: byte | 6 <= t <= 13 witness 6

  /** What a position of the code may test one subject byte against: a literal, a negated
      literal, a character type given by its opcode, or a 256-bit map. */
  datatype Single =
    | Chr(c: byte)
    | NotChr(c: byte)
    | Typ(t: TypeOp)
    | Set(neg: bool, bits: Bitmap)

  datatype Mode = Greedy | Lazy | Poss

  /** The repeat opcodes of single-byte items; `Range` is the class form, where hi == 0 means no limit. */
  datatype RepCode =
    | Star(m: Mode)
    | Plus(m: Mode)
    | Query(m: Mode)
    | Upto(n: nat, m: Mode)
    | Exact(n: nat)
    | Range(lo: nat, hi: nat, m: Mode)

  type Rep = r: RepCode | r.Range? ==> r.hi == 0 || r.lo <= r.hi witness Star(Greedy)

  datatype Zero = Once | BraZero | BraMinZero | SkipZero
  datatype Ket = Ket | KetRmax | KetRmin

  datatype Item =
    | One(x: Single)
    | Many(x: Single, r: Rep)
    | Group(zero: Zero, g: Grp)

  /** A bracket: `s` says that the S form of the opening opcode is used (run-time check for
      empty iterations); `cap` is the capture number, 0 for a plain bracket. */
  datatype Grp = Grp(s: bool, cap: nat, alts: Alts, ket: Ket)

  datatype Items = Nil | Cons(head: Item, tail: Items)
  datatype Alts = Last(b: Items) | More(b: Items, rest: Alts)

  /** The brackets that are open at a code position, innermost first. */
  datatype Ctx = Top | In(g: Grp, rest: Items, outer: Ctx)

  /** One entry of the character type table, as the three bits that the matchers test. */
  datatype CType = CType(space: bool, digit: bool, word: bool)
  type CTypes = s: seq<CType> | |s| == 256 witness seq(256, _ => CType(false, false, false))

  /** Everything that stays fixed during one match attempt. `omax` and `oend` are the
      offset_max and offset_end fields that delimit the capture vector. */
  datatype Env = Env(subject: seq<byte>, ctypes: CTypes, nl: byte,
                     mstart: nat, notempty: bool, omax: nat, oend: nat)

  ghost predicate ValidEnv(env: Env) {
    && env.oend % 3 == 0
    && env.omax == env.oend / 3 * 2
  }

  const OP_NOT_DIGIT: TypeOp := 6
  const OP_DIGIT: TypeOp := 7
  const OP_NOT_WHITESPACE: TypeOp := 8
  const OP_WHITESPACE: TypeOp := 9
  const OP_NOT_WORDCHAR: TypeOp := 10
  const OP_WORDCHAR: TypeOp := 11
  const OP_ANY: TypeOp := 12
  const OP_ALLANY: TypeOp := 13

  predicate Bit(b: byte, k: nat) {
    if k == 0 then b % 2 == 1 else Bit(b / 2, k - 1)
  }

  predicate InBitmap(bits: Bitmap, c: byte) {
    Bit(bits[c / 8], c % 8)
  }

  predicate TypeTest(env: Env, t: TypeOp, c: byte) {
    if t == OP_NOT_DIGIT then !env.ctypes[c].digit
    else if t == OP_DIGIT then env.ctypes[c].digit
    else if t == OP_NOT_WHITESPACE then !env.ctypes[c].space
    else if t == OP_WHITESPACE then env.ctypes[c].space
    else if t == OP_NOT_WORDCHAR then !env.ctypes[c].word
    else if t == OP_WORDCHAR then env.ctypes[c].word
    else if t == OP_ANY then c != env.nl
    else true
  }

  predicate Test(env: Env, x: Single, c: byte) {
    match x
    case Chr(d) => c == d
    case NotChr(d) => c != d
    case Typ(t) => TypeTest(env, t, c)
    case Set(_, bits) => InBitmap(bits, c)
  }

  function Min(r: Rep): nat {
    match r
    case Star(_) => 0
    case Plus(_) => 1
    case Query(_) => 0
    case Upto(_, _) => 0
    case Exact(n) => n
    case Range(lo, _, _) => lo
  }

  /** Whether k repetitions are within the maximum. */
  predicate AtMost(r: Rep, k: nat) {
    match r
    case Star(_) => true
    case Plus(_) => true
    case Query(_) => k <= 1
    case Upto(n, _) => k <= n
    case Exact(n) => k <= n
    case Range(_, hi, _) => hi == 0 || k <= hi
  }

  function ModeOf(r: Rep): Mode {
    match r
    case Exact(_) => Greedy
    case _ => r.m
  }

  /** The opcodes whose minimum and maximum coincide: match() carries on without a recursive call. */
  predicate Fixed(r: Rep) {
    r.Exact? || (r.Range? && r.lo == r.hi && r.hi != 0)
  }

  /** The repeat opcodes that exist for an item: classes have CRRANGE but neither UPTO, EXACT nor possessive
      forms. */
  predicate WfRep(x: Single, r: Rep) {
    if x.Set? then
      match r
      case Range(lo, hi, m) => m != Poss && lo < 65536 && hi < 65536
      case Upto(_, _) => false
      case Exact(_) => false
      case _ => r.m != Poss
    else
      match r
      case Range(_, _, _) => false
      case Upto(n, _) => 1 <= n < 65536
      case Exact(n) => 1 <= n < 65536
      case _ => true
  }

  predicate WfItem(it: Item) {
    match it
    case One(x) => true
    case Many(x, r) => WfRep(x, r)
    case Group(_, g) => WfGrp(g)
  }

  predicate WfGrp(g: Grp) {
    g.cap < 65536 && WfAlts(g.alts)
  }

  predicate WfItems(items: Items) {
    match items
    case Nil => true
    case Cons(it, t) => WfItem(it) && WfItems(t)
  }

  predicate WfAlts(alts: Alts) {
    match alts
    case Last(b) => WfItems(b)
    case More(b, rest) => WfItems(b) && WfAlts(rest)
  }

  predicate WfCtx(ctx: Ctx) {
    match ctx
    case Top => true
    case In(g, rest, outer) => WfGrp(g) && WfItems(rest) && WfCtx(outer)
  }

  predicate InAlts(b: Items, alts: Alts) {
    match alts
    case Last(b0) => b == b0
    case More(b0, rest) => b == b0 || InAlts(b, rest)
  }

  ghost predicate AllTest(env: Env, x: Single, i: nat, j: nat)
    requires j <= |env.subject|
  {
    forall k :: i <= k < j ==> Test(env, x, env.subject[k])
  }

  /** What a repeated item may consume: j - i bytes within its limits, all passing the test; the
      possessive forms may stop only where one more byte is impossible. */
  ghost predicate ManyMatches(env: Env, x: Single, r: Rep, i: nat, j: nat)
  {
    && i + Min(r) <= j <= |env.subject|
    && AtMost(r, j - i)
    && AllTest(env, x, i, j)
    && (ModeOf(r) == Poss ==> Stuck(env, x, r, i, j))
  }

  ghost predicate Stuck(env: Env, x: Single, r: Rep, i: nat, j: nat)
    requires i <= j <= |env.subject|
  {
    !AtMost(r, j + 1 - i) || j == |env.subject| || !Test(env, x, env.subject[j])
  }

  predicate Accepts(env: Env, i: nat) {
    !(env.notempty && i == env.mstart)
  }
}
