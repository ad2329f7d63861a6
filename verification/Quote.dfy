/** RE::QuoteMeta() against the parser: quoting a string gives a pattern that stands for the string. */
module Quote {
  import opened Tree
  import opened Semantics
  import opened Regex
  import opened Compile

  const BACKSLASH: byte := 92
  const ZERO: byte := 48

  predicate Alnum(b: byte) {
    48 <= b <= 57 || 65 <= b <= 90 || 97 <= b <= 122
  }

  predicate Octal(b: byte) {
    48 <= b <= 55
  }

  function QuoteByte(b: byte): (s: seq<byte>)
    ensures |s| > 0
  {
    if b == 0 then [BACKSLASH, ZERO]
    else if !Alnum(b) && b != 95 && b < 128 then [BACKSLASH, b]
    else [b]
  }

  function Quoted(s: seq<byte>): seq<byte> {
    if s == [] then [] else QuoteByte(s[0]) + Quoted(s[1..])
  }

  lemma {:induction false} QuotedSnoc(s: seq<byte>, b: byte)
    ensures Quoted(s + [b]) == Quoted(s) + QuoteByte(b)
    decreases |s|
  {
    hide QuoteByte;
    if s == [] {
      assert ([b])[1..] == [];
    } else {
      assert (s + [b])[1..] == s[1..] + [b];
      QuotedSnoc(s[1..], b);
    }
  }

  method QuoteMeta(unquoted: seq<byte>) returns (result: seq<byte>)
    ensures result == Quoted(unquoted)
  {
    result := [];
    for ii := 0 to |unquoted|
      invariant result == Quoted(unquoted[..ii])
    {
      var b := unquoted[ii];
      if b == 0 {
        result := result + [BACKSLASH, ZERO];
      } else if (b < 97 || b > 122) && (b < 65 || b > 90) && (b < 48 || b > 57) && b != 95 && b < 128 {
        result := result + [BACKSLASH];
        result := result + [b];
      } else {
        result := result + [b];
      }
      assert unquoted[..ii + 1] == unquoted[..ii] + [b];
      QuotedSnoc(unquoted[..ii], b);
    }
    assert unquoted[..|unquoted|] == unquoted;
  }

  /** Letters, digits, the underscore and bytes that are not ASCII. */
  predicate Ordinary(b: byte) {
    'a' <= b as char <= 'z' || 'A' <= b as char <= 'Z' || '0' <= b as char <= '9' || b as char == '_' || b >= 128
  }

  /** Only these are left as they are, and no NUL is left in a pattern. */
  lemma {:induction false} QuotedSame(s: seq<byte>)
    ensures Quoted(s) == s <==> forall k :: 0 <= k < |s| ==> Ordinary(s[k])
    ensures 0 !in Quoted(s) && |Quoted(s)| >= |s|
  {
    if s != [] {
      QuotedSame(s[1..]);
      if Ordinary(s[0]) {
        assert Quoted(s) == [s[0]] + Quoted(s[1..]) && s == [s[0]] + s[1..];
        assert Quoted(s)[1..] == Quoted(s[1..]);
        assert forall k :: 1 <= k < |s| ==> s[k] == s[1..][k - 1];
      }
    }
  }

  // ---------------------------------------------------------------------------------------
  // What the parser makes of it

  /** A pattern that is a sequence of data characters, or anything else. */
  datatype Parsed = Literal(bytes: seq<byte>) | Other

  function Prepend(b: byte, r: Parsed): Parsed {
    if r.Literal? then Literal([b] + r.bytes) else Other
  }

  /** The characters that compile_branch() treats specially outside a class, apart from the backslash. */
  predicate Special(c: byte) {
    c in {124, 41, 94, 36, 46, 91, 42, 43, 63, 40, 123}
  }

  /** An escape sequence that stands for the character after the backslash: not alphanumeric, for
      those in the table of escapes the entry is the character itself. */
  predicate SelfEscape(c: byte) {
    c != 0 && !Alnum(c)
  }

  /** The value of up to n octal digits at the start of s, after the value c, and how many there are. */
  function OctalValue(c: nat, s: seq<byte>, n: nat): nat
    decreases n
  {
    if n == 0 || s == [] || !Octal(s[0]) then c else OctalValue(c * 8 + s[0] - 48, s[1..], n - 1)
  }

  function OctalCount(s: seq<byte>, n: nat): (k: nat)
    ensures k <= |s| && k <= n
    decreases n
  {
    if n == 0 || s == [] || !Octal(s[0]) then 0 else 1 + OctalCount(s[1..], n - 1)
  }

  lemma OctalSmall(s: seq<byte>)
    ensures OctalValue(0, s, 2) < 64
  {
    if s != [] && Octal(s[0]) {
      assert OctalValue(0, s, 2) == OctalValue(s[0] - 48, s[1..], 1);
      assert s[1..] != [] && Octal(s[1..][0]) ==> OctalValue(s[0] - 48, s[1..], 1) == OctalValue((s[0] - 48) * 8 +
             s[1..][0] - 48, s[1..][1..], 0);
    }
  }

  /** The data characters of a pattern: what compile_branch() and check_escape() read. */
  function Parse(text: seq<byte>): Parsed
    decreases |text|
  {
    if text == [] || text[0] == 0 then Literal([])
    else if text[0] == BACKSLASH then
      if |text| == 1 then Other
      else if text[1] == ZERO then
        OctalSmall(text[2..]);
        Prepend(OctalValue(0, text[2..], 2), Parse(text[2 + OctalCount(text[2..], 2)..]))
      else if SelfEscape(text[1]) then Prepend(text[1], Parse(text[2..]))
      else Other
    else if Special(text[0]) then Other
    else Prepend(text[0], Parse(text[1..]))
  }

  /** No NUL is followed by an octal digit. */
  predicate Unambiguous(s: seq<byte>) {
    forall i :: 0 <= i < |s| - 1 && s[i] == 0 ==> !Octal(s[i + 1])
  }

  lemma QuotedFirst(s: seq<byte>)
    requires s != []
    ensures Quoted(s) != [] && (Octal(Quoted(s)[0]) <==> Octal(s[0]))
    ensures Octal(s[0]) ==> Quoted(s) == [s[0]] + Quoted(s[1..])
  {
    assert Quoted(s)[0] == QuoteByte(s[0])[0];
  }

  lemma {:induction false} QuotedDigits(s: seq<byte>, n: nat)
    ensures OctalCount(Quoted(s), n) == OctalCount(s, n)
    ensures OctalCount(s, n) > 0 <==> n > 0 && s != [] && Octal(s[0])
    ensures Quoted(s)[OctalCount(s, n)..] == Quoted(s[OctalCount(s, n)..])
    decreases n
  {
    if s != [] {
      hide Quoted, Octal;
      var q := Quoted(s);
      QuotedFirst(s);
      if Octal(s[0]) && n > 0 {
        assert q[1..] == Quoted(s[1..]);
        QuotedDigits(s[1..], n - 1);
        var k := OctalCount(s[1..], n - 1);
        assert k <= |q| - 1 && k <= |s| - 1;
        assert q[1 + k..] == q[1..][k..];
        assert s[1 + k..] == s[1..][k..];
      } else {
        assert s[0..] == s && q[0..] == q;
      }
    }
  }

  /** Parsing undoes quoting exactly if no NUL is followed by an octal digit: the digits are taken
      for a part of the escape sequence \\0. */
  lemma {:induction false} QuoteExact(s: seq<byte>)
    ensures var r := Parse(Quoted(s)); r.Literal? && |r.bytes| <= |s| && (r.bytes == s <==> Unambiguous(s))
    decreases |s|
  {
    hide OctalValue, OctalCount, Parse, Quoted;
    ParseEmpty();
    if s != [] {
      var rest := s[1..];
      Unfold(s);
      if s[0] == 0 {
        ParseNul(s);
        QuotedDigits(rest, 2);
        var k := OctalCount(rest, 2);
        QuoteExact(rest[k..]);
        if k == 0 {
          assert rest[0..] == rest;
          OctalNone(Quoted(rest));
        }
      } else {
        ParsePlain(s);
        QuoteExact(rest);
      }
    }
  }

  lemma ParseEmpty()
    ensures Parse(Quoted([])) == Literal([])
  {
  }

  lemma ParsePlain(s: seq<byte>)
    requires s != [] && s[0] != 0
    ensures Parse(Quoted(s)) == Prepend(s[0], Parse(Quoted(s[1..])))
  {
    hide OctalValue, OctalCount, Prepend;
    var q, b := Quoted(s), QuoteByte(s[0]);
    assert q[|b|..] == Quoted(s[1..]);
    assert q[0] == b[0] && (|b| == 2 ==> q[1] == b[1]);
  }

  /** A backslash, a zero and up to two octal digits. */
  lemma ParseOctal(q: seq<byte>)
    requires |q| >= 2 && q[0] == BACKSLASH && q[1] == ZERO && OctalValue(0, q[2..], 2) < 256
    ensures Parse(q) == Prepend(OctalValue(0, q[2..], 2), Parse(q[2 + OctalCount(q[2..], 2)..]))
  {
    hide OctalValue, OctalCount, Prepend, Special, SelfEscape;
  }

  lemma ParseNul(s: seq<byte>)
    requires s != [] && s[0] == 0
    ensures OctalValue(0, Quoted(s[1..]), 2) < 256
    ensures Parse(Quoted(s)) == Prepend(OctalValue(0, Quoted(s[1..]), 2),
      Parse(Quoted(s[1..][OctalCount(s[1..], 2)..])))
  {
    hide OctalValue, OctalCount, Parse, Prepend;
    var q, rest := Quoted(s), s[1..];
    QuotedDigits(rest, 2);
    OctalSmall(Quoted(rest));
    assert q[2..] == Quoted(rest);
    ParseOctal(q);
    assert q[2 + OctalCount(rest, 2)..] == q[2..][OctalCount(rest, 2)..];
  }

  lemma OctalNone(s: seq<byte>)
    ensures OctalCount(s, 2) == 0 ==> OctalValue(0, s, 2) == 0
  {
  }

  lemma Unfold(s: seq<byte>)
    requires s != []
    ensures Unambiguous(s) <==> (s[0] == 0 && |s| > 1 ==> !Octal(s[1])) && Unambiguous(s[1..])
  {
    var rest := s[1..];
    if Unambiguous(rest) && (s[0] == 0 && |s| > 1 ==> !Octal(s[1])) {
      forall i | 0 <= i < |s| - 1 && s[i] == 0 ensures !Octal(s[i + 1]) {
        if i > 0 {
          assert rest[i - 1] == s[i] && rest[i] == s[i + 1];
        }
      }
    }
    if Unambiguous(s) {
      forall i | 0 <= i < |rest| - 1 && rest[i] == 0 ensures !Octal(rest[i + 1]) {
        assert s[i + 1] == 0;
      }
    }
  }

  // ---------------------------------------------------------------------------------------
  // What such a pattern matches

  function LiteralBranch(s: seq<byte>): Branch {
    if s == [] then Done else Then(Byte(Chr(s[0]), true, Plain), LiteralBranch(s[1..]))
  }

  /** It is compiled into one OP_CHAR for each byte. */
  function Chars(s: seq<byte>): Items {
    if s == [] then Nil else Cons(One(Chr(s[0])), Chars(s[1..]))
  }

  lemma {:induction false} LiteralCode(ct: CTypes, s: seq<byte>, k: nat)
    ensures BranchItems(ct, LiteralBranch(s), k) == Chars(s)
    decreases |s|
  {
    if s != [] {
      var b := LiteralBranch(s);
      LiteralCode(ct, s[1..], k);
      assert PieceItems(ct, b.p, b.rest, k) == Cons(One(Chr(s[0])), Nil) && Parens(b.p) == 0;
      assert Append(Cons(One(Chr(s[0])), Nil), Chars(s[1..])) == Chars(s);
    }
  }

  /** An anchored match to the end of the subject accepts only the string itself. */
  lemma {:induction false} LiteralMatch(env: Env, s: seq<byte>, i: nat)
    requires i <= |env.subject|
    ensures MeansBranch(env, LiteralBranch(s), i, |env.subject|) <==> env.subject[i..] == s
    decreases |s|
  {
    hide MeansByte;
    var b, n := LiteralBranch(s), |env.subject|;
    if s != [] {
      if MeansBranch(env, b, i, n) {
        var m := BranchElim(env, b, i, n);
        OneByte(env, s[0], i, m);
        LiteralMatch(env, s[1..], m);
        assert env.subject[i..] == [env.subject[i]] + env.subject[i + 1..];
      }
      if env.subject[i..] == s {
        assert env.subject[i..][0] == s[0] && env.subject[i + 1..] == s[1..];
        OneByte(env, s[0], i, i + 1);
        LiteralMatch(env, s[1..], i + 1);
        assert MeansPiece(env, b.p, i, i + 1);
      }
    }
  }

  lemma OneByte(env: Env, c: byte, i: nat, j: nat)
    ensures MeansByte(env, Chr(c), Plain, i, j) <==> i < |env.subject| && j == i + 1 && env.subject[i] == c
  {
  }

  lemma {:induction false} LiteralWf(ct: CTypes, s: seq<byte>)
    ensures WfBranch(LiteralBranch(s)) && SureBranch(ct, LiteralBranch(s))
    decreases |s|
  {
    if s != [] {
      LiteralWf(ct, s[1..]);
    }
  }

  lemma NoNul(s: seq<byte>)
    requires 0 !in s
    ensures Unambiguous(s)
  {
  }

  /** For a string without NUL: the quoted string is read as the string, compiled into one OP_CHAR for each
      byte, and that code matches a whole subject exactly if the subject is the string. */
  lemma {:induction false} QuotedExact(env: Env, s: seq<byte>)
    requires 0 !in s
    ensures Parse(Quoted(s)) == Literal(s) && BranchItems(env.ctypes, LiteralBranch(s), 0) == Chars(s)
    ensures MatchItems(env, Chars(s), 0, |env.subject|) <==> env.subject == s
  {
    hide Parse, Quoted, MatchItems, MeansBranch, BranchItems, Unambiguous, WfBranch, SureBranch;
    NoNul(s);
    QuoteExact(s);
    LiteralCode(env.ctypes, s, 0);
    LiteralWf(env.ctypes, s);
    BranchExact(env, LiteralBranch(s), 0, 0, |env.subject|);
    LiteralMatch(env, s, 0);
    assert env.subject[0..] == env.subject;
  }
}
