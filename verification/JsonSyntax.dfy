/**
 * The reference recogniser of the grammar: it reads the longest value at the start of a text, without
 * any limit and without decoding. It is sound and complete for the trees of JsonGrammar, so every text
 * has at most one derivation.
 */
module JsonSyntax {
  import opened Bytes
  import opened JsonString
  import opened JsonGrammar

  function LeadingWs(s: bytes): bytes {
    if s != [] && IsWs(s[0]) then [s[0]] + LeadingWs(s[1..]) else []
  }

  function SkipWs(s: bytes): (r: bytes)
    ensures |r| <= |s| && (r != [] ==> !IsWs(r[0]))
  {
    if s != [] && IsWs(s[0]) then SkipWs(s[1..]) else s
  }

  function LeadingDigits(s: bytes): bytes {
    if s != [] && IsDigit(s[0]) then [s[0]] + LeadingDigits(s[1..]) else []
  }

  function SkipDigits(s: bytes): (r: bytes)
    ensures |r| <= |s| && (r != [] ==> !IsDigit(r[0])) && (s != [] && IsDigit(s[0]) ==> |r| < |s|)
  {
    if s != [] && IsDigit(s[0]) then SkipDigits(s[1..]) else s
  }

  /** What was read, and the text after it. */
  datatype Read<+T> = Fail | Got(v: T, rest: bytes)

  // ----- Numbers -----

  function ReadInteger(s: bytes): Read<bytes> {
    if s == [] || !IsDigit(s[0]) then Fail
    else if s[0] == ZERO then
      if |s| > 1 && IsDigit(s[1]) then Fail else Got([ZERO], s[1..])
    else Got(LeadingDigits(s), SkipDigits(s))
  }

  function ReadFraction(s: bytes): Read<Option<bytes>> {
    if s != [] && s[0] == POINT then
      if LeadingDigits(s[1..]) == [] then Fail else Got(Some(LeadingDigits(s[1..])), SkipDigits(s[1..]))
    else Got(None, s)
  }

  function SignOf(s: bytes): bytes {
    if s != [] && (s[0] == PLUS || s[0] == MINUS) then [s[0]] else []
  }

  function ReadExponent(s: bytes): Read<Option<Exponent>> {
    if s != [] && (s[0] == 101 || s[0] == 69) then
      var sign := SignOf(s[1..]);
      var d := s[1..][|sign|..];
      if LeadingDigits(d) == [] then Fail else Got(Some(Exponent(s[0], sign, LeadingDigits(d))), SkipDigits(d))
    else Got(None, s)
  }

  function ReadNumber(s: bytes): Read<Number> {
    var minus := s != [] && s[0] == MINUS;
    var i := ReadInteger(if minus then s[1..] else s);
    if i.Fail? then Fail
    else
      var f := ReadFraction(i.rest);
      if f.Fail? then Fail
      else
        var e := ReadExponent(f.rest);
        if e.Fail? then Fail else Got(Number(minus, i.v, f.v, e.v), e.rest)
  }

  lemma {:induction false} DigitsSplit(s: bytes)
    ensures s == LeadingDigits(s) + SkipDigits(s) && Digits(LeadingDigits(s))
  {
    if s != [] && IsDigit(s[0]) {
      DigitsSplit(s[1..]);
      Cons(s, s[0], LeadingDigits(s[1..]), SkipDigits(s[1..]));
      assert ([s[0]] + LeadingDigits(s[1..]))[1..] == LeadingDigits(s[1..]);
    }
  }

  lemma {:induction false} DigitsJoin(d: bytes, rest: bytes)
    requires Digits(d) && (rest != [] ==> !IsDigit(rest[0]))
    ensures LeadingDigits(d + rest) == d && SkipDigits(d + rest) == rest
  {
    if d == [] {
      assert d + rest == rest;
    } else {
      assert (d + rest)[1..] == d[1..] + rest;
      DigitsJoin(d[1..], rest);
      assert d == [d[0]] + d[1..];
    }
  }

  /** The three parts of an unsigned number cover the text that was read. */
  lemma PartsSound(s: bytes)
    requires ReadInteger(s).Got? && ReadFraction(ReadInteger(s).rest).Got?
    requires ReadExponent(ReadFraction(ReadInteger(s).rest).rest).Got?
    ensures var i := ReadInteger(s);
            var f := ReadFraction(i.rest);
            var e := ReadExponent(f.rest);
            s == i.v + (FractionText(f.v) + (ExponentText(e.v) + e.rest)) && |e.rest| < |s|
  {
    var i := ReadInteger(s);
    ReadIntegerSound(s);
    ReadFractionSound(i.rest);
    ReadExponentSound(ReadFraction(i.rest).rest);
  }

  lemma ReadNumberSound(s: bytes)
    requires ReadNumber(s).Got?
    ensures NumberOk(ReadNumber(s).v) && s == NumberText(ReadNumber(s).v) + ReadNumber(s).rest
    ensures |ReadNumber(s).rest| < |s|
  {
    var minus := s != [] && s[0] == MINUS;
    var sign, s1 := if minus then [MINUS] else [], if minus then s[1..] else s;
    var n, rest := ReadNumber(s).v, ReadNumber(s).rest;
    assert NumberOk(n) by {
      ReadIntegerSound(s1);
      ReadFractionSound(ReadInteger(s1).rest);
      ReadExponentSound(ReadFraction(ReadInteger(s1).rest).rest);
    }
    assert s1 == n.digits + (FractionText(n.frac) + (ExponentText(n.exp) + rest)) && |rest| < |s1| by {
      PartsSound(s1);
    }
    assert s == sign + s1;
    JoinParts(sign, n.digits, FractionText(n.frac), ExponentText(n.exp), rest);
  }

  lemma JoinParts(a: bytes, b: bytes, c: bytes, d: bytes, rest: bytes)
    ensures a + (b + (c + (d + rest))) == (a + (b + (c + d))) + rest
  {
  }

  lemma ReadIntegerSound(s: bytes)
    requires ReadInteger(s).Got?
    ensures var i := ReadInteger(s);
            s == i.v + i.rest && i.v != [] && Digits(i.v) && (i.v[0] == ZERO ==> |i.v| == 1)
  {
    DigitsSplit(s);
  }

  lemma ReadFractionSound(s: bytes)
    requires ReadFraction(s).Got?
    ensures var f := ReadFraction(s);
            s == FractionText(f.v) + f.rest && (f.v.Some? ==> f.v.value != [] && Digits(f.v.value))
  {
    if s != [] && s[0] == POINT {
      DigitsSplit(s[1..]);
      Cons(s, POINT, LeadingDigits(s[1..]), SkipDigits(s[1..]));
    } else {
      assert [] + s == s;
    }
  }

  lemma ReadExponentSound(s: bytes)
    requires ReadExponent(s).Got?
    ensures var e := ReadExponent(s);
            s == ExponentText(e.v) + e.rest && (e.v.Some? ==> ExponentOk(e.v.value))
  {
    if s != [] && (s[0] == 101 || s[0] == 69) {
      var sign := SignOf(s[1..]);
      var d := s[1..][|sign|..];
      DigitsSplit(d);
      assert s[1..] == sign + d;
      Glue(sign, LeadingDigits(d), SkipDigits(d));
      Cons(s, s[0], sign + LeadingDigits(d), SkipDigits(d));
    }
  }

  /** A number ends before any byte that cannot continue it. */
  predicate NumberEnd(rest: bytes) {
    rest == [] || !(IsDigit(rest[0]) || rest[0] == POINT || rest[0] == 101 || rest[0] == 69)
  }

  lemma ReadFractionComplete(f: Option<bytes>, rest: bytes)
    requires f.Some? ==> f.value != [] && Digits(f.value)
    requires rest == [] || !(IsDigit(rest[0]) || rest[0] == POINT)
    ensures ReadFraction(FractionText(f) + rest) == Got(f, rest)
  {
    if f.Some? {
      assert (FractionText(f) + rest)[1..] == f.value + rest;
      DigitsJoin(f.value, rest);
    } else {
      assert [] + rest == rest;
    }
  }

  lemma SignJoin(sign: bytes, d: bytes)
    requires sign == [] || sign == [PLUS] || sign == [MINUS]
    requires d != [] && IsDigit(d[0])
    ensures SignOf(sign + d) == sign && (sign + d)[|sign|..] == d
  {
  }

  lemma ReadExponentStep(s: bytes, e: Exponent, d: bytes, rest: bytes)
    requires s != [] && s[0] == e.e && (e.e == 101 || e.e == 69)
    requires SignOf(s[1..]) == e.sign && s[1..][|e.sign|..] == d
    requires e.digits != [] && LeadingDigits(d) == e.digits && SkipDigits(d) == rest
    ensures ReadExponent(s) == Got(Some(e), rest)
  {
  }

  lemma ConsTail(c: byte, p: bytes, rest: bytes)
    ensures var s := ([c] + p) + rest; s[0] == c && s[1..] == p + rest
  {
  }

  lemma ReadSomeExponent(x: Exponent, rest: bytes)
    requires ExponentOk(x) && (rest != [] ==> !IsDigit(rest[0]))
    ensures ReadExponent(([x.e] + (x.sign + x.digits)) + rest) == Got(Some(x), rest)
  {
    var d := x.digits + rest;
    DigitsJoin(x.digits, rest);
    SignJoin(x.sign, d);
    ConsTail(x.e, x.sign + x.digits, rest);
    Glue(x.sign, x.digits, rest);
    ReadExponentStep(([x.e] + (x.sign + x.digits)) + rest, x, d, rest);
  }

  lemma ReadExponentComplete(e: Option<Exponent>, rest: bytes)
    requires e.Some? ==> ExponentOk(e.value)
    requires NumberEnd(rest)
    ensures ReadExponent(ExponentText(e) + rest) == Got(e, rest)
  {
    if e.Some? {
      ReadSomeExponent(e.value, rest);
    } else {
      assert [] + rest == rest;
    }
  }

  lemma ReadIntegerComplete(d: bytes, rest: bytes)
    requires d != [] && Digits(d) && (d[0] == ZERO ==> |d| == 1)
    requires rest != [] ==> !IsDigit(rest[0])
    ensures ReadInteger(d + rest) == Got(d, rest)
  {
    DigitsJoin(d, rest);
    if d[0] == ZERO {
      assert d == [ZERO];
      assert (d + rest)[1..] == rest;
    }
  }

  lemma ReadNumberStep(s: bytes, u: bytes, n: Number, r1: bytes, r2: bytes, rest: bytes)
    requires u != [] && u[0] != MINUS && s == if n.minus then [MINUS] + u else u
    requires ReadInteger(u) == Got(n.digits, r1) && ReadFraction(r1) == Got(n.frac, r2)
    requires ReadExponent(r2) == Got(n.exp, rest)
    ensures ReadNumber(s) == Got(n, rest)
  {
    assert n.minus ==> s[1..] == u;
  }

  lemma ReadNumberComplete(n: Number, rest: bytes)
    requires NumberOk(n) && NumberEnd(rest)
    ensures ReadNumber(NumberText(n) + rest) == Got(n, rest)
  {
    var r2 := ExponentText(n.exp) + rest;
    var r1 := FractionText(n.frac) + r2;
    JoinParts(if n.minus then [MINUS] else [], n.digits, FractionText(n.frac), ExponentText(n.exp), rest);
    ReadIntegerComplete(n.digits, r1);
    ReadFractionComplete(n.frac, r2);
    ReadExponentComplete(n.exp, rest);
    assert [] + (n.digits + r1) == n.digits + r1;
    ReadNumberStep(NumberText(n) + rest, n.digits + r1, n, r1, r2, rest);
  }

  // ----- Values -----

  predicate StartsWith(s: bytes, p: bytes) { |p| <= |s| && s[..|p|] == p }

  /** The value at the start of s, which has no leading ws. */
  function ReadTree(s: bytes): (r: Read<Tree>)
    ensures r.Got? ==> |r.rest| < |s|
    decreases |s|, 0
  {
    if s == [] then Fail
    else if s[0] == 110 then
      if StartsWith(s, NULL_TEXT) then Got(NullTree, s[4..]) else Fail
    else if s[0] == 116 then
      if StartsWith(s, TRUE_TEXT) then Got(BoolTree(true), s[4..]) else Fail
    else if s[0] == 102 then
      if StartsWith(s, FALSE_TEXT) then Got(BoolTree(false), s[5..]) else Fail
    else if s[0] == QUOTE then ReadStringTree(s)
    else if s[0] == LBRACKET then
      var ws, s1 := LeadingWs(s[1..]), SkipWs(s[1..]);
      if s1 != [] && s1[0] == RBRACKET then Got(EmptyArrayTree(ws), s1[1..])
      else
        var es := ReadElements(s1);
        if es.Got? then Got(ArrayTree(ws, es.v), es.rest) else Fail
    else if s[0] == LBRACE then
      var ws, s1 := LeadingWs(s[1..]), SkipWs(s[1..]);
      if s1 != [] && s1[0] == RBRACE then Got(EmptyObjectTree(ws), s1[1..])
      else
        var ms := ReadMembers(s1);
        if ms.Got? then Got(ObjectTree(ws, ms.v), ms.rest) else Fail
    else if s[0] == MINUS || IsDigit(s[0]) then ReadNumberTree(s)
    else Fail
  }

  function ReadNumberTree(s: bytes): (r: Read<Tree>)
    ensures r.Got? ==> |r.rest| < |s|
  {
    var n := ReadNumber(s);
    if n.Got? then ReadNumberSound(s); Got(NumberTree(n.v), n.rest) else Fail
  }

  /** A string literal, its opening quote included. */
  function ReadString(s: bytes): (r: Read<seq<Token>>)
    ensures r.Got? ==> |r.rest| + 2 <= |s|
  {
    if s == [] || s[0] != QUOTE then Fail
    else
      var scanned := Scan(s[1..]);
      if scanned.Some? then
        ScanSound(s[1..]);
        Got(scanned.value.tokens, scanned.value.rest)
      else Fail
  }

  function ReadStringTree(s: bytes): (r: Read<Tree>)
    ensures r.Got? ==> |r.rest| < |s|
  {
    var str := ReadString(s);
    if str.Got? then Got(StringTree(str.v), str.rest) else Fail
  }

  /** The elements of a non-empty array up to and including the closing bracket. */
  function ReadElements(s: bytes): (r: Read<Elements>)
    ensures r.Got? ==> |r.rest| < |s|
    decreases |s|, 1
  {
    var v := ReadTree(s);
    if v.Fail? then Fail
    else
      var after, s1 := LeadingWs(v.rest), SkipWs(v.rest);
      if s1 == [] then Fail
      else if s1[0] == RBRACKET then Got(LastElement(v.v, after), s1[1..])
      else if s1[0] == COMMA then
        var ws, s2 := LeadingWs(s1[1..]), SkipWs(s1[1..]);
        var more := ReadElements(s2);
        if more.Got? then Got(MoreElements(v.v, after, ws, more.v), more.rest) else Fail
      else Fail
  }

  /** A member up to the end of its value. */
  function ReadMember(s: bytes): (r: Read<Member>)
    ensures r.Got? ==> |r.rest| < |s|
    decreases |s|, 1
  {
    var key := ReadString(s);
    if key.Fail? then Fail
    else
      var ws1, s1 := LeadingWs(key.rest), SkipWs(key.rest);
      if s1 == [] || s1[0] != COLON then Fail
      else
        var ws2, s2 := LeadingWs(s1[1..]), SkipWs(s1[1..]);
        var v := ReadTree(s2);
        if v.Got? then Got(Member(key.v, ws1, ws2, v.v), v.rest) else Fail
  }

  function ReadMembers(s: bytes): (r: Read<Members>)
    ensures r.Got? ==> |r.rest| < |s|
    decreases |s|, 2
  {
    var m := ReadMember(s);
    if m.Fail? then Fail
    else
      var after, s1 := LeadingWs(m.rest), SkipWs(m.rest);
      if s1 == [] then Fail
      else if s1[0] == RBRACE then Got(LastMember(m.v, after), s1[1..])
      else if s1[0] == COMMA then
        var ws, s2 := LeadingWs(s1[1..]), SkipWs(s1[1..]);
        var more := ReadMembers(s2);
        if more.Got? then Got(MoreMembers(m.v, after, ws, more.v), more.rest) else Fail
      else Fail
  }

  // ----- Soundness -----

  lemma {:induction false} WsSplit(s: bytes)
    ensures s == LeadingWs(s) + SkipWs(s) && Ws(LeadingWs(s))
  {
    if s != [] && IsWs(s[0]) {
      WsSplit(s[1..]);
      Cons(s, s[0], LeadingWs(s[1..]), SkipWs(s[1..]));
      assert ([s[0]] + LeadingWs(s[1..]))[1..] == LeadingWs(s[1..]);
    }
  }

  lemma ReadStringSound(s: bytes)
    requires ReadString(s).Got?
    ensures AllLexical(ReadString(s).v) && s == StringText(ReadString(s).v) + ReadString(s).rest
  {
    ScanSound(s[1..]);
    assert s == [QUOTE] + s[1..];
  }

  /** A text and the piece at its start: s == p + rest, one byte or one ws later. */
  lemma Cons(s: bytes, c: byte, p: bytes, rest: bytes)
    requires s != [] && s[0] == c && s[1..] == p + rest
    ensures s == ([c] + p) + rest
  {
    assert s == [c] + s[1..];
  }

  lemma {:induction false} ReadTreeSound(s: bytes)
    requires ReadTree(s).Got?
    ensures TreeOk(ReadTree(s).v) && s == TreeText(ReadTree(s).v) + ReadTree(s).rest
    decreases |s|, 1
  {
    var r := ReadTree(s);
    if s[0] == QUOTE {
      ReadStringSound(s);
    } else if s[0] == LBRACKET {
      ReadArraySound(s);
    } else if s[0] == LBRACE {
      ReadObjectSound(s);
    } else if s[0] == MINUS || IsDigit(s[0]) {
      ReadNumberSound(s);
    }
  }

  /** An opening bracket, white space and a body, put together again. */
  lemma Wrapped(s: bytes, c: byte, ws: bytes, s1: bytes, body: bytes, rest: bytes)
    requires s != [] && s[0] == c && s[1..] == ws + s1 && s1 == body + rest
    ensures s == ([c] + (ws + body)) + rest
  {
    Glue(ws, body, rest);
    Cons(s, c, ws + body, rest);
  }

  lemma {:induction false} ReadArraySound(s: bytes)
    requires s != [] && s[0] == LBRACKET && ReadTree(s).Got?
    ensures TreeOk(ReadTree(s).v) && s == TreeText(ReadTree(s).v) + ReadTree(s).rest
    decreases |s|, 0
  {
    var r := ReadTree(s);
    var ws, s1 := LeadingWs(s[1..]), SkipWs(s[1..]);
    WsSplit(s[1..]);
    if r.v.EmptyArrayTree? {
      Wrapped(s, LBRACKET, ws, s1, [RBRACKET], r.rest);
    } else {
      ReadElementsSound(s1);
      Wrapped(s, LBRACKET, ws, s1, ElementsText(r.v.elements), r.rest);
    }
  }

  lemma {:induction false} ReadObjectSound(s: bytes)
    requires s != [] && s[0] == LBRACE && ReadTree(s).Got?
    ensures TreeOk(ReadTree(s).v) && s == TreeText(ReadTree(s).v) + ReadTree(s).rest
    decreases |s|, 0
  {
    var r := ReadTree(s);
    var ws, s1 := LeadingWs(s[1..]), SkipWs(s[1..]);
    WsSplit(s[1..]);
    if r.v.EmptyObjectTree? {
      Wrapped(s, LBRACE, ws, s1, [RBRACE], r.rest);
    } else {
      ReadMembersSound(s1);
      Wrapped(s, LBRACE, ws, s1, MembersText(r.v.members), r.rest);
    }
  }

  lemma GlueLast(s: bytes, v: bytes, s0: bytes, after: bytes, s1: bytes, c: byte)
    requires s == v + s0 && s0 == after + s1 && s1 != [] && s1[0] == c
    ensures s == (v + (after + [c])) + s1[1..]
  {
    assert s1 == [c] + s1[1..];
  }

  /** Two parts with a separator c and white space between them. */
  lemma GlueMore(s: bytes, v: bytes, s0: bytes, after: bytes, s1: bytes, c: byte, ws: bytes, s2: bytes, more: bytes,
                 rest: bytes)
    requires s == v + s0 && s0 == after + s1 && s1 != [] && s1[0] == c && s1[1..] == ws + s2 && s2 == more + rest
    ensures s == (v + (after + ([c] + (ws + more)))) + rest
  {
    Glue(ws, more, rest);
    Cons(s1, c, ws + more, rest);
    Glue(after, [c] + (ws + more), rest);
    Glue(v, after + ([c] + (ws + more)), rest);
  }

  lemma {:induction false} ReadElementsSound(s: bytes)
    requires ReadElements(s).Got?
    ensures ElementsOk(ReadElements(s).v) && s == ElementsText(ReadElements(s).v) + ReadElements(s).rest
    decreases |s|, 2
  {
    var r := ReadElements(s);
    var v := ReadTree(s);
    ReadTreeSound(s);
    WsSplit(v.rest);
    var after, s1 := LeadingWs(v.rest), SkipWs(v.rest);
    if s1[0] == RBRACKET {
      GlueLast(s, TreeText(v.v), v.rest, after, s1, RBRACKET);
    } else {
      WsSplit(s1[1..]);
      var ws, s2 := LeadingWs(s1[1..]), SkipWs(s1[1..]);
      ReadElementsSound(s2);
      GlueMore(s, TreeText(v.v), v.rest, after, s1, COMMA, ws, s2, ElementsText(ReadElements(s2).v), r.rest);
    }
  }

  lemma MemberGlue(key: bytes, ws1: bytes, ws2: bytes, v: bytes, rest: bytes)
    ensures key + (ws1 + ([COLON] + (ws2 + (v + rest)))) == (key + (ws1 + ([COLON] + (ws2 + v)))) + rest
  {
    Glue(ws2, v, rest);
    Glue([COLON], ws2 + v, rest);
    Glue(ws1, [COLON] + (ws2 + v), rest);
    Glue(key, ws1 + ([COLON] + (ws2 + v)), rest);
  }

  lemma {:induction false} ReadMemberSound(s: bytes)
    requires ReadMember(s).Got?
    ensures MemberOk(ReadMember(s).v) && s == MemberText(ReadMember(s).v) + ReadMember(s).rest
    decreases |s|, 2
  {
    var key := ReadString(s);
    ReadStringSound(s);
    var ws1, s1 := LeadingWs(key.rest), SkipWs(key.rest);
    WsSplit(key.rest);
    var ws2, s2 := LeadingWs(s1[1..]), SkipWs(s1[1..]);
    WsSplit(s1[1..]);
    var v := ReadTree(s2);
    ReadTreeSound(s2);
    GlueMore(s, StringText(key.v), key.rest, ws1, s1, COLON, ws2, s2, TreeText(v.v), v.rest);
  }

  lemma {:induction false} ReadMembersSound(s: bytes)
    requires ReadMembers(s).Got?
    ensures MembersOk(ReadMembers(s).v) && s == MembersText(ReadMembers(s).v) + ReadMembers(s).rest
    decreases |s|, 3
  {
    var r := ReadMembers(s);
    var m := ReadMember(s);
    ReadMemberSound(s);
    WsSplit(m.rest);
    var after, s1 := LeadingWs(m.rest), SkipWs(m.rest);
    if s1[0] == RBRACE {
      GlueLast(s, MemberText(m.v), m.rest, after, s1, RBRACE);
    } else {
      WsSplit(s1[1..]);
      var ws, s2 := LeadingWs(s1[1..]), SkipWs(s1[1..]);
      ReadMembersSound(s2);
      GlueMore(s, MemberText(m.v), m.rest, after, s1, COMMA, ws, s2, MembersText(ReadMembers(s2).v), r.rest);
    }
  }

  // ----- Completeness -----

  lemma {:induction false} WsJoin(ws: bytes, rest: bytes)
    requires Ws(ws) && (rest != [] ==> !IsWs(rest[0]))
    ensures LeadingWs(ws + rest) == ws && SkipWs(ws + rest) == rest
  {
    if ws == [] {
      assert ws + rest == rest;
    } else {
      assert (ws + rest)[1..] == ws[1..] + rest;
      WsJoin(ws[1..], rest);
      assert ws == [ws[0]] + ws[1..];
    }
  }

  /** What may stand after a value in a document: the end, ws, a comma or a closing bracket. */
  predicate ValueEnd(rest: bytes) {
    rest == [] || IsWs(rest[0]) || rest[0] == COMMA || rest[0] == RBRACKET || rest[0] == RBRACE
  }

  lemma ReadStringComplete(tokens: seq<Token>, rest: bytes)
    requires AllLexical(tokens)
    ensures ReadString(StringText(tokens) + rest) == Got(tokens, rest)
  {
    var s := StringText(tokens) + rest;
    assert s[1..] == Text(tokens) + [QUOTE] + rest;
    ScanComplete(tokens, rest);
  }

  lemma NumberStart(n: Number)
    requires NumberOk(n)
    ensures NumberText(n) != [] && (NumberText(n)[0] == MINUS || IsDigit(NumberText(n)[0]))
  {
  }

  /** The first byte of a value is none of the bytes that may follow one. */
  lemma TreeStart(t: Tree)
    requires TreeOk(t)
    ensures TreeText(t) != [] && !ValueEnd(TreeText(t))
  {
    if t.NumberTree? {
      NumberStart(t.n);
    }
  }

  lemma ReadLiteralComplete(t: Tree, rest: bytes)
    requires t.NullTree? || t.BoolTree?
    ensures ReadTree(TreeText(t) + rest) == Got(t, rest)
  {
    var s, p := TreeText(t) + rest, TreeText(t);
    assert StartsWith(s, p) && s[|p|..] == rest;
  }

  lemma ReadNumberTreeComplete(n: Number, rest: bytes)
    requires NumberOk(n) && NumberEnd(rest)
    ensures ReadTree(NumberText(n) + rest) == Got(NumberTree(n), rest)
  {
    var s := NumberText(n) + rest;
    assert s != [] && (s[0] == MINUS || IsDigit(s[0])) by {
      NumberStart(n);
    }
    assert ReadNumberTree(s) == Got(NumberTree(n), rest) by {
      ReadNumberComplete(n, rest);
    }
  }

  lemma ReadStringTreeComplete(tokens: seq<Token>, rest: bytes)
    requires AllLexical(tokens)
    ensures ReadTree(StringText(tokens) + rest) == Got(StringTree(tokens), rest)
  {
    var s := StringText(tokens) + rest;
    assert s[0] == QUOTE;
    assert ReadStringTree(s) == Got(StringTree(tokens), rest) by {
      ReadStringComplete(tokens, rest);
    }
  }

  /** Reading back a derivation: the recogniser finds exactly the tree the text was derived from. */
  lemma {:induction false} ReadTreeComplete(t: Tree, rest: bytes)
    requires TreeOk(t) && ValueEnd(rest)
    ensures ReadTree(TreeText(t) + rest) == Got(t, rest)
    decreases t, 1
  {
    match t
    case NullTree => ReadLiteralComplete(t, rest);
    case BoolTree(_) => ReadLiteralComplete(t, rest);
    case NumberTree(n) => ReadNumberTreeComplete(n, rest);
    case StringTree(tokens) => ReadStringTreeComplete(tokens, rest);
    case _ => ReadContainerComplete(t, rest);
  }

  lemma ReadEmptyStep(s: bytes, ws: bytes, c: byte, rest: bytes)
    requires s != [] && s[0] == c && (c == LBRACKET || c == LBRACE)
    requires LeadingWs(s[1..]) == ws && SkipWs(s[1..]) == [c + 2] + rest
    ensures ReadTree(s) == if c == LBRACKET then Got(EmptyArrayTree(ws), rest) else Got(EmptyObjectTree(ws), rest)
  {
    assert ([c + 2] + rest)[1..] == rest;
  }

  lemma ReadArrayStep(s: bytes, ws: bytes, s1: bytes, es: Elements, rest: bytes)
    requires s != [] && s[0] == LBRACKET && LeadingWs(s[1..]) == ws && SkipWs(s[1..]) == s1
    requires s1 != [] && s1[0] != RBRACKET && ReadElements(s1) == Got(es, rest)
    ensures ReadTree(s) == Got(ArrayTree(ws, es), rest)
  {
  }

  lemma ReadObjectStep(s: bytes, ws: bytes, s1: bytes, ms: Members, rest: bytes)
    requires s != [] && s[0] == LBRACE && LeadingWs(s[1..]) == ws && SkipWs(s[1..]) == s1
    requires s1 != [] && s1[0] == QUOTE && ReadMembers(s1) == Got(ms, rest)
    ensures ReadTree(s) == Got(ObjectTree(ws, ms), rest)
  {
  }

  lemma Opened(c: byte, ws: bytes, tail: bytes, rest: bytes)
    requires Ws(ws) && tail != [] && !IsWs(tail[0])
    ensures var s := ([c] + (ws + tail)) + rest;
            s[0] == c && LeadingWs(s[1..]) == ws && SkipWs(s[1..]) == tail + rest
  {
    var s := ([c] + (ws + tail)) + rest;
    assert s[1..] == ws + (tail + rest);
    WsJoin(ws, tail + rest);
  }

  lemma {:induction false} ReadContainerComplete(t: Tree, rest: bytes)
    requires TreeOk(t)
    requires t.EmptyArrayTree? || t.ArrayTree? || t.EmptyObjectTree? || t.ObjectTree?
    ensures ReadTree(TreeText(t) + rest) == Got(t, rest)
    decreases t, 0
  {
    var s := TreeText(t) + rest;
    match t
    case EmptyArrayTree(ws) =>
      Opened(LBRACKET, ws, [RBRACKET], rest);
      ReadEmptyStep(s, ws, LBRACKET, rest);
    case ArrayTree(ws, es) =>
      ElementsStart(es);
      Opened(LBRACKET, ws, ElementsText(es), rest);
      ReadElementsComplete(es, rest);
      ReadArrayStep(s, ws, ElementsText(es) + rest, es, rest);
    case EmptyObjectTree(ws) =>
      Opened(LBRACE, ws, [RBRACE], rest);
      ReadEmptyStep(s, ws, LBRACE, rest);
    case ObjectTree(ws, ms) =>
      ReadMembersComplete(ms, rest);
      MembersStart(ms);
      Opened(LBRACE, ws, MembersText(ms), rest);
      ReadObjectStep(s, ws, MembersText(ms) + rest, ms, rest);
  }

  lemma ElementsStart(es: Elements)
    requires ElementsOk(es)
    ensures ElementsText(es) != [] && !ValueEnd(ElementsText(es))
  {
    TreeStart(es.v);
  }

  lemma AfterValue(after: bytes, c: byte, tail: bytes)
    requires Ws(after) && (c == COMMA || c == RBRACKET || c == RBRACE)
    ensures ValueEnd(after + ([c] + tail))
    ensures LeadingWs(after + ([c] + tail)) == after && SkipWs(after + ([c] + tail)) == [c] + tail
    ensures ([c] + tail)[1..] == tail
  {
    WsJoin(after, [c] + tail);
  }

  lemma ReadLastStep(s: bytes, v: Tree, s0: bytes, after: bytes, rest: bytes)
    requires ReadTree(s) == Got(v, s0) && LeadingWs(s0) == after && SkipWs(s0) == [RBRACKET] + rest
    ensures ReadElements(s) == Got(LastElement(v, after), rest)
  {
    assert ([RBRACKET] + rest)[1..] == rest;
  }

  lemma ReadMoreStep(s: bytes, v: Tree, s0: bytes, after: bytes, s1: bytes, ws: bytes, s2: bytes, more: Elements,
                     rest: bytes)
    requires ReadTree(s) == Got(v, s0) && LeadingWs(s0) == after && SkipWs(s0) == [COMMA] + s1
    requires LeadingWs(s1) == ws && SkipWs(s1) == s2 && ReadElements(s2) == Got(more, rest)
    ensures ReadElements(s) == Got(MoreElements(v, after, ws, more), rest)
  {
    assert ([COMMA] + s1)[1..] == s1;
  }

  lemma MoreText(v: bytes, after: bytes, ws: bytes, more: bytes, rest: bytes)
    ensures (v + (after + ([COMMA] + (ws + more)))) + rest == v + (after + ([COMMA] + (ws + (more + rest))))
  {
    Glue(ws, more, rest);
    Glue([COMMA], ws + more, rest);
    Glue(after, [COMMA] + (ws + more), rest);
    Glue(v, after + ([COMMA] + (ws + more)), rest);
  }

  lemma {:induction false} ReadElementsComplete(es: Elements, rest: bytes)
    requires ElementsOk(es)
    ensures ReadElements(ElementsText(es) + rest) == Got(es, rest)
    decreases es, 1
  {
    var s := ElementsText(es) + rest;
    if es.LastElement? {
      var s0 := es.after + ([RBRACKET] + rest);
      AfterValue(es.after, RBRACKET, rest);
      ReadTreeComplete(es.v, s0);
      Glue(es.after, [RBRACKET], rest);
      Glue(TreeText(es.v), es.after + [RBRACKET], rest);
      ReadLastStep(s, es.v, s0, es.after, rest);
    } else {
      var s2 := ElementsText(es.rest) + rest;
      var s0 := es.after + ([COMMA] + (es.ws + s2));
      ReadElementsComplete(es.rest, rest);
      ElementsStart(es.rest);
      WsJoin(es.ws, s2);
      AfterValue(es.after, COMMA, es.ws + s2);
      ReadTreeComplete(es.v, s0);
      MoreText(TreeText(es.v), es.after, es.ws, ElementsText(es.rest), rest);
      ReadMoreStep(s, es.v, s0, es.after, es.ws + s2, es.ws, s2, es.rest, rest);
    }
  }

  lemma ReadMemberStep(s: bytes, key: seq<Token>, s0: bytes, ws1: bytes, s1: bytes, ws2: bytes, s2: bytes, v: Tree,
                       rest: bytes)
    requires ReadString(s) == Got(key, s0) && LeadingWs(s0) == ws1 && SkipWs(s0) == [COLON] + s1
    requires LeadingWs(s1) == ws2 && SkipWs(s1) == s2 && ReadTree(s2) == Got(v, rest)
    ensures ReadMember(s) == Got(Member(key, ws1, ws2, v), rest)
  {
    assert ([COLON] + s1)[1..] == s1;
  }

  lemma {:induction false} ReadMemberComplete(m: Member, rest: bytes)
    requires MemberOk(m) && ValueEnd(rest)
    ensures ReadMember(MemberText(m) + rest) == Got(m, rest)
    decreases m, 2
  {
    var s2 := TreeText(m.v) + rest;
    var s1 := m.ws2 + s2;
    var s0 := m.ws1 + ([COLON] + s1);
    TreeStart(m.v);
    ReadTreeComplete(m.v, rest);
    WsJoin(m.ws2, s2);
    WsJoin(m.ws1, [COLON] + s1);
    ReadStringComplete(m.key, s0);
    MemberGlue(StringText(m.key), m.ws1, m.ws2, TreeText(m.v), rest);
    ReadMemberStep(MemberText(m) + rest, m.key, s0, m.ws1, s1, m.ws2, s2, m.v, rest);
  }

  lemma ReadLastMemberStep(s: bytes, m: Member, s0: bytes, after: bytes, rest: bytes)
    requires ReadMember(s) == Got(m, s0) && LeadingWs(s0) == after && SkipWs(s0) == [RBRACE] + rest
    ensures ReadMembers(s) == Got(LastMember(m, after), rest)
  {
    assert ([RBRACE] + rest)[1..] == rest;
  }

  lemma ReadMoreMembersStep(s: bytes, m: Member, s0: bytes, after: bytes, s1: bytes, ws: bytes, s2: bytes,
                            more: Members, rest: bytes)
    requires ReadMember(s) == Got(m, s0) && LeadingWs(s0) == after && SkipWs(s0) == [COMMA] + s1
    requires LeadingWs(s1) == ws && SkipWs(s1) == s2 && ReadMembers(s2) == Got(more, rest)
    ensures ReadMembers(s) == Got(MoreMembers(m, after, ws, more), rest)
  {
    assert ([COMMA] + s1)[1..] == s1;
  }

  lemma MembersStart(ms: Members)
    ensures MembersText(ms) != [] && MembersText(ms)[0] == QUOTE
  {
  }

  lemma {:induction false} ReadMembersComplete(ms: Members, rest: bytes)
    requires MembersOk(ms)
    ensures ReadMembers(MembersText(ms) + rest) == Got(ms, rest)
    decreases ms, 3
  {
    var s := MembersText(ms) + rest;
    if ms.LastMember? {
      var s0 := ms.after + ([RBRACE] + rest);
      AfterValue(ms.after, RBRACE, rest);
      ReadMemberComplete(ms.m, s0);
      Glue(ms.after, [RBRACE], rest);
      Glue(MemberText(ms.m), ms.after + [RBRACE], rest);
      ReadLastMemberStep(s, ms.m, s0, ms.after, rest);
    } else {
      var s2 := MembersText(ms.rest) + rest;
      var s0 := ms.after + ([COMMA] + (ms.ws + s2));
      ReadMembersComplete(ms.rest, rest);
      MembersStart(ms.rest);
      WsJoin(ms.ws, s2);
      AfterValue(ms.after, COMMA, ms.ws + s2);
      ReadMemberComplete(ms.m, s0);
      MoreText(MemberText(ms.m), ms.after, ms.ws, MembersText(ms.rest), rest);
      ReadMoreMembersStep(s, ms.m, s0, ms.after, ms.ws + s2, ms.ws, s2, ms.rest, rest);
    }
  }

  // ----- Documents -----

  /** The derivation of a whole text, if it has one. */
  function ReadDocument(s: bytes): Option<Document> {
    var v := ReadTree(SkipWs(s));
    if v.Got? && SkipWs(v.rest) == [] then Some(Document(LeadingWs(s), v.v, v.rest)) else None
  }

  lemma AllWs(s: bytes)
    requires SkipWs(s) == []
    ensures Ws(s)
  {
    WsSplit(s);
    assert LeadingWs(s) + [] == LeadingWs(s);
  }

  lemma SkipAllWs(s: bytes)
    requires Ws(s)
    ensures SkipWs(s) == []
  {
    WsJoin(s, []);
    assert s + [] == s;
  }

  /** A tree found for a text derives exactly that text. */
  lemma ReadDocumentSound(s: bytes)
    requires ReadDocument(s).Some?
    ensures var d := ReadDocument(s).value;
            DocumentText(d) == s && Ws(d.before) && TreeOk(d.root) && Ws(d.after)
  {
    WsSplit(s);
    ReadTreeSound(SkipWs(s));
    AllWs(ReadTree(SkipWs(s)).rest);
  }

  /** A derivation is found again from its text; so no text has two. */
  lemma ReadDocumentComplete(d: Document)
    requires Ws(d.before) && TreeOk(d.root) && Ws(d.after)
    ensures ReadDocument(DocumentText(d)) == Some(d)
  {
    TreeStart(d.root);
    WsJoin(d.before, TreeText(d.root) + d.after);
    ReadTreeComplete(d.root, d.after);
    SkipAllWs(d.after);
  }

  /** The grammar is unambiguous: a text has at most one derivation. */
  lemma Unambiguous(a: Document, b: Document)
    requires DocumentOk(a) && DocumentOk(b) && DocumentText(a) == DocumentText(b)
    ensures a == b
  {
    ReadDocumentComplete(a);
    ReadDocumentComplete(b);
  }
}
