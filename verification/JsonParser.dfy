/** The one-pass parser: a cursor, a depth counter and a node counter over an input text. */
module JsonParser {
  import opened Bytes
  import opened Utf8
  import opened JsonString
  import opened JsonValue
  import opened JsonGrammar
  import opened JsonSyntax
  import opened JsonOutcome

  // ----- Facts about the decoding pass -----

  function JoinText(done: bytes, more: Option<bytes>): Option<bytes> {
    if more.Some? then Some(done + more.value) else None
  }

  predicate NoBackslash(s: bytes) { forall i :: 0 <= i < |s| ==> s[i] != BACKSLASH }

  lemma RawHasNoBackslash(cp: Scalar)
    requires cp != 92
    ensures NoBackslash(Encode(cp))
  {
  }

  lemma PrependMeaning(cp: Scalar, more: Option<seq<Scalar>>)
    ensures Prepend(cp, more).Some? <==> more.Some?
    ensures more.Some? ==> EncodeAll(Prepend(cp, more).value) == Encode(cp) + EncodeAll(more.value)
  {
    if more.Some? {
      assert ([cp] + more.value)[1..] == more.value;
    }
  }

  lemma RawMeaning(tokens: seq<Token>)
    requires tokens != [] && tokens[0].Raw?
    ensures StringMeaning(tokens) == JoinText(Encode(tokens[0].cp), StringMeaning(tokens[1..]))
  {
    PrependMeaning(tokens[0].cp, Points(tokens[1..]));
  }

  lemma ShortMeaning(tokens: seq<Token>)
    requires tokens != [] && tokens[0].Short?
    ensures var p := ShortPoint(tokens[0].letter);
            StringMeaning(tokens) == if p.None? then None else JoinText([p.value], StringMeaning(tokens[1..]))
  {
    if ShortPoint(tokens[0].letter).Some? {
      PrependMeaning(ShortPoint(tokens[0].letter).value, Points(tokens[1..]));
    }
  }

  lemma UnitMeaning(tokens: seq<Token>)
    requires tokens != [] && tokens[0].Unit?
    requires !HighSurrogate(Hex4(tokens[0].hex)) && !LowSurrogate(Hex4(tokens[0].hex))
    ensures StringMeaning(tokens) == JoinText(Encode(Hex4(tokens[0].hex)), StringMeaning(tokens[1..]))
  {
    PrependMeaning(Hex4(tokens[0].hex), Points(tokens[1..]));
  }

  predicate PairedNext(tokens: seq<Token>) {
    |tokens| >= 2 && tokens[1].Unit? && LowSurrogate(Hex4(tokens[1].hex))
  }

  lemma PairMeaning(tokens: seq<Token>)
    requires tokens != [] && tokens[0].Unit? && HighSurrogate(Hex4(tokens[0].hex)) && PairedNext(tokens)
    ensures var cp := SurrogatePair(Hex4(tokens[0].hex), Hex4(tokens[1].hex));
            StringMeaning(tokens) == JoinText(Encode(cp), StringMeaning(tokens[2..]))
  {
    PrependMeaning(SurrogatePair(Hex4(tokens[0].hex), Hex4(tokens[1].hex)), Points(tokens[2..]));
  }

  predicate AllRaw(tokens: seq<Token>) { tokens == [] || (tokens[0].Raw? && AllRaw(tokens[1..])) }

  /** A literal without a backslash means its own text: ParseString may return it undecoded. */
  lemma {:induction false} AllRawMeaning(tokens: seq<Token>)
    requires AllRaw(tokens)
    ensures StringMeaning(tokens) == Some(Text(tokens))
  {
    if tokens != [] {
      AllRawMeaning(tokens[1..]);
      RawMeaning(tokens);
    }
  }

  /** Every string the parser returns is valid UTF-8. */
  lemma MeaningIsUtf8(tokens: seq<Token>)
    requires StringMeaning(tokens).Some?
    ensures ValidUtf8(StringMeaning(tokens).value)
  {
    assert EncodeAll(Points(tokens).value) == StringMeaning(tokens).value;
  }

  lemma {:induction false} TextSnoc(tokens: seq<Token>, t: Token)
    ensures Text(tokens + [t]) == Text(tokens) + TokenText(t)
    ensures AllLexical(tokens + [t]) <==> AllLexical(tokens) && Lexical(t)
    ensures AllRaw(tokens + [t]) <==> AllRaw(tokens) && t.Raw?
  {
    if tokens == [] {
      assert tokens + [t] == [t] && [t][1..] == [];
    } else {
      assert (tokens + [t])[1..] == tokens[1..] + [t];
      TextSnoc(tokens[1..], t);
    }
  }

  function ExtendScan(done: seq<Token>, more: Option<Scanned>): Option<Scanned> {
    if more.Some? then Some(Scanned(done + more.value.tokens, more.value.rest)) else None
  }

  /** A literal between two quotes, from its scan. */
  lemma Quoted(s: bytes, tokens: seq<Token>, t: bytes)
    requires s != [] && s[0] == QUOTE && t != [] && t[0] == QUOTE
    requires Scan(s[1..]) == ExtendScan(tokens, Scan(t))
    ensures ReadString(s) == Got(tokens, t[1..])
  {
    assert tokens + [] == tokens;
  }

  lemma ScanTurn(s: bytes, done: seq<Token>)
    requires s != [] && s[0] != QUOTE
    ensures NextToken(s).None? ==> ExtendScan(done, Scan(s)) == None
    ensures NextToken(s).Some? ==>
              ExtendScan(done, Scan(s)) == ExtendScan(done + [NextToken(s).value.0], Scan(NextToken(s).value.1))
  {
    if NextToken(s).Some? {
      var (t, rest) := NextToken(s).value;
      if Scan(rest).Some? {
        assert done + ([t] + Scan(rest).value.tokens) == (done + [t]) + Scan(rest).value.tokens;
      }
    }
  }

  // ----- ParseHex4_ and the decoding pass -----

  method ParseHex4(raw: bytes, i: nat) returns (r: Option<nat>)
    ensures r == if i + 4 <= |raw| && IsHex4(raw[i..i + 4]) then Some(Hex4(raw[i..i + 4])) else None
  {
    if i + 4 > |raw| {
      return None;
    }
    var res := 0;
    for k := 0 to 4
      invariant forall j :: i <= j < i + k ==> IsHex(raw[j])
      invariant k == 0 ==> res == 0
      invariant k == 1 ==> res == HexDigit(raw[i]).value
      invariant k == 2 ==> res == HexDigit(raw[i]).value * 16 + HexDigit(raw[i + 1]).value
      invariant k == 3 ==>
                  res == HexDigit(raw[i]).value * 256 + HexDigit(raw[i + 1]).value * 16 + HexDigit(raw[i + 2]).value
      invariant k == 4 ==> IsHex4(raw[i..i + 4]) && res == Hex4(raw[i..i + 4])
    {
      var digit := HexDigit(raw[i + k]);
      if digit.None? {
        return None;
      }
      res := res * 16 + digit.value;
    }
    r := Some(res);
  }

  lemma FirstToken(todo: seq<Token>)
    requires todo != [] && AllLexical(todo)
    ensures Text(todo)[0] == BACKSLASH <==> !todo[0].Raw?
    ensures todo[0].Raw? ==> NoBackslash(Encode(todo[0].cp))
  {
    if todo[0].Raw? {
      RawHasNoBackslash(todo[0].cp);
    }
  }

  lemma ShortText(todo: seq<Token>)
    requires todo != [] && AllLexical(todo) && todo[0].Short?
    ensures Text(todo)[1] == todo[0].letter && Text(todo)[2..] == Text(todo[1..]) && |Text(todo)| >= 2
  {
  }

  lemma UnitText(todo: seq<Token>)
    requires todo != [] && AllLexical(todo) && todo[0].Unit?
    ensures |Text(todo)| >= 6 && Text(todo)[1] == LETTER_U
    ensures Text(todo)[2..6] == todo[0].hex && Text(todo)[6..] == Text(todo[1..])
  {
  }

  /** Whether a \u token stands next can be read off the raw text. */
  lemma NextUnit(todo: seq<Token>)
    requires AllLexical(todo)
    ensures (|Text(todo)| >= 6 && Text(todo)[0] == BACKSLASH && Text(todo)[1] == LETTER_U) <==>
              todo != [] && todo[0].Unit?
  {
    if todo != [] {
      FirstToken(todo);
      if todo[0].Short? {
        ShortText(todo);
      } else if todo[0].Unit? {
        UnitText(todo);
      }
    }
  }

  lemma JoinNothing(m: Option<bytes>)
    ensures JoinText([], m) == m
  {
    if m.Some? {
      assert [] + m.value == m.value;
    }
  }

  lemma JoinAssoc(a: bytes, b: bytes, m: Option<bytes>)
    ensures JoinText(a, JoinText(b, m)) == JoinText(a + b, m)
  {
    if m.Some? {
      assert a + (b + m.value) == (a + b) + m.value;
    }
  }

  /**
   * Where the decoding pass stands: what is left of the raw text is the rest of a code point being
   * copied byte by byte, followed by whole tokens of the scan.
   */
  ghost predicate Decoding(raw: bytes, i: nat, decoded: bytes, copied: bytes, todo: seq<Token>,
                           meaning: Option<bytes>)
  {
    && i <= |raw| && AllLexical(todo) && NoBackslash(copied)
    && raw[i..] == copied + Text(todo)
    && meaning == JoinText(decoded + copied, StringMeaning(todo))
  }

  lemma DecodingStarts(raw: bytes, tokens: seq<Token>)
    requires raw == Text(tokens) && AllLexical(tokens)
    ensures Decoding(raw, 0, [], [], tokens, StringMeaning(tokens))
  {
    JoinNothing(StringMeaning(tokens));
    var nothing: bytes := [];
    assert nothing + nothing == nothing;
    assert nothing + raw == raw;
  }

  lemma CopyStarts(raw: bytes, i: nat, decoded: bytes, todo: seq<Token>, meaning: Option<bytes>)
    requires Decoding(raw, i, decoded, [], todo, meaning) && i < |raw| && raw[i] != BACKSLASH
    ensures todo != [] && todo[0].Raw? && Decoding(raw, i, decoded, Encode(todo[0].cp), todo[1..], meaning)
  {
    assert raw[i..] == Text(todo);
    FirstToken(todo);
    RawMeaning(todo);
    assert decoded + [] == decoded;
    JoinAssoc(decoded, Encode(todo[0].cp), StringMeaning(todo[1..]));
  }

  lemma CopyTurn(raw: bytes, i: nat, decoded: bytes, copied: bytes, todo: seq<Token>, meaning: Option<bytes>)
    requires Decoding(raw, i, decoded, copied, todo, meaning) && copied != []
    ensures i < |raw| && Decoding(raw, i + 1, decoded + [raw[i]], copied[1..], todo, meaning)
  {
    assert raw[i] == raw[i..][0] == copied[0];
    assert raw[i + 1..] == raw[i..][1..];
    assert decoded + copied == (decoded + [raw[i]]) + copied[1..];
  }

  lemma AtEscape(raw: bytes, i: nat, decoded: bytes, copied: bytes, todo: seq<Token>, meaning: Option<bytes>)
    requires Decoding(raw, i, decoded, copied, todo, meaning) && i < |raw| && raw[i] == BACKSLASH
    ensures copied == [] && todo != [] && !todo[0].Raw? && raw[i..] == Text(todo)
    ensures meaning == JoinText(decoded, StringMeaning(todo))
  {
    assert raw[i] == raw[i..][0];
    assert (copied + Text(todo))[0] == BACKSLASH;
    FirstToken(todo);
    assert decoded + [] == decoded;
  }

  lemma AfterEscape(raw: bytes, i: nat, decoded: bytes, todo: seq<Token>, meaning: Option<bytes>)
    requires i <= |raw| && AllLexical(todo)
    requires raw[i..] == Text(todo) && meaning == JoinText(decoded, StringMeaning(todo))
    ensures Decoding(raw, i, decoded, [], todo, meaning)
  {
    assert decoded + [] == decoded;
  }

  lemma DecodingEnds(raw: bytes, decoded: bytes, copied: bytes, todo: seq<Token>, meaning: Option<bytes>)
    requires Decoding(raw, |raw|, decoded, copied, todo, meaning)
    ensures meaning == Some(decoded)
  {
    assert copied == [] && todo == [];
    assert decoded + [] == decoded;
  }

  /** The decoding pass of ParseString over the raw text between the quotes; tokens is what was scanned. */
  method Decode(raw: bytes, ghost tokens: seq<Token>) returns (r: Option<bytes>)
    requires raw == Text(tokens) && AllLexical(tokens)
    ensures r == StringMeaning(tokens)
  {
    var decoded := [];
    var i := 0;
    ghost var todo, copied := tokens, [];
    DecodingStarts(raw, tokens);
    while i < |raw|
      invariant Decoding(raw, i, decoded, copied, todo, StringMeaning(tokens))
      decreases |raw| - i
    {
      if raw[i] != BACKSLASH {
        if copied == [] {
          CopyStarts(raw, i, decoded, todo, StringMeaning(tokens));
          copied, todo := Encode(todo[0].cp), todo[1..];
        }
        CopyTurn(raw, i, decoded, copied, todo, StringMeaning(tokens));
        decoded, copied, i := decoded + [raw[i]], copied[1..], i + 1;
      } else {
        AtEscape(raw, i, decoded, copied, todo, StringMeaning(tokens));
        var stop;
        decoded, i, stop, todo := DecodeEscape(raw, i, decoded, todo);
        if stop {
          return None;
        }
        AfterEscape(raw, i, decoded, todo, StringMeaning(tokens));
      }
    }
    DecodingEnds(raw, decoded, copied, todo, StringMeaning(tokens));
    r := Some(decoded);
  }

  /** One escape of the decoding pass, starting at a backslash. */
  method DecodeEscape(raw: bytes, start: nat, before: bytes, ghost todo: seq<Token>)
    returns (decoded: bytes, i: nat, stop: bool, ghost rest: seq<Token>)
    requires start < |raw| && raw[start..] == Text(todo) && AllLexical(todo) && todo != [] && !todo[0].Raw?
    ensures stop ==> StringMeaning(todo) == None
    ensures !stop ==> start < i <= |raw| && AllLexical(rest) && raw[i..] == Text(rest)
    ensures !stop ==> JoinText(before, StringMeaning(todo)) == JoinText(decoded, StringMeaning(rest))
  {
    decoded, i, rest, stop := before, start + 1, todo[1..], false;
    if todo[0].Short? {
      ShortText(todo);
      ShortMeaning(todo);
    } else {
      UnitText(todo);
    }
    assert raw[i] == Text(todo)[1];
    var esc := raw[i];
    i := i + 1;
    if esc == LETTER_U {
      assert raw[i..i + 4] == raw[start..][2..6];
      assert raw[i + 4..] == raw[start..][6..];
      decoded, i, stop, rest := DecodeUnit(raw, i, before, todo);
    } else {
      assert raw[i..] == raw[start..][2..];
      if ShortPoint(esc).None? {
        return before, i, true, [];
      }
      decoded := decoded + [ShortPoint(esc).value];
      JoinAssoc(before, [ShortPoint(esc).value], StringMeaning(rest));
    }
  }

  /** The low half of a surrogate pair, if it is next in the raw text. */
  method LowHalf(raw: bytes, i: nat, ghost todo: seq<Token>) returns (low: Option<nat>)
    requires i <= |raw| && raw[i..] == Text(todo) && AllLexical(todo)
    ensures low.Some? <==> todo != [] && todo[0].Unit? && LowSurrogate(Hex4(todo[0].hex))
    ensures low.Some? ==> low.value == Hex4(todo[0].hex) && i + 6 <= |raw| && raw[i + 6..] == Text(todo[1..])
  {
    NextUnit(todo);
    if i + 6 > |raw| || raw[i] != BACKSLASH || raw[i + 1] != LETTER_U {
      return None;
    }
    assert Text(todo)[0] == raw[i] && Text(todo)[1] == raw[i + 1];
    UnitText(todo);
    assert raw[i + 2..i + 6] == raw[i..][2..6] && raw[i + 6..] == raw[i..][6..];
    low := ParseHex4(raw, i + 2);
    if low.None? || low.value < 0xDC00 || low.value > 0xDFFF {
      return None;
    }
  }

  /** A \u escape whose digits start at start, with the low half of a surrogate pair if it has one. */
  method DecodeUnit(raw: bytes, start: nat, before: bytes, ghost todo: seq<Token>)
    returns (decoded: bytes, i: nat, stop: bool, ghost rest: seq<Token>)
    requires todo != [] && AllLexical(todo) && todo[0].Unit?
    requires start + 4 <= |raw| && raw[start..start + 4] == todo[0].hex && raw[start + 4..] == Text(todo[1..])
    ensures stop ==> StringMeaning(todo) == None
    ensures !stop ==> start < i <= |raw| && AllLexical(rest) && raw[i..] == Text(rest)
    ensures !stop ==> JoinText(before, StringMeaning(todo)) == JoinText(decoded, StringMeaning(rest))
  {
    decoded, i, rest, stop := before, start, todo[1..], false;
    var cpOpt := ParseHex4(raw, i);
    if cpOpt.None? {
      return before, i, true, [];
    }
    var cp := cpOpt.value;
    i := i + 4;
    if 0xD800 <= cp <= 0xDBFF {
      var low := LowHalf(raw, i, rest);
      if low.None? {
        return before, i, true, [];
      }
      PairMeaning(todo);
      assert rest[1..] == todo[2..];
      cp := 0x10000 + (cp - 0xD800) * 1024 + (low.value - 0xDC00);
      i, rest := i + 6, todo[2..];
    } else if 0xDC00 <= cp <= 0xDFFF {
      return before, i, true, [];
    } else {
      UnitMeaning(todo);
    }
    assert IsScalar(cp) && StringMeaning(todo) == JoinText(Encode(cp), StringMeaning(rest));
    decoded := decoded + Encode(cp);
    JoinAssoc(before, Encode(cp), StringMeaning(rest));
  }

  /** What ParseString makes of the raw text: it is decoded only if the scan has met a backslash. */
  method Content(raw: bytes, needsDecode: bool, ghost tokens: seq<Token>) returns (r: Option<bytes>)
    requires raw == Text(tokens) && AllLexical(tokens) && (needsDecode || AllRaw(tokens))
    ensures r == StringMeaning(tokens) && (r.Some? ==> ValidUtf8(r.value))
  {
    if needsDecode {
      r := Decode(raw, tokens);
    } else {
      AllRawMeaning(tokens);
      r := Some(raw);
    }
    if r.Some? {
      MeaningIsUtf8(tokens);
    }
  }

  /** The conversions that end ParseNumber; from_chars is modelled by its result, a value or a range error. */
  function Convert(numStr: bytes, digits: bytes, isFloat: bool, floatOk: bytes -> bool): Option<Value> {
    if isFloat then
      if floatOk(numStr) then Some(Double(numStr)) else None
    else if numStr != [] && numStr[0] == MINUS then
      if Decimal(digits) <= INT64_MAX + 1 then Some(Signed(0 - Decimal(digits) as int)) else None
    else if Decimal(digits) <= 0xFFFF_FFFF_FFFF_FFFF then Some(Unsigned(Decimal(digits)))
    else None
  }

  lemma ConvertIsMeaning(n: Number, floatOk: bytes -> bool)
    requires NumberOk(n)
    ensures Convert(NumberText(n), n.digits, n.frac.Some? || n.exp.Some?, floatOk) == NumberMeaning(n, floatOk)
  {
    NumberStart(n);
  }

  // ----- ParserState -----

  /** What a parsing method returned, against the outcome it must have. */
  ghost predicate Returned<T>(r: Option<T>, rest: bytes, nodes: nat, o: Outcome<T>) {
    if o.Reject? then r == None else r == Some(o.v) && rest == o.rest && nodes == o.nodes
  }

  class ParserState {
    const input: bytes
    const floatOk: bytes -> bool
    var depth: nat
    var nodes: nat
    var pos: nat

    constructor (input: bytes, floatOk: bytes -> bool)
      ensures this.input == input && this.floatOk == floatOk
      ensures depth == 0 && nodes == 0 && pos == 0
    {
      this.input, this.floatOk := input, floatOk;
      depth, nodes, pos := 0, 0, 0;
    }

    ghost predicate Valid() reads this { pos <= |input| && depth <= MAX_DEPTH && nodes <= MAX_NODES }

    /** The text from the cursor on. */
    function Rest(): (r: bytes)
      requires pos <= |input|
      reads this
    {
      input[pos..]
    }

    predicate AtEnd() reads this { pos >= |input| }

    function Peek(): byte
      reads this
    {
      if AtEnd() then 0 else input[pos]
    }

    method Expect(c: byte) returns (ok: bool)
      requires pos <= |input|
      modifies this`pos
      ensures old(pos) <= pos <= |input|
      ensures ok <==> old(Rest()) != [] && old(Rest())[0] == c
      ensures Rest() == if ok then old(Rest())[1..] else old(Rest())
      ensures pos == old(pos) + if ok then 1 else 0
    {
      if AtEnd() || input[pos] != c {
        return false;
      }
      pos := pos + 1;
      ok := true;
    }

    method SkipWhitespace()
      requires pos <= |input|
      modifies this`pos
      ensures old(pos) <= pos <= |input| && Rest() == SkipWs(old(Rest()))
    {
      while pos < |input|
        invariant old(pos) <= pos <= |input|
        invariant SkipWs(Rest()) == SkipWs(old(Rest()))
      {
        var c := input[pos];
        if c == 32 || c == 9 || c == 10 || c == 13 {
          assert Rest()[1..] == input[pos + 1..];
          pos := pos + 1;
        } else {
          break;
        }
      }
    }

    /** The four digits after \u, in the scanning loop. */
    method ScanHex() returns (ok: bool)
      requires pos <= |input|
      modifies this`pos
      ensures ok <==> old(pos) + 4 <= |input| && IsHex4(input[old(pos)..old(pos) + 4])
      ensures pos == if ok then old(pos) + 4 else old(pos)
    {
      if pos + 4 > |input| {
        return false;
      }
      for i := 0 to 4
        invariant forall j :: pos <= j < pos + i ==> IsHex(input[j])
      {
        if HexDigit(input[pos + i]).None? {
          assert input[pos..pos + 4][i] == input[pos + i];
          return false;
        }
      }
      pos := pos + 4;
      ok := true;
    }

    /** One turn of the scanning loop of ParseString, at a byte that is not a quote. */
    method ScanChar() returns (ok: bool, escaped: bool)
      requires pos < |input| && input[pos] != QUOTE
      modifies this`pos
      ensures old(pos) <= pos <= |input|
      ensures ok <==> NextToken(old(Rest())).Some?
      ensures ok ==> Rest() == NextToken(old(Rest())).value.1 && pos > old(pos)
      ensures ok ==> (escaped <==> !NextToken(old(Rest())).value.0.Raw?)
    {
      ghost var s := Rest();
      var c := input[pos];
      if c == BACKSLASH {
        pos := pos + 1;
        if AtEnd() {
          return false, true;
        }
        var esc := input[pos];
        assert esc == s[1] && input[pos + 1..] == s[2..];
        pos := pos + 1;
        ok := true;
        if esc == LETTER_U {
          assert pos + 4 <= |input| ==> input[pos..pos + 4] == s[2..6] && input[pos + 4..] == s[6..];
          ok := ScanHex();
        }
        return ok, true;
      }
      if c < 0x20 {
        return false, false;
      }
      if c >= 128 {
        LengthOfSuffix(input, pos);
        var length := Utf8Length(input, pos);
        if length == 0 {
          return false, false;
        }
        assert input[pos + length..] == s[length..];
        pos := pos + length;
      } else {
        assert input[pos + 1..] == s[1..];
        pos := pos + 1;
      }
      return true, false;
    }

    /** The scanning loop of ParseString: up to the closing quote or the end of the text. */
    method ScanLiteral() returns (ok: bool, needsDecode: bool, ghost tokens: seq<Token>)
      requires pos <= |input|
      modifies this`pos
      ensures old(pos) <= pos <= |input|
      ensures !ok ==> Scan(old(Rest())) == None
      ensures ok ==> (Rest() == [] || Rest()[0] == QUOTE)
      ensures ok ==> Scan(old(Rest())) == ExtendScan(tokens, Scan(Rest()))
      ensures AllLexical(tokens) && (ok ==> Text(tokens) == input[old(pos)..pos])
      ensures !needsDecode ==> AllRaw(tokens)
    {
      var start := pos;
      ghost var s := Rest();
      needsDecode, tokens := false, [];
      NothingScanned(s);
      while !AtEnd() && input[pos] != QUOTE
        invariant start <= pos <= |input|
        invariant AllLexical(tokens) && Text(tokens) == input[start..pos]
        invariant Scan(s) == ExtendScan(tokens, Scan(Rest()))
        invariant !needsDecode ==> AllRaw(tokens)
        decreases |input| - pos
      {
        ghost var here := Rest();
        ghost var from := pos;
        ScanTurn(here, tokens);
        var escaped;
        ok, escaped := ScanChar();
        if !ok {
          return;
        }
        needsDecode := needsDecode || escaped;
        ghost var token := NextToken(here).value.0;
        TextSnoc(tokens, token);
        TextSlice(input, start, from, pos, TokenText(token));
        tokens := tokens + [token];
      }
      ok := true;
    }

    /** The quotes of a literal and the text between them. */
    method ReadLiteral() returns (ok: bool, raw: bytes, needsDecode: bool, ghost tokens: seq<Token>)
      requires pos <= |input|
      modifies this`pos
      ensures old(pos) <= pos <= |input|
      ensures if ok then ReadString(old(Rest())) == Got(tokens, Rest()) && pos > old(pos)
              else ReadString(old(Rest())).Fail?
      ensures ok ==> raw == Text(tokens) && AllLexical(tokens) && (needsDecode || AllRaw(tokens))
    {
      ghost var s := Rest();
      raw, needsDecode, tokens := [], false, [];
      ok := Expect(QUOTE);
      if !ok {
        return;
      }
      var start := pos;
      ok, needsDecode, tokens := ScanLiteral();
      if !ok {
        return;
      }
      ghost var t := Rest();
      raw := input[start..pos];
      ok := Expect(QUOTE);
      if ok {
        Quoted(s, tokens, t);
      } else {
        assert Scan(t) == None;
      }
    }

    method ParseString() returns (r: Option<bytes>)
      requires pos <= |input|
      modifies this`pos
      ensures old(pos) <= pos <= |input|
      ensures r == if ReadString(old(Rest())).Got? then StringMeaning(ReadString(old(Rest())).v) else None
      ensures r.Some? ==> Rest() == ReadString(old(Rest())).rest && ValidUtf8(r.value) && pos > old(pos)
    {
      var ok, raw, needsDecode;
      ghost var tokens;
      ok, raw, needsDecode, tokens := ReadLiteral();
      if !ok {
        return None;
      }
      r := Content(raw, needsDecode, tokens);
    }

    /** The digit loop that ParseNumber runs three times. */
    method SkipDigitRun()
      requires pos <= |input|
      modifies this`pos
      ensures old(pos) <= pos <= |input| && Rest() == SkipDigits(old(Rest()))
      ensures input[old(pos)..pos] == LeadingDigits(old(Rest()))
    {
      var start := pos;
      ghost var s := Rest();
      DigitsSplit(s);
      while !AtEnd() && IsDigit(input[pos])
        invariant start <= pos <= |input|
        invariant SkipDigits(Rest()) == SkipDigits(s)
        decreases |input| - pos
      {
        assert Rest()[1..] == input[pos + 1..];
        pos := pos + 1;
      }
      PrefixOf(input, start, pos, LeadingDigits(s));
    }

    method ParseInteger() returns (ok: bool)
      requires pos <= |input|
      modifies this`pos
      ensures old(pos) <= pos <= |input|
      ensures ok <==> ReadInteger(old(Rest())).Got?
      ensures ok ==> Rest() == ReadInteger(old(Rest())).rest && input[old(pos)..pos] == ReadInteger(old(Rest())).v
    {
      ghost var s := Rest();
      if !IsDigit(Peek()) {
        return false;
      }
      if Peek() == ZERO {
        pos := pos + 1;
        assert Rest() == s[1..];
        if !AtEnd() && IsDigit(Peek()) {
          assert s[1] == Peek();
          return false;
        }
      } else {
        SkipDigitRun();
      }
      ok := true;
    }

    method ParseFraction() returns (ok: bool, isFloat: bool)
      requires pos <= |input|
      modifies this`pos
      ensures old(pos) <= pos <= |input|
      ensures ok <==> ReadFraction(old(Rest())).Got?
      ensures ok ==> Rest() == ReadFraction(old(Rest())).rest && (isFloat <==> ReadFraction(old(Rest())).v.Some?)
    {
      ghost var s := Rest();
      if !AtEnd() && input[pos] == POINT {
        pos := pos + 1;
        assert Rest() == s[1..];
        if AtEnd() || !IsDigit(input[pos]) {
          return false, true;
        }
        SkipDigitRun();
        return true, true;
      }
      return true, false;
    }

    method ParseExponent() returns (ok: bool, isFloat: bool)
      requires pos <= |input|
      modifies this`pos
      ensures old(pos) <= pos <= |input|
      ensures ok <==> ReadExponent(old(Rest())).Got?
      ensures ok ==> Rest() == ReadExponent(old(Rest())).rest && (isFloat <==> ReadExponent(old(Rest())).v.Some?)
    {
      ghost var s := Rest();
      if !AtEnd() && (input[pos] == 101 || input[pos] == 69) {
        pos := pos + 1;
        ghost var t := Rest();
        assert t == s[1..];
        if !AtEnd() && (input[pos] == PLUS || input[pos] == MINUS) {
          pos := pos + 1;
        }
        assert Rest() == t[|SignOf(t)|..];
        if AtEnd() || !IsDigit(input[pos]) {
          return false, true;
        }
        SkipDigitRun();
        return true, true;
      }
      return true, false;
    }

    method ParseNumber() returns (r: Option<Value>)
      requires pos <= |input|
      modifies this`pos
      ensures old(pos) <= pos <= |input|
      ensures r == if ReadNumber(old(Rest())).Got? then NumberMeaning(ReadNumber(old(Rest())).v, floatOk) else None
      ensures r.Some? ==> Rest() == ReadNumber(old(Rest())).rest && pos > old(pos)
    {
      var start := pos;
      ghost var s := Rest();
      if Peek() == MINUS {
        pos := pos + 1;
        assert Rest() == s[1..];
      }
      var digitsStart := pos;
      var ok := ParseInteger();
      if !ok {
        return None;
      }
      var digitsEnd := pos;
      var fraction, exponent;
      ok, fraction := ParseFraction();
      if !ok {
        return None;
      }
      ok, exponent := ParseExponent();
      if !ok {
        return None;
      }
      ReadNumberSound(s);
      var numStr := input[start..pos];
      PrefixOf(input, start, pos, NumberText(ReadNumber(s).v));
      ConvertIsMeaning(ReadNumber(s).v, floatOk);
      r := Convert(numStr, input[digitsStart..digitsEnd], fraction || exponent, floatOk);
    }

    method ParseValue() returns (r: Option<Value>)
      requires Valid()
      modifies this`pos, this`depth, this`nodes
      ensures Valid() && depth == old(depth) && old(pos) <= pos
      ensures Returned(r, Rest(), nodes, ValueOutcome(old(Rest()), old(depth), old(nodes), floatOk))
      ensures r.Some? ==> pos > old(pos)
      decreases |input| - pos, 2
    {
      ghost var d, n, s := depth, nodes, Rest();
      TreeAtLeastOne(s);
      if depth >= MAX_DEPTH {
        return None;
      }
      if nodes + 1 > MAX_NODES {
        return None;
      }
      nodes := nodes + 1;
      depth := depth + 1;
      SkipWhitespace();
      var c := Peek();
      if c == LBRACKET {
        r := ParseArray();
      } else if c == LBRACE {
        r := ParseObject();
      } else {
        r := ParseScalar();
      }
      depth := depth - 1;
    }

    /** The cases of ParseValue that do not nest. */
    method ParseScalar() returns (r: Option<Value>)
      requires Valid() && depth >= 1 && nodes >= 1
      requires Rest() == [] || (!IsWs(Rest()[0]) && Rest()[0] != LBRACKET && Rest()[0] != LBRACE)
      modifies this`pos
      ensures Valid() && old(pos) <= pos
      ensures Returned(r, Rest(), nodes, ValueOutcome(old(Rest()), depth - 1, nodes - 1, floatOk))
      ensures r.Some? ==> pos > old(pos)
    {
      ghost var s := Rest();
      SkipWsTwice(s);
      var c := Peek();
      if c == 110 {
        r := ParseWord(NULL_TEXT, Null);
      } else if c == 116 {
        r := ParseWord(TRUE_TEXT, Bool(true));
      } else if c == 102 {
        r := ParseWord(FALSE_TEXT, Bool(false));
      } else if c == QUOTE {
        var text := ParseString();
        r := if text.Some? then Some(String(text.value)) else None;
      } else if c == MINUS || IsDigit(c) {
        r := ParseNumber();
      } else {
        r := None;
      }
    }

    method ParseWord(word: bytes, v: Value) returns (r: Option<Value>)
      requires pos <= |input| && word != []
      modifies this`pos
      ensures old(pos) <= pos <= |input|
      ensures r == if StartsWith(old(Rest()), word) then Some(v) else None
      ensures r.Some? ==> Rest() == old(Rest())[|word|..] && pos > old(pos)
    {
      if pos + |word| <= |input| && input[pos..pos + |word|] == word {
        assert Rest()[..|word|] == word;
        assert Rest()[|word|..] == input[pos + |word|..];
        pos := pos + |word|;
        return Some(v);
      }
      assert pos + |word| <= |input| ==> Rest()[..|word|] == input[pos..pos + |word|];
      r := None;
    }

    method ParseArray() returns (r: Option<Value>)
      requires Valid() && depth >= 1 && nodes >= 1 && Rest() != [] && Rest()[0] == LBRACKET
      modifies this`pos, this`depth, this`nodes
      ensures Valid() && depth == old(depth) && old(pos) <= pos
      ensures Returned(r, Rest(), nodes, ValueOutcome(old(Rest()), old(depth) - 1, old(nodes) - 1, floatOk))
      ensures r.Some? ==> pos > old(pos)
      decreases |input| - pos, 1
    {
      ArrayUnfold(Rest(), depth - 1, nodes - 1, floatOk);
      var bracket := Expect(LBRACKET);
      SkipWhitespace();
      if Peek() == RBRACKET {
        assert Rest()[1..] == input[pos + 1..];
        pos := pos + 1;
        return Some(Array([]));
      }
      var arr := ParseElements();
      r := if arr.Some? then Some(Array(arr.value)) else None;
    }

    /** The loop of ParseArray, up to and including the closing bracket. */
    method ParseElements() returns (r: Option<seq<Value>>)
      requires Valid() && (Rest() == [] || !IsWs(Rest()[0]))
      modifies this`pos, this`depth, this`nodes
      ensures Valid() && depth == old(depth) && old(pos) <= pos
      ensures Returned(r, Rest(), nodes, ElementsOutcome(old(Rest()), old(depth), old(nodes), floatOk))
      decreases |input| - pos, 3
    {
      ghost var goal := ElementsOutcome(Rest(), depth, nodes, floatOk);
      var arr: seq<Value> := [];
      NothingAppended(goal);
      while true
        invariant Valid() && depth == old(depth) && old(pos) <= pos
        invariant Rest() == [] || !IsWs(Rest()[0])
        invariant goal == AppendTo(arr, ElementsOutcome(Rest(), depth, nodes, floatOk))
        decreases |input| - pos
      {
        ElementsUnfold(Rest(), depth, nodes, floatOk);
        var val := ParseValue();
        if val.None? {
          return None;
        }
        var separator := ParseSeparator(RBRACKET);
        if separator == Closing {
          return Some(arr + [val.value]);
        }
        NoElementAtBracket(Rest(), depth, nodes, floatOk);
        if separator == Neither {
          return None;
        }
        AppendAssoc(arr, val.value, ElementsOutcome(Rest(), depth, nodes, floatOk));
        arr := arr + [val.value];
      }
    }

    /** What follows an element: the closing bracket, a comma before another element, or neither. */
    method ParseSeparator(close: byte) returns (r: Separator)
      requires pos <= |input| && close != 0 && close != COMMA && !IsWs(close)
      modifies this`pos
      ensures old(pos) <= pos <= |input|
      ensures SeparatorIs(r, SkipWs(old(Rest())), close, Rest())
      ensures r != Neither ==> pos > old(pos)
    {
      SkipWhitespace();
      var c := Peek();
      if c == close {
        assert Rest()[1..] == input[pos + 1..];
        pos := pos + 1;
        return Closing;
      }
      if c != COMMA {
        return Neither;
      }
      assert Rest()[1..] == input[pos + 1..];
      pos := pos + 1;
      SkipWhitespace();
      r := if Peek() == close then Neither else Comma;
    }

    method ParseObject() returns (r: Option<Value>)
      requires Valid() && depth >= 1 && nodes >= 1 && Rest() != [] && Rest()[0] == LBRACE
      modifies this`pos, this`depth, this`nodes
      ensures Valid() && depth == old(depth) && old(pos) <= pos
      ensures Returned(r, Rest(), nodes, ValueOutcome(old(Rest()), old(depth) - 1, old(nodes) - 1, floatOk))
      ensures r.Some? ==> pos > old(pos)
      decreases |input| - pos, 1
    {
      ObjectUnfold(Rest(), depth - 1, nodes - 1, floatOk);
      var brace := Expect(LBRACE);
      SkipWhitespace();
      if Peek() == RBRACE {
        assert Rest()[1..] == input[pos + 1..];
        pos := pos + 1;
        return Some(Object([]));
      }
      var obj := ParseMembers();
      r := if obj.Some? then Some(Object(obj.value)) else None;
    }

    /** The loop of ParseObject, up to and including the closing brace. */
    method ParseMembers() returns (r: Option<seq<Field>>)
      requires Valid() && (Rest() == [] || !IsWs(Rest()[0]))
      modifies this`pos, this`depth, this`nodes
      ensures Valid() && depth == old(depth) && old(pos) <= pos
      ensures Returned(r, Rest(), nodes, MembersOutcome(old(Rest()), old(depth), old(nodes), {}, floatOk))
      decreases |input| - pos, 4
    {
      ghost var goal := MembersOutcome(Rest(), depth, nodes, {}, floatOk);
      var obj: seq<Field> := [];
      var keys: set<bytes> := {};
      NothingAppended(goal);
      while true
        invariant Valid() && depth == old(depth) && old(pos) <= pos
        invariant Rest() == [] || !IsWs(Rest()[0])
        invariant goal == AppendTo(obj, MembersOutcome(Rest(), depth, nodes, keys, floatOk))
        decreases |input| - pos
      {
        MembersUnfold(Rest(), depth, nodes, keys, floatOk);
        SkipWsTwice(Rest());
        SkipWhitespace();
        var member := ParseMember(keys);
        if member.None? {
          return None;
        }
        keys := keys + {member.value.key};
        var separator := ParseSeparator(RBRACE);
        if separator == Closing {
          return Some(obj + [member.value]);
        }
        if separator == Neither {
          NoMemberAtBrace(Rest(), depth, nodes, keys, floatOk);
          return None;
        }
        AppendAssoc(obj, member.value, MembersOutcome(Rest(), depth, nodes, keys, floatOk));
        obj := obj + [member.value];
      }
    }

    /** A key that is not among the keys seen so far, and a colon. */
    method ParseKey(keys: set<bytes>) returns (r: Option<bytes>)
      requires Valid()
      modifies this`pos
      ensures Valid() && old(pos) <= pos && depth == old(depth) && nodes == old(nodes)
      ensures r == var key := KeyOutcome(old(Rest()), keys); if key.Got? then Some(key.v) else None
      ensures r.Some? ==> Rest() == KeyOutcome(old(Rest()), keys).rest && pos > old(pos)
    {
      r := ParseString();
      if r.None? || |keys| >= MAX_KEYS || r.value in keys {
        return None;
      }
      SkipWhitespace();
      var colon := Expect(COLON);
      if !colon {
        r := None;
      }
    }

    /** A key, a colon and a value. */
    method ParseMember(keys: set<bytes>) returns (r: Option<Field>)
      requires Valid()
      modifies this`pos, this`depth, this`nodes
      ensures Valid() && depth == old(depth) && old(pos) <= pos
      ensures Returned(r, Rest(), nodes, MemberOutcome(old(Rest()), old(depth), old(nodes), keys, floatOk))
      ensures r.Some? ==> pos > old(pos)
      decreases |input| - pos, 3
    {
      var key := ParseKey(keys);
      if key.None? {
        return None;
      }
      ghost var s1 := Rest();
      SkipWhitespace();
      ValueAfterWs(s1, depth, nodes, floatOk);
      var val := ParseValue();
      if val.None? {
        return None;
      }
      r := Some(Field(key.value, val.value));
    }
  }

  lemma TextSlice(input: bytes, start: nat, from: nat, to: nat, piece: bytes)
    requires start <= from <= to <= |input| && input[from..] == piece + input[to..]
    ensures input[start..to] == input[start..from] + piece
  {
    assert input[from..to] == piece;
  }

  lemma PrefixOf(input: bytes, start: nat, to: nat, p: bytes)
    requires start <= to <= |input| && input[start..] == p + input[to..]
    ensures input[start..to] == p
  {
    TextSlice(input, start, start, to, p);
    assert input[start..start] == [];
  }

  lemma NothingAppended<T>(o: Outcome<seq<T>>)
    ensures o == AppendTo([], o)
  {
    if o.Accept? {
      assert [] + o.v == o.v;
    }
  }

  lemma AppendAssoc<T>(vs: seq<T>, v: T, more: Outcome<seq<T>>)
    ensures AppendTo(vs, PrependTo(v, more)) == AppendTo(vs + [v], more)
  {
    if more.Accept? {
      assert vs + ([v] + more.v) == (vs + [v]) + more.v;
    }
  }

  datatype Separator = Closing | Comma | Neither

  /** s is the text after an element, its ws skipped; rest is the text after the separator. */
  ghost predicate SeparatorIs(r: Separator, s: bytes, close: byte, rest: bytes) {
    match r
    case Closing => s != [] && s[0] == close && rest == s[1..]
    case Comma => s != [] && s[0] == COMMA && rest == SkipWs(s[1..])
    case Neither =>
      s == [] || (s[0] != close && s[0] != COMMA) ||
      (s[0] == COMMA && rest == SkipWs(s[1..]) && rest != [] && rest[0] == close)
  }

  /** A comma before the closing bracket is an error: no value starts with a bracket that closes. */
  lemma NoElementAtBracket(s: bytes, d: nat, n: nat, floatOk: bytes -> bool)
    ensures s != [] && s[0] == RBRACKET ==> ElementsOutcome(s, d, n, floatOk) == Reject
  {
    if s != [] && s[0] == RBRACKET {
      assert ReadTree(s).Fail?;
    }
  }

  lemma NoMemberAtBrace(s: bytes, d: nat, n: nat, keys: set<bytes>, floatOk: bytes -> bool)
    ensures s != [] && s[0] == RBRACE ==> MembersOutcome(s, d, n, keys, floatOk) == Reject
  {
    if s != [] && s[0] == RBRACE {
      assert ReadMember(s).Fail?;
    }
  }

  lemma TreeAtLeastOne(s: bytes)
    ensures ReadTree(SkipWs(s)).Got? ==> Height(ReadTree(SkipWs(s)).v) >= 1 && Nodes(ReadTree(SkipWs(s)).v) >= 1
  {
  }

  lemma ValueAfterWs(s: bytes, d: nat, n: nat, floatOk: bytes -> bool)
    ensures ValueOutcome(SkipWs(s), d, n, floatOk) == ValueOutcome(s, d, n, floatOk)
  {
    SkipWsTwice(SkipWs(s));
  }

  lemma ArrayUnfold(s: bytes, d: nat, n: nat, floatOk: bytes -> bool)
    requires s != [] && s[0] == LBRACKET
    ensures var s1 := SkipWs(s[1..]);
            ValueOutcome(s, d, n, floatOk) ==
            if s1 != [] && s1[0] == RBRACKET then
              if d + 1 <= MAX_DEPTH && n + 1 <= MAX_NODES then Accept(Array([]), s1[1..], n + 1) else Reject
            else
              var es := ElementsOutcome(s1, d + 1, n + 1, floatOk);
              if es.Accept? then Accept(Array(es.v), es.rest, es.nodes) else Reject
  {
    SkipWsTwice(s);
  }

  lemma ObjectUnfold(s: bytes, d: nat, n: nat, floatOk: bytes -> bool)
    requires s != [] && s[0] == LBRACE
    ensures var s1 := SkipWs(s[1..]);
            ValueOutcome(s, d, n, floatOk) ==
            if s1 != [] && s1[0] == RBRACE then
              if d + 1 <= MAX_DEPTH && n + 1 <= MAX_NODES then Accept(Object([]), s1[1..], n + 1) else Reject
            else
              var ms := MembersOutcome(s1, d + 1, n + 1, {}, floatOk);
              if ms.Accept? then Accept(Object(ms.v), ms.rest, ms.nodes) else Reject
  {
    SkipWsTwice(s);
    var ms := ReadMembers(SkipWs(s[1..]));
    if ms.Got? && MembersMeaning(ms.v, floatOk).Some? {
      FreshIffDistinct(MembersMeaning(ms.v, floatOk).value, {});
    }
  }

  lemma NothingScanned(s: bytes)
    ensures Scan(s) == ExtendScan([], Scan(s))
  {
    if Scan(s).Some? {
      assert [] + Scan(s).value.tokens == Scan(s).value.tokens;
    }
  }

  /** Parse: one value and nothing but ws around it, in a text of at most 8 MiB. */
  method Parse(input: bytes, floatOk: bytes -> bool) returns (r: Option<Value>)
    ensures r == ParseOutcome(input, floatOk)
  {
    if |input| > MAX_TEXT {
      return None;
    }
    var state := new ParserState(input, floatOk);
    assert state.Rest() == input;
    ParseFromValue(input, floatOk);
    var root := state.ParseValue();
    if root.None? {
      return None;
    }
    state.SkipWhitespace();
    if !state.AtEnd() {
      return None;
    }
    r := root;
  }
}
