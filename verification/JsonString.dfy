/**
 * JSON string literals (RFC 8259 section 7) as sequences of tokens: the text of a literal, the code
 * points it denotes, the scanner that splits a text into tokens, and the tokens the printer writes.
 */
module JsonString {
  import opened Bytes
  import opened Utf8

  const QUOTE: byte := 34
  const BACKSLASH: byte := 92
  const LETTER_U: byte := 117

  /** One char of the grammar: an unescaped code point, a two-character escape, or \u with four digits. */
  datatype Token = Raw(cp: Scalar) | Short(letter: byte) | Unit(hex: bytes)

  function TokenText(t: Token): (r: bytes)
    ensures |r| > 0
  {
    match t
    case Raw(cp) => Encode(cp)
    case Short(letter) => [BACKSLASH, letter]
    case Unit(hex) => [BACKSLASH, LETTER_U] + hex
  }

  function Text(tokens: seq<Token>): bytes {
    if tokens == [] then [] else TokenText(tokens[0]) + Text(tokens[1..])
  }

  /** HexDigit_ of the parser. */
  function HexDigit(c: byte): Option<nat> {
    if 48 <= c <= 57 then Some(c as int - 48)
    else if 97 <= c <= 102 then Some(c as int - 87)
    else if 65 <= c <= 70 then Some(c as int - 55)
    else None
  }

  predicate IsHex(c: byte) { HexDigit(c).Some? }

  predicate IsHex4(h: bytes) { |h| == 4 && IsHex(h[0]) && IsHex(h[1]) && IsHex(h[2]) && IsHex(h[3]) }

  /** The value of four digits, most significant first (0 for anything else). */
  function Hex4(h: bytes): (v: nat)
    ensures v < 0x10000
  {
    if IsHex4(h) then
      HexDigit(h[0]).value * 4096 + HexDigit(h[1]).value * 256 + HexDigit(h[2]).value * 16 + HexDigit(h[3]).value
    else 0
  }

  /** The code point of a two-character escape; None when the letter is not one of the eight allowed. */
  function ShortPoint(letter: byte): Option<Scalar> {
    if letter == QUOTE || letter == BACKSLASH || letter == 47 then Some(letter)
    else if letter == 98 then Some(8)
    else if letter == 102 then Some(12)
    else if letter == 110 then Some(10)
    else if letter == 114 then Some(13)
    else if letter == 116 then Some(9)
    else None
  }

  /** What the scanning pass accepts: any escape letter, but well-formed code points and hex digits. */
  predicate Lexical(t: Token) {
    match t
    case Raw(cp) => cp >= 0x20 && cp != 34 && cp != 92
    case Short(letter) => letter != LETTER_U
    case Unit(hex) => IsHex4(hex)
  }

  /** A char of the RFC 8259 grammar. */
  predicate Grammatical(t: Token) { Lexical(t) && (t.Short? ==> ShortPoint(t.letter).Some?) }

  predicate AllLexical(tokens: seq<Token>) {
    tokens == [] || (Lexical(tokens[0]) && AllLexical(tokens[1..]))
  }

  predicate AllGrammatical(tokens: seq<Token>) {
    tokens == [] || (Grammatical(tokens[0]) && AllGrammatical(tokens[1..]))
  }

  predicate HighSurrogate(v: nat) { 0xD800 <= v <= 0xDBFF }

  predicate LowSurrogate(v: nat) { 0xDC00 <= v <= 0xDFFF }

  function Prepend(cp: Scalar, rest: Option<seq<Scalar>>): Option<seq<Scalar>> {
    if rest.Some? then Some([cp] + rest.value) else None
  }

  function SurrogatePair(high: nat, low: nat): Scalar
    requires HighSurrogate(high) && LowSurrogate(low)
  {
    0x10000 + (high - 0xD800) * 1024 + (low - 0xDC00)
  }

  /** The code points a literal denotes; None for an unknown escape or an unpaired surrogate. */
  function Points(tokens: seq<Token>): Option<seq<Scalar>> {
    if tokens == [] then Some([])
    else
      match tokens[0]
      case Raw(cp) => Prepend(cp, Points(tokens[1..]))
      case Short(letter) =>
        if ShortPoint(letter).Some? then Prepend(ShortPoint(letter).value, Points(tokens[1..])) else None
      case Unit(hex) =>
        var v := Hex4(hex);
        if HighSurrogate(v) then
          if |tokens| >= 2 && tokens[1].Unit? && LowSurrogate(Hex4(tokens[1].hex)) then
            Prepend(SurrogatePair(v, Hex4(tokens[1].hex)), Points(tokens[2..]))
          else None
        else if LowSurrogate(v) then None
        else Prepend(v, Points(tokens[1..]))
  }

  /** Only the letters of the grammar have a meaning. */
  lemma {:induction false} PointsGrammatical(tokens: seq<Token>)
    requires AllLexical(tokens) && Points(tokens).Some?
    ensures AllGrammatical(tokens)
  {
    if tokens != [] {
      if tokens[0].Unit? && HighSurrogate(Hex4(tokens[0].hex)) {
        PointsGrammatical(tokens[2..]);
        assert tokens[1..][1..] == tokens[2..];
      } else {
        PointsGrammatical(tokens[1..]);
      }
    }
  }

  /** The scanning pass of ParseString on the text after the opening quote; rest follows the closing one. */
  datatype Scanned = Scanned(tokens: seq<Token>, rest: bytes)

  function NextToken(s: bytes): (r: Option<(Token, bytes)>)
    ensures r.Some? ==> Lexical(r.value.0) && |r.value.1| < |s| && s == TokenText(r.value.0) + r.value.1
  {
    if s == [] || s[0] < 0x20 || s[0] == QUOTE then None
    else if s[0] == BACKSLASH then
      if |s| < 2 then None
      else if s[1] == LETTER_U then
        if |s| >= 6 && IsHex4(s[2..6]) then Some((Unit(s[2..6]), s[6..])) else None
      else Some((Short(s[1]), s[2..]))
    else if s[0] < 128 then
      assert Encode(s[0]) + s[1..] == s;
      Some((Raw(s[0]), s[1..]))
    else
      var n := Utf8Length(s, 0);
      if n == 0 then None
      else
        DecodeAccepted(s, 0);
        RawIsLexical(s[..n]);
        Some((Raw(Payload(s[..n])), s[n..]))
  }

  lemma RawIsLexical(b: bytes)
    requires IsScalar(Payload(b)) && Encode(Payload(b)) == b && |b| > 0 && b[0] >= 128
    ensures Payload(b) >= 128
  {
  }

  function Scan(s: bytes): Option<Scanned> {
    if s != [] && s[0] == QUOTE then Some(Scanned([], s[1..]))
    else if NextToken(s).None? then None
    else
      var (t, rest) := NextToken(s).value;
      var more := Scan(rest);
      if more.Some? then Some(Scanned([t] + more.value.tokens, more.value.rest)) else None
  }

  lemma TextCons(t: Token, tail: seq<Token>)
    ensures Text([t] + tail) == TokenText(t) + Text(tail)
    ensures AllLexical([t] + tail) <==> Lexical(t) && AllLexical(tail)
  {
    assert ([t] + tail)[1..] == tail;
  }

  lemma ScanStep(s: bytes, t: Token, rest: bytes, tail: seq<Token>, end: bytes)
    requires s == TokenText(t) + rest && rest == Text(tail) + [QUOTE] + end
    ensures s == Text([t] + tail) + [QUOTE] + end
  {
    TextCons(t, tail);
    assert TokenText(t) + (Text(tail) + [QUOTE] + end) == TokenText(t) + Text(tail) + [QUOTE] + end;
  }

  /** The tokens of an accepted literal cover the text up to its closing quote, with no byte left out. */
  lemma {:induction false} ScanSound(s: bytes)
    requires Scan(s).Some?
    ensures AllLexical(Scan(s).value.tokens)
    ensures s == Text(Scan(s).value.tokens) + [QUOTE] + Scan(s).value.rest
    decreases |s|
  {
    if s[0] == QUOTE {
      assert s == [] + [QUOTE] + s[1..];
    } else {
      var (t, rest) := NextToken(s).value;
      ScanSound(rest);
      ScanStep(s, t, rest, Scan(rest).value.tokens, Scan(rest).value.rest);
    }
  }

  lemma NextTokenComplete(t: Token, rest: bytes)
    requires Lexical(t)
    ensures NextToken(TokenText(t) + rest) == Some((t, rest))
    ensures TokenText(t)[0] != QUOTE
  {
    var s := TokenText(t) + rest;
    match t
    case Raw(cp) =>
      FirstOfEncoding(s, cp, rest);
    case Short(letter) =>
      assert s[2..] == rest;
    case Unit(hex) =>
      assert s[2..6] == hex && s[6..] == rest;
  }

  lemma {:induction false} ScanComplete(tokens: seq<Token>, rest: bytes)
    requires AllLexical(tokens)
    ensures Scan(Text(tokens) + [QUOTE] + rest) == Some(Scanned(tokens, rest))
  {
    var s := Text(tokens) + [QUOTE] + rest;
    if tokens == [] {
      assert s[1..] == rest;
    } else {
      var tail := Text(tokens[1..]) + [QUOTE] + rest;
      assert s == TokenText(tokens[0]) + tail;
      NextTokenComplete(tokens[0], tail);
      ScanComplete(tokens[1..], rest);
      assert [tokens[0]] + tokens[1..] == tokens;
    }
  }

  // ----- What the printer writes -----

  function HexLetter(d: nat): byte
    requires d < 16
  {
    if d < 10 then 48 + d else 87 + d
  }

  /** The digits of snprintf("%04x") for an octet. */
  function HexOctet(c: byte): (h: bytes)
    ensures IsHex4(h) && Hex4(h) == c
  {
    [48, 48, HexLetter(c / 16), HexLetter(c % 16)]
  }

  /** The token AppendEscapedString_ writes for an ASCII byte. */
  function AsciiToken(c: byte): (t: Token)
    requires c < 128
    ensures Grammatical(t)
  {
    if c == QUOTE || c == BACKSLASH then Short(c)
    else if c == 8 then Short(98)
    else if c == 12 then Short(102)
    else if c == 10 then Short(110)
    else if c == 13 then Short(114)
    else if c == 9 then Short(116)
    else if c < 0x20 then Unit(HexOctet(c))
    else Raw(c)
  }

  /** How many bytes of s one step of the printer handles, and the code point they stand for. */
  function StepLength(s: bytes): (n: nat)
    requires s != []
    ensures 1 <= n <= |s|
  {
    if Utf8Length(s, 0) > 0 then Utf8Length(s, 0) else 1
  }

  function StepPoint(s: bytes): Scalar
    requires s != []
  {
    if Utf8Length(s, 0) > 0 then DecodeAccepted(s, 0); Payload(s[..Utf8Length(s, 0)]) else s[0]
  }

  function StepToken(s: bytes): (t: Token)
    requires s != []
  {
    if s[0] < 128 then AsciiToken(s[0])
    else if Utf8Length(s, 0) > 0 then Raw(StepPoint(s))
    else Unit(HexOctet(s[0]))
  }

  function EscapeTokens(s: bytes): seq<Token> {
    if s == [] then [] else [StepToken(s)] + EscapeTokens(s[StepLength(s)..])
  }

  /** s read as UTF-8, a byte outside every well-formed sequence read as the code point U+00xx. */
  function RepairedPoints(s: bytes): seq<Scalar> {
    if s == [] then [] else [StepPoint(s)] + RepairedPoints(s[StepLength(s)..])
  }

  /** The byte repair of the printer: bytes outside UTF-8 become the encoding of U+00xx. */
  function Repair(s: bytes): bytes { EncodeAll(RepairedPoints(s)) }

  lemma StepTokenPoint(s: bytes, tail: seq<Token>)
    requires s != [] && AllLexical(tail)
    ensures Grammatical(StepToken(s)) && AllLexical([StepToken(s)] + tail)
    ensures Points([StepToken(s)] + tail) == Prepend(StepPoint(s), Points(tail))
  {
    assert ([StepToken(s)] + tail)[1..] == tail;
    var n := Utf8Length(s, 0);
    if s[0] < 128 {
      assert s[..n] == [s[0]];
    } else if n > 0 {
      DecodeAccepted(s, 0);
      RawIsLexical(s[..n]);
    }
  }

  /** Decoding the escaped form of any byte string gives its repaired code points. */
  lemma {:induction false} EscapeDecodes(s: bytes)
    ensures AllGrammatical(EscapeTokens(s)) && AllLexical(EscapeTokens(s))
    ensures Points(EscapeTokens(s)) == Some(RepairedPoints(s))
    decreases |s|
  {
    if s != [] {
      var tail := s[StepLength(s)..];
      EscapeDecodes(tail);
      StepTokenPoint(s, EscapeTokens(tail));
    }
  }

  /** A text that is already UTF-8 is read as it is. */
  lemma {:induction false} RepairedPointsOfValid(cps: seq<Scalar>)
    ensures RepairedPoints(EncodeAll(cps)) == cps
  {
    if cps != [] {
      var s := EncodeAll(cps);
      FirstOfEncoding(s, cps[0], EncodeAll(cps[1..]));
      RepairedPointsOfValid(cps[1..]);
      assert cps == [cps[0]] + cps[1..];
    }
  }

  /** The repair always yields valid UTF-8, changes nothing exactly on valid UTF-8, and is idempotent. */
  lemma RepairLaws(s: bytes)
    ensures ValidUtf8(Repair(s))
    ensures Repair(s) == s <==> ValidUtf8(s)
    ensures Repair(Repair(s)) == Repair(s)
  {
    assert EncodeAll(RepairedPoints(s)) == Repair(s);
    RepairedPointsOfValid(RepairedPoints(s));
    if ValidUtf8(s) {
      var cps: seq<Scalar> :| EncodeAll(cps) == s;
      RepairedPointsOfValid(cps);
    }
  }

  /**
   * The bytes of the repair: a well-formed sequence is copied, and every other byte c becomes the
   * two-byte encoding of U+00c, whatever stands around it.
   */
  lemma {:induction false} RepairStep(s: bytes)
    requires s != []
    ensures Utf8Length(s, 0) > 0 ==> Repair(s) == s[..Utf8Length(s, 0)] + Repair(s[Utf8Length(s, 0)..])
    ensures Utf8Length(s, 0) == 0 ==> Repair(s) == Encode(s[0]) + Repair(s[1..])
  {
    var tail := RepairedPoints(s[StepLength(s)..]);
    assert ([StepPoint(s)] + tail)[1..] == tail;
    if Utf8Length(s, 0) > 0 {
      DecodeAccepted(s, 0);
    }
  }
}
