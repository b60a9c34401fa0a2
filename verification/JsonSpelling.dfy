/**
 * The chars of a JSON string by the tables of RFC 8259 section 7, read from the code point to its spellings:
 * the UTF-16 encoding of a scalar value, hexadecimal digits in either case, and the eight short escapes. A
 * literal denotes exactly the code points that it spells.
 */
module JsonSpelling {
  import opened Bytes
  import opened Utf8
  import opened JsonString

  /** The digits of a number below 16, as the grammar lists them. */
  const LOWER_DIGITS: bytes := [48, 49, 50, 51, 52, 53, 54, 55, 56, 57, 97, 98, 99, 100, 101, 102]
  const UPPER_DIGITS: bytes := [48, 49, 50, 51, 52, 53, 54, 55, 56, 57, 65, 66, 67, 68, 69, 70]

  /** Quotation mark, backslash, slash, b, f, n, r, t, and the code points that they stand for. */
  const SHORT_LETTERS: bytes := [34, 92, 47, 98, 102, 110, 114, 116]
  const SHORT_POINTS: seq<Scalar> := [0x22, 0x5C, 0x2F, 0x08, 0x0C, 0x0A, 0x0D, 0x09]

  predicate DigitSpells(c: byte, d: nat) { d < 16 && (c == LOWER_DIGITS[d] || c == UPPER_DIGITS[d]) }

  /** Four digits, the most significant first, each in either case. */
  predicate HexSpells(h: bytes, v: nat) {
    && |h| == 4 && DigitSpells(h[0], v / 4096)
    && DigitSpells(h[1], v / 256 % 16) && DigitSpells(h[2], v / 16 % 16) && DigitSpells(h[3], v % 16)
  }

  /** The UTF-16 encoding of a scalar value above the basic multilingual plane. */
  function Utf16High(cp: Scalar): (v: nat)
    requires cp >= 0x10000
    ensures HighSurrogate(v)
  {
    0xD800 + (cp - 0x10000) / 1024
  }

  function Utf16Low(cp: Scalar): (v: nat)
    requires cp >= 0x10000
    ensures LowSurrogate(v)
  {
    0xDC00 + (cp - 0x10000) % 1024
  }

  predicate ShortSpells(letter: byte, cp: Scalar) {
    exists i | 0 <= i < 8 :: SHORT_LETTERS[i] == letter && SHORT_POINTS[i] == cp
  }

  /** One token that spells cp by itself. */
  predicate SpelledByOne(t: Token, cp: Scalar) {
    match t
    case Raw(p) => p == cp
    case Short(letter) => ShortSpells(letter, cp)
    case Unit(h) => HexSpells(h, cp)
  }

  predicate SpelledByTwo(t: Token, u: Token, cp: Scalar) {
    cp >= 0x10000 && t.Unit? && u.Unit? && HexSpells(t.hex, Utf16High(cp)) && HexSpells(u.hex, Utf16Low(cp))
  }

  /** The tokens spell the code points one after the other. */
  predicate Spells(tokens: seq<Token>, cps: seq<Scalar>)
    decreases |cps|
  {
    if cps == [] then tokens == []
    else
      || (|tokens| >= 1 && SpelledByOne(tokens[0], cps[0]) && Spells(tokens[1..], cps[1..]))
      || (|tokens| >= 2 && SpelledByTwo(tokens[0], tokens[1], cps[0]) && Spells(tokens[2..], cps[1..]))
  }

  lemma DigitIff(c: byte, d: nat)
    ensures HexDigit(c) == Some(d) <==> DigitSpells(c, d)
    ensures HexDigit(c).Some? ==> HexDigit(c).value < 16
  {
  }

  /** The last digit and the number before it determine each other. */
  lemma LastDigit(v: nat, x: nat, d: nat)
    requires d < 16
    ensures v == x * 16 + d <==> v / 16 == x && v % 16 == d
  {
  }

  lemma FourDigits(v: nat, a: nat, b: nat, c: nat, d: nat)
    requires a < 16 && b < 16 && c < 16 && d < 16
    ensures v == a * 4096 + b * 256 + c * 16 + d <==>
              v / 4096 == a && v / 256 % 16 == b && v / 16 % 16 == c && v % 16 == d
  {
    LastDigit(v, a * 256 + b * 16 + c, d);
    LastDigit(v / 16, a * 16 + b, c);
    LastDigit(v / 16 / 16, a, b);
    assert v / 16 / 16 == v / 256 && v / 16 / 16 / 16 == v / 4096;
  }

  /** Upper-case and lower-case digits have the same value, and every number below 65536 has its spellings. */
  lemma HexIff(h: bytes, v: nat)
    ensures IsHex4(h) && Hex4(h) == v <==> HexSpells(h, v)
  {
    if |h| == 4 {
      DigitIff(h[0], v / 4096);
      DigitIff(h[1], v / 256 % 16);
      DigitIff(h[2], v / 16 % 16);
      DigitIff(h[3], v % 16);
      if IsHex4(h) {
        FourDigits(v, HexDigit(h[0]).value, HexDigit(h[1]).value, HexDigit(h[2]).value, HexDigit(h[3]).value);
      }
    }
  }

  lemma ShortIff(letter: byte, cp: Scalar)
    ensures ShortPoint(letter) == Some(cp) <==> ShortSpells(letter, cp)
  {
    if ShortPoint(letter) == Some(cp) {
      var i := if letter == 34 then 0 else if letter == 92 then 1 else if letter == 47 then 2
               else if letter == 98 then 3 else if letter == 102 then 4 else if letter == 110 then 5
               else if letter == 114 then 6 else 7;
      assert SHORT_LETTERS[i] == letter && SHORT_POINTS[i] == cp;
    }
  }

  /** A pair of surrogates stands for exactly the scalar value whose UTF-16 encoding it is. */
  lemma PairIff(high: nat, low: nat, cp: Scalar)
    requires HighSurrogate(high) && LowSurrogate(low)
    ensures SurrogatePair(high, low) == cp <==> cp >= 0x10000 && Utf16High(cp) == high && Utf16Low(cp) == low
  {
  }

  /** A literal denotes a list of code points if and only if it spells them, token by token. */
  lemma {:induction false} DenotesWhatItSpells(tokens: seq<Token>, cps: seq<Scalar>)
    requires AllLexical(tokens)
    ensures Points(tokens) == Some(cps) <==> Spells(tokens, cps)
    decreases |tokens|
  {
    if tokens != [] && cps != [] {
      DenotesWhatItSpells(tokens[1..], cps[1..]);
      assert cps == [cps[0]] + cps[1..];
      match tokens[0]
      case Raw(_) =>
      case Short(letter) => ShortIff(letter, cps[0]);
      case Unit(h) =>
        HexIff(h, cps[0]);
        if |tokens| >= 2 && tokens[1].Unit? {
          assert tokens[1..][1..] == tokens[2..] && Lexical(tokens[1..][0]);
          DenotesWhatItSpells(tokens[2..], cps[1..]);
          PairSpells(tokens[0], tokens[1], cps[0]);
        }
    }
  }

  lemma PairSpells(t: Token, u: Token, cp: Scalar)
    requires t.Unit? && u.Unit? && Lexical(t) && Lexical(u)
    ensures SpelledByTwo(t, u, cp) <==>
              && HighSurrogate(Hex4(t.hex)) && LowSurrogate(Hex4(u.hex))
              && SurrogatePair(Hex4(t.hex), Hex4(u.hex)) == cp
  {
    if HighSurrogate(Hex4(t.hex)) && LowSurrogate(Hex4(u.hex)) {
      PairIff(Hex4(t.hex), Hex4(u.hex), cp);
    }
    if cp >= 0x10000 {
      HexIff(t.hex, Utf16High(cp));
      HexIff(u.hex, Utf16Low(cp));
    }
  }

  /** Every scalar value above the basic plane is denoted by the two escapes that spell its halves. */
  lemma PairDenotes(cp: Scalar, h1: bytes, h2: bytes)
    requires cp >= 0x10000 && HexSpells(h1, Utf16High(cp)) && HexSpells(h2, Utf16Low(cp))
    ensures Points([Unit(h1), Unit(h2)]) == Some([cp])
  {
    var tokens := [Unit(h1), Unit(h2)];
    HexIff(h1, Utf16High(cp));
    HexIff(h2, Utf16Low(cp));
    assert tokens[1..] == [Unit(h2)] && tokens[1..][1..] == [] && tokens[2..] == [];
    assert [cp][1..] == [];
    assert Lexical(tokens[0]) && AllLexical(tokens[1..]);
    assert Spells(tokens, [cp]);
    DenotesWhatItSpells(tokens, [cp]);
  }

  /** And two such pairs of escapes denote the same code point only when their halves agree. */
  lemma PairsDistinct(high: nat, low: nat, high': nat, low': nat)
    requires HighSurrogate(high) && LowSurrogate(low) && HighSurrogate(high') && LowSurrogate(low')
    ensures SurrogatePair(high, low) >= 0x10000
    ensures SurrogatePair(high, low) == SurrogatePair(high', low') ==> high == high' && low == low'
  {
    PairIff(high, low, SurrogatePair(high, low));
    PairIff(high', low', SurrogatePair(high, low));
  }

  /**
   * The printer writes the shortest spelling of an ASCII character: itself where the grammar allows it, else a
   * short escape if there is one, else four digits.
   */
  lemma PrintsShortest(c: byte)
    requires c < 128
    ensures SpelledByOne(AsciiToken(c), c)
    ensures AsciiToken(c).Raw? <==> c >= 0x20 && c != QUOTE && c != BACKSLASH
    ensures AsciiToken(c).Short? <==> !AsciiToken(c).Raw? && exists letter :: ShortSpells(letter, c)
  {
    var t := AsciiToken(c);
    match t
    case Raw(_) =>
    case Short(letter) => ShortIff(letter, c);
    case Unit(h) => HexIff(h, c);
  }
}
