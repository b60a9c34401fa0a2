/** UTF-8 sequence boundaries (RFC 3629 section 4) and the encoder of the JSON parser. */
module Utf8 {
  import opened Bytes

  /** A Unicode scalar value: a code point outside the surrogate range. */
  type Scalar = x: int | 0 <= x <= 0x10FFFF && !(0xD800 <= x <= 0xDFFF)

  /** The length announced by a lead byte; 0 for a byte that starts no sequence. */
  function LeadLength(first: byte): nat {
    if first < 128 then 1
    else if 0xC2 <= first <= 0xDF then 2
    else if 0xE0 <= first <= 0xEF then 3
    else if 0xF0 <= first <= 0xF4 then 4
    else 0
  }

  predicate Continuation(b: byte) { 0x80 <= b <= 0xBF }

  /** Length of the well-formed sequence at offset, or 0 when there is none. */
  function Utf8Length(text: bytes, offset: nat): (n: nat)
    ensures n <= 4 && (n > 0 ==> offset + n <= |text|)
  {
    if offset >= |text| then 0
    else
      var first := text[offset];
      var length := LeadLength(first);
      if first < 128 then 1
      else if length == 0 || offset + length > |text| then 0
      else if exists k :: offset < k < offset + length && !Continuation(text[k]) then 0
      else
        var second := text[offset + 1];
        if (first == 0xE0 && second < 0xA0) || (first == 0xED && second >= 0xA0) ||
           (first == 0xF0 && second < 0x90) || (first == 0xF4 && second >= 0x90) then 0
        else length
  }

  /** EncodeUtf8_ of the parser on a scalar value; its bit fields are disjoint, so "or" is a sum. */
  function Encode(cp: Scalar): (r: bytes)
    ensures 1 <= |r| <= 4
  {
    if cp < 0x80 then [cp]
    else if cp < 0x800 then [0xC0 + cp / 64, 0x80 + cp % 64]
    else if cp < 0x10000 then [0xE0 + cp / 4096, 0x80 + cp / 64 % 64, 0x80 + cp % 64]
    else [0xF0 + cp / 262144, 0x80 + cp / 4096 % 64, 0x80 + cp / 64 % 64, 0x80 + cp % 64]
  }

  /** The code point a sequence of one to four bytes stands for, read off its payload bits. */
  function Payload(b: bytes): (cp: int) {
    if |b| == 1 then b[0]
    else if |b| == 2 then Bits(b[0], 0xC0) * 64 + Bits(b[1], 0x80)
    else if |b| == 3 then Bits(b[0], 0xE0) * 4096 + Bits(b[1], 0x80) * 64 + Bits(b[2], 0x80)
    else if |b| == 4 then
      Bits(b[0], 0xF0) * 262144 + Bits(b[1], 0x80) * 4096 + Bits(b[2], 0x80) * 64 + Bits(b[3], 0x80)
    else 0
  }

  /** What is left of a byte when its marker bits are removed. */
  function Bits(b: int, marker: int): int { b - marker }

  predicate IsScalar(x: int) { 0 <= x <= 0x10FFFF && !(0xD800 <= x <= 0xDFFF) }

  lemma LengthOfSuffix(text: bytes, offset: nat)
    requires offset <= |text|
    ensures Utf8Length(text, offset) == Utf8Length(text[offset..], 0)
  {
    var t := text[offset..];
    if offset < |text| {
      var length := LeadLength(text[offset]);
      if offset + length <= |text| {
        assert forall k :: 0 < k < length ==> t[k] == text[offset + k];
        assert forall k :: offset < k < offset + length ==> text[k] == t[k - offset];
      }
    }
  }

  lemma PayloadOfEncoding(cp: Scalar)
    ensures Payload(Encode(cp)) == cp
  {
    if 0x800 <= cp < 0x10000 {
      assert cp == cp / 4096 * 4096 + cp / 64 % 64 * 64 + cp % 64;
    } else if 0x10000 <= cp {
      assert cp == cp / 262144 * 262144 + cp / 4096 % 64 * 4096 + cp / 64 % 64 * 64 + cp % 64;
    }
  }

  /** Prefix-freeness: a lead byte decides the length, so an encoding is recognised whatever follows it. */
  lemma LengthOfEncoding(cp: Scalar, rest: bytes)
    ensures Utf8Length(Encode(cp) + rest, 0) == |Encode(cp)|
  {
    var e := Encode(cp);
    var s := e + rest;
    assert s[0] == e[0];
    assert forall k :: 0 < k < |e| ==> s[k] == e[k];
    assert |e| > 1 ==> s[1] == e[1];
    if cp >= 0x10000 {
      EncodeLead4(cp);
    } else if cp >= 0x800 {
      EncodeLead3(cp);
    }
  }

  lemma EncodeLead3(cp: int)
    requires 0x800 <= cp < 0x10000 && IsScalar(cp)
    ensures 0 <= cp / 4096 <= 15
    ensures cp / 4096 == 0 ==> cp / 64 % 64 >= 0x20
    ensures cp / 4096 == 13 ==> cp / 64 % 64 < 0x20
  {
  }

  lemma EncodeLead4(cp: int)
    requires 0x10000 <= cp <= 0x10FFFF
    ensures 0 <= cp / 262144 <= 4
    ensures cp / 262144 == 0 ==> cp / 4096 % 64 >= 0x10
    ensures cp / 262144 == 4 ==> cp / 4096 % 64 < 0x10
  {
  }

  lemma Compose3(x: int, y: int, z: int)
    requires 0 <= x < 16 && 0 <= y < 64 && 0 <= z < 64
    ensures var cp := x * 4096 + y * 64 + z; cp / 4096 == x && cp / 64 % 64 == y && cp % 64 == z
  {
    var cp := x * 4096 + y * 64 + z;
    Split64(x * 64 + y, z);
    Split64(x, y);
    assert cp / 4096 == x by {
      assert cp == 4096 * x + (y * 64 + z);
    }
  }

  lemma Split64(q: int, r: int)
    requires 0 <= r < 64
    ensures (q * 64 + r) / 64 == q && (q * 64 + r) % 64 == r
  {
  }

  lemma Compose4(w: int, x: int, y: int, z: int)
    requires 0 <= w < 8 && 0 <= x < 64 && 0 <= y < 64 && 0 <= z < 64
    ensures var cp := w * 262144 + x * 4096 + y * 64 + z;
            cp / 262144 == w && cp / 4096 % 64 == x && cp / 64 % 64 == y && cp % 64 == z
  {
    var cp := w * 262144 + x * 4096 + y * 64 + z;
    Split64(w * 4096 + x * 64 + y, z);
    Split64(w * 64 + x, y);
    Split64(w, x);
    assert cp / 4096 == w * 64 + x by {
      assert cp == 4096 * (w * 64 + x) + (y * 64 + z);
    }
    assert cp / 262144 == w by {
      assert cp == 262144 * w + (x * 4096 + y * 64 + z);
    }
  }

  /** What Utf8Length accepts is the encoding of the scalar value its payload bits spell. */
  lemma DecodeAccepted(text: bytes, offset: nat)
    requires Utf8Length(text, offset) > 0
    ensures var b := text[offset..offset + Utf8Length(text, offset)];
            IsScalar(Payload(b)) && Encode(Payload(b)) == b
  {
    var n := Utf8Length(text, offset);
    var b := text[offset..offset + n];
    if n == 2 {
      assert b == [text[offset], text[offset + 1]];
    } else if n == 3 {
      assert b == [text[offset], text[offset + 1], text[offset + 2]];
      Compose3(Bits(b[0], 0xE0), Bits(b[1], 0x80), Bits(b[2], 0x80));
    } else if n == 4 {
      assert b == [text[offset], text[offset + 1], text[offset + 2], text[offset + 3]];
      Compose4(Bits(b[0], 0xF0), Bits(b[1], 0x80), Bits(b[2], 0x80), Bits(b[3], 0x80));
    }
  }

  lemma EncodingHasLength(text: bytes, offset: nat, n: nat, cp: Scalar)
    requires offset + n <= |text| && Encode(cp) == text[offset..offset + n]
    ensures n > 0 && Utf8Length(text, offset) == n
  {
    var rest := text[offset + n..];
    assert text[offset..] == Encode(cp) + rest;
    LengthOfEncoding(cp, rest);
    LengthOfSuffix(text, offset);
  }

  /**
   * RFC 3629 section 4: a positive length n is reported exactly when the n bytes at the offset are the
   * encoding of a Unicode scalar value. No overlong form, no surrogate, nothing above U+10FFFF.
   */
  lemma LengthIffEncoding(text: bytes, offset: nat, n: nat)
    requires offset + n <= |text|
    ensures (n > 0 && Utf8Length(text, offset) == n) <==> (exists cp: Scalar :: Encode(cp) == text[offset..offset + n])
  {
    if n > 0 && Utf8Length(text, offset) == n {
      DecodeAccepted(text, offset);
      var cp: Scalar := Payload(text[offset..offset + n]);
      assert Encode(cp) == text[offset..offset + n];
    }
    if cp: Scalar :| Encode(cp) == text[offset..offset + n] {
      EncodingHasLength(text, offset, n, cp);
    }
  }

  /** Reading off the first sequence of a text that starts with an encoding gives its code point back. */
  lemma FirstOfEncoding(s: bytes, cp: Scalar, rest: bytes)
    requires s == Encode(cp) + rest
    ensures Utf8Length(s, 0) == |Encode(cp)|
    ensures Payload(s[..Utf8Length(s, 0)]) == cp && s[Utf8Length(s, 0)..] == rest
  {
    LengthOfEncoding(cp, rest);
    PayloadOfEncoding(cp);
    assert s[..|Encode(cp)|] == Encode(cp);
  }

  /** No encoding is a prefix of another one; in particular the encoding is injective. */
  lemma EncodingPrefixFree(a: Scalar, b: Scalar, s: bytes, restA: bytes, restB: bytes)
    requires s == Encode(a) + restA && s == Encode(b) + restB
    ensures a == b && restA == restB
  {
    FirstOfEncoding(s, a, restA);
    FirstOfEncoding(s, b, restB);
  }

  /** The first byte in which a and b differ is smaller in a. */
  ghost predicate Before(a: bytes, b: bytes) {
    exists k: nat | k < |a| && k < |b| :: a[k] < b[k] && SameFront(a, b, k)
  }

  predicate SameFront(a: bytes, b: bytes, k: nat) {
    k <= |a| && k <= |b| && forall j :: 0 <= j < k ==> a[j] == b[j]
  }

  /**
   * RFC 3629 section 1: the order of the encodings is the order of the code points. With their lengths and
   * LengthIffEncoding this leaves one encoding only.
   */
  lemma EncodingKeepsOrder(a: Scalar, b: Scalar)
    requires a < b
    ensures |Encode(a)| <= |Encode(b)| && Before(Encode(a), Encode(b))
  {
    var x, y := Encode(a), Encode(b);
    if |x| < |y| || x[0] < y[0] {
      assert SameFront(x, y, 0);
    } else {
      DigitsInOrder(a, b);
      var k := if x[1] < y[1] then 1 else if x[2] < y[2] then 2 else 3;
      assert SameFront(x, y, k);
    }
  }

  /** The first digit to base 64 in which a and b differ is smaller in a. */
  lemma DigitsInOrder(a: nat, b: nat)
    requires a < b
    ensures a / 64 <= b / 64 && (a / 64 == b / 64 ==> a % 64 < b % 64)
    ensures a / 4096 <= b / 4096
    ensures a / 4096 == b / 4096 ==>
              a / 64 % 64 < b / 64 % 64 || (a / 64 % 64 == b / 64 % 64 && a % 64 < b % 64)
    ensures a / 262144 <= b / 262144
    ensures a / 262144 == b / 262144 ==>
              a / 4096 % 64 < b / 4096 % 64
              || (a / 4096 % 64 == b / 4096 % 64
                  && (a / 64 % 64 < b / 64 % 64 || (a / 64 % 64 == b / 64 % 64 && a % 64 < b % 64)))
  {
    assert a / 64 / 64 == a / 4096 && a / 4096 / 64 == a / 262144;
    assert b / 64 / 64 == b / 4096 && b / 4096 / 64 == b / 262144;
    LastDigit64(a, b);
    LastDigit64(a / 64, b / 64);
    LastDigit64(a / 4096, b / 4096);
  }

  lemma LastDigit64(a: nat, b: nat)
    requires a <= b
    ensures a / 64 <= b / 64 && (a / 64 == b / 64 ==> a % 64 <= b % 64 && (a < b ==> a % 64 < b % 64))
  {
  }

  /** The bytes of a text given by its code points. */
  function EncodeAll(cps: seq<Scalar>): bytes {
    if cps == [] then [] else Encode(cps[0]) + EncodeAll(cps[1..])
  }

  /** Valid UTF-8: the text is the encoding of some sequence of scalar values. */
  ghost predicate ValidUtf8(s: bytes) { exists cps: seq<Scalar> :: EncodeAll(cps) == s }

  /** Two code point sequences with the same bytes are the same: a text has one reading. */
  lemma {:induction false} EncodeAllInjective(a: seq<Scalar>, b: seq<Scalar>)
    requires EncodeAll(a) == EncodeAll(b)
    ensures a == b
  {
    if a != [] && b != [] {
      EncodingPrefixFree(a[0], b[0], EncodeAll(a), EncodeAll(a[1..]), EncodeAll(b[1..]));
      EncodeAllInjective(a[1..], b[1..]);
      assert a == [a[0]] + a[1..] && b == [b[0]] + b[1..];
    }
  }
}
