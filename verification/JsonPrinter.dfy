/** The serializer: compact (indent < 0) or indented output, with the byte repair of strings. */
module JsonPrinter {
  import opened Bytes
  import opened Utf8
  import opened JsonString
  import opened JsonValue
  import opened JsonGrammar
  import opened JsonSyntax

  /** std::to_string of a non-negative integer. */
  function DecimalText(n: nat): (r: bytes)
    ensures r != []
  {
    if n < 10 then [48 + n] else DecimalText(n / 10) + [48 + n % 10]
  }

  lemma {:induction false} DigitsSnoc(d: bytes, c: byte)
    requires Digits(d) && IsDigit(c)
    ensures Digits(d + [c])
  {
    if d != [] {
      assert (d + [c])[1..] == d[1..] + [c];
      DigitsSnoc(d[1..], c);
    }
  }

  /** The decimal text of n is a JSON int without leading zeros, and its value is n again. */
  lemma {:induction false} DecimalTextLaws(n: nat)
    ensures Digits(DecimalText(n)) && Decimal(DecimalText(n)) == n
    ensures DecimalText(n)[0] == ZERO <==> n == 0
    ensures n == 0 ==> |DecimalText(n)| == 1
  {
    if n >= 10 {
      DecimalTextLaws(n / 10);
      DigitsSnoc(DecimalText(n / 10), 48 + n % 10);
      var t := DecimalText(n);
      assert t[..|t| - 1] == DecimalText(n / 10);
    } else {
      assert DecimalText(n)[..0] == [];
    }
  }

  function Spaces(n: nat): (r: bytes)
    ensures |r| == n
  {
    seq(n, i => 32)
  }

  lemma {:induction false} SpacesAreWs(n: nat)
    ensures Ws(Spaces(n))
  {
    if n > 0 {
      assert Spaces(n)[1..] == Spaces(n - 1);
      SpacesAreWs(n - 1);
    }
  }

  lemma IndentBound(indent: nat, level: nat)
    ensures indent * level >= 0
  {
  }

  /** AppendIndent_: a line break and the indentation of a nesting level, or nothing in compact mode. */
  function Indent(indent: int, level: nat): bytes {
    if indent >= 0 then IndentBound(indent, level); [10] + Spaces(indent * level) else []
  }

  lemma IndentIsWs(indent: int, level: nat)
    ensures Ws(Indent(indent, level))
  {
    if indent >= 0 {
      IndentBound(indent, level);
      SpacesAreWs(indent * level);
      assert Indent(indent, level)[1..] == Spaces(indent * level);
    }
  }

  /** The text that to_chars writes for a finite double is a JSON number. */
  predicate NumberLexeme(lexeme: bytes) { ReadNumber(lexeme).Got? && ReadNumber(lexeme).rest == [] }

  predicate Printable(v: Value) {
    match v
    case Double(lexeme) => NumberLexeme(lexeme)
    case Array(items) => PrintableItems(items)
    case Object(fields) => PrintableFields(fields)
    case _ => true
  }

  predicate PrintableItems(items: seq<Value>) {
    items == [] || (Printable(items[0]) && PrintableItems(items[1..]))
  }

  predicate PrintableFields(fields: seq<Field>) {
    fields == [] || (Printable(fields[0].value) && PrintableFields(fields[1..]))
  }

  function IntegerTree(i: int): Tree {
    NumberTree(Number(i < 0, DecimalText(if i < 0 then -i else i), None, None))
  }

  /** The derivation whose text the serializer writes for v at the given nesting level. */
  function ToTree(v: Value, indent: int, level: nat): Tree
    requires Printable(v)
    decreases v, 1
  {
    match v
    case Null => NullTree
    case Bool(b) => BoolTree(b)
    case Signed(i) => IntegerTree(i)
    case Unsigned(u) => IntegerTree(u)
    case Double(lexeme) => NumberTree(ReadNumber(lexeme).v)
    case String(text) => StringTree(EscapeTokens(text))
    case Array(items) =>
      if items == [] then EmptyArrayTree([]) else ArrayTree(Indent(indent, level + 1), ToElements(items, indent, level))
    case Object(fields) =>
      if fields == [] then EmptyObjectTree([])
      else ObjectTree(Indent(indent, level + 1), ToMembers(fields, indent, level))
  }

  function ToElements(items: seq<Value>, indent: int, level: nat): Elements
    requires items != [] && PrintableItems(items)
    decreases items, 0
  {
    var v := ToTree(items[0], indent, level + 1);
    if |items| == 1 then LastElement(v, Indent(indent, level))
    else MoreElements(v, [], Indent(indent, level + 1), ToElements(items[1..], indent, level))
  }

  function ToMember(f: Field, indent: int, level: nat): Member
    requires Printable(f.value)
    decreases f, 0
  {
    Member(EscapeTokens(f.key), [], if indent >= 0 then [32] else [], ToTree(f.value, indent, level + 1))
  }

  function ToMembers(fields: seq<Field>, indent: int, level: nat): Members
    requires fields != [] && PrintableFields(fields)
    decreases fields, 0
  {
    var m := ToMember(fields[0], indent, level);
    if |fields| == 1 then LastMember(m, Indent(indent, level))
    else MoreMembers(m, [], Indent(indent, level + 1), ToMembers(fields[1..], indent, level))
  }

  // ----- The serializer itself -----

  /** The tail of an element list after its first i elements: what the loop has still to write. */
  function ElementsTail(items: seq<Value>, i: nat, indent: int, level: nat): bytes
    requires i <= |items| && PrintableItems(items[i..])
  {
    if i == |items| then Indent(indent, level) + [RBRACKET]
    else Indent(indent, level + 1) + ElementsText(ToElements(items[i..], indent, level))
  }

  function MembersTail(fields: seq<Field>, i: nat, indent: int, level: nat): bytes
    requires i <= |fields| && PrintableFields(fields[i..])
  {
    if i == |fields| then Indent(indent, level) + [RBRACE]
    else Indent(indent, level + 1) + MembersText(ToMembers(fields[i..], indent, level))
  }

  /** One turn of the array loop writes the indentation, the element and, unless it is the last, a comma. */
  lemma ElementsTailStep(items: seq<Value>, i: nat, indent: int, level: nat)
    requires i < |items| && PrintableItems(items[i..])
    ensures Printable(items[i]) && PrintableItems(items[i + 1..])
    ensures ElementsTail(items, i, indent, level) ==
            Indent(indent, level + 1) + (TreeText(ToTree(items[i], indent, level + 1)) +
              ((if i + 1 < |items| then [COMMA] else []) + ElementsTail(items, i + 1, indent, level)))
  {
    assert items[i..][1..] == items[i + 1..];
    var w := Indent(indent, level) + [RBRACKET];
    assert [] + w == w;
    if i + 1 < |items| {
      var more := Indent(indent, level + 1) + ElementsText(ToElements(items[i + 1..], indent, level));
      assert [] + ([COMMA] + more) == [COMMA] + more;
    }
  }

  lemma MembersTailStep(fields: seq<Field>, i: nat, indent: int, level: nat)
    requires i < |fields| && PrintableFields(fields[i..])
    ensures Printable(fields[i].value) && PrintableFields(fields[i + 1..])
    ensures MembersTail(fields, i, indent, level) ==
            Indent(indent, level + 1) + (MemberText(ToMember(fields[i], indent, level)) +
              ((if i + 1 < |fields| then [COMMA] else []) + MembersTail(fields, i + 1, indent, level)))
  {
    assert fields[i..][1..] == fields[i + 1..];
    var w := Indent(indent, level) + [RBRACE];
    assert [] + w == w;
    if i + 1 < |fields| {
      var more := Indent(indent, level + 1) + MembersText(ToMembers(fields[i + 1..], indent, level));
      assert [] + ([COMMA] + more) == [COMMA] + more;
    }
  }

  lemma EscapeTail(s: bytes)
    requires s != []
    ensures Text(EscapeTokens(s)) == TokenText(StepToken(s)) + Text(EscapeTokens(s[StepLength(s)..]))
  {
    TextCons(StepToken(s), EscapeTokens(s[StepLength(s)..]));
  }

  /** The octets snprintf writes for one escaped byte. */
  lemma HexOctetText(c: byte)
    ensures TokenText(Unit(HexOctet(c))) == [BACKSLASH, LETTER_U, 48, 48, HexLetter(c / 16), HexLetter(c % 16)]
  {
  }

  /** What one turn of the AppendEscapedString_ loop writes, and how many bytes it consumes. */
  method NextPiece(sw: bytes, i: nat) returns (piece: bytes, step: nat)
    requires i < |sw|
    ensures piece == TokenText(StepToken(sw[i..])) && step == StepLength(sw[i..])
  {
    LengthOfSuffix(sw, i);
    var c := sw[i];
    if c >= 128 {
      var length := Utf8Length(sw, i);
      if length > 0 {
        piece, step := sw[i..i + length], length;
        assert sw[i..][..length] == piece;
        DecodeAccepted(sw[i..], 0);
      } else {
        HexOctetText(c);
        piece, step := [BACKSLASH, LETTER_U, 48, 48, HexLetter(c / 16), HexLetter(c % 16)], 1;
      }
    } else {
      piece, step := EscapeAscii(c), 1;
    }
  }

  /** The std::string& that the serializer appends to. */
  class TextBuffer {
    var out: bytes

    constructor ()
      ensures out == []
    {
      out := [];
    }

    method Append(s: bytes)
      modifies this
      ensures out == old(out) + s
    {
      out := out + s;
    }

    method AppendEscapedString(sw: bytes)
      modifies this
      ensures out == old(out) + StringText(EscapeTokens(sw))
    {
      ghost var start := out;
      out := out + [QUOTE];
      var i := 0;
      while i < |sw|
        invariant i <= |sw|
        invariant out + Text(EscapeTokens(sw[i..])) == start + [QUOTE] + Text(EscapeTokens(sw))
        decreases |sw| - i
      {
        ghost var s := sw[i..];
        EscapeTail(s);
        var piece, step := NextPiece(sw, i);
        Glue(out, piece, Text(EscapeTokens(s[step..])));
        assert s[step..] == sw[i + step..];
        out := out + piece;
        i := i + step;
      }
      Closed(out, start, Text(EscapeTokens(sw)));
      out := out + [QUOTE];
    }

    method AppendIndent(indent: int, level: nat)
      modifies this
      ensures out == old(out) + Indent(indent, level)
    {
      if indent >= 0 {
        IndentBound(indent, level);
        out := out + [10];
        Glue(old(out), [10], Spaces(indent * level));
        out := out + Spaces(indent * level);
      } else {
        assert out == out + [];
      }
    }

    /** SerializeTo_: the text appended is that of a derivation of the grammar. */
    method SerializeTo(v: Value, indent: int, currentLevel: nat)
      requires Printable(v)
      modifies this
      ensures out == old(out) + TreeText(ToTree(v, indent, currentLevel))
      decreases v, 1
    {
      match v
      case Null => Append(NULL_TEXT);
      case Bool(b) => Append(if b then TRUE_TEXT else FALSE_TEXT);
      case Signed(i) => AppendInteger(i);
      case Unsigned(u) => AppendInteger(u);
      case Double(lexeme) =>
        LexemeText(lexeme);
        Append(lexeme);
      case String(text) => AppendEscapedString(text);
      case Array(items) => SerializeItems(items, indent, currentLevel);
      case Object(fields) => SerializeFields(fields, indent, currentLevel);
    }

    method AppendInteger(i: int)
      modifies this
      ensures out == old(out) + TreeText(IntegerTree(i))
    {
      IntegerText(i);
      Append((if i < 0 then [MINUS] else []) + DecimalText(if i < 0 then -i else i));
    }

    method SerializeItems(items: seq<Value>, indent: int, currentLevel: nat)
      requires PrintableItems(items)
      modifies this
      ensures out == old(out) + TreeText(ToTree(Array(items), indent, currentLevel))
      decreases items, 0
    {
      if items == [] {
        assert TreeText(EmptyArrayTree([])) == [LBRACKET, RBRACKET];
        out := out + [LBRACKET, RBRACKET];
        return;
      }
      ghost var start := out;
      out := out + [LBRACKET];
      assert items[0..] == items;
      ghost var goal := [LBRACKET] + ElementsTail(items, 0, indent, currentLevel);
      Glue(start, [LBRACKET], ElementsTail(items, 0, indent, currentLevel));
      for i := 0 to |items|
        invariant PrintableItems(items[i..])
        invariant out + ElementsTail(items, i, indent, currentLevel) == start + goal
      {
        ElementsTailStep(items, i, indent, currentLevel);
        ghost var a, b := Indent(indent, currentLevel + 1), TreeText(ToTree(items[i], indent, currentLevel + 1));
        ghost var c := if i + 1 < |items| then [COMMA] else [];
        Pieces(out, a, b, c, ElementsTail(items, i + 1, indent, currentLevel));
        AppendIndent(indent, currentLevel + 1);
        SerializeTo(items[i], indent, currentLevel + 1);
        if i + 1 < |items| {
          out := out + [COMMA];
        } else {
          assert out + [] == out;
        }
      }
      Glue(out, Indent(indent, currentLevel), [RBRACKET]);
      AppendIndent(indent, currentLevel);
      out := out + [RBRACKET];
    }

    method SerializeFields(fields: seq<Field>, indent: int, currentLevel: nat)
      requires PrintableFields(fields)
      modifies this
      ensures out == old(out) + TreeText(ToTree(Object(fields), indent, currentLevel))
      decreases fields, 0
    {
      if fields == [] {
        assert TreeText(EmptyObjectTree([])) == [LBRACE, RBRACE];
        out := out + [LBRACE, RBRACE];
        return;
      }
      ghost var start := out;
      out := out + [LBRACE];
      assert fields[0..] == fields;
      ghost var goal := [LBRACE] + MembersTail(fields, 0, indent, currentLevel);
      Glue(start, [LBRACE], MembersTail(fields, 0, indent, currentLevel));
      for i := 0 to |fields|
        invariant PrintableFields(fields[i..])
        invariant out + MembersTail(fields, i, indent, currentLevel) == start + goal
      {
        MembersTailStep(fields, i, indent, currentLevel);
        ghost var a, b := Indent(indent, currentLevel + 1), MemberText(ToMember(fields[i], indent, currentLevel));
        ghost var c := if i + 1 < |fields| then [COMMA] else [];
        Pieces(out, a, b, c, MembersTail(fields, i + 1, indent, currentLevel));
        AppendIndent(indent, currentLevel + 1);
        SerializeField(fields[i], indent, currentLevel);
        if i + 1 < |fields| {
          out := out + [COMMA];
        } else {
          assert out + [] == out;
        }
      }
      Glue(out, Indent(indent, currentLevel), [RBRACE]);
      AppendIndent(indent, currentLevel);
      out := out + [RBRACE];
    }

    method SerializeField(f: Field, indent: int, currentLevel: nat)
      requires Printable(f.value)
      modifies this
      ensures out == old(out) + MemberText(ToMember(f, indent, currentLevel))
      decreases f, 0
    {
      var colon := if indent >= 0 then [COLON, 32] else [COLON];
      ColonText(out, StringText(EscapeTokens(f.key)), indent, TreeText(ToTree(f.value, indent, currentLevel + 1)));
      AppendEscapedString(f.key);
      out := out + colon;
      SerializeTo(f.value, indent, currentLevel + 1);
    }
  }

  function EscapeAscii(c: byte): (r: bytes)
    requires c < 128
    ensures r == TokenText(AsciiToken(c))
  {
    if c == QUOTE then [BACKSLASH, QUOTE]
    else if c == BACKSLASH then [BACKSLASH, BACKSLASH]
    else if c == 8 then [BACKSLASH, 98]
    else if c == 12 then [BACKSLASH, 102]
    else if c == 10 then [BACKSLASH, 110]
    else if c == 13 then [BACKSLASH, 114]
    else if c == 9 then [BACKSLASH, 116]
    else if c < 0x20 then HexOctetText(c); [BACKSLASH, LETTER_U, 48, 48, HexLetter(c / 16), HexLetter(c % 16)]
    else [c]
  }

  lemma Closed(out: bytes, start: bytes, text: bytes)
    requires out + [] == start + [QUOTE] + text
    ensures out + [QUOTE] == start + ([QUOTE] + (text + [QUOTE]))
  {
    assert out == start + [QUOTE] + text;
  }

  lemma Pieces(out: bytes, a: bytes, b: bytes, c: bytes, tail: bytes)
    ensures out + (a + (b + (c + tail))) == (((out + a) + b) + c) + tail
  {
  }

  lemma ColonText(out: bytes, key: bytes, indent: int, v: bytes)
    ensures var sep: bytes := if indent >= 0 then [32] else [];
            var colon: bytes := if indent >= 0 then [COLON, 32] else [COLON];
            out + (key + ([] + ([COLON] + (sep + v)))) == ((out + key) + colon) + v
  {
    var sep: bytes := if indent >= 0 then [32] else [];
    var colon: bytes := if indent >= 0 then [COLON, 32] else [COLON];
    assert [COLON] + sep == colon;
    Glue([COLON], sep, v);
    assert [] + (colon + v) == colon + v;
    Glue(out, key, colon + v);
    Glue(out + key, colon, v);
  }

  lemma LexemeText(lexeme: bytes)
    requires NumberLexeme(lexeme)
    ensures NumberText(ReadNumber(lexeme).v) == lexeme
  {
    ReadNumberSound(lexeme);
    var t := NumberText(ReadNumber(lexeme).v);
    assert t + [] == t;
  }

  lemma IntegerText(i: int)
    ensures TreeText(IntegerTree(i)) == (if i < 0 then [MINUS] else []) + DecimalText(if i < 0 then -i else i)
  {
    var d := DecimalText(if i < 0 then -i else i);
    var nothing: bytes := [];
    assert nothing + nothing == nothing;
    assert d + nothing == d;
  }

  /** ToString: the text of v, in compact form or with the given indentation. */
  method ToString(v: Value, indent: int) returns (text: bytes)
    requires Printable(v)
    ensures text == TreeText(ToTree(v, indent, 0))
  {
    var serialized := new TextBuffer();
    serialized.SerializeTo(v, indent, 0);
    text := serialized.out;
    assert [] + TreeText(ToTree(v, indent, 0)) == TreeText(ToTree(v, indent, 0));
  }
}
