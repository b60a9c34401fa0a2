/** Printing a value and parsing the text again: exactly when it succeeds, and what comes back. */
module JsonRoundTrip {
  import opened Bytes
  import opened Utf8
  import opened JsonString
  import opened JsonValue
  import opened JsonGrammar
  import opened JsonSyntax
  import opened JsonOutcome
  import opened JsonPrinter
  import JsonParser

  // ----- What comes back -----

  /**
   * The value after a round trip: strings and keys are byte-repaired, a non-negative signed integer
   * becomes unsigned, and a double is read again from the text it was written with.
   */
  function Normalized(v: Value, floatOk: bytes -> bool): Value
    requires Printable(v)
    decreases v, 1
  {
    match v
    case Signed(i) => if i >= 0 then Unsigned(i) else v
    case Double(lexeme) => var n := NumberMeaning(ReadNumber(lexeme).v, floatOk); if n.Some? then n.value else Null
    case String(text) => String(Repair(text))
    case Array(items) => Array(NormalizedItems(items, floatOk))
    case Object(fields) => Object(NormalizedFields(fields, floatOk))
    case _ => v
  }

  function NormalizedItems(items: seq<Value>, floatOk: bytes -> bool): (r: seq<Value>)
    requires PrintableItems(items)
    ensures |r| == |items|
    decreases items, 0
  {
    if items == [] then [] else [Normalized(items[0], floatOk)] + NormalizedItems(items[1..], floatOk)
  }

  function NormalizedFields(fields: seq<Field>, floatOk: bytes -> bool): (r: seq<Field>)
    requires PrintableFields(fields)
    ensures |r| == |fields|
    decreases fields, 0
  {
    if fields == [] then []
    else [Field(Repair(fields[0].key), Normalized(fields[0].value, floatOk))] + NormalizedFields(fields[1..], floatOk)
  }

  // ----- When it succeeds -----

  function RepairedKeys(fields: seq<Field>): seq<bytes> {
    if fields == [] then [] else [Repair(fields[0].key)] + RepairedKeys(fields[1..])
  }

  /** Every object has at most 4096 keys, still distinct after the repair, and every double is read back. */
  ghost predicate Readable(v: Value, floatOk: bytes -> bool)
    requires Printable(v)
    decreases v, 1
  {
    match v
    case Double(lexeme) => NumberMeaning(ReadNumber(lexeme).v, floatOk).Some?
    case Array(items) => ReadableItems(items, floatOk)
    case Object(fields) => |fields| <= MAX_KEYS && Distinct(RepairedKeys(fields)) && ReadableFields(fields, floatOk)
    case _ => true
  }

  ghost predicate ReadableItems(items: seq<Value>, floatOk: bytes -> bool)
    requires PrintableItems(items)
    decreases items, 0
  {
    items == [] || (Readable(items[0], floatOk) && ReadableItems(items[1..], floatOk))
  }

  ghost predicate ReadableFields(fields: seq<Field>, floatOk: bytes -> bool)
    requires PrintableFields(fields)
    decreases fields, 0
  {
    fields == [] || (Readable(fields[0].value, floatOk) && ReadableFields(fields[1..], floatOk))
  }

  function ValueHeight(v: Value): nat {
    match v
    case Array(items) => 1 + ItemsHeight(items)
    case Object(fields) => 1 + FieldsHeight(fields)
    case _ => 1
  }

  function ItemsHeight(items: seq<Value>): nat {
    if items == [] then 0 else Max(ValueHeight(items[0]), ItemsHeight(items[1..]))
  }

  function FieldsHeight(fields: seq<Field>): nat {
    if fields == [] then 0 else Max(ValueHeight(fields[0].value), FieldsHeight(fields[1..]))
  }

  /** How many values v holds, itself included. */
  function ValueNodes(v: Value): nat {
    match v
    case Array(items) => 1 + ItemsNodes(items)
    case Object(fields) => 1 + FieldsNodes(fields)
    case _ => 1
  }

  function ItemsNodes(items: seq<Value>): nat {
    if items == [] then 0 else ValueNodes(items[0]) + ItemsNodes(items[1..])
  }

  function FieldsNodes(fields: seq<Field>): nat {
    if fields == [] then 0 else ValueNodes(fields[0].value) + FieldsNodes(fields[1..])
  }

  // ----- The text of a value is a derivation of the grammar -----

  lemma IntegerTreeOk(i: int)
    ensures TreeOk(IntegerTree(i))
  {
    DecimalTextLaws(if i < 0 then -i else i);
  }

  lemma {:induction false} TreeIsDerivation(v: Value, indent: int, level: nat)
    requires Printable(v)
    ensures Derivation(ToTree(v, indent, level))
    ensures Height(ToTree(v, indent, level)) == ValueHeight(v)
    ensures Nodes(ToTree(v, indent, level)) == ValueNodes(v)
    decreases v, 1
  {
    match v
    case Signed(i) => IntegerTreeOk(i);
    case Unsigned(u) => IntegerTreeOk(u);
    case Double(lexeme) => ReadNumberSound(lexeme);
    case String(text) => EscapeDecodes(text);
    case Array(items) =>
      IndentIsWs(indent, level + 1);
      if items != [] {
        ElementsAreDerivation(items, indent, level);
      }
    case Object(fields) =>
      IndentIsWs(indent, level + 1);
      if fields != [] {
        MembersAreDerivation(fields, indent, level);
      }
    case _ =>
  }

  lemma {:induction false} ElementsAreDerivation(items: seq<Value>, indent: int, level: nat)
    requires items != [] && PrintableItems(items)
    ensures var es := ToElements(items, indent, level);
            && ElementsOk(es) && ElementsEscapes(es)
            && ElementsHeight(es) == ItemsHeight(items) && ElementsNodes(es) == ItemsNodes(items)
    decreases items, 0
  {
    TreeIsDerivation(items[0], indent, level + 1);
    IndentIsWs(indent, level);
    IndentIsWs(indent, level + 1);
    if |items| > 1 {
      ElementsAreDerivation(items[1..], indent, level);
    }
  }

  lemma {:induction false} MembersAreDerivation(fields: seq<Field>, indent: int, level: nat)
    requires fields != [] && PrintableFields(fields)
    ensures var ms := ToMembers(fields, indent, level);
            && MembersOk(ms) && MembersEscapes(ms)
            && MembersHeight(ms) == FieldsHeight(fields) && MembersNodes(ms) == FieldsNodes(fields)
    decreases fields, 0
  {
    MemberIsDerivation(fields[0], indent, level);
    IndentIsWs(indent, level);
    IndentIsWs(indent, level + 1);
    if |fields| > 1 {
      MembersAreDerivation(fields[1..], indent, level);
    }
  }

  lemma {:induction false} MemberIsDerivation(f: Field, indent: int, level: nat)
    requires Printable(f.value)
    ensures var m := ToMember(f, indent, level);
            && MemberOk(m) && AllGrammatical(m.key) && Escapes(m.v)
            && Height(m.v) == ValueHeight(f.value) && Nodes(m.v) == ValueNodes(f.value)
    decreases f, 0
  {
    EscapeDecodes(f.key);
    TreeIsDerivation(f.value, indent, level + 1);
  }

  // ----- The meaning of the text -----

  lemma IntegerMeaning(i: int, floatOk: bytes -> bool)
    requires -0x8000_0000_0000_0000 <= i < 0x1_0000_0000_0000_0000
    ensures Meaning(IntegerTree(i), floatOk) == Some(if i < 0 then Signed(i) else Unsigned(i))
  {
    DecimalTextLaws(if i < 0 then -i else i);
  }

  lemma EscapedMeaning(s: bytes)
    ensures StringMeaning(EscapeTokens(s)) == Some(Repair(s))
  {
    EscapeDecodes(s);
  }

  lemma {:induction false} MeaningOfTree(v: Value, indent: int, level: nat, floatOk: bytes -> bool)
    requires Printable(v)
    ensures Meaning(ToTree(v, indent, level), floatOk) ==
            if Readable(v, floatOk) then Some(Normalized(v, floatOk)) else None
    decreases v, 1
  {
    match v
    case Signed(i) => IntegerMeaning(i, floatOk);
    case Unsigned(u) => IntegerMeaning(u, floatOk);
    case String(text) => EscapedMeaning(text);
    case Array(items) =>
      if items != [] {
        MeaningOfElements(items, indent, level, floatOk);
      }
    case Object(fields) =>
      if fields != [] {
        MeaningOfMembers(fields, indent, level, floatOk);
        KeysOfNormalized(fields, floatOk);
      }
    case _ =>
  }

  lemma {:induction false} MeaningOfElements(items: seq<Value>, indent: int, level: nat, floatOk: bytes -> bool)
    requires items != [] && PrintableItems(items)
    ensures ElementsMeaning(ToElements(items, indent, level), floatOk) ==
            if ReadableItems(items, floatOk) then Some(NormalizedItems(items, floatOk)) else None
    decreases items, 0
  {
    MeaningOfTree(items[0], indent, level + 1, floatOk);
    if |items| > 1 {
      MeaningOfElements(items[1..], indent, level, floatOk);
    } else {
      assert NormalizedItems(items, floatOk) == [Normalized(items[0], floatOk)];
    }
  }

  lemma {:induction false} MeaningOfMembers(fields: seq<Field>, indent: int, level: nat, floatOk: bytes -> bool)
    requires fields != [] && PrintableFields(fields)
    ensures MembersMeaning(ToMembers(fields, indent, level), floatOk) ==
            if ReadableFields(fields, floatOk) then Some(NormalizedFields(fields, floatOk)) else None
    decreases fields, 0
  {
    MeaningOfField(fields[0], indent, level, floatOk);
    if |fields| > 1 {
      MeaningOfMembers(fields[1..], indent, level, floatOk);
    } else {
      assert NormalizedFields(fields, floatOk) == [Field(Repair(fields[0].key), Normalized(fields[0].value, floatOk))];
    }
  }

  lemma {:induction false} MeaningOfField(f: Field, indent: int, level: nat, floatOk: bytes -> bool)
    requires Printable(f.value)
    ensures var m := ToMember(f, indent, level);
            && StringMeaning(m.key) == Some(Repair(f.key))
            && Meaning(m.v, floatOk) == if Readable(f.value, floatOk) then Some(Normalized(f.value, floatOk)) else None
    decreases f, 0
  {
    EscapedMeaning(f.key);
    MeaningOfTree(f.value, indent, level + 1, floatOk);
  }

  lemma {:induction false} KeysOfNormalized(fields: seq<Field>, floatOk: bytes -> bool)
    requires PrintableFields(fields)
    ensures KeysOf(NormalizedFields(fields, floatOk)) == RepairedKeys(fields)
  {
    if fields != [] {
      KeysOfNormalized(fields[1..], floatOk);
      var n := NormalizedFields(fields, floatOk);
      assert n[1..] == NormalizedFields(fields[1..], floatOk);
      assert KeysOf(n) == [n[0].key] + KeysOf(n[1..]);
    }
  }

  // ----- The main results -----

  /** What Parse makes of the text ToString writes. */
  ghost function Reparsed(v: Value, indent: int, floatOk: bytes -> bool): Option<Value>
    requires Printable(v)
  {
    ParseOutcome(TreeText(ToTree(v, indent, 0)), floatOk)
  }

  /**
   * Round trip, in both directions and for every indentation: the text of v is parsed again exactly when
   * v keeps the limits of the parser, and then the result is v normalized.
   */
  lemma RoundTrip(v: Value, indent: int, floatOk: bytes -> bool)
    requires Printable(v)
    ensures Reparsed(v, indent, floatOk) ==
            if |TreeText(ToTree(v, indent, 0))| <= MAX_TEXT && ValueHeight(v) <= MAX_DEPTH &&
               ValueNodes(v) <= MAX_NODES && Readable(v, floatOk)
            then Some(Normalized(v, floatOk)) else None
  {
    var t := ToTree(v, indent, 0);
    TreeIsDerivation(v, indent, 0);
    MeaningOfTree(v, indent, 0, floatOk);
    var nothing: bytes := [];
    var d := Document(nothing, t, nothing);
    ReadDocumentComplete(d);
    assert nothing + (TreeText(t) + nothing) == TreeText(t);
  }

  /** The same through the two methods: printing and then parsing. */
  method PrintAndParse(v: Value, indent: int, floatOk: bytes -> bool) returns (r: Option<Value>)
    requires Printable(v)
    ensures r.Some? ==> r.value == Normalized(v, floatOk)
    ensures r.Some? <==> (|TreeText(ToTree(v, indent, 0))| <= MAX_TEXT && ValueHeight(v) <= MAX_DEPTH &&
                          ValueNodes(v) <= MAX_NODES && Readable(v, floatOk))
  {
    var text := ToString(v, indent);
    r := JsonParser.Parse(text, floatOk);
    RoundTrip(v, indent, floatOk);
  }

  /** The integer accessors cannot tell a value from its round trip. */
  lemma AccessorsAgree(v: Value, floatOk: bytes -> bool)
    requires Printable(v) && !v.Double?
    ensures AsInt64(Normalized(v, floatOk)) == AsInt64(v)
    ensures AsUInt64(Normalized(v, floatOk)) == AsUInt64(v)
  {
  }

  // ----- Every string the parser returns is valid UTF-8 -----

  ghost predicate AllUtf8(v: Value)
    decreases v, 1
  {
    match v
    case String(text) => ValidUtf8(text)
    case Array(items) => ItemsUtf8(items)
    case Object(fields) => FieldsUtf8(fields)
    case _ => true
  }

  ghost predicate ItemsUtf8(items: seq<Value>)
    decreases items, 0
  {
    items == [] || (AllUtf8(items[0]) && ItemsUtf8(items[1..]))
  }

  ghost predicate FieldsUtf8(fields: seq<Field>)
    decreases fields, 0
  {
    fields == [] || (ValidUtf8(fields[0].key) && AllUtf8(fields[0].value) && FieldsUtf8(fields[1..]))
  }

  lemma {:induction false} MeaningIsUtf8(t: Tree, floatOk: bytes -> bool)
    requires Meaning(t, floatOk).Some?
    ensures AllUtf8(Meaning(t, floatOk).value)
  {
    match t
    case StringTree(tokens) => JsonParser.MeaningIsUtf8(tokens);
    case ArrayTree(_, es) => ElementsMeaningIsUtf8(es, floatOk);
    case ObjectTree(_, ms) => MembersMeaningIsUtf8(ms, floatOk);
    case _ =>
  }

  lemma {:induction false} ElementsMeaningIsUtf8(es: Elements, floatOk: bytes -> bool)
    requires ElementsMeaning(es, floatOk).Some?
    ensures ItemsUtf8(ElementsMeaning(es, floatOk).value)
  {
    MeaningIsUtf8(es.v, floatOk);
    var items := ElementsMeaning(es, floatOk).value;
    if es.MoreElements? {
      ElementsMeaningIsUtf8(es.rest, floatOk);
      assert items[1..] == ElementsMeaning(es.rest, floatOk).value;
    } else {
      assert items[1..] == [];
    }
  }

  lemma {:induction false} MembersMeaningIsUtf8(ms: Members, floatOk: bytes -> bool)
    requires MembersMeaning(ms, floatOk).Some?
    ensures FieldsUtf8(MembersMeaning(ms, floatOk).value)
  {
    JsonParser.MeaningIsUtf8(ms.m.key);
    MeaningIsUtf8(ms.m.v, floatOk);
    var fields := MembersMeaning(ms, floatOk).value;
    if ms.MoreMembers? {
      MembersMeaningIsUtf8(ms.rest, floatOk);
      assert fields[1..] == MembersMeaning(ms.rest, floatOk).value;
    } else {
      assert fields[1..] == [];
    }
  }

  /** Whatever the input bytes, every string and every key that Parse returns is valid UTF-8. */
  lemma ParsedIsUtf8(s: bytes, floatOk: bytes -> bool)
    requires ParseOutcome(s, floatOk).Some?
    ensures AllUtf8(ParseOutcome(s, floatOk).value)
  {
    MeaningIsUtf8(ReadDocument(s).value.root, floatOk);
  }
}
