/**
 * The grammar of RFC 8259 as derivation trees: a tree, the text it derives, when it is well formed,
 * what value the grammar assigns to it, and the limits the parser puts on it.
 */
module JsonGrammar {
  import opened Bytes
  import opened Utf8
  import opened JsonString
  import opened JsonValue

  const MAX_TEXT := 8 * 1024 * 1024
  const MAX_DEPTH := 64
  const MAX_NODES := 1000000
  const MAX_KEYS := 4096

  const LBRACKET: byte := 91
  const RBRACKET: byte := 93
  const LBRACE: byte := 123
  const RBRACE: byte := 125
  const COMMA: byte := 44
  const COLON: byte := 58
  const MINUS: byte := 45
  const PLUS: byte := 43
  const POINT: byte := 46
  const ZERO: byte := 48
  const NULL_TEXT: bytes := [110, 117, 108, 108]
  const TRUE_TEXT: bytes := [116, 114, 117, 101]
  const FALSE_TEXT: bytes := [102, 97, 108, 115, 101]

  // ----- Trees and their texts -----

  /** number = [ minus ] int [ frac ] [ exp ]; sign is empty or one byte. */
  datatype Number = Number(minus: bool, digits: bytes, frac: Option<bytes>, exp: Option<Exponent>)

  datatype Exponent = Exponent(e: byte, sign: bytes, digits: bytes)

  datatype Tree =
    | NullTree
    | BoolTree(b: bool)
    | NumberTree(n: Number)
    | StringTree(tokens: seq<Token>)
    | EmptyArrayTree(ws: bytes)
    | ArrayTree(ws: bytes, elements: Elements)
    | EmptyObjectTree(ws: bytes)
    | ObjectTree(ws: bytes, members: Members)

  /** A non-empty list of elements up to the closing bracket; every ws stands after a value or a comma. */
  datatype Elements =
    | LastElement(v: Tree, after: bytes)
    | MoreElements(v: Tree, after: bytes, ws: bytes, rest: Elements)

  /** member = string name-separator value, with the ws on both sides of the colon. */
  datatype Member = Member(key: seq<Token>, ws1: bytes, ws2: bytes, v: Tree)

  datatype Members =
    | LastMember(m: Member, after: bytes)
    | MoreMembers(m: Member, after: bytes, ws: bytes, rest: Members)

  function NumberText(n: Number): bytes {
    (if n.minus then [MINUS] else []) + (n.digits + (FractionText(n.frac) + ExponentText(n.exp)))
  }

  function FractionText(f: Option<bytes>): bytes {
    if f.Some? then [POINT] + f.value else []
  }

  function ExponentText(e: Option<Exponent>): bytes {
    if e.Some? then [e.value.e] + (e.value.sign + e.value.digits) else []
  }

  function StringText(tokens: seq<Token>): bytes { [QUOTE] + (Text(tokens) + [QUOTE]) }

  function TreeText(t: Tree): bytes {
    match t
    case NullTree => NULL_TEXT
    case BoolTree(b) => if b then TRUE_TEXT else FALSE_TEXT
    case NumberTree(n) => NumberText(n)
    case StringTree(tokens) => StringText(tokens)
    case EmptyArrayTree(ws) => [LBRACKET] + (ws + [RBRACKET])
    case ArrayTree(ws, elements) => [LBRACKET] + (ws + ElementsText(elements))
    case EmptyObjectTree(ws) => [LBRACE] + (ws + [RBRACE])
    case ObjectTree(ws, members) => [LBRACE] + (ws + MembersText(members))
  }

  function ElementsText(es: Elements): bytes {
    match es
    case LastElement(v, after) => TreeText(v) + (after + [RBRACKET])
    case MoreElements(v, after, ws, rest) => TreeText(v) + (after + ([COMMA] + (ws + ElementsText(rest))))
  }

  function MemberText(m: Member): bytes {
    StringText(m.key) + (m.ws1 + ([COLON] + (m.ws2 + TreeText(m.v))))
  }

  function MembersText(ms: Members): bytes {
    match ms
    case LastMember(m, after) => MemberText(m) + (after + [RBRACE])
    case MoreMembers(m, after, ws, rest) => MemberText(m) + (after + ([COMMA] + (ws + MembersText(rest))))
  }

  // ----- Well-formedness -----

  predicate IsWs(c: byte) { c == 32 || c == 9 || c == 10 || c == 13 }

  predicate Ws(s: bytes) { s == [] || (IsWs(s[0]) && Ws(s[1..])) }

  predicate IsDigit(c: byte) { 48 <= c <= 57 }

  predicate Digits(s: bytes) { s == [] || (IsDigit(s[0]) && Digits(s[1..])) }

  predicate NumberOk(n: Number) {
    && n.digits != [] && Digits(n.digits) && (n.digits[0] == ZERO ==> |n.digits| == 1)
    && (n.frac.Some? ==> n.frac.value != [] && Digits(n.frac.value))
    && (n.exp.Some? ==> ExponentOk(n.exp.value))
  }

  predicate ExponentOk(e: Exponent) {
    && (e.e == 101 || e.e == 69) && (e.sign == [] || e.sign == [PLUS] || e.sign == [MINUS])
    && e.digits != [] && Digits(e.digits)
  }

  /** A derivation of the grammar, up to the letters after a backslash (see Derivation). */
  predicate TreeOk(t: Tree) {
    match t
    case NullTree => true
    case BoolTree(_) => true
    case NumberTree(n) => NumberOk(n)
    case StringTree(tokens) => AllLexical(tokens)
    case EmptyArrayTree(ws) => Ws(ws)
    case ArrayTree(ws, elements) => Ws(ws) && ElementsOk(elements)
    case EmptyObjectTree(ws) => Ws(ws)
    case ObjectTree(ws, members) => Ws(ws) && MembersOk(members)
  }

  predicate ElementsOk(es: Elements) {
    Ws(es.after) && TreeOk(es.v) && (es.MoreElements? ==> Ws(es.ws) && ElementsOk(es.rest))
  }

  predicate MemberOk(m: Member) { AllLexical(m.key) && Ws(m.ws1) && Ws(m.ws2) && TreeOk(m.v) }

  predicate MembersOk(ms: Members) {
    Ws(ms.after) && MemberOk(ms.m) && (ms.MoreMembers? ==> Ws(ms.ws) && MembersOk(ms.rest))
  }

  /** Every string literal of the tree uses only the escapes of the grammar. */
  predicate Escapes(t: Tree) {
    match t
    case StringTree(tokens) => AllGrammatical(tokens)
    case ArrayTree(_, elements) => ElementsEscapes(elements)
    case ObjectTree(_, members) => MembersEscapes(members)
    case _ => true
  }

  predicate ElementsEscapes(es: Elements) {
    Escapes(es.v) && (es.MoreElements? ==> ElementsEscapes(es.rest))
  }

  predicate MembersEscapes(ms: Members) {
    AllGrammatical(ms.m.key) && Escapes(ms.m.v) && (ms.MoreMembers? ==> MembersEscapes(ms.rest))
  }

  /** A value of the RFC 8259 grammar. */
  predicate Derivation(t: Tree) { TreeOk(t) && Escapes(t) }

  // ----- Limits -----

  function Height(t: Tree): nat {
    match t
    case ArrayTree(_, elements) => 1 + ElementsHeight(elements)
    case ObjectTree(_, members) => 1 + MembersHeight(members)
    case _ => 1
  }

  function ElementsHeight(es: Elements): nat {
    if es.MoreElements? then Max(Height(es.v), ElementsHeight(es.rest)) else Height(es.v)
  }

  function MembersHeight(ms: Members): nat {
    if ms.MoreMembers? then Max(Height(ms.m.v), MembersHeight(ms.rest)) else Height(ms.m.v)
  }

  /** How many values the tree holds, itself included. */
  function Nodes(t: Tree): nat {
    match t
    case ArrayTree(_, elements) => 1 + ElementsNodes(elements)
    case ObjectTree(_, members) => 1 + MembersNodes(members)
    case _ => 1
  }

  function ElementsNodes(es: Elements): nat {
    Nodes(es.v) + if es.MoreElements? then ElementsNodes(es.rest) else 0
  }

  function MembersNodes(ms: Members): nat {
    Nodes(ms.m.v) + if ms.MoreMembers? then MembersNodes(ms.rest) else 0
  }

  // ----- Meaning -----

  function Prefix<T>(x: T, rest: Option<seq<T>>): Option<seq<T>> {
    if rest.Some? then Some([x] + rest.value) else None
  }

  function DigitValue(c: byte): nat { if IsDigit(c) then c as int - 48 else 0 }

  /** The value of a run of decimal digits. */
  function Decimal(s: bytes): nat {
    if s == [] then 0 else Decimal(s[..|s| - 1]) * 10 + DigitValue(s[|s| - 1])
  }

  /** floatOk tells which number texts the library converts to a finite double. */
  function NumberMeaning(n: Number, floatOk: bytes -> bool): Option<Value> {
    if n.frac.Some? || n.exp.Some? then
      if floatOk(NumberText(n)) then Some(Double(NumberText(n))) else None
    else if n.minus then
      if Decimal(n.digits) <= INT64_MAX + 1 then Some(Signed(0 - Decimal(n.digits) as int)) else None
    else if Decimal(n.digits) <= 0xFFFF_FFFF_FFFF_FFFF then Some(Unsigned(Decimal(n.digits)))
    else None
  }

  /** The UTF-8 text of the code points a literal denotes. */
  function StringMeaning(tokens: seq<Token>): Option<bytes> {
    if Points(tokens).Some? then Some(EncodeAll(Points(tokens).value)) else None
  }

  predicate Distinct(keys: seq<bytes>) {
    keys == [] || (keys[0] !in keys[1..] && Distinct(keys[1..]))
  }

  function KeysOf(fields: seq<Field>): (r: seq<bytes>)
    ensures |r| == |fields|
  {
    seq(|fields|, i requires 0 <= i < |fields| => fields[i].key)
  }

  /** The value of a tree; None when a string, a number or the keys of an object are out of bounds. */
  function Meaning(t: Tree, floatOk: bytes -> bool): Option<Value> {
    match t
    case NullTree => Some(Null)
    case BoolTree(b) => Some(Bool(b))
    case NumberTree(n) => NumberMeaning(n, floatOk)
    case StringTree(tokens) => if StringMeaning(tokens).Some? then Some(String(StringMeaning(tokens).value)) else None
    case EmptyArrayTree(_) => Some(Array([]))
    case ArrayTree(_, elements) =>
      var items := ElementsMeaning(elements, floatOk);
      if items.Some? then Some(Array(items.value)) else None
    case EmptyObjectTree(_) => Some(Object([]))
    case ObjectTree(_, members) =>
      var fields := MembersMeaning(members, floatOk);
      if fields.Some? && |fields.value| <= MAX_KEYS && Distinct(KeysOf(fields.value)) then Some(Object(fields.value))
      else None
  }

  function ElementsMeaning(es: Elements, floatOk: bytes -> bool): Option<seq<Value>> {
    var v := Meaning(es.v, floatOk);
    if v.None? then None
    else if es.LastElement? then Some([v.value])
    else Prefix(v.value, ElementsMeaning(es.rest, floatOk))
  }

  function MembersMeaning(ms: Members, floatOk: bytes -> bool): Option<seq<Field>> {
    var key, v := StringMeaning(ms.m.key), Meaning(ms.m.v, floatOk);
    if key.None? || v.None? then None
    else if ms.LastMember? then Some([Field(key.value, v.value)])
    else Prefix(Field(key.value, v.value), MembersMeaning(ms.rest, floatOk))
  }

  // ----- Documents -----

  /** JSON-text = ws value ws. */
  datatype Document = Document(before: bytes, root: Tree, after: bytes)

  function DocumentText(d: Document): bytes { d.before + (TreeText(d.root) + d.after) }

  predicate DocumentOk(d: Document) { Ws(d.before) && Derivation(d.root) && Ws(d.after) }

  /** The document keeps every limit of the parser and has the given value. */
  predicate Accepted(d: Document, floatOk: bytes -> bool, v: Value) {
    && DocumentOk(d) && |DocumentText(d)| <= MAX_TEXT
    && Height(d.root) <= MAX_DEPTH && Nodes(d.root) <= MAX_NODES
    && Meaning(d.root, floatOk) == Some(v)
  }

  /** What has a meaning uses only the escapes of the grammar. */
  lemma {:induction false} MeaningEscapes(t: Tree, floatOk: bytes -> bool)
    requires TreeOk(t) && Meaning(t, floatOk).Some?
    ensures Escapes(t)
  {
    match t
    case StringTree(tokens) => PointsGrammatical(tokens);
    case ArrayTree(_, elements) => ElementsMeaningEscapes(elements, floatOk);
    case ObjectTree(_, members) => MembersMeaningEscapes(members, floatOk);
    case _ =>
  }

  lemma {:induction false} ElementsMeaningEscapes(es: Elements, floatOk: bytes -> bool)
    requires ElementsOk(es) && ElementsMeaning(es, floatOk).Some?
    ensures ElementsEscapes(es)
  {
    MeaningEscapes(es.v, floatOk);
    if es.MoreElements? {
      ElementsMeaningEscapes(es.rest, floatOk);
    }
  }

  lemma {:induction false} MembersMeaningEscapes(ms: Members, floatOk: bytes -> bool)
    requires MembersOk(ms) && MembersMeaning(ms, floatOk).Some?
    ensures MembersEscapes(ms)
  {
    PointsGrammatical(ms.m.key);
    MeaningEscapes(ms.m.v, floatOk);
    if ms.MoreMembers? {
      MembersMeaningEscapes(ms.rest, floatOk);
    }
  }
}
