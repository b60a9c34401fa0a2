/**
 * What the one-pass parser must return, stated over the reference recogniser: read a derivation, then
 * check depth, node count and meaning. The unfolding lemmas say that the early exits of a single pass,
 * with running counters and a set of keys seen so far, reject exactly the same texts.
 */
module JsonOutcome {
  import opened Bytes
  import opened JsonValue
  import opened JsonGrammar
  import opened JsonSyntax

  datatype Outcome<+T> = Reject | Accept(v: T, rest: bytes, nodes: nat)

  /** Parsing a value at nesting depth d with n values counted so far. */
  ghost function ValueOutcome(s: bytes, d: nat, n: nat, floatOk: bytes -> bool): Outcome<Value> {
    var t := ReadTree(SkipWs(s));
    if t.Fail? then Reject else TreeOutcome(t.v, t.rest, d, n, floatOk)
  }

  ghost function TreeOutcome(t: Tree, rest: bytes, d: nat, n: nat, floatOk: bytes -> bool): Outcome<Value> {
    if d + Height(t) <= MAX_DEPTH && n + Nodes(t) <= MAX_NODES && Meaning(t, floatOk).Some? then
      Accept(Meaning(t, floatOk).value, rest, n + Nodes(t))
    else Reject
  }

  ghost function ElementsOutcome(s: bytes, d: nat, n: nat, floatOk: bytes -> bool): Outcome<seq<Value>> {
    var es := ReadElements(s);
    if es.Fail? then Reject else ElementsTreeOutcome(es.v, es.rest, d, n, floatOk)
  }

  ghost function ElementsTreeOutcome(es: Elements, rest: bytes, d: nat, n: nat,
                                     floatOk: bytes -> bool): Outcome<seq<Value>>
  {
    if d + ElementsHeight(es) <= MAX_DEPTH && n + ElementsNodes(es) <= MAX_NODES &&
       ElementsMeaning(es, floatOk).Some? then
      Accept(ElementsMeaning(es, floatOk).value, rest, n + ElementsNodes(es))
    else Reject
  }

  /** Adding an accepted head to the outcome of the rest. */
  function PrependTo<T>(v: T, more: Outcome<seq<T>>): Outcome<seq<T>> {
    if more.Accept? then Accept([v] + more.v, more.rest, more.nodes) else Reject
  }

  function AppendTo<T>(vs: seq<T>, more: Outcome<seq<T>>): Outcome<seq<T>> {
    if more.Accept? then Accept(vs + more.v, more.rest, more.nodes) else Reject
  }

  lemma SkipWsTwice(s: bytes)
    requires s == [] || !IsWs(s[0])
    ensures SkipWs(s) == s
  {
  }

  /** One turn of the array loop. */
  ghost function ElementsTurn(s: bytes, d: nat, n: nat, floatOk: bytes -> bool): Outcome<seq<Value>> {
    var v := ValueOutcome(s, d, n, floatOk);
    if v.Reject? then Reject
    else
      var s1 := SkipWs(v.rest);
      if s1 == [] then Reject
      else if s1[0] == RBRACKET then Accept([v.v], s1[1..], v.nodes)
      else if s1[0] == COMMA then PrependTo(v.v, ElementsOutcome(SkipWs(s1[1..]), d, v.nodes, floatOk))
      else Reject
  }

  lemma MoreElementsOutcome(es: Elements, rest: bytes, d: nat, n: nat, floatOk: bytes -> bool)
    requires es.MoreElements?
    ensures var v := TreeOutcome(es.v, [], d, n, floatOk);
            ElementsTreeOutcome(es, rest, d, n, floatOk) ==
            if v.Reject? then Reject else PrependTo(v.v, ElementsTreeOutcome(es.rest, rest, d, v.nodes, floatOk))
  {
  }

  lemma ElementsUnfold(s: bytes, d: nat, n: nat, floatOk: bytes -> bool)
    requires s == [] || !IsWs(s[0])
    ensures ElementsOutcome(s, d, n, floatOk) == ElementsTurn(s, d, n, floatOk)
  {
    SkipWsTwice(s);
    var es := ReadElements(s);
    if es.Got? && es.v.MoreElements? {
      MoreElementsOutcome(es.v, es.rest, d, n, floatOk);
    }
  }

  ghost predicate Fresh(fields: seq<Field>, seen: set<bytes>) {
    fields == [] || (fields[0].key !in seen && Fresh(fields[1..], seen + {fields[0].key}))
  }

  ghost function MembersOutcome(s: bytes, d: nat, n: nat, seen: set<bytes>,
                                floatOk: bytes -> bool): Outcome<seq<Field>>
  {
    var ms := ReadMembers(s);
    if ms.Fail? then Reject else MembersTreeOutcome(ms.v, ms.rest, d, n, seen, floatOk)
  }

  ghost function MembersTreeOutcome(ms: Members, rest: bytes, d: nat, n: nat, seen: set<bytes>, floatOk: bytes -> bool)
    : Outcome<seq<Field>>
  {
    if d + MembersHeight(ms) <= MAX_DEPTH && n + MembersNodes(ms) <= MAX_NODES && MembersMeaning(ms, floatOk).Some? &&
       |seen| + |MembersMeaning(ms, floatOk).value| <= MAX_KEYS && Fresh(MembersMeaning(ms, floatOk).value, seen) then
      Accept(MembersMeaning(ms, floatOk).value, rest, n + MembersNodes(ms))
    else Reject
  }

  /** A key not seen before and a colon. */
  ghost function KeyOutcome(s: bytes, seen: set<bytes>): Read<bytes> {
    var key := ReadString(s);
    if key.Fail? || StringMeaning(key.v).None? || |seen| >= MAX_KEYS || StringMeaning(key.v).value in seen then Fail
    else
      var s1 := SkipWs(key.rest);
      if s1 == [] || s1[0] != COLON then Fail else Got(StringMeaning(key.v).value, s1[1..])
  }

  /** A member: a key not seen before, a colon, a value. */
  ghost function MemberOutcome(s: bytes, d: nat, n: nat, seen: set<bytes>, floatOk: bytes -> bool): Outcome<Field> {
    var key := KeyOutcome(s, seen);
    if key.Fail? then Reject
    else
      var v := ValueOutcome(key.rest, d, n, floatOk);
      if v.Reject? then Reject else Accept(Field(key.v, v.v), v.rest, v.nodes)
  }

  ghost function MemberTreeOutcome(m: Member, rest: bytes, d: nat, n: nat, seen: set<bytes>, floatOk: bytes -> bool)
    : Outcome<Field>
  {
    var v := TreeOutcome(m.v, rest, d, n, floatOk);
    if StringMeaning(m.key).None? || |seen| >= MAX_KEYS || StringMeaning(m.key).value in seen || v.Reject? then Reject
    else Accept(Field(StringMeaning(m.key).value, v.v), rest, v.nodes)
  }

  lemma MemberRead(s: bytes, d: nat, n: nat, seen: set<bytes>, floatOk: bytes -> bool)
    ensures var m := ReadMember(s);
            MemberOutcome(s, d, n, seen, floatOk) ==
            if m.Fail? then Reject else MemberTreeOutcome(m.v, m.rest, d, n, seen, floatOk)
  {
  }

  lemma FreshOne(f: Field, more: seq<Field>, seen: set<bytes>)
    ensures Fresh([f] + more, seen) <==> f.key !in seen && Fresh(more, seen + {f.key})
  {
    assert ([f] + more)[1..] == more;
  }

  lemma LastMemberOutcome(m: Member, after: bytes, rest: bytes, d: nat, n: nat, seen: set<bytes>,
                          floatOk: bytes -> bool)
    ensures var o := MemberTreeOutcome(m, [], d, n, seen, floatOk);
            MembersTreeOutcome(LastMember(m, after), rest, d, n, seen, floatOk) ==
            if o.Reject? then Reject else Accept([o.v], rest, o.nodes)
  {
    if StringMeaning(m.key).Some? && Meaning(m.v, floatOk).Some? {
      var f := Field(StringMeaning(m.key).value, Meaning(m.v, floatOk).value);
      assert [f] + [] == [f];
      FreshOne(f, [], seen);
    }
  }

  lemma MoreMembersOutcome(m: Member, after: bytes, ws: bytes, more: Members, rest: bytes,
                           d: nat, n: nat, seen: set<bytes>, floatOk: bytes -> bool)
    ensures var o := MemberTreeOutcome(m, [], d, n, seen, floatOk);
            MembersTreeOutcome(MoreMembers(m, after, ws, more), rest, d, n, seen, floatOk) ==
            if o.Reject? then Reject
            else PrependTo(o.v, MembersTreeOutcome(more, rest, d, o.nodes, seen + {o.v.key}, floatOk))
  {
    var ms := MoreMembers(m, after, ws, more);
    assert MembersHeight(ms) == Max(Height(m.v), MembersHeight(more));
    assert MembersNodes(ms) == Nodes(m.v) + MembersNodes(more);
    if StringMeaning(m.key).Some? && Meaning(m.v, floatOk).Some? && MembersMeaning(more, floatOk).Some? {
      var f, fs := Field(StringMeaning(m.key).value, Meaning(m.v, floatOk).value), MembersMeaning(more, floatOk).value;
      assert MembersMeaning(ms, floatOk) == Some([f] + fs) && |[f] + fs| == 1 + |fs|;
      FreshOne(f, fs, seen);
      assert f.key !in seen ==> |seen + {f.key}| == |seen| + 1;
    } else {
      assert MembersMeaning(ms, floatOk).None?;
    }
  }

  /** One turn of the object loop. */
  ghost function MembersTurn(s: bytes, d: nat, n: nat, seen: set<bytes>, floatOk: bytes -> bool): Outcome<seq<Field>> {
    var m := MemberOutcome(s, d, n, seen, floatOk);
    if m.Reject? then Reject
    else
      var s1 := SkipWs(m.rest);
      if s1 == [] then Reject
      else if s1[0] == RBRACE then Accept([m.v], s1[1..], m.nodes)
      else if s1[0] == COMMA then
        PrependTo(m.v, MembersOutcome(SkipWs(s1[1..]), d, m.nodes, seen + {m.v.key}, floatOk))
      else Reject
  }

  lemma MoreRead(s: bytes)
    requires ReadMembers(s).Got? && ReadMembers(s).v.MoreMembers?
    ensures var ms, m := ReadMembers(s), ReadMember(s);
            var s1 := SkipWs(m.rest);
            && m.Got? && m.v == ms.v.m && s1 != [] && s1[0] == COMMA
            && ReadMembers(SkipWs(s1[1..])) == Got(ms.v.rest, ms.rest)
  {
  }

  lemma UnfoldMore(s: bytes, d: nat, n: nat, seen: set<bytes>, floatOk: bytes -> bool)
    requires ReadMembers(s).Got? && ReadMembers(s).v.MoreMembers?
    ensures MembersOutcome(s, d, n, seen, floatOk) == MembersTurn(s, d, n, seen, floatOk)
  {
    var ms := ReadMembers(s);
    MoreRead(s);
    MemberRead(s, d, n, seen, floatOk);
    MoreMembersOutcome(ms.v.m, ms.v.after, ms.v.ws, ms.v.rest, ms.rest, d, n, seen, floatOk);
  }

  lemma MembersUnfold(s: bytes, d: nat, n: nat, seen: set<bytes>, floatOk: bytes -> bool)
    ensures MembersOutcome(s, d, n, seen, floatOk) == MembersTurn(s, d, n, seen, floatOk)
  {
    var ms := ReadMembers(s);
    if ms.Got? && ms.v.MoreMembers? {
      UnfoldMore(s, d, n, seen, floatOk);
    } else {
      MemberRead(s, d, n, seen, floatOk);
      if ms.Got? {
        LastMemberOutcome(ms.v.m, ms.v.after, ms.rest, d, n, seen, floatOk);
      }
    }
  }

  /** Fresh keys are the distinct keys of the grammar's objects. */
  lemma {:induction false} FreshIffDistinct(fields: seq<Field>, seen: set<bytes>)
    ensures Fresh(fields, seen) <==> Distinct(KeysOf(fields)) && (forall f <- fields :: f.key !in seen)
  {
    if fields != [] {
      var k := fields[0].key;
      FreshIffDistinct(fields[1..], seen + {k});
      assert KeysOf(fields)[1..] == KeysOf(fields[1..]);
      assert forall f <- fields :: f == fields[0] || f in fields[1..];
      if k in KeysOf(fields[1..]) {
        var i :| 0 <= i < |fields| - 1 && KeysOf(fields[1..])[i] == k;
        assert fields[1..][i].key == k && fields[1..][i] in fields[1..];
      } else {
        forall f | f in fields[1..] ensures f.key != k {
          var i :| 0 <= i < |fields| - 1 && fields[1..][i] == f;
          assert KeysOf(fields[1..])[i] == f.key;
        }
      }
    }
  }

  /** What Parse returns for a whole text. */
  ghost function ParseOutcome(s: bytes, floatOk: bytes -> bool): Option<Value> {
    if |s| > MAX_TEXT then None
    else
      var d := ReadDocument(s);
      if d.Some? && Height(d.value.root) <= MAX_DEPTH && Nodes(d.value.root) <= MAX_NODES
      then Meaning(d.value.root, floatOk)
      else None
  }

  /**
   * Soundness and completeness: a text is parsed to v exactly when the RFC 8259 grammar derives it, the
   * derivation keeps every limit, and v is the value the grammar assigns to it.
   */
  lemma ParseIffAccepted(s: bytes, floatOk: bytes -> bool, v: Value)
    ensures ParseOutcome(s, floatOk) == Some(v) <==> exists d :: DocumentText(d) == s && Accepted(d, floatOk, v)
  {
    if ParseOutcome(s, floatOk) == Some(v) {
      ReadDocumentSound(s);
      var d := ReadDocument(s).value;
      MeaningEscapes(d.root, floatOk);
      assert DocumentText(d) == s && Accepted(d, floatOk, v);
    }
    if d :| DocumentText(d) == s && Accepted(d, floatOk, v) {
      ReadDocumentComplete(d);
    }
  }

  /** The outcome for a whole text, from the outcome for its value at depth 0. */
  lemma ParseFromValue(s: bytes, floatOk: bytes -> bool)
    requires |s| <= MAX_TEXT
    ensures var v := ValueOutcome(s, 0, 0, floatOk);
            ParseOutcome(s, floatOk) == if v.Accept? && SkipWs(v.rest) == [] then Some(v.v) else None
  {
  }
}
