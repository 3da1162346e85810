/**
 A reference parser for the relaxed grammar: it builds the concrete syntax tree that the
 payload scanner never builds.  It is sound and complete for the grammar, hence the grammar
 is unambiguous; the scanner's loops are proved against it.
 */
module JsonParser {
  import opened JsonGrammar

  datatype Parsed<+T> = Fail | Done(value: T, end: nat)

  // ---- Where a text lies ----

  predicate At(s: string, i: nat, text: string) {
    i + |text| <= |s| && AtFrom(s, i, text, 0)
  }

  predicate AtFrom(s: string, i: nat, text: string, k: nat)
    requires i + |text| <= |s|
    decreases |text| - k
  {
    k < |text| ==> s[i + k] == text[k] && AtFrom(s, i, text, k + 1)
  }

  lemma {:induction false} AtFromSlice(s: string, i: nat, text: string, k: nat)
    requires i + |text| <= |s| && k <= |text|
    ensures AtFrom(s, i, text, k) <==> s[i + k..i + |text|] == text[k..]
    decreases |text| - k
  {
    if k < |text| {
      AtFromSlice(s, i, text, k + 1);
      assert s[i + k..i + |text|] == [s[i + k]] + s[i + k + 1..i + |text|];
      assert text[k..] == [text[k]] + text[k + 1..];
    }
  }

  lemma AtSlice(s: string, i: nat, text: string)
    ensures At(s, i, text) <==> i + |text| <= |s| && s[i..i + |text|] == text
  {
    if i + |text| <= |s| { AtFromSlice(s, i, text, 0); }
  }

  lemma AtOwnSlice(s: string, i: nat, j: nat)
    requires i <= j <= |s|
    ensures At(s, i, s[i..j])
  {
    AtSlice(s, i, s[i..j]);
  }

  predicate Holds(s: string, i: nat, c: char) { i < |s| && s[i] == c }

  lemma AtTail(s: string, i: nat, text: string)
    requires At(s, i, text) && text != ""
    ensures s[i] == text[0] && At(s, i + 1, text[1..])
  {
    AtSlice(s, i, text);
    AtSlice(s, i + 1, text[1..]);
    assert s[i + 1..i + |text|] == s[i..i + |text|][1..];
  }

  // ---- Blanks ----

  /** The first position at or after `i` that holds no blank. */
  function AfterBlank(s: string, i: nat): (j: nat)
    requires i <= |s|
    ensures i <= j <= |s|
    ensures j < |s| ==> !IsSpace(s[j])
    decreases |s| - i
  {
    if i < |s| && IsSpace(s[i]) then AfterBlank(s, i + 1) else i
  }

  lemma {:induction false} AfterBlankSkipsBlanks(s: string, i: nat)
    requires i <= |s|
    ensures IsBlank(s[i..AfterBlank(s, i)])
    decreases |s| - i
  {
    var j := AfterBlank(s, i);
    if i < j {
      AfterBlankSkipsBlanks(s, i + 1);
      assert s[i..j] == [s[i]] + s[i + 1..j];
    }
  }

  lemma {:induction false} AfterBlankIs(s: string, i: nat, blank: string)
    requires At(s, i, blank) && IsBlank(blank)
    requires i + |blank| < |s| ==> !IsSpace(s[i + |blank|])
    ensures AfterBlank(s, i) == i + |blank|
    decreases |blank|
  {
    if blank != "" {
      AtTail(s, i, blank);
      AfterBlankIs(s, i + 1, blank[1..]);
    }
  }

  lemma AfterBlankIdempotent(s: string, i: nat)
    requires i <= |s|
    ensures AfterBlank(s, AfterBlank(s, i)) == AfterBlank(s, i)
  {
  }

  // ---- Strings ----

  /** From just after the opening quote to just after the closing one. */
  function ParsePieces(s: string, i: nat): (r: Parsed<seq<Piece>>)
    requires i <= |s|
    ensures r.Done? ==> i < r.end <= |s|
    decreases |s| - i
  {
    if i == |s| then Fail
    else if s[i] == '"' then Done([], i + 1)
    else if s[i] != '\\' then ConsPiece(Plain(s[i]), ParsePieces(s, i + 1))
    else if i + 1 == |s| then Fail
    else if s[i + 1] == 'u' then
      if i + 6 > |s| then Fail else ConsPiece(Unicode(s[i + 2..i + 6]), ParsePieces(s, i + 6))
    else if IsSimpleEscape(s[i + 1]) then ConsPiece(Escape(s[i + 1]), ParsePieces(s, i + 2))
    else Fail
  }

  function ConsPiece(p: Piece, r: Parsed<seq<Piece>>): Parsed<seq<Piece>> {
    match r
    case Fail => Fail
    case Done(ps, end) => Done([p] + ps, end)
  }

  function ParseString(s: string, i: nat): (r: Parsed<seq<Piece>>)
    requires i <= |s|
    ensures r.Done? ==> i < r.end <= |s|
  {
    if i < |s| && s[i] == '"' then ParsePieces(s, i + 1) else Fail
  }

  // ---- Values ----

  function AfterScalar(s: string, i: nat): (j: nat)
    requires i <= |s|
    ensures i <= j <= |s|
    ensures j < |s| ==> EndsScalar(s[j])
    decreases |s| - i
  {
    if i < |s| && !EndsScalar(s[i]) then AfterScalar(s, i + 1) else i
  }

  lemma {:induction false} AfterScalarSkipsScalar(s: string, i: nat)
    requires i <= |s|
    ensures NoDelimiter(s[i..AfterScalar(s, i)])
    decreases |s| - i
  {
    var j := AfterScalar(s, i);
    if i < j {
      AfterScalarSkipsScalar(s, i + 1);
      assert s[i..j] == [s[i]] + s[i + 1..j];
    }
  }

  /** A value that starts exactly at `i`. */
  function ParseValue(s: string, i: nat): (r: Parsed<Json>)
    requires i <= |s|
    ensures r.Done? ==> i < r.end <= |s|
    decreases |s| - i, 1
  {
    if Holds(s, i, '"') then
      match ParseString(s, i)
      case Fail => Fail
      case Done(pieces, end) => Done(JString(pieces), end)
    else if Holds(s, i, '{') then ParseObject(s, i)
    else if Holds(s, i, '[') then ParseArray(s, i)
    else
      var j := AfterScalar(s, i);
      if j > i then Done(JScalar(s[i..j]), j) else Fail
  }

  function ParseObject(s: string, i: nat): (r: Parsed<Json>)
    requires i <= |s|
    ensures r.Done? ==> i < r.end <= |s|
    decreases |s| - i, 0
  {
    if !Holds(s, i, '{') then Fail else
    var j := AfterBlank(s, i + 1);
    if Holds(s, j, '}') then Done(JEmptyObject(s[i + 1..j]), j + 1)
    else match ParseMembers(s, i + 1)
    case Fail => Fail
    case Done(ms, end) => Done(JObject(ms), end)
  }

  function ParseArray(s: string, i: nat): (r: Parsed<Json>)
    requires i <= |s|
    ensures r.Done? ==> i < r.end <= |s|
    decreases |s| - i, 0
  {
    if !Holds(s, i, '[') then Fail else
    var j := AfterBlank(s, i + 1);
    if Holds(s, j, ']') then Done(JEmptyArray(s[i + 1..j]), j + 1)
    else match ParseElements(s, i + 1)
    case Fail => Fail
    case Done(es, end) => Done(JArray(es), end)
  }

  /** A string, a colon, a value, and the blanks around them. */
  function ParseMember(s: string, i: nat): (r: Parsed<Member>)
    requires i <= |s|
    ensures r.Done? ==> i < r.end <= |s|
    decreases |s| - i, 3
  {
    if !Holds(s, AfterBlank(s, i), '"') then Fail
    else match ParseElement(s, i)
    case Fail => Fail
    case Done(key, colon) =>
      if !Holds(s, colon, ':') then Fail
      else match ParseElement(s, colon + 1)
      case Fail => Fail
      case Done(item, j) => Done(Member(key, item), j)
  }

  /** Members and their closing brace. */
  function ParseMembers(s: string, i: nat): (r: Parsed<Members>)
    requires i <= |s|
    ensures r.Done? ==> i < r.end <= |s|
    decreases |s| - i, 4
  {
    match ParseMember(s, i)
    case Fail => Fail
    case Done(m, j) =>
      if Holds(s, j, ',') then
        match ParseMembers(s, j + 1)
        case Fail => Fail
        case Done(tail, end) => Done(MoreMembers(m, tail), end)
      else if Holds(s, j, '}') then Done(LastMember(m), j + 1)
      else Fail
  }

  function ParseElement(s: string, i: nat): (r: Parsed<Element>)
    requires i <= |s|
    ensures r.Done? ==> i < r.end <= |s|
    decreases |s| - i, 2
  {
    var k0 := AfterBlank(s, i);
    match ParseValue(s, k0)
    case Fail => Fail
    case Done(value, k1) =>
      var k2 := AfterBlank(s, k1);
      Done(Element(s[i..k0], value, s[k1..k2]), k2)
  }

  /** Elements and their closing bracket. */
  function ParseElements(s: string, i: nat): (r: Parsed<Elements>)
    requires i <= |s|
    ensures r.Done? ==> i < r.end <= |s|
    decreases |s| - i, 3
  {
    match ParseElement(s, i)
    case Fail => Fail
    case Done(e, j) =>
      if Holds(s, j, ',') then
        match ParseElements(s, j + 1)
        case Fail => Fail
        case Done(tail, end) => Done(MoreElements(e, tail), end)
      else if Holds(s, j, ']') then Done(LastElement(e), j + 1)
      else Fail
  }

  // ---- Spans: the grammar stated on positions ----

  function PieceWidth(p: Piece): nat {
    match p
    case Plain(_) => 1
    case Escape(_) => 2
    case Unicode(digits) => 2 + |digits|
  }

  function PiecesWidth(ps: seq<Piece>): nat {
    if ps == [] then 1 else PieceWidth(ps[0]) + PiecesWidth(ps[1..])
  }

  predicate SpansPiece(s: string, i: nat, p: Piece) {
    match p
    case Plain(c) => Holds(s, i, c)
    case Escape(c) => Holds(s, i, '\\') && Holds(s, i + 1, c)
    case Unicode(digits) => Holds(s, i, '\\') && Holds(s, i + 1, 'u') && At(s, i + 2, digits)
  }

  predicate SpansPieces(s: string, i: nat, ps: seq<Piece>)
    decreases |ps|
  {
    if ps == [] then Holds(s, i, '"')
    else SpansPiece(s, i, ps[0]) && SpansPieces(s, i + PieceWidth(ps[0]), ps[1..])
  }

  predicate SpansString(s: string, i: nat, ps: seq<Piece>) { Holds(s, i, '"') && SpansPieces(s, i + 1, ps) }

  function Width(t: Json): nat {
    match t
    case JString(pieces) => 1 + PiecesWidth(pieces)
    case JScalar(text) => |text|
    case JEmptyObject(blank) => |blank| + 2
    case JObject(ms) => MembersWidth(ms) + 1
    case JEmptyArray(blank) => |blank| + 2
    case JArray(es) => ElementsWidth(es) + 1
  }

  function MemberWidth(m: Member): nat { ElementWidth(m.key) + 1 + ElementWidth(m.item) }

  function MembersWidth(ms: Members): nat {
    MemberWidth(ms.m) + 1 + if ms.MoreMembers? then MembersWidth(ms.tail) else 0
  }

  function ElementWidth(e: Element): nat { |e.before| + Width(e.value) + |e.after| }

  function ElementsWidth(es: Elements): nat {
    ElementWidth(es.e) + 1 + if es.MoreElements? then ElementsWidth(es.tail) else 0
  }

  /** The text of `t` lies in `s` at position `i`. */
  predicate Spans(s: string, i: nat, t: Json)
    decreases t
  {
    match t
    case JString(pieces) => SpansString(s, i, pieces)
    case JScalar(text) => At(s, i, text)
    case JEmptyObject(blank) => Holds(s, i, '{') && At(s, i + 1, blank) && Holds(s, i + 1 + |blank|, '}')
    case JObject(ms) => Holds(s, i, '{') && SpansMembers(s, i + 1, ms)
    case JEmptyArray(blank) => Holds(s, i, '[') && At(s, i + 1, blank) && Holds(s, i + 1 + |blank|, ']')
    case JArray(es) => Holds(s, i, '[') && SpansElements(s, i + 1, es)
  }

  predicate SpansMember(s: string, i: nat, m: Member)
    decreases m
  {
    var colon := i + ElementWidth(m.key);
    SpansElement(s, i, m.key) && Holds(s, colon, ':') && SpansElement(s, colon + 1, m.item)
  }

  predicate SpansMembers(s: string, i: nat, ms: Members)
    decreases ms
  {
    var j := i + MemberWidth(ms.m);
    SpansMember(s, i, ms.m) && if ms.MoreMembers? then Holds(s, j, ',') && SpansMembers(s, j + 1, ms.tail) else Holds(s, j, '}')
  }

  predicate SpansElement(s: string, i: nat, e: Element)
    decreases e
  {
    var v := i + |e.before|;
    At(s, i, e.before) && Spans(s, v, e.value) && At(s, v + Width(e.value), e.after)
  }

  predicate SpansElements(s: string, i: nat, es: Elements)
    decreases es
  {
    var j := i + ElementWidth(es.e);
    SpansElement(s, i, es.e) && if es.MoreElements? then Holds(s, j, ',') && SpansElements(s, j + 1, es.tail) else Holds(s, j, ']')
  }

  // ---- Soundness: what is parsed spans exactly the text that was read ----

  lemma {:induction false} ParsePiecesSound(s: string, i: nat)
    requires i <= |s|
    ensures var r := ParsePieces(s, i);
      r.Done? ==> WfPieces(r.value) && SpansPieces(s, i, r.value) && r.end == i + PiecesWidth(r.value)
    decreases |s| - i
  {
    var r := ParsePieces(s, i);
    if r.Done? && s[i] != '"' {
      var p := r.value[0];
      var next := i + PieceWidth(p);
      assert r == ConsPiece(p, ParsePieces(s, next));
      assert r.value[1..] == ParsePieces(s, next).value;
      if p.Unicode? { AtOwnSlice(s, i + 2, i + 6); }
      ParsePiecesSound(s, next);
    }
  }

  /** What every parsed value satisfies; a scalar is read to its end. */
  predicate Read(s: string, i: nat, r: Parsed<Json>) {
    r.Done? ==>
      && Wf(r.value) && Spans(s, i, r.value) && r.end == i + Width(r.value)
      && (r.value.JScalar? && r.end < |s| ==> EndsScalar(s[r.end]))
  }

  lemma {:induction false} ParseValueSound(s: string, i: nat)
    requires i <= |s|
    ensures Read(s, i, ParseValue(s, i))
    decreases |s| - i, 1
  {
    if Holds(s, i, '"') { ParsePiecesSound(s, i + 1); }
    else if Holds(s, i, '{') { ParseObjectSound(s, i); }
    else if Holds(s, i, '[') { ParseArraySound(s, i); }
    else {
      AfterScalarSkipsScalar(s, i);
      AtOwnSlice(s, i, AfterScalar(s, i));
    }
  }

  lemma {:induction false} ParseObjectSound(s: string, i: nat)
    requires i <= |s|
    ensures Read(s, i, ParseObject(s, i)) && (ParseObject(s, i).Done? ==> ParseObject(s, i).value.IsObject())
    decreases |s| - i, 0
  {
    if Holds(s, i, '{') {
      AfterBlankSkipsBlanks(s, i + 1);
      AtOwnSlice(s, i + 1, AfterBlank(s, i + 1));
      ParseMembersSound(s, i + 1);
    }
  }

  lemma {:induction false} ParseArraySound(s: string, i: nat)
    requires i <= |s|
    ensures Read(s, i, ParseArray(s, i)) && (ParseArray(s, i).Done? ==> ParseArray(s, i).value.IsArray())
    decreases |s| - i, 0
  {
    if Holds(s, i, '[') {
      AfterBlankSkipsBlanks(s, i + 1);
      AtOwnSlice(s, i + 1, AfterBlank(s, i + 1));
      ParseElementsSound(s, i + 1);
    }
  }

  lemma {:induction false} ParseMemberSound(s: string, i: nat)
    requires i <= |s|
    ensures var r := ParseMember(s, i);
      r.Done? ==> WfMember(r.value) && SpansMember(s, i, r.value) && r.end == i + MemberWidth(r.value)
    decreases |s| - i, 3
  {
    if ParseMember(s, i).Done? {
      ParseElementSound(s, i);
      ParseElementSound(s, ParseElement(s, i).end + 1);
      ElementFirstCharacter(s, i, ParseElement(s, i).value);
    }
  }

  lemma {:induction false} ParseMembersSound(s: string, i: nat)
    requires i <= |s|
    ensures var r := ParseMembers(s, i);
      r.Done? ==> WfMembers(r.value) && SpansMembers(s, i, r.value) && r.end == i + MembersWidth(r.value)
    decreases |s| - i, 4
  {
    hide ParseMember, WfMember, SpansMember, MemberWidth;
    if ParseMembers(s, i).Done? {
      ParseMemberSound(s, i);
      var j := ParseMember(s, i).end;
      if Holds(s, j, ',') { ParseMembersSound(s, j + 1); }
    }
  }

  lemma {:induction false} ParseElementSound(s: string, i: nat)
    requires i <= |s|
    ensures var r := ParseElement(s, i);
      r.Done? ==> WfElement(r.value) && SpansElement(s, i, r.value) && r.end == i + ElementWidth(r.value)
    decreases |s| - i, 2
  {
    if ParseElement(s, i).Done? {
      var k0 := AfterBlank(s, i);
      ParseValueSound(s, k0);
      var k1 := ParseValue(s, k0).end;
      AfterBlankSkipsBlanks(s, i);
      AfterBlankSkipsBlanks(s, k1);
      AtOwnSlice(s, i, k0);
      AtOwnSlice(s, k1, AfterBlank(s, k1));
    }
  }

  lemma {:induction false} ParseElementsSound(s: string, i: nat)
    requires i <= |s|
    ensures var r := ParseElements(s, i);
      r.Done? ==> WfElements(r.value) && SpansElements(s, i, r.value) && r.end == i + ElementsWidth(r.value)
    decreases |s| - i, 3
  {
    hide ParseElement, WfElement, SpansElement, ElementWidth;
    if ParseElements(s, i).Done? {
      ParseElementSound(s, i);
      var j := ParseElement(s, i).end;
      if Holds(s, j, ',') { ParseElementsSound(s, j + 1); }
    }
  }

  // ---- Completeness: a tree that spans a text is the one that is parsed from it ----

  lemma {:induction false} ParsePiecesComplete(s: string, i: nat, ps: seq<Piece>)
    requires WfPieces(ps) && SpansPieces(s, i, ps)
    ensures i < |s| && ParsePieces(s, i) == Done(ps, i + PiecesWidth(ps))
    decreases |ps|
  {
    if ps != [] {
      var p, rest := ps[0], ps[1..];
      assert ps == [p] + rest;
      if p.Unicode? { AtSlice(s, i + 2, p.digits); }
      ParsePiecesComplete(s, i + PieceWidth(p), rest);
    }
  }

  /** A value never opens with a blank, a comma or a closing bracket. */
  lemma FirstCharacter(s: string, i: nat, t: Json)
    requires Wf(t) && Spans(s, i, t)
    ensures i < |s| && !EndsScalar(s[i])
    ensures s[i] == '"' <==> t.JString?
    ensures s[i] == '{' <==> t.IsObject()
    ensures s[i] == '[' <==> t.IsArray()
    ensures Width(t) > 0
  {
    if t.JScalar? { AtTail(s, i, t.text); }
  }

  lemma ElementFirstCharacter(s: string, i: nat, e: Element)
    requires WfElement(e) && SpansElement(s, i, e)
    ensures i <= |s|
    ensures var j := AfterBlank(s, i);
      j == i + |e.before| < |s| && !EndsScalar(s[j]) && (s[j] == '"' <==> e.value.JString?)
  {
    FirstCharacter(s, i + |e.before|, e.value);
    AfterBlankIs(s, i, e.before);
  }

  lemma MemberFirstCharacter(s: string, i: nat, m: Member)
    requires WfMember(m) && SpansMember(s, i, m)
    ensures i <= |s| && Holds(s, AfterBlank(s, i), '"')
  {
    ElementFirstCharacter(s, i, m.key);
  }

  lemma {:induction false} AfterScalarIs(s: string, i: nat, text: string)
    requires At(s, i, text) && NoDelimiter(text)
    requires i + |text| < |s| ==> EndsScalar(s[i + |text|])
    ensures AfterScalar(s, i) == i + |text|
    decreases |text|
  {
    if text != "" {
      AtTail(s, i, text);
      AfterScalarIs(s, i + 1, text[1..]);
    }
  }

  lemma {:induction false} ParseValueComplete(s: string, i: nat, t: Json)
    requires Wf(t) && Spans(s, i, t)
    requires t.JScalar? && i + Width(t) < |s| ==> EndsScalar(s[i + Width(t)])
    ensures i < |s| && ParseValue(s, i) == Done(t, i + Width(t))
    decreases t, 1
  {
    FirstCharacter(s, i, t);
    match t
    case JString(pieces) => ParsePiecesComplete(s, i + 1, pieces);
    case JScalar(text) =>
      AfterScalarIs(s, i, text);
      AtSlice(s, i, text);
    case JEmptyObject(_) => ParseObjectComplete(s, i, t);
    case JObject(_) => ParseObjectComplete(s, i, t);
    case JEmptyArray(_) => ParseArrayComplete(s, i, t);
    case JArray(_) => ParseArrayComplete(s, i, t);
  }

  lemma {:induction false} ParseObjectComplete(s: string, i: nat, t: Json)
    requires Wf(t) && Spans(s, i, t) && t.IsObject()
    ensures i < |s| && ParseObject(s, i) == Done(t, i + Width(t))
    decreases t, 0
  {
    if t.JEmptyObject? {
      AfterBlankIs(s, i + 1, t.blank);
      AtSlice(s, i + 1, t.blank);
    } else {
      ParseMembersComplete(s, i + 1, t.members);
      MemberFirstCharacter(s, i + 1, t.members.m);
    }
  }

  lemma {:induction false} ParseArrayComplete(s: string, i: nat, t: Json)
    requires Wf(t) && Spans(s, i, t) && t.IsArray()
    ensures i < |s| && ParseArray(s, i) == Done(t, i + Width(t))
    decreases t, 0
  {
    if t.JEmptyArray? {
      AfterBlankIs(s, i + 1, t.blank);
      AtSlice(s, i + 1, t.blank);
    } else {
      ParseElementsComplete(s, i + 1, t.elements);
      ElementFirstCharacter(s, i + 1, t.elements.e);
    }
  }

  lemma {:induction false} ParseMembersComplete(s: string, i: nat, ms: Members)
    requires WfMembers(ms) && SpansMembers(s, i, ms)
    ensures ParseMembers(s, i) == Done(ms, i + MembersWidth(ms))
    decreases ms, 0
  {
    hide ParseMember, WfMember, SpansMember, MemberWidth;
    ParseMemberComplete(s, i, ms.m);
    if ms.MoreMembers? { ParseMembersComplete(s, i + MemberWidth(ms.m) + 1, ms.tail); }
  }

  lemma {:induction false} ParseMemberComplete(s: string, i: nat, m: Member)
    requires WfMember(m) && SpansMember(s, i, m)
    requires Closes(s, i + MemberWidth(m), m.item.value)
    ensures ParseMember(s, i) == Done(m, i + MemberWidth(m))
    decreases m, 0
  {
    hide ParseElement, WfElement, SpansElement, ElementWidth;
    ElementFirstCharacter(s, i, m.key);
    ParseElementComplete(s, i, m.key);
    ParseElementComplete(s, i + ElementWidth(m.key) + 1, m.item);
  }

  /** What stands at `i` ends the blanks after `t`, and `t` itself if it is a scalar. */
  predicate Closes(s: string, i: nat, t: Json) {
    i < |s| && !IsSpace(s[i]) && (t.JScalar? ==> EndsScalar(s[i]))
  }

  lemma {:induction false} ValueThenBlank(s: string, i: nat, t: Json, after: string)
    requires Wf(t) && Spans(s, i, t) && IsBlank(after) && At(s, i + Width(t), after)
    requires Closes(s, i + Width(t) + |after|, t)
    ensures i < |s| && ParseValue(s, i) == Done(t, i + Width(t))
    ensures AfterBlank(s, i + Width(t)) == i + Width(t) + |after|
    decreases t, 2
  {
    var j := i + Width(t);
    if after != "" { AtTail(s, j, after); }
    AfterBlankIs(s, j, after);
    ParseValueComplete(s, i, t);
  }

  lemma {:induction false} ParseElementsComplete(s: string, i: nat, es: Elements)
    requires WfElements(es) && SpansElements(s, i, es)
    ensures ParseElements(s, i) == Done(es, i + ElementsWidth(es))
    decreases es, 0
  {
    hide ParseElement, WfElement, SpansElement, ElementWidth;
    ParseElementComplete(s, i, es.e);
    if es.MoreElements? { ParseElementsComplete(s, i + ElementWidth(es.e) + 1, es.tail); }
  }

  lemma {:induction false} ParseElementComplete(s: string, i: nat, e: Element)
    requires WfElement(e) && SpansElement(s, i, e)
    requires Closes(s, i + ElementWidth(e), e.value)
    ensures ParseElement(s, i) == Done(e, i + ElementWidth(e))
    decreases e, 0
  {
    hide ParseValue, Wf, Spans, Width;
    ElementFirstCharacter(s, i, e);
    ValueThenBlank(s, i + |e.before|, e.value, e.after);
    AtSlice(s, i, e.before);
    AtSlice(s, i + |e.before| + Width(e.value), e.after);
  }

  // ---- Spans and rendering say the same ----

  lemma AtConcat(s: string, i: nat, a: string, b: string)
    ensures At(s, i, a + b) <==> At(s, i, a) && At(s, i + |a|, b)
  {
    AtSlice(s, i, a);
    AtSlice(s, i + |a|, b);
    AtSlice(s, i, a + b);
    var n, m := |a|, |a| + |b|;
    if i + m <= |s| {
      assert s[i..i + m] == s[i..i + n] + s[i + n..i + m];
      assert (a + b)[..n] == a && (a + b)[n..] == b;
    }
  }

  lemma AtCharacter(s: string, i: nat, c: char)
    ensures At(s, i, [c]) <==> Holds(s, i, c)
  {
    AtSlice(s, i, [c]);
    if i < |s| { assert s[i..i + 1] == [s[i]]; }
  }

  lemma AtBracketed(s: string, i: nat, open: char, text: string, close: char)
    ensures At(s, i, [open] + (text + [close])) <==>
            Holds(s, i, open) && At(s, i + 1, text) && Holds(s, i + 1 + |text|, close)
  {
    AtConcat(s, i, [open], text + [close]);
    AtConcat(s, i + 1, text, [close]);
    AtCharacter(s, i, open);
    AtCharacter(s, i + 1 + |text|, close);
  }

  lemma AtSeparated(s: string, i: nat, first: string, c: char, rest: string)
    ensures At(s, i, first + ([c] + rest)) <==>
            At(s, i, first) && Holds(s, i + |first|, c) && At(s, i + |first| + 1, rest)
  {
    AtConcat(s, i, first, [c] + rest);
    AtConcat(s, i + |first|, [c], rest);
    AtCharacter(s, i + |first|, c);
  }

  lemma AtBlanked(s: string, i: nat, before: string, text: string, after: string)
    ensures At(s, i, before + (text + after)) <==>
            At(s, i, before) && At(s, i + |before|, text) && At(s, i + |before| + |text|, after)
  {
    AtConcat(s, i, before, text + after);
    AtConcat(s, i + |before|, text, after);
  }

  lemma PieceSpansItsText(s: string, i: nat, p: Piece)
    ensures PieceWidth(p) == |PieceText(p)|
    ensures SpansPiece(s, i, p) <==> At(s, i, PieceText(p))
  {
    match p
    case Plain(c) => AtCharacter(s, i, c);
    case Escape(c) =>
      assert PieceText(p) == ['\\'] + [c];
      AtConcat(s, i, ['\\'], [c]);
      AtCharacter(s, i, '\\');
      AtCharacter(s, i + 1, c);
    case Unicode(digits) =>
      assert PieceText(p) == ['\\'] + (['u'] + digits);
      AtConcat(s, i, ['\\'], ['u'] + digits);
      AtConcat(s, i + 1, ['u'], digits);
      AtCharacter(s, i, '\\');
      AtCharacter(s, i + 1, 'u');
  }

  lemma {:induction false} PiecesSpanTheirText(s: string, i: nat, ps: seq<Piece>)
    ensures PiecesWidth(ps) == |PiecesText(ps)|
    ensures SpansPieces(s, i, ps) <==> At(s, i, PiecesText(ps))
    decreases |ps|
  {
    if ps == [] {
      AtCharacter(s, i, '"');
    } else {
      PieceSpansItsText(s, i, ps[0]);
      PiecesSpanTheirText(s, i + PieceWidth(ps[0]), ps[1..]);
      AtConcat(s, i, PieceText(ps[0]), PiecesText(ps[1..]));
    }
  }

  lemma StringSpansItsText(s: string, i: nat, ps: seq<Piece>)
    ensures 1 + PiecesWidth(ps) == |StringText(ps)|
    ensures SpansString(s, i, ps) <==> At(s, i, StringText(ps))
  {
    PiecesSpanTheirText(s, i + 1, ps);
    AtConcat(s, i, ['"'], PiecesText(ps));
    AtCharacter(s, i, '"');
  }

  /** The positional grammar and the rendered text agree on every tree, text and position. */
  lemma {:induction false} SpansItsText(s: string, i: nat, t: Json)
    ensures Width(t) == |Render(t)|
    ensures Spans(s, i, t) <==> At(s, i, Render(t))
    decreases t, 1
  {
    match t
    case JString(pieces) => StringSpansItsText(s, i, pieces);
    case JScalar(text) =>
    case JEmptyObject(blank) => AtBracketed(s, i, '{', blank, '}');
    case JObject(_) => ObjectSpansItsText(s, i, t);
    case JEmptyArray(blank) => AtBracketed(s, i, '[', blank, ']');
    case JArray(_) => ArraySpansItsText(s, i, t);
  }

  lemma {:induction false} ObjectSpansItsText(s: string, i: nat, t: Json)
    requires t.JObject?
    ensures Width(t) == |Render(t)|
    ensures Spans(s, i, t) <==> At(s, i, Render(t))
    decreases t, 0
  {
    MembersSpanTheirText(s, i + 1, t.members);
    AtConcat(s, i, ['{'], RenderMembers(t.members));
    AtCharacter(s, i, '{');
  }

  lemma {:induction false} ArraySpansItsText(s: string, i: nat, t: Json)
    requires t.JArray?
    ensures Width(t) == |Render(t)|
    ensures Spans(s, i, t) <==> At(s, i, Render(t))
    decreases t, 0
  {
    ElementsSpanTheirText(s, i + 1, t.elements);
    AtConcat(s, i, ['['], RenderElements(t.elements));
    AtCharacter(s, i, '[');
  }

  lemma {:induction false} ElementSpansItsText(s: string, i: nat, e: Element)
    ensures ElementWidth(e) == |RenderElement(e)|
    ensures SpansElement(s, i, e) <==> At(s, i, RenderElement(e))
    decreases e
  {
    SpansItsText(s, i + |e.before|, e.value);
    AtBlanked(s, i, e.before, Render(e.value), e.after);
  }

  lemma {:induction false} ElementsSpanTheirText(s: string, i: nat, es: Elements)
    ensures ElementsWidth(es) == |RenderElements(es)|
    ensures SpansElements(s, i, es) <==> At(s, i, RenderElements(es))
    decreases es
  {
    ElementSpansItsText(s, i, es.e);
    if es.MoreElements? {
      ElementsSpanTheirText(s, i + ElementWidth(es.e) + 1, es.tail);
      AtSeparated(s, i, RenderElement(es.e), ',', RenderElements(es.tail));
    } else {
      AtConcat(s, i, RenderElement(es.e), [']']);
      AtCharacter(s, i + ElementWidth(es.e), ']');
    }
  }

  lemma {:induction false} MemberSpansItsText(s: string, i: nat, m: Member)
    ensures MemberWidth(m) == |RenderMember(m)|
    ensures SpansMember(s, i, m) <==> At(s, i, RenderMember(m))
    decreases m
  {
    ElementSpansItsText(s, i, m.key);
    ElementSpansItsText(s, i + ElementWidth(m.key) + 1, m.item);
    AtSeparated(s, i, RenderElement(m.key), ':', RenderElement(m.item));
  }

  lemma {:induction false} MembersSpanTheirText(s: string, i: nat, ms: Members)
    ensures MembersWidth(ms) == |RenderMembers(ms)|
    ensures SpansMembers(s, i, ms) <==> At(s, i, RenderMembers(ms))
    decreases ms
  {
    MemberSpansItsText(s, i, ms.m);
    if ms.MoreMembers? {
      MembersSpanTheirText(s, i + MemberWidth(ms.m) + 1, ms.tail);
      AtSeparated(s, i, RenderMember(ms.m), ',', RenderMembers(ms.tail));
    } else {
      LastMemberSpansItsText(s, i, ms);
    }
  }

  lemma LastMemberSpansItsText(s: string, i: nat, ms: Members)
    requires ms.LastMember? && MemberWidth(ms.m) == |RenderMember(ms.m)|
    requires SpansMember(s, i, ms.m) <==> At(s, i, RenderMember(ms.m))
    ensures MembersWidth(ms) == |RenderMembers(ms)|
    ensures SpansMembers(s, i, ms) <==> At(s, i, RenderMembers(ms))
  {
    AtConcat(s, i, RenderMember(ms.m), ['}']);
    AtCharacter(s, i + MemberWidth(ms.m), '}');
  }

  // ---- The accepted language ----

  /** One object or array with blanks around it and nothing else. */
  function ParseDocument(s: string): (r: Parsed<Json>)
    ensures r.Done? ==> r.end <= |s|
  {
    var i := AfterBlank(s, 0);
    var r := if Holds(s, i, '{') then ParseObject(s, i) else ParseArray(s, i);
    if r.Done? && AfterBlank(s, r.end) == |s| then r else Fail
  }

  ghost predicate IsDocument(s: string, leading: string, t: Json, trailing: string) {
    && IsBlank(leading) && Wf(t) && (t.IsObject() || t.IsArray()) && IsBlank(trailing)
    && s == leading + Render(t) + trailing
  }

  /** A text is accepted exactly when it is a tree of the grammar between blanks, and the tree found is that one. */
  lemma DocumentExact(s: string, t: Json)
    ensures (ParseDocument(s).Done? && ParseDocument(s).value == t) <==>
            exists leading, trailing :: IsDocument(s, leading, t, trailing)
  {
    if ParseDocument(s).Done? && ParseDocument(s).value == t {
      DocumentSound(s);
    }
    if leading, trailing :| IsDocument(s, leading, t, trailing) {
      DocumentComplete(s, leading, t, trailing);
    }
  }

  lemma DocumentSound(s: string)
    requires ParseDocument(s).Done?
    ensures exists leading, trailing :: IsDocument(s, leading, ParseDocument(s).value, trailing)
  {
    hide Render, Wf, ParseObject, ParseArray;
    var i, r := AfterBlank(s, 0), ParseDocument(s);
    BracketedSound(s, i);
    AfterBlankSkipsBlanks(s, 0);
    AfterBlankSkipsBlanks(s, r.end);
    assert s == s[0..i] + s[i..r.end] + s[r.end..|s|];
    assert IsDocument(s, s[0..i], r.value, s[r.end..|s|]);
  }

  lemma BracketedSound(s: string, i: nat)
    requires i <= |s|
    ensures var r := if Holds(s, i, '{') then ParseObject(s, i) else ParseArray(s, i);
      r.Done? ==> Wf(r.value) && (r.value.IsObject() || r.value.IsArray()) && s[i..r.end] == Render(r.value)
  {
    if Holds(s, i, '{') {
      ParseObjectSound(s, i);
      if ParseObject(s, i).Done? {
        SpansItsText(s, i, ParseObject(s, i).value);
        AtSlice(s, i, Render(ParseObject(s, i).value));
      }
    } else {
      ParseArraySound(s, i);
      if ParseArray(s, i).Done? {
        SpansItsText(s, i, ParseArray(s, i).value);
        AtSlice(s, i, Render(ParseArray(s, i).value));
      }
    }
  }

  lemma DocumentComplete(s: string, leading: string, t: Json, trailing: string)
    requires IsDocument(s, leading, t, trailing)
    ensures ParseDocument(s) == Done(t, |leading| + |Render(t)|)
  {
    hide Render, Wf, Spans, ParseObject, ParseArray;
    var i, j := |leading|, |leading| + |Render(t)|;
    assert s[0..i] == leading && s[i..j] == Render(t) && s[j..|s|] == trailing;
    AtSlice(s, 0, leading);
    AtSlice(s, i, Render(t));
    AtSlice(s, j, trailing);
    SpansItsText(s, i, t);
    FirstCharacter(s, i, t);
    AfterBlankIs(s, 0, leading);
    AfterBlankIs(s, j, trailing);
    if t.IsObject() { ParseObjectComplete(s, i, t); } else { ParseArrayComplete(s, i, t); }
  }

  /** The relaxed grammar is unambiguous: two containers with the same text are the same tree. */
  lemma Unambiguous(t: Json, u: Json)
    requires Wf(t) && Wf(u) && (t.IsObject() || t.IsArray()) && (u.IsObject() || u.IsArray())
    requires Render(t) == Render(u)
    ensures t == u
  {
    var s := Render(t);
    assert s == "" + s + "";
    assert IsDocument(s, "", t, "") && IsDocument(s, "", u, "");
    DocumentComplete(s, "", t, "");
    DocumentComplete(s, "", u, "");
  }

  /** Wherever an RFC 8259 object or array stands, exactly its text is consumed, whatever follows it. */
  lemma RfcTextConsumed(s: string, i: nat, t: Json)
    requires Rfc(t) && (t.IsObject() || t.IsArray()) && At(s, i, Render(t))
    ensures ParseValue(s, i) == Done(t, i + |Render(t)|)
  {
    RfcIsWf(t);
    SpansItsText(s, i, t);
    ParseValueComplete(s, i, t);
  }

  /** The text is one object or array of RFC 8259 with its whitespace around it (section 2). */
  ghost predicate IsRfcDocument(s: string) {
    exists leading, t, trailing :: RfcDocument(s, leading, t, trailing)
  }

  ghost predicate RfcDocument(s: string, leading: string, t: Json, trailing: string) {
    && RfcBlank(leading) && Rfc(t) && (t.IsObject() || t.IsArray()) && RfcBlank(trailing)
    && s == leading + Render(t) + trailing
  }

  /**
   The scanner accepts every RFC 8259 text; an accepted text is one exactly when the tree found has only
   RFC scalars, strings and blanks, and the blanks around it are RFC whitespace.
   */
  lemma RfcDocumentExactly(s: string)
    ensures IsRfcDocument(s) <==>
            && ParseDocument(s).Done?
            && Rfc(ParseDocument(s).value)
            && RfcBlank(s[..AfterBlank(s, 0)]) && RfcBlank(s[ParseDocument(s).end..])
  {
    var r := ParseDocument(s);
    if leading, t, trailing :| RfcDocument(s, leading, t, trailing) {
      RfcDocumentFound(s, leading, t, trailing);
    }
    if r.Done? && Rfc(r.value) && RfcBlank(s[..AfterBlank(s, 0)]) && RfcBlank(s[r.end..]) {
      DocumentFound(s);
    }
  }

  lemma RfcDocumentFound(s: string, leading: string, t: Json, trailing: string)
    requires RfcDocument(s, leading, t, trailing)
    ensures var r := ParseDocument(s);
      r.Done? && r.value == t && s[..AfterBlank(s, 0)] == leading && s[r.end..] == trailing
  {
    hide Render, Rfc, Wf, ParseDocument;
    RfcIsWf(t);
    DocumentComplete(s, leading, t, trailing);
    LeadingBlank(s, leading, t, trailing);
    assert s[|leading| + |Render(t)|..] == trailing;
  }

  lemma LeadingBlank(s: string, leading: string, t: Json, trailing: string)
    requires IsDocument(s, leading, t, trailing)
    ensures AfterBlank(s, 0) == |leading| && s[..|leading|] == leading
  {
    hide Render, Wf, Spans;
    var i := |leading|;
    assert s[0..i] == leading && s[i..i + |Render(t)|] == Render(t);
    AtSlice(s, 0, leading);
    AtSlice(s, i, Render(t));
    SpansItsText(s, i, t);
    FirstCharacter(s, i, t);
    AfterBlankIs(s, 0, leading);
  }

  lemma DocumentFound(s: string)
    requires ParseDocument(s).Done?
    ensures var r := ParseDocument(s);
      RfcBlank(s[..AfterBlank(s, 0)]) && Rfc(r.value) && RfcBlank(s[r.end..]) ==>
      RfcDocument(s, s[..AfterBlank(s, 0)], r.value, s[r.end..])
  {
    hide Render, Rfc, Wf, ParseObject, ParseArray;
    var i, r := AfterBlank(s, 0), ParseDocument(s);
    BracketedSound(s, i);
    assert s == s[..i] + s[i..r.end] + s[r.end..];
  }

  /** The converse of acceptance fails: this text is accepted and is not JSON. */
  lemma RelaxedTextAccepted()
    ensures ParseDocument("[a\"b]") == Done(JArray(LastElement(Element("", JScalar("a\"b"), ""))), 5)
    ensures !IsRfcDocument("[a\"b]")
  {
    var s, t := "[a\"b]", JArray(LastElement(Element("", JScalar("a\"b"), "")));
    assert s == "" + Render(t) + "";
    DocumentComplete(s, "", t, "");
    NotAnRfcScalar();
    RfcDocumentExactly(s);
  }

  lemma NotAnRfcScalar()
    ensures !RfcScalar("a\"b")
  {
    if n :| RfcNumber(n) && "a\"b" == NumberText(n) {
      RfcNumberFirst(n);
    }
  }

  lemma RfcNumberFirst(n: Number)
    requires RfcNumber(n)
    ensures NumberText(n) != "" && (NumberText(n)[0] == '-' || IsDigit(NumberText(n)[0]))
  {
    assert NumberText(n)[0] == if n.minus == "" then n.digits[0] else '-';
  }

  // ---- Blanks, scalars and escapes, character by character ----

  /** The six blanks of the "C" locale. */
  predicate IsCBlank(c: char) {
    c == ' ' || c == '\t' || c == '\n' || c == '\U{B}' || c == '\U{C}' || c == '\r'
  }

  /** Exactly the texts of these six characters are blanks in an empty array. */
  lemma BlankExactly(text: string)
    ensures ParseDocument("[" + text + "]") == Done(JEmptyArray(text), |text| + 2) <==>
            forall k | 0 <= k < |text| :: IsCBlank(text[k])
  {
    hide ParseDocument;
    var s, t := "[" + text + "]", JEmptyArray(text);
    assert s == "" + Render(t) + "";
    assert Wf(t) <==> forall k | 0 <= k < |text| :: IsCBlank(text[k]);
    if Wf(t) { DocumentComplete(s, "", t, ""); }
    if ParseDocument(s) == Done(t, |text| + 2) { DocumentIsWf(s); }
  }

  lemma DocumentIsWf(s: string)
    requires ParseDocument(s).Done?
    ensures Wf(ParseDocument(s).value)
  {
    hide ParseObject, ParseArray, Render;
    BracketedSound(s, AfterBlank(s, 0));
  }

  /** A scalar is exactly a non-empty text without blanks, commas or closing brackets that opens nothing. */
  lemma ScalarExactly(text: string)
    ensures var t := JArray(LastElement(Element("", JScalar(text), "")));
      ParseDocument("[" + text + "]") == Done(t, |text| + 2) <==>
        && text != "" && text[0] != '"' && text[0] != '{' && text[0] != '['
        && forall k | 0 <= k < |text| :: !IsCBlank(text[k]) && text[k] != ',' && text[k] != ']' && text[k] != '}'
  {
    var s, t := "[" + text + "]", JArray(LastElement(Element("", JScalar(text), "")));
    hide ParseDocument, Render, Wf;
    OneScalar(text);
    if Wf(t) { DocumentComplete(s, "", t, ""); }
    if ParseDocument(s) == Done(t, |text| + 2) { DocumentIsWf(s); }
  }

  lemma OneScalar(text: string)
    ensures var t := JArray(LastElement(Element("", JScalar(text), "")));
      "[" + text + "]" == "" + Render(t) + "" && |Render(t)| == |text| + 2 && (Wf(t) <==> WfScalar(text))
  {
    var e := Element("", JScalar(text), "");
    assert RenderElement(e) == text by { assert "" + (text + "") == text; }
    assert RenderElements(LastElement(e)) == text + [']'];
    assert ['['] + (text + [']']) == "[" + text + "]";
    assert WfElement(e) <==> WfScalar(text);
    assert WfElements(LastElement(e)) <==> WfElement(e);
  }

  function EscapeMeaning(c: char): string {
    if c == '"' then "\"" else if c == '\\' then "\\" else if c == '/' then "/"
    else if c == 'b' then "\U{8}" else if c == 'f' then "\U{C}" else if c == 'n' then "\n"
    else if c == 'r' then "\r" else if c == 't' then "\t" else ""
  }

  /** After a backslash exactly eight characters are read, each as one given character. */
  lemma EscapeExactly(c: char)
    requires c != 'u'
    ensures var r := ParseString("\"\\" + [c] + "\"", 0);
      (r.Done? <==> c in "\"\\/bfnrt") && (r.Done? ==> r.end == 4 && Decode(r.value) == EscapeMeaning(c))
  {
    var s := "\"\\" + [c] + "\"";
    assert s[0] == '"' && s[1] == '\\' && s[2] == c && s[3] == '"' && |s| == 4;
    assert ParsePieces(s, 3) == Done([], 4);
  }

  /** A unicode escape takes any four characters and is read as a question mark. */
  lemma UnicodeEscapeIsAQuestionMark(a: char, b: char, c: char, d: char)
    ensures var r := ParseString("\"\\u" + [a, b, c, d] + "\"", 0); r.Done? && r.end == 8 && Decode(r.value) == "?"
  {
    var s, ps := "\"\\u" + [a, b, c, d] + "\"", [Unicode([a, b, c, d])];
    assert s[0] == '"' && s[1] == '\\' && s[2] == 'u' && s[3..7] == [a, b, c, d] && s[7] == '"' && |s| == 8;
    assert ParsePieces(s, 7) == Done([], 8);
  }
}
