/**
 The relaxed JSON that the payload scanner reads, as concrete syntax trees: a tree keeps
 every blank, so rendering a tree gives back the exact text.  RFC 8259 is the subset of
 trees whose blanks, strings and scalars obey sections 2 to 7 of that standard.

 A byte of a C++ string is a `char`; nothing below depends on characters being under 256.
 */
module JsonGrammar {

  // ---- Characters ----

  /** `std::isspace` in the "C" locale: space and the five control blanks. */
  predicate IsSpace(c: char) { c == ' ' || '\t' <= c <= '\r' }

  predicate EndsScalar(c: char) { IsSpace(c) || c == ',' || c == ']' || c == '}' }

  predicate IsBlank(s: string) { forall k | 0 <= k < |s| :: IsSpace(s[k]) }

  predicate NoDelimiter(s: string) { forall k | 0 <= k < |s| :: !EndsScalar(s[k]) }

  /** The characters that may follow a backslash, apart from `u`. */
  predicate IsSimpleEscape(c: char) {
    c == '"' || c == '\\' || c == '/' || c == 'b' || c == 'f' || c == 'n' || c == 'r' || c == 't'
  }

  function Unescape(c: char): char {
    match c
    case 'b' => '\U{8}'
    case 'f' => '\U{C}'
    case 'n' => '\n'
    case 'r' => '\r'
    case 't' => '\t'
    case _ => c
  }

  // ---- Strings ----

  datatype Piece = Plain(c: char) | Escape(c: char) | Unicode(digits: string)

  predicate WfPiece(p: Piece) {
    match p
    case Plain(c) => c != '"' && c != '\\'
    case Escape(c) => IsSimpleEscape(c)
    case Unicode(digits) => |digits| == 4
  }

  function PieceText(p: Piece): string {
    match p
    case Plain(c) => [c]
    case Escape(c) => ['\\', c]
    case Unicode(digits) => ['\\', 'u'] + digits
  }

  /** A unicode escape is decoded as a question mark, whatever its digits. */
  function PieceMeaning(p: Piece): char {
    match p
    case Plain(c) => c
    case Escape(c) => Unescape(c)
    case Unicode(_) => '?'
  }

  predicate WfPieces(ps: seq<Piece>) { forall k | 0 <= k < |ps| :: WfPiece(ps[k]) }

  /** The text of a string after its opening quote, closing quote included. */
  function PiecesText(ps: seq<Piece>): (text: string)
    ensures |text| > 0
  {
    if ps == [] then ['"'] else PieceText(ps[0]) + PiecesText(ps[1..])
  }

  function Decode(ps: seq<Piece>): (s: string)
    ensures |s| == |ps|
  {
    if ps == [] then "" else [PieceMeaning(ps[0])] + Decode(ps[1..])
  }

  function StringText(ps: seq<Piece>): string { ['"'] + PiecesText(ps) }

  // ---- Trees ----

  datatype Json =
    | JString(pieces: seq<Piece>)
    | JScalar(text: string)
    | JEmptyObject(blank: string)
    | JObject(members: Members)
    | JEmptyArray(blank: string)
    | JArray(elements: Elements)
  {
    predicate IsObject() { JEmptyObject? || JObject? }
    predicate IsArray() { JEmptyArray? || JArray? }
  }

  /** A value and the blanks around it: an element of an array, or either side of a member's colon. */
  datatype Element = Element(before: string, value: Json, after: string)

  datatype Elements = LastElement(e: Element) | MoreElements(e: Element, tail: Elements)

  datatype Member = Member(key: Element, item: Element)

  datatype Members = LastMember(m: Member) | MoreMembers(m: Member, tail: Members)

  /** Any non-empty run of non-delimiters that does not open a string, an object or an array. */
  predicate WfScalar(text: string) {
    && text != ""
    && text[0] != '"' && text[0] != '{' && text[0] != '['
    && NoDelimiter(text)
  }

  predicate Wf(t: Json) {
    match t
    case JString(pieces) => WfPieces(pieces)
    case JScalar(text) => WfScalar(text)
    case JEmptyObject(blank) => IsBlank(blank)
    case JObject(members) => WfMembers(members)
    case JEmptyArray(blank) => IsBlank(blank)
    case JArray(elements) => WfElements(elements)
  }

  predicate WfMember(m: Member) { m.key.value.JString? && WfElement(m.key) && WfElement(m.item) }

  predicate WfMembers(ms: Members) {
    WfMember(ms.m) && (ms.MoreMembers? ==> WfMembers(ms.tail))
  }

  predicate WfElements(es: Elements) {
    WfElement(es.e) && (es.MoreElements? ==> WfElements(es.tail))
  }

  predicate WfElement(e: Element) { IsBlank(e.before) && Wf(e.value) && IsBlank(e.after) }

  function Render(t: Json): string {
    match t
    case JString(pieces) => StringText(pieces)
    case JScalar(text) => text
    case JEmptyObject(blank) => ['{'] + (blank + ['}'])
    case JObject(members) => ['{'] + RenderMembers(members)
    case JEmptyArray(blank) => ['['] + (blank + [']'])
    case JArray(elements) => ['['] + RenderElements(elements)
  }

  function RenderMember(m: Member): string { RenderElement(m.key) + ([':'] + RenderElement(m.item)) }

  /** Members and their closing brace. */
  function RenderMembers(ms: Members): string {
    match ms
    case LastMember(m) => RenderMember(m) + ['}']
    case MoreMembers(m, tail) => RenderMember(m) + ([','] + RenderMembers(tail))
  }

  /** Elements and their closing bracket. */
  function RenderElements(es: Elements): string {
    match es
    case LastElement(e) => RenderElement(e) + [']']
    case MoreElements(e, tail) => RenderElement(e) + ([','] + RenderElements(tail))
  }

  function RenderElement(e: Element): string { e.before + (Render(e.value) + e.after) }

  // ---- Members and elements as sequences ----

  function ElementValues(es: Elements): seq<Json> {
    [es.e.value] + if es.MoreElements? then ElementValues(es.tail) else []
  }

  /** The values in an array, in order. */
  function ArrayValues(t: Json): seq<Json> { if t.JArray? then ElementValues(t.elements) else [] }

  function MemberList(ms: Members): seq<Member> {
    [ms.m] + if ms.MoreMembers? then MemberList(ms.tail) else []
  }

  /** The members of an object, in order. */
  function ObjectMembers(t: Json): seq<Member> { if t.JObject? then MemberList(t.members) else [] }

  // ---- RFC 8259 ----

  predicate RfcSpace(c: char) { c == ' ' || c == '\t' || c == '\n' || c == '\r' }

  predicate RfcBlank(s: string) { forall k | 0 <= k < |s| :: RfcSpace(s[k]) }

  predicate IsDigit(c: char) { '0' <= c <= '9' }

  predicate IsHexDigit(c: char) { IsDigit(c) || 'a' <= c <= 'f' || 'A' <= c <= 'F' }

  predicate AllDigits(s: string) { s != "" && forall k | 0 <= k < |s| :: IsDigit(s[k]) }

  /** Section 7: control characters must be escaped, `\u` takes four hexadecimal digits. */
  predicate RfcPiece(p: Piece) {
    match p
    case Plain(c) => c != '"' && c != '\\' && c >= ' '
    case Escape(c) => c == '"' || c == '\\' || c == '/' || c == 'b' || c == 'f' || c == 'n' || c == 'r' || c == 't'
    case Unicode(digits) => |digits| == 4 && forall k | 0 <= k < 4 :: IsHexDigit(digits[k])
  }

  predicate RfcPieces(ps: seq<Piece>) { forall k | 0 <= k < |ps| :: RfcPiece(ps[k]) }

  /** Section 6: number = [ minus ] int [ frac ] [ exp ]; an absent part is empty. */
  datatype Number = Number(minus: string, digits: string, frac: string, exp: string)

  predicate RfcNumber(n: Number) {
    && (n.minus == "" || n.minus == "-")
    && AllDigits(n.digits) && (n.digits[0] == '0' ==> |n.digits| == 1)
    && (n.frac == "" || (n.frac[0] == '.' && AllDigits(n.frac[1..])))
    && (n.exp == "" || RfcExponent(n.exp))
  }

  predicate RfcExponent(s: string) {
    && |s| >= 2 && (s[0] == 'e' || s[0] == 'E')
    && AllDigits(if s[1] == '+' || s[1] == '-' then s[2..] else s[1..])
  }

  function NumberText(n: Number): string { n.minus + n.digits + n.frac + n.exp }

  /** Sections 3 and 6. */
  ghost predicate RfcScalar(text: string) {
    || text == "true" || text == "false" || text == "null"
    || exists n :: RfcNumber(n) && text == NumberText(n)
  }

  ghost predicate Rfc(t: Json) {
    match t
    case JString(pieces) => RfcPieces(pieces)
    case JScalar(text) => RfcScalar(text)
    case JEmptyObject(blank) => RfcBlank(blank)
    case JObject(members) => RfcMembers(members)
    case JEmptyArray(blank) => RfcBlank(blank)
    case JArray(elements) => RfcElements(elements)
  }

  ghost predicate RfcMember(m: Member) { m.key.value.JString? && RfcElement(m.key) && RfcElement(m.item) }

  ghost predicate RfcMembers(ms: Members) {
    RfcMember(ms.m) && (ms.MoreMembers? ==> RfcMembers(ms.tail))
  }

  ghost predicate RfcElements(es: Elements) {
    RfcElement(es.e) && (es.MoreElements? ==> RfcElements(es.tail))
  }

  ghost predicate RfcElement(e: Element) { RfcBlank(e.before) && Rfc(e.value) && RfcBlank(e.after) }

  lemma RfcNumberIsScalar(n: Number)
    requires RfcNumber(n)
    ensures WfScalar(NumberText(n))
  {
    assert NoDelimiter(n.frac) by {
      if n.frac != "" { assert n.frac == [n.frac[0]] + n.frac[1..]; }
    }
    assert NoDelimiter(n.exp) by {
      if n.exp != "" {
        var skip := if n.exp[1] == '+' || n.exp[1] == '-' then 2 else 1;
        assert n.exp == n.exp[..skip] + n.exp[skip..];
        assert NoDelimiter(n.exp[..skip]);
      }
    }
    assert NumberText(n)[0] == if n.minus == "" then n.digits[0] else '-';
  }

  lemma RfcScalarIsScalar(text: string)
    requires RfcScalar(text)
    ensures WfScalar(text)
  {
    if text != "true" && text != "false" && text != "null" {
      var n :| RfcNumber(n) && text == NumberText(n);
      RfcNumberIsScalar(n);
    }
  }

  /** The relaxed grammar contains RFC 8259. */
  lemma {:induction false} RfcIsWf(t: Json)
    requires Rfc(t)
    ensures Wf(t)
    decreases t
  {
    match t
    case JScalar(text) => RfcScalarIsScalar(text);
    case JObject(members) => RfcMembersAreWf(members);
    case JArray(elements) => RfcElementsAreWf(elements);
    case _ =>
  }

  lemma {:induction false} RfcElementIsWf(e: Element)
    requires RfcElement(e)
    ensures WfElement(e)
    decreases e
  {
    RfcIsWf(e.value);
  }

  lemma {:induction false} RfcMembersAreWf(ms: Members)
    requires RfcMembers(ms)
    ensures WfMembers(ms)
    decreases ms
  {
    RfcElementIsWf(ms.m.key);
    RfcElementIsWf(ms.m.item);
    if ms.MoreMembers? { RfcMembersAreWf(ms.tail); }
  }

  lemma {:induction false} RfcElementsAreWf(es: Elements)
    requires RfcElements(es)
    ensures WfElements(es)
    decreases es
  {
    RfcElementIsWf(es.e);
    if es.MoreElements? { RfcElementsAreWf(es.tail); }
  }
}
