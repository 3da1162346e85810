/**
 Printing JSON the way `apps/paper_backend/DashboardApiRoutes.cpp` does: compact, strings
 escaped by `json_escape`, numbers as opaque tokens.  Whatever is printed is the text of a
 tree of the relaxed grammar, and it is RFC 8259 text exactly when no string holds a raw
 control character and every number token is an RFC 8259 scalar.
 */
module JsonPrinter {
  import opened JsonGrammar
  import opened JsonParser

  // ---- Strings ----

  function EscapePiece(c: char): (p: Piece)
    ensures WfPiece(p) && PieceMeaning(p) == c
  {
    match c
    case '"' => Escape('"')
    case '\\' => Escape('\\')
    case '\n' => Escape('n')
    case '\r' => Escape('r')
    case '\t' => Escape('t')
    case _ => Plain(c)
  }

  function EscapePieces(s: string): (ps: seq<Piece>)
    ensures |ps| == |s|
    ensures forall k | 0 <= k < |s| :: ps[k] == EscapePiece(s[k])
  {
    if s == "" then [] else [EscapePiece(s[0])] + EscapePieces(s[1..])
  }

  function EscapeText(s: string): string {
    if s == "" then "" else PieceText(EscapePiece(s[0])) + EscapeText(s[1..])
  }

  /** The loop of `json_escape`. */
  method JsonEscape(value: string) returns (out: string)
    ensures out == EscapeText(value)
  {
    out := "";
    for i := 0 to |value|
      invariant out + EscapeText(value[i..]) == EscapeText(value)
    {
      var ch := value[i];
      assert value[i..][1..] == value[i + 1..];
      EscapeAssociative(out, ch, value[i + 1..]);
      match ch
      case '"' => out := out + "\\\"";
      case '\\' => out := out + "\\\\";
      case '\n' => out := out + "\\n";
      case '\r' => out := out + "\\r";
      case '\t' => out := out + "\\t";
      case _ => out := out + [ch];
    }
    assert value[|value|..] == "";
  }

  lemma EscapeAssociative(out: string, c: char, rest: string)
    ensures out + (PieceText(EscapePiece(c)) + EscapeText(rest)) == out + PieceText(EscapePiece(c)) + EscapeText(rest)
  {
  }

  lemma {:induction false} EscapedIsWf(s: string)
    ensures WfPieces(EscapePieces(s))
    ensures Decode(EscapePieces(s)) == s
    ensures PiecesText(EscapePieces(s)) == EscapeText(s) + ['"']
  {
    if s != "" {
      var ps := EscapePieces(s);
      assert ps[0] == EscapePiece(s[0]) && ps[1..] == EscapePieces(s[1..]);
      EscapedIsWf(s[1..]);
      EscapeAssociative("", s[0], s[1..]);
    }
  }

  function Quoted(s: string): string { ['"'] + (EscapeText(s) + ['"']) }

  /** Scanning a printed string gives back the string and stops right after its closing quote. */
  lemma PrintedStringReadsBack(before: string, s: string, after: string)
    ensures var r := ParseString(before + Quoted(s) + after, |before|);
      r.Done? && r.end == |before + Quoted(s)| && Decode(r.value) == s
  {
    var text, ps := before + Quoted(s) + after, EscapePieces(s);
    EscapedIsWf(s);
    assert text[|before|..|before| + |Quoted(s)|] == Quoted(s) == StringText(ps);
    AtSlice(text, |before|, StringText(ps));
    StringSpansItsText(text, |before|, ps);
    ParsePiecesComplete(text, |before| + 1, ps);
  }

  /** What a character is printed as. */
  lemma EscapedCharacter(c: char)
    ensures EscapeText([c]) == if c == '"' then "\\\"" else if c == '\\' then "\\\\" else if c == '\n' then "\\n"
                               else if c == '\r' then "\\r" else if c == '\t' then "\\t" else [c]
  {
    assert [c][1..] == "";
  }

  /** Escaping goes character by character. */
  lemma {:induction false} EscapeConcat(a: string, b: string)
    ensures EscapeText(a + b) == EscapeText(a) + EscapeText(b)
  {
    if a == "" {
      assert a + b == b;
    } else {
      assert (a + b)[1..] == a[1..] + b;
      EscapeConcat(a[1..], b);
    }
  }

  // ---- Numbers ----

  function Digits(n: nat): (s: string)
    ensures AllDigits(s) && (s[0] == '0' ==> |s| == 1 && n == 0)
  {
    var last := ['0' + (n % 10) as char];
    if n < 10 then last else Digits(n / 10) + last
  }

  function DecimalNumber(n: int): (number: Number)
    ensures RfcNumber(number)
  {
    if n < 0 then Number("-", Digits(-n), "", "") else Number("", Digits(n), "", "")
  }

  /** A double as an output stream prints it: a finite one is an RFC 8259 number. */
  datatype DoubleShape = Finite(number: Number) | Infinite(negative: bool) | NotANumber(negative: bool)

  type Double = d: DoubleShape | d.Finite? ==> RfcNumber(d.number) witness NotANumber(false)

  datatype Literal = Whole(n: int) | Flag(b: bool) | Real(d: Double)

  function LiteralText(v: Literal): string {
    match v
    case Whole(n) => NumberText(DecimalNumber(n))
    case Flag(b) => if b then "true" else "false"
    case Real(d) =>
      match d
      case Finite(number) => NumberText(number)
      case Infinite(negative) => if negative then "-inf" else "inf"
      case NotANumber(negative) => if negative then "-nan" else "nan"
  }

  /** What a stream prints is never empty and holds no blank and nothing that ends a value. */
  lemma LiteralIsScalar(v: Literal)
    ensures WfScalar(LiteralText(v))
  {
    match v
    case Whole(n) => RfcNumberIsScalar(DecimalNumber(n));
    case Flag(_) =>
    case Real(d) => if d.Finite? { RfcNumberIsScalar(d.number); }
  }

  predicate CleanLiteral(v: Literal) { v.Real? ==> v.d.Finite? }

  /** An infinity or a NaN does not print as JSON; every other literal does. */
  lemma LiteralIsRfcExactly(v: Literal)
    ensures RfcScalar(LiteralText(v)) <==> CleanLiteral(v)
  {
    match v
    case Whole(n) => assert RfcNumber(DecimalNumber(n));
    case Flag(_) =>
    case Real(d) =>
      if d.Finite? {
        assert RfcNumber(d.number);
      } else {
        forall n | RfcNumber(n) ensures LiteralText(v) != NumberText(n) {
          assert NumberText(n)[|n.minus|] == n.digits[0];
        }
      }
  }

  // ---- Documents ----

  datatype Doc =
    | Text(s: string)
    | Num(v: Literal)
    | Obj(fields: Fields)
    | Arr(items: Items)

  datatype Fields = NoFields | Field(name: string, value: Doc, next: Fields)

  datatype Items = NoItems | Item(value: Doc, next: Items)

  function Print(d: Doc): string {
    match d
    case Text(s) => Quoted(s)
    case Num(v) => LiteralText(v)
    case Obj(fields) => ['{'] + PrintFields(fields)
    case Arr(items) => ['['] + PrintItems(items)
  }

  /** The fields separated by commas, and the closing brace. */
  function PrintFields(fs: Fields): string {
    match fs
    case NoFields => ['}']
    case Field(name, value, next) =>
      Quoted(name) + ([':'] + Print(value)) + (if next.NoFields? then ['}'] else [','] + PrintFields(next))
  }

  function PrintItems(xs: Items): string {
    match xs
    case NoItems => [']']
    case Item(value, next) => Print(value) + (if next.NoItems? then [']'] else [','] + PrintItems(next))
  }

  /** The punctuation of objects; nothing else is printed between their parts. */
  lemma ObjectPunctuation(name: string, v: Doc, next: Fields)
    ensures Print(Obj(NoFields)) == "{}"
    ensures Print(Obj(Field(name, v, next))) == "{\"" + EscapeText(name) + "\":" + Print(v)
                                               + (if next.Field? then "," + Print(Obj(next))[1..] else "}")
  {
    assert next.Field? ==> Print(Obj(next))[1..] == PrintFields(next);
    var tail := if next.NoFields? then ['}'] else [','] + PrintFields(next);
    Punctuated(EscapeText(name), Print(v), tail);
  }

  lemma Punctuated(name: string, value: string, tail: string)
    ensures ['{'] + ((['"'] + (name + ['"'])) + ([':'] + value) + tail) == "{\"" + name + "\":" + value + tail
  {
  }

  /** The punctuation of arrays. */
  lemma ArrayPunctuation(v: Doc, next: Items)
    ensures Print(Arr(NoItems)) == "[]"
    ensures Print(Arr(Item(v, next))) == "[" + Print(v) + (if next.Item? then "," + Print(Arr(next))[1..] else "]")
  {
    assert next.Item? ==> Print(Arr(next))[1..] == PrintItems(next);
    Enclosed(Print(v), if next.NoItems? then [']'] else [','] + PrintItems(next));
  }

  lemma Enclosed(value: string, tail: string)
    ensures ['['] + (value + tail) == "[" + value + tail
  {
  }

  // ---- The tree that is printed ----

  function Bare(t: Json): Element { Element("", t, "") }

  function TreeOf(d: Doc): Json {
    match d
    case Text(s) => JString(EscapePieces(s))
    case Num(v) => JScalar(LiteralText(v))
    case Obj(fields) => if fields.NoFields? then JEmptyObject("") else JObject(MembersOf(fields))
    case Arr(items) => if items.NoItems? then JEmptyArray("") else JArray(ElementsOf(items))
  }

  function MembersOf(fs: Fields): Members
    requires fs.Field?
  {
    var m := Member(Bare(JString(EscapePieces(fs.name))), Bare(TreeOf(fs.value)));
    if fs.next.NoFields? then LastMember(m) else MoreMembers(m, MembersOf(fs.next))
  }

  function ElementsOf(xs: Items): Elements
    requires xs.Item?
  {
    var e := Bare(TreeOf(xs.value));
    if xs.next.NoItems? then LastElement(e) else MoreElements(e, ElementsOf(xs.next))
  }

  lemma BareText(t: Json)
    ensures RenderElement(Bare(t)) == Render(t)
    ensures WfElement(Bare(t)) <==> Wf(t)
    ensures RfcElement(Bare(t)) <==> Rfc(t)
  {
    assert "" + (Render(t) + "") == Render(t);
  }

  lemma QuotedText(s: string)
    ensures Render(JString(EscapePieces(s))) == Quoted(s)
    ensures Wf(JString(EscapePieces(s)))
  {
    EscapedIsWf(s);
  }

  /** What is printed is the text of the document's tree, and that tree is in the grammar. */
  lemma {:induction false} PrintsItsTree(d: Doc)
    ensures Wf(TreeOf(d)) && Render(TreeOf(d)) == Print(d)
    decreases d, 0
  {
    match d
    case Text(s) => QuotedText(s);
    case Num(v) => LiteralIsScalar(v);
    case Obj(fields) =>
      if fields.NoFields? { assert ['{'] + ("" + ['}']) == ['{'] + ['}']; } else { FieldsPrintTheirMembers(fields); }
    case Arr(items) =>
      if items.NoItems? { assert ['['] + ("" + [']']) == ['['] + [']']; } else { ItemsPrintTheirElements(items); }
  }

  lemma {:induction false} FieldPrintsItsMember(name: string, value: Doc)
    ensures var m := Member(Bare(JString(EscapePieces(name))), Bare(TreeOf(value)));
      WfMember(m) && RenderMember(m) == Quoted(name) + ([':'] + Print(value))
    decreases value, 1
  {
    QuotedText(name);
    PrintsItsTree(value);
    BareText(JString(EscapePieces(name)));
    BareText(TreeOf(value));
  }

  lemma {:induction false} FieldsPrintTheirMembers(fs: Fields)
    requires fs.Field?
    ensures WfMembers(MembersOf(fs)) && RenderMembers(MembersOf(fs)) == PrintFields(fs)
    decreases fs
  {
    FieldPrintsItsMember(fs.name, fs.value);
    if fs.next.Field? { FieldsPrintTheirMembers(fs.next); }
  }

  lemma {:induction false} ItemsPrintTheirElements(xs: Items)
    requires xs.Item?
    ensures WfElements(ElementsOf(xs)) && RenderElements(ElementsOf(xs)) == PrintItems(xs)
    decreases xs
  {
    PrintsItsTree(xs.value);
    BareText(TreeOf(xs.value));
    if xs.next.Item? { ItemsPrintTheirElements(xs.next); }
  }

  // ---- When the printed text is RFC 8259 ----

  /** No control character but the three that `json_escape` knows. */
  predicate Clean(s: string) {
    forall k | 0 <= k < |s| :: s[k] >= ' ' || s[k] == '\n' || s[k] == '\r' || s[k] == '\t'
  }

  ghost predicate CleanDoc(d: Doc) {
    match d
    case Text(s) => Clean(s)
    case Num(v) => CleanLiteral(v)
    case Obj(fields) => CleanFields(fields)
    case Arr(items) => CleanItems(items)
  }

  ghost predicate CleanFields(fs: Fields) {
    fs.Field? ==> Clean(fs.name) && CleanDoc(fs.value) && CleanFields(fs.next)
  }

  ghost predicate CleanItems(xs: Items) { xs.Item? ==> CleanDoc(xs.value) && CleanItems(xs.next) }

  lemma CleanExact(s: string)
    ensures RfcPieces(EscapePieces(s)) <==> Clean(s)
  {
    var ps := EscapePieces(s);
    forall k | 0 <= k < |s|
      ensures RfcPiece(ps[k]) <==> s[k] >= ' ' || s[k] == '\n' || s[k] == '\r' || s[k] == '\t'
    {
      assert ps[k] == EscapePiece(s[k]);
    }
    if RfcPieces(ps) {
      forall k | 0 <= k < |s|
        ensures s[k] >= ' ' || s[k] == '\n' || s[k] == '\r' || s[k] == '\t'
      {
        assert RfcPiece(ps[k]);
      }
    }
  }

  lemma {:induction false} CleanTree(d: Doc)
    ensures Rfc(TreeOf(d)) <==> CleanDoc(d)
    decreases d
  {
    match d
    case Text(s) => CleanExact(s);
    case Num(v) => LiteralIsRfcExactly(v);
    case Obj(fields) => if fields.Field? { CleanMembers(fields); }
    case Arr(items) => if items.Item? { CleanElements(items); }
  }

  lemma {:induction false} CleanMembers(fs: Fields)
    requires fs.Field?
    ensures RfcMembers(MembersOf(fs)) <==> CleanFields(fs)
    decreases fs
  {
    CleanExact(fs.name);
    CleanTree(fs.value);
    BareText(JString(EscapePieces(fs.name)));
    BareText(TreeOf(fs.value));
    if fs.next.Field? { CleanMembers(fs.next); }
  }

  lemma {:induction false} CleanElements(xs: Items)
    requires xs.Item?
    ensures RfcElements(ElementsOf(xs)) <==> CleanItems(xs)
    decreases xs
  {
    CleanTree(xs.value);
    BareText(TreeOf(xs.value));
    if xs.next.Item? { CleanElements(xs.next); }
  }

  ghost predicate IsRfcText(s: string) {
    exists t :: Rfc(t) && (t.IsObject() || t.IsArray()) && s == Render(t)
  }

  /** A printed object or array is RFC 8259 text exactly when its strings are clean and its numbers are RFC numbers. */
  lemma PrintedIsRfcExactly(d: Doc)
    requires d.Obj? || d.Arr?
    ensures IsRfcText(Print(d)) <==> CleanDoc(d)
  {
    PrintsItsTree(d);
    CleanTree(d);
    if IsRfcText(Print(d)) {
      var t :| Rfc(t) && (t.IsObject() || t.IsArray()) && Print(d) == Render(t);
      RfcIsWf(t);
      Unambiguous(t, TreeOf(d));
    }
  }

  /** A field name that needs no escaping beyond what `json_escape` does. */
  type Name = s: string | Clean(s)

  function IntField(name: Name, n: int, next: Fields): (fs: Fields)
    ensures CleanFields(fs) <==> CleanFields(next)
  {
    Field(name, Num(Whole(n)), next)
  }

  function FlagField(name: Name, b: bool, next: Fields): (fs: Fields)
    ensures CleanFields(fs) <==> CleanFields(next)
  {
    Field(name, Num(Flag(b)), next)
  }

  function DoubleField(name: Name, d: Double, next: Fields): (fs: Fields)
    ensures CleanFields(fs) <==> d.Finite? && CleanFields(next)
  {
    Field(name, Num(Real(d)), next)
  }

  function TextField(name: Name, s: string, next: Fields): (fs: Fields)
    ensures CleanFields(fs) <==> Clean(s) && CleanFields(next)
  {
    Field(name, Text(s), next)
  }

  function DocField(name: Name, d: Doc, next: Fields): (fs: Fields)
    ensures CleanFields(fs) <==> CleanDoc(d) && CleanFields(next)
  {
    Field(name, d, next)
  }

  // ---- A printed document is one line ----

  predicate OneLine(s: string) { forall k | 0 <= k < |s| :: s[k] != '\n' && s[k] != '\r' }

  lemma OneLineConcat(a: string, b: string)
    requires OneLine(a) && OneLine(b)
    ensures OneLine(a + b)
  {
  }

  lemma {:induction false} EscapedIsOneLine(s: string)
    ensures OneLine(EscapeText(s)) && OneLine(Quoted(s))
  {
    if s != "" {
      EscapedIsOneLine(s[1..]);
      OneLineConcat(PieceText(EscapePiece(s[0])), EscapeText(s[1..]));
    }
  }

  lemma {:induction false} PrintedIsOneLine(d: Doc)
    ensures OneLine(Print(d))
    decreases d
  {
    match d
    case Text(s) => EscapedIsOneLine(s);
    case Num(v) =>
      LiteralIsScalar(v);
      var text := LiteralText(v);
      forall k | 0 <= k < |text| ensures text[k] != '\n' && text[k] != '\r' {
        assert !EndsScalar(text[k]);
      }
    case Obj(fields) => FieldsAreOneLine(fields);
    case Arr(items) => ItemsAreOneLine(items);
  }

  lemma {:induction false} FieldsAreOneLine(fs: Fields)
    ensures OneLine(PrintFields(fs))
    decreases fs
  {
    if fs.Field? {
      EscapedIsOneLine(fs.name);
      PrintedIsOneLine(fs.value);
      OneLineConcat([':'], Print(fs.value));
      OneLineConcat(Quoted(fs.name), [':'] + Print(fs.value));
      FieldsAreOneLine(fs.next);
      OneLineConcat([','], PrintFields(fs.next));
    }
  }

  lemma {:induction false} ItemsAreOneLine(xs: Items)
    ensures OneLine(PrintItems(xs))
    decreases xs
  {
    if xs.Item? {
      PrintedIsOneLine(xs.value);
      ItemsAreOneLine(xs.next);
      OneLineConcat([','], PrintItems(xs.next));
    }
  }
}
