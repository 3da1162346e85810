/**
 From text to report: what the inspector of `tools/inspect_polymarket_payloads.cpp` makes of
 messages that announce their type, alone and in an array among strings.
 */
module PrintedEvents {
  import opened JsonGrammar
  import opened JsonParser
  import opened JsonPrinter
  import opened EventSchemas
  import opened Dashboard
  import opened Options

  /** An element of an array: a message that announces a type, or a string, which is no message. */
  datatype Shown = Typed(kind: string) | Plain(s: string)

  function ShownDoc(x: Shown): Doc {
    match x
    case Typed(kind) => Obj(Field("event_type", Text(kind), NoFields))
    case Plain(s) => Text(s)
  }

  function ShownItems(xs: seq<Shown>): Items {
    if xs == [] then NoItems else Item(ShownDoc(xs[0]), ShownItems(xs[1..]))
  }

  /** The reports on the messages, in order. */
  function Reported(xs: seq<Shown>): seq<EventSchema> {
    if xs == [] then []
    else
      (match xs[0]
       case Typed(kind) => [EventSchema(if kind == "" then "unknown" else kind, true, false, {"event_type"})]
       case Plain(_) => []) + Reported(xs[1..])
  }

  lemma {:induction false} PlainIsUnescaped(s: string)
    requires forall k | 0 <= k < |s| :: 'a' <= s[k] <= 'z' || s[k] == '_'
    ensures EscapeText(s) == s
  {
    if s != "" {
      PlainIsUnescaped(s[1..]);
      assert s == [s[0]] + s[1..];
    }
  }

  lemma SingleField(name: string, v: string)
    ensures Print(Obj(Field(name, Text(v), NoFields))) == "{\"" + EscapeText(name) + "\":\"" + EscapeText(v) + "\"}"
  {
    hide EscapeText;
    ObjectPunctuation(name, Text(v), NoFields);
    Joined(EscapeText(name), EscapeText(v));
  }

  lemma Joined(name: string, v: string)
    ensures "{\"" + name + "\":" + (['"'] + (v + ['"'])) + "}" == "{\"" + name + "\":\"" + v + "\"}"
  {
  }

  lemma TypedText(kind: string)
    ensures Print(ShownDoc(Typed(kind))) == "{\"event_type\":\"" + EscapeText(kind) + "\"}"
  {
    hide EscapeText, Print;
    SingleField("event_type", kind);
    PlainIsUnescaped("event_type");
    Opening();
  }

  lemma Opening()
    ensures "{\"" + "event_type" + "\":\"" == "{\"event_type\":\""
  {
  }

  lemma TypedSchema(kind: string)
    ensures SchemaOf(TreeOf(ShownDoc(Typed(kind))))
            == EventSchema(if kind == "" then "unknown" else kind, true, false, {"event_type"})
  {
    hide Observed;
    SingleEntry("event_type", kind);
    AnnouncedAlone(kind);
  }

  lemma SingleEntry(name: string, v: string)
    ensures ObjectEntries(TreeOf(Obj(Field(name, Text(v), NoFields)))) == [Entry(name, Some(v))]
  {
    hide EscapePieces;
    EscapedIsWf(name);
    EscapedIsWf(v);
    var t := TreeOf(Text(v));
    assert t == JString(EscapePieces(v));
    var m := Member(Bare(JString(EscapePieces(name))), Bare(t));
    assert EntryOf(m) == Entry(name, Some(v));
    assert MembersOf(Field(name, Text(v), NoFields)) == LastMember(m);
    assert TreeOf(Obj(Field(name, Text(v), NoFields))) == JObject(LastMember(m));
  }

  lemma AnnouncedAlone(kind: string)
    ensures Observed(NO_SCHEMA, [Entry("event_type", Some(kind))])
            == EventSchema(if kind == "" then "unknown" else kind, true, false, {"event_type"})
  {
    var es := [Entry("event_type", Some(kind))];
    assert es[1..] == [];
    assert Observed(NO_SCHEMA, es) == Observe(NO_SCHEMA, es[0]);
    assert {} + {"event_type"} == {"event_type"};
  }

  lemma ShownEvent(x: Shown)
    ensures OneEvent(TreeOf(ShownDoc(x))) == Reported([x])
  {
    assert [x][1..] == [];
    if x.Typed? { TypedSchema(x.kind); }
  }

  lemma {:induction false} ShownEvents(xs: seq<Shown>)
    requires xs != []
    ensures ElementEvents(ElementsOf(ShownItems(xs))) == Reported(xs)
    decreases |xs|
  {
    hide ShownDoc, OneEvent;
    ShownEvent(xs[0]);
    assert [xs[0]][1..] == [];
    if |xs| > 1 { ShownEvents(xs[1..]); }
  }

  /** A message that announces its type is one event of that type. */
  lemma TypedMessageIsOneEvent(kind: string)
    ensures var r := ParseDocument("{\"event_type\":\"" + EscapeText(kind) + "\"}");
      && r.Done? && r.value.IsObject()
      && EventsOf(r.value) == [EventSchema(if kind == "" then "unknown" else kind, true, false, {"event_type"})]
  {
    hide EscapeText, SchemaOf;
    TypedText(kind);
    DocAccepted(ShownDoc(Typed(kind)));
    TypedSchema(kind);
  }

  /** In an array, the messages are reported in order and the strings are not. */
  lemma MessagesOfAnArray(xs: seq<Shown>)
    ensures var r := ParseDocument(Print(Arr(ShownItems(xs))));
      r.Done? && r.value.IsArray() && EventsOf(r.value) == Reported(xs)
  {
    hide ElementEvents;
    DocAccepted(Arr(ShownItems(xs)));
    if xs != [] { ShownEvents(xs); }
  }

  /** One message in an array. */
  lemma OneBookInAnArray()
    ensures var r := ParseDocument("[{\"event_type\":\"book\"}]");
      r.Done? && r.value.IsArray() && EventsOf(r.value) == [EventSchema("book", true, false, {"event_type"})]
  {
    hide EscapeText, Print, EventsOf;
    var xs := [Typed("book")];
    BookItems(xs);
    MessagesOfAnArray(xs);
    ArrayPunctuation(ShownDoc(Typed("book")), NoItems);
    TypedText("book");
    PlainIsUnescaped("book");
    BookText();
  }

  lemma BookItems(xs: seq<Shown>)
    requires xs == [Typed("book")]
    ensures ShownItems(xs) == Item(ShownDoc(Typed("book")), NoItems)
    ensures Reported(xs) == [EventSchema("book", true, false, {"event_type"})]
  {
    assert xs[1..] == [];
  }

  lemma BookText()
    ensures "[" + ("{\"event_type\":\"" + "book" + "\"}") + "]" == "[{\"event_type\":\"book\"}]"
  {
  }
}
