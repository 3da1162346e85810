/**
 What the inspector reports about a JSON object: the names of its top-level members and the
 type they announce.
 */
module EventSchemas {
  import opened JsonGrammar
  import opened Options
  import opened Sequences

  /** A top-level member as the inspector sees it: its decoded name, and its value if that is a string. */
  datatype Entry = Entry(key: string, text: Option<string>)

  datatype EventSchema = EventSchema(kind: string, hasEventType: bool, hasType: bool, fields: set<string>)

  const NO_SCHEMA := EventSchema("unknown", false, false, {})

  function TextOf(t: Json): Option<string> { if t.JString? then Some(Decode(t.pieces)) else None }

  function EntryOf(m: Member): Entry {
    Entry(if m.key.value.JString? then Decode(m.key.value.pieces) else "", TextOf(m.item.value))
  }

  function Entries(ms: Members): (es: seq<Entry>)
    ensures |es| > 0
  {
    match ms
    case LastMember(m) => [EntryOf(m)]
    case MoreMembers(m, tail) => [EntryOf(m)] + Entries(tail)
  }

  /** The effect of one member on the report. */
  function Observe(event: EventSchema, e: Entry): EventSchema {
    var event := event.(fields := event.fields + {e.key});
    if e.text.None? then event
    else
      var kind := if e.text.value == "" then "unknown" else e.text.value;
      if e.key == "event_type" then event.(kind := kind, hasEventType := true)
      else if e.key == "type" && !event.hasEventType then event.(kind := kind, hasType := true)
      else event
  }

  function Observed(event: EventSchema, es: seq<Entry>): EventSchema
    decreases |es|
  {
    if es == [] then event else Observed(Observe(event, es[0]), es[1..])
  }

  function ObjectEntries(t: Json): seq<Entry>
    requires t.IsObject()
  {
    if t.JEmptyObject? then [] else Entries(t.members)
  }

  function SchemaOf(t: Json): EventSchema
    requires t.IsObject()
  {
    Observed(NO_SCHEMA, ObjectEntries(t))
  }

  function OneEvent(t: Json): seq<EventSchema> { if t.IsObject() then [SchemaOf(t)] else [] }

  function ElementEvents(es: Elements): seq<EventSchema> {
    OneEvent(es.e.value) + if es.MoreElements? then ElementEvents(es.tail) else []
  }

  /** The events of a document: the object itself, or the objects among the array's elements. */
  function EventsOf(t: Json): seq<EventSchema>
    requires t.IsObject() || t.IsArray()
  {
    if t.IsObject() then [SchemaOf(t)]
    else if t.JEmptyArray? then [] else ElementEvents(t.elements)
  }

  // ---- What the report means ----

  /** The text of the last string member with this name. */
  function LastText(es: seq<Entry>, key: string): Option<string> {
    if es == [] then None
    else
      var last := es[|es| - 1];
      if last.key == key && last.text.Some? then last.text else LastText(es[..|es| - 1], key)
  }

  /** The announced type: the last string `event_type`, else the last string `type`, else unknown. */
  function Announced(es: seq<Entry>): string {
    var text := if LastText(es, "event_type").Some? then LastText(es, "event_type") else LastText(es, "type");
    if text.None? || text.value == "" then "unknown" else text.value
  }

  function Keys(es: seq<Entry>): set<string> { set e | e in es :: e.key }

  lemma {:induction false} ObservedSnoc(event: EventSchema, es: seq<Entry>, e: Entry)
    ensures Observed(event, es + [e]) == Observe(Observed(event, es), e)
    decreases |es|
  {
    if es == [] {
      assert [] + [e] == [e];
    } else {
      assert (es + [e])[0] == es[0] && (es + [e])[1..] == es[1..] + [e];
      ObservedSnoc(Observe(event, es[0]), es[1..], e);
    }
  }

  lemma {:induction false} NamesAndType(es: seq<Entry>)
    ensures var r := Observed(NO_SCHEMA, es);
      && r.fields == Keys(es)
      && r.kind == Announced(es)
      && (r.hasEventType <==> LastText(es, "event_type").Some?)
      && (r.hasEventType || r.hasType <==> LastText(es, "event_type").Some? || LastText(es, "type").Some?)
    decreases |es|
  {
    if es != [] {
      var front, last := es[..|es| - 1], es[|es| - 1];
      assert es == front + [last];
      NamesAndType(front);
      ObservedSnoc(NO_SCHEMA, front, last);
      assert Keys(es) == Keys(front) + {last.key};
    }
  }

  ghost predicate DistinctKeys(es: seq<Entry>) {
    forall i, j | 0 <= i < j < |es| :: es[i].key != es[j].key
  }

  lemma {:induction false} LastTextIsTheText(es: seq<Entry>, key: string)
    requires DistinctKeys(es)
    ensures forall t :: LastText(es, key) == Some(t) <==> Entry(key, Some(t)) in es
    decreases |es|
  {
    if es != [] {
      var front, last := es[..|es| - 1], es[|es| - 1];
      assert es == front + [last];
      LastTextIsTheText(front, key);
      if last.key == key {
        assert forall t :: Entry(key, Some(t)) !in front;
      }
    }
  }

  /** With distinct names, the order of the members changes neither the names nor the type nor what is missing. */
  lemma OrderIrrelevant(es: seq<Entry>, fs: seq<Entry>)
    requires DistinctKeys(es) && DistinctKeys(fs) && multiset(es) == multiset(fs)
    ensures var a, b := Observed(NO_SCHEMA, es), Observed(NO_SCHEMA, fs);
      && a.fields == b.fields && a.kind == b.kind && a.hasEventType == b.hasEventType
      && (a.hasEventType || a.hasType <==> b.hasEventType || b.hasType)
  {
    NamesAndType(es);
    NamesAndType(fs);
    forall e ensures e in es <==> e in fs {
      assert e in multiset(es) <==> e in multiset(fs);
    }
    forall key ensures LastText(es, key) == LastText(fs, key) {
      LastTextIsTheText(es, key);
      LastTextIsTheText(fs, key);
      if LastText(es, key).Some? { assert Entry(key, LastText(es, key)) in es; }
      if LastText(fs, key).Some? { assert Entry(key, LastText(fs, key)) in fs; }
    }
    assert Keys(es) == Keys(fs);
  }

  // ---- The `has_type` flag ----

  predicate IsText(e: Entry, key: string) { e.key == key && e.text.Some? }

  ghost predicate HasText(es: seq<Entry>, key: string) { exists k :: 0 <= k < |es| && IsText(es[k], key) }

  /** Entry `k` is a string `type` with no string `event_type` before it. */
  ghost predicate IsEarlyType(es: seq<Entry>, k: nat) {
    k < |es| && IsText(es[k], "type") && forall j | 0 <= j < k :: !IsText(es[j], "event_type")
  }

  lemma {:induction false} LastTextExists(es: seq<Entry>, key: string)
    ensures LastText(es, key).Some? <==> HasText(es, key)
    decreases |es|
  {
    if es != [] {
      var front := es[..|es| - 1];
      LastTextExists(front, key);
      if k :| 0 <= k < |front| && IsText(front[k], key) { assert IsText(es[k], key); }
      if k :| 0 <= k < |es| && IsText(es[k], key) {
        if k < |front| { assert IsText(front[k], key); }
      }
    }
  }

  /** The flag is set exactly when a string `type` comes before every string `event_type`. */
  lemma {:induction false} HasTypeMeaning(es: seq<Entry>)
    ensures Observed(NO_SCHEMA, es).hasType <==> exists k: nat :: IsEarlyType(es, k)
    decreases |es|
  {
    if es != [] {
      var front, last := es[..|es| - 1], es[|es| - 1];
      assert es == front + [last];
      HasTypeMeaning(front);
      ObservedSnoc(NO_SCHEMA, front, last);
      NamesAndType(front);
      LastTextExists(front, "event_type");
      EarlyTypeSnoc(front, last);
    }
  }

  lemma EarlyTypeSnoc(front: seq<Entry>, last: Entry)
    ensures (exists k: nat :: IsEarlyType(front + [last], k)) <==>
            || (exists k: nat :: IsEarlyType(front, k))
            || (IsText(last, "type") && !HasText(front, "event_type"))
  {
    var es := front + [last];
    if k: nat :| IsEarlyType(front, k) { assert IsEarlyType(es, k); }
    if IsText(last, "type") && !HasText(front, "event_type") { assert IsEarlyType(es, |front|); }
    if k: nat :| IsEarlyType(es, k) {
      forall j | 0 <= j < k ensures !IsText(front[j], "event_type") { assert es[j] == front[j]; }
      if k < |front| { assert es[k] == front[k] && IsEarlyType(front, k); }
    }
  }

  /** What a report says about these entries. */
  ghost predicate Reports(r: EventSchema, es: seq<Entry>) {
    && r.fields == Keys(es)
    && r.kind == Announced(es)
    && (r.hasEventType <==> HasText(es, "event_type"))
    && (r.hasType <==> exists k: nat :: IsEarlyType(es, k))
  }

  /** The members read left to right give the set of names, the announced type, and both flags. */
  lemma ReportMeaning(es: seq<Entry>)
    ensures Reports(Observed(NO_SCHEMA, es), es)
  {
    NamesAndType(es);
    LastTextExists(es, "event_type");
    HasTypeMeaning(es);
  }

  lemma HasTextReordered(es: seq<Entry>, fs: seq<Entry>, key: string)
    requires multiset(es) == multiset(fs) && HasText(es, key)
    ensures HasText(fs, key)
  {
    var k :| 0 <= k < |es| && IsText(es[k], key);
    assert es[k] in multiset(fs);
    var j :| 0 <= j < |fs| && fs[j] == es[k];
  }

  lemma EarlyTypeIsType(es: seq<Entry>)
    ensures (exists k: nat :: IsEarlyType(es, k)) ==> HasText(es, "type")
    ensures !HasText(es, "event_type") ==> (HasText(es, "type") <==> exists k: nat :: IsEarlyType(es, k))
  {
    if !HasText(es, "event_type") && HasText(es, "type") {
      var k :| 0 <= k < |es| && IsText(es[k], "type");
      assert IsEarlyType(es, k);
    }
  }

  /** Every order of the members gives the same flag. */
  ghost predicate HasTypeIsOrderFree(es: seq<Entry>) {
    forall fs | multiset(fs) == multiset(es) :: Observed(NO_SCHEMA, fs).hasType == Observed(NO_SCHEMA, es).hasType
  }

  /** The flag does not depend on the order exactly when `type` and `event_type` are not both given as strings. */
  lemma HasTypeOrderFreeExactly(es: seq<Entry>)
    ensures HasTypeIsOrderFree(es) <==> !(HasText(es, "type") && HasText(es, "event_type"))
  {
    if HasText(es, "type") && HasText(es, "event_type") {
      BothOrdersHappen(es);
    } else {
      forall fs | multiset(fs) == multiset(es)
        ensures Observed(NO_SCHEMA, fs).hasType == Observed(NO_SCHEMA, es).hasType
      {
        OneKindOnly(es, fs);
      }
    }
  }

  lemma OneKindOnly(es: seq<Entry>, fs: seq<Entry>)
    requires multiset(es) == multiset(fs) && !(HasText(es, "type") && HasText(es, "event_type"))
    ensures Observed(NO_SCHEMA, es).hasType == Observed(NO_SCHEMA, fs).hasType
  {
    hide Observed, IsEarlyType;
    HasTypeMeaning(es);
    HasTypeMeaning(fs);
    EarlyTypeIsType(es);
    EarlyTypeIsType(fs);
    if HasText(fs, "type") { HasTextReordered(fs, es, "type"); }
    if HasText(fs, "event_type") { HasTextReordered(fs, es, "event_type"); }
    if HasText(es, "type") { HasTextReordered(es, fs, "type"); }
  }

  /** With both, one order sets the flag and another does not. */
  lemma BothOrdersHappen(es: seq<Entry>)
    requires HasText(es, "type") && HasText(es, "event_type")
    ensures !HasTypeIsOrderFree(es)
  {
    var i: nat :| i < |es| && IsText(es[i], "type");
    var j: nat :| j < |es| && IsText(es[j], "event_type");
    FrontDecides(es, i);
    FrontDecides(es, j);
    MovedIsReordered(es, i);
    MovedIsReordered(es, j);
  }

  lemma FrontDecides(es: seq<Entry>, i: nat)
    requires i < |es|
    ensures IsText(es[i], "type") ==> Observed(NO_SCHEMA, MovedToFront(es, i)).hasType
    ensures IsText(es[i], "event_type") ==> !Observed(NO_SCHEMA, MovedToFront(es, i)).hasType
  {
    var fs := MovedToFront(es, i);
    HasTypeMeaning(fs);
    assert fs[0] == es[i];
    if IsText(es[i], "type") { assert IsEarlyType(fs, 0); }
    if IsText(es[i], "event_type") {
      forall k: nat ensures !IsEarlyType(fs, k) {
        if k == 0 { assert !IsText(fs[0], "type") by { assert "type"[0] != "event_type"[0]; } }
      }
    }
  }

  /** Two members in two orders, with different flags. */
  lemma HasTypeDependsOnOrder()
    ensures var a, b := Entry("type", Some("x")), Entry("event_type", Some("y"));
      Observed(NO_SCHEMA, [a, b]).hasType && !Observed(NO_SCHEMA, [b, a]).hasType
  {
    var a, b := Entry("type", Some("x")), Entry("event_type", Some("y"));
    assert MovedToFront([a, b], 0) == [a, b] && MovedToFront([a, b], 1) == [b, a];
    FrontDecides([a, b], 0);
    FrontDecides([a, b], 1);
  }

  /** Position `k` holds the last string member with this name. */
  predicate IsLastText(es: seq<Entry>, key: string, k: nat) {
    && k < |es| && es[k].key == key && es[k].text.Some?
    && forall i | k < i < |es| :: es[i].key != key || es[i].text == None
  }

  lemma {:induction false} LastTextMeaning(es: seq<Entry>, key: string, k: nat)
    ensures IsLastText(es, key, k) ==> LastText(es, key) == es[k].text
    ensures (forall i | 0 <= i < |es| :: es[i].key != key || es[i].text == None) ==> LastText(es, key) == None
    decreases |es|
  {
    if es != [] {
      var front := es[..|es| - 1];
      LastTextMeaning(front, key, k);
      assert forall i | 0 <= i < |front| :: front[i] == es[i];
    }
  }

  /** The last string `event_type` decides, else the last string `type`; without text the type is unknown. */
  lemma AnnouncedMeaning(es: seq<Entry>, k: nat)
    ensures IsLastText(es, "event_type", k) ==>
              Announced(es) == if es[k].text == Some("") then "unknown" else es[k].text.value
    ensures (forall i | 0 <= i < |es| :: es[i].key != "event_type" || es[i].text == None) && IsLastText(es, "type", k) ==>
              Announced(es) == if es[k].text == Some("") then "unknown" else es[k].text.value
    ensures (forall i | 0 <= i < |es| :: es[i].key !in {"event_type", "type"} || es[i].text == None) ==>
              Announced(es) == "unknown"
  {
    hide LastText;
    LastTextMeaning(es, "event_type", k);
    LastTextMeaning(es, "type", k);
  }

  // ---- Reports of whole documents ----

  /** An entry is a member's decoded name, with its decoded value if that is a string. */
  ghost predicate IsEntryOf(e: Entry, m: Member) {
    && (m.key.value.JString? ==> e.key == Decode(m.key.value.pieces))
    && (m.item.value.JString? ==> e.text == Some(Decode(m.item.value.pieces)))
    && (!m.item.value.JString? ==> e.text == None)
  }

  ghost predicate AreEntriesOf(es: seq<Entry>, ms: seq<Member>) {
    |es| == |ms| && forall k | 0 <= k < |ms| :: IsEntryOf(es[k], ms[k])
  }

  lemma {:induction false} EntriesMeaning(ms: Members)
    ensures AreEntriesOf(Entries(ms), MemberList(ms))
  {
    if ms.MoreMembers? { EntriesMeaning(ms.tail); }
  }

  /** `r` is the report on the object `t`. */
  ghost predicate ReportsObject(r: EventSchema, t: Json) {
    t.IsObject() && exists es :: AreEntriesOf(es, ObjectMembers(t)) && Reports(r, es)
  }

  lemma ObjectMeaning(t: Json)
    requires t.IsObject()
    ensures ReportsObject(SchemaOf(t), t)
  {
    hide Reports, Observed;
    var es := ObjectEntries(t);
    if t.JObject? { EntriesMeaning(t.members); }
    assert AreEntriesOf(es, ObjectMembers(t));
    ReportMeaning(es);
  }

  ghost predicate Ascending(at: seq<nat>) { forall i, j | 0 <= i < j < |at| :: at[i] < at[j] }

  /** `at` lists exactly the positions that hold objects, in order. */
  ghost predicate ListsObjects(at: seq<nat>, vs: seq<Json>) {
    && Ascending(at)
    && (forall j | 0 <= j < |at| :: at[j] < |vs| && vs[at[j]].IsObject())
    && (forall k | 0 <= k < |vs| && vs[k].IsObject() :: k in at)
  }

  /** One report for each listed object, in order. */
  ghost predicate ReportEach(events: seq<EventSchema>, at: seq<nat>, vs: seq<Json>) {
    |events| == |at| && forall j | 0 <= j < |at| :: at[j] < |vs| && ReportsObject(events[j], vs[at[j]])
  }

  function Shifted(at: seq<nat>): (r: seq<nat>)
    ensures |r| == |at| && forall j | 0 <= j < |at| :: r[j] == at[j] + 1
  {
    seq(|at|, j requires 0 <= j < |at| => at[j] + 1)
  }

  lemma ConsObjects(v: Json, vs: seq<Json>, at: seq<nat>) returns (r: seq<nat>)
    requires ListsObjects(at, vs)
    ensures r == (if v.IsObject() then [0] else []) + Shifted(at) && ListsObjects(r, [v] + vs)
  {
    hide Shifted;
    var head := if v.IsObject() then [0] else [];
    r := head + Shifted(at);
    ShiftedAscends(head, at);
    var all := [v] + vs;
    forall j | 0 <= j < |r| ensures r[j] < |all| && all[r[j]].IsObject() {
      if j >= |head| { assert vs[at[j - |head|]].IsObject(); }
    }
    forall k | 0 <= k < |all| && all[k].IsObject() ensures k in r {
      if k == 0 { assert r[0] == 0; } else { ShiftedHolds(head, at, k - 1); }
    }
  }

  lemma ShiftedAscends(head: seq<nat>, at: seq<nat>)
    requires Ascending(at) && (head == [0] || head == [])
    ensures Ascending(head + Shifted(at))
  {
    hide Shifted;
  }

  lemma ShiftedHolds(head: seq<nat>, at: seq<nat>, k: nat)
    requires k in at
    ensures k + 1 in head + Shifted(at)
  {
    hide Shifted;
    var j :| 0 <= j < |at| && at[j] == k;
    assert (head + Shifted(at))[|head| + j] == k + 1;
  }

  lemma ConsReports(v: Json, vs: seq<Json>, at: seq<nat>, events: seq<EventSchema>, r: seq<nat>)
    requires ReportEach(events, at, vs) && r == (if v.IsObject() then [0] else []) + Shifted(at)
    ensures ReportEach(OneEvent(v) + events, r, [v] + vs)
  {
    hide ReportsObject, SchemaOf;
    if v.IsObject() { ObjectMeaning(v); }
  }

  lemma {:induction false} ElementsMeaning(es: Elements) returns (at: seq<nat>)
    ensures ListsObjects(at, ElementValues(es)) && ReportEach(ElementEvents(es), at, ElementValues(es))
  {
    hide ListsObjects, ReportEach, OneEvent;
    var rest, events := [], [];
    at := [];
    if es.MoreElements? {
      at := ElementsMeaning(es.tail);
      rest, events := ElementValues(es.tail), ElementEvents(es.tail);
    } else {
      NothingListed();
    }
    var before := at;
    at := ConsObjects(es.e.value, rest, before);
    ConsReports(es.e.value, rest, before, events, at);
  }

  lemma NothingListed()
    ensures ListsObjects([], []) && ReportEach([], [], [])
  {
  }

  /** An array gives one report for each of its elements that is an object, in order, and none for the others. */
  lemma ArrayMeaning(t: Json) returns (at: seq<nat>)
    requires t.IsArray()
    ensures ListsObjects(at, ArrayValues(t)) && ReportEach(EventsOf(t), at, ArrayValues(t))
  {
    hide ListsObjects, ReportEach;
    if t.JArray? {
      at := ElementsMeaning(t.elements);
    } else {
      at := [];
      NothingListed();
    }
  }
}
