/**
 The inspecting part of the scanner of `tools/inspect_polymarket_payloads.cpp`: it accepts what
 the skipping part accepts and returns what the tree says about the top-level members.
 */
module EventInspector {
  import opened JsonGrammar
  import opened JsonParser
  import opened EventSchemas
  import opened PayloadScanner
  import opened ScannerLoops
  import opened TextScanner

  /** Accepts what `SkipObject` accepts and reports the members' names and type. */
  method InspectObject(input: string, pos: nat)
    returns (ok: bool, end: nat, event: EventSchema, error: string)
    requires pos <= |input|
    ensures pos <= end <= |input|
    ensures var r := ParseObject(input, pos);
      (ok <==> r.Done?) && (ok ==> end == r.end && r.value.IsObject() && event == SchemaOf(r.value))
    ensures ok <==> error == ""
  {
    end, event := pos, NO_SCHEMA;
    if pos >= |input| || input[pos] != '{' {
      return false, end, event, "expected event object";
    }
    end := SkipWs(input, pos + 1);
    if end < |input| && input[end] == '}' {
      return true, end + 1, event, "";
    }
    MembersAfterBlank(input, pos + 1);
    ReportMembersIs(input, end, NO_SCHEMA);
    ok, end, event, error := InspectMembers(input, end);
  }

  /** The loop of `InspectObject`. */
  method InspectMembers(input: string, pos: nat)
    returns (ok: bool, end: nat, event: EventSchema, error: string)
    requires pos <= |input| && (pos < |input| ==> !IsSpace(input[pos]))
    ensures pos <= end <= |input|
    ensures var r := ReportMembers(input, pos, NO_SCHEMA);
      (ok <==> r.Report?) && (ok ==> r == Report(end, event))
    ensures ok <==> error == ""
  {
    hide Observe, EntryOf, ParseMember;
    end, event := pos, NO_SCHEMA;
    while end < |input|
      invariant pos <= end <= |input|
      invariant end < |input| ==> !IsSpace(input[end])
      invariant ReportMembers(input, end, event) == ReportMembers(input, pos, NO_SCHEMA)
    {
      ok, end, event, error := InspectMember(input, end, event);
      if !ok { return; }
      if end < |input| && input[end] == ',' {
        end := SkipWs(input, end + 1);
        continue;
      }
      if end < |input| && input[end] == '}' {
        return true, end + 1, event, "";
      }
      return false, end, event, "expected event object comma or close";
    }
    return false, end, event, "unterminated event object";
  }

  /** The part of the inspecting loop that reads one member into the report. */
  method InspectMember(input: string, pos: nat, before: EventSchema)
    returns (ok: bool, end: nat, event: EventSchema, error: string)
    requires pos < |input| && !IsSpace(input[pos])
    ensures pos <= end <= |input|
    ensures var r := ParseMember(input, pos);
      (ok <==> r.Done?) && (ok ==> end == r.end && event == Observe(before, EntryOf(r.value)))
    ensures ok <==> error == ""
  {
    hide Observe;
    event := before;
    var key;
    ok, end, key, error := ScanKey(input, pos);
    if !ok { return; }
    event := event.(fields := event.fields + {key});
    if end >= |input| || input[end] != ':' {
      return false, end, event, "expected event object colon";
    }
    end := SkipWs(input, end + 1);
    ghost var value := ParseValue(input, end);
    ok, end, event, error := InspectMemberValue(input, end, key, event);
    if !ok { return; }
    NamedTwice(before, Entry(key, TextOf(value.value)));
    end := SkipWs(input, end);
  }

  lemma NamedTwice(event: EventSchema, e: Entry)
    ensures Observe(event.(fields := event.fields + {e.key}), e) == Observe(event, e)
  {
  }

  /** A string value of `event_type` or `type` is read, any other value is skipped. */
  method InspectMemberValue(input: string, pos: nat, key: string, before: EventSchema)
    returns (ok: bool, end: nat, event: EventSchema, error: string)
    requires pos <= |input| && AfterBlank(input, pos) == pos && key in before.fields
    ensures pos <= end <= |input|
    ensures var r := ParseValue(input, pos);
      (ok <==> r.Done?) && (ok ==> end == r.end && event == Observe(before, Entry(key, TextOf(r.value))))
    ensures ok <==> error == ""
  {
    event := before;
    if (key == "event_type" || key == "type") && pos < |input| && input[pos] == '"' {
      var value;
      ok, end, value, error := ScanString(input, pos);
      if !ok { return; }
      if key == "event_type" {
        event := event.(kind := if value == "" then "unknown" else value, hasEventType := true);
      } else if !event.hasEventType {
        event := event.(kind := if value == "" then "unknown" else value, hasType := true);
      }
    } else {
      ok, end, error := SkipValue(input, pos);
      if !ok { return; }
      StringValueOpensWithQuote(input, pos);
    }
    assert before.fields + {key} == before.fields;
  }

  lemma StringValueOpensWithQuote(s: string, i: nat)
    requires i <= |s| && ParseValue(s, i).Done?
    ensures ParseValue(s, i).value.JString? <==> Holds(s, i, '"')
    ensures ParseValue(s, i).value.IsObject() <==> Holds(s, i, '{')
  {
    ParseValueSound(s, i);
    FirstCharacter(s, i, ParseValue(s, i).value);
  }

  method InspectArray(input: string, pos: nat)
    returns (ok: bool, end: nat, events: seq<EventSchema>, error: string)
    requires pos <= |input|
    ensures pos <= end <= |input|
    ensures var r := ParseArray(input, pos);
      (ok <==> r.Done?) && (ok ==> end == r.end && r.value.IsArray() && events == EventsOf(r.value))
    ensures ok <==> error == ""
  {
    end, events := pos, [];
    if pos >= |input| || input[pos] != '[' {
      return false, end, events, "expected top-level array";
    }
    end := SkipWs(input, pos + 1);
    if end < |input| && input[end] == ']' {
      return true, end + 1, events, "";
    }
    ElementsAfterBlank(input, pos + 1);
    ReportElementsIs(input, end, []);
    ok, end, events, error := InspectElements(input, end);
  }

  /** The loop of `InspectArray`. */
  method InspectElements(input: string, pos: nat)
    returns (ok: bool, end: nat, events: seq<EventSchema>, error: string)
    requires pos <= |input| && (pos < |input| ==> !IsSpace(input[pos]))
    ensures pos <= end <= |input|
    ensures var r := ReportElements(input, pos, []);
      (ok <==> r.Report?) && (ok ==> r == Report(end, events))
    ensures ok <==> error == ""
  {
    hide OneEvent, ParseElement;
    end, events := pos, [];
    while end < |input|
      invariant pos <= end <= |input|
      invariant end < |input| ==> !IsSpace(input[end])
      invariant ReportElements(input, end, events) == ReportElements(input, pos, [])
    {
      var found;
      ok, end, found, error := InspectElement(input, end);
      events := events + found;
      if !ok { return; }
      if end < |input| && input[end] == ',' {
        end := SkipWs(input, end + 1);
        continue;
      }
      if end < |input| && input[end] == ']' {
        return true, end + 1, events, "";
      }
      return false, end, events, "expected top-level array comma or close";
    }
    return false, end, events, "unterminated top-level array";
  }

  /** The part of the top-level array loop that reads one element; only objects are reported. */
  method InspectElement(input: string, pos: nat)
    returns (ok: bool, end: nat, found: seq<EventSchema>, error: string)
    requires pos < |input| && !IsSpace(input[pos])
    ensures pos <= end <= |input|
    ensures var r := ParseElement(input, pos);
      (ok <==> r.Done?) && (ok ==> end == r.end && found == OneEvent(r.value.value))
    ensures ok <==> error == ""
  {
    found := [];
    if input[pos] == '{' {
      var event;
      ok, end, event, error := InspectObject(input, pos);
      if !ok { return; }
      found := [event];
    } else {
      ok, end, error := SkipValue(input, pos);
      if !ok { return; }
    }
    StringValueOpensWithQuote(input, pos);
    end := SkipWs(input, end);
  }

  /** Accepts exactly the documents of the relaxed grammar and lists their events. */
  method InspectJsonPayload(payload: string)
    returns (ok: bool, events: seq<EventSchema>, arrayWrapped: bool, error: string)
    ensures var r := ParseDocument(payload);
      && (ok <==> r.Done?)
      && (ok ==> events == EventsOf(r.value) && (arrayWrapped <==> r.value.IsArray()))
    ensures ok <==> error == ""
  {
    events, arrayWrapped := [], false;
    var pos := SkipWs(payload, 0);
    if pos >= |payload| {
      return false, events, arrayWrapped, "empty payload";
    }
    ParseObjectSound(payload, pos);
    ParseArraySound(payload, pos);
    if payload[pos] == '{' {
      var event;
      ok, pos, event, error := InspectObject(payload, pos);
      if !ok { return; }
      events := [event];
    } else if payload[pos] == '[' {
      arrayWrapped := true;
      ok, pos, events, error := InspectArray(payload, pos);
      if !ok { return; }
    } else {
      return false, events, arrayWrapped, "not a JSON object or array";
    }
    pos := SkipWs(payload, pos);
    if pos != |payload| {
      return false, events, arrayWrapped, "trailing bytes after JSON payload";
    }
    return true, events, arrayWrapped, "";
  }
}
