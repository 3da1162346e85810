/**
 How the loops of the scanner follow the reference parser, one member or element at a time.
 The source skips blanks before a turn of a loop; the parser skips them inside the turn.
 */
module ScannerLoops {
  import opened JsonGrammar
  import opened JsonParser
  import opened EventSchemas

  predicate SameEnd<T, U>(a: Parsed<T>, b: Parsed<U>) {
    (a.Done? <==> b.Done?) && (a.Done? ==> a.end == b.end)
  }

  predicate SameOutcome<T>(ok: bool, end: nat, r: Parsed<T>) { (ok <==> r.Done?) && (ok ==> end == r.end) }

  lemma ElementAfterBlank(s: string, i: nat)
    requires i <= |s|
    ensures var a, b := ParseElement(s, i), ParseElement(s, AfterBlank(s, i));
      SameEnd(a, b) && (a.Done? ==> a.value.value == b.value.value)
  {
    AfterBlankIdempotent(s, i);
  }

  lemma MemberAfterBlank(s: string, i: nat)
    requires i <= |s|
    ensures var a, b := ParseMember(s, i), ParseMember(s, AfterBlank(s, i));
      SameEnd(a, b) && (a.Done? ==> EntryOf(a.value) == EntryOf(b.value))
  {
    hide ParseElement;
    AfterBlankIdempotent(s, i);
    ElementAfterBlank(s, i);
  }

  /** Blanks before the first member change neither the outcome nor the entries. */
  lemma MembersAfterBlank(s: string, i: nat)
    requires i <= |s|
    ensures var a, b := ParseMembers(s, i), ParseMembers(s, AfterBlank(s, i));
      SameEnd(a, b) && (a.Done? ==> Entries(a.value) == Entries(b.value))
  {
    hide ParseMember, EntryOf;
    MemberAfterBlank(s, i);
  }

  lemma ElementsAfterBlank(s: string, i: nat)
    requires i <= |s|
    ensures var a, b := ParseElements(s, i), ParseElements(s, AfterBlank(s, i));
      SameEnd(a, b) && (a.Done? ==> ElementEvents(a.value) == ElementEvents(b.value))
  {
    hide ParseElement, OneEvent;
    ElementAfterBlank(s, i);
  }

  datatype Report<T> = NoReport | Report(end: nat, found: T)

  /** What the members loop makes of the rest of an object, having seen what is in `event`. */
  ghost function ReportMembers(s: string, i: nat, event: EventSchema): Report<EventSchema>
    requires i <= |s|
    decreases |s| - i
  {
    var m := ParseMember(s, i);
    if m.Done? && Holds(s, m.end, ',') then
      ReportMembers(s, AfterBlank(s, m.end + 1), Observe(event, EntryOf(m.value)))
    else if m.Done? && Holds(s, m.end, '}') then Report(m.end + 1, Observe(event, EntryOf(m.value)))
    else NoReport
  }

  lemma ObservedCons(event: EventSchema, e: Entry, es: seq<Entry>)
    ensures Observed(event, [e] + es) == Observed(Observe(event, e), es)
    ensures Observed(event, [e]) == Observe(event, e)
  {
    assert ([e] + es)[1..] == es;
    assert [e][1..] == [];
  }

  /** It is what the parsed members announce. */
  lemma {:induction false} ReportMembersIs(s: string, i: nat, event: EventSchema)
    requires i <= |s|
    ensures var all := ParseMembers(s, i);
      ReportMembers(s, i, event) ==
      if all.Done? then Report(all.end, Observed(event, Entries(all.value))) else NoReport
    decreases |s| - i
  {
    hide Observe, EntryOf, ParseMember;
    var m := ParseMember(s, i);
    if m.Done? && Holds(s, m.end, ',') {
      var e, next := EntryOf(m.value), ParseMembers(s, m.end + 1);
      ReportMembersIs(s, AfterBlank(s, m.end + 1), Observe(event, e));
      MembersAfterBlank(s, m.end + 1);
      if next.Done? { ObservedCons(event, e, Entries(next.value)); }
    } else if m.Done? {
      ObservedCons(event, EntryOf(m.value), []);
    }
  }

  /** What the elements loop makes of the rest of an array, having found `events`. */
  ghost function ReportElements(s: string, i: nat, events: seq<EventSchema>): Report<seq<EventSchema>>
    requires i <= |s|
    decreases |s| - i
  {
    var e := ParseElement(s, i);
    if e.Done? && Holds(s, e.end, ',') then
      ReportElements(s, AfterBlank(s, e.end + 1), events + OneEvent(e.value.value))
    else if e.Done? && Holds(s, e.end, ']') then Report(e.end + 1, events + OneEvent(e.value.value))
    else NoReport
  }

  lemma {:induction false} ReportElementsIs(s: string, i: nat, events: seq<EventSchema>)
    requires i <= |s|
    ensures var all := ParseElements(s, i);
      ReportElements(s, i, events) ==
      if all.Done? then Report(all.end, events + ElementEvents(all.value)) else NoReport
    decreases |s| - i
  {
    hide OneEvent, ParseElement;
    var e := ParseElement(s, i);
    if e.Done? && Holds(s, e.end, ',') {
      var found, next := OneEvent(e.value.value), ParseElements(s, e.end + 1);
      ReportElementsIs(s, AfterBlank(s, e.end + 1), events + found);
      ElementsAfterBlank(s, e.end + 1);
      if next.Done? { Associative(events, found, ElementEvents(next.value)); }
    } else if e.Done? {
      assert OneEvent(e.value.value) + [] == OneEvent(e.value.value);
    }
  }

  /** Where a turn leads, for the loops that only skip. */
  lemma MembersEnd(s: string, i: nat)
    requires i <= |s|
    ensures var m, all := ParseMember(s, i), ParseMembers(s, i);
      if m.Done? && Holds(s, m.end, ',') then SameEnd(all, ParseMembers(s, AfterBlank(s, m.end + 1)))
      else if m.Done? && Holds(s, m.end, '}') then all.Done? && all.end == m.end + 1
      else all.Fail?
  {
    hide ParseMember;
    var m := ParseMember(s, i);
    if m.Done? && Holds(s, m.end, ',') { MembersAfterBlank(s, m.end + 1); }
  }

  lemma ElementsEnd(s: string, i: nat)
    requires i <= |s|
    ensures var e, all := ParseElement(s, i), ParseElements(s, i);
      if e.Done? && Holds(s, e.end, ',') then SameEnd(all, ParseElements(s, AfterBlank(s, e.end + 1)))
      else if e.Done? && Holds(s, e.end, ']') then all.Done? && all.end == e.end + 1
      else all.Fail?
  {
    hide ParseElement;
    var e := ParseElement(s, i);
    if e.Done? && Holds(s, e.end, ',') { ElementsAfterBlank(s, e.end + 1); }
  }

  lemma Associative<T>(a: seq<T>, b: seq<T>, c: seq<T>)
    ensures a + (b + c) == a + b + c
  {
  }
}
