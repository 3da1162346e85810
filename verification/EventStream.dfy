/**
 How a client reads a server-sent event stream (sections 9.2.5 and 9.2.6 of the WHATWG HTML
 Living Standard), and the frames that `dashboard_sse_payload` writes.  Whatever snapshots
 are published, the client sees exactly one `dashboard` event per frame.
 */
module EventStream {
  import opened JsonPrinter
  import opened Dashboard

  // ---- The standard's reader ----

  datatype Event = Event(kind: string, data: string, id: string)

  /** The data, event type and last event ID buffers. */
  datatype Buffers = Buffers(data: string, kind: string, id: string)

  predicate EndsLine(c: char) { c == '\n' || c == '\r' }

  /** Length of the first line, or of the whole text if no line ends. */
  function LineLength(s: string): (n: nat)
    ensures n <= |s| && (n < |s| ==> EndsLine(s[n]))
  {
    if s == "" || EndsLine(s[0]) then 0 else 1 + LineLength(s[1..])
  }

  /** Position of the first colon, or the length of the line if there is none. */
  function ColonPosition(line: string): (n: nat)
    ensures n <= |line|
  {
    if line == "" || line[0] == ':' then 0 else 1 + ColonPosition(line[1..])
  }

  function ProcessField(b: Buffers, field: string, value: string): Buffers {
    if field == "event" then b.(kind := value)
    else if field == "data" then b.(data := b.data + value + "\n")
    else if field == "id" then (if '\0' in value then b else b.(id := value))
    else b
  }

  function Dispatch(b: Buffers): (r: (Buffers, seq<Event>)) {
    var cleared := Buffers("", "", b.id);
    if b.data == "" then (cleared, [])
    else
      var last := |b.data| - 1;
      var data := if b.data[last] == '\n' then b.data[..last] else b.data;
      (cleared, [Event(if b.kind == "" then "message" else b.kind, data, b.id)])
  }

  function ProcessLine(b: Buffers, line: string): (r: (Buffers, seq<Event>)) {
    if line == "" then Dispatch(b)
    else if line[0] == ':' then (b, [])
    else
      var colon := ColonPosition(line);
      if colon == |line| then (ProcessField(b, line, ""), [])
      else
        var value := line[colon + 1..];
        var value := if value != "" && value[0] == ' ' then value[1..] else value;
        (ProcessField(b, line[..colon], value), [])
  }

  /** Lines end with LF, CR or CR LF; what follows the last line end is discarded. */
  function Interpret(s: string, b: Buffers): seq<Event>
    decreases |s|
  {
    var n := LineLength(s);
    if n == |s| then []
    else
      var next := if s[n] == '\r' && n + 1 < |s| && s[n + 1] == '\n' then n + 2 else n + 1;
      var (b', events) := ProcessLine(b, s[..n]);
      events + Interpret(s[next..], b')
  }

  const NO_BUFFERS := Buffers("", "", "")

  /** A leading byte order mark is ignored. */
  function ReadStream(s: string): seq<Event> {
    Interpret(if s != "" && s[0] == '\U{FEFF}' then s[1..] else s, NO_BUFFERS)
  }

  // ---- What the publisher writes ----

  datatype Frame = Frame(id: string, json: string)

  function FrameText(f: Frame): string {
    "id: " + f.id + "\nevent: dashboard\n" + "data: " + f.json + "\n\n"
  }

  function StreamText(fs: seq<Frame>): string {
    if fs == [] then "" else FrameText(fs[0]) + StreamText(fs[1..])
  }

  function FrameOf(s: ShownSnapshot): Frame { Frame(LiteralText(Whole(s.seqNo)), SnapshotJson(s)) }

  // ---- What the client should see ----

  function EventFor(f: Frame): Event { Event("dashboard", f.json, f.id) }

  function EventsFor(fs: seq<Frame>): (es: seq<Event>)
    ensures |es| == |fs| && forall k | 0 <= k < |fs| :: es[k] == EventFor(fs[k])
  {
    if fs == [] then [] else [EventFor(fs[0])] + EventsFor(fs[1..])
  }

  // ---- One line at a time ----

  lemma {:induction false} LineLengthIs(line: string, rest: string)
    requires OneLine(line)
    ensures LineLength(line + ("\n" + rest)) == |line|
  {
    var s := line + ("\n" + rest);
    if line != "" {
      assert s[1..] == line[1..] + ("\n" + rest);
      LineLengthIs(line[1..], rest);
    }
  }

  lemma InterpretLine(line: string, rest: string, b: Buffers)
    requires OneLine(line)
    ensures var r := ProcessLine(b, line);
      Interpret(line + ("\n" + rest), b) == r.1 + Interpret(rest, r.0)
  {
    var s := line + ("\n" + rest);
    LineLengthIs(line, rest);
    assert s[..|line|] == line && s[|line| + 1..] == rest && s[|line|] == '\n';
  }

  lemma {:induction false} ColonPositionIs(field: string, value: string)
    requires forall k | 0 <= k < |field| :: field[k] != ':'
    ensures ColonPosition(field + (": " + value)) == |field|
  {
    if field != "" {
      assert (field + (": " + value))[1..] == field[1..] + (": " + value);
      ColonPositionIs(field[1..], value);
    }
  }

  lemma FieldLine(b: Buffers, field: string, value: string)
    requires field != "" && forall k | 0 <= k < |field| :: field[k] != ':'
    ensures ProcessLine(b, field + (": " + value)) == (ProcessField(b, field, value), [])
  {
    var line := field + (": " + value);
    ColonPositionIs(field, value);
    assert line[..|field|] == field && line[|field| + 1..] == " " + value && (" " + value)[1..] == value;
  }

  lemma InterpretField(field: string, value: string, rest: string, b: Buffers)
    requires field != "" && (forall k | 0 <= k < |field| :: field[k] != ':') && OneLine(field) && OneLine(value)
    ensures Interpret(field + (": " + value) + ("\n" + rest), b) == Interpret(rest, ProcessField(b, field, value))
  {
    FieldLine(b, field, value);
    InterpretLine(field + (": " + value), rest, b);
  }

  // ---- One frame at a time ----

  /** An id without a NUL and a document, both on one line. */
  predicate WfFrame(f: Frame) { OneLine(f.id) && '\0' !in f.id && OneLine(f.json) }

  /** The frame cut into its lines. */
  lemma FrameLines(f: Frame, rest: string)
    ensures FrameText(f) + rest ==
            "id" + (": " + f.id) + ("\n" + (
            "event" + (": " + "dashboard") + ("\n" + (
            "data" + (": " + f.json) + ("\n" + (
            "" + ("\n" + rest)))))))
  {
    var tail := "\n" + ("" + ("\n" + rest));
    assert "\n\n" + rest == tail;
    assert "data: " + f.json + tail == "data" + (": " + f.json) + tail;
    var middle := "\n" + ("event" + (": " + "dashboard") + ("\n" + ("data" + (": " + f.json) + tail)));
    assert "\nevent: dashboard\n" + ("data: " + f.json + tail) == middle;
    assert "id: " + f.id + middle == "id" + (": " + f.id) + middle;
    assert FrameText(f) + rest
        == "id: " + f.id + ("\nevent: dashboard\n" + ("data: " + f.json + ("\n\n" + rest)));
  }

  lemma InterpretData(json: string, rest: string, id: string)
    requires OneLine(json)
    ensures Interpret("data" + (": " + json) + ("\n" + ("" + ("\n" + rest))), Buffers("", "dashboard", id)) ==
            [Event("dashboard", json, id)] + Interpret(rest, Buffers("", "", id))
  {
    var b := Buffers("", "dashboard", id);
    var filled := b.(data := "" + json + "\n");
    InterpretField("data", json, "" + ("\n" + rest), b);
    InterpretLine("", rest, filled);
    assert filled.data[..|filled.data| - 1] == json;
  }

  lemma InterpretHeaders(number: string, data: string, id: string)
    requires OneLine(number) && '\0' !in number
    ensures Interpret(
              "id" + (": " + number) + ("\n" + ("event" + (": " + "dashboard") + ("\n" + data))), Buffers("", "", id)) ==
            Interpret(data, Buffers("", "dashboard", number))
  {
    InterpretId(number, "event" + (": " + "dashboard") + ("\n" + data), id);
    InterpretEvent(data, number);
  }

  lemma InterpretId(number: string, rest: string, id: string)
    requires OneLine(number) && '\0' !in number
    ensures Interpret("id" + (": " + number) + ("\n" + rest), Buffers("", "", id)) ==
            Interpret(rest, Buffers("", "", number))
  {
    InterpretField("id", number, rest, Buffers("", "", id));
  }

  lemma InterpretEvent(rest: string, id: string)
    ensures Interpret("event" + (": " + "dashboard") + ("\n" + rest), Buffers("", "", id)) ==
            Interpret(rest, Buffers("", "dashboard", id))
  {
    InterpretField("event", "dashboard", rest, Buffers("", "", id));
  }

  lemma InterpretFrame(f: Frame, rest: string, id: string)
    requires WfFrame(f)
    ensures Interpret(FrameText(f) + rest, Buffers("", "", id)) ==
            [EventFor(f)] + Interpret(rest, Buffers("", "", f.id))
  {
    var data := "data" + (": " + f.json) + ("\n" + ("" + ("\n" + rest)));
    calc {
      Interpret(FrameText(f) + rest, Buffers("", "", id));
      { FrameLines(f, rest); }
      Interpret("id" + (": " + f.id) + ("\n" + ("event" + (": " + "dashboard") + ("\n" + data))), Buffers("", "", id));
      { InterpretHeaders(f.id, data, id); }
      Interpret(data, Buffers("", "dashboard", f.id));
      { InterpretData(f.json, rest, f.id); }
      [EventFor(f)] + Interpret(rest, Buffers("", "", f.id));
    }
  }

  /** Any sequence of frames reads back as one event per frame, with its id and its document intact. */
  lemma {:induction false} FramesReadBack(fs: seq<Frame>, id: string)
    requires forall k | 0 <= k < |fs| :: WfFrame(fs[k])
    ensures Interpret(StreamText(fs), Buffers("", "", id)) == EventsFor(fs)
    decreases |fs|
  {
    if fs != [] {
      InterpretFrame(fs[0], StreamText(fs[1..]), id);
      FramesReadBack(fs[1..], fs[0].id);
    }
  }

  /** The bytes of a payload. */
  lemma FrameTextIs(s: ShownSnapshot)
    ensures FrameText(FrameOf(s)) ==
      "id: " + LiteralText(Whole(s.seqNo)) + "\nevent: dashboard\ndata: " + SnapshotJson(s) + "\n\n"
  {
    hide SnapshotJson, LiteralText;
    var id, json := LiteralText(Whole(s.seqNo)), SnapshotJson(s);
    assert "\nevent: dashboard\n" + "data: " == "\nevent: dashboard\ndata: ";
    assert "id: " + id + "\nevent: dashboard\n" + "data: " + json + "\n\n" ==
           "id: " + id + ("\nevent: dashboard\n" + "data: ") + json + "\n\n";
  }

  lemma NumberIsPlain(n: int)
    ensures OneLine(LiteralText(Whole(n))) && '\0' !in LiteralText(Whole(n))
  {
    var number := DecimalNumber(n);
    assert LiteralText(Whole(n)) == number.minus + number.digits;
  }

  lemma SnapshotFrameIsWf(s: ShownSnapshot)
    ensures WfFrame(FrameOf(s))
  {
    NumberIsPlain(s.seqNo);
    SnapshotIsOneLine(s);
  }

  /** A client reading the concatenated payloads of any snapshots sees one `dashboard` event for each, in order. */
  lemma StreamReadsBack(ss: seq<ShownSnapshot>, fs: seq<Frame>)
    requires |fs| == |ss| && forall k | 0 <= k < |ss| :: fs[k] == FrameOf(ss[k])
    ensures var events := ReadStream(StreamText(fs));
      && |events| == |ss|
      && forall k | 0 <= k < |ss| ::
           events[k] == Event("dashboard", SnapshotJson(ss[k]), LiteralText(Whole(ss[k].seqNo)))
  {
    forall k | 0 <= k < |fs| ensures WfFrame(fs[k]) {
      SnapshotFrameIsWf(ss[k]);
    }
    StreamOfFrames(fs);
    assert ReadStream(StreamText(fs)) == EventsFor(fs);
  }

  lemma StreamOfFrames(fs: seq<Frame>)
    requires forall k | 0 <= k < |fs| :: WfFrame(fs[k])
    ensures ReadStream(StreamText(fs)) == EventsFor(fs)
  {
    FramesReadBack(fs, "");
    StreamHasNoMark(fs);
  }

  lemma StreamHasNoMark(fs: seq<Frame>)
    ensures StreamText(fs) == "" || StreamText(fs)[0] == 'i'
  {
  }
}
