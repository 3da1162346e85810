/**
 The skipping part of the hand-written scanner of `tools/inspect_polymarket_payloads.cpp`:
 loops over one shared cursor, mutual recursion, no tree.  Each method is proved to succeed
 exactly when the reference parser does and to stop where it stops.  The cursor never leaves
 the input and never moves back, also on failure, and a failure always leaves a message.
 */
module PayloadScanner {
  import opened JsonGrammar
  import opened JsonParser
  import opened EventSchemas
  import opened Options
  import opened ScannerLoops
  import opened TextScanner

  method SkipValue(input: string, pos: nat) returns (ok: bool, end: nat, error: string)
    requires pos <= |input|
    ensures pos <= end <= |input|
    ensures var r := ParseValue(input, AfterBlank(input, pos)); (ok <==> r.Done?) && (ok ==> end == r.end)
    ensures ok <==> error == ""
    decreases |input| - pos, 1
  {
    end := SkipWs(input, pos);
    if end >= |input| {
      return false, end, "expected value";
    }
    if input[end] == '"' {
      var out;
      ok, end, out, error := ScanString(input, end);
      return;
    }
    if input[end] == '{' {
      ok, end, error := SkipObject(input, end);
      return;
    }
    if input[end] == '[' {
      ok, end, error := SkipArray(input, end);
      return;
    }
    ok, end := SkipScalar(input, end);
    error := if ok then "" else "invalid value";
  }

  method SkipObject(input: string, pos: nat) returns (ok: bool, end: nat, error: string)
    requires pos <= |input|
    ensures pos <= end <= |input|
    ensures var r := ParseObject(input, pos); (ok <==> r.Done?) && (ok ==> end == r.end)
    ensures ok <==> error == ""
    decreases |input| - pos, 0
  {
    end := pos;
    if pos >= |input| || input[pos] != '{' {
      return false, end, "expected object";
    }
    end := SkipWs(input, pos + 1);
    if end < |input| && input[end] == '}' {
      return true, end + 1, "";
    }
    MembersAfterBlank(input, pos + 1);
    ok, end, error := SkipMembers(input, end);
  }

  /** The loop of `SkipObject`. */
  method SkipMembers(input: string, pos: nat) returns (ok: bool, end: nat, error: string)
    requires pos <= |input| && (pos < |input| ==> !IsSpace(input[pos]))
    ensures pos <= end <= |input|
    ensures SameOutcome(ok, end, ParseMembers(input, pos))
    ensures ok <==> error == ""
    decreases |input| - pos, 3
  {
    hide ParseMember;
    end := pos;
    ghost var whole := ParseMembers(input, pos);
    while end < |input|
      invariant pos <= end <= |input|
      invariant end < |input| ==> !IsSpace(input[end])
      invariant SameEnd(ParseMembers(input, end), whole)
    {
      MembersEnd(input, end);
      ok, end, error := SkipMember(input, end);
      if !ok { return; }
      if end < |input| && input[end] == ',' {
        end := SkipWs(input, end + 1);
        continue;
      }
      if end < |input| && input[end] == '}' {
        return true, end + 1, "";
      }
      return false, end, "expected object comma or close";
    }
    return false, end, "unterminated object";
  }

  /** A member name and the blanks after it. */
  method ScanKey(input: string, pos: nat) returns (ok: bool, end: nat, key: string, error: string)
    requires pos < |input| && !IsSpace(input[pos])
    ensures pos <= end <= |input|
    ensures ok <==> input[pos] == '"' && ParseElement(input, pos).Done?
    ensures ok ==> var r := ParseElement(input, pos); end == r.end && TextOf(r.value.value) == Some(key)
    ensures ok <==> error == ""
  {
    ok, end, key, error := ScanString(input, pos);
    if ok { end := SkipWs(input, end); }
  }

  /** The part of the object loop that reads one member: name, colon, value, blanks. */
  method SkipMember(input: string, pos: nat) returns (ok: bool, end: nat, error: string)
    requires pos < |input| && !IsSpace(input[pos])
    ensures pos <= end <= |input|
    ensures var r := ParseMember(input, pos); (ok <==> r.Done?) && (ok ==> end == r.end)
    ensures ok <==> error == ""
    decreases |input| - pos, 2
  {
    var key;
    ok, end, key, error := ScanKey(input, pos);
    if !ok { return; }
    if end >= |input| || input[end] != ':' {
      return false, end, "expected object colon";
    }
    end := end + 1;
    ok, end, error := SkipValue(input, end);
    if !ok { return; }
    end := SkipWs(input, end);
  }

  method SkipArray(input: string, pos: nat) returns (ok: bool, end: nat, error: string)
    requires pos <= |input|
    ensures pos <= end <= |input|
    ensures var r := ParseArray(input, pos); (ok <==> r.Done?) && (ok ==> end == r.end)
    ensures ok <==> error == ""
    decreases |input| - pos, 0
  {
    end := pos;
    if pos >= |input| || input[pos] != '[' {
      return false, end, "expected array";
    }
    end := SkipWs(input, pos + 1);
    if end < |input| && input[end] == ']' {
      return true, end + 1, "";
    }
    ElementsAfterBlank(input, pos + 1);
    ok, end, error := SkipElements(input, end);
  }

  /** The loop of `SkipArray`. */
  method SkipElements(input: string, pos: nat) returns (ok: bool, end: nat, error: string)
    requires pos <= |input| && (pos < |input| ==> !IsSpace(input[pos]))
    ensures pos <= end <= |input|
    ensures SameOutcome(ok, end, ParseElements(input, pos))
    ensures ok <==> error == ""
    decreases |input| - pos, 3
  {
    hide ParseElement;
    end := pos;
    ghost var whole := ParseElements(input, pos);
    while end < |input|
      invariant pos <= end <= |input|
      invariant end < |input| ==> !IsSpace(input[end])
      invariant SameEnd(ParseElements(input, end), whole)
    {
      ElementsEnd(input, end);
      ok, end, error := SkipElement(input, end);
      if !ok { return; }
      if end < |input| && input[end] == ',' {
        end := SkipWs(input, end + 1);
        continue;
      }
      if end < |input| && input[end] == ']' {
        return true, end + 1, "";
      }
      return false, end, "expected array comma or close";
    }
    return false, end, "unterminated array";
  }

  /** The part of the array loop that reads one value and the blanks after it. */
  method SkipElement(input: string, pos: nat) returns (ok: bool, end: nat, error: string)
    requires pos <= |input|
    ensures pos <= end <= |input|
    ensures var r := ParseElement(input, pos); (ok <==> r.Done?) && (ok ==> end == r.end)
    ensures ok <==> error == ""
    decreases |input| - pos, 2
  {
    ok, end, error := SkipValue(input, pos);
    if !ok { return; }
    end := SkipWs(input, end);
  }
}
