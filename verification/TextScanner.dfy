/**
 The parts of the scanner of `tools/inspect_polymarket_payloads.cpp` that read characters:
 blanks, strings with their escapes, and relaxed scalars.
 */
module TextScanner {
  import opened JsonGrammar
  import opened JsonParser

  method SkipWs(input: string, pos: nat) returns (end: nat)
    requires pos <= |input|
    ensures end == AfterBlank(input, pos)
  {
    end := pos;
    while end < |input| && IsSpace(input[end])
      invariant pos <= end <= |input|
      invariant AfterBlank(input, end) == AfterBlank(input, pos)
    {
      end := end + 1;
    }
  }

  method ScanString(input: string, pos: nat) returns (ok: bool, end: nat, out: string, error: string)
    requires pos <= |input|
    ensures pos <= end <= |input|
    ensures ok <==> ParseString(input, pos).Done?
    ensures ok ==> end == ParseString(input, pos).end && out == Decode(ParseString(input, pos).value)
    ensures ok <==> error == ""
  {
    end, out := pos, "";
    if pos >= |input| || input[pos] != '"' {
      return false, end, out, "expected string";
    }
    end := end + 1;
    ghost var whole := ParsePieces(input, end);
    while end < |input|
      invariant pos < end <= |input|
      invariant var rest := ParsePieces(input, end);
        && (rest.Done? <==> whole.Done?)
        && (rest.Done? ==> rest.end == whole.end && out + Decode(rest.value) == Decode(whole.value))
    {
      ghost var here := end;
      var c := input[end];
      end := end + 1;
      if c == '"' {
        assert ParsePieces(input, here) == Done([], end);
        assert out + Decode([]) == out;
        return true, end, out, "";
      }
      if c != '\\' {
        PiecesStep(input, here, Plain(c), out);
        out := out + [c];
        continue;
      }
      if end >= |input| {
        return false, end, out, "unterminated escape";
      }
      var escaped := input[end];
      end := end + 1;
      if escaped == 'u' {
        if end + 4 > |input| {
          return false, end, out, "truncated unicode escape";
        }
        PiecesStep(input, here, Unicode(input[end..end + 4]), out);
        end := end + 4;
        out := out + ['?'];
      } else if IsSimpleEscape(escaped) {
        PiecesStep(input, here, Escape(escaped), out);
        out := out + [Unescape(escaped)];
      } else {
        return false, end, out, "invalid escape";
      }
    }
    return false, end, out, "unterminated string";
  }

  /** Reading one piece moves its meaning from the rest to the output. */
  lemma PiecesStep(s: string, i: nat, p: Piece, out: string)
    requires i + PieceWidth(p) <= |s|
    requires ParsePieces(s, i) == ConsPiece(p, ParsePieces(s, i + PieceWidth(p)))
    ensures var rest := ParsePieces(s, i + PieceWidth(p));
      rest.Done? ==> out + Decode(ParsePieces(s, i).value) == out + [PieceMeaning(p)] + Decode(rest.value)
  {
    var rest := ParsePieces(s, i + PieceWidth(p));
    if rest.Done? {
      assert ([p] + rest.value)[1..] == rest.value;
      assert out + ([PieceMeaning(p)] + Decode(rest.value)) == out + [PieceMeaning(p)] + Decode(rest.value);
    }
  }

  method SkipScalar(input: string, pos: nat) returns (ok: bool, end: nat)
    requires pos <= |input|
    ensures end == AfterScalar(input, pos) && (ok <==> end > pos)
  {
    end := pos;
    while end < |input| && !IsSpace(input[end]) && input[end] != ',' && input[end] != ']' && input[end] != '}'
      invariant pos <= end <= |input|
      invariant AfterScalar(input, end) == AfterScalar(input, pos)
    {
      end := end + 1;
    }
    ok := end > pos;
  }
}
