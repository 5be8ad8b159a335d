/**
 Which status lines the two readers of a response can be trusted with: those that decodeResponse's pattern and
 the client's int(code) both take, and those that neither does.
 */
module HttpStatus {
  import opened ByteStrings
  import opened HttpNumbers
  import opened HttpFraming
  import opened HttpFramingProofs
  import opened HttpReaders
  import opened HttpLengths

  /** Header lines that both readers take for such. */
  predicate Headers(more: seq<Bytes>) {
    forall i :: 0 <= i < |more| ==> more[i] != [] && NL !in more[i] && more[i] != BOM
  }

  /** A response with that status line. */
  function Under(line: Bytes, more: seq<Bytes>, body: Bytes): Bytes { Lines([line] + more) + [NL] + body }

  /** Whatever headers and body in step stand below a status line, the readers agree. */
  ghost predicate StatusTrusted(code: Codes, py: Numbers, js: Numbers, line: Bytes) {
    forall more, body :: Headers(more) && InStep(py, js, body) ==> Agree(code, py, js, Under(line, more, body))
  }

  lemma {:induction false} UnderIs(line: Bytes, more: seq<Bytes>, body: Bytes)
    requires NL !in line && Headers(more)
    ensures SplitLine(Under(line, more, body)).Split? && SplitLine(Under(line, more, body)).line == line
    ensures PlainHead(SplitLine(Under(line, more, body)).rest)
  {
    var tail := Lines(more) + ([NL] + body);
    assert ([line] + more)[1..] == more;
    assert Under(line, more, body) == line + [NL] + tail;
    LineFirst(line, tail);
    LinesPlain(more, body);
  }

  lemma {:induction false} UnderSplits(line: Bytes, more: seq<Bytes>, body: Bytes)
    requires NL !in line && line != [] && Headers(more)
    ensures SplitHead(Under(line, more, body)) == Split(HeadOf([line] + more), body)
    ensures FirstOf(HeadOf([line] + more)) == line
  {
    var lines := [line] + more;
    assert HeadLines(lines) by {
      forall i | 0 <= i < |lines| ensures lines[i] != [] && NL !in lines[i] {
        if i > 0 { assert lines[i] == more[i - 1]; }
      }
    }
    LinesOfHead(lines);
    assert Under(line, more, body) == HeadOf(lines) + [NL, NL] + body;
    HeadBack(lines, body);
    FirstOfLines(lines);
  }

  lemma {:induction false} BothOrNeither(code: Codes, py: Numbers, js: Numbers, line: Bytes)
    requires NL !in line && (IsStatus(Text(line)) <==> code(CodeOf(line)))
    ensures StatusTrusted(code, py, js, line)
  {
    forall more, body | Headers(more) && InStep(py, js, body) ensures Agree(code, py, js, Under(line, more, body)) {
      var b := Under(line, more, body);
      UnderIs(line, more, body);
      if IsStatus(Text(line)) { UnderSplits(line, more, body); }
      ReadersAgree(code, py, js, b);
    }
  }

  /** A response with nothing but a status line, and an empty body. */
  function Bare(line: Bytes): Bytes { Under(line, [], END) }

  lemma {:induction false} BareAnswered(code: Codes, py: Numbers, line: Bytes)
    requires NL !in line && line != [] && !StartsWith(line, ERROR) && ReadsHex(py)
    ensures Answered(code, py, Bare(line)) == if code(CodeOf(line)) then Answer(line, Whole([], [])) else BadStatus
  {
    var b := Bare(line);
    UnderIs(line, [], END);
    UnderSplits(line, [], END);
    LineMeans(b);
    if StartsWith(b, ERROR) { ErrorInLine(b, line); }
    assert [line] + [] == [line];
    EndLast(py);
  }

  /** The decoder takes it if it takes the status line. */
  lemma {:induction false} BareDecodes(py: Numbers, js: Numbers, line: Bytes)
    requires NL !in line && line != [] && IsStatus(Text(line)) && ReadsHex(py) && ReadsHex(js)
    ensures Decodes(js, Bare(line), Decoded([], true))
  {
    var all: Codes := _ => true;
    EndInBoth(py, js);
    BothOrNeither(all, py, js, line);
    assert Agree(all, py, js, Under(line, [], END));
    StatusText(line);
    BareAnswered(all, py, line);
  }

  lemma {:induction false} NotTaken(js: Numbers, line: Bytes)
    requires NL !in line && !IsStatus(Text(line))
    ensures DecodeResponse(js, Bare(line), 0) == NotDecoded
  {
    UnderIs(line, [], END);
    FirstLine(Bare(line));
  }

  /** One that one reader takes and the other does not. */
  lemma {:induction false} OneTakes(code: Codes, py: Numbers, js: Numbers, line: Bytes)
    requires NL !in line && line != [] && !StartsWith(line, ERROR) && ReadsHex(py) && ReadsHex(js)
    requires IsStatus(Text(line)) <==> !code(CodeOf(line))
    ensures !Agree(code, py, js, Bare(line))
  {
    BareAnswered(code, py, line);
    if IsStatus(Text(line)) {
      BareDecodes(py, js, line);
      var turns: nat :| DecodeResponse(js, Bare(line), turns) == Decoded([], true);
      Part(code, py, js, Bare(line), turns);
    } else {
      NotTaken(js, line);
      Part(code, py, js, Bare(line), 0);
    }
  }

  /** The readers agree on every response under a status line exactly if both take the line or neither does. */
  lemma {:induction false} StatusExactly(code: Codes, py: Numbers, js: Numbers, line: Bytes)
    requires NL !in line && line != [] && !StartsWith(line, ERROR) && ReadsHex(py) && ReadsHex(js)
    ensures StatusTrusted(code, py, js, line) <==> (IsStatus(Text(line)) <==> code(CodeOf(line)))
  {
    if IsStatus(Text(line)) <==> code(CodeOf(line)) {
      BothOrNeither(code, py, js, line);
    } else {
      OneTakes(code, py, js, line);
      EndInBoth(py, js);
      assert Headers([]) && Bare(line) == Under(line, [], END);
    }
  }

  /** decodeResponse and the client: every status line, the empty one too. */
  lemma {:induction false} StatusLinesExactly(fold: Bytes -> Bytes, line: Bytes)
    requires NL !in line && !StartsWith(line, ERROR)
    ensures StatusTrusted(Status(fold), Python(fold), ParseInt, line) <==>
      (IsStatus(Text(line)) <==> IsInteger(fold, CodeOf(line)))
  {
    PythonReadsHex(fold);
    DecoderReadsHex(fold);
    if line == [] {
      BothOrNeither(Status(fold), Python(fold), ParseInt, line);
    } else {
      StatusExactly(Status(fold), Python(fold), ParseInt, line);
    }
  }

  // ---- where they part ------------------------------------------------------------------------------------

  /** "200OK" */
  const GLUED: Bytes := [50, 48, 48, 79, 75]

  lemma {:induction false} GluedCode(fold: Bytes -> Bytes)
    ensures IsStatus(GLUED) && CodeOf(GLUED) == GLUED && !IsInteger(fold, GLUED)
  {
    var t := GLUED;
    assert CodeOf(t[5..]) == [];
    assert t[4..] == [75] && CodeOf(t[4..]) == [75];
    assert t[3..][1..] == t[4..] && CodeOf(t[3..]) == [79, 75];
    assert t[2..][1..] == t[3..] && CodeOf(t[2..]) == [48, 79, 75];
    assert t[1..][1..] == t[2..] && CodeOf(t[1..]) == [48, 48, 79, 75];
    assert SkipFront(t) == t && SkipBack(t) == t;
  }

  /** "200OK", an empty line, "0", "OK": complete to decodeResponse, an error to the client. */
  lemma {:induction false} GluedStatusParts(fold: Bytes -> Bytes)
    ensures Decodes(ParseInt, Bare(GLUED), Decoded([], true))
    ensures Answered(Status(fold), Python(fold), Bare(GLUED)) == BadStatus
    ensures !Agree(Status(fold), Python(fold), ParseInt, Bare(GLUED))
  {
    PythonReadsHex(fold);
    DecoderReadsHex(fold);
    GluedCode(fold);
    DigitText(GLUED);
    StatusText(GLUED);
    BareDecodes(Python(fold), ParseInt, GLUED);
    BareAnswered(Status(fold), Python(fold), GLUED);
    OneTakes(Status(fold), Python(fold), ParseInt, GLUED);
  }
}
