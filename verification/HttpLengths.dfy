/**
 Which length lines the two readers of a response can be trusted with. A line that is not the same length to
 both has a response on which they part, and every other line has none.
 */
module HttpLengths {
  import opened ByteStrings
  import opened HttpNumbers
  import opened HttpFraming
  import opened HttpFramingProofs
  import opened HttpReaders

  /** A response whose first length line is `line`. */
  function Answering(lines: seq<Bytes>, line: Bytes, rest: Bytes): Bytes { Lines(lines) + [NL] + (line + [NL] + rest) }

  /** What Python finds behind the line gives no further reason to part. */
  predicate RestInStep(py: Numbers, js: Numbers, line: Bytes, rest: Bytes) {
    py(line).Some? && py(line).value >= 0 ==> FollowsInStep(py, js, py(line).value, rest)
  }

  /** Whatever stands around a length line, the readers agree. */
  ghost predicate Trusted(code: Codes, py: Numbers, js: Numbers, line: Bytes) {
    forall lines, rest :: SentHead(lines) && RestInStep(py, js, line, rest) ==>
      Agree(code, py, js, Answering(lines, line, rest))
  }

  /** What is used of the two number functions. */
  ghost predicate Usual(code: Codes, py: Numbers, js: Numbers) {
    Accepts(code) && ReadsHex(py) && ReadsHex(js) && js(ZERO_STATUS) == Some(0) && forall t :: Junk(t) ==> js(t) == None
  }

  // ---- both readers at the line ---------------------------------------------------------------------------

  lemma {:induction false} LineInside(b: Bytes, before: Bytes, line: Bytes, after: Bytes, k: nat)
    requires b == before + line + [NL] + after && NL !in line && k <= |line|
    ensures LineAt(b, |before| + k) == Found(line[k..], |before| + |line| + 1)
  {
    assert b[|before| + k..] == line[k..] + [NL] + after;
    LineFirst(line[k..], after);
    LineAtSplit(b, |before| + k);
  }

  lemma {:induction false} PythonAt(code: Codes, py: Numbers, lines: seq<Bytes>, line: Bytes, rest: Bytes)
    requires Accepts(code) && SentHead(lines)
    ensures Answered(code, py, Answering(lines, line, rest)) == Answer(HeadOf(lines), Body(py, line + [NL] + rest))
  {
    SentStarts(lines, line + [NL] + rest, Answering(lines, line, rest));
    FirstOfLines(lines);
    assert AcceptsOf(code, lines[0]);
  }

  /** What the decoder has made of the body after so many turns. */
  function Decoding(js: Numbers, lines: seq<Bytes>, b: Bytes, turns: nat): Decoded {
    Loop(Turns(js, b), At(|Lines(lines)| + 1), turns)
  }

  lemma {:induction false} DecoderIn(js: Numbers, lines: seq<Bytes>, body: Bytes, b: Bytes, turns: nat)
    requires SentHead(lines) && b == Lines(lines) + [NL] + body
    ensures DecodeResponse(js, b, turns) == Decoding(js, lines, b, turns)
  {
    assert SplitLine(b).Split? && SplitLine(b).line == lines[0] by { SentLine(lines, body, b); }
    assert SkipHead(b, |lines[0]| + 1) == |Lines(lines)| + 1 by { SentSkips(lines, body, b); }
    assert IsStatus(Text(lines[0])) by { DigitText(lines[0]); }
    DecodesFrom(js, b, lines[0], |Lines(lines)| + 1, turns);
  }

  lemma {:induction false} DecoderAt(js: Numbers, lines: seq<Bytes>, line: Bytes, rest: Bytes, turns: nat)
    requires SentHead(lines)
    ensures DecodeResponse(js, Answering(lines, line, rest), turns) ==
      Decoding(js, lines, Answering(lines, line, rest), turns)
  {
    DecoderIn(js, lines, line + [NL] + rest, Answering(lines, line, rest), turns);
  }

  /** The line is where the decoder looks first. */
  lemma {:induction false} LineFound(lines: seq<Bytes>, line: Bytes, rest: Bytes)
    requires NL !in line
    ensures LineAt(Answering(lines, line, rest), |Lines(lines)| + 1) == Found(line, |Lines(lines)| + |line| + 2)
  {
    var before := Lines(lines) + [NL];
    assert Answering(lines, line, rest) == before + line + [NL] + rest && line[0..] == line;
    LineInside(Answering(lines, line, rest), before, line, rest, 0);
  }

  /** Ended, and not as Python did. */
  lemma {:induction false} Part(code: Codes, py: Numbers, js: Numbers, b: Bytes, turns: nat)
    requires !DecodeResponse(js, b, turns).Running? && !SameAnswer(Answered(code, py, b), DecodeResponse(js, b, turns))
    ensures !Agree(code, py, js, b)
  {
    var e := DecodeResponse(js, b, turns);
    forall d | Decodes(js, b, d) ensures d == e { DecodesOnce(js, b, d, e); }
  }

  // ---- trusted lines --------------------------------------------------------------------------------------

  lemma {:induction false} SameIsTrusted(code: Codes, py: Numbers, js: Numbers, line: Bytes)
    requires Accepts(code) && NL !in line && Same(py, js, line)
    ensures Trusted(code, py, js, line)
  {
    forall lines, rest | SentHead(lines) && RestInStep(py, js, line, rest)
      ensures Agree(code, py, js, Answering(lines, line, rest))
    {
      var b := Answering(lines, line, rest);
      SentStarts(lines, line + [NL] + rest, b);
      DigitText(lines[0]);
      assert AcceptsOf(code, lines[0]);
      LineFirst(line, rest);
      ReadersAgree(code, py, js, b);
    }
  }

  // ---- a body that fits -----------------------------------------------------------------------------------

  function Zs(n: nat): (r: Bytes)
    ensures |r| == n && forall i :: 0 <= i < n ==> r[i] == 122
  {
    seq(n, _ => 122)
  }

  /** So many bytes and the end of a body, or the trailer alone. */
  function Fitting(n: nat): Bytes { if n == 0 then OK + [NL] else Zs(n) + END }

  lemma {:induction false} OkLine()
    ensures SplitLine(OK + [NL]) == Split(OK, []) && Trailer(OK + [NL]) == Whole([], [])
  {
    assert OK + [NL] == OK + [NL] + [];
    LineFirst(OK, []);
  }

  lemma {:induction false} FittingBody(py: Numbers, line: Bytes, n: nat)
    requires ReadsHex(py) && NL !in line && py(line) == Some(n)
    ensures Body(py, line + [NL] + Fitting(n)) == Whole(Zs(n), [])
  {
    var b := line + [NL] + Fitting(n);
    LineFirst(line, Fitting(n));
    if n == 0 {
      OkLine();
      BodyEnd(py, b, line, OK + [NL]);
    } else {
      EndLast(py);
      BodyPiece(py, b, line, Fitting(n), n, Zs(n), END);
      assert Zs(n) + [] == Zs(n);
    }
  }

  lemma {:induction false} FittingInStep(py: Numbers, js: Numbers, line: Bytes, n: nat)
    requires ReadsHex(py) && ReadsHex(js) && py(line) == Some(n)
    ensures RestInStep(py, js, line, Fitting(n))
  {
    OkLine();
    EndInBoth(py, js);
    if n > 0 { assert Fitting(n)[n..] == END; }
  }

  /** The turn that finds an empty piece: what the trailer says. */
  lemma {:induction false} LastTurn(js: Numbers, b: Bytes, p: nat, line: Bytes, next: nat, trailer: Bytes, after: nat)
    requires LineAt(b, p) == Found(line, next) && js(line) == Some(0) && LineAt(b, next) == Found(trailer, after)
    ensures Turns(js, b)(At(p)) == Ends(Text(trailer) == OK)
  {
    TurnAt(js, b, p, line, next, 0);
  }

  lemma {:induction false} WholeLineInside(b: Bytes, before: Bytes, line: Bytes, after: Bytes)
    requires b == before + line + [NL] + after && NL !in line
    ensures LineAt(b, |before|) == Found(line, |before| + |line| + 1)
  {
    LineInside(b, before, line, after, 0);
    assert line[0..] == line;
  }

  /** The end of a body, to the decoder. */
  lemma {:induction false} EndDecodes(js: Numbers, b: Bytes, before: Bytes)
    requires ReadsHex(js) && b == before + END
    ensures Turns(js, b)(At(|before|)) == Ends(true)
  {
    EndLines(b, before);
    assert HexText(0) == [48] && ReadsHexOf(js, 0);
    LastTurn(js, b, |before|, [48], |before| + 2, OK, |before| + 5);
  }

  lemma {:induction false} EndLines(b: Bytes, before: Bytes)
    requires b == before + END
    ensures LineAt(b, |before|) == Found([48], |before| + 2) && LineAt(b, |before| + 2) == Found(OK, |before| + 5)
  {
    assert b == before + [48] + [NL] + (OK + [NL]);
    WholeLineInside(b, before, [48], OK + [NL]);
    assert b == (before + [48, NL]) + OK + [NL] + [];
    WholeLineInside(b, before + [48, NL], OK, []);
  }

  lemma {:induction false} ThenEnds(turn: Cursor -> Turn, c: Cursor, piece: Bytes, from: Cursor, complete: bool,
      turns: nat)
    requires turn(c) == GoesOn(piece, from) && turn(from) == Ends(complete) && turns >= 2
    ensures Loop(turn, c, turns) == Decoded(piece, complete)
  {
    LoopOn(turn, c, piece, from, turns - 1);
    LoopEnds(turn, from, complete, turns - 1);
    assert piece + [] == piece;
  }

  /** Everything up to the end of a length line. */
  function UpTo(lines: seq<Bytes>, line: Bytes): Bytes { Lines(lines) + [NL] + line + [NL] }

  lemma {:induction false} AnsweringIs(lines: seq<Bytes>, line: Bytes, rest: Bytes)
    ensures Answering(lines, line, rest) == UpTo(lines, line) + rest
      && |UpTo(lines, line)| == |Lines(lines)| + |line| + 2
  {
  }

  /** A length line that is as long as what follows it: a turn that takes it all, then the end. */
  lemma {:induction false} PieceThenEnd(js: Numbers, b: Bytes, p: nat, line: Bytes, next: nat, n: nat)
    requires LineAt(b, p) == Found(line, next) && js(line) == Some(n) && n > 0 && next + n <= |b|
    requires Turns(js, b)(At(next + n)) == Ends(true)
    ensures Loop(Turns(js, b), At(p), 2) == Decoded(b[next..next + n], true)
  {
    PieceTurn(js, b, p, line, next, n);
    ThenEnds(Turns(js, b), At(p), b[next..next + n], At(next + n), true, 2);
  }

  lemma {:induction false} PieceAt(js: Numbers, b: Bytes, p: nat, line: Bytes, before: Bytes, piece: Bytes)
    requires LineAt(b, p) == Found(line, |before|) && b == before + (piece + END)
    requires ReadsHex(js) && js(line) == Some(|piece|) && piece != []
    ensures Loop(Turns(js, b), At(p), 2) == Decoded(piece, true)
  {
    PieceSlice(b, before, piece);
    EndDecodes(js, b, before + piece);
    PieceThenEnd(js, b, p, line, |before|, |piece|);
  }

  lemma {:induction false} PieceDecodes(js: Numbers, lines: seq<Bytes>, line: Bytes, piece: Bytes)
    requires SentHead(lines) && ReadsHex(js) && NL !in line && js(line) == Some(|piece|) && piece != []
    ensures Decoding(js, lines, Answering(lines, line, piece + END), 2) == Decoded(piece, true)
  {
    LineFound(lines, line, piece + END);
    AnsweringIs(lines, line, piece + END);
    PieceAt(js, Answering(lines, line, piece + END), |Lines(lines)| + 1, line, UpTo(lines, line), piece);
  }

  lemma {:induction false} PieceSlice(b: Bytes, before: Bytes, piece: Bytes)
    requires b == before + (piece + END)
    ensures b == (before + piece) + END && b[|before|..|before| + |piece|] == piece
  {
  }

  // ---- starting over --------------------------------------------------------------------------------------

  /** A head on which starting over finds a complete response, and one on which it does not. */
  const GOOD: seq<Bytes> := [ZERO_STATUS, OK]
  const BAD: seq<Bytes> := [ZERO_STATUS]

  lemma {:induction false} HeadsSent()
    ensures SentHead(GOOD) && SentHead(BAD)
    ensures Lines(GOOD) == ZERO_STATUS + [NL] + OK + [NL] && Lines(BAD) == ZERO_STATUS + [NL]
  {
    assert IsStatus(ZERO_STATUS) && NL !in ZERO_STATUS && NL !in OK;
    assert ZERO_STATUS != BOM && OK != BOM;
    LinesOne(OK);
    LinesOne(ZERO_STATUS);
    assert GOOD[1..] == [OK];
    assert ZERO_STATUS + [NL] + (OK + [NL]) == ZERO_STATUS + [NL] + OK + [NL];
  }

  lemma {:induction false} LinesOne(line: Bytes)
    ensures Lines([line]) == line + [NL]
  {
    assert [line][1..] == [] && line + [NL] + [] == line + [NL];
  }

  /** From NaN the decoder takes the status line for a length, and what is behind it for the trailer. */
  lemma {:induction false} StartsOver(js: Numbers, b: Bytes, second: Bytes, rest: Bytes)
    requires js(ZERO_STATUS) == Some(0) && b == ZERO_STATUS + [NL] + second + [NL] + rest && NL !in second
    ensures Turns(js, b)(NaN) == Ends(Text(second) == OK)
  {
    assert b == [] + ZERO_STATUS + [NL] + (second + [NL] + rest) && ZERO_STATUS[0..] == ZERO_STATUS;
    LineInside(b, [], ZERO_STATUS, second + [NL] + rest, 0);
    assert second[0..] == second;
    LineInside(b, ZERO_STATUS + [NL], second, rest, 0);
  }

  lemma {:induction false} StartsOverGood(js: Numbers, line: Bytes, rest: Bytes)
    requires js(ZERO_STATUS) == Some(0)
    ensures Turns(js, Answering(GOOD, line, rest))(NaN) == Ends(true)
  {
    HeadsSent();
    var b, tail := Answering(GOOD, line, rest), [NL] + (line + [NL] + rest);
    assert b == ZERO_STATUS + [NL] + OK + [NL] + tail;
    StartsOver(js, b, OK, tail);
  }

  lemma {:induction false} StartsOverBad(js: Numbers, line: Bytes, rest: Bytes)
    requires js(ZERO_STATUS) == Some(0)
    ensures Turns(js, Answering(BAD, line, rest))(NaN) == Ends(false)
  {
    HeadsSent();
    var b, tail := Answering(BAD, line, rest), line + [NL] + rest;
    assert b == ZERO_STATUS + [NL] + [] + [NL] + tail;
    StartsOver(js, b, [], tail);
  }

  /** A place whose line is no number. */
  ghost predicate Dud(js: Numbers, b: Bytes, q: int) { q >= 0 && LineAt(b, q).Found? && js(LineAt(b, q).line) == None }

  lemma {:induction false} DudStartsOver(js: Numbers, b: Bytes, q: nat, complete: bool, turns: nat)
    requires Dud(js, b, q) && Turns(js, b)(NaN) == Ends(complete)
    ensures Loop(Turns(js, b), At(q), turns + 2) == Decoded([], complete)
    ensures Loop(Turns(js, b), At(q), turns).Running? || Loop(Turns(js, b), At(q), turns) == Decoded([], complete)
  {
    var turn := Turns(js, b);
    assert turn(At(q)) == GoesOn([], NaN);
    ThenEnds(turn, At(q), [], NaN, complete, turns + 2);
    if turns == 1 {
      LoopOn(turn, At(q), [], NaN, 0);
    } else if turns > 1 {
      ThenEnds(turn, At(q), [], NaN, complete, turns);
    }
  }

  // ---- lines that are not the same to both ----------------------------------------------------------------

  /** A whole response to Python, and none, or a longer one, to the decoder. */
  lemma {:induction false} PartWhole(code: Codes, py: Numbers, js: Numbers, lines: seq<Bytes>, line: Bytes, n: nat,
      turns: nat)
    requires Accepts(code) && SentHead(lines) && ReadsHex(py) && NL !in line && py(line) == Some(n)
    requires var d := Decoding(js, lines, Answering(lines, line, Fitting(n)), turns);
      d.Decoded? && (d.complete ==> |d.body| > n)
    ensures !Agree(code, py, js, Answering(lines, line, Fitting(n)))
  {
    PythonAt(code, py, lines, line, Fitting(n));
    FittingBody(py, line, n);
    DecoderAt(js, lines, line, Fitting(n), turns);
    Part(code, py, js, Answering(lines, line, Fitting(n)), turns);
  }

  /** None to the decoder. */
  lemma {:induction false} PartNone(code: Codes, py: Numbers, js: Numbers, line: Bytes, n: nat)
    requires Usual(code, py, js) && NL !in line && py(line) == Some(n) && js(line) == None
    ensures !Agree(code, py, js, Answering(BAD, line, Fitting(n)))
  {
    HeadsSent();
    DudDecodes(js, BAD, line, Fitting(n), false, 2) by { StartsOverBad(js, line, Fitting(n)); }
    PartWhole(code, py, js, BAD, line, n, 2);
  }

  lemma {:induction false} DudDecodes(js: Numbers, lines: seq<Bytes>, line: Bytes, rest: Bytes, complete: bool,
      turns: nat)
    requires SentHead(lines) && NL !in line && js(line) == None && turns >= 2
    requires Turns(js, Answering(lines, line, rest))(NaN) == Ends(complete)
    ensures Decoding(js, lines, Answering(lines, line, rest), turns) == Decoded([], complete)
  {
    DudAt(js, lines, line, rest);
    DudStartsOver(js, Answering(lines, line, rest), |Lines(lines)| + 1, complete, turns - 2);
  }

  lemma {:induction false} DudAt(js: Numbers, lines: seq<Bytes>, line: Bytes, rest: Bytes)
    requires NL !in line && js(line) == None
    ensures Dud(js, Answering(lines, line, rest), |Lines(lines)| + 1)
  {
    LineFound(lines, line, rest);
  }

  lemma {:induction false} ZNotOk(t: Bytes)
    requires t != [] && t[0] == 122
    ensures Text(t) != OK
  {
    if |t| >= 3 { assert t[..3][0] == t[0]; }
  }

  /** A length line the decoder takes for too little. */
  lemma {:induction false} LessDecodes(js: Numbers, b: Bytes, p: nat, line: Bytes, before: Bytes, piece: Bytes,
      after: Bytes, m: nat, turns: nat)
    requires turns >= 3 && LineAt(b, p) == Found(line, |before|) && js(line) == Some(m)
      && b == before + piece + [NL] + after
    requires NL !in piece && m < |piece| && piece[m] == 122 && js(piece[m..]) == None
      && Turns(js, b)(NaN) == Ends(false)
    ensures var d := Loop(Turns(js, b), At(p), turns); d.Decoded? && !d.complete
  {
    var next := |before|;
    if m == 0 {
      ZNotOk(piece);
      WholeLineInside(b, before, piece, after);
      LastTurn(js, b, p, line, next, piece, next + |piece| + 1);
      LoopEnds(Turns(js, b), At(p), false, turns);
    } else {
      LineInside(b, before, piece, after, m);
      DudStartsOver(js, b, next + m, false, turns - 3);
      PieceTurn(js, b, p, line, next, m);
      LoopOn(Turns(js, b), At(p), b[next..next + m], At(next + m), turns - 1);
    }
  }

  /** Less to the decoder: what is left of the piece is its next length line, or its trailer. */
  lemma {:induction false} PartLess(code: Codes, py: Numbers, js: Numbers, line: Bytes, n: nat, m: nat)
    requires Usual(code, py, js) && NL !in line && py(line) == Some(n) && js(line) == Some(m) && m < n
    ensures !Agree(code, py, js, Answering(BAD, line, Fitting(n)))
  {
    HeadsSent();
    var b, p := Answering(BAD, line, Fitting(n)), |Lines(BAD)| + 1;
    LineFound(BAD, line, Fitting(n));
    var before, piece := UpTo(BAD, line), Zs(n) + [48];
    AnsweringIs(BAD, line, Fitting(n));
    assert b == before + piece + [NL] + (OK + [NL]);
    assert Junk(piece[m..]) && piece[m] == 122;
    StartsOverBad(js, line, Fitting(n));
    LessDecodes(js, b, p, line, before, piece, OK + [NL], m, 3);
    PartWhole(code, py, js, BAD, line, n, 3);
  }

  /** A length line the decoder takes for too much. */
  lemma {:induction false} MoreDecodes(js: Numbers, b: Bytes, p: nat, line: Bytes, next: nat, n: nat, m: nat,
      turns: nat)
    requires LineAt(b, p) == Found(line, next) && js(line) == Some(m) && next + n < |b| && n < m
    ensures var d := Loop(Turns(js, b), At(p), turns); d.Running? || (d.Decoded? && |d.body| > n)
  {
    TurnAt(js, b, p, line, next, m);
    LoopDecodes(Turns(js, b), At(p), turns);
    if turns > 0 { LoopOn(Turns(js, b), At(p), SubArray(b, next, next + m), At(next + m), turns - 1); }
  }

  /** More to the decoder: its body is longer, if it ends at all. */
  lemma {:induction false} PartMore(code: Codes, py: Numbers, js: Numbers, line: Bytes, n: nat, m: nat)
    requires Usual(code, py, js) && NL !in line && py(line) == Some(n) && js(line) == Some(m) && n < m
    ensures !Agree(code, py, js, Answering(BAD, line, Fitting(n)))
  {
    var b, next := Answering(BAD, line, Fitting(n)), |Lines(BAD)| + |line| + 2;
    if Agree(code, py, js, b) {
      var d: Decoded :| Decodes(js, b, d) && SameAnswer(Answered(code, py, b), d);
      var turns: nat :| DecodeResponse(js, b, turns) == d;
      HeadsSent();
      LineFound(BAD, line, Fitting(n));
      MoreDecodes(js, b, |Lines(BAD)| + 1, line, next, n, m, turns) by { FittingLonger(BAD, line, n); }
      DecoderAt(js, BAD, line, Fitting(n), turns);
      PartWhole(code, py, js, BAD, line, n, turns);
    }
  }

  lemma {:induction false} FittingLonger(lines: seq<Bytes>, line: Bytes, n: nat)
    ensures |Answering(lines, line, Fitting(n))| > |Lines(lines)| + |line| + 2 + n
  {
  }

  /** A number to Python, and not that one to the decoder. */
  lemma {:induction false} NumberParts(code: Codes, py: Numbers, js: Numbers, line: Bytes, n: nat)
    requires Usual(code, py, js) && NL !in line && py(line) == Some(n) && js(line) != Some(n)
    requires js(line).Some? ==> js(line).value >= 0
    ensures !Trusted(code, py, js, line)
  {
    if js(line).None? {
      PartNone(code, py, js, line, n);
    } else if js(line).value < n {
      PartLess(code, py, js, line, n, js(line).value);
    } else {
      PartMore(code, py, js, line, n, js(line).value);
    }
    HeadsSent();
    FittingInStep(py, js, line, n);
  }

  /** A negative length: Python never comes to an end. */
  lemma {:induction false} NegativeParts(code: Codes, py: Numbers, js: Numbers, line: Bytes)
    requires Accepts(code) && NL !in line && py(line).Some? && py(line).value < 0
    ensures !Trusted(code, py, js, line)
  {
    HeadsSent();
    PythonAt(code, py, GOOD, line, []);
    LineFirst(line, []);
    assert !Agree(code, py, js, Answering(GOOD, line, []));
  }

  // ---- no number to Python ---------------------------------------------------------------------------------

  /** Never found incomplete. */
  predicate Escapes(d: Decoded) { d.Running? || (d.Decoded? && d.complete) }

  lemma {:induction false} EscapesOn(piece: Bytes, d: Decoded)
    requires Escapes(d)
    ensures Escapes(Extended(piece, d))
  {
  }

  /** No length read anywhere in a line is further than this from nothing. */
  ghost predicate Within(js: Numbers, line: Bytes, far: nat) {
    forall k | 0 <= k <= |line| :: Near(js(line[k..]), far)
  }

  predicate Near(v: Option<int>, far: nat) { v.Some? ==> 0 - far <= v.value <= far }

  lemma {:induction false} SomeBound(js: Numbers, line: Bytes) returns (far: nat)
    ensures Within(js, line, far)
    decreases |line|
  {
    var v := js(line);
    var here: nat := if v.None? then 0 else if v.value < 0 then 0 - v.value else v.value;
    assert line[0..] == line;
    if line == [] {
      far := here;
    } else {
      var more := SomeBound(js, line[1..]);
      far := here + more;
      forall k | 0 <= k <= |line| ensures Near(js(line[k..]), far) {
        if k > 0 {
          assert line[1..][k - 1..] == line[k..];
          assert Near(js(line[1..][k - 1..]), more);
        }
      }
    }
  }

  ghost predicate Duds(js: Numbers, b: Bytes, from: int, to: int) { forall q :: from <= q < to ==> Dud(js, b, q) }

  /** A turn that starts over, or ends well, or goes to a place between two, or to one that starts over. */
  predicate StaysOrEscapes(turn: Cursor -> Turn, t: Turn, start: int, end: int) {
    || t == Ends(true)
    || (t.GoesOn? && (t.from.NaN? || start <= t.from.pos < end || turn(t.from) == GoesOn([], NaN)))
  }

  ghost predicate Trap(turn: Cursor -> Turn, start: int, end: int) {
    && turn(NaN) == Ends(true)
    && forall p :: start <= p < end ==> StaysOrEscapes(turn, turn(At(p)), start, end)
  }

  /** From there the decoder never ends with anything incomplete. */
  lemma {:induction false} TrapEscapes(turn: Cursor -> Turn, start: int, end: int, c: Cursor, turns: nat)
    requires Trap(turn, start, end)
    requires c.NaN? || start <= c.pos < end || turn(c) == GoesOn([], NaN)
    ensures Escapes(Loop(turn, c, turns))
    decreases turns
  {
    if turns > 0 && turn(c).GoesOn? {
      var t := turn(c);
      if c.At? && start <= c.pos < end { assert StaysOrEscapes(turn, turn(At(c.pos)), start, end); }
      TrapEscapes(turn, start, end, t.from, turns - 1);
      EscapesOn(t.piece, Loop(turn, t.from, turns - 1));
    }
  }

  /** A turn from within the line, with nothing but duds around it. */
  lemma {:induction false} TurnWithin(js: Numbers, b: Bytes, p: nat, line: Bytes, start: nat, next: nat, far: nat)
    requires LineAt(b, p) == Found(line, next) && Near(js(line), far) && SaysOk(LineAt(b, next))
    requires Duds(js, b, next - far, start) && Duds(js, b, next + 1, next + far + 1)
    ensures StaysOrEscapes(Turns(js, b), Turns(js, b)(At(p)), start, next)
  {
    var v := js(line);
    if v.Some? && v.value != 0 {
      var q := next + v.value;
      if q < start || q >= next {
        assert Dud(js, b, q);
        DudTurn(js, b, q);
      }
    }
  }

  lemma {:induction false} DudTurn(js: Numbers, b: Bytes, q: nat)
    requires Dud(js, b, q)
    ensures Turns(js, b)(At(q)) == GoesOn([], NaN)
  {
  }

  /** Places in a line of nothing but z's. */
  lemma {:induction false} DudsIn(js: Numbers, b: Bytes, before: Bytes, line: Bytes, after: Bytes)
    requires (forall t :: Junk(t) ==> js(t) == None) && b == before + line + [NL] + after
    requires forall i :: 0 <= i < |line| ==> line[i] == 122 || line[i] == 75
    ensures Duds(js, b, |before|, |before| + |line| + 1)
  {
    forall q | |before| <= q < |before| + |line| + 1 ensures Dud(js, b, q) {
      var k := q - |before|;
      LineInside(b, before, line, after, k);
      assert Junk(line[k..]);
    }
  }

  lemma {:induction false} DudsJoin(js: Numbers, b: Bytes, x: int, y: int, z: int)
    requires Duds(js, b, x, y) && Duds(js, b, y, z)
    ensures Duds(js, b, x, z)
  {
  }

  /** A head that ends in a long line of z's, and a rest that has one. */
  function Padded(far: nat): seq<Bytes> { [ZERO_STATUS, OK, Zs(far + 1)] }

  function PadRest(far: nat): Bytes { OK + [NL] + Zs(far) + [NL] }

  lemma {:induction false} LinesOn(lines: seq<Bytes>, line: Bytes)
    ensures Lines(lines + [line]) == Lines(lines) + line + [NL]
    decreases |lines|
  {
    if lines == [] {
      LinesOne(line);
      assert lines + [line] == [line] && [] + line + [NL] == line + [NL];
    } else {
      LinesOn(lines[1..], line);
      assert (lines + [line])[1..] == lines[1..] + [line];
      assert lines[0] + [NL] + (Lines(lines[1..]) + line + [NL]) == lines[0] + [NL] + Lines(lines[1..]) + line + [NL];
    }
  }

  lemma {:induction false} PaddedSent(far: nat)
    ensures SentHead(Padded(far)) && Lines(Padded(far)) == Lines(GOOD) + Zs(far + 1) + [NL] && |Lines(GOOD)| == 9
  {
    HeadsSent();
    var z := Zs(far + 1);
    assert z[0] == 122 && BOM[0] != 122 && NL !in z;
    assert Padded(far) == GOOD + [z];
    LinesOn(GOOD, z);
  }

  /** The duds before the line. */
  lemma {:induction false} DudsBefore(js: Numbers, far: nat, b: Bytes, tail: Bytes)
    requires (forall t :: Junk(t) ==> js(t) == None) && b == Lines(Padded(far)) + [NL] + tail
    ensures Duds(js, b, 9, |Lines(Padded(far))| + 1)
  {
    PaddedSent(far);
    var z := Zs(far + 1);
    assert b == Lines(GOOD) + z + [NL] + ([NL] + tail);
    DudsIn(js, b, Lines(GOOD), z, [NL] + tail);
    assert b == Lines(Padded(far)) + [] + [NL] + tail;
    DudsIn(js, b, Lines(Padded(far)), [], tail);
    DudsJoin(js, b, 9, |Lines(Padded(far))|, |Lines(Padded(far))| + 1);
  }

  /** The OK behind the line, and the duds behind that. */
  lemma {:induction false} DudsBehind(js: Numbers, far: nat, b: Bytes, before: Bytes)
    requires (forall t :: Junk(t) ==> js(t) == None) && b == before + PadRest(far)
    ensures SaysOk(LineAt(b, |before|)) && Duds(js, b, |before| + 1, |before| + far + 1)
  {
    var z := Zs(far) + [NL];
    assert b == before + OK + [NL] + z && OK[0..] == OK;
    LineInside(b, before, OK, z, 0);
    assert b == (before + [79]) + [75] + [NL] + z;
    DudsIn(js, b, before + [79], [75], z);
    assert b == (before + OK + [NL]) + Zs(far) + [NL] + [];
    DudsIn(js, b, before + OK + [NL], Zs(far), []);
    DudsJoin(js, b, |before| + 1, |before| + 3, |before| + far + 4);
  }

  lemma {:induction false} TrapAround(js: Numbers, b: Bytes, head: Bytes, line: Bytes, rest: Bytes, far: nat)
    requires NL !in line && Within(js, line, far) && b == head + line + [NL] + rest
    requires Turns(js, b)(NaN) == Ends(true) && SaysOk(LineAt(b, |head| + |line| + 1))
    requires Duds(js, b, |head| + |line| + 1 - far, |head|)
    requires Duds(js, b, |head| + |line| + 2, |head| + |line| + far + 2)
    ensures Trap(Turns(js, b), |head|, |head| + |line| + 1)
  {
    var start, next := |head|, |head| + |line| + 1;
    forall p | start <= p < next ensures StaysOrEscapes(Turns(js, b), Turns(js, b)(At(p)), start, next) {
      TrapAt(js, b, head, line, rest, far, p - start);
    }
  }

  lemma {:induction false} TrapAt(js: Numbers, b: Bytes, head: Bytes, line: Bytes, rest: Bytes, far: nat, k: nat)
    requires NL !in line && Within(js, line, far) && b == head + line + [NL] + rest && k <= |line|
    requires SaysOk(LineAt(b, |head| + |line| + 1))
    requires Duds(js, b, |head| + |line| + 1 - far, |head|)
    requires Duds(js, b, |head| + |line| + 2, |head| + |line| + far + 2)
    ensures StaysOrEscapes(Turns(js, b), Turns(js, b)(At(|head| + k)), |head|, |head| + |line| + 1)
  {
    LineInside(b, head, line, rest, k);
    assert Near(js(line[k..]), far);
    TurnWithin(js, b, |head| + k, line[k..], |head|, |head| + |line| + 1, far);
  }

  lemma {:induction false} PaddedTraps(js: Numbers, line: Bytes, far: nat, b: Bytes)
    requires (forall t :: Junk(t) ==> js(t) == None) && js(ZERO_STATUS) == Some(0) && NL !in line
      && Within(js, line, far)
    requires b == Answering(Padded(far), line, PadRest(far))
    ensures var start := |Lines(Padded(far))| + 1; Trap(Turns(js, b), start, start + |line| + 1)
  {
    var head, rest := Lines(Padded(far)) + [NL], PadRest(far);
    assert b == head + line + [NL] + rest == (head + line + [NL]) + rest;
    PaddedSent(far);
    DudsBefore(js, far, b, line + [NL] + rest);
    DudsBehind(js, far, b, head + line + [NL]);
    PaddedStartsOver(js, far, b, line + [NL] + rest);
    TrapAround(js, b, head, line, rest, far);
  }

  lemma {:induction false} PaddedStartsOver(js: Numbers, far: nat, b: Bytes, tail: Bytes)
    requires js(ZERO_STATUS) == Some(0) && b == Lines(Padded(far)) + [NL] + tail
    ensures Turns(js, b)(NaN) == Ends(true)
  {
    PaddedSent(far);
    HeadsSent();
    var more := Zs(far + 1) + [NL] + [NL] + tail;
    assert b == ZERO_STATUS + [NL] + OK + [NL] + more;
    StartsOver(js, b, OK, more);
  }

  /** No number to Python, which gives up; but the decoder comes to an OK, or to no end. */
  lemma {:induction false} NoNumberParts(code: Codes, py: Numbers, js: Numbers, line: Bytes)
    requires Usual(code, py, js) && NL !in line && py(line) == None
    ensures !Trusted(code, py, js, line)
  {
    var far := SomeBound(js, line);
    var lines, rest := Padded(far), PadRest(far);
    var b, start := Answering(lines, line, rest), |Lines(lines)| + 1;
    PaddedSent(far);
    PaddedTraps(js, line, far, b);
    PythonAt(code, py, lines, line, rest);
    LineFirst(line, rest);
    if Agree(code, py, js, b) {
      var d: Decoded :| Decodes(js, b, d) && SameAnswer(Answered(code, py, b), d);
      var turns: nat :| DecodeResponse(js, b, turns) == d;
      DecoderAt(js, lines, line, rest, turns);
      TrapEscapes(Turns(js, b), start, start + |line| + 1, At(start), turns);
    }
  }

  // ---- exactly --------------------------------------------------------------------------------------------

  /** The readers agree on every response around a length line exactly if the line is the same length to both. */
  lemma {:induction false} TrustedExactly(code: Codes, py: Numbers, js: Numbers, line: Bytes)
    requires Usual(code, py, js) && NL !in line
    requires py(line).Some? && py(line).value >= 0 && js(line).Some? ==> js(line).value >= 0
    ensures Trusted(code, py, js, line) <==> Same(py, js, line)
  {
    if Same(py, js, line) {
      SameIsTrusted(code, py, js, line);
    } else if py(line).None? {
      NoNumberParts(code, py, js, line);
    } else if py(line).value < 0 {
      NegativeParts(code, py, js, line);
    } else {
      NumberParts(code, py, js, line, py(line).value);
    }
  }

  lemma {:induction false} AreUsual(fold: Bytes -> Bytes)
    ensures Usual(Status(fold), Python(fold), ParseInt)
  {
    PythonReadsHex(fold);
    DecoderReadsHex(fold);
    StatusAccepts(fold);
    ZeroStatus();
    forall t | Junk(t) ensures ParseInt(t) == None { NotANumber(t); }
  }

  /** int(line, 16) and parseInt(line, 16): every length line of ASCII characters. */
  lemma {:induction false} LengthLinesExactly(fold: Bytes -> Bytes, line: Bytes)
    requires IsAscii(line) && NL !in line
    ensures Trusted(Status(fold), Python(fold), ParseInt, line) <==> Same(Python(fold), ParseInt, line)
  {
    AreUsual(fold);
    if PyInt(fold, line).Some? && PyInt(fold, line).value >= 0 { SameSign(fold, line); }
    TrustedExactly(Status(fold), Python(fold), ParseInt, line);
  }

  /** Plain digits can be trusted. */
  lemma {:induction false} DigitsTrusted(fold: Bytes -> Bytes, line: Bytes)
    requires line != [] && IsAscii(line) && forall i :: 0 <= i < |line| ==> DigitValue(line[i]).Some?
    ensures Trusted(Status(fold), Python(fold), ParseInt, line)
  {
    PlainAgrees(fold, line);
    StatusAccepts(fold);
    assert DigitValue(NL).None?;
    SameIsTrusted(Status(fold), Python(fold), ParseInt, line);
  }

  // ---- where they part ------------------------------------------------------------------------------------

  /** Python finds no number where the decoder finds the length of what follows. */
  lemma {:induction false} TakenParts(code: Codes, py: Numbers, js: Numbers, lines: seq<Bytes>, line: Bytes,
      piece: Bytes)
    requires Accepts(code) && SentHead(lines) && ReadsHex(js) && NL !in line && py(line) == None
      && js(line) == Some(|piece|)
      && piece != []
    ensures var b := Answering(lines, line, piece + END);
      && Decodes(js, b, Decoded(piece, true)) && Answered(code, py, b) == Answer(HeadOf(lines), Malformed)
      && !Agree(code, py, js, b)
  {
    PieceDecodes(js, lines, line, piece);
    PartComplete(code, py, js, lines, line, piece + END, 2);
  }

  /** Neither finds a number, and the decoder starts over. */
  lemma {:induction false} RestartParts(code: Codes, py: Numbers, js: Numbers, line: Bytes)
    requires Accepts(code) && js(ZERO_STATUS) == Some(0) && NL !in line && py(line) == None && js(line) == None
    ensures var b := Answering(GOOD, line, []);
      && Decodes(js, b, Decoded([], true)) && Answered(code, py, b) == Answer(HeadOf(GOOD), Malformed)
      && !Agree(code, py, js, b)
  {
    HeadsSent();
    StartsOverGood(js, line, []);
    DudDecodes(js, GOOD, line, [], true, 2);
    PartComplete(code, py, js, GOOD, line, [], 2);
  }

  lemma {:induction false} PartComplete(code: Codes, py: Numbers, js: Numbers, lines: seq<Bytes>, line: Bytes,
      rest: Bytes, turns: nat)
    requires Accepts(code) && SentHead(lines) && NL !in line && py(line) == None
    requires var d := Decoding(js, lines, Answering(lines, line, rest), turns); d.Decoded? && d.complete
    ensures var b := Answering(lines, line, rest);
      && Decodes(js, b, Decoding(js, lines, b, turns)) && Answered(code, py, b) == Answer(HeadOf(lines), Malformed)
      && !Agree(code, py, js, b)
  {
    PythonAt(code, py, lines, line, rest);
    LineFirst(line, rest);
    DecoderAt(js, lines, line, rest, turns);
    Part(code, py, js, Answering(lines, line, rest), turns);
  }

  const STATUS: Bytes := [50, 48, 48, 32, 79, 75]
  const HELLO: Bytes := [104, 101, 108, 108, 111]

  /** "200 OK", an empty line, "5;", hello, "0", "OK": whole to one, malformed to the other. */
  lemma {:induction false} SemicolonParts(fold: Bytes -> Bytes)
    ensures var b := Answering([STATUS], [53, 59], HELLO + END);
      && Decodes(ParseInt, b, Decoded(HELLO, true))
      && Answered(Status(fold), Python(fold), b) == Answer(STATUS, Malformed)
      && !Agree(Status(fold), Python(fold), ParseInt, b)
  {
    assert IsStatus(STATUS) && STATUS != BOM;
    AreUsual(fold);
    Semicolon(fold);
    TakenParts(Status(fold), Python(fold), ParseInt, [STATUS], [53, 59], HELLO);
  }

  /** "000 x", "OK", an empty line, "zz": NaN sends the decoder back to the start, where it finds an end. */
  lemma {:induction false} NaNParts(fold: Bytes -> Bytes)
    ensures var b := Answering(GOOD, [122, 122], []);
      && Decodes(ParseInt, b, Decoded([], true))
      && Answered(Status(fold), Python(fold), b) == Answer(HeadOf(GOOD), Malformed)
      && !Agree(Status(fold), Python(fold), ParseInt, b)
  {
    ZeroStatus();
    TwoZs(fold);
    StatusAccepts(fold);
    RestartParts(Status(fold), Python(fold), ParseInt, [122, 122]);
  }

  /** A byte order mark before the trailer, which the decoder drops: OK to one, an error to the other. */
  lemma {:induction false} MarkParts(code: Codes, py: Numbers, js: Numbers, lines: seq<Bytes>)
    requires Accepts(code) && SentHead(lines) && ReadsHex(py) && ReadsHex(js)
    ensures var b := Answering(lines, [48], BOM + OK + [NL]);
      && Decodes(js, b, Decoded([], true)) && Answered(code, py, b) == Answer(HeadOf(lines), Refused(BOM + OK))
      && !Agree(code, py, js, b)
  {
    var trailer, zero: Bytes := BOM + OK, [48];
    var rest := trailer + [NL];
    assert HexText(0) == zero && ReadsHexOf(py, 0) && ReadsHexOf(js, 0);
    PythonAt(code, py, lines, zero, rest);
    LineFirst(zero, rest);
    BodyEnd(py, zero + [NL] + rest, zero, rest);
    MarkedTrailer(trailer, rest);
    TrailerDecodes(js, lines, zero, trailer);
    DecoderAt(js, lines, zero, rest, 1);
    Part(code, py, js, Answering(lines, zero, rest), 1);
  }

  lemma {:induction false} TrailerDecodes(js: Numbers, lines: seq<Bytes>, line: Bytes, trailer: Bytes)
    requires NL !in line && js(line) == Some(0) && NL !in trailer
    ensures Decoding(js, lines, Answering(lines, line, trailer + [NL]), 1) == Decoded([], Text(trailer) == OK)
  {
    var b, p := Answering(lines, line, trailer + [NL]), |Lines(lines)| + 1;
    LineFound(lines, line, trailer + [NL]);
    AnsweringIs(lines, line, trailer + [NL]);
    assert b == UpTo(lines, line) + trailer + [NL] + [];
    WholeLineInside(b, UpTo(lines, line), trailer, []);
    LastTurn(js, b, p, line, |UpTo(lines, line)|, trailer, |b|);
    LoopEnds(Turns(js, b), At(p), Text(trailer) == OK, 1);
  }

  lemma {:induction false} MarkedTrailer(trailer: Bytes, rest: Bytes)
    requires trailer == BOM + OK && rest == trailer + [NL]
    ensures Trailer(rest) == Refused(trailer) && Text(trailer) == OK && NL !in trailer
  {
    assert trailer[..3] == BOM && trailer[3..] == OK;
    assert rest == trailer + [NL] + [];
    LineFirst(trailer, []);
  }
}
