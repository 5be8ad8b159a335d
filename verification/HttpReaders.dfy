/**
 The reader that takes a response as it arrives and the one that decodes it in one go: where they agree,
 and exactly when. `py` and `js` are what they make of a length line.
 */
module HttpReaders {
  import opened ByteStrings
  import opened HttpNumbers
  import opened HttpFraming
  import opened HttpFramingProofs

  // ---- in step --------------------------------------------------------------------------------------------

  /** A line that is the same length, and no less than nothing, to both. */
  predicate Same(py: Numbers, js: Numbers, line: Bytes) {
    py(line).Some? && py(line).value >= 0 && js(line) == py(line)
  }

  /** A trailer that is OK to both or to neither: one reader drops a byte order mark in front. */
  predicate OkToBoth(b: Bytes) {
    SplitLine(b).Split? ==> (Text(SplitLine(b).line) == OK <==> SplitLine(b).line == OK)
  }

  /** What follows a length line that is `n` to Python. */
  predicate FollowsInStep(py: Numbers, js: Numbers, n: nat, rest: Bytes)
    decreases |rest|, 1
  {
    if n == 0 then OkToBoth(rest) else |rest| >= n ==> InStep(py, js, rest[n..])
  }

  /** Every length line reached in a body is the same to both, and so is its trailer. */
  predicate InStep(py: Numbers, js: Numbers, b: Bytes)
    decreases |b|, 0
  {
    SplitLine(b).Split? ==>
      && Same(py, js, SplitLine(b).line)
      && FollowsInStep(py, js, py(SplitLine(b).line).value, SplitLine(b).rest)
  }

  /** No header line is a byte order mark alone, which one reader takes for the end of the head. */
  predicate PlainHead(t: Bytes)
    decreases |t|
  {
    SplitLine(t).Split? ==> SplitLine(t).line != BOM && (SplitLine(t).line != [] ==> PlainHead(SplitLine(t).rest))
  }

  /** A status line to neither reader. */
  predicate NoStatus(code: Codes, line: Bytes) { !IsStatus(Text(line)) && !code(CodeOf(line)) }

  /** One to both. */
  predicate ReadsStatus(code: Codes, line: Bytes) { IsStatus(Text(line)) && code(CodeOf(line)) }

  /** A response the readers stay in step on. */
  predicate Plain(code: Codes, py: Numbers, js: Numbers, b: Bytes) {
    SplitLine(b).Split? ==>
      || StartsWith(SplitLine(b).line, ERROR)
      || NoStatus(code, SplitLine(b).line)
      || (ReadsStatus(code, SplitLine(b).line) && PlainHead(SplitLine(b).rest)
         && (SplitHead(b).Split? ==> InStep(py, js, SplitHead(b).rest)))
  }

  /** The two readers both end, and both find a whole response with the same body, or neither does. */
  predicate SameAnswer(a: Answer, d: Decoded) {
    var whole := a.Answer? && a.body.Whole?;
    && !(a.Answer? && a.body.Endless?) && !d.Running?
    && (whole <==> d.Decoded? && d.complete) && (whole ==> d.body == a.body.body)
  }

  ghost predicate Agree(code: Codes, py: Numbers, js: Numbers, b: Bytes) {
    exists d: Decoded :: Decodes(js, b, d) && SameAnswer(Answered(code, py, b), d)
  }

  // ---- turns ----------------------------------------------------------------------------------------------

  lemma {:induction false} LoopOn(turn: Cursor -> Turn, c: Cursor, piece: Bytes, from: Cursor, turns: nat)
    requires turn(c) == GoesOn(piece, from)
    ensures Loop(turn, c, turns + 1) == Extended(piece, Loop(turn, from, turns))
  {
  }

  lemma {:induction false} LoopEnds(turn: Cursor -> Turn, c: Cursor, complete: bool, turns: nat)
    requires turn(c) == Ends(complete) && turns > 0
    ensures Loop(turn, c, turns) == Decoded([], complete)
  {
  }

  /** Once it has ended, more turns change nothing. */
  lemma {:induction false} LoopMore(turn: Cursor -> Turn, c: Cursor, a: nat, b: nat)
    requires a <= b && !Loop(turn, c, a).Running?
    ensures Loop(turn, c, b) == Loop(turn, c, a)
    decreases a
  {
    if a > 0 && turn(c).GoesOn? { LoopMore(turn, turn(c).from, a - 1, b - 1); }
  }

  lemma {:induction false} LoopDecodes(turn: Cursor -> Turn, c: Cursor, turns: nat)
    ensures !Loop(turn, c, turns).NotDecoded?
    decreases turns
  {
    if turns > 0 && turn(c).GoesOn? { LoopDecodes(turn, turn(c).from, turns - 1); }
  }

  lemma {:induction false} DecodesOnce(js: Numbers, b: Bytes, d: Decoded, e: Decoded)
    requires Decodes(js, b, d) && Decodes(js, b, e)
    ensures d == e
  {
    var m: nat :| DecodeResponse(js, b, m) == d;
    var n: nat :| DecodeResponse(js, b, n) == e;
    var l := LineAt(b, 0);
    if l.Found? && !StartsWith(Text(l.line), ERROR) && IsStatus(Text(l.line)) {
      var c := At(SkipHead(b, l.next));
      if m <= n { LoopMore(Turns(js, b), c, m, n); } else { LoopMore(Turns(js, b), c, n, m); }
    }
  }

  // ---- lines ----------------------------------------------------------------------------------------------

  lemma {:induction false} LineAtSplit(b: Bytes, pos: nat)
    requires pos <= |b|
    ensures match LineAt(b, pos)
      case NoLine => SplitLine(b[pos..]).Unfinished?
      case Found(line, next) => SplitLine(b[pos..]) == Split(line, b[next..]) && next == pos + |line| + 1
    decreases |b| - pos
  {
    if pos < |b| {
      LineAtSplit(b, pos + 1);
      assert b[pos..][0] == b[pos] && b[pos..][1..] == b[pos + 1..];
    }
  }

  lemma {:induction false} PlainText(line: Bytes)
    ensures Text(line) == [] <==> line == [] || line == BOM
  {
    if StartsWith(line, BOM) && line[3..] == [] { assert line == line[..3] + line[3..]; }
  }

  // ---- bodies ---------------------------------------------------------------------------------------------

  /** What both make of the body from a place on. */
  predicate SameBody(o: Outcome, d: Decoded) {
    d.Decoded? && !o.Endless? && (o.Whole? <==> d.complete) && (o.Whole? ==> o.body == d.body)
  }

  lemma {:induction false} TurnAt(js: Numbers, b: Bytes, pos: nat, line: Bytes, next: nat, n: nat)
    requires LineAt(b, pos) == Found(line, next) && js(line) == Some(n)
    ensures Turns(js, b)(At(pos)) == if n == 0 then Ends(SaysOk(LineAt(b, next)))
      else GoesOn(SubArray(b, next, next + n), At(next + n))
  {
  }

  lemma {:induction false} NoTurnAt(js: Numbers, b: Bytes, pos: nat)
    requires LineAt(b, pos).NoLine?
    ensures Turns(js, b)(At(pos)) == Ends(false)
  {
  }

  lemma {:induction false} SubArrayWithin(b: Bytes, begin: nat, end: nat)
    requires begin <= end <= |b|
    ensures SubArray(b, begin, end) == b[begin..end]
  {
  }

  lemma {:induction false} EndInStep(py: Numbers, js: Numbers, b: Bytes, pos: nat, line: Bytes, next: nat)
    requires pos <= |b| && LineAt(b, pos) == Found(line, next) && py(line) == Some(0) && js(line) == Some(0)
    requires SplitLine(b[pos..]) == Split(line, b[next..]) && OkToBoth(b[next..])
    ensures SameBody(Body(py, b[pos..]), Loop(Turns(js, b), At(pos), 1))
  {
    BodyEnd(py, b[pos..], line, b[next..]);
    TurnAt(js, b, pos, line, next, 0);
    LoopEnds(Turns(js, b), At(pos), SaysOk(LineAt(b, next)), 1);
    LineAtSplit(b, next);
  }

  lemma {:induction false} CutInStep(py: Numbers, js: Numbers, b: Bytes, pos: nat, line: Bytes, next: nat, n: nat)
    requires pos <= |b| && LineAt(b, pos) == Found(line, next) && py(line) == Some(n) && js(line) == Some(n) && n > 0
      && next + n > |b|
    requires SplitLine(b[pos..]) == Split(line, b[next..])
    ensures SameBody(Body(py, b[pos..]), Loop(Turns(js, b), At(pos), 2))
  {
    TurnAt(js, b, pos, line, next, n);
    NoTurnAt(js, b, next + n);
    LoopOn(Turns(js, b), At(pos), SubArray(b, next, next + n), At(next + n), 1);
    LoopEnds(Turns(js, b), At(next + n), false, 1);
  }

  /** The turn that takes a piece. */
  lemma {:induction false} PieceTurn(js: Numbers, b: Bytes, pos: nat, line: Bytes, next: nat, n: nat)
    requires LineAt(b, pos) == Found(line, next) && js(line) == Some(n) && n > 0 && next + n <= |b|
    ensures Turns(js, b)(At(pos)) == GoesOn(b[next..next + n], At(next + n))
  {
    TurnAt(js, b, pos, line, next, n);
    SubArrayWithin(b, next, next + n);
  }

  lemma {:induction false} SamePiece(o: Outcome, d: Decoded, piece: Bytes)
    requires SameBody(o, d)
    ensures SameBody(Prefixed(piece, o), Extended(piece, d))
  {
  }

  lemma {:induction false} PieceOf(py: Numbers, b: Bytes, pos: nat, line: Bytes, next: nat, n: nat)
    requires pos <= |b| && next + n <= |b| && SplitLine(b[pos..]) == Split(line, b[next..]) && py(line) == Some(n)
      && n > 0
    ensures Body(py, b[pos..]) == Prefixed(b[next..next + n], Body(py, b[next + n..]))
  {
    assert b[next..] == b[next..next + n] + b[next + n..];
    BodyPiece(py, b[pos..], line, b[next..], n, b[next..next + n], b[next + n..]);
  }

  lemma {:induction false} PieceInStep(py: Numbers, js: Numbers, b: Bytes, pos: nat, line: Bytes, next: nat, n: nat,
      turns: nat)
    requires pos <= |b| && LineAt(b, pos) == Found(line, next) && py(line) == Some(n) && js(line) == Some(n) && n > 0
      && next + n <= |b|
    requires SplitLine(b[pos..]) == Split(line, b[next..])
    requires SameBody(Body(py, b[next + n..]), Loop(Turns(js, b), At(next + n), turns))
    ensures SameBody(Body(py, b[pos..]), Loop(Turns(js, b), At(pos), turns + 1))
  {
    PieceTurn(js, b, pos, line, next, n);
    LoopOn(Turns(js, b), At(pos), b[next..next + n], At(next + n), turns);
    PieceOf(py, b, pos, line, next, n);
    SamePiece(Body(py, b[next + n..]), Loop(Turns(js, b), At(next + n), turns), b[next..next + n]);
  }

  lemma {:induction false} NoneInStep(py: Numbers, js: Numbers, b: Bytes, pos: nat)
    requires pos <= |b| && LineAt(b, pos).NoLine?
    ensures SameBody(Body(py, b[pos..]), Loop(Turns(js, b), At(pos), 1))
  {
    LineAtSplit(b, pos);
    NoTurnAt(js, b, pos);
    LoopEnds(Turns(js, b), At(pos), false, 1);
  }

  /** The length line both are at, and what follows it. */
  lemma {:induction false} LineInStep(py: Numbers, js: Numbers, b: Bytes, pos: nat, line: Bytes, next: nat)
      returns (n: nat)
    requires pos <= |b| && LineAt(b, pos) == Found(line, next) && InStep(py, js, b[pos..])
    ensures SplitLine(b[pos..]) == Split(line, b[next..]) && py(line) == Some(n) && js(line) == Some(n)
    ensures n == 0 ==> OkToBoth(b[next..])
    ensures n > 0 && next + n <= |b| ==> InStep(py, js, b[next + n..])
  {
    LineAtSplit(b, pos);
    n := py(line).value;
    if n > 0 && next + n <= |b| { assert b[next..][n..] == b[next + n..]; }
  }

  /** A body in step: the other reader's loop ends, and both make the same of it. */
  lemma {:induction false} BodiesAgree(py: Numbers, js: Numbers, b: Bytes, pos: nat) returns (turns: nat)
    requires pos <= |b| && InStep(py, js, b[pos..])
    ensures SameBody(Body(py, b[pos..]), Loop(Turns(js, b), At(pos), turns))
    decreases |b| - pos
  {
    match LineAt(b, pos)
    case NoLine =>
      NoneInStep(py, js, b, pos);
      turns := 1;
    case Found(line, next) =>
      var n := LineInStep(py, js, b, pos, line, next);
      if n == 0 {
        EndInStep(py, js, b, pos, line, next);
        turns := 1;
      } else if next + n > |b| {
        CutInStep(py, js, b, pos, line, next, n);
        turns := 2;
      } else {
        var m := BodiesAgree(py, js, b, next + n);
        PieceInStep(py, js, b, pos, line, next, n, m);
        turns := m + 1;
      }
  }

  // ---- heads ----------------------------------------------------------------------------------------------

  lemma {:induction false} SkipLine(line: Bytes, t: Bytes)
    requires NL !in line
    ensures SplitHead(line + t).Split? <==> SplitHead(t).Split?
    ensures SplitHead(t).Split? ==> SplitHead(line + t).rest == SplitHead(t).rest
    decreases |line|
  {
    if line == [] {
      assert line + t == t;
    } else {
      SkipLine(line[1..], t);
      assert (line + t)[1..] == line[1..] + t;
    }
  }

  lemma {:induction false} NoHeadEnd(t: Bytes)
    requires NL !in t
    ensures SplitHead(t).Unfinished? && SplitHead([NL] + t).Unfinished?
    decreases |t|
  {
    assert ([NL] + t)[1..] == t;
    if t != [] { NoHeadEnd(t[1..]); }
  }

  /** After a line end, the headers end where the head does. */
  lemma {:induction false} HeadersEnd(b: Bytes, pos: nat)
    requires pos <= |b| && PlainHead(b[pos..])
    ensures HeadEnds(b, SplitHead([NL] + b[pos..]), SkipHead(b, pos))
    decreases |b| - pos
  {
    LineAtSplit(b, pos);
    var l, t := LineAt(b, pos), b[pos..];
    LineMeans(t);
    if l.NoLine? {
      NoHeadEnd(t);
    } else {
      var rest := b[l.next..];
      PlainText(l.line);
      assert t == l.line + [NL] + rest;
      if l.line == [] {
        assert ([NL] + t)[2..] == rest;
      } else {
        assert ([NL] + t)[1..] == t == l.line + ([NL] + rest);
        assert t[0] == l.line[0];
        SkipLine(l.line, [NL] + rest);
        HeadersEnd(b, l.next);
      }
    }
  }

  /** A byte order mark or a digit is not the start of an error. */
  lemma {:induction false} StatusText(line: Bytes)
    requires IsStatus(Text(line)) || StartsWith(line, ERROR)
    ensures StartsWith(line, ERROR) ==> Text(line) == line
    ensures IsStatus(Text(line)) ==> !StartsWith(Text(line), ERROR) && !StartsWith(line, ERROR)
  {
    if |line| >= 3 { assert line[..3][0] == line[0]; }
    if |line| >= 6 { assert line[..6][0] == line[0]; }
    var t := Text(line);
    if |t| >= 6 { assert t[..6][0] == t[0]; }
  }

  lemma {:induction false} DigitText(line: Bytes)
    requires IsStatus(line)
    ensures Text(line) == line
  {
    assert line[..3][0] == line[0];
  }

  /** A response that starts with a status line, decoded: from where its head ends. */
  lemma {:induction false} DecodesFrom(js: Numbers, b: Bytes, line: Bytes, p: nat, turns: nat)
    requires SplitLine(b).Split? && SplitLine(b).line == line && IsStatus(Text(line)) && SkipHead(b, |line| + 1) == p
    ensures DecodeResponse(js, b, turns) == Loop(Turns(js, b), At(p), turns)
  {
    FirstLine(b);
    StatusText(line);
  }

  lemma {:induction false} FirstLine(b: Bytes)
    requires SplitLine(b).Split?
    ensures LineAt(b, 0) == Found(SplitLine(b).line, |SplitLine(b).line| + 1)
  {
    assert b[0..] == b;
    LineAtSplit(b, 0);
  }

  /** Where a head ends, for both. */
  predicate HeadEnds(b: Bytes, s: Split, p: nat) {
    if s.Split? then p <= |b| && b[p..] == s.rest else LineAt(b, p).NoLine?
  }

  lemma {:induction false} HeadFound(b: Bytes, line: Bytes, rest: Bytes)
    requires SplitLine(b) == Split(line, rest) && PlainHead(rest)
    ensures HeadEnds(b, SplitHead(b), SkipHead(b, |line| + 1))
  {
    var pos := |line| + 1;
    LineMeans(b);
    assert b == line + ([NL] + rest) && b[pos..] == rest;
    SkipLine(line, [NL] + rest);
    HeadersEnd(b, pos);
  }

  lemma {:induction false} StatusNoError(b: Bytes)
    requires SplitLine(b).Split? && IsStatus(Text(SplitLine(b).line))
    ensures !StartsWith(b, ERROR)
  {
    var line := SplitLine(b).line;
    LineMeans(b);
    StatusText(line);
    if StartsWith(b, ERROR) { ErrorInLine(b, line); }
  }

  /** No line ends within an error's first word. */
  lemma {:induction false} ErrorInLine(b: Bytes, line: Bytes)
    requires |line| < |b| && line == b[..|line|] && b[|line|] == NL && StartsWith(b, ERROR)
    ensures StartsWith(line, ERROR)
  {
    assert forall i :: 0 <= i < 6 ==> b[i] == ERROR[i] by { assert b[..6] == ERROR; }
    assert |line| >= 6 && line[..6] == b[..6];
  }

  /** The head's first line is the first line there is. */
  lemma {:induction false} FirstOfHead(b: Bytes)
    requires SplitHead(b).Split?
    ensures SplitLine(b).Split? && FirstOf(SplitHead(b).line) == SplitLine(b).line
  {
    var head, rest := SplitHead(b).line, SplitHead(b).rest;
    HeadMeans(b);
    LineMeans(head);
    if SplitLine(head).Unfinished? {
      assert head + [NL, NL] + rest == head + [NL] + ([NL] + rest);
      LineFirst(head, [NL] + rest);
    } else {
      var line, more := SplitLine(head).line, SplitLine(head).rest;
      LineBefore(line, more, rest);
      LineFirst(line, more + [NL, NL] + rest);
    }
  }

  lemma {:induction false} LineBefore(line: Bytes, more: Bytes, rest: Bytes)
    ensures line + [NL] + more + [NL, NL] + rest == line + [NL] + (more + [NL, NL] + rest)
  {
  }

  /** The answers, from what each makes of the body. */
  lemma {:induction false} BodyAnswers(code: Codes, py: Numbers, js: Numbers, b: Bytes, line: Bytes, p: nat, turns: nat)
    requires SplitLine(b).Split? && SplitLine(b).line == line && ReadsStatus(code, line) && SkipHead(b, |line| + 1) == p
    requires !StartsWith(b, ERROR) && SplitHead(b).Split?
    requires SameBody(Body(py, SplitHead(b).rest), Loop(Turns(js, b), At(p), turns))
    ensures Agree(code, py, js, b)
  {
    FirstOfHead(b);
    DecodesFrom(js, b, line, p, turns);
    AgreeOn(code, py, js, b, turns);
  }

  lemma {:induction false} HeadAnswers(code: Codes, py: Numbers, js: Numbers, b: Bytes, line: Bytes, p: nat)
    requires SplitLine(b).Split? && SplitLine(b).line == line && ReadsStatus(code, line) && SkipHead(b, |line| + 1) == p
    requires !StartsWith(b, ERROR) && SplitHead(b).Unfinished? && LineAt(b, p).NoLine?
    ensures Agree(code, py, js, b)
  {
    NoTurnAt(js, b, p);
    LoopEnds(Turns(js, b), At(p), false, 1);
    DecodesFrom(js, b, line, p, 1);
    AgreeOn(code, py, js, b, 1);
  }

  /** On a response they stay in step on, the readers agree. */
  lemma {:induction false} ReadersAgree(code: Codes, py: Numbers, js: Numbers, b: Bytes)
    requires Plain(code, py, js, b)
    ensures Agree(code, py, js, b)
  {
    if SplitLine(b).Unfinished? || StartsWith(SplitLine(b).line, ERROR) {
      NothingToDecode(code, py, js, b);
    } else if NoStatus(code, SplitLine(b).line) {
      NoStatusAgrees(code, py, js, b);
    } else {
      var line := SplitLine(b).line;
      HeadFound(b, line, SplitLine(b).rest);
      StatusNoError(b);
      var p := SkipHead(b, |line| + 1);
      if SplitHead(b).Split? {
        var turns := BodiesAgree(py, js, b, p);
        BodyAnswers(code, py, js, b, line, p, turns);
      } else {
        HeadAnswers(code, py, js, b, line, p);
      }
    }
  }

  /** Neither finds a status: one gives up, the other raises. */
  lemma {:induction false} NoStatusAgrees(code: Codes, py: Numbers, js: Numbers, b: Bytes)
    requires SplitLine(b).Split? && NoStatus(code, SplitLine(b).line)
    ensures Agree(code, py, js, b)
  {
    FirstLine(b);
    if SplitHead(b).Split? { FirstOfHead(b); }
    AgreeOn(code, py, js, b, 0);
  }

  lemma {:induction false} AgreeOn(code: Codes, py: Numbers, js: Numbers, b: Bytes, turns: nat)
    requires SameAnswer(Answered(code, py, b), DecodeResponse(js, b, turns))
    ensures Agree(code, py, js, b)
  {
    assert Decodes(js, b, DecodeResponse(js, b, turns));
  }

  lemma {:induction false} NothingToDecode(code: Codes, py: Numbers, js: Numbers, b: Bytes)
    requires SplitLine(b).Split? ==> StartsWith(SplitLine(b).line, ERROR)
    ensures Agree(code, py, js, b)
  {
    assert b[0..] == b;
    LineAtSplit(b, 0);
    LineMeans(b);
    if SplitLine(b).Unfinished? {
      NoHeadEnd(b);
    } else {
      var line := SplitLine(b).line;
      StatusText(line);
      assert b == line + ([NL] + SplitLine(b).rest) && b[..6] == line[..6];
    }
    AgreeOn(code, py, js, b, 0);
  }

  // ---- what the bridge sends ------------------------------------------------------------------------------

  lemma {:induction false} InStepOn(py: Numbers, js: Numbers, p: Bytes, q: Bytes)
    requires InStep(py, js, p + q)
    ensures InStep(py, js, p)
    decreases |p|
  {
    if SplitLine(p).Split? {
      LineOn(p, q);
      var line, rest := SplitLine(p).line, SplitLine(p).rest;
      var n: nat := py(line).value;
      if n == 0 {
        if SplitLine(rest).Split? { LineOn(rest, q); }
      } else if |rest| >= n {
        assert (rest + q)[n..] == rest[n..] + q;
        InStepOn(py, js, rest[n..], q);
      }
    }
  }

  lemma {:induction false} PlainHeadOn(p: Bytes, q: Bytes)
    requires PlainHead(p + q)
    ensures PlainHead(p)
    decreases |p|
  {
    if SplitLine(p).Split? {
      LineOn(p, q);
      if SplitLine(p).line != [] { PlainHeadOn(SplitLine(p).rest, q); }
    }
  }

  lemma {:induction false} PlainOn(code: Codes, py: Numbers, js: Numbers, p: Bytes, q: Bytes)
    requires Plain(code, py, js, p + q)
    ensures Plain(code, py, js, p)
  {
    if SplitLine(p).Split? {
      LineOn(p, q);
      if !StartsWith(SplitLine(p).line, ERROR) && !NoStatus(code, SplitLine(p).line) {
        PlainHeadOn(SplitLine(p).rest, q);
        if SplitHead(p).Split? {
          HeadOn(p, q);
          InStepOn(py, js, SplitHead(p).rest, q);
        }
      }
    }
  }

  lemma {:induction false} EndInBoth(py: Numbers, js: Numbers)
    requires ReadsHex(py) && ReadsHex(js)
    ensures InStep(py, js, END)
  {
    assert END == [48] + [NL] + (OK + [NL]) && HexText(0) == [48];
    LineFirst([48], OK + [NL]);
    assert ReadsHexOf(py, 0) && ReadsHexOf(js, 0);
    assert OK + [NL] == OK + [NL] + [];
    LineFirst(OK, []);
  }

  lemma {:induction false} PieceInBoth(py: Numbers, js: Numbers, piece: Bytes, rest: Bytes)
    requires ReadsHex(py) && ReadsHex(js) && InStep(py, js, rest)
    ensures InStep(py, js, Framed(piece) + rest)
  {
    if piece == [] {
      assert Framed(piece) + rest == rest;
    } else {
      var n := |piece|;
      assert ReadsHexOf(py, n) && ReadsHexOf(js, n);
      LineFirst(HexText(n), piece + rest);
      assert Framed(piece) + rest == HexText(n) + [NL] + (piece + rest);
      assert (piece + rest)[n..] == rest;
    }
  }

  lemma {:induction false} FramedInBoth(py: Numbers, js: Numbers, pieces: seq<Bytes>, rest: Bytes)
    requires ReadsHex(py) && ReadsHex(js) && InStep(py, js, rest)
    ensures InStep(py, js, FramedAll(pieces) + rest)
    decreases |pieces|
  {
    if pieces == [] {
      assert [] + rest == rest;
    } else {
      FramedInBoth(py, js, pieces[1..], rest);
      PieceInBoth(py, js, pieces[0], FramedAll(pieces[1..]) + rest);
      assert Framed(pieces[0]) + FramedAll(pieces[1..]) + rest == Framed(pieces[0]) + (FramedAll(pieces[1..]) + rest);
    }
  }

  lemma {:induction false} LinesPlain(lines: seq<Bytes>, rest: Bytes)
    requires forall i :: 0 <= i < |lines| ==> lines[i] != BOM && NL !in lines[i]
    ensures PlainHead(Lines(lines) + ([NL] + rest))
    decreases |lines|
  {
    var t := Lines(lines) + ([NL] + rest);
    if lines == [] {
      assert t == [] + [NL] + rest;
      LineFirst([], rest);
    } else {
      LinesPlain(lines[1..], rest);
      assert t == lines[0] + [NL] + (Lines(lines[1..]) + ([NL] + rest));
      LineFirst(lines[0], Lines(lines[1..]) + ([NL] + rest));
    }
  }

  lemma {:induction false} SentLine(lines: seq<Bytes>, body: Bytes, b: Bytes)
    requires StatusHead(lines) && b == Lines(lines) + [NL] + body
    ensures SplitLine(b).Split? && SplitLine(b).line == lines[0] && PlainHead(SplitLine(b).rest)
  {
    var tail := Lines(lines[1..]) + ([NL] + body);
    assert b == lines[0] + [NL] + tail;
    LineFirst(lines[0], tail);
    LinesPlain(lines[1..], body);
  }

  lemma {:induction false} SentSplits(lines: seq<Bytes>, body: Bytes, b: Bytes)
    requires StatusHead(lines) && b == Lines(lines) + [NL] + body
    ensures SplitHead(b) == Split(HeadOf(lines), body)
  {
    LinesOfHead(lines);
    assert b == HeadOf(lines) + [NL, NL] + body;
    HeadBack(lines, body);
  }

  lemma {:induction false} SentSkips(lines: seq<Bytes>, body: Bytes, b: Bytes)
    requires StatusHead(lines) && b == Lines(lines) + [NL] + body
    ensures SkipHead(b, |lines[0]| + 1) == |Lines(lines)| + 1
  {
    SentLine(lines, body, b);
    SentSplits(lines, body, b);
    HeadFound(b, lines[0], SplitLine(b).rest);
    assert |b[SkipHead(b, |lines[0]| + 1)..]| == |body|;
  }

  /** A head as the bridge sends it, and any body: where it is, for both. */
  lemma {:induction false} SentStarts(lines: seq<Bytes>, body: Bytes, b: Bytes)
    requires StatusHead(lines) && b == Lines(lines) + [NL] + body
    ensures SplitLine(b).Split? && SplitLine(b).line == lines[0] && PlainHead(SplitLine(b).rest)
    ensures SplitHead(b) == Split(HeadOf(lines), body) && !StartsWith(b, ERROR) && !StartsWith(lines[0], ERROR)
  {
    SentLine(lines, body, b);
    SentSplits(lines, body, b);
    DigitText(lines[0]);
    StatusText(lines[0]);
    StatusNoError(b);
  }

  lemma {:induction false} StreamPlain(code: Codes, py: Numbers, js: Numbers, lines: seq<Bytes>, pieces: seq<Bytes>)
    requires ReadsHex(py) && ReadsHex(js) && StatusHead(lines) && code(CodeOf(lines[0]))
    ensures Plain(code, py, js, Stream(lines, pieces))
  {
    SentStarts(lines, BodyBytes(pieces), Stream(lines, pieces));
    DigitText(lines[0]);
    EndInBoth(py, js);
    FramedInBoth(py, js, pieces, END);
  }

  /** decodeResponse gives the pieces joined, and calls them complete. */
  lemma {:induction false} StreamDecodes(code: Codes, py: Numbers, js: Numbers, lines: seq<Bytes>, pieces: seq<Bytes>)
    requires ReadsHex(py) && ReadsHex(js) && StatusHead(lines) && code(CodeOf(lines[0]))
    ensures Decodes(js, Stream(lines, pieces), Decoded(Joined(pieces), true))
  {
    StreamPlain(code, py, js, lines, pieces);
    ReadersAgree(code, py, js, Stream(lines, pieces));
    StreamBack(code, py, lines, pieces);
  }

  /** On no strict prefix of a response does it find a complete one, and on each it ends. */
  lemma {:induction false} NoPrefixDecodes(code: Codes, py: Numbers, js: Numbers, lines: seq<Bytes>,
      pieces: seq<Bytes>, n: nat, d: Decoded)
    requires ReadsHex(py) && ReadsHex(js) && StatusHead(lines) && code(CodeOf(lines[0])) && n < |Stream(lines, pieces)|
    ensures exists e: Decoded :: Decodes(js, Stream(lines, pieces)[..n], e)
    ensures Decodes(js, Stream(lines, pieces)[..n], d) ==> !(d.Decoded? && d.complete)
  {
    var b := Stream(lines, pieces);
    StreamPlain(code, py, js, lines, pieces);
    assert b[..n] + b[n..] == b;
    PlainOn(code, py, js, b[..n], b[n..]);
    ReadersAgree(code, py, js, b[..n]);
    NoPrefixIsWhole(code, py, lines, pieces, n);
    var e: Decoded :| Decodes(js, b[..n], e) && SameAnswer(Answered(code, py, b[..n]), e);
    if Decodes(js, b[..n], d) { DecodesOnce(js, b[..n], d, e); }
  }

  /** decodeResponse as it is, on a response as it is sent: the pieces joined, and complete. */
  lemma {:induction false} ResponseDecodes(lines: seq<Bytes>, pieces: seq<Bytes>, d: Decoded)
    requires StatusHead(lines)
    ensures Decodes(ParseInt, Stream(lines, pieces), d) <==> d == Decoded(Joined(pieces), true)
  {
    var fold := (t: Bytes) => t;
    PythonReadsHex(fold);
    DecoderReadsHex(fold);
    StreamDecodes(_ => true, Python(fold), ParseInt, lines, pieces);
    if Decodes(ParseInt, Stream(lines, pieces), d) {
      DecodesOnce(ParseInt, Stream(lines, pieces), d, Decoded(Joined(pieces), true));
    }
  }

  /** And on one that is cut anywhere: it ends, and finds nothing complete. */
  lemma {:induction false} CutResponseDecodes(lines: seq<Bytes>, pieces: seq<Bytes>, n: nat, d: Decoded)
    requires StatusHead(lines) && n < |Stream(lines, pieces)|
    ensures exists e: Decoded :: Decodes(ParseInt, Stream(lines, pieces)[..n], e)
    ensures Decodes(ParseInt, Stream(lines, pieces)[..n], d) ==> !(d.Decoded? && d.complete)
  {
    var fold := (t: Bytes) => t;
    PythonReadsHex(fold);
    DecoderReadsHex(fold);
    NoPrefixDecodes(_ => true, Python(fold), ParseInt, lines, pieces, n, d);
  }
}
