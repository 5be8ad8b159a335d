/** What is sent is what is read as it arrives, and no part of it is taken for the whole. */
module HttpFramingProofs {
  import opened ByteStrings
  import opened HttpNumbers
  import opened HttpFraming

  // ---- more bytes change nothing that was read ------------------------------------------------------------

  lemma {:induction false} LineOn(p: Bytes, q: Bytes)
    requires SplitLine(p).Split?
    ensures SplitLine(p + q) == Split(SplitLine(p).line, SplitLine(p).rest + q)
    decreases |p|
  {
    assert (p + q)[1..] == p[1..] + q;
    if p[0] != NL { LineOn(p[1..], q); }
  }

  lemma {:induction false} HeadOn(p: Bytes, q: Bytes)
    requires SplitHead(p).Split?
    ensures SplitHead(p + q) == Split(SplitHead(p).line, SplitHead(p).rest + q)
    decreases |p|
  {
    if p[0] == NL && p[1] == NL {
      assert (p + q)[2..] == p[2..] + q;
    } else {
      assert (p + q)[1..] == p[1..] + q;
      HeadOn(p[1..], q);
    }
  }

  /** A piece, then the rest of the body. */
  lemma {:induction false} BodyPiece(number: Numbers, b: Bytes, line: Bytes, rest: Bytes, size: nat, piece: Bytes,
      tail: Bytes)
    requires SplitLine(b) == Split(line, rest) && number(line) == Some(size) && size > 0 && rest == piece + tail
      && |piece| == size
    ensures Body(number, b) == Prefixed(piece, Body(number, tail))
  {
    assert rest[..size] == piece && rest[size..] == tail;
  }

  lemma {:induction false} BodyEnd(number: Numbers, b: Bytes, line: Bytes, rest: Bytes)
    requires SplitLine(b) == Split(line, rest) && number(line) == Some(0)
    ensures Body(number, b) == Trailer(rest)
  {
  }

  lemma {:induction false} TrailerOn(p: Bytes, q: Bytes)
    requires Trailer(p).Whole?
    ensures Trailer(p + q) == Whole(Trailer(p).body, Trailer(p).rest + q)
  {
    LineOn(p, q);
  }

  lemma {:induction false} BodyOn(number: Numbers, p: Bytes, q: Bytes)
    requires Body(number, p).Whole?
    ensures Body(number, p + q) == Whole(Body(number, p).body, Body(number, p).rest + q)
    decreases |p|
  {
    LineOn(p, q);
    var line, rest := SplitLine(p).line, SplitLine(p).rest;
    var size := number(line).value;
    if size == 0 {
      BodyEnd(number, p, line, rest);
      BodyEnd(number, p + q, line, rest + q);
      TrailerOn(rest, q);
    } else {
      var piece, tail := rest[..size], rest[size..];
      assert rest == piece + tail && rest + q == piece + (tail + q);
      BodyPiece(number, p, line, rest, size, piece, tail);
      BodyPiece(number, p + q, line, rest + q, size, piece, tail + q);
      BodyOn(number, tail, q);
    }
  }

  /** Two line ends in a row are not at the start of an error. */
  lemma {:induction false} HeadEndsLines(b: Bytes)
    requires SplitHead(b).Split?
    ensures var n := |SplitHead(b).line|; n + 1 < |b| && b[n] == NL
  {
    var s := SplitHead(b);
    HeadMeans(b);
    assert b == s.line + [NL, NL] + s.rest;
  }

  lemma {:induction false} NotError(p: Bytes, q: Bytes)
    requires SplitHead(p).Split? && !StartsWith(p, ERROR)
    ensures !StartsWith(p + q, ERROR)
  {
    HeadEndsLines(p);
    if |p| >= 6 {
      assert (p + q)[..6] == p[..6];
    } else if |p + q| >= 6 {
      var n := |SplitHead(p).line|;
      assert (p + q)[..6][n] == (p + q)[n] == p[n] && ERROR[n] != NL;
    }
  }

  lemma {:induction false} AnswerOn(code: Codes, number: Numbers, p: Bytes, q: Bytes)
    requires Answered(code, number, p).Answer? && Answered(code, number, p).body.Whole?
    ensures Answered(code, number, p + q) ==
      Answer(Answered(code, number, p).head,
        Whole(Answered(code, number, p).body.body, Answered(code, number, p).body.rest + q))
  {
    NotError(p, q);
    HeadOn(p, q);
    BodyOn(number, SplitHead(p).rest, q);
  }

  // ---- what is sent is what is read -----------------------------------------------------------------------

  /** A reader that reads what toString(16) writes. */
  ghost predicate ReadsHex(number: Numbers) {
    forall n: nat :: ReadsHexOf(number, n)
  }

  ghost predicate ReadsHexOf(number: Numbers, n: nat) { number(HexText(n)) == Some(n) && NL !in HexText(n) }

  /** The number int(line, 16) gives, and that it reads what the bridge writes. */
  function Python(fold: Bytes -> Bytes): Numbers { (line: Bytes) => PyInt(fold, line) }

  lemma {:induction false} PythonReadsHex(fold: Bytes -> Bytes)
    ensures ReadsHex(Python(fold))
  {
    forall n: nat ensures ReadsHexOf(Python(fold), n) { HexBack(fold, n); }
  }

  /** So does parseInt(line, 16). */
  lemma {:induction false} DecoderReadsHex(fold: Bytes -> Bytes)
    ensures ReadsHex(ParseInt)
  {
    forall n: nat ensures ReadsHexOf(ParseInt, n) { HexBack(fold, n); }
  }

  lemma {:induction false} LineFirst(line: Bytes, rest: Bytes)
    requires NL !in line
    ensures SplitLine(line + [NL] + rest) == Split(line, rest)
    decreases |line|
  {
    var b := line + [NL] + rest;
    if line == [] {
      assert b == [NL] + rest && b[1..] == rest;
    } else {
      assert b[1..] == line[1..] + [NL] + rest;
      LineFirst(line[1..], rest);
      assert [line[0]] + line[1..] == line;
    }
  }

  lemma {:induction false} PieceFirst(number: Numbers, piece: Bytes, rest: Bytes)
    requires ReadsHex(number) && piece != []
    ensures Body(number, Framed(piece) + rest) == Prefixed(piece, Body(number, rest))
  {
    var n := |piece|;
    assert ReadsHexOf(number, n);
    LineFirst(HexText(n), piece + rest);
    assert Framed(piece) + rest == HexText(n) + [NL] + (piece + rest);
    assert (piece + rest)[..n] == piece && (piece + rest)[n..] == rest;
  }

  lemma {:induction false} EndLast(number: Numbers)
    requires ReadsHex(number)
    ensures Body(number, END) == Whole([], [])
  {
    assert END == [48] + [NL] + (OK + [NL]);
    LineFirst([48], OK + [NL]);
    assert ReadsHexOf(number, 0);
    assert OK + [NL] == OK + [NL] + [];
    LineFirst(OK, []);
  }

  lemma {:induction false} PieceThen(number: Numbers, piece: Bytes, rest: Bytes, body: Bytes)
    requires ReadsHex(number) && Body(number, rest) == Whole(body, [])
    ensures Body(number, Framed(piece) + rest) == Whole(piece + body, [])
  {
    if piece == [] {
      assert Framed(piece) + rest == rest && piece + body == body;
    } else {
      PieceFirst(number, piece, rest);
    }
  }

  lemma {:induction false} FramedThen(number: Numbers, pieces: seq<Bytes>, rest: Bytes)
    requires ReadsHex(number) && Body(number, rest) == Whole([], [])
    ensures Body(number, FramedAll(pieces) + rest) == Whole(Joined(pieces), [])
    decreases |pieces|
  {
    if pieces == [] {
      assert [] + rest == rest;
    } else {
      FramedThen(number, pieces[1..], rest);
      PieceThen(number, pieces[0], FramedAll(pieces[1..]) + rest, Joined(pieces[1..]));
      assert Framed(pieces[0]) + FramedAll(pieces[1..]) + rest == Framed(pieces[0]) + (FramedAll(pieces[1..]) + rest);
    }
  }

  lemma {:induction false} BodyBack(number: Numbers, pieces: seq<Bytes>)
    requires ReadsHex(number)
    ensures Body(number, BodyBytes(pieces)) == Whole(Joined(pieces), [])
  {
    EndLast(number);
    FramedThen(number, pieces, END);
  }

  /** A line in front of the rest of a head. */
  lemma {:induction false} HeadLine(line: Bytes, t: Bytes)
    requires NL !in line && SplitHead(t).Split?
    ensures SplitHead(line + t) == Split(line + SplitHead(t).line, SplitHead(t).rest)
    decreases |line|
  {
    if line == [] {
      assert line + t == t && [] + SplitHead(t).line == SplitHead(t).line;
    } else {
      HeadLine(line[1..], t);
      assert (line + t)[1..] == line[1..] + t;
      assert [line[0]] + (line[1..] + SplitHead(t).line) == line + SplitHead(t).line;
    }
  }

  /** Lines a head is made of: each with something in it. */
  predicate HeadLines(lines: seq<Bytes>) {
    lines != [] && forall i :: 0 <= i < |lines| ==> lines[i] != [] && NL !in lines[i]
  }

  lemma {:induction false} LastLine(line: Bytes, rest: Bytes)
    requires NL !in line
    ensures SplitHead(line + [NL, NL] + rest) == Split(line, rest)
  {
    var t := [NL, NL] + rest;
    assert t[2..] == rest && line + [NL, NL] + rest == line + t && line + [] == line;
    HeadLine(line, t);
  }

  lemma {:induction false} MoreLines(line: Bytes, x: Bytes, head: Bytes, rest: Bytes)
    requires NL !in line && x != [] && x[0] != NL && SplitHead(x) == Split(head, rest)
    ensures SplitHead(line + [NL] + x) == Split(line + [NL] + head, rest)
  {
    var t := [NL] + x;
    assert t[1..] == x && line + [NL] + x == line + t && line + ([NL] + head) == line + [NL] + head;
    HeadLine(line, t);
  }

  /** The lines of a head, without the last line's end. */
  function HeadOf(lines: seq<Bytes>): Bytes
    requires lines != []
  {
    if |lines| == 1 then lines[0] else lines[0] + [NL] + HeadOf(lines[1..])
  }

  lemma {:induction false} LinesOfHead(lines: seq<Bytes>)
    requires lines != []
    ensures Lines(lines) == HeadOf(lines) + [NL]
    decreases |lines|
  {
    if |lines| == 1 {
      assert lines[0] + [NL] + [] == lines[0] + [NL];
    } else {
      LinesOfHead(lines[1..]);
      assert lines[0] + [NL] + (HeadOf(lines[1..]) + [NL]) == lines[0] + [NL] + HeadOf(lines[1..]) + [NL];
    }
  }

  lemma {:induction false} HeadBack(lines: seq<Bytes>, rest: Bytes)
    requires HeadLines(lines)
    ensures SplitHead(HeadOf(lines) + [NL, NL] + rest) == Split(HeadOf(lines), rest) && HeadOf(lines) != []
      && HeadOf(lines)[0] != NL
    decreases |lines|
  {
    if |lines| == 1 {
      LastLine(lines[0], rest);
    } else {
      HeadBack(lines[1..], rest);
      var h := HeadOf(lines[1..]);
      MoreLines(lines[0], h + [NL, NL] + rest, h, rest);
      assert lines[0] + [NL] + h + [NL, NL] + rest == lines[0] + [NL] + (h + [NL, NL] + rest);
    }
  }

  /** A head that decodeResponse's pattern takes. */
  predicate StatusHead(lines: seq<Bytes>) {
    HeadLines(lines) && IsStatus(lines[0]) && BOM !in lines
  }

  /** A status line as the bridge writes it: three digits, a space, and the reason if there is one. */
  predicate IsSentStatus(line: Bytes) { IsStatus(line) && (|line| == 3 || line[3] == 32) }

  /** A head as the bridge sends one. */
  predicate SentHead(lines: seq<Bytes>) { StatusHead(lines) && IsSentStatus(lines[0]) }

  /** A client that takes what the bridge writes for a status. */
  ghost predicate Accepts(code: Codes) { forall line :: AcceptsOf(code, line) }

  ghost predicate AcceptsOf(code: Codes, line: Bytes) { IsSentStatus(line) ==> code(CodeOf(line)) }

  /** int(code) as the client's check. */
  function Status(fold: Bytes -> Bytes): Codes { (code: Bytes) => IsInteger(fold, code) }

  lemma {:induction false} SentCode(line: Bytes)
    requires IsSentStatus(line)
    ensures CodeOf(line) == line[..3]
  {
    var t := line[3..];
    assert CodeOf(t) == [];
    assert line[2..][1..] == t && line[1..][1..] == line[2..];
    assert CodeOf(line[2..]) == [line[2]];
    assert CodeOf(line[1..]) == [line[1]] + [line[2]];
    assert line[..3] == [line[0]] + ([line[1]] + [line[2]]);
  }

  lemma {:induction false} StatusAccepts(fold: Bytes -> Bytes)
    ensures Accepts(Status(fold))
  {
    forall line ensures AcceptsOf(Status(fold), line) {
      if IsSentStatus(line) {
        SentCode(line);
        ThreeDigits(fold, line[..3]);
      }
    }
  }

  lemma {:induction false} NoLineIn(t: Bytes)
    requires NL !in t
    ensures SplitLine(t).Unfinished?
    decreases |t|
  {
    if t != [] { NoLineIn(t[1..]); }
  }

  lemma {:induction false} FirstOfLines(lines: seq<Bytes>)
    requires HeadLines(lines)
    ensures FirstOf(HeadOf(lines)) == lines[0]
  {
    if |lines| == 1 {
      NoLineIn(lines[0]);
    } else {
      LineFirst(lines[0], HeadOf(lines[1..]));
    }
  }

  lemma {:induction false} StreamStarts(lines: seq<Bytes>, pieces: seq<Bytes>)
    requires StatusHead(lines)
    ensures Stream(lines, pieces) != [] && Stream(lines, pieces)[0] == lines[0][0]
      && !StartsWith(Stream(lines, pieces), ERROR)
  {
    var b := Stream(lines, pieces);
    assert b[0] == Lines(lines)[0] == lines[0][0];
    if |b| >= 6 { assert b[..6][0] == b[0]; }
  }

  /** The client gets the head, then exactly the pieces, joined; nothing is left over. */
  lemma {:induction false} StreamBack(code: Codes, number: Numbers, lines: seq<Bytes>, pieces: seq<Bytes>)
    requires ReadsHex(number) && StatusHead(lines) && code(CodeOf(lines[0]))
    ensures Answered(code, number, Stream(lines, pieces)) == Answer(HeadOf(lines), Whole(Joined(pieces), []))
  {
    StreamStarts(lines, pieces);
    LinesOfHead(lines);
    FirstOfLines(lines);
    var body := BodyBytes(pieces);
    assert HeadOf(lines) + [NL] + [NL] + body == HeadOf(lines) + [NL, NL] + body;
    HeadBack(lines, body);
    BodyBack(number, pieces);
  }

  /** A whole response read from the start of some bytes leaves the others unread. */
  lemma {:induction false} WholePrefix(code: Codes, number: Numbers, b: Bytes, n: nat)
    requires n <= |b| && Answered(code, number, b[..n]).Answer? && Answered(code, number, b[..n]).body.Whole?
    ensures Answered(code, number, b).Answer? && Answered(code, number, b).body.Whole?
      && |Answered(code, number, b).body.rest| >= |b| - n
  {
    AnswerOn(code, number, b[..n], b[n..]);
    assert b[..n] + b[n..] == b;
  }

  /** Cut anywhere, a response is not taken for a whole one. */
  lemma {:induction false} NoPrefixIsWhole(code: Codes, number: Numbers, lines: seq<Bytes>, pieces: seq<Bytes>, n: nat)
    requires ReadsHex(number) && StatusHead(lines) && code(CodeOf(lines[0])) && n < |Stream(lines, pieces)|
    ensures !(Answered(code, number, Stream(lines, pieces)[..n]).Answer?
      && Answered(code, number, Stream(lines, pieces)[..n]).body.Whole?)
  {
    StreamBack(code, number, lines, pieces);
    var a := Answered(code, number, Stream(lines, pieces)[..n]);
    if a.Answer? && a.body.Whole? { WholePrefix(code, number, Stream(lines, pieces), n); }
  }
}
