/**
 The framing of a bridged HTTP response: a head, the body in pieces each preceded by its length, and a
 trailer that says it is whole. Sent by host/http-protocol.js and engine/src/http.rs; read as it arrives
 by python/lib/collabo_core.py, and in one go by decodeResponse of host/http-protocol.js. What each reader
 makes of a length line is a parameter (HttpNumbers.dfy has the two functions).
 */
module HttpFraming {
  import opened ByteStrings
  import opened HttpNumbers

  const CR: Byte := 13
  const ERROR: Bytes := [69, 82, 82, 79, 82, 32]
  const OK: Bytes := [79, 75]
  /** The most one recv() asks for. */
  const CHUNK: nat := 65536

  type Numbers = Bytes -> Option<int>

  /** Which status codes a client takes. */
  type Codes = Bytes -> bool

  // ---- sending --------------------------------------------------------------------------------------------

  function Lines(lines: seq<Bytes>): Bytes {
    if lines == [] then [] else lines[0] + [NL] + Lines(lines[1..])
  }

  /** A piece of the body, its length before it; empty ones are left out. */
  function Framed(piece: Bytes): Bytes {
    if piece == [] then [] else HexText(|piece|) + [NL] + piece
  }

  function FramedAll(pieces: seq<Bytes>): Bytes {
    if pieces == [] then [] else Framed(pieces[0]) + FramedAll(pieces[1..])
  }

  const END: Bytes := [48, NL] + OK + [NL]

  function BodyBytes(pieces: seq<Bytes>): Bytes { FramedAll(pieces) + END }

  /** A whole response: the status line and headers, an empty line, the body. */
  function Stream(lines: seq<Bytes>, pieces: seq<Bytes>): Bytes {
    Lines(lines) + [NL] + BodyBytes(pieces)
  }

  function Joined(pieces: seq<Bytes>): Bytes {
    if pieces == [] then [] else pieces[0] + Joined(pieces[1..])
  }

  lemma {:induction false} FramedOne(pieces: seq<Bytes>, i: nat, sent: Bytes, all: Bytes)
    requires i < |pieces| && sent + FramedAll(pieces[i..]) == all
    ensures sent + Framed(pieces[i]) + FramedAll(pieces[i + 1..]) == all
  {
    assert pieces[i..][0] == pieces[i] && pieces[i..][1..] == pieces[i + 1..];
    assert sent + (Framed(pieces[i]) + FramedAll(pieces[i + 1..])) == sent + Framed(pieces[i])
      + FramedAll(pieces[i + 1..]);
  }

  /** The writer's loop over the pieces of the body. */
  method WriteBody(pieces: seq<Bytes>) returns (sent: Bytes)
    ensures sent == BodyBytes(pieces)
  {
    sent := [];
    ghost var all := FramedAll(pieces);
    assert [] + all == all && pieces[0..] == pieces;
    for i := 0 to |pieces|
      invariant sent + FramedAll(pieces[i..]) == all
    {
      FramedOne(pieces, i, sent, all);
      assert sent + [] == sent;
      if pieces[i] != [] { sent := sent + (HexText(|pieces[i]|) + [NL] + pieces[i]); }
    }
    assert pieces[|pieces|..] == [] && sent + [] == sent;
    sent := sent + END;
  }

  // ---- reading as it arrives ------------------------------------------------------------------------------

  datatype Split = Unfinished | Split(line: Bytes, rest: Bytes)

  /** Up to the first line end. */
  function SplitLine(b: Bytes): (r: Split)
    ensures r.Split? ==> |b| == |r.line| + 1 + |r.rest|
  {
    if b == [] then Unfinished
    else if b[0] == NL then Split([], b[1..])
    else
      var r := SplitLine(b[1..]);
      if r.Unfinished? then Unfinished else Split([b[0]] + r.line, r.rest)
  }

  /** Up to the first empty line. */
  function SplitHead(b: Bytes): (r: Split)
    ensures r.Split? ==> |b| == |r.line| + 2 + |r.rest|
  {
    if |b| < 2 then Unfinished
    else if b[0] == NL && b[1] == NL then Split([], b[2..])
    else
      var r := SplitHead(b[1..]);
      if r.Unfinished? then Unfinished else Split([b[0]] + r.line, r.rest)
  }

  /** The line, its end, and the rest; or no line end at all. */
  lemma {:induction false} LineMeans(b: Bytes)
    ensures SplitLine(b).Split? ==>
      b == SplitLine(b).line + [NL] + SplitLine(b).rest && NL !in SplitLine(b).line
    ensures SplitLine(b).Unfinished? ==> NL !in b
  {
    if b != [] && b[0] != NL {
      LineMeans(b[1..]);
      var r := SplitLine(b[1..]);
      assert b == [b[0]] + b[1..];
      if r.Split? { assert [b[0]] + r.line + [NL] + r.rest == [b[0]] + (r.line + [NL] + r.rest); }
    }
  }

  lemma {:induction false} HeadMeans(b: Bytes)
    ensures SplitHead(b).Split? ==> b == SplitHead(b).line + [NL, NL] + SplitHead(b).rest
  {
    if |b| >= 2 {
      assert b == [b[0]] + b[1..];
      if b[0] == NL && b[1] == NL {
        assert b == [] + [NL, NL] + b[2..];
      } else {
        HeadMeans(b[1..]);
        var r := SplitHead(b[1..]);
        if r.Split? { assert [b[0]] + r.line + [NL, NL] + r.rest == [b[0]] + (r.line + [NL, NL] + r.rest); }
      }
    }
  }

  /**
   How reading a body ends: whole, what is left unread behind it; or not. A negative length has the reader
   take nothing, over and over, for ever.
   */
  datatype Outcome = Whole(body: Bytes, rest: Bytes) | CutOff | Malformed | Refused(trailer: Bytes) | Endless

  function Prefixed(piece: Bytes, o: Outcome): Outcome {
    if o.Whole? then Whole(piece + o.body, o.rest) else o
  }

  /** The trailer, after an empty piece. */
  function Trailer(b: Bytes): Outcome {
    match SplitLine(b)
    case Unfinished => CutOff
    case Split(line, rest) => if line == OK then Whole([], rest) else Refused(line)
  }

  /** What all the bytes that will come make of the body. */
  function Body(number: Numbers, b: Bytes): Outcome
    decreases |b|
  {
    match SplitLine(b)
    case Unfinished => CutOff
    case Split(line, rest) =>
      var size := number(line);
      if size.None? then Malformed
      else if size.value == 0 then Trailer(rest)
      else if size.value < 0 then Endless
      else if |rest| < size.value then CutOff
      else Prefixed(rest[..size.value], Body(number, rest[size.value..]))
  }

  /** What is taken from the buffer while a negative number of bytes remains: all but so many of its last. */
  function TakenOff(remaining: int, buffer: Bytes): Bytes
    requires remaining < 0
  {
    if |buffer| + remaining > 0 then buffer[..|buffer| + remaining] else []
  }

  /** So many turns of the loop over a piece of negative length: how much remains. */
  function Remaining(remaining: int, buffer: Bytes, turns: nat): (r: int)
    requires remaining < 0
    ensures r < 0
    decreases turns
  {
    if turns == 0 then remaining
    else
      var piece := TakenOff(remaining, buffer);
      Remaining(remaining - |piece|, buffer[|piece|..], turns - 1)
  }

  datatype Answer = NoAnswer | HostFailed | BadStatus | Answer(head: Bytes, body: Outcome)

  /** The first line of a head. */
  function FirstOf(head: Bytes): Bytes {
    match SplitLine(head)
    case Unfinished => head
    case Split(line, _) => line
  }

  /** A status line up to its first space. */
  function CodeOf(line: Bytes): Bytes {
    if line == [] || line[0] == 32 then [] else [line[0]] + CodeOf(line[1..])
  }

  /** What a request gives, all bytes known. */
  function Answered(code: Codes, number: Numbers, b: Bytes): Answer {
    if StartsWith(b, ERROR) then (if SplitLine(b).Split? then HostFailed else NoAnswer)
    else match SplitHead(b)
      case Unfinished => NoAnswer
      case Split(head, rest) =>
        if code(CodeOf(FirstOf(head))) then Answer(head, Body(number, rest)) else BadStatus
  }

  // ---- reading in one go ----------------------------------------------------------------------------------

  datatype Found = NoLine | Found(line: Bytes, next: nat)

  /** The line at a place, and where the next one starts. */
  function LineAt(b: Bytes, pos: nat): (r: Found)
    ensures r.Found? ==> pos < r.next <= |b|
    decreases |b| - pos
  {
    if pos >= |b| then NoLine
    else if b[pos] == NL then Found([], pos + 1)
    else match LineAt(b, pos + 1)
      case NoLine => NoLine
      case Found(line, next) => Found([b[pos]] + line, next)
  }

  /** The cursor: a number that may be negative, or NaN. */
  datatype Cursor = NaN | At(pos: int)

  /** Where indexOf and subarray start from: NaN is 0, and a negative place counts from the end. */
  function Place(b: Bytes, c: Cursor): nat {
    match c
    case NaN => 0
    case At(pos) => if pos >= 0 then pos else if |b| + pos > 0 then |b| + pos else 0
  }

  /** subarray: clamped at the end, an end that is negative counted from there. */
  function SubArray(b: Bytes, begin: nat, end: int): Bytes {
    var e := if end < 0 then (if |b| + end > 0 then |b| + end else 0) else if end < |b| then end else |b|;
    if begin < e then b[begin..e] else []
  }

  /** Not yet done, refused, or a body and whether its trailer said OK. */
  datatype Decoded = Running | NotDecoded | Decoded(body: Bytes, complete: bool)

  function Extended(piece: Bytes, d: Decoded): Decoded {
    if d.Decoded? then Decoded(piece + d.body, d.complete) else d
  }

  /** One turn of the loop over the pieces: it ends, or it goes on from somewhere. */
  datatype Turn = Ends(complete: bool) | GoesOn(piece: Bytes, from: Cursor)

  predicate SaysOk(l: Found) { l.Found? && Text(l.line) == OK }

  function DecodeTurn(parse: Numbers, b: Bytes, c: Cursor): Turn {
    match LineAt(b, Place(b, c))
    case NoLine => Ends(false)
    case Found(line, next) =>
      var length := parse(line);
      if length.None? then GoesOn([], NaN)
      else if length.value == 0 then Ends(SaysOk(LineAt(b, next)))
      else GoesOn(SubArray(b, next, next + length.value), At(next + length.value))
  }

  /** What is decoded within so many turns. The loop need not end at all. */
  function Loop(turn: Cursor -> Turn, c: Cursor, turns: nat): Decoded
    decreases turns
  {
    if turns == 0 then Running
    else match turn(c)
      case Ends(complete) => Decoded([], complete)
      case GoesOn(piece, from) => Extended(piece, Loop(turn, from, turns - 1))
  }

  function Turns(parse: Numbers, b: Bytes): Cursor -> Turn { (c: Cursor) => DecodeTurn(parse, b, c) }

  function DecodeBody(parse: Numbers, b: Bytes, c: Cursor, turns: nat): Decoded { Loop(Turns(parse, b), c, turns) }

  /** Past the headers: behind a line with nothing in it, or where there is no further line. */
  function SkipHead(b: Bytes, pos: nat): nat
    decreases if pos < |b| then |b| - pos else 0
  {
    match LineAt(b, pos)
    case NoLine => pos
    case Found(line, next) => if Text(line) == [] then next else SkipHead(b, next)
  }

  /** U+2028 and U+2029, which the pattern takes for line ends. */
  predicate LineMarkAt(t: Bytes, i: nat)
    requires i + 2 < |t|
  {
    t[i] == 0xE2 && t[i + 1] == 0x80 && (t[i + 2] == 0xA8 || t[i + 2] == 0xA9)
  }

  predicate HasLineMark(t: Bytes) { exists i :: 0 <= i < |t| - 2 && LineMarkAt(t, i) }

  /** Three digits, then no line end. */
  predicate IsStatus(line: Bytes) {
    |line| >= 3 && IsDigit(line[0]) && IsDigit(line[1]) && IsDigit(line[2]) && CR !in line && !HasLineMark(line)
  }

  function DecodeResponse(parse: Numbers, b: Bytes, turns: nat): Decoded {
    match LineAt(b, 0)
    case NoLine => NotDecoded
    case Found(first, next) =>
      if StartsWith(Text(first), ERROR) || !IsStatus(Text(first)) then NotDecoded
      else DecodeBody(parse, b, At(SkipHead(b, next)), turns)
  }

  /** decodeResponse ends, and so. */
  ghost predicate Decodes(parse: Numbers, b: Bytes, d: Decoded) {
    !d.Running? && exists turns: nat :: DecodeResponse(parse, b, turns) == d
  }

  lemma {:induction false} ExtendTwice(a: Bytes, b: Bytes, d: Decoded)
    ensures Extended(a, Extended(b, d)) == Extended(a + b, d)
  {
    if d.Decoded? { assert a + (b + d.body) == a + b + d.body; }
  }

  /** decodeResponse: a cursor over the bytes, for so many turns of its last loop. */
  method DecodeAll(parse: Numbers, b: Bytes, turns: nat) returns (r: Decoded)
    ensures r == DecodeResponse(parse, b, turns)
  {
    var first := LineAt(b, 0);
    if first.NoLine? || StartsWith(Text(first.line), ERROR) || !IsStatus(Text(first.line)) { return NotDecoded; }
    var pos := first.next;
    var l := LineAt(b, pos);
    while l.Found? && Text(l.line) != []
      invariant l == LineAt(b, pos) && SkipHead(b, pos) == SkipHead(b, first.next)
      decreases if pos < |b| then |b| - pos else 0
    {
      pos := l.next;
      l := LineAt(b, pos);
    }
    if l.Found? { pos := l.next; }
    r := DecodePieces(Turns(parse, b), At(pos), turns);
  }

  method DecodePieces(turn: Cursor -> Turn, start: Cursor, turns: nat) returns (r: Decoded)
    ensures r == Loop(turn, start, turns)
  {
    var c := start;
    var chunks: Bytes := [];
    ghost var all := Loop(turn, c, turns);
    assert all.Decoded? ==> [] + all.body == all.body;
    for i := 0 to turns
      invariant all == Extended(chunks, Loop(turn, c, turns - i))
    {
      var t := turn(c);
      if t.Ends? {
        assert chunks + [] == chunks;
        return Decoded(chunks, t.complete);
      }
      ExtendTwice(chunks, t.piece, Loop(turn, t.from, turns - i - 1));
      chunks, c := chunks + t.piece, t.from;
    }
    r := Running;
  }
}
