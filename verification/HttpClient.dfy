/** The client that reads a response as it arrives (python/lib/collabo_core.py). */
module HttpClient {
  import opened ByteStrings
  import opened HttpNumbers
  import opened HttpFraming
  import opened HttpFramingProofs

  class Response {
    /** What recv() will give, piece by piece, before the connection closes. */
    var incoming: seq<Bytes>
    var buffer: Bytes
    /** What int(line, 16) makes of a line. */
    const number: Numbers
    /** What int(code) takes. */
    const code: Codes

    ghost predicate Valid()
      reads this
    {
      forall i :: 0 <= i < |incoming| ==> incoming[i] != []
    }

    /** Everything still to be read. */
    function Rest(): Bytes
      reads this
    {
      buffer + Joined(incoming)
    }

    constructor (cuts: seq<Bytes>, code: Codes, number: Numbers)
      requires forall i :: 0 <= i < |cuts| ==> cuts[i] != []
      ensures Valid() && Rest() == Joined(cuts) && this.number == number && this.code == code
    {
      incoming, buffer := cuts, [];
      this.number := number;
      this.code := code;
      new;
      assert [] + Joined(cuts) == Joined(cuts);
    }

    method Fill() returns (more: bool)
      requires Valid()
      modifies this
      ensures Valid() && Rest() == old(Rest())
      ensures more ==> |incoming| < |old(incoming)| && |buffer| > |old(buffer)|
      ensures !more ==> Rest() == buffer == old(buffer)
    {
      if incoming == [] {
        assert buffer + [] == buffer;
        return false;
      }
      assert buffer + (incoming[0] + Joined(incoming[1..])) == buffer + incoming[0] + Joined(incoming[1..]);
      buffer := buffer + incoming[0];
      incoming := incoming[1..];
      more := true;
    }

    method Line() returns (r: Option<Bytes>)
      requires Valid()
      modifies this
      ensures Valid()
      ensures match SplitLine(old(Rest()))
        case Unfinished => r == None
        case Split(line, rest) => r == Some(line) && Rest() == rest
    {
      while true
        invariant Valid() && Rest() == old(Rest())
        decreases |incoming|
      {
        var s := SplitLine(buffer);
        if s.Split? {
          LineOn(buffer, Joined(incoming));
          buffer := s.rest;
          return Some(s.line);
        }
        var more := Fill();
        if !more { return None; }
      }
    }

    method Exactly(n: nat) returns (r: Option<Bytes>)
      requires Valid()
      modifies this
      ensures Valid()
      ensures if n <= |old(Rest())| then r == Some(old(Rest())[..n]) && Rest() == old(Rest())[n..] else r == None
    {
      while |buffer| < n
        invariant Valid() && Rest() == old(Rest())
        decreases |incoming|
      {
        var more := Fill();
        if !more { return None; }
      }
      ghost var more := Joined(incoming);
      assert (buffer + more)[..n] == buffer[..n] && (buffer + more)[n..] == buffer[n..] + more;
      r := Some(buffer[..n]);
      buffer := buffer[n..];
    }

    /** One piece of the body, in steps of what one recv() asks for. */
    method ReadPiece(size: nat) returns (r: Option<Bytes>)
      requires Valid()
      modifies this
      ensures Valid()
      ensures if size <= |old(Rest())| then r == Some(old(Rest())[..size]) && Rest() == old(Rest())[size..]
        else r == None
    {
      var remaining, got: Bytes := size, [];
      ghost var all := Rest();
      while remaining > 0
        invariant Valid() && 0 <= remaining <= size && |got| == size - remaining && got + Rest() == all
      {
        var n := if remaining < CHUNK then remaining else CHUNK;
        ghost var rest := Rest();
        var piece := Exactly(n);
        if piece.None? { return None; }
        assert rest == piece.value + Rest();
        assert got + (piece.value + Rest()) == got + piece.value + Rest();
        remaining := remaining - n;
        got := got + piece.value;
      }
      assert all[..size] == got && all[size..] == Rest();
      r := Some(got);
    }

    /** The body, whatever way it is cut: what all its bytes make of it. */
    method ReadBody() returns (o: Outcome)
      requires Valid()
      modifies this
      ensures Valid() && o == Body(number, old(Rest()))
      ensures o.Whole? ==> Rest() == o.rest
    {
      var got: Bytes := [];
      ghost var all := Body(number, Rest());
      assert all.Whole? ==> [] + all.body == all.body;
      while true
        invariant Valid() && all == Prefixed(got, Body(number, Rest()))
        decreases |Rest()|
      {
        assert got + [] == got;
        var line := Line();
        if line.None? { return CutOff; }
        var size := number(line.value);
        if size.None? { return Malformed; }
        if size.value == 0 {
          var trailer := Line();
          if trailer.None? { return CutOff; }
          if trailer.value != OK { return Refused(trailer.value); }
          return Whole(got, Rest());
        }
        // the loop over a piece of negative length takes less than nothing, and never ends
        if size.value < 0 { return Endless; }
        var piece := ReadPiece(size.value);
        if piece.None? { return CutOff; }
        PrefixTwice(got, piece.value, Body(number, Rest()));
        got := got + piece.value;
      }
    }

    /** The head of a response, then its body. */
    method Request() returns (a: Answer)
      requires Valid()
      modifies this
      ensures a == Answered(code, number, old(Rest()))
    {
      while !SplitHead(buffer).Split? && !(StartsWith(buffer, ERROR) && SplitLine(buffer).Split?)
        invariant Valid() && Rest() == old(Rest())
        decreases |incoming|
      {
        var more := Fill();
        if !more {
          NoLineNoHead(code, number, buffer);
          return NoAnswer;
        }
      }
      ghost var more := Joined(incoming);
      if StartsWith(buffer, ERROR) {
        HeadHasLine(buffer);
        assert Rest()[..6] == buffer[..6];
        LineOn(buffer, more);
        return HostFailed;
      }
      NotError(buffer, more);
      HeadOn(buffer, more);
      var s := SplitHead(buffer);
      if !code(CodeOf(FirstOf(s.line))) { return BadStatus; }
      buffer := s.rest;
      var o := ReadBody();
      a := Answer(s.line, o);
    }
  }

  lemma {:induction false} PrefixTwice(a: Bytes, b: Bytes, o: Outcome)
    ensures Prefixed(a, Prefixed(b, o)) == Prefixed(a + b, o)
  {
    if o.Whole? { assert a + (b + o.body) == a + b + o.body; }
  }

  lemma {:induction false} NoLineNoHead(code: Codes, number: Numbers, b: Bytes)
    requires SplitHead(b).Unfinished? && !(StartsWith(b, ERROR) && SplitLine(b).Split?)
    ensures Answered(code, number, b) == NoAnswer
  {
  }

  lemma {:induction false} HeadHasLine(b: Bytes)
    requires SplitHead(b).Split? || SplitLine(b).Split?
    ensures SplitLine(b).Split?
  {
    LineMeans(b);
    if SplitHead(b).Split? { HeadEndsLines(b); }
  }

  /** A response, sent in any pieces and received in any others: its head, and the pieces of its body joined. */
  method Fetch(lines: seq<Bytes>, pieces: seq<Bytes>, cuts: seq<Bytes>, fold: Bytes -> Bytes) returns (a: Answer)
    requires SentHead(lines) && (forall i :: 0 <= i < |cuts| ==> cuts[i] != []) && Joined(cuts) == Stream(lines, pieces)
    ensures a == Answer(HeadOf(lines), Whole(Joined(pieces), []))
  {
    PythonReadsHex(fold);
    StatusAccepts(fold);
    assert AcceptsOf(Status(fold), lines[0]);
    var response := new Response(cuts, Status(fold), Python(fold));
    a := response.Request();
    StreamBack(Status(fold), Python(fold), lines, pieces);
  }

  /** One cut short: never a whole one. */
  method FetchCut(lines: seq<Bytes>, pieces: seq<Bytes>, cuts: seq<Bytes>, n: nat, fold: Bytes -> Bytes)
      returns (a: Answer)
    requires SentHead(lines) && (forall i :: 0 <= i < |cuts| ==> cuts[i] != [])
    requires n < |Stream(lines, pieces)| && Joined(cuts) == Stream(lines, pieces)[..n]
    ensures !(a.Answer? && a.body.Whole?)
  {
    PythonReadsHex(fold);
    StatusAccepts(fold);
    assert AcceptsOf(Status(fold), lines[0]);
    var response := new Response(cuts, Status(fold), Python(fold));
    a := response.Request();
    NoPrefixIsWhole(Status(fold), Python(fold), lines, pieces, n);
  }
}
