/**
 Every run of a proxied connection, whatever the guest acknowledges and however its segments are cut,
 repeated or reordered: the invariant of TcpProxy.dfy holds, and with it the two byte streams.
 */
module TcpProxyProofs {
  import opened TcpProxy

  // ---- wrapping arithmetic is exact within its window -----------------------------------------------

  lemma {:induction false} SubExact(base: int, a: int, b: int)
    requires 0 <= a - b < M
    ensures Sub32(Wrap32(base + a), Wrap32(base + b)) == a - b
  {
  }

  lemma {:induction false} WrapAdd(x: int, n: int)
    ensures Wrap32(Wrap32(x) + n) == Wrap32(x + n)
  {
  }

  lemma {:induction false} WrapInjective(base: int, a: int, b: int)
    requires Wrap32(base + a) == Wrap32(base + b) && -M < a - b < M
    ensures a == b
  {
  }

  // ---- lists of segments ----------------------------------------------------------------------------

  lemma {:induction false} PayloadSnoc(fs: seq<Frame>, f: Frame)
    ensures Payload(fs + [f]) == Payload(fs) + f.data && Fins(fs + [f]) == Fins(fs) + One(f.kind.Fin?)
  {
    assert (fs + [f])[..|fs|] == fs;
  }

  /** In flight, as the code computes it. */
  lemma {:induction false} InFlight(s: State)
    requires Counters(s)
    ensures Sub32(s.c.sendNext, s.c.sendUnacked) == Used(s) - s.acked
  {
    SubExact(s.isn, Used(s), s.acked);
  }

  // ---- one more segment sent ------------------------------------------------------------------------

  /** A segment that is next in line. */
  predicate NextInLine(isn: nat, fs: seq<Frame>, finSent: bool, f: Frame) {
    match f.kind
    case SynAck => f.sequence == Wrap32(isn) && f.data == []
    case Data => f.sequence == Wrap32(isn + 1 + |Payload(fs)|) && 0 < |f.data| <= 1400 && !finSent
    case Fin => f.sequence == Wrap32(isn + 1 + |Payload(fs)|) && f.data == []
    case Ack => f.sequence == Wrap32(isn + 1 + |Payload(fs)| + Fins(fs)) && f.data == []
  }

  lemma {:induction false} FrameSnoc(s: State, f: Frame)
    requires Framed(s) && NextInLine(s.isn, s.frames, s.c.finSent, f) && Fins(s.frames) == One(s.c.finSent)
    ensures forall k :: 0 <= k < |s.frames| + 1 ==> Placed(s.isn, s.frames + [f], k)
  {
    var fs := s.frames + [f];
    PayloadSnoc(s.frames, f);
    forall k | 0 <= k < |fs| ensures Placed(s.isn, fs, k) {
      if k < |s.frames| {
        assert fs[..k] == s.frames[..k];
        assert Placed(s.isn, s.frames, k);
        if s.frames[k].kind.Fin? && f.kind.Data? { FinCounts(s.frames, k); }
      } else {
        assert fs[..k] == s.frames;
      }
    }
  }

  lemma {:induction false} FinCounts(fs: seq<Frame>, k: nat)
    requires k < |fs| && fs[k].kind.Fin?
    ensures Fins(fs) > 0
    decreases |fs|
  {
    if k < |fs| - 1 { FinCounts(fs[..|fs| - 1], k); }
  }

  /** A data segment: it continues the stream, and stays within the window the guest advertised. */
  lemma {:induction false} SendOneKeeps(s: State)
    requires Inv(s) && s.c.established && Sendable(s.c) > 0
    ensures var (c, f) := SendOne(s.c); var s' := s.(c := c, frames := s.frames + [f]);
      && Inv(s') && s'.c.finSent == s.c.finSent && |c.outgoing| < |s.c.outgoing|
      && Used(s') - s'.acked <= c.peerWindow
  {
    var (c, f) := SendOne(s.c);
    var s' := s.(c := c, frames := s.frames + [f]);
    InFlight(s);
    PayloadSnoc(s.frames, f);
    WrapAdd(s.isn + Used(s), |f.data|);
    assert s.c.outgoing == f.data + c.outgoing;
    FrameSnoc(s, f);
    GuestSideStays(s, c, s.frames + [f], s.read);
  }

  /** More sent. */
  function After(s: State, c: Conn, fs: seq<Frame>): State {
    s.(c := c, frames := s.frames + fs)
  }

  lemma {:induction false} AfterTwice(s: State, c1: Conn, fs: seq<Frame>, c2: Conn, gs: seq<Frame>)
    ensures After(After(s, c1, fs), c2, gs) == After(s, c2, fs + gs)
  {
    assert s.frames + fs + gs == s.frames + (fs + gs);
  }

  /** What sending data leaves: no more to send, the window kept. */
  ghost predicate SentWell(s: State, c: Conn, fs: seq<Frame>) {
    && Inv(After(s, c, fs)) && Sendable(c) == 0
    && c.established && c.finSent == s.c.finSent && c.hostClosed == s.c.hostClosed
    && (fs != [] ==> Used(After(s, c, fs)) - s.acked <= c.peerWindow)
  }

  lemma {:induction false} SentFurther(s: State, c1: Conn, f: Frame, c2: Conn, fs: seq<Frame>)
    requires SentWell(After(s, c1, [f]), c2, fs) && c1.finSent == s.c.finSent && c1.hostClosed == s.c.hostClosed
    requires fs == [] ==> c1 == c2 && Used(After(s, c1, [f])) - s.acked <= c1.peerWindow
    ensures SentWell(s, c2, [f] + fs)
  {
    AfterTwice(s, c1, [f], c2, fs);
    assert [f] + [] == [f];
  }

  lemma {:induction false} NothingSent(c: Conn)
    ensures SendData(c).1 == [] ==> SendData(c).0 == c
  {
  }

  /** The whole flush loop. */
  lemma {:induction false} SendDataKeeps(s: State)
    requires Inv(s) && s.c.established
    ensures SentWell(s, SendData(s.c).0, SendData(s.c).1)
    decreases |s.c.outgoing|
  {
    if Sendable(s.c) == 0 {
      assert s.frames + [] == s.frames;
    } else {
      SendOneKeeps(s);
      var (c1, f) := SendOne(s.c);
      SendDataKeeps(After(s, c1, [f]));
      NothingSent(c1);
      SentFurther(s, c1, f, SendData(c1).0, SendData(c1).1);
    }
  }

  lemma {:induction false} SendEndKeeps(s: State, acknowledge: bool, quiet: bool)
    requires Inv(s) && s.c.established
    ensures var (c, fs) := SendEnd(s.c, acknowledge, quiet); Inv(s.(c := c, frames := s.frames + fs))
  {
    var (c, fs) := SendEnd(s.c, acknowledge, quiet);
    if fs == [] {
      assert s.frames + fs == s.frames;
    } else if fs[0].kind.Fin? {
      FinKeeps(s);
    } else {
      PlainAckKeeps(s);
    }
  }

  /** What goes to the guest is nothing to what comes from it. */
  lemma {:induction false} GuestSideStays(s: State, c: Conn, frames: seq<Frame>, read: seq<Byte>)
    requires Received(s) && Written(s) && (s.gone ==> Finished(c))
    requires c.toHost == s.c.toHost && c.established == s.c.established && c.guestFinished == s.c.guestFinished
    requires c.receiveNext == s.c.receiveNext
    ensures Received(s.(c := c, frames := frames, read := read)) && Written(s.(c := c, frames := frames, read := read))
  {
  }

  lemma {:induction false} FinCounters(s: State, f: Frame)
    requires Counters(s) && s.c.established && !s.c.finSent && f.data == []
    ensures Counters(s.(c := s.c.(sendNext := Wrap32(s.c.sendNext + 1), finSent := true), frames := s.frames + [f]))
  {
    PayloadSnoc(s.frames, f);
    assert Payload(s.frames) + [] == Payload(s.frames);
    WrapAdd(s.isn + Used(s), 1);
  }

  lemma {:induction false} FinKeeps(s: State)
    requires Inv(s) && s.c.established && s.c.hostClosed && s.c.outgoing == [] && !s.c.finSent
    ensures var f := Frame(Fin, s.c.sendNext, s.c.receiveNext, []);
      Inv(s.(c := s.c.(sendNext := Wrap32(s.c.sendNext + 1), finSent := true), frames := s.frames + [f]))
  {
    var f := Frame(Fin, s.c.sendNext, s.c.receiveNext, []);
    PayloadSnoc(s.frames, f);
    FinCounters(s, f);
    FrameSnoc(s, f);
    var c := s.c.(sendNext := Wrap32(s.c.sendNext + 1), finSent := true);
    GuestSideStays(s, c, s.frames + [f], s.read);
  }

  lemma {:induction false} NothingAdded(fs: seq<Frame>, f: Frame)
    requires f.data == [] && !f.kind.Fin?
    ensures Payload(fs + [f]) == Payload(fs) && Fins(fs + [f]) == Fins(fs)
  {
    PayloadSnoc(fs, f);
    assert Payload(fs) + [] == Payload(fs);
  }

  lemma {:induction false} PlainAckKeeps(s: State)
    requires Inv(s) && s.c.established
    ensures Inv(s.(frames := s.frames + [Frame(Ack, s.c.sendNext, s.c.receiveNext, [])]))
  {
    var f := Frame(Ack, s.c.sendNext, s.c.receiveNext, []);
    NothingAdded(s.frames, f);
    FrameSnoc(s, f);
    GuestSideStays(s, s.c, s.frames + [f], s.read);
  }

  /** A finished connection forgotten. */
  lemma {:induction false} ForgetKeeps(s: State)
    requires Inv(s) && Finished(s.c)
    ensures Inv(s.(c := s.c.(toHost := false), shut := true, gone := true))
  {
    assert Framed(s.(c := s.c.(toHost := false), shut := true, gone := true));
  }

  lemma {:induction false} FlushSent(s: State, acknowledge: bool)
    requires Inv(s)
    ensures Inv(After(s, TcpProxy.Flush(s.c, acknowledge).0, TcpProxy.Flush(s.c, acknowledge).1))
  {
    if s.c.established {
      var (c1, fs) := SendData(s.c);
      SendDataKeeps(s);
      SendEndKeeps(After(s, c1, fs), acknowledge, fs == []);
      var (c2, gs) := SendEnd(c1, acknowledge, fs == []);
      AfterTwice(s, c1, fs, c2, gs);
    } else {
      assert s.frames + [] == s.frames;
    }
  }

  lemma {:induction false} FlushKeeps(s: State, acknowledge: bool)
    requires Inv(s) && !s.gone
    ensures Inv(Apply(s, FlushStep(acknowledge)))
  {
    FlushSent(s, acknowledge);
    var (c, fs) := TcpProxy.Flush(s.c, acknowledge);
    if Finished(c) { ForgetKeeps(After(s, c, fs)); }
  }

  // ---- the host's side ------------------------------------------------------------------------------

  lemma {:induction false} ConnectKeeps(s: State)
    requires Inv(s) && !s.c.established
    ensures Inv(Apply(s, HostConnected))
  {
    var (c, f) := Connect(s.c);
    PayloadSnoc([], f);
    WrapAdd(s.isn, 1);
    assert [] + [f] == [f];
    FrameSnoc(s, f);
  }

  lemma {:induction false} HostReadKeeps(s: State, data: seq<Byte>)
    requires Inv(s) && Enabled(s, HostRead(data))
    ensures Inv(Apply(s, HostRead(data)))
  {
    assert Payload(s.frames) + (s.c.outgoing + data) == s.read + data;
    GuestSideStays(s, s.c.(outgoing := s.c.outgoing + data), s.frames, s.read + data);
    assert Framed(Apply(s, HostRead(data)));
  }

  // ---- the guest's side -----------------------------------------------------------------------------

  /** What is acknowledged, unwrapped. */
  lemma {:induction false} AckExact(isn: nat, acked: nat, acknowledged: nat)
    requires acknowledged < M
    ensures Wrap32(isn + (acked + Sub32(acknowledged, Wrap32(isn + acked)))) == acknowledged
  {
  }

  /** Whatever number a guest acknowledges, it moves the window only over what was sent. */
  lemma {:induction false} AckKeeps(s: State, g: Segment)
    requires Counters(s) && g.window <= MAX_WINDOW && g.acknowledged < M
    ensures var c := TakeAck(s.c, g);
      var acked := if c.sendUnacked != s.c.sendUnacked then s.acked + Sub32(g.acknowledged, s.c.sendUnacked)
        else s.acked;
      && acked <= Used(s) && s.acked <= acked && c.sendUnacked == Wrap32(s.isn + acked)
  {
    InFlight(s);
    AckExact(s.isn, s.acked, g.acknowledged);
  }

  /** Within one sequence window, an equal sequence number is the same place in the stream. */
  lemma {:induction false} SamePlace(s: State, g: Segment, offset: nat)
    requires Received(s) && CutFrom(s, g, offset)
    ensures g.sequence == s.c.receiveNext <==> offset == s.taken + One(s.c.guestFinished)
  {
    if g.sequence == s.c.receiveNext {
      WrapInjective(s.guestIsn + 1, offset, s.taken + One(s.c.guestFinished));
    }
  }

  /** The segment's end against what is expected next. */
  lemma {:induction false} SameEnd(s: State, g: Segment, offset: nat, next: nat)
    requires CutFrom(s, g, offset)
    requires next == s.taken || next == s.taken + 1 || next == offset + |g.data|
    ensures Wrap32(g.sequence + |g.data|) == Wrap32(s.guestIsn + 1 + next) <==> offset + |g.data| == next
  {
    WrapAdd(s.guestIsn + 1 + offset, |g.data|);
    if Wrap32(g.sequence + |g.data|) == Wrap32(s.guestIsn + 1 + next) {
      WrapInjective(s.guestIsn + 1, offset + |g.data|, next);
    }
  }

  /** Data where the last left off: what comes next, with its FIN or without. */
  lemma {:induction false} DataIsNext(s: State, g: Segment, offset: nat)
    requires Received(s) && CutFrom(s, g, offset) && TakesData(s.c, g)
    ensures offset == s.taken && !s.c.guestFinished
    ensures Wrap32(s.c.receiveNext + |g.data|) == Wrap32(s.guestIsn + 1 + s.taken + |g.data|)
    ensures Wrap32(Wrap32(s.c.receiveNext + |g.data|) + 1) == Wrap32(s.guestIsn + 1 + s.taken + |g.data| + 1)
  {
    SamePlace(s, g, offset);
    WrapAdd(s.guestIsn + 1 + s.taken, |g.data|);
    WrapAdd(s.guestIsn + 1 + s.taken + |g.data|, 1);
  }

  lemma {:induction false} DataKeepsReceived(s: State, g: Segment, offset: nat)
    requires Received(s) && Enabled(s, Guest(g, offset)) && TakesData(s.c, g)
    ensures Received(Apply(s, Guest(g, offset)))
  {
    DataIsNext(s, g, offset);
    ReceiveLeaves(s.c, g);
    assert s.stream[s.early..s.taken] + g.data == s.stream[s.early..s.taken + |g.data|];
  }

  /** A FIN comes once, behind all there is. */
  lemma {:induction false} FinIsLast(s: State, g: Segment, offset: nat)
    requires Received(s) && CutFrom(s, g, offset) && g.fin && Wrap32(g.sequence + |g.data|) == s.c.receiveNext
    ensures s.taken == |s.stream| && !s.c.guestFinished
      && Wrap32(s.c.receiveNext + 1) == Wrap32(s.guestIsn + 1 + s.taken + 1)
  {
    SameEnd(s, g, offset, s.taken + One(s.c.guestFinished));
    WrapAdd(s.guestIsn + 1 + s.taken, 1);
  }

  /** Nothing new, but for a FIN. */
  lemma {:induction false} RestKeepsReceived(s: State, g: Segment, offset: nat)
    requires Received(s) && Enabled(s, Guest(g, offset)) && !TakesData(s.c, g)
    ensures Received(Apply(s, Guest(g, offset)))
  {
    if g.fin && Wrap32(g.sequence + |g.data|) == s.c.receiveNext { FinIsLast(s, g, offset); }
  }

  lemma {:induction false} GuestKeepsReceived(s: State, g: Segment, offset: nat)
    requires Received(s) && Enabled(s, Guest(g, offset))
    ensures Received(Apply(s, Guest(g, offset)))
  {
    if TakesData(s.c, g) { DataKeepsReceived(s, g, offset); } else { RestKeepsReceived(s, g, offset); }
  }

  /** What a segment from the guest leaves alone. */
  lemma {:induction false} ReceiveLeaves(c: Conn, g: Segment)
    ensures var c' := Receive(c, g);
      && c'.sendNext == c.sendNext && c'.outgoing == c.outgoing && c'.established == c.established
      && c'.hostClosed == c.hostClosed && c'.finSent == c.finSent
      && c'.peerWindow == g.window && c'.sendUnacked == TakeAck(c, g).sendUnacked
  {
    var c1 := TakeAck(c.(peerWindow := g.window), g);
    assert c1 == TakeAck(c, g).(peerWindow := g.window);
    var c2 := TakeData(c1, g);
    assert c2 == c1.(receiveNext := c2.receiveNext);
  }

  lemma {:induction false} GuestKeepsCounters(s: State, g: Segment, offset: nat)
    requires Counters(s) && Enabled(s, Guest(g, offset))
    ensures Counters(Apply(s, Guest(g, offset)))
  {
    ReceiveLeaves(s.c, g);
    AckKeeps(s, g);
  }

  lemma {:induction false} GuestKeepsSent(s: State, g: Segment, offset: nat)
    requires Counters(s) && Conserved(s) && Framed(s) && Enabled(s, Guest(g, offset))
    ensures Conserved(Apply(s, Guest(g, offset))) && Framed(Apply(s, Guest(g, offset)))
  {
    ReceiveLeaves(s.c, g);
    AckKeeps(s, g);
    assert Framed(Apply(s, Guest(g, offset)));
  }

  /** What is handed over joins the writer's queue, and nothing does once the host is told of the end. */
  lemma {:induction false} GuestKeepsWritten(s: State, g: Segment, offset: nat)
    requires Written(s) && Enabled(s, Guest(g, offset))
    ensures Written(Apply(s, Guest(g, offset)))
  {
    ReceiveLeaves(s.c, g);
  }

  lemma {:induction false} GuestKeeps(s: State, g: Segment, offset: nat)
    requires Inv(s) && Enabled(s, Guest(g, offset))
    ensures Inv(Apply(s, Guest(g, offset)))
  {
    GuestKeepsReceived(s, g, offset);
    GuestKeepsCounters(s, g, offset);
    GuestKeepsSent(s, g, offset);
    GuestKeepsWritten(s, g, offset);
  }

  // ---- the writer's side ----------------------------------------------------------------------------

  lemma {:induction false} WriterKeeps(s: State, n: nat)
    requires Inv(s) && Enabled(s, WriterWrites(n))
    ensures Inv(Apply(s, WriterWrites(n)))
  {
    assert Framed(Apply(s, WriterWrites(n)));
  }

  lemma {:induction false} WriterEndKeeps(s: State)
    requires Inv(s) && Enabled(s, WriterEnds)
    ensures Inv(Apply(s, WriterEnds))
  {
    assert Framed(Apply(s, WriterEnds));
  }

  lemma {:induction false} HostEndKeeps(s: State)
    requires Inv(s) && Enabled(s, HostEnd)
    ensures Inv(Apply(s, HostEnd))
  {
    assert Framed(Apply(s, HostEnd));
  }

  lemma {:induction false} InvStep(s: State, step: Step)
    requires Inv(s) && Enabled(s, step)
    ensures Inv(Apply(s, step))
  {
    match step
    case HostConnected => ConnectKeeps(s);
    case HostRead(data) => HostReadKeeps(s, data);
    case HostEnd => HostEndKeeps(s);
    case Guest(g, offset) => GuestKeeps(s, g, offset);
    case FlushStep(acknowledge) => FlushKeeps(s, acknowledge);
    case WriterWrites(n) => WriterKeeps(s, n);
    case WriterEnds => WriterEndKeeps(s);
  }

  // ---- whole runs -----------------------------------------------------------------------------------

  predicate Init(s: State) {
    && s.isn < M && s.guestIsn < M && s.c.peerWindow <= MAX_WINDOW
    && s == State(Opened(s.isn, s.guestIsn, s.c.peerWindow), s.isn, s.guestIsn, [], [], 0, s.stream, 0, 0, false, [],
      0, false, false)
  }

  predicate IsRun(s: State, steps: seq<Step>)
    decreases |steps|
  {
    steps == [] || (Enabled(s, steps[0]) && IsRun(Apply(s, steps[0]), steps[1..]))
  }

  function Exec(s: State, steps: seq<Step>): State
    requires IsRun(s, steps)
    decreases |steps|
  {
    if steps == [] then s else Exec(Apply(s, steps[0]), steps[1..])
  }

  lemma {:induction false} RunKeeps(s: State, steps: seq<Step>)
    requires Inv(s) && IsRun(s, steps)
    ensures Inv(Exec(s, steps))
    decreases |steps|
  {
    if steps != [] {
      InvStep(s, steps[0]);
      RunKeeps(Apply(s, steps[0]), steps[1..]);
    }
  }

  lemma {:induction false} InitInv(s: State)
    requires Init(s)
    ensures Inv(s)
  {
  }

  /**
   Host to guest, in every run: sent then queued is what the socket gave; the code's in-flight count is
   exact and at most 65,536; at most one FIN, after all the data, with the sequence number past it.
   */
  lemma {:induction false} HostStream(s0: State, steps: seq<Step>)
    requires Init(s0) && IsRun(s0, steps)
    ensures var s := Exec(s0, steps);
      && Payload(s.frames) + s.c.outgoing == s.read
      && Sub32(s.c.sendNext, s.c.sendUnacked) == Used(s) - s.acked <= MAX_WINDOW + 1
      && Fins(s.frames) <= 1
      && (forall k :: 0 <= k < |s.frames| ==> Placed(s.isn, s.frames, k))
  {
    InitInv(s0);
    RunKeeps(s0, steps);
    InFlight(Exec(s0, steps));
  }

  /** Byte `n` of the stream is in exactly one segment, at the sequence number ISN + 1 + n. */
  lemma {:induction false} ByteInOneSegment(s: State, n: nat)
    requires Inv(s) && n < |Payload(s.frames)|
    ensures exists k :: 0 <= k < |s.frames| && CarriesByte(s, k, n)
    ensures forall j, k ::
      0 <= j < |s.frames| && 0 <= k < |s.frames| && CarriesByte(s, j, n) && CarriesByte(s, k, n) ==> j == k
  {
    var k := SegmentOf(s.frames, n);
    assert s.frames[k].kind.Data? by { assert Placed(s.isn, s.frames, k); }
    assert Placed(s.isn, s.frames, k);
    SequenceOf(s.isn, s.frames, k, n);
    assert CarriesByte(s, k, n);
    forall i, j | 0 <= i < |s.frames| && 0 <= j < |s.frames| && CarriesByte(s, i, n) && CarriesByte(s, j, n)
      ensures i == j {
      if i < j { PayloadUpTo(s.frames, i, j); }
      if j < i { PayloadUpTo(s.frames, j, i); }
    }
  }

  /** Segment `k` has byte `n` of the stream, where its sequence number says. */
  ghost predicate CarriesByte(s: State, k: nat, n: nat)
    requires k < |s.frames| && n < |Payload(s.frames)|
  {
    var at := n - |Payload(s.frames[..k])|;
    && 0 <= at < |s.frames[k].data| && s.frames[k].data[at] == Payload(s.frames)[n]
    && s.frames[k].kind.Data? && Wrap32(s.frames[k].sequence + at) == Wrap32(s.isn + 1 + n)
  }

  lemma {:induction false} SequenceOf(isn: nat, fs: seq<Frame>, k: nat, n: nat)
    requires k < |fs| && fs[k].kind.Data? && Placed(isn, fs, k) && |Payload(fs[..k])| <= n
    ensures Wrap32(fs[k].sequence + (n - |Payload(fs[..k])|)) == Wrap32(isn + 1 + n)
  {
    WrapAdd(isn + 1 + |Payload(fs[..k])|, n - |Payload(fs[..k])|);
  }

  lemma {:induction false} SegmentOf(fs: seq<Frame>, n: nat) returns (k: nat)
    requires n < |Payload(fs)|
    ensures k < |fs| && |Payload(fs[..k])| <= n < |Payload(fs[..k])| + |fs[k].data|
    ensures fs[k].data[n - |Payload(fs[..k])|] == Payload(fs)[n]
    decreases |fs|
  {
    var front := fs[..|fs| - 1];
    if n < |Payload(front)| {
      k := SegmentOf(front, n);
      assert front[..k] == fs[..k];
    } else {
      k := |fs| - 1;
    }
  }

  lemma {:induction false} PayloadUpTo(fs: seq<Frame>, i: nat, j: nat)
    requires i < j <= |fs|
    ensures |Payload(fs[..i])| + |fs[i].data| <= |Payload(fs[..j])|
    decreases j
  {
    assert fs[..j][..j - 1] == fs[..j - 1];
    if i + 1 < j {
      PayloadUpTo(fs, i, j - 1);
    }
  }

  /**
   Guest to host, in every run: the acknowledgement number claims exactly what was taken, and the host
   has it, each byte once and in order, from what was taken when it was connected.
   */
  lemma {:induction false} GuestStream(s0: State, steps: seq<Step>)
    requires Init(s0) && IsRun(s0, steps)
    ensures var s := Exec(s0, steps);
      && s.early <= s.taken <= |s.stream|
      && s.c.receiveNext == Wrap32(s.guestIsn + 1 + s.taken + One(s.c.guestFinished))
      && (s.c.guestFinished ==> s.taken == |s.stream|)
      && (s.c.established ==> s.delivered == s.stream[s.early..s.taken])
  {
    InitInv(s0);
    RunKeeps(s0, steps);
  }

  // ---- what is acknowledged --------------------------------------------------------------------------

  /** What the guest may take for accepted: its bytes taken, and its FIN. */
  function Accepted(s: State): nat { s.taken + One(s.c.guestFinished) }

  lemma {:induction false} DataAcknowledges(c: Conn, k: nat)
    requires k < |SendData(c).1|
    ensures SendData(c).1[k].acknowledges == c.receiveNext
    decreases |c.outgoing|
  {
    if k > 0 { DataAcknowledges(SendOne(c).0, k - 1); }
  }

  lemma {:induction false} SendDataKeepsNext(c: Conn)
    ensures SendData(c).0.receiveNext == c.receiveNext
    decreases |c.outgoing|
  {
    if Sendable(c) > 0 { SendDataKeepsNext(SendOne(c).0); }
  }

  lemma {:induction false} FlushAcknowledges(c: Conn, acknowledge: bool, k: nat)
    requires k < |TcpProxy.Flush(c, acknowledge).1|
    ensures TcpProxy.Flush(c, acknowledge).1[k].acknowledges == c.receiveNext
  {
    SendDataKeepsNext(c);
    if k < |SendData(c).1| { DataAcknowledges(c, k); }
  }

  /** Every segment a step sends, of whatever kind, acknowledges all that was accepted before it, FIN included. */
  lemma {:induction false} StepAcknowledges(s: State, step: Step, k: nat)
    requires Received(s) && Enabled(s, step) && |s.frames| <= k < |Apply(s, step).frames|
    ensures Apply(s, step).frames[k].acknowledges == Wrap32(s.guestIsn + 1 + Accepted(s))
  {
    if step.FlushStep? { FlushAcknowledges(s.c, step.acknowledge, k - |s.frames|); }
  }

  /** Frames only ever get more, and what is accepted does too. */
  lemma {:induction false} StepGrows(s: State, step: Step)
    requires Enabled(s, step)
    ensures s.frames <= Apply(s, step).frames && Apply(s, step).guestIsn == s.guestIsn
    ensures Accepted(s) <= Accepted(Apply(s, step))
  {
    if step.FlushStep? { FlushLeaves(s.c, step.acknowledge); }
  }

  function Repeated(n: nat, x: nat): (r: seq<nat>)
    ensures |r| == n && forall i :: 0 <= i < n ==> r[i] == x
  {
    seq(n, _ => x)
  }

  /** For each segment a run sends, what was accepted at the step that sent it. */
  ghost function AckNumbers(s: State, steps: seq<Step>): seq<nat>
    requires IsRun(s, steps)
    decreases |steps|
  {
    if steps == [] then []
    else
      var s' := Apply(s, steps[0]);
      StepGrows(s, steps[0]);
      Repeated(|s'.frames| - |s.frames|, Accepted(s)) + AckNumbers(s', steps[1..])
  }

  /** A run sends as many segments as there are such numbers, each between what was accepted at its ends. */
  lemma {:induction false} AckNumbersFit(s: State, steps: seq<Step>)
    requires IsRun(s, steps)
    ensures s.frames <= Exec(s, steps).frames && Exec(s, steps).guestIsn == s.guestIsn
    ensures |AckNumbers(s, steps)| == |Exec(s, steps).frames| - |s.frames|
    ensures Accepted(s) <= Accepted(Exec(s, steps))
    ensures forall k :: 0 <= k < |AckNumbers(s, steps)| ==>
      Accepted(s) <= AckNumbers(s, steps)[k] <= Accepted(Exec(s, steps))
    decreases |steps|
  {
    if steps != [] {
      StepGrows(s, steps[0]);
      AckNumbersFit(Apply(s, steps[0]), steps[1..]);
    }
  }

  /** They never go back. */
  lemma {:induction false} NeverBack(s: State, steps: seq<Step>, j: nat, k: nat)
    requires IsRun(s, steps) && j < k < |AckNumbers(s, steps)|
    ensures AckNumbers(s, steps)[j] <= AckNumbers(s, steps)[k]
    decreases |steps|
  {
    var s1, rest := Apply(s, steps[0]), steps[1..];
    StepGrows(s, steps[0]);
    AckNumbersFit(s1, rest);
    var n := |s1.frames| - |s.frames|;
    if j >= n { NeverBack(s1, rest, j - n, k - n); }
  }

  /** In every state of a run, what is expected next is what was accepted. */
  ghost predicate ReceivedAlong(s: State, steps: seq<Step>)
    requires IsRun(s, steps)
    decreases |steps|
  {
    Received(s) && (steps != [] ==> ReceivedAlong(Apply(s, steps[0]), steps[1..]))
  }

  lemma {:induction false} AlwaysReceived(s: State, steps: seq<Step>)
    requires Inv(s) && IsRun(s, steps)
    ensures ReceivedAlong(s, steps)
    decreases |steps|
  {
    if steps != [] {
      InvStep(s, steps[0]);
      AlwaysReceived(Apply(s, steps[0]), steps[1..]);
    }
  }

  /** The numbers, from the first step on. */
  lemma {:induction false} AckNumbersStep(s: State, steps: seq<Step>, k: nat)
    requires IsRun(s, steps) && steps != [] && k < |AckNumbers(s, steps)|
    ensures var s1, rest := Apply(s, steps[0]), steps[1..]; var n := |s1.frames| - |s.frames|;
      && n >= 0 && s1.frames <= Exec(s, steps).frames && s1.guestIsn == s.guestIsn
      && |AckNumbers(s, steps)| == n + |AckNumbers(s1, rest)|
      && AckNumbers(s, steps)[k] == if k < n then Accepted(s) else AckNumbers(s1, rest)[k - n]
  {
    StepGrows(s, steps[0]);
    AckNumbersFit(Apply(s, steps[0]), steps[1..]);
  }

  predicate AcknowledgesAll(f: Frame, guestIsn: nat, accepted: nat) {
    f.acknowledges == Wrap32(guestIsn + 1 + accepted)
  }

  /** Segment `k` of a run acknowledges what was accepted when it was sent. */
  lemma {:induction false} AcknowledgesAt(s: State, steps: seq<Step>, k: nat)
    requires IsRun(s, steps) && ReceivedAlong(s, steps) && k < |AckNumbers(s, steps)|
    ensures |s.frames| + k < |Exec(s, steps).frames|
    ensures AcknowledgesAll(Exec(s, steps).frames[|s.frames| + k], s.guestIsn, AckNumbers(s, steps)[k])
    decreases |steps|
  {
    var s1, rest := Apply(s, steps[0]), steps[1..];
    AckNumbersStep(s, steps, k);
    var n := |s1.frames| - |s.frames|;
    if k < n {
      FirstAcknowledges(s, steps[0], k);
      assert Exec(s, steps).frames[|s.frames| + k] == s1.frames[|s.frames| + k];
    } else {
      AcknowledgesAt(s1, rest, k - n);
    }
  }

  lemma {:induction false} FirstAcknowledges(s: State, step: Step, k: nat)
    requires Received(s) && Enabled(s, step) && |s.frames| + k < |Apply(s, step).frames|
    ensures AcknowledgesAll(Apply(s, step).frames[|s.frames| + k], s.guestIsn, Accepted(s))
  {
    StepAcknowledges(s, step, |s.frames| + k);
  }

  /**
   In every run, each segment to the guest acknowledges exactly what was accepted when it was sent, so that these
   numbers never go back.
   */
  lemma {:induction false} EverySegmentAcknowledges(s0: State, steps: seq<Step>)
    requires Init(s0) && IsRun(s0, steps)
    ensures var s, ns := Exec(s0, steps), AckNumbers(s0, steps);
      && |ns| == |s.frames|
      && (forall k :: 0 <= k < |ns| ==> AcknowledgesAll(s.frames[k], s.guestIsn, ns[k]))
      && (forall k :: 0 <= k < |ns| ==> ns[k] <= Accepted(s))
      && forall j, k :: 0 <= j < k < |ns| ==> ns[j] <= ns[k]
  {
    InitInv(s0);
    AlwaysReceived(s0, steps);
    AckNumbersFit(s0, steps);
    var s, ns := Exec(s0, steps), AckNumbers(s0, steps);
    forall k | 0 <= k < |ns| ensures AcknowledgesAll(s.frames[k], s.guestIsn, ns[k]) {
      AcknowledgesAt(s0, steps, k);
    }
    forall j, k | 0 <= j < k < |ns| ensures ns[j] <= ns[k] { NeverBack(s0, steps, j, k); }
  }

  /** A guest that is owed an acknowledgement gets one with the flush. */
  lemma {:induction false} AcknowledgedAtOnce(s: State)
    requires Enabled(s, FlushStep(true)) && s.c.established
    ensures |Apply(s, FlushStep(true)).frames| > |s.frames|
  {
  }

  // ---- what is accepted ------------------------------------------------------------------------------

  /** Data and FIN are accepted exactly where they are next in the guest's stream, and then in full. */
  lemma {:induction false} AcceptedExactly(s: State, g: Segment, offset: nat)
    requires Received(s) && Enabled(s, Guest(g, offset))
    ensures var s' := Apply(s, Guest(g, offset));
      && s'.taken == (if offset == s.taken && !s.c.guestFinished then s.taken + |g.data| else s.taken)
      && (s'.c.guestFinished <==> s.c.guestFinished || (g.fin && offset + |g.data| == s'.taken))
  {
    SamePlace(s, g, offset);
    if TakesData(s.c, g) {
      DataIsNext(s, g, offset);
    } else {
      SameEnd(s, g, offset, s.taken + One(s.c.guestFinished));
    }
  }

  /** An acknowledgement of anything in flight is taken for exactly that; any other changes nothing. */
  lemma {:induction false} AckTakenExactly(s: State, g: Segment, offset: nat, n: nat)
    requires Counters(s) && Enabled(s, Guest(g, offset)) && g.acknowledged == Wrap32(s.isn + n)
    requires s.acked <= n < s.acked + M
    ensures Apply(s, Guest(g, offset)).acked == if g.ack && n <= Used(s) then n else s.acked
    ensures Apply(s, Guest(g, offset)).c.peerWindow == g.window
  {
    InFlight(s);
    SubExact(s.isn, n, s.acked);
    ReceiveLeaves(s.c, g);
    if g.ack && s.acked < n <= Used(s) { AckMoves(s, n); }
  }

  lemma {:induction false} AckMoves(s: State, n: nat)
    requires Counters(s) && s.acked < n < s.acked + M
    ensures Wrap32(s.isn + n) != s.c.sendUnacked
  {
    if Wrap32(s.isn + n) == s.c.sendUnacked { WrapInjective(s.isn, n, s.acked); }
  }

  /** The guest's FIN is accepted: it comes right behind all that was taken. */
  predicate AcceptsFin(c: Conn, g: Segment) {
    g.fin && Wrap32(g.sequence + |g.data|) == TakeData(c, g).receiveNext
  }

  /** In the run, in-order data of the guest is accepted before the host is connected. */
  predicate DataBeforeHost(s: State, steps: seq<Step>)
    requires IsRun(s, steps)
    decreases |steps|
  {
    steps != [] &&
    ((!s.c.established && steps[0].Guest? && TakesData(s.c, steps[0].segment))
      || DataBeforeHost(Apply(s, steps[0]), steps[1..]))
  }

  /** In the run, the guest's FIN is. */
  predicate FinBeforeHost(s: State, steps: seq<Step>)
    requires IsRun(s, steps)
    decreases |steps|
  {
    steps != [] &&
    ((!s.c.established && steps[0].Guest? && AcceptsFin(s.c, steps[0].segment))
      || FinBeforeHost(Apply(s, steps[0]), steps[1..]))
  }

  lemma {:induction false} ConnectedStays(s: State, step: Step)
    requires Enabled(s, step)
    ensures s.c.established ==>
      Apply(s, step).c.established && Apply(s, step).early == s.early && Apply(s, step).finEarly == s.finEarly
    ensures !s.c.established ==> (Apply(s, step).c.established <==> step.HostConnected?)
  {
    match step
    case Guest(g, offset) => ReceiveLeaves(s.c, g);
    case FlushStep(acknowledge) => FlushLeaves(s.c, acknowledge);
    case _ =>
  }

  lemma {:induction false} SendDataLeaves(c: Conn)
    ensures SendData(c).0.established == c.established && SendData(c).0.guestFinished == c.guestFinished
    decreases |c.outgoing|
  {
    if Sendable(c) > 0 { SendDataLeaves(SendOne(c).0); }
  }

  lemma {:induction false} FlushLeaves(c: Conn, acknowledge: bool)
    ensures TcpProxy.Flush(c, acknowledge).0.established == c.established
    ensures TcpProxy.Flush(c, acknowledge).0.guestFinished == c.guestFinished
  {
    SendDataLeaves(c);
  }

  /** While the host is not connected: what a step takes of the guest's data and FIN. */
  lemma {:induction false} StepTakes(s: State, step: Step)
    requires Enabled(s, step) && !s.c.established && !step.HostConnected?
    ensures Apply(s, step).taken > 0 <==> s.taken > 0 || (step.Guest? && TakesData(s.c, step.segment))
    ensures Apply(s, step).c.guestFinished <==> s.c.guestFinished || (step.Guest? && AcceptsFin(s.c, step.segment))
  {
    if step.FlushStep? { FlushLeaves(s.c, step.acknowledge); }
  }

  /** Once the host is connected, nothing more is early. */
  lemma {:induction false} NothingEarlyAfter(s: State, steps: seq<Step>)
    requires IsRun(s, steps) && s.c.established
    ensures !DataBeforeHost(s, steps) && !FinBeforeHost(s, steps)
    ensures Exec(s, steps).c.established && Exec(s, steps).early == s.early && Exec(s, steps).finEarly == s.finEarly
    decreases |steps|
  {
    if steps != [] {
      ConnectedStays(s, steps[0]);
      NothingEarlyAfter(Apply(s, steps[0]), steps[1..]);
    }
  }

  /** What was early at the end is what the run took before the host was connected. */
  lemma {:induction false} EarlyMeans(s: State, steps: seq<Step>)
    requires IsRun(s, steps) && !s.c.established && Exec(s, steps).c.established
    ensures Exec(s, steps).early > 0 <==> s.taken > 0 || DataBeforeHost(s, steps)
    ensures Exec(s, steps).finEarly <==> s.c.guestFinished || FinBeforeHost(s, steps)
    decreases |steps|
  {
    var step, s', rest := steps[0], Apply(s, steps[0]), steps[1..];
    ConnectedStays(s, step);
    if step.HostConnected? {
      NothingEarlyAfter(s', rest);
    } else {
      StepTakes(s, step);
      EarlyMeans(s', rest);
    }
  }

  /**
   The host is given the guest's stream from its first byte exactly if none of it was accepted before the host
   was connected.
   */
  lemma {:induction false} NothingLost(s0: State, steps: seq<Step>)
    requires Init(s0) && IsRun(s0, steps) && Exec(s0, steps).c.established
    ensures var s := Exec(s0, steps);
      s.taken <= |s.stream| && (s.delivered == s.stream[..s.taken] <==> !DataBeforeHost(s0, steps))
  {
    GuestStream(s0, steps);
    var s := Exec(s0, steps);
    EarlyMeans(s0, steps);
    if s.early > 0 { assert |s.delivered| != s.taken; }
  }

  /**
   The side of the host socket that carries a finished guest's end is closed exactly if its FIN was not accepted
   before the host was connected, as connecting opens that side again; or once the connection is forgotten.
   */
  lemma {:induction false} EndIsTold(s0: State, steps: seq<Step>)
    requires Init(s0) && IsRun(s0, steps) && Exec(s0, steps).c.established && Exec(s0, steps).c.guestFinished
    ensures !Exec(s0, steps).c.toHost <==> !FinBeforeHost(s0, steps) || Forgets(s0, steps)
  {
    InitInv(s0);
    RunKeeps(s0, steps);
    EarlyMeans(s0, steps);
    GoneMeans(s0, steps);
  }

  /** In the run, a flush forgets the connection. */
  predicate Forgets(s: State, steps: seq<Step>)
    requires IsRun(s, steps)
    decreases |steps|
  {
    steps != [] && (ForgetsNow(s, steps[0]) || Forgets(Apply(s, steps[0]), steps[1..]))
  }

  predicate ForgetsNow(s: State, step: Step) {
    step.FlushStep? && Finished(TcpProxy.Flush(s.c, step.acknowledge).0)
  }

  /** In the run, a flush forgets the connection while the writer still has bytes of the guest to write. */
  predicate CutsOff(s: State, steps: seq<Step>)
    requires IsRun(s, steps)
    decreases |steps|
  {
    steps != [] && ((ForgetsNow(s, steps[0]) && s.written < |s.delivered|) || CutsOff(Apply(s, steps[0]), steps[1..]))
  }

  /** Nothing happens to a forgotten connection. */
  lemma {:induction false} GoneStays(s: State, steps: seq<Step>)
    requires IsRun(s, steps) && s.gone && s.shut && s.c.established
    ensures steps == []
  {
  }

  lemma {:induction false} GoneMeans(s: State, steps: seq<Step>)
    requires Inv(s) && IsRun(s, steps) && !s.gone
    ensures Exec(s, steps).gone <==> Forgets(s, steps)
    ensures Exec(s, steps).gone && Exec(s, steps).written < |Exec(s, steps).delivered| <==> CutsOff(s, steps)
    decreases |steps|
  {
    if steps != [] {
      var s' := Apply(s, steps[0]);
      InvStep(s, steps[0]);
      if s'.gone { GoneStays(s', steps[1..]); } else { GoneMeans(s', steps[1..]); }
    }
  }

  /** What the host socket took. */
  function Arrived(s: State): seq<Byte> { if s.written <= |s.delivered| then s.delivered[..s.written] else [] }

  /**
   A host that was told of the end has read the guest's whole stream exactly if none of it was accepted before
   the host was connected and the connection was not forgotten before the writer was done.
   */
  lemma {:induction false} AllArrives(s0: State, steps: seq<Step>)
    requires Init(s0) && IsRun(s0, steps) && Exec(s0, steps).shut
    ensures Arrived(Exec(s0, steps)) == s0.stream <==> !DataBeforeHost(s0, steps) && !CutsOff(s0, steps)
  {
    InitInv(s0);
    RunKeeps(s0, steps);
    StreamStays(s0, steps);
    var s := Exec(s0, steps);
    EarlyMeans(s0, steps);
    GoneMeans(s0, steps);
    WholeExactly(s);
  }

  lemma {:induction false} WholeExactly(s: State)
    requires Received(s) && Written(s) && s.shut
    ensures Arrived(s) == s.stream <==> s.early == 0 && s.written == |s.delivered|
  {
    assert s.taken == |s.stream|;
    if s.early == 0 && s.written == |s.delivered| { assert s.stream[0..s.taken] == s.stream; }
  }

  lemma {:induction false} StreamStays(s: State, steps: seq<Step>)
    requires IsRun(s, steps)
    ensures Exec(s, steps).stream == s.stream
    decreases |steps|
  {
    if steps != [] { StreamStays(Apply(s, steps[0]), steps[1..]); }
  }

  lemma {:induction false} OneStep(s: State, a: Step)
    requires Enabled(s, a)
    ensures IsRun(s, [a]) && Exec(s, [a]) == Apply(s, a)
  {
    var steps, none: seq<Step> := [a], [];
    assert steps[1..] == none && IsRun(Apply(s, a), none) && Exec(Apply(s, a), none) == Apply(s, a);
  }

  lemma {:induction false} TwoSteps(s: State, a: Step, b: Step)
    requires Enabled(s, a) && Enabled(Apply(s, a), b)
    ensures IsRun(s, [a, b]) && Exec(s, [a, b]) == Apply(Apply(s, a), b)
  {
    OneStep(Apply(s, a), b);
    assert [a, b][1..] == [b];
  }

  predicate LosesData(s: State, steps: seq<Step>) {
    Init(s) && IsRun(s, steps) && Exec(s, steps).c.established && Exec(s, steps).taken == 1
      && Exec(s, steps).delivered == []
  }

  /** Data a guest sends before its connection is up is acknowledged, and goes nowhere. */
  lemma {:induction false} EarlyDataIsLost()
    ensures exists s: State, steps: seq<Step> :: LosesData(s, steps)
  {
    var s := State(Opened(7, 9, 100), 7, 9, [], [], 0, [5], 0, 0, false, [], 0, false, false);
    var g := Segment(10, 0, false, false, 100, [5]);
    TwoSteps(s, Guest(g, 0), HostConnected);
    assert LosesData(s, [Guest(g, 0), HostConnected]);
  }

  predicate LosesEnd(s: State, steps: seq<Step>) {
    Init(s) && IsRun(s, steps) && Exec(s, steps).c.established && Exec(s, steps).c.guestFinished
      && Exec(s, steps).c.toHost
  }

  /** A FIN that comes before is acknowledged, no byte of data with it, and the host is not told of the end. */
  lemma {:induction false} EarlyFinIsLost()
    ensures exists s: State, steps: seq<Step> :: LosesEnd(s, steps) && Exec(s, steps).early == 0
  {
    var s := State(Opened(7, 9, 100), 7, 9, [], [], 0, [], 0, 0, false, [], 0, false, false);
    var g := Segment(10, 0, false, true, 100, []);
    TwoSteps(s, Guest(g, 0), HostConnected);
    assert LosesEnd(s, [Guest(g, 0), HostConnected]);
  }

  predicate CutShort(s: State, steps: seq<Step>) {
    && Init(s) && IsRun(s, steps) && !DataBeforeHost(s, steps) && Exec(s, steps).gone
    && Exec(s, steps).taken == |s.stream| && Arrived(Exec(s, steps)) != s.stream
  }

  /**
   The host ends first, the guest's last byte comes with its FIN and the last acknowledgement: the flush behind
   that segment forgets the connection before the writer has written the byte.
   */
  lemma {:induction false} LastBytesCutOff()
    ensures exists s: State, steps: seq<Step> :: CutShort(s, steps)
  {
    var s := State(Opened(7, 9, 100), 7, 9, [], [], 0, [5], 0, 0, false, [], 0, false, false);
    var g := Segment(10, 9, true, true, 100, [5]);
    var steps := [HostConnected, HostEnd, FlushStep(false), Guest(g, 0), FlushStep(true)];
    var s1 := Apply(s, HostConnected);
    var s2 := Apply(s1, HostEnd);
    assert SendData(s2.c) == (s2.c, []);
    var s3 := Apply(s2, FlushStep(false));
    assert s3.c.finSent && s3.c.sendNext == 9;
    var s4 := Apply(s3, Guest(g, 0));
    assert s4.c.guestFinished && s4.c.sendUnacked == 9 && s4.delivered == [5];
    assert SendData(s4.c) == (s4.c, []);
    var s5 := Apply(s4, FlushStep(true));
    FiveSteps(s, steps[0], steps[1], steps[2], steps[3], steps[4]);
    NothingEarlyAfter(s1, steps[1..]);
    assert CutShort(s, steps);
  }

  lemma {:induction false} FiveSteps(s: State, a: Step, b: Step, c: Step, d: Step, e: Step)
    requires Enabled(s, a) && Enabled(Apply(s, a), b)
    requires var s2 := Apply(Apply(s, a), b);
      && Enabled(s2, c) && Enabled(Apply(s2, c), d) && Enabled(Apply(Apply(s2, c), d), e)
    ensures IsRun(s, [a, b, c, d, e])
    ensures Exec(s, [a, b, c, d, e]) == Apply(Apply(Apply(Apply(Apply(s, a), b), c), d), e)
  {
    var s2 := Apply(Apply(s, a), b);
    var s3 := Apply(s2, c);
    TwoSteps(s3, d, e);
    assert [c, d, e][1..] == [d, e] && [b, c, d, e][1..] == [c, d, e] && [a, b, c, d, e][1..] == [b, c, d, e];
    assert IsRun(s2, [c, d, e]) && Exec(s2, [c, d, e]) == Exec(s3, [d, e]);
    assert IsRun(Apply(s, a), [b, c, d, e]) && Exec(Apply(s, a), [b, c, d, e]) == Exec(s2, [c, d, e]);
  }

  /** A connection is finished exactly when both sides have ended and the guest has acknowledged all there was. */
  lemma {:induction false} FinishedExactly(s: State)
    requires Inv(s)
    ensures Finished(s.c) <==> s.c.established && s.c.finSent && s.c.guestFinished && s.acked == 1 + |s.read| + 1
    ensures Finished(s.c) ==> Payload(s.frames) == s.read && s.taken == |s.stream|
  {
    if s.c.sendUnacked == s.c.sendNext { WrapInjective(s.isn, s.acked, Used(s)); }
    if s.c.finSent { assert Payload(s.frames) + [] == Payload(s.frames); }
  }

  /** A flush leaves nothing it could send: the window is full, or the queue is empty and the end is told. */
  lemma {:induction false} FlushSendsAll(s: State, acknowledge: bool)
    requires Inv(s) && s.c.established && !s.gone
    ensures var s' := Apply(s, FlushStep(acknowledge));
      && (s'.c.outgoing == [] || Used(s') - s'.acked >= s'.c.peerWindow)
      && (s'.c.hostClosed && s'.c.outgoing == [] ==> s'.c.finSent)
      && (Payload(s'.frames) != Payload(s.frames) ==> Used(s') - s'.acked <= s'.c.peerWindow + One(s'.c.finSent))
  {
    DataSendsAll(s);
    FlushIsDataThenEnd(s, acknowledge);
    EndAdds(DataSent(s), acknowledge, SendData(s.c).1 == []);
  }

  function DataSent(s: State): State {
    s.(c := SendData(s.c).0, frames := s.frames + SendData(s.c).1)
  }

  lemma {:induction false} FlushIsDataThenEnd(s: State, acknowledge: bool)
    requires s.c.established && !s.gone
    ensures var s1 := DataSent(s); var (c, gs) := SendEnd(s1.c, acknowledge, SendData(s.c).1 == []);
      Apply(s, FlushStep(acknowledge)) == Flushed(s1, c, gs)
  {
    var fs := SendData(s.c).1;
    var gs := SendEnd(SendData(s.c).0, acknowledge, fs == []).1;
    assert s.frames + (fs + gs) == s.frames + fs + gs;
  }

  lemma {:induction false} DataSendsAll(s: State)
    requires Inv(s) && s.c.established
    ensures var s' := DataSent(s);
      && Conserved(s') && s'.c.established
      && (s'.c.outgoing == [] || Used(s') - s'.acked >= s'.c.peerWindow)
      && (Payload(s'.frames) != Payload(s.frames) ==> Used(s') - s'.acked <= s'.c.peerWindow)
  {
    var (c, fs) := SendData(s.c);
    SendDataKeeps(s);
    InFlight(s.(c := c, frames := s.frames + fs));
    if fs == [] { assert s.frames + fs == s.frames; }
  }

  /** What ends a flush adds no data, and a FIN's one number at most. */
  lemma {:induction false} EndAdds(s: State, acknowledge: bool, quiet: bool)
    requires Conserved(s) && s.c.established
    ensures var (c, gs) := SendEnd(s.c, acknowledge, quiet); var s' := s.(c := c, frames := s.frames + gs);
      && Payload(s'.frames) == Payload(s.frames) && c.outgoing == s.c.outgoing && c.peerWindow == s.c.peerWindow
      && Used(s') == Used(s) + One(c.finSent && !s.c.finSent)
      && (c.hostClosed && c.outgoing == [] ==> c.finSent)
  {
    var (c, gs) := SendEnd(s.c, acknowledge, quiet);
    if gs == [] {
      assert s.frames + gs == s.frames;
    } else {
      PayloadSnoc(s.frames, gs[0]);
    }
  }
}
