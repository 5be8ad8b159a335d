/**
 One proxied TCP connection (engine/src/net.rs): what the guest sends and acknowledges, what the host
 socket reads, and the segments the stack makes of it. Sequence numbers are 32 bits and wrap; the
 history beside the connection counts without bound.
 */
module TcpProxy {

  const M: int := 0x1_0000_0000
  const MAX_SEGMENT: nat := 1400
  /** The most a 16-bit window can say. */
  const MAX_WINDOW: nat := 0xFFFF

  type Byte = bv8

  function Wrap32(x: int): (r: nat)
    ensures r < M
  {
    x % M
  }

  /** u32::wrapping_sub */
  function Sub32(a: nat, b: nat): (r: nat)
    ensures r < M
  {
    (a - b) % M
  }

  datatype Conn = Conn(
    sendNext: nat, sendUnacked: nat, receiveNext: nat, peerWindow: nat, outgoing: seq<Byte>,
    toHost: bool, established: bool, hostClosed: bool, finSent: bool, guestFinished: bool)

  datatype Kind = SynAck | Data | Fin | Ack

  /** A segment to the guest. */
  datatype Frame = Frame(kind: Kind, sequence: nat, acknowledges: nat, data: seq<Byte>)

  /** A segment from the guest (one with SYN opens a connection, and is not of these). */
  datatype Segment = Segment(sequence: nat, acknowledged: nat, ack: bool, fin: bool, window: nat, data: seq<Byte>)

  // ---- what the code does ------------------------------------------------------------------------

  function Min(a: int, b: int): int { if a < b then a else b }

  /** The bytes the guest still has room for. */
  function Sendable(c: Conn): (r: nat)
    ensures r <= |c.outgoing|
  {
    var inFlight := Sub32(c.sendNext, c.sendUnacked);
    var room := if c.peerWindow > inFlight then c.peerWindow - inFlight else 0;
    Min(room, |c.outgoing|)
  }

  /** One segment of data sent. */
  function SendOne(c: Conn): (Conn, Frame)
    requires Sendable(c) > 0
  {
    var take := Min(Sendable(c), MAX_SEGMENT);
    (c.(outgoing := c.outgoing[take..], sendNext := Wrap32(c.sendNext + take)),
     Frame(Data, c.sendNext, c.receiveNext, c.outgoing[..take]))
  }

  /** Data segments, as long as the guest's window has room. */
  function SendData(c: Conn): (r: (Conn, seq<Frame>))
    decreases |c.outgoing|
  {
    if Sendable(c) == 0 then (c, [])
    else
      var (c1, f) := SendOne(c);
      var (c2, fs) := SendData(c1);
      (c2, [f] + fs)
  }

  /** A FIN once the host is done, or an acknowledgement when nothing else carries it. */
  function SendEnd(c: Conn, acknowledge: bool, quiet: bool): (Conn, seq<Frame>) {
    if c.hostClosed && c.outgoing == [] && !c.finSent then
      (c.(sendNext := Wrap32(c.sendNext + 1), finSent := true), [Frame(Fin, c.sendNext, c.receiveNext, [])])
    else if acknowledge && quiet then (c, [Frame(Ack, c.sendNext, c.receiveNext, [])])
    else (c, [])
  }

  function Flush(c: Conn, acknowledge: bool): (Conn, seq<Frame>) {
    if !c.established then (c, [])
    else
      var (c1, fs) := SendData(c);
      var (c2, gs) := SendEnd(c1, acknowledge, fs == []);
      (c2, fs + gs)
  }

  /** Both sides are done and the guest has acknowledged everything: a flush forgets the connection. */
  predicate Finished(c: Conn) {
    c.established && c.finSent && c.guestFinished && c.sendUnacked == c.sendNext
  }

  function TakeAck(c: Conn, s: Segment): Conn {
    var acked := Sub32(s.acknowledged, c.sendUnacked);
    if s.ack && acked > 0 && acked <= Sub32(c.sendNext, c.sendUnacked) then c.(sendUnacked := s.acknowledged) else c
  }

  /** Data is taken only where the last left off. */
  predicate TakesData(c: Conn, s: Segment) {
    s.data != [] && s.sequence == c.receiveNext
  }

  function TakeData(c: Conn, s: Segment): Conn {
    if TakesData(c, s) then c.(receiveNext := Wrap32(c.receiveNext + |s.data|)) else c
  }

  function TakeFin(c: Conn, s: Segment): Conn {
    if s.fin && Wrap32(s.sequence + |s.data|) == c.receiveNext then
      c.(receiveNext := Wrap32(c.receiveNext + 1), guestFinished := true, toHost := false)
    else c
  }

  function Receive(c: Conn, s: Segment): Conn {
    TakeFin(TakeData(TakeAck(c.(peerWindow := s.window), s), s), s)
  }

  function Connect(c: Conn): (Conn, Frame) {
    (c.(established := true, toHost := true, sendNext := Wrap32(c.sendNext + 1), sendUnacked := c.sendNext),
     Frame(SynAck, c.sendNext, c.receiveNext, []))
  }

  /** A connection as `open` makes it for a SYN. */
  function Opened(isn: nat, guestIsn: nat, window: nat): Conn {
    Conn(isn, isn, Wrap32(guestIsn + 1), if window < 1 then 1 else window, [], false, false, false, false, false)
  }

  // ---- the history --------------------------------------------------------------------------------

  /**
   isn, guestIsn: both initial sequence numbers. frames: everything sent. read: what the host socket
   gave. acked: how far the guest acknowledged, from isn, unwrapped. stream: what the guest has to say;
   taken: how much of it was accepted; early: how much of that before the host was connected, and
   finEarly whether its FIN was; delivered: what was handed to the writer thread, and written: how much of
   it the host socket took. shut: the host is told that nothing more comes. gone: the connection is forgotten.
   */
  datatype State = State(
    c: Conn, isn: nat, guestIsn: nat, frames: seq<Frame>, read: seq<Byte>, acked: nat,
    stream: seq<Byte>, taken: nat, early: nat, finEarly: bool, delivered: seq<Byte>,
    written: nat, shut: bool, gone: bool)

  /** The data of a list of segments, joined. */
  function Payload(fs: seq<Frame>): seq<Byte> {
    if fs == [] then [] else Payload(fs[..|fs| - 1]) + fs[|fs| - 1].data
  }

  function Fins(fs: seq<Frame>): nat {
    if fs == [] then 0 else Fins(fs[..|fs| - 1]) + if fs[|fs| - 1].kind.Fin? then 1 else 0
  }

  function One(b: bool): nat { if b then 1 else 0 }

  /** The sequence numbers used so far, unwrapped: the SYN's, the bytes', the FIN's. */
  function Used(s: State): nat {
    One(s.c.established) + |Payload(s.frames)| + One(s.c.finSent)
  }

  datatype Step =
    | HostConnected
    | HostRead(data: seq<Byte>)
    | HostEnd
    | Guest(segment: Segment, offset: nat)
    | FlushStep(acknowledge: bool)
    | WriterWrites(n: nat)
    | WriterEnds

  /** A segment cut from the guest's stream: repeats and reorderings too, FIN only with its end. */
  predicate CutFrom(s: State, g: Segment, offset: nat) {
    && offset + |g.data| <= |s.stream|
    && g.data == s.stream[offset..offset + |g.data|]
    && g.sequence == Wrap32(s.guestIsn + 1 + offset)
    && (g.fin ==> offset + |g.data| == |s.stream|)
    && g.window <= MAX_WINDOW && g.acknowledged < M
    // within one sequence window of what was taken
    && offset + |g.data| < s.taken + M && s.taken + 1 < offset + M
  }

  /**
   A forgotten connection takes no step: its key is not in the table, and its socket is shut both ways. The
   writer ends when nothing more can be queued for it and all is written.
   */
  predicate Enabled(s: State, step: Step) {
    match step
    case HostConnected => !s.c.established
    case HostRead(_) => s.c.established && !s.c.hostClosed && !s.gone
    case HostEnd => s.c.established && !s.gone
    case Guest(g, offset) => CutFrom(s, g, offset) && !s.gone
    case FlushStep(_) => !s.gone
    case WriterWrites(n) => s.written + n <= |s.delivered| && !s.shut
    case WriterEnds => s.c.established && !s.c.toHost && s.written == |s.delivered| && !s.shut
  }

  /** What a flush makes of the connection; a finished one is forgotten, and its socket shut both ways. */
  function Flushed(s: State, c: Conn, fs: seq<Frame>): State {
    var sent := s.(c := c, frames := s.frames + fs);
    if Finished(c) then sent.(c := c.(toHost := false), shut := true, gone := true) else sent
  }

  function Apply(s: State, step: Step): State
    requires Enabled(s, step)
  {
    match step
    case HostConnected =>
      var (c, f) := Connect(s.c);
      s.(c := c, frames := s.frames + [f], early := s.taken, finEarly := s.c.guestFinished)
    case HostRead(data) => s.(c := s.c.(outgoing := s.c.outgoing + data), read := s.read + data)
    case HostEnd => s.(c := s.c.(hostClosed := true))
    case Guest(g, offset) =>
      s.(c := Receive(s.c, g),
         acked := if TakeAck(s.c, g).sendUnacked != s.c.sendUnacked
           then s.acked + Sub32(g.acknowledged, s.c.sendUnacked) else s.acked,
         taken := if TakesData(s.c, g) then s.taken + |g.data| else s.taken,
         delivered := if TakesData(s.c, g) && s.c.toHost then s.delivered + g.data else s.delivered)
    case FlushStep(acknowledge) =>
      var (c, fs) := Flush(s.c, acknowledge);
      Flushed(s, c, fs)
    case WriterWrites(n) => s.(written := s.written + n)
    case WriterEnds => s.(shut := true)
  }

  // ---- what every run keeps -----------------------------------------------------------------------

  /**
   The SYN-ACK has the initial sequence number; a data segment has some bytes, and the number of the stream byte it
   starts with; the FIN comes after all of them; an acknowledgement has the number next in line.
   */
  ghost predicate Placed(isn: nat, fs: seq<Frame>, k: nat)
    requires k < |fs|
  {
    match fs[k].kind
    case SynAck => fs[k].sequence == Wrap32(isn) && fs[k].data == []
    case Data => fs[k].sequence == Wrap32(isn + 1 + |Payload(fs[..k])|) && 0 < |fs[k].data| <= 1400
    case Fin => fs[k].sequence == Wrap32(isn + 1 + |Payload(fs[..k])|) && fs[k].data == []
      && Payload(fs[..k]) == Payload(fs)
    case Ack => fs[k].sequence == Wrap32(isn + 1 + |Payload(fs[..k])| + Fins(fs[..k])) && fs[k].data == []
  }

  ghost predicate Counters(s: State) {
    && s.c.sendNext == Wrap32(s.isn + Used(s))
    && s.c.sendUnacked == Wrap32(s.isn + s.acked)
    && s.acked <= Used(s) <= s.acked + MAX_WINDOW + One(s.c.finSent)
    && s.c.peerWindow <= MAX_WINDOW
  }

  /** Bytes sent, then bytes queued, are the bytes read. */
  ghost predicate Conserved(s: State) {
    && Payload(s.frames) + s.c.outgoing == s.read
    && (s.c.finSent ==> s.c.hostClosed && s.c.outgoing == [] && s.c.established)
    && (!s.c.established ==> s.frames == [] && s.read == [] && s.acked == 0)
    && Fins(s.frames) == One(s.c.finSent)
  }

  ghost predicate Framed(s: State) {
    forall k :: 0 <= k < |s.frames| ==> Placed(s.isn, s.frames, k)
  }

  /** What was handed to the writer is what was taken, from where the host was connected on. */
  ghost predicate Received(s: State) {
    && s.taken <= |s.stream| && s.early <= s.taken
    && s.c.receiveNext == Wrap32(s.guestIsn + 1 + s.taken + One(s.c.guestFinished))
    && (s.c.guestFinished ==> s.taken == |s.stream|)
    && s.delivered == (if s.c.established then s.stream[s.early..s.taken] else [])
    && (s.finEarly ==> s.c.guestFinished)
    && (s.c.toHost <==> s.c.established && !s.gone && (!s.c.guestFinished || s.finEarly))
  }

  /** The writer has written a prefix of what it was handed; a host told of the end has it all, or was cut off. */
  ghost predicate Written(s: State) {
    && s.written <= |s.delivered|
    && (s.shut ==> s.c.established && !s.c.toHost)
    && (s.shut && !s.gone ==> s.written == |s.delivered|)
    && (s.gone ==> s.shut && Finished(s.c))
  }

  ghost predicate Inv(s: State) {
    Counters(s) && Conserved(s) && Framed(s) && Received(s) && Written(s)
  }
}
