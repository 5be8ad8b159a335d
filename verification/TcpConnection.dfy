/**
 The connection object of the network stack, updated in place by the thread that receives the guest's
 segments and the one that reads the host socket. Every method is a step of TcpProxy.dfy.
 */
module TcpConnection {
  import opened TcpProxy

  class Connection {
    var sendNext: nat
    var sendUnacked: nat
    var receiveNext: nat
    var peerWindow: nat
    var outgoing: seq<Byte>
    var toHost: bool
    var established: bool
    var hostClosed: bool
    var finSent: bool
    var guestFinished: bool
    /** The socket, shut both ways when the connection is forgotten. */
    var shut: bool
    /** What was handed to the writer thread of the host socket. */
    ghost var written: seq<Byte>

    ghost function Value(): Conn
      reads this
    {
      Conn(sendNext, sendUnacked, receiveNext, peerWindow, outgoing, toHost, established, hostClosed, finSent,
        guestFinished)
    }

    /** A SYN was allowed through. */
    constructor (initial: nat, sequence: nat, window: nat)
      ensures Value() == Opened(initial, sequence, window) && written == [] && !shut
      ensures peerWindow == (if window > 1 then window else 1)
    {
      sendNext, sendUnacked, receiveNext := initial, initial, Wrap32(sequence + 1);
      peerWindow, outgoing := if window < 1 then 1 else window, [];
      toHost, established, hostClosed, finSent, guestFinished := false, false, false, false, false;
      shut, written := false, [];
    }

    /** A segment from the guest, RST apart (which drops the connection). */
    method ReceiveTcp(s: Segment) returns (acknowledge: bool)
      modifies this
      ensures Value() == Receive(old(Value()), s)
      ensures written == if TakesData(old(Value()), s) && old(toHost) then old(written) + s.data else old(written)
      ensures acknowledge <==> s.data != [] || s.fin
      ensures shut == old(shut)
    {
      peerWindow := s.window;
      Acknowledged(s);
      HandOver(s);
      EndOfGuest(s);
      acknowledge := s.data != [] || s.fin;
    }

    method Acknowledged(s: Segment)
      modifies this`sendUnacked
      ensures Value() == TakeAck(old(Value()), s)
    {
      if s.ack {
        var acked := Sub32(s.acknowledged, sendUnacked);
        if acked > 0 && acked <= Sub32(sendNext, sendUnacked) { sendUnacked := s.acknowledged; }
      }
    }

    /** Only data that continues where the last left off. */
    method HandOver(s: Segment)
      modifies this`receiveNext, this`written
      ensures Value() == TakeData(old(Value()), s)
      ensures written == if TakesData(old(Value()), s) && toHost then old(written) + s.data else old(written)
    {
      if s.data != [] && s.sequence == receiveNext {
        receiveNext := Wrap32(receiveNext + |s.data|);
        if toHost { written := written + s.data; }
      }
    }

    /** The guest will send nothing more. */
    method EndOfGuest(s: Segment)
      modifies this`receiveNext, this`guestFinished, this`toHost
      ensures Value() == TakeFin(old(Value()), s)
    {
      if s.fin && Wrap32(s.sequence + |s.data|) == receiveNext {
        receiveNext := Wrap32(receiveNext + 1);
        guestFinished, toHost := true, false;
      }
    }

    /** The host socket is connected: the guest gets its SYN-ACK. */
    method HostConnected() returns (reply: Frame)
      modifies this
      ensures (Value(), reply) == Connect(old(Value())) && written == old(written) && shut == old(shut)
    {
      established, toHost := true, true;
      reply := Frame(SynAck, sendNext, receiveNext, []);
      sendUnacked := sendNext;
      sendNext := Wrap32(sendNext + 1);
    }

    /** The host socket gave some bytes. */
    method HostData(data: seq<Byte>)
      modifies this`outgoing
      ensures outgoing == old(outgoing) + data
    {
      outgoing := outgoing + data;
    }

    /** close_socket: the writer is handed nothing more, and what it has not written is lost. */
    method CloseSocket()
      modifies this`toHost, this`shut
      ensures Value() == old(Value()).(toHost := false) && shut
    {
      toHost, shut := false, true;
    }

    /** Sends what it can, and closes the socket of a connection that is finished. */
    method Flush(acknowledge: bool) returns (frames: seq<Frame>, finished: bool)
      modifies this`sendNext, this`outgoing, this`finSent, this`toHost, this`shut
      ensures var (c, fs) := TcpProxy.Flush(old(Value()), acknowledge);
        && frames == fs && finished == Finished(c) && Value() == (if finished then c.(toHost := false) else c)
      ensures shut == (old(shut) || finished)
    {
      frames := Send(acknowledge);
      finished := established && finSent && guestFinished && sendUnacked == sendNext;
      if finished { CloseSocket(); }
    }

    /** Sends what the window has room for, then a FIN when the host is done. */
    method Send(acknowledge: bool) returns (frames: seq<Frame>)
      modifies this`sendNext, this`outgoing, this`finSent
      ensures (Value(), frames) == TcpProxy.Flush(old(Value()), acknowledge)
    {
      frames := [];
      if !established { return; }
      frames := SendQueued();
      ghost var c, data := Value(), frames;
      if hostClosed && outgoing == [] && !finSent {
        frames := frames + [Frame(Fin, sendNext, receiveNext, [])];
        sendNext, finSent := Wrap32(sendNext + 1), true;
      } else if acknowledge && frames == [] {
        frames := frames + [Frame(Ack, sendNext, receiveNext, [])];
      }
      assert data + [] == data;
      assert (Value(), frames) == (SendEnd(c, acknowledge, data == []).0, data + SendEnd(c, acknowledge, data == []).1);
    }

    /** The loop over the data. */
    method SendQueued() returns (frames: seq<Frame>)
      modifies this`sendNext, this`outgoing
      ensures (Value(), frames) == SendData(old(Value()))
    {
      frames := [];
      var room := Room();
      assert [] + SendData(Value()).1 == SendData(Value()).1;
      while room > 0
        invariant room == Sendable(Value())
        invariant SendData(old(Value())) == (SendData(Value()).0, frames + SendData(Value()).1)
        decreases |outgoing|
      {
        MoreSent(Value(), frames);
        var f := SendSegment(room);
        frames := frames + [f];
        room := Room();
      }
      assert frames + [] == frames;
    }

    method SendSegment(room: nat) returns (f: Frame)
      requires room == Sendable(Value()) > 0
      modifies this`sendNext, this`outgoing
      ensures (Value(), f) == SendOne(old(Value()))
    {
      var take := Min(room, MAX_SEGMENT);
      var data := outgoing[..take];
      f := Frame(Data, sendNext, receiveNext, data);
      outgoing := outgoing[take..];
      sendNext := Wrap32(sendNext + |data|);
    }

    /** sendable */
    method Room() returns (room: nat)
      ensures room == Sendable(Value()) <= |outgoing|
    {
      var inFlight := Sub32(sendNext, sendUnacked);
      room := Min(if peerWindow > inFlight then peerWindow - inFlight else 0, |outgoing|);
    }
  }

  /** The loop's segments so far, and the one it just made. */
  lemma {:induction false} MoreSent(c: Conn, sent: seq<Frame>)
    requires Sendable(c) > 0
    ensures var (c1, f) := SendOne(c);
      (SendData(c).0, sent + SendData(c).1) == (SendData(c1).0, sent + [f] + SendData(c1).1)
  {
    var (c1, f) := SendOne(c);
    assert sent + ([f] + SendData(c1).1) == sent + [f] + SendData(c1).1;
  }
}
