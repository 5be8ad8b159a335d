/**
 Credit-based flow control on one vsock connection (engine/src/vsock.rs; section 5.10.6.3 of VirtIO
 1.1): host threads that read and write, the device thread that takes the guest's packets, and a
 guest that keeps to the credit it was given. Counters on the wire are 32 bits and wrap.
 */
module Vsock {

  const M: int := 0x1_0000_0000
  const BUF_ALLOC: nat := 256 * 1024
  const MAX_PAYLOAD: nat := 2048

  type Byte = bv8

  function Wrap32(x: int): (r: nat)
    ensures r < M
  {
    x % M
  }

  function Sub32(a: nat, b: nat): (r: nat)
    ensures r < M
  {
    (a - b) % M
  }

  function Min(a: int, b: int): int { if a < b then a else b }

  datatype Option<+T> = None | Some(value: T)

  /** The state behind a connection's lock. */
  datatype Host = Host(incoming: seq<Byte>, bytesRead: nat, credited: nat, bytesWritten: nat, peerBufAlloc: nat,
    peerFwdCnt: nat)

  // ---- the critical sections ----------------------------------------------------------------------

  /** A read into a buffer of `n`, something having arrived: what it takes, and whether credit is due. */
  function Taken(h: Host, n: nat): Host {
    var take := Min(|h.incoming|, n);
    var bytesRead := Wrap32(h.bytesRead + take);
    h.(incoming := h.incoming[take..], bytesRead := bytesRead, credited := if CreditDue(h, n) then bytesRead
      else h.credited)
  }

  predicate CreditDue(h: Host, n: nat) {
    Sub32(Wrap32(h.bytesRead + Min(|h.incoming|, n)), h.credited) >= BUF_ALLOC / 4
  }

  /** The room the guest's receive window has, as the writer computes it. */
  function Available(h: Host): nat {
    var used := Sub32(h.bytesWritten, h.peerFwdCnt);
    if h.peerBufAlloc > used then h.peerBufAlloc - used else 0
  }

  /** How much of `left` bytes one packet takes. */
  function Chunk(h: Host, left: nat): (r: nat)
    ensures r <= left && r <= Available(h) && r <= MAX_PAYLOAD
    ensures left > 0 && Available(h) > 0 ==> r > 0
  {
    Min(Min(Available(h), MAX_PAYLOAD), left)
  }

  function Reserved(h: Host, left: nat): Host {
    h.(bytesWritten := Wrap32(h.bytesWritten + Chunk(h, left)))
  }

  function Credit(h: Host, bufAlloc: nat, fwdCnt: nat): Host {
    h.(peerBufAlloc := bufAlloc, peerFwdCnt := fwdCnt)
  }

  function Enqueued(h: Host, payload: seq<Byte>): Host {
    h.(incoming := h.incoming + payload)
  }

  // ---- both ends and what is between them -----------------------------------------------------------

  /** A packet either way: its bytes, and the sender's counters on the wire. `told` is fwdCnt unwrapped. */
  datatype Packet = Packet(payload: seq<Byte>, bufAlloc: nat, fwdCnt: nat, told: nat)

  /**
   read, written, credited: the host's counters unwrapped; heard: the guest's consumption as last heard.
   made: packets whose counters were taken under the lock, not yet in the outbox (any thread may be next).
   outbox, inbox: in order. sent, got, consumed: the guest's own counts; known: the fwd_cnt it saw last;
   buf: the buffer it advertises. hostGot: what readers were given; guestSent: all the guest sent.
   handling: the payload of a packet whose credit was taken and which is not yet queued (the device thread
   takes the lock once for each, and others may get in between).
   */
  datatype State = State(
    h: Host, read: nat, written: nat, credited: nat, heard: nat,
    made: seq<Packet>, outbox: seq<Packet>, inbox: seq<Packet>,
    got: nat, consumed: nat, known: nat, buf: nat, hostGot: seq<Byte>, guestSent: seq<Byte>,
    handling: Option<seq<Byte>>)

  function Bytes(ps: seq<Packet>): seq<Byte> {
    if ps == [] then [] else Bytes(ps[..|ps| - 1]) + ps[|ps| - 1].payload
  }

  function Size(ps: seq<Packet>): nat {
    if ps == [] then 0 else Size(ps[..|ps| - 1]) + |ps[|ps| - 1].payload|
  }

  datatype Step =
    | HostRead(n: nat)
    | HostWrite(data: seq<Byte>)
    /** OP_CREDIT_REQUEST: a packet that only tells. */
    | HostTell
    /** A made packet reaches the outbox. */
    | Push(i: nat)
    /** update_credit for the next packet, then enqueue for its payload. */
    | HostCredit
    | HostEnqueue
    | GuestReceive
    | GuestConsume(n: nat)
    | GuestResize(buf: nat)
    | GuestSend(payload: seq<Byte>)

  predicate Enabled(s: State, step: Step) {
    match step
    case HostRead(_) => s.h.incoming != []
    case HostWrite(data) => data != [] && Available(s.h) > 0
    case HostTell => true
    case Push(i) => i < |s.made|
    case HostCredit => s.inbox != [] && s.handling.None?
    case HostEnqueue => s.handling.Some?
    case GuestReceive => s.outbox != []
    case GuestConsume(n) => s.consumed + n <= s.got
    case GuestResize(buf) => buf < M
    // a conforming guest: no more than the host's buffer beyond what it was told was consumed
    case GuestSend(payload) => |s.guestSent| + |payload| <= s.known + BUF_ALLOC
  }

  function Made(s: State, payload: seq<Byte>): seq<Packet> {
    s.made + [Packet(payload, BUF_ALLOC, s.h.bytesRead, s.read)]
  }

  function Apply(s: State, step: Step): State
    requires Enabled(s, step)
  {
    match step
    case HostRead(n) =>
      var take := Min(|s.h.incoming|, n);
      var s' := s.(h := Taken(s.h, n), read := s.read + take, hostGot := s.hostGot + s.h.incoming[..take]);
      if CreditDue(s.h, n) then s'.(credited := s'.read, made := Made(s', [])) else s'
    case HostWrite(data) =>
      var take := Chunk(s.h, |data|);
      s.(h := Reserved(s.h, |data|), written := s.written + take, made := Made(s, data[..take]))
    case HostTell => s.(made := Made(s, []))
    case Push(i) => s.(made := s.made[..i] + s.made[i + 1..], outbox := s.outbox + [s.made[i]])
    case HostCredit =>
      var p := s.inbox[0];
      s.(h := Credit(s.h, p.bufAlloc, p.fwdCnt), heard := p.told, inbox := s.inbox[1..], handling := Some(p.payload))
    case HostEnqueue => s.(h := Enqueued(s.h, s.handling.value), handling := None)
    case GuestReceive =>
      s.(got := s.got + |s.outbox[0].payload|, known := s.outbox[0].told, outbox := s.outbox[1..])
    case GuestConsume(n) => s.(consumed := s.consumed + n)
    case GuestResize(buf) => s.(buf := buf)
    case GuestSend(payload) =>
      s.(inbox := s.inbox + [Packet(payload, s.buf, Wrap32(s.consumed), s.consumed)],
        guestSent := s.guestSent + payload)
  }

  // ---- what every interleaving keeps ------------------------------------------------------------------

  /** The 32-bit counters are the unbounded ones, wrapped, and close enough for subtraction to be exact. */
  ghost predicate Exact(s: State) {
    && s.h.bytesRead == Wrap32(s.read) && s.h.credited == Wrap32(s.credited)
    && s.h.bytesWritten == Wrap32(s.written) && s.h.peerFwdCnt == Wrap32(s.heard)
    && s.credited <= s.read < s.credited + BUF_ALLOC / 4
    && s.heard <= s.consumed <= s.got && s.written - s.heard < M && s.h.peerBufAlloc < M && s.buf < M
    && s.got + Size(s.outbox) + Size(s.made) == s.written
  }

  ghost predicate Tells(p: Packet, read: nat) {
    p.told <= read && p.fwdCnt == Wrap32(p.told) && p.bufAlloc == BUF_ALLOC
  }

  /** No packet claims more was consumed than was. */
  ghost predicate Honest(s: State) {
    && s.known <= s.read
    && (forall i :: 0 <= i < |s.made| ==> Tells(s.made[i], s.read))
    && (forall i :: 0 <= i < |s.outbox| ==> Tells(s.outbox[i], s.read))
  }

  ghost predicate Heard(p: Packet, heard: nat, consumed: nat) {
    heard <= p.told <= consumed && p.fwdCnt == Wrap32(p.told) && p.bufAlloc < M
  }

  /** The guest's packets say, in order, ever more consumed. */
  ghost predicate Ordered(s: State) {
    && (forall i :: 0 <= i < |s.inbox| ==> Heard(s.inbox[i], s.heard, s.consumed))
    && (forall i, j :: 0 <= i < j < |s.inbox| ==> s.inbox[i].told <= s.inbox[j].told)
  }

  function Handling(s: State): seq<Byte> { if s.handling.Some? then s.handling.value else [] }

  /** What the guest sent is what readers were given, what waits for them, and what is on its way. */
  ghost predicate Conserved(s: State) {
    && s.hostGot + s.h.incoming + Handling(s) + Bytes(s.inbox) == s.guestSent && |s.hostGot| == s.read
    && |s.guestSent| <= s.read + BUF_ALLOC
  }

  ghost predicate Inv(s: State) {
    Exact(s) && Honest(s) && Ordered(s) && Conserved(s)
  }
}

/** Flow control holds under every interleaving. */
module VsockProofs {
  import opened Vsock

  lemma {:induction false} SubExact(a: nat, b: nat)
    requires 0 <= a - b < M
    ensures Sub32(Wrap32(a), Wrap32(b)) == a - b
  {
  }

  lemma {:induction false} WrapAdd(x: int, n: int)
    ensures Wrap32(Wrap32(x) + n) == Wrap32(x + n)
  {
  }

  lemma {:induction false} BytesSnoc(ps: seq<Packet>, p: Packet)
    ensures Bytes(ps + [p]) == Bytes(ps) + p.payload && Size(ps + [p]) == Size(ps) + |p.payload|
  {
    assert (ps + [p])[..|ps|] == ps;
  }

  lemma {:induction false} BytesCons(ps: seq<Packet>)
    requires ps != []
    ensures Bytes(ps) == ps[0].payload + Bytes(ps[1..]) && Size(ps) == |ps[0].payload| + Size(ps[1..])
    decreases |ps|
  {
    if |ps| > 1 {
      var front := ps[..|ps| - 1];
      BytesCons(front);
      assert front[1..] == ps[1..][..|ps| - 2];
    } else {
      assert ps[..0] == [] && ps[1..] == [];
    }
  }

  lemma {:induction false} SizeRemove(ps: seq<Packet>, i: nat)
    requires i < |ps|
    ensures Size(ps) == Size(ps[..i] + ps[i + 1..]) + |ps[i].payload|
    decreases |ps|
  {
    var front := ps[..|ps| - 1];
    if i < |ps| - 1 {
      SizeRemove(front, i);
      BytesSnoc(front[..i] + front[i + 1..], ps[|ps| - 1]);
      assert ps[..i] + ps[i + 1..] == front[..i] + front[i + 1..] + [ps[|ps| - 1]];
    } else {
      assert ps[..i] + ps[i + 1..] == front;
    }
  }

  /** What the writer takes for used is what the guest has not said it consumed. */
  lemma {:induction false} UsedExact(s: State)
    requires Exact(s)
    ensures Sub32(s.h.bytesWritten, s.h.peerFwdCnt) == s.written - s.heard
  {
    SubExact(s.written, s.heard);
  }

  lemma {:induction false} ReadKeepsCounters(s: State, n: nat)
    requires Exact(s) && Conserved(s) && s.h.incoming != []
    ensures var take := Min(|s.h.incoming|, n);
      && |s.h.incoming| <= BUF_ALLOC
      && Wrap32(s.h.bytesRead + take) == Wrap32(s.read + take)
      && (CreditDue(s.h, n) <==> s.read + take - s.credited >= BUF_ALLOC / 4)
  {
    var take := Min(|s.h.incoming|, n);
    WrapAdd(s.read, take);
    SubExact(s.read + take, s.credited);
  }

  lemma {:induction false} ReadKeeps(s: State, n: nat)
    requires Inv(s) && s.h.incoming != []
    ensures Inv(Apply(s, HostRead(n)))
  {
    ReadKeepsExact(s, n);
    ReadKeepsHonest(s, n);
    ReadKeepsBytes(s, n);
  }

  lemma {:induction false} ReadKeepsExact(s: State, n: nat)
    requires Exact(s) && Conserved(s) && s.h.incoming != []
    ensures Exact(Apply(s, HostRead(n)))
  {
    ReadKeepsCounters(s, n);
    var read := s.read + Min(|s.h.incoming|, n);
    BytesSnoc(s.made, Packet([], BUF_ALLOC, Wrap32(read), read));
  }

  lemma {:induction false} ReadKeepsHonest(s: State, n: nat)
    requires Inv(s) && s.h.incoming != []
    ensures Honest(Apply(s, HostRead(n)))
  {
    ReadKeepsCounters(s, n);
  }

  lemma {:induction false} ReadKeepsBytes(s: State, n: nat)
    requires Inv(s) && s.h.incoming != []
    ensures Ordered(Apply(s, HostRead(n))) && Conserved(Apply(s, HostRead(n)))
  {
    var take := Min(|s.h.incoming|, n);
    Regrouped(s.hostGot, s.h.incoming[..take], s.h.incoming[take..], Handling(s), Bytes(s.inbox));
    assert s.h.incoming[..take] + s.h.incoming[take..] == s.h.incoming;
  }

  lemma {:induction false} Regrouped(a: seq<Byte>, b: seq<Byte>, c: seq<Byte>, d: seq<Byte>, e: seq<Byte>)
    ensures a + b + c + d + e == a + (b + c) + d + e && a + b + c + d + e == a + b + (c + d) + e
      && a + b + (c + d) + e == a + b + c + (d + e)
  {
  }

  lemma {:induction false} WriteKeeps(s: State, data: seq<Byte>)
    requires Inv(s) && Enabled(s, HostWrite(data))
    ensures Inv(Apply(s, HostWrite(data)))
  {
    var s' := Apply(s, HostWrite(data));
    UsedExact(s);
    WrapAdd(s.written, Chunk(s.h, |data|));
    BytesSnoc(s.made, s'.made[|s.made|]);
    assert Exact(s') && Honest(s') && Ordered(s') && Conserved(s');
  }

  /** A write stays within the buffer the guest last advertised, by what it last said it consumed. */
  lemma {:induction false} WriteWithinWindow(s: State, data: seq<Byte>)
    requires Inv(s) && Enabled(s, HostWrite(data))
    ensures var s' := Apply(s, HostWrite(data));
      s'.written - s'.consumed <= s'.written - s'.heard <= s'.h.peerBufAlloc && s'.written > s.written
  {
    UsedExact(s);
  }

  lemma {:induction false} CreditKeeps(s: State)
    requires Inv(s) && Enabled(s, HostCredit)
    ensures Inv(Apply(s, HostCredit))
  {
    assert Heard(s.inbox[0], s.heard, s.consumed);
    CreditKeepsOrder(s);
    CreditKeepsBytes(s);
  }

  lemma {:induction false} CreditKeepsOrder(s: State)
    requires Ordered(s) && Enabled(s, HostCredit)
    ensures Ordered(Apply(s, HostCredit))
  {
    var s' := Apply(s, HostCredit);
    forall i | 0 <= i < |s'.inbox| ensures Heard(s'.inbox[i], s'.heard, s'.consumed) {
      assert s'.inbox[i] == s.inbox[i + 1] && Heard(s.inbox[i + 1], s.heard, s.consumed);
    }
  }

  lemma {:induction false} CreditKeepsBytes(s: State)
    requires Conserved(s) && Enabled(s, HostCredit)
    ensures Conserved(Apply(s, HostCredit))
  {
    BytesCons(s.inbox);
    Regrouped(s.hostGot, s.h.incoming, s.inbox[0].payload, [], Bytes(s.inbox[1..]));
    assert s.hostGot + s.h.incoming + [] == s.hostGot + s.h.incoming;
    assert s.inbox[0].payload + [] == s.inbox[0].payload;
    Joined(s.hostGot + s.h.incoming, s.inbox[0].payload, Bytes(s.inbox[1..]));
  }

  lemma {:induction false} Joined(a: seq<Byte>, b: seq<Byte>, c: seq<Byte>)
    ensures a + (b + c) == a + b + c
  {
  }

  lemma {:induction false} EnqueueKeeps(s: State)
    requires Inv(s) && Enabled(s, HostEnqueue)
    ensures Inv(Apply(s, HostEnqueue))
  {
    var p := s.handling.value;
    Joined(s.hostGot, s.h.incoming, p);
    assert s.hostGot + (s.h.incoming + p) + [] == s.hostGot + (s.h.incoming + p);
  }

  lemma {:induction false} PushKeeps(s: State, i: nat)
    requires Inv(s) && i < |s.made|
    ensures Inv(Apply(s, Push(i)))
  {
    var s' := Apply(s, Push(i));
    SizeRemove(s.made, i);
    BytesSnoc(s.outbox, s.made[i]);
    assert Exact(s') && Honest(s') && Ordered(s') && Conserved(s');
  }

  lemma {:induction false} ReceiveKeeps(s: State)
    requires Inv(s) && s.outbox != []
    ensures Inv(Apply(s, GuestReceive))
  {
    BytesCons(s.outbox);
    assert Tells(s.outbox[0], s.read);
  }

  lemma {:induction false} TellKeeps(s: State)
    requires Inv(s)
    ensures Inv(Apply(s, HostTell))
  {
    BytesSnoc(s.made, Packet([], BUF_ALLOC, s.h.bytesRead, s.read));
  }

  lemma {:induction false} ConsumeKeeps(s: State, n: nat)
    requires Inv(s) && Enabled(s, GuestConsume(n))
    ensures Inv(Apply(s, GuestConsume(n)))
  {
    forall i | 0 <= i < |s.inbox| ensures Heard(s.inbox[i], s.heard, s.consumed + n) {
      assert Heard(s.inbox[i], s.heard, s.consumed);
    }
  }

  lemma {:induction false} SendKeeps(s: State, payload: seq<Byte>)
    requires Inv(s) && Enabled(s, GuestSend(payload))
    ensures Inv(Apply(s, GuestSend(payload)))
  {
    SendKeepsOrder(s, payload);
    SendKeepsBytes(s, payload);
  }

  lemma {:induction false} SendKeepsOrder(s: State, payload: seq<Byte>)
    requires Exact(s) && Ordered(s) && Enabled(s, GuestSend(payload))
    ensures Ordered(Apply(s, GuestSend(payload)))
  {
    var s' := Apply(s, GuestSend(payload));
    forall i | 0 <= i < |s'.inbox| ensures Heard(s'.inbox[i], s'.heard, s'.consumed) {
      if i < |s.inbox| { assert Heard(s.inbox[i], s.heard, s.consumed); }
    }
    forall i, j | 0 <= i < j < |s'.inbox| ensures s'.inbox[i].told <= s'.inbox[j].told {
      assert Heard(s.inbox[i], s.heard, s.consumed);
    }
  }

  lemma {:induction false} SendKeepsBytes(s: State, payload: seq<Byte>)
    requires Honest(s) && Conserved(s) && Enabled(s, GuestSend(payload))
    ensures Conserved(Apply(s, GuestSend(payload)))
  {
    BytesSnoc(s.inbox, Packet(payload, s.buf, Wrap32(s.consumed), s.consumed));
    Joined(s.hostGot + s.h.incoming + Handling(s), Bytes(s.inbox), payload);
  }

  lemma {:induction false} InvStep(s: State, step: Step)
    requires Inv(s) && Enabled(s, step)
    ensures Inv(Apply(s, step))
  {
    match step
    case HostRead(n) => ReadKeeps(s, n);
    case HostWrite(data) => WriteKeeps(s, data);
    case HostTell => TellKeeps(s);
    case Push(i) => PushKeeps(s, i);
    case HostCredit => CreditKeeps(s);
    case HostEnqueue => EnqueueKeeps(s);
    case GuestReceive => ReceiveKeeps(s);
    case GuestConsume(n) => ConsumeKeeps(s, n);
    case GuestResize(_) =>
    case GuestSend(payload) => SendKeeps(s, payload);
  }

  predicate Init(s: State) {
    && s.buf < M && s.h.peerBufAlloc < M
    && s == State(Host([], 0, 0, 0, s.h.peerBufAlloc, 0), 0, 0, 0, 0, [], [], [], 0, 0, 0, s.buf, [], [], None)
  }

  predicate IsRun(s: State, steps: seq<Step>)
    decreases |steps|
  {
    steps == [] || (Enabled(s, steps[0]) && IsRun(Apply(s, steps[0]), steps[1..]))
  }

  function Exec(s: State, steps: seq<Step>): State
    requires IsRun(s, steps)
    decreases |steps|
  {
    if steps == [] then s else Exec(Apply(s, steps[0]), steps[1..])
  }

  lemma {:induction false} RunKeeps(s: State, steps: seq<Step>)
    requires Inv(s) && IsRun(s, steps)
    ensures Inv(Exec(s, steps))
    decreases |steps|
  {
    if steps != [] {
      InvStep(s, steps[0]);
      RunKeeps(Apply(s, steps[0]), steps[1..]);
    }
  }

  /**
   In every run: the buffer for what the guest sends never overflows; every fwd_cnt on its way claims at
   most what readers took, and less than a quarter buffer of that is unreported; readers get the guest's
   bytes in order, none lost; the wrapping subtraction of the writer is exact.
   */
  lemma {:induction false} FlowControl(s0: State, steps: seq<Step>)
    requires Init(s0) && IsRun(s0, steps)
    ensures var s := Exec(s0, steps);
      && |s.h.incoming| <= BUF_ALLOC
      && s.hostGot + s.h.incoming <= s.guestSent
      && (forall i :: 0 <= i < |s.outbox| ==> Tells(s.outbox[i], |s.hostGot|))
      && |s.hostGot| - s.credited < BUF_ALLOC / 4
      && Sub32(s.h.bytesWritten, s.h.peerFwdCnt) == s.written - s.heard
      && s.heard <= s.consumed <= s.got <= s.written
  {
    RunKeeps(s0, steps);
    UsedExact(Exec(s0, steps));
  }

  // ---- the guest's buffer ---------------------------------------------------------------------------

  /** What is unconsumed, as far as the host knows, fits the buffer the host last heard of. */
  predicate Within(s: State) { s.written - s.heard <= s.h.peerBufAlloc }

  /** The packet about to be heard leaves room for what was written. */
  predicate Fits(s: State)
    requires s.inbox != []
  {
    s.written - s.inbox[0].told <= s.inbox[0].bufAlloc
  }

  /** It stays so at every step but one: hearing of a buffer too small for what is on its way. */
  lemma {:induction false} WithinStep(s: State, step: Step)
    requires Inv(s) && Enabled(s, step) && Within(s)
    ensures Within(Apply(s, step)) <==> (step.HostCredit? ==> Fits(s))
  {
    if step.HostWrite? { UsedExact(s); }
  }

  /** In every state of a run. */
  predicate AlwaysWithin(s: State, steps: seq<Step>)
    requires IsRun(s, steps)
    decreases |steps|
  {
    Within(s) && (steps != [] ==> AlwaysWithin(Apply(s, steps[0]), steps[1..]))
  }

  /** At every packet heard in a run. */
  predicate AlwaysFits(s: State, steps: seq<Step>)
    requires IsRun(s, steps)
    decreases |steps|
  {
    steps != [] ==> (steps[0].HostCredit? ==> Fits(s)) && AlwaysFits(Apply(s, steps[0]), steps[1..])
  }

  /** No more is outstanding than the buffer last heard of, all through, exactly if every packet heard left room. */
  lemma {:induction false} WithinExactly(s: State, steps: seq<Step>)
    requires Inv(s) && IsRun(s, steps) && Within(s)
    ensures AlwaysWithin(s, steps) <==> AlwaysFits(s, steps)
    decreases |steps|
  {
    if steps != [] {
      InvStep(s, steps[0]);
      WithinStep(s, steps[0]);
      if Within(Apply(s, steps[0])) { WithinExactly(Apply(s, steps[0]), steps[1..]); }
    }
  }

  /** A guest that never makes its buffer smaller. */
  predicate NeverShrinks(s: State, steps: seq<Step>)
    requires IsRun(s, steps)
    decreases |steps|
  {
    steps != [] ==> (steps[0].GuestResize? ==> steps[0].buf >= s.buf) && NeverShrinks(Apply(s, steps[0]), steps[1..])
  }

  /** Advertisements in the order they were made, each no smaller than those before. */
  ghost predicate Growing(s: State) {
    && s.h.peerBufAlloc <= s.buf
    && (forall i :: 0 <= i < |s.inbox| ==> Advertises(s.inbox[i], s.h.peerBufAlloc, s.buf))
    && (forall i, j :: 0 <= i < j < |s.inbox| ==> s.inbox[i].bufAlloc <= s.inbox[j].bufAlloc)
  }

  ghost predicate Advertises(p: Packet, least: nat, most: nat) { least <= p.bufAlloc <= most }

  lemma {:induction false} GrowingStep(s: State, step: Step)
    requires Growing(s) && Enabled(s, step) && (step.GuestResize? ==> step.buf >= s.buf)
    ensures Growing(Apply(s, step))
  {
    match step
    case HostCredit => GrowingCredit(s);
    case GuestSend(payload) => GrowingSend(s, payload);
    case GuestResize(buf) =>
      forall i | 0 <= i < |s.inbox| ensures Advertises(s.inbox[i], s.h.peerBufAlloc, buf) {
        assert Advertises(s.inbox[i], s.h.peerBufAlloc, s.buf);
      }
    case _ =>
  }

  lemma {:induction false} GrowingCredit(s: State)
    requires Growing(s) && Enabled(s, HostCredit)
    ensures Growing(Apply(s, HostCredit))
  {
    var s' := Apply(s, HostCredit);
    assert Advertises(s.inbox[0], s.h.peerBufAlloc, s.buf);
    forall i | 0 <= i < |s'.inbox| ensures Advertises(s'.inbox[i], s'.h.peerBufAlloc, s'.buf) {
      assert s'.inbox[i] == s.inbox[i + 1] && Advertises(s.inbox[i + 1], s.h.peerBufAlloc, s.buf);
    }
  }

  lemma {:induction false} GrowingSend(s: State, payload: seq<Byte>)
    requires Growing(s) && Enabled(s, GuestSend(payload))
    ensures Growing(Apply(s, GuestSend(payload)))
  {
    var s' := Apply(s, GuestSend(payload));
    forall i | 0 <= i < |s'.inbox| ensures Advertises(s'.inbox[i], s'.h.peerBufAlloc, s'.buf) {
      if i < |s.inbox| { assert Advertises(s.inbox[i], s.h.peerBufAlloc, s.buf); }
    }
    forall i, j | 0 <= i < j < |s'.inbox| ensures s'.inbox[i].bufAlloc <= s'.inbox[j].bufAlloc {
      assert Advertises(s.inbox[i], s.h.peerBufAlloc, s.buf);
    }
  }

  /**
   Over any run of a guest that never makes its buffer smaller, the host has no more unconsumed bytes
   outstanding than the buffer the guest last advertised to it.
   */
  lemma {:induction false} GuestNeverOverrun(s: State, steps: seq<Step>)
    requires Inv(s) && IsRun(s, steps) && Within(s) && Growing(s) && NeverShrinks(s, steps)
    ensures var s' := Exec(s, steps); s'.written - s'.consumed <= s'.written - s'.heard <= s'.h.peerBufAlloc <= s'.buf
    decreases |steps|
  {
    if steps == [] {
      assert Exact(s);
    } else {
      RoomFor(s, steps[0]);
      InvStep(s, steps[0]);
      WithinStep(s, steps[0]);
      GrowingStep(s, steps[0]);
      GuestNeverOverrun(Apply(s, steps[0]), steps[1..]);
    }
  }

  lemma {:induction false} RoomFor(s: State, step: Step)
    requires Ordered(s) && Within(s) && Growing(s) && Enabled(s, step)
    ensures step.HostCredit? ==> Fits(s)
  {
    if step.HostCredit? {
      assert Heard(s.inbox[0], s.heard, s.consumed) && Advertises(s.inbox[0], s.h.peerBufAlloc, s.buf);
    }
  }

  /** A new connection starts so, if what the host takes the guest's buffer for is no more than it is. */
  lemma {:induction false} InitWithin(s: State)
    requires Init(s)
    ensures Inv(s) && Within(s) && (s.h.peerBufAlloc <= s.buf ==> Growing(s))
  {
  }

  lemma {:induction false} ExecCons(s: State, step: Step, rest: seq<Step>)
    requires Enabled(s, step) && IsRun(Apply(s, step), rest)
    ensures IsRun(s, [step] + rest) && Exec(s, [step] + rest) == Exec(Apply(s, step), rest)
  {
    assert ([step] + rest)[1..] == rest;
  }

  // ---- what packets carry ----------------------------------------------------------------------------

  /** Bytes on their way to the guest, those queued first. */
  function OnTheirWay(s: State): seq<Byte> { Bytes(s.outbox) + Bytes(s.made) }

  /** What a step of a writer took of its data, by the host's own count. */
  function WrittenNow(s: State, step: Step): seq<Byte>
    requires Enabled(s, step)
  {
    if step.HostWrite? && 0 <= Apply(s, step).written - s.written <= |step.data|
      then step.data[..Apply(s, step).written - s.written] else []
  }

  /** What the guest is given in a step. */
  function GivenNow(s: State, step: Step): seq<Byte>
    requires Enabled(s, step)
  {
    if step.GuestReceive? then s.outbox[0].payload else []
  }

  function WrittenIn(s: State, steps: seq<Step>): seq<Byte>
    requires IsRun(s, steps)
    decreases |steps|
  {
    if steps == [] then [] else WrittenNow(s, steps[0]) + WrittenIn(Apply(s, steps[0]), steps[1..])
  }

  function GivenIn(s: State, steps: seq<Step>): seq<Byte>
    requires IsRun(s, steps)
    decreases |steps|
  {
    if steps == [] then [] else GivenNow(s, steps[0]) + GivenIn(Apply(s, steps[0]), steps[1..])
  }

  /** Packets reach the queue in the order their counters were taken, as those of one writing thread do. */
  predicate PushesInOrder(steps: seq<Step>) { forall k :: 0 <= k < |steps| && steps[k].Push? ==> steps[k].i == 0 }

  lemma {:induction false} Reassociate(a: seq<Byte>, b: seq<Byte>, c: seq<Byte>)
    ensures a + (b + c) == a + b + c
  {
  }

  lemma {:induction false} WriteAdds(s: State, data: seq<Byte>)
    requires Enabled(s, HostWrite(data))
    ensures OnTheirWay(Apply(s, HostWrite(data))) == OnTheirWay(s) + WrittenNow(s, HostWrite(data))
  {
    var p := Packet(data[..Chunk(s.h, |data|)], BUF_ALLOC, s.h.bytesRead, s.read);
    BytesSnoc(s.made, p);
    Reassociate(Bytes(s.outbox), Bytes(s.made), p.payload);
  }

  lemma {:induction false} PushFirst(s: State)
    requires s.made != []
    ensures OnTheirWay(Apply(s, Push(0))) == OnTheirWay(s)
  {
    BytesSnoc(s.outbox, s.made[0]);
    BytesCons(s.made);
    assert s.made[..0] + s.made[1..] == s.made[1..];
    Reassociate(Bytes(s.outbox), s.made[0].payload, Bytes(s.made[1..]));
  }

  lemma {:induction false} ReceiveFirst(s: State)
    requires s.outbox != []
    ensures s.outbox[0].payload + OnTheirWay(Apply(s, GuestReceive)) == OnTheirWay(s)
  {
    BytesCons(s.outbox);
    Reassociate(s.outbox[0].payload, Bytes(s.outbox[1..]), Bytes(s.made));
  }

  lemma {:induction false} TellAdds(s: State, p: Packet)
    requires p.payload == []
    ensures Bytes(s.outbox) + Bytes(s.made + [p]) == OnTheirWay(s)
  {
    BytesSnoc(s.made, p);
    assert Bytes(s.made) + [] == Bytes(s.made);
  }

  lemma {:induction false} StepInOrder(s: State, step: Step)
    requires Enabled(s, step) && (step.Push? ==> step.i == 0)
    ensures GivenNow(s, step) + OnTheirWay(Apply(s, step)) == OnTheirWay(s) + WrittenNow(s, step)
  {
    match step
    case HostWrite(data) => WriteAdds(s, data);
    case Push(_) => PushFirst(s);
    case GuestReceive => ReceiveFirst(s);
    case HostTell => TellAdds(s, Packet([], BUF_ALLOC, s.h.bytesRead, s.read));
    case HostRead(n) =>
      var take := Min(|s.h.incoming|, n);
      TellAdds(s, Packet([], BUF_ALLOC, Taken(s.h, n).bytesRead, s.read + take));
    case _ =>
  }

  /**
   Host to guest, over any run in which packets reach the queue in order: what the guest was given and what is on its
   way are what was on its way and what writers wrote, every byte once and in order.
   */
  lemma {:induction false} HostBytesInOrder(s: State, steps: seq<Step>)
    requires IsRun(s, steps) && PushesInOrder(steps)
    ensures GivenIn(s, steps) + OnTheirWay(Exec(s, steps)) == OnTheirWay(s) + WrittenIn(s, steps)
    decreases |steps|
  {
    if steps == [] {
      assert [] + OnTheirWay(s) == OnTheirWay(s) + [];
    } else {
      var s', rest := Apply(s, steps[0]), steps[1..];
      StepInOrder(s, steps[0]);
      HostBytesInOrder(s', rest);
      Rejoin(GivenNow(s, steps[0]), GivenIn(s', rest), OnTheirWay(Exec(s', rest)), OnTheirWay(s'), WrittenIn(s', rest),
        OnTheirWay(s), WrittenNow(s, steps[0]));
    }
  }

  lemma {:induction false} Rejoin(g: seq<Byte>, more: seq<Byte>, end: seq<Byte>, mid: seq<Byte>, later: seq<Byte>,
      start: seq<Byte>, now: seq<Byte>)
    requires g + mid == start + now && more + end == mid + later
    ensures g + more + end == start + (now + later)
  {
    assert g + more + end == g + (more + end) == g + mid + later == start + now + later == start + (now + later);
  }

  /** How often each byte comes. */
  function Bag(b: seq<Byte>): multiset<Byte> { multiset(b) }

  lemma {:induction false} BagOf(a: seq<Byte>, b: seq<Byte>)
    ensures Bag(a + b) == Bag(a) + Bag(b)
  {
  }

  lemma {:induction false} BytesJoin(a: seq<Packet>, b: seq<Packet>)
    ensures Bytes(a + b) == Bytes(a) + Bytes(b)
    decreases |b|
  {
    if b == [] {
      assert a + b == a && Bytes(a) + [] == Bytes(a);
    } else {
      var front, last := b[..|b| - 1], b[|b| - 1];
      BytesJoin(a, front);
      BytesSnoc(a + front, last);
      assert a + b == a + front + [last];
      Reassociate(Bytes(a), Bytes(front), last.payload);
    }
  }

  lemma {:induction false} BagMiddle(a: seq<Byte>, p: seq<Byte>, b: seq<Byte>)
    ensures Bag(a + p + b) == Bag(a + b) + Bag(p)
  {
  }

  lemma {:induction false} BytesRemove(ps: seq<Packet>, i: nat)
    requires i < |ps|
    ensures Bag(Bytes(ps)) == Bag(Bytes(ps[..i] + ps[i + 1..])) + Bag(ps[i].payload)
  {
    var a, b := ps[..i], ps[i + 1..];
    assert ps == a + [ps[i]] + b;
    BytesJoin(a + [ps[i]], b);
    BytesJoin(a, b);
    BytesSnoc(a, ps[i]);
    BagMiddle(Bytes(a), ps[i].payload, Bytes(b));
  }

  lemma {:induction false} StepConserves(s: State, step: Step)
    requires Enabled(s, step)
    ensures Bag(GivenNow(s, step)) + Bag(OnTheirWay(Apply(s, step))) == Bag(OnTheirWay(s)) + Bag(WrittenNow(s, step))
  {
    BagOf(GivenNow(s, step), OnTheirWay(Apply(s, step)));
    BagOf(OnTheirWay(s), WrittenNow(s, step));
    if step.Push? && step.i != 0 {
      PushConserves(s, step.i);
    } else {
      StepInOrder(s, step);
    }
  }

  lemma {:induction false} PushConserves(s: State, i: nat)
    requires i < |s.made|
    ensures Bag(OnTheirWay(Apply(s, Push(i)))) == Bag(OnTheirWay(s))
  {
    var s' := Apply(s, Push(i));
    BytesRemove(s.made, i);
    BytesSnoc(s.outbox, s.made[i]);
    BagOf(Bytes(s.outbox), s.made[i].payload);
    BagOf(Bytes(s.outbox), Bytes(s.made));
    BagOf(Bytes(s'.outbox), Bytes(s'.made));
  }

  lemma {:induction false} RejoinBags(g: multiset<Byte>, more: multiset<Byte>, end: multiset<Byte>, mid: multiset<Byte>,
      later: multiset<Byte>, start: multiset<Byte>, now: multiset<Byte>)
    requires g + mid == start + now && more + end == mid + later
    ensures g + more + end == start + (now + later)
  {
    assert g + more + end == g + (more + end) == g + mid + later;
  }

  /** Over any run at all, no byte is lost, made up or given twice. */
  lemma {:induction false} HostBytesConserved(s: State, steps: seq<Step>)
    requires IsRun(s, steps)
    ensures Bag(GivenIn(s, steps)) + Bag(OnTheirWay(Exec(s, steps))) == Bag(OnTheirWay(s)) + Bag(WrittenIn(s, steps))
    decreases |steps|
  {
    if steps != [] {
      var s', rest := Apply(s, steps[0]), steps[1..];
      StepConserves(s, steps[0]);
      HostBytesConserved(s', rest);
      BagOf(GivenNow(s, steps[0]), GivenIn(s', rest));
      BagOf(WrittenNow(s, steps[0]), WrittenIn(s', rest));
      RejoinBags(Bag(GivenNow(s, steps[0])), Bag(GivenIn(s', rest)), Bag(OnTheirWay(Exec(s', rest))),
        Bag(OnTheirWay(s')), Bag(WrittenIn(s', rest)), Bag(OnTheirWay(s)), Bag(WrittenNow(s, steps[0])));
    }
  }

  /** A write takes as much as there is, the guest has room for and one packet holds, and says what was read. */
  lemma {:induction false} WriteTakesMost(s: State, data: seq<Byte>)
    requires Inv(s) && Enabled(s, HostWrite(data))
    ensures var s' := Apply(s, HostWrite(data)); var take := s'.written - s.written;
      && 0 < take <= 2048 && take <= |data| && take <= s.h.peerBufAlloc - (s.written - s.heard)
      && (take == 2048 || take == |data| || take == s.h.peerBufAlloc - (s.written - s.heard))
      && s'.made == s.made + [Packet(data[..take], 0x40000, Wrap32(s.read), s.read)]
  {
    UsedExact(s);
  }

  /** A read takes all there is room for, and an update goes out exactly when 64 KiB were read since the last. */
  lemma {:induction false} ReadTakesMost(s: State, n: nat)
    requires Inv(s) && Enabled(s, HostRead(n))
    ensures var s' := Apply(s, HostRead(n)); var take := s'.read - s.read;
      && 0 <= take <= n && take <= |s.h.incoming| && (take == n || take == |s.h.incoming|)
      && s'.hostGot == s.hostGot + s.h.incoming[..take] && s'.h.incoming == s.h.incoming[take..]
      && if s'.read - s.credited >= 0x10000
         then s'.made == s.made + [Packet([], 0x40000, Wrap32(s'.read), s'.read)] && s'.credited == s'.read
         else s'.made == s.made && s'.credited == s.credited
  {
    var take := Min(|s.h.incoming|, n);
    WrapAdd(s.read, take);
    SubExact(s.read + take, s.credited);
  }

  /** More outstanding, at the end of a run, than the guest's buffer and than the host has heard of. */
  predicate Overruns(s: State, steps: seq<Step>) {
    && Init(s) && s.h.peerBufAlloc <= s.buf && IsRun(s, steps)
    && !Within(Exec(s, steps)) && Exec(s, steps).written - Exec(s, steps).consumed > Exec(s, steps).buf
  }

  /** A guest that shrinks its buffer: five bytes are written, and then a buffer of one is heard of. */
  lemma {:induction false} ShrinkingOverruns()
    ensures exists s: State, steps: seq<Step> :: Overruns(s, steps)
  {
    var s0 := State(Host([], 0, 0, 0, 8, 0), 0, 0, 0, 0, [], [], [], 0, 0, 0, 8, [], [], None);
    var write, resize, send := HostWrite([1, 2, 3, 4, 5]), GuestResize(1), GuestSend([]);
    assert Available(s0.h) == 8 && Chunk(s0.h, 5) == 5;
    var s1 := Apply(s0, write);
    var s2 := Apply(s1, resize);
    var s3 := Apply(s2, send);
    var s4 := Apply(s3, HostCredit);
    assert s4.written == 5 && s4.consumed == 0 && s4.buf == 1 && s4.h.peerBufAlloc == 1;
    var none: seq<Step> := [];
    ExecCons(s3, HostCredit, none);
    ExecCons(s2, send, [HostCredit] + none);
    ExecCons(s1, resize, [send] + ([HostCredit] + none));
    ExecCons(s0, write, [resize] + ([send] + ([HostCredit] + none)));
    assert Overruns(s0, [write] + ([resize] + ([send] + ([HostCredit] + none))));
  }
}

/** A connection's state as the host's threads update it, each method under its lock. */
module VsockConnection {
  import opened Vsock

  class ConnectionState {
    var incoming: seq<Byte>
    var bytesRead: nat
    var credited: nat
    var bytesWritten: nat
    var peerBufAlloc: nat
    var peerFwdCnt: nat

    ghost function Value(): Host
      reads this
    {
      Host(incoming, bytesRead, credited, bytesWritten, peerBufAlloc, peerFwdCnt)
    }

    constructor ()
      ensures Value() == Host([], 0, 0, 0, BUF_ALLOC, 0)
    {
      incoming, bytesRead, credited, bytesWritten, peerBufAlloc, peerFwdCnt := [], 0, 0, 0, BUF_ALLOC, 0;
    }

    /** VsockStream::read, once something has arrived: fills the buffer, and says what credit to send. */
    method Read(buffer: array<Byte>) returns (take: nat, credit: bool, fwdCnt: nat)
      requires incoming != []
      modifies this`incoming, this`bytesRead, this`credited, buffer
      ensures Value() == Taken(old(Value()), buffer.Length) && credit == CreditDue(old(Value()), buffer.Length)
      ensures take == Min(|old(incoming)|, buffer.Length) && fwdCnt == bytesRead
      ensures buffer[..take] == old(incoming)[..take] && buffer[take..] == old(buffer[take..])
    {
      take := Min(|incoming|, buffer.Length);
      for i := 0 to take
        invariant Value() == old(Value()).(incoming := old(incoming)[i..])
        invariant buffer[..i] == old(incoming)[..i]
        invariant forall k :: i <= k < buffer.Length ==> buffer[k] == old(buffer[k])
      {
        buffer[i] := incoming[0];
        incoming := incoming[1..];
      }
      bytesRead := Wrap32(bytesRead + take);
      credit := Sub32(bytesRead, credited) >= BUF_ALLOC / 4;
      if credit { credited := bytesRead; }
      fwdCnt := bytesRead;
    }

    /** One turn of write_all: bytes reserved for a packet, or none while the guest's window is full. */
    method Reserve(left: nat) returns (take: nat, fwdCnt: nat)
      modifies this`bytesWritten
      ensures Value() == Reserved(old(Value()), left) && take == Chunk(old(Value()), left) && fwdCnt == bytesRead
    {
      var used := Sub32(bytesWritten, peerFwdCnt);
      var available := if peerBufAlloc > used then peerBufAlloc - used else 0;
      take := Min(Min(available, MAX_PAYLOAD), left);
      bytesWritten := Wrap32(bytesWritten + take);
      fwdCnt := bytesRead;
    }

    /** What a packet says of the guest's buffer and of what it consumed. */
    method UpdateCredit(bufAlloc: nat, fwdCnt: nat)
      modifies this`peerBufAlloc, this`peerFwdCnt
      ensures Value() == Credit(old(Value()), bufAlloc, fwdCnt)
    {
      peerBufAlloc, peerFwdCnt := bufAlloc, fwdCnt;
    }

    /** A packet's payload, the lock taken again: nothing that was there is lost or reordered. */
    method Enqueue(payload: seq<Byte>)
      modifies this`incoming
      ensures Value() == Enqueued(old(Value()), payload)
    {
      if payload == [] {
        assert incoming + [] == incoming;
        return;
      }
      incoming := incoming + payload;
    }
  }
}
