/**
 A packed virtqueue (engine/src/virtio.rs) as the guest's driver and the host's device share it,
 with the driver of section 2.7 of VirtIO 1.1: any ring size, chains of any length that fits, chains
 that straddle the end of the ring, buffers given back in any order.

 The device's cursors are a ring index and a wrap flag. The proofs follow positions instead: the
 unbounded count of slots ever passed, whose residue is the index and whose lap parity is the flag.
 */
module PackedRing {

  const MAX_QUEUE: nat := 0x8000

  datatype Option<+T> = None | Some(value: T)

  /** A descriptor, its flag bits told apart. */
  datatype Descriptor = Descriptor(address: nat, length: nat, id: nat, next: bool, writable: bool, indirect: bool,
    avail: bool, used: bool) {
    /** What the device takes: available in the lap its wrap flag says. */
    predicate Ready(wrap: bool) { avail != used && avail == wrap }

    /** What the driver takes back: used in the lap its own wrap flag says. */
    predicate Done(wrap: bool) { avail == wrap && used == wrap }

    /** The descriptor as the driver makes it available. */
    function Offered(wrap: bool): Descriptor { this.(avail := wrap, used := !wrap) }
  }

  // ---- positions ------------------------------------------------------------------------------
  // Counted from one lap before the start, so that a slot never written is one of that lap.

  /** The ring index of position `x`. */
  function Slot(size: nat, x: nat): (r: nat)
    requires size > 0
    ensures r < size
  {
    if x == 0 then 0 else BumpIndex(size, Slot(size, x - 1))
  }

  /** The wrap flag of position `x`: it turns every lap, and is true in the first real one. */
  predicate Wrap(size: nat, x: nat)
    requires size > 0
  {
    x != 0 && BumpWrap(size, Slot(size, x - 1), Wrap(size, x - 1))
  }

  function BumpIndex(size: nat, index: nat): nat {
    if index + 1 >= size then 0 else index + 1
  }

  predicate BumpWrap(size: nat, index: nat, wrap: bool) {
    if index + 1 >= size then !wrap else wrap
  }

  /** Index and flag are the residue and the lap parity of the position. */
  lemma {:induction false} ResidueAndParity(size: nat, x: nat)
    requires size > 0
    ensures Slot(size, x) == x % size && Wrap(size, x) == ((x / size) % 2 == 1)
  {
    if x == 0 {
      DivModUnique(0, size, 0, 0);
    } else {
      ResidueAndParity(size, x - 1);
      NextDivMod(size, x - 1);
    }
  }

  lemma {:induction false} NextDivMod(size: nat, y: nat)
    requires size > 0
    ensures if y % size + 1 == size then (y + 1) % size == 0 && (y + 1) / size == y / size + 1
            else (y + 1) % size == y % size + 1 && (y + 1) / size == y / size
  {
    NextOf(size, y, y / size, y % size);
  }

  lemma {:induction false} NextOf(size: nat, y: nat, q: nat, r: nat)
    requires size > 0 && y == q * size + r && r < size
    ensures if r + 1 == size then (y + 1) % size == 0 && (y + 1) / size == q + 1
      else (y + 1) % size == r + 1 && (y + 1) / size == q
  {
    if r + 1 == size {
      assert y + 1 == (q + 1) * size;
      DivModUnique(y + 1, size, q + 1, 0);
    } else {
      DivModUnique(y + 1, size, q, r + 1);
    }
  }

  lemma {:induction false} MultipleOf(d: int, size: nat)
    requires size > 0
    ensures d >= 1 ==> d * size >= size
    ensures d <= -1 ==> d * size <= 0 - size
  {
    if d >= 1 {
      assert d * size == size + (d - 1) * size;
    } else if d <= -1 {
      assert d * size == (0 - size) + (d + 1) * size;
    }
  }

  lemma {:induction false} DivModUnique(x: nat, size: nat, q: nat, r: nat)
    requires size > 0 && r < size && x == q * size + r
    ensures x / size == q && x % size == r
  {
    var d := x / size - q;
    assert x == (x / size) * size + x % size;
    assert d * size == r - x % size;
    assert d == 0 by {
      MultipleOf(d, size);
    }
  }

  /** Moving on by up to a lap crosses the end of the ring at most once. */
  lemma {:induction false} Jump(size: nat, x: nat, k: nat)
    requires size > 0 && k <= size
    ensures Slot(size, x + k) == if Slot(size, x) + k >= size then Slot(size, x) + k - size else Slot(size, x) + k
    ensures Wrap(size, x + k) == (Wrap(size, x) != (Slot(size, x) + k >= size))
    decreases k
  {
    if k > 0 { Jump(size, x, k - 1); }
  }

  /** A lap later: the same slot, the other flag. */
  lemma {:induction false} Lap(size: nat, x: nat)
    requires size > 0
    ensures Slot(size, x + size) == Slot(size, x) && Wrap(size, x + size) != Wrap(size, x)
  {
    Jump(size, x, size);
  }

  lemma {:induction false} Apart(size: nat, x: nat, y: nat)
    requires size > 0 && x < y < x + size
    ensures Slot(size, x) != Slot(size, y)
  {
    Jump(size, x, y - x);
  }

  // ---- the device's loop, as a function --------------------------------------------------------

  datatype Taken = Taken(descs: seq<Descriptor>, index: nat, wrap: bool)

  /** The descriptors a pop walks, from a cursor, over at most `left` slots. */
  function TakeChain(ring: seq<Descriptor>, index: nat, wrap: bool, left: nat): (r: Option<Taken>)
    requires index < |ring|
    ensures r.Some? ==> 0 < |r.value.descs| <= left && r.value.index < |ring|
    decreases left
  {
    if left == 0 || !ring[index].Ready(wrap) then None
    else
      var i, w := BumpIndex(|ring|, index), BumpWrap(|ring|, index, wrap);
      if !ring[index].next then Some(Taken([ring[index]], i, w))
      else
        var rest := TakeChain(ring, i, w, left - 1);
        if rest.None? then None else Some(Taken([ring[index]] + rest.value.descs, rest.value.index, rest.value.wrap))
  }

  // ---- driver and device together ---------------------------------------------------------------

  type Chain = seq<Descriptor>

  /** A buffer a driver may publish: linked by NEXT up to its last descriptor, its ids whatever they are. */
  predicate IsChain(c: Chain) {
    0 < |c| && forall k :: 0 <= k < |c| ==> LinkOk(c, k)
  }

  predicate LinkOk(c: Chain, k: nat)
    requires k < |c|
  {
    c[k].next <==> k + 1 < |c|
  }

  /** The slots of the first `n` buffers. */
  function LenTo(cs: seq<Chain>, n: nat): nat
    requires n <= |cs|
  {
    if n == 0 then 0 else LenTo(cs, n - 1) + |cs[n - 1]|
  }

  predicate InRange(cs: seq<Chain>, ns: seq<nat>) {
    forall k :: 0 <= k < |ns| ==> ns[k] < |cs|
  }

  /** The slots of the first `n` of the buffers numbered `ns`. */
  function TotalTo(cs: seq<Chain>, ns: seq<nat>, n: nat): nat
    requires InRange(cs, ns) && n <= |ns|
  {
    if n == 0 then 0 else TotalTo(cs, ns, n - 1) + |cs[ns[n - 1]]|
  }

  function Iota(n: nat): (r: seq<nat>)
    ensures |r| == n && forall k :: 0 <= k < n ==> r[k] == k
  {
    seq(n, k => k)
  }

  /**
   Both sides. `published` are the buffers the driver ever offered; `pending` one whose descriptors
   after the first are written, but not yet the first. Of the `popped` ones, `held` are with the
   device, `done` were given back, in that order; the driver took back the first `reclaimed`.
   */
  datatype State = State(
    ring: seq<Descriptor>,
    availIndex: nat, availWrap: bool, usedIndex: nat, usedWrap: bool,
    published: seq<Chain>, pending: Chain, popped: nat, held: seq<nat>, done: seq<nat>, reclaimed: nat)
  {
    ghost predicate Numbered() {
      && popped <= |published| && reclaimed <= |done|
      && InRange(published, done) && InRange(published, held)
    }

    /** Positions: what was offered, popped, given back and taken back, counted in slots. */
    ghost function Offer(): nat { |ring| + LenTo(published, |published|) }
    ghost function Pop(): nat requires Numbered() { |ring| + LenTo(published, popped) }
    ghost function Use(): nat requires Numbered() { |ring| + TotalTo(published, done, |done|) }
    ghost function Reclaim(): nat requires Numbered() { |ring| + TotalTo(published, done, reclaimed) }
  }

  // The conjuncts are kept apart, so that each proof sees the ones it is about.

  ghost predicate Shape(s: State) {
    && 0 < |s.ring| <= MAX_QUEUE
    && s.Numbered()
    && (forall k :: 0 <= k < |s.published| ==> IsChain(s.published[k]) && |s.published[k]| <= |s.ring|)
    && (s.pending != [] ==> IsChain(s.pending) && |s.pending| <= |s.ring|)
  }

  /** Every popped buffer is either still held or was given back, once. */
  ghost predicate Distributed(s: State) {
    multiset(s.done) + multiset(s.held) == multiset(Iota(s.popped))
  }

  ghost predicate Counts(s: State)
    requires Shape(s)
  {
    && s.Use() + TotalTo(s.published, s.held, |s.held|) == s.Pop() <= s.Offer()
    && s.Reclaim() <= s.Use()
    && s.Offer() + |s.pending| <= s.Reclaim() + |s.ring|
  }

  ghost predicate Cursors(s: State)
    requires Shape(s)
  {
    && s.availIndex == Slot(|s.ring|, s.Pop()) && s.availWrap == Wrap(|s.ring|, s.Pop())
    && s.usedIndex == Slot(|s.ring|, s.Use()) && s.usedWrap == Wrap(|s.ring|, s.Use())
  }

  /** AVAIL is the lap parity of the position a slot was last written for, stale or not. */
  ghost predicate ParityAt(ring: seq<Descriptor>, x: nat)
    requires |ring| > 0
  {
    ring[Slot(|ring|, x)].avail == Wrap(|ring|, x)
  }

  ghost predicate Parity(s: State)
    requires Shape(s)
  {
    forall x: nat ::
      (s.Offer() + |s.pending| <= x + |s.ring| && x < s.Offer()) || x + |s.ring| == s.Offer() ==> ParityAt(s.ring, x)
  }

  /** Not yet given back. */
  ghost predicate UnusedAt(ring: seq<Descriptor>, x: nat)
    requires |ring| > 0
  {
    ring[Slot(|ring|, x)].used == !Wrap(|ring|, x)
  }

  ghost predicate NotUsed(s: State)
    requires Shape(s)
  {
    forall x: nat :: s.Use() <= x < s.Offer() ==> UnusedAt(s.ring, x)
  }

  /** The positions from `x` on hold the descriptors of `c`, from its `from`-th, as the driver offers them. */
  ghost predicate ChainAt(ring: seq<Descriptor>, x: nat, c: Chain, from: nat)
    requires |ring| > 0
  {
    forall j: nat :: from <= j < |c| ==> OfferedAt(ring, x, c, j)
  }

  ghost predicate OfferedAt(ring: seq<Descriptor>, x: nat, c: Chain, j: nat)
    requires |ring| > 0 && j < |c|
  {
    ring[Slot(|ring|, x + j)] == c[j].Offered(Wrap(|ring|, x + j))
  }

  ghost predicate WaitingAt(s: State, k: nat)
    requires Shape(s) && k < |s.published|
  {
    ChainAt(s.ring, |s.ring| + LenTo(s.published, k), s.published[k], 0)
  }

  ghost predicate Contents(s: State)
    requires Shape(s)
  {
    && (forall k: nat :: s.popped <= k < |s.published| ==> WaitingAt(s, k))
    && ChainAt(s.ring, s.Offer(), s.pending, 1)
  }

  /** Where the `j`-th completion is written. */
  ghost function StartOf(s: State, j: nat): nat
    requires Shape(s) && j <= |s.done|
  {
    |s.ring| + TotalTo(s.published, s.done, j)
  }

  ghost predicate CompletionAt(s: State, j: nat)
    requires Shape(s) && j < |s.done|
  {
    var d := s.ring[Slot(|s.ring|, StartOf(s, j))];
    d.Done(Wrap(|s.ring|, StartOf(s, j))) && d.id == s.published[s.done[j]][0].id
  }

  ghost predicate Completions(s: State)
    requires Shape(s)
  {
    forall j: nat :: s.reclaimed <= j < |s.done| ==> CompletionAt(s, j)
  }

  ghost predicate Joint(s: State) {
    Shape(s) && Distributed(s) && Counts(s) && Cursors(s) && Parity(s) && NotUsed(s) && Contents(s) && Completions(s)
  }

  // ---- steps ----------------------------------------------------------------------------------

  datatype Step =
    /** The driver writes the descriptors of a buffer after the first. */
    | WriteBody(c: Chain)
    /** The driver writes the first, whose flags publish the buffer. */
    | Publish
    /** The device takes the next request, if there is one. */
    | PopNext
    /** The device hands back the `i`-th request it holds. */
    | Release(i: nat, written: nat)
    /** The driver takes a completion back. */
    | TakeBack

  ghost predicate Enabled(s: State, step: Step) {
    Shape(s) &&
    match step
    case WriteBody(c) => s.pending == [] && IsChain(c) && |c| <= |s.ring| && s.Offer() + |c| <= s.Reclaim() + |s.ring|
    case Publish => s.pending != []
    case PopNext => s.availIndex < |s.ring|
    case Release(i, _) => i < |s.held| && s.usedIndex < |s.ring|
    case TakeBack => s.ring[Slot(|s.ring|, s.Reclaim())].Done(Wrap(|s.ring|, s.Reclaim())) && s.reclaimed < |s.done|
  }

  /** The ring once the descriptors of `c` after its first are in, from position `at` + 1 on. */
  ghost function BodyWritten(ring: seq<Descriptor>, c: Chain, at: nat, n: nat): (r: seq<Descriptor>)
    requires 0 < n <= |c| <= |ring|
    ensures |r| == |ring|
    decreases n
  {
    if n == 1 then ring
    else BodyWritten(ring, c, at, n - 1)[Slot(|ring|, at + n - 1) := c[n - 1].Offered(Wrap(|ring|, at + n - 1))]
  }

  /** The ring after a completion is written at the used cursor. */
  function Completed(d: Descriptor, id: nat, wrap: bool, written: nat): Descriptor {
    Descriptor(d.address, written, id, false, written > 0, false, wrap, wrap)
  }

  /** The id section 2.7 of VirtIO 1.1 has a driver go by: the last descriptor's. */
  function BufferId(c: Chain): nat
    requires |c| > 0
  {
    c[|c| - 1].id
  }

  /** A completion whose id and length are written shows only with its flags: before them, the driver's test fails. */
  lemma {:induction false} FlagsShowCompletion(d: Descriptor, id: nat, wrap: bool, written: nat)
    requires d.Ready(wrap)
    ensures !d.(length := written).Done(wrap) && !d.(length := written, id := id).Done(wrap)
    ensures Completed(d, id, wrap, written).Done(wrap)
    ensures Completed(d, id, wrap, written).id == id && Completed(d, id, wrap, written).length == written
  {
  }

  ghost function Apply(s: State, step: Step): State
    requires Enabled(s, step)
  {
    match step
    case WriteBody(c) =>
      s.(ring := BodyWritten(s.ring, c, s.Offer(), |c|), pending := c)
    case Publish =>
      s.(ring := s.ring[Slot(|s.ring|, s.Offer()) := s.pending[0].Offered(Wrap(|s.ring|, s.Offer()))],
         published := s.published + [s.pending], pending := [])
    case PopNext =>
      var t := TakeChain(s.ring, s.availIndex, s.availWrap, |s.ring|);
      if t.None? then s
      else s.(availIndex := t.value.index, availWrap := t.value.wrap, popped := s.popped + 1,
           held := s.held + [s.popped])
    case Release(i, written) =>
      var n := s.held[i];
      var skip := |s.published[n]|;
      s.(ring := s.ring[s.usedIndex := Completed(s.ring[s.usedIndex], s.published[n][0].id, s.usedWrap, written)],
         usedIndex := if s.usedIndex + skip >= |s.ring| then s.usedIndex + skip - |s.ring| else s.usedIndex + skip,
         usedWrap := if s.usedIndex + skip >= |s.ring| then !s.usedWrap else s.usedWrap,
         held := s.held[..i] + s.held[i + 1..], done := s.done + [n])
    case TakeBack => s.(reclaimed := s.reclaimed + 1)
  }
}
