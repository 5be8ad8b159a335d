/**
 The device's half of the packed virtqueue, in place: Queue::advance, pop and release over descriptors
 in guest memory, for whatever a guest has put there. `PopOutcome` says what a pop does in terms of the
 walk the joint proofs are about (PackedRing.TakeChain).
 */
module PackedQueue {
  import opened PackedRing
  import opened PackedRingProofs

  const FLAG_NEXT: bv16 := 1
  const FLAG_WRITE: bv16 := 2
  const FLAG_INDIRECT: bv16 := 4
  const FLAG_AVAIL: bv16 := 0x80
  const FLAG_USED: bv16 := 0x8000
  const DESCRIPTOR_SIZE: nat := 16

  /** A descriptor as it lies in guest memory. */
  datatype Raw = Raw(address: nat, length: nat, id: nat, flags: bv16)

  function View(r: Raw): Descriptor {
    Descriptor(r.address, r.length, r.id, r.flags & FLAG_NEXT != 0, r.flags & FLAG_WRITE != 0,
               r.flags & FLAG_INDIRECT != 0, r.flags & FLAG_AVAIL != 0, r.flags & FLAG_USED != 0)
  }

  function Views(rs: seq<Raw>): (ds: seq<Descriptor>)
    ensures |ds| == |rs| && forall i :: 0 <= i < |rs| ==> ds[i] == View(rs[i])
  {
    seq(|rs|, i requires 0 <= i < |rs| => View(rs[i]))
  }

  lemma {:induction false} ViewsSet(rs: seq<Raw>, i: nat, r: Raw)
    requires i < |rs|
    ensures Views(rs[i := r]) == Views(rs)[i := View(r)]
  {
  }

  datatype Buffer = Buffer(address: nat, length: nat, writable: bool)

  /** A request, and the bookkeeping to complete it. */
  datatype Request = Request(buffers: seq<Buffer>, id: nat, skip: nat)

  datatype Fault = ChainCutShort | MalformedTable | OutsideMemory | QueueFull

  datatype Outcome<+T> = Ok(value: T) | Err(fault: Fault)

  function BufferOf(d: Descriptor): Buffer {
    Buffer(d.address, d.length, d.writable)
  }

  function Buffers(ds: seq<Descriptor>): (bs: seq<Buffer>)
    ensures |bs| == |ds| && forall i :: 0 <= i < |ds| ==> bs[i] == BufferOf(ds[i])
  {
    seq(|ds|, i requires 0 <= i < |ds| => BufferOf(ds[i]))
  }

  /** An indirect table of `n` descriptors at `address`, if all of it is in guest memory. */
  function ReadTable(memory: map<nat, Raw>, address: nat, n: nat): Outcome<seq<Descriptor>>
    decreases n
  {
    if n == 0 then Ok([])
    else match ReadTable(memory, address, n - 1)
      case Err(f) => Err(f)
      case Ok(ds) =>
        var at := address + DESCRIPTOR_SIZE * (n - 1);
        if at in memory then Ok(ds + [View(memory[at])]) else Err(OutsideMemory)
  }

  /** What a pop gives for the descriptors it walked. */
  function RequestOf(ds: seq<Descriptor>, memory: map<nat, Raw>): Outcome<Request>
    requires |ds| > 0
  {
    if !ds[0].next && ds[0].indirect then
      if ds[0].length % DESCRIPTOR_SIZE != 0 then Err(MalformedTable)
      else match ReadTable(memory, ds[0].address, ds[0].length / DESCRIPTOR_SIZE)
        case Err(f) => Err(f)
        case Ok(table) => Ok(Request(Buffers(table), ds[0].id, |ds|))
    else Ok(Request(Buffers(ds), ds[0].id, |ds|))
  }

  function PopOutcome(ring: seq<Descriptor>, memory: map<nat, Raw>, index: nat, wrap: bool): Outcome<Option<Request>>
    requires index < |ring|
  {
    if !ring[index].Ready(wrap) then Ok(None)
    else match TakeChain(ring, index, wrap, |ring|)
      case None => Err(ChainCutShort)
      case Some(t) =>
        match RequestOf(t.descs, memory)
        case Err(f) => Err(f)
        case Ok(r) => Ok(Some(r))
  }

  /** Available and not used in this lap: bits 7 and 15. */
  predicate IsReady(flags: bv16, wrap: bool) {
    (flags & 0x80 != 0) == wrap && (flags & 0x8000 != 0) == !wrap
  }

  // ---- what a request is, by the descriptors as they lie in memory -------------------------------

  /** A buffer is where and as long as its descriptor says, and the device may write it exactly if bit 1 is set. */
  predicate IsBuffer(b: Buffer, r: Raw) {
    b.address == r.address && b.length == r.length && (b.writable <==> r.flags & 2 != 0)
  }

  /** The one descriptor of a chain that names a table of others in its place. */
  predicate NamesTable(r: Raw) { r.flags & 1 == 0 && r.flags & 4 != 0 }

  /** What a pop gives that walked over these descriptors: a buffer for each, or for each of the table they name. */
  ghost predicate Gives(chain: seq<Raw>, memory: map<nat, Raw>, r: Outcome<Option<Request>>)
    requires |chain| > 0
  {
    if !NamesTable(chain[0]) then
      && r.Ok? && r.value.Some? && r.value.value.id == chain[0].id && r.value.value.skip == |chain|
      && |r.value.value.buffers| == |chain|
      && forall k :: 0 <= k < |chain| ==> IsBuffer(r.value.value.buffers[k], chain[k])
    else if chain[0].length % 16 != 0 then r == Err(MalformedTable)
    else if !InMemory(memory, chain[0].address, chain[0].length / 16) then r == Err(OutsideMemory)
    else
      && r.Ok? && r.value.Some? && r.value.value.id == chain[0].id && r.value.value.skip == |chain|
      && |r.value.value.buffers| == chain[0].length / 16
      && forall k :: 0 <= k < chain[0].length / 16 ==>
        TableAt(chain[0].address, k) in memory
        && IsBuffer(r.value.value.buffers[k], memory[TableAt(chain[0].address, k)])
  }

  function TableAt(address: nat, k: nat): nat { address + 16 * k }

  ghost predicate InMemory(memory: map<nat, Raw>, address: nat, n: nat) {
    forall k: nat :: k < n ==> TableAt(address, k) in memory
  }

  lemma {:induction false} TableRead(memory: map<nat, Raw>, address: nat, n: nat)
    ensures if InMemory(memory, address, n) then
        var t := ReadTable(memory, address, n);
        t.Ok? && |t.value| == n && forall k :: 0 <= k < n ==> t.value[k] == View(memory[TableAt(address, k)])
      else ReadTable(memory, address, n) == Err(OutsideMemory)
    decreases n
  {
    if n > 0 {
      TableRead(memory, address, n - 1);
      assert TableAt(address, n - 1) == address + DESCRIPTOR_SIZE * (n - 1);
    }
  }

  /** What the code makes of a walked chain is that. */
  lemma {:induction false} RequestGives(chain: seq<Raw>, memory: map<nat, Raw>)
    requires |chain| > 0
    ensures Gives(chain, memory,
      match RequestOf(Views(chain), memory)
      case Err(f) => Err(f)
      case Ok(q) => Ok(Some(q)))
  {
    var ds := Views(chain);
    assert ds[0] == View(chain[0]);
    if NamesTable(chain[0]) { TableRead(memory, chain[0].address, chain[0].length / 16); }
  }

  /** An index that may have gone around the end of the ring once. */
  function Around(size: nat, i: nat): nat { if i >= size then i - size else i }

  /** So many descriptors in a row, from an index on, around the end of the ring. */
  function Along(ring: seq<Raw>, index: nat, n: nat): (r: seq<Raw>)
    requires index < |ring| && n <= |ring|
    ensures |r| == n && forall k :: 0 <= k < n ==> r[k] == ring[Around(|ring|, index + k)]
  {
    seq(n, k requires 0 <= k < n => ring[Around(|ring|, index + k)])
  }

  /** A walk goes along the ring, and on exactly as long as bit 0 says. */
  lemma {:induction false} WalksAlong(ring: seq<Raw>, index: nat, wrap: bool, left: nat, k: nat)
    requires index < |ring| && left <= |ring| && TakeChain(Views(ring), index, wrap, left).Some?
    requires k < |TakeChain(Views(ring), index, wrap, left).value.descs|
    ensures var t := TakeChain(Views(ring), index, wrap, left).value;
      && t.index == Around(|ring|, index + |t.descs|)
      && t.descs[k] == View(ring[Around(|ring|, index + k)])
      && (ring[Around(|ring|, index + k)].flags & 1 != 0 <==> k + 1 < |t.descs|)
    decreases left
  {
    if Views(ring)[index].next {
      var i, w := BumpIndex(|ring|, index), BumpWrap(|ring|, index, wrap);
      WalksAlong(ring, i, w, left - 1, if k > 0 then k - 1 else 0);
    }
  }

  lemma {:induction false} WalkAlong(ring: seq<Raw>, index: nat, wrap: bool)
    requires index < |ring| && TakeChain(Views(ring), index, wrap, |ring|).Some?
    ensures var t := TakeChain(Views(ring), index, wrap, |ring|).value;
      && t.index == Around(|ring|, index + |t.descs|)
      && t.descs == Views(Along(ring, index, |t.descs|))
      && forall k :: 0 <= k < |t.descs| ==>
        (Along(ring, index, |t.descs|)[k].flags & 1 != 0 <==> k + 1 < |t.descs|)
  {
    var t := TakeChain(Views(ring), index, wrap, |ring|).value;
    WalksAlong(ring, index, wrap, |ring|, 0);
    forall k | 0 <= k < |t.descs|
      ensures t.descs[k] == View(ring[Around(|ring|, index + k)])
      ensures ring[Around(|ring|, index + k)].flags & 1 != 0 <==> k + 1 < |t.descs|
    {
      WalksAlong(ring, index, wrap, |ring|, k);
    }
  }

  /** The walk that went over `chain` and then did `t`. */
  ghost function After(chain: seq<Descriptor>, t: Option<Taken>): Option<Taken> {
    if t.None? then None else Some(Taken(chain + t.value.descs, t.value.index, t.value.wrap))
  }

  /** One more descriptor walked. */
  lemma {:induction false} AfterSnoc(chain: seq<Descriptor>, ring: seq<Descriptor>, index: nat, wrap: bool, left: nat)
    requires index < |ring| && left > 0 && ring[index].Ready(wrap)
    ensures var i, w := BumpIndex(|ring|, index), BumpWrap(|ring|, index, wrap);
      After(chain, TakeChain(ring, index, wrap, left)) ==
      if ring[index].next then After(chain + [ring[index]], TakeChain(ring, i, w, left - 1))
      else Some(Taken(chain + [ring[index]], i, w))
  {
    var rest := TakeChain(ring, BumpIndex(|ring|, index), BumpWrap(|ring|, index, wrap), left - 1);
    if rest.Some? { assert chain + ([ring[index]] + rest.value.descs) == chain + [ring[index]] + rest.value.descs; }
  }

  /** Some position has this index and wrap flag. */
  ghost function Position(size: nat, index: nat, wrap: bool): nat {
    if wrap then size + index else index
  }

  lemma {:induction false} PositionOf(size: nat, index: nat, wrap: bool)
    requires index < size
    ensures Slot(size, Position(size, index, wrap)) == index && Wrap(size, Position(size, index, wrap)) == wrap
  {
    Jump(size, 0, index);
    Lap(size, index);
  }

  /** A pop that began at `index` has walked `chain`, and its cursor is at `i`, `w`. */
  ghost predicate Walking(ring: seq<Descriptor>, index: nat, wrap: bool, chain: seq<Descriptor>, i: nat, w: bool)
    requires index < |ring| && i < |ring|
  {
    var x := Position(|ring|, index, wrap) + |chain|;
    && 0 < |chain| <= |ring| && ring[index].Ready(wrap)
    && i == Slot(|ring|, x) && w == Wrap(|ring|, x)
    && TakeChain(ring, index, wrap, |ring|) ==
      if chain[|chain| - 1].next then After(chain, TakeChain(ring, i, w, |ring| - |chain|))
      else Some(Taken(chain, i, w))
  }

  lemma {:induction false} WalkStarts(ring: seq<Descriptor>, index: nat, wrap: bool)
    requires index < |ring| && ring[index].Ready(wrap)
    ensures Walking(ring, index, wrap, [ring[index]], BumpIndex(|ring|, index), BumpWrap(|ring|, index, wrap))
  {
    PositionOf(|ring|, index, wrap);
    Jump(|ring|, Position(|ring|, index, wrap), 1);
  }

  /** A walk finds its next descriptor ready only short of a whole lap. */
  lemma {:induction false} WalkContinues(ring: seq<Descriptor>, index: nat, wrap: bool, chain: seq<Descriptor>,
      i: nat, w: bool)
    requires index < |ring| && i < |ring| && Walking(ring, index, wrap, chain, i, w)
    requires chain[|chain| - 1].next && ring[i].Ready(w)
    ensures |chain| < |ring|
    ensures Walking(ring, index, wrap, chain + [ring[i]], BumpIndex(|ring|, i), BumpWrap(|ring|, i, w))
  {
    var x := Position(|ring|, index, wrap);
    PositionOf(|ring|, index, wrap);
    if |chain| == |ring| { Lap(|ring|, x); }
    Jump(|ring|, x + |chain|, 1);
    AfterSnoc(chain, ring, i, w, |ring| - |chain|);
  }

  class Queue {
    const size: nat
    const ring: array<Raw>
    /** Guest memory elsewhere, by descriptor address, for indirect tables. */
    const memory: map<nat, Raw>
    var availIndex: nat
    var availWrap: bool
    var usedIndex: nat
    var usedWrap: bool

    ghost predicate Valid()
      reads this
    {
      0 < size <= MAX_QUEUE && ring.Length == size && availIndex < size && usedIndex < size
    }

    constructor (ring: array<Raw>, memory: map<nat, Raw>)
      requires 0 < ring.Length <= MAX_QUEUE
      ensures Valid() && this.ring == ring && this.memory == memory
      ensures availIndex == 0 && availWrap && usedIndex == 0 && usedWrap
    {
      size, this.ring, this.memory := ring.Length, ring, memory;
      availIndex, availWrap, usedIndex, usedWrap := 0, true, 0, true;
    }

    /** The next descriptor the driver has made available, if any. */
    method Advance() returns (r: Option<nat>)
      requires Valid()
      modifies this`availIndex, this`availWrap
      ensures Valid()
      ensures var d := View(ring[old(availIndex)]);
        if d.Ready(old(availWrap)) then
          r == Some(old(availIndex)) && availIndex == BumpIndex(size, old(availIndex))
            && availWrap == BumpWrap(size, old(availIndex), old(availWrap))
        else r == None && availIndex == old(availIndex) && availWrap == old(availWrap)
      ensures r.Some? <==> IsReady(ring[old(availIndex)].flags, old(availWrap))
    {
      var flags := ring[availIndex].flags;
      var avail, used := flags & FLAG_AVAIL != 0, flags & FLAG_USED != 0;
      if avail == used || avail != availWrap { return None; }
      var index := availIndex;
      availIndex := availIndex + 1;
      if availIndex >= size {
        availIndex, availWrap := 0, !availWrap;
      }
      return Some(index);
    }

    /** Takes the next request. It ends on any memory, within one lap of the ring. */
    method Pop() returns (r: Outcome<Option<Request>>)
      requires Valid()
      modifies this`availIndex, this`availWrap
      ensures Valid()
      ensures r == PopOutcome(Views(ring[..]), memory, old(availIndex), old(availWrap))
      ensures r.Ok? && r.value.None? ==> availIndex == old(availIndex) && availWrap == old(availWrap)
      ensures r.Ok? && r.value.Some? ==>
        var t := TakeChain(Views(ring[..]), old(availIndex), old(availWrap), size);
        t.Some? && availIndex == t.value.index && availWrap == t.value.wrap && 0 < r.value.value.skip <= size
      ensures var t := TakeChain(Views(ring[..]), old(availIndex), old(availWrap), size);
        if !IsReady(ring[old(availIndex)].flags, old(availWrap)) then r == Ok(None)
        else if t.None? then r == Err(ChainCutShort)
        else |t.value.descs| > 0 && Gives(Along(ring[..], old(availIndex), |t.value.descs|), memory, r)
    {
      ghost var index, wrap := availIndex, availWrap;
      if TakeChain(Views(ring[..]), index, wrap, size).Some? {
        WalkAlong(ring[..], index, wrap);
        RequestGives(Along(ring[..], index, |TakeChain(Views(ring[..]), index, wrap, size).value.descs|), memory);
      }
      var first := Advance();
      if first.None? { return Ok(None); }
      var chain := Walk(first.value, old(availWrap));
      if chain.None? { return Err(ChainCutShort); }
      r := Finish(chain.value);
    }

    /** The rest of the chain whose first descriptor, at `index`, was just taken. */
    method Walk(index: nat, ghost wrap: bool) returns (r: Option<seq<Descriptor>>)
      requires Valid() && index < size && View(ring[index]).Ready(wrap)
      requires availIndex == BumpIndex(size, index) && availWrap == BumpWrap(size, index, wrap)
      modifies this`availIndex, this`availWrap
      ensures Valid()
      ensures match TakeChain(Views(ring[..]), index, wrap, size)
              case None => r == None
              case Some(t) => r == Some(t.descs) && availIndex == t.index && availWrap == t.wrap
    {
      ghost var view := Views(ring[..]);
      var descriptor := View(ring[index]);
      var chain := [descriptor];
      WalkStarts(view, index, wrap);
      while descriptor.next
        invariant Valid() && Walking(view, index, wrap, chain, availIndex, availWrap)
        invariant descriptor == chain[|chain| - 1]
        decreases size - |chain|, descriptor.next
      {
        ghost var i, w := availIndex, availWrap;
        var next := Advance();
        if next.None? { return None; }
        descriptor := View(ring[next.value]);
        WalkContinues(view, index, wrap, chain, i, w);
        chain := chain + [descriptor];
      }
      return Some(chain);
    }

    /** The buffers of a walked chain: its own, or those of the indirect table it names. */
    method Finish(chain: seq<Descriptor>) returns (r: Outcome<Option<Request>>)
      requires |chain| > 0
      ensures r == match RequestOf(chain, memory)
                   case Err(f) => Err(f)
                   case Ok(q) => Ok(Some(q))
      ensures GivesChain(chain, memory, r)
    {
      RequestGivesChain(chain, memory);
      var first := chain[0];
      if first.next || !first.indirect { return Ok(Some(Request(Buffers(chain), first.id, |chain|))); }
      if first.length % DESCRIPTOR_SIZE != 0 { return Err(MalformedTable); }
      var count := first.length / DESCRIPTOR_SIZE;
      var table: seq<Descriptor> := [];
      for i := 0 to count
        invariant ReadTable(memory, first.address, i) == Ok(table)
      {
        var at := first.address + DESCRIPTOR_SIZE * i;
        if at !in memory {
          TableFails(memory, first.address, i + 1, count);
          return Err(OutsideMemory);
        }
        table := table + [View(memory[at])];
      }
      return Ok(Some(Request(Buffers(table), first.id, |chain|)));
    }

    /** Hands a finished request back, saying how many bytes the device wrote. */
    method Release(q: Request, written: nat) returns (r: Outcome<()>)
      requires Valid() && 0 < q.skip <= size
      modifies ring, this`usedIndex, this`usedWrap
      ensures Valid()
      ensures old(!View(ring[usedIndex]).Ready(usedWrap)) ==>
        r == Err(QueueFull) && ring[..] == old(ring[..]) && usedIndex == old(usedIndex) && usedWrap == old(usedWrap)
      ensures old(View(ring[usedIndex]).Ready(usedWrap)) ==>
        && r == Ok(())
        && Views(ring[..]) == old(Views(ring[..])[usedIndex :=
           Completed(View(ring[usedIndex]), q.id, usedWrap, written)])
        && usedIndex == (if old(usedIndex) + q.skip >= size then old(usedIndex) + q.skip - size
           else old(usedIndex) + q.skip)
        && usedWrap == (if old(usedIndex) + q.skip >= size then !old(usedWrap) else old(usedWrap))
      ensures r.Ok? <==> IsReady(old(ring[usedIndex].flags), old(usedWrap))
      ensures r.Ok? ==> ring[..] == old(ring[..])[old(usedIndex) :=
        Raw(old(ring[usedIndex].address), written, q.id, UsedFlags(old(usedWrap), written > 0))]
    {
      var flags := ring[usedIndex].flags;
      var avail, used := flags & FLAG_AVAIL != 0, flags & FLAG_USED != 0;
      if avail == used || avail != usedWrap { return Err(QueueFull); }
      ghost var i, was := usedIndex, ring[..];
      Complete(q.id, written);
      ViewsSet(was, i, ring[i]);
      assert usedIndex + q.skip < 0x1_0000;  // no u16 overflow
      usedIndex := usedIndex + q.skip;
      if usedIndex >= size {
        usedIndex, usedWrap := usedIndex - size, !usedWrap;
      }
      return Ok(());
    }

    /** Writes a completion where the next one goes. */
    method Complete(id: nat, written: nat)
      requires Valid() && View(ring[usedIndex]).Ready(usedWrap)
      modifies ring
      ensures ring[..] == old(ring[..])[usedIndex :=
        Raw(old(ring[usedIndex].address), written, id, UsedFlags(usedWrap, written > 0))]
      ensures View(ring[usedIndex]) == Completed(old(View(ring[usedIndex])), id, usedWrap, written)
    {
      var f: bv16 := 0;
      if usedWrap { f := f | (FLAG_AVAIL | FLAG_USED); }
      if written > 0 { f := f | FLAG_WRITE; }
      CompletionFlags(usedWrap, written);
      // length and id first; the flags make the completion visible, so they are written last
      ghost var d := View(ring[usedIndex]);
      FlagsShowCompletion(d, id, usedWrap, written);
      ring[usedIndex] := ring[usedIndex].(length := written);
      assert !View(ring[usedIndex]).Done(usedWrap);
      ring[usedIndex] := ring[usedIndex].(id := id);
      assert !View(ring[usedIndex]).Done(usedWrap);
      ring[usedIndex] := ring[usedIndex].(flags := f);
    }
  }

  /** Bits 7 and 15 as the lap has them, and bit 1 if anything was written. */
  function UsedFlags(wrap: bool, wrote: bool): bv16 {
    if wrap then (if wrote then 0x8082 else 0x8080) else (if wrote then 0x2 else 0)
  }

  lemma {:induction false} CompletionFlags(wrap: bool, written: nat)
    ensures var f: bv16 := (if wrap then 0 | (FLAG_AVAIL | FLAG_USED) else 0) | (if written > 0 then FLAG_WRITE else 0);
      && (f & FLAG_AVAIL != 0) == wrap && (f & FLAG_USED != 0) == wrap
      && (f & FLAG_WRITE != 0) == (written > 0) && f & FLAG_NEXT == 0 && f & FLAG_INDIRECT == 0
      && f == UsedFlags(wrap, written > 0)
  {
  }

  lemma {:induction false} TableFails(memory: map<nat, Raw>, address: nat, i: nat, n: nat)
    requires i <= n && ReadTable(memory, address, i) == Err(OutsideMemory)
    ensures ReadTable(memory, address, n) == Err(OutsideMemory)
    decreases n
  {
    if i < n { TableFails(memory, address, i, n - 1); }
  }

  /** The request for a published chain: a buffer for each of its descriptors, or for each of the table it names. */
  ghost predicate GivesChain(c: seq<Descriptor>, memory: map<nat, Raw>, r: Outcome<Option<Request>>)
    requires |c| > 0
  {
    if c[0].next || !c[0].indirect then
      && r.Ok? && r.value.Some? && r.value.value.id == c[0].id && r.value.value.skip == |c|
      && |r.value.value.buffers| == |c|
      && forall k :: 0 <= k < |c| ==> r.value.value.buffers[k] == Buffer(c[k].address, c[k].length, c[k].writable)
    else if c[0].length % 16 != 0 then r == Err(MalformedTable)
    else if !InMemory(memory, c[0].address, c[0].length / 16) then r == Err(OutsideMemory)
    else
      && r.Ok? && r.value.Some? && r.value.value.id == c[0].id && r.value.value.skip == |c|
      && |r.value.value.buffers| == c[0].length / 16
      && forall k :: 0 <= k < c[0].length / 16 ==>
        TableAt(c[0].address, k) in memory && IsBuffer(r.value.value.buffers[k], memory[TableAt(c[0].address, k)])
  }

  lemma {:induction false} RequestGivesChain(c: seq<Descriptor>, memory: map<nat, Raw>)
    requires |c| > 0
    ensures GivesChain(c, memory,
      match RequestOf(c, memory)
      case Err(f) => Err(f)
      case Ok(q) => Ok(Some(q)))
  {
    if !c[0].next && c[0].indirect { TableRead(memory, c[0].address, c[0].length / 16); }
  }

  /**
   With a conforming driver a pop reports nothing exactly when everything published was taken, and
   otherwise the next buffer: its own descriptors in order, or the table it names.
   */
  lemma {:induction false} PopGivesNextBuffer(s: State, memory: map<nat, Raw>)
    requires Joint(s)
    ensures s.popped == |s.published| ==> PopOutcome(s.ring, memory, s.availIndex, s.availWrap) == Ok(None)
    ensures s.popped < |s.published| ==>
      && IsChain(s.published[s.popped])
      && GivesChain(s.published[s.popped], memory, PopOutcome(s.ring, memory, s.availIndex, s.availWrap))
  {
    PopTakesNext(s);
    if s.popped < |s.published| {
      var c := s.published[s.popped];
      assert IsChain(c);
      var ds := OfferedFrom(|s.ring|, c, s.Pop(), 0);
      assert ds[0] == c[0].Offered(Wrap(|s.ring|, s.Pop() + 0 + 0));
      assert Buffers(ds) == Buffers(c);
      RequestGivesChain(c, memory);
    }
  }
}
