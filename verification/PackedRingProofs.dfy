/**
 What driver and device keep between them (`Joint`), step by step, and what follows over whole runs:
 the device is handed every published buffer once, in order, and nothing else; a release always finds
 room; the driver sees a completion exactly when there is one, and whose it is.
 */
module PackedRingProofs {
  import opened PackedRing

  // ---- sums -----------------------------------------------------------------------------------

  lemma {:induction false} LenToPrefix(cs: seq<Chain>, c: Chain, n: nat)
    requires n <= |cs|
    ensures LenTo(cs + [c], n) == LenTo(cs, n)
    decreases n
  {
    if n > 0 { LenToPrefix(cs, c, n - 1); }
  }

  lemma {:induction false} LenToGrows(cs: seq<Chain>, k: nat, n: nat)
    requires k < n <= |cs|
    ensures LenTo(cs, k) + |cs[k]| <= LenTo(cs, n)
    decreases n
  {
    if k + 1 < n { LenToGrows(cs, k, n - 1); }
  }

  lemma {:induction false} TotalMoreChains(cs: seq<Chain>, c: Chain, ns: seq<nat>, n: nat)
    requires InRange(cs, ns) && n <= |ns|
    ensures InRange(cs + [c], ns) && TotalTo(cs + [c], ns, n) == TotalTo(cs, ns, n)
    decreases n
  {
    if n > 0 { TotalMoreChains(cs, c, ns, n - 1); }
  }

  lemma {:induction false} TotalPrefix(cs: seq<Chain>, ns: seq<nat>, m: nat, n: nat)
    requires InRange(cs, ns) && m < |cs| && n <= |ns|
    ensures InRange(cs, ns + [m]) && TotalTo(cs, ns + [m], n) == TotalTo(cs, ns, n)
    decreases n
  {
    if n > 0 { TotalPrefix(cs, ns, m, n - 1); }
  }

  lemma {:induction false} TotalGrows(cs: seq<Chain>, ns: seq<nat>, k: nat, n: nat)
    requires InRange(cs, ns) && k < n <= |ns|
    ensures TotalTo(cs, ns, k) + |cs[ns[k]]| <= TotalTo(cs, ns, n)
    decreases n
  {
    if k + 1 < n { TotalGrows(cs, ns, k, n - 1); }
  }

  ghost function Without(ns: seq<nat>, i: nat): seq<nat>
    requires i < |ns|
  {
    ns[..i] + ns[i + 1..]
  }

  lemma {:induction false} TotalRemove(cs: seq<Chain>, ns: seq<nat>, i: nat, n: nat)
    requires InRange(cs, ns) && i < n <= |ns|
    ensures InRange(cs, Without(ns, i))
    ensures TotalTo(cs, ns, n) == TotalTo(cs, Without(ns, i), n - 1) + |cs[ns[i]]|
    decreases n
  {
    if i + 1 < n {
      TotalRemove(cs, ns, i, n - 1);
    } else {
      TotalSame(cs, ns, Without(ns, i), i);
    }
  }

  lemma {:induction false} TotalSame(cs: seq<Chain>, a: seq<nat>, b: seq<nat>, n: nat)
    requires InRange(cs, a) && InRange(cs, b) && n <= |a| && n <= |b|
    requires forall k :: 0 <= k < n ==> a[k] == b[k]
    ensures TotalTo(cs, a, n) == TotalTo(cs, b, n)
    decreases n
  {
    if n > 0 { TotalSame(cs, a, b, n - 1); }
  }

  /** Completions lie between what the driver took back and the used cursor. */
  lemma {:induction false} StartBounds(s: State, j: nat)
    requires Shape(s) && s.reclaimed <= j < |s.done|
    ensures s.Reclaim() <= StartOf(s, j) < s.Use()
  {
    TotalGrows(s.published, s.done, j, |s.done|);
    assert IsChain(s.published[s.done[j]]);
    if s.reclaimed < j { TotalGrows(s.published, s.done, s.reclaimed, j); }
  }

  // ---- popping --------------------------------------------------------------------------------

  ghost function OfferedFrom(size: nat, c: Chain, x: nat, j: nat): (r: seq<Descriptor>)
    requires size > 0 && j <= |c|
  {
    seq(|c| - j, k requires 0 <= k < |c| - j => c[j + k].Offered(Wrap(size, x + j + k)))
  }

  /** The device's walk over an offered buffer at position `x` stays inside it and ends at its end. */
  lemma {:induction false} WalkChain(ring: seq<Descriptor>, x: nat, c: Chain, j: nat, left: nat)
    requires 0 < |ring| && IsChain(c) && ChainAt(ring, x, c, 0) && j < |c| && left >= |c| - j
    ensures TakeChain(ring, Slot(|ring|, x + j), Wrap(|ring|, x + j), left) ==
      Some(Taken(OfferedFrom(|ring|, c, x, j), Slot(|ring|, x + |c|), Wrap(|ring|, x + |c|)))
    decreases left
  {
    assert OfferedAt(ring, x, c, j) && LinkOk(c, j);
    Jump(|ring|, x + j, 1);
    var d := ring[Slot(|ring|, x + j)];
    if j + 1 < |c| {
      WalkChain(ring, x, c, j + 1, left - 1);
      assert [d] + OfferedFrom(|ring|, c, x, j + 1) == OfferedFrom(|ring|, c, x, j);
    } else {
      assert OfferedFrom(|ring|, c, x, j) == [d];
    }
  }

  /** When all was taken, the slot under the cursor holds something of an earlier lap, or nothing. */
  lemma {:induction false} NothingStale(s: State)
    requires Joint(s) && s.popped == |s.published|
    ensures !s.ring[s.availIndex].Ready(s.availWrap)
  {
    var x := s.Offer() - |s.ring|;
    Lap(|s.ring|, x);
    assert ParityAt(s.ring, x);
  }

  /** A pop takes exactly the next published buffer, or nothing when there is none. */
  lemma {:induction false} PopTakesNext(s: State)
    requires Joint(s)
    ensures var t := TakeChain(s.ring, s.availIndex, s.availWrap, |s.ring|);
      if s.popped == |s.published| then t.None? && !s.ring[s.availIndex].Ready(s.availWrap)
      else
        && t.Some? && s.ring[s.availIndex].Ready(s.availWrap)
        && t.value.descs == OfferedFrom(|s.ring|, s.published[s.popped], s.Pop(), 0)
        && t.value.index == Slot(|s.ring|, s.Pop() + |s.published[s.popped]|)
        && t.value.wrap == Wrap(|s.ring|, s.Pop() + |s.published[s.popped]|)
  {
    if s.popped == |s.published| {
      NothingStale(s);
    } else {
      assert IsChain(s.published[s.popped]);
      assert WaitingAt(s, s.popped) && OfferedAt(s.ring, s.Pop(), s.published[s.popped], 0);
      WalkChain(s.ring, s.Pop(), s.published[s.popped], 0, |s.ring|);
    }
  }

  lemma {:induction false} IotaSnoc(n: nat)
    ensures Iota(n + 1) == Iota(n) + [n]
  {
  }

  lemma {:induction false} PopKeepsCounts(s: State, s': State)
    requires Shape(s) && Counts(s) && Cursors(s) && s.popped < |s.published|
    requires s' == s.(popped := s.popped + 1, held := s.held + [s.popped],
                      availIndex := Slot(|s.ring|, s.Pop() + |s.published[s.popped]|),
                        availWrap := Wrap(|s.ring|, s.Pop() + |s.published[s.popped]|))
    ensures Shape(s') && Counts(s') && Cursors(s')
    ensures s'.Pop() == s.Pop() + |s.published[s.popped]| && s'.Use() == s.Use() && s'.Reclaim() == s.Reclaim()
      && s'.Offer() == s.Offer()
  {
    TotalPrefix(s.published, s.held, s.popped, |s.held|);
    LenToGrows(s.published, s.popped, |s.published|);
  }

  /** What a step that leaves the ring, the offers and the completions alone keeps. */
  lemma {:induction false} SameRing(s: State, s': State)
    requires Shape(s) && Shape(s') && Parity(s) && NotUsed(s) && Contents(s) && Completions(s)
    requires s'.ring == s.ring && s'.published == s.published && s'.pending == s.pending && s'.done == s.done
    requires s.popped <= s'.popped && s.reclaimed <= s'.reclaimed
    ensures Parity(s') && NotUsed(s') && Contents(s') && Completions(s')
  {
    assert s'.Offer() == s.Offer() && s'.Use() == s.Use();
    forall k: nat | s'.popped <= k < |s'.published| ensures WaitingAt(s', k) { assert WaitingAt(s, k); }
    forall j: nat | s'.reclaimed <= j < |s'.done| ensures CompletionAt(s', j) {
      assert CompletionAt(s, j);
      assert StartOf(s', j) == StartOf(s, j);
    }
  }

  lemma {:induction false} PopDistributes(s: State)
    requires Distributed(s)
    ensures multiset(s.done) + multiset(s.held + [s.popped]) == multiset(Iota(s.popped + 1))
  {
    IotaSnoc(s.popped);
  }

  /** The state after a pop, in terms of positions. */
  lemma {:induction false} PopState(s: State)
    requires Joint(s)
    ensures Apply(s, PopNext) ==
      if s.popped == |s.published| then s
      else
        var x := s.Pop() + |s.published[s.popped]|;
        s.(popped := s.popped + 1, held := s.held + [s.popped], availIndex := Slot(|s.ring|, x),
          availWrap := Wrap(|s.ring|, x))
  {
    PopTakesNext(s);
  }

  lemma {:induction false} PopKeeps(s: State)
    requires Joint(s)
    ensures Joint(Apply(s, PopNext))
  {
    PopState(s);
    if s.popped < |s.published| {
      var x := s.Pop() + |s.published[s.popped]|;
      var s' := s.(popped := s.popped + 1, held := s.held + [s.popped], availIndex := Slot(|s.ring|, x),
        availWrap := Wrap(|s.ring|, x));
      PopKeepsCounts(s, s');
      PopDistributes(s);
      SameRing(s, s');
    }
  }

  /** Position `x` reads the same in both rings. */
  ghost predicate Untouched(ring: seq<Descriptor>, ring': seq<Descriptor>, x: nat) {
    |ring| == |ring'| > 0 && ring'[Slot(|ring|, x)] == ring[Slot(|ring|, x)]
  }

  lemma {:induction false} ChainStays(ring: seq<Descriptor>, ring': seq<Descriptor>, x: nat, c: Chain, from: nat)
    requires |ring| == |ring'| > 0 && ChainAt(ring, x, c, from)
    requires forall y: nat :: x + from <= y < x + |c| ==> Untouched(ring, ring', y)
    ensures ChainAt(ring', x, c, from)
  {
    forall j: nat | from <= j < |c| ensures OfferedAt(ring', x, c, j) {
      assert OfferedAt(ring, x, c, j) && Untouched(ring, ring', x + j);
    }
  }

  /** A buffer still to be popped lies between the two cursors. */
  lemma {:induction false} WaitingBounds(s: State, k: nat)
    requires Shape(s) && s.popped <= k < |s.published|
    ensures s.Pop() <= |s.ring| + LenTo(s.published, k)
    ensures |s.ring| + LenTo(s.published, k) + |s.published[k]| <= s.Offer()
  {
    LenToGrows(s.published, k, |s.published|);
    if s.popped < k { LenToGrows(s.published, s.popped, k); }
  }

  /** Buffers waiting to be popped stay as they are while their positions do. */
  lemma {:induction false} WaitingStays(s: State, s': State, k: nat)
    requires Shape(s) && Shape(s') && s.popped <= k < |s.published| <= |s'.published| && WaitingAt(s, k)
    requires |s'.ring| == |s.ring| && s'.published[k] == s.published[k]
      && LenTo(s'.published, k) == LenTo(s.published, k)
    requires forall y: nat :: s.Pop() <= y < s.Offer() ==> Untouched(s.ring, s'.ring, y)
    ensures WaitingAt(s', k)
  {
    WaitingBounds(s, k);
    ChainStays(s.ring, s'.ring, |s.ring| + LenTo(s.published, k), s.published[k], 0);
  }

  /** A completion not yet taken back stays while its slot does. */
  lemma {:induction false} CompletionStays(s: State, s': State, j: nat)
    requires Shape(s) && Shape(s') && s.reclaimed <= j < |s.done| <= |s'.done| && CompletionAt(s, j)
    requires |s'.ring| == |s.ring| && s'.done[j] == s.done[j] && s.done[j] < |s'.published|
      && s'.published[s.done[j]] == s.published[s.done[j]]
    requires StartOf(s', j) == StartOf(s, j)
    requires forall y: nat :: s.Reclaim() <= y < s.Use() ==> Untouched(s.ring, s'.ring, y)
    ensures CompletionAt(s', j)
  {
    StartBounds(s, j);
    assert Untouched(s.ring, s'.ring, StartOf(s, j));
  }

  // ---- releasing ------------------------------------------------------------------------------

  /** Whatever request comes back, in whatever order, its completion has a place. */
  lemma {:induction false} ReleaseHasRoom(s: State, i: nat)
    requires Joint(s) && i < |s.held|
    ensures s.ring[s.usedIndex].Ready(s.usedWrap)
    ensures s.Use() + |s.published[s.held[i]]| <= s.Pop()
  {
    TotalRemove(s.published, s.held, i, |s.held|);
    assert IsChain(s.published[s.held[i]]);
    assert ParityAt(s.ring, s.Use()) && UnusedAt(s.ring, s.Use());
  }

  lemma {:induction false} ReleaseMoves(s: State, i: nat, written: nat)
    requires Shape(s) && Cursors(s) && i < |s.held|
    ensures var s' := Apply(s, Release(i, written));
      && Shape(s') && s'.Use() == s.Use() + |s.published[s.held[i]]| && s'.Reclaim() == s.Reclaim()
      && TotalTo(s'.published, s'.held, |s'.held|) + |s.published[s.held[i]]| == TotalTo(s.published, s.held, |s.held|)
  {
    var n := s.held[i];
    TotalRemove(s.published, s.held, i, |s.held|);
    TotalPrefix(s.published, s.done, n, |s.done|);
    TotalPrefix(s.published, s.done, n, s.reclaimed);
  }

  lemma {:induction false} ReleaseKeepsCounts(s: State, i: nat, written: nat)
    requires Shape(s) && Counts(s) && Cursors(s) && i < |s.held|
    ensures var s' := Apply(s, Release(i, written));
      && Shape(s') && Counts(s') && Cursors(s')
      && s'.Use() == s.Use() + |s.published[s.held[i]]| && s'.Reclaim() == s.Reclaim()
  {
    ReleaseMoves(s, i, written);
    Jump(|s.ring|, s.Use(), |s.published[s.held[i]]|);
  }

  lemma {:induction false} MovedOver(done: seq<nat>, held: seq<nat>, i: nat)
    requires i < |held|
    ensures multiset(done + [held[i]]) + multiset(Without(held, i)) == multiset(done) + multiset(held)
  {
    assert held == held[..i] + [held[i]] + held[i + 1..];
  }

  /** A completion touches one position, the used cursor's. */
  lemma {:induction false} ReleaseTouches(s: State, i: nat, written: nat, x: nat)
    requires Shape(s) && Cursors(s) && i < |s.held| && x != s.Use() && x < s.Use() + |s.ring| && s.Use() < x + |s.ring|
    ensures Untouched(s.ring, Apply(s, Release(i, written)).ring, x)
  {
    if x < s.Use() { Apart(|s.ring|, x, s.Use()); } else { Apart(|s.ring|, s.Use(), x); }
  }

  lemma {:induction false} ReleaseKeepsFlags(s: State, s': State, i: nat, written: nat)
    requires Shape(s) && Shape(s') && Counts(s) && Counts(s') && Cursors(s) && Parity(s) && NotUsed(s)
    requires i < |s.held| && s' == Apply(s, Release(i, written)) && s.Use() < s'.Use() && s'.Use() <= s.Pop()
    ensures Parity(s') && NotUsed(s')
  {
    assert s'.Offer() == s.Offer();
    forall x: nat | (s.Offer() + |s.pending| <= x + |s.ring| && x < s.Offer()) || x + |s.ring| == s.Offer()
      ensures ParityAt(s'.ring, x) {
      assert ParityAt(s.ring, x);
      if x != s.Use() { ReleaseTouches(s, i, written, x); }
    }
    forall x: nat | s'.Use() <= x < s'.Offer() ensures UnusedAt(s'.ring, x) {
      assert UnusedAt(s.ring, x);
      ReleaseTouches(s, i, written, x);
    }
  }

  lemma {:induction false} ReleaseKeepsContents(s: State, s': State, i: nat, written: nat)
    requires Shape(s) && Shape(s') && Counts(s) && Counts(s') && Cursors(s) && Contents(s)
    requires i < |s.held| && s' == Apply(s, Release(i, written)) && s.Use() < s'.Use() && s'.Use() <= s.Pop()
    ensures Contents(s')
  {
    forall y: nat | s.Pop() <= y < s.Offer() + |s.pending| ensures Untouched(s.ring, s'.ring, y) {
      ReleaseTouches(s, i, written, y);
    }
    forall k: nat | s'.popped <= k < |s'.published| ensures WaitingAt(s', k) {
      assert WaitingAt(s, k);
      WaitingStays(s, s', k);
    }
    ChainStays(s.ring, s'.ring, s.Offer(), s.pending, 1);
  }

  lemma {:induction false} ReleaseKeepsCompletions(s: State, s': State, i: nat, written: nat)
    requires Shape(s) && Shape(s') && Counts(s) && Cursors(s) && Completions(s)
    requires i < |s.held| && s' == Apply(s, Release(i, written)) && s.Use() < s.Pop()
    ensures Completions(s')
  {
    forall y: nat | s.Reclaim() <= y < s.Use() ensures Untouched(s.ring, s'.ring, y) {
      ReleaseTouches(s, i, written, y);
    }
    forall j: nat | s'.reclaimed <= j < |s'.done| ensures CompletionAt(s', j) {
      TotalPrefix(s.published, s.done, s.held[i], j);
      if j < |s.done| {
        assert CompletionAt(s, j);
        CompletionStays(s, s', j);
      }
    }
  }

  lemma {:induction false} ReleaseKeeps(s: State, i: nat, written: nat)
    requires Joint(s) && i < |s.held|
    ensures Joint(Apply(s, Release(i, written)))
  {
    var s' := Apply(s, Release(i, written));
    ReleaseKeepsCounts(s, i, written);
    ReleaseHasRoom(s, i);
    assert IsChain(s.published[s.held[i]]);
    assert Distributed(s') by { MovedOver(s.done, s.held, i); }
    ReleaseKeepsFlags(s, s', i, written);
    ReleaseKeepsContents(s, s', i, written);
    ReleaseKeepsCompletions(s, s', i, written);
  }

  // ---- publishing -----------------------------------------------------------------------------

  /** Where BodyWritten puts things, by position. */
  lemma {:induction false} BodyAt(ring: seq<Descriptor>, c: Chain, at: nat, n: nat, x: nat)
    requires 0 < n <= |c| <= |ring|
    ensures at < x < at + n ==> BodyWritten(ring, c, at, n)[Slot(|ring|, x)] == c[x - at].Offered(Wrap(|ring|, x))
    ensures at + n <= x + |ring| && x <= at ==> BodyWritten(ring, c, at, n)[Slot(|ring|, x)] == ring[Slot(|ring|, x)]
    decreases n
  {
    if n > 1 {
      BodyAt(ring, c, at, n - 1, x);
      if at + n <= x + |ring| && x < at + n - 1 { Apart(|ring|, x, at + n - 1); }
    }
  }

  lemma {:induction false} BodyTouches(s: State, c: Chain, x: nat)
    requires Shape(s) && Enabled(s, WriteBody(c)) && s.Offer() + |c| <= x + |s.ring| && x <= s.Offer()
    ensures Untouched(s.ring, Apply(s, WriteBody(c)).ring, x)
  {
    BodyAt(s.ring, c, s.Offer(), |c|, x);
  }

  lemma {:induction false} BodyKeepsCounts(s: State, c: Chain)
    requires Shape(s) && Counts(s) && Cursors(s) && Enabled(s, WriteBody(c))
    ensures var s' := Apply(s, WriteBody(c));
      && Shape(s') && Counts(s') && Cursors(s')
      && s'.Offer() == s.Offer() && s'.Pop() == s.Pop() && s'.Use() == s.Use() && s'.Reclaim() == s.Reclaim()
  {
  }

  lemma {:induction false} BodyKeepsFlags(s: State, s': State, c: Chain)
    requires Shape(s) && Counts(s) && Parity(s) && NotUsed(s) && Enabled(s, WriteBody(c))
      && s' == Apply(s, WriteBody(c))
    requires Shape(s') && s'.Offer() == s.Offer() && s'.Use() == s.Use()
    ensures Parity(s') && NotUsed(s')
  {
    forall x: nat | (s.Offer() + |c| <= x + |s.ring| && x < s.Offer()) || x + |s.ring| == s.Offer()
      ensures ParityAt(s'.ring, x) {
      assert ParityAt(s.ring, x);
      if x + |s.ring| == s.Offer() {
        Lap(|s.ring|, x);
        BodyTouches(s, c, s.Offer());
      } else {
        BodyTouches(s, c, x);
      }
    }
    forall x: nat | s'.Use() <= x < s'.Offer() ensures UnusedAt(s'.ring, x) {
      assert UnusedAt(s.ring, x);
      BodyTouches(s, c, x);
    }
  }

  lemma {:induction false} BodyKeepsContents(s: State, s': State, c: Chain)
    requires Shape(s) && Counts(s) && Contents(s) && Completions(s) && Enabled(s, WriteBody(c))
      && s' == Apply(s, WriteBody(c))
    requires Shape(s') && s'.Offer() == s.Offer()
    ensures Contents(s') && Completions(s')
  {
    forall y: nat | s.Reclaim() <= y < s.Offer() ensures Untouched(s.ring, s'.ring, y) { BodyTouches(s, c, y); }
    forall k: nat | s'.popped <= k < |s'.published| ensures WaitingAt(s', k) {
      assert WaitingAt(s, k);
      WaitingStays(s, s', k);
    }
    forall j: nat | 1 <= j < |c| ensures OfferedAt(s'.ring, s.Offer(), c, j) {
      BodyAt(s.ring, c, s.Offer(), |c|, s.Offer() + j);
    }
    forall j: nat | s'.reclaimed <= j < |s'.done| ensures CompletionAt(s', j) {
      assert CompletionAt(s, j);
      CompletionStays(s, s', j);
    }
  }

  lemma {:induction false} BodyKeeps(s: State, c: Chain)
    requires Joint(s) && Enabled(s, WriteBody(c))
    ensures Joint(Apply(s, WriteBody(c)))
  {
    var s' := Apply(s, WriteBody(c));
    BodyKeepsCounts(s, c);
    BodyKeepsFlags(s, s', c);
    BodyKeepsContents(s, s', c);
  }

  /** Where everyone stands when another chain is published. */
  lemma {:induction false} PublishPlaces(s: State)
    requires Shape(s) && Enabled(s, Publish)
    ensures var s' := Apply(s, Publish);
      && Shape(s') && s'.Offer() == s.Offer() + |s.pending| && s'.Pop() == s.Pop() && s'.Use() == s.Use()
      && s'.Reclaim() == s.Reclaim()
      && TotalTo(s'.published, s.held, |s.held|) == TotalTo(s.published, s.held, |s.held|)
  {
    LenToPrefix(s.published, s.pending, |s.published|);
    LenToPrefix(s.published, s.pending, s.popped);
    TotalMoreChains(s.published, s.pending, s.done, |s.done|);
    TotalMoreChains(s.published, s.pending, s.held, |s.held|);
    TotalMoreChains(s.published, s.pending, s.done, s.reclaimed);
  }

  lemma {:induction false} PublishKeepsCounts(s: State)
    requires Shape(s) && Counts(s) && Cursors(s) && Enabled(s, Publish)
    ensures var s' := Apply(s, Publish);
      && Shape(s') && Counts(s') && Cursors(s')
      && s'.Offer() == s.Offer() + |s.pending| && s'.Pop() == s.Pop() && s'.Use() == s.Use()
      && s'.Reclaim() == s.Reclaim()
  {
    PublishPlaces(s);
  }

  lemma {:induction false} PublishTouches(s: State, x: nat)
    requires Shape(s) && Enabled(s, Publish) && x != s.Offer() && x < s.Offer() + |s.ring| && s.Offer() < x + |s.ring|
    ensures Untouched(s.ring, Apply(s, Publish).ring, x)
  {
    if x < s.Offer() { Apart(|s.ring|, x, s.Offer()); } else { Apart(|s.ring|, s.Offer(), x); }
  }

  /** The new buffer is there as a whole once its first descriptor is. */
  lemma {:induction false} PublishCompletesChain(s: State, s': State)
    requires Shape(s) && Contents(s) && Enabled(s, Publish) && s' == Apply(s, Publish)
    ensures ChainAt(s'.ring, s.Offer(), s.pending, 0)
  {
    forall j: nat | j < |s.pending| ensures OfferedAt(s'.ring, s.Offer(), s.pending, j) {
      if j > 0 {
        assert OfferedAt(s.ring, s.Offer(), s.pending, j);
        PublishTouches(s, s.Offer() + j);
      }
    }
  }

  lemma {:induction false} PublishKeepsFlags(s: State, s': State)
    requires Shape(s) && Shape(s') && Counts(s) && Parity(s) && NotUsed(s) && Enabled(s, Publish)
      && s' == Apply(s, Publish)
    requires ChainAt(s'.ring, s.Offer(), s.pending, 0) && s'.Offer() == s.Offer() + |s.pending| && s'.Use() == s.Use()
    ensures Parity(s') && NotUsed(s')
  {
    var d := s.Offer();
    forall x: nat | (s'.Offer() <= x + |s.ring| && x < s'.Offer()) || x + |s.ring| == s'.Offer()
      ensures ParityAt(s'.ring, x) {
      if x < d {
        assert ParityAt(s.ring, x);
        PublishTouches(s, x);
      } else {
        assert OfferedAt(s'.ring, d, s.pending, x - d);
      }
    }
    forall x: nat | s'.Use() <= x < s'.Offer() ensures UnusedAt(s'.ring, x) {
      if x < d {
        assert UnusedAt(s.ring, x);
        PublishTouches(s, x);
      } else {
        assert OfferedAt(s'.ring, d, s.pending, x - d);
      }
    }
  }

  lemma {:induction false} PublishKeepsContents(s: State, s': State)
    requires Shape(s) && Shape(s') && Counts(s) && Contents(s) && Completions(s) && Enabled(s, Publish)
      && s' == Apply(s, Publish)
    requires ChainAt(s'.ring, s.Offer(), s.pending, 0)
    ensures Contents(s') && Completions(s')
  {
    forall y: nat | s.Reclaim() <= y < s.Offer() ensures Untouched(s.ring, s'.ring, y) { PublishTouches(s, y); }
    forall k: nat | s'.popped <= k < |s'.published| ensures WaitingAt(s', k) {
      LenToPrefix(s.published, s.pending, k);
      if k < |s.published| {
        assert WaitingAt(s, k);
        WaitingStays(s, s', k);
      }
    }
    forall j: nat | s'.reclaimed <= j < |s'.done| ensures CompletionAt(s', j) {
      TotalMoreChains(s.published, s.pending, s.done, j);
      assert CompletionAt(s, j);
      CompletionStays(s, s', j);
    }
  }

  lemma {:induction false} PublishKeeps(s: State)
    requires Joint(s) && Enabled(s, Publish)
    ensures Joint(Apply(s, Publish))
  {
    var s' := Apply(s, Publish);
    PublishKeepsCounts(s);
    PublishCompletesChain(s, s');
    PublishKeepsFlags(s, s');
    PublishKeepsContents(s, s');
  }

  // ---- taking back ----------------------------------------------------------------------------

  /** The driver finds a completion exactly when there is one, and it carries the right id. */
  lemma {:induction false} DriverSeesCompletion(s: State)
    requires Joint(s)
    ensures s.ring[Slot(|s.ring|, s.Reclaim())].Done(Wrap(|s.ring|, s.Reclaim())) <==> s.reclaimed < |s.done|
    ensures s.reclaimed < |s.done| ==>
      s.ring[Slot(|s.ring|, s.Reclaim())].id == s.published[s.done[s.reclaimed]][0].id
  {
    if s.reclaimed < |s.done| {
      assert CompletionAt(s, s.reclaimed);
    } else {
      if s.Use() == s.Offer() {
        Lap(|s.ring|, s.Offer() - |s.ring|);
        assert ParityAt(s.ring, s.Offer() - |s.ring|);
      } else {
        assert ParityAt(s.ring, s.Use()) && UnusedAt(s.ring, s.Use());
      }
    }
  }

  /**
   The device takes a buffer's id from its first descriptor, and a driver goes by the last one's: what the
   driver finds is the buffer's id exactly when the two are the same.
   */
  lemma {:induction false} RightIdExactly(s: State)
    requires Joint(s) && s.reclaimed < |s.done|
    ensures var c := s.published[s.done[s.reclaimed]];
      |c| > 0 && (s.ring[Slot(|s.ring|, s.Reclaim())].id == BufferId(c) <==> c[0].id == c[|c| - 1].id)
  {
    DriverSeesCompletion(s);
    assert IsChain(s.published[s.done[s.reclaimed]]);
  }

  lemma {:induction false} TakeBackKeepsCounts(s: State, s': State)
    requires Shape(s) && Counts(s) && Cursors(s) && s.reclaimed < |s.done| && s' == s.(reclaimed := s.reclaimed + 1)
    ensures Shape(s') && Counts(s') && Cursors(s')
  {
    TotalGrows(s.published, s.done, s.reclaimed, |s.done|);
  }

  lemma {:induction false} TakeBackKeeps(s: State)
    requires Joint(s) && Enabled(s, TakeBack)
    ensures Joint(Apply(s, TakeBack))
  {
    TakeBackKeepsCounts(s, Apply(s, TakeBack));
    SameRing(s, Apply(s, TakeBack));
  }

  lemma {:induction false} JointStep(s: State, step: Step)
    requires Joint(s) && Enabled(s, step)
    ensures Joint(Apply(s, step))
  {
    match step
    case WriteBody(c) => BodyKeeps(s, c);
    case Publish => PublishKeeps(s);
    case PopNext => PopKeeps(s);
    case Release(i, written) => ReleaseKeeps(s, i, written);
    case TakeBack => TakeBackKeeps(s);
  }

  // ---- whole runs -----------------------------------------------------------------------------

  /** A ring just set up: every descriptor zero, both wrap flags true. */
  predicate Init(s: State) {
    && 0 < |s.ring| <= MAX_QUEUE
    && (forall i :: 0 <= i < |s.ring| ==> !s.ring[i].avail && !s.ring[i].used)
    && s == State(s.ring, 0, true, 0, true, [], [], 0, [], [], 0)
  }

  lemma {:induction false} JointInit(s: State)
    requires Init(s)
    ensures Joint(s)
  {
    forall x: nat | x < |s.ring| ensures ParityAt(s.ring, x) { Jump(|s.ring|, 0, x); }
    Lap(|s.ring|, 0);
    assert Iota(0) == [];
  }

  ghost predicate IsRun(s: State, steps: seq<Step>)
    decreases |steps|
  {
    steps == [] || (Enabled(s, steps[0]) && IsRun(Apply(s, steps[0]), steps[1..]))
  }

  ghost function Exec(s: State, steps: seq<Step>): State
    requires IsRun(s, steps)
    decreases |steps|
  {
    if steps == [] then s else Exec(Apply(s, steps[0]), steps[1..])
  }

  /** What a step hands to the device, stripped of the lap's flags. */
  ghost function StepYield(s: State, step: Step): seq<Chain>
    requires Enabled(s, step)
  {
    if !step.PopNext? then []
    else
      var t := TakeChain(s.ring, s.availIndex, s.availWrap, |s.ring|);
      if t.None? then [] else [Bare(t.value.descs)]
  }

  /** What the pops of a run hand to the device. */
  ghost function Yields(s: State, steps: seq<Step>): seq<Chain>
    requires IsRun(s, steps)
    decreases |steps|
  {
    if steps == [] then [] else StepYield(s, steps[0]) + Yields(Apply(s, steps[0]), steps[1..])
  }

  /** What the driver offers in a run, in order. */
  ghost function Offers(s: State, steps: seq<Step>): seq<Chain>
    requires IsRun(s, steps)
    decreases |steps|
  {
    if steps == [] then []
    else (if steps[0].Publish? then [Bare(s.pending)] else []) + Offers(Apply(s, steps[0]), steps[1..])
  }

  function Bare(c: Chain): (r: Chain)
    ensures |r| == |c|
  {
    seq(|c|, k requires 0 <= k < |c| => c[k].Offered(true))
  }

  function BareAll(cs: seq<Chain>): (r: seq<Chain>)
    ensures |r| == |cs| && forall k :: 0 <= k < |cs| ==> r[k] == Bare(cs[k])
  {
    seq(|cs|, k requires 0 <= k < |cs| => Bare(cs[k]))
  }

  lemma {:induction false} BareOffered(size: nat, c: Chain, x: nat)
    requires size > 0
    ensures Bare(OfferedFrom(size, c, x, 0)) == Bare(c)
  {
    var o := OfferedFrom(size, c, x, 0);
    forall k | 0 <= k < |c| ensures Bare(o)[k] == Bare(c)[k] { assert o[k] == c[k].Offered(Wrap(size, x + k)); }
  }

  lemma {:induction false} StepOffers(s: State, step: Step)
    requires Enabled(s, step)
    ensures BareAll(Apply(s, step).published) == BareAll(s.published) + (if step.Publish? then [Bare(s.pending)]
      else [])
  {
  }

  lemma {:induction false} RunJoint(s: State, steps: seq<Step>)
    requires Joint(s) && IsRun(s, steps)
    ensures Joint(Exec(s, steps))
    decreases |steps|
  {
    if steps != [] {
      JointStep(s, steps[0]);
      RunJoint(Apply(s, steps[0]), steps[1..]);
    }
  }

  lemma {:induction false} RunOffers(s: State, steps: seq<Step>)
    requires IsRun(s, steps)
    ensures BareAll(Exec(s, steps).published) == BareAll(s.published) + Offers(s, steps)
    decreases |steps|
  {
    if steps != [] {
      var s', rest := Apply(s, steps[0]), steps[1..];
      StepOffers(s, steps[0]);
      RunOffers(s', rest);
      ChainsJoined(BareAll(s.published), if steps[0].Publish? then [Bare(s.pending)] else [], Offers(s', rest));
    }
  }

  lemma {:induction false} ChainsJoined(a: seq<Chain>, b: seq<Chain>, c: seq<Chain>)
    ensures a + b + c == a + (b + c)
  {
  }

  /** What a single step yields: the next published buffer at a successful pop, else nothing. */
  lemma {:induction false} StepYields(s: State, step: Step)
    requires Joint(s) && Enabled(s, step)
    ensures StepYield(s, step) == if step.PopNext? && s.popped < |s.published| then [Bare(s.published[s.popped])]
      else []
    ensures Apply(s, step).popped == s.popped + |StepYield(s, step)|
  {
    if step.PopNext? {
      PopTakesNext(s);
      if s.popped < |s.published| { BareOffered(|s.ring|, s.published[s.popped], s.Pop()); }
    }
  }

  lemma {:induction false} BareJoin(p: seq<Chain>, a: nat, t: nat, n: nat)
    requires a <= t <= n <= |p|
    ensures BareAll(p[a..t]) + BareAll(p[t..n]) == BareAll(p[a..n])
  {
    assert p[a..n] == p[a..t] + p[t..n];
  }

  /** A step's yield, read off the buffers published by the end of the run. */
  lemma {:induction false} YieldInPublished(s: State, step: Step, p: seq<Chain>)
    requires Joint(s) && Enabled(s, step)
    requires |s.published| <= |p| && (s.popped < |s.published| ==> p[s.popped] == s.published[s.popped])
    ensures s.popped <= Apply(s, step).popped <= |p|
    ensures StepYield(s, step) == BareAll(p[s.popped..Apply(s, step).popped])
  {
    StepYields(s, step);
  }

  /** The pops of a run yield the published buffers from where they were, in order, none skipped or repeated. */
  lemma {:induction false} RunYields(s: State, steps: seq<Step>)
    requires Joint(s) && IsRun(s, steps)
    ensures s.popped <= Exec(s, steps).popped <= |Exec(s, steps).published|
    ensures Yields(s, steps) == BareAll(Exec(s, steps).published[s.popped..Exec(s, steps).popped])
    decreases |steps|
  {
    if steps != [] {
      var t := Apply(s, steps[0]);
      JointStep(s, steps[0]);
      RunYields(t, steps[1..]);
      var last := Exec(t, steps[1..]);
      RunGrows(s, steps);
      if s.popped < |s.published| { RunKeepsPublished(s, steps, s.popped); }
      YieldInPublished(s, steps[0], last.published);
      BareJoin(last.published, s.popped, t.popped, last.popped);
    }
  }

  lemma {:induction false} RunGrows(s: State, steps: seq<Step>)
    requires IsRun(s, steps)
    ensures |s.published| <= |Exec(s, steps).published|
    decreases |steps|
  {
    if steps != [] { RunGrows(Apply(s, steps[0]), steps[1..]); }
  }

  lemma {:induction false} RunKeepsPublished(s: State, steps: seq<Step>, k: nat)
    requires IsRun(s, steps) && k < |s.published|
    ensures k < |Exec(s, steps).published| && Exec(s, steps).published[k] == s.published[k]
    decreases |steps|
  {
    if steps != [] { RunKeepsPublished(Apply(s, steps[0]), steps[1..], k); }
  }

  /**
   Over every run from a fresh ring: what the device was handed is what the driver published, in
   order, as far as it got; and when the next pop finds nothing, it has had everything.
   */
  lemma {:induction false} ExactlyOnceInOrder(s: State, steps: seq<Step>)
    requires Init(s) && IsRun(s, steps)
    ensures Yields(s, steps) <= Offers(s, steps)
    ensures var s' := Exec(s, steps);
      Joint(s') && (!s'.ring[s'.availIndex].Ready(s'.availWrap) <==> Yields(s, steps) == Offers(s, steps))
    ensures var s' := Exec(s, steps); s'.held != [] ==> s'.ring[s'.usedIndex].Ready(s'.usedWrap)
  {
    JointInit(s);
    RunJoint(s, steps);
    RunOffers(s, steps);
    RunYields(s, steps);
    var s' := Exec(s, steps);
    assert BareAll(s.published) == [];
    assert s'.published[0..s'.popped] == s'.published[..s'.popped];
    assert BareAll(s'.published[..s'.popped]) == BareAll(s'.published)[..s'.popped];
    PopTakesNext(s');
    if s'.held != [] { ReleaseHasRoom(s', 0); }
  }

  // ---- ids that differ ------------------------------------------------------------------------

  lemma {:induction false} ExecCons(s: State, step: Step, rest: seq<Step>)
    requires Enabled(s, step) && IsRun(Apply(s, step), rest)
    ensures IsRun(s, [step] + rest) && Exec(s, [step] + rest) == Exec(Apply(s, step), rest)
  {
    assert ([step] + rest)[1..] == rest;
  }

  lemma {:induction false} FourSteps(s0: State, a: Step, b: Step, c: Step, d: Step)
    requires Enabled(s0, a) && Enabled(Apply(s0, a), b) && Enabled(Apply(Apply(s0, a), b), c)
    requires Enabled(Apply(Apply(Apply(s0, a), b), c), d)
    ensures IsRun(s0, [a, b, c, d]) && Exec(s0, [a, b, c, d]) == Apply(Apply(Apply(Apply(s0, a), b), c), d)
  {
    var s1 := Apply(s0, a);
    var s2 := Apply(s1, b);
    var s3 := Apply(s2, c);
    var none: seq<Step> := [];
    ExecCons(s3, d, none);
    ExecCons(s2, c, [d] + none);
    ExecCons(s1, b, [c] + ([d] + none));
    ExecCons(s0, a, [b] + ([c] + ([d] + none)));
    assert [a] + ([b] + ([c] + ([d] + none))) == [a, b, c, d];
  }

  /** A completion of buffer `c` waits, and the id on it is not the buffer's. */
  ghost predicate WrongId(s: State, c: Chain) {
    && Joint(s) && s.reclaimed < |s.done| && s.published[s.done[s.reclaimed]] == c && |c| > 0
    && s.ring[Slot(|s.ring|, s.Reclaim())].Done(Wrap(|s.ring|, s.Reclaim()))
    && s.ring[Slot(|s.ring|, s.Reclaim())].id != BufferId(c)
  }

  lemma {:induction false} OfferOne(s0: State, c: Chain)
    requires Init(s0) && IsChain(c) && |c| <= |s0.ring|
    ensures Joint(s0) && Enabled(s0, WriteBody(c)) && Enabled(Apply(s0, WriteBody(c)), Publish)
    ensures var s := Apply(Apply(s0, WriteBody(c)), Publish);
      Joint(s) && s.published == [c] && s.popped == 0 && s.held == [] && s.done == [] && s.reclaimed == 0
  {
    JointInit(s0);
    JointStep(s0, WriteBody(c));
    JointStep(Apply(s0, WriteBody(c)), Publish);
  }

  lemma {:induction false} PopAndRelease(s: State, c: Chain)
    requires Joint(s) && s.published == [c] && s.popped == 0 && s.held == [] && s.done == [] && s.reclaimed == 0
    requires c != [] && c[0].id != c[|c| - 1].id
    ensures Enabled(s, PopNext) && Enabled(Apply(s, PopNext), Release(0, 0))
    ensures WrongId(Apply(Apply(s, PopNext), Release(0, 0)), c)
  {
    PopState(s);
    JointStep(s, PopNext);
    ReleaseOne(Apply(s, PopNext), c);
  }

  lemma {:induction false} ReleaseOne(s: State, c: Chain)
    requires Joint(s) && s.published == [c] && s.held == [0] && s.done == [] && s.reclaimed == 0
    requires c != [] && c[0].id != c[|c| - 1].id
    ensures Enabled(s, Release(0, 0)) && WrongId(Apply(s, Release(0, 0)), c)
  {
    var s' := Apply(s, Release(0, 0));
    JointStep(s, Release(0, 0));
    DriverSeesCompletion(s');
    RightIdExactly(s');
  }

  /** Every buffer whose first and last ids differ is misread, on a ring of any size that holds it. */
  lemma {:induction false} SplitIdsMisread(s0: State, c: Chain)
    requires Init(s0) && IsChain(c) && |c| <= |s0.ring| && c[0].id != c[|c| - 1].id
    ensures var steps := [WriteBody(c), Publish, PopNext, Release(0, 0)];
      IsRun(s0, steps) && WrongId(Exec(s0, steps), c)
  {
    OfferOne(s0, c);
    PopAndRelease(Apply(Apply(s0, WriteBody(c)), Publish), c);
    FourSteps(s0, WriteBody(c), Publish, PopNext, Release(0, 0));
  }
}
