/**
 One process's side of the wal-index protocol, in place: the word-run loop of flushNode, refreshNode,
 region mapping and the lock call. Each is proved to do what the protocol's steps do (WalIndex.dfy).
 */
module WalIndexNode {
  import opened WalIndex

  predicate InSpan(w: nat, start: nat, n: nat) {
    start <= w < start + n
  }

  ghost function Span(start: nat, n: nat): set<nat> {
    set w: nat | w < start + n && InSpan(w, start, n)
  }

  /** The -shm file. `touched` remembers which words were ever written. */
  class ShmFile {
    var words: seq<Word>
    ghost var touched: set<nat>

    constructor (content: seq<Word>)
      ensures words == content && touched == {}
    {
      words, touched := content, {};
    }

    /** pread: past the end, zeros, as a mapping has. */
    method ReadAt(start: nat, n: nat) returns (buf: seq<Word>)
      ensures |buf| == n && forall k :: 0 <= k < n ==> buf[k] == At(words, start + k)
      ensures forall k :: 0 <= k < n ==> buf[k] == if start + k < |words| then words[start + k] else 0
    {
      buf := [];
      while |buf| < n && start + |buf| < |words|
        invariant |buf| <= n && forall k :: 0 <= k < |buf| ==> buf[k] == At(words, start + k)
      {
        buf := buf + [words[start + |buf|]];
      }
      buf := buf + seq(n - |buf|, _ => 0);
    }

    /** pwrite: a hole before `start` reads as zeros. */
    method WriteAt(start: nat, buf: seq<Word>)
      modifies this
      ensures forall w: nat :: At(words, w) == if start <= w < start + |buf| then buf[w - start] else At(old(words), w)
      ensures touched == old(touched) + Span(start, |buf|)
    {
      if |words| < start {
        words := words + seq(start - |words|, _ => 0);
      }
      words := words[..start] + buf + (if start + |buf| <= |words| then words[start + |buf|..] else []);
      touched := touched + Span(start, |buf|);
    }
  }

  /** A connection's masks. */
  class ShimFile {
    var shared: set<nat>
    var excl: set<nat>

    constructor ()
      ensures shared == {} && excl == {}
    {
      shared, excl := {}, {};
    }
  }

  datatype Outcome = Ok | Busy

  /** The words of a flush that went out: those that differ from the shadow. */
  ghost function Changed(mem: seq<Word>, shadow: seq<Word>, a: nat, b: nat): set<nat>
    requires |mem| == |shadow| && a <= b <= |mem|
  {
    set w: nat | a <= w < b && mem[w] != shadow[w]
  }

  class ShmNode {
    var szRegion: nat
    var nRegion: nat
    var mem: array<Word>
    var shadow: array<Word>
    var aLock: array<int>

    constructor (szRegion: nat)
      requires szRegion >= INFO_WORDS
      ensures Valid() && fresh(mem) && fresh(shadow) && fresh(aLock)
      ensures nRegion == 0 && this.szRegion == szRegion && aLock[..] == seq(NLOCK, _ => 0)
    {
      this.szRegion, nRegion := szRegion, 0;
      mem, shadow := new Word[0], new Word[0];
      aLock := new int[NLOCK](_ => 0);
    }

    ghost predicate Valid()
      reads this
    {
      && szRegion >= INFO_WORDS
      && mem.Length == shadow.Length == nRegion * szRegion
      && aLock.Length == NLOCK && mem != shadow
    }

    /** A run of changed words from `at`, at most 128 and not past `end`, with what it holds now. */
    method ChangedRun(at: nat, end: nat) returns (chunk: seq<Word>)
      requires Valid() && at < end <= mem.Length && mem[at] != shadow[at]
      ensures 0 < |chunk| <= 128 && at + |chunk| <= end
      ensures chunk == mem[at..at + |chunk|]
      ensures forall w :: at <= w < at + |chunk| ==> mem[w] != shadow[w]
    {
      chunk := [mem[at]];
      while at + |chunk| < end && |chunk| < 128 && mem[at + |chunk|] != shadow[at + |chunk|]
        invariant 0 < |chunk| <= 128 && at + |chunk| <= end
        invariant chunk == mem[at..at + |chunk|]
        invariant forall w :: at <= w < at + |chunk| ==> mem[w] != shadow[w]
        decreases end - |chunk|
      {
        chunk := chunk + [mem[at + |chunk|]];
      }
    }

    /** One region of flushNode: runs of changed words go out, and are marked as written. */
    method FlushRegion(f: ShmFile, base: nat)
      requires Valid() && base + szRegion <= mem.Length
      modifies shadow, f
      ensures Valid()
      ensures forall w: nat :: At(f.words, w) == if base <= w < base + szRegion && mem[w] != old(shadow[w])
        then mem[w] else At(old(f.words), w)
      ensures f.touched == old(f.touched) + Changed(mem[..], old(shadow[..]), base, base + szRegion)
      ensures forall w :: 0 <= w < mem.Length ==> shadow[w] == if base <= w < base + szRegion then mem[w]
        else old(shadow[w])
    {
      var at, end := base, base + szRegion;
      while at < end
        invariant base <= at <= end
        invariant forall w :: 0 <= w < mem.Length ==> shadow[w] == if base <= w < at then mem[w] else old(shadow[w])
        invariant forall w: nat :: At(f.words, w) == if base <= w < at && mem[w] != old(shadow[w]) then mem[w]
          else At(old(f.words), w)
        invariant f.touched == old(f.touched) + Changed(mem[..], old(shadow[..]), base, at)
      {
        if mem[at] == shadow[at] {
          assert Changed(mem[..], old(shadow[..]), base, at + 1) == Changed(mem[..], old(shadow[..]), base, at);
          at := at + 1;
        } else {
          var chunk := ChangedRun(at, end);
          f.WriteAt(at, chunk);
          CopyIn(at, chunk);
          assert Changed(mem[..], old(shadow[..]), base, at + |chunk|)
              == Changed(mem[..], old(shadow[..]), base, at) + Span(at, |chunk|);
          at := at + |chunk|;
        }
      }
    }

    /** memcpy into the shadow. */
    method CopyIn(at: nat, chunk: seq<Word>)
      requires Valid() && at + |chunk| <= shadow.Length
      modifies shadow
      ensures forall w :: 0 <= w < shadow.Length ==> shadow[w] == if at <= w < at + |chunk| then chunk[w - at]
        else old(shadow[w])
    {
      for k := 0 to |chunk|
        invariant forall w :: 0 <= w < shadow.Length ==> shadow[w] == if at <= w < at + k then chunk[w - at]
          else old(shadow[w])
      {
        shadow[at + k] := chunk[k];
      }
    }

    /** What this process changed goes to the file: the changed words, all of them and no others. */
    method FlushNode(f: ShmFile)
      requires Valid()
      modifies shadow, f
      ensures Valid()
      ensures forall w: nat :: At(f.words, w) == At(Flushed(old(f.words), mem[..], old(shadow[..]), 0, mem.Length), w)
      ensures shadow[..] == FlushedShadow(mem[..], old(shadow[..]), 0, mem.Length)
      ensures f.touched == old(f.touched) + Changed(mem[..], old(shadow[..]), 0, mem.Length)
    {
      FlushRegions(f, f.words, shadow[..], f.touched);
    }

    /** Region after region. */
    method FlushRegions(f: ShmFile, ghost words0: seq<Word>, ghost shadow0: seq<Word>, ghost touched0: set<nat>)
      requires Valid() && words0 == f.words && shadow0 == shadow[..] && touched0 == f.touched
      modifies shadow, f
      ensures FlushedUpTo(f, words0, shadow0, touched0, mem.Length)
    {
      var base := 0;
      for i := 0 to nRegion
        invariant Valid() && base == i * szRegion <= mem.Length
        invariant FlushedUpTo(f, words0, shadow0, touched0, base)
      {
        RegionFits(i);
        FlushNext(f, base, words0, shadow0, touched0);
        base := base + szRegion;
      }
    }

    /** The words before `base` are flushed, the others as they were. */
    ghost predicate FlushedUpTo(f: ShmFile, words0: seq<Word>, shadow0: seq<Word>, touched0: set<nat>, base: nat)
      reads this, mem, shadow, f
    {
      && base <= mem.Length == shadow.Length == |shadow0|
      && (forall w :: 0 <= w < mem.Length ==> shadow[w] == if w < base then mem[w] else shadow0[w])
      && (forall w: nat :: At(f.words, w) == if w < base && mem[w] != shadow0[w] then mem[w] else At(words0, w))
      && f.touched == touched0 + Changed(mem[..], shadow0, 0, base)
    }

    method FlushNext(f: ShmFile, base: nat, ghost words0: seq<Word>, ghost shadow0: seq<Word>,
        ghost touched0: set<nat>)
      requires Valid() && base + szRegion <= mem.Length && FlushedUpTo(f, words0, shadow0, touched0, base)
      modifies shadow, f
      ensures FlushedUpTo(f, words0, shadow0, touched0, base + szRegion)
    {
      ghost var before := shadow[..];
      FlushRegion(f, base);
      assert Changed(mem[..], shadow0, 0, base + szRegion)
          == Changed(mem[..], shadow0, 0, base) + Changed(mem[..], before, base, base + szRegion);
    }

    lemma {:induction false} RegionFits(i: nat)
      requires Valid() && i < nRegion
      ensures i * szRegion + szRegion == (i + 1) * szRegion <= mem.Length
    {
      assert (nRegion - (i + 1)) * szRegion >= 0;
    }

    /** One word read in, into both copies. */
    method Take(at: nat, v: Word)
      requires Valid() && at < mem.Length
      modifies mem, shadow
      ensures forall w :: 0 <= w < mem.Length ==> mem[w] == if w == at then v else old(mem[w])
      ensures forall w :: 0 <= w < mem.Length ==> shadow[w] == if w == at then v else old(shadow[w])
    {
      shadow[at] := v;
      if mem[at] != v {
        mem[at] := v;
      }
    }

    /** One region's hash pages read in, when no connection here holds WRITE_LOCK. */
    method RefreshRegion(f: ShmFile, base: nat, from: nat)
      requires Valid() && from <= szRegion && base + szRegion <= mem.Length
      modifies mem, shadow
      ensures forall w :: 0 <= w < mem.Length ==> mem[w] == if base + from <= w < base + szRegion then At(f.words, w)
        else old(mem[w])
      ensures forall w :: 0 <= w < mem.Length ==> shadow[w] == if base + from <= w < base + szRegion
        then At(f.words, w) else old(shadow[w])
    {
      var buf := f.ReadAt(base + from, szRegion - from);
      for k := 0 to |buf|
        invariant forall w :: 0 <= w < mem.Length ==> mem[w] == if base + from <= w < base + from + k
          then At(f.words, w) else old(mem[w])
        invariant forall w :: 0 <= w < mem.Length ==> shadow[w] == if base + from <= w < base + from + k
          then At(f.words, w) else old(shadow[w])
      {
        Take(base + from + k, buf[k]);
      }
    }

    /** The hash pages of every region. */
    method RefreshHashPages(f: ShmFile)
      requires Valid() && nRegion > 0
      modifies mem, shadow
      ensures forall w :: 0 <= w < mem.Length ==> mem[w] == if INFO_WORDS <= w then At(f.words, w) else old(mem[w])
      ensures forall w :: 0 <= w < mem.Length ==> shadow[w] == if INFO_WORDS <= w then At(f.words, w)
        else old(shadow[w])
    {
      RegionFits(0);
      RefreshRegion(f, 0, INFO_WORDS);
      var base := szRegion;
      for i := 1 to nRegion
        invariant szRegion <= base == i * szRegion <= mem.Length
        invariant forall w :: 0 <= w < mem.Length ==> mem[w] == if INFO_WORDS <= w < base then At(f.words, w)
          else old(mem[w])
        invariant forall w :: 0 <= w < mem.Length ==> shadow[w] == if INFO_WORDS <= w < base then At(f.words, w)
          else old(shadow[w])
      {
        RegionFits(i);
        RefreshRegion(f, base, 0);
        base := base + szRegion;
      }
    }

    /** The file read in, except what this process owns. */
    method RefreshNode(f: ShmFile)
      requires Valid()
      modifies mem, shadow
      ensures Valid()
      ensures mem[..] == Refreshed(old(mem[..]), f.words, aLock[..])
      ensures shadow[..] == Refreshed(old(shadow[..]), f.words, aLock[..])
    {
      if nRegion == 0 { return; }
      RegionFits(0);
      var info := f.ReadAt(0, INFO_WORDS);
      if aLock[WRITE_LOCK] >= 0 {
        RefreshHashPages(f);
      }
      RefreshInfo(f, info);
    }

    /** The header and checkpoint words, one at a time. */
    method RefreshInfo(f: ShmFile, info: seq<Word>)
      requires Valid() && INFO_WORDS <= mem.Length && |info| == INFO_WORDS
      requires forall w :: 0 <= w < INFO_WORDS ==> info[w] == At(f.words, w)
      modifies mem, shadow
      ensures forall w :: 0 <= w < mem.Length ==> mem[w] == if w < INFO_WORDS && !OwnedHere(aLock[..], w)
        then At(f.words, w) else old(mem[w])
      ensures forall w :: 0 <= w < mem.Length ==> shadow[w] == if w < INFO_WORDS && !OwnedHere(aLock[..], w)
        then At(f.words, w) else old(shadow[w])
    {
      for at := 0 to INFO_WORDS
        invariant aLock[..] == old(aLock[..])
        invariant forall w :: 0 <= w < mem.Length ==> mem[w] == if w < at && !OwnedHere(aLock[..], w)
          then At(f.words, w) else old(mem[w])
        invariant forall w :: 0 <= w < mem.Length ==> shadow[w] == if w < at && !OwnedHere(aLock[..], w)
          then At(f.words, w) else old(shadow[w])
      {
        if !OwnedHere(aLock[..], at) {
          Take(at, info[at]);
        }
      }
    }

    /**
     An shm lock call. `kernelGrants` is what fcntl answers if asked. The call leaves the counts,
     masks and copies the protocol's Decide and Finish steps leave, the flush having come first.
     */
    method ShmLock(f: ShmFile, c: ShimFile, req: Request, kernelGrants: bool) returns (rc: Outcome)
      requires Valid() && req.Valid()
      modifies mem, shadow, aLock, f, c
      ensures Valid()
      ensures forall w: nat ::
        At(f.words, w) == At(Flushed(old(f.words), old(mem[..]), old(shadow[..]), 0, old(mem.Length)), w)
      ensures Decided(f, c, req, kernelGrants, rc, old(mem[..]), old(aLock[..]), old(c.shared), old(c.excl))
    {
      ghost var mem0, aLock0 := mem[..], aLock[..];
      FlushNode(f);
      assert shadow[..] == mem[..] == mem0 && aLock[..] == aLock0;
      rc := Decide(f, c, req, kernelGrants);
    }

    /**
     What a lock call leaves, its flush done: busy and nothing changed, the lock counted and both copies read in,
     or what was held let go.
     */
    ghost predicate Decided(f: ShmFile, c: ShimFile, req: Request, kernelGrants: bool, rc: Outcome, mem0: seq<Word>,
        aLock0: seq<int>, shared0: set<nat>, excl0: set<nat>)
      requires |aLock0| == NLOCK && req.Valid()
      reads this, mem, shadow, aLock, f, c
    {
      if req.LockShared? || req.LockExclusive? then
        if Grants(aLock0, shared0, req, kernelGrants) then
          rc == Ok && Taken(f, mem0, aLock0, req) && Holds(c, LockedConn(Conn(0, shared0, excl0), req))
        else
          && rc == (if req.LockShared? && req.slot in shared0 then Ok else Busy)
          && Left(c, mem0, aLock0, shared0, excl0)
      else
        && rc == Ok && mem[..] == mem0 == shadow[..] && Holds(c, LockedConn(Conn(0, shared0, excl0), req))
        && aLock[..] == if LetsGo(Conn(0, shared0, excl0), req) then LockedCounts(aLock0, req) else aLock0
    }

    ghost predicate Holds(c: ShimFile, conn: Conn)
      reads c
    {
      c.shared == conn.shared && c.excl == conn.excl
    }

    /** Nothing changed, but that both copies are equal. */
    ghost predicate Left(c: ShimFile, mem0: seq<Word>, aLock0: seq<int>, shared0: set<nat>, excl0: set<nat>)
      reads this, mem, shadow, aLock, c
    {
      && mem[..] == mem0 && shadow[..] == mem[..] && aLock[..] == aLock0 && c.shared == shared0 && c.excl == excl0
    }

    /** The call behind its flush, both copies equal. */
    method Decide(f: ShmFile, c: ShimFile, req: Request, kernelGrants: bool) returns (rc: Outcome)
      requires Valid() && req.Valid() && shadow[..] == mem[..]
      modifies mem, shadow, aLock, c
      ensures Valid()
      ensures Decided(f, c, req, kernelGrants, rc, old(mem[..]), old(aLock[..]), old(c.shared), old(c.excl))
    {
      match req
      case LockShared(i) => rc := LockOneShared(f, c, req, i, kernelGrants);
      case LockExclusive(ofst, n) => rc := LockRange(f, c, req, ofst, n, kernelGrants);
      case _ =>
        Unlock(c, req);
        rc := Ok;
    }

    /** The counts taken back if the connection held anything here, and its masks cleared. */
    method Unlock(c: ShimFile, req: Request)
      requires Valid() && req.Valid() && (req.UnlockShared? || req.UnlockExclusive?)
      modifies aLock, c
      ensures Valid()
      ensures aLock[..] == if req.Mask() !! (old(c.shared) + old(c.excl)) then old(aLock[..])
        else LockedCounts(old(aLock[..]), req)
      ensures c.shared == old(c.shared) - req.Mask() && c.excl == old(c.excl) - req.Mask()
    {
      if !(req.Mask() !! (c.shared + c.excl)) {
        match req
        case UnlockShared(i) => if aLock[i] > 1 { aLock[i] := aLock[i] - 1; } else { aLock[i] := 0; }
        case UnlockExclusive(ofst, n) => SetCounts(ofst, n, 0);
      }
      c.shared, c.excl := c.shared - req.Mask(), c.excl - req.Mask();
    }

    /** A shared lock on one slot, both copies equal. */
    method LockOneShared(f: ShmFile, c: ShimFile, req: Request, i: nat, kernelGrants: bool) returns (rc: Outcome)
      requires Valid() && req == LockShared(i) && i < NLOCK && shadow[..] == mem[..]
      modifies mem, shadow, aLock, c
      ensures Valid()
      ensures Decided(f, c, req, kernelGrants, rc, old(mem[..]), old(aLock[..]), old(c.shared), old(c.excl))
    {
      if i in c.shared { return Ok; }
      if aLock[i] < 0 || (aLock[i] == 0 && !kernelGrants) { return Busy; }
      TakeOne(f, req, i);
      c.shared := c.shared + req.Mask();
      rc := Ok;
    }

    /** Both copies read in, and the slot counted. */
    method TakeOne(f: ShmFile, ghost req: Request, i: nat)
      requires Valid() && req == LockShared(i) && i < NLOCK && shadow[..] == mem[..]
      modifies mem, shadow, aLock
      ensures Valid() && Taken(f, old(mem[..]), old(aLock[..]), req)
    {
      RefreshNode(f);
      aLock[i] := aLock[i] + 1;
    }

    /** An exclusive lock on some slots, both copies equal. */
    method LockRange(f: ShmFile, c: ShimFile, req: Request, ofst: nat, n: nat, kernelGrants: bool) returns (rc: Outcome)
      requires Valid() && req == LockExclusive(ofst, n) && req.Valid() && shadow[..] == mem[..]
      modifies mem, shadow, aLock, c
      ensures Valid()
      ensures Decided(f, c, req, kernelGrants, rc, old(mem[..]), old(aLock[..]), old(c.shared), old(c.excl))
    {
      var busy := AnyHeld(ofst, n);
      if busy || !kernelGrants { return Busy; }
      TakeRange(f, req, ofst, n);
      c.excl := c.excl + req.Mask();
      rc := Ok;
    }

    /** Both copies read in, and the slots counted. */
    method TakeRange(f: ShmFile, ghost req: Request, ofst: nat, n: nat)
      requires Valid() && req == LockExclusive(ofst, n) && req.Valid() && shadow[..] == mem[..]
      modifies mem, shadow, aLock
      ensures Valid() && Taken(f, old(mem[..]), old(aLock[..]), req)
    {
      RefreshNode(f);
      SetCounts(ofst, n, -1);
    }

    /** The copies and counts after a lock came through: both copies as read in, then the lock counted. */
    ghost predicate Taken(f: ShmFile, mem0: seq<Word>, aLock0: seq<int>, req: Request)
      reads this, mem, shadow, aLock, f
    {
      && |aLock0| == NLOCK && req.Valid()
      && mem[..] == Refreshed(mem0, f.words, aLock0) == shadow[..]
      && aLock[..] == LockedCounts(aLock0, req)
    }

    method AnyHeld(ofst: nat, n: nat) returns (held: bool)
      requires Valid() && ofst + n <= NLOCK
      ensures held == exists i :: ofst <= i < ofst + n && aLock[i] != 0
    {
      held := false;
      for i := ofst to ofst + n
        invariant held == exists k :: ofst <= k < i && aLock[k] != 0
      {
        if aLock[i] != 0 { held := true; }
      }
    }

    method SetCounts(ofst: nat, n: nat, v: int)
      requires Valid() && ofst + n <= NLOCK
      modifies aLock
      ensures forall i :: 0 <= i < NLOCK ==> aLock[i] == if ofst <= i < ofst + n then v else old(aLock[i])
    {
      for i := ofst to ofst + n
        invariant forall k :: 0 <= k < NLOCK ==> aLock[k] == if ofst <= k < i then v else old(aLock[k])
      {
        aLock[i] := v;
      }
    }

    /** xShmMap of one more region: both copies start as what the file holds. */
    method MapRegion(f: ShmFile)
      requires Valid()
      modifies this
      ensures Valid() && nRegion == old(nRegion) + 1 && szRegion == old(szRegion) && aLock == old(aLock)
      ensures fresh(mem) && fresh(shadow)
      ensures mem[..] == Mapped(old(mem[..]), f.words, szRegion)
      ensures shadow[..] == Mapped(old(shadow[..]), f.words, szRegion)
    {
      var buf := f.ReadAt(mem.Length, szRegion);
      var m, sh := mem[..] + buf, shadow[..] + buf;
      assert (nRegion + 1) * szRegion == |m|;
      mem := new Word[|m|](i requires 0 <= i < |m| => m[i]);
      shadow := new Word[|sh|](i requires 0 <= i < |sh| => sh[i]);
      nRegion := nRegion + 1;
      assert mem[..] == m && shadow[..] == sh;
    }
  }
}
