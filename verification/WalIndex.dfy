/**
 The wal-index without shared memory (python/patches/sqlite-shm.c), as a protocol over any number
 of processes and connections.

 Every process keeps a private copy of the wal-index and a shadow of what the file held. A lock call
 flushes, asks the kernel for the file lock, refreshes, and only then counts the lock as held. The
 steps below are cut where another process, or another connection of the same process, can get in
 between. `Abs` is the one shared memory this emulates; the theorems are in WalIndexProofs.dfy.
 */
module WalIndex {

  // The wal-index is read and written in whole 32-bit words; addresses here are word numbers.
  type Word = bv32

  const NLOCK: nat := 8
  const WRITE_LOCK: nat := 0
  const CKPT_LOCK: nat := 1
  const READ_LOCK_0: nat := 3
  /** Bytes 96 and 136: the end of the two header copies, and of the checkpoint information. */
  const HDR_WORDS: nat := 24
  const INFO_WORDS: nat := 34

  predicate IsReadMark(w: nat) {
    HDR_WORDS + 1 <= w < HDR_WORDS + 6
  }

  /** Is word `w` this process's now, judging by its own lock counts? */
  predicate OwnedHere(aLock: seq<int>, w: nat)
    requires |aLock| == NLOCK
  {
    if w < HDR_WORDS || w >= INFO_WORDS then aLock[WRITE_LOCK] < 0
    else if IsReadMark(w) then aLock[READ_LOCK_0 + (w - HDR_WORDS - 1)] < 0
    else
      || aLock[READ_LOCK_0] < 0
      || (aLock[WRITE_LOCK] < 0 && (aLock[READ_LOCK_0] != 0 || aLock[CKPT_LOCK] < 0))
  }

  // ---- the -shm file --------------------------------------------------------------------------

  /** A word of the file; past its end a read gives zeros. */
  function At(file: seq<Word>, w: nat): Word {
    if w < |file| then file[w] else 0
  }

  /** The file after the changed words among [a, b) went out to it. */
  function Flushed(file: seq<Word>, mem: seq<Word>, shadow: seq<Word>, a: nat, b: nat): (r: seq<Word>)
    requires |mem| == |shadow| && a <= b <= |mem|
    ensures forall w: nat :: At(r, w) == if a <= w < b && mem[w] != shadow[w] then mem[w] else At(file, w)
  {
    var n := if |file| < b then b else |file|;
    seq(n, w requires 0 <= w < n => if a <= w < b && mem[w] != shadow[w] then mem[w] else At(file, w))
  }

  /** The shadow after the same flush. */
  function FlushedShadow(mem: seq<Word>, shadow: seq<Word>, a: nat, b: nat): (r: seq<Word>)
    requires |mem| == |shadow| && a <= b <= |mem|
    ensures |r| == |mem| && forall w :: 0 <= w < |r| ==> r[w] == if a <= w < b then mem[w] else shadow[w]
  {
    shadow[..a] + mem[a..b] + shadow[b..]
  }

  /** A private copy after the file was read in: the words this process owns stay. */
  function Refreshed(copy: seq<Word>, file: seq<Word>, aLock: seq<int>): (r: seq<Word>)
    requires |aLock| == NLOCK
    ensures |r| == |copy|
    ensures forall w :: 0 <= w < |r| ==> r[w] == if OwnedHere(aLock, w) then copy[w] else At(file, w)
  {
    seq(|copy|, w requires 0 <= w < |copy| => if OwnedHere(aLock, w) then copy[w] else At(file, w))
  }

  /** Processes that changed different words flush in either order to the same file: neither overwrites the other. */
  lemma {:induction false} FlushesCommute(file: seq<Word>, m1: seq<Word>, s1: seq<Word>, m2: seq<Word>, s2: seq<Word>,
      w: nat)
    requires |m1| == |s1| && |m2| == |s2|
    requires forall k :: 0 <= k < |m1| && k < |m2| ==> m1[k] == s1[k] || m2[k] == s2[k]
    ensures At(Flushed(Flushed(file, m1, s1, 0, |m1|), m2, s2, 0, |m2|), w) ==
      At(Flushed(Flushed(file, m2, s2, 0, |m2|), m1, s1, 0, |m1|), w)
  {
    var one, two := Flushed(file, m1, s1, 0, |m1|), Flushed(file, m2, s2, 0, |m2|);
    assert At(Flushed(one, m2, s2, 0, |m2|), w) == if w < |m2| && m2[w] != s2[w] then m2[w] else At(one, w);
    assert At(Flushed(two, m1, s1, 0, |m1|), w) == if w < |m1| && m1[w] != s1[w] then m1[w] else At(two, w);
  }

  /**
   What a process flushed it reads back: a refresh right after leaves its copy as it was, exactly if every
   word it neither owns nor changed is what the file has.
   */
  lemma {:induction false} ReadsBack(file: seq<Word>, mem: seq<Word>, shadow: seq<Word>, aLock: seq<int>)
    requires |mem| == |shadow| && |aLock| == NLOCK
    ensures Refreshed(mem, Flushed(file, mem, shadow, 0, |mem|), aLock) == mem
      <==> forall w :: 0 <= w < |mem| && !OwnedHere(aLock, w) && mem[w] == shadow[w] ==> mem[w] == At(file, w)
  {
    var flushed := Flushed(file, mem, shadow, 0, |mem|);
    var r := Refreshed(mem, flushed, aLock);
    forall w | 0 <= w < |mem|
      ensures r[w] == mem[w] <==> (!OwnedHere(aLock, w) && mem[w] == shadow[w] ==> mem[w] == At(file, w))
    {
      assert At(flushed, w) == if mem[w] != shadow[w] then mem[w] else At(file, w);
    }
    if r == mem {
      forall w | 0 <= w < |mem| && !OwnedHere(aLock, w) && mem[w] == shadow[w] ensures mem[w] == At(file, w) {
        assert r[w] == mem[w];
      }
    }
  }

  /** The words of regions mapped for the first time. */
  function Mapped(copy: seq<Word>, file: seq<Word>, n: nat): (r: seq<Word>)
    ensures |r| == |copy| + n
    ensures forall w :: 0 <= w < |r| ==> r[w] == if w < |copy| then copy[w] else At(file, w)
  {
    copy + seq(n, i requires 0 <= i < n => At(file, |copy| + i))
  }

  // ---- lock calls -----------------------------------------------------------------------------

  /** The arguments of an shm lock call. SQLite takes shared locks one slot at a time. */
  datatype Request =
    | LockShared(slot: nat)
    | LockExclusive(ofst: nat, n: nat)
    | UnlockShared(slot: nat)
    | UnlockExclusive(ofst: nat, n: nat)
  {
    predicate Valid() {
      if LockShared? || UnlockShared? then slot < NLOCK else 0 < n && ofst + n <= NLOCK
    }

    /** Is slot `i` one of those the call is about? */
    predicate Covers(i: nat) {
      if LockShared? || UnlockShared? then i == slot else ofst <= i < ofst + n
    }

    function Mask(): (r: set<nat>)
      ensures Valid() ==> forall i :: i in r <==> Covers(i)
    {
      set i: nat | i < NLOCK && Covers(i)
    }
  }

  /** What a process holds in the kernel on one of the eight lock bytes. */
  datatype Hold = NoHold | Shared | Exclusive

  /** One connection's holds: sharedMask and exclMask. */
  datatype Conn = Conn(proc: nat, shared: set<nat>, excl: set<nat>) {
    /** May this connection, by SQLite's rules, write word `w`? */
    predicate MayWrite(w: nat) {
      if w < HDR_WORDS || w >= INFO_WORDS then WRITE_LOCK in excl
      else if IsReadMark(w) then READ_LOCK_0 + (w - HDR_WORDS - 1) in excl
      else
        || READ_LOCK_0 in excl
        || (WRITE_LOCK in excl && (READ_LOCK_0 in shared || CKPT_LOCK in excl))
    }

    /** SQLite's discipline: unlocks match locks; READ_LOCK(0) exclusive only under CKPT_LOCK. */
    predicate Conforms(req: Request) {
      req.Valid() &&
      match req
      case LockShared(_) => true
      case LockExclusive(_, _) => req.Covers(READ_LOCK_0) ==> req.Covers(CKPT_LOCK) || CKPT_LOCK in excl
      case UnlockShared(i) => i !in excl
      case UnlockExclusive(_, _) =>
        && req.Mask() !! shared
        && (req.Mask() <= excl || req.Mask() !! excl)
        && (req.Covers(CKPT_LOCK) && READ_LOCK_0 in excl ==> req.Covers(READ_LOCK_0))
    }
  }

  /** A lock call under way; the node's mutex allows one a process. */
  datatype Call =
    | Idle
    | Flushing(conn: nat, req: Request, at: nat)
    | Granted(conn: nat, req: Request)

  datatype Proc = Proc(mem: seq<Word>, shadow: seq<Word>, aLock: seq<int>, held: seq<Hold>, call: Call)

  datatype State = State(procs: seq<Proc>, conns: seq<Conn>, file: seq<Word>)

  /** The counts a lock call leaves. A shared unlock lets the file lock go with the last holder. */
  function LockedCounts(aLock: seq<int>, req: Request): (r: seq<int>)
    requires |aLock| == NLOCK && req.Valid()
    ensures |r| == NLOCK
  {
    seq(NLOCK, i requires 0 <= i < NLOCK =>
      if !req.Covers(i) then aLock[i]
      else match req
        case LockShared(_) => aLock[i] + 1
        case LockExclusive(_, _) => -1
        case UnlockShared(_) => if aLock[i] > 1 then aLock[i] - 1 else 0
        case UnlockExclusive(_, _) => 0)
  }

  /** The kernel's view of the process after the same call. */
  function LockedHolds(held: seq<Hold>, aLock: seq<int>, req: Request): (r: seq<Hold>)
    requires |held| == NLOCK && |aLock| == NLOCK && req.Valid()
    ensures |r| == NLOCK
  {
    seq(NLOCK, i requires 0 <= i < NLOCK =>
      if !req.Covers(i) then held[i]
      else match req
        case LockShared(_) => if aLock[i] == 0 then Shared else held[i]
        case LockExclusive(_, _) => Exclusive
        case UnlockShared(_) => if aLock[i] > 1 then held[i] else NoHold
        case UnlockExclusive(_, _) => NoHold)
  }

  function LockedConn(c: Conn, req: Request): Conn {
    match req
    case LockShared(_) => c.(shared := c.shared + req.Mask())
    case LockExclusive(_, _) => c.(excl := c.excl + req.Mask())
    case UnlockShared(_) => c.(shared := c.shared - req.Mask(), excl := c.excl - req.Mask())
    case UnlockExclusive(_, _) => c.(shared := c.shared - req.Mask(), excl := c.excl - req.Mask())
  }

  /** Would fcntl, not waiting, grant process `p` what `req` asks for? */
  ghost predicate KernelGrants(s: State, p: nat, req: Request)
    requires p < |s.procs| && forall q :: 0 <= q < |s.procs| ==> |s.procs[q].held| == NLOCK
    requires req.Valid()
  {
    forall q, i: nat :: 0 <= q < |s.procs| && q != p && i < NLOCK && req.Covers(i) ==>
      if req.LockShared? then s.procs[q].held[i] != Exclusive else s.procs[q].held[i] == NoHold
  }

  /** Does the process's own table refuse the lock (SQLITE_BUSY before the kernel is asked)? */
  predicate BusyHere(aLock: seq<int>, req: Request)
    requires |aLock| == NLOCK && req.Valid()
  {
    if req.LockShared? then aLock[req.slot] < 0
    else exists i :: 0 <= i < NLOCK && req.Covers(i) && aLock[i] != 0
  }

  /** Is a lock taken, by a connection that shares those slots, when the kernel would grant it or not? */
  predicate Grants(aLock: seq<int>, shared: set<nat>, req: Request, kernel: bool)
    requires |aLock| == NLOCK && req.Valid() && (req.LockShared? || req.LockExclusive?)
  {
    if req.LockShared? then req.slot !in shared && !BusyHere(aLock, req) && (aLock[req.slot] == 0 ==> kernel)
    else !BusyHere(aLock, req) && kernel
  }

  /** Does an unlock let anything go? */
  predicate LetsGo(c: Conn, req: Request) { !(req.Mask() !! (c.shared + c.excl)) }

  // ---- steps ----------------------------------------------------------------------------------

  datatype Step =
    /** A connection stores a word of the wal-index. */
    | Write(conn: nat, w: nat, v: Word)
    /** A lock call enters: the node's mutex is taken. */
    | Begin(conn: nat, req: Request)
    /** The flush loop writes out the changed words up to `upto`. */
    | FlushRun(p: nat, upto: nat)
    /** All flushed: a lock is granted or refused, an unlock done. */
    | Decide(p: nat)
    /** A granted lock: the file is read in, then the lock counts as held. */
    | Finish(p: nat)
    /** xShmMap of `n` more words. */
    | Map(p: nat, n: nat)
    /** The last connection without holds unmaps: the node's copies are freed. */
    | Drop(p: nat)

  ghost predicate Wf(s: State) {
    && (forall p :: 0 <= p < |s.procs| ==>
          |s.procs[p].mem| == |s.procs[p].shadow| && |s.procs[p].aLock| == NLOCK && |s.procs[p].held| == NLOCK)
    && (forall c :: 0 <= c < |s.conns| ==> s.conns[c].proc < |s.procs|)
    && (forall p :: 0 <= p < |s.procs| && !s.procs[p].call.Idle? ==>
       s.procs[p].call.conn < |s.conns| && s.procs[p].call.req.Valid())
  }

  /** Is connection `c` inside a lock call (and so not writing)? */
  ghost predicate InCall(s: State, c: nat)
    requires Wf(s) && c < |s.conns|
  {
    var call := s.procs[s.conns[c].proc].call;
    !call.Idle? && call.conn == c
  }

  ghost predicate Enabled(s: State, step: Step)
    requires Wf(s)
  {
    match step
    case Write(c, w, _) =>
      && c < |s.conns| && !InCall(s, c)
      && w < |s.procs[s.conns[c].proc].mem| && s.conns[c].MayWrite(w)
    case Begin(c, req) =>
      c < |s.conns| && s.procs[s.conns[c].proc].call.Idle? && s.conns[c].Conforms(req)
    case FlushRun(p, upto) =>
      p < |s.procs| && s.procs[p].call.Flushing? && s.procs[p].call.at <= upto <= |s.procs[p].mem|
    case Decide(p) =>
      p < |s.procs| && s.procs[p].call.Flushing? && s.procs[p].call.at == |s.procs[p].mem|
    case Finish(p) => p < |s.procs| && s.procs[p].call.Granted?
    case Map(p, _) => p < |s.procs| && s.procs[p].call.Idle?
    case Drop(p) =>
      && p < |s.procs| && s.procs[p].call.Idle?
      && forall c :: 0 <= c < |s.conns| && s.conns[c].proc == p ==> s.conns[c].shared == {} && s.conns[c].excl == {}
  }

  ghost function ApplyDecide(s: State, p: nat): State
    requires Wf(s) && Enabled(s, Decide(p))
  {
    var pr := s.procs[p];
    var c, req := pr.call.conn, pr.call.req;
    var idle := s.(procs := s.procs[p := pr.(call := Idle)]);
    if req.LockShared? || req.LockExclusive? then
      if Grants(pr.aLock, s.conns[c].shared, req, KernelGrants(s, p, req)) then
        s.(procs := s.procs[p := pr.(held := LockedHolds(pr.held, pr.aLock, req), call := Granted(c, req))])
      else idle
    else if LetsGo(s.conns[c], req) then
      s.(procs := s.procs[p := pr.(aLock := LockedCounts(pr.aLock, req),
        held := LockedHolds(pr.held, pr.aLock, req), call := Idle)],
         conns := s.conns[c := LockedConn(s.conns[c], req)])
    else idle
  }

  ghost function Apply(s: State, step: Step): State
    requires Wf(s) && Enabled(s, step)
  {
    match step
    case Write(c, w, v) =>
      var p := s.conns[c].proc;
      s.(procs := s.procs[p := s.procs[p].(mem := s.procs[p].mem[w := v])])
    case Begin(c, req) =>
      var p := s.conns[c].proc;
      s.(procs := s.procs[p := s.procs[p].(call := Flushing(c, req, 0))])
    case FlushRun(p, upto) =>
      var pr := s.procs[p];
      s.(procs := s.procs[p := pr.(shadow := FlushedShadow(pr.mem, pr.shadow, pr.call.at, upto),
        call := pr.call.(at := upto))],
         file := Flushed(s.file, pr.mem, pr.shadow, pr.call.at, upto))
    case Decide(p) => ApplyDecide(s, p)
    case Finish(p) =>
      var pr := s.procs[p];
      var c, req := pr.call.conn, pr.call.req;
      s.(procs := s.procs[p := pr.(mem := Refreshed(pr.mem, s.file, pr.aLock),
        shadow := Refreshed(pr.shadow, s.file, pr.aLock),
                                   aLock := LockedCounts(pr.aLock, req), call := Idle)],
         conns := s.conns[c := LockedConn(s.conns[c], req)])
    case Map(p, n) =>
      var pr := s.procs[p];
      s.(procs := s.procs[p := pr.(mem := Mapped(pr.mem, s.file, n), shadow := Mapped(pr.shadow, s.file, n))])
    case Drop(p) =>
      s.(procs := s.procs[p := s.procs[p].(mem := [], shadow := [])])
  }

  // ---- what it all means ----------------------------------------------------------------------

  ghost predicate Owns(s: State, p: nat, w: nat)
    requires Wf(s)
  {
    p < |s.procs| && OwnedHere(s.procs[p].aLock, w)
  }

  /** The owner's copy of `w`, if it has one. */
  ghost predicate KeepsLatest(s: State, p: nat, w: nat)
    requires Wf(s)
  {
    Owns(s, p, w) && w < |s.procs[p].mem|
  }

  /** The one shared memory: a word is its owner's copy, or the file's when nobody owns it. */
  ghost function Abs(s: State, w: nat): Word
    requires Wf(s)
  {
    if exists p: nat :: KeepsLatest(s, p, w) then
      var p: nat :| KeepsLatest(s, p, w);
      s.procs[p].mem[w]
    else At(s.file, w)
  }
}
