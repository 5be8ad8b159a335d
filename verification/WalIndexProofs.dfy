/**
 The wal-index protocol refines one shared memory, in every run.

 `Inv` is inductive (InvInit, InvStep). From it: at most one process owns a word, the lock table
 counts exactly what the connections hold, and the shared memory `Abs` changes at a store and
 nowhere else, so that what a lock makes readable is the last value anyone wrote.
 */
module WalIndexProofs {
  import opened WalIndex

  ghost function SharedBy(s: State, p: nat, i: nat): set<nat> {
    set c: nat | c < |s.conns| && s.conns[c].proc == p && i in s.conns[c].shared
  }

  ghost function ExclBy(s: State, p: nat, i: nat): set<nat> {
    set c: nat | c < |s.conns| && s.conns[c].proc == p && i in s.conns[c].excl
  }

  /** aLock[i] is -1 for one exclusive connection, else the number of connections sharing the lock. */
  ghost predicate CountOk(s: State, p: nat, i: nat)
    requires Wf(s) && p < |s.procs| && i < NLOCK
  {
    var a := s.procs[p].aLock[i];
    if a < 0 then a == -1 && |ExclBy(s, p, i)| == 1 && SharedBy(s, p, i) == {}
    else ExclBy(s, p, i) == {} && |SharedBy(s, p, i)| == a
  }

  /** The kernel holds what the counts say, and what a granted call is about to count. */
  ghost predicate HeldOk(s: State, p: nat, i: nat)
    requires Wf(s) && p < |s.procs| && i < NLOCK
  {
    var pr := s.procs[p];
    pr.held[i] ==
      if pr.aLock[i] < 0 || (pr.call.Granted? && pr.call.req.LockExclusive? && pr.call.req.Covers(i)) then Exclusive
      else if pr.aLock[i] > 0 || (pr.call.Granted? && pr.call.req.LockShared? && pr.call.req.Covers(i)) then Shared
      else NoHold
  }

  /** A call under way is by a connection of the process, and one SQLite makes. */
  ghost predicate CallerOk(s: State, p: nat)
    requires Wf(s) && p < |s.procs|
  {
    var call := s.procs[p].call;
    !call.Idle? ==> s.conns[call.conn].proc == p && s.conns[call.conn].Conforms(call.req)
  }

  ghost predicate CallOk(s: State, p: nat)
    requires Wf(s) && p < |s.procs|
  {
    var pr := s.procs[p];
    CallerOk(s, p) &&
    (pr.call.Granted? ==>
      if pr.call.req.LockExclusive? then forall i :: 0 <= i < NLOCK && pr.call.req.Covers(i) ==> pr.aLock[i] == 0
      else pr.call.req.LockShared? && pr.aLock[pr.call.req.slot] >= 0
           && pr.call.req.slot !in s.conns[pr.call.conn].shared)
  }

  /** No two processes hold one lock byte unless both share it. */
  ghost predicate Compatible(s: State)
    requires Wf(s)
  {
    forall p, q, i: nat :: 0 <= p < |s.procs| && 0 <= q < |s.procs| && p != q && i < NLOCK ==>
      s.procs[p].held[i] == Exclusive ==>
      s.procs[q].held[i] == NoHold
  }

  ghost predicate Disciplined(s: State)
    requires Wf(s)
  {
    forall c :: 0 <= c < |s.conns| ==> READ_LOCK_0 in s.conns[c].excl ==> CKPT_LOCK in s.conns[c].excl
  }

  ghost predicate LockInv(s: State) {
    && Wf(s)
    && (forall p, i: nat :: 0 <= p < |s.procs| && i < NLOCK ==> CountOk(s, p, i))
    && (forall p, i: nat :: 0 <= p < |s.procs| && i < NLOCK ==> HeldOk(s, p, i))
    && (forall p :: 0 <= p < |s.procs| ==> CallOk(s, p))
    && Compatible(s)
    && Disciplined(s)
  }

  ghost predicate Dirty(pr: Proc, w: nat) {
    w < |pr.mem| && w < |pr.shadow| && pr.mem[w] != pr.shadow[w]
  }

  /** Can a connection of `p` other than `c` write `w`? */
  ghost predicate OtherWriter(s: State, p: nat, c: nat, w: nat) {
    exists d: nat :: d < |s.conns| && d != c && s.conns[d].proc == p && s.conns[d].MayWrite(w)
  }

  /** A changed word is owned; an owner's shadow is the file; what the flush passed stays flushed. */
  ghost predicate DataOk(s: State, p: nat, w: nat)
    requires Wf(s) && p < |s.procs|
  {
    var pr := s.procs[p];
    && (Dirty(pr, w) ==> Owns(s, p, w))
    && (Owns(s, p, w) && w < |pr.shadow| ==> pr.shadow[w] == At(s.file, w))
    && (pr.call.Flushing? && w < pr.call.at && Dirty(pr, w) ==> OtherWriter(s, p, pr.call.conn, w))
  }

  ghost predicate DataInv(s: State)
    requires Wf(s)
  {
    forall p, w: nat :: 0 <= p < |s.procs| ==> DataOk(s, p, w)
  }

  ghost predicate Inv(s: State) {
    LockInv(s) && DataInv(s)
  }

  // ---- ownership ------------------------------------------------------------------------------

  lemma {:induction false} ExclusiveCounts(s: State, c: nat, i: nat)
    requires LockInv(s) && c < |s.conns| && i < NLOCK
    ensures i in s.conns[c].excl ==> s.procs[s.conns[c].proc].aLock[i] < 0
    ensures i in s.conns[c].shared ==> s.procs[s.conns[c].proc].aLock[i] > 0
  {
    var p := s.conns[c].proc;
    assert CountOk(s, p, i);
    if i in s.conns[c].excl { assert c in ExclBy(s, p, i); }
    if i in s.conns[c].shared { assert c in SharedBy(s, p, i); }
  }

  /** What a connection may write, its process owns. */
  lemma {:induction false} WritersOwn(s: State, c: nat, w: nat)
    requires LockInv(s) && c < |s.conns| && s.conns[c].MayWrite(w)
    ensures Owns(s, s.conns[c].proc, w)
  {
    forall i: nat | i < NLOCK { ExclusiveCounts(s, c, i); }
  }

  /** A process holding READ_LOCK(0) exclusive holds CKPT_LOCK exclusive. */
  lemma {:induction false} Read0UnderCkpt(s: State, p: nat)
    requires LockInv(s) && p < |s.procs| && s.procs[p].aLock[READ_LOCK_0] < 0
    ensures s.procs[p].aLock[CKPT_LOCK] < 0
  {
    assert CountOk(s, p, READ_LOCK_0);
    var c :| c in ExclBy(s, p, READ_LOCK_0);
    ExclusiveCounts(s, c, CKPT_LOCK);
  }

  /** At most one process owns a word, in every state the locks can be in. */
  lemma {:induction false} AtMostOneOwner(s: State, p: nat, q: nat, w: nat)
    requires LockInv(s) && Owns(s, p, w) && Owns(s, q, w)
    ensures p == q
  {
    if p != q {
      if s.procs[p].aLock[READ_LOCK_0] < 0 { Read0UnderCkpt(s, p); }
      if s.procs[q].aLock[READ_LOCK_0] < 0 { Read0UnderCkpt(s, q); }
      forall i: nat | i < NLOCK
        ensures s.procs[p].aLock[i] < 0 ==> s.procs[q].aLock[i] == 0
        ensures s.procs[q].aLock[i] < 0 ==> s.procs[p].aLock[i] == 0
      {
        assert HeldOk(s, p, i) && HeldOk(s, q, i);
      }
      assert false;
    }
  }

  lemma {:induction false} AbsOfOwner(s: State, p: nat, w: nat)
    requires LockInv(s) && KeepsLatest(s, p, w)
    ensures Abs(s, w) == s.procs[p].mem[w]
  {
    forall q: nat | KeepsLatest(s, q, w) ensures q == p { AtMostOneOwner(s, p, q, w); }
  }

  /** Whichever of two processes flushes first, the file is the same: what they changed they own, and not both. */
  lemma {:induction false} FlushOrderFree(s: State, p: nat, q: nat, w: nat)
    requires Inv(s) && p < |s.procs| && q < |s.procs| && p != q
    ensures var m1, s1, m2, s2 := s.procs[p].mem, s.procs[p].shadow, s.procs[q].mem, s.procs[q].shadow;
      At(Flushed(Flushed(s.file, m1, s1, 0, |m1|), m2, s2, 0, |m2|), w) ==
        At(Flushed(Flushed(s.file, m2, s2, 0, |m2|), m1, s1, 0, |m1|), w)
  {
    var m1, s1, m2, s2 := s.procs[p].mem, s.procs[p].shadow, s.procs[q].mem, s.procs[q].shadow;
    forall k: nat | k < |m1| && k < |m2| ensures m1[k] == s1[k] || m2[k] == s2[k] {
      assert DataOk(s, p, k) && DataOk(s, q, k);
      if Owns(s, p, k) && Owns(s, q, k) { AtMostOneOwner(s, p, q, k); }
    }
    FlushesCommute(s.file, m1, s1, m2, s2, w);
  }

  /** Its own flush behind it, a refresh leaves a process's copy as it is exactly if all it does not own is current. */
  lemma {:induction false} RefreshLeavesCurrent(s: State, p: nat)
    requires Inv(s) && p < |s.procs|
    ensures var pr := s.procs[p];
      Refreshed(pr.mem, Flushed(s.file, pr.mem, pr.shadow, 0, |pr.mem|), pr.aLock) == pr.mem <==>
      forall w: nat :: w < |pr.mem| && !Owns(s, p, w) ==> pr.mem[w] == At(s.file, w)
  {
    var pr := s.procs[p];
    forall w: nat | w < |pr.mem| && !Owns(s, p, w) ensures pr.mem[w] == pr.shadow[w] { assert DataOk(s, p, w); }
    ReadsBack(s.file, pr.mem, pr.shadow, pr.aLock);
  }

  // ---- when a lock is granted, and what a call changes ---------------------------------------------

  /** A connection anywhere holds slot `i` exclusive. */
  ghost predicate HeldExclusive(s: State, i: nat) {
    exists d :: 0 <= d < |s.conns| && i in s.conns[d].excl
  }

  /** A connection anywhere holds slot `i`. */
  ghost predicate HeldAtAll(s: State, i: nat) {
    exists d :: 0 <= d < |s.conns| && (i in s.conns[d].excl || i in s.conns[d].shared)
  }

  /** A process other than `p` is about to have slot `i`, exclusive or shared. */
  ghost predicate GrantedElsewhere(s: State, p: nat, i: nat, exclusive: bool) {
    exists q :: 0 <= q < |s.procs| && q != p && BeingGranted(s.procs[q].call, i, exclusive)
  }

  predicate BeingGranted(call: Call, i: nat, exclusive: bool) {
    call.Granted? && call.req.Covers(i) && (if exclusive then call.req.LockExclusive? else call.req.LockShared?)
  }

  /** What the kernel has for another process, by the connections and the calls under way. */
  lemma {:induction false} HoldMeans(s: State, q: nat, i: nat)
    requires LockInv(s) && q < |s.procs| && i < NLOCK
    ensures s.procs[q].held[i] == Exclusive <==> ExclBy(s, q, i) != {} || BeingGranted(s.procs[q].call, i, true)
    ensures s.procs[q].held[i] == NoHold <==>
      && ExclBy(s, q, i) == {} && SharedBy(s, q, i) == {}
      && !BeingGranted(s.procs[q].call, i, true) && !BeingGranted(s.procs[q].call, i, false)
  {
    assert CountOk(s, q, i) && HeldOk(s, q, i);
  }

  lemma {:induction false} CountMeans(s: State, p: nat, i: nat)
    requires LockInv(s) && p < |s.procs| && i < NLOCK
    ensures s.procs[p].aLock[i] < 0 <==> ExclBy(s, p, i) != {}
    ensures s.procs[p].aLock[i] == 0 <==> ExclBy(s, p, i) == {} && SharedBy(s, p, i) == {}
  {
    assert CountOk(s, p, i);
  }

  lemma {:induction false} HolderOf(s: State, i: nat)
    requires Wf(s)
    ensures HeldExclusive(s, i) <==> exists q :: 0 <= q < |s.procs| && ExclBy(s, q, i) != {}
    ensures HeldAtAll(s, i) <==> exists q :: 0 <= q < |s.procs| && (ExclBy(s, q, i) != {} || SharedBy(s, q, i) != {})
  {
    forall d | 0 <= d < |s.conns|
      ensures i in s.conns[d].excl ==> ExclBy(s, s.conns[d].proc, i) != {}
      ensures i in s.conns[d].shared ==> SharedBy(s, s.conns[d].proc, i) != {}
    {
      if i in s.conns[d].excl { assert d in ExclBy(s, s.conns[d].proc, i); }
      if i in s.conns[d].shared { assert d in SharedBy(s, s.conns[d].proc, i); }
    }
  }

  /** No other process has slot `i` exclusive, nor is about to, as the kernel sees it. */
  lemma {:induction false} NoneExclusive(s: State, p: nat, i: nat)
    requires LockInv(s) && p < |s.procs| && i < NLOCK
    ensures (forall q :: 0 <= q < |s.procs| && q != p ==> s.procs[q].held[i] != Exclusive) <==>
      (forall q :: 0 <= q < |s.procs| && q != p ==> ExclBy(s, q, i) == {}) && !GrantedElsewhere(s, p, i, true)
  {
    forall q | 0 <= q < |s.procs| && q != p
      ensures s.procs[q].held[i] == Exclusive <==> ExclBy(s, q, i) != {} || BeingGranted(s.procs[q].call, i, true)
    {
      HoldMeans(s, q, i);
    }
  }

  lemma {:induction false} NoneHolds(s: State, p: nat, i: nat)
    requires LockInv(s) && p < |s.procs| && i < NLOCK
    ensures (forall q :: 0 <= q < |s.procs| && q != p ==> s.procs[q].held[i] == NoHold) <==>
      && (forall q :: 0 <= q < |s.procs| && q != p ==> ExclBy(s, q, i) == {} && SharedBy(s, q, i) == {})
      && !GrantedElsewhere(s, p, i, true) && !GrantedElsewhere(s, p, i, false)
  {
    forall q | 0 <= q < |s.procs| && q != p
      ensures s.procs[q].held[i] == NoHold <==>
        && ExclBy(s, q, i) == {} && SharedBy(s, q, i) == {}
        && !BeingGranted(s.procs[q].call, i, true) && !BeingGranted(s.procs[q].call, i, false)
    {
      HoldMeans(s, q, i);
    }
  }

  /** A process that shares a slot keeps every other from having it exclusive. */
  lemma {:induction false} SharersKeepOut(s: State, p: nat, i: nat)
    requires LockInv(s) && p < |s.procs| && i < NLOCK && s.procs[p].aLock[i] > 0
    ensures forall q :: 0 <= q < |s.procs| && q != p ==> s.procs[q].held[i] != Exclusive
  {
    assert HeldOk(s, p, i);
  }

  /**
   A shared lock is granted exactly if no connection anywhere holds the slot exclusive and no other process is
   about to: connections of the same process that share it do not stand in the way.
   */
  lemma {:induction false} SharedGrantedExactly(s: State, p: nat, i: nat)
    requires LockInv(s) && Enabled(s, Decide(p)) && s.procs[p].call.req == LockShared(i)
    requires i !in s.conns[s.procs[p].call.conn].shared
    ensures ApplyDecide(s, p).procs[p].call.Granted? <==> !HeldExclusive(s, i) && !GrantedElsewhere(s, p, i, true)
  {
    CountMeans(s, p, i);
    HolderOf(s, i);
    NoneExclusive(s, p, i);
    assert s.procs[p].call.req.Covers(i);
    if s.procs[p].aLock[i] > 0 { SharersKeepOut(s, p, i); }
  }

  /** Nobody has the slot, or is about to. */
  ghost predicate Free(s: State, p: nat, i: nat) {
    !HeldAtAll(s, i) && !GrantedElsewhere(s, p, i, true) && !GrantedElsewhere(s, p, i, false)
  }

  lemma {:induction false} FreeMeans(s: State, p: nat, i: nat)
    requires LockInv(s) && p < |s.procs| && i < NLOCK
    ensures Free(s, p, i) <==>
      s.procs[p].aLock[i] == 0 && forall q :: 0 <= q < |s.procs| && q != p ==> s.procs[q].held[i] == NoHold
  {
    CountMeans(s, p, i);
    HolderOf(s, i);
    NoneHolds(s, p, i);
  }

  /** An exclusive lock is granted exactly if every slot it covers is free. */
  lemma {:induction false} ExclusiveGrantedExactly(s: State, p: nat)
    requires LockInv(s) && Enabled(s, Decide(p)) && s.procs[p].call.req.LockExclusive?
    ensures ApplyDecide(s, p).procs[p].call.Granted? <==>
      forall i: nat :: s.procs[p].call.req.Covers(i) ==> Free(s, p, i)
  {
    var req := s.procs[p].call.req;
    forall i: nat | i < NLOCK
      ensures Free(s, p, i) <==>
        s.procs[p].aLock[i] == 0 && forall q :: 0 <= q < |s.procs| && q != p ==> s.procs[q].held[i] == NoHold
    {
      FreeMeans(s, p, i);
    }
    if forall i: nat :: req.Covers(i) ==> Free(s, p, i) {
      assert !BusyHere(s.procs[p].aLock, req);
      assert KernelGrants(s, p, req);
    }
  }

  /** A call that was refused, or asked for what it had, changes nothing but that it is over. */
  lemma {:induction false} RefusedChangesNothing(s: State, p: nat)
    requires LockInv(s) && Enabled(s, Decide(p))
    requires s.procs[p].call.req.LockShared? || s.procs[p].call.req.LockExclusive?
    ensures var s' := ApplyDecide(s, p);
      && s'.conns == s.conns && s'.file == s.file
      && (!s'.procs[p].call.Granted? ==> s' == s.(procs := s.procs[p := s.procs[p].(call := Idle)]))
  {
  }

  /** A granted lock, once read in, is held by the connection that asked: the slots asked for and no others. */
  lemma {:induction false} FinishGives(s: State, p: nat)
    requires LockInv(s) && Enabled(s, Finish(p))
    ensures var s', c, req := Apply(s, Finish(p)), s.procs[p].call.conn, s.procs[p].call.req;
      && |s'.conns| == |s.conns| && (forall d :: 0 <= d < |s.conns| && d != c ==> s'.conns[d] == s.conns[d])
      && s'.conns[c].proc == s.conns[c].proc
      && (forall i :: i in s'.conns[c].shared <==> i in s.conns[c].shared || (req.LockShared? && i == req.slot))
      && (forall i :: i in s'.conns[c].excl <==>
            i in s.conns[c].excl || (req.LockExclusive? && req.ofst <= i < req.ofst + req.n))
  {
    assert CallOk(s, p);
  }

  /** An unlock takes the slots asked for from the connection, and nothing from any other. */
  lemma {:induction false} UnlockLetsGo(s: State, p: nat)
    requires LockInv(s) && Enabled(s, Decide(p))
    requires s.procs[p].call.req.UnlockShared? || s.procs[p].call.req.UnlockExclusive?
    ensures var s', c, req := ApplyDecide(s, p), s.procs[p].call.conn, s.procs[p].call.req;
      && |s'.conns| == |s.conns| && (forall d :: 0 <= d < |s.conns| && d != c ==> s'.conns[d] == s.conns[d])
      && s'.conns[c].proc == s.conns[c].proc && s'.procs[p].call.Idle?
      && (forall i :: i in s'.conns[c].shared <==> i in s.conns[c].shared && !req.Covers(i))
      && (forall i :: i in s'.conns[c].excl <==> i in s.conns[c].excl && !req.Covers(i))
  {
  }

  // ---- the lock part of the invariant is inductive ---------------------------------------------

  /** Steps that leave counts, kernel holds and connections alone. */
  lemma {:induction false} LocksUntouched(s: State, s': State)
    requires LockInv(s) && Wf(s') && s'.conns == s.conns && |s'.procs| == |s.procs|
    requires forall p :: 0 <= p < |s.procs| ==>
      s'.procs[p].aLock == s.procs[p].aLock && s'.procs[p].held == s.procs[p].held
    requires forall p :: 0 <= p < |s.procs| ==>
      (s'.procs[p].call.Granted? <==> s.procs[p].call.Granted?)
        && (s.procs[p].call.Granted? ==> s'.procs[p].call == s.procs[p].call)
    requires forall p :: 0 <= p < |s.procs| ==> CallerOk(s', p)
    ensures LockInv(s')
  {
    forall p, i: nat | 0 <= p < |s.procs| && i < NLOCK ensures CountOk(s', p, i) && HeldOk(s', p, i) {
      assert CountOk(s, p, i) && HeldOk(s, p, i);
      assert SharedBy(s', p, i) == SharedBy(s, p, i) && ExclBy(s', p, i) == ExclBy(s, p, i);
    }
    forall p | 0 <= p < |s.procs| ensures CallOk(s', p) { assert CallOk(s, p); }
  }

  /** How the holders of a slot change when connection `c` of `p` gets through its call. */
  lemma {:induction false} HoldersChange(s: State, s': State, c: nat, q: nat, i: nat, req: Request)
    requires Wf(s) && c < |s.conns| && req.Valid() && i < NLOCK
    requires s'.conns == s.conns[c := LockedConn(s.conns[c], req)]
    ensures !(q == s.conns[c].proc && req.Covers(i)) ==>
      SharedBy(s', q, i) == SharedBy(s, q, i) && ExclBy(s', q, i) == ExclBy(s, q, i)
    ensures q == s.conns[c].proc && req.Covers(i) ==>
      && SharedBy(s', q, i) == (if req.LockShared? then SharedBy(s, q, i) + {c} else if req.LockExclusive?
         then SharedBy(s, q, i) else SharedBy(s, q, i) - {c})
      && ExclBy(s', q, i) == (if req.LockExclusive? then ExclBy(s, q, i) + {c}
         else if req.LockShared? then ExclBy(s, q, i) else ExclBy(s, q, i) - {c})
  {
    assert forall d: nat :: d < |s.conns| && d != c ==> s'.conns[d] == s.conns[d];
  }

  /** The counts still say who holds what after a granted lock is counted. */
  lemma {:induction false} FinishCounts(s: State, s': State, p: nat, q: nat, i: nat)
    requires LockInv(s) && Enabled(s, Finish(p)) && s' == Apply(s, Finish(p))
    requires Wf(s') && q < |s.procs| && i < NLOCK
    ensures CountOk(s', q, i)
  {
    var c, req := s.procs[p].call.conn, s.procs[p].call.req;
    assert CallOk(s, p) && CountOk(s, q, i);
    HoldersChange(s, s', c, q, i, req);
    if q == p && req.Covers(i) {
      assert CountOk(s, p, i);
      if req.LockShared? {
        assert c !in SharedBy(s, p, i);
      }
    }
  }

  lemma {:induction false} FinishKeepsLocks(s: State, p: nat)
    requires LockInv(s) && Enabled(s, Finish(p))
    ensures LockInv(Apply(s, Finish(p)))
  {
    var s' := Apply(s, Finish(p));
    var c, req := s.procs[p].call.conn, s.procs[p].call.req;
    assert CallOk(s, p);
    assert Wf(s');
    forall q, i: nat | 0 <= q < |s.procs| && i < NLOCK ensures CountOk(s', q, i) && HeldOk(s', q, i) {
      FinishCounts(s, s', p, q, i);
      assert HeldOk(s, q, i);
    }
    OthersCallOk(s, s', p, c, req);
  }

  /** Calls of other processes do not notice a change of `c` of process `p`, and `p` is idle. */
  lemma {:induction false} OthersCallOk(s: State, s': State, p: nat, c: nat, req: Request)
    requires LockInv(s) && Wf(s') && p < |s.procs| && c < |s.conns| && s.conns[c].proc == p && req.Valid()
    requires |s'.procs| == |s.procs| && s'.procs[p].call.Idle?
    requires forall q :: 0 <= q < |s.procs| && q != p ==> s'.procs[q] == s.procs[q]
    requires s'.conns == s.conns[c := LockedConn(s.conns[c], req)]
    ensures forall q :: 0 <= q < |s.procs| ==> CallOk(s', q)
  {
    forall q | 0 <= q < |s.procs| ensures CallOk(s', q) { assert CallOk(s, q); }
  }

  /** The counts after an unlock that lets something go. */
  lemma {:induction false} UnlockCounts(s: State, s': State, c: nat, req: Request, i: nat)
    requires LockInv(s) && Wf(s') && c < |s.conns| && i < NLOCK
    requires (req.UnlockShared? || req.UnlockExclusive?) && s.conns[c].Conforms(req)
    requires !(req.Mask() !! (s.conns[c].shared + s.conns[c].excl))
    requires s'.conns == s.conns[c := LockedConn(s.conns[c], req)] && |s'.procs| == |s.procs|
    requires s'.procs[s.conns[c].proc].aLock == LockedCounts(s.procs[s.conns[c].proc].aLock, req)
    ensures CountOk(s', s.conns[c].proc, i)
    ensures s.procs[s.conns[c].proc].aLock[i] > 1 && req.Covers(i) ==> req.UnlockShared?
  {
    var p := s.conns[c].proc;
    assert CountOk(s, p, i);
    HoldersChange(s, s', c, p, i, req);
    if req.Covers(i) {
      if req.UnlockShared? {
        OneSharerLess(s, s', c, req, i);
      } else {
        assert c in ExclBy(s, p, i);
        SingleElement(ExclBy(s, p, i), c);
      }
    }
  }

  lemma {:induction false} OneSharerLess(s: State, s': State, c: nat, req: Request, i: nat)
    requires LockInv(s) && Wf(s') && c < |s.conns| && i < NLOCK
    requires req.UnlockShared? && s.conns[c].Conforms(req) && req.Covers(i)
    requires !(req.Mask() !! (s.conns[c].shared + s.conns[c].excl))
    requires s'.conns == s.conns[c := LockedConn(s.conns[c], req)] && |s'.procs| == |s.procs|
    requires s'.procs[s.conns[c].proc].aLock == LockedCounts(s.procs[s.conns[c].proc].aLock, req)
    ensures CountOk(s', s.conns[c].proc, i)
  {
    var p := s.conns[c].proc;
    assert CountOk(s, p, i);
    HoldersChange(s, s', c, p, i, req);
    assert c in SharedBy(s, p, i);
    assert |SharedBy(s, p, i) - {c}| == |SharedBy(s, p, i)| - 1;
  }

  lemma {:induction false} SingleElement(s: set<nat>, c: nat)
    requires |s| == 1 && c in s
    ensures s == {c}
  {
    assert |s - {c}| == 0;
  }

  lemma {:induction false} UnlockKeepsLocks(s: State, p: nat)
    requires LockInv(s) && Enabled(s, Decide(p))
    requires s.procs[p].call.req.UnlockShared? || s.procs[p].call.req.UnlockExclusive?
    requires !(s.procs[p].call.req.Mask() !! (s.conns[s.procs[p].call.conn].shared
      + s.conns[s.procs[p].call.conn].excl))
    ensures LockInv(ApplyDecide(s, p))
  {
    var s' := ApplyDecide(s, p);
    var c, req := s.procs[p].call.conn, s.procs[p].call.req;
    assert CallOk(s, p);
    assert Wf(s');
    forall q, i: nat | 0 <= q < |s.procs| && i < NLOCK ensures CountOk(s', q, i) && HeldOk(s', q, i) {
      assert HeldOk(s, q, i) && CountOk(s, q, i);
      if q == p {
        UnlockCounts(s, s', c, req, i);
      } else {
        HoldersChange(s, s', c, q, i, req);
      }
    }
    OthersCallOk(s, s', p, c, req);
    assert Compatible(s');
    assert Disciplined(s');
  }

  lemma {:induction false} GrantKeepsLocks(s: State, p: nat)
    requires LockInv(s) && Enabled(s, Decide(p))
    requires ApplyDecide(s, p).procs[p].call.Granted?
    ensures LockInv(ApplyDecide(s, p))
  {
    var s' := ApplyDecide(s, p);
    var req := s.procs[p].call.req;
    assert CallOk(s, p);
    forall q, i: nat | 0 <= q < |s.procs| && i < NLOCK ensures CountOk(s', q, i) && HeldOk(s', q, i) {
      assert CountOk(s, q, i) && HeldOk(s, q, i);
      assert SharedBy(s', q, i) == SharedBy(s, q, i) && ExclBy(s', q, i) == ExclBy(s, q, i);
    }
    forall q | 0 <= q < |s.procs| ensures CallOk(s', q) { assert CallOk(s, q); }
    GrantCompatible(s, p);
  }

  /** The kernel grants a lock only where no other process is in the way. */
  lemma {:induction false} GrantCompatible(s: State, p: nat)
    requires LockInv(s) && Enabled(s, Decide(p))
    requires ApplyDecide(s, p).procs[p].call.Granted?
    ensures Compatible(ApplyDecide(s, p))
  {
    var s' := ApplyDecide(s, p);
    assert CallOk(s, p);
    forall q, r, i: nat | 0 <= q < |s.procs| && 0 <= r < |s.procs| && q != r && i < NLOCK
      && s'.procs[q].held[i] == Exclusive
      ensures s'.procs[r].held[i] == NoHold
    {
      assert HeldOk(s, q, i) && HeldOk(s, r, i);
    }
  }

  lemma {:induction false} DecideKeepsLocks(s: State, p: nat)
    requires LockInv(s) && Enabled(s, Decide(p))
    ensures LockInv(ApplyDecide(s, p))
  {
    var s' := ApplyDecide(s, p);
    var c, req := s.procs[p].call.conn, s.procs[p].call.req;
    assert CallOk(s, p);
    if s'.procs[p].call.Granted? {
      GrantKeepsLocks(s, p);
    } else if (req.UnlockShared? || req.UnlockExclusive?) && !(req.Mask() !! (s.conns[c].shared + s.conns[c].excl)) {
      UnlockKeepsLocks(s, p);
    } else {
      forall q | 0 <= q < |s.procs| ensures CallerOk(s', q) { assert CallOk(s, q); }
      LocksUntouched(s, s');
    }
  }

  lemma {:induction false} QuietKeepsLocks(s: State, step: Step)
    requires LockInv(s) && Enabled(s, step) && !step.Decide? && !step.Finish?
    ensures LockInv(Apply(s, step))
  {
    var s' := Apply(s, step);
    forall q | 0 <= q < |s.procs| ensures CallerOk(s', q) { assert CallOk(s, q); }
    LocksUntouched(s, s');
  }

  lemma {:induction false} LockInvStep(s: State, step: Step)
    requires LockInv(s) && Enabled(s, step)
    ensures LockInv(Apply(s, step))
  {
    match step
    case Decide(p) => DecideKeepsLocks(s, p);
    case Finish(p) => FinishKeepsLocks(s, p);
    case _ => QuietKeepsLocks(s, step);
  }

  // ---- the data part --------------------------------------------------------------------------

  /** A word that stops being owned at an unlock was flushed before. */
  lemma {:induction false} ReleasedIsClean(s: State, p: nat, w: nat)
    requires Inv(s) && Enabled(s, Decide(p)) && Owns(s, p, w) && !Owns(ApplyDecide(s, p), p, w)
    ensures !Dirty(s.procs[p], w)
  {
    var s' := ApplyDecide(s, p);
    DecideKeepsLocks(s, p);
    assert CallOk(s, p) && DataOk(s, p, w);
    if Dirty(s.procs[p], w) {
      var d: nat :| d < |s.conns| && d != s.procs[p].call.conn && s.conns[d].proc == p && s.conns[d].MayWrite(w);
      assert s'.conns[d] == s.conns[d];
      WritersOwn(s', d, w);
    }
  }

  /** Letting locks go, or being granted one that is not counted yet, makes nobody an owner. */
  lemma {:induction false} DecideGivesNothing(s: State, p: nat, q: nat, w: nat)
    requires LockInv(s) && Enabled(s, Decide(p)) && q < |s.procs| && Owns(ApplyDecide(s, p), q, w)
    ensures Owns(s, q, w)
  {
    assert CallOk(s, p);
    var req := s.procs[p].call.req;
    forall i: nat | i < NLOCK
      ensures ApplyDecide(s, p).procs[p].aLock[i] != 0 ==>
        (s.procs[p].aLock[i] < 0 <==> ApplyDecide(s, p).procs[p].aLock[i] < 0) && s.procs[p].aLock[i] != 0
    {
      assert CountOk(s, p, i);
    }
  }

  lemma {:induction false} DecideKeepsData(s: State, p: nat)
    requires Inv(s) && Enabled(s, Decide(p))
    ensures DataInv(ApplyDecide(s, p))
  {
    var s' := ApplyDecide(s, p);
    DecideKeepsLocks(s, p);
    assert CallOk(s, p);
    forall q, w: nat | 0 <= q < |s.procs| ensures DataOk(s', q, w) {
      if q == p { DecideKeepsOwn(s, p, w); } else { DecideKeepsOther(s, p, q, w); }
    }
  }

  lemma {:induction false} DecideKeepsOwn(s: State, p: nat, w: nat)
    requires Inv(s) && Enabled(s, Decide(p)) && Wf(ApplyDecide(s, p))
    ensures DataOk(ApplyDecide(s, p), p, w)
  {
    assert DataOk(s, p, w) && CallOk(s, p);
    if Owns(ApplyDecide(s, p), p, w) { DecideGivesNothing(s, p, p, w); }
    if Owns(s, p, w) && !Owns(ApplyDecide(s, p), p, w) { ReleasedIsClean(s, p, w); }
  }

  lemma {:induction false} DecideKeepsOther(s: State, p: nat, q: nat, w: nat)
    requires Inv(s) && Enabled(s, Decide(p)) && Wf(ApplyDecide(s, p)) && q < |s.procs| && q != p
    ensures DataOk(ApplyDecide(s, p), q, w)
  {
    assert DataOk(s, q, w) && CallOk(s, p);
    if Owns(ApplyDecide(s, p), q, w) { DecideGivesNothing(s, p, q, w); }
    if s.procs[q].call.Flushing? { OtherWriterStays(s, ApplyDecide(s, p), q, w); }
  }

  /** Another process's writers are as they were. */
  lemma {:induction false} OtherWriterStays(s: State, s': State, q: nat, w: nat)
    requires Wf(s) && |s'.conns| == |s.conns| && q < |s.procs|
    requires forall d :: 0 <= d < |s.conns| && s.conns[d].proc == q ==> s'.conns[d] == s.conns[d]
    requires s.procs[q].call.Flushing?
    ensures OtherWriter(s, q, s.procs[q].call.conn, w) ==> OtherWriter(s', q, s.procs[q].call.conn, w)
  {
  }

  /** Counting a granted lock: the words it makes this process's were nobody's, and just read in. */
  lemma {:induction false} FinishKeepsData(s: State, p: nat)
    requires Inv(s) && Enabled(s, Finish(p))
    ensures DataInv(Apply(s, Finish(p)))
  {
    var s' := Apply(s, Finish(p));
    FinishKeepsLocks(s, p);
    assert CallOk(s, p);
    forall q, w: nat | 0 <= q < |s.procs| ensures DataOk(s', q, w) {
      assert DataOk(s, q, w);
      if q == p {
        if Owns(s, p, w) { FinishTakesNothing(s, p, w); }
      } else if s.procs[q].call.Flushing? {
        OtherWriterStays(s, s', q, w);
      }
    }
  }

  lemma {:induction false} FinishTakesNothing(s: State, p: nat, w: nat)
    requires LockInv(s) && Enabled(s, Finish(p)) && Owns(s, p, w)
    ensures Owns(Apply(s, Finish(p)), p, w)
  {
    assert CallOk(s, p);
    var a, a' := s.procs[p].aLock, Apply(s, Finish(p)).procs[p].aLock;
    assert forall i :: 0 <= i < NLOCK ==> (a[i] < 0 ==> a'[i] < 0) && (a[i] != 0 ==> a'[i] != 0);
  }

  lemma {:induction false} FlushKeepsData(s: State, p: nat, upto: nat)
    requires Inv(s) && Enabled(s, FlushRun(p, upto))
    ensures DataInv(Apply(s, FlushRun(p, upto)))
  {
    var s' := Apply(s, FlushRun(p, upto));
    forall q, w: nat | 0 <= q < |s.procs| ensures DataOk(s', q, w) {
      assert DataOk(s, q, w) && DataOk(s, p, w);
      if q != p && Owns(s, q, w) && Owns(s, p, w) { AtMostOneOwner(s, p, q, w); }
      if s.procs[q].call.Flushing? { OtherWriterStays(s, s', q, w); }
    }
  }

  lemma {:induction false} WriteKeepsData(s: State, c: nat, w: nat, v: Word)
    requires Inv(s) && Enabled(s, Write(c, w, v))
    ensures DataInv(Apply(s, Write(c, w, v)))
  {
    var s' := Apply(s, Write(c, w, v));
    WritersOwn(s, c, w);
    forall q, u: nat | 0 <= q < |s.procs| ensures DataOk(s', q, u) {
      assert DataOk(s, q, u);
      if s.procs[q].call.Flushing? { OtherWriterStays(s, s', q, u); }
    }
  }

  lemma {:induction false} MapKeepsData(s: State, p: nat, n: nat)
    requires Inv(s) && Enabled(s, Map(p, n))
    ensures DataInv(Apply(s, Map(p, n)))
  {
    var s' := Apply(s, Map(p, n));
    forall q, u: nat | 0 <= q < |s.procs| ensures DataOk(s', q, u) {
      assert DataOk(s, q, u);
      if s.procs[q].call.Flushing? { OtherWriterStays(s, s', q, u); }
    }
  }

  lemma {:induction false} QuietKeepsData(s: State, step: Step)
    requires Inv(s) && Enabled(s, step) && (step.Begin? || step.Drop?)
    ensures DataInv(Apply(s, step))
  {
    var s' := Apply(s, step);
    forall q, u: nat | 0 <= q < |s.procs| ensures DataOk(s', q, u) {
      assert DataOk(s, q, u);
      if s.procs[q].call.Flushing? { OtherWriterStays(s, s', q, u); }
    }
  }

  // ---- the theorems ---------------------------------------------------------------------------

  /** Nodes just opened: nothing mapped, no locks; the file may hold anything. */
  ghost predicate Init(s: State) {
    && (forall p :: 0 <= p < |s.procs| ==> s.procs[p] == Proc([], [], seq(NLOCK, i => 0), seq(NLOCK, i => NoHold),
       Idle))
    && (forall c :: 0 <= c < |s.conns| ==>
       s.conns[c].proc < |s.procs| && s.conns[c].shared == {} && s.conns[c].excl == {})
  }

  lemma {:induction false} InvInit(s: State)
    requires Init(s)
    ensures Inv(s)
  {
    forall p, i: nat | 0 <= p < |s.procs| && i < NLOCK ensures CountOk(s, p, i) {
      assert SharedBy(s, p, i) == {} && ExclBy(s, p, i) == {};
    }
  }

  lemma {:induction false} InvStep(s: State, step: Step)
    requires Inv(s) && Enabled(s, step)
    ensures Inv(Apply(s, step))
  {
    LockInvStep(s, step);
    match step
    case Write(c, w, v) => WriteKeepsData(s, c, w, v);
    case Begin(_, _) => QuietKeepsData(s, step);
    case FlushRun(p, upto) => FlushKeepsData(s, p, upto);
    case Decide(p) => DecideKeepsData(s, p);
    case Finish(p) => FinishKeepsData(s, p);
    case Map(p, n) => MapKeepsData(s, p, n);
    case Drop(_) => QuietKeepsData(s, step);
  }

  lemma {:induction false} AbsUnowned(s: State, w: nat)
    requires Wf(s) && forall p: nat :: !KeepsLatest(s, p, w)
    ensures Abs(s, w) == At(s.file, w)
  {
  }

  /** What a new owner has is what was there: it just read it, or had it already. */
  lemma {:induction false} LockChangeOwned(s: State, step: Step, w: nat, q: nat)
    requires Inv(s) && Enabled(s, step) && (step.Decide? || step.Finish?) && Inv(Apply(s, step))
      && KeepsLatest(Apply(s, step), q, w)
    ensures Abs(Apply(s, step), w) == Abs(s, w)
  {
    var s' := Apply(s, step);
    AbsOfOwner(s', q, w);
    assert DataOk(s', q, w);
    if Owns(s, q, w) {
      AbsOfOwner(s, q, w);
    } else {
      if step.Decide? { DecideGivesNothing(s, step.p, q, w); }
      forall r: nat | KeepsLatest(s, r, w) ensures false {
        if r == step.p { FinishTakesNothing(s, r, w); }
        AtMostOneOwner(s', q, r, w);
      }
      AbsUnowned(s, w);
    }
  }

  /** What an owner let go, the file has. */
  lemma {:induction false} LockChangeUnowned(s: State, step: Step, w: nat)
    requires Inv(s) && Enabled(s, step) && (step.Decide? || step.Finish?) && Inv(Apply(s, step))
      && forall q: nat :: !KeepsLatest(Apply(s, step), q, w)
    ensures Abs(Apply(s, step), w) == Abs(s, w)
  {
    var s' := Apply(s, step);
    AbsUnowned(s', w);
    if q: nat :| KeepsLatest(s, q, w) {
      AbsOfOwner(s, q, w);
      assert DataOk(s, q, w);
      assert !KeepsLatest(s', q, w);
      if step.Finish? { FinishTakesNothing(s, q, w); } else { ReleasedIsClean(s, q, w); }
    } else {
      AbsUnowned(s, w);
    }
  }

  /** A lock change moves no value. */
  lemma {:induction false} LockChangeKeepsAbs(s: State, step: Step, w: nat)
    requires Inv(s) && Enabled(s, step) && (step.Decide? || step.Finish?)
    ensures Abs(Apply(s, step), w) == Abs(s, w)
  {
    InvStep(s, step);
    if q: nat :| KeepsLatest(Apply(s, step), q, w) { LockChangeOwned(s, step, w, q); }
      else { LockChangeUnowned(s, step, w); }
  }

  /** The steps that change no lock, where someone has the latest after. */
  lemma {:induction false} PlainStepOwned(s: State, step: Step, w: nat, q: nat)
    requires Inv(s) && Enabled(s, step) && !step.Decide? && !step.Finish? && Inv(Apply(s, step))
      && KeepsLatest(Apply(s, step), q, w)
    ensures Abs(Apply(s, step), w) == if step.Write? && step.w == w then step.v else Abs(s, w)
  {
    var s' := Apply(s, step);
    if step.Write? { WritersOwn(s, step.conn, step.w); }
    AbsOfOwner(s', q, w);
    assert Owns(s, q, w);
    if w < |s.procs[q].mem| {
      AbsOfOwner(s, q, w);
      if step.Write? && step.w == w { AtMostOneOwner(s, q, s.conns[step.conn].proc, w); }
    } else {
      forall r: nat | KeepsLatest(s, r, w) ensures false { AtMostOneOwner(s, q, r, w); }
      AbsUnowned(s, w);
    }
  }

  /** And where nobody has. */
  lemma {:induction false} PlainStepUnowned(s: State, step: Step, w: nat)
    requires Inv(s) && Enabled(s, step) && !step.Decide? && !step.Finish? && Inv(Apply(s, step))
      && forall q: nat :: !KeepsLatest(Apply(s, step), q, w)
    ensures Abs(Apply(s, step), w) == if step.Write? && step.w == w then step.v else Abs(s, w)
  {
    var s' := Apply(s, step);
    if step.Write? { WritersOwn(s, step.conn, step.w); }
    AbsUnowned(s', w);
    forall q: nat | KeepsLatest(s, q, w) ensures false {
      if step.Drop? && q == step.p { NoHoldsNoOwner(s, q, w); }
      assert KeepsLatest(s', q, w);
    }
    AbsUnowned(s, w);
    match step
    case FlushRun(p, _) => assert DataOk(s, p, w); assert !KeepsLatest(s, p, w);
    case Write(c, _, _) => assert !KeepsLatest(s', s.conns[c].proc, w);
    case _ =>
  }

  /** The steps that change no lock. */
  lemma {:induction false} PlainStepAbs(s: State, step: Step, w: nat)
    requires Inv(s) && Enabled(s, step) && !step.Decide? && !step.Finish?
    ensures Abs(Apply(s, step), w) == if step.Write? && step.w == w then step.v else Abs(s, w)
  {
    InvStep(s, step);
    if q: nat :| KeepsLatest(Apply(s, step), q, w) { PlainStepOwned(s, step, w, q); }
      else { PlainStepUnowned(s, step, w); }
  }

  lemma {:induction false} NoHoldsNoOwner(s: State, p: nat, w: nat)
    requires LockInv(s) && p < |s.procs|
    requires forall c :: 0 <= c < |s.conns| && s.conns[c].proc == p ==> s.conns[c].shared == {} && s.conns[c].excl == {}
    ensures !Owns(s, p, w)
  {
    forall i: nat | i < NLOCK ensures s.procs[p].aLock[i] == 0 {
      assert CountOk(s, p, i);
      assert SharedBy(s, p, i) == {} && ExclBy(s, p, i) == {};
    }
  }

  /** Refinement: the emulated memory changes at a store, at that word, to that value, and nowhere else. */
  lemma {:induction false} StepRefinesSharedMemory(s: State, step: Step, w: nat)
    requires Inv(s) && Enabled(s, step)
    ensures Abs(Apply(s, step), w) == if step.Write? && step.w == w then step.v else Abs(s, w)
  {
    if step.Decide? || step.Finish? { LockChangeKeepsAbs(s, step, w); } else { PlainStepAbs(s, step, w); }
  }

  // ---- whole runs -----------------------------------------------------------------------------

  ghost predicate IsRun(s: State, steps: seq<Step>)
    decreases |steps|
  {
    steps == [] || (Wf(s) && Enabled(s, steps[0]) && IsRun(Apply(s, steps[0]), steps[1..]))
  }

  ghost function Exec(s: State, steps: seq<Step>): State
    requires IsRun(s, steps)
    decreases |steps|
  {
    if steps == [] then s else Exec(Apply(s, steps[0]), steps[1..])
  }

  /** The value one real shared memory would hold: the last one stored. */
  function LastWritten(steps: seq<Step>, w: nat, initial: Word): Word
    decreases |steps|
  {
    if steps == [] then initial
    else LastWritten(steps[1..], w, if steps[0].Write? && steps[0].w == w then steps[0].v else initial)
  }

  lemma {:induction false} RunKeepsInv(s: State, steps: seq<Step>)
    requires Inv(s) && IsRun(s, steps)
    ensures Inv(Exec(s, steps))
    decreases |steps|
  {
    if steps != [] {
      InvStep(s, steps[0]);
      RunKeepsInv(Apply(s, steps[0]), steps[1..]);
    }
  }

  /** In every run, every word of the emulated memory is the last value anyone stored there. */
  lemma {:induction false} RunRefinesSharedMemory(s: State, steps: seq<Step>, w: nat)
    requires Inv(s) && IsRun(s, steps)
    ensures Inv(Exec(s, steps))
    ensures Abs(Exec(s, steps), w) == LastWritten(steps, w, Abs(s, w))
    decreases |steps|
  {
    if steps != [] {
      InvStep(s, steps[0]);
      StepRefinesSharedMemory(s, steps[0], w);
      RunRefinesSharedMemory(Apply(s, steps[0]), steps[1..], w);
    }
  }

  /** A word a connection may write reads, in its process, as the last value anyone stored. */
  lemma {:induction false} OwnedWordIsCurrent(s0: State, steps: seq<Step>, c: nat, w: nat)
    requires Init(s0) && IsRun(s0, steps)
    requires var s := Exec(s0, steps);
      c < |s.conns| && s.conns[c].MayWrite(w) && s.conns[c].proc < |s.procs| && w < |s.procs[s.conns[c].proc].mem|
    ensures var s := Exec(s0, steps); s.procs[s.conns[c].proc].mem[w] == LastWritten(steps, w, At(s0.file, w))
  {
    var s := Exec(s0, steps);
    InvInit(s0);
    RunRefinesSharedMemory(s0, steps, w);
    AbsUnowned(s0, w);
    WritersOwn(s, c, w);
    AbsOfOwner(s, s.conns[c].proc, w);
  }

  /** Right after a lock is obtained, every mapped word no other process owns is the last one stored. */
  lemma {:induction false} AcquiredIsCurrent(s0: State, steps: seq<Step>, p: nat, w: nat)
    requires Init(s0) && IsRun(s0, steps)
    requires Wf(Exec(s0, steps)) && Enabled(Exec(s0, steps), Finish(p))
    requires w < |Exec(s0, steps).procs[p].mem|
    requires forall q: nat :: q != p ==> !Owns(Exec(s0, steps), q, w)
    ensures Apply(Exec(s0, steps), Finish(p)).procs[p].mem[w] == LastWritten(steps, w, At(s0.file, w))
  {
    var s := Exec(s0, steps);
    InvInit(s0);
    RunRefinesSharedMemory(s0, steps, w);
    AbsUnowned(s0, w);
    if Owns(s, p, w) { AbsOfOwner(s, p, w); } else { AbsUnowned(s, w); }
  }

  /** In every reachable state, no two processes own a word and every count is exact. */
  lemma {:induction false} ReachableLocks(s0: State, steps: seq<Step>)
    requires Init(s0) && IsRun(s0, steps)
    ensures var s := Exec(s0, steps);
      && Wf(s)
      && (forall p, i: nat :: 0 <= p < |s.procs| && i < NLOCK ==> CountOk(s, p, i))
      && (forall p: nat, q: nat, w: nat :: Owns(s, p, w) && Owns(s, q, w) ==> p == q)
      && (forall p: nat, w: nat :: p < |s.procs| && Dirty(s.procs[p], w) ==> Owns(s, p, w))
  {
    var s := Exec(s0, steps);
    InvInit(s0);
    RunKeepsInv(s0, steps);
    forall p: nat, q: nat, w: nat | Owns(s, p, w) && Owns(s, q, w) ensures p == q { AtMostOneOwner(s, p, q, w); }
    forall p: nat, w: nat | p < |s.procs| && Dirty(s.procs[p], w) ensures Owns(s, p, w) { assert DataOk(s, p, w); }
  }
}
