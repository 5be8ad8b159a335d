/**
 The log replays to the same table in every thread, whichever thread loaded or looked up what.
 */
module DylinkProofs {
  import opened Dylink

  // ---- the log only grows -----------------------------------------------------------------------

  lemma {:induction false} ReplayPrefix(prog: Program, events: seq<Event>, e: Event, n: nat)
    requires n <= |events|
    ensures ReplayTo(prog, events + [e], n) == ReplayTo(prog, events, n)
    decreases n
  {
    if n > 0 { ReplayPrefix(prog, events, e, n - 1); }
  }

  lemma {:induction false} ReplaySnoc(prog: Program, events: seq<Event>, e: Event)
    requires ReplayTo(prog, events, |events|).Some?
    ensures ReplayTo(prog, events + [e], |events| + 1) == Replay1(prog, ReplayTo(prog, events, |events|).value, e)
  {
    ReplayPrefix(prog, events, e, |events|);
  }

  /** Threads further along the log have tables that extend those of threads behind. */
  lemma {:induction false} LaterExtends(prog: Program, log: Log, a: nat, b: nat)
    requires LogOk(prog, log) && a <= b <= |log.events|
    ensures ReplayTo(prog, log.events, a).Some? && ReplayTo(prog, log.events, b).Some?
    ensures ReplayTo(prog, log.events, a).value.table <= ReplayTo(prog, log.events, b).value.table
    decreases b - a
  {
    if a < b {
      assert GrewAt(prog, log.events, a);
      LaterExtends(prog, log, a + 1, b);
    } else if a < |log.events| {
      assert GrewAt(prog, log.events, a);
    }
  }

  // ---- linking: slots are appended in order, and each holds what its provider names ----------------

  /** The slots lie one after another from `from` on, and end the table. */
  ghost predicate Consecutive(l: Link, from: nat) {
    |l.table| == from + |l.slots| && forall k :: 0 <= k < |l.slots| ==> l.slots[k].0 == from + k
  }

  ghost predicate SlotHolds(prog: Program, libs: seq<Loaded>, l: Link, k: nat)
    requires k < |l.slots|
  {
    l.slots[k].0 < |l.table| && Resolve(prog, libs, l.slots[k].1).Some?
      && l.table[l.slots[k].0] == Resolve(prog, libs, l.slots[k].1)
  }

  ghost predicate LinkOk(prog: Program, libs: seq<Loaded>, l: Link, from: nat) {
    && |prog.table| <= from && Consecutive(l, from)
    && (forall k: nat :: k < |l.slots| ==> SlotHolds(prog, libs, l, k))
    && SlottedOk(prog, libs, l.table, l.slotted)
  }

  lemma {:induction false} AppendOk(prog: Program, libs: seq<Loaded>, l: Link, from: nat, p: Provider)
    requires LinkOk(prog, libs, l, from) && Resolve(prog, libs, p).Some?
    ensures LinkOk(prog, libs, Appended(l, p, Resolve(prog, libs, p)), from)
    ensures l.table <= Appended(l, p, Resolve(prog, libs, p)).table
  {
    var l' := Appended(l, p, Resolve(prog, libs, p));
    forall k: nat | k < |l'.slots| ensures SlotHolds(prog, libs, l', k) {
      if k < |l.slots| { assert SlotHolds(prog, libs, l, k); }
    }
    forall q | q in l'.slotted ensures HasSlot(prog, libs, l'.table, l'.slotted, q) {
      if q != p { assert HasSlot(prog, libs, l.table, l.slotted, q); }
    }
    forall q, r | q in l'.slotted && r in l'.slotted && l'.slotted[q] == l'.slotted[r] ensures q == r {
      if q != p { assert HasSlot(prog, libs, l.table, l.slotted, q); }
      if r != p { assert HasSlot(prog, libs, l.table, l.slotted, r); }
    }
  }

  lemma {:induction false} IndexedOk(prog: Program, libs: seq<Loaded>, l: Link, from: nat, p: Provider)
    requires LinkOk(prog, libs, l, from) && Resolve(prog, libs, p).Some?
    ensures LinkOk(prog, libs, Indexed(prog, libs, l, p), from)
    ensures l.table <= Indexed(prog, libs, l, p).table
  {
    if KnownIndex(prog, l.slotted, p).None? { AppendOk(prog, libs, l, from, p); }
  }

  lemma {:induction false} LinkedOk(prog: Program, libs: seq<Loaded>, m: Module, l: Link, from: nat, n: nat)
    requires LinkOk(prog, libs, l, from) && n <= |m.imports|
    ensures LinkOk(prog, libs, Linked(prog, libs, m, l, n), from)
    ensures l.table <= Linked(prog, libs, m, l, n).table
    decreases n
  {
    if n > 0 {
      LinkedOk(prog, libs, m, l, from, n - 1);
      var i := m.imports[n - 1];
      if i.GotFunc? && Find(prog, libs, i.sym).Some? {
        IndexedOk(prog, libs, Linked(prog, libs, m, l, n - 1), from, Find(prog, libs, i.sym).value);
      }
    }
  }

  /** More libraries, and a table that says the same where slots are, change nothing for what is slotted. */
  lemma {:induction false} LinkOkMore(prog: Program, libs: seq<Loaded>, more: seq<Loaded>, l: Link, l': Link, from: nat)
    requires LinkOk(prog, libs, l, from) && libs <= more && l'.slotted == l.slotted && l'.slots == l.slots
      && |l'.table| == |l.table|
    requires forall i :: |prog.table| <= i < |l.table| && l.table[i].Some? ==> l'.table[i] == l.table[i]
    ensures LinkOk(prog, more, l', from)
  {
    forall k: nat | k < |l'.slots| ensures SlotHolds(prog, more, l', k) { assert SlotHolds(prog, libs, l, k); }
    forall q | q in l'.slotted ensures HasSlot(prog, more, l'.table, l'.slotted, q) {
      assert HasSlot(prog, libs, l.table, l.slotted, q);
    }
  }

  /** Own names are exported ones. */
  lemma {:induction false} OwnNamesOk(prog: Program, libs: seq<Loaded>, m: Module, n: nat)
    requires n <= |m.imports|
    ensures forall x :: x in OwnNames(prog, libs, m, n) ==> x in m.exports
    decreases n
  {
    if n > 0 { OwnNamesOk(prog, libs, m, n - 1); }
  }

  lemma {:induction false} OwnLinkedOk(prog: Program, libs: seq<Loaded>, l: Link, from: nat, lib: nat, own: seq<Name>,
      n: nat)
    requires LinkOk(prog, libs, l, from) && n <= |own| && lib < |libs|
    requires forall k :: 0 <= k < |own| ==> own[k] in libs[lib].exports
    ensures LinkOk(prog, libs, OwnLinked(l, lib, own, n), from)
    ensures l.table <= OwnLinked(l, lib, own, n).table
    decreases n
  {
    if n > 0 {
      OwnLinkedOk(prog, libs, l, from, lib, own, n - 1);
      AppendOk(prog, libs, OwnLinked(l, lib, own, n - 1), from, Library(lib, own[n - 1]));
    }
  }

  // ---- a function with two slots --------------------------------------------------------------------

  /** Every slot's provider is known, and no two slots have the same one. */
  ghost predicate OneSlotEach(l: Link) {
    && (forall k :: 0 <= k < |l.slots| ==> l.slots[k].1 in l.slotted)
    && (forall j, k :: 0 <= j < k < |l.slots| ==> l.slots[j].1 != l.slots[k].1)
  }

  /** What a module imports from elsewhere gets one slot each, however often it asks. */
  lemma {:induction false} LinkedOnce(prog: Program, libs: seq<Loaded>, m: Module, l: Link, n: nat)
    requires n <= |m.imports| && OneSlotEach(l)
      && forall k :: 0 <= k < |l.slots| ==> Resolve(prog, libs, l.slots[k].1).Some?
    ensures var l' := Linked(prog, libs, m, l, n);
      OneSlotEach(l') && forall k :: 0 <= k < |l'.slots| ==> Resolve(prog, libs, l'.slots[k].1).Some?
    decreases n
  {
    if n > 0 { LinkedOnce(prog, libs, m, l, n - 1); }
  }

  /** The library's own functions follow, in the order they were asked for. */
  lemma {:induction false} OwnSlots(l: Link, lib: nat, own: seq<Name>, n: nat)
    requires n <= |own|
    ensures var slots := OwnLinked(l, lib, own, n).slots;
      |slots| == |l.slots| + n && slots[..|l.slots|] == l.slots
        && forall k :: 0 <= k < n ==> slots[|l.slots| + k].1 == Library(lib, own[k])
    decreases n
  {
    if n > 0 { OwnSlots(l, lib, own, n - 1); }
  }

  ghost predicate Twice(own: seq<Name>) {
    exists j, k :: 0 <= j < k < |own| && own[j] == own[k]
  }

  ghost predicate SharedProvider(l: Link) {
    exists j, k :: 0 <= j < k < |l.slots| && l.slots[j].1 == l.slots[k].1
  }

  /** A load gives one provider two slots exactly if the module asks twice for the address of a function of its own. */
  lemma {:induction false} TwoSlotsOfOne(prog: Program, libs: seq<Loaded>, t: Table, slotted: map<Provider, nat>,
      m: Module)
    ensures SharedProvider(Linkage(prog, libs, t, slotted, m)) <==> Twice(OwnNames(prog, libs, m, |m.imports|))
  {
    var l0 := Linked(prog, libs, m, Link(Grown(t, m), slotted, []), |m.imports|);
    var own := OwnNames(prog, libs, m, |m.imports|);
    var l1 := l0.(table := WithElementsIn(l0.table, AlignUp(|t|, m.tableAlign), m.tableSize, |libs|));
    LinkedOnce(prog, libs, m, Link(Grown(t, m), slotted, []), |m.imports|);
    OwnSlots(l1, |libs|, own, |own|);
    SlotsShared(l0.slots, OwnLinked(l1, |libs|, own, |own|), |libs|, own);
  }

  lemma {:induction false} SlotsShared(before: seq<(nat, Provider)>, l: Link, lib: nat, own: seq<Name>)
    requires |l.slots| == |before| + |own| && l.slots[..|before|] == before
    requires forall k :: 0 <= k < |own| ==> l.slots[|before| + k].1 == Library(lib, own[k])
    requires forall j, k :: 0 <= j < k < |before| ==> before[j].1 != before[k].1
    requires forall k :: 0 <= k < |before| ==> before[k].1.Main? || before[k].1.index != lib
    ensures SharedProvider(l) <==> Twice(own)
  {
    var n := |before|;
    forall k | 0 <= k < n ensures l.slots[k] == before[k] { assert l.slots[..n][k] == l.slots[k]; }
    if SharedProvider(l) {
      var j, k :| 0 <= j < k < |l.slots| && l.slots[j].1 == l.slots[k].1;
      assert l.slots[n + (k - n)].1 == Library(lib, own[k - n]);
      assert l.slots[n + (j - n)].1 == Library(lib, own[j - n]);
    }
    if Twice(own) {
      var j, k :| 0 <= j < k < |own| && own[j] == own[k];
      assert l.slots[n + j].1 == l.slots[n + k].1;
    }
  }

  /** The module asks for what `p` provides, in its first `n` imports. */
  ghost predicate Asked(prog: Program, libs: seq<Loaded>, m: Module, n: nat, p: Provider)
    requires n <= |m.imports|
  {
    exists i :: 0 <= i < n && m.imports[i].GotFunc? && Find(prog, libs, m.imports[i].sym) == Some(p)
  }

  ghost predicate InSlots(l: Link, p: Provider) {
    exists k :: 0 <= k < |l.slots| && l.slots[k].1 == p
  }

  lemma {:induction false} AppendedSlots(l: Link, q: Provider, f: Option<Fn>, p: Provider)
    ensures InSlots(Appended(l, q, f), p) <==> InSlots(l, p) || p == q
  {
    var l' := Appended(l, q, f);
    if InSlots(l, p) {
      var k :| 0 <= k < |l.slots| && l.slots[k].1 == p;
      assert l'.slots[k].1 == p;
    }
    assert l'.slots[|l.slots|].1 == q;
  }

  /** The slots of a load before the library exists: what is asked for and had no index. */
  lemma {:induction false} SlotsAsked(prog: Program, libs: seq<Loaded>, m: Module, l0: Link, n: nat, p: Provider)
    requires n <= |m.imports| && l0.slots == []
    ensures var l := Linked(prog, libs, m, l0, n);
      && (InSlots(l, p) <==> Asked(prog, libs, m, n, p) && KnownIndex(prog, l0.slotted, p).None?)
      && (p in l.slotted <==> p in l0.slotted || InSlots(l, p))
    decreases n
  {
    if n > 0 {
      SlotsAsked(prog, libs, m, l0, n - 1, p);
      var before, i := Linked(prog, libs, m, l0, n - 1), m.imports[n - 1];
      if i.GotFunc? && Find(prog, libs, i.sym).Some? {
        var found := Find(prog, libs, i.sym).value;
        if KnownIndex(prog, before.slotted, found).None? {
          AppendedSlots(before, found, Resolve(prog, libs, found), p);
        }
      }
    }
  }

  /** Two slots that hold one function. */
  ghost predicate SharedFn(prog: Program, libs: seq<Loaded>, l: Link) {
    exists j, k :: 0 <= j < k < |l.slots| && SameFn(prog, libs, l.slots[j].1, l.slots[k].1)
  }

  predicate SameFn(prog: Program, libs: seq<Loaded>, p: Provider, q: Provider) {
    Resolve(prog, libs, p).Some? && Resolve(prog, libs, p) == Resolve(prog, libs, q)
  }

  /** Two names of one function of the program, neither with an index yet. */
  predicate Aliases(prog: Program, slotted: map<Provider, nat>, a: Name, b: Name) {
    && a != b && a in prog.exports && b in prog.exports && prog.exports[a] == prog.exports[b]
    && KnownIndex(prog, slotted, Main(a)).None? && KnownIndex(prog, slotted, Main(b)).None?
  }

  predicate Asks(m: Module, sym: Name) { exists i :: 0 <= i < |m.imports| && AsksAt(m, i, sym) }

  predicate AsksAt(m: Module, i: nat, sym: Name)
    requires i < |m.imports|
  {
    m.imports[i].GotFunc? && m.imports[i].sym == sym
  }

  /** The module asks for one function of the program under two names. */
  ghost predicate AliasAsked(prog: Program, slotted: map<Provider, nat>, m: Module) {
    exists a, b :: Aliases(prog, slotted, a, b) && Asks(m, a) && Asks(m, b)
  }

  /** A name the program exports is asked of the program. */
  lemma {:induction false} AskedOfProgram(prog: Program, libs: seq<Loaded>, m: Module, a: Name)
    requires a in prog.exports
    ensures Asked(prog, libs, m, |m.imports|, Main(a)) <==> Asks(m, a)
  {
    if Asks(m, a) {
      var i :| 0 <= i < |m.imports| && AsksAt(m, i, a);
      assert Find(prog, libs, m.imports[i].sym) == Some(Main(a));
    }
    if Asked(prog, libs, m, |m.imports|, Main(a)) {
      var i :| 0 <= i < |m.imports| && m.imports[i].GotFunc? && Find(prog, libs, m.imports[i].sym) == Some(Main(a));
      assert AsksAt(m, i, a);
    }
  }

  /** In a load, the program's functions are in the slots that come before the library's own. */
  lemma {:induction false} ProgramSlots(prog: Program, libs: seq<Loaded>, t: Table, slotted: map<Provider, nat>,
      m: Module, a: Name)
    requires a in prog.exports
    ensures InSlots(Linkage(prog, libs, t, slotted, m), Main(a)) <==>
      Asks(m, a) && KnownIndex(prog, slotted, Main(a)).None?
  {
    var start := Link(Grown(t, m), slotted, []);
    var l0 := Linked(prog, libs, m, start, |m.imports|);
    var own := OwnNames(prog, libs, m, |m.imports|);
    var l1 := l0.(table := WithElementsIn(l0.table, AlignUp(|t|, m.tableAlign), m.tableSize, |libs|));
    SlotsAsked(prog, libs, m, start, |m.imports|, Main(a));
    AskedOfProgram(prog, libs, m, a);
    OwnSlots(l1, |libs|, own, |own|);
    MainBefore(l0.slots, OwnLinked(l1, |libs|, own, |own|), |libs|, own, l0, a);
  }

  lemma {:induction false} MainBefore(before: seq<(nat, Provider)>, l: Link, lib: nat, own: seq<Name>, l0: Link,
      a: Name)
    requires |l.slots| == |before| + |own| && l.slots[..|before|] == before && l0.slots == before
    requires forall k :: 0 <= k < |own| ==> l.slots[|before| + k].1 == Library(lib, own[k])
    ensures InSlots(l, Main(a)) <==> InSlots(l0, Main(a))
  {
    var n := |before|;
    forall k | 0 <= k < n ensures l.slots[k] == before[k] { assert l.slots[..n][k] == l.slots[k]; }
    forall k | n <= k < |l.slots| ensures l.slots[k].1.Library? {
      assert l.slots[n + (k - n)].1 == Library(lib, own[k - n]);
    }
    if InSlots(l, Main(a)) {
      var k :| 0 <= k < |l.slots| && l.slots[k].1 == Main(a);
      assert l0.slots[k].1 == Main(a);
    }
    if InSlots(l0, Main(a)) {
      var k :| 0 <= k < |l0.slots| && l0.slots[k].1 == Main(a);
      assert l.slots[k].1 == Main(a);
    }
  }

  lemma {:induction false} Ordered(prog: Program, libs: seq<Loaded>, l: Link, j: nat, k: nat)
    requires j < |l.slots| && k < |l.slots| && j != k && SameFn(prog, libs, l.slots[j].1, l.slots[k].1)
    ensures SharedFn(prog, libs, l)
  {
    if k < j { assert SameFn(prog, libs, l.slots[k].1, l.slots[j].1); }
  }

  /**
   A load gives one function two slots exactly if the module asks twice for a function of its own, or for one of
   the program's under two names, neither of which had an index.
   */
  lemma {:induction false} TwoSlotsExactly(prog: Program, libs: seq<Loaded>, t: Table, slotted: map<Provider, nat>,
      m: Module, global: bool)
    requires SlottedOk(prog, libs, t, slotted) && prog.table <= t
    ensures var l := Linkage(prog, libs, t, slotted, m); var more := libs + [LibraryOf(t, l, m, global)];
      SharedFn(prog, more, l) <==>
        Twice(OwnNames(prog, libs, m, |m.imports|)) || AliasAsked(prog, slotted, m)
  {
    var l := Linkage(prog, libs, t, slotted, m);
    var more := libs + [LibraryOf(t, l, m, global)];
    TwoSlotsOfOne(prog, libs, t, slotted, m);
    LinkageOk(prog, libs, t, slotted, m, global);
    if SharedProvider(l) {
      var j, k :| 0 <= j < k < |l.slots| && l.slots[j].1 == l.slots[k].1;
      assert SlotHolds(prog, more, l, j);
      assert SameFn(prog, more, l.slots[j].1, l.slots[k].1);
    }
    if AliasAsked(prog, slotted, m) {
      var a, b :| Aliases(prog, slotted, a, b) && Asks(m, a) && Asks(m, b);
      AliasesShare(prog, libs, t, slotted, m, more, a, b);
    }
    if SharedFn(prog, more, l) && !SharedProvider(l) { SharedAliases(prog, libs, t, slotted, m, more); }
  }

  lemma {:induction false} AliasesShare(prog: Program, libs: seq<Loaded>, t: Table, slotted: map<Provider, nat>,
      m: Module, more: seq<Loaded>, a: Name, b: Name)
    requires Aliases(prog, slotted, a, b) && Asks(m, a) && Asks(m, b)
    ensures SharedFn(prog, more, Linkage(prog, libs, t, slotted, m))
  {
    var l := Linkage(prog, libs, t, slotted, m);
    ProgramSlots(prog, libs, t, slotted, m, a);
    ProgramSlots(prog, libs, t, slotted, m, b);
    var j :| 0 <= j < |l.slots| && l.slots[j].1 == Main(a);
    var k :| 0 <= k < |l.slots| && l.slots[k].1 == Main(b);
    Ordered(prog, more, l, j, k);
  }

  lemma {:induction false} SharedAliases(prog: Program, libs: seq<Loaded>, t: Table, slotted: map<Provider, nat>,
      m: Module, more: seq<Loaded>)
    requires var l := Linkage(prog, libs, t, slotted, m); SharedFn(prog, more, l) && !SharedProvider(l)
    ensures AliasAsked(prog, slotted, m)
  {
    var l := Linkage(prog, libs, t, slotted, m);
    var j, k :| 0 <= j < k < |l.slots| && SameFn(prog, more, l.slots[j].1, l.slots[k].1);
    var p, q := l.slots[j].1, l.slots[k].1;
    assert p != q;
    ProgramSlots(prog, libs, t, slotted, m, p.name);
    ProgramSlots(prog, libs, t, slotted, m, q.name);
    assert Aliases(prog, slotted, p.name, q.name);
  }

  lemma {:induction false} NothingOwn(prog: Program, libs: seq<Loaded>, m: Module, n: nat)
    requires n <= |m.imports| && m.exports == {}
    ensures OwnNames(prog, libs, m, n) == []
    decreases n
  {
    if n > 0 { NothingOwn(prog, libs, m, n - 1); }
  }

  ghost predicate TwoForOne(prog: Program, m: Module) {
    var l := Linkage(prog, [], [], map[], m);
    SharedFn(prog, [LibraryOf([], l, m, true)], l) && !Twice(OwnNames(prog, [], m, |m.imports|))
  }

  lemma {:induction false} TwoNames(prog: Program, m: Module, a: Name, b: Name)
    requires prog.table == [] && m.exports == {} && Aliases(prog, map[], a, b) && Asks(m, a) && Asks(m, b)
    ensures TwoForOne(prog, m)
  {
    TwoSlotsExactly(prog, [], [], map[], m, true);
    var l := Linkage(prog, [], [], map[], m);
    assert [] + [LibraryOf([], l, m, true)] == [LibraryOf([], l, m, true)];
    NothingOwn(prog, [], m, |m.imports|);
  }

  /** A program that exports one function as `a` and as `b`, and a module that asks for both. */
  lemma {:induction false} TwoNamesTwoSlots()
    ensures exists prog: Program, m: Module :: TwoForOne(prog, m)
  {
    var prog := Program(map["a" := 0, "b" := 0], []);
    var m := Module(0, 1, {}, [GotFunc("a", false), GotFunc("b", false)]);
    assert AsksAt(m, 0, "a") && AsksAt(m, 1, "b");
    TwoNames(prog, m, "a", "b");
  }

  /** Filling consecutive slots at the end of a table gives what appending them gave. */
  lemma {:induction false} SlotsRefill(prog: Program, libs: seq<Loaded>, l: Link, from: nat, t: Table, n: nat)
    requires LinkOk(prog, libs, l, from) && n <= |l.slots| && |t| == |l.table| && t[..from] == l.table[..from]
    ensures var r := WithSlots(prog, libs, t, l.slots[..n]);
      r.Some? && |r.value| == |t| && r.value[..from + n] == l.table[..from + n]
    decreases n
  {
    if n > 0 {
      SlotsRefill(prog, libs, l, from, t, n - 1);
      assert l.slots[..n][..n - 1] == l.slots[..n - 1];
      assert SlotHolds(prog, libs, l, n - 1);
      var r0 := WithSlots(prog, libs, t, l.slots[..n - 1]).value;
      var r := r0[from + n - 1 := l.table[from + n - 1]];
      assert r[..from + n] == r0[..from + n - 1] + [l.table[from + n - 1]];
      assert l.table[..from + n] == l.table[..from + n - 1] + [l.table[from + n - 1]];
    } else {
      assert l.slots[..0] == [];
    }
  }

  // ---- a load is what its replay does ---------------------------------------------------------------

  /** What links a library, before it exists. */
  lemma {:induction false} LoadLinks(prog: Program, libs: seq<Loaded>, t: Table, slotted: map<Provider, nat>, m: Module)
    requires SlottedOk(prog, libs, t, slotted) && prog.table <= t
    ensures var l := Linked(prog, libs, m, Link(Grown(t, m), slotted, []), |m.imports|);
      LinkOk(prog, libs, l, |Grown(t, m)|) && Grown(t, m) <= l.table
  {
    var l := Link(Grown(t, m), slotted, []);
    forall q | q in slotted ensures HasSlot(prog, libs, l.table, slotted, q) {
      assert HasSlot(prog, libs, t, slotted, q);
    }
    LinkedOk(prog, libs, m, l, |Grown(t, m)|, |m.imports|);
  }

  /** The whole of a load: its slots are in order past its elements, and the old table is still there. */
  lemma {:induction false} LinkageOk(prog: Program, libs: seq<Loaded>, t: Table, slotted: map<Provider, nat>,
      m: Module, global: bool)
    requires SlottedOk(prog, libs, t, slotted) && prog.table <= t
    ensures var l := Linkage(prog, libs, t, slotted, m);
      && LinkOk(prog, libs + [LibraryOf(t, l, m, global)], l, |Grown(t, m)|)
      && t <= l.table
      && WithElements(Grown(t, m), AlignUp(|t|, m.tableAlign), m.tableSize, |libs|) <= l.table
  {
    var from, base := |Grown(t, m)|, AlignUp(|t|, m.tableAlign);
    var l0 := Linked(prog, libs, m, Link(Grown(t, m), slotted, []), |m.imports|);
    LoadLinks(prog, libs, t, slotted, m);
    var l1 := l0.(table := WithElementsIn(l0.table, base, m.tableSize, |libs|));
    var own := OwnNames(prog, libs, m, |m.imports|);
    var l := Linkage(prog, libs, t, slotted, m);
    var more := libs + [LibraryOf(t, l, m, global)];
    ElementsKeep(t, m, l0.table, |libs|);
    LinkOkMore(prog, libs, more, l0, l1, from);
    OwnNamesOk(prog, libs, m, |m.imports|);
    forall q | q in l0.slotted ensures q.Library? ==> q.index < |libs| {
      assert HasSlot(prog, libs, l0.table, l0.slotted, q);
    }
    OwnLinkedOk(prog, more, l1, from, |libs|, own, |own|);
  }

  /** The elements go where the table was grown with nothing. */
  lemma {:induction false} ElementsKeep(t: Table, m: Module, t': Table, lib: nat)
    requires Grown(t, m) <= t'
    ensures var base := AlignUp(|t|, m.tableAlign);
      && base + m.tableSize == |Grown(t, m)|
      && t <= WithElementsIn(t', base, m.tableSize, lib)
      && WithElements(Grown(t, m), base, m.tableSize, lib) <= WithElementsIn(t', base, m.tableSize, lib)
      && forall i :: 0 <= i < |t'| && t'[i].Some? ==> WithElementsIn(t', base, m.tableSize, lib)[i] == t'[i]
  {
  }

  /** Replaying a load into any up-to-date thread makes the table the loading thread got. */
  lemma {:induction false} LoadReplays(prog: Program, libs: seq<Loaded>, t: Table, slotted: map<Provider, nat>,
      m: Module, global: bool)
    requires SlottedOk(prog, libs, t, slotted) && prog.table <= t
    ensures var l := Linkage(prog, libs, t, slotted, m); var lib := LibraryOf(t, l, m, global);
      Replay1(prog, View(t, libs), Load(lib)) == Some(View(l.table, libs + [lib]))
  {
    var l := Linkage(prog, libs, t, slotted, m);
    var lib := LibraryOf(t, l, m, global);
    var from := |Grown(t, m)|;
    LinkageOk(prog, libs, t, slotted, m, global);
    var filled := WithElements(t + Nones(lib.after - lib.before), lib.base, lib.size, |libs|);
    ElementsStart(t, m, lib.after, |libs|);
    SlotsRefillAll(prog, libs + [lib], l, from, filled);
  }

  /** However far the table is grown at once, its start is as if grown for the elements alone. */
  lemma {:induction false} ElementsStart(t: Table, m: Module, after: nat, lib: nat)
    requires |Grown(t, m)| <= after
    ensures var base := AlignUp(|t|, m.tableAlign);
      && base + m.tableSize == |Grown(t, m)|
      && WithElements(t + Nones(after - |t|), base, m.tableSize, lib)[..|Grown(t, m)|] == WithElements(Grown(t, m),
         base, m.tableSize, lib)
  {
  }

  lemma {:induction false} SlotsRefillAll(prog: Program, libs: seq<Loaded>, l: Link, from: nat, t: Table)
    requires LinkOk(prog, libs, l, from) && |t| == |l.table| && t[..from] == l.table[..from]
    ensures WithSlots(prog, libs, t, l.slots) == Some(l.table)
  {
    SlotsRefill(prog, libs, l, from, t, |l.slots|);
    assert l.slots[..|l.slots|] == l.slots;
    var r := WithSlots(prog, libs, t, l.slots).value;
    assert r == r[..from + |l.slots|] && l.table == l.table[..from + |l.slots|];
  }

  // ---- every step keeps it --------------------------------------------------------------------------

  /** The log with one more event that replays to `v'`. */
  lemma {:induction false} LogGrows(prog: Program, log: Log, e: Event, v': View, slotted': map<Provider, nat>)
    requires LogOk(prog, log)
    requires var v := ReplayTo(prog, log.events, |log.events|).value;
      Replay1(prog, v, e) == Some(v') && v.table <= v'.table && v.instances <= v'.instances
    requires SlottedOk(prog, v'.instances, v'.table, slotted')
    ensures LogOk(prog, Log(log.events + [e], v'.instances, slotted'))
    ensures ReplayTo(prog, log.events + [e], |log.events| + 1) == Some(v')
  {
    var events := log.events + [e];
    ReplaySnoc(prog, log.events, e);
    forall k | 0 <= k < |events| ensures GrewAt(prog, events, k) {
      if k < |log.events| {
        GrewStill(prog, log.events, e, k);
      } else {
        ReplayPrefix(prog, log.events, e, k);
      }
    }
  }

  lemma {:induction false} GrewStill(prog: Program, events: seq<Event>, e: Event, k: nat)
    requires k < |events| && GrewAt(prog, events, k)
    ensures GrewAt(prog, events + [e], k)
  {
    ReplayPrefix(prog, events, e, k);
    ReplayPrefix(prog, events, e, k + 1);
  }

  lemma {:induction false} ThreadsStay(prog: Program, log: Log, e: Event, slotted': map<Provider, nat>,
      libs': seq<Loaded>, th: Thread)
    requires ThreadOk(prog, log, th)
    ensures ThreadOk(prog, Log(log.events + [e], libs', slotted'), th)
  {
    ReplayPrefix(prog, log.events, e, th.applied);
  }

  /** The program's own table is the start of every table. */
  lemma {:induction false} ProgramTableFirst(prog: Program, log: Log)
    requires LogOk(prog, log)
    ensures prog.table <= CaughtUp(prog, log).view.table
  {
    LaterExtends(prog, log, 0, |log.events|);
  }

  /** A thread that made an event has done what the others will replay. */
  lemma {:induction false} EventKeepsInv(prog: Program, s: State, e: Event, v': View, slotted': map<Provider, nat>,
      t: nat)
    requires Inv(prog, s) && t < |s.threads|
    requires var v := CaughtUp(prog, s.log).view;
      Replay1(prog, v, e) == Some(v') && v.table <= v'.table && v.instances <= v'.instances
    requires SlottedOk(prog, v'.instances, v'.table, slotted')
    ensures Inv(prog,
      State(Log(s.log.events + [e], v'.instances, slotted'), s.threads[t := Thread(v', |s.log.events| + 1)]))
  {
    LogGrows(prog, s.log, e, v', slotted');
    forall u | 0 <= u < |s.threads| && u != t
      ensures ThreadOk(prog, Log(s.log.events + [e], v'.instances, slotted'), s.threads[u])
    {
      assert ThreadOk(prog, s.log, s.threads[u]);
      ThreadsStay(prog, s.log, e, slotted', v'.instances, s.threads[u]);
    }
  }

  lemma {:induction false} InstantiateKeeps(prog: Program, s: State, step: Step)
    requires Inv(prog, s) && Enabled(prog, s, step) && step.Instantiate?
    ensures Inv(prog, Apply(prog, s, step))
  {
    var log, v := s.log, CaughtUp(prog, s.log).view;
    var l := Linkage(prog, log.libraries, v.table, log.slotted, step.m);
    var lib := LibraryOf(v.table, l, step.m, step.global);
    ProgramTableFirst(prog, log);
    LinkageOk(prog, log.libraries, v.table, log.slotted, step.m, step.global);
    LoadReplays(prog, log.libraries, v.table, log.slotted, step.m, step.global);
    EventKeepsInv(prog, s, Load(lib), View(l.table, v.instances + [lib]), l.slotted, step.t);
  }

  /** Adding a slot by dlsym is what its replay does. */
  lemma {:induction false} SlotReplays(prog: Program, log: Log, p: Provider)
    requires LogOk(prog, log) && p !in log.slotted && Resolve(prog, log.libraries, p).Some?
    ensures var v := CaughtUp(prog, log).view;
      var l := Appended(Link(v.table, log.slotted, []), p, Resolve(prog, log.libraries, p));
      && Replay1(prog, v, Slot(|v.table|, p)) == Some(v.(table := l.table))
      && v.table <= l.table && SlottedOk(prog, log.libraries, l.table, l.slotted)
  {
    var v := CaughtUp(prog, log).view;
    var l := Link(v.table, log.slotted, []);
    var l' := Appended(l, p, Resolve(prog, log.libraries, p));
    ProgramTableFirst(prog, log);
    assert LinkOk(prog, log.libraries, l, |v.table|);
    AppendOk(prog, log.libraries, l, |v.table|, p);
    assert (v.table + Nones(1))[|v.table| := Resolve(prog, log.libraries, p)] == l'.table;
  }

  lemma {:induction false} SymKeeps(prog: Program, s: State, step: Step)
    requires Inv(prog, s) && Enabled(prog, s, step) && step.Sym?
    ensures Inv(prog, Apply(prog, s, step))
  {
    var log, v := s.log, CaughtUp(prog, s.log).view;
    var p := Candidate(prog, log.libraries, step.handle, step.name);
    if p.Some? && KnownIndex(prog, log.slotted, p.value).None? {
      var l := Indexed(prog, log.libraries, Link(v.table, log.slotted, []), p.value);
      SlotReplays(prog, log, p.value);
      EventKeepsInv(prog, s, Slot(|v.table|, p.value), v.(table := l.table), l.slotted, step.t);
    }
  }

  lemma {:induction false} InvStep(prog: Program, s: State, step: Step)
    requires Inv(prog, s) && Enabled(prog, s, step)
    ensures Inv(prog, Apply(prog, s, step))
  {
    match step
    case Instantiate(_, _, _) => InstantiateKeeps(prog, s, step);
    case Sym(_, _, _) => SymKeeps(prog, s, step);
    case _ =>
  }

  // ---- whole runs -----------------------------------------------------------------------------------

  ghost predicate IsRun(prog: Program, s: State, steps: seq<Step>)
    decreases |steps|
  {
    steps == [] ||
    (Enabled(prog, s, steps[0]) && ReplayTo(prog, s.log.events, |s.log.events|).Some?
      && IsRun(prog, Apply(prog, s, steps[0]), steps[1..]))
  }

  ghost function Exec(prog: Program, s: State, steps: seq<Step>): State
    requires IsRun(prog, s, steps)
    decreases |steps|
  {
    if steps == [] then s else Exec(prog, Apply(prog, s, steps[0]), steps[1..])
  }

  /** A process that has loaded nothing, with any number of threads. */
  predicate Init(prog: Program, s: State) {
    && s.log == Log([], [], map[])
    && forall t :: 0 <= t < |s.threads| ==> s.threads[t] == Thread(View(prog.table, []), 0)
  }

  lemma {:induction false} RunInv(prog: Program, s: State, steps: seq<Step>)
    requires Inv(prog, s) && IsRun(prog, s, steps)
    ensures Inv(prog, Exec(prog, s, steps))
    decreases |steps|
  {
    if steps != [] {
      InvStep(prog, s, steps[0]);
      RunInv(prog, Apply(prog, s, steps[0]), steps[1..]);
    }
  }

  /**
   In every run, of any two threads one's table is the start of the other's, and threads that have
   applied the same part of the log have the same table.
   */
  lemma {:induction false} TablesAgree(prog: Program, s0: State, steps: seq<Step>, t: nat, u: nat)
    requires Init(prog, s0) && IsRun(prog, s0, steps)
    requires t < |Exec(prog, s0, steps).threads| && u < |Exec(prog, s0, steps).threads|
    requires Exec(prog, s0, steps).threads[t].applied <= Exec(prog, s0, steps).threads[u].applied
    ensures var s := Exec(prog, s0, steps);
      && s.threads[t].view.table <= s.threads[u].view.table
      && (s.threads[t].applied == s.threads[u].applied ==> s.threads[t].view == s.threads[u].view)
  {
    RunInv(prog, s0, steps);
    var s := Exec(prog, s0, steps);
    assert ThreadOk(prog, s.log, s.threads[t]) && ThreadOk(prog, s.log, s.threads[u]);
    LaterExtends(prog, s.log, s.threads[t].applied, s.threads[u].applied);
  }

  /** In every reachable log, slots are one a provider, past the program's own, and hold what they should. */
  lemma {:induction false} SlotsAreFunctions(prog: Program, s0: State, steps: seq<Step>)
    requires Init(prog, s0) && IsRun(prog, s0, steps)
    ensures var s := Exec(prog, s0, steps);
      && ReplayTo(prog, s.log.events, |s.log.events|).Some?
      && SlottedOk(prog, s.log.libraries, CaughtUp(prog, s.log).view.table, s.log.slotted)
  {
    RunInv(prog, s0, steps);
  }

  // ---- one index a function -------------------------------------------------------------------------

  /** An index, once given, is never given up: later loads and lookups find it again. */
  lemma {:induction false} IndexedKeepsKnown(prog: Program, libs: seq<Loaded>, l: Link, p: Provider, q: Provider)
    requires KnownIndex(prog, l.slotted, q).Some?
    ensures KnownIndex(prog, Indexed(prog, libs, l, p).slotted, q) == KnownIndex(prog, l.slotted, q)
  {
  }

  lemma {:induction false} LinkedKeepsKnown(prog: Program, libs: seq<Loaded>, m: Module, l: Link, n: nat, q: Provider)
    requires n <= |m.imports| && KnownIndex(prog, l.slotted, q).Some?
    ensures KnownIndex(prog, Linked(prog, libs, m, l, n).slotted, q) == KnownIndex(prog, l.slotted, q)
    decreases n
  {
    if n > 0 {
      LinkedKeepsKnown(prog, libs, m, l, n - 1, q);
      var i := m.imports[n - 1];
      if i.GotFunc? && Find(prog, libs, i.sym).Some? {
        IndexedKeepsKnown(prog, libs, Linked(prog, libs, m, l, n - 1), Find(prog, libs, i.sym).value, q);
      }
    }
  }

  lemma {:induction false} OwnKeepsKnown(prog: Program, l: Link, lib: nat, own: seq<Name>, n: nat, q: Provider)
    requires n <= |own| && KnownIndex(prog, l.slotted, q).Some? && (q.Library? ==> q.index < lib)
    ensures KnownIndex(prog, OwnLinked(l, lib, own, n).slotted, q) == KnownIndex(prog, l.slotted, q)
    decreases n
  {
    if n > 0 { OwnKeepsKnown(prog, l, lib, own, n - 1, q); }
  }

  lemma {:induction false} StepKeepsKnown(prog: Program, s: State, step: Step, q: Provider)
    requires Inv(prog, s) && Enabled(prog, s, step) && KnownIndex(prog, s.log.slotted, q).Some?
    ensures KnownIndex(prog, Apply(prog, s, step).log.slotted, q) == KnownIndex(prog, s.log.slotted, q)
  {
    var log := s.log;
    match step
    case Instantiate(_, m, _) =>
      var t := CaughtUp(prog, log).view.table;
      var l := Link(Grown(t, m), log.slotted, []);
      LinkedKeepsKnown(prog, log.libraries, m, l, |m.imports|, q);
      if q.Library? { assert HasSlot(prog, log.libraries, t, log.slotted, q); }
      var l1 := Linked(prog, log.libraries, m, l, |m.imports|);
      var own := OwnNames(prog, log.libraries, m, |m.imports|);
      OwnKeepsKnown(prog,
        l1.(table := WithElementsIn(l1.table, AlignUp(|t|, m.tableAlign), m.tableSize, |log.libraries|)),
        |log.libraries|, own, |own|, q);
    case _ =>
  }

  /** A known index is the right function in every thread that has replayed as much of the log. */
  lemma {:induction false} KnownIndexIsRight(prog: Program, s: State, t: nat, p: Provider)
    requires Inv(prog, s) && t < |s.threads| && s.threads[t].applied == |s.log.events|
    requires KnownIndex(prog, s.log.slotted, p).Some? && Resolve(prog, s.log.libraries, p).Some?
    ensures var i := KnownIndex(prog, s.log.slotted, p).value;
      i < |s.threads[t].view.table| && s.threads[t].view.table[i] == Resolve(prog, s.log.libraries, p)
  {
    assert ThreadOk(prog, s.log, s.threads[t]);
    ProgramTableFirst(prog, s.log);
    if p in s.log.slotted {
      assert HasSlot(prog, s.log.libraries, s.threads[t].view.table, s.log.slotted, p);
    }
  }

  /**
   A function pointer is for good: once a provider has an index it keeps it through every run, and
   whoever is up to date at the end finds that very function there.
   */
  lemma {:induction false} PointersKeepMeaning(prog: Program, s: State, steps: seq<Step>, p: Provider, t: nat)
    requires Inv(prog, s) && IsRun(prog, s, steps)
    requires KnownIndex(prog, s.log.slotted, p).Some? && Resolve(prog, s.log.libraries, p).Some?
    requires t < |Exec(prog, s, steps).threads|
      && Exec(prog, s, steps).threads[t].applied == |Exec(prog, s, steps).log.events|
    ensures var i, table := KnownIndex(prog, s.log.slotted, p).value, Exec(prog, s, steps).threads[t].view.table;
      i < |table| && table[i] == Resolve(prog, s.log.libraries, p)
    decreases |steps|
  {
    if steps == [] {
      KnownIndexIsRight(prog, s, t, p);
    } else {
      InvStep(prog, s, steps[0]);
      StepKeepsKnown(prog, s, steps[0], p);
      PointersKeepMeaning(prog, Apply(prog, s, steps[0]), steps[1..], p, t);
    }
  }
}
