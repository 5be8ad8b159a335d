/**
 Who answers for a symbol, said outright: the program, then the libraries loaded global, in the order they were
 loaded; and what that makes of a load's slots and of dlsym, in every run.
 */
module DylinkLookup {
  import opened Dylink
  import opened DylinkProofs

  // ---- who defines a symbol -------------------------------------------------------------------------

  /** Library `i` was loaded global and exports `sym`. */
  predicate Offers(libs: seq<Loaded>, i: nat, sym: Name) {
    i < |libs| && libs[i].global && sym in libs[i].exports
  }

  /** `i` is the first such library. */
  predicate FirstOffer(libs: seq<Loaded>, i: nat, sym: Name) {
    Offers(libs, i, sym) && forall j :: 0 <= j < i ==> !Offers(libs, j, sym)
  }

  /** `p` is who answers for `sym`: the program if it exports it, else the first global library that does. */
  predicate Answers(prog: Program, libs: seq<Loaded>, sym: Name, p: Provider) {
    match p
    case Main(n) => n == sym && sym in prog.exports
    case Library(i, n) => n == sym && sym !in prog.exports && FirstOffer(libs, i, sym)
  }

  lemma {:induction false} FoundFirst(libs: seq<Loaded>, sym: Name, from: nat)
    requires from <= |libs|
    ensures match FindGlobal(libs, sym, from)
      case None => forall j :: from <= j < |libs| ==> !Offers(libs, j, sym)
      case Some(p) =>
        && p.Library? && p.name == sym && from <= p.index && Offers(libs, p.index, sym)
        && forall j :: from <= j < p.index ==> !Offers(libs, j, sym)
    decreases |libs| - from
  {
    if from < |libs| { FoundFirst(libs, sym, from + 1); }
  }

  /** The search for a library's imports, and for dlsym(0): exactly who answers, and nobody else. */
  lemma {:induction false} FindExactly(prog: Program, libs: seq<Loaded>, sym: Name, p: Provider)
    ensures Find(prog, libs, sym) == Some(p) <==> Answers(prog, libs, sym, p)
    ensures Find(prog, libs, sym) == None <==> sym !in prog.exports && forall i: nat :: !Offers(libs, i, sym)
  {
    FoundFirst(libs, sym, 0);
  }

  /** dlsym with a handle looks in that library alone, global or not. */
  lemma {:induction false} HandleExactly(prog: Program, libs: seq<Loaded>, handle: nat, name: Name, p: Provider)
    ensures handle == 0 ==> (Candidate(prog, libs, handle, name) == Some(p) <==> Answers(prog, libs, name, p))
    ensures handle > 0 ==> (Candidate(prog, libs, handle, name) == Some(p) <==>
      p == Library(handle - 1, name) && handle <= |libs| && name in libs[handle - 1].exports)
  {
    FindExactly(prog, libs, name, p);
  }

  // ---- the slots of a load --------------------------------------------------------------------------

  /** The module asks for the address of `sym`. */
  lemma {:induction false} AskedMeans(prog: Program, libs: seq<Loaded>, m: Module, p: Provider)
    ensures Asked(prog, libs, m, |m.imports|, p) <==> exists sym :: Asks(m, sym) && Answers(prog, libs, sym, p)
  {
    if Asked(prog, libs, m, |m.imports|, p) {
      var i :| 0 <= i < |m.imports| && m.imports[i].GotFunc? && Find(prog, libs, m.imports[i].sym) == Some(p);
      FindExactly(prog, libs, m.imports[i].sym, p);
      assert AsksAt(m, i, m.imports[i].sym);
    }
    if sym :| Asks(m, sym) && Answers(prog, libs, sym, p) {
      var i :| 0 <= i < |m.imports| && AsksAt(m, i, sym);
      FindExactly(prog, libs, sym, p);
    }
  }

  /** The names a module answers for itself: asked for, exported, and by nobody before it. */
  lemma {:induction false} OwnExactly(prog: Program, libs: seq<Loaded>, m: Module, n: nat, x: Name)
    requires n <= |m.imports|
    ensures x in OwnNames(prog, libs, m, n) <==>
      && (exists i :: 0 <= i < n && AsksAt(m, i, x)) && x in m.exports
      && x !in prog.exports && forall i: nat :: !Offers(libs, i, x)
    decreases n
  {
    FindExactly(prog, libs, x, Main(x));
    if n > 0 {
      OwnExactly(prog, libs, m, n - 1, x);
      var own := OwnNames(prog, libs, m, n - 1);
      var last := OwnNames(prog, libs, m, n)[|own|..];
      assert OwnNames(prog, libs, m, n) == own + last;
      if AsksAt(m, n - 1, x) { assert m.imports[n - 1].sym == x; }
    }
  }

  lemma {:induction false} SlotsJoin(before: Link, l: Link, lib: nat, own: seq<Name>, p: Provider)
    requires |l.slots| == |before.slots| + |own| && l.slots[..|before.slots|] == before.slots
    requires forall k :: 0 <= k < |own| ==> l.slots[|before.slots| + k].1 == Library(lib, own[k])
    ensures InSlots(l, p) <==> InSlots(before, p) || (p.Library? && p.index == lib && p.name in own)
  {
    var n := |before.slots|;
    forall k | 0 <= k < n ensures l.slots[k] == before.slots[k] { assert l.slots[..n][k] == l.slots[k]; }
    forall k | n <= k < |l.slots| ensures l.slots[k].1 == Library(lib, own[k - n]) {
      assert l.slots[n + (k - n)].1 == Library(lib, own[k - n]);
    }
    if InSlots(before, p) {
      var k :| 0 <= k < n && before.slots[k].1 == p;
      assert l.slots[k].1 == p;
    }
    if p.Library? && p.index == lib && p.name in own {
      var k :| 0 <= k < |own| && own[k] == p.name;
      assert l.slots[n + k].1 == p;
    }
  }

  /** What gets a slot in a load: what is asked of others and has no index yet, and what is asked of itself. */
  lemma {:induction false} SlotsExactly(prog: Program, libs: seq<Loaded>, t: Table, slotted: map<Provider, nat>,
      m: Module, p: Provider)
    requires forall q :: q in slotted && q.Library? ==> q.index < |libs|
    ensures InSlots(Linkage(prog, libs, t, slotted, m), p) <==>
      || ((exists sym :: Asks(m, sym) && Answers(prog, libs, sym, p)) && KnownIndex(prog, slotted, p).None?)
      || (p.Library? && p.index == |libs| && Asks(m, p.name) && p.name in m.exports
          && p.name !in prog.exports && forall i: nat :: !Offers(libs, i, p.name))
  {
    var start := Link(Grown(t, m), slotted, []);
    var l0 := Linked(prog, libs, m, start, |m.imports|);
    var own := OwnNames(prog, libs, m, |m.imports|);
    var l1 := l0.(table := WithElementsIn(l0.table, AlignUp(|t|, m.tableAlign), m.tableSize, |libs|));
    SlotsAsked(prog, libs, m, start, |m.imports|, p);
    AskedMeans(prog, libs, m, p);
    OwnSlots(l1, |libs|, own, |own|);
    SlotsJoin(l1, OwnLinked(l1, |libs|, own, |own|), |libs|, own, p);
    assert InSlots(l1, p) <==> InSlots(l0, p);
    if p.Library? { OwnExactly(prog, libs, m, |m.imports|, p.name); }
  }

  // ---- where a library's elements are ---------------------------------------------------------------

  function Times(q: nat, a: nat): nat { q * a }

  ghost predicate IsMultiple(x: nat, a: nat) { exists q: nat :: x == Times(q, a) }

  /** The least multiple of an alignment that is not below. */
  lemma {:induction false} AlignExactly(x: nat, align: nat)
    ensures var a := if align < 1 then 1 else align;
      IsMultiple(AlignUp(x, align), a) && x <= AlignUp(x, align) < x + a
  {
    var a := if align < 1 then 1 else align;
    var q, r := (x + a - 1) / a, (x + a - 1) % a;
    assert x + a - 1 == q * a + r;
    assert AlignUp(x, align) == Times(q, a);
  }

  /**
   A load leaves the table as it was, then nothing up to the alignment, then the library's elements in order, then
   its slots.
   */
  lemma {:induction false} LoadLaysOut(prog: Program, libs: seq<Loaded>, t: Table, slotted: map<Provider, nat>,
      m: Module, global: bool, k: nat)
    requires SlottedOk(prog, libs, t, slotted) && prog.table <= t
    ensures var l := Linkage(prog, libs, t, slotted, m); var lib := LibraryOf(t, l, m, global);
      var a := if m.tableAlign < 1 then 1 else m.tableAlign;
      && lib.exports == m.exports && lib.global == global && lib.before == |t| && lib.size == m.tableSize
      && IsMultiple(lib.base, a) && |t| <= lib.base < |t| + a
      && lib.after == |l.table| == lib.base + m.tableSize + |l.slots|
      && (k < |t| ==> l.table[k] == t[k])
      && (|t| <= k < lib.base ==> l.table[k] == None)
      && (lib.base <= k < lib.base + m.tableSize ==> l.table[k] == Some(ElementFn(|libs|, k - lib.base)))
      && (k < |l.slots| ==> l.slots[k].0 == lib.base + m.tableSize + k)
  {
    var l := Linkage(prog, libs, t, slotted, m);
    var lib := LibraryOf(t, l, m, global);
    AlignExactly(|t|, m.tableAlign);
    LinkageOk(prog, libs, t, slotted, m, global);
    var grown := WithElements(Grown(t, m), lib.base, m.tableSize, |libs|);
    assert |grown| == lib.base + m.tableSize;
    if k < |grown| { assert l.table[k] == grown[k]; }
    if k < |l.slots| { assert SlotHolds(prog, libs + [lib], l, k); }
  }

  /** A thread replays a load only where the table was grown to exactly when it was made, and all of its slots. */
  lemma {:induction false} ReplayRefuses(prog: Program, v: View, lib: Loaded)
    ensures |v.table| != lib.before ==> Replay1(prog, v, Load(lib)) == None
    ensures Replay1(prog, v, Load(lib)).Some? ==>
      var v' := Replay1(prog, v, Load(lib)).value; v'.instances == v.instances + [lib] && |v'.table| == lib.after
  {
    if Replay1(prog, v, Load(lib)).Some? {
      var t := WithElements(v.table + Nones(lib.after - lib.before), lib.base, lib.size, |v.instances|);
      SlotsKeepSize(prog, v.instances + [lib], t, lib.slots);
    }
  }

  lemma {:induction false} SlotsKeepSize(prog: Program, libs: seq<Loaded>, t: Table, slots: seq<(nat, Provider)>)
    requires WithSlots(prog, libs, t, slots).Some?
    ensures |WithSlots(prog, libs, t, slots).value| == |t|
    decreases |slots|
  {
    if slots != [] {
      var front := slots[..|slots| - 1];
      SlotsKeepSize(prog, libs, t, front);
      var rest := WithSlots(prog, libs, t, front).value;
      var (at, p) := slots[|slots| - 1];
      assert WithSlots(prog, libs, t, slots) == Some(rest[at := Resolve(prog, libs, p)]);
    }
  }

  // ---- in every run ---------------------------------------------------------------------------------

  /** What a run loaded, in order: the exports of each library, and whether it was loaded global. */
  function Loads(steps: seq<Step>): seq<(set<Name>, bool)>
    decreases |steps|
  {
    if steps == [] then []
    else LoadOf(steps[0]) + Loads(steps[1..])
  }

  ghost predicate AsLoaded(libs: seq<Loaded>, loads: seq<(set<Name>, bool)>) {
    |libs| == |loads| && forall i :: 0 <= i < |libs| ==> libs[i].exports == loads[i].0 && libs[i].global == loads[i].1
  }

  /** The libraries of a process are those its run loaded. */
  lemma {:induction false} LibrariesAsLoaded(prog: Program, s: State, steps: seq<Step>, before: seq<(set<Name>, bool)>)
    requires IsRun(prog, s, steps) && AsLoaded(s.log.libraries, before)
    ensures AsLoaded(Exec(prog, s, steps).log.libraries, before + Loads(steps))
    decreases |steps|
  {
    if steps == [] {
      assert before + [] == before;
    } else {
      StepLoads(prog, s, steps[0], before);
      LibrariesAsLoaded(prog, Apply(prog, s, steps[0]), steps[1..], before + LoadOf(steps[0]));
      LoadsOn(before, steps);
    }
  }

  lemma {:induction false} LoadsOn(before: seq<(set<Name>, bool)>, steps: seq<Step>)
    requires steps != []
    ensures before + LoadOf(steps[0]) + Loads(steps[1..]) == before + Loads(steps)
  {
  }

  function LoadOf(step: Step): seq<(set<Name>, bool)> {
    if step.Instantiate? then [(step.m.exports, step.global)] else []
  }

  lemma {:induction false} StepLoads(prog: Program, s: State, step: Step, before: seq<(set<Name>, bool)>)
    requires Enabled(prog, s, step) && ReplayTo(prog, s.log.events, |s.log.events|).Some?
    requires AsLoaded(s.log.libraries, before)
    ensures AsLoaded(Apply(prog, s, step).log.libraries, before + LoadOf(step))
  {
    if !step.Instantiate? { assert before + [] == before; }
  }

  /**
   In every run, dlsym(0) answers from the program or from a library that was loaded global, the first that
   exports the name, and never from one that was loaded local.
   */
  lemma {:induction false} GlobalOnly(prog: Program, s0: State, steps: seq<Step>, name: Name)
    requires Init(prog, s0) && IsRun(prog, s0, steps)
    ensures var p := Candidate(prog, Exec(prog, s0, steps).log.libraries, 0, name); var loads := Loads(steps);
      && (p == Some(Main(name)) <==> name in prog.exports)
      && (p.Some? && p.value.Library? ==>
        && p.value.index < |loads| && loads[p.value.index].1 && name in loads[p.value.index].0
        && forall j :: 0 <= j < p.value.index ==> !(loads[j].1 && name in loads[j].0))
      && (p.None? ==> name !in prog.exports && forall j :: 0 <= j < |loads| ==> !(loads[j].1 && name in loads[j].0))
  {
    LibrariesAsLoaded(prog, s0, steps, []);
    var libs, loads := Exec(prog, s0, steps).log.libraries, Loads(steps);
    assert [] + loads == loads;
    forall j: nat | j < |loads| ensures Offers(libs, j, name) <==> loads[j].1 && name in loads[j].0 {}
    var p := Find(prog, libs, name);
    FindExactly(prog, libs, name, if p.Some? then p.value else Main(name));
    FindExactly(prog, libs, name, Main(name));
  }
}
