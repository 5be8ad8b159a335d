/**
 dlopen for a process of many threads (engine/src/dylink.rs). Every thread has a function table of its
 own; a shared log of loads and added slots is replayed into each, so that a function pointer made in
 one thread is the same function in all. A function is named by what provides it.
 */
module Dylink {

  datatype Option<+T> = None | Some(value: T)

  type Name = string

  datatype Provider = Main(name: Name) | Library(index: nat, name: Name)

  /** The functions a table slot can hold: the program's, a library's export, a library's table element. */
  datatype Fn = ProgramFn(k: nat) | ExportFn(lib: nat, name: Name) | ElementFn(lib: nat, k: nat)

  type Table = seq<Option<Fn>>

  /** The program: its exported functions, and what its element segments put in the table. */
  datatype Program = Program(exports: map<Name, nat>, table: Table)

  datatype Import = GotFunc(sym: Name, weak: bool) | OtherImport

  /** What is known of a library before it is loaded. */
  datatype Module = Module(tableSize: nat, tableAlign: nat, exports: set<Name>, imports: seq<Import>)

  /** A library in the log: the table's size around it, where its own elements are, the slots it added. */
  datatype Loaded = Loaded(exports: set<Name>, global: bool, before: nat, base: nat, size: nat, after: nat,
    slots: seq<(nat, Provider)>)

  datatype Event = Load(lib: Loaded) | Slot(at: nat, provider: Provider)

  datatype Log = Log(events: seq<Event>, libraries: seq<Loaded>, slotted: map<Provider, nat>)

  /** A thread's table and its instances of the libraries. */
  datatype View = View(table: Table, instances: seq<Loaded>)

  function Nones(n: nat): (t: Table)
    ensures |t| == n && forall i :: 0 <= i < n ==> t[i] == None
  {
    seq(n, _ => None)
  }

  /** The function a provider names, given the libraries there are. */
  function Resolve(prog: Program, libs: seq<Loaded>, p: Provider): Option<Fn> {
    match p
    case Main(n) => if n in prog.exports then Some(ProgramFn(prog.exports[n])) else None
    case Library(i, n) => if i < |libs| && n in libs[i].exports then Some(ExportFn(i, n)) else None
  }

  // ---- replaying ------------------------------------------------------------------------------

  /** Instantiation writes a library's elements at its table base. */
  function WithElements(t: Table, base: nat, size: nat, lib: nat): (r: Table)
    requires base + size <= |t|
    ensures |r| == |t|
  {
    t[..base] + seq(size, k requires 0 <= k < size => Some(ElementFn(lib, k))) + t[base + size..]
  }

  /** The slots of a load, filled in order; nothing if one cannot be. */
  function WithSlots(prog: Program, libs: seq<Loaded>, t: Table, slots: seq<(nat, Provider)>): Option<Table>
    decreases |slots|
  {
    if slots == [] then Some(t)
    else
      var rest := WithSlots(prog, libs, t, slots[..|slots| - 1]);
      var (at, p) := slots[|slots| - 1];
      if rest.None? || at >= |rest.value| || Resolve(prog, libs, p).None? then None
      else Some(rest.value[at := Resolve(prog, libs, p)])
  }

  /** One event replayed into a thread; nothing if the thread would refuse it. */
  function Replay1(prog: Program, v: View, e: Event): Option<View> {
    match e
    case Load(lib) =>
      if |v.table| != lib.before || lib.after < lib.before || lib.base + lib.size > lib.after then None
      else
        var libs := v.instances + [lib];
        var grown := v.table + Nones(lib.after - lib.before);
        var t := WithSlots(prog, libs, WithElements(grown, lib.base, lib.size, |v.instances|), lib.slots);
        if t.None? then None else Some(View(t.value, libs))
    case Slot(at, p) =>
      var grown := if at >= |v.table| then v.table + Nones(at + 1 - |v.table|) else v.table;
      if Resolve(prog, v.instances, p).None? then None
      else Some(v.(table := grown[at := Resolve(prog, v.instances, p)]))
  }

  /** A fresh thread brought up to the first `n` events. */
  function ReplayTo(prog: Program, events: seq<Event>, n: nat): Option<View>
    requires n <= |events|
  {
    if n == 0 then Some(View(prog.table, []))
    else
      var v := ReplayTo(prog, events, n - 1);
      if v.None? then None else Replay1(prog, v.value, events[n - 1])
  }

  // ---- loading --------------------------------------------------------------------------------

  /** The first slot of the program's own table that holds `f`. */
  function FirstIndex(t: Table, f: Fn): (r: Option<nat>)
    ensures r.Some? ==> r.value < |t| && t[r.value] == Some(f) && Some(f) !in t[..r.value]
    ensures r.None? ==> Some(f) !in t
    decreases |t|
  {
    if t == [] then None
    else
      var r := FirstIndex(t[..|t| - 1], f);
      if r.Some? then r else if t[|t| - 1] == Some(f) then Some(|t| - 1) else None
  }

  /** The index a function has already, by the log or by the program's own table. */
  function KnownIndex(prog: Program, slotted: map<Provider, nat>, p: Provider): Option<nat> {
    if p in slotted then Some(slotted[p])
    else if p.Main? && p.name in prog.exports then FirstIndex(prog.table, ProgramFn(prog.exports[p.name]))
    else None
  }

  /** Linking under way: the table as grown so far, who has a slot, which slots this load added. */
  datatype Link = Link(table: Table, slotted: map<Provider, nat>, slots: seq<(nat, Provider)>)

  /** function_index: a provider's index, with a slot appended when it had none. */
  function Indexed(prog: Program, libs: seq<Loaded>, l: Link, p: Provider): Link {
    if KnownIndex(prog, l.slotted, p).Some? then l
    else Appended(l, p, Resolve(prog, libs, p))
  }

  function Appended(l: Link, p: Provider, f: Option<Fn>): Link {
    Link(l.table + [f], l.slotted[p := |l.table|], l.slots + [(|l.table|, p)])
  }

  /** Who defines `sym` for a library being loaded: the program, then the global libraries in order. */
  function Find(prog: Program, libs: seq<Loaded>, sym: Name): (r: Option<Provider>)
    ensures r.Some? ==> Resolve(prog, libs, r.value).Some?
  {
    if sym in prog.exports then Some(Main(sym)) else FindGlobal(libs, sym, 0)
  }

  function FindGlobal(libs: seq<Loaded>, sym: Name, from: nat): (r: Option<Provider>)
    requires from <= |libs|
    ensures r.Some? ==>
      r.value.Library? && r.value.index < |libs| && r.value.name == sym && sym in libs[r.value.index].exports
    decreases |libs| - from
  {
    if from == |libs| then None
    else if libs[from].global && sym in libs[from].exports then Some(Library(from, sym))
    else FindGlobal(libs, sym, from + 1)
  }

  /** The slots for what `m` imports from elsewhere, its first `n` imports done. */
  function Linked(prog: Program, libs: seq<Loaded>, m: Module, l: Link, n: nat): Link
    requires n <= |m.imports|
  {
    if n == 0 then l
    else
      var before := Linked(prog, libs, m, l, n - 1);
      var i := m.imports[n - 1];
      if i.GotFunc? && Find(prog, libs, i.sym).Some? then Indexed(prog, libs, before, Find(prog, libs, i.sym).value)
        else before
  }

  /** The imports `m` answers itself, once it exists. */
  function OwnNames(prog: Program, libs: seq<Loaded>, m: Module, n: nat): seq<Name>
    requires n <= |m.imports|
  {
    if n == 0 then []
    else
      var i := m.imports[n - 1];
      OwnNames(prog, libs, m, n - 1) +
      (if i.GotFunc? && Find(prog, libs, i.sym).None? && i.sym in m.exports then [i.sym] else [])
  }

  /** Slots for the library's own functions. */
  function OwnLinked(l: Link, lib: nat, own: seq<Name>, n: nat): Link
    requires n <= |own|
  {
    if n == 0 then l
    else Appended(OwnLinked(l, lib, own, n - 1), Library(lib, own[n - 1]), Some(ExportFn(lib, own[n - 1])))
  }

  function AlignUp(x: nat, align: nat): (r: nat)
    ensures r >= x
  {
    var a := if align < 1 then 1 else align;
    AlignedAbove(x, a);
    (x + a - 1) / a * a
  }

  lemma {:induction false} AlignedAbove(x: nat, a: nat)
    requires a > 0
    ensures (x + a - 1) / a * a >= x
  {
    var q, r := (x + a - 1) / a, (x + a - 1) % a;
    assert x + a - 1 == q * a + r;
  }

  /** The table grown for a library, its own elements not there yet. */
  function Grown(t: Table, m: Module): Table {
    t + Nones(AlignUp(|t|, m.tableAlign) - |t| + m.tableSize)
  }

  /** The load of `m` in a thread that is up to date: what its table, the slots and the log become. */
  function Linkage(prog: Program, libs: seq<Loaded>, t: Table, slotted: map<Provider, nat>, m: Module): Link {
    var l := Linked(prog, libs, m, Link(Grown(t, m), slotted, []), |m.imports|);
    var filled := l.(table := WithElementsIn(l.table, AlignUp(|t|, m.tableAlign), m.tableSize, |libs|));
    var own := OwnNames(prog, libs, m, |m.imports|);
    OwnLinked(filled, |libs|, own, |own|)
  }

  function WithElementsIn(t: Table, base: nat, size: nat, lib: nat): Table {
    if base + size <= |t| then WithElements(t, base, size, lib) else t
  }

  function LibraryOf(t: Table, l: Link, m: Module, global: bool): Loaded {
    Loaded(m.exports, global, |t|, AlignUp(|t|, m.tableAlign), m.tableSize, |l.table|, l.slots)
  }

  /** Does every function import of `m` have an answer, so that the load completes? */
  predicate Completes(prog: Program, libs: seq<Loaded>, m: Module) {
    forall i :: 0 <= i < |m.imports| && m.imports[i].GotFunc? ==>
      Find(prog, libs, m.imports[i].sym).Some? || m.imports[i].sym in m.exports || m.imports[i].weak
  }

  // ---- dlsym ----------------------------------------------------------------------------------

  /** What `dlsym(handle, name)` names: 0 searches the program and the global libraries. */
  function Candidate(prog: Program, libs: seq<Loaded>, handle: nat, name: Name): (r: Option<Provider>)
    ensures r.Some? ==> Resolve(prog, libs, r.value).Some?
  {
    if handle == 0 then Find(prog, libs, name)
    else if handle - 1 < |libs| && name in libs[handle - 1].exports then Some(Library(handle - 1, name))
    else None
  }

  // ---- a process and its threads ----------------------------------------------------------------

  datatype Thread = Thread(view: View, applied: nat)

  datatype State = State(log: Log, threads: seq<Thread>)

  datatype Step =
    | Spawn
    | CatchUp(t: nat)
    | Instantiate(t: nat, m: Module, global: bool)
    | Sym(t: nat, handle: nat, name: Name)

  predicate Enabled(prog: Program, s: State, step: Step) {
    match step
    case Spawn => true
    case CatchUp(t) => t < |s.threads|
    case Instantiate(t, m, _) => t < |s.threads| && Completes(prog, s.log.libraries, m)
    case Sym(t, _, _) => t < |s.threads|
  }

  /** The thread after catching up, when every event can be replayed. */
  function CaughtUp(prog: Program, log: Log): Thread
    requires ReplayTo(prog, log.events, |log.events|).Some?
  {
    Thread(ReplayTo(prog, log.events, |log.events|).value, |log.events|)
  }

  function Apply(prog: Program, s: State, step: Step): State
    requires Enabled(prog, s, step) && ReplayTo(prog, s.log.events, |s.log.events|).Some?
  {
    var log := s.log;
    match step
    case Spawn => s.(threads := s.threads + [Thread(View(prog.table, []), 0)])
    case CatchUp(t) => s.(threads := s.threads[t := CaughtUp(prog, log)])
    case Instantiate(t, m, global) =>
      var v := CaughtUp(prog, log).view;
      var l := Linkage(prog, log.libraries, v.table, log.slotted, m);
      var lib := LibraryOf(v.table, l, m, global);
      State(Log(log.events + [Load(lib)], log.libraries + [lib], l.slotted),
            s.threads[t := Thread(View(l.table, v.instances + [lib]), |log.events| + 1)])
    case Sym(t, handle, name) =>
      var v := CaughtUp(prog, log).view;
      var p := Candidate(prog, log.libraries, handle, name);
      if p.None? || KnownIndex(prog, log.slotted, p.value).Some? then s.(threads := s.threads[t := CaughtUp(prog, log)])
      else
        var l := Indexed(prog, log.libraries, Link(v.table, log.slotted, []), p.value);
        State(log.(events := log.events + [Slot(|v.table|, p.value)], slotted := l.slotted),
              s.threads[t := Thread(v.(table := l.table), |log.events| + 1)])
  }

  // ---- the invariant --------------------------------------------------------------------------

  /** Each slotted provider has its own slot past the program's, and it holds what the provider names. */
  ghost predicate SlottedOk(prog: Program, libs: seq<Loaded>, table: Table, slotted: map<Provider, nat>) {
    && (forall p :: p in slotted ==> HasSlot(prog, libs, table, slotted, p))
    && (forall p, q :: p in slotted && q in slotted && slotted[p] == slotted[q] ==> p == q)
  }

  ghost predicate HasSlot(prog: Program, libs: seq<Loaded>, table: Table, slotted: map<Provider, nat>, p: Provider)
    requires p in slotted
  {
    && |prog.table| <= slotted[p] < |table|
    && Resolve(prog, libs, p).Some? && table[slotted[p]] == Resolve(prog, libs, p)
  }

  /** The table only ever grew: after `k` events it is a prefix of what it is after `k + 1`. */
  ghost predicate GrewAt(prog: Program, events: seq<Event>, k: nat)
    requires k < |events|
  {
    var a, b := ReplayTo(prog, events, k), ReplayTo(prog, events, k + 1);
    a.Some? && b.Some? && a.value.table <= b.value.table && a.value.instances <= b.value.instances
  }

  ghost predicate LogOk(prog: Program, log: Log) {
    && ReplayTo(prog, log.events, |log.events|).Some?
    && ReplayTo(prog, log.events, |log.events|).value.instances == log.libraries
    && (forall k :: 0 <= k < |log.events| ==> GrewAt(prog, log.events, k))
    && SlottedOk(prog, log.libraries, ReplayTo(prog, log.events, |log.events|).value.table, log.slotted)
  }

  ghost predicate ThreadOk(prog: Program, log: Log, th: Thread) {
    th.applied <= |log.events| && ReplayTo(prog, log.events, th.applied) == Some(th.view)
  }

  ghost predicate Inv(prog: Program, s: State) {
    LogOk(prog, s.log) && forall t :: 0 <= t < |s.threads| ==> ThreadOk(prog, s.log, s.threads[t])
  }
}
