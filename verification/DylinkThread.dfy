/**
 The dlopen calls of one thread, in place: function_index, replay, catch_up, instantiate and sym over the
 process's log and the thread's own table. Each does what the protocol's step does (Dylink.Apply).
 */
module DylinkThread {
  import opened Dylink
  import opened DylinkProofs

  /** A process's log, shared by its threads (one uses it at a time, under its lock). */
  class Process {
    const prog: Program
    var events: seq<Event>
    var libraries: seq<Loaded>
    var slotted: map<Provider, nat>

    constructor (prog: Program)
      ensures this.prog == prog && Value() == Log([], [], map[])
    {
      this.prog := prog;
      events, libraries, slotted := [], [], map[];
    }

    ghost function Value(): Log
      reads this
    {
      Log(events, libraries, slotted)
    }
  }

  class Thread {
    const process: Process
    var table: Table
    var instances: seq<Loaded>
    var applied: nat
    /** The program's own table, function by function, once it was needed. */
    var mainIndex: Option<map<Fn, nat>>

    constructor (process: Process)
      ensures this.process == process && ViewOf() == View(process.prog.table, []) && applied == 0 && CacheOk()
    {
      this.process := process;
      table, instances, applied, mainIndex := process.prog.table, [], 0, None;
    }

    ghost function ViewOf(): View
      reads this
    {
      View(table, instances)
    }

    ghost predicate CacheOk()
      reads this
    {
      mainIndex.Some? ==> IsFirstIndex(mainIndex.value, process.prog.table)
    }

    /** This thread has replayed the log up to `applied`, and all of the log can be. */
    ghost predicate Valid()
      reads this, process
    {
      && CacheOk() && LogOk(process.prog, process.Value())
      && applied <= |process.events|
      && ReplayTo(process.prog, process.events, applied) == Some(ViewOf())
    }

    /** function_index: the index it has, else a slot appended to this thread's table. */
    method FunctionIndex(p: Provider, added: seq<(nat, Provider)>) returns (index: nat, added': seq<(nat, Provider)>)
      requires CacheOk() && process.prog.table <= table && Resolve(process.prog, instances, p).Some?
      modifies this`table, this`mainIndex, process`slotted
      ensures CacheOk() && process.prog.table <= table
      ensures Link(table, process.slotted, added') ==
        Indexed(process.prog, instances, Link(old(table), old(process.slotted), added), p)
      ensures Some(index) == KnownIndex(process.prog, process.slotted, p)
    {
      if p in process.slotted { return process.slotted[p], added; }
      if p.Main? {
        if mainIndex.None? {
          var first := BuildIndex(table[..|process.prog.table|]);
          assert table[..|process.prog.table|] == process.prog.table;
          mainIndex := Some(first);
        }
        var f := ProgramFn(process.prog.exports[p.name]);
        if f in mainIndex.value { return mainIndex.value[f], added; }
      }
      index := |table|;
      table := table + [Resolve(process.prog, instances, p)];
      process.slotted := process.slotted[p := index];
      added' := added + [(index, p)];
    }

    /** Instantiates a library of the log in this thread, its slots filled. */
    method ReplayLoad(lib: Loaded) returns (ok: bool)
      modifies this`table, this`instances
      ensures var r := Replay1(process.prog, old(ViewOf()), Load(lib)); ok == r.Some? && (ok ==> ViewOf() == r.value)
    {
      if |table| != lib.before || lib.after < lib.before || lib.base + lib.size > lib.after { return false; }
      table := table + Nones(lib.after - lib.before);
      table := WithElements(table, lib.base, lib.size, |instances|);
      instances := instances + [lib];
      ghost var start := table;
      for k := 0 to |lib.slots|
        invariant instances == old(instances) + [lib]
        invariant WithSlots(process.prog, instances, start, lib.slots[..k]) == Some(table)
      {
        assert lib.slots[..k + 1][..k] == lib.slots[..k];
        var (at, p) := lib.slots[k];
        var f := Resolve(process.prog, instances, p);
        if f.None? || at >= |table| {
          SlotsFail(process.prog, instances, start, lib.slots, k + 1);
          return false;
        }
        table := table[at := f];
      }
      assert lib.slots[..|lib.slots|] == lib.slots;
      return true;
    }

    /** Brings this thread's table up to the log. */
    method CatchUp()
      requires Valid()
      modifies this`table, this`instances, this`applied
      ensures Valid() && applied == |process.events|
      ensures ViewOf() == CaughtUp(process.prog, process.Value()).view
    {
      while applied < |process.events|
        invariant Valid()
      {
        assert GrewAt(process.prog, process.events, applied);
        match process.events[applied] {
          case Load(lib) =>
            var ok := ReplayLoad(lib);
            assert ok;
          case Slot(at, p) =>
            if at >= |table| { table := table + Nones(at + 1 - |table|); }
            table := table[at := Resolve(process.prog, instances, p)];
        }
        applied := applied + 1;
      }
    }

    /** The slots of a library's imports, as they are resolved one by one. */
    method LinkImports(m: Module) returns (added: seq<(nat, Provider)>, own: seq<Name>)
      requires CacheOk() && process.prog.table <= table && instances == process.libraries
      modifies this`table, this`mainIndex, process`slotted
      ensures CacheOk() && process.prog.table <= table
      ensures Link(table, process.slotted, added) ==
        Linked(process.prog, instances, m, Link(old(table), old(process.slotted), []), |m.imports|)
      ensures own == OwnNames(process.prog, instances, m, |m.imports|)
    {
      added, own := [], [];
      for n := 0 to |m.imports|
        invariant CacheOk() && process.prog.table <= table
        invariant Link(table, process.slotted, added) ==
          Linked(process.prog, instances, m, Link(old(table), old(process.slotted), []), n)
        invariant own == OwnNames(process.prog, instances, m, n)
      {
        match m.imports[n] {
          case OtherImport =>
          case GotFunc(sym, _) =>
            var found := Find(process.prog, instances, sym);
            if found.Some? {
              var _, a := FunctionIndex(found.value, added);
              added := a;
            } else if sym in m.exports {
              own := own + [sym];
            }
        }
      }
    }

    /** dlopen: links and instantiates `m` here, and logs it for the other threads. */
    method Instantiate(m: Module, global: bool) returns (handle: nat)
      requires Valid() && Completes(process.prog, process.libraries, m)
      modifies this, process
      ensures Valid() && applied == |process.events|
      ensures var log := old(process.Value()); var t := CaughtUp(process.prog, log).view.table;
        var l := Linkage(process.prog, log.libraries, t, log.slotted, m); var lib := LibraryOf(t, l, m, global);
        && process.Value() == Log(log.events + [Load(lib)], log.libraries + [lib], l.slotted)
        && ViewOf() == View(l.table, log.libraries + [lib]) && handle == |log.libraries| + 1
    {
      CatchUp();
      ghost var t, log := table, process.Value();
      ProgramTableFirst(process.prog, log);
      Logged(log, m, global);
      var before := |table|;
      var base := AlignUp(before, m.tableAlign);
      var slots := LinkAll(m, base);
      var lib := Loaded(m.exports, global, before, base, m.tableSize, |table|, slots);
      handle := |process.libraries| + 1;
      process.libraries := process.libraries + [lib];
      process.events := process.events + [Load(lib)];
      instances := instances + [lib];
      applied := |process.events|;
    }

    /** The table part of a load: growth, slots for imports, elements, slots for its own functions. */
    method LinkAll(m: Module, base: nat) returns (slots: seq<(nat, Provider)>)
      requires CacheOk() && process.prog.table <= table && instances == process.libraries
      requires SlottedOk(process.prog, instances, table, process.slotted) && base == AlignUp(|table|, m.tableAlign)
      modifies this`table, this`mainIndex, process`slotted
      ensures CacheOk()
      ensures Link(table, process.slotted, slots) ==
        Linkage(process.prog, instances, old(table), old(process.slotted), m)
    {
      LoadLinks(process.prog, instances, table, process.slotted, m);
      table := table + Nones(base - |table| + m.tableSize);
      var linked, own := LinkImports(m);
      table := WithElements(table, base, m.tableSize, |instances|);
      slots := AddOwn(|instances|, own, linked);
    }

    /** Slots for a library's own functions, now that it exists. */
    method AddOwn(lib: nat, own: seq<Name>, slots: seq<(nat, Provider)>) returns (slots': seq<(nat, Provider)>)
      modifies this`table, process`slotted
      ensures Link(table, process.slotted, slots') ==
        OwnLinked(Link(old(table), old(process.slotted), slots), lib, own, |own|)
    {
      slots' := slots;
      for n := 0 to |own|
        invariant Link(table, process.slotted, slots') ==
          OwnLinked(Link(old(table), old(process.slotted), slots), lib, own, n)
      {
        var p := Library(lib, own[n]);
        slots' := slots' + [(|table|, p)];
        process.slotted := process.slotted[p := |table|];
        table := table + [Some(ExportFn(lib, own[n]))];
      }
    }

    /** The log with a load in it is as good as before. */
    lemma {:induction false} Logged(log: Log, m: Module, global: bool)
      requires LogOk(process.prog, log) && Completes(process.prog, log.libraries, m)
      ensures var t := CaughtUp(process.prog, log).view.table;
        var l := Linkage(process.prog, log.libraries, t, log.slotted, m); var lib := LibraryOf(t, l, m, global);
        && LogOk(process.prog, Log(log.events + [Load(lib)], log.libraries + [lib], l.slotted))
        && ReplayTo(process.prog, log.events + [Load(lib)],
           |log.events| + 1) == Some(View(l.table, log.libraries + [lib]))
    {
      var t := CaughtUp(process.prog, log).view.table;
      var l := Linkage(process.prog, log.libraries, t, log.slotted, m);
      var lib := LibraryOf(t, l, m, global);
      ProgramTableFirst(process.prog, log);
      LinkageOk(process.prog, log.libraries, t, log.slotted, m, global);
      LoadReplays(process.prog, log.libraries, t, log.slotted, m, global);
      LogGrows(process.prog, log, Load(lib), View(l.table, log.libraries + [lib]), l.slotted);
    }

    /** dlsym of a function: its index, and whether the table had to grow (other threads must catch up). */
    method Sym(handle: nat, name: Name) returns (r: Option<(nat, bool)>)
      requires Valid()
      modifies this, process
      ensures Valid() && applied == |process.events| && process.libraries == old(process.libraries)
      ensures var p := Candidate(process.prog, process.libraries, handle, name);
        match p
        case None => r == None && process.Value() == old(process.Value())
        case Some(p) =>
          && r.Some? && r.value.0 < |table| && table[r.value.0] == Resolve(process.prog, process.libraries, p)
          && Some(r.value.0) == KnownIndex(process.prog, process.slotted, p)
          && (r.value.1 <==> KnownIndex(process.prog, old(process.slotted), p).None?)
          && (!r.value.1 ==> process.Value() == old(process.Value()))
          && (r.value.1 ==> process.events == old(process.events) + [Slot(r.value.0, p)])
    {
      CatchUp();
      ghost var log := process.Value();
      ProgramTableFirst(process.prog, log);
      var c := Candidate(process.prog, process.libraries, handle, name);
      if c.None? { return None; }
      ghost var known := KnownIndex(process.prog, log.slotted, c.value);
      if known.None? {
        SlotReplays(process.prog, log, c.value);
        LogGrows(process.prog, log, Slot(|table|, c.value),
          View(table + [Resolve(process.prog, instances, c.value)], instances), process.slotted[c.value := |table|]);
      } else if c.value in log.slotted {
        assert HasSlot(process.prog, log.libraries, table, log.slotted, c.value);
      }
      var index, added := FunctionIndex(c.value, []);
      if added != [] {
        process.events := process.events + [Slot(added[0].0, added[0].1)];
        applied := |process.events|;
      }
      return Some((index, added != []));
    }
  }

  /** The index of every function of a table: its first slot. */
  ghost predicate IsFirstIndex(m: map<Fn, nat>, t: Table) {
    forall f :: (f in m <==> FirstIndex(t, f).Some?) && (f in m ==> Some(m[f]) == FirstIndex(t, f))
  }

  method BuildIndex(t: Table) returns (m: map<Fn, nat>)
    ensures IsFirstIndex(m, t)
  {
    m := map[];
    for i := 0 to |t|
      invariant IsFirstIndex(m, t[..i])
    {
      assert t[..i + 1][..i] == t[..i];
      if t[i].Some? && t[i].value !in m { m := m[t[i].value := i]; }
    }
    assert t[..|t|] == t;
  }

  lemma {:induction false} SlotsFail(prog: Program, libs: seq<Loaded>, t: Table, slots: seq<(nat, Provider)>, n: nat)
    requires n <= |slots| && WithSlots(prog, libs, t, slots[..n]).None?
    ensures WithSlots(prog, libs, t, slots).None?
    decreases |slots|
  {
    if n == |slots| {
      assert slots[..n] == slots;
    } else {
      assert slots[..|slots| - 1][..n] == slots[..n];
      SlotsFail(prog, libs, t, slots[..|slots| - 1], n);
    }
  }
}
