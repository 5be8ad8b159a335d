/** The store's calls, as the guest's file system makes them (host/zip-store.js). */
module ZipStoreFs {
  import opened ByteStrings
  import opened Crc
  import opened ZipStore
  import opened ZipStoreProofs

  predicate NodeSound(n: Node) { BufferOk(n) && LifeOk(n) }

  predicate Sound(nodes: seq<Node>) { forall k :: 0 <= k < |nodes| ==> NodeSound(nodes[k]) }

  /** What calls name: a node that still counts. */
  predicate Live(nodes: seq<Node>, id: nat) { id < |nodes| && !nodes[id].freed }

  /** No call brings back what is gone, and what was freed stays as it was: it is freed once. */
  predicate Keeps(was: seq<Node>, now: seq<Node>) {
    |was| <= |now| && forall k :: 0 <= k < |was| ==> KeepsNode(was[k], now[k])
  }

  predicate KeepsNode(was: Node, now: Node) {
    now.kind == was.kind && (was.gone ==> now.gone) && (was.freed ==> now == was)
  }

  lemma {:induction false} KeepsOn(a: seq<Node>, b: seq<Node>, c: seq<Node>)
    requires Keeps(a, b) && Keeps(b, c)
    ensures Keeps(a, c)
  {
    forall k | 0 <= k < |a| ensures KeepsNode(a[k], c[k]) { assert KeepsNode(a[k], b[k]) && KeepsNode(b[k], c[k]); }
  }

  lemma {:induction false} OpenAdded(nodes: seq<Node>, d: nat, name: string, n: Node)
    requires d < |nodes|
    ensures Added(nodes, d, name, n)[|nodes|] == n
    ensures Added(nodes, d, name, n)[|nodes| := n.(opens := 1)] == Added(nodes, d, name, n.(opens := 1))
  {
  }

  lemma {:induction false} SliceOfSlice(data: Bytes, size: nat, a: nat, b: nat)
    requires a <= b <= size <= |data|
    ensures data[..size][a..b] == data[a..b]
  {
    forall i | 0 <= i < b - a ensures data[..size][a..b][i] == data[a..b][i] {}
  }

  /** A node more: all that is said of the nodes. */
  lemma {:induction false} AddAll(nodes: seq<Node>, rank: seq<nat>, d: nat, name: string, n: Node)
    requires Shaped(nodes, rank) && Sound(nodes) && IsDir(nodes, d) && name !in nodes[d].children
    requires n.parent == d && !n.gone && n.children == map[] && NodeSound(n)
    ensures var now := Added(nodes, d, name, n);
      && Shaped(now, rank + [rank[d] + 1]) && Sound(now) && Keeps(nodes, now)
      && Total(now) == Total(nodes) + Weight(n) && Count(now) == Count(nodes) + 1
  {
    AddShape(nodes, rank, d, name, n);
    AddKeeps(nodes, d, name, n);
  }

  class Store {
    var nodes: seq<Node>
    var used: int
    var entries: int
    const maxBytes: nat
    const maxEntries: nat
    ghost var rank: seq<nat>

    /** All but `extra` bytes accounted for. */
    ghost predicate ValidBut(extra: int)
      reads this
    {
      && Shaped(nodes, rank) && Sound(nodes)
      && used + extra == Total(nodes) && entries + 1 == Count(nodes) && entries <= maxEntries && used <= maxBytes
    }

    /** The counters are the sums they stand for, within their limits, and the nodes are a tree. */
    ghost predicate Valid()
      reads this
    {
      ValidBut(0)
    }

    constructor (bytes: nat, limit: nat)
      ensures Valid() && nodes == [NewNode(DirKind, 0)] && maxBytes == bytes && maxEntries == if limit < 65000
        then limit else 65000
    {
      maxBytes := bytes;
      maxEntries := if limit < 65000 then limit else 65000;
      nodes := [NewNode(DirKind, 0)];
      used, entries := 0, 0;
      rank := [0];
      new;
      assert nodes[..0] == [];
    }

    // ---- inside -------------------------------------------------------------------------------------------

    method Add(d: nat, name: string, n: Node) returns (r: Result<nat>)
      requires Valid() && IsDir(nodes, d) && name !in nodes[d].children
      requires n.parent == d && !n.gone && n.children == map[] && NodeSound(n)
      modifies this
      ensures if old(entries) >= maxEntries then r == Err(ENOSPC) && Valid() && nodes == old(nodes)
        else r == Ok(|old(nodes)|) && ValidBut(Weight(n)) && nodes == Added(old(nodes), d, name, n)
      ensures used == old(used) && Keeps(old(nodes), nodes)
    {
      if entries >= maxEntries { return Err(ENOSPC); }
      AddAll(nodes, rank, d, name, n);
      r := Ok(|nodes|);
      nodes, rank := Added(nodes, d, name, n), rank + [rank[d] + 1];
      entries := entries + 1;
    }

    /** Stops counting a removed node once nothing has it open any more. */
    method Free(id: nat)
      requires id < |nodes|
      modifies this
      ensures rank == old(rank)
      ensures var n := old(nodes)[id];
        if n.freed || n.opens > 0 || !n.gone then nodes == old(nodes) && used == old(used) && entries == old(entries)
        else nodes == old(nodes)[id := n.(freed := true)] && entries == old(entries) - 1 && used == old(used)
             - Weight(n)
    {
      var n := nodes[id];
      if n.freed || n.opens > 0 || !n.gone { return; }
      nodes := nodes[id := n.(freed := true)];
      entries := entries - 1;
      if !n.kind.DirKind? { used := used - n.size; }
    }

    method Remove(d: nat, name: string)
      requires Valid() && d < |nodes| && name in nodes[d].children
      requires nodes[d].children[name] < |nodes| && nodes[nodes[d].children[name]].children == map[]
      modifies this
      ensures Valid() && rank == old(rank) && Keeps(old(nodes), nodes)
      ensures old(nodes)[d].children[name] != d && nodes == Removed(old(nodes), d, name)
    {
      ChildIsLower(nodes, rank, d, name);
      RemoveShape(nodes, rank, d, name);
      RemoveKeeps(nodes, d, name);
      var c := nodes[d].children[name];
      nodes := nodes[d := nodes[d].(children := nodes[d].children - {name})];
      nodes := nodes[c := nodes[c].(gone := true)];
      Free(c);
      assert nodes == Removed(old(nodes), d, name);
    }

    method Create(d: nat, name: string, kind: Kind) returns (r: Result<nat>)
      requires Valid() && Live(nodes, d)
      modifies this
      ensures Valid() && Keeps(old(nodes), nodes) && used == old(used)
      ensures r == MayCreate(old(nodes), old(entries) >= maxEntries, d, name)
      ensures nodes == if r.Ok? then Added(old(nodes), d, name, NewNode(kind, d)) else old(nodes)
    {
      assert NodeSound(nodes[d]);
      if !nodes[d].kind.DirKind? { return Err(ENOTDIR); }
      if name in nodes[d].children { return Err(EEXIST); }
      EmptyIsZero();
      var n := NewNode(kind, d);
      assert n.data[..n.size] == [];
      r := Add(d, name, n);
    }

    // ---- names --------------------------------------------------------------------------------------------

    method Mkdir(d: nat, name: string) returns (r: Result<nat>)
      requires Valid() && Live(nodes, d)
      modifies this
      ensures Valid() && Keeps(old(nodes), nodes) && used == old(used)
      ensures r == MayCreate(old(nodes), old(entries) >= maxEntries, d, name)
      ensures nodes == if r.Ok? then Added(old(nodes), d, name, NewNode(DirKind, d)) else old(nodes)
    {
      r := Create(d, name, DirKind);
    }

    /**
     A link. One refused for space is in the tree all the same, with bytes nobody counted: what is
     counted is right exactly when that did not happen.
     */
    method Symlink(d: nat, name: string, target: Bytes) returns (r: Result<nat>)
      requires Valid() && Live(nodes, d)
      modifies this
      ensures r.Ok? ==>
        nodes == Added(old(nodes), d, name, NewNode(LinkKind, d).(size := |target|)) && used == old(used) + |target|
      ensures r.Err? ==> used == old(used)
      ensures Valid() <==> r.Ok? || nodes == old(nodes)
      ensures r.Err? && nodes != old(nodes) <==>
        old(nodes)[d].kind.DirKind? && name !in old(nodes)[d].children && old(entries) < maxEntries
          && old(used) + |target| > maxBytes
    {
      r := MakeLink(d, name, |target|);
      if r.Err? { return; }
      if used + |target| > maxBytes { return Err(ENOSPC); }
      used := used + |target|;
    }

    /** A link of some size, its bytes not yet counted. */
    method MakeLink(d: nat, name: string, size: nat) returns (r: Result<nat>)
      requires Valid() && Live(nodes, d)
      modifies this
      ensures r == MayCreate(old(nodes), old(entries) >= maxEntries, d, name) && used == old(used)
      ensures nodes == if r.Ok? then Added(old(nodes), d, name, NewNode(LinkKind, d).(size := size)) else old(nodes)
      ensures ValidBut(if r.Ok? then size else 0)
    {
      r := Create(d, name, LinkKind);
      if r.Err? { return; }
      var n := nodes[r.value].(size := size);
      PutKeeps(nodes, rank, r.value, n);
      nodes := nodes[r.value := n];
    }

    method Unlink(d: nat, name: string) returns (r: Result<()>)
      requires Valid() && Live(nodes, d)
      modifies this
      ensures Valid() && Keeps(old(nodes), nodes)
      ensures
        if !old(nodes)[d].kind.DirKind? then r == Err(ENOTDIR)
        else if name !in old(nodes)[d].children then r == Err(ENOENT)
        else
          var c := old(nodes)[d].children[name];
          0 < c < |old(nodes)| && c != d && if old(nodes)[c].kind.DirKind? then r == Err(EISDIR)
            else r.Ok? && nodes == Removed(old(nodes), d, name)
      ensures r.Err? ==> nodes == old(nodes) && used == old(used)
    {
      assert NodeSound(nodes[d]);
      if !nodes[d].kind.DirKind? { return Err(ENOTDIR); }
      if name !in nodes[d].children { return Err(ENOENT); }
      ChildIsLower(nodes, rank, d, name);
      assert NodeOk(nodes, rank, nodes[d].children[name]);
      if nodes[nodes[d].children[name]].kind.DirKind? { return Err(EISDIR); }
      Remove(d, name);
      r := Ok(());
    }

    method Rmdir(d: nat, name: string) returns (r: Result<()>)
      requires Valid() && Live(nodes, d)
      modifies this
      ensures Valid() && Keeps(old(nodes), nodes)
      ensures
        if !old(nodes)[d].kind.DirKind? then r == Err(ENOTDIR)
        else if name !in old(nodes)[d].children then r == Err(ENOENT)
        else
          var c := old(nodes)[d].children[name];
          && 0 < c < |old(nodes)| && c != d
          && r == (if !old(nodes)[c].kind.DirKind? then Err(ENOTDIR) else if old(nodes)[c].children != map[]
             then Err(ENOTEMPTY) else Ok(()))
          && (r.Ok? ==> nodes == Removed(old(nodes), d, name))
      ensures r.Err? ==> nodes == old(nodes) && used == old(used)
    {
      assert NodeSound(nodes[d]);
      if !nodes[d].kind.DirKind? { return Err(ENOTDIR); }
      if name !in nodes[d].children { return Err(ENOENT); }
      ChildIsLower(nodes, rank, d, name);
      var c := nodes[d].children[name];
      if !nodes[c].kind.DirKind? { return Err(ENOTDIR); }
      if nodes[c].children != map[] { return Err(ENOTEMPTY); }
      Remove(d, name);
      r := Ok(());
    }

    /** Whether `c` is on the way from `d` to the root. */
    method IsAbove(c: nat, d: nat) returns (above: bool)
      requires Valid() && IsDir(nodes, d) && 0 < c < |nodes|
      ensures above <==> Below(nodes, rank, d, c)
    {
      var up := d;
      while true
        invariant IsDir(nodes, up) && (Below(nodes, rank, d, c) <==> Below(nodes, rank, up, c))
        decreases rank[up]
      {
        if up == c { return true; }
        assert NodeOk(nodes, rank, up);
        if up > 0 {
          var name :| Edge(nodes, nodes[up].parent, name, up);
          ChildIsLower(nodes, rank, nodes[up].parent, name);
        }
        if up == nodes[up].parent { return false; }
        up := nodes[up].parent;
      }
    }

    /** Another name for a node; what had that name, if it may, goes. */
    method Rename(from: nat, oldName: string, to: nat, newName: string) returns (r: Result<()>)
      requires Valid() && Live(nodes, from) && Live(nodes, to)
      modifies this
      ensures Valid() && Keeps(old(nodes), nodes)
      ensures r == Verdict(old(nodes), old(rank), from, oldName, to, newName)
      ensures r.Err? ==> nodes == old(nodes) && used == old(used)
      ensures r.Ok? ==> nodes == Renamed(old(nodes), from, oldName, to, newName)
    {
      assert NodeSound(nodes[from]) && NodeSound(nodes[to]);
      if !nodes[from].kind.DirKind? { return Err(ENOTDIR); }
      if oldName !in nodes[from].children { return Err(ENOENT); }
      ChildIsLower(nodes, rank, from, oldName);
      var c := nodes[from].children[oldName];
      if !nodes[to].kind.DirKind? { return Err(ENOTDIR); }
      if newName in nodes[to].children && nodes[to].children[newName] == c { return Ok(()); }
      if nodes[c].kind.DirKind? {
        var above := IsAbove(c, to);
        if above { return Err(EINVAL); }
      } else {
        NotBelowFile(nodes, rank, to, c);
      }
      r := Ok(());
      ghost var was := nodes;
      if newName in nodes[to].children { r := Clear(from, oldName, to, newName); }
      if r.Err? { return; }
      ghost var cleared := nodes;
      Move(from, oldName, to, newName);
      KeepsOn(was, cleared, nodes);
    }

    /** What has the new name goes, if a node of this kind may replace it. */
    method Clear(from: nat, oldName: string, to: nat, newName: string) returns (r: Result<()>)
      requires Valid() && CanMove(nodes, from, oldName, to) && IsDir(nodes, to) && newName in nodes[to].children
      requires nodes[to].children[newName] != nodes[from].children[oldName]
        && !Below(nodes, rank, to, nodes[from].children[oldName])
      modifies this
      ensures Valid() && Keeps(old(nodes), nodes) && rank == old(rank)
      ensures old(nodes)[to].children[newName] < |old(nodes)| && old(nodes)[to].children[newName] != to
      ensures var target, c := old(nodes)[old(nodes)[to].children[newName]],
        old(nodes)[old(nodes)[from].children[oldName]];
        r == if target.kind.DirKind? && !c.kind.DirKind? then Err(EISDIR)
          else if !target.kind.DirKind? && c.kind.DirKind? then Err(ENOTDIR)
          else if target.kind.DirKind? && target.children != map[] then Err(ENOTEMPTY)
          else Ok(())
      ensures r.Err? ==> nodes == old(nodes) && used == old(used)
      ensures r.Ok? ==>
        && nodes == Removed(old(nodes), to, newName) && IsDir(nodes, to) && newName !in nodes[to].children
        && CanMove(nodes, from, oldName, to)
        && nodes[from].children[oldName] == old(nodes)[from].children[oldName]
        && !Below(nodes, rank, to, nodes[from].children[oldName])
    {
      var target, c := nodes[to].children[newName], nodes[from].children[oldName];
      ChildIsLower(nodes, rank, to, newName);
      if nodes[target].kind.DirKind? && !nodes[c].kind.DirKind? { return Err(EISDIR); }
      if !nodes[target].kind.DirKind? && nodes[c].kind.DirKind? { return Err(ENOTDIR); }
      if nodes[target].kind.DirKind? && nodes[target].children != map[] { return Err(ENOTEMPTY); }
      assert NodeOk(nodes, rank, target);
      ReplaceLeaves(nodes, rank, from, oldName, to, newName);
      Remove(to, newName);
      r := Ok(());
    }

    method Move(from: nat, oldName: string, to: nat, newName: string)
      requires Valid() && IsDir(nodes, to) && from < |nodes| && oldName in nodes[from].children
        && newName !in nodes[to].children
      requires nodes[from].children[oldName] < |nodes| && !Below(nodes, rank, to, nodes[from].children[oldName])
      modifies this
      ensures Valid() && used == old(used) && Keeps(old(nodes), nodes)
      ensures old(nodes)[from].children[oldName] < |nodes| && nodes == Moved(old(nodes), from, oldName, to, newName)
    {
      var c := nodes[from].children[oldName];
      ChildIsLower(nodes, rank, from, oldName);
      MoveShape(nodes, rank, from, oldName, to, newName);
      ghost var rank' := Reranked(nodes, rank, c, to);
      MoveCounts(nodes, from, oldName, to, newName);
      MoveKeeps(nodes, from, oldName, to, newName);
      nodes := nodes[from := nodes[from].(children := nodes[from].children - {oldName})];
      nodes := nodes[to := nodes[to].(children := nodes[to].children[newName := c])];
      nodes := nodes[c := nodes[c].(parent := to)];
      rank := rank';
    }

    // ---- files ----------------------------------------------------------------------------------------------

    method Open(id: nat, truncate: bool) returns (r: Result<()>)
      requires Valid() && Live(nodes, id)
      modifies this
      ensures Valid() && Keeps(old(nodes), nodes)
      ensures
        if old(nodes)[id].kind.DirKind? then r == Err(EISDIR)
        else if !old(nodes)[id].kind.FileKind? then r == Err(EINVAL)
        else
          && r.Ok? && OnlyFile(old(nodes), nodes, id) && nodes[id].opens == old(nodes)[id].opens + 1
          && Content(nodes[id]) == if truncate then [] else Content(old(nodes)[id])
      ensures r.Err? ==> nodes == old(nodes) && used == old(used)
    {
      assert NodeSound(nodes[id]);
      if nodes[id].kind.DirKind? { return Err(EISDIR); }
      if !nodes[id].kind.FileKind? { return Err(EINVAL); }
      if truncate { var _ := Truncate(id, 0); }
      Put(id, nodes[id].(opens := nodes[id].opens + 1), 0);
      r := Ok(());
    }

    method CreateFile(d: nat, name: string, exclusive: bool, truncate: bool) returns (r: Result<nat>)
      requires Valid() && Live(nodes, d)
      modifies this
      ensures Valid() && Keeps(old(nodes), nodes)
      ensures
        if name !in old(nodes)[d].children then
          && r == MayCreate(old(nodes), old(entries) >= maxEntries, d, name)
          && nodes == if r.Ok? then Added(old(nodes), d, name, NewNode(FileKind, d).(opens := 1)) else old(nodes)
        else
          var c := old(nodes)[d].children[name];
          && c < |old(nodes)|
          && r == (if exclusive then Err(EEXIST) else if old(nodes)[c].kind.DirKind? then Err(EISDIR)
             else if !old(nodes)[c].kind.FileKind? then Err(EINVAL) else Ok(c))
          && (r.Err? ==> nodes == old(nodes))
          && (r.Ok? ==> OnlyFile(old(nodes), nodes, c) && nodes[c].opens == old(nodes)[c].opens + 1)
          && (r.Ok? ==> Content(nodes[c]) == if truncate then [] else Content(old(nodes)[c]))
    {
      assert NodeSound(nodes[d]);
      assert NodeOk(nodes, rank, d);
      if nodes[d].kind.DirKind? && name in nodes[d].children {
        ChildIsLower(nodes, rank, d, name);
        if exclusive { return Err(EEXIST); }
        var c := nodes[d].children[name];
        assert NodeSound(nodes[c]);
        var o := Open(c, truncate);
        if o.Err? { return Err(o.error); }
        return Ok(c);
      }
      r := MakeFile(d, name);
    }

    method MakeFile(d: nat, name: string) returns (r: Result<nat>)
      requires Valid() && Live(nodes, d)
      modifies this
      ensures Valid() && Keeps(old(nodes), nodes) && used == old(used)
      ensures r == MayCreate(old(nodes), old(entries) >= maxEntries, d, name)
      ensures nodes == if r.Ok? then Added(old(nodes), d, name, NewNode(FileKind, d).(opens := 1)) else old(nodes)
    {
      r := Create(d, name, FileKind);
      if r.Ok? {
        ghost var was := nodes;
        OpenAdded(old(nodes), d, name, NewNode(FileKind, d));
        Put(r.value, nodes[r.value].(opens := 1), 0);
        KeepsOn(old(nodes), was, nodes);
      }
    }

    /** A node's buffer, size or count of opens set, `more` bytes more of it. */
    method Put(id: nat, n: Node, more: int)
      requires Valid() && Live(nodes, id) && SamePlace(nodes[id], n) && NodeSound(n) && !n.freed
      requires Weight(n) == Weight(nodes[id]) + more && used + more <= maxBytes
      modifies this
      ensures Valid() && nodes == old(nodes)[id := n] && used == old(used) + more && Keeps(old(nodes), nodes)
        && rank == old(rank) && entries == old(entries)
    {
      PutKeeps(nodes, rank, id, n);
      nodes := nodes[id := n];
      used := used + more;
    }

    method Release(id: nat)
      requires Valid() && Live(nodes, id) && nodes[id].opens > 0
      modifies this
      ensures Valid() && Keeps(old(nodes), nodes)
      ensures var n := old(nodes)[id]; var last := n.gone && n.opens == 1;
        && nodes == old(nodes)[id := n.(opens := n.opens - 1, freed := last)]
        && used == old(used) - (if last then Weight(n) else 0) && entries == old(entries) - (if last then 1 else 0)
    {
      var n := nodes[id];
      assert NodeSound(n);
      ghost var last := n.(opens := n.opens - 1, freed := n.gone && n.opens == 1);
      PutKeeps(nodes, rank, id, last);
      nodes := nodes[id := n.(opens := n.opens - 1)];
      if n.gone { Free(id); }
      assert nodes == old(nodes)[id := last];
    }

    method Read(id: nat, offset: nat, length: nat) returns (bytes: Bytes)
      requires Valid() && id < |nodes| && nodes[id].kind.FileKind?
      ensures NodeSound(nodes[id])
      ensures var c := Content(nodes[id]);
        bytes == if offset >= |c| then [] else c[offset..if offset + length < |c| then offset + length else |c|]
    {
      var n := nodes[id];
      assert NodeSound(n);
      if offset >= n.size { return []; }
      var end := if n.size < offset + length then n.size else offset + length;
      bytes := n.data[offset..end];
      SliceOfSlice(n.data, n.size, offset, end);
    }

    /** What `write` leaves is the file with those bytes put there, or all as it was. */
    method Write(id: nat, offset: nat, bytes: Bytes) returns (r: Result<nat>)
      requires Valid() && Live(nodes, id) && nodes[id].kind.FileKind?
      modifies this
      ensures Valid() && Keeps(old(nodes), nodes) && NodeSound(old(nodes)[id])
      ensures var n, end := old(nodes)[id], offset + |bytes|;
        if end > n.size && old(used) + (end - n.size) > maxBytes
          then r == Err(ENOSPC) && nodes == old(nodes) && used == old(used)
        else
          && r == Ok(|bytes|) && OnlyFile(old(nodes), nodes, id) && nodes[id].opens == n.opens
          && Content(nodes[id]) == Overwritten(Content(n), offset, bytes)
    {
      var n := nodes[id];
      assert NodeSound(n);
      var end := offset + |bytes|;
      if end > n.size && used + (end - n.size) > maxBytes { return Err(ENOSPC); }
      var data, size := WriteBuffer(n, offset, bytes, maxBytes);
      Put(id, n.(data := data, size := size, crcValid := false), size - n.size);
      r := Ok(|bytes|);
    }

    method Truncate(id: nat, size: nat) returns (r: Result<()>)
      requires Valid() && Live(nodes, id) && nodes[id].kind.FileKind?
      modifies this
      ensures Valid() && Keeps(old(nodes), nodes) && NodeSound(old(nodes)[id])
      ensures var n := old(nodes)[id];
        if size > n.size && old(used) + (size - n.size) > maxBytes
          then r == Err(ENOSPC) && nodes == old(nodes) && used == old(used)
        else r == Ok(()) && OnlyFile(old(nodes), nodes,
             id) && nodes[id].opens == n.opens && Content(nodes[id]) == Resized(Content(n), size)
    {
      var n := nodes[id];
      assert NodeSound(n);
      var data := n.data;
      if size > n.size {
        if used + (size - n.size) > maxBytes { return Err(ENOSPC); }
        if size > |n.data| { data := n.data[..n.size] + Zeros(size - n.size); }
        GrownInPlace(n.(data := data), size);
        assert data[..n.size] == n.data[..n.size];
      } else {
        data := n.data[..size] + Zeros(n.size - size) + n.data[n.size..];
        assert data[..size] == Content(n)[..size];
      }
      Put(id, n.(data := data, size := size, crcValid := false), size - n.size);
      r := Ok(());
    }

    // ---- archives ---------------------------------------------------------------------------------------------

    /** The directory named `name` in `d`, made if nothing has that name. */
    method ChildDir(d: nat, name: string) returns (r: Result<nat>)
      requires Valid() && IsDir(nodes, d)
      modifies this
      ensures Valid() && Keeps(old(nodes), nodes) && KeepsDirs(old(nodes), nodes)
      ensures r.Ok? ==> IsDir(nodes, r.value) && Edge(nodes, d, name, r.value)
    {
      KeepsDirsSelf(nodes);
      if name !in nodes[d].children {
        AddKeepsDirs(nodes, d, name, NewNode(DirKind, d));
        r := Add(d, name, NewNode(DirKind, d));
        return;
      }
      ChildIsLower(nodes, rank, d, name);
      var c := nodes[d].children[name];
      r := if nodes[c].kind.DirKind? then Ok(c) else Err(ENOTDIR);
    }

    /** One name further down. */
    method DescendOne(ghost path: seq<string>, d: nat, name: string) returns (r: Result<nat>)
      requires Valid() && IsDir(nodes, d) && Walk(nodes, 0, path) == Ok(d)
      modifies this
      ensures Valid() && Keeps(old(nodes), nodes)
      ensures r.Ok? ==> IsDir(nodes, r.value) && Walk(nodes, 0, path + [name]) == r
    {
      ghost var was, wasRank := nodes, rank;
      r := ChildDir(d, name);
      if r.Ok? {
        WalkKept(was, wasRank, nodes, path, d);
        WalkStep(nodes, 0, path, d, name);
      }
    }

    /** The directory at a path, made where it is missing. */
    method Descend(path: seq<string>) returns (r: Result<nat>)
      requires Valid()
      modifies this
      ensures Valid() && Keeps(old(nodes), nodes)
      ensures r.Ok? ==> IsDir(nodes, r.value) && Walk(nodes, 0, path) == r
    {
      var d := 0;
      assert Walk(nodes, 0, path[..0]) == Ok(0);
      for k := 0 to |path|
        invariant Valid() && Keeps(old(nodes), nodes) && IsDir(nodes, d) && Walk(nodes, 0, path[..k]) == Ok(d)
      {
        assert path[..k + 1] == path[..k] + [path[k]];
        ghost var was := nodes;
        var next := DescendOne(path[..k], d, path[k]);
        KeepsOn(old(nodes), was, nodes);
        if next.Err? { return next; }
        d := next.value;
      }
      assert path[..|path|] == path;
      r := Ok(d);
    }

    /** An entry in its directory: directories merge, a file or link replaces one of these. */
    method Place(d: nat, name: string, kind: Kind, data: Bytes, crc: nat) returns (ok: bool)
      requires Valid() && IsDir(nodes, d) && (kind.FileKind? ==> crc == CrcNumber(data))
      modifies this
      ensures Valid() && Keeps(old(nodes), nodes) && KeepsDirs(old(nodes), nodes) && IsDir(nodes, d)
      ensures ok ==>
        name in nodes[d].children && nodes[d].children[name] < |nodes|
        && Imported(nodes[nodes[d].children[name]], kind, data)
    {
      KeepsDirsSelf(nodes);
      if name in nodes[d].children {
        ChildIsLower(nodes, rank, d, name);
        var c := nodes[d].children[name];
        if nodes[c].kind.DirKind? != kind.DirKind? { return false; }
        if kind.DirKind? { return true; }
        Evict(d, name);
      }
      ghost var was := nodes;
      ok := PlaceNew(d, name, kind, data, crc);
      KeepsOn(old(nodes), was, nodes);
      KeepsDirsOn(old(nodes), was, nodes);
    }

    /** A file or link taken out of its directory. */
    method Evict(d: nat, name: string)
      requires Valid() && IsDir(nodes, d) && name in nodes[d].children && nodes[d].children[name] < |nodes|
      requires !nodes[nodes[d].children[name]].kind.DirKind?
      modifies this
      ensures Valid() && Keeps(old(nodes), nodes) && KeepsDirs(old(nodes), nodes) && IsDir(nodes, d)
      ensures name !in nodes[d].children
    {
      ChildIsLower(nodes, rank, d, name);
      assert NodeOk(nodes, rank, nodes[d].children[name]);
      RemoveKeepsDirs(nodes, d, name);
      Remove(d, name);
    }

    method PlaceNew(d: nat, name: string, kind: Kind, data: Bytes, crc: nat) returns (ok: bool)
      requires Valid() && IsDir(nodes, d) && (kind.FileKind? ==> crc == CrcNumber(data)) && name !in nodes[d].children
      modifies this
      ensures Valid() && Keeps(old(nodes), nodes) && KeepsDirs(old(nodes), nodes)
      ensures nodes == if ok then Added(old(nodes), d, name, nodes[|nodes| - 1]) else old(nodes)
      ensures ok ==> Imported(nodes[|nodes| - 1], kind, data)
    {
      KeepsDirsSelf(nodes);
      var n := NewNode(kind, d);
      if kind.FileKind? {
        n := n.(data := data, size := |data|, crc := crc);
        assert data[..|data|] == data;
      } else if kind.LinkKind? {
        n := n.(size := |data|);
      }
      if !kind.DirKind? && used + n.size > maxBytes { return false; }
      AddKeepsDirs(nodes, d, name, n);
      var r := Add(d, name, n);
      if r.Err? { return false; }
      if !kind.DirKind? { used := used + n.size; }
      ok := true;
    }

    /** One entry of an archive (its path split, its checksum right), merged into the tree. */
    method ImportEntry(parents: seq<string>, name: string, kind: Kind, data: Bytes, crc: nat) returns (ok: bool)
      requires Valid() && (kind.FileKind? ==> crc == CrcNumber(data))
      modifies this
      ensures Valid() && Keeps(old(nodes), nodes)
      ensures ok ==> var id := Walk(nodes, 0, parents + [name]);
        id.Ok? && id.value < |nodes| && Imported(nodes[id.value], kind, data)
    {
      var dir := Descend(parents);
      if dir.Err? { return false; }
      var d := dir.value;
      ghost var was, wasRank := nodes, rank;
      ok := Place(d, name, kind, data, crc);
      KeepsOn(old(nodes), was, nodes);
      WalkKept(was, wasRank, nodes, parents, d);
      if ok { WalkStep(nodes, 0, parents, d, name); }
    }
  }

  // ---- walks -----------------------------------------------------------------------------------------------

  /** Every directory keeps its name. */
  predicate KeepsDirs(nodes: seq<Node>, now: seq<Node>) {
    |nodes| <= |now| && forall e, x :: 0 <= e < |nodes| && x in nodes[e].children ==> KeptEdge(nodes, now, e, x)
  }

  lemma {:induction false} WalkStep(nodes: seq<Node>, d: nat, path: seq<string>, e: nat, x: string)
    requires Walk(nodes, d, path) == Ok(e) && e < |nodes| && x in nodes[e].children
    ensures Walk(nodes, d, path + [x]) == Ok(nodes[e].children[x])
    decreases |path|
  {
    if path == [] {
      assert path + [x] == [x];
    } else {
      WalkStep(nodes, nodes[d].children[path[0]], path[1..], e, x);
      assert (path + [x])[1..] == path[1..] + [x];
    }
  }

  lemma {:induction false} WalkKept(nodes: seq<Node>, rank: seq<nat>, now: seq<Node>, path: seq<string>, d: nat)
    requires Shaped(nodes, rank) && KeepsDirs(nodes, now) && Walk(nodes, 0, path) == Ok(d) && IsDir(nodes, d)
    ensures Walk(now, 0, path) == Ok(d)
  {
    forall e, x | 0 <= e < |nodes| && x in nodes[e].children ensures ChildOk(nodes, e, x) {
      ChildIsLower(nodes, rank, e, x);
      assert NodeOk(nodes, rank, nodes[e].children[x]);
    }
    WalkStays(nodes, now, 0, path);
  }

  // ---- what the changes keep ------------------------------------------------------------------------------

  lemma {:induction false} AddKeeps(nodes: seq<Node>, d: nat, name: string, n: Node)
    requires Sound(nodes) && IsDir(nodes, d) && NodeSound(n)
    ensures var now := Added(nodes, d, name, n);
      Sound(now) && Keeps(nodes, now) && Total(now) == Total(nodes) + Weight(n) && Count(now) == Count(nodes) + Unit(n)
  {
    var parent := nodes[d].(children := nodes[d].children[name := |nodes|]);
    TotalSet(nodes, d, parent);
    TotalAdd(nodes[d := parent], n);
    assert NodeSound(nodes[d]);
  }

  lemma {:induction false} RemoveKeeps(nodes: seq<Node>, d: nat, name: string)
    requires Sound(nodes) && IsDir(nodes, d) && name in nodes[d].children && nodes[d].children[name] < |nodes|
    requires var c := nodes[d].children[name]; c != d && !nodes[c].gone
    ensures var now, n := Removed(nodes, d, name), nodes[nodes[d].children[name]];
      && Sound(now) && Keeps(nodes, now)
      && Total(now) == Total(nodes) - (if n.opens == 0 then Weight(n) else 0)
         && Count(now) == Count(nodes) - if n.opens == 0 then 1 else 0
  {
    var c := nodes[d].children[name];
    assert NodeSound(nodes[c]) && NodeSound(nodes[d]);
    var parent := nodes[d].(children := nodes[d].children - {name});
    TotalSet(nodes, d, parent);
    TotalSet(nodes[d := parent], c, nodes[c].(gone := true, freed := nodes[c].opens == 0));
  }

  lemma {:induction false} MoveKeeps(nodes: seq<Node>, from: nat, oldName: string, to: nat, newName: string)
    requires Sound(nodes) && CanMove(nodes, from, oldName, to) && IsDir(nodes, from) && IsDir(nodes, to)
      && !nodes[nodes[from].children[oldName]].gone
    ensures var now := Moved(nodes, from, oldName, to, newName); Sound(now) && Keeps(nodes, now)
  {
    var now := Moved(nodes, from, oldName, to, newName);
    forall k | 0 <= k < |nodes| ensures NodeSound(now[k]) && KeepsNode(nodes[k], now[k]) {
      assert NodeSound(nodes[k]);
    }
  }

  lemma {:induction false} PutKeeps(nodes: seq<Node>, rank: seq<nat>, id: nat, n: Node)
    requires Shaped(nodes, rank) && Sound(nodes) && Live(nodes, id) && SamePlace(nodes[id], n) && NodeSound(n)
    ensures var now := nodes[id := n];
      && Shaped(now, rank) && Sound(now) && Keeps(nodes, now)
      && Total(now) == Total(nodes) - Weight(nodes[id]) + Weight(n)
      && Count(now) == Count(nodes) - Unit(nodes[id]) + Unit(n)
  {
    TotalSet(nodes, id, n);
    ShapeSame(nodes, nodes[id := n], rank);
  }

  lemma {:induction false} KeepsDirsSelf(nodes: seq<Node>)
    ensures KeepsDirs(nodes, nodes)
  {
    forall e, x | 0 <= e < |nodes| && x in nodes[e].children ensures KeptEdge(nodes, nodes, e, x) {}
  }

  lemma {:induction false} KeepsDirsOn(a: seq<Node>, b: seq<Node>, c: seq<Node>)
    requires Keeps(a, b) && KeepsDirs(a, b) && KeepsDirs(b, c)
    ensures KeepsDirs(a, c)
  {
    forall e, x | 0 <= e < |a| && x in a[e].children ensures KeptEdge(a, c, e, x) {
      var k := a[e].children[x];
      assert KeptEdge(a, b, e, x);
      if k < |a| && a[k].kind.DirKind? {
        assert KeepsNode(a[k], b[k]);
        assert KeptEdge(b, c, e, x);
      }
    }
  }

  lemma {:induction false} AddKeepsDirs(nodes: seq<Node>, d: nat, name: string, n: Node)
    requires d < |nodes| && name !in nodes[d].children
    ensures KeepsDirs(nodes, Added(nodes, d, name, n))
  {
    forall e, x | 0 <= e < |nodes| && x in nodes[e].children ensures KeptEdge(nodes, Added(nodes, d, name, n), e, x) {}
  }

  lemma {:induction false} RemoveKeepsDirs(nodes: seq<Node>, d: nat, name: string)
    requires d < |nodes| && name in nodes[d].children && nodes[d].children[name] < |nodes|
      && nodes[d].children[name] != d
    requires !nodes[nodes[d].children[name]].kind.DirKind? && nodes[nodes[d].children[name]].children == map[]
    ensures KeepsDirs(nodes, Removed(nodes, d, name))
  {
    forall e, x | 0 <= e < |nodes| && x in nodes[e].children ensures KeptEdge(nodes, Removed(nodes, d, name), e, x) {}
  }

  /** The buffer and size `write` leaves: grown by doubling within the limit, the bytes set in it. */
  method WriteBuffer(n: Node, offset: nat, bytes: Bytes, maxBytes: nat) returns (data: Bytes, size: nat)
    requires n.kind.FileKind? && BufferOk(n)
    ensures size == (if offset + |bytes| > n.size then offset + |bytes| else n.size)
      && BufferOk(n.(data := data, size := size, crcValid := false))
    ensures data[..size] == Overwritten(Content(n), offset, bytes)
  {
    data, size := GrowBuffer(n, offset + |bytes|, maxBytes);
    SetInPlace(data, size, Content(n), offset, bytes);
    SetKeepsZeros(data, size, offset, bytes);
    data := data[..offset] + bytes + data[offset + |bytes|..];
  }

  method GrowBuffer(n: Node, end: nat, maxBytes: nat) returns (data: Bytes, size: nat)
    requires n.kind.FileKind? && BufferOk(n)
    ensures size == (if end > n.size then end else n.size) && ZeroBehind(data, size)
      && data[..size] == Resized(Content(n), size)
  {
    data, size := n.data, n.size;
    if end > n.size {
      if end > |n.data| {
        var doubled := if 2 * |n.data| < maxBytes then 2 * |n.data| else maxBytes;
        data := n.data[..n.size] + Zeros((if doubled < end then end else doubled) - n.size);
      }
      size := end;
    }
    assert data[..n.size] == n.data[..n.size];
    GrownInPlace(n.(data := data), size);
  }

  predicate ZeroBehind(data: Bytes, size: nat) {
    size <= |data| && forall i :: size <= i < |data| ==> data[i] == 0
  }

  lemma {:induction false} SetKeepsZeros(data: Bytes, size: nat, at: nat, bytes: Bytes)
    requires ZeroBehind(data, size) && at + |bytes| <= size
    ensures ZeroBehind(data[..at] + bytes + data[at + |bytes|..], size)
  {
    var now := data[..at] + bytes + data[at + |bytes|..];
    forall i | size <= i < |now| ensures now[i] == 0 { assert now[i] == data[i]; }
  }

  /** What an archive entry leaves under its name. */
  predicate Imported(n: Node, kind: Kind, data: Bytes) {
    n.kind == kind && !n.gone && (kind.FileKind? ==> BufferOk(n) && Content(n) == data)
      && (kind.LinkKind? ==> n.size == |data|)
  }

  /** Only file `id` changed, and it stayed where it is. */
  predicate OnlyFile(was: seq<Node>, now: seq<Node>, id: nat) {
    && |now| == |was| && id < |was| && SamePlace(was[id], now[id]) && NodeSound(was[id]) && NodeSound(now[id])
    && was[id].kind.FileKind? && forall k :: 0 <= k < |was| && k != id ==> now[k] == was[k]
  }

  /** Why a new name is refused; else the node it gets. */
  function MayCreate(nodes: seq<Node>, full: bool, d: nat, name: string): Result<nat>
    requires d < |nodes|
  {
    if !nodes[d].kind.DirKind? then Err(ENOTDIR)
    else if name in nodes[d].children then Err(EEXIST)
    else if full then Err(ENOSPC)
    else Ok(|nodes|)
  }

  /** Why a rename is refused. */
  ghost function Verdict(nodes: seq<Node>, rank: seq<nat>, from: nat, oldName: string, to: nat,
      newName: string): Result<()>
    requires from < |nodes| == |rank| && to < |nodes|
  {
    if !nodes[from].kind.DirKind? then Err(ENOTDIR)
    else if oldName !in nodes[from].children then Err(ENOENT)
    else if !nodes[to].kind.DirKind? then Err(ENOTDIR)
    else
      var c := nodes[from].children[oldName];
      if c >= |nodes| then Err(ENOENT)
      else if newName in nodes[to].children && nodes[to].children[newName] == c then Ok(())
      else if nodes[c].kind.DirKind? && Below(nodes, rank, to, c) then Err(EINVAL)
      else if newName !in nodes[to].children then Ok(())
      else
        var target := nodes[to].children[newName];
        if target >= |nodes| then Err(ENOENT)
        else if nodes[target].kind.DirKind? && !nodes[c].kind.DirKind? then Err(EISDIR)
        else if !nodes[target].kind.DirKind? && nodes[c].kind.DirKind? then Err(ENOTDIR)
        else if nodes[target].kind.DirKind? && nodes[target].children != map[] then Err(ENOTEMPTY)
        else Ok(())
  }

  predicate CanMove(nodes: seq<Node>, from: nat, oldName: string, to: nat) {
    from < |nodes| && to < |nodes| && oldName in nodes[from].children && nodes[from].children[oldName] < |nodes|
  }

  /** The nodes a rename leaves: nothing changed, or what was there removed, and the node moved. */
  function Renamed(nodes: seq<Node>, from: nat, oldName: string, to: nat, newName: string): seq<Node> {
    if !CanMove(nodes, from, oldName, to) then nodes
    else if newName !in nodes[to].children then Moved(nodes, from, oldName, to, newName)
    else if nodes[to].children[newName] == nodes[from].children[oldName] then nodes
    else if nodes[to].children[newName] >= |nodes| || nodes[to].children[newName] == to then nodes
    else
      var cleared := Removed(nodes, to, newName);
      if CanMove(cleared, from, oldName, to) then Moved(cleared, from, oldName, to, newName) else cleared
  }

  /** Nothing is below a file but itself. */
  lemma {:induction false} NotBelowFile(nodes: seq<Node>, rank: seq<nat>, x: nat, c: nat)
    requires Shaped(nodes, rank) && x < |nodes| && c < |nodes| && !nodes[c].kind.DirKind? && IsDir(nodes, x)
    ensures !Below(nodes, rank, x, c)
    decreases rank[x]
  {
    assert NodeOk(nodes, rank, x);
    if 0 < x {
      var name :| Edge(nodes, nodes[x].parent, name, x);
      ChildIsLower(nodes, rank, nodes[x].parent, name);
      NotBelowFile(nodes, rank, nodes[x].parent, c);
    }
  }

  /** Removing what is in the way leaves the rest of a move possible. */
  lemma {:induction false} ReplaceLeaves(nodes: seq<Node>, rank: seq<nat>, from: nat, oldName: string, to: nat,
      newName: string)
    requires Shaped(nodes, rank) && from < |nodes| && IsDir(nodes, to) && oldName in nodes[from].children
      && newName in nodes[to].children
    requires nodes[from].children[oldName] < |nodes| && nodes[to].children[newName] != nodes[from].children[oldName]
    requires nodes[to].children[newName] < |nodes| && nodes[to].children[newName] != to
      && nodes[nodes[to].children[newName]].children == map[]
    requires !Below(nodes, rank, to, nodes[from].children[oldName])
    ensures var cleared := Removed(nodes, to, newName);
      && IsDir(cleared, to) && newName !in cleared[to].children && CanMove(cleared, from, oldName, to)
      && cleared[from].children[oldName] == nodes[from].children[oldName]
      && !Below(cleared, rank, to, nodes[from].children[oldName])
  {
    BelowSame(nodes, Removed(nodes, to, newName), rank, to, nodes[from].children[oldName]);
  }

  lemma {:induction false} BelowSame(nodes: seq<Node>, nodes': seq<Node>, rank: seq<nat>, x: nat, c: nat)
    requires x < |nodes| == |rank| == |nodes'| && forall k :: 0 <= k < |nodes| ==> nodes'[k].parent == nodes[k].parent
    ensures Below(nodes', rank, x, c) == Below(nodes, rank, x, c)
    decreases rank[x]
  {
    if x != c && 0 < x && nodes[x].parent < |nodes| && rank[nodes[x].parent] < rank[x] {
      BelowSame(nodes, nodes', rank, nodes[x].parent, c);
    }
  }

  /** A move changes no count. */
  lemma {:induction false} MoveCounts(nodes: seq<Node>, from: nat, oldName: string, to: nat, newName: string)
    requires CanMove(nodes, from, oldName, to)
    ensures Total(Moved(nodes, from, oldName, to, newName)) == Total(nodes)
      && Count(Moved(nodes, from, oldName, to, newName)) == Count(nodes)
  {
    var c := nodes[from].children[oldName];
    var n1 := nodes[from].(children := nodes[from].children - {oldName});
    TotalSet(nodes, from, n1);
    var a := nodes[from := n1];
    var n2 := a[to].(children := a[to].children[newName := c]);
    TotalSet(a, to, n2);
    var b := a[to := n2];
    TotalSet(b, c, b[c].(parent := to));
  }
}
