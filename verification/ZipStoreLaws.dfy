/**
 The calls of the in-memory file system (host/zip-store.js) by what they do to every byte of a file and to every name
 in the tree.
 */
module ZipStoreLaws {
  import opened ByteStrings
  import opened ZipStore
  import opened ZipStoreFs

  // ---- bytes ------------------------------------------------------------------------------------------

  /** A write changes the bytes it writes, fills a gap before them with zeros, and leaves every other byte. */
  lemma {:induction false} WriteExactly(c: Bytes, at: nat, bytes: Bytes, i: nat)
    ensures |Overwritten(c, at, bytes)| == if at + |bytes| > |c| then at + |bytes| else |c|
    ensures i < |Overwritten(c, at, bytes)| ==>
      Overwritten(c, at, bytes)[i] ==
        if at <= i < at + |bytes| then bytes[i - at] else if i < |c| then c[i] else 0
  {
  }

  /** What was written is what is read there. */
  lemma {:induction false} ReadsWhatWasWritten(c: Bytes, at: nat, bytes: Bytes)
    ensures at + |bytes| <= |Overwritten(c, at, bytes)| && Overwritten(c, at, bytes)[at..at + |bytes|] == bytes
  {
    forall i | 0 <= i < |bytes| ensures Overwritten(c, at, bytes)[at + i] == bytes[i] {
      WriteExactly(c, at, bytes, at + i);
    }
    WriteExactly(c, at, bytes, 0);
  }

  /** A truncation keeps what is before it, and what it adds is zero. */
  lemma {:induction false} ResizeExactly(c: Bytes, size: nat, i: nat)
    requires i < size
    ensures |Resized(c, size)| == size && Resized(c, size)[i] == if i < |c| then c[i] else 0
  {
  }

  // ---- names ------------------------------------------------------------------------------------------

  /** A new node has its name, and no other name changes. */
  lemma {:induction false} AddExactly(nodes: seq<Node>, d: nat, name: string, n: Node, e: nat, x: string, k: nat)
    requires d < |nodes| && n.children == map[]
    ensures Edge(Added(nodes, d, name, n), e, x, k) <==>
      if e == d && x == name then k == |nodes| else Edge(nodes, e, x, k)
    ensures Added(nodes, d, name, n)[|nodes|] == n
    ensures e < |nodes| ==> Added(nodes, d, name, n)[e].(children := map[]) == nodes[e].(children := map[])
  {
  }

  /** A name removed: no other goes, and nothing changes of any node but that the one it named is gone. */
  lemma {:induction false} RemoveExactly(nodes: seq<Node>, d: nat, name: string, e: nat, x: string, k: nat)
    requires d < |nodes| && name in nodes[d].children && nodes[d].children[name] < |nodes|
      && nodes[d].children[name] != d
    ensures Edge(Removed(nodes, d, name), e, x, k) <==> Edge(nodes, e, x, k) && !(e == d && x == name)
    ensures var c := nodes[d].children[name];
      && Removed(nodes, d, name)[c] == nodes[c].(gone := true, freed := nodes[c].opens == 0)
      && (e < |nodes| && e != c ==> Removed(nodes, d, name)[e].(children := map[]) == nodes[e].(children := map[]))
  {
  }

  /** A move: the node has the new name, in the new directory, in place of the old one; no other name changes. */
  lemma {:induction false} MoveExactly(nodes: seq<Node>, from: nat, oldName: string, to: nat, newName: string, e: nat,
      x: string, k: nat)
    requires CanMove(nodes, from, oldName, to)
    ensures var c, now := nodes[from].children[oldName], Moved(nodes, from, oldName, to, newName);
      && (Edge(now, e, x, k) <==>
        if e == to && x == newName then k == c else Edge(nodes, e, x, k) && !(e == from && x == oldName))
      && now[c].parent == to
      && (e < |nodes| ==> now[e].(children := map[], parent := 0) == nodes[e].(children := map[], parent := 0))
      && (e < |nodes| && e != c ==> now[e].parent == nodes[e].parent)
  {
  }

  /** A rename as a whole: what had the new name is gone, the node has it, its old name is gone, and that is all. */
  lemma {:induction false} RenameExactly(nodes: seq<Node>, rank: seq<nat>, from: nat, oldName: string, to: nat,
      newName: string, e: nat, x: string, k: nat)
    requires Shaped(nodes, rank) && from < |nodes| && to < |nodes|
    requires Verdict(nodes, rank, from, oldName, to, newName).Ok?
    ensures var c, now := nodes[from].children[oldName], Renamed(nodes, from, oldName, to, newName);
      if newName in nodes[to].children && nodes[to].children[newName] == c then now == nodes
      else
        && (Edge(now, e, x, k) <==>
          if e == to && x == newName then k == c else Edge(nodes, e, x, k) && !(e == from && x == oldName))
        && (newName in nodes[to].children ==>
          nodes[to].children[newName] < |now| && now[nodes[to].children[newName]].gone)
  {
    var c := nodes[from].children[oldName];
    assert EdgeOk(nodes, from, oldName);
    if newName in nodes[to].children {
      var target := nodes[to].children[newName];
      assert EdgeOk(nodes, to, newName);
      if target != c {
        NotItsOwnChild(nodes, rank, to, newName);
        RemoveExactly(nodes, to, newName, e, x, k);
        RemoveExactly(nodes, to, newName, from, oldName, c);
        var cleared := Removed(nodes, to, newName);
        assert Edge(nodes, from, oldName, c) && Edge(cleared, from, oldName, c);
        MoveExactly(cleared, from, oldName, to, newName, e, x, k);
        MoveExactly(cleared, from, oldName, to, newName, target, x, k);
      }
    } else {
      MoveExactly(nodes, from, oldName, to, newName, e, x, k);
    }
  }

  lemma {:induction false} NotItsOwnChild(nodes: seq<Node>, rank: seq<nat>, d: nat, name: string)
    requires Shaped(nodes, rank) && d < |nodes| && name in nodes[d].children
    ensures nodes[d].children[name] != d
  {
    assert EdgeOk(nodes, d, name);
    assert NodeOk(nodes, rank, nodes[d].children[name]);
  }

  // ---- refusals ---------------------------------------------------------------------------------------

  /** Why a rename fails, each reason where it is the first. */
  lemma {:induction false} RenameRefusals(nodes: seq<Node>, rank: seq<nat>, from: nat, oldName: string, to: nat,
      newName: string)
    requires Shaped(nodes, rank) && from < |nodes| && to < |nodes|
    ensures var v := Verdict(nodes, rank, from, oldName, to, newName);
      var found := nodes[from].kind.DirKind? && oldName in nodes[from].children;
      && (v == Err(ENOENT) <==> nodes[from].kind.DirKind? && oldName !in nodes[from].children)
      && (!nodes[from].kind.DirKind? || (found && !nodes[to].kind.DirKind?) ==> v == Err(ENOTDIR))
      && (found && nodes[to].kind.DirKind? ==>
        var c := nodes[from].children[oldName];
        && c < |nodes|
        && (newName in nodes[to].children && nodes[to].children[newName] == c ==> v == Ok(()))
        && (v == Err(EINVAL) <==>
          nodes[c].kind.DirKind? && Below(nodes, rank, to, c)
          && !(newName in nodes[to].children && nodes[to].children[newName] == c))
        && (newName !in nodes[to].children ==> v == Ok(()) || v == Err(EINVAL))
        && (newName in nodes[to].children && nodes[to].children[newName] != c && v != Err(EINVAL) ==>
          var t := nodes[to].children[newName];
          && t < |nodes|
          && (v == Err(EISDIR) <==> nodes[t].kind.DirKind? && !nodes[c].kind.DirKind?)
          && (v == Err(ENOTDIR) <==> !nodes[t].kind.DirKind? && nodes[c].kind.DirKind?)
          && (v == Err(ENOTEMPTY) <==>
            nodes[t].kind.DirKind? && nodes[c].kind.DirKind? && exists x :: x in nodes[t].children)))
  {
    if nodes[from].kind.DirKind? && oldName in nodes[from].children && nodes[to].kind.DirKind? {
      assert EdgeOk(nodes, from, oldName);
      if newName in nodes[to].children {
        assert EdgeOk(nodes, to, newName);
        var t := nodes[to].children[newName];
        if nodes[t].children != map[] { assert nodes[t].children.Keys != {}; }
      }
    }
  }

  /** A new name is refused outside a directory, where it is taken, and where there is no more room, in this order. */
  lemma {:induction false} CreateRefusals(nodes: seq<Node>, full: bool, d: nat, name: string)
    requires d < |nodes|
    ensures var v := MayCreate(nodes, full, d, name);
      && (v == Err(ENOTDIR) <==> !nodes[d].kind.DirKind?)
      && (v == Err(EEXIST) <==> nodes[d].kind.DirKind? && name in nodes[d].children)
      && (v == Err(ENOSPC) <==> nodes[d].kind.DirKind? && name !in nodes[d].children && full)
      && (v.Ok? <==> nodes[d].kind.DirKind? && name !in nodes[d].children && !full)
  {
  }
}
