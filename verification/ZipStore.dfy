/**
 The in-memory file system of host/zip-store.js: nodes in a tree, each with its buffer, two counters
 that hold the whole to its limits, and files that live on while open after their name is gone.
 Nodes are numbered in the order they were made, the root first. Times, owners and permissions
 are not kept.
 */
module ZipStore {
  import opened ByteStrings
  import opened Crc

  datatype Kind = FileKind | DirKind | LinkKind

  /** `gone`: removed from the tree. `freed`: no longer counted against the limits. */
  datatype Node = Node(
    kind: Kind, parent: nat, opens: nat, gone: bool, freed: bool, children: map<string, nat>,
    data: Bytes, size: nat, crc: nat, crcValid: bool)

  function NewNode(kind: Kind, parent: nat): Node { Node(kind, parent, 0, false, false, map[], [], 0, 0, true) }

  datatype Errno = ENOTDIR | EISDIR | EINVAL | EEXIST | ENOENT | ENOTEMPTY | ENOSPC

  datatype Result<+T> = Ok(value: T) | Err(error: Errno)

  // ---- what a file holds --------------------------------------------------------------------------------

  function Content(n: Node): (r: Bytes)
    requires n.size <= |n.data|
    ensures |r| == n.size
  {
    n.data[..n.size]
  }

  /** Cut off, or filled up with zeros. */
  function Resized(c: Bytes, size: nat): (r: Bytes)
    ensures |r| == size
  {
    if size <= |c| then c[..size] else c + Zeros(size - |c|)
  }

  /** Bytes put at a place, whatever is before them and not yet there zero. */
  function Overwritten(c: Bytes, at: nat, bytes: Bytes): Bytes {
    var end := at + |bytes|;
    var padded := Resized(c, if end > |c| then end else |c|);
    padded[..at] + bytes + padded[end..]
  }

  /** A buffer has room for the file, is zero behind it, and its checksum, where kept, is right. */
  predicate BufferOk(n: Node) {
    n.kind.FileKind? ==>
      && n.size <= |n.data|
      && (forall i :: n.size <= i < |n.data| ==> n.data[i] == 0)
      && (n.crcValid ==> n.crc == CrcNumber(n.data[..n.size]))
  }

  // ---- the two counters -----------------------------------------------------------------------------------

  function Weight(n: Node): nat { if n.freed || n.kind.DirKind? then 0 else n.size }

  /** The bytes of all nodes not freed. */
  function Total(nodes: seq<Node>): nat {
    if nodes == [] then 0 else Total(nodes[..|nodes| - 1]) + Weight(nodes[|nodes| - 1])
  }

  function Unit(n: Node): nat { if n.freed then 0 else 1 }

  /** How many nodes are not freed. */
  function Count(nodes: seq<Node>): nat {
    if nodes == [] then 0 else Count(nodes[..|nodes| - 1]) + Unit(nodes[|nodes| - 1])
  }

  /** Freed exactly when its name is gone and nothing has it open; directories are never open. */
  predicate LifeOk(n: Node) {
    (n.freed <==> n.gone && n.opens == 0) && (n.kind.DirKind? ==> n.opens == 0)
  }

  // ---- the tree ---------------------------------------------------------------------------------------------

  predicate IsDir(nodes: seq<Node>, d: nat) { d < |nodes| && nodes[d].kind.DirKind? && !nodes[d].gone }

  predicate Edge(nodes: seq<Node>, d: nat, name: string, c: nat) {
    d < |nodes| && name in nodes[d].children && nodes[d].children[name] == c
  }

  ghost predicate HasName(nodes: seq<Node>, k: nat)
    requires k < |nodes|
  {
    exists name :: Edge(nodes, nodes[k].parent, name, k)
  }

  ghost predicate NodeOk(nodes: seq<Node>, rank: seq<nat>, k: nat)
    requires k < |nodes| == |rank|
  {
    && (nodes[k].children != map[] ==> IsDir(nodes, k))
    && (0 < k && !nodes[k].gone ==> HasName(nodes, k) && rank[nodes[k].parent] < rank[k])
  }

  ghost predicate EdgeOk(nodes: seq<Node>, d: nat, name: string)
    requires d < |nodes| && name in nodes[d].children
  {
    var c := nodes[d].children[name];
    0 < c < |nodes| && !nodes[c].gone && nodes[c].parent == d
      && forall n :: n in nodes[d].children && nodes[d].children[n] == c ==> n == name
  }

  /** A tree: every node in it has one name, in its parent, and parents come to the root (they rank lower). */
  ghost predicate Shaped(nodes: seq<Node>, rank: seq<nat>) {
    && |nodes| == |rank| && IsDir(nodes, 0) && nodes[0].parent == 0
    && (forall k :: 0 <= k < |nodes| ==> NodeOk(nodes, rank, k))
    && (forall d, name :: 0 <= d < |nodes| && name in nodes[d].children ==> EdgeOk(nodes, d, name))
  }

  /** `x` is `c` or somewhere below it. */
  ghost predicate Below(nodes: seq<Node>, rank: seq<nat>, x: nat, c: nat)
    requires x < |nodes| == |rank|
    decreases rank[x]
  {
    x == c || (0 < x && nodes[x].parent < |nodes| && rank[nodes[x].parent] < rank[x]
      && Below(nodes, rank, nodes[x].parent, c))
  }

  /** The node a path leads to from `d`. */
  function Walk(nodes: seq<Node>, d: nat, path: seq<string>): Result<nat>
    decreases |path|
  {
    if path == [] then Ok(d)
    else if d < |nodes| && path[0] in nodes[d].children then Walk(nodes, nodes[d].children[path[0]], path[1..])
    else Err(ENOENT)
  }

  // ---- what the calls do to the tree --------------------------------------------------------------------------

  function Added(nodes: seq<Node>, d: nat, name: string, n: Node): seq<Node>
    requires d < |nodes|
  {
    nodes[d := nodes[d].(children := nodes[d].children[name := |nodes|])] + [n]
  }

  function Removed(nodes: seq<Node>, d: nat, name: string): seq<Node>
    requires d < |nodes| && name in nodes[d].children && nodes[d].children[name] < |nodes|
      && nodes[d].children[name] != d
  {
    var c := nodes[d].children[name];
    nodes[d := nodes[d].(children := nodes[d].children - {name})][c :=
      nodes[c].(gone := true, freed := nodes[c].opens == 0)]
  }

  /** The node named `oldName` in `from`, named `newName` in `to` instead. */
  function Moved(nodes: seq<Node>, from: nat, oldName: string, to: nat, newName: string): seq<Node>
    requires from < |nodes| && to < |nodes| && oldName in nodes[from].children
      && nodes[from].children[oldName] < |nodes|
  {
    var c := nodes[from].children[oldName];
    var without := nodes[from := nodes[from].(children := nodes[from].children - {oldName})];
    var with := without[to := without[to].(children := without[to].children[newName := c])];
    with[c := with[c].(parent := to)]
  }
}

module ZipStoreProofs {
  import opened ByteStrings
  import opened Crc
  import opened ZipStore

  // ---- the counters -------------------------------------------------------------------------------------------

  lemma {:induction false} TotalSet(nodes: seq<Node>, k: nat, n: Node)
    requires k < |nodes|
    ensures Total(nodes[k := n]) == Total(nodes) - Weight(nodes[k]) + Weight(n)
    ensures Count(nodes[k := n]) == Count(nodes) - Unit(nodes[k]) + Unit(n)
    decreases |nodes|
  {
    var front := nodes[..|nodes| - 1];
    if k < |front| {
      TotalSet(front, k, n);
      assert nodes[k := n][..|nodes| - 1] == front[k := n];
    } else {
      assert nodes[k := n][..|nodes| - 1] == front;
    }
  }

  lemma {:induction false} TotalAdd(nodes: seq<Node>, n: Node)
    ensures Total(nodes + [n]) == Total(nodes) + Weight(n) && Count(nodes + [n]) == Count(nodes) + Unit(n)
  {
    assert (nodes + [n])[..|nodes|] == nodes;
  }

  /** A node not freed is in the count: the root and one more are two. */
  lemma {:induction false} AtLeast(nodes: seq<Node>, k: nat)
    requires k < |nodes|
    ensures Count(nodes) >= Unit(nodes[k]) && Total(nodes) >= Weight(nodes[k])
    decreases |nodes|
  {
    if k < |nodes| - 1 { AtLeast(nodes[..|nodes| - 1], k); }
  }

  // ---- the tree -------------------------------------------------------------------------------------------------

  /** Nodes that differ only in what they hold, and in their counts, make the same tree. */
  lemma {:induction false} ShapeSame(nodes: seq<Node>, nodes': seq<Node>, rank: seq<nat>)
    requires Shaped(nodes, rank) && |nodes'| == |nodes|
    requires forall k :: 0 <= k < |nodes| ==> SamePlace(nodes[k], nodes'[k])
    ensures Shaped(nodes', rank)
  {
    forall k | 0 <= k < |nodes| ensures NodeOk(nodes', rank, k) {
      assert NodeOk(nodes, rank, k) && SamePlace(nodes[k], nodes'[k]);
      if HasName(nodes, k) {
        var name :| Edge(nodes, nodes[k].parent, name, k);
        assert SamePlace(nodes[nodes[k].parent], nodes'[nodes[k].parent]);
        assert Edge(nodes', nodes'[k].parent, name, k);
      }
    }
    forall d, name | 0 <= d < |nodes'| && name in nodes'[d].children ensures EdgeOk(nodes', d, name) {
      assert SamePlace(nodes[d], nodes'[d]);
      assert EdgeOk(nodes, d, name);
      var c := nodes[d].children[name];
      assert SamePlace(nodes[c], nodes'[c]);
    }
    assert SamePlace(nodes[0], nodes'[0]);
  }

  predicate SamePlace(n: Node, n': Node) {
    n'.kind == n.kind && n'.parent == n.parent && n'.gone == n.gone && n'.children == n.children
  }

  lemma {:induction false} AddShape(nodes: seq<Node>, rank: seq<nat>, d: nat, name: string, n: Node)
    requires Shaped(nodes, rank) && IsDir(nodes, d) && name !in nodes[d].children
    requires n.parent == d && !n.gone && n.children == map[]
    ensures Shaped(Added(nodes, d, name, n), rank + [rank[d] + 1])
  {
    var nodes', rank' := Added(nodes, d, name, n), rank + [rank[d] + 1];
    forall k | 0 <= k < |nodes'| ensures NodeOk(nodes', rank', k) {
      if k < |nodes| {
        assert NodeOk(nodes, rank, k);
        if 0 < k && !nodes[k].gone {
          var x :| Edge(nodes, nodes[k].parent, x, k);
          assert Edge(nodes', nodes'[k].parent, x, k);
        }
      } else {
        assert Edge(nodes', d, name, k);
      }
    }
    forall e, x | 0 <= e < |nodes'| && x in nodes'[e].children ensures EdgeOk(nodes', e, x) {
      if e < |nodes| && x in nodes[e].children {
        assert EdgeOk(nodes, e, x);
      }
      if e == d {
        forall y | y in nodes'[e].children && nodes'[e].children[y] == nodes'[e].children[x] ensures y == x {
          if y != name { assert EdgeOk(nodes, e, y); }
          if x != name { assert EdgeOk(nodes, e, x); }
        }
      }
    }
  }

  lemma {:induction false} RemoveShape(nodes: seq<Node>, rank: seq<nat>, d: nat, name: string)
    requires Shaped(nodes, rank) && IsDir(nodes, d) && name in nodes[d].children
    requires EdgeOk(nodes, d, name) && nodes[d].children[name] != d && nodes[nodes[d].children[name]].children == map[]
    ensures Shaped(Removed(nodes, d, name), rank)
  {
    var c, nodes' := nodes[d].children[name], Removed(nodes, d, name);
    forall k | 0 <= k < |nodes'| ensures NodeOk(nodes', rank, k) {
      assert NodeOk(nodes, rank, k);
      if 0 < k && !nodes'[k].gone {
        var x :| Edge(nodes, nodes[k].parent, x, k);
        assert EdgeOk(nodes, nodes[k].parent, x);
        assert Edge(nodes', nodes'[k].parent, x, k);
      }
    }
    forall e, x | 0 <= e < |nodes'| && x in nodes'[e].children ensures EdgeOk(nodes', e, x) {
      assert EdgeOk(nodes, e, x);
    }
  }

  /** A name that is there is not its own directory's. */
  lemma {:induction false} ChildIsLower(nodes: seq<Node>, rank: seq<nat>, d: nat, name: string)
    requires Shaped(nodes, rank) && d < |nodes| && name in nodes[d].children
    ensures EdgeOk(nodes, d, name) && IsDir(nodes, d) && var c := nodes[d].children[name];
      0 < c < |nodes| && c != d && rank[d] < rank[c]
  {
    assert EdgeOk(nodes, d, name);
    assert NodeOk(nodes, rank, d) && NodeOk(nodes, rank, nodes[d].children[name]);
  }

  /** Ranks after what `c` leads to went below `to`. */
  ghost function Reranked(nodes: seq<Node>, rank: seq<nat>, c: nat, to: nat): (r: seq<nat>)
    requires to < |nodes| == |rank|
    ensures |r| == |rank|
  {
    seq(|rank|, x requires 0 <= x < |rank| => rank[x] + if Below(nodes, rank, x, c) then rank[to] + 1 else 0)
  }

  /** A node moved anywhere but below itself: still a tree. */
  lemma {:induction false} MoveShape(nodes: seq<Node>, rank: seq<nat>, from: nat, oldName: string, to: nat,
      newName: string)
    requires Shaped(nodes, rank) && IsDir(nodes, to) && from < |nodes| && oldName in nodes[from].children
      && newName !in nodes[to].children
    requires nodes[from].children[oldName] < |nodes| && !Below(nodes, rank, to, nodes[from].children[oldName])
    ensures Shaped(Moved(nodes, from, oldName, to, newName), Reranked(nodes, rank, nodes[from].children[oldName], to))
  {
    ChildIsLower(nodes, rank, from, oldName);
    var c := nodes[from].children[oldName];
    var nodes', rank' := Moved(nodes, from, oldName, to, newName), Reranked(nodes, rank, c, to);
    assert c != to;
    forall k | 0 <= k < |nodes'| ensures NodeOk(nodes', rank', k) {
      MovedNode(nodes, rank, from, oldName, to, newName, k);
    }
    forall e, x | 0 <= e < |nodes'| && x in nodes'[e].children ensures EdgeOk(nodes', e, x) {
      MovedEdge(nodes, rank, from, oldName, to, newName, e, x);
    }
  }

  lemma {:induction false} MovedNode(nodes: seq<Node>, rank: seq<nat>, from: nat, oldName: string, to: nat,
      newName: string, k: nat)
    requires Shaped(nodes, rank) && IsDir(nodes, to) && from < |nodes| && oldName in nodes[from].children
      && newName !in nodes[to].children
    requires EdgeOk(nodes, from, oldName) && k < |nodes| && IsDir(nodes, from)
    requires var c := nodes[from].children[oldName]; c != from && c != to && !Below(nodes, rank, to, c)
    ensures NodeOk(Moved(nodes, from, oldName, to, newName), Reranked(nodes, rank, nodes[from].children[oldName], to),
      k)
  {
    var c := nodes[from].children[oldName];
    var nodes' := Moved(nodes, from, oldName, to, newName);
    assert NodeOk(nodes, rank, k);
    if k == c {
      assert Edge(nodes', to, newName, c);
    } else if 0 < k && !nodes[k].gone {
      var x :| Edge(nodes, nodes[k].parent, x, k);
      assert EdgeOk(nodes, nodes[k].parent, x);
      assert Edge(nodes', nodes'[k].parent, x, k);
      RanksMove(nodes, rank, c, to, k);
    }
  }

  /** Parents still rank lower, wherever `c` went. */
  lemma {:induction false} RanksMove(nodes: seq<Node>, rank: seq<nat>, c: nat, to: nat, k: nat)
    requires to < |nodes| == |rank| && 0 < k < |nodes| && k != c && nodes[k].parent < |nodes|
      && rank[nodes[k].parent] < rank[k]
    ensures Reranked(nodes, rank, c, to)[nodes[k].parent] < Reranked(nodes, rank, c, to)[k]
  {
    assert Below(nodes, rank, k, c) <==> Below(nodes, rank, nodes[k].parent, c);
  }

  lemma {:induction false} MovedEdge(nodes: seq<Node>, rank: seq<nat>, from: nat, oldName: string, to: nat,
      newName: string, e: nat, x: string)
    requires Shaped(nodes, rank) && IsDir(nodes, to) && from < |nodes| && oldName in nodes[from].children
      && newName !in nodes[to].children
    requires EdgeOk(nodes, from, oldName) && IsDir(nodes, from)
    requires var c := nodes[from].children[oldName]; c != from && c != to
    requires e < |nodes| && x in Moved(nodes, from, oldName, to, newName)[e].children
    ensures EdgeOk(Moved(nodes, from, oldName, to, newName), e, x)
  {
    var c := nodes[from].children[oldName];
    var nodes' := Moved(nodes, from, oldName, to, newName);
    if e == to && x == newName {
      forall y | y in nodes'[e].children && y != newName ensures nodes'[e].children[y] != c {
        assert EdgeOk(nodes, e, y);
      }
    } else {
      assert x in nodes[e].children && EdgeOk(nodes, e, x);
      assert nodes[e].children[x] != c;
    }
  }

  // ---- what the shape says -------------------------------------------------------------------------------------

  /** The node `n` parents up. */
  function Up(nodes: seq<Node>, x: nat, n: nat): nat
    decreases n
  {
    if n == 0 || x >= |nodes| then x else Up(nodes, nodes[x].parent, n - 1)
  }

  /** From everything in the tree, parents lead to the root. */
  lemma {:induction false} ReachesRoot(nodes: seq<Node>, rank: seq<nat>, x: nat) returns (n: nat)
    requires Shaped(nodes, rank) && x < |nodes| && !nodes[x].gone
    ensures Up(nodes, x, n) == 0
    decreases rank[x]
  {
    if x == 0 { return 0; }
    assert NodeOk(nodes, rank, x);
    var name :| Edge(nodes, nodes[x].parent, name, x);
    ChildIsLower(nodes, rank, nodes[x].parent, name);
    var m := ReachesRoot(nodes, rank, nodes[x].parent);
    n := m + 1;
  }

  /** Everything in the tree but the root has one name, and what is gone has none. */
  lemma {:induction false} OneName(nodes: seq<Node>, rank: seq<nat>, c: nat)
    requires Shaped(nodes, rank) && 0 < c < |nodes|
    ensures !nodes[c].gone <==> exists d, name :: Edge(nodes, d, name, c)
    ensures forall d, name, e, x :: Edge(nodes, d, name, c) && Edge(nodes, e, x, c) ==> d == e && name == x
  {
    assert NodeOk(nodes, rank, c);
    if !nodes[c].gone {
      var name :| Edge(nodes, nodes[c].parent, name, c);
    }
    forall d, name | Edge(nodes, d, name, c) ensures !nodes[c].gone { assert EdgeOk(nodes, d, name); }
    forall d, name, e, x | Edge(nodes, d, name, c) && Edge(nodes, e, x, c) ensures d == e && name == x {
      assert EdgeOk(nodes, d, name) && EdgeOk(nodes, e, x);
    }
  }

  // ---- what a file holds ------------------------------------------------------------------------------------------

  /** Grown in place: the bytes behind the file are zero, so the file is filled up with zeros. */
  lemma {:induction false} GrownInPlace(n: Node, size: nat)
    requires n.size <= size <= |n.data| && forall i :: n.size <= i < |n.data| ==> n.data[i] == 0
    ensures n.data[..size] == Resized(n.data[..n.size], size)
  {
  }

  /** Bytes set in a buffer are bytes put in the file. */
  lemma {:induction false} SetInPlace(data: Bytes, size: nat, was: Bytes, at: nat, bytes: Bytes)
    requires at + |bytes| <= size <= |data| && |was| <= size && data[..size] == Resized(was, size)
    requires size == if at + |bytes| > |was| then at + |bytes| else |was|
    ensures (data[..at] + bytes + data[at + |bytes|..])[..size] == Overwritten(was, at, bytes)
  {
    var padded := Resized(was, size);
    assert data[..at] == padded[..at];
    assert data[at + |bytes|..size] == padded[at + |bytes|..];
  }

  /** A walk to a directory goes through directories, and stays while their names do. */
  lemma {:induction false} WalkStays(nodes: seq<Node>, nodes': seq<Node>, d: nat, path: seq<string>)
    requires d < |nodes| <= |nodes'|
      && (forall e, x :: 0 <= e < |nodes| && x in nodes[e].children ==> KeptEdge(nodes, nodes', e, x))
    requires Walk(nodes, d, path).Ok? && Walk(nodes, d, path).value < |nodes|
      && nodes[Walk(nodes, d, path).value].kind.DirKind?
    requires forall e, x :: 0 <= e < |nodes| && x in nodes[e].children ==> ChildOk(nodes, e, x)
    ensures Walk(nodes', d, path) == Walk(nodes, d, path)
    decreases |path|
  {
    if path != [] {
      var c := nodes[d].children[path[0]];
      assert KeptEdge(nodes, nodes', d, path[0]) && ChildOk(nodes, d, path[0]);
      WalkStays(nodes, nodes', c, path[1..]);
    }
  }

  /** A name of a directory, kept. */
  predicate KeptEdge(nodes: seq<Node>, nodes': seq<Node>, e: nat, x: string)
    requires e < |nodes| <= |nodes'| && x in nodes[e].children
  {
    var c := nodes[e].children[x];
    c < |nodes| && nodes[c].kind.DirKind? ==> x in nodes'[e].children && nodes'[e].children[x] == c
  }

  predicate ChildOk(nodes: seq<Node>, e: nat, x: string)
    requires e < |nodes| && x in nodes[e].children
  {
    var c := nodes[e].children[x];
    c < |nodes| && (nodes[c].children != map[] ==> nodes[c].kind.DirKind?)
  }
}
