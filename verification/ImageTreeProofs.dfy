/** How one changed name changes what every path means. */
module ImageTreeProofs {
  import opened ImageTree

  lemma {:induction false} LookupKnown(nodes: seq<Node>, q: Path)
    requires TreeOk(nodes) && Lookup(nodes, q).Some?
    ensures Lookup(nodes, q).value < |nodes|
    ensures Lookup(nodes, q).value == 0 <==> q == []
  {
    if q != [] {
      var d := Lookup(nodes, q[..|q| - 1]).value;
      assert EdgeOk(nodes, d, q[|q| - 1]);
    }
  }

  /** A directory has one path. */
  lemma {:induction false} OnePath(nodes: seq<Node>, p: Path, q: Path)
    requires TreeOk(nodes) && Lookup(nodes, p).Some? && Lookup(nodes, q) == Lookup(nodes, p)
      && IsDirNode(nodes, Lookup(nodes, p).value)
    ensures p == q
    decreases |p|
  {
    LookupKnown(nodes, p);
    LookupKnown(nodes, q);
    if p != [] && q != [] {
      var d, e := Lookup(nodes, p[..|p| - 1]).value, Lookup(nodes, q[..|q| - 1]).value;
      assert EdgeOk(nodes, d, p[|p| - 1]) && EdgeOk(nodes, e, q[|q| - 1]);
      OnePath(nodes, p[..|p| - 1], q[..|q| - 1]);
      assert p == p[..|p| - 1] + [p[|p| - 1]] && q == q[..|q| - 1] + [q[|q| - 1]];
    }
  }

  /** Nodes that name the same children lead to the same places. */
  lemma {:induction false} LookupSame(nodes: seq<Node>, nodes': seq<Node>, q: Path)
    requires TreeOk(nodes) && |nodes| <= |nodes'|
      && forall k :: 0 <= k < |nodes| ==> Children(nodes'[k]) == Children(nodes[k])
    ensures Lookup(nodes', q) == Lookup(nodes, q)
    decreases |q|
  {
    if q != [] {
      LookupSame(nodes, nodes', q[..|q| - 1]);
      if Lookup(nodes, q[..|q| - 1]).Some? { LookupKnown(nodes, q[..|q| - 1]); }
    }
  }

  /** Directory `d`'s children with `name` naming `c`. */
  function Rename(nodes: seq<Node>, d: nat, name: string, c: nat): seq<Node>
    requires IsDirNode(nodes, d)
  {
    nodes[d := nodes[d].(content := Directory(nodes[d].content.children[name := c]))]
  }

  /** Nothing is below what is named `name` in `d`: no such name, no directory, or an empty one. */
  predicate NothingBelow(nodes: seq<Node>, d: nat, name: string)
    requires IsDirNode(nodes, d)
  {
    name in Children(nodes[d]) && Children(nodes[d])[name] < |nodes| ==>
      Children(nodes[Children(nodes[d])[name]]) == map[]
  }

  /** Changing one name changes one path. */
  lemma {:induction false} LookupRename(nodes: seq<Node>, p: Path, d: nat, name: string, c: nat, q: Path)
    requires TreeOk(nodes) && Lookup(nodes, p) == Some(d) && IsDirNode(nodes, d) && c < |nodes| && c != d
    requires Children(nodes[c]) == map[] && NothingBelow(nodes, d, name)
    ensures Lookup(Rename(nodes, d, name, c), q) == if q == p + [name] then Some(c) else Lookup(nodes, q)
    decreases |q|
  {
    if q != [] {
      LookupRename(nodes, p, d, name, c, q[..|q| - 1]);
      if q[..|q| - 1] == p + [name] {
        RenamedIsEmpty(nodes, p, d, name, c, q);
      } else {
        RenamedOnce(nodes, p, d, name, c, q);
      }
    }
  }

  /** Nothing is below the new name, as nothing was below the old one. */
  lemma {:induction false} RenamedIsEmpty(nodes: seq<Node>, p: Path, d: nat, name: string, c: nat, q: Path)
    requires TreeOk(nodes) && Lookup(nodes, p) == Some(d) && IsDirNode(nodes, d) && c < |nodes| && c != d
    requires Children(nodes[c]) == map[] && NothingBelow(nodes, d, name)
    requires q != [] && q[..|q| - 1] == p + [name] && Lookup(Rename(nodes, d, name, c), q[..|q| - 1]) == Some(c)
    ensures Lookup(Rename(nodes, d, name, c), q) == None == Lookup(nodes, q)
  {
    assert (p + [name])[..|p|] == p;
    if name in Children(nodes[d]) { assert EdgeOk(nodes, d, name); }
  }

  /** Elsewhere, names lead where they did: only `p` leads to `d`. */
  lemma {:induction false} RenamedOnce(nodes: seq<Node>, p: Path, d: nat, name: string, c: nat, q: Path)
    requires TreeOk(nodes) && Lookup(nodes, p) == Some(d) && IsDirNode(nodes, d) && c < |nodes| && c != d
    requires q != [] && q[..|q| - 1] != p + [name]
      && Lookup(Rename(nodes, d, name, c), q[..|q| - 1]) == Lookup(nodes, q[..|q| - 1])
    ensures Lookup(Rename(nodes, d, name, c), q) == if q == p + [name] then Some(c) else Lookup(nodes, q)
  {
    var pre, last := q[..|q| - 1], q[|q| - 1];
    assert q == pre + [last] && (p + [name])[..|p|] == p;
    if Lookup(nodes, pre).Some? {
      LookupKnown(nodes, pre);
      if Lookup(nodes, pre) == Some(d) { OnePath(nodes, p, pre); }
    }
  }

  // ---- the tree's shape ---------------------------------------------------------------------------------

  /** The same children and types everywhere: metadata changed, or nodes nobody names added. */
  lemma {:induction false} ShapeSame(nodes: seq<Node>, nodes': seq<Node>)
    requires TreeOk(nodes) && |nodes| <= |nodes'|
    requires forall k :: 0 <= k < |nodes| ==>
      Children(nodes'[k]) == Children(nodes[k]) && nodes'[k].parent == nodes[k].parent
    requires forall k :: 0 <= k < |nodes| ==> (nodes'[k].content.Directory? <==> nodes[k].content.Directory?)
    requires forall k :: 0 <= k < |nodes'| ==> (nodes'[k].content.Directory? <==> KindOf(nodes'[k].mode) == DIR)
    requires forall k :: |nodes| <= k < |nodes'| ==> Children(nodes'[k]) == map[]
    ensures TreeOk(nodes')
  {
    forall k | 0 <= k < |nodes'| ensures NodeOk(nodes', k) {
      if 0 < k < |nodes| && Children(nodes[k]) != map[] {
        assert NodeOk(nodes, k);
        var name :| Edge(nodes, nodes[k].parent, name, k);
        assert Edge(nodes', nodes'[k].parent, name, k);
      }
    }
    forall d, name | 0 <= d < |nodes'| && name in Children(nodes'[d]) ensures EdgeOk(nodes', d, name) {
      assert EdgeOk(nodes, d, name);
    }
  }

  /** A name given to a file, or to a directory nothing names yet. */
  lemma {:induction false} RenameShape(nodes: seq<Node>, d: nat, name: string, c: nat)
    requires TreeOk(nodes) && IsDirNode(nodes, d) && 0 < c < |nodes| && c != d && Children(nodes[c]) == map[]
      && NothingBelow(nodes, d, name)
    requires (0 < d ==> exists n :: Edge(nodes, nodes[d].parent, n, d))
    requires IsDirNode(nodes, c) ==> d < c && nodes[c].parent == d && forall e,
      n :: 0 <= e < |nodes| && n in Children(nodes[e]) ==> Children(nodes[e])[n] != c
    ensures TreeOk(Rename(nodes, d, name, c))
  {
    var nodes' := Rename(nodes, d, name, c);
    forall k | 0 <= k < |nodes'| ensures NodeOk(nodes', k) {
      assert NodeOk(nodes, k);
      if 0 < k && Children(nodes'[k]) != map[] {
        var n :| Edge(nodes, nodes[k].parent, n, k);
        assert Edge(nodes', nodes'[k].parent, n, k);
      }
    }
    forall e, n | 0 <= e < |nodes'| && n in Children(nodes'[e]) ensures EdgeOk(nodes', e, n) {
      if e != d || n != name { assert EdgeOk(nodes, e, n); }
    }
  }

  /** A directory that is found has its place. */
  lemma {:induction false} FoundHasEdge(nodes: seq<Node>, p: Path)
    requires TreeOk(nodes) && Lookup(nodes, p).Some? && p != [] && IsDirNode(nodes, Lookup(nodes, p).value)
    ensures var d := Lookup(nodes, p).value; exists n :: Edge(nodes, nodes[d].parent, n, d)
  {
    var e := Lookup(nodes, p[..|p| - 1]).value;
    LookupKnown(nodes, p);
    LookupKnown(nodes, p[..|p| - 1]);
    assert EdgeOk(nodes, e, p[|p| - 1]);
    assert Edge(nodes, e, p[|p| - 1], Lookup(nodes, p).value);
  }

  // ---- against the meaning ------------------------------------------------------------------------------

  /** A path to something new, or to a file that is there. */
  lemma {:induction false} RefinesRename(nodes: seq<Node>, fs: Flat, p: Path, d: nat, name: string, c: nat)
    requires TreeOk(nodes) && Refines(nodes, fs) && Lookup(nodes, p) == Some(d) && IsDirNode(nodes, d)
    requires 0 < c < |nodes| && c != d && Children(nodes[c]) == map[] && NothingBelow(nodes, d, name)
    requires IsDirNode(nodes, c) ==> d < c && nodes[c].parent == d && forall e,
      n :: 0 <= e < |nodes| && n in Children(nodes[e]) ==> Children(nodes[e])[n] != c
    ensures TreeOk(Rename(nodes, d, name, c))
    ensures Refines(Rename(nodes, d, name, c), fs.(names := fs.names[p + [name] := c]))
  {
    if p != [] { FoundHasEdge(nodes, p); } else { assert d == 0; }
    RenameShape(nodes, d, name, c);
    var nodes', fs' := Rename(nodes, d, name, c), fs.(names := fs.names[p + [name] := c]);
    forall q: Path ensures Agree(nodes', fs', q) {
      assert Agree(nodes, fs, q);
      LookupRename(nodes, p, d, name, c, q);
    }
  }

  /** A node added that nothing names yet. */
  lemma {:induction false} RefinesPush(nodes: seq<Node>, fs: Flat, n: Node, i: Inode)
    requires TreeOk(nodes) && Refines(nodes, fs) && Matches(n, i) && Children(n) == map[]
    requires n.content.Directory? <==> KindOf(n.mode) == DIR
    ensures TreeOk(nodes + [n]) && Refines(nodes + [n], fs.(inodes := fs.inodes + [i]))
    ensures forall e, m :: 0 <= e < |nodes| + 1 && m in Children((nodes + [n])[e]) ==>
      Children((nodes + [n])[e])[m] != |nodes|
    ensures forall q: Path :: Lookup(nodes + [n], q) == Lookup(nodes, q)
  {
    forall k | 0 <= k < |nodes| ensures nodes[k].content.Directory? <==> KindOf(nodes[k].mode) == DIR {
      assert NodeOk(nodes, k);
    }
    ShapeSame(nodes, nodes + [n]);
    forall q: Path ensures Lookup(nodes + [n], q) == Lookup(nodes, q)
      && Agree(nodes + [n], fs.(inodes := fs.inodes + [i]), q) {
      assert Agree(nodes, fs, q);
      LookupSame(nodes, nodes + [n], q);
    }
    forall e, m | 0 <= e < |nodes| + 1 && m in Children((nodes + [n])[e])
      ensures Children((nodes + [n])[e])[m] != |nodes| {
      assert EdgeOk(nodes, e, m);
    }
  }

  /** A node's own data changed, its children not. */
  lemma {:induction false} RefinesUpdate(nodes: seq<Node>, fs: Flat, k: nat, n: Node, i: Inode)
    requires TreeOk(nodes) && Refines(nodes, fs) && k < |nodes| && Matches(n, i)
    requires Children(n) == Children(nodes[k]) && n.parent == nodes[k].parent
      && (n.content.Directory? <==> nodes[k].content.Directory?)
    requires n.content.Directory? <==> KindOf(n.mode) == DIR
    ensures TreeOk(nodes[k := n]) && Refines(nodes[k := n], fs.(inodes := fs.inodes[k := i]))
  {
    forall j | 0 <= j < |nodes| ensures nodes[j].content.Directory? <==> KindOf(nodes[j].mode) == DIR {
      assert NodeOk(nodes, j);
    }
    ShapeSame(nodes, nodes[k := n]);
    var nodes', fs' := nodes[k := n], fs.(inodes := fs.inodes[k := i]);
    forall q: Path ensures Agree(nodes', fs', q) {
      assert Agree(nodes, fs, q);
      LookupSame(nodes, nodes', q);
    }
  }

  /** A new node under a new name: what Named says. */
  lemma {:induction false} RefinesNamed(nodes: seq<Node>, fs: Flat, p: Path, d: nat, name: string, n: Node, i: Inode)
    requires TreeOk(nodes) && Refines(nodes, fs) && Lookup(nodes, p) == Some(d) && IsDirNode(nodes, d)
      && NothingBelow(nodes, d, name)
    requires Matches(n, i) && Children(n) == map[] && (n.content.Directory? <==> KindOf(n.mode) == DIR) && n.parent == d
    ensures IsDirNode(nodes + [n], d) && TreeOk(Rename(nodes + [n], d, name, |nodes|))
    ensures Refines(Rename(nodes + [n], d, name, |nodes|), Named(fs, p + [name], i))
    ensures Lookup(Rename(nodes + [n], d, name, |nodes|), p + [name]) == Some(|nodes|)
  {
    RefinesPush(nodes, fs, n, i);
    LookupKnown(nodes, p);
    if name in Children(nodes[d]) { assert EdgeOk(nodes, d, name); }
    RefinesRename(nodes + [n], fs.(inodes := fs.inodes + [i]), p, d, name, |nodes|);
    LookupRename(nodes + [n], p, d, name, |nodes|, p + [name]);
  }

  /** What is a directory to the tree is one to the paths, and empty to one if empty to the other. */
  lemma {:induction false} DirAgrees(nodes: seq<Node>, fs: Flat, p: Path, d: nat, name: string)
    requires TreeOk(nodes) && Refines(nodes, fs) && Lookup(nodes, p) == Some(d) && IsDirNode(nodes, d)
    ensures name in Children(nodes[d]) <==> p + [name] in fs.names
    ensures name in Children(nodes[d]) ==>
      var c := Children(nodes[d])[name];
      && 0 < c < |nodes| && c != d && fs.names[p + [name]] == c && KnownAt(fs, p + [name])
      && (IsDirNode(nodes, c) <==> IsDirAt(fs, p + [name]))
      && (IsDirNode(nodes, c) ==> (Children(nodes[c]) == map[] <==> IsEmptyAt(fs, p + [name])))
  {
    var q := p + [name];
    assert q[..|q| - 1] == p;
    assert Agree(nodes, fs, q);
    if name in Children(nodes[d]) {
      var c := Children(nodes[d])[name];
      assert EdgeOk(nodes, d, name) && NodeOk(nodes, c);
      if IsDirNode(nodes, c) { EmptyAgrees(nodes, fs, q, c); }
    }
  }

  lemma {:induction false} EmptyAgrees(nodes: seq<Node>, fs: Flat, q: Path, c: nat)
    requires TreeOk(nodes) && Refines(nodes, fs) && Lookup(nodes, q) == Some(c) && IsDirNode(nodes, c)
    ensures Children(nodes[c]) == map[] <==> IsEmptyAt(fs, q)
  {
    if Children(nodes[c]) == map[] {
      forall r | r in fs.names ensures !Below(q, r) { if Below(q, r) { NothingUnder(nodes, fs, q, r); } }
    } else {
      var n :| n in Children(nodes[c]);
      var r := q + [n];
      assert r[..|r| - 1] == q && r[|r| - 1] == n;
      assert Agree(nodes, fs, r);
      assert r[..|q|] == q && Below(q, r);
    }
  }

  /** No path goes through an empty directory. */
  lemma {:induction false} NothingUnder(nodes: seq<Node>, fs: Flat, q: Path, r: Path)
    requires TreeOk(nodes) && Refines(nodes, fs) && Lookup(nodes, q).Some? && Lookup(nodes, q).value < |nodes|
    requires Children(nodes[Lookup(nodes, q).value]) == map[] && Below(q, r)
    ensures r !in fs.names
    decreases |r|
  {
    assert Agree(nodes, fs, r);
    if |r| > |q| + 1 {
      var pre := r[..|r| - 1];
      assert pre[..|q|] == q;
      NothingUnder(nodes, fs, q, pre);
      assert Agree(nodes, fs, pre);
    } else {
      assert r[..|r| - 1] == q;
    }
  }
}
