/** Merging archives into the tree, in place, against unpacking them. */
module ImageTreeBuild {
  import opened ImageTree
  import opened ImageTreeProofs

  class Tree {
    var nodes: seq<Node>
    /** What unpacking the same entries would have left. */
    ghost var fs: Flat

    ghost predicate Valid()
      reads this
    {
      TreeOk(nodes) && Refines(nodes, fs)
    }

    constructor ()
      ensures Valid() && fs == Flat(map[[] := 0], [Inode(DirMode(0x1ED), 0, 0, 0, 0, 0, DirData)])
    {
      nodes := [DirNode(0, 0x1ED, 0)];
      fs := Flat(map[[] := 0], [Inode(DirMode(0x1ED), 0, 0, 0, 0, 0, DirData)]);
      new;
      forall q: Path ensures Agree(nodes, fs, q) { LookupRootOnly(nodes, q); }
    }

    /** A new node under `name` in directory `parent`. */
    method AddNode(ghost p: Path, parent: nat, name: string, n: Node, ghost i: Inode) returns (id: nat)
      requires Valid() && Lookup(nodes, p) == Some(parent) && IsDirNode(nodes, parent)
        && NothingBelow(nodes, parent, name)
      requires Matches(n, i) && Children(n) == map[] && (n.content.Directory? <==> KindOf(n.mode) == DIR)
        && n.parent == parent
      modifies this
      ensures Valid() && fs == Named(old(fs), p + [name], i) && id == |old(nodes)| && id < |nodes| && nodes[id] == n
      ensures Lookup(nodes, p + [name]) == Some(id)
      ensures |nodes| > |old(nodes)| && forall k :: 0 <= k < |old(nodes)| && !old(nodes)[k].content.Directory? ==>
        nodes[k] == old(nodes)[k]
    {
      RefinesNamed(nodes, fs, p, parent, name, n, i);
      id := |nodes|;
      nodes := nodes + [n];
      nodes := nodes[parent := nodes[parent].(content := Directory(nodes[parent].content.children[name := id]))];
      fs := Named(fs, p + [name], i);
    }

    /** The directory at `path`, made where it is missing; None, and nothing made, if something else is in the way. */
    method DirectoryAt(path: Path, mtime: nat) returns (r: Option<nat>)
      requires Valid()
      modifies this
      ensures Valid()
      ensures match MadeDirs(old(fs), path, mtime, |path|)
        case None => r == None && fs == old(fs) && nodes == old(nodes)
        case Some(f) => r.Some? && fs == f && Lookup(nodes, path) == r && IsDirNode(nodes, r.value)
    {
      var id := 0;
      for k := 0 to |path|
        invariant Valid() && MadeDirs(old(fs), path, mtime, k) == Some(fs)
        invariant Lookup(nodes, path[..k]) == Some(id) && IsDirNode(nodes, id)
        // once a directory was made, what is below it is made too
        invariant (fs == old(fs) && nodes == old(nodes)) || Children(nodes[id]) == map[]
      {
        var name := path[k];
        assert path[..k + 1] == path[..k] + [name];
        DirAgrees(nodes, fs, path[..k], id, name);
        if name in Children(nodes[id]) {
          var child := Children(nodes[id])[name];
          if KindOf(nodes[child].mode) != DIR {
            assert NodeOk(nodes, child);
            Blocked(old(fs), path, mtime, k + 1, |path|);
            return None;
          }
          assert NodeOk(nodes, child);
          assert Agree(nodes, fs, path[..k + 1]);
          id := child;
        } else {
          id := AddNode(path[..k], id, name, DirNode(id, 0x1ED, mtime), NewDir(0x1ED, 0, 0, mtime));
        }
      }
      assert path[..|path|] == path;
      r := Some(id);
    }

    /** One entry, its path known; None when the archive cannot be served. */
    method AddAt(path: Path, e: Entry, source: nat, links: Links) returns (r: Option<Links>)
      requires Valid() && path != [] && PathOf(e) == Some(path) && LinksOk(nodes, links)
      modifies this
      ensures Valid()
      ensures r.Some? ==> LinksOk(nodes, r.value)
      ensures match Unpack(Unpacked(old(fs), links), e, source)
        case None => r == None
        case Some(u) => r == Some(u.links) && fs == u.fs
    {
      var name, parents := path[|path| - 1], path[..|path| - 1];
      assert path == parents + [name];
      MadeSame(fs, path, e.mtime, |path| - 1);
      ghost var nodes0 := nodes;
      var at := DirectoryAt(parents, e.mtime);
      if at.None? { return Some(links); }
      var parent := at.value;
      MadeGrows(old(fs), parents, e.mtime, |parents|);
      LinksStay(nodes0, nodes, links, old(fs), fs);
      DirAgrees(nodes, fs, parents, parent, name);
      if KindOf(e.mode) == DIR {
        AddDir(parents, parent, name, e);
        return Some(links);
      }
      r := AddOther(parents, parent, name, e, source, links);
    }

    /** A directory entry. */
    method AddDir(ghost p: Path, parent: nat, name: string, e: Entry)
      requires Valid() && Lookup(nodes, p) == Some(parent) && IsDirNode(nodes, parent) && KindOf(e.mode) == DIR
      modifies this
      ensures Valid() && fs == UnpackDir(old(fs), p + [name], e)
      ensures |nodes| >= |old(nodes)| && forall k :: 0 <= k < |old(nodes)| && !old(nodes)[k].content.Directory? ==>
        nodes[k] == old(nodes)[k]
    {
      DirAgrees(nodes, fs, p, parent, name);
      if name in Children(nodes[parent]) && KindOf(nodes[Children(nodes[parent])[name]].mode) == DIR {
        var id := Children(nodes[parent])[name];
        assert NodeOk(nodes, id);
        var n := nodes[id].(mode := e.mode, uid := e.uid, gid := e.gid, mtime := e.mtime);
        ghost var i := fs.inodes[id].(mode := e.mode, uid := e.uid, gid := e.gid, mtime := e.mtime);
        RefinesUpdate(nodes, fs, id, n, i);
        nodes, fs := nodes[id := n], fs.(inodes := fs.inodes[id := i]);
      } else {
        if name in Children(nodes[parent]) { assert NodeOk(nodes, Children(nodes[parent])[name]); }
        var n := DirNode(parent, e.mode, e.mtime).(uid := e.uid, gid := e.gid);
        var _ := AddNode(p, parent, name, n, NewDir(e.mode, e.uid, e.gid, e.mtime));
      }
    }

    /** A file, a link or a device. */
    method AddOther(ghost p: Path, parent: nat, name: string, e: Entry, source: nat, links: Links)
        returns (r: Option<Links>)
      requires Valid() && Lookup(nodes, p) == Some(parent) && IsDirNode(nodes, parent) && KindOf(e.mode) != DIR
        && LinksOk(nodes, links)
      modifies this
      ensures Valid()
      ensures r.Some? ==> LinksOk(nodes, r.value)
      ensures var q, kind, data := p + [name], KindOf(e.mode), DataOf(e, source);
        if Stays(old(fs), q, kind) then r == Some(links) && fs == old(fs)
        else if kind == LNK && e.target.None? then r == None
        else if data.None? then r == Some(links) && fs == old(fs)
        else r.Some? && Unpacked(fs, r.value) == UnpackFile(old(fs), links, q, e, data.value)
    {
      var kind := KindOf(e.mode);
      DirAgrees(nodes, fs, p, parent, name);
      if name in Children(nodes[parent]) {
        var id := Children(nodes[parent])[name];
        assert NodeOk(nodes, id) && Matches(nodes[id], fs.inodes[id]);
        if KindOf(nodes[id].mode) == DIR && Children(nodes[id]) != map[] { return Some(links); }
        if KindOf(nodes[id].mode) == kind && kind != REG { return Some(links); }
      }
      var content;
      if kind == REG {
        content := File(source, e.offset);
      } else if kind == LNK {
        if e.target.None? { return None; }
        content := Symlink(e.target.value);
      } else if IsSpecial(kind) {
        content := Special;
      } else {
        return Some(links);
      }
      r := Place(p, parent, name, e, content, DataOf(e, source).value, links);
    }

    /** The last part: another name for a file of this archive, or a node of its own. */
    method Place(ghost p: Path, parent: nat, name: string, e: Entry, content: Content, ghost data: Data, links: Links)
        returns (r: Option<Links>)
      requires Valid() && Lookup(nodes, p) == Some(parent) && IsDirNode(nodes, parent)
        && NothingBelow(nodes, parent, name) && LinksOk(nodes, links)
      requires KindOf(e.mode) != DIR && !content.Directory? && (content.File? <==> KindOf(e.mode) == REG)
      requires match content
        case Directory(_) => false
        case File(s, o) => data == FileData(s, o)
        case Symlink(t) => data == LinkData(t)
        case Special => data == SpecialData
      modifies this
      ensures Valid()
      ensures r.Some? && LinksOk(nodes, r.value)
        && Unpacked(fs, r.value) == UnpackFile(old(fs), links, p + [name], e, data)
    {
      var kind, key := KindOf(e.mode), (e.ino, e.dev);
      if kind == REG && e.nlink > 1 && key in links {
        if e.size > 0 { SetData(p, parent, name, links[key], e.size, content, data); }
        NameFile(p, parent, name, links[key]);
        return Some(links);
      }
      var size := if kind == REG || kind == LNK then e.size else 0;
      var rdev := if content.Special? then e.rdev else 0;
      var n := Node(e.mode, e.uid, e.gid, rdev, e.mtime, size, 1, parent, content);
      var id := AddNode(p, parent, name, n, Inode(e.mode, e.uid, e.gid, rdev, e.mtime, size, data));
      r := Some(if kind == REG && e.nlink > 1 then links[key := id] else links);
    }

    /** The data of a file with several names comes with one of them. */
    method SetData(ghost p: Path, ghost parent: nat, ghost name: string, id: nat, size: nat, content: Content,
        ghost data: Data)
      requires Valid() && Lookup(nodes, p) == Some(parent) && IsDirNode(nodes, parent)
        && NothingBelow(nodes, parent, name)
      requires id < |nodes| && nodes[id].content.File? && content.File?
        && data == FileData(content.source, content.offset)
      modifies this
      ensures Valid() && fs == old(fs).(inodes := old(fs).inodes[id := old(fs).inodes[id].(size := size, data := data)])
      ensures |nodes| == |old(nodes)| && nodes[id].content.File?
        && forall k :: 0 <= k < |nodes| && k != id ==> nodes[k] == old(nodes)[k]
      ensures Lookup(nodes, p) == Some(parent) && IsDirNode(nodes, parent) && NothingBelow(nodes, parent, name)
    {
      var n := nodes[id].(size := size, content := content);
      ghost var i := fs.inodes[id].(size := size, data := data);
      assert Matches(nodes[id], fs.inodes[id]) && NodeOk(nodes, id);
      RefinesUpdate(nodes, fs, id, n, i);
      LookupSame(nodes, nodes[id := n], p);
      nodes, fs := nodes[id := n], fs.(inodes := fs.inodes[id := i]);
    }

    /** Another name for a file. */
    method NameFile(ghost p: Path, parent: nat, name: string, id: nat)
      requires Valid() && Lookup(nodes, p) == Some(parent) && IsDirNode(nodes, parent)
        && NothingBelow(nodes, parent, name)
      requires 0 < id < |nodes| && nodes[id].content.File?
      modifies this
      ensures Valid() && fs == old(fs).(names := old(fs).names[p + [name] := id])
      ensures |nodes| == |old(nodes)| && forall k :: 0 <= k < |nodes| && k != parent ==> nodes[k] == old(nodes)[k]
      ensures IsDirNode(nodes, parent)
    {
      RefinesRename(nodes, fs, p, parent, name, id);
      nodes := Rename(nodes, parent, name, id);
      fs := fs.(names := fs.names[p + [name] := id]);
    }

    /** The root's own entry gives it a mode. */
    method SetRoot(mode: nat)
      requires Valid() && KindOf(mode) == DIR
      modifies this
      ensures Valid() && fs == old(fs).(inodes := old(fs).inodes[0 := old(fs).inodes[0].(mode := mode)])
      ensures |nodes| == |old(nodes)| && forall k :: 0 <= k < |nodes| ==> nodes[k].content == old(nodes)[k].content
    {
      var root := nodes[0].(mode := mode);
      ghost var i := fs.inodes[0].(mode := mode);
      RefinesUpdate(nodes, fs, 0, root, i);
      nodes, fs := nodes[0 := root], fs.(inodes := fs.inodes[0 := i]);
    }

    /** One entry; None when the archive cannot be served. */
    method AddEntry(e: Entry, source: nat, links: Links) returns (r: Option<Links>)
      requires Valid() && LinksOk(nodes, links)
      modifies this
      ensures Valid()
      ensures r.Some? ==> LinksOk(nodes, r.value)
      ensures match Unpack(Unpacked(old(fs), links), e, source)
        case None => r == None
        case Some(u) => r == Some(u.links) && fs == u.fs
    {
      var path := PathOf(e);
      if path.None? { return None; }
      if path.value == [] {
        if KindOf(e.mode) == DIR { SetRoot(DirMode(e.mode)); }
        return Some(links);
      }
      r := AddAt(path.value, e, source, links);
    }

    /** Adds one archive's entries, in order. What is left is what unpacking them leaves. */
    method Add(es: seq<Entry>, source: nat) returns (ok: bool)
      requires Valid()
      modifies this
      ensures Valid()
      ensures match UnpackAll(old(fs), es, source, |es|)
        case None => !ok
        case Some(u) => ok && fs == u.fs
    {
      var links: Links := map[];
      for n := 0 to |es|
        invariant Valid() && LinksOk(nodes, links) && UnpackAll(old(fs), es, source, n) == Some(Unpacked(fs, links))
      {
        ghost var was := Unpacked(fs, links);
        var r := AddEntry(es[n], source, links);
        UnpackNext(old(fs), es, source, n, was);
        if r.None? {
          UnpackFails(old(fs), es, source, n + 1, |es|);
          return false;
        }
        links := r.value;
      }
      ok := true;
    }
  }

  /** What an archive's hard links are to: files. */
  ghost predicate LinksOk(nodes: seq<Node>, links: Links) {
    forall key :: key in links ==> 0 < links[key] < |nodes| && nodes[links[key]].content.File?
  }

  lemma {:induction false} LookupRootOnly(nodes: seq<Node>, q: Path)
    requires |nodes| == 1 && Children(nodes[0]) == map[]
    ensures Lookup(nodes, q) == if q == [] then Some(0) else None
    decreases |q|
  {
    if q != [] { LookupRootOnly(nodes, q[..|q| - 1]); }
  }

  lemma {:induction false} Blocked(fs: Flat, path: Path, mtime: nat, k: nat, n: nat)
    requires k <= n <= |path| && MadeDirs(fs, path, mtime, k).None?
    ensures MadeDirs(fs, path, mtime, n).None?
    decreases n
  {
    if k < n { Blocked(fs, path, mtime, k, n - 1); }
  }

  /** The directories on the way do not depend on what they lead to. */
  lemma {:induction false} MadeSame(fs: Flat, path: Path, mtime: nat, k: nat)
    requires k < |path|
    ensures MadeDirs(fs, path[..|path| - 1], mtime, k) == MadeDirs(fs, path, mtime, k)
    decreases k
  {
    if k > 0 {
      MadeSame(fs, path, mtime, k - 1);
      assert path[..|path| - 1][..k] == path[..k];
    }
  }

  lemma {:induction false} MadeGrows(fs: Flat, path: Path, mtime: nat, k: nat)
    requires k <= |path| && MadeDirs(fs, path, mtime, k).Some?
    ensures fs.inodes <= MadeDirs(fs, path, mtime, k).value.inodes
    decreases k
  {
    if k > 0 { MadeGrows(fs, path, mtime, k - 1); }
  }

  lemma {:induction false} UnpackNext(fs: Flat, es: seq<Entry>, source: nat, n: nat, u: Unpacked)
    requires n < |es| && UnpackAll(fs, es, source, n) == Some(u)
    ensures UnpackAll(fs, es, source, n + 1) == Unpack(u, es[n], source)
  {
  }

  lemma {:induction false} UnpackFails(fs: Flat, es: seq<Entry>, source: nat, k: nat, n: nat)
    requires k <= n <= |es| && UnpackAll(fs, es, source, k).None?
    ensures UnpackAll(fs, es, source, n).None?
    decreases n
  {
    if k < n { UnpackFails(fs, es, source, k, n - 1); }
  }

  lemma {:induction false} LinksStay(nodes: seq<Node>, nodes': seq<Node>, links: Links, fs: Flat, fs': Flat)
    requires LinksOk(nodes, links) && Refines(nodes, fs) && Refines(nodes', fs') && fs.inodes <= fs'.inodes
    ensures LinksOk(nodes', links)
  {
    forall key | key in links ensures 0 < links[key] < |nodes'| && nodes'[links[key]].content.File? {
      var k := links[key];
      assert Matches(nodes[k], fs.inodes[k]) && Matches(nodes'[k], fs'.inodes[k]);
    }
  }
}
