/**
 What unpacking an entry does to every path, said rule by rule (the comment at lines 14-19 of
 engine/src/image_fs.rs): a later file replaces an earlier one, a later directory merges into an earlier one, another
 type replaces what was there, a directory only when empty, and a link or device already there stays.
 */
module ImageTreeRules {
  import opened ImageTree
  import opened ImageTreeLinks

  // ---- names ----------------------------------------------------------------------------------------

  function Joined(ps: seq<string>): string
    requires |ps| > 0
  {
    if |ps| == 1 then ps[0] else ps[0] + "/" + Joined(ps[1..])
  }

  lemma {:induction false} SplitPart(p: string)
    requires '/' !in p
    ensures Split(p) == [p]
    decreases |p|
  {
    if p != "" {
      SplitPart(p[1..]);
      assert [p[0]] + p[1..] == p;
    }
  }

  lemma {:induction false} SplitAfter(p: string, rest: string)
    requires '/' !in p
    ensures Split(p + "/" + rest) == [p] + Split(rest)
    decreases |p|
  {
    var s := p + "/" + rest;
    if p == "" {
      assert s == "/" + rest && s[1..] == rest;
    } else {
      assert s[1..] == p[1..] + "/" + rest;
      SplitAfter(p[1..], rest);
      assert ([p[1..]] + Split(rest))[1..] == Split(rest) && [p[0]] + p[1..] == p;
    }
  }

  /** A name is split into the parts it was joined from. */
  lemma {:induction false} SplitBack(ps: seq<string>)
    requires |ps| > 0 && forall i :: 0 <= i < |ps| ==> '/' !in ps[i]
    ensures Split(Joined(ps)) == ps
    decreases |ps|
  {
    if |ps| == 1 {
      SplitPart(ps[0]);
    } else {
      SplitBack(ps[1..]);
      SplitAfter(ps[0], Joined(ps[1..]));
      assert ps == [ps[0]] + ps[1..];
    }
  }

  /** The parts of a name that count. */
  function Counting(ps: seq<string>): Path {
    if ps == [] then [] else (if ps[0] == "" || ps[0] == "." then [] else [ps[0]]) + Counting(ps[1..])
  }

  /** A name stands for its parts but "" and ".", and for nothing if one of them is "..". */
  lemma {:induction false} NamesExactly(ps: seq<string>)
    ensures Parts(ps) == if ".." in ps then None else Some(Counting(ps))
    decreases |ps|
  {
    if ps != [] {
      NamesExactly(ps[1..]);
      assert ps == [ps[0]] + ps[1..];
      assert [] + Counting(ps[1..]) == Counting(ps[1..]);
    }
  }

  // ---- what every state keeps -----------------------------------------------------------------------

  ghost predicate FsOk(fs: Flat) {
    && [] in fs.names && fs.names[[]] == 0
    && (forall q :: q in fs.names ==> fs.names[q] < |fs.inodes|)
  }

  ghost predicate Ok(u: Unpacked) {
    FsOk(u.fs) && forall key :: key in u.links ==> u.links[key] < |u.fs.inodes|
  }

  /** `q` is the path of one of the first `k` directories on the way. */
  predicate OnTheWay(q: Path, path: Path, k: nat)
    requires k <= |path|
  {
    0 < |q| <= k && q == path[..|q|]
  }

  /** Nothing but directories on the way. */
  ghost predicate WayOpen(fs: Flat, path: Path, k: nat)
    requires k <= |path|
  {
    forall q :: q in fs.names && OnTheWay(q, path, k) ==> IsDirAt(fs, q)
  }

  /** What is there, named as before and unchanged. */
  ghost predicate Kept(was: Flat, now: Flat) {
    && was.inodes <= now.inodes
    && forall q :: q in was.names ==> q in now.names && now.names[q] == was.names[q]
  }

  /** The inode a missing directory is made with: 0755, root's, with the entry's time. */
  function Made(mtime: nat): Inode { Inode(0x41ED, 0, 0, 0, mtime, 0, DirData) }

  /** Directories on the way are made where they are missing, exactly if nothing is in the way. */
  lemma {:induction false} WayMade(fs: Flat, path: Path, mtime: nat, k: nat)
    requires FsOk(fs) && k <= |path|
    ensures MadeDirs(fs, path, mtime, k).Some? <==> WayOpen(fs, path, k)
    ensures WayOpen(fs, path, k) ==>
      var f := MadeDirs(fs, path, mtime, k).value;
      && FsOk(f) && Kept(fs, f)
      && (forall q :: q in f.names <==> q in fs.names || OnTheWay(q, path, k))
      && (forall q :: q in f.names && q !in fs.names ==>
         f.inodes[f.names[q]] == Made(mtime) && f.names[q] >= |fs.inodes|)
    decreases k
  {
    if k > 0 {
      WayMade(fs, path, mtime, k - 1);
      var q := path[..k];
      assert forall r :: OnTheWay(r, path, k) <==> OnTheWay(r, path, k - 1) || r == q;
      if WayOpen(fs, path, k - 1) {
        var f := MadeDirs(fs, path, mtime, k - 1).value;
        assert q in f.names <==> q in fs.names;
        if q in fs.names { assert f.inodes[f.names[q]] == fs.inodes[fs.names[q]]; }
      }
    }
  }

  // ---- one entry ------------------------------------------------------------------------------------

  /** A directory with something in it. */
  ghost predicate FullDir(fs: Flat, q: Path) {
    IsDirAt(fs, q) && exists r :: r in fs.names && Below(q, r)
  }

  /** What is made on the way is no one's content: `path` is what it was. */
  lemma {:induction false} WayLeaves(fs: Flat, path: Path, mtime: nat, f: Flat)
    requires FsOk(fs) && path != [] && MadeDirs(fs, path, mtime, |path| - 1) == Some(f)
    ensures FsOk(f) && Kept(fs, f)
    ensures (path in f.names <==> path in fs.names) && (IsDirAt(f, path) <==> IsDirAt(fs, path))
    ensures FullDir(f, path) <==> FullDir(fs, path)
  {
    WayMade(fs, path, mtime, |path| - 1);
    if FullDir(f, path) {
      var r :| r in f.names && Below(path, r);
      assert r in fs.names;
    }
    if FullDir(fs, path) {
      var r :| r in fs.names && Below(path, r);
      assert r in f.names;
    }
  }

  /** The entry's path, and the state it is unpacked in, its way open. */
  ghost predicate Reaches(u: Unpacked, e: Entry, path: Path) {
    Ok(u) && PathOf(e) == Some(path) && path != [] && WayOpen(u.fs, path, |path| - 1)
  }

  /** The state with the way made, in which the entry then does its own. */
  lemma {:induction false} OnTheSpot(u: Unpacked, e: Entry, source: nat, path: Path) returns (f: Flat)
    requires Reaches(u, e, path)
    ensures FsOk(f) && Kept(u.fs, f) && Unpack(u, e, source) == UnpackAt(f, u.links, path, e, source)
    ensures (path in f.names <==> path in u.fs.names) && (IsDirAt(f, path) <==> IsDirAt(u.fs, path))
    ensures FullDir(f, path) <==> FullDir(u.fs, path)
    ensures forall q :: q in f.names <==> q in u.fs.names || OnTheWay(q, path, |path| - 1)
  {
    WayMade(u.fs, path, e.mtime, |path| - 1);
    f := MadeDirs(u.fs, path, e.mtime, |path| - 1).value;
    WayLeaves(u.fs, path, e.mtime, f);
  }

  /** What stays, in these words. */
  lemma {:induction false} StaysExactly(fs: Flat, path: Path, kind: nat)
    requires FsOk(fs)
    ensures Stays(fs, path, kind) <==>
      path in fs.names && (FullDir(fs, path) || (KindOf(fs.inodes[fs.names[path]].mode) == kind && kind != REG))
  {
  }

  /** Another name of a file of the same archive. */
  predicate IsSecondName(links: Links, e: Entry) {
    KindOf(e.mode) == REG && e.nlink > 1 && (e.ino, e.dev) in links
  }

  /** After the entry, its path names an inode of its own, and that is it. */
  ghost predicate NamesNew(was: Flat, now: Flat, path: Path, inode: Inode) {
    path in now.names && |was.inodes| <= now.names[path] < |now.inodes| && now.inodes[now.names[path]] == inode
  }

  lemma {:induction false} NamesNewOn(was: Flat, f: Flat, now: Flat, path: Path, inode: Inode)
    requires Kept(was, f) && NamesNew(f, now, path, inode)
    ensures NamesNew(was, now, path, inode)
  {
  }

  /** A file, whatever file, link, device or empty directory was there: its data, and its mode, owner, time and size. */
  lemma {:induction false} FileReplaces(u: Unpacked, e: Entry, source: nat, path: Path)
    requires Reaches(u, e, path) && KindOf(e.mode) == REG && !FullDir(u.fs, path) && !IsSecondName(u.links, e)
    ensures var r := Unpack(u, e, source);
      && r.Some? && NamesNew(u.fs, r.value.fs, path, FileOf(e, source))
      && r.value.links == (if e.nlink > 1 then u.links[(e.ino, e.dev) := r.value.fs.names[path]] else u.links)
  {
    var f := OnTheSpot(u, e, source, path);
    FilePlaced(f, u.links, path, e, source);
    NamesNewOn(u.fs, f, Unpack(u, e, source).value.fs, path, FileOf(e, source));
  }

  /** The inode of a file entry. */
  function FileOf(e: Entry, source: nat): Inode {
    Inode(e.mode, e.uid, e.gid, 0, e.mtime, e.size, FileData(source, e.offset))
  }

  lemma {:induction false} FilePlaced(f: Flat, links: Links, path: Path, e: Entry, source: nat)
    requires FsOk(f) && KindOf(e.mode) == REG && !FullDir(f, path) && !IsSecondName(links, e)
    ensures var r := UnpackAt(f, links, path, e, source);
      && r.Some? && NamesNew(f, r.value.fs, path, FileOf(e, source))
      && r.value.links == (if e.nlink > 1 then links[(e.ino, e.dev) := r.value.fs.names[path]] else links)
  {
    StaysExactly(f, path, REG);
  }

  /** A second hard link is another name of the first one's file, which takes its data if it comes with some. */
  lemma {:induction false} LinkShares(u: Unpacked, e: Entry, source: nat, path: Path)
    requires Reaches(u, e, path) && !FullDir(u.fs, path) && IsSecondName(u.links, e)
    ensures var r, i := Unpack(u, e, source), u.links[(e.ino, e.dev)];
      && r.Some? && path in r.value.fs.names && r.value.fs.names[path] == i < |r.value.fs.inodes|
      && r.value.links == u.links
      && r.value.fs.inodes[i] == (if e.size > 0
           then u.fs.inodes[i].(size := e.size, data := FileData(source, e.offset)) else u.fs.inodes[i])
  {
    var f := OnTheSpot(u, e, source, path);
    LinkPlaced(f, u.links, path, e, source);
  }

  lemma {:induction false} LinkPlaced(f: Flat, links: Links, path: Path, e: Entry, source: nat)
    requires FsOk(f) && !FullDir(f, path) && IsSecondName(links, e) && links[(e.ino, e.dev)] < |f.inodes|
    ensures var r, i := UnpackAt(f, links, path, e, source), links[(e.ino, e.dev)];
      && r.Some? && r.value.links == links && r.value.fs.names == f.names[path := i]
      && r.value.fs.inodes == (if e.size > 0
           then f.inodes[i := f.inodes[i].(size := e.size, data := FileData(source, e.offset))] else f.inodes)
  {
    StaysExactly(f, path, REG);
  }

  /** A directory with something in it, and a link or device of the same type, stay as they are. */
  lemma {:induction false} OtherStays(u: Unpacked, e: Entry, source: nat, path: Path)
    requires Reaches(u, e, path) && KindOf(e.mode) != DIR && path in u.fs.names
    requires FullDir(u.fs, path)
      || (KindOf(e.mode) != REG && KindOf(u.fs.inodes[u.fs.names[path]].mode) == KindOf(e.mode))
    ensures var r := Unpack(u, e, source); r.Some? && Kept(u.fs, r.value.fs) && r.value.links == u.links
  {
    var f := OnTheSpot(u, e, source, path);
    assert f.inodes[f.names[path]] == u.fs.inodes[u.fs.names[path]];
    StaysExactly(f, path, KindOf(e.mode));
  }

  /** The inode of a link or device entry. */
  function OtherOf(e: Entry): Inode
    requires KindOf(e.mode) == LNK ==> e.target.Some?
  {
    if KindOf(e.mode) == LNK then Inode(e.mode, e.uid, e.gid, 0, e.mtime, e.size, LinkData(e.target.value))
    else Inode(e.mode, e.uid, e.gid, e.rdev, e.mtime, 0, SpecialData)
  }

  /** A link or device replaces anything of another type but a directory with something in it. */
  lemma {:induction false} OtherReplaces(u: Unpacked, e: Entry, source: nat, path: Path)
    requires Reaches(u, e, path) && !FullDir(u.fs, path)
    requires path in u.fs.names ==> KindOf(u.fs.inodes[u.fs.names[path]].mode) != KindOf(e.mode)
    requires (KindOf(e.mode) == LNK && e.target.Some?) || IsSpecial(KindOf(e.mode))
    ensures var r := Unpack(u, e, source);
      r.Some? && r.value.links == u.links && NamesNew(u.fs, r.value.fs, path, OtherOf(e))
  {
    var f := OnTheSpot(u, e, source, path);
    if path in f.names { assert f.inodes[f.names[path]] == u.fs.inodes[u.fs.names[path]]; }
    OtherPlaced(f, u.links, path, e, source);
    NamesNewOn(u.fs, f, Unpack(u, e, source).value.fs, path, OtherOf(e));
  }

  lemma {:induction false} OtherPlaced(f: Flat, links: Links, path: Path, e: Entry, source: nat)
    requires FsOk(f) && !FullDir(f, path)
    requires path in f.names ==> KindOf(f.inodes[f.names[path]].mode) != KindOf(e.mode)
    requires (KindOf(e.mode) == LNK && e.target.Some?) || IsSpecial(KindOf(e.mode))
    ensures var r := UnpackAt(f, links, path, e, source);
      r.Some? && r.value.links == links && NamesNew(f, r.value.fs, path, OtherOf(e))
  {
    StaysExactly(f, path, KindOf(e.mode));
  }

  /** A directory merges into one that is there, which takes its mode, owner and time; else it replaces what is. */
  lemma {:induction false} DirMerges(u: Unpacked, e: Entry, source: nat, path: Path)
    requires Reaches(u, e, path) && KindOf(e.mode) == DIR
    ensures var r := Unpack(u, e, source);
      && r.Some? && r.value.links == u.links && path in r.value.fs.names
      && if IsDirAt(u.fs, path) then
          && r.value.fs.names[path] == u.fs.names[path] < |r.value.fs.inodes|
          && r.value.fs.inodes[u.fs.names[path]] ==
             u.fs.inodes[u.fs.names[path]].(mode := e.mode, uid := e.uid, gid := e.gid, mtime := e.mtime)
        else NamesNew(u.fs, r.value.fs, path, Inode(0x4000 + e.mode % 4096, e.uid, e.gid, 0, e.mtime, 0, DirData))
  {
    var f := OnTheSpot(u, e, source, path);
    if IsDirAt(u.fs, path) { assert f.inodes[f.names[path]] == u.fs.inodes[u.fs.names[path]]; }
  }

  /** With something in the way of its parents, an entry does nothing. */
  lemma {:induction false} WayBlocked(u: Unpacked, e: Entry, source: nat, path: Path)
    requires Ok(u) && PathOf(e) == Some(path) && path != [] && !WayOpen(u.fs, path, |path| - 1)
    ensures Unpack(u, e, source) == Some(u)
  {
    WayMade(u.fs, path, e.mtime, |path| - 1);
  }

  /** An archive is refused for a name with "..", and for a link put somewhere whose target is no text. */
  lemma {:induction false} RefusedExactly(u: Unpacked, e: Entry, source: nat)
    requires Ok(u)
    ensures Unpack(u, e, source) == None <==>
      || PathOf(e) == None
      || (Reaches(u, e, PathOf(e).value) && KindOf(e.mode) == LNK && e.target.None?
          && !FullDir(u.fs, PathOf(e).value)
          && !(PathOf(e).value in u.fs.names && KindOf(u.fs.inodes[u.fs.names[PathOf(e).value]].mode) == LNK))
  {
    if PathOf(e).Some? && PathOf(e).value != [] {
      var path := PathOf(e).value;
      if WayOpen(u.fs, path, |path| - 1) {
        var f := OnTheSpot(u, e, source, path);
        if path in f.names { assert f.inodes[f.names[path]] == u.fs.inodes[u.fs.names[path]]; }
        StaysExactly(f, path, KindOf(e.mode));
      } else {
        WayBlocked(u, e, source, path);
      }
    }
  }

  /** The archive's root: its mode, if it is said to be a directory, and nothing else. */
  lemma {:induction false} RootTakesMode(u: Unpacked, e: Entry, source: nat)
    requires Ok(u) && PathOf(e) == Some([])
    ensures var r := Unpack(u, e, source);
      && r.Some? && r.value.links == u.links && r.value.fs.names == u.fs.names
      && |r.value.fs.inodes| == |u.fs.inodes| && r.value.fs.inodes[1..] == u.fs.inodes[1..]
      && r.value.fs.inodes[0] == (if KindOf(e.mode) == DIR then u.fs.inodes[0].(mode := 0x4000 + e.mode % 4096)
           else u.fs.inodes[0])
  {
  }

  /** What changes and what does not: only the entry's path may be named anew, and only what it names then changes. */
  ghost predicate OnlyAt(u: Unpacked, u': Unpacked, path: Path) {
    && Ok(u') && |u.fs.inodes| <= |u'.fs.inodes|
    && (forall q :: q in u.fs.names && q != path ==> q in u'.fs.names && u'.fs.names[q] == u.fs.names[q])
    && (forall q :: q in u'.fs.names && q !in u.fs.names ==> q == path || (path != [] && OnTheWay(q, path, |path| - 1)))
    && (forall i :: 0 <= i < |u.fs.inodes| && !(path in u'.fs.names && u'.fs.names[path] == i) ==>
         u'.fs.inodes[i] == u.fs.inodes[i])
    && (path in u.fs.names ==> path in u'.fs.names)
  }

  /** The same of the entry on the spot. */
  ghost predicate OnlyHere(f: Flat, links: Links, u': Unpacked, path: Path) {
    && Ok(u') && |f.inodes| <= |u'.fs.inodes|
    && (forall q :: q != path ==> (q in u'.fs.names <==> q in f.names))
    && (forall q :: q in f.names && q != path ==> u'.fs.names[q] == f.names[q])
    && (path in f.names ==> path in u'.fs.names)
    && (forall i :: 0 <= i < |f.inodes| && !(path in u'.fs.names && u'.fs.names[path] == i) ==>
         u'.fs.inodes[i] == f.inodes[i])
  }

  lemma {:induction false} HereOnly(f: Flat, links: Links, path: Path, e: Entry, source: nat)
    requires Ok(Unpacked(f, links)) && path != [] && UnpackAt(f, links, path, e, source).Some?
    ensures OnlyHere(f, links, UnpackAt(f, links, path, e, source).value, path)
  {
  }

  lemma {:induction false} OnlyAfterWay(u: Unpacked, f: Flat, u': Unpacked, path: Path)
    requires Ok(u) && path != [] && Kept(u.fs, f) && OnlyHere(f, u.links, u', path)
    requires forall q :: q in f.names <==> q in u.fs.names || OnTheWay(q, path, |path| - 1)
    ensures OnlyAt(u, u', path)
  {
  }

  /** Every other path there before names what it named; what is new is the entry's path and the way to it. */
  lemma {:induction false} OthersStay(u: Unpacked, e: Entry, source: nat)
    requires Ok(u) && Unpack(u, e, source).Some?
    ensures PathOf(e).Some? && OnlyAt(u, Unpack(u, e, source).value, PathOf(e).value)
  {
    var path := PathOf(e).value;
    if path != [] {
      if WayOpen(u.fs, path, |path| - 1) {
        var f := OnTheSpot(u, e, source, path);
        HereOnly(f, u.links, path, e, source);
        OnlyAfterWay(u, f, Unpack(u, e, source).value, path);
      } else {
        WayBlocked(u, e, source, path);
      }
    }
  }

  // ---- all entries ----------------------------------------------------------------------------------

  ghost predicate Has(fs: Flat, path: Path, i: nat, inode: Inode) {
    path in fs.names && fs.names[path] == i && i < |fs.inodes| && fs.inodes[i] == inode
  }

  /** The entry is another name of inode `i`, by the hard links so far. */
  predicate Renames(links: Links, x: Entry, i: nat) {
    IsSecondName(links, x) && links[(x.ino, x.dev)] == i
  }

  /** Hard links to inode `i` are no more than they were. */
  ghost predicate NoNewLinks(was: Links, now: Links, i: nat) {
    forall key :: key in now && now[key] == i ==> key in was && was[key] == i
  }

  lemma {:induction false} HereLeavesFile(f: Flat, links: Links, path: Path, x: Entry, source: nat, i: nat)
    requires Ok(Unpacked(f, links)) && path != [] && UnpackAt(f, links, path, x, source).Some?
    requires i < |f.inodes| && KindOf(f.inodes[i].mode) == REG && !Renames(links, x, i)
    ensures var u' := UnpackAt(f, links, path, x, source).value;
      i < |u'.fs.inodes| && u'.fs.inodes[i] == f.inodes[i] && NoNewLinks(links, u'.links, i)
  {
  }

  /** An entry that is no other name of a file leaves its inode as it is. */
  lemma {:induction false} LeavesFile(u: Unpacked, x: Entry, source: nat, i: nat)
    requires Ok(u) && Unpack(u, x, source).Some?
    requires 0 < i < |u.fs.inodes| && KindOf(u.fs.inodes[i].mode) == REG && !Renames(u.links, x, i)
    ensures var u' := Unpack(u, x, source).value;
      i < |u'.fs.inodes| && u'.fs.inodes[i] == u.fs.inodes[i] && NoNewLinks(u.links, u'.links, i)
  {
    var path := PathOf(x).value;
    if path != [] {
      if WayOpen(u.fs, path, |path| - 1) {
        var f := OnTheSpot(u, x, source, path);
        HereLeavesFile(f, u.links, path, x, source, i);
      } else {
        WayBlocked(u, x, source, path);
      }
    }
  }

  /** An entry of another path, and no other name of the file. */
  lemma {:induction false} LaterLeaves(u: Unpacked, x: Entry, source: nat, path: Path, i: nat, inode: Inode)
    requires Ok(u) && Has(u.fs, path, i, inode) && 0 < i && KindOf(inode.mode) == REG && Unpack(u, x, source).Some?
    requires PathOf(x) != Some(path) && !Renames(u.links, x, i)
    ensures var u' := Unpack(u, x, source).value;
      Ok(u') && Has(u'.fs, path, i, inode) && NoNewLinks(u.links, u'.links, i)
  {
    OthersStay(u, x, source);
    LeavesFile(u, x, source, i);
  }

  lemma {:induction false} AllBefore(fs: Flat, es: seq<Entry>, source: nat, k: nat, n: nat)
    requires k <= n <= |es| && UnpackAll(fs, es, source, n).Some?
    ensures UnpackAll(fs, es, source, k).Some?
    decreases n
  {
    if k < n { AllBefore(fs, es, source, k, n - 1); }
  }

  lemma {:induction false} AllOk(fs: Flat, es: seq<Entry>, source: nat, n: nat)
    requires n <= |es| && FsOk(fs) && UnpackAll(fs, es, source, n).Some?
    ensures Ok(UnpackAll(fs, es, source, n).value)
    decreases n
  {
    if n > 0 {
      AllOk(fs, es, source, n - 1);
      OthersStay(UnpackAll(fs, es, source, n - 1).value, es[n - 1], source);
    }
  }

  lemma {:induction false} LayersBefore(fs: Flat, layers: seq<seq<Entry>>, k: nat, n: nat)
    requires k <= n <= |layers| && UnpackLayers(fs, layers, n).Some?
    ensures UnpackLayers(fs, layers, k).Some?
    decreases n
  {
    if k < n { LayersBefore(fs, layers, k, n - 1); }
  }

  lemma {:induction false} LayersOk(layers: seq<seq<Entry>>, n: nat)
    requires n <= |layers| && UnpackLayers(EmptyRoot(), layers, n).Some?
    ensures FsOk(UnpackLayers(EmptyRoot(), layers, n).value)
    decreases n
  {
    if n > 0 {
      LayersOk(layers, n - 1);
      AllOk(UnpackLayers(EmptyRoot(), layers, n - 1).value, layers[n - 1], n - 1, |layers[n - 1]|);
    }
  }

  /** Hard links to inode `i` are those of the entry that made it, if it may have any. */
  ghost predicate OnlyLinkedAs(links: Links, i: nat, e: Entry) {
    forall key :: key in links && links[key] == i ==> e.nlink > 1 && key == (e.ino, e.dev)
  }

  /** A later entry of the archive that is for another path, and no other name of the same file. */
  predicate LeavesAlone(e: Entry, path: Path, x: Entry) {
    && PathOf(x) != Some(path)
    && !(e.nlink > 1 && KindOf(x.mode) == REG && x.nlink > 1 && (x.ino, x.dev) == (e.ino, e.dev))
  }

  /** The path names the inode `e` made, and hard links to it are that entry's. */
  ghost predicate Safe(u: Unpacked, e: Entry, path: Path, i: nat, inode: Inode) {
    Ok(u) && Has(u.fs, path, i, inode) && OnlyLinkedAs(u.links, i, e)
  }

  lemma {:induction false} EntryKeeps(u: Unpacked, x: Entry, source: nat, e: Entry, path: Path, i: nat, inode: Inode)
    requires Safe(u, e, path, i, inode) && 0 < i && KindOf(inode.mode) == REG
    requires LeavesAlone(e, path, x) && Unpack(u, x, source).Some?
    ensures Safe(Unpack(u, x, source).value, e, path, i, inode)
  {
    LaterLeaves(u, x, source, path, i, inode);
  }

  /** One state is what an entry makes of another. */
  ghost predicate Leads(u: Unpacked, x: Entry, source: nat, u': Unpacked) { Unpack(u, x, source) == Some(u') }

  /** The states an archive is unpacked through. */
  ghost predicate IsTrace(fs: Flat, es: seq<Entry>, source: nat, us: seq<Unpacked>) {
    && 0 < |us| <= |es| + 1 && us[0] == Unpacked(fs, map[])
    && forall j :: 0 <= j < |us| - 1 ==> Leads(us[j], es[j], source, us[j + 1])
  }

  /** The state after `k` entries. */
  ghost predicate IsAfter(fs: Flat, es: seq<Entry>, source: nat, k: nat, u: Unpacked)
    requires k <= |es|
  {
    UnpackAll(fs, es, source, k) == Some(u)
  }

  lemma {:induction false} AllStep(fs: Flat, es: seq<Entry>, source: nat, k: nat, u: Unpacked, u': Unpacked)
    requires k < |es| && IsAfter(fs, es, source, k, u) && IsAfter(fs, es, source, k + 1, u')
    ensures Leads(u, es[k], source, u')
  {
  }

  lemma {:induction false} TraceOf(fs: Flat, es: seq<Entry>, source: nat, n: nat) returns (us: seq<Unpacked>)
    requires n <= |es| && UnpackAll(fs, es, source, n).Some?
    ensures |us| == n + 1 && IsTrace(fs, es, source, us)
    ensures forall k :: 0 <= k <= n ==> IsAfter(fs, es, source, k, us[k])
  {
    us := States(fs, es, source, n);
    forall j | 0 <= j < n ensures Leads(us[j], es[j], source, us[j + 1]) {
      assert IsAfter(fs, es, source, j, us[j]) && IsAfter(fs, es, source, j + 1, us[j + 1]);
      AllStep(fs, es, source, j, us[j], us[j + 1]);
    }
    assert IsAfter(fs, es, source, 0, us[0]);
  }

  lemma {:induction false} States(fs: Flat, es: seq<Entry>, source: nat, n: nat) returns (us: seq<Unpacked>)
    requires n <= |es| && UnpackAll(fs, es, source, n).Some?
    ensures |us| == n + 1 && forall k :: 0 <= k <= n ==> IsAfter(fs, es, source, k, us[k])
    decreases n
  {
    var last := UnpackAll(fs, es, source, n).value;
    assert IsAfter(fs, es, source, n, last);
    if n == 0 {
      us := [last];
    } else {
      AllBefore(fs, es, source, n - 1, n);
      var front := States(fs, es, source, n - 1);
      us := front + [last];
    }
  }

  lemma {:induction false} TraceKeeps(fs: Flat, es: seq<Entry>, source: nat, us: seq<Unpacked>, k: nat, n: nat,
      e: Entry, path: Path, i: nat, inode: Inode)
    requires IsTrace(fs, es, source, us) && k <= n < |us| && Safe(us[k], e, path, i, inode)
    requires 0 < i && KindOf(inode.mode) == REG && forall j :: k <= j < n ==> LeavesAlone(e, path, es[j])
    ensures Safe(us[n], e, path, i, inode)
    decreases n
  {
    if k < n {
      TraceKeeps(fs, es, source, us, k, n - 1, e, path, i, inode);
      assert LeavesAlone(e, path, es[n - 1]) && Leads(us[n - 1], es[n - 1], source, us[n - 1 + 1]);
      EntryKeeps(us[n - 1], es[n - 1], source, e, path, i, inode);
    }
  }

  lemma {:induction false} ArchiveKeeps(fs: Flat, es: seq<Entry>, source: nat, k: nat, n: nat, e: Entry, path: Path,
      i: nat, inode: Inode)
    requires k <= n <= |es| && UnpackAll(fs, es, source, n).Some? && UnpackAll(fs, es, source, k).Some?
    requires Safe(UnpackAll(fs, es, source, k).value, e, path, i, inode) && 0 < i && KindOf(inode.mode) == REG
    requires forall j :: k <= j < n ==> LeavesAlone(e, path, es[j])
    ensures Safe(UnpackAll(fs, es, source, n).value, e, path, i, inode)
  {
    var us := TraceOf(fs, es, source, n);
    assert IsAfter(fs, es, source, k, us[k]) && IsAfter(fs, es, source, n, us[n]);
    TraceKeeps(fs, es, source, us, k, n, e, path, i, inode);
  }

  /** The archives after it, none of which has anything for the path. */
  lemma {:induction false} ArchivesKeep(layers: seq<seq<Entry>>, k: nat, n: nat, e: Entry, path: Path, i: nat,
      inode: Inode)
    requires k <= n <= |layers| && UnpackLayers(EmptyRoot(), layers, n).Some?
    requires UnpackLayers(EmptyRoot(), layers, k).Some?
      && Has(UnpackLayers(EmptyRoot(), layers, k).value, path, i, inode)
    requires 0 < i && KindOf(inode.mode) == REG
    requires forall l, j :: k <= l < n && 0 <= j < |layers[l]| ==> PathOf(layers[l][j]) != Some(path)
    ensures Has(UnpackLayers(EmptyRoot(), layers, n).value, path, i, inode)
    decreases n
  {
    if k < n {
      LayersBefore(EmptyRoot(), layers, n - 1, n);
      ArchivesKeep(layers, k, n - 1, e, path, i, inode);
      LayersOk(layers, n - 1);
      var fs, es := UnpackLayers(EmptyRoot(), layers, n - 1).value, layers[n - 1];
      var alone := e.(nlink := 1);
      forall j | 0 <= j < |es| ensures LeavesAlone(alone, path, es[j]) {}
      ArchiveKeeps(fs, es, n - 1, 0, |es|, alone, path, i, inode);
    }
  }

  lemma {:induction false} FileIsSafe(u: Unpacked, e: Entry, source: nat, path: Path) returns (i: nat)
    requires Reaches(u, e, path) && KindOf(e.mode) == REG && !FullDir(u.fs, path) && !IsSecondName(u.links, e)
    ensures 0 < i && Unpack(u, e, source).Some? && Safe(Unpack(u, e, source).value, e, path, i, FileOf(e, source))
  {
    FileReplaces(u, e, source, path);
    OthersStay(u, e, source);
    i := Unpack(u, e, source).value.fs.names[path];
  }

  /** The state in which entry `n` of archive `l` is unpacked. */
  function Before(layers: seq<seq<Entry>>, l: nat, n: nat): Option<Unpacked>
    requires l < |layers| && n <= |layers[l]|
  {
    match UnpackLayers(EmptyRoot(), layers, l)
    case None => None
    case Some(fs) => UnpackAll(fs, layers[l], l, n)
  }

  /** A file entry that takes effect, and is the last for its path. */
  ghost predicate LastFile(layers: seq<seq<Entry>>, l: nat, n: nat, path: Path) {
    && l < |layers| && n < |layers[l]| && Before(layers, l, n).Some?
    && var e, u := layers[l][n], Before(layers, l, n).value;
    && Reaches(u, e, path) && KindOf(e.mode) == REG && !FullDir(u.fs, path) && !IsSecondName(u.links, e)
    && (forall j :: n < j < |layers[l]| ==> LeavesAlone(e, path, layers[l][j]))
    && (forall m, j :: l < m < |layers| && 0 <= j < |layers[m]| ==> PathOf(layers[m][j]) != Some(path))
  }

  /** The last file entry that takes effect for a path decides what the path holds in the end. */
  lemma {:induction false} LastFileWins(layers: seq<seq<Entry>>, l: nat, n: nat, path: Path)
    requires UnpackLayers(EmptyRoot(), layers, |layers|).Some? && LastFile(layers, l, n, path)
    ensures var fs := UnpackLayers(EmptyRoot(), layers, |layers|).value;
      path in fs.names && fs.names[path] < |fs.inodes| && fs.inodes[fs.names[path]] == FileOf(layers[l][n], l)
  {
    var e, u, es := layers[l][n], Before(layers, l, n).value, layers[l];
    LayersBefore(EmptyRoot(), layers, l + 1, |layers|);
    LayersOk(layers, l);
    var fs := UnpackLayers(EmptyRoot(), layers, l).value;
    var i := FileIsSafe(u, e, l, path);
    assert UnpackAll(fs, es, l, n + 1) == Unpack(u, e, l);
    ArchiveKeeps(fs, es, l, n + 1, |es|, e, path, i, FileOf(e, l));
    ArchivesKeep(layers, l + 1, |layers|, e, path, i, FileOf(e, l));
  }
}
