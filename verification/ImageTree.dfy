/**
 The boot images merged into one read-only tree (engine/src/image_fs.rs), and what unpacking the same
 archives one entry after another would leave. The tree is a vector of nodes that name each other by
 number, a directory's number counting from 0 (FUSE's ids are one more). The meaning is flat: which
 path names which inode.
 */
module ImageTree {

  datatype Option<+T> = None | Some(value: T)

  type Path = seq<string>

  // The file type bits of a mode, S_IFMT: bits 12 to 15.
  const DIR: nat := 4   // 0o040000
  const REG: nat := 8   // 0o100000
  const LNK: nat := 10  // 0o120000

  function KindOf(mode: nat): nat { mode / 4096 % 16 }

  function DirMode(mode: nat): (m: nat)
    ensures KindOf(m) == DIR && m % 4096 == mode % 4096
  {
    DIR * 4096 + mode % 4096
  }

  predicate IsSpecial(kind: nat) { kind == 1 || kind == 2 || kind == 6 || kind == 12 }

  /** One entry of an archive. `target` is a symlink's, read from its data; None if that is no text. */
  datatype Entry = Entry(name: string, ino: nat, dev: nat, mode: nat, uid: nat, gid: nat, nlink: nat, mtime: nat,
    size: nat, rdev: nat,
                         offset: nat, target: Option<string>)

  // ---- names ----------------------------------------------------------------------------------------

  function Split(s: string): (r: seq<string>)
    ensures |r| > 0
    decreases |s|
  {
    if s == "" then [""]
    else
      var rest := Split(s[1..]);
      if s[0] == '/' then [""] + rest else [[s[0]] + rest[0]] + rest[1..]
  }

  /** The parts of a name that count; a name with ".." is refused. */
  function Parts(ps: seq<string>): Option<Path> {
    if ps == [] then Some([])
    else if ps[0] == ".." then None
    else match Parts(ps[1..])
      case None => None
      case Some(rest) => if ps[0] == "" || ps[0] == "." then Some(rest) else Some([ps[0]] + rest)
  }

  function PathOf(e: Entry): Option<Path> { Parts(Split(e.name)) }

  // ---- the meaning: unpacking, path by path -----------------------------------------------------------

  datatype Data = DirData | FileData(source: nat, offset: nat) | LinkData(target: string) | SpecialData

  datatype Inode = Inode(mode: nat, uid: nat, gid: nat, rdev: nat, mtime: nat, size: nat, data: Data)

  /** Which path names which inode. */
  datatype Flat = Flat(names: map<Path, nat>, inodes: seq<Inode>)

  type Links = map<(nat, nat), nat>

  function NewDir(mode: nat, uid: nat, gid: nat, mtime: nat): Inode {
    Inode(DirMode(mode), uid, gid, 0, mtime, 0, DirData)
  }

  predicate KnownAt(fs: Flat, q: Path) { q in fs.names && fs.names[q] < |fs.inodes| }

  predicate IsDirAt(fs: Flat, q: Path) {
    KnownAt(fs, q) && KindOf(fs.inodes[fs.names[q]].mode) == DIR
  }

  predicate Below(q: Path, r: Path) { |q| < |r| && r[..|q|] == q }

  predicate IsEmptyAt(fs: Flat, q: Path) { forall r :: r in fs.names ==> !Below(q, r) }

  function Named(fs: Flat, q: Path, inode: Inode): Flat {
    Flat(fs.names[q := |fs.inodes|], fs.inodes + [inode])
  }

  /** The directories on the way to `path`'s `k`-th part, made (0755) where missing; None if something is in the way. */
  function MadeDirs(fs: Flat, path: Path, mtime: nat, k: nat): Option<Flat>
    requires k <= |path|
  {
    if k == 0 then Some(fs)
    else match MadeDirs(fs, path, mtime, k - 1)
      case None => None
      case Some(f) =>
        if path[..k] !in f.names then Some(Named(f, path[..k], NewDir(0x1ED, 0, 0, mtime)))
        else if IsDirAt(f, path[..k]) then Some(f) else None
  }

  datatype Unpacked = Unpacked(fs: Flat, links: Links)

  /** A directory entry: merged into a directory that is there, else it replaces what is. */
  function UnpackDir(fs: Flat, q: Path, e: Entry): Flat {
    if IsDirAt(fs, q) then
      var i := fs.names[q];
      fs.(inodes := fs.inodes[i := fs.inodes[i].(mode := e.mode, uid := e.uid, gid := e.gid, mtime := e.mtime)])
    else Named(fs, q, NewDir(e.mode, e.uid, e.gid, e.mtime))
  }

  /**
   What stays when something that is no directory comes: a directory with something in it, or anything but a
   file of the same type.
   */
  predicate Stays(fs: Flat, q: Path, kind: nat) {
    KnownAt(fs, q) &&
    ((IsDirAt(fs, q) && !IsEmptyAt(fs, q)) || (KindOf(fs.inodes[fs.names[q]].mode) == kind && kind != REG))
  }

  function DataOf(e: Entry, source: nat): Option<Data> {
    var kind := KindOf(e.mode);
    if kind == REG then Some(FileData(source, e.offset))
    else if kind == LNK then (if e.target.Some? then Some(LinkData(e.target.value)) else None)
    else if IsSpecial(kind) then Some(SpecialData)
    else None
  }

  /** A file, link or device: another name of a file of the same archive, or a new one. */
  function UnpackFile(fs: Flat, links: Links, q: Path, e: Entry, data: Data): Unpacked {
    var kind, key := KindOf(e.mode), (e.ino, e.dev);
    if kind == REG && e.nlink > 1 && key in links && links[key] < |fs.inodes| then
      var i := links[key];
      var inodes := if e.size > 0 then fs.inodes[i := fs.inodes[i].(size := e.size, data := data)] else fs.inodes;
      Unpacked(Flat(fs.names[q := i], inodes), links)
    else
      var inode := Inode(e.mode, e.uid, e.gid, if data.SpecialData? then e.rdev
        else 0, e.mtime, if kind == REG || kind == LNK then e.size else 0, data);
      Unpacked(Named(fs, q, inode), if kind == REG && e.nlink > 1 then links[key := |fs.inodes|] else links)
  }

  /** One entry; None when the archive cannot be served at all. */
  function Unpack(u: Unpacked, e: Entry, source: nat): Option<Unpacked> {
    match PathOf(e)
    case None => None
    case Some(path) =>
      var kind := KindOf(e.mode);
      if path == [] then
        if kind == DIR && |u.fs.inodes| > 0 then
          Some(u.(fs := u.fs.(inodes := u.fs.inodes[0 := u.fs.inodes[0].(mode := DirMode(e.mode))])))
        else Some(u)
      else match MadeDirs(u.fs, path, e.mtime, |path| - 1)
        case None => Some(u)
        case Some(fs) => UnpackAt(fs, u.links, path, e, source)
  }

  /** One entry at its path, the directories on the way there. */
  function UnpackAt(fs: Flat, links: Links, path: Path, e: Entry, source: nat): Option<Unpacked> {
    var kind := KindOf(e.mode);
    if kind == DIR then Some(Unpacked(UnpackDir(fs, path, e), links))
    else if Stays(fs, path, kind) then Some(Unpacked(fs, links))
    else if kind == LNK && e.target.None? then None
    else match DataOf(e, source)
      case None => Some(Unpacked(fs, links))
      case Some(data) => Some(UnpackFile(fs, links, path, e, data))
  }

  /** The first `n` entries of an archive, whose hard links are its own. */
  function UnpackAll(fs: Flat, es: seq<Entry>, source: nat, n: nat): Option<Unpacked>
    requires n <= |es|
  {
    if n == 0 then Some(Unpacked(fs, map[]))
    else match UnpackAll(fs, es, source, n - 1)
      case None => None
      case Some(u) => Unpack(u, es[n - 1], source)
  }

  // ---- the tree -------------------------------------------------------------------------------------

  datatype Content = Directory(children: map<string, nat>) | File(source: nat, offset: nat) | Symlink(target: string)
    | Special

  datatype Node = Node(mode: nat, uid: nat, gid: nat, rdev: nat, mtime: nat, size: nat, nlink: nat, parent: nat,
    content: Content)

  function Children(n: Node): map<string, nat> {
    if n.content.Directory? then n.content.children else map[]
  }

  function DirNode(parent: nat, mode: nat, mtime: nat): Node {
    Node(DirMode(mode), 0, 0, 0, mtime, 0, 2, parent, Directory(map[]))
  }

  predicate IsDirNode(nodes: seq<Node>, c: nat) { c < |nodes| && nodes[c].content.Directory? }

  predicate Edge(nodes: seq<Node>, d: nat, name: string, c: nat) {
    d < |nodes| && name in Children(nodes[d]) && Children(nodes[d])[name] == c
  }

  /** The node at a path, followed from the root. */
  function Lookup(nodes: seq<Node>, q: Path): Option<nat>
    decreases |q|
  {
    if q == [] then Some(0)
    else match Lookup(nodes, q[..|q| - 1])
      case None => None
      case Some(d) =>
        if d < |nodes| && q[|q| - 1] in Children(nodes[d]) then Some(Children(nodes[d])[q[|q| - 1]]) else None
  }

  ghost predicate NodeOk(nodes: seq<Node>, k: nat)
    requires k < |nodes|
  {
    && (nodes[k].content.Directory? <==> KindOf(nodes[k].mode) == DIR)
    // a directory with something in it has its place in its parent
    && (0 < k && Children(nodes[k]) != map[] ==> exists name :: Edge(nodes, nodes[k].parent, name, k))
  }

  ghost predicate EdgeOk(nodes: seq<Node>, d: nat, name: string)
    requires d < |nodes| && name in Children(nodes[d])
  {
    var c := Children(nodes[d])[name];
    && 0 < c < |nodes|
    // a subdirectory is younger than its one parent, and has one name there
    && (IsDirNode(nodes, c) ==> d < c && nodes[c].parent == d && forall n ::
       n in Children(nodes[d]) && Children(nodes[d])[n] == c ==> n == name)
  }

  ghost predicate TreeOk(nodes: seq<Node>) {
    && IsDirNode(nodes, 0)
    && (forall k :: 0 <= k < |nodes| ==> NodeOk(nodes, k))
    && (forall d, name :: 0 <= d < |nodes| && name in Children(nodes[d]) ==> EdgeOk(nodes, d, name))
  }

  predicate Matches(n: Node, i: Inode) {
    && n.mode == i.mode && n.uid == i.uid && n.gid == i.gid && n.rdev == i.rdev && n.mtime == i.mtime
    && n.size == i.size
    && match n.content
       case Directory(_) => i.data == DirData
       case File(s, o) => i.data == FileData(s, o)
       case Symlink(t) => i.data == LinkData(t)
       case Special => i.data == SpecialData
  }

  ghost predicate Agree(nodes: seq<Node>, fs: Flat, q: Path) {
    Lookup(nodes, q) == if q in fs.names then Some(fs.names[q]) else None
  }

  /** The tree says of every path what unpacking says. */
  ghost predicate Refines(nodes: seq<Node>, fs: Flat) {
    && |nodes| == |fs.inodes|
    && (forall k :: 0 <= k < |nodes| ==> Matches(nodes[k], fs.inodes[k]))
    && (forall q: Path :: Agree(nodes, fs, q))
  }
}
