/** Link counts: a file's is the number of its names. And the whole build, layer by layer. */
module ImageTreeLinks {
  import opened ImageTree
  import opened ImageTreeProofs
  import opened ImageTreeBuild

  /** The names node `n` gives `k`. */
  function NamesIn(n: Node, k: nat): set<string> {
    set x | x in Children(n) && Children(n)[x] == k
  }

  /** How often the first `upto` nodes name `k`. */
  function CountTo(nodes: seq<Node>, k: nat, upto: nat): nat
    requires upto <= |nodes|
  {
    if upto == 0 then 0 else CountTo(nodes, k, upto - 1) + |NamesIn(nodes[upto - 1], k)|
  }

  /** The paths that name inode `k`. */
  function PathsOf(fs: Flat, k: nat): set<Path> {
    set q | q in fs.names && fs.names[q] == k
  }

  function Parent(q: Path): Path
    requires q != []
  {
    q[..|q| - 1]
  }

  /** Does `q` lie in one of the first `upto` nodes? */
  predicate Via(nodes: seq<Node>, q: Path, upto: nat) {
    q != [] && Lookup(nodes, Parent(q)).Some? && Lookup(nodes, Parent(q)).value < upto
  }

  ghost function PathsVia(nodes: seq<Node>, fs: Flat, k: nat, upto: nat): set<Path> {
    set q | q in fs.names && fs.names[q] == k && Via(nodes, q, upto)
  }

  /** A directory with something in it can be reached. */
  lemma {:induction false} HasPath(nodes: seq<Node>, d: nat) returns (p: Path)
    requires TreeOk(nodes) && d < |nodes| && Children(nodes[d]) != map[]
    ensures Lookup(nodes, p) == Some(d)
    decreases d
  {
    if d == 0 {
      p := [];
    } else {
      assert NodeOk(nodes, d);
      var name :| Edge(nodes, nodes[d].parent, name, d);
      assert EdgeOk(nodes, nodes[d].parent, name);
      var up := HasPath(nodes, nodes[d].parent);
      p := up + [name];
      assert p[..|p| - 1] == up;
    }
  }

  function Under(p: Path, xs: set<string>): set<Path> {
    set x | x in xs :: p + [x]
  }

  lemma {:induction false} UnderSize(p: Path, xs: set<string>)
    ensures |Under(p, xs)| == |xs|
    decreases xs
  {
    if xs != {} {
      var x :| x in xs;
      UnderSize(p, xs - {x});
      assert p + [x] !in Under(p, xs - {x}) by {
        forall y | y in xs - {x} ensures p + [y] != p + [x] { assert (p + [y])[|p|] == y && (p + [x])[|p|] == x; }
      }
      assert Under(p, xs) == Under(p, xs - {x}) + {p + [x]};
    }
  }

  /** A path lies in directory `d`, at `p`, exactly when it is one of its names. */
  lemma {:induction false} InDirectory(nodes: seq<Node>, fs: Flat, k: nat, d: nat, p: Path, q: Path)
    requires TreeOk(nodes) && Refines(nodes, fs) && IsDirNode(nodes, d) && Lookup(nodes, p) == Some(d)
    ensures q in fs.names && fs.names[q] == k && q != [] && Lookup(nodes, Parent(q)) == Some(d) <==>
      q in Under(p, NamesIn(nodes[d], k))
  {
    assert Agree(nodes, fs, q);
    if q != [] && Lookup(nodes, Parent(q)) == Some(d) {
      OnePath(nodes, p, Parent(q));
      assert q == p + [q[|q| - 1]];
    }
    if q in Under(p, NamesIn(nodes[d], k)) {
      var x :| x in NamesIn(nodes[d], k) && q == p + [x];
      assert Parent(q) == p;
    }
  }

  /** The paths in directory `d` are its names. */
  lemma {:induction false} PathsInOne(nodes: seq<Node>, fs: Flat, k: nat, d: nat)
    requires TreeOk(nodes) && Refines(nodes, fs) && d < |nodes|
    ensures |PathsVia(nodes, fs, k, d + 1)| == |PathsVia(nodes, fs, k, d)| + |NamesIn(nodes[d], k)|
  {
    var before, after := PathsVia(nodes, fs, k, d), PathsVia(nodes, fs, k, d + 1);
    if Children(nodes[d]) == map[] {
      forall q | q in after ensures q in before { assert Agree(nodes, fs, q); }
      assert after == before && NamesIn(nodes[d], k) == {};
    } else {
      var p := HasPath(nodes, d);
      var here := Under(p, NamesIn(nodes[d], k));
      PathsSplit(nodes, fs, k, d, p);
      UnderSize(p, NamesIn(nodes[d], k));
    }
  }

  lemma {:induction false} PathsSplit(nodes: seq<Node>, fs: Flat, k: nat, d: nat, p: Path)
    requires TreeOk(nodes) && Refines(nodes, fs) && IsDirNode(nodes, d) && Lookup(nodes, p) == Some(d)
    ensures var here := Under(p, NamesIn(nodes[d], k));
      PathsVia(nodes, fs, k, d + 1) == PathsVia(nodes, fs, k, d) + here && PathsVia(nodes, fs, k, d) !! here
  {
    var before, after, here := PathsVia(nodes, fs, k, d), PathsVia(nodes, fs, k, d + 1), Under(p, NamesIn(nodes[d], k));
    forall q ensures q in after <==> q in before || q in here { InDirectory(nodes, fs, k, d, p, q); }
    forall q | q in before ensures q !in here { InDirectory(nodes, fs, k, d, p, q); }
  }

  lemma {:induction false} PathsCounted(nodes: seq<Node>, fs: Flat, k: nat, upto: nat)
    requires TreeOk(nodes) && Refines(nodes, fs) && upto <= |nodes|
    ensures |PathsVia(nodes, fs, k, upto)| == CountTo(nodes, k, upto)
    decreases upto
  {
    if upto == 0 {
      assert PathsVia(nodes, fs, k, 0) == {};
    } else {
      PathsCounted(nodes, fs, k, upto - 1);
      PathsInOne(nodes, fs, k, upto - 1);
    }
  }

  /** The entries of all directories that say `k` are as many as the paths that do. */
  lemma {:induction false} EveryNameCounts(nodes: seq<Node>, fs: Flat, k: nat)
    requires TreeOk(nodes) && Refines(nodes, fs) && 0 < k < |nodes|
    ensures CountTo(nodes, k, |nodes|) == |PathsOf(fs, k)|
  {
    PathsCounted(nodes, fs, k, |nodes|);
    forall q | q in PathsOf(fs, k) ensures Via(nodes, q, |nodes|) {
      assert Agree(nodes, fs, q) && Agree(nodes, fs, []);
      LookupKnown(nodes, q);
      LookupKnown(nodes, Parent(q));
    }
    assert PathsOf(fs, k) == PathsVia(nodes, fs, k, |nodes|);
  }

  /** The names not left that say `k`. */
  ghost function Done(n: Node, k: nat, left: set<string>): nat { |NamesIn(n, k) - left| }

  ghost predicate Counted(n: Node, before: seq<nat>, now: seq<nat>, left: set<string>) {
    |now| == |before| && forall k :: 0 <= k < |now| ==> now[k] == before[k] + Done(n, k, left)
  }

  lemma {:induction false} OneNameLess(n: Node, k: nat, left: set<string>, x: string)
    requires x in left && left <= Children(n).Keys
    ensures Done(n, k, left - {x}) == Done(n, k, left) + if k == Children(n)[x] then 1 else 0
  {
    if k == Children(n)[x] {
      assert NamesIn(n, k) - (left - {x}) == NamesIn(n, k) - left + {x};
    } else {
      assert NamesIn(n, k) - (left - {x}) == NamesIn(n, k) - left;
    }
  }

  lemma {:induction false} NamesDone(n: Node, k: nat)
    ensures Done(n, k, Children(n).Keys) == 0 && Done(n, k, {}) == |NamesIn(n, k)|
  {
    assert NamesIn(n, k) - Children(n).Keys == {} && NamesIn(n, k) - {} == NamesIn(n, k);
  }

  method CountOne(n: Node, counts: array<nat>, x: string, ghost left: set<string>, ghost before: seq<nat>)
    requires x in left && left <= Children(n).Keys && Children(n)[x] < counts.Length
    requires Counted(n, before, counts[..], left)
    modifies counts
    ensures Counted(n, before, counts[..], left - {x})
  {
    counts[Children(n)[x]] := counts[Children(n)[x]] + 1;
    forall k | 0 <= k < counts.Length ensures counts[k] == before[k] + Done(n, k, left - {x}) {
      OneNameLess(n, k, left, x);
    }
  }

  /** One directory's names, each counted for what it names. */
  method CountNames(n: Node, counts: array<nat>)
    requires forall x :: x in Children(n) ==> Children(n)[x] < counts.Length
    modifies counts
    ensures forall k :: 0 <= k < counts.Length ==> counts[k] == old(counts[k]) + |NamesIn(n, k)|
  {
    var left := Children(n).Keys;
    forall k: nat ensures Done(n, k, left) == 0 && Done(n, k, {}) == |NamesIn(n, k)| { NamesDone(n, k); }
    while left != {}
      invariant left <= Children(n).Keys && Counted(n, old(counts[..]), counts[..], left)
      decreases left
    {
      var x :| x in left;
      CountOne(n, counts, x, left, old(counts[..]));
      left := left - {x};
    }
  }

  /** Nodes that differ in their link counts only stand for the same files. */
  lemma {:induction false} LinksOnly(nodes: seq<Node>, nodes': seq<Node>, fs: Flat)
    requires Refines(nodes, fs) && TreeOk(nodes) && |nodes'| == |nodes|
    requires forall k :: 0 <= k < |nodes| ==> nodes'[k] == nodes[k].(nlink := nodes'[k].nlink)
    ensures TreeOk(nodes') && Refines(nodes', fs)
  {
    forall k | 0 <= k < |nodes| ensures nodes'[k].content.Directory? <==> KindOf(nodes'[k].mode) == DIR {
      assert NodeOk(nodes, k);
    }
    ShapeSame(nodes, nodes');
    forall q: Path ensures Agree(nodes', fs, q) {
      assert Agree(nodes, fs, q);
      LookupSame(nodes, nodes', q);
    }
  }

  method NamesCounted(nodes: seq<Node>) returns (counts: array<nat>)
    requires TreeOk(nodes)
    ensures fresh(counts) && counts.Length == |nodes|
      && forall k :: 0 <= k < |nodes| ==> counts[k] == CountTo(nodes, k, |nodes|)
  {
    counts := new nat[|nodes|](_ => 0);
    for d := 0 to |nodes|
      invariant forall k :: 0 <= k < |nodes| ==> counts[k] == CountTo(nodes, k, d)
    {
      forall x | x in Children(nodes[d]) ensures Children(nodes[d])[x] < |nodes| { assert EdgeOk(nodes, d, x); }
      CountNames(nodes[d], counts);
    }
  }

  method SubdirectoriesCounted(nodes: seq<Node>) returns (counts: array<nat>)
    requires nodes != []
    ensures fresh(counts) && counts.Length == |nodes|
  {
    counts := new nat[|nodes|](_ => 0);
    for d := 1 to |nodes| {
      if KindOf(nodes[d].mode) == DIR && nodes[d].parent < |nodes| {
        counts[nodes[d].parent] := counts[nodes[d].parent] + 1;
      }
    }
  }

  /** count_links: files, one for each name; directories, 2 and one for each made in them. */
  method CountLinks(t: Tree)
    requires t.Valid()
    modifies t
    ensures t.Valid() && t.fs == old(t.fs) && |t.nodes| == |old(t.nodes)|
    ensures forall k :: 0 <= k < |t.nodes| ==> t.nodes[k] == old(t.nodes)[k].(nlink := t.nodes[k].nlink)
    ensures forall k :: 0 < k < |t.nodes| && !t.nodes[k].content.Directory? ==>
      t.nodes[k].nlink == if |PathsOf(t.fs, k)| == 0 then 1 else |PathsOf(t.fs, k)|
  {
    var nodes := t.nodes;
    var counted := NamesCounted(nodes);
    var subdirectories := SubdirectoriesCounted(nodes);
    var out := WithLinks(nodes, counted[..], subdirectories[..]);
    LinksOnly(nodes, out, t.fs);
    forall k | 0 < k < |nodes| && !nodes[k].content.Directory? ensures out[k].nlink == if |PathsOf(t.fs, k)| == 0
      then 1 else |PathsOf(t.fs, k)| {
      EveryNameCounts(nodes, t.fs, k);
      assert NodeOk(nodes, k);
    }
    t.nodes := out;
  }

  function WithLinks(nodes: seq<Node>, counts: seq<nat>, subdirectories: seq<nat>): (r: seq<Node>)
    requires |counts| == |nodes| == |subdirectories|
    ensures |r| == |nodes|
    ensures forall k :: 0 <= k < |nodes| ==> r[k] == nodes[k].(nlink := r[k].nlink)
    ensures forall k :: 0 <= k < |nodes| && KindOf(nodes[k].mode) != DIR ==> r[k].nlink == if counts[k] < 1 then 1
      else counts[k]
  {
    seq(|nodes|, k requires 0 <= k < |nodes| =>
      nodes[k].(nlink := if KindOf(nodes[k].mode) == DIR then 2 + subdirectories[k] else if counts[k] < 1 then 1
        else counts[k]))
  }

  /** What unpacking the first `n` archives leaves; None when one cannot be served. */
  function UnpackLayers(fs: Flat, layers: seq<seq<Entry>>, n: nat): Option<Flat>
    requires n <= |layers|
  {
    if n == 0 then Some(fs)
    else match UnpackLayers(fs, layers, n - 1)
      case None => None
      case Some(f) =>
        match UnpackAll(f, layers[n - 1], n - 1, |layers[n - 1]|)
        case None => None
        case Some(u) => Some(u.fs)
  }

  function EmptyRoot(): Flat {
    Flat(map[[] := 0], [Inode(DirMode(0x1ED), 0, 0, 0, 0, 0, DirData)])
  }

  /** What can be mounted over the root: directories alone in it, and no /run, where the images are mounted. */
  ghost predicate Servable(fs: Flat) {
    forall name: string :: [name] in fs.names ==> IsDirAt(fs, [name]) && name != "run"
  }

  /** The check of the root's children. */
  method RootServable(t: Tree) returns (ok: bool)
    requires t.Valid()
    ensures ok <==> Servable(t.fs)
  {
    var children := Children(t.nodes[0]);
    var left := children.Keys;
    forall name: string | [name] in t.fs.names ensures name in children { RootChild(t.nodes, t.fs, name); }
    while left != {}
      invariant left <= children.Keys
      invariant forall name: string :: [name] in t.fs.names && name !in left ==> IsDirAt(t.fs, [name]) && name != "run"
      decreases left
    {
      var name :| name in left;
      RootChild(t.nodes, t.fs, name);
      if KindOf(t.nodes[children[name]].mode) != DIR || name == "run" { return false; }
      left := left - {name};
    }
    ok := true;
  }

  lemma {:induction false} RootChild(nodes: seq<Node>, fs: Flat, name: string)
    requires TreeOk(nodes) && Refines(nodes, fs)
    ensures name in Children(nodes[0]) <==> [name] in fs.names
    ensures name in Children(nodes[0]) ==>
      var c := Children(nodes[0])[name]; c < |nodes| && (KindOf(nodes[c].mode) == DIR <==> IsDirAt(fs, [name]))
  {
    DirAgrees(nodes, fs, [], 0, name);
    assert [] + [name] == [name];
    if name in Children(nodes[0]) {
      var c := Children(nodes[0])[name];
      assert EdgeOk(nodes, 0, name) && NodeOk(nodes, c) && Matches(nodes[c], fs.inodes[c]);
    }
  }

  /**
   The tree of some archives: for every path what unpacking them in order leaves there, and every file
   with as many links as it has names. Refused exactly when an archive cannot be unpacked, or something in
   the root is no directory, or there is a /run.
   */
  method Build(layers: seq<seq<Entry>>) returns (t: Tree, ok: bool)
    ensures match UnpackLayers(EmptyRoot(), layers, |layers|)
      case None => !ok
      case Some(fs) =>
        && (ok <==> Servable(fs)) && t.Valid() && t.fs == fs
        && (ok ==> forall k :: 0 < k < |t.nodes| && !t.nodes[k].content.Directory? && PathsOf(fs, k) != {} ==>
           t.nodes[k].nlink == |PathsOf(fs, k)|)
  {
    t, ok := Merge(layers);
    if !ok { return; }
    ok := RootServable(t);
    if ok { CountLinks(t); }
  }

  /** The layers one after another, until one fails. */
  method Merge(layers: seq<seq<Entry>>) returns (t: Tree, ok: bool)
    ensures fresh(t)
    ensures match UnpackLayers(EmptyRoot(), layers, |layers|)
      case None => !ok
      case Some(fs) => ok && t.Valid() && t.fs == fs
  {
    t := new Tree();
    for n := 0 to |layers|
      invariant fresh(t) && t.Valid() && UnpackLayers(EmptyRoot(), layers, n) == Some(t.fs)
    {
      ok := t.Add(layers[n], n);
      if !ok {
        LayerFails(EmptyRoot(), layers, n + 1, |layers|);
        return;
      }
    }
    ok := true;
  }

  lemma {:induction false} LayerFails(fs: Flat, layers: seq<seq<Entry>>, k: nat, n: nat)
    requires k <= n <= |layers| && UnpackLayers(fs, layers, k).None?
    ensures UnpackLayers(fs, layers, n).None?
    decreases n
  {
    if k < n { LayerFails(fs, layers, k, n - 1); }
  }

  /** Directories are a tree: one path each, and what is below has the higher number, so no cycles. */
  lemma {:induction false} DirectoriesAreATree(nodes: seq<Node>, fs: Flat, p: Path, q: Path)
    requires TreeOk(nodes) && Refines(nodes, fs) && IsDirAt(fs, p) && IsDirAt(fs, q)
    ensures fs.names[p] == fs.names[q] <==> p == q
    ensures Below(p, q) ==> fs.names[p] < fs.names[q]
    decreases |q|
  {
    DirNodeAt(nodes, fs, p);
    DirNodeAt(nodes, fs, q);
    if fs.names[p] == fs.names[q] { OnePath(nodes, p, q); }
    if Below(p, q) {
      var r := Parent(q);
      var d := Lookup(nodes, r).value;
      LookupKnown(nodes, r);
      assert EdgeOk(nodes, d, q[|q| - 1]) && NodeOk(nodes, d);
      assert Agree(nodes, fs, r) && Matches(nodes[d], fs.inodes[d]);
      if r != p {
        assert r[..|p|] == p;
        DirectoriesAreATree(nodes, fs, p, r);
      }
    }
  }

  lemma {:induction false} DirNodeAt(nodes: seq<Node>, fs: Flat, p: Path)
    requires TreeOk(nodes) && Refines(nodes, fs) && IsDirAt(fs, p)
    ensures Lookup(nodes, p) == Some(fs.names[p]) && IsDirNode(nodes, fs.names[p])
  {
    var k := fs.names[p];
    assert Agree(nodes, fs, p) && Matches(nodes[k], fs.inodes[k]) && NodeOk(nodes, k);
  }
}
