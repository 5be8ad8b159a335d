/**
 The node table behind a shared directory (engine/src/fs.rs): which host path a node id stands for, and
 how long it is kept. What the host's own calls answer is part of each request. Paths are lists of names.
 */
module FuseNodes {

  type Path = seq<string>

  datatype Node = Node(path: Path, parent: nat, lookups: nat, handles: nat, children: nat)

  datatype Option<+T> = None | Some(value: T)

  /** `listing`: the entries of a directory as the handle's first READDIR read them, without "." and "..". */
  datatype Handle = Handle(node: nat, directory: bool, listing: Option<seq<Path>>)

  const ROOT: nat := 1

  datatype Table = Table(nodes: map<nat, Node>, ids: map<Path, nat>, handles: map<nat, Handle>, nextNode: nat,
    nextHandle: nat)

  function SaturatingSub(a: nat, b: nat): nat { if a < b then 0 else a - b }

  function NewTable(root: Path): Table {
    Table(map[ROOT := Node(root, ROOT, 1, 0, 0)], map[root := ROOT], map[], 2, 1)
  }

  // ---- the parts of requests ------------------------------------------------------------------------------

  /** One more child of `id`, if it is there. */
  function Adopted(nodes: map<nat, Node>, id: nat): map<nat, Node> {
    if id in nodes then nodes[id := nodes[id].(children := nodes[id].children + 1)] else nodes
  }

  /** One child less. */
  function Orphaned(nodes: map<nat, Node>, id: nat): map<nat, Node> {
    if id in nodes then nodes[id := nodes[id].(children := SaturatingSub(nodes[id].children, 1))] else nodes
  }

  function IdOf(t: Table, path: Path): nat { if path in t.ids then t.ids[path] else t.nextNode }

  function Interned(t: Table, path: Path, parent: nat): Table {
    if path in t.ids then t
    else
      t.(ids := t.ids[path := t.nextNode], nextNode := t.nextNode + 1,
         nodes := Adopted(t.nodes[t.nextNode := Node(path, parent, 0, 0, 0)], parent))
  }

  predicate Unneeded(n: Node) { n.lookups == 0 && n.handles == 0 && n.children == 0 }

  function Dropped(t: Table, id: nat): Table
    requires id in t.nodes
  {
    t.(nodes := Orphaned(t.nodes - {id}, t.nodes[id].parent), ids := t.ids - {t.nodes[id].path})
  }

  /** Without `id`, if nothing needs it, and without parents kept for it alone. */
  function Collected(t: Table, id: nat): Table
    decreases |t.nodes|
  {
    if id == ROOT || id !in t.nodes || !Unneeded(t.nodes[id]) then t
    else
      assert Dropped(t, id).nodes.Keys == t.nodes.Keys - {id};
      assert |t.nodes.Keys - {id}| == |t.nodes.Keys| - 1;
      Collected(Dropped(t, id), t.nodes[id].parent)
  }

  function Forgotten(t: Table, id: nat, count: nat): Table {
    var nodes := if id in t.nodes
      then t.nodes[id := t.nodes[id].(lookups := SaturatingSub(t.nodes[id].lookups, count))] else t.nodes;
    Collected(t.(nodes := nodes), id)
  }

  function Looked(t: Table, id: nat): Table {
    if id in t.nodes then t.(nodes := t.nodes[id := t.nodes[id].(lookups := t.nodes[id].lookups + 1)]) else t
  }

  function Opened(t: Table, id: nat, directory: bool): Table {
    var nodes := if id in t.nodes then t.nodes[id := t.nodes[id].(handles := t.nodes[id].handles + 1)] else t.nodes;
    t.(handles := t.handles[t.nextHandle := Handle(id, directory, None)], nextHandle := t.nextHandle + 1,
      nodes := nodes)
  }

  function Closed(t: Table, fh: nat): Table {
    if fh !in t.handles then t
    else
      var id := t.handles[fh].node;
      var nodes := if id in t.nodes then t.nodes[id := t.nodes[id].(handles := SaturatingSub(t.nodes[id].handles, 1))]
        else t.nodes;
      Collected(t.(handles := t.handles - {fh}, nodes := nodes), id)
  }

  function ForgottenAll(t: Table, counts: seq<(nat, nat)>): Table
    decreases |counts|
  {
    if counts == [] then t else ForgottenAll(Forgotten(t, counts[0].0, counts[0].1), counts[1..])
  }

  function ClosedAll(t: Table, fhs: seq<nat>): Table
    decreases |fhs|
  {
    if fhs == [] then t else ClosedAll(Closed(t, fhs[0]), fhs[1..])
  }

  function InternedAll(t: Table, paths: seq<Path>, parent: nat): Table
    decreases |paths|
  {
    if paths == [] then t else InternedAll(Interned(t, paths[0], parent), paths[1..], parent)
  }

  /** The ids that gives, in order. */
  function IdsOf(t: Table, paths: seq<Path>, parent: nat): seq<nat>
    decreases |paths|
  {
    if paths == [] then [] else [IdOf(t, paths[0])] + IdsOf(Interned(t, paths[0], parent), paths[1..], parent)
  }

  function CollectedAll(t: Table, ids: seq<nat>): Table
    decreases |ids|
  {
    if ids == [] then t else CollectedAll(Collected(t, ids[0]), ids[1..])
  }

  /** The paths of a directory's entries, those left out whose names could not be looked up. */
  function Children(path: Path, names: seq<string>): seq<Path> {
    if names == [] then []
    else (if ValidName(names[0]) then [path + [names[0]]] else []) + Children(path, names[1..])
  }

  /** The listing a READDIR goes through: the one kept, or from the start the one the host gives now, if it does. */
  function Listing(t: Table, fh: nat, offset: nat, names: Option<seq<string>>): Option<seq<Path>>
    requires fh in t.handles && t.handles[fh].node in t.nodes
  {
    if offset > 0 && t.handles[fh].listing.Some? then t.handles[fh].listing
    else if names.None? || t.nodes[t.handles[fh].node].parent !in t.nodes then None
    else Some(Children(t.nodes[t.handles[fh].node].path, names.value))
  }

  /** Entry 0 is ".", entry 1 is ".."; those before the offset were given already. */
  function Skipped(listing: seq<Path>, offset: nat): (n: nat)
    ensures n <= |listing|
  {
    if offset <= 2 then 0 else if offset - 2 < |listing| then offset - 2 else |listing|
  }

  /** Every entry from the offset on is interned, and all are collected: only what the guest looked up stays. */
  function Listed(t: Table, fh: nat, listing: seq<Path>, offset: nat): Table
    requires fh in t.handles && t.handles[fh].node in t.nodes
  {
    var node := t.handles[fh].node;
    var kept, n := t.(handles := t.handles[fh := t.handles[fh].(listing := Some(listing))]), Skipped(listing, offset);
    CollectedAll(InternedAll(kept, listing[n..], node),
      [node, t.nodes[node].parent] + seq(n, _ => 0) + IdsOf(kept, listing[n..], node))
  }

  /** The moved node keeps its id: its path and parent follow it. */
  function Renamed(t: Table, from: Path, to: Path, newParent: nat): Table {
    if from !in t.ids then t
    else
      var id := t.ids[from];
      if id !in t.nodes then t.(ids := (t.ids - {from})[to := id])
      else
        var previous := t.nodes[id].parent;
        var moved := t.(ids := (t.ids - {from})[to := id],
          nodes := t.nodes[id := t.nodes[id].(path := to, parent := newParent)]);
        if previous == newParent then moved
        else Collected(moved.(nodes := Orphaned(Adopted(moved.nodes, newParent), previous)), previous)
  }

  // ---- requests -------------------------------------------------------------------------------------------

  /**
   `host`: the host's own call went through. `stat`: so did the one for the entry's attributes.
   LOOKUP, MKDIR and SYMLINK are Enter; CREATE is EnterOpen. `names`: what the host's own listing gives, if it
   goes through. `order`: the order in which the table of handles gives them.
   */
  datatype Request =
    | Enter(parent: nat, name: string, host: bool, stat: bool)
    | EnterOpen(parent: nat, name: string, host: bool, stat: bool)
    | Forget(id: nat, count: nat)
    | BatchForget(counts: seq<(nat, nat)>)
    | Unlink(parent: nat, name: string, host: bool)
    | Rename(parent: nat, oldName: string, newParent: nat, newName: string, host: bool)
    | Open(id: nat, directory: bool, host: bool)
    | Release(fh: nat, directory: bool)
    | ReadDir(fh: nat, offset: nat, names: Option<seq<string>>)
    | Destroy(order: seq<nat>)

  /** More than any count of lookups. */
  const U64_MAX: nat := 0xffff_ffff_ffff_ffff

  /** validate_name: nothing that could step outside the share. */
  predicate ValidName(name: string) {
    name != "" && name != "." && name != ".." && '/' !in name && '\0' !in name
  }

  /** A path in a directory, inside the share. */
  function Child(t: Table, root: Path, parent: nat, name: string): Option<Path> {
    if parent !in t.nodes || !ValidName(name) then None
    else
      var path := t.nodes[parent].path + [name];
      if root <= path then Some(path) else None
  }

  function Apply(t: Table, root: Path, r: Request): Table {
    match r
    case Enter(parent, name, host, stat) => Entered(t, Child(t, root, parent, name), parent, host, stat)
    case EnterOpen(parent, name, host, stat) =>
      var path := Child(t, root, parent, name);
      var entered := Entered(t, path, parent, host, stat);
      if path.Some? && host && stat && IdOf(t, path.value) in entered.nodes
        then Opened(entered, IdOf(t, path.value), false) else entered
    case Forget(id, count) => Forgotten(t, id, count)
    case BatchForget(counts) => ForgottenAll(t, counts)
    case Unlink(parent, name, host) =>
      var path := Child(t, root, parent, name);
      if path.Some? && host && path.value in t.ids then Forgotten(t, t.ids[path.value], U64_MAX) else t
    case Rename(parent, oldName, newParent, newName, host) =>
      var from, to := Child(t, root, parent, oldName), Child(t, root, newParent, newName);
      if from.Some? && to.Some? && host then Renamed(t, from.value, to.value, newParent) else t
    case Open(id, directory, host) => if id in t.nodes && host then Opened(t, id, directory) else t
    case Release(fh, directory) => if fh in t.handles && t.handles[fh].directory == directory then Closed(t, fh) else t
    case ReadDir(fh, offset, names) =>
      if fh in t.handles && t.handles[fh].directory && t.handles[fh].node in t.nodes then
        var listing := Listing(t, fh, offset, names);
        if listing.Some? then Listed(t, fh, listing.value, offset) else t
      else t
    case Destroy(order) => ClosedAll(t, order)
  }

  function Entered(t: Table, path: Option<Path>, parent: nat, host: bool, stat: bool): Table {
    if path.None? || !host then t
    else
      var known := Interned(t, path.value, parent);
      if stat then Looked(known, IdOf(t, path.value)) else known
  }

  function ApplyAll(t: Table, root: Path, rs: seq<Request>): Table {
    if rs == [] then t else Apply(ApplyAll(t, root, rs[..|rs| - 1]), root, rs[|rs| - 1])
  }

  // ---- what every run keeps -------------------------------------------------------------------------------

  function Kids(nodes: map<nat, Node>, k: nat): set<nat> {
    set c | c in nodes && c != ROOT && nodes[c].parent == k
  }

  function HandlesOn(handles: map<nat, Handle>, k: nat): set<nat> {
    set h | h in handles && handles[h].node == k
  }

  /** A node's parent is there, its counts are what they count, and its path is in the share. */
  ghost predicate NodeOk(t: Table, root: Path, k: nat)
    requires k in t.nodes
  {
    var n := t.nodes[k];
    && n.parent in t.nodes && n.children == |Kids(t.nodes, k)| && n.handles == |HandlesOn(t.handles, k)|
    && root <= n.path && k < t.nextNode && (k != ROOT ==> n.path != root)
  }

  /** Entries of the share, below its root. */
  ghost predicate Inside(root: Path, paths: seq<Path>) {
    forall i :: 0 <= i < |paths| ==> root <= paths[i] && paths[i] != root
  }

  /** A handle's node is there, and what it has listed is in the share, also after renames. */
  ghost predicate HandleOk(t: Table, root: Path, h: nat)
    requires h in t.handles
  {
    t.handles[h].node in t.nodes && h < t.nextHandle
    && (t.handles[h].listing.Some? ==> Inside(root, t.handles[h].listing.value))
  }

  ghost predicate IdOk(t: Table, p: Path)
    requires p in t.ids
  {
    t.ids[p] in t.nodes && t.nodes[t.ids[p]].path == p
  }

  ghost predicate NodesOk(t: Table, root: Path) {
    forall k {:trigger NodeOk(t, root, k)} :: k in t.nodes ==> NodeOk(t, root, k)
  }

  ghost predicate NamesOk(t: Table, root: Path) {
    && (forall h {:trigger HandleOk(t, root, h)} :: h in t.handles ==> HandleOk(t, root, h))
    && (forall p {:trigger IdOk(t, p)} :: p in t.ids ==> IdOk(t, p))
  }

  ghost predicate Inv(t: Table, root: Path) {
    ROOT in t.nodes && t.nodes[ROOT].path == root && t.nodes[ROOT].parent == ROOT && NodesOk(t, root)
      && NamesOk(t, root)
  }
}

module FuseNodesProofs {
  import opened FuseNodes

  // ---- counting -------------------------------------------------------------------------------------------

  /** Same parents, same children. */
  lemma {:induction false} KidsSame(nodes: map<nat, Node>, nodes': map<nat, Node>, k: nat)
    requires nodes'.Keys == nodes.Keys && forall c :: c in nodes ==> nodes'[c].parent == nodes[c].parent
    ensures Kids(nodes', k) == Kids(nodes, k)
  {
  }

  lemma {:induction false} KidsAdd(nodes: map<nat, Node>, nodes': map<nat, Node>, id: nat, k: nat)
    requires id !in nodes && id != ROOT && nodes'.Keys == nodes.Keys + {id}
      && forall c :: c in nodes ==> nodes'[c].parent == nodes[c].parent
    ensures |Kids(nodes', k)| == |Kids(nodes, k)| + if nodes'[id].parent == k then 1 else 0
  {
    if nodes'[id].parent == k {
      assert Kids(nodes', k) == Kids(nodes, k) + {id};
    } else {
      assert Kids(nodes', k) == Kids(nodes, k);
    }
  }

  lemma {:induction false} KidsDrop(nodes: map<nat, Node>, nodes': map<nat, Node>, id: nat, k: nat)
    requires id in nodes && id != ROOT && nodes'.Keys == nodes.Keys - {id}
      && forall c :: c in nodes' ==> nodes'[c].parent == nodes[c].parent
    ensures |Kids(nodes', k)| == |Kids(nodes, k)| - if nodes[id].parent == k then 1 else 0
  {
    if nodes[id].parent == k {
      assert Kids(nodes', k) == Kids(nodes, k) - {id} && id in Kids(nodes, k);
    } else {
      assert Kids(nodes', k) == Kids(nodes, k);
    }
  }

  lemma {:induction false} KidsMove(nodes: map<nat, Node>, nodes': map<nat, Node>, id: nat, k: nat)
    requires id in nodes && id != ROOT && nodes'.Keys == nodes.Keys && nodes'[id].parent != nodes[id].parent
    requires forall c :: c in nodes && c != id ==> nodes'[c].parent == nodes[c].parent
    ensures |Kids(nodes', k)| == |Kids(nodes, k)| + (if nodes'[id].parent == k then 1 else 0)
      - (if nodes[id].parent == k then 1 else 0)
  {
    if nodes'[id].parent == k {
      assert Kids(nodes', k) == Kids(nodes, k) + {id};
    } else if nodes[id].parent == k {
      assert Kids(nodes', k) == Kids(nodes, k) - {id} && id in Kids(nodes, k);
    } else {
      assert Kids(nodes', k) == Kids(nodes, k);
    }
  }

  lemma {:induction false} HandlesAdd(handles: map<nat, Handle>, fh: nat, h: Handle, k: nat)
    requires fh !in handles
    ensures |HandlesOn(handles[fh := h], k)| == |HandlesOn(handles, k)| + if h.node == k then 1 else 0
  {
    assert HandlesOn(handles[fh := h], k) == HandlesOn(handles, k) + if h.node == k then {fh} else {};
  }

  lemma {:induction false} HandlesDrop(handles: map<nat, Handle>, fh: nat, k: nat)
    requires fh in handles
    ensures |HandlesOn(handles - {fh}, k)| == |HandlesOn(handles, k)| - if handles[fh].node == k then 1 else 0
  {
    if handles[fh].node == k {
      assert HandlesOn(handles - {fh}, k) == HandlesOn(handles, k) - {fh} && fh in HandlesOn(handles, k);
    } else {
      assert HandlesOn(handles - {fh}, k) == HandlesOn(handles, k);
    }
  }

  /** The next ids are not yet in use. */
  lemma {:induction false} NewIds(t: Table, root: Path)
    requires Inv(t, root)
    ensures t.nextNode !in t.nodes && t.nextHandle !in t.handles
  {
    forall k | k in t.nodes ensures k < t.nextNode { assert NodeOk(t, root, k); }
    forall h | h in t.handles ensures h < t.nextHandle { assert HandleOk(t, root, h); }
  }

  // ---- the parts of requests ------------------------------------------------------------------------------

  /** Counts of lookups are free to change. */
  lemma {:induction false} LookupsFree(t: Table, root: Path, id: nat, lookups: nat)
    requires Inv(t, root) && id in t.nodes
    ensures Inv(t.(nodes := t.nodes[id := t.nodes[id].(lookups := lookups)]), root)
  {
    var t' := t.(nodes := t.nodes[id := t.nodes[id].(lookups := lookups)]);
    forall k | k in t'.nodes ensures NodeOk(t', root, k) {
      assert NodeOk(t, root, k);
      KidsSame(t.nodes, t'.nodes, k);
    }
    forall h | h in t'.handles ensures HandleOk(t', root, h) { assert HandleOk(t, root, h); }
    forall p | p in t'.ids ensures IdOk(t', p) { assert IdOk(t, p); }
  }

  lemma {:induction false} InternKeeps(t: Table, root: Path, path: Path, parent: nat)
    requires Inv(t, root) && parent in t.nodes && root <= path && path != root
    ensures Inv(Interned(t, path, parent), root)
    ensures IdOf(t, path) in Interned(t, path, parent).nodes
      && Interned(t, path, parent).nodes[IdOf(t, path)].path == path
  {
    if path in t.ids {
      assert IdOk(t, path);
    } else {
      NewIds(t, root);
      InternKeepsNodes(t, root, path, parent);
      InternKeepsNames(t, root, path, parent);
    }
  }

  lemma {:induction false} InternKeepsNodes(t: Table, root: Path, path: Path, parent: nat)
    requires Inv(t, root) && parent in t.nodes && root <= path && path != root && path !in t.ids
      && t.nextNode !in t.nodes
    ensures NodesOk(Interned(t, path, parent), root)
  {
    var t', id := Interned(t, path, parent), t.nextNode;
    NoKids(t, root, id);
    assert NodeOk(t, root, ROOT);
    forall k | k in t'.nodes ensures NodeOk(t', root, k) {
      KidsAdd(t.nodes, t'.nodes, id, k);
      if k != id { assert NodeOk(t, root, k); }
    }
  }

  lemma {:induction false} InternKeepsNames(t: Table, root: Path, path: Path, parent: nat)
    requires NamesOk(t, root) && path !in t.ids && parent in t.nodes && t.nextNode !in t.nodes
    ensures NamesOk(Interned(t, path, parent), root)
  {
    var t' := Interned(t, path, parent);
    forall h | h in t'.handles ensures HandleOk(t', root, h) { assert HandleOk(t, root, h); }
    forall p | p in t'.ids ensures IdOk(t', p) { if p != path { assert IdOk(t, p); } }
  }

  /** Nothing is in, or open on, a node that is not there. */
  lemma {:induction false} NoKids(t: Table, root: Path, id: nat)
    requires Inv(t, root) && id !in t.nodes
    ensures Kids(t.nodes, id) == {} && HandlesOn(t.handles, id) == {}
  {
    forall c | c in t.nodes ensures t.nodes[c].parent != id { assert NodeOk(t, root, c); }
    forall h | h in t.handles ensures t.handles[h].node != id { assert HandleOk(t, root, h); }
  }

  /** A node with no counts is named by nothing: it can go, and its parent has one child less, not fewer than none. */
  lemma {:induction false} DropKeeps(t: Table, root: Path, id: nat)
    requires Inv(t, root) && id != ROOT && id in t.nodes && Unneeded(t.nodes[id])
    ensures Inv(Dropped(t, id), root) && t.nodes[id].parent in t.nodes && t.nodes[id].parent != id
      && t.nodes[t.nodes[id].parent].children >= 1
  {
    NeededByNone(t, root, id);
    DropKeepsNodes(t, root, id);
    DropKeepsNames(t, root, id);
  }

  lemma {:induction false} DropKeepsNodes(t: Table, root: Path, id: nat)
    requires NodesOk(t, root) && id != ROOT && id in t.nodes && Kids(t.nodes, id) == {} && ROOT in t.nodes
      && t.nodes[ROOT].parent == ROOT
    ensures NodesOk(Dropped(t, id), root)
  {
    var t' := Dropped(t, id);
    forall k | k in t'.nodes ensures NodeOk(t', root, k) {
      assert NodeOk(t, root, k) && k !in Kids(t.nodes, id);
      DropKeepsNode(t, root, id, k);
    }
  }

  lemma {:induction false} NeededByNone(t: Table, root: Path, id: nat)
    requires Inv(t, root) && id != ROOT && id in t.nodes && Unneeded(t.nodes[id])
    ensures Kids(t.nodes, id) == {} && HandlesOn(t.handles, id) == {}
    ensures t.nodes[id].parent in t.nodes && t.nodes[id].parent != id && t.nodes[t.nodes[id].parent].children >= 1
  {
    assert NodeOk(t, root, id);
    var parent := t.nodes[id].parent;
    assert id in Kids(t.nodes, parent) && NodeOk(t, root, parent);
  }

  lemma {:induction false} DropKeepsNames(t: Table, root: Path, id: nat)
    requires Inv(t, root) && id in t.nodes && HandlesOn(t.handles, id) == {}
    ensures NamesOk(Dropped(t, id), root)
  {
    var t' := Dropped(t, id);
    forall h | h in t'.handles ensures HandleOk(t', root, h) {
      assert HandleOk(t, root, h) && h !in HandlesOn(t.handles, id);
    }
    forall p | p in t'.ids ensures IdOk(t', p) { assert IdOk(t, p); }
  }

  lemma {:induction false} DropKeepsNode(t: Table, root: Path, id: nat, k: nat)
    requires id in t.nodes && id != ROOT && k in t.nodes && k != id && NodeOk(t, root, k) && t.nodes[k].parent != id
    ensures NodeOk(Dropped(t, id), root, k)
  {
    KidsDrop(t.nodes, Dropped(t, id).nodes, id, k);
  }

  lemma {:induction false} CollectKeeps(t: Table, root: Path, id: nat)
    requires Inv(t, root)
    ensures Inv(Collected(t, id), root)
    decreases |t.nodes|
  {
    if !(id == ROOT || id !in t.nodes || !Unneeded(t.nodes[id])) {
      DropKeeps(t, root, id);
      assert Dropped(t, id).nodes.Keys == t.nodes.Keys - {id};
      assert |t.nodes.Keys - {id}| == |t.nodes.Keys| - 1;
      CollectKeeps(Dropped(t, id), root, t.nodes[id].parent);
    }
  }

  lemma {:induction false} ForgetKeeps(t: Table, root: Path, id: nat, count: nat)
    requires Inv(t, root)
    ensures Inv(Forgotten(t, id, count), root)
  {
    if id in t.nodes {
      var lookups := SaturatingSub(t.nodes[id].lookups, count);
      LookupsFree(t, root, id, lookups);
      CollectKeeps(t.(nodes := t.nodes[id := t.nodes[id].(lookups := lookups)]), root, id);
    } else {
      CollectKeeps(t, root, id);
    }
  }

  lemma {:induction false} OpenKeeps(t: Table, root: Path, id: nat, directory: bool)
    requires Inv(t, root) && id in t.nodes
    ensures Inv(Opened(t, id, directory), root)
  {
    var t', fh := Opened(t, id, directory), t.nextHandle;
    NewIds(t, root);
    forall k | k in t'.nodes ensures NodeOk(t', root, k) {
      assert NodeOk(t, root, k);
      KidsSame(t.nodes, t'.nodes, k);
      HandlesAdd(t.handles, fh, Handle(id, directory, None), k);
    }
    forall h | h in t'.handles ensures HandleOk(t', root, h) { if h != fh { assert HandleOk(t, root, h); } }
    forall p | p in t'.ids ensures IdOk(t', p) { assert IdOk(t, p); }
  }

  /** One handle less: its node counted it. */
  lemma {:induction false} CloseKeeps(t: Table, root: Path, fh: nat)
    requires Inv(t, root) && fh in t.handles
    ensures Inv(Closed(t, fh), root) && t.handles[fh].node in t.nodes && t.nodes[t.handles[fh].node].handles >= 1
  {
    assert HandleOk(t, root, fh);
    var id := t.handles[fh].node;
    assert NodeOk(t, root, id) && fh in HandlesOn(t.handles, id);
    var t' := t.(handles := t.handles - {fh},
      nodes := t.nodes[id := t.nodes[id].(handles := SaturatingSub(t.nodes[id].handles, 1))]);
    forall k | k in t'.nodes ensures NodeOk(t', root, k) {
      assert NodeOk(t, root, k);
      KidsSame(t.nodes, t'.nodes, k);
      HandlesDrop(t.handles, fh, k);
    }
    forall h | h in t'.handles ensures HandleOk(t', root, h) { assert HandleOk(t, root, h); }
    forall p | p in t'.ids ensures IdOk(t', p) { assert IdOk(t, p); }
    CollectKeeps(t', root, id);
  }

  /** A node under another name in the same directory. */
  lemma {:induction false} RepathKeeps(t: Table, root: Path, from: Path, to: Path)
    requires Inv(t, root) && from in t.ids && t.ids[from] != ROOT && root <= to && to != root
    ensures var id := t.ids[from];
      id in t.nodes && Inv(t.(ids := (t.ids - {from})[to := id], nodes := t.nodes[id := t.nodes[id].(path := to)]),
      root)
  {
    var id := t.ids[from];
    assert IdOk(t, from);
    var t' := t.(ids := (t.ids - {from})[to := id], nodes := t.nodes[id := t.nodes[id].(path := to)]);
    forall k | k in t'.nodes ensures NodeOk(t', root, k) {
      assert NodeOk(t, root, k);
      KidsSame(t.nodes, t'.nodes, k);
    }
    forall h | h in t'.handles ensures HandleOk(t', root, h) { assert HandleOk(t, root, h); }
    forall p | p in t'.ids ensures IdOk(t', p) {
      if p != to { assert IdOk(t, p); }
    }
  }

  /** A node put in another directory. */
  function MovedTo(t: Table, id: nat, newParent: nat): Table
    requires id in t.nodes
  {
    t.(nodes := Orphaned(Adopted(t.nodes[id := t.nodes[id].(parent := newParent)], newParent), t.nodes[id].parent))
  }

  /** A node moved to another directory: the old one counted it. */
  lemma {:induction false} MoveKeeps(t: Table, root: Path, id: nat, newParent: nat)
    requires Inv(t, root) && id in t.nodes && id != ROOT && newParent in t.nodes && newParent != t.nodes[id].parent
    ensures t.nodes[id].parent in t.nodes && t.nodes[t.nodes[id].parent].children >= 1
      && Inv(MovedTo(t, id, newParent), root)
  {
    MoveCounted(t, root, id);
    MoveKeepsNodes(t, root, id, newParent);
    NamesStay(t, root, MovedTo(t, id, newParent));
  }

  lemma {:induction false} MoveCounted(t: Table, root: Path, id: nat)
    requires NodesOk(t, root) && id in t.nodes && id != ROOT
    ensures t.nodes[id].parent in t.nodes && t.nodes[t.nodes[id].parent].children >= 1
  {
    assert NodeOk(t, root, id);
    assert NodeOk(t, root, t.nodes[id].parent) && id in Kids(t.nodes, t.nodes[id].parent);
  }

  lemma {:induction false} MoveKeepsNodes(t: Table, root: Path, id: nat, newParent: nat)
    requires NodesOk(t, root) && id in t.nodes && id != ROOT && newParent in t.nodes
      && newParent != t.nodes[id].parent && t.nodes[id].parent in t.nodes
    ensures NodesOk(MovedTo(t, id, newParent), root)
  {
    var t' := MovedTo(t, id, newParent);
    forall k | k in t'.nodes ensures NodeOk(t', root, k) {
      assert NodeOk(t, root, k);
      MoveKeepsNode(t, root, id, newParent, k);
    }
  }

  /** The same nodes with the same paths: handles and ids still name them. */
  lemma {:induction false} NamesStay(t: Table, root: Path, t': Table)
    requires NamesOk(t, root) && t'.handles == t.handles && t'.ids == t.ids && t'.nextHandle == t.nextHandle
      && t'.nodes.Keys == t.nodes.Keys
    requires forall k :: k in t.nodes ==> t'.nodes[k].path == t.nodes[k].path
    ensures NamesOk(t', root)
  {
    forall h | h in t'.handles ensures HandleOk(t', root, h) { assert HandleOk(t, root, h); }
    forall p | p in t'.ids ensures IdOk(t', p) { assert IdOk(t, p); }
  }

  lemma {:induction false} MoveKeepsNode(t: Table, root: Path, id: nat, newParent: nat, k: nat)
    requires id in t.nodes && id != ROOT && newParent in t.nodes && newParent != t.nodes[id].parent
      && t.nodes[id].parent in t.nodes
    requires k in t.nodes && NodeOk(t, root, k)
    ensures k in MovedTo(t, id, newParent).nodes && NodeOk(MovedTo(t, id, newParent), root, k)
  {
    KidsMove(t.nodes, MovedTo(t, id, newParent).nodes, id, k);
    if k == t.nodes[id].parent { assert id in Kids(t.nodes, k); }
  }

  lemma {:induction false} RenameKeeps(t: Table, root: Path, from: Path, to: Path, newParent: nat)
    requires Inv(t, root) && newParent in t.nodes && root <= from && from != root && root <= to && to != root
    ensures Inv(Renamed(t, from, to, newParent), root)
  {
    if from in t.ids {
      var id := t.ids[from];
      assert IdOk(t, from);
      RepathKeeps(t, root, from, to);
      var t1 := t.(ids := (t.ids - {from})[to := id], nodes := t.nodes[id := t.nodes[id].(path := to)]);
      var previous := t.nodes[id].parent;
      if previous == newParent {
        assert t1.nodes == t.nodes[id := t.nodes[id].(path := to, parent := newParent)];
      } else {
        MoveKeeps(t1, root, id, newParent);
        assert t1.nodes[id := t1.nodes[id].(parent := newParent)] ==
          t.nodes[id := t.nodes[id].(path := to, parent := newParent)];
        CollectKeeps(MovedTo(t1, id, newParent), root, previous);
      }
    }
  }

  // ---- every run ------------------------------------------------------------------------------------------

  /** A child's path is in the share, and longer than its root's: no request is refused for leaving the share. */
  lemma {:induction false} ChildInside(t: Table, root: Path, parent: nat, name: string)
    requires Inv(t, root)
    ensures Child(t, root, parent, name).Some? <==> parent in t.nodes && ValidName(name)
    ensures parent in t.nodes && ValidName(name) ==>
      root <= Child(t, root, parent, name).value && Child(t, root, parent, name).value != root
  {
    if parent in t.nodes && ValidName(name) {
      assert NodeOk(t, root, parent);
      var path := t.nodes[parent].path + [name];
      assert path[..|root|] == t.nodes[parent].path[..|root|];
    }
  }

  lemma {:induction false} EnterKeeps(t: Table, root: Path, parent: nat, name: string, host: bool, stat: bool)
    requires Inv(t, root)
    ensures Inv(Entered(t, Child(t, root, parent, name), parent, host, stat), root)
    ensures var path := Child(t, root, parent, name);
      path.Some? && host ==> IdOf(t, path.value) in Entered(t, path, parent, host, stat).nodes
  {
    ChildInside(t, root, parent, name);
    var path := Child(t, root, parent, name);
    if path.Some? && host {
      InternKeeps(t, root, path.value, parent);
      var known, id := Interned(t, path.value, parent), IdOf(t, path.value);
      LookupsFree(known, root, id, known.nodes[id].lookups + 1);
    }
  }

  lemma {:induction false} ForgetAllKeeps(t: Table, root: Path, counts: seq<(nat, nat)>)
    requires Inv(t, root)
    ensures Inv(ForgottenAll(t, counts), root)
    decreases |counts|
  {
    if counts != [] {
      ForgetKeeps(t, root, counts[0].0, counts[0].1);
      ForgetAllKeeps(Forgotten(t, counts[0].0, counts[0].1), root, counts[1..]);
    }
  }

  lemma {:induction false} CloseAllKeeps(t: Table, root: Path, fhs: seq<nat>)
    requires Inv(t, root)
    ensures Inv(ClosedAll(t, fhs), root)
    decreases |fhs|
  {
    if fhs != [] {
      if fhs[0] in t.handles { CloseKeeps(t, root, fhs[0]); }
      CloseAllKeeps(Closed(t, fhs[0]), root, fhs[1..]);
    }
  }

  lemma {:induction false} CollectAllKeeps(t: Table, root: Path, ids: seq<nat>)
    requires Inv(t, root)
    ensures Inv(CollectedAll(t, ids), root)
    decreases |ids|
  {
    if ids != [] {
      CollectKeeps(t, root, ids[0]);
      CollectAllKeeps(Collected(t, ids[0]), root, ids[1..]);
    }
  }

  lemma {:induction false} InternAllKeeps(t: Table, root: Path, paths: seq<Path>, parent: nat)
    requires Inv(t, root) && parent in t.nodes && Inside(root, paths)
    ensures Inv(InternedAll(t, paths, parent), root)
    decreases |paths|
  {
    if paths != [] {
      InternKeeps(t, root, paths[0], parent);
      InternAllKeeps(Interned(t, paths[0], parent), root, paths[1..], parent);
    }
  }

  lemma {:induction false} ChildrenInside(root: Path, path: Path, names: seq<string>)
    requires root <= path
    ensures Inside(root, Children(path, names))
    decreases |names|
  {
    if names != [] {
      ChildrenInside(root, path, names[1..]);
      var one := path + [names[0]];
      assert one[..|root|] == path[..|root|];
    }
  }

  /** Also a listing kept from before a rename is in the share. */
  lemma {:induction false} ListingInside(t: Table, root: Path, fh: nat, offset: nat, names: Option<seq<string>>)
    requires Inv(t, root) && fh in t.handles && t.handles[fh].node in t.nodes
    ensures var listing := Listing(t, fh, offset, names); listing.Some? ==> Inside(root, listing.value)
  {
    assert HandleOk(t, root, fh);
    var node := t.handles[fh].node;
    assert NodeOk(t, root, node);
    if names.Some? { ChildrenInside(root, t.nodes[node].path, names.value); }
  }

  /** The table with a handle's listing kept. */
  function WithListing(t: Table, fh: nat, listing: seq<Path>): Table
    requires fh in t.handles
  {
    t.(handles := t.handles[fh := t.handles[fh].(listing := Some(listing))])
  }

  lemma {:induction false} ListingKeeps(t: Table, root: Path, fh: nat, listing: seq<Path>)
    requires Inv(t, root) && fh in t.handles && Inside(root, listing)
    ensures Inv(WithListing(t, fh, listing), root)
  {
    var t' := WithListing(t, fh, listing);
    forall k | k in t'.nodes ensures NodeOk(t', root, k) {
      assert NodeOk(t, root, k);
      assert HandlesOn(t'.handles, k) == HandlesOn(t.handles, k);
    }
    forall h | h in t'.handles ensures HandleOk(t', root, h) { assert HandleOk(t, root, h); }
    forall p | p in t'.ids ensures IdOk(t', p) { assert IdOk(t, p); }
  }

  lemma {:induction false} ListedKeeps(t: Table, root: Path, fh: nat, listing: seq<Path>, offset: nat)
    requires Inv(t, root) && fh in t.handles && t.handles[fh].node in t.nodes && Inside(root, listing)
    ensures Inv(Listed(t, fh, listing, offset), root)
  {
    var node, n, kept := t.handles[fh].node, Skipped(listing, offset), WithListing(t, fh, listing);
    ListingKeeps(t, root, fh, listing);
    InternAllKeeps(kept, root, listing[n..], node);
    CollectAllKeeps(InternedAll(kept, listing[n..], node), root,
      [node, t.nodes[node].parent] + seq(n, _ => 0) + IdsOf(kept, listing[n..], node));
  }

  lemma {:induction false} InvStep(t: Table, root: Path, r: Request)
    requires Inv(t, root)
    ensures Inv(Apply(t, root, r), root)
  {
    match r
    case Enter(parent, name, host, stat) => EnterKeeps(t, root, parent, name, host, stat);
    case EnterOpen(parent, name, host, stat) =>
      EnterKeeps(t, root, parent, name, host, stat);
      var path := Child(t, root, parent, name);
      var entered := Entered(t, path, parent, host, stat);
      if path.Some? && host && stat { OpenKeeps(entered, root, IdOf(t, path.value), false); }
    case Forget(id, count) => ForgetKeeps(t, root, id, count);
    case BatchForget(counts) => ForgetAllKeeps(t, root, counts);
    case Unlink(parent, name, host) =>
      var path := Child(t, root, parent, name);
      if path.Some? && host && path.value in t.ids { ForgetKeeps(t, root, t.ids[path.value], U64_MAX); }
    case Rename(parent, oldName, newParent, newName, host) =>
      ChildInside(t, root, parent, oldName);
      ChildInside(t, root, newParent, newName);
      var from, to := Child(t, root, parent, oldName), Child(t, root, newParent, newName);
      if from.Some? && to.Some? && host { RenameKeeps(t, root, from.value, to.value, newParent); }
    case Open(id, directory, host) => if id in t.nodes && host { OpenKeeps(t, root, id, directory); }
    case Release(fh, directory) => if fh in t.handles && t.handles[fh].directory == directory {
      CloseKeeps(t, root, fh);
    }
    case ReadDir(fh, offset, names) =>
      if fh in t.handles && t.handles[fh].directory && t.handles[fh].node in t.nodes {
        ListingInside(t, root, fh, offset, names);
        var listing := Listing(t, fh, offset, names);
        if listing.Some? { ListedKeeps(t, root, fh, listing.value, offset); }
      }
    case Destroy(order) => CloseAllKeeps(t, root, order);
  }

  lemma {:induction false} InvNew(root: Path)
    ensures Inv(NewTable(root), root)
  {
    var t := NewTable(root);
    assert Kids(t.nodes, ROOT) == {} && HandlesOn(t.handles, ROOT) == {};
  }

  lemma {:induction false} RunKeeps(root: Path, rs: seq<Request>)
    ensures Inv(ApplyAll(NewTable(root), root, rs), root)
    decreases |rs|
  {
    if rs == [] {
      InvNew(root);
    } else {
      RunKeeps(root, rs[..|rs| - 1]);
      InvStep(ApplyAll(NewTable(root), root, rs[..|rs| - 1]), root, rs[|rs| - 1]);
    }
  }

  // ---- what is kept and what is dropped -------------------------------------------------------------------

  /** Collecting drops only nodes nothing needs, and a node kept says what it said, but for its count of children. */
  lemma {:induction false} CollectDropsUnneeded(t: Table, root: Path, id: nat, k: nat)
    requires Inv(t, root) && k in t.nodes && (k == ROOT || t.nodes[k].lookups > 0 || t.nodes[k].handles > 0)
    ensures k in Collected(t, id).nodes && Collected(t, id).nodes[k].(children := 0) == t.nodes[k].(children := 0)
    decreases |t.nodes|
  {
    if !(id == ROOT || id !in t.nodes || !Unneeded(t.nodes[id])) {
      DropKeeps(t, root, id);
      assert Dropped(t, id).nodes.Keys == t.nodes.Keys - {id};
      assert |t.nodes.Keys - {id}| == |t.nodes.Keys| - 1;
      CollectDropsUnneeded(Dropped(t, id), root, t.nodes[id].parent, k);
    }
  }

  // ---- what each request does to the names ----------------------------------------------------------------

  /** Every node but `id` is as it was, its count of children apart. */
  ghost predicate OthersSame(t: Table, t': Table, id: nat) {
    forall k :: k in t.nodes && k != id ==> k in t'.nodes && t'.nodes[k].(children := 0) == t.nodes[k].(children := 0)
  }

  /** LOOKUP and its kin: the path has an id, one more lookup of which the guest has, and no other path changes. */
  lemma {:induction false} EnterNames(t: Table, root: Path, parent: nat, name: string)
    requires Inv(t, root) && parent in t.nodes && ValidName(name)
    ensures var t', path := Apply(t, root, Enter(parent, name, true, true)), t.nodes[parent].path + [name];
      && path in t'.ids && t'.ids == t.ids[path := t'.ids[path]]
      && (path in t.ids ==> t'.ids[path] == t.ids[path]) && (path !in t.ids ==> t'.ids[path] !in t.nodes)
      && t'.ids[path] in t'.nodes && t'.nodes[t'.ids[path]].path == path
      && t'.nodes[t'.ids[path]].lookups == 1 + (if path in t.ids && t.ids[path] in t.nodes
           then t.nodes[t.ids[path]].lookups else 0)
      && (path !in t.ids ==> t'.nodes[t'.ids[path]].parent == parent)
      && OthersSame(t, t', t'.ids[path]) && t'.handles == t.handles
  {
    ChildInside(t, root, parent, name);
    var path := t.nodes[parent].path + [name];
    NewIds(t, root);
    InternKeeps(t, root, path, parent);
    if path in t.ids { assert IdOk(t, path); }
  }

  /** CREATE opens what it entered: the next handle is its. */
  lemma {:induction false} CreateOpens(t: Table, root: Path, parent: nat, name: string)
    requires Inv(t, root) && parent in t.nodes && ValidName(name)
    ensures var path := t.nodes[parent].path + [name];
      var entered, t' := Apply(t, root, Enter(parent, name, true, true)),
        Apply(t, root, EnterOpen(parent, name, true, true));
      && path in entered.ids && t'.ids == entered.ids
      && t'.handles == t.handles[t.nextHandle := Handle(entered.ids[path], false, None)]
      && t'.nextHandle == t.nextHandle + 1
  {
    EnterNames(t, root, parent, name);
    ChildInside(t, root, parent, name);
    EnterKeeps(t, root, parent, name, true, true);
  }

  /** Collecting stops at a node that is needed. */
  lemma {:induction false} CollectSettles(t: Table, root: Path, id: nat)
    requires Inv(t, root)
    ensures id in Collected(t, id).nodes ==> id == ROOT || !Unneeded(Collected(t, id).nodes[id])
  {
    CollectOnlyDrops(t, root, id, id);
  }

  /** It stops nowhere sooner: the parent of a node that was dropped is dropped too, or needed. */
  lemma {:induction false} CollectClears(t: Table, root: Path, id: nat, k: nat)
    requires Inv(t, root) && k in t.nodes && k !in Collected(t, id).nodes
    ensures var p, t' := t.nodes[k].parent, Collected(t, id); p in t'.nodes ==> p == ROOT || !Unneeded(t'.nodes[p])
    decreases |t.nodes|
  {
    DropKeeps(t, root, id);
    var t1, p := Dropped(t, id), t.nodes[id].parent;
    assert t1.nodes.Keys == t.nodes.Keys - {id};
    assert |t.nodes.Keys - {id}| == |t.nodes.Keys| - 1;
    if k == id { CollectSettles(t1, root, p); } else { CollectClears(t1, root, p, k); }
  }

  /** FORGET gives lookups back; a node that is then needed for nothing is gone, and so is its name. */
  lemma {:induction false} ForgetExactly(t: Table, root: Path, id: nat, count: nat)
    requires Inv(t, root) && id in t.nodes && id != ROOT
    ensures var t', n := Apply(t, root, Forget(id, count)), t.nodes[id];
      if n.lookups <= count && n.handles == 0 && n.children == 0 then id !in t'.nodes && n.path !in t'.ids
      else t' == t.(nodes := t.nodes[id := n.(lookups := if n.lookups < count then 0 else n.lookups - count)])
  {
    var n := t.nodes[id];
    var left := t.(nodes := t.nodes[id := n.(lookups := SaturatingSub(n.lookups, count))]);
    LookupsFree(t, root, id, SaturatingSub(n.lookups, count));
    if Unneeded(left.nodes[id]) {
      DropKeeps(left, root, id);
      CollectOnlyDrops(left, root, id, id);
      CollectDropsIds(Dropped(left, id), n.parent, n.path);
    }
  }

  /** A name is gone for good when it is dropped. */
  lemma {:induction false} CollectDropsIds(t: Table, id: nat, p: Path)
    ensures p in Collected(t, id).ids ==> p in t.ids && Collected(t, id).ids[p] == t.ids[p]
    decreases |t.nodes|
  {
    if !(id == ROOT || id !in t.nodes || !Unneeded(t.nodes[id])) {
      assert Dropped(t, id).nodes.Keys == t.nodes.Keys - {id};
      assert |t.nodes.Keys - {id}| == |t.nodes.Keys| - 1;
      CollectDropsIds(Dropped(t, id), t.nodes[id].parent, p);
    }
  }

  /** UNLINK and RMDIR forget the path's node for good: as a FORGET of all the lookups there can be. */
  lemma {:induction false} UnlinkForgets(t: Table, root: Path, parent: nat, name: string)
    requires Inv(t, root) && parent in t.nodes && ValidName(name)
    ensures var t', path := Apply(t, root, Unlink(parent, name, true)), t.nodes[parent].path + [name];
      && (path !in t.ids ==> t' == t)
      && (path in t.ids ==>
        var id := t.ids[path];
        && id in t.nodes && t.nodes[id].path == path
        && (t.nodes[id].lookups <= 0xffff_ffff_ffff_ffff ==>
          if t.nodes[id].handles == 0 && t.nodes[id].children == 0 then id !in t'.nodes && path !in t'.ids
          else t' == t.(nodes := t.nodes[id := t.nodes[id].(lookups := 0)])))
  {
    ChildInside(t, root, parent, name);
    var path := t.nodes[parent].path + [name];
    if path in t.ids {
      assert IdOk(t, path);
      ForgetExactly(t, root, t.ids[path], U64_MAX);
    }
  }

  /** The old directory is needed, as while a guest names it: nothing is collected after it. */
  predicate DirStays(t: Table, id: nat) {
    id in t.nodes &&
    var dir := t.nodes[id].parent;
    dir == ROOT || (dir in t.nodes && (t.nodes[dir].lookups > 0 || t.nodes[dir].handles > 0))
  }

  lemma {:induction false} RenamedIs(t: Table, root: Path, from: Path, to: Path, newParent: nat)
    requires Inv(t, root) && from in t.ids && newParent in t.nodes && DirStays(t, t.ids[from])
    ensures var id, t' := t.ids[from], Renamed(t, from, to, newParent);
      && t'.ids == (t.ids - {from})[to := id] && id in t'.nodes
      && t'.nodes[id].path == to && t'.nodes[id].parent == newParent
      && t'.nodes[id].lookups == t.nodes[id].lookups && t'.nodes[id].handles == t.nodes[id].handles
      && OthersSame(t, t', id) && t'.nodes.Keys == t.nodes.Keys && t'.handles == t.handles
  {
    assert IdOk(t, from) && NodeOk(t, root, t.ids[from]);
    var id, previous := t.ids[from], t.nodes[t.ids[from]].parent;
    var moved := t.(ids := (t.ids - {from})[to := id],
      nodes := t.nodes[id := t.nodes[id].(path := to, parent := newParent)]);
    if previous == newParent {
      assert Renamed(t, from, to, newParent) == moved;
    } else {
      var counted := moved.(nodes := Orphaned(Adopted(moved.nodes, newParent), previous));
      Needed(counted, previous);
      assert Renamed(t, from, to, newParent) == counted;
    }
  }

  lemma {:induction false} Needed(t: Table, id: nat)
    requires id == ROOT || (id in t.nodes && (t.nodes[id].lookups > 0 || t.nodes[id].handles > 0))
    ensures Collected(t, id) == t
  {
  }

  /** Where a guest still has the old directory, a rename moves one name and no other. */
  lemma {:induction false} RenameMoves(t: Table, root: Path, parent: nat, oldName: string, newParent: nat,
      newName: string)
    requires Inv(t, root) && parent in t.nodes && newParent in t.nodes && ValidName(oldName) && ValidName(newName)
    requires t.nodes[parent].path + [oldName] in t.ids && DirStays(t, t.ids[t.nodes[parent].path + [oldName]])
    ensures var from, to := t.nodes[parent].path + [oldName], t.nodes[newParent].path + [newName];
      var id, t' := t.ids[from], Apply(t, root, Rename(parent, oldName, newParent, newName, true));
      && t'.ids == (t.ids - {from})[to := id] && id in t'.nodes
      && t'.nodes[id].path == to && t'.nodes[id].parent == newParent
      && t'.nodes[id].lookups == t.nodes[id].lookups && t'.nodes[id].handles == t.nodes[id].handles
      && OthersSame(t, t', id) && t'.nodes.Keys == t.nodes.Keys && t'.handles == t.handles
  {
    ChildInside(t, root, parent, oldName);
    ChildInside(t, root, newParent, newName);
    RenamedIs(t, root, t.nodes[parent].path + [oldName], t.nodes[newParent].path + [newName], newParent);
  }

  /** The node a rename makes of a node: the moved one has its new path and parent, any other is as it was. */
  function AfterRename(t: Table, from: Path, to: Path, newParent: nat, k: nat): Node
    requires from in t.ids && k in t.nodes
  {
    if k == t.ids[from] then t.nodes[k].(path := to, parent := newParent) else t.nodes[k]
  }

  /** Whatever becomes of the old directory: no node a guest has is lost, and no path leads anywhere else. */
  lemma {:induction false} RenameKeepsOthers(t: Table, root: Path, from: Path, to: Path, newParent: nat, k: nat,
      p: Path)
    requires Inv(t, root) && newParent in t.nodes && root <= from && from != root && root <= to && to != root
    requires from in t.ids && k in t.nodes && (k == ROOT || t.nodes[k].lookups > 0 || t.nodes[k].handles > 0)
    ensures var t' := Renamed(t, from, to, newParent);
      && k in t'.nodes && t'.nodes[k].(children := 0) == AfterRename(t, from, to, newParent, k).(children := 0)
      && t'.handles == t.handles
      && (p in t'.ids ==> if p == to then t'.ids[p] == t.ids[from]
         else p != from && p in t.ids && t'.ids[p] == t.ids[p])
  {
    var id := t.ids[from];
    assert IdOk(t, from);
    RepathKeeps(t, root, from, to);
    var t1 := t.(ids := (t.ids - {from})[to := id], nodes := t.nodes[id := t.nodes[id].(path := to)]);
    var previous := t.nodes[id].parent;
    if previous != newParent {
      MoveKeeps(t1, root, id, newParent);
      assert t1.nodes[id := t1.nodes[id].(parent := newParent)] ==
        t.nodes[id := t.nodes[id].(path := to, parent := newParent)];
      var t2 := MovedTo(t1, id, newParent);
      CollectDropsUnneeded(t2, root, previous, k);
      CollectDropsIds(t2, previous, p);
      CollectHandles(t2, previous);
    }
  }

  lemma {:induction false} CollectHandles(t: Table, id: nat)
    ensures Collected(t, id).handles == t.handles
    decreases |t.nodes|
  {
    if !(id == ROOT || id !in t.nodes || !Unneeded(t.nodes[id])) {
      assert Dropped(t, id).nodes.Keys == t.nodes.Keys - {id};
      assert |t.nodes.Keys - {id}| == |t.nodes.Keys| - 1;
      CollectHandles(Dropped(t, id), t.nodes[id].parent);
    }
  }

  /** Interning leaves every node but the directory as it is. */
  lemma {:induction false} InternAllLeaves(t: Table, root: Path, paths: seq<Path>, parent: nat, k: nat)
    requires Inv(t, root) && parent in t.nodes && Inside(root, paths) && k in t.nodes
    ensures var t' := InternedAll(t, paths, parent);
      k in t'.nodes && t'.nodes[k].(children := 0) == t.nodes[k].(children := 0)
      && (k != parent ==> t'.nodes[k] == t.nodes[k])
    decreases |paths|
  {
    if paths != [] {
      NewIds(t, root);
      InternKeeps(t, root, paths[0], parent);
      InternAllLeaves(Interned(t, paths[0], parent), root, paths[1..], parent, k);
    }
  }

  /** What interning adds is in the list of its ids, and needed by nothing. */
  lemma {:induction false} NewAreListed(t: Table, root: Path, paths: seq<Path>, parent: nat, k: nat)
    requires Inv(t, root) && parent in t.nodes && Inside(root, paths)
    requires k !in t.nodes && k in InternedAll(t, paths, parent).nodes
    ensures k in IdsOf(t, paths, parent) && Unneeded(InternedAll(t, paths, parent).nodes[k])
    decreases |paths|
  {
    var t' := Interned(t, paths[0], parent);
    NewIds(t, root);
    InternKeeps(t, root, paths[0], parent);
    if k in t'.nodes {
      InternAllLeaves(t', root, paths[1..], parent, k);
    } else {
      NewAreListed(t', root, paths[1..], parent, k);
    }
  }

  /** Collecting adds nothing, and makes nothing needed that was not. */
  lemma {:induction false} CollectOnlyDrops(t: Table, root: Path, id: nat, k: nat)
    requires Inv(t, root)
    ensures k in Collected(t, id).nodes ==> k in t.nodes
    ensures k in Collected(t, id).nodes && Unneeded(t.nodes[k]) ==>
      Unneeded(Collected(t, id).nodes[k]) && (k == ROOT || k != id)
    decreases |t.nodes|
  {
    if !(id == ROOT || id !in t.nodes || !Unneeded(t.nodes[id])) {
      DropKeeps(t, root, id);
      assert Dropped(t, id).nodes.Keys == t.nodes.Keys - {id};
      assert |t.nodes.Keys - {id}| == |t.nodes.Keys| - 1;
      CollectOnlyDrops(Dropped(t, id), root, t.nodes[id].parent, k);
    }
  }

  lemma {:induction false} CollectAllDrops(t: Table, root: Path, ids: seq<nat>, k: nat)
    requires Inv(t, root)
    ensures k in CollectedAll(t, ids).nodes ==> k in t.nodes
    ensures k in CollectedAll(t, ids).nodes && k != ROOT && Unneeded(t.nodes[k]) ==> k !in ids
    decreases |ids|
  {
    if ids != [] {
      CollectKeeps(t, root, ids[0]);
      CollectOnlyDrops(t, root, ids[0], k);
      CollectAllDrops(Collected(t, ids[0]), root, ids[1..], k);
    }
  }

  lemma {:induction false} CollectAllDropsUnneeded(t: Table, root: Path, ids: seq<nat>, k: nat)
    requires Inv(t, root) && k in t.nodes && (k == ROOT || t.nodes[k].lookups > 0 || t.nodes[k].handles > 0)
    ensures k in CollectedAll(t, ids).nodes
      && CollectedAll(t, ids).nodes[k].(children := 0) == t.nodes[k].(children := 0)
    decreases |ids|
  {
    if ids != [] {
      CollectKeeps(t, root, ids[0]);
      CollectDropsUnneeded(t, root, ids[0], k);
      CollectAllDropsUnneeded(Collected(t, ids[0]), root, ids[1..], k);
    }
  }

  /** A listing pins nothing: no node is left that was not there, and none is dropped that the guest may name. */
  lemma {:induction false} ListedPinsNothing(t: Table, root: Path, fh: nat, listing: seq<Path>, offset: nat, k: nat)
    requires Inv(t, root) && fh in t.handles && t.handles[fh].node in t.nodes && Inside(root, listing)
    ensures k in Listed(t, fh, listing, offset).nodes ==> k in t.nodes
    ensures k in t.nodes && (k == ROOT || t.nodes[k].lookups > 0 || t.nodes[k].handles > 0) ==>
      k in Listed(t, fh, listing, offset).nodes
      && Listed(t, fh, listing, offset).nodes[k].(children := 0) == t.nodes[k].(children := 0)
  {
    var node, n, kept := t.handles[fh].node, Skipped(listing, offset), WithListing(t, fh, listing);
    var paths := listing[n..];
    var all := InternedAll(kept, paths, node);
    var ids := [node, t.nodes[node].parent] + seq(n, _ => 0) + IdsOf(kept, paths, node);
    ListingKeeps(t, root, fh, listing);
    InternAllKeeps(kept, root, paths, node);
    if k in t.nodes {
      InternAllLeaves(kept, root, paths, node, k);
      if k == ROOT || t.nodes[k].lookups > 0 || t.nodes[k].handles > 0 { CollectAllDropsUnneeded(all, root, ids, k); }
    } else {
      CollectAllDrops(all, root, ids, k);
      if k in all.nodes {
        NewAreListed(kept, root, paths, node, k);
        assert ROOT in t.nodes;
      }
    }
  }

  lemma {:induction false} ReadDirPinsNothing(t: Table, root: Path, r: Request, k: nat)
    requires Inv(t, root) && r.ReadDir?
    ensures k in Apply(t, root, r).nodes ==> k in t.nodes
    ensures k in t.nodes && (k == ROOT || t.nodes[k].lookups > 0 || t.nodes[k].handles > 0) ==>
      k in Apply(t, root, r).nodes && Apply(t, root, r).nodes[k].(children := 0) == t.nodes[k].(children := 0)
  {
    if r.fh in t.handles && t.handles[r.fh].directory && t.handles[r.fh].node in t.nodes {
      ListingInside(t, root, r.fh, r.offset, r.names);
      var listing := Listing(t, r.fh, r.offset, r.names);
      if listing.Some? { ListedPinsNothing(t, root, r.fh, listing.value, r.offset, k); }
    }
  }

  lemma {:induction false} CollectLeavesHandles(t: Table, id: nat)
    ensures Collected(t, id).handles == t.handles
    decreases |t.nodes|
  {
    if !(id == ROOT || id !in t.nodes || !Unneeded(t.nodes[id])) {
      assert Dropped(t, id).nodes.Keys == t.nodes.Keys - {id};
      assert |t.nodes.Keys - {id}| == |t.nodes.Keys| - 1;
      CollectLeavesHandles(Dropped(t, id), t.nodes[id].parent);
    }
  }

  lemma {:induction false} ClosedAre(t: Table, fhs: seq<nat>)
    ensures ClosedAll(t, fhs).handles.Keys == t.handles.Keys - (set h | h in fhs)
    decreases |fhs|
  {
    if fhs != [] {
      var fh := fhs[0];
      if fh in t.handles {
        var id := t.handles[fh].node;
        var nodes := if id in t.nodes
          then t.nodes[id := t.nodes[id].(handles := SaturatingSub(t.nodes[id].handles, 1))] else t.nodes;
        CollectLeavesHandles(t.(handles := t.handles - {fh}, nodes := nodes), id);
      }
      ClosedAre(Closed(t, fh), fhs[1..]);
    }
  }

  /** DESTROY, in whatever order the handles come: none is left, and no node is held open. */
  lemma {:induction false} DestroyCloses(t: Table, root: Path, order: seq<nat>, k: nat)
    requires Inv(t, root) && forall h :: h in t.handles ==> h in order
    ensures Apply(t, root, Destroy(order)).handles == map[]
    ensures k in Apply(t, root, Destroy(order)).nodes ==> Apply(t, root, Destroy(order)).nodes[k].handles == 0
  {
    var t' := ClosedAll(t, order);
    ClosedAre(t, order);
    assert t'.handles.Keys == {};
    CloseAllKeeps(t, root, order);
    if k in t'.nodes {
      assert NodeOk(t', root, k);
      assert HandlesOn(t'.handles, k) == {};
    }
  }

  /**
   So a node the guest may name, or has open, stays until it is forgotten or closed; and a node with such a
   node in it stays.
   */
  lemma {:induction false} ParentsStay(t: Table, root: Path, k: nat)
    requires Inv(t, root) && k in t.nodes
    ensures t.nodes[k].parent in t.nodes && (k != ROOT ==> t.nodes[t.nodes[k].parent].children > 0)
  {
    assert NodeOk(t, root, k) && NodeOk(t, root, t.nodes[k].parent);
    if k != ROOT { assert k in Kids(t.nodes, t.nodes[k].parent); }
  }
}

/** The device's table, changed in place. */
module FuseDevice {
  import opened FuseNodes
  import opened FuseNodesProofs

  class FsDevice {
    var nodes: map<nat, Node>
    var ids: map<Path, nat>
    var handles: map<nat, Handle>
    var nextNode: nat
    var nextHandle: nat

    ghost function Now(): Table
      reads this
    {
      Table(nodes, ids, handles, nextNode, nextHandle)
    }

    constructor (root: Path)
      ensures Now() == NewTable(root)
    {
      nodes := map[ROOT := Node(root, ROOT, 1, 0, 0)];
      ids := map[root := ROOT];
      handles := map[];
      nextNode, nextHandle := 2, 1;
    }

    method Intern(path: Path, parent: nat) returns (id: nat)
      modifies this
      ensures Now() == Interned(old(Now()), path, parent) && id == IdOf(old(Now()), path)
    {
      if path in ids { return ids[path]; }
      id := nextNode;
      nextNode := nextNode + 1;
      ids := ids[path := id];
      nodes := nodes[id := Node(path, parent, 0, 0, 0)];
      if parent in nodes { nodes := nodes[parent := nodes[parent].(children := nodes[parent].children + 1)]; }
    }

    /** Ends, as every turn drops a node. */
    method Collect(id: nat)
      modifies this
      ensures Now() == Collected(old(Now()), id)
    {
      var current := id;
      while current != ROOT
        invariant Collected(Now(), current) == Collected(old(Now()), id)
        decreases |nodes|
      {
        if current !in nodes { return; }
        var n := nodes[current];
        if n.lookups > 0 || n.handles > 0 || n.children > 0 { return; }
        ghost var was := nodes.Keys;
        nodes := nodes - {current};
        ids := ids - {n.path};
        if n.parent in nodes {
          nodes := nodes[n.parent := nodes[n.parent].(children := SaturatingSub(nodes[n.parent].children, 1))];
        }
        assert nodes.Keys == was - {current} && |was - {current}| == |was| - 1;
        current := n.parent;
      }
    }

    method ForgetNode(id: nat, count: nat)
      modifies this
      ensures Now() == Forgotten(old(Now()), id, count)
    {
      if id in nodes { nodes := nodes[id := nodes[id].(lookups := SaturatingSub(nodes[id].lookups, count))]; }
      Collect(id);
    }

    method AddHandle(id: nat, directory: bool) returns (fh: nat)
      modifies this
      ensures Now() == Opened(old(Now()), id, directory) && fh == old(nextHandle)
    {
      fh := nextHandle;
      nextHandle := nextHandle + 1;
      handles := handles[fh := Handle(id, directory, None)];
      if id in nodes { nodes := nodes[id := nodes[id].(handles := nodes[id].handles + 1)]; }
    }

    method RemoveHandle(fh: nat)
      modifies this
      ensures Now() == Closed(old(Now()), fh)
    {
      if fh in handles {
        var id := handles[fh].node;
        handles := handles - {fh};
        if id in nodes { nodes := nodes[id := nodes[id].(handles := SaturatingSub(nodes[id].handles, 1))]; }
        Collect(id);
      }
    }

    method RenameNode(from: Path, to: Path, newParent: nat)
      modifies this
      ensures Now() == Renamed(old(Now()), from, to, newParent)
    {
      if from !in ids { return; }
      var id := ids[from];
      ids := ids - {from};
      if id !in nodes {
        ids := ids[to := id];
        return;
      }
      var previous := nodes[id].parent;
      nodes := nodes[id := nodes[id].(path := to, parent := newParent)];
      ids := ids[to := id];
      if previous != newParent {
        if newParent in nodes {
          nodes := nodes[newParent := nodes[newParent].(children := nodes[newParent].children + 1)];
        }
        if previous in nodes {
          nodes := nodes[previous := nodes[previous].(children := SaturatingSub(nodes[previous].children, 1))];
        }
        Collect(previous);
      }
    }

    /** One request: the table's step, and with it all that every run keeps. */
    method Process(root: Path, r: Request)
      requires Inv(Now(), root)
      modifies this
      ensures Now() == Apply(old(Now()), root, r) && Inv(Now(), root)
    {
      InvStep(Now(), root, r);
      match r
      case Enter(parent, name, host, stat) => var _ := EnterEntry(root, parent, name, host, stat);
      case EnterOpen(parent, name, host, stat) =>
        var id := EnterEntry(root, parent, name, host, stat);
        if id.Some? && id.value in nodes { var _ := AddHandle(id.value, false); }
      case Forget(id, count) => ForgetNode(id, count);
      case BatchForget(counts) => ForgetAll(counts);
      case Unlink(parent, name, host) =>
        var path := ChildOf(root, parent, name);
        if path.Some? && host && path.value in ids { ForgetNode(ids[path.value], U64_MAX); }
      case Rename(parent, oldName, newParent, newName, host) =>
        var from := ChildOf(root, parent, oldName);
        var to := ChildOf(root, newParent, newName);
        if from.Some? && to.Some? && host { RenameNode(from.value, to.value, newParent); }
      case Open(id, directory, host) => if id in nodes && host { var _ := AddHandle(id, directory); }
      case Release(fh, directory) => if fh in handles && handles[fh].directory == directory { RemoveHandle(fh); }
      case ReadDir(fh, offset, names) => ReadDirectory(root, fh, offset, names);
      case Destroy(order) => RemoveAll(order);
    }

    method ForgetAll(counts: seq<(nat, nat)>)
      modifies this
      ensures Now() == ForgottenAll(old(Now()), counts)
    {
      assert counts[0..] == counts;
      for i := 0 to |counts|
        invariant ForgottenAll(Now(), counts[i..]) == ForgottenAll(old(Now()), counts)
      {
        ghost var rest := counts[i..];
        assert rest[0] == counts[i] && rest[1..] == counts[i + 1..];
        ForgetNode(counts[i].0, counts[i].1);
      }
    }

    method RemoveAll(fhs: seq<nat>)
      modifies this
      ensures Now() == ClosedAll(old(Now()), fhs)
    {
      assert fhs[0..] == fhs;
      for i := 0 to |fhs|
        invariant ClosedAll(Now(), fhs[i..]) == ClosedAll(old(Now()), fhs)
      {
        ghost var rest := fhs[i..];
        assert rest[0] == fhs[i] && rest[1..] == fhs[i + 1..];
        RemoveHandle(fhs[i]);
      }
    }

    method CollectAll(ids: seq<nat>)
      modifies this
      ensures Now() == CollectedAll(old(Now()), ids)
    {
      assert ids[0..] == ids;
      for i := 0 to |ids|
        invariant CollectedAll(Now(), ids[i..]) == CollectedAll(old(Now()), ids)
      {
        ghost var rest := ids[i..];
        assert rest[0] == ids[i] && rest[1..] == ids[i + 1..];
        Collect(ids[i]);
      }
    }

    method InternAll(paths: seq<Path>, parent: nat) returns (ids: seq<nat>)
      modifies this
      ensures Now() == InternedAll(old(Now()), paths, parent) && ids == IdsOf(old(Now()), paths, parent)
    {
      ids := [];
      ghost var all := IdsOf(Now(), paths, parent);
      assert paths[0..] == paths && [] + all == all;
      for i := 0 to |paths|
        invariant InternedAll(Now(), paths[i..], parent) == InternedAll(old(Now()), paths, parent)
        invariant ids + IdsOf(Now(), paths[i..], parent) == all
      {
        ghost var rest := paths[i..];
        assert rest[0] == paths[i] && rest[1..] == paths[i + 1..];
        ghost var before, later := Now(), ids;
        var id := Intern(paths[i], parent);
        assert later + ([id] + IdsOf(Now(), rest[1..], parent)) == later + [id] + IdsOf(Now(), rest[1..], parent);
        ids := ids + [id];
      }
      assert ids + [] == ids;
    }

    /** The paths of the entries a directory has, by name. */
    method ReadEntries(path: Path, names: seq<string>) returns (listing: seq<Path>)
      ensures listing == Children(path, names)
    {
      listing := [];
      ghost var all := Children(path, names);
      assert names[0..] == names && [] + all == all;
      for i := 0 to |names|
        invariant listing + Children(path, names[i..]) == all
      {
        ghost var rest := names[i..];
        assert rest[0] == names[i] && rest[1..] == names[i + 1..];
        ghost var one := if ValidName(names[i]) then [path + [names[i]]] else [];
        assert listing + (one + Children(path, rest[1..])) == listing + one + Children(path, rest[1..]);
        assert listing + [] == listing;
        if ValidName(names[i]) { listing := listing + [path + [names[i]]]; }
      }
      assert listing + [] == listing;
    }

    method ReadDirectory(ghost root: Path, fh: nat, offset: nat, names: Option<seq<string>>)
      modifies this
      ensures Now() == Apply(old(Now()), root, ReadDir(fh, offset, names))
    {
      if fh !in handles || !handles[fh].directory { return; }
      var node := handles[fh].node;
      if node !in nodes { return; }
      var parent, listing := nodes[node].parent, handles[fh].listing;
      if offset == 0 || listing.None? {
        if names.None? || parent !in nodes { return; }
        var read := ReadEntries(nodes[node].path, names.value);
        handles := handles[fh := handles[fh].(listing := Some(read))];
        listing := Some(read);
      }
      var n := Skipped(listing.value, offset);
      assert handles == old(handles)[fh := old(handles)[fh].(listing := listing)];
      var ids := InternAll(listing.value[n..], node);
      CollectAll([node, parent] + seq(n, _ => 0) + ids);
    }

    method ChildOf(root: Path, parent: nat, name: string) returns (path: Option<Path>)
      ensures path == Child(Now(), root, parent, name)
    {
      if parent !in nodes || !ValidName(name) { return None; }
      var p := nodes[parent].path + [name];
      path := if root <= p then Some(p) else None;
    }

    /** LOOKUP and its kin; the id the entry was given, when all went through. */
    method EnterEntry(root: Path, parent: nat, name: string, host: bool, stat: bool) returns (r: Option<nat>)
      modifies this
      ensures var path := Child(old(Now()), root, parent, name);
        && Now() == Entered(old(Now()), path, parent, host, stat)
        && r == if path.Some? && host && stat then Some(IdOf(old(Now()), path.value)) else None
    {
      var path := ChildOf(root, parent, name);
      if path.None? || !host { return None; }
      var id := Intern(path.value, parent);
      if !stat { return None; }
      if id in nodes { nodes := nodes[id := nodes[id].(lookups := nodes[id].lookups + 1)]; }
      r := Some(id);
    }
  }
}
