/** Lookups over the home walk against the linear scans they stand for. */
module NodeIndex {
  import opened Wrappers
  import opened Bytes
  import opened Paths
  import opened Model

  datatype DirNode = DirNode(path: Path, allocatedBytes: u64)

  function ParentOf(path: Path): Option<Path> {
    if path == [] then None else Some(path[..|path| - 1])
  }

  // ------------------------------------------------------- The scans

  /** The nodes directly below `parent`, in walk order. */
  function ChildrenScan(nodes: seq<DirNode>, parent: Path): (children: seq<DirNode>) {
    if nodes == [] then []
    else
      ChildrenScan(nodes[..|nodes| - 1], parent)
      + (if ParentOf(nodes[|nodes| - 1].path) == Some(parent) then [nodes[|nodes| - 1]] else [])
  }

  /** The last node of the walk at `path`: the only one when paths are distinct. */
  function NodeScan(nodes: seq<DirNode>, path: Path): (found: Option<DirNode>) {
    if nodes == [] then None
    else if nodes[|nodes| - 1].path == path then Some(nodes[|nodes| - 1])
    else NodeScan(nodes[..|nodes| - 1], path)
  }

  /** A scan answers exactly the nodes that are there, in their order. */
  lemma {:induction false} ScanFinds(nodes: seq<DirNode>, path: Path, i: nat)
    requires i < |nodes| && nodes[i].path == path
    requires forall j :: 0 <= j < |nodes| && j != i ==> nodes[j].path != path
    ensures NodeScan(nodes, path) == Some(nodes[i])
    decreases |nodes|
  {
    if i < |nodes| - 1 {
      ScanFinds(nodes[..|nodes| - 1], path, i);
    }
  }

  lemma {:induction false} ChildrenAreChildren(nodes: seq<DirNode>, parent: Path, n: DirNode)
    ensures n in ChildrenScan(nodes, parent) <==> n in nodes && ParentOf(n.path) == Some(parent)
    ensures |ChildrenScan(nodes, parent)| <= |nodes|
    decreases |nodes|
  {
    if nodes != [] {
      var front, last := nodes[..|nodes| - 1], nodes[|nodes| - 1];
      assert nodes == front + [last];
      ChildrenAreChildren(front, parent, n);
    }
  }

  /** Scanning a walk is scanning its parts in order. */
  lemma {:induction false} ChildrenInWalkOrder(a: seq<DirNode>, b: seq<DirNode>, parent: Path)
    ensures ChildrenScan(a + b, parent) == ChildrenScan(a, parent) + ChildrenScan(b, parent)
    decreases |b|
  {
    if b == [] {
      assert a + b == a;
    } else {
      assert (a + b)[..|a + b| - 1] == a + b[..|b| - 1];
      ChildrenInWalkOrder(a, b[..|b| - 1], parent);
    }
  }

  // ------------------------------------------------------- The index

  /** Looking a path up is scanning for it. */
  ghost predicate PathsMirror(byPath: map<Path, DirNode>, nodes: seq<DirNode>) {
    forall p: Path :: (if p in byPath then Some(byPath[p]) else None) == NodeScan(nodes, p)
  }

  /** Looking a parent up is scanning for its children. */
  ghost predicate ParentsMirror(byParent: map<Path, seq<DirNode>>, nodes: seq<DirNode>) {
    forall p: Path :: (if p in byParent then byParent[p] else []) == ChildrenScan(nodes, p)
  }

  lemma PathAdded(byPath: map<Path, DirNode>, nodes: seq<DirNode>, node: DirNode)
    requires PathsMirror(byPath, nodes)
    ensures PathsMirror(byPath[node.path := node], nodes + [node])
  {
    assert (nodes + [node])[..|nodes|] == nodes;
  }

  lemma ParentAdded(byParent: map<Path, seq<DirNode>>, nodes: seq<DirNode>, node: DirNode, children: seq<DirNode>)
    requires ParentsMirror(byParent, nodes)
    requires node.path != [] && children == if Above(node) in byParent then byParent[Above(node)] else []
    ensures ParentsMirror(byParent[Above(node) := children + [node]], nodes + [node])
  {
    assert (nodes + [node])[..|nodes|] == nodes;
  }

  lemma RootAdded(byParent: map<Path, seq<DirNode>>, nodes: seq<DirNode>, node: DirNode)
    requires ParentsMirror(byParent, nodes) && node.path == []
    ensures ParentsMirror(byParent, nodes + [node])
  {
    assert (nodes + [node])[..|nodes|] == nodes;
  }

  function Above(node: DirNode): Path
    requires node.path != []
  {
    node.path[..|node.path| - 1]
  }

  class Index {
    var byPath: map<Path, DirNode>
    var byParent: map<Path, seq<DirNode>>

    /** Both maps answer as a scan of `nodes` would, present keys or not. */
    ghost predicate Mirrors(nodes: seq<DirNode>)
      reads this
    {
      PathsMirror(byPath, nodes) && ParentsMirror(byParent, nodes)
    }

    /** `NodeIndex::of`, one node at a time. */
    constructor (nodes: seq<DirNode>)
      ensures Mirrors(nodes)
    {
      byPath, byParent := map[], map[];
      new;
      hide PathsMirror, ParentsMirror;
      StartsEmpty();
      assert nodes[..0] == [];
      for i := 0 to |nodes|
        invariant Mirrors(nodes[..i])
      {
        var node := nodes[i];
        assert nodes[..i + 1] == nodes[..i] + [node];
        PathAdded(byPath, nodes[..i], node);
        byPath := byPath[node.path := node];
        if node.path != [] {
          var children := if Above(node) in byParent then byParent[Above(node)] else [];
          ParentAdded(byParent, nodes[..i], node, children);
          byParent := byParent[Above(node) := children + [node]];
        } else {
          RootAdded(byParent, nodes[..i], node);
        }
      }
      assert nodes[..|nodes|] == nodes;
    }

    /** `node`. */
    method Node(ghost nodes: seq<DirNode>, path: Path) returns (found: Option<DirNode>)
      requires Mirrors(nodes)
      ensures found == NodeScan(nodes, path)
    {
      found := if path in byPath then Some(byPath[path]) else None;
    }

    /** `children_of`. */
    method ChildrenOf(ghost nodes: seq<DirNode>, parent: Path) returns (children: seq<DirNode>)
      requires Mirrors(nodes)
      ensures children == ChildrenScan(nodes, parent)
    {
      children := if parent in byParent then byParent[parent] else [];
    }
  }

  lemma StartsEmpty()
    ensures PathsMirror(map[], []) && ParentsMirror(map[], [])
  {
  }

  // ------------------------------------------------------- Binary search

  ghost predicate StrictOrder<K(!new)>(less: (K, K) -> bool) {
    && (forall a, b :: less(a, b) ==> !less(b, a))
    && (forall a, b, c :: less(a, b) && less(b, c) ==> less(a, c))
    && (forall a, b :: less(a, b) || a == b || less(b, a))
  }

  /** Sorted and distinct. */
  ghost predicate Ascending<K(!new)>(keys: seq<K>, less: (K, K) -> bool) {
    forall i, j :: 0 <= i < j < |keys| ==> less(keys[i], keys[j])
  }

  /** On sorted distinct keys a binary search finds exactly what is there. */
  method BinarySearch<K(==, !new)>(keys: seq<K>, less: (K, K) -> bool, key: K) returns (at: Option<nat>)
    requires StrictOrder(less) && Ascending(keys, less)
    ensures at.Some? <==> key in keys
    ensures at.Some? ==> at.value < |keys| && keys[at.value] == key
  {
    var low, high := 0, |keys|;
    while low < high
      invariant 0 <= low <= high <= |keys|
      invariant forall i :: 0 <= i < low ==> less(keys[i], key)
      invariant forall i :: high <= i < |keys| ==> less(key, keys[i])
    {
      var middle := (low + high) / 2;
      if keys[middle] == key {
        return Some(middle);
      } else if less(keys[middle], key) {
        low := middle + 1;
      } else {
        high := middle;
      }
    }
    at := None;
  }

  function PairLess(a: (nat, nat), b: (nat, nat)): bool {
    a.0 < b.0 || (a.0 == b.0 && a.1 < b.1)
  }

  // ------------------------------------------------------- What a removal frees

  datatype FileEntry = FileEntry(
    path: Path, allocatedBytes: u64, device: nat, inode: nat, linkCount: nat, cloneId: Option<nat>)
  {
    predicate IsShared() {
      linkCount > 1 || (cloneId.Some? && cloneId.value != inode)
    }
  }

  function PathsOf(files: seq<FileEntry>): (paths: seq<Path>)
    ensures |paths| == |files|
  {
    seq(|files|, i requires 0 <= i < |files| => files[i].path)
  }

  /** No other name, no other member of its clone family, and none the walk saw a clone of. */
  ghost predicate Alone(links: nat, clone: Option<nat>, device: nat, inode: nat, families: seq<(nat, nat)>) {
    links <= 1 && (clone == None || clone == Some(inode)) && (device, inode) !in families
  }

  /** The figure, said over every file of the walk and every family: no search, no order. */
  ghost predicate Settles(
    files: seq<FileEntry>, families: seq<(nat, nat)>, path: Path, meta: Metadata, bytes: u64)
  {
    && (forall f :: f in files && f.path == path && !Alone(f.linkCount, f.cloneId, f.device, f.inode, families) ==>
          bytes == f.allocatedBytes)
    && ((forall f :: f in files && f.path == path ==> Alone(f.linkCount, f.cloneId, f.device, f.inode, families)) ==>
          bytes == if Alone(meta.linkCount, meta.cloneId, meta.device, meta.inode, families) then meta.allocatedBytes
                   else 0)
  }

  /** `has_clones`. */
  method HasClones(families: seq<(nat, nat)>, device: nat, inode: nat) returns (has: bool)
    requires Ascending(families, PairLess)
    ensures has <==> (device, inode) in families
  {
    var at := BinarySearch(families, PairLess, (device, inode));
    has := at.Some?;
  }

  /** `settled_allocated`: two binary searches give the figure a look at every file gives. */
  method SettledAllocated(
    files: seq<FileEntry>, families: seq<(nat, nat)>, before: (Path, Path) -> bool, path: Path, meta: Metadata)
    returns (bytes: u64)
    requires StrictOrder(before) && Ascending(PathsOf(files), before) && Ascending(families, PairLess)
    ensures Settles(files, families, path, meta, bytes)
  {
    var at := BinarySearch(PathsOf(files), before, path);
    OneFileAt(files, before, path);
    if at.Some? {
      var file := files[at.value];
      var family := HasClones(families, file.device, file.inode);
      if file.IsShared() || family {
        return file.allocatedBytes;
      }
    }
    var clones := HasClones(families, meta.device, meta.inode);
    bytes := if meta.linkCount > 1 || meta.IsClone() || clones then 0 else meta.allocatedBytes;
  }

  lemma OneFileAt(files: seq<FileEntry>, before: (Path, Path) -> bool, path: Path)
    requires StrictOrder(before) && Ascending(PathsOf(files), before)
    ensures forall f, g :: f in files && g in files && f.path == path == g.path ==> f == g
    ensures path in PathsOf(files) <==> exists f :: f in files && f.path == path
  {
    forall f, g | f in files && g in files && f.path == path == g.path ensures f == g {
      var i :| 0 <= i < |files| && files[i] == f;
      var j :| 0 <= j < |files| && files[j] == g;
      assert PathsOf(files)[i] == path == PathsOf(files)[j];
      assert !before(path, path);
    }
    if f :| f in files && f.path == path {
      var i :| 0 <= i < |files| && files[i] == f;
      assert PathsOf(files)[i] == path;
    }
    if path in PathsOf(files) {
      var i :| 0 <= i < |files| && PathsOf(files)[i] == path;
      assert files[i] in files && files[i].path == path;
    }
  }
}
