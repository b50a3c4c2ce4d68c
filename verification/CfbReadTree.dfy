/** Reading the tree of storages as the parser runs it: one table of visits, positions recorded in a map,
    the links filled in afterwards. */
module CfbReadTree {
  import opened Bytes
  import opened CfbModel
  import opened CfbTree
  import opened CfbDirectory

  /** The positions recorded for the entries read so far. */
  ghost predicate Positioned(position: map<nat, nat>, ids: seq<nat>) {
    && (forall id :: id in position <==> id in ids)
    && forall id :: id in position ==> position[id] == Lookup(ids, id)
  }

  lemma {:induction false} PositionNext(position: map<nat, nat>, ids: seq<nat>, id: nat)
    requires Positioned(position, ids)
    ensures Positioned(position[id := |ids|], ids + [id])
  {
    assert (ids + [id])[..|ids|] == ids;
  }

  lemma {:induction false} LookupAbsent(ids: seq<nat>, id: nat)
    requires id !in ids
    ensures Lookup(ids, id) == NO_STREAM
  {
    if ids != [] { LookupAbsent(ids[..|ids| - 1], id); }
  }

  function PositionOf(position: map<nat, nat>, id: nat): nat {
    if id in position then position[id] else NO_STREAM
  }

  lemma {:induction false} PositionIs(position: map<nat, nat>, ids: seq<nat>, id: nat)
    requires Positioned(position, ids)
    ensures PositionOf(position, id) == Lookup(ids, id)
  {
    if id !in ids { LookupAbsent(ids, id); }
  }

  lemma {:induction false} KeptNext(dir: seq<DirEntry>, order: seq<nat>, k: nat)
    requires k < |order| && forall i :: 0 <= i < |order| ==> order[i] < |dir|
    ensures Kept(dir, order[..k + 1])
         == Kept(dir, order[..k]) + (if dir[order[k]].kind == KIND_STORAGE || dir[order[k]].kind == KIND_STREAM then [order[k]] else [])
  {
    assert order[..k + 1][..k] == order[..k] && order[..k + 1][k] == order[k];
  }

  lemma {:induction false} KeptPrefix(dir: seq<DirEntry>, order: seq<nat>, k: nat)
    requires k <= |order| && forall i :: 0 <= i < |order| ==> order[i] < |dir|
    ensures var ids := Kept(dir, order[..k]); |ids| <= |Kept(dir, order)| && Kept(dir, order)[..|ids|] == ids
    decreases |order| - k
  {
    if k == |order| {
      assert order[..k] == order;
    } else {
      KeptPrefix(dir, order, k + 1);
      KeptNext(dir, order, k);
      var ids, next, all := Kept(dir, order[..k]), Kept(dir, order[..k + 1]), Kept(dir, order);
      assert next[..|ids|] == ids;
      assert all[..|ids|] == all[..|next|][..|ids|];
    }
  }

  function Unlinked(n: Node): Node {
    n.(left := NO_STREAM, right := NO_STREAM)
  }

  ghost predicate SameUnlinked(linked: seq<Node>, nodes: seq<Node>) {
    |linked| == |nodes| && forall i :: 0 <= i < |nodes| ==> Unlinked(linked[i]) == nodes[i]
  }

  /** Before the links are filled in, the first n nodes are these. */
  ghost predicate Gathered(dir: seq<DirEntry>, ids: seq<nat>, n: nat, depth: nat, free: set<nat>, nodes: seq<Node>, left: set<nat>)
    requires n <= |ids| && depth <= MAX_STORAGE_DEPTH && forall i :: 0 <= i < |ids| ==> ids[i] < |dir|
  {
    var r := ReadNodes(dir, ids, n, depth, free);
    r.Some? && r.value.free == left && SameUnlinked(r.value.nodes, nodes)
  }

  lemma {:induction false} GatheredStream(dir: seq<DirEntry>, ids: seq<nat>, n: nat, depth: nat, free: set<nat>, nodes: seq<Node>, left: set<nat>)
    requires n < |ids| && depth <= MAX_STORAGE_DEPTH && forall i :: 0 <= i < |ids| ==> ids[i] < |dir|
    requires Gathered(dir, ids, n, depth, free, nodes, left) && dir[ids[n]].kind != KIND_STORAGE
    ensures var e := dir[ids[n]];
      Gathered(dir, ids, n + 1, depth, free, nodes + [Node(e.meta, false, e.start, e.size, [], NO_STREAM, NO_STREAM, NO_STREAM)], left)
  {
  }

  lemma {:induction false} GatheredStorage(dir: seq<DirEntry>, ids: seq<nat>, n: nat, depth: nat, free: set<nat>, nodes: seq<Node>, left: set<nat>, inner: Storage)
    requires n < |ids| && depth <= MAX_STORAGE_DEPTH && forall i :: 0 <= i < |ids| ==> ids[i] < |dir|
    requires Gathered(dir, ids, n, depth, free, nodes, left) && dir[ids[n]].kind == KIND_STORAGE
    requires ReadStorage(dir, dir[ids[n]].child, depth + 1, left) == Some(inner)
    ensures var e := dir[ids[n]];
      Gathered(dir, ids, n + 1, depth, free,
               nodes + [Node(e.meta, true, END_OF_CHAIN, 0, inner.nodes, inner.treeRoot, NO_STREAM, NO_STREAM)], inner.free)
  {
    hide ReadStorage, ReadNodes;
    var before := ReadNodes(dir, ids, n, depth, free).value;
    ReadOneMore(dir, ids, n, depth, free, Storage(before.nodes, NO_STREAM, left), inner) by { NodesHaveNoRoot(dir, ids, n, depth, free); }
  }

  lemma {:induction false} NodesHaveNoRoot(dir: seq<DirEntry>, ids: seq<nat>, n: nat, depth: nat, free: set<nat>)
    requires n <= |ids| && depth <= MAX_STORAGE_DEPTH && forall i :: 0 <= i < |ids| ==> ids[i] < |dir|
    requires ReadNodes(dir, ids, n, depth, free).Some?
    ensures ReadNodes(dir, ids, n, depth, free).value.treeRoot == NO_STREAM
  {
  }

  /** A node that cannot be read makes the whole storage unreadable. */
  lemma {:induction false} NodesRejected(dir: seq<DirEntry>, ids: seq<nat>, n: nat, m: nat, depth: nat, free: set<nat>)
    requires n <= m <= |ids| && depth <= MAX_STORAGE_DEPTH && forall i :: 0 <= i < |ids| ==> ids[i] < |dir|
    requires ReadNodes(dir, ids, n, depth, free).None?
    ensures ReadNodes(dir, ids, m, depth, free).None?
    decreases m
  {
    if n < m { NodesRejected(dir, ids, n, m - 1, depth, free); }
  }

  lemma {:induction false} StorageRejected(dir: seq<DirEntry>, ids: seq<nat>, n: nat, depth: nat, free: set<nat>, left: set<nat>)
    requires n < |ids| && depth <= MAX_STORAGE_DEPTH && forall i :: 0 <= i < |ids| ==> ids[i] < |dir|
    requires ReadNodes(dir, ids, n, depth, free).Some? && ReadNodes(dir, ids, n, depth, free).value.free == left
    requires dir[ids[n]].kind == KIND_STORAGE && ReadStorage(dir, dir[ids[n]].child, depth + 1, left).None?
    ensures ReadNodes(dir, ids, |ids|, depth, free).None?
  {
    NodesRejected(dir, ids, n + 1, |ids|, depth, free);
  }

  lemma {:induction false} NodesLinked(dir: seq<DirEntry>, ids: seq<nat>, n: nat, depth: nat, free: set<nat>, i: nat)
    requires i < n <= |ids| && depth <= MAX_STORAGE_DEPTH && forall i :: 0 <= i < |ids| ==> ids[i] < |dir|
    requires ReadNodes(dir, ids, n, depth, free).Some?
    ensures var r := ReadNodes(dir, ids, n, depth, free).value;
      r.nodes[i].left == Lookup(ids, dir[ids[i]].left) && r.nodes[i].right == Lookup(ids, dir[ids[i]].right)
    decreases n
  {
    if i < n - 1 { NodesLinked(dir, ids, n - 1, depth, free, i); }
  }

  lemma {:induction false} NoneYet(dir: seq<DirEntry>, order: seq<nat>, ids: seq<nat>, depth: nat, free: set<nat>)
    requires forall i :: 0 <= i < |order| ==> order[i] < |dir|
    requires depth <= MAX_STORAGE_DEPTH && forall i :: 0 <= i < |ids| ==> ids[i] < |dir|
    ensures Kept(dir, order[..0]) == [] && Gathered(dir, ids, 0, depth, free, [], free)
  {
  }

  /** A storage is its nodes and the position of its tree's root. */
  lemma {:induction false} StorageIs(dir: seq<DirEntry>, child: nat, depth: nat, start: set<nat>, order: seq<nat>, free: set<nat>)
    requires depth <= MAX_STORAGE_DEPTH && child != NO_STREAM && InOrder(dir, child, start) == Some(Visit(order, free))
    ensures forall i :: 0 <= i < |order| ==> order[i] < |dir|
    ensures var ids := Kept(dir, order);
      var n := ReadNodes(dir, ids, |ids|, depth, free);
      ReadStorage(dir, child, depth, start) == if n.None? then None else Some(Storage(n.value.nodes, Lookup(ids, child), n.value.free))
  {
    InOrderInside(dir, child, start);
  }

  /** The children of one storage: the walk of its tree, a node for each entry that is one, then
      the positions of their links. Storages inside are read as they are met, over one table of visits. */
  method ReadChildren(dir: seq<DirEntry>, child: nat, depth: nat, visited: array<bool>) returns (r: Option<(seq<Node>, nat)>)
    requires visited.Length == |dir|
    modifies visited
    ensures var s := ReadStorage(dir, child, depth, Free(old(visited[..])));
      if r.None? then s.None? else s == Some(Storage(r.value.0, r.value.1, Free(visited[..])))
    decreases MAX_STORAGE_DEPTH + 1 - depth
  {
    hide InOrder, ReadNodes, Kept, Lookup, Free;
    if depth > MAX_STORAGE_DEPTH { return None; }
    if child == NO_STREAM { return Some(([], NO_STREAM)); }
    ghost var start := Free(visited[..]);
    var ok, order := WalkTree(dir, child, visited);
    if !ok { return None; }
    ghost var free := Free(visited[..]);
    StorageIs(dir, child, depth, start, order, free);
    ghost var all := Kept(dir, order);
    hide ReadStorage;
    NoneYet(dir, order, all, depth, free);
    var nodes: seq<Node>, position: map<nat, nat>, source: seq<nat> := [], map[], [];
    for k := 0 to |order|
      invariant source == Kept(dir, order[..k]) && |nodes| == |source| <= |all| && all[..|source|] == source
      invariant Positioned(position, source)
      invariant Gathered(dir, all, |source|, depth, free, nodes, Free(visited[..]))
    {
      var id := order[k];
      var e := dir[id];
      KeptNext(dir, order, k);
      KeptPrefix(dir, order, k + 1);
      if e.kind == KIND_STORAGE || e.kind == KIND_STREAM {
        assert all[|source|] == id;
        ghost var left := Free(visited[..]);
        var node := Node(e.meta, false, e.start, e.size, [], NO_STREAM, NO_STREAM, NO_STREAM);
        if e.kind == KIND_STORAGE {
          var inner := ReadChildren(dir, e.child, depth + 1, visited);
          if inner.None? {
            StorageRejected(dir, all, |source|, depth, free, left);
            return None;
          }
          node := Node(e.meta, true, END_OF_CHAIN, 0, inner.value.0, inner.value.1, NO_STREAM, NO_STREAM);
          GatheredStorage(dir, all, |source|, depth, free, nodes, left, Storage(inner.value.0, inner.value.1, Free(visited[..])));
        } else {
          GatheredStream(dir, all, |source|, depth, free, nodes, left);
        }
        PositionNext(position, source, id);
        position := position[id := |nodes|];
        source := source + [id];
        nodes := nodes + [node];
      }
    }
    assert order[..|order|] == order;
    ghost var wanted := ReadNodes(dir, all, |all|, depth, free).value.nodes;
    ghost var after := Free(visited[..]);
    for i := 0 to |nodes|
      invariant Free(visited[..]) == after && |nodes| == |all| && nodes[..i] == wanted[..i]
      invariant forall j :: i <= j < |nodes| ==> nodes[j] == Unlinked(wanted[j])
    {
      var e := dir[source[i]];
      NodesLinked(dir, all, |all|, depth, free, i);
      PositionIs(position, all, e.left);
      PositionIs(position, all, e.right);
      nodes := nodes[i := nodes[i].(left := PositionOf(position, e.left), right := PositionOf(position, e.right))];
    }
    PositionIs(position, all, child);
    assert nodes == wanted;
    r := Some((nodes, PositionOf(position, child)));
  }
}
