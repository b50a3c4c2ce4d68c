/** The directory: how the reader turns it into a tree of storages and streams, how the writer
    flattens a tree into it, and that reading undoes flattening. */
module CfbDirectory {
  import opened Bytes
  import opened CfbModel
  import opened CfbTree
  import opened CfbSearch

  const KIND_STORAGE := 1
  const KIND_STREAM := 2
  const KIND_ROOT := 5

  // ── Reading ────────────────────────────────────────────────

  datatype Storage = Storage(nodes: seq<Node>, treeRoot: nat, free: set<nat>)

  /** Entries of the walk that become nodes. */
  function Kept(dir: seq<DirEntry>, order: seq<nat>): (ids: seq<nat>)
    requires forall i :: 0 <= i < |order| ==> order[i] < |dir|
    ensures forall i :: 0 <= i < |ids| ==> ids[i] < |dir|
  {
    if order == [] then []
    else
      var n := |order| - 1;
      Kept(dir, order[..n]) + (if dir[order[n]].kind == KIND_STORAGE || dir[order[n]].kind == KIND_STREAM then [order[n]] else [])
  }

  /** Position of an entry in the sequence of nodes. */
  function Lookup(ids: seq<nat>, id: nat): (p: nat)
    ensures p < |ids| || p == NO_STREAM
  {
    if ids == [] then NO_STREAM
    else var n := |ids| - 1; if ids[n] == id then n else Lookup(ids[..n], id)
  }

  lemma {:induction false} InOrderInside(dir: seq<DirEntry>, id: nat, free: set<nat>)
    requires InOrder(dir, id, free).Some?
    ensures forall i :: 0 <= i < |InOrder(dir, id, free).value.order| ==> InOrder(dir, id, free).value.order[i] < |dir|
    decreases free
  {
    if id != NO_STREAM {
      InOrderInside(dir, dir[id].left, free - {id});
      InOrderInside(dir, dir[id].right, InOrder(dir, dir[id].left, free - {id}).value.free);
    }
  }

  /** The children of one storage, given the root of their tree; storages are read in turn.
      Storages nested deeper than the limit are refused. */
  ghost function ReadStorage(dir: seq<DirEntry>, child: nat, depth: nat, free: set<nat>): Option<Storage>
    decreases MAX_STORAGE_DEPTH + 1 - depth, 1, 0
  {
    if depth > MAX_STORAGE_DEPTH then None
    else if child == NO_STREAM then Some(Storage([], NO_STREAM, free))
    else
      var v :- InOrder(dir, child, free);
      InOrderInside(dir, child, free);
      var ids := Kept(dir, v.order);
      var s :- ReadNodes(dir, ids, |ids|, depth, v.free);
      Some(Storage(s.nodes, Lookup(ids, child), s.free))
  }

  /** The first n nodes of a storage. */
  ghost function ReadNodes(dir: seq<DirEntry>, ids: seq<nat>, n: nat, depth: nat, free: set<nat>): (r: Option<Storage>)
    requires n <= |ids| && depth <= MAX_STORAGE_DEPTH
    requires forall i :: 0 <= i < |ids| ==> ids[i] < |dir|
    ensures r.Some? ==> |r.value.nodes| == n
    decreases MAX_STORAGE_DEPTH + 1 - depth, 0, n
  {
    if n == 0 then Some(Storage([], NO_STREAM, free))
    else
      var before :- ReadNodes(dir, ids, n - 1, depth, free);
      var e := dir[ids[n - 1]];
      if e.kind == KIND_STORAGE then
        var inner :- ReadStorage(dir, e.child, depth + 1, before.free);
        Some(Storage(before.nodes + [Node(e.meta, true, END_OF_CHAIN, 0, inner.nodes, inner.treeRoot,
                                          Lookup(ids, e.left), Lookup(ids, e.right))], NO_STREAM, inner.free))
      else
        Some(Storage(before.nodes + [Node(e.meta, false, e.start, e.size, [], NO_STREAM,
                                          Lookup(ids, e.left), Lookup(ids, e.right))], NO_STREAM, before.free))
  }

  /** Every link in the tree of a storage, and in those of the storages inside, is a position among its children. */
  ghost predicate TreesInside(x: Node) {
    x.isStorage ==> LinksInside(x.children, x.treeRoot) && forall i :: 0 <= i < |x.children| ==> TreesInside(x.children[i])
  }

  ghost predicate NodeInside(x: Node, count: nat) {
    && (x.left < count || x.left == NO_STREAM) && (x.right < count || x.right == NO_STREAM) && TreesInside(x)
  }

  lemma {:induction false} ReadNodesInside(dir: seq<DirEntry>, ids: seq<nat>, n: nat, depth: nat, free: set<nat>, i: nat)
    requires i < n <= |ids| && depth <= MAX_STORAGE_DEPTH && forall k :: 0 <= k < |ids| ==> ids[k] < |dir|
    requires ReadNodes(dir, ids, n, depth, free).Some?
    ensures NodeInside(ReadNodes(dir, ids, n, depth, free).value.nodes[i], |ids|)
    decreases MAX_STORAGE_DEPTH + 1 - depth, 0, n
  {
    hide ReadStorage, Lookup;
    if i < n - 1 {
      ReadNodesInside(dir, ids, n - 1, depth, free, i);
    } else if dir[ids[i]].kind == KIND_STORAGE {
      ReadStorageInside(dir, dir[ids[i]].child, depth + 1, ReadNodes(dir, ids, n - 1, depth, free).value.free);
    }
  }

  /** Whatever links a directory holds, those the reader delivers are positions or nothing. */
  lemma {:induction false} ReadStorageInside(dir: seq<DirEntry>, child: nat, depth: nat, free: set<nat>)
    requires ReadStorage(dir, child, depth, free).Some?
    ensures var s := ReadStorage(dir, child, depth, free).value;
      LinksInside(s.nodes, s.treeRoot) && forall i :: 0 <= i < |s.nodes| ==> TreesInside(s.nodes[i])
    decreases MAX_STORAGE_DEPTH + 1 - depth, 1
  {
    hide InOrder, ReadNodes, Lookup, Kept, TreesInside;
    if child != NO_STREAM {
      var v := InOrder(dir, child, free).value;
      InOrderInside(dir, child, free);
      var ids := Kept(dir, v.order);
      forall i | 0 <= i < |ids| ensures NodeInside(ReadNodes(dir, ids, |ids|, depth, v.free).value.nodes[i], |ids|) {
        ReadNodesInside(dir, ids, |ids|, depth, v.free, i);
      }
    }
  }

  // ── Flattening ─────────────────────────────────────────────

  /** A storage or stream with its contents. */
  datatype Tree = Stream(meta: Meta, data: Buffer) | Dir(meta: Meta, kids: seq<Tree>)

  /** Number of entries below a node. */
  function Size(t: Tree): nat
    decreases t, 0
  {
    if t.Dir? then SizeAll(t.kids) else 0
  }

  /** Number of entries below the first i nodes. */
  function SumSize(kids: seq<Tree>, i: nat): nat
    requires i <= |kids|
    decreases kids, i
  {
    if i == 0 then 0 else SumSize(kids, i - 1) + Size(kids[i - 1])
  }

  function SizeAll(kids: seq<Tree>): nat
    decreases kids, |kids| + 1
  {
    |kids| + SumSize(kids, |kids|)
  }

  /** Where the children of the i-th node go, when the nodes themselves start at `base`. */
  function FirstOf(kids: seq<Tree>, base: nat, i: nat): nat
    requires i <= |kids|
  {
    base + |kids| + SumSize(kids, i)
  }

  /** A position in a sequence of entries that starts at `base`. */
  function Shift(base: nat, i: nat): nat {
    if i == NO_STREAM then NO_STREAM else base + i
  }

  function EntryAt(kids: seq<Tree>, base: nat, i: nat): Entry
    requires i < |kids|
  {
    var links := Links(0, |kids|, i);
    var t := kids[i];
    Entry(t.meta, t.Dir?, if t.Stream? then t.data else [], Shift(base, links.0), Shift(base, links.1),
          if t.Dir? then Shift(FirstOf(kids, base, i), Middle(0, |t.kids|)) else NO_STREAM)
  }

  function Block(kids: seq<Tree>, base: nat): (b: seq<Entry>)
    ensures |b| == |kids|
  {
    seq(|kids|, i requires 0 <= i < |kids| => EntryAt(kids, base, i))
  }

  /** The entries of one storage next to each other, then those of each of its storages. */
  function Flatten(kids: seq<Tree>, base: nat): (f: seq<Entry>)
    ensures |f| == SizeAll(kids)
    decreases kids, 1
  {
    var parts := Parts(kids, base);
    PartsLength(kids, parts, |kids|);
    assert parts[..|kids|] == parts;
    Block(kids, base) + Join(parts)
  }

  /** The entries below each node. */
  function Parts(kids: seq<Tree>, base: nat): (parts: seq<seq<Entry>>)
    ensures |parts| == |kids| && forall i :: 0 <= i < |kids| ==> |parts[i]| == Size(kids[i])
    decreases kids, 0
  {
    seq(|kids|, i requires 0 <= i < |kids| =>
      if kids[i].Dir? then Flatten(kids[i].kids, FirstOf(kids, base, i)) else [])
  }

  lemma {:induction false} PartsLength(kids: seq<Tree>, parts: seq<seq<Entry>>, i: nat)
    requires |parts| == |kids| && i <= |kids| && forall j :: 0 <= j < |kids| ==> |parts[j]| == Size(kids[j])
    ensures |Join(parts[..i])| == SumSize(kids, i)
    decreases i
  {
    if i > 0 {
      PartsLength(kids, parts, i - 1);
      assert parts[..i] == parts[..i - 1] + [parts[i - 1]];
      JoinSnoc(parts[..i - 1], parts[i - 1]);
    }
  }

  // ── Reading undoes flattening ──────────────────────────────

  /** The directory entry that an output entry becomes, apart from where its stream lies. */
  ghost predicate Encodes(d: DirEntry, e: Entry) {
    && d.meta == e.meta && d.kind == (if e.isStorage then KIND_STORAGE else KIND_STREAM)
    && d.left == e.left && d.right == e.right && d.child == e.child
    && (!e.isStorage ==> d.size == |e.data|)
  }

  /** The directory holds the flattened nodes from position `base` on. */
  ghost predicate Stored(dir: seq<DirEntry>, kids: seq<Tree>, base: nat) {
    StoredAt(dir, Flatten(kids, base), base)
  }

  ghost predicate StoredAt(dir: seq<DirEntry>, flat: seq<Entry>, base: nat) {
    base + |flat| <= |dir| && forall i :: 0 <= i < |flat| ==> Encodes(dir[base + i], flat[i])
  }

  lemma {:induction false} StoredPart(dir: seq<DirEntry>, flat: seq<Entry>, base: nat, part: seq<Entry>, at: nat)
    requires StoredAt(dir, flat, base) && at + |part| <= |flat|
    requires forall k :: 0 <= k < |part| ==> flat[at + k] == part[k]
    ensures StoredAt(dir, part, base + at)
  {
    forall k | 0 <= k < |part| ensures Encodes(dir[base + at + k], part[k]) {
      assert Encodes(dir[base + (at + k)], flat[at + k]);
    }
  }

  lemma {:induction false} SumMonotone(kids: seq<Tree>, i: nat, j: nat)
    requires i <= j <= |kids|
    ensures SumSize(kids, i) <= SumSize(kids, j)
    decreases j - i
  {
    if i < j { SumMonotone(kids, i, j - 1); }
  }

  lemma {:induction false} FlattenTail(kids: seq<Tree>, base: nat, j: nat)
    requires j < |Join(Parts(kids, base))|
    ensures |kids| + j < |Flatten(kids, base)| && Flatten(kids, base)[|kids| + j] == Join(Parts(kids, base))[j]
  {
    assert Flatten(kids, base) == Block(kids, base) + Join(Parts(kids, base));
  }

  lemma {:induction false} PartsInner(kids: seq<Tree>, base: nat, i: nat, k: nat)
    requires i < |kids| && k < |Parts(kids, base)[i]|
    ensures SumSize(kids, i) + k < |Join(Parts(kids, base))|
    ensures Join(Parts(kids, base))[SumSize(kids, i) + k] == Parts(kids, base)[i][k]
  {
    PartsLength(kids, Parts(kids, base), i);
    JoinAt(Parts(kids, base), i, k);
  }

  lemma {:induction false} FlattenInner(kids: seq<Tree>, base: nat, i: nat, k: nat)
    requires i < |kids| && k < |Parts(kids, base)[i]|
    ensures |kids| + SumSize(kids, i) + k < |Flatten(kids, base)|
    ensures Flatten(kids, base)[|kids| + SumSize(kids, i) + k] == Parts(kids, base)[i][k]
  {
    PartsInner(kids, base, i, k);
    FlattenTail(kids, base, SumSize(kids, i) + k);
  }

  /** The flattened nodes hold those below the i-th in one stretch. */
  lemma {:induction false} FlattenPart(kids: seq<Tree>, base: nat, i: nat)
    requires i < |kids|
    ensures var flat, part, at := Flatten(kids, base), Parts(kids, base)[i], |kids| + SumSize(kids, i);
      at + |part| <= |flat| && forall k :: 0 <= k < |part| ==> flat[at + k] == part[k]
  {
    var flat, part, at := Flatten(kids, base), Parts(kids, base)[i], |kids| + SumSize(kids, i);
    SumMonotone(kids, i + 1, |kids|);
    forall k | 0 <= k < |part| ensures at + k < |flat| && flat[at + k] == part[k] {
      FlattenInner(kids, base, i, k);
    }
  }

  /** So does it hold the children of each of its storages, in their own place. */
  lemma {:induction false} StoredInner(dir: seq<DirEntry>, kids: seq<Tree>, base: nat, i: nat)
    requires Stored(dir, kids, base) && i < |kids| && kids[i].Dir?
    ensures Stored(dir, kids[i].kids, FirstOf(kids, base, i))
  {
    FlattenPart(kids, base, i);
    StoredPart(dir, Flatten(kids, base), base, Parts(kids, base)[i], |kids| + SumSize(kids, i));
  }

  lemma {:induction false} StoredHere(dir: seq<DirEntry>, kids: seq<Tree>, base: nat, i: nat)
    requires Stored(dir, kids, base) && i < |kids|
    ensures base + i < |dir| && Encodes(dir[base + i], EntryAt(kids, base, i))
  {
    assert Flatten(kids, base)[i] == EntryAt(kids, base, i);
  }

  /** What the reader should deliver for a node at position `at` with children from `first` on. */
  ghost predicate Mirrors(dir: seq<DirEntry>, node: Node, t: Tree, at: nat, first: nat)
    decreases t, 0
  {
    && node.meta == t.meta && node.isStorage == t.Dir?
    && at < |dir|
    && (t.Stream? ==> node.start == dir[at].start && node.size == |t.data| && node.children == [])
    && (t.Dir? ==> MirrorsAll(dir, node.children, t.kids, first) && node.treeRoot == Middle(0, |t.kids|))
  }

  ghost predicate MirrorsAll(dir: seq<DirEntry>, nodes: seq<Node>, kids: seq<Tree>, base: nat)
    decreases kids, 1
  {
    && |nodes| == |kids|
    && (forall i :: 0 <= i < |kids| ==> Mirrors(dir, nodes[i], kids[i], base + i, FirstOf(kids, base, i)))
    && (forall i :: 0 <= i < |kids| ==> (nodes[i].left, nodes[i].right) == Links(0, |kids|, i))
  }

  /** Depth of nested storages. */
  function Nesting(kids: seq<Tree>, i: nat): nat
    requires i <= |kids|
    decreases kids, i
  {
    if i == 0 then 0
    else
      var before := Nesting(kids, i - 1);
      var here := if kids[i - 1].Dir? then 1 + Nesting(kids[i - 1].kids, |kids[i - 1].kids|) else 0;
      if here > before then here else before
  }

  lemma {:induction false} NestingInner(kids: seq<Tree>, n: nat, i: nat)
    requires i < n <= |kids| && kids[i].Dir?
    ensures Nesting(kids[i].kids, |kids[i].kids|) < Nesting(kids, n)
    decreases n
  {
    if i < n - 1 { NestingInner(kids, n - 1, i); }
  }

  function Range(base: nat, n: nat): (r: seq<nat>)
    ensures |r| == n && forall i :: 0 <= i < n ==> r[i] == base + i
  {
    seq(n, i => base + i)
  }

  /** The positions [base, base + n). */
  ghost function Positions(base: nat, n: nat): (p: set<nat>)
    ensures forall x :: x in p <==> base <= x < base + n
  {
    if n == 0 then {} else Positions(base, n - 1) + {base + n - 1}
  }

  lemma {:induction false} PositionsAreRange(base: nat, n: nat)
    ensures SetOf(Range(base, n)) == Positions(base, n)
  {
    forall x | x in Positions(base, n) ensures x in Range(base, n) {
      assert Range(base, n)[x - base] == x;
    }
  }

  lemma {:induction false} LinksRange(lo: nat, hi: nat, i: nat)
    requires lo <= i < hi
    ensures Links(lo, hi, i).0 < hi || Links(lo, hi, i).0 == NO_STREAM
    ensures Links(lo, hi, i).1 < hi || Links(lo, hi, i).1 == NO_STREAM
    decreases hi - lo
  {
    var m := Middle(lo, hi);
    if i < m { LinksRange(lo, m, i); }
    if i > m { LinksRange(m + 1, hi, i); }
  }

  lemma {:induction false} LookupRange(base: nat, n: nat, i: nat)
    requires n <= NO_STREAM && (i < n || i == NO_STREAM) && base + n <= NO_STREAM
    ensures Lookup(Range(base, n), Shift(base, i)) == i
  {
    if n > 0 {
      assert Range(base, n)[..n - 1] == Range(base, n - 1);
      if i != n - 1 { LookupRange(base, n - 1, i); }
    }
  }

  lemma {:induction false} KeptAll(dir: seq<DirEntry>, order: seq<nat>)
    requires forall i :: 0 <= i < |order| ==> order[i] < |dir| && (dir[order[i]].kind == KIND_STORAGE || dir[order[i]].kind == KIND_STREAM)
    ensures Kept(dir, order) == order
  {
    if order != [] {
      var n := |order| - 1;
      KeptAll(dir, order[..n]);
      assert order == order[..n] + [order[n]];
    }
  }

  lemma {:induction false} StoredLinks(dir: seq<DirEntry>, kids: seq<Tree>, base: nat, i: nat)
    requires Stored(dir, kids, base) && |dir| <= NO_STREAM && i < |kids|
    ensures base + i < |dir| && dir[base + i].kind != 0 && LinkedAt(dir, Range(base, |kids|), i, Links(0, |kids|, i))
  {
    StoredHere(dir, kids, base, i);
    LinksRange(0, |kids|, i);
  }

  lemma {:induction false} StoredAllLinks(dir: seq<DirEntry>, kids: seq<Tree>, base: nat, free: set<nat>)
    requires Stored(dir, kids, base) && |dir| <= NO_STREAM && Positions(base, |kids|) <= free
    ensures Linked(dir, Range(base, |kids|), 0, |kids|) && Reachable(dir, Range(base, |kids|), 0, |kids|, free)
  {
    var pos := Range(base, |kids|);
    forall i | 0 <= i < |kids|
      ensures pos[i] < |dir| && dir[pos[i]].kind != 0 && pos[i] in free && LinkedAt(dir, pos, i, Links(0, |kids|, i))
    {
      StoredLinks(dir, kids, base, i);
    }
  }

  lemma {:induction false} LinkedRangeInOrder(dir: seq<DirEntry>, base: nat, n: nat, free: set<nat>)
    requires |dir| <= NO_STREAM && 0 < n && base + n <= |dir|
    requires Linked(dir, Range(base, n), 0, n) && Reachable(dir, Range(base, n), 0, n, free)
    ensures InOrder(dir, Shift(base, Middle(0, n)), free) == Some(Visit(Range(base, n), free - Positions(base, n)))
  {
    WholeTreeInOrder(dir, Range(base, n), free);
    PositionsAreRange(base, n);
  }

  /** The tree of a storage's entries, where the writer put them. */
  lemma {:induction false} StoredTree(dir: seq<DirEntry>, kids: seq<Tree>, base: nat, free: set<nat>)
    requires Stored(dir, kids, base) && |dir| <= NO_STREAM && Positions(base, |kids|) <= free && |kids| > 0
    ensures InOrder(dir, Shift(base, Middle(0, |kids|)), free) == Some(Visit(Range(base, |kids|), free - Positions(base, |kids|)))
  {
    var n := |kids|;
    StoredAllLinks(dir, kids, base, free);
    LinkedRangeInOrder(dir, base, n, free);
  }

  lemma {:induction false} StoredKept(dir: seq<DirEntry>, kids: seq<Tree>, base: nat)
    requires Stored(dir, kids, base)
    ensures base + |kids| <= |dir| && Kept(dir, Range(base, |kids|)) == Range(base, |kids|)
  {
    var pos := Range(base, |kids|);
    forall i | 0 <= i < |pos|
      ensures pos[i] < |dir| && (dir[pos[i]].kind == KIND_STORAGE || dir[pos[i]].kind == KIND_STREAM)
    {
      StoredHere(dir, kids, base, i);
    }
    KeptAll(dir, pos);
  }

  ghost predicate NodeBack(dir: seq<DirEntry>, node: Node, kids: seq<Tree>, base: nat, i: nat)
    requires i < |kids|
  {
    && Mirrors(dir, node, kids[i], base + i, FirstOf(kids, base, i))
    && (node.left, node.right) == Links(0, |kids|, i)
  }

  lemma {:induction false} LookupLinks(dir: seq<DirEntry>, kids: seq<Tree>, base: nat, i: nat)
    requires Stored(dir, kids, base) && i < |kids| && |dir| <= NO_STREAM
    ensures base + i < |dir|
    ensures (Lookup(Range(base, |kids|), dir[base + i].left), Lookup(Range(base, |kids|), dir[base + i].right)) == Links(0, |kids|, i)
  {
    StoredHere(dir, kids, base, i);
    LinksRange(0, |kids|, i);
    LookupRange(base, |kids|, Links(0, |kids|, i).0);
    LookupRange(base, |kids|, Links(0, |kids|, i).1);
  }

  /** The first n nodes were read back, and exactly the entries below them were reached. */
  ghost predicate NodesBack(dir: seq<DirEntry>, kids: seq<Tree>, base: nat, n: nat, free: set<nat>, s: Storage)
    requires n <= |kids|
  {
    && |s.nodes| == n
    && s.free == free - Positions(base + |kids|, SumSize(kids, n))
    && forall i :: 0 <= i < n ==> NodeBack(dir, s.nodes[i], kids, base, i)
  }

  lemma {:induction false} PositionsSplit(base: nat, m: nat, n: nat)
    ensures Positions(base, m + n) == Positions(base, m) + Positions(base + m, n)
  {
  }

  ghost predicate FirstBack(dir: seq<DirEntry>, kids: seq<Tree>, base: nat, n: nat, depth: nat, free: set<nat>)
    requires n <= |kids| && depth <= MAX_STORAGE_DEPTH && base + |kids| <= |dir|
  {
    var r := ReadNodes(dir, Range(base, |kids|), n, depth, free);
    r.Some? && NodesBack(dir, kids, base, n, free, r.value)
  }

  ghost predicate StorageBack(dir: seq<DirEntry>, kids: seq<Tree>, base: nat, depth: nat, free: set<nat>) {
    var r := ReadStorage(dir, Shift(base, Middle(0, |kids|)), depth, free);
    && r.Some? && MirrorsAll(dir, r.value.nodes, kids, base)
    && r.value.treeRoot == Middle(0, |kids|)
    && r.value.free == free - Positions(base, SizeAll(kids))
  }

  /** A stream is read from its own entry. */
  lemma {:induction false} ReadStreamBack(dir: seq<DirEntry>, kids: seq<Tree>, base: nat, i: nat, depth: nat, free: set<nat>)
    requires Stored(dir, kids, base) && |dir| <= NO_STREAM && i < |kids| && depth <= MAX_STORAGE_DEPTH
    requires base + |kids| <= |dir| && kids[i].Stream? && FirstBack(dir, kids, base, i, depth, free)
    ensures FirstBack(dir, kids, base, i + 1, depth, free)
  {
    StoredHere(dir, kids, base, i);
    LookupLinks(dir, kids, base, i);
    var r := ReadNodes(dir, Range(base, |kids|), i + 1, depth, free).value;
    assert NodeBack(dir, r.nodes[i], kids, base, i);
  }

  /** A storage is read from its own entry and the entries of its children. */
  lemma {:induction false} ReadDirBack(dir: seq<DirEntry>, kids: seq<Tree>, base: nat, i: nat, depth: nat, free: set<nat>)
    requires Stored(dir, kids, base) && |dir| <= NO_STREAM && i < |kids| && depth <= MAX_STORAGE_DEPTH
    requires base + |kids| <= |dir| && kids[i].Dir? && FirstBack(dir, kids, base, i, depth, free)
    requires StorageBack(dir, kids[i].kids, FirstOf(kids, base, i), depth + 1, free - Positions(base + |kids|, SumSize(kids, i)))
    ensures FirstBack(dir, kids, base, i + 1, depth, free)
  {
    hide ReadStorage, ReadNodes, Lookup;
    StoredHere(dir, kids, base, i);
    LookupLinks(dir, kids, base, i);
    PositionsSplit(base + |kids|, SumSize(kids, i), SizeAll(kids[i].kids));
    var ids, e := Range(base, |kids|), dir[base + i];
    var before := ReadNodes(dir, ids, i, depth, free).value;
    var inner := ReadStorage(dir, e.child, depth + 1, before.free).value;
    var node := Node(e.meta, true, END_OF_CHAIN, 0, inner.nodes, inner.treeRoot, Lookup(ids, e.left), Lookup(ids, e.right));
    ReadOneMore(dir, ids, i, depth, free, before, inner);
    assert NodeBack(dir, node, kids, base, i);
    MoreBack(dir, kids, base, before.nodes, before.nodes + [node], i);
  }

  lemma {:induction false} ReadOneMore(dir: seq<DirEntry>, ids: seq<nat>, n: nat, depth: nat, free: set<nat>, before: Storage, inner: Storage)
    requires n < |ids| && depth <= MAX_STORAGE_DEPTH && forall i :: 0 <= i < |ids| ==> ids[i] < |dir|
    requires dir[ids[n]].kind == KIND_STORAGE && ReadNodes(dir, ids, n, depth, free) == Some(before)
    requires ReadStorage(dir, dir[ids[n]].child, depth + 1, before.free) == Some(inner)
    ensures var e := dir[ids[n]];
      ReadNodes(dir, ids, n + 1, depth, free)
        == Some(Storage(before.nodes + [Node(e.meta, true, END_OF_CHAIN, 0, inner.nodes, inner.treeRoot, Lookup(ids, e.left), Lookup(ids, e.right))],
                        NO_STREAM, inner.free))
  {
  }

  lemma {:induction false} MoreBack(dir: seq<DirEntry>, kids: seq<Tree>, base: nat, before: seq<Node>, after: seq<Node>, i: nat)
    requires i < |kids| && |before| == i && |after| == i + 1 && after[..i] == before
    requires (forall j :: 0 <= j < i ==> NodeBack(dir, before[j], kids, base, j)) && NodeBack(dir, after[i], kids, base, i)
    ensures forall j :: 0 <= j < i + 1 ==> NodeBack(dir, after[j], kids, base, j)
  {
    forall j | 0 <= j < i ensures NodeBack(dir, after[j], kids, base, j) {
      assert after[j] == before[j];
    }
  }

  lemma {:induction false} InnerFree(kids: seq<Tree>, base: nat, i: nat, free: set<nat>)
    requires i < |kids| && Positions(base + |kids|, SumSize(kids, i + 1)) <= free
    ensures Positions(base + |kids|, SumSize(kids, i)) <= free
    ensures Positions(FirstOf(kids, base, i), Size(kids[i])) <= free - Positions(base + |kids|, SumSize(kids, i))
  {
  }

  ghost predicate Ready(dir: seq<DirEntry>, kids: seq<Tree>, base: nat, depth: nat) {
    && Stored(dir, kids, base) && |dir| <= NO_STREAM
    && depth + Nesting(kids, |kids|) <= MAX_STORAGE_DEPTH
  }

  lemma {:induction false} InnerReady(dir: seq<DirEntry>, kids: seq<Tree>, base: nat, depth: nat, i: nat)
    requires Ready(dir, kids, base, depth) && i < |kids| && kids[i].Dir?
    ensures Ready(dir, kids[i].kids, FirstOf(kids, base, i), depth + 1)
  {
    StoredInner(dir, kids, base, i);
    NestingInner(kids, |kids|, i);
  }

  lemma {:induction false} ReadNodesBack(dir: seq<DirEntry>, kids: seq<Tree>, base: nat, n: nat, depth: nat, free: set<nat>)
    requires Ready(dir, kids, base, depth) && n <= |kids| && base + |kids| <= |dir|
    requires Positions(base + |kids|, SumSize(kids, n)) <= free
    ensures FirstBack(dir, kids, base, n, depth, free)
    decreases kids, n
  {
    if n == 0 {
      assert free - Positions(base + |kids|, 0) == free;
    } else {
      var i := n - 1;
      InnerFree(kids, base, i, free);
      ReadNodesBack(dir, kids, base, i, depth, free);
      if kids[i].Dir? { NextDirBack(dir, kids, base, i, depth, free); }
      else { ReadStreamBack(dir, kids, base, i, depth, free); }
    }
  }

  lemma {:induction false} NextDirBack(dir: seq<DirEntry>, kids: seq<Tree>, base: nat, i: nat, depth: nat, free: set<nat>)
    requires Ready(dir, kids, base, depth) && i < |kids| && base + |kids| <= |dir| && kids[i].Dir?
    requires Positions(FirstOf(kids, base, i), SizeAll(kids[i].kids)) <= free - Positions(base + |kids|, SumSize(kids, i))
    requires FirstBack(dir, kids, base, i, depth, free)
    ensures FirstBack(dir, kids, base, i + 1, depth, free)
    decreases kids, 0
  {
    var first := FirstOf(kids, base, i);
    var left := free - Positions(base + |kids|, SumSize(kids, i));
    assert StorageBack(dir, kids[i].kids, first, depth + 1, left) by {
      InnerReady(dir, kids, base, depth, i);
      ReadsBack(dir, kids[i].kids, first, depth + 1, left);
    }
    ReadDirBack(dir, kids, base, i, depth, free);
  }

  lemma {:induction false} StorageFromNodes(dir: seq<DirEntry>, kids: seq<Tree>, base: nat, depth: nat, free: set<nat>)
    requires Stored(dir, kids, base) && |dir| <= NO_STREAM && |kids| > 0 && depth <= MAX_STORAGE_DEPTH
    requires Positions(base, |kids|) <= free && base + |kids| <= |dir|
    requires FirstBack(dir, kids, base, |kids|, depth, free - Positions(base, |kids|))
    ensures StorageBack(dir, kids, base, depth, free)
  {
    var n := |kids|;
    StoredTree(dir, kids, base, free);
    StoredKept(dir, kids, base);
    PositionsSplit(base, n, SumSize(kids, n));
    LookupRange(base, n, Middle(0, n));
    var r := ReadStorage(dir, Shift(base, Middle(0, n)), depth, free);
    assert r.Some?;
    forall i | 0 <= i < n
      ensures Mirrors(dir, r.value.nodes[i], kids[i], base + i, FirstOf(kids, base, i))
      ensures (r.value.nodes[i].left, r.value.nodes[i].right) == Links(0, n, i)
    {
      assert NodeBack(dir, r.value.nodes[i], kids, base, i);
    }
  }

  /** Reading a storage from where the writer put its entries gives its nodes back, in order, with
      the balanced tree as positions, and reaches exactly the entries below it. */
  lemma {:induction false} ReadsBack(dir: seq<DirEntry>, kids: seq<Tree>, base: nat, depth: nat, free: set<nat>)
    requires Ready(dir, kids, base, depth)
    requires Positions(base, SizeAll(kids)) <= free
    ensures StorageBack(dir, kids, base, depth, free)
    decreases kids, |kids| + 1
  {
    var n := |kids|;
    if n == 0 {
      assert SizeAll(kids) == 0;
      assert free - Positions(base, 0) == free;
    } else {
      StoredKept(dir, kids, base);
      PositionsSplit(base, n, SumSize(kids, n));
      ReadNodesBack(dir, kids, base, n, depth, free - Positions(base, n));
      StorageFromNodes(dir, kids, base, depth, free);
    }
  }
}
