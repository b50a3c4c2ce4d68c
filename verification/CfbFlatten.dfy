/** Flattening a package for writing, as the writer does it: streams resolved and entries appended storage by
    storage, positions of the children noted in their parent, the search trees linked in place afterwards. */
module CfbFlatten {
  import opened Bytes
  import opened CfbModel
  import opened CfbTree
  import opened CfbSearch
  import opened CfbDirectory
  import opened CfbResolve
  import opened CfbRuns
  import opened CfbPackage
  import opened CfbUnpack
  import opened CfbCanon
  import opened CfbHash
  import opened Ordering

  /** Where an entry of the new file comes from. */
  datatype Source = Copied(node: Node) | Added(data: Buffer)

  function SourceMeta(s: Source): Meta {
    match s
    case Copied(x) => x.meta
    case Added(data) => SignatureStream(data).meta
  }

  function SourceKey(s: Source): seq<int> {
    NameKey(SourceMeta(s).name)
  }

  function Copies(xs: seq<Node>): (ss: seq<Source>)
    ensures |ss| == |xs| && forall i :: 0 <= i < |xs| ==> ss[i] == Copied(xs[i])
  {
    seq(|xs|, i requires 0 <= i < |xs| => Copied(xs[i]))
  }

  ghost function TreeFrom(pkg: Package, s: Source): Tree
    requires pkg.Valid()
  {
    match s
    case Copied(x) => Unpack(pkg, x)
    case Added(data) => SignatureStream(data)
  }

  ghost function TreesFrom(pkg: Package, ss: seq<Source>): (ts: seq<Tree>)
    requires pkg.Valid()
    ensures |ts| == |ss| && forall i :: 0 <= i < |ss| ==> ts[i] == TreeFrom(pkg, ss[i])
  {
    seq(|ss|, i requires 0 <= i < |ss| => TreeFrom(pkg, ss[i]))
  }

  /** What is written for a sequence of sources: their trees in canonical form. */
  ghost function TreesWritten(pkg: Package, ss: seq<Source>): seq<Tree>
    requires pkg.Valid()
  {
    CanonAll(TreesFrom(pkg, ss))
  }

  // ── Order ──────────────────────────────────────────────────

  ghost predicate InsideUnique(t: Tree) {
    t.Dir? ==> UniqueNames(t.kids)
  }

  lemma {:induction false} SortedTrees(pkg: Package, ss: seq<Source>)
    requires pkg.Valid()
    ensures var sorted, kids := Sort(ss, SourceKey), TreesWritten(pkg, ss);
      |kids| == |sorted| && forall i :: 0 <= i < |sorted| ==> kids[i] == Canon(TreeFrom(pkg, sorted[i]))
    ensures TreesFrom(pkg, Sort(ss, SourceKey)) == Sort(TreesFrom(pkg, ss), TreeKey)
  {
    hide Canon, Unpack, NameKey;
    var ts := TreesFrom(pkg, ss);
    var one := (s: Source, t: Tree) => pkg.Valid() && t == TreeFrom(pkg, s);
    assert Alike(ss, ts, SourceKey, TreeKey, one);
    SortAlike(ss, ts, SourceKey, TreeKey, one);
    var two := (s: Source, t: Tree) => pkg.Valid() && t == Canon(TreeFrom(pkg, s));
    assert Alike(ss, CanonEach(ts), SourceKey, TreeKey, two);
    SortAlike(ss, CanonEach(ts), SourceKey, TreeKey, two);
  }

  lemma {:induction false} UniqueOfPermutation(a: seq<Tree>, b: seq<Tree>)
    requires multiset(a) == multiset(b) && UniqueNames(a)
    ensures UniqueNames(b)
  {
    hide TreeKey;
    DistinctOfPermutation(a, b, TreeKey);
    forall i | 0 <= i < |b| && b[i].Dir? ensures UniqueNames(b[i].kids) {
      InSeqInMultiset(b, a, b[i]);
    }
  }

  /** The canonical form does not depend on the order of the sources. */
  lemma {:induction false} CanonOfPermutation(a: seq<Tree>, b: seq<Tree>)
    requires multiset(a) == multiset(b) && UniqueNames(a)
    ensures CanonAll(a) == CanonAll(b)
  {
    ImagesOfPermutation(a, b, CanonEach(a), CanonEach(b), Canon);
    EachDistinct(a);
    SortOfPermutation(CanonEach(a), CanonEach(b), TreeKey);
  }

  lemma {:induction false} SourceKeys(pkg: Package, ss: seq<Source>)
    requires pkg.Valid()
    ensures DistinctKeys(ss, SourceKey) <==> DistinctKeys(TreesFrom(pkg, ss), TreeKey)
  {
    hide Unpack, NameKey;
    var ts := TreesFrom(pkg, ss);
    assert forall i :: 0 <= i < |ss| ==> TreeKey(ts[i]) == SourceKey(ss[i]);
  }

  ghost predicate AllInside(ts: seq<Tree>) {
    forall i :: 0 <= i < |ts| ==> InsideUnique(ts[i])
  }

  lemma {:induction false} AllInsidePermutes(a: seq<Tree>, b: seq<Tree>)
    requires multiset(a) == multiset(b) && AllInside(a)
    ensures AllInside(b)
  {
    hide InsideUnique;
    forall i | 0 <= i < |b| ensures InsideUnique(b[i]) { InSeqInMultiset(b, a, b[i]); }
  }

  /** Names stand once, here and below, exactly when the keys differ and every source is so inside. */
  lemma {:induction false} UniqueSources(pkg: Package, ss: seq<Source>)
    requires pkg.Valid()
    ensures var ts := TreesFrom(pkg, Sort(ss, SourceKey));
      UniqueNames(TreesFrom(pkg, ss)) == (DistinctKeys(ss, SourceKey) && AllInside(ts))
  {
    hide Unpack, NameKey, DistinctKeys, TreesFrom, Sort;
    SourceKeys(pkg, ss);
    SortedTrees(pkg, ss);
    var ts, sorted := TreesFrom(pkg, ss), TreesFrom(pkg, Sort(ss, SourceKey));
    if AllInside(ts) { AllInsidePermutes(ts, sorted); }
    if AllInside(sorted) { AllInsidePermutes(sorted, ts); }
  }

  // ── Calls ──────────────────────────────────────────────────

  function DirectCalls(ss: seq<Source>, n: nat): seq<Node>
    requires n <= |ss|
  {
    if n == 0 then []
    else DirectCalls(ss, n - 1) + DirectOf(ss[n - 1])
  }

  /** The streams below a storage, in the order in which they are resolved. */
  function BelowCalls(s: Source): seq<Node> {
    if s.Copied? && s.node.isStorage then StreamNodes(Arrange(s.node.children, ChildKey)) else []
  }

  function InnerCalls(ss: seq<Source>, n: nat): seq<Node>
    requires n <= |ss|
  {
    if n == 0 then [] else InnerCalls(ss, n - 1) + BelowCalls(ss[n - 1])
  }

  /** The streams resolved for a sequence of sources, in order. */
  function Calls(ss: seq<Source>): seq<Node> {
    var sorted := Sort(ss, SourceKey);
    DirectCalls(sorted, |sorted|) + InnerCalls(sorted, |sorted|)
  }

  lemma {:induction false} CopiesSorted(xs: seq<Node>)
    ensures Sort(Copies(xs), SourceKey) == Copies(Sort(xs, ChildKey))
  {
    var same := (s: Source, x: Node) => s == Copied(x);
    assert Alike(Copies(xs), xs, SourceKey, ChildKey, same);
    SortAlike(Copies(xs), xs, SourceKey, ChildKey, same);
  }

  lemma {:induction false} CallsOfCopies(xs: seq<Node>, a: seq<Node>, n: nat)
    requires |a| == |xs| && n <= |xs| && forall i :: 0 <= i < |a| ==> a[i] == Arranged(xs[i], ChildKey)
    ensures DirectCalls(Copies(xs), n) == Direct(a, n) && InnerCalls(Copies(xs), n) == Inner(a, n)
  {
    hide Arrange, StreamNodes;
    if n > 0 { CallsOfCopies(xs, a, n - 1); }
  }

  /** For the children of one storage these are the streams in the writer's order. */
  lemma {:induction false} CallsBelow(xs: seq<Node>)
    ensures Calls(Copies(xs)) == StreamNodes(Arrange(xs, ChildKey))
  {
    CopiesSorted(xs);
    ArrangeOfSorted(xs, ChildKey);
    CallsOfCopies(Sort(xs, ChildKey), Arrange(xs, ChildKey), |xs|);
  }

  /** The copied nodes. */
  function NodesIn(ss: seq<Source>): seq<Node> {
    if ss == [] then []
    else NodesIn(ss[..|ss| - 1]) + NodeIn(ss[|ss| - 1])
  }

  lemma {:induction false} NodeCounted(s: Source, x: Node)
    ensures multiset(NodeIn(s))[x] == multiset{s}[Copied(x)]
  {
  }

  lemma {:induction false} NodesCounted(ss: seq<Source>, x: Node)
    ensures multiset(NodesIn(ss))[x] == multiset(ss)[Copied(x)]
  {
    hide NodeIn;
    if ss != [] {
      var n := |ss| - 1;
      NodesCounted(ss[..n], x);
      NodeCounted(ss[n], x);
      assert ss == ss[..n] + [ss[n]];
      assert multiset(NodesIn(ss)) == multiset(NodesIn(ss[..n])) + multiset(NodeIn(ss[n]));
    }
  }

  function DirectOf(s: Source): seq<Node> {
    if s.Copied? && !s.node.isStorage then [s.node] else []
  }

  function NodeIn(s: Source): seq<Node> {
    if s.Copied? then [s.node] else []
  }

  lemma {:induction false} SourceBag(s: Source)
    ensures multiset(DirectOf(s)) + multiset(BelowCalls(s)) == Bag(NodeIn(s))
  {
    if s.Copied? {
      assert [s.node][1..] == [];
      if s.node.isStorage {
        StreamNodesBag(Arrange(s.node.children, ChildKey));
        BagArrange(s.node.children, ChildKey);
      }
    }
  }

  lemma {:induction false} BagAppend(a: seq<Node>, b: seq<Node>)
    ensures Bag(a + b) == Bag(a) + Bag(b)
  {
    hide BagOf;
    if a == [] { assert a + b == b; } else {
      BagAppend(a[1..], b);
      assert (a + b)[1..] == a[1..] + b;
    }
  }

  lemma {:induction false} BagsJoin(d: seq<Node>, i: seq<Node>, xs: seq<Node>, dd: seq<Node>, ii: seq<Node>, ys: seq<Node>)
    requires multiset(d) + multiset(i) == Bag(xs) && multiset(dd) + multiset(ii) == Bag(ys)
    ensures multiset(d + dd) + multiset(i + ii) == Bag(xs + ys)
  {
    hide Bag;
    BagAppend(xs, ys);
    assert multiset(d + dd) == multiset(d) + multiset(dd) && multiset(i + ii) == multiset(i) + multiset(ii);
  }

  lemma {:induction false} OneMoreSource(ss: seq<Source>, n: nat)
    requires n < |ss|
    ensures DirectCalls(ss, n + 1) == DirectCalls(ss, n) + DirectOf(ss[n])
    ensures InnerCalls(ss, n + 1) == InnerCalls(ss, n) + BelowCalls(ss[n])
    ensures NodesIn(ss[..n + 1]) == NodesIn(ss[..n]) + NodeIn(ss[n])
  {
    hide DirectOf, BelowCalls, NodeIn;
    assert ss[..n + 1][..n] == ss[..n] && ss[..n + 1][n] == ss[n];
  }

  lemma {:induction false} CallsBag(ss: seq<Source>, n: nat)
    requires n <= |ss|
    ensures multiset(DirectCalls(ss, n)) + multiset(InnerCalls(ss, n)) == Bag(NodesIn(ss[..n]))
  {
    if n > 0 {
      CallsBag(ss, n - 1);
      OneMoreSource(ss, n - 1);
      SourceBag(ss[n - 1]);
      BagsJoin(DirectCalls(ss, n - 1), InnerCalls(ss, n - 1), NodesIn(ss[..n - 1]),
               DirectOf(ss[n - 1]), BelowCalls(ss[n - 1]), NodeIn(ss[n - 1]));
    }
  }

  lemma {:induction false} BagOfPermutation(a: seq<Node>, b: seq<Node>)
    requires multiset(a) == multiset(b)
    ensures Bag(a) == Bag(b)
    decreases |a|
  {
    hide BagOf;
    if a == [] {
      assert |b| == |multiset(b)| == 0;
    } else {
      InSeqInMultiset(a, b, a[0]);
      var k :| 0 <= k < |b| && b[k] == a[0];
      TailMultiset(a);
      WithoutOne(b, k);
      BagOfPermutation(a[1..], b[..k] + b[k + 1..]);
      BagMiddle(b[..k], b[k], b[k + 1..]);
      assert b == b[..k] + [b[k]] + b[k + 1..];
    }
  }

  lemma {:induction false} BagMiddle(a: seq<Node>, x: Node, b: seq<Node>)
    ensures Bag(a + [x] + b) == BagOf(x) + Bag(a + b)
  {
    hide BagOf;
    if a == [] {
      assert a + [x] + b == [x] + b && ([x] + b)[1..] == b && a + b == b;
    } else {
      BagMiddle(a[1..], x, b);
      assert (a + [x] + b)[1..] == a[1..] + [x] + b && (a + b)[1..] == a[1..] + b;
    }
  }

  /** All the streams below the copied nodes are resolved, each once. */
  lemma {:induction false} CallsAre(ss: seq<Source>, xs: seq<Node>)
    requires forall x :: multiset(ss)[Copied(x)] == multiset(xs)[x]
    ensures multiset(Calls(ss)) == Bag(xs)
  {
    hide DirectCalls, InnerCalls, NodesIn, Bag, NameKey;
    var sorted := Sort(ss, SourceKey);
    hide Sort;
    CallsBag(sorted, |sorted|);
    assert sorted[..|sorted|] == sorted;
    forall x ensures multiset(NodesIn(sorted))[x] == multiset(xs)[x] { NodesCounted(sorted, x); }
    BagOfPermutation(NodesIn(sorted), xs);
  }

  // ── The entries appended ───────────────────────────────────

  /** One entry while the package is flattened: its bytes in pieces of the source, its children as positions. */
  datatype Item = Item(meta: Meta, isStorage: bool, pieces: seq<Buffer>, children: seq<nat>)

  /** The entry of a node whose children start at `first`. */
  ghost predicate ItemOf(x: Item, t: Tree, first: nat) {
    && x.meta == t.meta && x.isStorage == t.Dir?
    && Join(x.pieces) == (if t.Stream? then t.data else [])
    && x.children == (if t.Dir? then Range(first, |t.kids|) else [])
  }

  /** The same before the children are known. */
  ghost predicate BareItem(x: Item, t: Tree) {
    x.meta == t.meta && x.isStorage == t.Dir? && Join(x.pieces) == (if t.Stream? then t.data else []) && x.children == []
  }

  /** The items from `base` on are the nodes, storage by storage. */
  ghost predicate ItemsOf(items: seq<Item>, kids: seq<Tree>, base: nat) {
    && base + SizeAll(kids) <= |items|
    && forall i :: 0 <= i < |kids| ==>
         && ItemOf(items[base + i], kids[i], FirstOf(kids, base, i))
         && (kids[i].Dir? ==> ItemsOf(items, kids[i].kids, FirstOf(kids, base, i)))
  }

  /** What lies below the i-th node lies inside the stretch. */
  lemma {:induction false} StretchInside(kids: seq<Tree>, base: nat, i: nat)
    requires i < |kids|
    ensures base + |kids| <= FirstOf(kids, base, i) && FirstOf(kids, base, i) + Size(kids[i]) <= base + SizeAll(kids)
    ensures |kids| <= SizeAll(kids) && (kids[i].Dir? ==> Size(kids[i]) == SizeAll(kids[i].kids))
  {
    SumMonotone(kids, i + 1, |kids|);
  }

  /** Only the items in its own stretch matter. */
  lemma {:induction false} ItemsStay(a: seq<Item>, b: seq<Item>, kids: seq<Tree>, base: nat)
    requires ItemsOf(a, kids, base) && base + SizeAll(kids) <= |b|
    requires forall k :: base <= k < base + SizeAll(kids) ==> b[k] == a[k]
    ensures ItemsOf(b, kids, base)
    decreases kids
  {
    hide ItemOf, FirstOf, Size, SizeAll;
    forall i | 0 <= i < |kids|
      ensures |kids| <= SizeAll(kids) && ItemOf(b[base + i], kids[i], FirstOf(kids, base, i))
      ensures kids[i].Dir? ==> ItemsOf(b, kids[i].kids, FirstOf(kids, base, i))
    {
      StretchInside(kids, base, i);
      assert b[base + i] == a[base + i];
      if kids[i].Dir? { ItemsStay(a, b, kids[i].kids, FirstOf(kids, base, i)); }
    }
  }

  /** The earlier entries stay; the parent's children are the n entries that follow. */
  ghost predicate KeepsOthers(before: seq<Item>, after: seq<Item>, parent: nat, n: nat)
    requires parent < |before|
  {
    && |before| <= |after| && (forall k :: 0 <= k < |before| && k != parent ==> after[k] == before[k])
    && after[parent] == before[parent].(children := Range(|before|, n))
  }

  /** What flattening a storage does to the entries so far. */
  ghost predicate Expanded(before: seq<Item>, after: seq<Item>, parent: nat, kids: seq<Tree>)
    requires parent < |before|
  {
    |after| == |before| + SizeAll(kids) && KeepsOthers(before, after, parent, |kids|) && ItemsOf(after, kids, |before|)
  }

  /** The first i nodes, which start at `base`, are listed with all below them. */
  ghost predicate ItemsTo(items: seq<Item>, kids: seq<Tree>, base: nat, i: nat)
    requires i <= |kids|
  {
    && base + |kids| <= FirstOf(kids, base, i) <= |items|
    && (forall j :: 0 <= j < i ==> ItemOf(items[base + j], kids[j], FirstOf(kids, base, j)))
    && (forall j :: 0 <= j < i && kids[j].Dir? ==> ItemsOf(items, kids[j].kids, FirstOf(kids, base, j)))
  }

  ghost predicate BareFrom(items: seq<Item>, kids: seq<Tree>, base: nat, i: nat) {
    base + |kids| <= |items| && forall j :: i <= j < |kids| ==> BareItem(items[base + j], kids[j])
  }

  lemma {:induction false} FirstStays(before: seq<Item>, after: seq<Item>, parent: nat, kids: seq<Tree>, base: nat)
    requires base <= parent < |before| && Expanded(before, after, parent, kids)
    ensures base <= |after| && after[..base] == before[..base]
  {
  }

  lemma {:induction false} BareStream(x: Item, t: Tree, first: nat)
    requires BareItem(x, t) && t.Stream?
    ensures ItemOf(x, t, first)
  {
  }

  lemma {:induction false} BareFilled(x: Item, t: Tree, first: nat)
    requires BareItem(x, t) && t.Dir?
    ensures ItemOf(x.(children := Range(first, |t.kids|)), t, first)
  {
  }

  lemma {:induction false} ItemsStream(items: seq<Item>, kids: seq<Tree>, base: nat, i: nat)
    requires i < |kids| && kids[i].Stream? && ItemsTo(items, kids, base, i) && BareFrom(items, kids, base, i)
    ensures ItemsTo(items, kids, base, i + 1) && BareFrom(items, kids, base, i + 1)
    ensures FirstOf(kids, base, i + 1) == FirstOf(kids, base, i)
  {
    hide ItemOf, BareItem, ItemsOf;
    NextFirst(kids, base, i);
    BareStream(items[base + i], kids[i], FirstOf(kids, base, i));
  }

  lemma {:induction false} BelowStays(items: seq<Item>, after: seq<Item>, kids: seq<Tree>, base: nat, i: nat, j: nat)
    requires j < i < |kids| && kids[j].Dir? && ItemsOf(items, kids[j].kids, FirstOf(kids, base, j))
    requires FirstOf(kids, base, i) <= |after| && |items| <= |after|
    requires forall k :: base + |kids| <= k < |items| ==> after[k] == items[k]
    ensures ItemsOf(after, kids[j].kids, FirstOf(kids, base, j))
  {
    hide ItemsOf;
    SumMonotone(kids, j + 1, i);
    ItemsInside(items, kids[j].kids, FirstOf(kids, base, j));
    ItemsStay(items, after, kids[j].kids, FirstOf(kids, base, j));
  }

  lemma {:induction false} ItemsInside(items: seq<Item>, kids: seq<Tree>, base: nat)
    requires ItemsOf(items, kids, base)
    ensures base + SizeAll(kids) <= |items|
  {
  }

  /** The nodes' own entries, once the children of the i-th are noted. */
  lemma {:induction false} OwnItems(items: seq<Item>, after: seq<Item>, kids: seq<Tree>, base: nat, i: nat)
    requires i < |kids| && kids[i].Dir? && base + |kids| <= |items|
    requires forall j :: 0 <= j < i ==> ItemOf(items[base + j], kids[j], FirstOf(kids, base, j))
    requires forall j :: i <= j < |kids| ==> BareItem(items[base + j], kids[j])
    requires KeepsOthers(items, after, base + i, |kids[i].kids|) && |items| == FirstOf(kids, base, i)
    ensures forall j :: 0 <= j < i + 1 ==> ItemOf(after[base + j], kids[j], FirstOf(kids, base, j))
    ensures forall j :: i + 1 <= j < |kids| ==> BareItem(after[base + j], kids[j])
  {
    hide ItemOf, BareItem, FirstOf, Range;
    BareFilled(items[base + i], kids[i], FirstOf(kids, base, i));
  }

  lemma {:induction false} InnerItems(items: seq<Item>, after: seq<Item>, kids: seq<Tree>, base: nat, i: nat)
    requires i < |kids| && kids[i].Dir? && base + |kids| <= |items| == FirstOf(kids, base, i)
    requires forall j :: 0 <= j < i && kids[j].Dir? ==> ItemsOf(items, kids[j].kids, FirstOf(kids, base, j))
    requires Expanded(items, after, base + i, kids[i].kids)
    ensures forall j :: 0 <= j < i + 1 && kids[j].Dir? ==> ItemsOf(after, kids[j].kids, FirstOf(kids, base, j))
  {
    hide ItemsOf, FirstOf, Range;
    forall j | 0 <= j < i + 1 && kids[j].Dir? ensures ItemsOf(after, kids[j].kids, FirstOf(kids, base, j)) {
      if j < i { BelowStays(items, after, kids, base, i, j); }
    }
  }

  lemma {:induction false} ItemsStorage(items: seq<Item>, after: seq<Item>, kids: seq<Tree>, base: nat, i: nat)
    requires i < |kids| && kids[i].Dir? && ItemsTo(items, kids, base, i) && BareFrom(items, kids, base, i)
    requires |items| == FirstOf(kids, base, i) && Expanded(items, after, base + i, kids[i].kids)
    ensures ItemsTo(after, kids, base, i + 1) && BareFrom(after, kids, base, i + 1) && |after| == FirstOf(kids, base, i + 1)
  {
    hide ItemOf, BareItem, ItemsOf, KeepsOthers, FirstOf, Size, SizeAll;
    NextFirst(kids, base, i);
    StretchInside(kids, base, i);
    OwnItems(items, after, kids, base, i);
    InnerItems(items, after, kids, base, i);
  }

  lemma {:induction false} ItemsWhole(items: seq<Item>, kids: seq<Tree>, base: nat)
    requires ItemsTo(items, kids, base, |kids|)
    ensures ItemsOf(items, kids, base)
  {
    hide ItemOf;
  }

  // ── The flattener ──────────────────────────────────────────

  class Flattener {
    const model: PackageModel
    var entries: seq<Item>

    constructor (model: PackageModel, root: Meta)
      ensures this.model == model && entries == [Item(root, true, [], [])]
    {
      this.model := model;
      this.entries := [Item(root, true, [], [])];
    }

    /** The entries of the first i sources follow `before`, their streams resolved from the state `st`. */
    ghost predicate Appended(st: Owners, before: seq<Item>, sorted: seq<Source>, i: nat)
      requires i <= |sorted|
      reads this, model, model.sectors
    {
      && model.Valid() && ResolveAll(model.pkg, st, DirectCalls(sorted, i)) == Some(model.State())
      && |entries| == |before| + i && entries[..|before|] == before
      && forall j :: 0 <= j < i ==> BareItem(entries[|before| + j], TreeFrom(model.pkg, sorted[j]))
    }

    /** Appends one entry for each source, resolving its stream. */
    method AppendEntries(sorted: seq<Source>) returns (ok: bool)
      requires model.Valid()
      modifies this, model, model.sectors
      ensures model.Valid()
      ensures if ok then Appended(old(model.State()), old(entries), sorted, |sorted|)
              else ResolveAll(model.pkg, old(model.State()), DirectCalls(sorted, |sorted|)).None?
    {
      hide BareItem, TreeFrom, ResolveAll, DirectCalls, Appended, PackageModel.Valid, PackageModel.State;
      ghost var st, before := model.State(), entries;
      AppendedStart(this, sorted);
      ok := true;
      for i := 0 to |sorted|
        invariant ok && Appended(st, before, sorted, i)
      {
        ok := AppendNext(sorted, i, st, before);
        if !ok { return; }
      }
      AppendedMeans(this, st, before, sorted);
    }

    method AppendNext(sorted: seq<Source>, i: nat, ghost st: Owners, ghost before: seq<Item>) returns (ok: bool)
      requires i < |sorted| && Appended(st, before, sorted, i)
      modifies this, model, model.sectors
      ensures model.Valid()
      ensures if ok then Appended(st, before, sorted, i + 1) else ResolveAll(model.pkg, st, DirectCalls(sorted, |sorted|)).None?
    {
      hide BareItem, TreeFrom, ResolveAll, DirectCalls, DirectOf;
      DirectCallsStep(model.pkg, st, sorted, i);
      ok := AppendEntry(sorted[i]);
      if !ok { DirectCallsFail(model.pkg, st, sorted, i + 1, |sorted|); }
    }

    method AppendEntry(s: Source) returns (ok: bool)
      requires model.Valid()
      modifies this, model, model.sectors
      ensures model.Valid()
      ensures var r := ResolveAll(model.pkg, old(model.State()), DirectOf(s));
        (ok <==> r.Some?) && (ok ==> r == Some(model.State()))
      ensures ok ==> |entries| == |old(entries)| + 1 && entries[..|old(entries)|] == old(entries)
      ensures ok ==> BareItem(entries[|old(entries)|], TreeFrom(model.pkg, s))
    {
      var pieces: seq<Buffer> := [];
      if s.Added? {
        pieces := [s.data];
        JoinSnoc([], s.data);
      } else if !s.node.isStorage {
        ResolvedAlone(model.pkg, model.State(), s.node);
        OneCall(model.pkg, model.State(), s.node);
        var extents := model.Resolve(s.node);
        if extents.None? { return false; }
        pieces := Pieces(model.pkg.source, extents.value);
      }
      entries := entries + [Item(SourceMeta(s), s.Copied? && s.node.isStorage, pieces, [])];
      ok := true;
    }

    /** The storages among the first i sources are flattened; `first` are the entries before those of the sources. */
    ghost predicate Progress(st: Owners, sorted: seq<Source>, kids: seq<Tree>, first: seq<Item>, i: nat)
      reads this, model, model.sectors
    {
      && model.Valid() && i <= |kids| == |sorted|
      && ResolveAll(model.pkg, st, InnerCalls(sorted, i)) == Some(model.State())
      && InsideTo(model.pkg, sorted, i)
      && ItemsTo(entries, kids, |first|, i) && BareFrom(entries, kids, |first|, i)
      && |entries| == FirstOf(kids, |first|, i) && entries[..|first|] == first
    }

    method ExpandNext(sorted: seq<Source>, i: nat, base: nat, ghost st: Owners, ghost kids: seq<Tree>, ghost first: seq<Item>, ghost among: seq<Node>)
      returns (ok: bool)
      requires i < |sorted| && base == |first| && Progress(st, sorted, kids, first, i) && FromAmong(sorted, among)
      requires kids[i] == Canon(TreeFrom(model.pkg, sorted[i]))
      modifies this, model, model.sectors
      ensures model.Valid()
      ensures if ok then Progress(st, sorted, kids, first, i + 1)
              else !(InsideTo(model.pkg, sorted, i + 1) && ResolveAll(model.pkg, st, InnerCalls(sorted, i + 1)).Some?)
      decreases among, 0, 0
    {
      ProgressMeans(this, st, sorted, kids, first, i);
      hide ResolveAll, InnerCalls, InsideTo, ItemsTo, BareFrom, Canon, TreeFrom, FirstOf, InsideUnique, BelowCalls, CanonOf;
      hide Progress, PackageModel.Valid, PackageModel.State;
      InnerCallsStep(model.pkg, st, sorted, i);
      if sorted[i].Copied? && sorted[i].node.isStorage {
        ghost var k := OneAmong(sorted, among, i);
        ok := ExpandBelow(sorted[i], i, base, kids, first);
      } else {
        OtherSource(model.pkg, sorted[i]);
        ItemsStream(entries, kids, base, i);
        ok := true;
      }
      if ok { ProgressFrom(this, st, sorted, kids, first, i + 1); }
    }

    /** The storage at position base + i. */
    method ExpandBelow(s: Source, i: nat, base: nat, ghost kids: seq<Tree>, ghost first: seq<Item>) returns (ok: bool)
      requires model.Valid() && s.Copied? && s.node.isStorage && i < |kids| && kids[i] == Canon(TreeFrom(model.pkg, s))
      requires ItemsTo(entries, kids, base, i) && BareFrom(entries, kids, base, i) && |entries| == FirstOf(kids, base, i)
      requires |first| == base <= |entries| && entries[..base] == first
      modifies this, model, model.sectors
      ensures model.Valid()
      ensures var r := ResolveAll(model.pkg, old(model.State()), BelowCalls(s));
        (ok <==> InsideUnique(TreeFrom(model.pkg, s)) && r.Some?) && (ok ==> r == Some(model.State()))
      ensures ok ==> ItemsTo(entries, kids, base, i + 1) && BareFrom(entries, kids, base, i + 1)
      ensures ok ==> |entries| == FirstOf(kids, base, i + 1) && base <= |entries| && entries[..base] == first
      decreases s.node.children, 2
    {
      StorageSource(model.pkg, s);
      hide ResolveAll, ItemsTo, BareFrom, Canon, TreeFrom, FirstOf, InsideUnique, BelowCalls, Expanded, Calls, TreesWritten, UniqueNames, PackageModel.Valid, PackageModel.State;
      ghost var before := entries;
      PositionInside(entries, kids, base, i);
      ok := Expand(base + i, Copies(s.node.children), s.node.children);
      if ok {
        ItemsStorage(before, entries, kids, base, i);
        FirstStays(before, entries, base + i, kids[i].kids, base);
      }
    }

    /** Each storage among the sources in turn. */
    method ExpandStorages(sorted: seq<Source>, base: nat, ghost kids: seq<Tree>, ghost among: seq<Node>) returns (ok: bool)
      requires model.Valid() && base + |sorted| == |entries| && FromAmong(sorted, among) && CanonOf(model.pkg, sorted, kids)
      requires BareFrom(entries, kids, base, 0)
      modifies this, model, model.sectors
      ensures model.Valid()
      ensures if ok then Progress(old(model.State()), sorted, kids, old(entries[..base]), |sorted|)
              else !(InsideTo(model.pkg, sorted, |sorted|) && ResolveAll(model.pkg, old(model.State()), InnerCalls(sorted, |sorted|)).Some?)
      decreases among, 0, 1
    {
      ghost var st, first := model.State(), entries[..base];
      ProgressStart(this, sorted, kids, first);
      assert model.pkg.Valid();
      hide InsideTo, ResolveAll, InnerCalls, FromAmong, BareFrom, PackageModel.Valid, PackageModel.State;
      ok := true;
      for i := 0 to |sorted|
        invariant ok && Progress(st, sorted, kids, first, i)
      {
        ok := ExpandNext(sorted, i, base, st, kids, first, among);
        if !ok {
          InnerCallsFail(model.pkg, st, sorted, i + 1, |sorted|);
          return;
        }
      }
    }

    /** Appends the entries and notes their positions in the parent. */
    method AppendChildren(parent: nat, sorted: seq<Source>, ghost kids: seq<Tree>) returns (ok: bool)
      requires model.Valid() && parent < |entries| && CanonOf(model.pkg, sorted, kids)
      modifies this, model, model.sectors
      ensures model.Valid()
      ensures var r := ResolveAll(model.pkg, old(model.State()), DirectCalls(sorted, |sorted|));
        (ok <==> r.Some?) && (ok ==> r == Some(model.State()))
      ensures ok ==> |entries| == |old(entries)| + |sorted| && BareFrom(entries, kids, |old(entries)|, 0)
      ensures ok ==> entries[..|old(entries)|] == Noted(old(entries), parent, Range(|old(entries)|, |sorted|))
    {
      assert model.pkg.Valid();
      hide ResolveAll, DirectCalls, BareFrom, BareItem, TreeFrom, Canon, CanonOf, Noted, Package.Valid, PackageModel.Valid, PackageModel.State;
      var base := |entries|;
      ghost var before := entries;
      ok := AppendEntries(sorted);
      if ok {
        ghost var middle := entries;
        BareNoted(model.pkg, before, middle, parent, sorted, kids);
        entries := Noted(entries, parent, Range(base, |sorted|));
      }
    }

    method ExpandSorted(parent: nat, sorted: seq<Source>, ghost kids: seq<Tree>, ghost among: seq<Node>) returns (ok: bool)
      requires model.Valid() && parent < |entries| && FromAmong(sorted, among) && CanonOf(model.pkg, sorted, kids)
      modifies this, model, model.sectors
      ensures model.Valid()
      ensures var r := ResolveSorted(model.pkg, old(model.State()), sorted);
        (ok <==> InsideTo(model.pkg, sorted, |sorted|) && r.Some?) && (ok ==> r == Some(model.State()))
      ensures ok ==> Expanded(old(entries), entries, parent, kids)
      decreases among, 0, 2
    {
      hide ResolveAll, DirectCalls, InnerCalls, InsideTo, FromAmong, CanonOf, BareFrom, Expanded, PackageModel.Valid, PackageModel.State, Progress;
      var base := |entries|;
      ghost var before := entries;
      ok := AppendChildren(parent, sorted, kids);
      if !ok { return; }
      ghost var middle := model.State();
      ghost var first := entries[..base];
      ok := ExpandStorages(sorted, base, kids, among);
      if ok {
        ProgressMeans(this, middle, sorted, kids, first, |sorted|);
        StorageExpanded(before, entries, parent, kids);
      }
    }

    /** One storage: names checked, the entries of its children in the format's order, then each storage below it. */
    method Expand(parent: nat, ss: seq<Source>, ghost among: seq<Node>) returns (ok: bool)
      requires model.Valid() && parent < |entries| && FromAmong(ss, among)
      modifies this, model, model.sectors
      ensures model.Valid()
      ensures ok <==> UniqueNames(TreesFrom(model.pkg, ss)) && ResolveAll(model.pkg, old(model.State()), Calls(ss)).Some?
      ensures ok ==> ResolveAll(model.pkg, old(model.State()), Calls(ss)) == Some(model.State())
      ensures ok ==> Expanded(old(entries), entries, parent, TreesWritten(model.pkg, ss))
      decreases among, 1
    {
      hide ResolveAll, ResolveSorted, InsideTo, FromAmong, UniqueNames, DistinctKeys, Sort, Calls, CanonOf, Expanded, TreesFrom, TreesWritten;
      hide NameKey, SourceMeta, SourceKey, SourceNames, PackageModel.State;
      ExpandFacts(model.pkg, model.State(), ss, among);
      NamesAreSourceKeys(ss);
      ok := NamesDiffer(SourceNames(ss));
      if ok { ok := ExpandSorted(parent, Sort(ss, SourceKey), TreesWritten(model.pkg, ss), among); }
    }
  }

  /** The calls for sorted sources: their own streams, then those below each storage. */
  ghost function ResolveSorted(pkg: Package, st: Owners, sorted: seq<Source>): Option<Owners>
    requires pkg.Valid()
  {
    var m :- ResolveAll(pkg, st, DirectCalls(sorted, |sorted|));
    ResolveAll(pkg, m, InnerCalls(sorted, |sorted|))
  }

  function SourceNames(ss: seq<Source>): (names: seq<Name>)
    ensures |names| == |ss| && forall i :: 0 <= i < |ss| ==> names[i] == SourceMeta(ss[i]).name
  {
    seq(|ss|, i requires 0 <= i < |ss| => SourceMeta(ss[i]).name)
  }

  lemma {:induction false} NamesAreSourceKeys(ss: seq<Source>)
    ensures DistinctKeys(SourceNames(ss), NameKey) <==> DistinctKeys(ss, SourceKey)
  {
    hide SourceMeta;
    var names := SourceNames(ss);
    assert forall i :: 0 <= i < |ss| ==> NameKey(names[i]) == SourceKey(ss[i]);
  }

  ghost predicate CanonOf(pkg: Package, ss: seq<Source>, kids: seq<Tree>)
    requires pkg.Valid()
  {
    |kids| == |ss| && forall i :: 0 <= i < |ss| ==> kids[i] == Canon(TreeFrom(pkg, ss[i]))
  }

  /** How the sorted sources stand for the storage. */
  lemma {:induction false} ExpandFacts(pkg: Package, st: Owners, ss: seq<Source>, among: seq<Node>)
    requires pkg.Valid() && FromAmong(ss, among)
    ensures var sorted := Sort(ss, SourceKey); var n := |sorted|;
      && CanonOf(pkg, sorted, TreesWritten(pkg, ss)) && FromAmong(sorted, among)
      && (UniqueNames(TreesFrom(pkg, ss)) <==> DistinctKeys(ss, SourceKey) && InsideTo(pkg, sorted, n))
      && ResolveAll(pkg, st, Calls(ss)) == ResolveSorted(pkg, st, sorted)
  {
    hide Canon, TreeFrom, ResolveAll, DirectCalls, InnerCalls, InsideUnique, UniqueNames, DistinctKeys;
    var sorted := Sort(ss, SourceKey);
    SortedTrees(pkg, ss);
    UniqueSources(pkg, ss);
    assert InsideTo(pkg, sorted, |sorted|) <==> AllInside(TreesFrom(pkg, sorted));
    ResolveAllAppend(pkg, st, DirectCalls(sorted, |sorted|), InnerCalls(sorted, |sorted|));
    forall i | 0 <= i < |sorted| && sorted[i].Copied? ensures sorted[i].node in among { InSeqInMultiset(sorted, ss, sorted[i]); }
  }

  /** The positions of the children noted in their parent. */
  function Noted(items: seq<Item>, parent: nat, children: seq<nat>): (r: seq<Item>)
    requires parent < |items|
    ensures |r| == |items|
  {
    items[parent := items[parent].(children := children)]
  }

  lemma {:induction false} BareNoted(pkg: Package, before: seq<Item>, middle: seq<Item>, parent: nat, ss: seq<Source>, kids: seq<Tree>)
    requires pkg.Valid() && CanonOf(pkg, ss, kids) && parent < |before| && |middle| == |before| + |ss| && middle[..|before|] == before
    requires forall j :: 0 <= j < |ss| ==> BareItem(middle[|before| + j], TreeFrom(pkg, ss[j]))
    ensures var items := Noted(middle, parent, Range(|before|, |ss|));
      BareFrom(items, kids, |before|, 0) && items[..|before|] == Noted(before, parent, Range(|before|, |ss|))
  {
    hide TreeFrom;
    assert middle[parent] == before[parent];
    var items := Noted(middle, parent, Range(|before|, |ss|));
    forall j | 0 <= j < |kids| ensures BareItem(items[|before| + j], kids[j]) {
      assert items[|before| + j] == middle[|before| + j];
    }
  }

  lemma {:induction false} PositionInside(items: seq<Item>, kids: seq<Tree>, base: nat, i: nat)
    requires BareFrom(items, kids, base, i) && i < |kids|
    ensures base + i < |items|
  {
  }

  lemma {:induction false} ProgressMeans(f: Flattener, st: Owners, ss: seq<Source>, kids: seq<Tree>, first: seq<Item>, i: nat)
    requires f.Progress(st, ss, kids, first, i)
    ensures f.model.Valid() && f.model.pkg.Valid() && i <= |kids| == |ss|
    ensures ResolveAll(f.model.pkg, st, InnerCalls(ss, i)) == Some(f.model.State()) && InsideTo(f.model.pkg, ss, i)
    ensures ItemsTo(f.entries, kids, |first|, i) && BareFrom(f.entries, kids, |first|, i) && |first| + |kids| <= |f.entries|
    ensures |f.entries| == FirstOf(kids, |first|, i) && f.entries[..|first|] == first
  {
  }

  lemma {:induction false} ProgressFrom(f: Flattener, st: Owners, ss: seq<Source>, kids: seq<Tree>, first: seq<Item>, i: nat)
    requires f.model.Valid() && i <= |kids| == |ss|
    requires ResolveAll(f.model.pkg, st, InnerCalls(ss, i)) == Some(f.model.State()) && InsideTo(f.model.pkg, ss, i)
    requires ItemsTo(f.entries, kids, |first|, i) && BareFrom(f.entries, kids, |first|, i)
    requires |f.entries| == FirstOf(kids, |first|, i) && |first| <= |f.entries| && f.entries[..|first|] == first
    ensures f.Progress(st, ss, kids, first, i)
  {
  }

  /** The entries of one storage, once all below it are there. */
  lemma {:induction false} StorageExpanded(before: seq<Item>, items: seq<Item>, parent: nat, kids: seq<Tree>)
    requires parent < |before| <= |items|
    requires ItemsTo(items, kids, |before|, |kids|) && |items| == FirstOf(kids, |before|, |kids|)
    requires items[..|before|] == Noted(before, parent, Range(|before|, |kids|))
    ensures Expanded(before, items, parent, kids)
  {
    hide ItemsTo, ItemsOf, Range;
    ItemsWhole(items, kids, |before|);
    assert forall k :: 0 <= k < |before| ==> items[k] == items[..|before|][k];
  }

  lemma {:induction false} ProgressStart(f: Flattener, ss: seq<Source>, kids: seq<Tree>, first: seq<Item>)
    requires f.model.Valid() && |first| + |ss| == |f.entries| && first == f.entries[..|first|] && |kids| == |ss|
    requires BareFrom(f.entries, kids, |first|, 0)
    ensures f.Progress(f.model.State(), ss, kids, first, 0)
  {
  }

  lemma {:induction false} InnerCallsFail(pkg: Package, st: Owners, ss: seq<Source>, i: nat, n: nat)
    requires pkg.Valid() && i <= n <= |ss| && !(InsideTo(pkg, ss, i) && ResolveAll(pkg, st, InnerCalls(ss, i)).Some?)
    ensures !(InsideTo(pkg, ss, n) && ResolveAll(pkg, st, InnerCalls(ss, n)).Some?)
    decreases n
  {
    hide ResolveAll, InnerCalls, InsideTo;
    if i < n {
      InnerCallsFail(pkg, st, ss, i, n - 1);
      InnerCallsStep(pkg, st, ss, n - 1);
    }
  }

  /** The copied nodes come from these. */
  ghost predicate FromAmong(ss: seq<Source>, among: seq<Node>) {
    forall i :: 0 <= i < |ss| && ss[i].Copied? ==> ss[i].node in among
  }

  lemma {:induction false} OneAmong(ss: seq<Source>, among: seq<Node>, i: nat) returns (k: nat)
    requires FromAmong(ss, among) && i < |ss| && ss[i].Copied?
    ensures k < |among| && among[k] == ss[i].node
  {
    k :| 0 <= k < |among| && among[k] == ss[i].node;
  }

  ghost predicate InsideTo(pkg: Package, ss: seq<Source>, n: nat)
    requires pkg.Valid()
  {
    forall j :: 0 <= j < n && j < |ss| ==> InsideUnique(TreeFrom(pkg, ss[j]))
  }

  lemma {:induction false} InnerCallsStep(pkg: Package, st: Owners, ss: seq<Source>, i: nat)
    requires pkg.Valid() && i < |ss|
    ensures ResolveAll(pkg, st, InnerCalls(ss, i + 1)) == (var m :- ResolveAll(pkg, st, InnerCalls(ss, i)); ResolveAll(pkg, m, BelowCalls(ss[i])))
    ensures InsideTo(pkg, ss, i + 1) <==> InsideTo(pkg, ss, i) && InsideUnique(TreeFrom(pkg, ss[i]))
  {
    hide ResolveAll, BelowCalls, InsideUnique;
    ResolveAllAppend(pkg, st, InnerCalls(ss, i), BelowCalls(ss[i]));
  }

  /** A storage is flattened as the sequence of its children. */
  lemma {:induction false} StorageSource(pkg: Package, s: Source)
    requires pkg.Valid() && s.Copied? && s.node.isStorage
    ensures var inner, t := Copies(s.node.children), TreeFrom(pkg, s);
      && Canon(t).Dir? && Canon(t).kids == TreesWritten(pkg, inner)
      && (InsideUnique(t) <==> UniqueNames(TreesFrom(pkg, inner)))
      && BelowCalls(s) == Calls(inner) && FromAmong(inner, s.node.children)
  {
    hide Unpack;
    CallsBelow(s.node.children);
    CopiesUnpacked(pkg, s.node);
  }

  lemma {:induction false} CopiesUnpacked(pkg: Package, x: Node)
    requires pkg.Valid() && x.isStorage
    ensures Unpack(pkg, x) == Dir(x.meta, TreesFrom(pkg, Copies(x.children)))
  {
    assert UnpackAll(pkg, x.children) == TreesFrom(pkg, Copies(x.children));
  }

  lemma {:induction false} OtherSource(pkg: Package, s: Source)
    requires pkg.Valid() && !(s.Copied? && s.node.isStorage)
    ensures Canon(TreeFrom(pkg, s)).Stream? && InsideUnique(TreeFrom(pkg, s)) && BelowCalls(s) == []
    ensures forall st: Owners :: ResolveAll(pkg, st, BelowCalls(s)) == Some(st)
  {
  }

  lemma {:induction false} AppendedStart(f: Flattener, sorted: seq<Source>)
    requires f.model.Valid()
    ensures f.Appended(f.model.State(), f.entries, sorted, 0)
  {
    DirectCallsNone(f.model.pkg, f.model.State(), sorted);
  }

  lemma {:induction false} AppendedMeans(f: Flattener, st: Owners, before: seq<Item>, sorted: seq<Source>)
    requires f.Appended(st, before, sorted, |sorted|)
    ensures f.model.Valid()
  {
  }

  lemma {:induction false} DirectCallsNone(pkg: Package, st: Owners, ss: seq<Source>)
    requires pkg.Valid()
    ensures ResolveAll(pkg, st, DirectCalls(ss, 0)) == Some(st)
  {
  }

  lemma {:induction false} DirectCallsStep(pkg: Package, st: Owners, ss: seq<Source>, i: nat)
    requires pkg.Valid() && i < |ss|
    ensures ResolveAll(pkg, st, DirectCalls(ss, i + 1)) == (var m :- ResolveAll(pkg, st, DirectCalls(ss, i)); ResolveAll(pkg, m, DirectOf(ss[i])))
  {
    hide ResolveAll, DirectOf;
    ResolveAllAppend(pkg, st, DirectCalls(ss, i), DirectOf(ss[i]));
  }

  lemma {:induction false} DirectCallsFail(pkg: Package, st: Owners, ss: seq<Source>, i: nat, n: nat)
    requires pkg.Valid() && i <= n <= |ss| && ResolveAll(pkg, st, DirectCalls(ss, i)).None?
    ensures ResolveAll(pkg, st, DirectCalls(ss, n)).None?
    decreases n
  {
    hide ResolveAll, DirectCalls;
    if i < n {
      DirectCallsFail(pkg, st, ss, i, n - 1);
      DirectCallsStep(pkg, st, ss, n - 1);
    }
  }
}
