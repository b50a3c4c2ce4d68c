/** Rebuilding a package from end to end, as the writer runs it: flattened in place, linked, laid out, serialised,
    parsed again and compared entry by entry. */
module CfbRebuild {
  import opened Bytes
  import opened CfbModel
  import opened CfbTree
  import opened CfbSearch
  import opened CfbDirectory
  import opened CfbResolve
  import opened CfbRuns
  import opened CfbPackage
  import opened CfbUnpack
  import opened CfbCanon
  import opened CfbFits
  import opened CfbCheck
  import opened CfbRoundTrip
  import opened CfbHash
  import opened CfbEncoding
  import opened CfbImage
  import opened CfbFile
  import opened CfbReader
  import opened CfbParse
  import opened CfbSerialise
  import opened CfbFlatten
  import opened CfbWriter
  import opened Ordering

  // ── The root's sequence ────────────────────────────────────

  /** Counts of the sources: the nodes, and the new signature. */
  ghost predicate Sequence(ss: seq<Source>, xs: seq<Node>, signature: Option<Buffer>) {
    multiset(ss) == multiset(Copies(xs)) + (if signature.Some? then multiset{Added(signature.value)} else multiset{})
  }

  lemma {:induction false} CopiesNext(xs: seq<Node>, x: Node)
    ensures Copies(xs + [x]) == Copies(xs) + [Copied(x)]
  {
  }

  lemma {:induction false} OtherNodesNext(xs: seq<Node>, x: Node)
    ensures OtherNodes(xs + [x]) == OtherNodes(xs) + OtherNodes([x])
  {
    if xs == [] {
      assert [] + [x] == [x];
    } else {
      OtherNodesNext(xs[1..], x);
      assert (xs + [x])[1..] == xs[1..] + [x];
    }
  }

  /** The nodes but for the signatures. */
  method LeaveOut(xs: seq<Node>) returns (ss: seq<Source>)
    ensures ss == Copies(OtherNodes(xs))
  {
    hide Copies;
    ss := Copies([]);
    for i := 0 to |xs|
      invariant ss == Copies(OtherNodes(xs[..i]))
    {
      assert xs[..i + 1] == xs[..i] + [xs[i]];
      OtherNodesNext(xs[..i], xs[i]);
      OtherNodesOne(xs[i]);
      if xs[i].meta.name != SIGNATURE_NAME && xs[i].meta.name != SIGNATURE_EX_NAME {
        CopiesNext(OtherNodes(xs[..i]), xs[i]);
        ss := ss + [Copied(xs[i])];
      } else {
        assert OtherNodes(xs[..i]) + [] == OtherNodes(xs[..i]);
      }
    }
    assert xs[..|xs|] == xs;
  }

  lemma {:induction false} OtherNodesOne(x: Node)
    ensures OtherNodes([x]) == if x.meta.name == SIGNATURE_NAME || x.meta.name == SIGNATURE_EX_NAME then [] else [x]
  {
    assert [x][1..] == [];
  }

  lemma {:induction false} PutBetween(ss: seq<Source>, at: nat, s: Source)
    requires at <= |ss|
    ensures multiset(ss[..at] + [s] + ss[at..]) == multiset(ss) + multiset{s}
  {
    assert ss == ss[..at] + ss[at..];
  }

  /** The root's signatures are replaced: they are left out, and the new one is put before the first name after it. */
  method RootSequence(xs: seq<Node>, signature: Option<Buffer>) returns (ss: seq<Source>)
    ensures Sequence(ss, OtherNodes(xs), signature)
  {
    hide Copies, NameKey, OtherNodes;
    ss := LeaveOut(xs);
    if signature.Some? {
      var at := 0;
      while at < |ss|
        invariant at <= |ss|
      {
        var c := CompareNames(SIGNATURE_NAME, SourceMeta(ss[at]).name);
        if c < 0 { break; }
        at := at + 1;
      }
      PutBetween(ss, at, Added(signature.value));
      ss := ss[..at] + [Added(signature.value)] + ss[at..];
    }
  }

  /** The entry of a node while flattening; the root's own. */
  ghost predicate Flattened(items: seq<Item>, root: Tree) {
    && root.Dir? && |items| == 1 + SizeAll(root.kids) && ItemOf(items[0], root, 1) && ItemsOf(items, root.kids, 1)
  }

  ghost function SafeTree(pkg: Package, s: Source): Tree {
    if pkg.Valid() then TreeFrom(pkg, s) else Stream(pkg.root.meta, [])
  }

  lemma {:induction false} TreesPermute(pkg: Package, a: seq<Source>, b: seq<Source>)
    requires pkg.Valid() && multiset(a) == multiset(b)
    ensures multiset(TreesFrom(pkg, a)) == multiset(TreesFrom(pkg, b))
  {
    hide TreeFrom;
    ImagesOfPermutation(a, b, TreesFrom(pkg, a), TreesFrom(pkg, b), s => SafeTree(pkg, s));
  }

  lemma {:induction false} TreesOfCopies(pkg: Package, xs: seq<Node>)
    requires pkg.Valid()
    ensures TreesFrom(pkg, Copies(xs)) == UnpackAll(pkg, xs)
  {
  }

  lemma {:induction false} TreesWithSignature(pkg: Package, xs: seq<Node>, data: Buffer)
    requires pkg.Valid()
    ensures multiset(TreesFrom(pkg, Copies(xs) + [Added(data)])) == multiset(UnpackAll(pkg, xs)) + multiset{SignatureStream(data)}
  {
    hide Unpack;
    TreesOfCopies(pkg, xs);
    assert TreesFrom(pkg, Copies(xs) + [Added(data)]) == TreesFrom(pkg, Copies(xs)) + [SignatureStream(data)];
  }

  /** The sequence holds the trees of the root's entries in the new package. */
  lemma {:induction false} SequenceTrees(pkg: Package, ss: seq<Source>, signature: Option<Buffer>)
    requires Loaded(pkg) && Sequence(ss, OtherNodes(pkg.root.children), signature)
    ensures multiset(TreesFrom(pkg, ss)) == multiset(RootKids(TreeOf(pkg).kids, signature))
  {
    hide TreesFrom, Copies, Others, UnpackAll, SourceMeta, SignatureStream;
    var xs := OtherNodes(pkg.root.children);
    OthersUnpacked(pkg, pkg.root.children);
    RootKidsBag(TreeOf(pkg).kids, signature);
    TreesOfCopies(pkg, xs);
    if signature.Some? {
      TreesPermute(pkg, ss, Copies(xs) + [Added(signature.value)]);
      TreesWithSignature(pkg, xs, signature.value);
    } else {
      TreesPermute(pkg, ss, Copies(xs));
    }
  }

  // ── The search trees ───────────────────────────────────────

  ghost predicate LinkedLike(es: seq<Entry>, want: seq<Entry>, list: seq<nat>) {
    |es| == |want| && forall j :: 0 <= j < |list| ==>
      list[j] < |es| && es[list[j]].left == want[list[j]].left && es[list[j]].right == want[list[j]].right
  }

  /** An entry of the output is the item, and its children's links are those of the balanced tree over them. */
  ghost predicate Agrees(x: Item, want: seq<Entry>, k: nat) {
    && k < |want| && want[k].meta == x.meta && want[k].isStorage == x.isStorage && want[k].data == Join(x.pieces)
    && want[k].child == PositionOf(x.children, Middle(0, |x.children|))
    && NoRepeats(x.children) && |x.children| <= NO_STREAM && (!x.isStorage ==> x.children == [])
    && forall j :: 0 <= j < |x.children| ==> 0 < x.children[j] < |want| && LinksOf(want[x.children[j]], x.children, Links(0, |x.children|, j))
  }

  ghost predicate LinksOf(e: Entry, list: seq<nat>, links: (nat, nat)) {
    e.left == PositionOf(list, links.0) && e.right == PositionOf(list, links.1)
  }

  lemma {:induction false} RangePosition(base: nat, n: nat, i: nat)
    requires n <= NO_STREAM && (i < n || i == NO_STREAM)
    ensures PositionOf(Range(base, n), i) == Shift(base, i)
  {
  }

  lemma {:induction false} MiddleShift(base: nat, n: nat)
    requires n <= NO_STREAM
    ensures PositionOf(Range(base, n), Middle(0, n)) == Shift(base, Middle(0, n))
  {
    RangePosition(base, n, Middle(0, n));
  }

  /** The children of one storage have the links of their tree. */
  lemma {:induction false} ChildrenLinked(want: seq<Entry>, kids: seq<Tree>, base: nat, j: nat)
    requires Spread(want, kids, base) && j < |kids| <= NO_STREAM
    ensures base + j < |want| && LinksOf(want[base + j], Range(base, |kids|), Links(0, |kids|, j))
  {
    SpreadHere(want, kids, base, j);
    LinksRange(0, |kids|, j);
    RangePosition(base, |kids|, Links(0, |kids|, j).0);
    RangePosition(base, |kids|, Links(0, |kids|, j).1);
  }

  lemma {:induction false} StorageAgrees(x: Item, want: seq<Entry>, k: nat, t: Tree, first: nat)
    requires ItemOf(x, t, first) && t.Dir? && Spread(want, t.kids, first) && |t.kids| <= NO_STREAM && 0 < first
    requires k < |want| && want[k].meta == t.meta && want[k].isStorage && want[k].data == []
    requires want[k].child == Shift(first, Middle(0, |t.kids|))
    ensures Agrees(x, want, k)
  {
    MiddleShift(first, |t.kids|);
    hide Links, LinksOf, Spread, PositionOf, Shift;
    var list := x.children;
    assert list == Range(first, |t.kids|);
    forall j | 0 <= j < |list| ensures 0 < list[j] < |want| && LinksOf(want[list[j]], list, Links(0, |list|, j)) {
      ChildrenLinked(want, t.kids, first, j);
    }
  }

  lemma {:induction false} StreamAgrees(x: Item, want: seq<Entry>, kids: seq<Tree>, base: nat, i: nat)
    requires Spread(want, kids, base) && i < |kids| && kids[i].Stream? && ItemOf(x, kids[i], FirstOf(kids, base, i))
    ensures Agrees(x, want, base + i)
  {
    hide Links;
    SpreadHere(want, kids, base, i);
  }

  /** The part of a stretch of entries in which a position lies. */
  lemma {:induction false} FindPart(kids: seq<Tree>, m: nat) returns (i: nat)
    requires m < SumSize(kids, |kids|)
    ensures i < |kids| && SumSize(kids, i) <= m < SumSize(kids, i) + Size(kids[i])
  {
    i := |kids|;
    while i > 0 && m < SumSize(kids, i)
      invariant i <= |kids| && (i < |kids| ==> m < SumSize(kids, i + 1)) && (i == |kids| ==> m < SumSize(kids, i))
    {
      i := i - 1;
    }
  }

  lemma {:induction false} AllAgree(items: seq<Item>, want: seq<Entry>, kids: seq<Tree>, base: nat, k: nat)
    requires ItemsOf(items, kids, base) && Spread(want, kids, base) && |want| <= NO_STREAM && 0 < base <= k < base + SizeAll(kids)
    ensures k < |items| && Agrees(items[k], want, k)
    decreases kids
  {
    hide Agrees, ItemOf, Flatten;
    if k < base + |kids| {
      var i := k - base;
      if kids[i].Dir? {
        SpreadInner(want, kids, base, i);
        SpreadHere(want, kids, base, i);
        SpreadFits(want, kids[i].kids, FirstOf(kids, base, i));
        StorageAgrees(items[k], want, k, kids[i], FirstOf(kids, base, i));
      } else {
        StreamAgrees(items[k], want, kids, base, i);
      }
    } else {
      var i := FindPart(kids, k - base - |kids|);
      SpreadInner(want, kids, base, i);
      AllAgree(items, want, kids[i].kids, FirstOf(kids, base, i), k);
    }
  }

  lemma {:induction false} SpreadFits(want: seq<Entry>, kids: seq<Tree>, base: nat)
    requires Spread(want, kids, base)
    ensures base + SizeAll(kids) <= |want| && |kids| <= |want|
  {
  }

  lemma {:induction false} ItemsInner(items: seq<Item>, kids: seq<Tree>, base: nat, i: nat)
    requires ItemsOf(items, kids, base) && i < |kids| && Size(kids[i]) > 0
    ensures kids[i].Dir? && base + i < |items| && items[base + i].children == Range(FirstOf(kids, base, i), |kids[i].kids|)
    ensures ItemsOf(items, kids[i].kids, FirstOf(kids, base, i)) && Size(kids[i]) == SizeAll(kids[i].kids)
  {
  }

  lemma {:induction false} PartOf(kids: seq<Tree>, base: nat, k: nat) returns (i: nat)
    requires base + |kids| <= k < base + SizeAll(kids)
    ensures i < |kids| && Size(kids[i]) > 0 && FirstOf(kids, base, i) <= k < FirstOf(kids, base, i) + Size(kids[i])
  {
    i := FindPart(kids, k - base - |kids|);
  }

  /** Every entry but the root is the child of one. */
  lemma {:induction false} HasParent(items: seq<Item>, kids: seq<Tree>, base: nat, owner: nat, k: nat) returns (o: nat, j: nat)
    requires ItemsOf(items, kids, base) && base <= k < base + SizeAll(kids)
    requires owner < |items| && items[owner].children == Range(base, |kids|)
    ensures o < |items| && j < |items[o].children| && items[o].children[j] == k
    decreases kids
  {
    hide ItemsOf, SizeAll, Size, FirstOf;
    if k < base + |kids| {
      o, j := owner, k - base;
    } else {
      var i := PartOf(kids, base, k);
      ItemsInner(items, kids, base, i);
      o, j := HasParent(items, kids[i].kids, FirstOf(kids, base, i), base + i, k);
    }
  }

  /** The first k entries' trees are linked; the other fields are as wanted. */
  ghost predicate LinkedTo(es: seq<Entry>, want: seq<Entry>, items: seq<Item>, k: nat)
    requires k <= |items|
  {
    && |es| == |want| == |items|
    && (forall i :: 0 <= i < |es| ==> es[i].(left := want[i].left, right := want[i].right, child := want[i].child) == want[i])
    && (forall i :: 0 <= i < |es| ==> es[i].child == if i < k then want[i].child else NO_STREAM)
    && (forall i :: 0 <= i < k ==> LinkedLike(es, want, items[i].children))
    && (|es| > 0 ==> es[0].left == es[0].right == NO_STREAM)
  }

  lemma {:induction false} PlacedLinks(before: seq<Entry>, after: seq<Entry>, want: seq<Entry>, list: seq<nat>, other: seq<nat>)
    requires |before| == |want| && Placed(before, after, list, 0, |list|) && LinkedLike(before, want, other)
    requires forall j :: 0 <= j < |list| ==> list[j] < |want| && LinksOf(want[list[j]], list, Links(0, |list|, j))
    ensures LinkedLike(after, want, other) && LinkedLike(after, want, list)
  {
    hide Links;
    forall j | 0 <= j < |list| ensures after[list[j]].left == want[list[j]].left && after[list[j]].right == want[list[j]].right {
      assert PlacedAt(before, after, list, j, Links(0, |list|, j));
    }
    forall j | 0 <= j < |other| ensures after[other[j]].left == want[other[j]].left && after[other[j]].right == want[other[j]].right {
      if Among(list, 0, |list|, other[j]) {
        var i :| 0 <= i < |list| && list[i] == other[j];
      } else {
        assert after[other[j]] == before[other[j]];
      }
    }
  }

  lemma {:induction false} PlacedRest(before: seq<Entry>, after: seq<Entry>, list: seq<nat>, i: nat)
    requires Placed(before, after, list, 0, |list|) && i < |before|
    ensures after[i].(left := before[i].left, right := before[i].right) == before[i]
    ensures i !in list ==> after[i] == before[i]
  {
    hide Links;
    if Among(list, 0, |list|, i) {
      var j :| 0 <= j < |list| && list[j] == i;
      assert PlacedAt(before, after, list, j, Links(0, |list|, j));
    }
  }

  /** The entries with one tree more: all fields but the links and children are kept. */
  lemma {:induction false} FieldsNext(before: seq<Entry>, middle: seq<Entry>, after: seq<Entry>, want: seq<Entry>, items: seq<Item>, k: nat)
    requires k < |items| && LinkedTo(before, want, items, k) && 0 !in items[k].children
    requires Placed(before, middle, items[k].children, 0, |items[k].children|)
    requires |middle| == |before| && after == middle[k := middle[k].(child := want[k].child)]
    ensures forall i :: 0 <= i < |after| ==> after[i].(left := want[i].left, right := want[i].right, child := want[i].child) == want[i]
    ensures forall i :: 0 <= i < |after| ==> after[i].child == if i < k + 1 then want[i].child else NO_STREAM
    ensures |after| > 0 ==> after[0].left == after[0].right == NO_STREAM
  {
    hide Placed, LinkedLike;
    var list := items[k].children;
    forall i | 0 <= i < |before| ensures middle[i].(left := before[i].left, right := before[i].right) == before[i] && (i !in list ==> middle[i] == before[i]) {
      PlacedRest(before, middle, list, i);
    }
  }

  lemma {:induction false} LinkedNext(before: seq<Entry>, middle: seq<Entry>, after: seq<Entry>, want: seq<Entry>, items: seq<Item>, k: nat)
    requires k < |items| && LinkedTo(before, want, items, k) && Agrees(items[k], want, k) && 0 !in items[k].children
    requires Placed(before, middle, items[k].children, 0, |items[k].children|)
    requires |middle| == |before| && after == middle[k := middle[k].(child := want[k].child)]
    ensures LinkedTo(after, want, items, k + 1)
  {
    hide Links, Placed;
    FieldsNext(before, middle, after, want, items, k);
    forall i | 0 <= i < k + 1 ensures LinkedLike(after, want, items[i].children) {
      PlacedLinks(before, middle, want, items[k].children, if i < k then items[i].children else []);
    }
  }

  lemma {:induction false} ItemAgrees(items: seq<Item>, root: Tree, k: nat)
    requires Flattened(items, root) && k < |items| <= NO_STREAM
    ensures Agrees(items[k], EntriesOf(root), k)
  {
    hide Agrees, ItemOf, Flatten;
    RootSpread(root);
    if k == 0 { StorageAgrees(items[0], EntriesOf(root), 0, root, 1); } else { AllAgree(items, EntriesOf(root), root.kids, 1, k); }
  }

  lemma {:induction false} NothingLinked(es: seq<Entry>, want: seq<Entry>, items: seq<Item>, k: nat)
    requires k < |items| && LinkedTo(es, want, items, k) && Agrees(items[k], want, k) && !items[k].isStorage
    ensures LinkedTo(es, want, items, k + 1)
  {
  }

  lemma {:induction false} AllLinked(es: seq<Entry>, items: seq<Item>, root: Tree)
    requires Flattened(items, root) && LinkedTo(es, EntriesOf(root), items, |items|)
    ensures es == EntriesOf(root)
  {
    hide Flatten, ItemsOf;
    var want := EntriesOf(root);
    forall i | 0 <= i < |es| ensures es[i] == want[i] {
      if i > 0 {
        var o, j := HasParent(items, root.kids, 1, 0, i);
        assert LinkedLike(es, want, items[o].children);
      }
    }
  }

  lemma {:induction false} AgreesList(x: Item, want: seq<Entry>, k: nat)
    requires Agrees(x, want, k)
    ensures k < |want| && NoRepeats(x.children) && |x.children| <= NO_STREAM && 0 !in x.children
    ensures forall j :: 0 <= j < |x.children| ==> x.children[j] < |want|
    ensures want[k].child == PositionOf(x.children, Middle(0, |x.children|))
  {
  }

  lemma {:induction false} LinkStart(es: seq<Entry>, items: seq<Item>, root: Tree)
    requires Flattened(items, root) && |items| <= NO_STREAM && |es| == |items|
    requires forall i :: 0 <= i < |es| ==> es[i] == Entry(items[i].meta, items[i].isStorage, Join(items[i].pieces), NO_STREAM, NO_STREAM, NO_STREAM)
    ensures root.Dir? && |EntriesOf(root)| == |items| && LinkedTo(es, EntriesOf(root), items, 0)
  {
    hide Flatten, Links;
    forall i | 0 <= i < |items| ensures Agrees(items[i], EntriesOf(root), i) { ItemAgrees(items, root, i); }
  }

  /** Builds the tree of every storage in place; the result is the directory to write. */
  method LinkEntries(items: seq<Item>, ghost root: Tree) returns (es: array<Entry>)
    requires Flattened(items, root) && |items| <= NO_STREAM
    ensures fresh(es) && es[..] == EntriesOf(root)
  {
    hide LinkedTo, Agrees, Placed, Flattened, Middle;
    es := new Entry[|items|](i requires 0 <= i < |items| =>
      Entry(items[i].meta, items[i].isStorage, Join(items[i].pieces), NO_STREAM, NO_STREAM, NO_STREAM));
    LinkStart(es[..], items, root);
    hide EntriesOf;
    ghost var want := EntriesOf(root);
    for k := 0 to |items|
      invariant LinkedTo(es[..], want, items, k)
    {
      ItemAgrees(items, root, k);
      AgreesList(items[k], want, k);
      ghost var before := es[..];
      if items[k].isStorage {
        var child := BuildTree(es, items[k].children, 0, |items[k].children|);
        ghost var middle := es[..];
        es[k] := es[k].(child := child);
        LinkedNext(before, middle, es[..], want, items, k);
      } else {
        NothingLinked(before, want, items, k);
      }
    }
    AllLinked(es[..], items, root);
  }

  // ── Flattening a package ───────────────────────────────────

  lemma {:induction false} CopiesCounted(xs: seq<Node>, x: Node)
    ensures multiset(Copies(xs))[Copied(x)] == multiset(xs)[x]
    decreases |xs|
  {
    if xs != [] {
      var n := |xs| - 1;
      CopiesCounted(xs[..n], x);
      CopiesNext(xs[..n], xs[n]);
      assert xs == xs[..n] + [xs[n]];
    }
  }

  lemma {:induction false} SequenceNodes(ss: seq<Source>, xs: seq<Node>, signature: Option<Buffer>)
    requires Sequence(ss, OtherNodes(xs), signature)
    ensures multiset(Calls(ss)) == Bag(OtherNodes(xs)) && FromAmong(ss, xs)
  {
    hide Calls, Copies;
    var others := OtherNodes(xs);
    forall x ensures multiset(ss)[Copied(x)] == multiset(others)[x] { CopiesCounted(others, x); }
    CallsAre(ss, others);
    forall i | 0 <= i < |ss| && ss[i].Copied? ensures ss[i].node in xs {
      assert ss[i] in multiset(ss);
      assert multiset(others)[ss[i].node] > 0;
      OtherNodesAre(xs, ss[i].node);
    }
  }

  /** What the sequence of the root stands for. */
  lemma {:induction false} SequenceMeans(pkg: Package, ss: seq<Source>, signature: Option<Buffer>)
    requires Loaded(pkg) && Sequence(ss, OtherNodes(pkg.root.children), Given(signature))
    ensures Flattens(pkg, signature) <==> UniqueNames(TreesFrom(pkg, ss)) && ResolveAll(pkg, Fresh(pkg), Calls(ss)).Some?
    ensures Flattens(pkg, signature) ==> TreesWritten(pkg, ss) == Intended(pkg, signature).kids
    ensures FromAmong(ss, pkg.root.children)
  {
    hide TreesFrom, Calls, UniqueNames, RootKids, CanonAll, WriterCalls, Sequence, AllResolve;
    var trees, kids := TreesFrom(pkg, ss), RootKids(TreeOf(pkg).kids, Given(signature));
    SequenceTrees(pkg, ss, Given(signature));
    SequenceNodes(ss, pkg.root.children, Given(signature));
    ReadableInAnyOrder(pkg, OtherNodes(pkg.root.children), Calls(ss));
    WriterReadsExactly(pkg);
    if UniqueNames(trees) { UniqueOfPermutation(trees, kids); }
    if UniqueNames(kids) {
      UniqueOfPermutation(kids, trees);
      CanonOfPermutation(kids, trees);
    }
  }

  /** From a fresh model: the entries of the new package, or a rejection exactly when it cannot be flattened. */
  method FlattenPackage(model: PackageModel, signature: Option<Buffer>) returns (items: Option<seq<Item>>)
    requires model.Valid() && Loaded(model.pkg) && model.State() == Fresh(model.pkg)
    modifies model, model.sectors
    ensures items.Some? <==> Flattens(model.pkg, signature)
    ensures items.Some? ==> Flattened(items.value, Intended(model.pkg, signature))
  {
    hide Loaded, Flattens, UniqueNames, TreesFrom, ResolveAll, Calls, FromAmong, Sequence, Flattened, Intended, Expanded, PackageModel.Valid, PackageModel.State, Fresh;
    var root := model.pkg.root;
    var ss := RootSequence(root.children, Given(signature));
    SequenceMeans(model.pkg, ss, signature);
    var flattener := new Flattener(model, root.meta);
    ghost var before := flattener.entries;
    var ok := flattener.Expand(0, ss, root.children);
    if !ok { return None; }
    RootFlattened(model.pkg, before, flattener.entries, ss, signature);
    items := Some(flattener.entries);
  }

  lemma {:induction false} RootFlattened(pkg: Package, before: seq<Item>, items: seq<Item>, ss: seq<Source>, signature: Option<Buffer>)
    requires Loaded(pkg) && before == [Item(pkg.root.meta, true, [], [])] && Expanded(before, items, 0, TreesWritten(pkg, ss))
    requires TreesWritten(pkg, ss) == Intended(pkg, signature).kids
    ensures Flattened(items, Intended(pkg, signature))
  {
    hide ItemsOf;
  }

  // ── The comparison ─────────────────────────────────────────

  /** A node whose search trees can be searched. */
  ghost predicate Searchable(x: Node) {
    x.isStorage ==> LinksInside(x.children, x.treeRoot) && |x.children| <= NO_STREAM
                    && forall i :: 0 <= i < |x.children| ==> Searchable(x.children[i])
  }

  ghost function GotCalls(x: Node): seq<Node> {
    if x.isStorage then DepthFirst(x.children) else [x]
  }

  lemma {:induction false} DepthFirstSnoc(xs: seq<Node>, x: Node)
    ensures DepthFirst(xs + [x]) == DepthFirst(xs) + GotCalls(x)
  {
    if xs == [] {
      assert [] + [x] == [x] && [x][1..] == [];
    } else {
      DepthFirstSnoc(xs[1..], x);
      assert (xs + [x])[1..] == xs[1..] + [x] && (xs + [x])[0] == xs[0];
      hide GotCalls;
    }
  }

  lemma {:induction false} GotStep(pkg: Package, st: Owners, xs: seq<Node>, i: nat)
    requires pkg.Valid() && i < |xs|
    ensures ResolveAll(pkg, st, DepthFirst(xs[..i + 1])) == (var m :- ResolveAll(pkg, st, DepthFirst(xs[..i])); ResolveAll(pkg, m, GotCalls(xs[i])))
  {
    hide ResolveAll, DepthFirst, GotCalls;
    assert xs[..i + 1] == xs[..i] + [xs[i]];
    DepthFirstSnoc(xs[..i], xs[i]);
    ResolveAllAppend(pkg, st, DepthFirst(xs[..i]), GotCalls(xs[i]));
  }

  /** The first i children are found at their places and compare equal. */
  ghost predicate ComparedTo(pkg: Package, want: seq<Tree>, got: Node, i: nat)
    requires pkg.Valid() && i <= |want| == |got.children|
  {
    && (forall j :: 0 <= j < i ==> Search(got.children, got.treeRoot, want[j].meta.name, |got.children| + 1) == j)
    && (forall j :: 0 <= j < i ==> Compares(pkg, want[j], got.children[j]))
  }

  lemma {:induction false} ComparedStep(pkg: Package, want: seq<Tree>, got: Node, i: nat)
    requires pkg.Valid() && i < |want| == |got.children|
    ensures ComparedTo(pkg, want, got, i + 1) <==>
      (&& ComparedTo(pkg, want, got, i) && Compares(pkg, want[i], got.children[i])
       && Search(got.children, got.treeRoot, want[i].meta.name, |got.children| + 1) == i)
  {
    hide Search, Compares;
  }

  ghost predicate PrefixGood(pkg: Package, st: Owners, want: seq<Tree>, got: Node, i: nat)
    requires pkg.Valid() && i <= |want| == |got.children|
  {
    ComparedTo(pkg, want, got, i) && ResolveAll(pkg, st, DepthFirst(got.children[..i])).Some?
  }

  lemma {:induction false} PrefixFails(pkg: Package, st: Owners, want: seq<Tree>, got: Node, i: nat, n: nat)
    requires pkg.Valid() && i <= n <= |want| == |got.children| && !PrefixGood(pkg, st, want, got, i)
    ensures !PrefixGood(pkg, st, want, got, n)
    decreases n
  {
    hide ResolveAll, DepthFirst, GotCalls, Compares, Search;
    if i < n {
      PrefixFails(pkg, st, want, got, i, n - 1);
      GotStep(pkg, st, got.children, n - 1);
    }
  }

  /** All children compared is the storage compared. */
  lemma {:induction false} PrefixWhole(pkg: Package, st: Owners, want: Tree, got: Node)
    requires pkg.Valid() && want.Dir? && got.isStorage && want.meta == got.meta && |want.kids| == |got.children|
    ensures PrefixGood(pkg, st, want.kids, got, |want.kids|) <==> Compares(pkg, want, got) && ResolveAll(pkg, st, GotCalls(got)).Some?
    ensures got.children[..|want.kids|] == got.children
  {
    hide ResolveAll, DepthFirst, Search;
    assert got.children[..|want.kids|] == got.children;
  }

  method CompareEntry(items: seq<Item>, position: nat, check: PackageModel, got: Node, ghost want: Tree, ghost first: nat) returns (ok: bool)
    requires check.Valid() && position < |items| && ItemOf(items[position], want, first) && Searchable(got)
    requires want.Dir? ==> ItemsOf(items, want.kids, first)
    modifies check, check.sectors
    ensures check.Valid()
    ensures var r := ResolveAll(check.pkg, old(check.State()), GotCalls(got));
      (ok <==> Compares(check.pkg, want, got) && r.Some?) && (ok ==> r == Some(check.State()))
    decreases want, 1
  {
    var e := items[position];
    if e.meta != got.meta || e.isStorage != got.isStorage { return false; }
    if e.isStorage {
      if |e.children| != |got.children| { return false; }
      ok := CompareChildren(items, e.children, check, got, want, first);
    } else {
      ok := CompareStream(e, check, got, want);
    }
  }

  /** A stream: its size, and its bytes piece by piece. */
  method CompareStream(e: Item, check: PackageModel, got: Node, ghost want: Tree) returns (ok: bool)
    requires check.Valid() && want.Stream? && Join(e.pieces) == want.data && want.meta == got.meta && !got.isStorage
    modifies check, check.sectors
    ensures check.Valid()
    ensures var r := ResolveAll(check.pkg, old(check.State()), [got]);
      (ok <==> Compares(check.pkg, want, got) && r.Some?) && (ok ==> r == Some(check.State()))
  {
    hide ResolveAll;
    if |Join(e.pieces)| != got.size { return false; }
    ResolvedAlone(check.pkg, check.State(), got);
    OneCall(check.pkg, check.State(), got);
    var extents := check.Resolve(got);
    if extents.None? { return false; }
    ok := SameBytes(e.pieces, Pieces(check.pkg.source, extents.value));
  }

  method CompareChildren(items: seq<Item>, children: seq<nat>, check: PackageModel, got: Node, ghost want: Tree, ghost first: nat) returns (ok: bool)
    requires check.Valid() && want.Dir? && got.isStorage && want.meta == got.meta && |want.kids| == |got.children| && Searchable(got)
    requires ItemsOf(items, want.kids, first) && children == Range(first, |want.kids|)
    modifies check, check.sectors
    ensures check.Valid()
    ensures var r := ResolveAll(check.pkg, old(check.State()), GotCalls(got));
      (ok <==> Compares(check.pkg, want, got) && r.Some?) && (ok ==> r == Some(check.State()))
    decreases want, 0, 1
  {
    hide ResolveAll, DepthFirst, Compares, ItemsOf, ComparedTo, GotCalls, ComparedSoFar, PackageModel.Valid, PackageModel.State;
    ghost var pkg, st := check.pkg, check.State();
    ComparedStart(check, want, got);
    for i := 0 to |children|
      invariant ComparedSoFar(check, st, want, got, i)
    {
      ok := CompareNext(items, children, i, check, got, want, first, st);
      if !ok { return; }
    }
    ComparedEnd(check, st, want, got);
    ok := true;
  }

  /** The first i children are compared, their streams resolved from the state `st`. */
  ghost predicate ComparedSoFar(check: PackageModel, st: Owners, want: Tree, got: Node, i: nat)
    reads check, check.sectors
  {
    && check.Valid() && want.Dir? && i <= |want.kids| == |got.children| && ComparedTo(check.pkg, want.kids, got, i)
    && ResolveAll(check.pkg, st, DepthFirst(got.children[..i])) == Some(check.State())
  }

  lemma {:induction false} ComparedStart(check: PackageModel, want: Tree, got: Node)
    requires check.Valid() && want.Dir? && |want.kids| == |got.children|
    ensures ComparedSoFar(check, check.State(), want, got, 0)
  {
    PrefixNone(check.pkg, check.State(), want.kids, got);
  }

  lemma {:induction false} ComparedEnd(check: PackageModel, st: Owners, want: Tree, got: Node)
    requires want.Dir? && got.isStorage && want.meta == got.meta && ComparedSoFar(check, st, want, got, |want.kids|)
    ensures check.Valid() && Compares(check.pkg, want, got) && ResolveAll(check.pkg, st, GotCalls(got)) == Some(check.State())
  {
    hide ResolveAll, Compares, DepthFirst, ComparedTo;
    PrefixWhole(check.pkg, st, want, got);
  }

  /** One child: found by its name at its place, and compared. */
  method CompareNext(items: seq<Item>, children: seq<nat>, i: nat, check: PackageModel, got: Node, ghost want: Tree, ghost first: nat, ghost st: Owners)
    returns (ok: bool)
    requires i < |children| && ComparedSoFar(check, st, want, got, i) && got.isStorage && want.meta == got.meta && Searchable(got)
    requires ItemsOf(items, want.kids, first) && children == Range(first, |want.kids|)
    modifies check, check.sectors
    ensures check.Valid()
    ensures if ok then ComparedSoFar(check, st, want, got, i + 1)
            else !(Compares(check.pkg, want, got) && ResolveAll(check.pkg, st, GotCalls(got)).Some?)
    decreases want, 0, 0
  {
    hide ResolveAll, DepthFirst, Compares, Search, ItemsOf, ComparedTo, GotCalls;
    GotStep(check.pkg, st, got.children, i);
    ComparedStep(check.pkg, want.kids, got, i);
    ItemsKid(items, want.kids, first, i);
    PrefixWhole(check.pkg, st, want, got);
    var found := FindBySearch(got.children, got.treeRoot, items[children[i]].meta.name);
    ok := false;
    if found == i { ok := CompareEntry(items, children[i], check, got.children[i], want.kids[i], FirstOf(want.kids, first, i)); }
    if !ok { PrefixFails(check.pkg, st, want.kids, got, i + 1, |want.kids|); }
  }

  lemma {:induction false} PrefixNone(pkg: Package, st: Owners, want: seq<Tree>, got: Node)
    requires pkg.Valid() && |want| == |got.children|
    ensures ComparedTo(pkg, want, got, 0) && ResolveAll(pkg, st, DepthFirst(got.children[..0])) == Some(st)
  {
  }

  lemma {:induction false} ItemsKid(items: seq<Item>, kids: seq<Tree>, base: nat, i: nat)
    requires ItemsOf(items, kids, base) && i < |kids|
    ensures base + i < |items| && ItemOf(items[base + i], kids[i], FirstOf(kids, base, i)) && items[base + i].meta == kids[i].meta
    ensures kids[i].Dir? ==> ItemsOf(items, kids[i].kids, FirstOf(kids, base, i))
  {
  }

  lemma {:induction false} LinksInsideOf(n: nat, nodes: seq<Node>)
    requires |nodes| == n && forall i :: 0 <= i < n ==> (nodes[i].left, nodes[i].right) == Links(0, n, i)
    ensures LinksInside(nodes, Middle(0, n))
  {
    hide Links;
    forall i | 0 <= i < n
      ensures nodes[i].left < n || nodes[i].left == NO_STREAM
      ensures nodes[i].right < n || nodes[i].right == NO_STREAM
    {
      LinksRange(0, n, i);
    }
  }

  /** The nodes of a written file, read back, can be searched. */
  lemma {:induction false} LocatedSearchable(es: seq<Entry>, p: Plan, nodes: seq<Node>, kids: seq<Tree>, base: nat)
    requires Located(es, p, nodes, kids, base) && SizeAll(kids) <= NO_STREAM
    ensures LinksInside(nodes, Middle(0, |kids|)) && |nodes| <= NO_STREAM && forall i :: 0 <= i < |nodes| ==> Searchable(nodes[i])
    decreases kids
  {
    hide Links, LinksInside;
    forall i | 0 <= i < |kids| ensures (nodes[i].left, nodes[i].right) == Links(0, |kids|, i) && Searchable(nodes[i]) {
      LocatedKid(es, p, nodes, kids, base, |kids|, i);
      if kids[i].Dir? {
        InnerSize(kids, 0, i);
        LocatedSearchable(es, p, nodes[i].children, kids[i].kids, FirstOf(kids, base, i));
      }
    }
    LinksInsideOf(|kids|, nodes);
  }

  lemma {:induction false} RestoredSearchable(pkg: Package, img: Buffer, root: Tree, seed: Seed, p: Plan)
    requires Restored(pkg, img, root, seed, p) && SizeAll(root.kids) <= NO_STREAM
    ensures Searchable(pkg.root) && GotCalls(pkg.root) == DepthFirst(pkg.root.children)
  {
    LocatedSearchable(EntriesOf(root), p, pkg.root.children, root.kids, 1);
  }

  /** Parses the written bytes again and compares everything. */
  method CheckWritten(img: Buffer, items: seq<Item>, ghost root: Tree, ghost seed: Seed, ghost p: Plan) returns (ok: bool)
    requires Flattened(items, root) && Planned(EntriesOf(root), p) && SeedFits(seed) && seed.major == p.major
    requires 1 + Nesting(root.kids, |root.kids|) <= MAX_STORAGE_DEPTH && SizeAll(root.kids) <= NO_STREAM
    requires img == Image(EntriesOf(root), seed, p)
    ensures ok <==> SelfCheck(img, root)
  {
    hide Image, Planned, Parse, Compares, ResolveAll, Searchable, DepthFirst, Fresh, Restored, PackageModel.Valid, PackageModel.State;
    ReadBack(root, seed, p);
    var parsed := ParseFile(img);
    if parsed.None? { return false; }
    ParsedIsValid(img);
    RestoredSearchable(parsed.value, img, root, seed, p);
    var check := new PackageModel(parsed.value);
    ok := CompareEntry(items, 0, check, parsed.value.root, root, 1);
  }

  lemma {:induction false} EntriesNumbered(pkg: Package, signature: Option<Buffer>, items: seq<Item>)
    requires Loaded(pkg) && Expressible(pkg, signature) && Flattened(items, Intended(pkg, signature))
    ensures |items| == 1 + SizeAll(Intended(pkg, signature).kids) <= NO_STREAM && |pkg.source| >= 512
  {
    SlotsCover(PlanFor(pkg, signature));
  }

  /** The writer from end to end: it delivers what WriteCfb says, the rejections included. The sums of the layout stay
      below 2^64. */
  method WritePackage(model: PackageModel, signature: Option<Buffer>) returns (out: Option<Buffer>)
    requires model.Valid() && Loaded(model.pkg) && model.State() == Fresh(model.pkg) && Expressible(model.pkg, signature)
    requires PlanFor(model.pkg, signature).DifatStart() < LIMIT64
    modifies model, model.sectors
    ensures out == WriteCfb(model.pkg, signature)
  {
    hide Loaded, Flattens, Intended, Expressible, SelfCheck, Image, Planned, PlanOf, Flattened, Fresh, PackageModel.Valid, PackageModel.State;
    var flat := FlattenPackage(model, signature);
    if flat.None? { return None; }
    var items := flat.value;
    ghost var root := Intended(model.pkg, signature);
    EntriesNumbered(model.pkg, signature, items);
    var es := LinkEntries(items, root);
    var ok, p := ComputeLayout(es[..], model.pkg.header.major);
    if !ok { return None; }
    IntendedPlanned(model.pkg, signature);
    var seed := SeedOf(model.pkg.source, model.pkg.header);
    var img := Serialise(es[..], seed, p);
    ok := CheckWritten(img[..], items, root, seed, p);
    out := if ok then Some(img[..]) else None;
  }
}
