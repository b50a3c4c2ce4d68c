/** What a package may hold so that every field of its written form can express it, and that a
    parsed package holds nothing else. */
module CfbFits {
  import opened Bytes
  import opened CfbModel
  import opened CfbTree
  import opened CfbSearch
  import opened CfbDirectory
  import opened CfbResolve
  import opened CfbRuns
  import CfbLayout
  import CfbChains
  import opened CfbReader
  import opened CfbEncoding
  import opened CfbImage
  import opened CfbCanon
  import opened CfbUnpack

  predicate SizeFits(size: nat, major: nat) {
    size < LIMIT64 && (major == 3 ==> size < LIMIT32)
  }

  /** Names and fields fit their entry, storages nest at most `depth` deep. */
  ghost predicate TreeFits(t: Tree, major: nat, depth: nat)
    decreases t, 0
  {
    && MetaFits(t.meta)
    && (t.Stream? ==> SizeFits(|t.data|, major))
    && (t.Dir? ==> depth > 0 && TreesFit(t.kids, major, depth - 1))
  }

  ghost predicate TreesFit(kids: seq<Tree>, major: nat, depth: nat)
    decreases kids, 1
  {
    forall i :: 0 <= i < |kids| ==> TreeFits(kids[i], major, depth)
  }

  lemma {:induction false} NestingFits(kids: seq<Tree>, n: nat, major: nat, depth: nat)
    requires n <= |kids| && TreesFit(kids, major, depth)
    ensures Nesting(kids, n) <= depth
    decreases kids, n
  {
    if n > 0 {
      NestingFits(kids, n - 1, major, depth);
      assert TreeFits(kids[n - 1], major, depth);
      if kids[n - 1].Dir? { NestingFits(kids[n - 1].kids, |kids[n - 1].kids|, major, depth - 1); }
    }
  }

  // ── Rebuilding keeps it ────────────────────────────────────

  lemma {:induction false} CanonFits(t: Tree, major: nat, depth: nat)
    requires TreeFits(t, major, depth)
    ensures TreeFits(Canon(t), major, depth)
    decreases t, 0
  {
    if t.Dir? { CanonAllFits(t.kids, major, depth - 1); }
  }

  lemma {:induction false} CanonAllFits(kids: seq<Tree>, major: nat, depth: nat)
    requires TreesFit(kids, major, depth)
    ensures TreesFit(CanonAll(kids), major, depth)
    decreases kids, 1
  {
    var c := CanonAll(kids);
    forall i | 0 <= i < |c| ensures TreeFits(c[i], major, depth) {
      SortedMember(kids, c[i]);
      var j :| 0 <= j < |kids| && c[i] == Canon(kids[j]);
      CanonFits(kids[j], major, depth);
    }
  }

  lemma {:induction false} RootKidsFit(kids: seq<Tree>, signature: Option<Buffer>, major: nat, depth: nat)
    requires TreesFit(kids, major, depth) && (signature.Some? ==> SizeFits(|signature.value|, major))
    ensures TreesFit(RootKids(kids, signature), major, depth)
  {
    var r := RootKids(kids, signature);
    RootKidsBag(kids, signature);
    forall i | 0 <= i < |r| ensures TreeFits(r[i], major, depth) {
      assert r[i] in multiset(r);
      if r[i] in multiset(Others(kids)) {
        assert r[i] in Others(kids);
        OthersMember(kids, r[i]);
      }
    }
  }

  // ── Its entries ────────────────────────────────────────────

  ghost predicate AllDescribable(es: seq<Entry>, major: nat) {
    forall i :: 0 <= i < |es| ==> EntryDescribable(es[i], major)
  }

  lemma {:induction false} JoinDescribable(parts: seq<seq<Entry>>, major: nat)
    requires forall i :: 0 <= i < |parts| ==> AllDescribable(parts[i], major)
    ensures AllDescribable(Join(parts), major)
  {
    if parts != [] { JoinDescribable(parts[..|parts| - 1], major); }
  }

  lemma {:induction false} MiddleInside(n: nat)
    ensures Middle(0, n) < n || (n == 0 && Middle(0, n) == NO_STREAM)
  {
  }

  lemma {:induction false} EntryFitsHere(kids: seq<Tree>, base: nat, i: nat, major: nat, depth: nat)
    requires TreesFit(kids, major, depth) && i < |kids| && base + SizeAll(kids) <= NO_STREAM
    ensures EntryDescribable(EntryAt(kids, base, i), major)
  {
    assert TreeFits(kids[i], major, depth);
    LinksRange(0, |kids|, i);
    if kids[i].Dir? {
      InnerSize(kids, base, i);
      MiddleInside(|kids[i].kids|);
    }
  }

  lemma {:induction false} InnerSize(kids: seq<Tree>, base: nat, i: nat)
    requires i < |kids| && kids[i].Dir?
    ensures FirstOf(kids, base, i) + SizeAll(kids[i].kids) <= base + SizeAll(kids)
  {
    CfbDirectory.SumMonotone(kids, i + 1, |kids|);
  }

  lemma {:induction false} AppendDescribable(a: seq<Entry>, b: seq<Entry>, major: nat)
    requires AllDescribable(a, major) && AllDescribable(b, major)
    ensures AllDescribable(a + b, major)
  {
  }

  lemma {:induction false} BlockDescribable(kids: seq<Tree>, base: nat, major: nat, depth: nat)
    requires TreesFit(kids, major, depth) && base + SizeAll(kids) <= NO_STREAM
    ensures AllDescribable(Block(kids, base), major)
  {
    forall i | 0 <= i < |kids| ensures EntryDescribable(Block(kids, base)[i], major) {
      EntryFitsHere(kids, base, i, major, depth);
    }
  }

  /** Every entry of a tree that fits can be described. */
  lemma {:induction false} FlattenDescribable(kids: seq<Tree>, base: nat, major: nat, depth: nat)
    requires TreesFit(kids, major, depth) && base + SizeAll(kids) <= NO_STREAM
    ensures AllDescribable(Flatten(kids, base), major)
    decreases kids
  {
    var parts := Parts(kids, base);
    forall i | 0 <= i < |parts| ensures AllDescribable(parts[i], major) {
      assert TreeFits(kids[i], major, depth);
      if kids[i].Dir? {
        InnerSize(kids, base, i);
        FlattenDescribable(kids[i].kids, FirstOf(kids, base, i), major, depth - 1);
      }
    }
    JoinDescribable(parts, major);
    BlockDescribable(kids, base, major, depth);
    AppendDescribable(Block(kids, base), Join(parts), major);
  }

  // ── A parsed package fits ──────────────────────────────────

  ghost predicate NodeFits(x: Node, major: nat, depth: nat)
    decreases x, 0
  {
    && MetaFits(x.meta) && SizeFits(x.size, major)
    && (x.isStorage ==> depth > 0 && NodesFit(x.children, major, depth - 1))
  }

  ghost predicate NodesFit(xs: seq<Node>, major: nat, depth: nat)
    decreases xs, 1
  {
    forall i :: 0 <= i < |xs| ==> NodeFits(xs[i], major, depth)
  }

  ghost predicate DirFits(dir: seq<DirEntry>, major: nat) {
    forall i :: 0 <= i < |dir| ==> MetaFits(dir[i].meta) && SizeFits(dir[i].size, major)
  }

  lemma {:induction false} DecodedFits(s: Buffer, major: nat)
    requires |s| == CfbLayout.DIR_ENTRY_SIZE
    ensures MetaFits(DecodeEntry(s, major).meta) && (major == 3 || major == 4 ==> SizeFits(DecodeEntry(s, major).size, major))
  {
  }

  lemma {:induction false} DecodedAllFit(blocks: seq<Buffer>, major: nat)
    requires AllEntries(blocks) && (major == 3 || major == 4)
    ensures DirFits(DecodeAll(blocks, major), major)
  {
    if blocks != [] {
      DecodedAllFit(blocks[..|blocks| - 1], major);
      DecodedFits(blocks[|blocks| - 1], major);
    }
  }

  lemma {:induction false} ReadStorageFits(dir: seq<DirEntry>, child: nat, depth: nat, free: set<nat>, major: nat)
    requires DirFits(dir, major) && ReadStorage(dir, child, depth, free).Some?
    ensures depth <= MAX_STORAGE_DEPTH && NodesFit(ReadStorage(dir, child, depth, free).value.nodes, major, MAX_STORAGE_DEPTH - depth)
    decreases MAX_STORAGE_DEPTH + 1 - depth, 1, 0
  {
    if child != NO_STREAM {
      var v := InOrder(dir, child, free).value;
      InOrderInside(dir, child, free);
      var ids := CfbDirectory.Kept(dir, v.order);
      ReadNodesFit(dir, ids, |ids|, depth, v.free, major);
    }
  }

  lemma {:induction false} ReadNodesFit(dir: seq<DirEntry>, ids: seq<nat>, n: nat, depth: nat, free: set<nat>, major: nat)
    requires DirFits(dir, major) && n <= |ids| && depth <= MAX_STORAGE_DEPTH && forall i :: 0 <= i < |ids| ==> ids[i] < |dir|
    requires ReadNodes(dir, ids, n, depth, free).Some?
    ensures NodesFit(ReadNodes(dir, ids, n, depth, free).value.nodes, major, MAX_STORAGE_DEPTH - depth)
    decreases MAX_STORAGE_DEPTH + 1 - depth, 0, n
  {
    if n > 0 {
      ReadNodesFit(dir, ids, n - 1, depth, free, major);
      var before := ReadNodes(dir, ids, n - 1, depth, free).value;
      var e := dir[ids[n - 1]];
      if e.kind == KIND_STORAGE {
        ReadStorageFits(dir, e.child, depth + 1, before.free, major);
      }
      var after := ReadNodes(dir, ids, n, depth, free).value.nodes;
      assert after[..n - 1] == before.nodes;
      assert NodeFits(after[n - 1], major, MAX_STORAGE_DEPTH - depth);
      MoreFit(before.nodes, after, major, MAX_STORAGE_DEPTH - depth);
    }
  }

  lemma {:induction false} MoreFit(before: seq<Node>, after: seq<Node>, major: nat, depth: nat)
    requires NodesFit(before, major, depth) && |after| == |before| + 1 && after[..|before|] == before
    requires NodeFits(after[|before|], major, depth)
    ensures NodesFit(after, major, depth)
  {
    forall i | 0 <= i < |after| ensures NodeFits(after[i], major, depth) {
      if i < |before| { assert after[i] == before[i]; }
    }
  }

  lemma {:induction false} DirectoryFits(p: Package)
    requires p.Valid() && ParseDirectory(p).Some? && (p.header.major == 3 || p.header.major == 4)
    ensures DirFits(ParseDirectory(p).value, p.header.major)
  {
    hide DirFits;
    var chain := CfbChains.Solo(p.Fat(), p.Count(), p.header.firstDir).value;
    JoinEntries(ChainBlocks(p, chain));
    DecodedAllFit(Join(ChainBlocks(p, chain)), p.header.major);
  }

  /** What parsing delivers: a root storage, nothing that does not fit, and at most 31 levels below. */
  ghost predicate Loaded(pkg: Package) {
    && pkg.Valid() && |pkg.source| >= 512 && (pkg.header.major == 3 || pkg.header.major == 4)
    && pkg.header.minor < LIMIT16 && pkg.header.cutoff == MINI_STREAM_CUTOFF
    && pkg.root.isStorage && MetaFits(pkg.root.meta)
    && NodesFit(pkg.root.children, pkg.header.major, MAX_STORAGE_DEPTH - 1)
  }

  lemma {:induction false} RootFits(p: Package, dir: seq<DirEntry>)
    requires DirFits(dir, p.header.major) && BuildRoot(p, dir).Some?
    ensures var r := BuildRoot(p, dir).value;
      && r.header == p.header && r.root.isStorage && MetaFits(r.root.meta)
      && NodesFit(r.root.children, p.header.major, MAX_STORAGE_DEPTH - 1)
  {
    ReadStorageFits(dir, dir[0].child, 1, Positions(1, |dir| - 1), p.header.major);
  }

  lemma {:induction false} ParsedLoaded(s: Buffer)
    requires Parse(s).Some?
    ensures Loaded(Parse(s).value) && Parse(s).value.source == s
  {
    ParsedIsValid(s);
    var h := ParseHeader(s).value;
    var p := Tables(s, h, BuildFat(s, h).value);
    DirectoryFits(p);
    RootFits(p.(miniFat := BuildMiniFat(p).value), ParseDirectory(p).value);
  }

  // ── And so does its tree with contents ─────────────────────

  lemma {:induction false} ContentLength(source: Buffer, extents: seq<Extent>)
    requires Within(extents, |source|)
    ensures |Content(source, extents)| == Total(extents)
  {
    if extents != [] {
      var n := |extents| - 1;
      ContentLength(source, extents[..n]);
      assert Pieces(source, extents)[..n] == Pieces(source, extents[..n]);
    }
  }

  lemma {:induction false} ReadSize(pkg: Package, x: Node)
    requires pkg.Valid() && !x.isStorage
    ensures |ReadOf(pkg, x)| <= x.size
  {
    if Alone(pkg, x).Some? {
      AloneFits(pkg, x);
      ContentLength(pkg.source, Alone(pkg, x).value);
    }
  }

  lemma {:induction false} UnpackFits(pkg: Package, x: Node, major: nat, depth: nat)
    requires pkg.Valid() && NodeFits(x, major, depth)
    ensures TreeFits(Unpack(pkg, x), major, depth)
    decreases x, 0
  {
    if x.isStorage { UnpackAllFit(pkg, x.children, major, depth - 1); } else { ReadSize(pkg, x); }
  }

  lemma {:induction false} UnpackAllFit(pkg: Package, xs: seq<Node>, major: nat, depth: nat)
    requires pkg.Valid() && NodesFit(xs, major, depth)
    ensures TreesFit(UnpackAll(pkg, xs), major, depth)
    decreases xs, 1
  {
    forall i | 0 <= i < |xs| ensures TreeFits(UnpackAll(pkg, xs)[i], major, depth) {
      UnpackFits(pkg, xs[i], major, depth);
    }
  }
}
