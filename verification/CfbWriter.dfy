/** Rebuilding a package with a new signature, or with none: the writer's self-check never fails,
    and what it writes is canonical. */
module CfbWriter {
  import opened Bytes
  import opened CfbModel
  import opened CfbSearch
  import opened CfbDirectory
  import opened CfbResolve
  import opened CfbRuns
  import opened CfbReader
  import opened CfbEncoding
  import opened CfbImage
  import opened CfbFile
  import opened CfbTables
  import opened CfbRoundTrip
  import opened CfbStreams
  import opened CfbUnpack
  import opened CfbCanon
  import opened CfbFits
  import opened CfbFingerprint
  import opened Ordering

  // ── What is written ────────────────────────────────────────

  /** An empty signature means none. */
  function Given(signature: Option<Buffer>): Option<Buffer> {
    if signature == Some([]) then None else signature
  }

  ghost function TreeOf(pkg: Package): (t: Tree)
    requires Loaded(pkg)
    ensures t.Dir?
  {
    Unpack(pkg, pkg.root)
  }

  /** The tree to write. */
  ghost function Intended(pkg: Package, signature: Option<Buffer>): (t: Tree)
    requires Loaded(pkg)
    ensures t.Dir?
  {
    Wanted(TreeOf(pkg), Given(signature))
  }

  /** The root's nodes that are copied. */
  function OtherNodes(xs: seq<Node>): seq<Node> {
    if xs == [] then []
    else (if xs[0].meta.name == SIGNATURE_NAME || xs[0].meta.name == SIGNATURE_EX_NAME then [] else [xs[0]]) + OtherNodes(xs[1..])
  }

  /** The streams the writer resolves, in its order. */
  ghost function WriterCalls(pkg: Package): seq<Node> {
    StreamNodes(Arrange(OtherNodes(pkg.root.children), ChildKey))
  }

  /** No storage holds a name twice, and every stream can be read. */
  ghost predicate Flattens(pkg: Package, signature: Option<Buffer>)
    requires Loaded(pkg)
  {
    UniqueNames(RootKids(TreeOf(pkg).kids, Given(signature))) && AllResolve(pkg, Fresh(pkg), WriterCalls(pkg))
  }

  ghost function PlanFor(pkg: Package, signature: Option<Buffer>): Plan
    requires Loaded(pkg)
  {
    PlanOf(EntriesOf(Intended(pkg, signature)), pkg.header.major)
  }

  /** The numbers the format stores in 32 bits stay below its marks, and in version 3 so do the sizes
      of the mini stream and of the signature. */
  predicate Numbered(p: Plan) {
    p.Slots() <= NO_STREAM && p.minis <= END_OF_CHAIN && (p.major == 3 ==> p.minis * MINI_SECTOR_SIZE < LIMIT32)
  }

  ghost predicate Expressible(pkg: Package, signature: Option<Buffer>)
    requires Loaded(pkg)
  {
    && Numbered(PlanFor(pkg, signature))
    && (signature.Some? ==> SizeFits(|signature.value|, pkg.header.major))
  }

  // ── The self-check ─────────────────────────────────────────

  /** One entry compared with what was read back: its record, its bytes, its children, and that a
      search by name reaches each of them. */
  ghost predicate Compares(pkg: Package, want: Tree, got: Node)
    requires pkg.Valid()
    decreases want, 0
  {
    && want.meta == got.meta && want.Dir? == got.isStorage
    && (want.Stream? ==> |want.data| == got.size && ReadOf(pkg, got) == want.data)
    && (want.Dir? ==> ComparesAll(pkg, want.kids, got.children, got.treeRoot))
  }

  ghost predicate ComparesAll(pkg: Package, want: seq<Tree>, got: seq<Node>, root: nat)
    requires pkg.Valid()
    decreases want, 1
  {
    && |want| == |got|
    && (forall i :: 0 <= i < |want| ==> Search(got, root, want[i].meta.name, |got| + 1) == i)
    && (forall i :: 0 <= i < |want| ==> Compares(pkg, want[i], got[i]))
  }

  /** The written bytes are parsed again, every stream is resolved once, and everything is compared. */
  ghost predicate SelfCheck(img: Buffer, want: Tree) {
    && Parse(img).Some?
    && (ParsedIsValid(img); var pkg := Parse(img).value;
        AllResolve(pkg, Fresh(pkg), DepthFirst(pkg.root.children)) && Compares(pkg, want, pkg.root))
  }

  /** The writer: nothing if the package cannot be flattened, is too large, or fails the self-check. */
  ghost function WriteCfb(pkg: Package, signature: Option<Buffer>): Option<Buffer>
    requires Loaded(pkg) && Expressible(pkg, signature)
  {
    var want := Intended(pkg, signature);
    var p := PlanFor(pkg, signature);
    if !Flattens(pkg, signature) || p.Total() > MAX_SECTORS then None
    else
      IntendedPlanned(pkg, signature);
      var img := Image(EntriesOf(want), SeedOf(pkg.source, pkg.header), p);
      if SelfCheck(img, want) then Some(img) else None
  }

  // ── What is intended can be written ────────────────────────

  lemma {:induction false} IntendedFits(pkg: Package, signature: Option<Buffer>)
    requires Loaded(pkg) && Expressible(pkg, signature)
    ensures MetaFits(Intended(pkg, signature).meta)
    ensures TreesFit(Intended(pkg, signature).kids, pkg.header.major, MAX_STORAGE_DEPTH - 1)
  {
    UnpackAllFit(pkg, pkg.root.children, pkg.header.major, MAX_STORAGE_DEPTH - 1);
    RootKidsFit(TreeOf(pkg).kids, Given(signature), pkg.header.major, MAX_STORAGE_DEPTH - 1);
    CanonAllFits(RootKids(TreeOf(pkg).kids, Given(signature)), pkg.header.major, MAX_STORAGE_DEPTH - 1);
  }

  lemma {:induction false} EntriesDescribable(root: Tree, major: nat)
    requires root.Dir? && MetaFits(root.meta) && TreesFit(root.kids, major, MAX_STORAGE_DEPTH - 1)
    requires 1 + SizeAll(root.kids) <= NO_STREAM
    ensures AllDescribable(EntriesOf(root), major)
  {
    FlattenDescribable(root.kids, 1, major, MAX_STORAGE_DEPTH - 1);
    MiddleInside(|root.kids|);
    AppendDescribable([EntriesOf(root)[0]], Flatten(root.kids, 1), major);
  }

  lemma {:induction false} PlanDescribes(es: seq<Entry>, major: nat)
    requires es != [] && (major == 3 || major == 4) && AllDescribable(es, major)
    requires Numbered(PlanOf(es, major)) && PlanOf(es, major).Total() <= MAX_SECTORS
    ensures Planned(es, PlanOf(es, major))
  {
  }

  /** The entries of a tree that fits, within the limits, can be laid out. */
  lemma {:induction false} FitsPlanned(root: Tree, major: nat)
    requires root.Dir? && (major == 3 || major == 4) && MetaFits(root.meta) && TreesFit(root.kids, major, MAX_STORAGE_DEPTH - 1)
    requires var p := PlanOf(EntriesOf(root), major); Numbered(p) && p.Total() <= MAX_SECTORS
    ensures Planned(EntriesOf(root), PlanOf(EntriesOf(root), major))
    ensures 1 + Nesting(root.kids, |root.kids|) <= MAX_STORAGE_DEPTH && SizeAll(root.kids) < NO_STREAM
  {
    SlotsCover(PlanOf(EntriesOf(root), major));
    NestingFits(root.kids, |root.kids|, major, MAX_STORAGE_DEPTH - 1);
    EntriesDescribable(root, major);
    PlanDescribes(EntriesOf(root), major);
  }

  lemma {:induction false} IntendedPlanned(pkg: Package, signature: Option<Buffer>)
    requires Loaded(pkg) && Expressible(pkg, signature) && PlanFor(pkg, signature).Total() <= MAX_SECTORS
    ensures Planned(EntriesOf(Intended(pkg, signature)), PlanFor(pkg, signature))
    ensures SeedFits(SeedOf(pkg.source, pkg.header)) && PlanFor(pkg, signature).major == pkg.header.major
    ensures var kids := Intended(pkg, signature).kids; 1 + Nesting(kids, |kids|) <= MAX_STORAGE_DEPTH && SizeAll(kids) < NO_STREAM
  {
    IntendedFits(pkg, signature);
    FitsPlanned(Intended(pkg, signature), pkg.header.major);
  }

  // ── Reading it back ────────────────────────────────────────

  /** A written file read back: a package whose tables serve it and whose nodes stand in their places. */
  ghost predicate Restored(pkg: Package, img: Buffer, root: Tree, seed: Seed, p: Plan) {
    && root.Dir? && Serves(pkg, EntriesOf(root), p) && pkg.source == img && |img| >= 512 && SeedOf(img, pkg.header) == seed
    && pkg.root.meta == root.meta && pkg.root.isStorage && pkg.root.treeRoot == Middle(0, |root.kids|)
    && Located(EntriesOf(root), p, pkg.root.children, root.kids, 1)
  }

  lemma {:induction false} StartsStored(es: seq<Entry>, p: Plan)
    requires Planned(es, p)
    ensures Starts(StoredDir(es, p), es, p)
  {
    SlotsCover(p);
    forall i | 0 < i < |es| && !es[i].isStorage ensures StoredDir(es, p)[i].start == StreamStart(es, i, p.major) {
      StoredDirIs(es, p, i);
    }
  }

  lemma {:induction false} RootSpread(root: Tree)
    requires root.Dir?
    ensures Spread(EntriesOf(root), root.kids, 1)
  {
  }

  lemma {:induction false} ParsedLocated(pkg: Package, img: Buffer, root: Tree, seed: Seed, p: Plan)
    requires root.Dir? && Planned(EntriesOf(root), p) && Parsed(pkg, img, root, seed, p)
    ensures Located(EntriesOf(root), p, pkg.root.children, root.kids, 1)
  {
    var es := EntriesOf(root);
    StartsStored(es, p);
    RootSpread(root);
    LayingLocated(StoredDir(es, p), es, p, pkg.root.children, root.kids, 1, |root.kids|);
  }

  lemma {:induction false} ParsedServes(pkg: Package, img: Buffer, root: Tree, seed: Seed, p: Plan)
    requires root.Dir? && Written(img, EntriesOf(root), seed, p) && Parsed(pkg, img, root, seed, p)
    ensures Serves(pkg, EntriesOf(root), p)
  {
  }

  lemma {:induction false} ReadBack(root: Tree, seed: Seed, p: Plan)
    requires root.Dir? && Planned(EntriesOf(root), p) && SeedFits(seed) && seed.major == p.major
    requires 1 + Nesting(root.kids, |root.kids|) <= MAX_STORAGE_DEPTH
    ensures var img := Image(EntriesOf(root), seed, p); Parse(img).Some? && Restored(Parse(img).value, img, root, seed, p)
  {
    var es := EntriesOf(root);
    var img := Image(es, seed, p);
    ImageLaid(es, seed, p);
    ParseBack(img, root, seed, p);
    ParsedServes(Parse(img).value, img, root, seed, p);
    ParsedLocated(Parse(img).value, img, root, seed, p);
  }

  // ── The self-check passes ──────────────────────────────────

  lemma {:induction false} SameOrder(es: seq<Entry>, p: Plan, nodes: seq<Node>, kids: seq<Tree>, base: nat)
    requires Located(es, p, nodes, kids, base) && Increasing(kids, TreeKey)
    ensures Increasing(nodes, ChildKey)
  {
    forall i, j | 0 <= i < j < |nodes| ensures Lex(ChildKey(nodes[i]), ChildKey(nodes[j])) < 0 {
      LocatedKid(es, p, nodes, kids, base, |kids|, i);
      LocatedKid(es, p, nodes, kids, base, |kids|, j);
      assert Lex(TreeKey(kids[i]), TreeKey(kids[j])) < 0;
    }
  }

  lemma {:induction false} LocatedBalanced(es: seq<Entry>, p: Plan, nodes: seq<Node>, kids: seq<Tree>, base: nat)
    requires Located(es, p, nodes, kids, base)
    ensures Balanced(nodes, Middle(0, |nodes|), 0, |nodes|)
  {
    forall i | 0 <= i < |nodes| ensures (nodes[i].left, nodes[i].right) == Links(0, |nodes|, i) {
      LocatedKid(es, p, nodes, kids, base, |kids|, i);
    }
    LinksBalanced(nodes, 0, |nodes|);
  }

  lemma {:induction false} EveryChildFound(es: seq<Entry>, p: Plan, nodes: seq<Node>, kids: seq<Tree>, base: nat)
    requires Located(es, p, nodes, kids, base) && Increasing(kids, TreeKey) && |kids| <= NO_STREAM
    ensures forall i :: 0 <= i < |kids| ==> Search(nodes, Middle(0, |kids|), kids[i].meta.name, |nodes| + 1) == i
  {
    SameOrder(es, p, nodes, kids, base);
    LocatedBalanced(es, p, nodes, kids, base);
    forall i | 0 <= i < |kids| ensures Search(nodes, Middle(0, |kids|), kids[i].meta.name, |nodes| + 1) == i {
      LocatedKid(es, p, nodes, kids, base, |kids|, i);
      SearchExact(nodes, Middle(0, |nodes|), kids[i].meta.name);
    }
  }

  lemma {:induction false} StreamCompares(pkg: Package, es: seq<Entry>, p: Plan, x: Node, t: Tree, at: nat)
    requires pkg.Valid() && ReadsAll(pkg, es, p) && t.Stream? && x.meta == t.meta && StreamAt(x, es, p, at) && es[at].data == t.data
    ensures Compares(pkg, t, x)
  {
  }

  lemma {:induction false} KidCompares(pkg: Package, es: seq<Entry>, p: Plan, nodes: seq<Node>, kids: seq<Tree>, base: nat, i: nat)
    requires pkg.Valid() && ReadsAll(pkg, es, p) && Located(es, p, nodes, kids, base) && i < |kids|
    requires Ordered(kids) && SizeAll(kids) <= NO_STREAM
    ensures Compares(pkg, kids[i], nodes[i])
    decreases kids, 0
  {
    LocatedKid(es, p, nodes, kids, base, |kids|, i);
    if kids[i].Dir? {
      InnerSize(kids, 0, i);
      AllCompare(pkg, es, p, nodes[i].children, kids[i].kids, FirstOf(kids, base, i));
    } else {
      StreamCompares(pkg, es, p, nodes[i], kids[i], base + i);
    }
  }

  lemma {:induction false} AllCompare(pkg: Package, es: seq<Entry>, p: Plan, nodes: seq<Node>, kids: seq<Tree>, base: nat)
    requires pkg.Valid() && ReadsAll(pkg, es, p) && Located(es, p, nodes, kids, base)
    requires Ordered(kids) && SizeAll(kids) <= NO_STREAM
    ensures ComparesAll(pkg, kids, nodes, Middle(0, |kids|))
    decreases kids, 1
  {
    EveryChildFound(es, p, nodes, kids, base);
    forall i | 0 <= i < |kids| ensures Compares(pkg, kids[i], nodes[i]) {
      KidCompares(pkg, es, p, nodes, kids, base, i);
    }
  }

  lemma {:induction false} RestoredCompares(pkg: Package, img: Buffer, root: Tree, seed: Seed, p: Plan)
    requires Restored(pkg, img, root, seed, p) && Ordered(root.kids) && SizeAll(root.kids) <= NO_STREAM
    ensures Compares(pkg, root, pkg.root)
  {
    ServesReads(pkg, EntriesOf(root), p);
    AllCompare(pkg, EntriesOf(root), p, pkg.root.children, root.kids, 1);
  }

  lemma {:induction false} RestoredReadable(pkg: Package, img: Buffer, root: Tree, seed: Seed, p: Plan)
    requires Restored(pkg, img, root, seed, p)
    ensures Readable(pkg, pkg.root.children)
  {
    WrittenReadable(pkg, EntriesOf(root), p, pkg.root.children, root.kids, 1);
  }

  lemma {:induction false} RestoredTree(pkg: Package, img: Buffer, root: Tree, seed: Seed, p: Plan)
    requires Restored(pkg, img, root, seed, p)
    ensures Unpack(pkg, pkg.root) == root
  {
    ServesReads(pkg, EntriesOf(root), p);
    UnpackBack(pkg, EntriesOf(root), p, pkg.root.children, root.kids, 1);
  }

  /** What the writer serialises for a tree in order always passes its own check. */
  lemma {:induction false} CheckPasses(root: Tree, seed: Seed, p: Plan)
    requires root.Dir? && Planned(EntriesOf(root), p) && SeedFits(seed) && seed.major == p.major
    requires 1 + Nesting(root.kids, |root.kids|) <= MAX_STORAGE_DEPTH && SizeAll(root.kids) <= NO_STREAM && Ordered(root.kids)
    ensures SelfCheck(Image(EntriesOf(root), seed, p), root)
  {
    var img := Image(EntriesOf(root), seed, p);
    ReadBack(root, seed, p);
    var pkg := Parse(img).value;
    ParsedIsValid(img);
    RestoredCompares(pkg, img, root, seed, p);
    RestoredReadable(pkg, img, root, seed, p);
    DepthFirstBag(pkg.root.children);
    ReadableInAnyOrder(pkg, pkg.root.children, DepthFirst(pkg.root.children));
  }

  /** The self-check is never what fails: rebuilding succeeds exactly when no storage holds a name
      twice, every stream can be read and the result is within the format's sector limit. */
  lemma {:induction false} SelfCheckNeverFails(pkg: Package, signature: Option<Buffer>)
    requires Loaded(pkg) && Expressible(pkg, signature)
    ensures WriteCfb(pkg, signature).Some? <==> Flattens(pkg, signature) && PlanFor(pkg, signature).Total() <= MAX_SECTORS
  {
    if Flattens(pkg, signature) && PlanFor(pkg, signature).Total() <= MAX_SECTORS {
      IntendedPlanned(pkg, signature);
      WantedFixed(TreeOf(pkg), Given(signature));
      CheckPasses(Intended(pkg, signature), SeedOf(pkg.source, pkg.header), PlanFor(pkg, signature));
    }
  }

  // ── Canonical form ─────────────────────────────────────────

  /** A rebuilt package, parsed again, holds exactly the intended tree and the old header's identity. */
  ghost predicate Rebuilt(pkg: Package, signature: Option<Buffer>, out: Buffer)
    requires Loaded(pkg)
  {
    && Parse(out).Some? && Loaded(Parse(out).value) && Parse(out).value.source == out
    && Parse(out).value.header.major == pkg.header.major
    && SeedOf(out, Parse(out).value.header) == SeedOf(pkg.source, pkg.header)
    && TreeOf(Parse(out).value) == Intended(pkg, signature)
    && Readable(Parse(out).value, Parse(out).value.root.children)
  }

  lemma {:induction false} WriteRebuilds(pkg: Package, signature: Option<Buffer>)
    requires Loaded(pkg) && Expressible(pkg, signature) && WriteCfb(pkg, signature).Some?
    ensures Rebuilt(pkg, signature, WriteCfb(pkg, signature).value)
  {
    var root, seed, p := Intended(pkg, signature), SeedOf(pkg.source, pkg.header), PlanFor(pkg, signature);
    IntendedPlanned(pkg, signature);
    var out := Image(EntriesOf(root), seed, p);
    ReadBack(root, seed, p);
    ParsedLoaded(out);
    RestoredTree(Parse(out).value, out, root, seed, p);
    RestoredReadable(Parse(out).value, out, root, seed, p);
  }

  lemma {:induction false} OtherNodesReadable(pkg: Package, xs: seq<Node>)
    requires pkg.Valid() && Readable(pkg, xs)
    ensures Readable(pkg, OtherNodes(xs))
  {
    StreamNodesBag(xs);
    StreamNodesBag(OtherNodes(xs));
    OthersBag(xs);
    FewerCompatible(pkg, StreamNodes(xs), StreamNodes(OtherNodes(xs)));
  }

  lemma {:induction false} OthersBag(xs: seq<Node>)
    ensures Bag(OtherNodes(xs)) <= Bag(xs)
  {
    if xs != [] {
      OthersBag(xs[1..]);
      var rest := OtherNodes(xs[1..]);
      if xs[0].meta.name == SIGNATURE_NAME || xs[0].meta.name == SIGNATURE_EX_NAME {
        assert OtherNodes(xs) == rest;
      } else {
        assert OtherNodes(xs) == [xs[0]] + rest && ([xs[0]] + rest)[1..] == rest;
      }
    }
  }

  /** Fewer streams can be read too. */
  lemma {:induction false} FewerCompatible(pkg: Package, a: seq<Node>, b: seq<Node>)
    requires pkg.Valid() && Compatible(pkg, a) && multiset(b) <= multiset(a)
    ensures Compatible(pkg, b)
  {
    forall i | 0 <= i < |b| ensures Alone(pkg, b[i]).Some? {
      assert b[i] in multiset(b);
      assert b[i] in multiset(a);
    }
    forall i, j | 0 <= i < j < |b| ensures Apart(pkg, b[i], b[j]) {
      var x, y := TwoWithin(b, a, i, j);
      if x < y {
        assert Apart(pkg, a[x], a[y]);
      } else {
        assert Apart(pkg, a[y], a[x]);
        ApartSymmetric(pkg, a[y], a[x]);
      }
    }
  }

  lemma {:induction false} TwoWithin(b: seq<Node>, a: seq<Node>, i: nat, j: nat) returns (x: nat, y: nat)
    requires multiset(b) <= multiset(a) && i < j < |b|
    ensures x < |a| && y < |a| && x != y && a[x] == b[i] && a[y] == b[j]
  {
    assert b == b[..i] + [b[i]] + b[i + 1..j] + [b[j]] + b[j + 1..];
    if b[i] == b[j] {
      x, y := TwoPlaces(a, b[i]);
    } else {
      assert b[i] in multiset(a) && b[j] in multiset(a);
      x :| 0 <= x < |a| && a[x] == b[i];
      y :| 0 <= y < |a| && a[y] == b[j];
    }
  }

  lemma {:induction false} WriterReads(pkg: Package)
    requires pkg.Valid() && Readable(pkg, pkg.root.children)
    ensures AllResolve(pkg, Fresh(pkg), WriterCalls(pkg)) && Readable(pkg, OtherNodes(pkg.root.children))
  {
    OtherNodesReadable(pkg, pkg.root.children);
    WriterReadsExactly(pkg);
  }

  /** What a package that was just written intends to write next with the same signature. */
  lemma {:induction false} IntendsAgain(pkg: Package, signature: Option<Buffer>, out: Buffer)
    requires Loaded(pkg) && Rebuilt(pkg, signature, out) && Flattens(pkg, signature)
    ensures var again := Parse(out).value;
      Intended(again, signature) == Intended(pkg, signature) && Flattens(again, signature)
  {
    hide Parse, Readable, AllResolve, SeedOf;
    WantedFixed(TreeOf(pkg), Given(signature));
    WriterReads(Parse(out).value);
  }

  /** Packages that intend the same write the same. */
  lemma {:induction false} WriteSame(pkg: Package, again: Package, signature: Option<Buffer>)
    requires Loaded(pkg) && Loaded(again) && Expressible(pkg, signature) && Flattens(pkg, signature) && Flattens(again, signature)
    requires again.header.major == pkg.header.major && SeedOf(again.source, again.header) == SeedOf(pkg.source, pkg.header)
    requires Intended(again, signature) == Intended(pkg, signature)
    ensures Expressible(again, signature) && WriteCfb(again, signature) == WriteCfb(pkg, signature)
  {
    hide Loaded, Flattens, Intended, SelfCheck, Image, PlanOf, SeedOf, Numbered;
  }

  /** Parsing what was written and writing it again with the same signature gives the same bytes. */
  lemma {:induction false} WritingIsCanonical(pkg: Package, signature: Option<Buffer>)
    requires Loaded(pkg) && Expressible(pkg, signature) && WriteCfb(pkg, signature).Some?
    ensures var out := WriteCfb(pkg, signature).value;
      && Parse(out).Some? && Loaded(Parse(out).value) && Expressible(Parse(out).value, signature)
      && WriteCfb(Parse(out).value, signature) == Some(out)
  {
    hide Parse, Loaded, Flattens, Intended, Expressible, WriteCfb, SeedOf;
    SelfCheckNeverFails(pkg, signature);
    var out := WriteCfb(pkg, signature).value;
    WriteRebuilds(pkg, signature);
    IntendsAgain(pkg, signature, out);
    WriteSame(pkg, Parse(out).value, signature);
  }

  // ── Fingerprint ────────────────────────────────────────────

  /** The streams the fingerprint resolves, in its order. */
  ghost function HashCalls(pkg: Package): seq<Node> {
    DepthFirst(Arrange(OtherNodes(pkg.root.children), RawChildKey))
  }

  function RawChildKey(x: Node): seq<int> {
    RawKey(x.meta.name)
  }

  /** The bytes fed to the hash; nothing if a storage holds a name twice or a stream cannot be read. */
  ghost function Fingerprint(pkg: Package): Option<Buffer>
    requires Loaded(pkg)
  {
    if OnceNamed(TreeOf(pkg).kids) && AllResolve(pkg, Fresh(pkg), HashCalls(pkg)) then Some(FeedRoot(TreeOf(pkg))) else None
  }

  lemma {:induction false} HashReads(pkg: Package)
    requires Loaded(pkg)
    ensures AllResolve(pkg, Fresh(pkg), HashCalls(pkg)) <==> Readable(pkg, OtherNodes(pkg.root.children))
  {
    var xs := OtherNodes(pkg.root.children);
    DepthFirstBag(Arrange(xs, RawChildKey));
    BagArrange(xs, RawChildKey);
    ReadableInAnyOrder(pkg, xs, HashCalls(pkg));
  }

  lemma {:induction false} WriterReadsExactly(pkg: Package)
    requires pkg.Valid()
    ensures AllResolve(pkg, Fresh(pkg), WriterCalls(pkg)) <==> Readable(pkg, OtherNodes(pkg.root.children))
  {
    var xs := OtherNodes(pkg.root.children);
    StreamNodesBag(Arrange(xs, ChildKey));
    BagArrange(xs, ChildKey);
    ReadableInAnyOrder(pkg, xs, WriterCalls(pkg));
  }

  /** Signing, re-signing or stripping a package whose fingerprint is defined keeps the bytes fed to
      the hash, although entries are reordered and every stream moves. */
  lemma {:induction false} FingerprintKept(pkg: Package, signature: Option<Buffer>)
    requires Loaded(pkg) && Expressible(pkg, signature) && WriteCfb(pkg, signature).Some? && Fingerprint(pkg).Some?
    ensures var out := WriteCfb(pkg, signature).value;
      Parse(out).Some? && Loaded(Parse(out).value) && Fingerprint(Parse(out).value) == Fingerprint(pkg)
  {
    hide Parse, WriteCfb, Expressible, AllResolve, Readable, FeedRoot, Wanted, UniqueNames;
    SelfCheckNeverFails(pkg, signature);
    var out := WriteCfb(pkg, signature).value;
    WriteRebuilds(pkg, signature);
    var again := Parse(out).value;
    WantedFixed(TreeOf(pkg), Given(signature));
    OrderedUnique(Intended(pkg, signature).kids);
    OthersUnique(Intended(pkg, signature).kids);
    WriterReads(again);
    HashReads(again);
    FeedKept(TreeOf(pkg), Given(signature));
  }

  /** A package that can be fingerprinted can be rebuilt without a signature, size permitting. */
  lemma {:induction false} FingerprintedRebuilds(pkg: Package)
    requires Loaded(pkg) && Expressible(pkg, None) && Fingerprint(pkg).Some? && PlanFor(pkg, None).Total() <= MAX_SECTORS
    ensures WriteCfb(pkg, None).Some?
  {
    hide Expressible, WriteCfb, AllResolve, Readable, FeedRoot, TreeOf;
    HashReads(pkg);
    WriterReadsExactly(pkg);
    SelfCheckNeverFails(pkg, None);
  }
}
