/** The fingerprint as it is computed: storages walked in place over the model that resolves streams, every
    byte handed to the streaming hasher. */
module CfbHash {
  import opened Bytes
  import opened CfbModel
  import opened CfbTree
  import opened CfbSearch
  import opened CfbDirectory
  import opened CfbResolve
  import opened CfbRuns
  import opened CfbPackage
  import opened CfbUnpack
  import opened CfbCanon
  import opened CfbFits
  import opened CfbFingerprint
  import opened CfbWriter
  import opened Ordering
  import ShaBlock
  import ShaStream

  const HASH_PIECE := 0x1_0000

  // ── Names ──────────────────────────────────────────────────

  function NamesOf(xs: seq<Node>): (names: seq<Name>)
    ensures |names| == |xs| && forall i :: 0 <= i < |xs| ==> names[i] == xs[i].meta.name
  {
    seq(|xs|, i requires 0 <= i < |xs| => xs[i].meta.name)
  }

  lemma {:induction false} NamesAreKeys(xs: seq<Node>)
    ensures DistinctKeys(NamesOf(xs), NameKey) <==> DistinctKeys(xs, ChildKey)
  {
    var names := NamesOf(xs);
    assert forall i :: 0 <= i < |xs| ==> NameKey(names[i]) == ChildKey(xs[i]);
  }

  /** No storage among the nodes or below them holds a name twice. */
  ghost predicate UniqueNodes(xs: seq<Node>) {
    DistinctKeys(xs, ChildKey) && forall i :: 0 <= i < |xs| && xs[i].isStorage ==> UniqueNodes(xs[i].children)
  }

  lemma {:induction false} KeysUnpacked(pkg: Package, xs: seq<Node>)
    requires pkg.Valid()
    ensures DistinctKeys(xs, ChildKey) <==> DistinctKeys(UnpackAll(pkg, xs), TreeKey)
  {
    var ts := UnpackAll(pkg, xs);
    assert forall i :: 0 <= i < |xs| ==> TreeKey(ts[i]) == ChildKey(xs[i]);
  }

  lemma {:induction false} UniqueUnpacked(pkg: Package, xs: seq<Node>)
    requires pkg.Valid()
    ensures UniqueNodes(xs) <==> UniqueNames(UnpackAll(pkg, xs))
  {
    KeysUnpacked(pkg, xs);
    forall i | 0 <= i < |xs| && xs[i].isStorage
      ensures UniqueNodes(xs[i].children) <==> UniqueNames(UnpackAll(pkg, xs)[i].kids)
    {
      UniqueUnpacked(pkg, xs[i].children);
    }
  }

  // ── Sequences of calls ─────────────────────────────────────

  /** The model after calls that all succeed. */
  ghost function ResolveAll(pkg: Package, st: Owners, calls: seq<Node>): (r: Option<Owners>)
    requires pkg.Valid()
    ensures r.Some? <==> AllResolve(pkg, st, calls)
    decreases |calls|
  {
    if calls == [] then Some(st)
    else var r := Resolve(pkg, st, calls[0]);
      if r.extents.None? then None else ResolveAll(pkg, r.owners, calls[1..])
  }

  lemma {:induction false} ResolveAllAppend(pkg: Package, st: Owners, a: seq<Node>, b: seq<Node>)
    requires pkg.Valid()
    ensures ResolveAll(pkg, st, a + b) == (var m :- ResolveAll(pkg, st, a); ResolveAll(pkg, m, b))
    decreases |a|
  {
    hide Resolve;
    if a == [] {
      assert a + b == b;
    } else {
      assert (a + b)[0] == a[0] && (a + b)[1..] == a[1..] + b;
      var r := Resolve(pkg, st, a[0]);
      if r.extents.Some? { ResolveAllAppend(pkg, r.owners, a[1..], b); }
    }
  }

  /** A call that succeeds delivers what the stream delivers on its own. */
  lemma {:induction false} ResolvedAlone(pkg: Package, st: Owners, x: Node)
    requires pkg.Valid() && Shape(pkg, st)
    ensures Shape(pkg, Resolve(pkg, st, x).owners)
    ensures var r := Resolve(pkg, st, x); r.extents.Some? && !x.isStorage ==> Content(pkg.source, r.extents.value) == ReadOf(pkg, x)
    ensures Resolve(pkg, st, x).extents.Some? ==> Alone(pkg, x) == Resolve(pkg, st, x).extents
  {
    if IsMini(pkg, x) { MiniFacts(pkg, st, x); } else if IsOrdinary(pkg, x) { OrdinaryFacts(pkg, st, x); }
  }

  // ── What is hashed ─────────────────────────────────────────

  /** The children that count: the root's signatures do not. */
  function Hashed(x: Node, isRoot: bool): seq<Node> {
    if isRoot then OtherNodes(x.children) else x.children
  }

  lemma {:induction false} OtherNodesAre(xs: seq<Node>, x: Node)
    requires x in OtherNodes(xs)
    ensures x in xs
  {
    if xs != [] && x in OtherNodes(xs[1..]) { OtherNodesAre(xs[1..], x); }
  }

  ghost function FeedOf(pkg: Package, x: Node, isRoot: bool): Buffer
    requires pkg.Valid()
  {
    FeedAll(UnpackAll(pkg, Hashed(x, isRoot))) + x.meta.classId
  }

  ghost function CallsOf(x: Node, isRoot: bool): seq<Node> {
    DepthFirst(Arrange(Hashed(x, isRoot), RawChildKey))
  }

  ghost function ChildFeed(pkg: Package, x: Node): Buffer
    requires pkg.Valid()
  {
    Feed(Unpack(pkg, x))
  }

  ghost function ChildCalls(x: Node): seq<Node> {
    if x.isStorage then CallsOf(x, false) else [x]
  }

  /** Fed for the first i children, in order. */
  ghost function FedTo(pkg: Package, xs: seq<Node>, i: nat): Buffer
    requires pkg.Valid() && i <= |xs|
  {
    if i == 0 then [] else FedTo(pkg, xs, i - 1) + ChildFeed(pkg, xs[i - 1])
  }

  ghost function CallsTo(xs: seq<Node>, i: nat): seq<Node>
    requires i <= |xs|
  {
    if i == 0 then [] else CallsTo(xs, i - 1) + ChildCalls(xs[i - 1])
  }

  lemma {:induction false} FedGrows(pkg: Package, xs: seq<Node>, i: nat, n: nat)
    requires pkg.Valid() && i <= n <= |xs|
    ensures |FedTo(pkg, xs, i)| <= |FedTo(pkg, xs, n)|
    decreases n
  {
    hide ChildFeed;
    if i < n { FedGrows(pkg, xs, i, n - 1); }
  }

  ghost function AsFed(pkg: Package, x: Node): Fed
    requires pkg.Valid()
  {
    Fed(RawKey(x.meta.name), ChildFeed(pkg, x))
  }

  lemma {:induction false} FedOfSorted(pkg: Package, xs: seq<Node>)
    requires pkg.Valid()
    ensures var sorted := Sort(xs, RawChildKey); var f := Sort(FedEach(UnpackAll(pkg, xs)), FedKey);
      |f| == |sorted| && forall i :: 0 <= i < |f| ==> f[i] == AsFed(pkg, sorted[i])
  {
    var f := FedEach(UnpackAll(pkg, xs));
    var related := (x: Node, y: Fed) => pkg.Valid() && y == AsFed(pkg, x);
    assert Alike(xs, f, RawChildKey, FedKey, related);
    SortAlike(xs, f, RawChildKey, FedKey, related);
  }

  lemma {:induction false} FedInTurn(pkg: Package, xs: seq<Node>, f: seq<Fed>, n: nat)
    requires pkg.Valid() && |f| == |xs| && n <= |xs| && forall i :: 0 <= i < |f| ==> f[i] == AsFed(pkg, xs[i])
    ensures FedTo(pkg, xs, n) + InTurn(f[n..]) == InTurn(f)
  {
    hide ChildFeed, RawKey;
    if n == 0 {
      assert f[0..] == f && [] + InTurn(f) == InTurn(f);
    } else {
      FedInTurn(pkg, xs, f, n - 1);
      assert f[n - 1..][0] == f[n - 1] && f[n - 1..][1..] == f[n..];
      assert FedTo(pkg, xs, n - 1) + (ChildFeed(pkg, xs[n - 1]) + InTurn(f[n..])) == FedTo(pkg, xs, n) + InTurn(f[n..]);
    }
  }

  /** Feeding the sorted children one after the other feeds the storage. */
  lemma {:induction false} FedWhole(pkg: Package, xs: seq<Node>)
    requires pkg.Valid()
    ensures var sorted := Sort(xs, RawChildKey); FedTo(pkg, sorted, |sorted|) == FeedAll(UnpackAll(pkg, xs))
  {
    FedOfSorted(pkg, xs);
    var sorted, f := Sort(xs, RawChildKey), Sort(FedEach(UnpackAll(pkg, xs)), FedKey);
    FedInTurn(pkg, sorted, f, |sorted|);
    assert f[|sorted|..] == [] && FedTo(pkg, sorted, |sorted|) + [] == FedTo(pkg, sorted, |sorted|);
  }

  lemma {:induction false} ChildFirst(x: Node, a: seq<Node>)
    requires a != [] && a[0] == Arranged(x, RawChildKey)
    ensures DepthFirst(a) == ChildCalls(x) + DepthFirst(a[1..])
  {
    hide RawChildKey, Arrange;
  }

  lemma {:induction false} CallsInTurn(xs: seq<Node>, a: seq<Node>, n: nat)
    requires |a| == |xs| && n <= |xs| && forall i :: 0 <= i < |a| ==> a[i] == Arranged(xs[i], RawChildKey)
    ensures CallsTo(xs, n) + DepthFirst(a[n..]) == DepthFirst(a)
  {
    hide RawChildKey, Arranged, DepthFirst, ChildCalls;
    if n == 0 {
      assert a[0..] == a && [] + DepthFirst(a) == DepthFirst(a);
    } else {
      CallsInTurn(xs, a, n - 1);
      assert a[n - 1..][0] == a[n - 1] && a[n - 1..][1..] == a[n..];
      ChildFirst(xs[n - 1], a[n - 1..]);
      assert CallsTo(xs, n - 1) + (ChildCalls(xs[n - 1]) + DepthFirst(a[n..])) == CallsTo(xs, n) + DepthFirst(a[n..]);
    }
  }

  /** Visiting the sorted children one after the other makes the storage's calls. */
  lemma {:induction false} CallsWhole(xs: seq<Node>)
    ensures var sorted := Sort(xs, RawChildKey); CallsTo(sorted, |sorted|) == DepthFirst(Arrange(xs, RawChildKey))
  {
    ArrangeOfSorted(xs, RawChildKey);
    var sorted, a := Sort(xs, RawChildKey), Arrange(xs, RawChildKey);
    CallsInTurn(sorted, a, |sorted|);
    assert a[|sorted|..] == [] && CallsTo(sorted, |sorted|) + [] == CallsTo(sorted, |sorted|);
  }

  // ── Handing bytes to the hasher ────────────────────────────

  function Octet(b: Byte): bv8 {
    b as bv8
  }

  function Octets(s: Buffer): (o: ShaBlock.Octets)
    ensures |o| == |s|
  {
    seq(|s|, i requires 0 <= i < |s| => Octet(s[i]))
  }

  lemma {:induction false} OctetsAppend(a: Buffer, b: Buffer)
    ensures Octets(a + b) == Octets(a) + Octets(b)
  {
    hide Octet;
  }

  /** One range of the file, in pieces. */
  method FeedExtent(source: Buffer, e: Extent, hasher: ShaStream.Hasher)
    requires e.offset + e.length <= |source|
    requires hasher.Valid() && |hasher.message| + e.length < ShaStream.LIMIT61
    modifies hasher, hasher.digits
    ensures hasher.Valid() && hasher.message == old(hasher.message) + Octets(Piece(source, e))
  {
    hide Octets, ShaStream.Hasher.Valid;
    var begin: nat, left: nat := e.offset, e.length;
    assert Octets(source[e.offset..begin]) == [];
    while left != 0
      invariant e.offset <= begin <= |source| && left == e.offset + e.length - begin
      invariant hasher.Valid() && hasher.message == old(hasher.message) + Octets(source[e.offset..begin])
    {
      var piece := if left <= HASH_PIECE then left else HASH_PIECE;
      OctetsMore(source, e.offset, begin, begin + piece);
      hasher.Process(Octets(source[begin..begin + piece]));
      begin, left := begin + piece, left - piece;
    }
  }

  lemma {:induction false} OctetsMore(s: Buffer, a: nat, b: nat, c: nat)
    requires a <= b <= c <= |s|
    ensures Octets(s[a..c]) == Octets(s[a..b]) + Octets(s[b..c])
  {
    hide Octets;
    assert s[a..c] == s[a..b] + s[b..c];
    OctetsAppend(s[a..b], s[b..c]);
  }

  lemma {:induction false} ContentNext(source: Buffer, extents: seq<Extent>, k: nat)
    requires k < |extents|
    ensures Content(source, extents[..k + 1]) == Content(source, extents[..k]) + Piece(source, extents[k])
  {
    hide Piece;
    assert Pieces(source, extents[..k + 1])[..k] == Pieces(source, extents[..k]);
  }

  lemma {:induction false} ContentGrows(source: Buffer, extents: seq<Extent>, k: nat)
    requires k <= |extents|
    ensures |Content(source, extents[..k])| <= |Content(source, extents)|
    decreases |extents| - k
  {
    hide Content;
    if k < |extents| {
      ContentNext(source, extents, k);
      ContentGrows(source, extents, k + 1);
    } else {
      assert extents[..k] == extents;
    }
  }

  /** A stream, range by range. */
  method FeedExtents(source: Buffer, extents: seq<Extent>, hasher: ShaStream.Hasher)
    requires Within(extents, |source|)
    requires hasher.Valid() && |hasher.message| + |Content(source, extents)| < ShaStream.LIMIT61
    modifies hasher, hasher.digits
    ensures hasher.Valid() && hasher.message == old(hasher.message) + Octets(Content(source, extents))
  {
    hide Octets, Content, ShaStream.Hasher.Valid;
    ContentNone(source, extents);
    for k := 0 to |extents|
      invariant hasher.Valid() && hasher.message == old(hasher.message) + Octets(Content(source, extents[..k]))
    {
      ContentNext(source, extents, k);
      ContentGrows(source, extents, k + 1);
      OctetsAppend(Content(source, extents[..k]), Piece(source, extents[k]));
      FeedExtent(source, extents[k], hasher);
    }
    assert extents[..|extents|] == extents;
  }

  lemma {:induction false} ContentNone(source: Buffer, extents: seq<Extent>)
    ensures Content(source, extents[..0]) == [] && Octets([]) == []
  {
  }

  // ── The walk ───────────────────────────────────────────────

  /** One child: a storage is walked, a stream resolved and fed. */
  method HashChild(model: PackageModel, x: Node, hasher: ShaStream.Hasher) returns (ok: bool)
    requires model.Valid() && hasher.Valid() && |hasher.message| + |ChildFeed(model.pkg, x)| < ShaStream.LIMIT61
    modifies model, model.sectors, hasher, hasher.digits
    ensures model.Valid() && hasher.Valid()
    ensures var r := ResolveAll(model.pkg, old(model.State()), ChildCalls(x));
      && (ok <==> (x.isStorage ==> UniqueNodes(x.children)) && r.Some?)
      && (ok ==> r == Some(model.State()) && hasher.message == old(hasher.message) + Octets(ChildFeed(model.pkg, x)))
    decreases x, 2
  {
    if x.isStorage {
      ok := HashStorage(model, x, false, hasher);
    } else {
      ResolvedAlone(model.pkg, model.State(), x);
      OneCall(model.pkg, model.State(), x);
      var extents := model.Resolve(x);
      ok := extents.Some?;
      if ok {
        AloneFits(model.pkg, x);
        FeedExtents(model.pkg.source, extents.value, hasher);
      }
    }
  }

  lemma {:induction false} OneCall(pkg: Package, st: Owners, x: Node)
    requires pkg.Valid()
    ensures var r := Resolve(pkg, st, x); ResolveAll(pkg, st, [x]) == if r.extents.None? then None else Some(r.owners)
  {
  }

  lemma {:induction false} CallsStep(pkg: Package, st: Owners, xs: seq<Node>, i: nat)
    requires pkg.Valid() && i < |xs|
    ensures ResolveAll(pkg, st, CallsTo(xs, i + 1)) == (var m :- ResolveAll(pkg, st, CallsTo(xs, i)); ResolveAll(pkg, m, ChildCalls(xs[i])))
  {
    hide ResolveAll, ChildCalls;
    ResolveAllAppend(pkg, st, CallsTo(xs, i), ChildCalls(xs[i]));
  }

  lemma {:induction false} CallsFail(pkg: Package, st: Owners, xs: seq<Node>, i: nat, n: nat)
    requires pkg.Valid() && i <= n <= |xs| && ResolveAll(pkg, st, CallsTo(xs, i)).None?
    ensures ResolveAll(pkg, st, CallsTo(xs, n)).None?
    decreases n
  {
    hide ResolveAll, CallsTo;
    if i < n {
      CallsFail(pkg, st, xs, i, n - 1);
      CallsStep(pkg, st, xs, n - 1);
    }
  }

  lemma {:induction false} OthersDistinct(xs: seq<Node>)
    requires DistinctKeys(xs, ChildKey)
    ensures DistinctKeys(OtherNodes(xs), ChildKey)
  {
    hide ChildKey;
    if xs != [] {
      OthersDistinct(xs[1..]);
      var rest := OtherNodes(xs[1..]);
      forall j | 0 <= j < |rest| ensures ChildKey(rest[j]) != ChildKey(xs[0]) {
        OtherNodesAre(xs[1..], rest[j]);
        var k :| 0 <= k < |xs[1..]| && xs[1..][k] == rest[j];
        assert xs[k + 1] == rest[j];
      }
    }
  }

  lemma {:induction false} ChildOf(x: Node, isRoot: bool, y: Node) returns (k: nat)
    requires y in Sort(Hashed(x, isRoot), RawChildKey)
    ensures k < |x.children| && x.children[k] == y && y in Hashed(x, isRoot)
  {
    InSeqInMultiset(Sort(Hashed(x, isRoot), RawChildKey), Hashed(x, isRoot), y);
    if isRoot { OtherNodesAre(x.children, y); }
    k :| 0 <= k < |x.children| && x.children[k] == y;
  }

  ghost predicate UniqueInside(xs: seq<Node>, n: nat)
    requires n <= |xs|
  {
    forall j :: 0 <= j < n && xs[j].isStorage ==> UniqueNodes(xs[j].children)
  }

  lemma {:induction false} InsideStep(xs: seq<Node>, i: nat)
    requires i < |xs|
    ensures UniqueInside(xs, i + 1) <==> UniqueInside(xs, i) && (xs[i].isStorage ==> UniqueNodes(xs[i].children))
  {
  }

  lemma {:induction false} StopsHere(pkg: Package, st: Owners, xs: seq<Node>, i: nat, n: nat)
    requires pkg.Valid() && i <= n <= |xs| && !(UniqueInside(xs, i) && ResolveAll(pkg, st, CallsTo(xs, i)).Some?)
    ensures !(UniqueInside(xs, n) && ResolveAll(pkg, st, CallsTo(xs, n)).Some?)
  {
    hide ResolveAll, CallsTo;
    if UniqueInside(xs, i) { CallsFail(pkg, st, xs, i, n); }
  }

  lemma {:induction false} UniqueSorted(x: Node, isRoot: bool)
    requires DistinctKeys(x.children, ChildKey)
    ensures var sorted := Sort(Hashed(x, isRoot), RawChildKey); UniqueNodes(Hashed(x, isRoot)) <==> UniqueInside(sorted, |sorted|)
  {
    hide ChildKey, RawChildKey;
    var kids := Hashed(x, isRoot);
    var sorted := Sort(kids, RawChildKey);
    if isRoot { OthersDistinct(x.children); }
    forall j | 0 <= j < |sorted| ensures sorted[j] in kids { InSeqInMultiset(sorted, kids, sorted[j]); }
    forall j | 0 <= j < |kids| ensures kids[j] in sorted { InSeqInMultiset(kids, sorted, kids[j]); }
  }

  ghost predicate Hashes(pkg: Package, st: Owners, x: Node, isRoot: bool)
    requires pkg.Valid()
  {
    DistinctKeys(x.children, ChildKey) && UniqueNodes(Hashed(x, isRoot)) && ResolveAll(pkg, st, CallsOf(x, isRoot)).Some?
  }

  /** A storage: names checked, children in raw order, then its class identifier. */
  method HashStorage(model: PackageModel, x: Node, isRoot: bool, hasher: ShaStream.Hasher) returns (ok: bool)
    requires model.Valid() && hasher.Valid() && |hasher.message| + |FeedOf(model.pkg, x, isRoot)| < ShaStream.LIMIT61
    modifies model, model.sectors, hasher, hasher.digits
    ensures model.Valid() && hasher.Valid()
    ensures ok <==> Hashes(model.pkg, old(model.State()), x, isRoot)
    ensures ok ==> ResolveAll(model.pkg, old(model.State()), CallsOf(x, isRoot)) == Some(model.State())
    ensures ok ==> hasher.message == old(hasher.message) + Octets(FeedOf(model.pkg, x, isRoot))
    decreases x, 1
  {
    hide ResolveAll, ShaStream.Hasher.Valid, Octets, DistinctKeys, FeedOf, CallsOf, FedTo, CallsTo, Hashes, UniqueInside;
    assert model.pkg.Valid();
    hide PackageModel.Valid, PackageModel.State, Sort, Hashed, Package.Valid;
    var sorted := Sort(Hashed(x, isRoot), RawChildKey);
    WholeStorage(model.pkg, model.State(), x, isRoot);
    ghost var fed := hasher.message;
    NamesAreKeys(x.children);
    ok := NamesDiffer(NamesOf(x.children));
    if !ok { return; }
    ok := HashChildren(model, x, isRoot, sorted, hasher);
    if ok {
      AppendTwice(fed, Octets(FedTo(model.pkg, sorted, |sorted|)), Octets(x.meta.classId));
      hasher.Process(Octets(x.meta.classId));
    }
  }

  lemma {:induction false} AppendTwice<T>(a: seq<T>, b: seq<T>, c: seq<T>)
    ensures a + b + c == a + (b + c)
  {
  }

  /** The first i children are walked: their streams resolved from the state `st`, their bytes fed after `fed`. */
  ghost predicate Walked(model: PackageModel, hasher: ShaStream.Hasher, st: Owners, fed: ShaBlock.Octets, xs: seq<Node>, i: nat)
    requires i <= |xs|
    reads model, model.sectors, hasher, hasher.digits
  {
    && model.Valid() && hasher.Valid() && ResolveAll(model.pkg, st, CallsTo(xs, i)) == Some(model.State())
    && hasher.message == fed + Octets(FedTo(model.pkg, xs, i)) && UniqueInside(xs, i)
  }

  method HashNext(model: PackageModel, ghost x: Node, ghost isRoot: bool, sorted: seq<Node>, i: nat, hasher: ShaStream.Hasher,
                  ghost st: Owners, ghost fed: ShaBlock.Octets) returns (ok: bool)
    requires sorted == Sort(Hashed(x, isRoot), RawChildKey) && i < |sorted| && Walked(model, hasher, st, fed, sorted, i)
    requires |fed| + |FedTo(model.pkg, sorted, |sorted|)| < ShaStream.LIMIT61
    modifies model, model.sectors, hasher, hasher.digits
    ensures model.Valid() && hasher.Valid()
    ensures if ok then Walked(model, hasher, st, fed, sorted, i + 1)
            else !(UniqueInside(sorted, |sorted|) && ResolveAll(model.pkg, st, CallsTo(sorted, |sorted|)).Some?)
    decreases x, 0, 0
  {
    hide ResolveAll, ChildCalls, ChildFeed, ShaStream.Hasher.Valid, Octets, UniqueNodes, FedTo, CallsTo, UniqueInside, Walked;
    hide PackageModel.Valid, PackageModel.State, Sort, Hashed, Package.Valid;
    WalkedMeans(model, hasher, st, fed, sorted, i);
    FedGrows(model.pkg, sorted, i + 1, |sorted|);
    FedStep(model.pkg, sorted, i);
    ghost var k := ChildOf(x, isRoot, sorted[i]);
    ghost var was, message := model.State(), hasher.message;
    ok := HashChild(model, sorted[i], hasher);
    NextWalked(model.pkg, st, fed, sorted, i, was, message, ok, model.State(), hasher.message);
    if ok { WalkedFrom(model, hasher, st, fed, sorted, i + 1); }
  }

  /** The outcome of one child on top of those before it. */
  lemma {:induction false} NextWalked(pkg: Package, st: Owners, fed: ShaBlock.Octets, xs: seq<Node>, i: nat,
                                      was: Owners, message: ShaBlock.Octets, ok: bool, now: Owners, longer: ShaBlock.Octets)
    requires pkg.Valid() && i < |xs| && UniqueInside(xs, i)
    requires ResolveAll(pkg, st, CallsTo(xs, i)) == Some(was) && message == fed + Octets(FedTo(pkg, xs, i))
    requires ok <==> (xs[i].isStorage ==> UniqueNodes(xs[i].children)) && ResolveAll(pkg, was, ChildCalls(xs[i])).Some?
    requires ok ==> ResolveAll(pkg, was, ChildCalls(xs[i])) == Some(now) && longer == message + Octets(ChildFeed(pkg, xs[i]))
    ensures if ok then UniqueInside(xs, i + 1) && ResolveAll(pkg, st, CallsTo(xs, i + 1)) == Some(now) && longer == fed + Octets(FedTo(pkg, xs, i + 1))
            else !(UniqueInside(xs, |xs|) && ResolveAll(pkg, st, CallsTo(xs, |xs|)).Some?)
  {
    hide ResolveAll, ChildCalls, ChildFeed, Octets, UniqueNodes, FedTo, CallsTo, UniqueInside, Package.Valid;
    CallsStep(pkg, st, xs, i);
    FedStep(pkg, xs, i);
    InsideStep(xs, i);
    AppendTwice(fed, Octets(FedTo(pkg, xs, i)), Octets(ChildFeed(pkg, xs[i])));
    if !ok { StopsHere(pkg, st, xs, i + 1, |xs|); }
  }

  lemma {:induction false} WalkedMeans(model: PackageModel, hasher: ShaStream.Hasher, st: Owners, fed: ShaBlock.Octets, xs: seq<Node>, i: nat)
    requires i <= |xs| && Walked(model, hasher, st, fed, xs, i)
    ensures model.Valid() && hasher.Valid() && model.pkg.Valid() && UniqueInside(xs, i)
    ensures ResolveAll(model.pkg, st, CallsTo(xs, i)) == Some(model.State()) && hasher.message == fed + Octets(FedTo(model.pkg, xs, i))
  {
  }

  lemma {:induction false} WalkedFrom(model: PackageModel, hasher: ShaStream.Hasher, st: Owners, fed: ShaBlock.Octets, xs: seq<Node>, i: nat)
    requires model.Valid() && hasher.Valid() && i <= |xs| && UniqueInside(xs, i)
    requires ResolveAll(model.pkg, st, CallsTo(xs, i)) == Some(model.State()) && hasher.message == fed + Octets(FedTo(model.pkg, xs, i))
    ensures Walked(model, hasher, st, fed, xs, i)
  {
  }

  method HashChildren(model: PackageModel, ghost x: Node, ghost isRoot: bool, sorted: seq<Node>, hasher: ShaStream.Hasher) returns (ok: bool)
    requires sorted == Sort(Hashed(x, isRoot), RawChildKey)
    requires model.Valid() && hasher.Valid() && |hasher.message| + |FedTo(model.pkg, sorted, |sorted|)| < ShaStream.LIMIT61
    modifies model, model.sectors, hasher, hasher.digits
    ensures model.Valid() && hasher.Valid()
    ensures if ok then Walked(model, hasher, old(model.State()), old(hasher.message), sorted, |sorted|)
            else !(UniqueInside(sorted, |sorted|) && ResolveAll(model.pkg, old(model.State()), CallsTo(sorted, |sorted|)).Some?)
    decreases x, 0, 1
  {
    hide ResolveAll, ShaStream.Hasher.Valid, Octets, FedTo, CallsTo, UniqueInside, Walked, PackageModel.Valid, PackageModel.State;
    ghost var st, fed := model.State(), hasher.message;
    StartsWalked(model, hasher, sorted);
    ok := true;
    for i := 0 to |sorted|
      invariant ok && Walked(model, hasher, st, fed, sorted, i)
    {
      ok := HashNext(model, x, isRoot, sorted, i, hasher, st, fed);
      if !ok { return; }
    }
    WalkedMeans(model, hasher, st, fed, sorted, |sorted|);
  }

  lemma {:induction false} StartsWalked(model: PackageModel, hasher: ShaStream.Hasher, xs: seq<Node>)
    requires model.Valid() && hasher.Valid()
    ensures Walked(model, hasher, model.State(), hasher.message, xs, 0)
  {
    NothingYet(model.pkg, model.State(), xs);
    assert hasher.message + [] == hasher.message;
  }

  /** The walk over the sorted children is the storage's. */
  lemma {:induction false} WholeStorage(pkg: Package, st: Owners, x: Node, isRoot: bool)
    requires pkg.Valid()
    ensures var sorted := Sort(Hashed(x, isRoot), RawChildKey);
      && |FeedOf(pkg, x, isRoot)| == |FedTo(pkg, sorted, |sorted|)| + |x.meta.classId|
      && Octets(FeedOf(pkg, x, isRoot)) == Octets(FedTo(pkg, sorted, |sorted|)) + Octets(x.meta.classId)
      && CallsOf(x, isRoot) == CallsTo(sorted, |sorted|)
      && (Hashes(pkg, st, x, isRoot)
          <==> DistinctKeys(x.children, ChildKey) && UniqueInside(sorted, |sorted|) && ResolveAll(pkg, st, CallsOf(x, isRoot)).Some?)
  {
    hide ResolveAll, Octets, FedTo, CallsTo, UniqueInside, UniqueNodes;
    FedWhole(pkg, Hashed(x, isRoot));
    CallsWhole(Hashed(x, isRoot));
    if DistinctKeys(x.children, ChildKey) { UniqueSorted(x, isRoot); }
    OctetsAppend(FeedAll(UnpackAll(pkg, Hashed(x, isRoot))), x.meta.classId);
  }

  lemma {:induction false} FedStep(pkg: Package, xs: seq<Node>, i: nat)
    requires pkg.Valid() && i < |xs|
    ensures |FedTo(pkg, xs, i + 1)| == |FedTo(pkg, xs, i)| + |ChildFeed(pkg, xs[i])|
    ensures Octets(FedTo(pkg, xs, i + 1)) == Octets(FedTo(pkg, xs, i)) + Octets(ChildFeed(pkg, xs[i]))
  {
    hide Octets, ChildFeed;
    OctetsAppend(FedTo(pkg, xs, i), ChildFeed(pkg, xs[i]));
  }

  lemma {:induction false} NothingYet(pkg: Package, st: Owners, xs: seq<Node>)
    requires pkg.Valid()
    ensures ResolveAll(pkg, st, CallsTo(xs, 0)) == Some(st) && Octets(FedTo(pkg, xs, 0)) == [] && UniqueInside(xs, 0)
  {
  }

  lemma {:induction false} FeedOfTree(pkg: Package)
    requires Loaded(pkg)
    ensures FeedOf(pkg, pkg.root, true) == FeedRoot(TreeOf(pkg))
    ensures Hashes(pkg, Fresh(pkg), pkg.root, true) <==> Fingerprint(pkg).Some?
  {
    hide ResolveAll, FeedAll, UniqueNodes, DistinctKeys, AllResolve;
    NodesOfTree(pkg);
  }

  lemma {:induction false} NodesOfTree(pkg: Package)
    requires Loaded(pkg)
    ensures UnpackAll(pkg, OtherNodes(pkg.root.children)) == Others(TreeOf(pkg).kids)
    ensures OnceNamed(TreeOf(pkg).kids) <==> DistinctKeys(pkg.root.children, ChildKey) && UniqueNodes(OtherNodes(pkg.root.children))
  {
    OthersUnpacked(pkg, pkg.root.children);
    KeysUnpacked(pkg, pkg.root.children);
    UniqueUnpacked(pkg, OtherNodes(pkg.root.children));
  }

  lemma {:induction false} OthersUnpacked(pkg: Package, xs: seq<Node>)
    requires pkg.Valid()
    ensures UnpackAll(pkg, OtherNodes(xs)) == Others(UnpackAll(pkg, xs))
  {
    hide Unpack;
    if xs != [] {
      OthersUnpacked(pkg, xs[1..]);
      assert UnpackAll(pkg, xs)[1..] == UnpackAll(pkg, xs[1..]);
    }
  }

  /** From a fresh model: the digest of the fingerprint's bytes, or a rejection exactly when there is no fingerprint. */
  method ComputeFingerprint(model: PackageModel) returns (digest: Option<ShaBlock.Vars>)
    requires model.Valid() && Loaded(model.pkg) && model.State() == Fresh(model.pkg)
    requires |FeedRoot(TreeOf(model.pkg))| < ShaStream.LIMIT61
    modifies model, model.sectors
    ensures digest.Some? <==> Fingerprint(model.pkg).Some?
    ensures digest.Some? ==> digest.value == ShaStream.Sha256(Octets(FeedRoot(TreeOf(model.pkg))))
  {
    hide ShaStream.Sha256, Octets, TreeOf, FeedOf, Hashes, Fingerprint, ShaStream.Hasher.Valid;
    FeedOfTree(model.pkg);
    var hasher := new ShaStream.Hasher();
    var ok := HashStorage(model, model.pkg.root, true, hasher);
    if !ok { return None; }
    assert [] + Octets(FeedRoot(TreeOf(model.pkg))) == Octets(FeedRoot(TreeOf(model.pkg)));
    hasher.Finish();
    digest := Some(hasher.h);
  }
}
