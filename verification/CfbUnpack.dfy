/** A parsed package as a tree with contents, and the streams below a list of nodes in the orders
    in which its clients resolve them. */
module CfbUnpack {
  import opened Bytes
  import opened CfbModel
  import opened CfbTree
  import opened CfbSearch
  import opened CfbDirectory
  import opened CfbResolve
  import opened CfbRuns
  import opened CfbImage
  import opened CfbStreams
  import opened Ordering

  // ── Contents ───────────────────────────────────────────────

  /** The bytes of a stream. */
  ghost function ReadOf(pkg: Package, x: Node): Buffer
    requires pkg.Valid()
  {
    if Alone(pkg, x).Some? then Content(pkg.source, Alone(pkg, x).value) else []
  }

  ghost function Unpack(pkg: Package, x: Node): (t: Tree)
    requires pkg.Valid()
    ensures t.meta == x.meta && t.Dir? == x.isStorage
    decreases x, 0
  {
    if x.isStorage then Dir(x.meta, UnpackAll(pkg, x.children)) else Stream(x.meta, ReadOf(pkg, x))
  }

  ghost function UnpackAll(pkg: Package, xs: seq<Node>): (ts: seq<Tree>)
    requires pkg.Valid()
    ensures |ts| == |xs|
    decreases xs, 1
  {
    seq(|xs|, i requires 0 <= i < |xs| => Unpack(pkg, xs[i]))
  }

  // ── Streams below a list of nodes ──────────────────────────

  /** The streams among the first n nodes. */
  function Direct(xs: seq<Node>, n: nat): seq<Node>
    requires n <= |xs|
  {
    if n == 0 then [] else Direct(xs, n - 1) + (if xs[n - 1].isStorage then [] else [xs[n - 1]])
  }

  /** The streams below the storages among the first n nodes. */
  function Inner(xs: seq<Node>, n: nat): seq<Node>
    requires n <= |xs|
    decreases xs, n
  {
    if n == 0 then [] else Inner(xs, n - 1) + (if xs[n - 1].isStorage then StreamNodes(xs[n - 1].children) else [])
  }

  /** Storage by storage: its own streams, then those below each of its storages. */
  function StreamNodes(xs: seq<Node>): seq<Node>
    decreases xs, |xs| + 1
  {
    Direct(xs, |xs|) + Inner(xs, |xs|)
  }

  /** Depth first, in the order of the nodes. */
  function DepthFirst(xs: seq<Node>): seq<Node> {
    if xs == [] then []
    else (if xs[0].isStorage then DepthFirst(xs[0].children) else [xs[0]]) + DepthFirst(xs[1..])
  }

  function Bag(xs: seq<Node>): multiset<Node> {
    if xs == [] then multiset{} else BagOf(xs[0]) + Bag(xs[1..])
  }

  function BagOf(x: Node): multiset<Node> {
    if x.isStorage then Bag(x.children) else multiset{x}
  }

  lemma {:induction false} BagSnoc(xs: seq<Node>, x: Node)
    ensures Bag(xs + [x]) == Bag(xs) + BagOf(x)
  {
    if xs == [] {
      assert [] + [x] == [x] && [x][1..] == [];
    } else {
      BagSnoc(xs[1..], x);
      assert (xs + [x])[1..] == xs[1..] + [x];
    }
  }

  lemma {:induction false} BagPrefix(xs: seq<Node>, n: nat)
    requires 0 < n <= |xs|
    ensures Bag(xs[..n]) == Bag(xs[..n - 1]) + BagOf(xs[n - 1])
  {
    assert xs[..n] == xs[..n - 1] + [xs[n - 1]];
    BagSnoc(xs[..n - 1], xs[n - 1]);
  }

  lemma {:induction false} SplitStep(xs: seq<Node>, n: nat)
    requires 0 < n <= |xs|
    requires xs[n - 1].isStorage ==> multiset(StreamNodes(xs[n - 1].children)) == Bag(xs[n - 1].children)
    ensures multiset(Direct(xs, n)) + multiset(Inner(xs, n)) == multiset(Direct(xs, n - 1)) + multiset(Inner(xs, n - 1)) + BagOf(xs[n - 1])
  {
    if xs[n - 1].isStorage {
      assert Direct(xs, n) == Direct(xs, n - 1);
      assert multiset(Inner(xs, n)) == multiset(Inner(xs, n - 1)) + multiset(StreamNodes(xs[n - 1].children));
    } else {
      assert Inner(xs, n) == Inner(xs, n - 1);
      assert multiset(Direct(xs, n)) == multiset(Direct(xs, n - 1)) + multiset{xs[n - 1]};
    }
  }

  lemma {:induction false} BagSplit(xs: seq<Node>, n: nat)
    requires n <= |xs|
    ensures multiset(Direct(xs, n)) + multiset(Inner(xs, n)) == Bag(xs[..n])
    decreases xs, n
  {
    if n == 0 {
      assert xs[..0] == [];
    } else {
      BagSplit(xs, n - 1);
      if xs[n - 1].isStorage { StreamNodesBag(xs[n - 1].children); }
      BagPrefix(xs, n);
      SplitStep(xs, n);
    }
  }

  lemma {:induction false} StreamNodesBag(xs: seq<Node>)
    ensures multiset(StreamNodes(xs)) == Bag(xs)
    decreases xs, |xs| + 1
  {
    BagSplit(xs, |xs|);
    assert xs[..|xs|] == xs;
  }

  lemma {:induction false} DepthFirstBag(xs: seq<Node>)
    ensures multiset(DepthFirst(xs)) == Bag(xs)
  {
    if xs != [] {
      DepthFirstBag(xs[1..]);
      if xs[0].isStorage { DepthFirstBag(xs[0].children); }
    }
  }

  // ── Sorting every storage ──────────────────────────────────

  /** Every storage's children put into the order of a key. */
  function Arrange(xs: seq<Node>, key: Key<Node>): seq<Node>
    decreases xs, 1
  {
    Sort(ArrangeEach(xs, key), key)
  }

  function ArrangeEach(xs: seq<Node>, key: Key<Node>): seq<Node>
    decreases xs, 0
  {
    if xs == [] then []
    else [if xs[0].isStorage then xs[0].(children := Arrange(xs[0].children, key)) else xs[0]] + ArrangeEach(xs[1..], key)
  }

  function Arranged(x: Node, key: Key<Node>): Node {
    if x.isStorage then x.(children := Arrange(x.children, key)) else x
  }

  lemma {:induction false} EachArranged(xs: seq<Node>, key: Key<Node>)
    ensures |ArrangeEach(xs, key)| == |xs|
    ensures forall i :: 0 <= i < |xs| ==> ArrangeEach(xs, key)[i] == Arranged(xs[i], key)
  {
    if xs != [] { EachArranged(xs[1..], key); }
  }

  /** For a key that does not look at the children, the nodes may be sorted first. */
  lemma {:induction false} ArrangeOfSorted(xs: seq<Node>, key: Key<Node>)
    requires forall x: Node, c: seq<Node> :: key(x.(children := c)) == key(x)
    ensures var sorted := Sort(xs, key); var a := Arrange(xs, key);
      |a| == |sorted| && forall i :: 0 <= i < |a| ==> a[i] == Arranged(sorted[i], key)
  {
    EachArranged(xs, key);
    var related := (x: Node, y: Node) => y == Arranged(x, key);
    assert Alike(xs, ArrangeEach(xs, key), key, key, related);
    SortAlike(xs, ArrangeEach(xs, key), key, key, related);
  }

  lemma {:induction false} BagInsert(x: Node, s: seq<Node>, key: Key<Node>)
    ensures Bag(Insert(x, s, key)) == BagOf(x) + Bag(s)
  {
    if s == [] || Lex(key(x), key(s[0])) <= 0 {
      assert ([x] + s)[1..] == s;
    } else {
      BagInsert(x, s[1..], key);
      assert ([s[0]] + Insert(x, s[1..], key))[1..] == Insert(x, s[1..], key);
    }
  }

  lemma {:induction false} BagSort(s: seq<Node>, key: Key<Node>)
    ensures Bag(Sort(s, key)) == Bag(s)
  {
    if s != [] {
      BagSort(s[1..], key);
      BagInsert(s[0], Sort(s[1..], key), key);
    }
  }

  lemma {:induction false} BagEach(xs: seq<Node>, key: Key<Node>)
    ensures Bag(ArrangeEach(xs, key)) == Bag(xs)
    decreases xs, 0
  {
    if xs != [] {
      BagEach(xs[1..], key);
      if xs[0].isStorage { BagArrange(xs[0].children, key); }
      assert ArrangeEach(xs, key)[1..] == ArrangeEach(xs[1..], key);
    }
  }

  /** Sorting moves no stream in or out. */
  lemma {:induction false} BagArrange(xs: seq<Node>, key: Key<Node>)
    ensures Bag(Arrange(xs, key)) == Bag(xs)
    decreases xs, 1
  {
    BagEach(xs, key);
    BagSort(ArrangeEach(xs, key), key);
  }

  /** All streams below the nodes can be read from one model. */
  ghost predicate Readable(pkg: Package, xs: seq<Node>)
    requires pkg.Valid()
  {
    Compatible(pkg, StreamNodes(xs))
  }

  /** Every client that resolves those streams once, in any order, succeeds or fails alike. */
  lemma {:induction false} ReadableInAnyOrder(pkg: Package, xs: seq<Node>, calls: seq<Node>)
    requires pkg.Valid() && multiset(calls) == Bag(xs)
    ensures AllResolve(pkg, Fresh(pkg), calls) <==> Readable(pkg, xs)
  {
    StreamNodesBag(xs);
    OrderDoesNotMatter(pkg, calls, StreamNodes(xs));
    AllResolveExactly(pkg, StreamNodes(xs));
  }

  // ── Where the streams of a tree stand in the directory ─────

  function DirectSpots(kids: seq<Tree>, base: nat, n: nat): seq<nat>
    requires n <= |kids|
  {
    if n == 0 then [] else DirectSpots(kids, base, n - 1) + (if kids[n - 1].Dir? then [] else [base + n - 1])
  }

  function InnerSpots(kids: seq<Tree>, base: nat, n: nat): seq<nat>
    requires n <= |kids|
    decreases kids, n
  {
    if n == 0 then []
    else InnerSpots(kids, base, n - 1) + (if kids[n - 1].Dir? then Spots(kids[n - 1].kids, FirstOf(kids, base, n - 1)) else [])
  }

  /** Positions of the streams, in the order of StreamNodes. */
  function Spots(kids: seq<Tree>, base: nat): seq<nat>
    decreases kids, |kids| + 1
  {
    DirectSpots(kids, base, |kids|) + InnerSpots(kids, base, |kids|)
  }

  ghost predicate Rising(s: seq<nat>, lo: nat, hi: nat) {
    && (forall i :: 0 <= i < |s| ==> lo <= s[i] < hi)
    && (forall i, j :: 0 <= i < j < |s| ==> s[i] < s[j])
  }

  lemma {:induction false} RisingAppend(a: seq<nat>, b: seq<nat>, lo: nat, mid: nat, hi: nat)
    requires Rising(a, lo, mid) && Rising(b, mid, hi) && lo <= mid <= hi
    ensures Rising(a + b, lo, hi)
  {
  }

  lemma {:induction false} DirectRising(kids: seq<Tree>, base: nat, n: nat)
    requires n <= |kids|
    ensures Rising(DirectSpots(kids, base, n), base, base + n)
  {
    if n > 0 { DirectRising(kids, base, n - 1); }
  }

  lemma {:induction false} NextFirst(kids: seq<Tree>, base: nat, i: nat)
    requires i < |kids|
    ensures FirstOf(kids, base, i + 1) == FirstOf(kids, base, i) + Size(kids[i])
    ensures FirstOf(kids, base, 0) <= FirstOf(kids, base, i)
  {
    CfbDirectory.SumMonotone(kids, 0, i);
  }

  lemma {:induction false} InnerRising(kids: seq<Tree>, base: nat, n: nat)
    requires n <= |kids|
    ensures Rising(InnerSpots(kids, base, n), FirstOf(kids, base, 0), FirstOf(kids, base, n))
    decreases kids, n
  {
    if n > 0 {
      InnerRising(kids, base, n - 1);
      var first := FirstOf(kids, base, n - 1);
      NextFirst(kids, base, n - 1);
      if kids[n - 1].Dir? {
        SpotsRising(kids[n - 1].kids, first);
        RisingAppend(InnerSpots(kids, base, n - 1), Spots(kids[n - 1].kids, first), FirstOf(kids, base, 0), first, FirstOf(kids, base, n));
      } else {
        assert InnerSpots(kids, base, n) == InnerSpots(kids, base, n - 1);
      }
    }
  }

  /** No position is used twice. */
  lemma {:induction false} SpotsRising(kids: seq<Tree>, base: nat)
    ensures Rising(Spots(kids, base), base, base + SizeAll(kids))
    decreases kids, |kids| + 1
  {
    DirectRising(kids, base, |kids|);
    InnerRising(kids, base, |kids|);
    RisingAppend(DirectSpots(kids, base, |kids|), InnerSpots(kids, base, |kids|), base, base + |kids|, base + SizeAll(kids));
  }

  // ── Reading a written file back ────────────────────────────

  /** The entries hold the flattened nodes from `base` on. */
  ghost predicate Spread(es: seq<Entry>, kids: seq<Tree>, base: nat) {
    SpreadAt(es, Flatten(kids, base), base)
  }

  ghost predicate SpreadAt(es: seq<Entry>, flat: seq<Entry>, base: nat) {
    base + |flat| <= |es| && forall k :: 0 <= k < |flat| ==> es[base + k] == flat[k]
  }

  lemma {:induction false} SpreadPart(es: seq<Entry>, flat: seq<Entry>, base: nat, part: seq<Entry>, at: nat)
    requires SpreadAt(es, flat, base) && at + |part| <= |flat|
    requires forall k :: 0 <= k < |part| ==> flat[at + k] == part[k]
    ensures SpreadAt(es, part, base + at)
  {
    forall k | 0 <= k < |part| ensures es[base + at + k] == part[k] {
      assert es[base + (at + k)] == flat[at + k];
    }
  }

  lemma {:induction false} SpreadInner(es: seq<Entry>, kids: seq<Tree>, base: nat, i: nat)
    requires Spread(es, kids, base) && i < |kids| && kids[i].Dir?
    ensures Spread(es, kids[i].kids, FirstOf(kids, base, i))
  {
    hide Flatten, SumSize, SpreadAt;
    FlattenPart(kids, base, i);
    SpreadPart(es, Flatten(kids, base), base, Parts(kids, base)[i], |kids| + SumSize(kids, i));
  }

  lemma {:induction false} SpreadHere(es: seq<Entry>, kids: seq<Tree>, base: nat, i: nat)
    requires Spread(es, kids, base) && i < |kids|
    ensures base + i < |es| && es[base + i] == EntryAt(kids, base, i)
  {
    assert Flatten(kids, base)[i] == EntryAt(kids, base, i);
  }

  /** Directory entries record where the streams were placed. */
  ghost predicate Starts(dir: seq<DirEntry>, es: seq<Entry>, p: Plan) {
    |es| <= |dir| && forall i :: 0 < i < |es| && !es[i].isStorage ==> dir[i].start == StreamStart(es, i, p.major)
  }

  /** A node read from the place of a stream is that stream's. */
  lemma {:induction false} StreamHere(dir: seq<DirEntry>, es: seq<Entry>, p: Plan, nodes: seq<Node>, kids: seq<Tree>, base: nat, i: nat)
    requires Starts(dir, es, p) && MirrorsAll(dir, nodes, kids, base) && Spread(es, kids, base) && 0 < base
    requires i < |kids| && kids[i].Stream?
    ensures StreamAt(nodes[i], es, p, base + i) && es[base + i].data == kids[i].data
  {
    SpreadHere(es, kids, base, i);
    assert Mirrors(dir, nodes[i], kids[i], base + i, FirstOf(kids, base, i));
  }

  ghost predicate Laying(dir: seq<DirEntry>, es: seq<Entry>, p: Plan, nodes: seq<Node>, kids: seq<Tree>, base: nat) {
    Starts(dir, es, p) && MirrorsAll(dir, nodes, kids, base) && Spread(es, kids, base) && 0 < base
  }

  lemma {:induction false} LayingInner(dir: seq<DirEntry>, es: seq<Entry>, p: Plan, nodes: seq<Node>, kids: seq<Tree>, base: nat, i: nat)
    requires Laying(dir, es, p, nodes, kids, base) && i < |kids| && kids[i].Dir?
    ensures Laying(dir, es, p, nodes[i].children, kids[i].kids, FirstOf(kids, base, i))
  {
    SpreadInner(es, kids, base, i);
    assert Mirrors(dir, nodes[i], kids[i], base + i, FirstOf(kids, base, i));
  }

  /** Every node stands where its tree was flattened to, with its links, and every stream has its
      bytes there. */
  ghost predicate Located(es: seq<Entry>, p: Plan, nodes: seq<Node>, kids: seq<Tree>, base: nat)
    decreases kids, |kids| + 1
  {
    |nodes| == |kids| && LocatedTo(es, p, nodes, kids, base, |kids|)
  }

  ghost predicate LocatedTo(es: seq<Entry>, p: Plan, nodes: seq<Node>, kids: seq<Tree>, base: nat, n: nat)
    requires n <= |kids| == |nodes|
    decreases kids, n
  {
    n == 0 || (&& LocatedTo(es, p, nodes, kids, base, n - 1)
               && LocatedAt(es, p, nodes[n - 1], kids[n - 1], base + (n - 1), FirstOf(kids, base, n - 1))
               && (nodes[n - 1].left, nodes[n - 1].right) == Links(0, |kids|, n - 1))
  }

  ghost predicate LocatedAt(es: seq<Entry>, p: Plan, x: Node, t: Tree, at: nat, first: nat)
    decreases t, 0
  {
    && x.meta == t.meta && x.isStorage == t.Dir?
    && (if t.Dir? then Located(es, p, x.children, t.kids, first) && x.treeRoot == Middle(0, |t.kids|)
        else StreamAt(x, es, p, at) && es[at].data == t.data)
  }

  lemma {:induction false} LayingAt(dir: seq<DirEntry>, es: seq<Entry>, p: Plan, nodes: seq<Node>, kids: seq<Tree>, base: nat, i: nat)
    requires Laying(dir, es, p, nodes, kids, base) && i < |kids|
    ensures |nodes| == |kids| && LocatedAt(es, p, nodes[i], kids[i], base + i, FirstOf(kids, base, i))
    ensures (nodes[i].left, nodes[i].right) == Links(0, |kids|, i)
    decreases kids, 0
  {
    assert Mirrors(dir, nodes[i], kids[i], base + i, FirstOf(kids, base, i));
    if kids[i].Dir? {
      LayingInner(dir, es, p, nodes, kids, base, i);
      LayingLocated(dir, es, p, nodes[i].children, kids[i].kids, FirstOf(kids, base, i), |kids[i].kids|);
    } else {
      StreamHere(dir, es, p, nodes, kids, base, i);
    }
  }

  lemma {:induction false} LocatedStep(es: seq<Entry>, p: Plan, nodes: seq<Node>, kids: seq<Tree>, base: nat, n: nat)
    requires n < |kids| == |nodes| && LocatedTo(es, p, nodes, kids, base, n)
    requires LocatedAt(es, p, nodes[n], kids[n], base + n, FirstOf(kids, base, n))
    requires (nodes[n].left, nodes[n].right) == Links(0, |kids|, n)
    ensures LocatedTo(es, p, nodes, kids, base, n + 1)
  {
  }

  lemma {:induction false} LayingLocated(dir: seq<DirEntry>, es: seq<Entry>, p: Plan, nodes: seq<Node>, kids: seq<Tree>, base: nat, n: nat)
    requires Laying(dir, es, p, nodes, kids, base) && n <= |kids|
    ensures |nodes| == |kids| && LocatedTo(es, p, nodes, kids, base, n)
    decreases kids, n + 1
  {
    hide LocatedAt, Links, FirstOf, Spread, Starts;
    if n > 0 {
      LayingLocated(dir, es, p, nodes, kids, base, n - 1);
      LayingAt(dir, es, p, nodes, kids, base, n - 1);
      LocatedStep(es, p, nodes, kids, base, n - 1);
    }
  }

  ghost predicate Matched(xs: seq<Node>, es: seq<Entry>, p: Plan, spots: seq<nat>) {
    |xs| == |spots| && forall k :: 0 <= k < |xs| ==> StreamAt(xs[k], es, p, spots[k])
  }

  lemma {:induction false} MatchedAppend(xs: seq<Node>, ys: seq<Node>, es: seq<Entry>, p: Plan, a: seq<nat>, b: seq<nat>)
    requires Matched(xs, es, p, a) && Matched(ys, es, p, b)
    ensures Matched(xs + ys, es, p, a + b)
  {
    forall k | 0 <= k < |xs + ys| ensures StreamAt((xs + ys)[k], es, p, (a + b)[k]) {
      if k < |xs| { assert StreamAt(xs[k], es, p, a[k]); } else { assert StreamAt(ys[k - |xs|], es, p, b[k - |xs|]); }
    }
  }

  lemma {:induction false} LocatedKid(es: seq<Entry>, p: Plan, nodes: seq<Node>, kids: seq<Tree>, base: nat, n: nat, i: nat)
    requires i < n <= |kids| == |nodes| && LocatedTo(es, p, nodes, kids, base, n)
    ensures LocatedAt(es, p, nodes[i], kids[i], base + i, FirstOf(kids, base, i))
    ensures (nodes[i].left, nodes[i].right) == Links(0, |kids|, i)
    decreases n
  {
    if i < n - 1 { LocatedKid(es, p, nodes, kids, base, n - 1, i); }
  }

  lemma {:induction false} DirectStep(es: seq<Entry>, p: Plan, nodes: seq<Node>, kids: seq<Tree>, base: nat, n: nat)
    requires n < |kids| == |nodes| && Matched(Direct(nodes, n), es, p, DirectSpots(kids, base, n))
    requires nodes[n].isStorage == kids[n].Dir? && (kids[n].Stream? ==> StreamAt(nodes[n], es, p, base + n))
    ensures Matched(Direct(nodes, n + 1), es, p, DirectSpots(kids, base, n + 1))
  {
    if kids[n].Stream? {
      MatchedAppend(Direct(nodes, n), [nodes[n]], es, p, DirectSpots(kids, base, n), [base + n]);
    }
  }

  lemma {:induction false} DirectMatched(es: seq<Entry>, p: Plan, nodes: seq<Node>, kids: seq<Tree>, base: nat, n: nat)
    requires n <= |kids| == |nodes| && LocatedTo(es, p, nodes, kids, base, n)
    ensures Matched(Direct(nodes, n), es, p, DirectSpots(kids, base, n))
    decreases n
  {
    if n > 0 {
      DirectMatched(es, p, nodes, kids, base, n - 1);
      DirectStep(es, p, nodes, kids, base, n - 1);
    }
  }

  lemma {:induction false} InnerStep(es: seq<Entry>, p: Plan, nodes: seq<Node>, kids: seq<Tree>, base: nat, n: nat)
    requires n < |kids| == |nodes| && Matched(Inner(nodes, n), es, p, InnerSpots(kids, base, n))
    requires nodes[n].isStorage == kids[n].Dir?
    requires kids[n].Dir? ==> Matched(StreamNodes(nodes[n].children), es, p, Spots(kids[n].kids, FirstOf(kids, base, n)))
    ensures Matched(Inner(nodes, n + 1), es, p, InnerSpots(kids, base, n + 1))
  {
    if kids[n].Dir? {
      MatchedAppend(Inner(nodes, n), StreamNodes(nodes[n].children), es, p,
                    InnerSpots(kids, base, n), Spots(kids[n].kids, FirstOf(kids, base, n)));
    }
  }

  lemma {:induction false} InnerMatched(es: seq<Entry>, p: Plan, nodes: seq<Node>, kids: seq<Tree>, base: nat, n: nat)
    requires n <= |kids| == |nodes| && LocatedTo(es, p, nodes, kids, base, n)
    ensures Matched(Inner(nodes, n), es, p, InnerSpots(kids, base, n))
    decreases kids, n
  {
    if n > 0 {
      InnerMatched(es, p, nodes, kids, base, n - 1);
      if kids[n - 1].Dir? {
        AllMatched(es, p, nodes[n - 1].children, kids[n - 1].kids, FirstOf(kids, base, n - 1));
      }
      InnerStep(es, p, nodes, kids, base, n - 1);
    }
  }

  lemma {:induction false} AllMatched(es: seq<Entry>, p: Plan, nodes: seq<Node>, kids: seq<Tree>, base: nat)
    requires Located(es, p, nodes, kids, base)
    ensures Matched(StreamNodes(nodes), es, p, Spots(kids, base))
    decreases kids, |kids| + 1
  {
    DirectMatched(es, p, nodes, kids, base, |kids|);
    InnerMatched(es, p, nodes, kids, base, |kids|);
    MatchedAppend(Direct(nodes, |nodes|), Inner(nodes, |nodes|), es, p, DirectSpots(kids, base, |kids|), InnerSpots(kids, base, |kids|));
  }

  /** Streams at rising positions of a written file can all be read. */
  lemma {:induction false} MatchedCompatible(pkg: Package, xs: seq<Node>, es: seq<Entry>, p: Plan, spots: seq<nat>, lo: nat, hi: nat)
    requires Serves(pkg, es, p) && Matched(xs, es, p, spots) && Rising(spots, lo, hi)
    ensures Compatible(pkg, xs)
  {
    forall k | 0 <= k < |xs| ensures Alone(pkg, xs[k]).Some? {
      StreamServed(pkg, es, p, xs[k], spots[k]);
    }
    forall j, k | 0 <= j < k < |xs| ensures Apart(pkg, xs[j], xs[k]) {
      StreamsApart(pkg, es, p, xs[j], spots[j], xs[k], spots[k]);
    }
  }

  /** All streams of a written file can be read from one model. */
  lemma {:induction false} WrittenReadable(pkg: Package, es: seq<Entry>, p: Plan, nodes: seq<Node>, kids: seq<Tree>, base: nat)
    requires Serves(pkg, es, p) && Located(es, p, nodes, kids, base)
    ensures Readable(pkg, nodes)
  {
    AllMatched(es, p, nodes, kids, base);
    SpotsRising(kids, base);
    MatchedCompatible(pkg, StreamNodes(nodes), es, p, Spots(kids, base), base, base + SizeAll(kids));
  }

  /** Every node of a stream reads that stream's bytes. */
  ghost predicate ReadsAll(pkg: Package, es: seq<Entry>, p: Plan)
    requires pkg.Valid()
  {
    forall x: Node, i: nat :: StreamAt(x, es, p, i) ==> Alone(pkg, x).Some? && Content(pkg.source, Alone(pkg, x).value) == es[i].data
  }

  lemma {:induction false} ServesReads(pkg: Package, es: seq<Entry>, p: Plan)
    requires Serves(pkg, es, p)
    ensures ReadsAll(pkg, es, p)
  {
    forall x: Node, i: nat | StreamAt(x, es, p, i)
      ensures Alone(pkg, x).Some? && Content(pkg.source, Alone(pkg, x).value) == es[i].data
    {
      StreamServed(pkg, es, p, x, i);
    }
  }

  lemma {:induction false} KidUnpacks(pkg: Package, es: seq<Entry>, p: Plan, nodes: seq<Node>, kids: seq<Tree>, base: nat, i: nat)
    requires pkg.Valid() && ReadsAll(pkg, es, p) && Located(es, p, nodes, kids, base) && i < |kids|
    ensures Unpack(pkg, nodes[i]) == kids[i]
    decreases kids, 0
  {
    LocatedKid(es, p, nodes, kids, base, |kids|, i);
    if kids[i].Dir? { UnpackBack(pkg, es, p, nodes[i].children, kids[i].kids, FirstOf(kids, base, i)); }
  }

  /** And the tree with their bytes is the one that was written. */
  lemma {:induction false} UnpackBack(pkg: Package, es: seq<Entry>, p: Plan, nodes: seq<Node>, kids: seq<Tree>, base: nat)
    requires pkg.Valid() && ReadsAll(pkg, es, p) && Located(es, p, nodes, kids, base)
    ensures UnpackAll(pkg, nodes) == kids
    decreases kids, 1
  {
    forall i | 0 <= i < |kids| ensures Unpack(pkg, nodes[i]) == kids[i] {
      KidUnpacks(pkg, es, p, nodes, kids, base, i);
    }
  }
}
