/** The bytes fed to the hash for a package's fingerprint, and that rebuilding keeps them. */
module CfbFingerprint {
  import opened Bytes
  import opened CfbModel
  import opened CfbTree
  import opened CfbDirectory
  import opened CfbCanon
  import opened Ordering

  // ── The raw order of names ─────────────────────────────────

  /** A unit as its two stored bytes compare: the low byte first. */
  function Swapped(u: CodeUnit): int {
    u % 256 * 256 + u / 256
  }

  function RawFrom(name: Name, from: nat): (k: seq<int>)
    requires from <= |name|
    ensures |k| == |name| - from && forall i :: 0 <= i < |k| ==> k[i] == Swapped(name[from + i])
    decreases |name| - from
  {
    if from == |name| then [] else [Swapped(name[from])] + RawFrom(name, from + 1)
  }

  function RawKey(name: Name): seq<int> {
    RawFrom(name, 0)
  }

  /** The raw order is the order of the keys. */
  method RawNameLess(a: Name, b: Name) returns (less: bool)
    ensures less <==> Lex(RawKey(a), RawKey(b)) < 0
  {
    var common := if |a| <= |b| then |a| else |b|;
    for i := 0 to common
      invariant Lex(RawKey(a), RawKey(b)) == Lex(RawFrom(a, i), RawFrom(b, i))
    {
      LexHead(Swapped(a[i]), RawFrom(a, i + 1), Swapped(b[i]), RawFrom(b, i + 1));
      if a[i] != b[i] {
        var lowA, lowB := a[i] % 256, b[i] % 256;
        if lowA != lowB {
          return lowA < lowB;
        }
        return a[i] / 256 < b[i] / 256;
      }
    }
    return |a| < |b|;
  }

  lemma {:induction false} SwappedInjective(u: CodeUnit, v: CodeUnit)
    requires Swapped(u) == Swapped(v)
    ensures u == v
  {
    assert u == u / 256 * 256 + u % 256 && v == v / 256 * 256 + v % 256;
  }

  lemma {:induction false} RawKeyInjective(a: Name, b: Name)
    requires RawKey(a) == RawKey(b)
    ensures a == b
  {
    forall i | 0 <= i < |a| ensures a[i] == b[i] {
      assert RawKey(a)[i] == RawKey(b)[i];
      SwappedInjective(a[i], b[i]);
    }
  }

  // ── What is fed to the hash ────────────────────────────────

  /** The bytes fed for one child, with the key that decides its turn. */
  datatype Fed = Fed(key: seq<int>, bytes: Buffer)

  function FedKey(f: Fed): seq<int> {
    f.key
  }

  function InTurn(f: seq<Fed>): Buffer {
    if f == [] then [] else f[0].bytes + InTurn(f[1..])
  }

  /** A stream's bytes; a storage's children in raw order, then its class identifier. */
  function Feed(t: Tree): Buffer
    decreases t, 0
  {
    if t.Stream? then t.data else FeedAll(t.kids) + t.meta.classId
  }

  function FedEach(kids: seq<Tree>): (f: seq<Fed>)
    ensures |f| == |kids| && forall i :: 0 <= i < |kids| ==> f[i] == Fed(RawKey(kids[i].meta.name), Feed(kids[i]))
    decreases kids, 1
  {
    seq(|kids|, i requires 0 <= i < |kids| => Fed(RawKey(kids[i].meta.name), Feed(kids[i])))
  }

  function FeedAll(kids: seq<Tree>): Buffer
    decreases kids, 2
  {
    InTurn(Sort(FedEach(kids), FedKey))
  }

  /** The package's own fingerprint leaves the signature streams out. */
  function FeedRoot(root: Tree): Buffer
    requires root.Dir?
  {
    FeedAll(Others(root.kids)) + root.meta.classId
  }

  // ── Rebuilding keeps it ────────────────────────────────────

  lemma {:induction false} DistinctNames(kids: seq<Tree>)
    requires DistinctKeys(kids, TreeKey)
    ensures DistinctKeys(FedEach(kids), FedKey)
  {
    var f := FedEach(kids);
    forall i, j | 0 <= i < j < |f| ensures FedKey(f[i]) != FedKey(f[j]) {
      if RawKey(kids[i].meta.name) == RawKey(kids[j].meta.name) {
        RawKeyInjective(kids[i].meta.name, kids[j].meta.name);
        assert false;
      }
    }
  }

  /** FedEach of a sequence with one element put somewhere. */
  lemma {:induction false} FedSplit(kids: seq<Tree>)
    requires kids != []
    ensures FedEach(kids) == [Fed(RawKey(kids[0].meta.name), Feed(kids[0]))] + FedEach(kids[1..])
  {
  }

  lemma {:induction false} FedInsert(t: Tree, s: seq<Tree>)
    ensures multiset(FedEach(Insert(t, s, TreeKey))) == multiset{Fed(RawKey(t.meta.name), Feed(t))} + multiset(FedEach(s))
  {
    var r := Insert(t, s, TreeKey);
    FedSplit(r);
    if s == [] || Lex(TreeKey(t), TreeKey(s[0])) <= 0 {
      assert r[1..] == s;
    } else {
      assert r[1..] == Insert(t, s[1..], TreeKey);
      FedInsert(t, s[1..]);
      FedSplit(s);
    }
  }

  lemma {:induction false} FedSort(s: seq<Tree>)
    ensures multiset(FedEach(Sort(s, TreeKey))) == multiset(FedEach(s))
  {
    if s != [] {
      FedSort(s[1..]);
      FedInsert(s[0], Sort(s[1..], TreeKey));
      FedSplit(s);
    }
  }

  lemma {:induction false} FeedCanon(t: Tree)
    requires t.Dir? ==> UniqueNames(t.kids)
    ensures Feed(Canon(t)) == Feed(t)
    decreases t, 0
  {
    if t.Dir? { FeedCanonAll(t.kids); }
  }

  lemma {:induction false} FedCanon(kids: seq<Tree>)
    requires UniqueNames(kids)
    ensures FedEach(CanonEach(kids)) == FedEach(kids)
    decreases kids, 1
  {
    forall i | 0 <= i < |kids| ensures Feed(CanonEach(kids)[i]) == Feed(kids[i]) {
      FeedCanon(kids[i]);
    }
  }

  /** Putting every storage into order feeds the same bytes. */
  lemma {:induction false} FeedCanonAll(kids: seq<Tree>)
    requires UniqueNames(kids)
    ensures FeedAll(CanonAll(kids)) == FeedAll(kids)
    decreases kids, 2
  {
    FedCanon(kids);
    FedSort(CanonEach(kids));
    DistinctNames(kids);
    SortOfPermutation(FedEach(kids), FedEach(CanonAll(kids)), FedKey);
  }

  lemma {:induction false} FedOfPermutation(s: seq<Tree>, t: seq<Tree>)
    requires multiset(s) == multiset(t)
    ensures multiset(FedEach(s)) == multiset(FedEach(t))
  {
    hide Feed, RawKey;
    ImagesOfPermutation(s, t, FedEach(s), FedEach(t), (x: Tree) => Fed(RawKey(x.meta.name), Feed(x)));
  }

  /** The entries of the wanted tree that are not signatures are those of the original. */
  lemma {:induction false} OthersOfWanted(kids: seq<Tree>, signature: Option<Buffer>)
    ensures multiset(Others(CanonAll(RootKids(kids, signature)))) == multiset(CanonEach(Others(kids)))
  {
    var w := CanonAll(RootKids(kids, signature));
    EachOfRootKids(kids, signature);
    forall t ensures multiset(Others(w))[t] == multiset(CanonEach(Others(kids)))[t] {
      OthersCount(w, t);
      if IsSignature(t) && t in multiset(CanonEach(Others(kids))) {
        var i :| 0 <= i < |Others(kids)| && Canon(Others(kids)[i]) == t;
        OthersMember(kids, Others(kids)[i]);
        assert false;
      }
    }
  }

  lemma {:induction false} EachSplit(kids: seq<Tree>)
    requires kids != []
    ensures CanonEach(kids) == [Canon(kids[0])] + CanonEach(kids[1..])
  {
  }

  lemma {:induction false} EachOfInsert(t: Tree, s: seq<Tree>)
    ensures multiset(CanonEach(Insert(t, s, TreeKey))) == multiset{Canon(t)} + multiset(CanonEach(s))
  {
    var r := Insert(t, s, TreeKey);
    EachSplit(r);
    if s == [] || Lex(TreeKey(t), TreeKey(s[0])) <= 0 {
      assert r[1..] == s;
    } else {
      assert r[1..] == Insert(t, s[1..], TreeKey);
      EachOfInsert(t, s[1..]);
      EachSplit(s);
    }
  }

  lemma {:induction false} EachOfRootKids(kids: seq<Tree>, signature: Option<Buffer>)
    ensures multiset(CanonAll(RootKids(kids, signature)))
         == multiset(CanonEach(Others(kids))) + (if signature.Some? then multiset{SignatureStream(signature.value)} else multiset{})
  {
    if signature.Some? { EachOfInsert(SignatureStream(signature.value), Others(kids)); }
  }

  /** No name stands twice in the root or in a storage that is hashed; a signature's entry is not looked into. */
  ghost predicate OnceNamed(kids: seq<Tree>) {
    DistinctKeys(kids, TreeKey) && UniqueNames(Others(kids))
  }

  lemma {:induction false} OthersUnique(kids: seq<Tree>)
    requires UniqueNames(kids)
    ensures UniqueNames(Others(kids))
    decreases |kids|
  {
    hide TreeKey;
    if kids != [] {
      var rest := kids[1..];
      OthersUnique(rest);
      if !IsSignature(kids[0]) {
        var o := Others(kids);
        assert o == [kids[0]] + Others(rest);
        forall j | 1 <= j < |o| ensures TreeKey(o[0]) != TreeKey(o[j]) {
          assert o[j] in Others(rest);
          OthersMember(rest, o[j]);
          var k :| 0 <= k < |rest| && rest[k] == o[j];
          assert kids[k + 1] == rest[k];
        }
        forall i, j | 0 <= i < j < |o| ensures TreeKey(o[i]) != TreeKey(o[j]) {
          if i > 0 { assert o[i] == Others(rest)[i - 1] && o[j] == Others(rest)[j - 1]; }
        }
        forall i | 0 <= i < |o| && o[i].Dir? ensures UniqueNames(o[i].kids) {
          if i > 0 { assert o[i] == Others(rest)[i - 1]; }
        }
      }
    }
  }

  /** Whatever signature is put in, and also when none is, the rebuilt tree feeds the same bytes. */
  lemma {:induction false} FeedKept(root: Tree, signature: Option<Buffer>)
    requires root.Dir? && UniqueNames(Others(root.kids))
    ensures FeedRoot(Wanted(root, signature)) == FeedRoot(root)
  {
    var o := Others(root.kids);
    var w := Others(Wanted(root, signature).kids);
    OthersOfWanted(root.kids, signature);
    FedOfPermutation(w, CanonEach(o));
    FedCanon(o);
    DistinctNames(o);
    SortOfPermutation(FedEach(o), FedEach(w), FedKey);
  }
}
