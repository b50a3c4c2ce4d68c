/** The canonical tree of a package: every storage in the format's order, the signature replaced. */
module CfbCanon {
  import opened Bytes
  import opened CfbModel
  import opened CfbTree
  import opened CfbDirectory
  import opened Ordering

  // ── Canonical order ────────────────────────────────────────

  function TreeKey(t: Tree): seq<int> {
    NameKey(t.meta.name)
  }

  function Canon(t: Tree): (c: Tree)
    ensures c.meta == t.meta && c.Dir? == t.Dir?
    decreases t, 0
  {
    if t.Dir? then Dir(t.meta, CanonAll(t.kids)) else t
  }

  function CanonEach(kids: seq<Tree>): (r: seq<Tree>)
    ensures |r| == |kids| && forall i :: 0 <= i < |kids| ==> r[i] == Canon(kids[i])
    decreases kids, 1
  {
    seq(|kids|, i requires 0 <= i < |kids| => Canon(kids[i]))
  }

  /** Every storage's entries sorted by name. */
  function CanonAll(kids: seq<Tree>): seq<Tree>
    decreases kids, 2
  {
    Sort(CanonEach(kids), TreeKey)
  }

  /** No storage holds two entries the format's order treats as one name. */
  ghost predicate UniqueNames(kids: seq<Tree>) {
    DistinctKeys(kids, TreeKey) && forall i :: 0 <= i < |kids| && kids[i].Dir? ==> UniqueNames(kids[i].kids)
  }

  /** Every storage's entries strictly in order. */
  ghost predicate Ordered(kids: seq<Tree>) {
    Increasing(kids, TreeKey) && forall i :: 0 <= i < |kids| && kids[i].Dir? ==> Ordered(kids[i].kids)
  }

  ghost predicate OrderedTree(t: Tree) {
    t.Dir? ==> Ordered(t.kids)
  }

  lemma {:induction false} EachDistinct(kids: seq<Tree>)
    requires DistinctKeys(kids, TreeKey)
    ensures DistinctKeys(CanonEach(kids), TreeKey)
  {
    var c := CanonEach(kids);
    forall i, j | 0 <= i < j < |c| ensures TreeKey(c[i]) != TreeKey(c[j]) {
      assert TreeKey(kids[i]) != TreeKey(kids[j]);
    }
  }

  /** A property of every element survives sorting. */
  lemma {:induction false} SortKeepsOrdered(s: seq<Tree>)
    requires DistinctKeys(s, TreeKey) && forall i :: 0 <= i < |s| ==> OrderedTree(s[i])
    ensures Ordered(Sort(s, TreeKey))
  {
    var r := Sort(s, TreeKey);
    SortIncreasing(s, TreeKey);
    forall i | 0 <= i < |r| && r[i].Dir? ensures Ordered(r[i].kids) {
      InSeqInMultiset(r, s, r[i]);
      assert OrderedTree(r[i]);
    }
  }

  /** Canonical form is in order. */
  lemma {:induction false} CanonOrdered(kids: seq<Tree>)
    requires UniqueNames(kids)
    ensures Ordered(CanonAll(kids))
    decreases kids
  {
    var c := CanonEach(kids);
    EachDistinct(kids);
    forall i | 0 <= i < |c| ensures OrderedTree(c[i]) {
      if kids[i].Dir? { CanonOrdered(kids[i].kids); }
    }
    SortKeepsOrdered(c);
  }

  lemma {:induction false} OrderedCanon(t: Tree)
    requires OrderedTree(t)
    ensures Canon(t) == t
    decreases t, 0
  {
    if t.Dir? { CanonFixed(t.kids); }
  }

  lemma {:induction false} EachFixed(kids: seq<Tree>)
    requires forall i :: 0 <= i < |kids| ==> OrderedTree(kids[i])
    ensures CanonEach(kids) == kids
    decreases kids, 1
  {
    forall i | 0 <= i < |kids| ensures Canon(kids[i]) == kids[i] {
      OrderedCanon(kids[i]);
    }
  }

  /** A tree in order is its own canonical form. */
  lemma {:induction false} CanonFixed(kids: seq<Tree>)
    requires Ordered(kids)
    ensures CanonAll(kids) == kids
    decreases kids, 2
  {
    EachFixed(kids);
    SortIdentity(kids, TreeKey);
  }

  lemma {:induction false} IncreasingDistinct(kids: seq<Tree>)
    requires Increasing(kids, TreeKey)
    ensures DistinctKeys(kids, TreeKey)
  {
  }

  lemma {:induction false} OrderedUnique(kids: seq<Tree>)
    requires Ordered(kids)
    ensures UniqueNames(kids)
    decreases kids
  {
    IncreasingDistinct(kids);
    forall i | 0 <= i < |kids| && kids[i].Dir? ensures UniqueNames(kids[i].kids) {
      OrderedUnique(kids[i].kids);
    }
  }

  // ── The signature ──────────────────────────────────────────

  function Units(text: string): (name: Name)
    requires forall i :: 0 <= i < |text| ==> text[i] as int < 0x1_0000
    ensures |name| == |text|
  {
    seq(|text|, i requires 0 <= i < |text| => text[i] as int)
  }

  const SIGNATURE_NAME: Name := [5] + Units("DigitalSignature")
  const SIGNATURE_EX_NAME: Name := [5] + Units("MsiDigitalSignatureEx")

  predicate IsSignature(t: Tree) {
    t.meta.name == SIGNATURE_NAME || t.meta.name == SIGNATURE_EX_NAME
  }

  function SignatureStream(data: Buffer): Tree {
    Stream(Meta(SIGNATURE_NAME, Zeros(16), 0, 0, 0), data)
  }

  /** Everything but the signature streams. */
  function Others(kids: seq<Tree>): seq<Tree> {
    if kids == [] then [] else (if IsSignature(kids[0]) then [] else [kids[0]]) + Others(kids[1..])
  }

  /** The root's entries in the new package: the old signature dropped, the new one put in. */
  function RootKids(kids: seq<Tree>, signature: Option<Buffer>): seq<Tree> {
    match signature
    case None => Others(kids)
    case Some(data) => Insert(SignatureStream(data), Others(kids), TreeKey)
  }

  /** The tree the writer means to write. */
  function Wanted(root: Tree, signature: Option<Buffer>): Tree
    requires root.Dir?
  {
    Dir(root.meta, CanonAll(RootKids(root.kids, signature)))
  }

  /** Others keeps what is not a signature, as often as it was there. */
  lemma {:induction false} OthersCount(kids: seq<Tree>, t: Tree)
    ensures multiset(Others(kids))[t] == if IsSignature(t) then 0 else multiset(kids)[t]
  {
    if kids != [] {
      OthersCount(kids[1..], t);
      assert kids == [kids[0]] + kids[1..];
    }
  }

  lemma {:induction false} OthersMember(kids: seq<Tree>, t: Tree)
    requires t in Others(kids)
    ensures t in kids && !IsSignature(t)
  {
    assert t in multiset(Others(kids));
    OthersCount(kids, t);
    assert t in multiset(kids);
  }

  /** The multiset of the root's entries, with the new signature counted separately. */
  lemma {:induction false} RootKidsBag(kids: seq<Tree>, signature: Option<Buffer>)
    ensures multiset(RootKids(kids, signature))
         == multiset(Others(kids)) + (if signature.Some? then multiset{SignatureStream(signature.value)} else multiset{})
  {
  }

  lemma {:induction false} SortedMember(kids: seq<Tree>, t: Tree)
    requires t in CanonAll(kids)
    ensures exists i :: 0 <= i < |kids| && t == Canon(kids[i])
  {
    InSeqInMultiset(CanonAll(kids), CanonEach(kids), t);
    var i :| 0 <= i < |kids| && CanonEach(kids)[i] == t;
  }

  /** A signature in the wanted tree is the new one. */
  lemma {:induction false} OnlyNewSignature(kids: seq<Tree>, signature: Option<Buffer>, t: Tree)
    requires t in CanonAll(RootKids(kids, signature)) && IsSignature(t)
    ensures signature.Some? && t == SignatureStream(signature.value)
  {
    SortedMember(RootKids(kids, signature), t);
    var i :| 0 <= i < |RootKids(kids, signature)| && t == Canon(RootKids(kids, signature)[i]);
    var u := RootKids(kids, signature)[i];
    RootKidsBag(kids, signature);
    assert u in multiset(RootKids(kids, signature));
    if u in multiset(Others(kids)) {
      OthersCount(kids, u);
      assert false;
    }
  }

  lemma {:induction false} NewSignatureOnce(w: seq<Tree>, signature: Option<Buffer>)
    requires DistinctKeys(w, TreeKey)
    requires forall t :: t in w && IsSignature(t) ==> signature.Some? && t == SignatureStream(signature.value)
    requires signature.Some? ==> SignatureStream(signature.value) in w
    ensures multiset(RootKids(w, signature)) == multiset(w)
  {
    RootKidsBag(w, signature);
    forall t ensures multiset(RootKids(w, signature))[t] == multiset(w)[t] {
      OthersCount(w, t);
      if IsSignature(t) && t in multiset(w) {
        AtMostOnce(w, t);
      }
    }
  }

  lemma {:induction false} AtMostOnce(w: seq<Tree>, t: Tree)
    requires DistinctKeys(w, TreeKey)
    ensures multiset(w)[t] <= 1
  {
    if multiset(w)[t] >= 2 {
      var i, j := TwoPlaces(w, t);
      assert false;
    }
  }

  lemma {:induction false} NewSignatureKept(kids: seq<Tree>, data: Buffer)
    ensures SignatureStream(data) in CanonAll(RootKids(kids, Some(data)))
  {
    var s := SignatureStream(data);
    var r := RootKids(kids, Some(data));
    RootKidsBag(kids, Some(data));
    assert s in multiset(r);
    var i :| 0 <= i < |r| && r[i] == s;
    assert CanonEach(r)[i] == s;
    InSeqInMultiset(CanonEach(r), CanonAll(r), s);
  }

  lemma {:induction false} PermutedCanon(s: seq<Tree>, w: seq<Tree>)
    requires Ordered(w) && multiset(s) == multiset(w)
    ensures CanonAll(s) == w && UniqueNames(s)
  {
    forall i | 0 <= i < |s| ensures OrderedTree(s[i]) {
      InSeqInMultiset(s, w, s[i]);
    }
    EachFixed(s);
    IncreasingDistinct(w);
    SortOfPermutation(w, s, TreeKey);
    SortIdentity(w, TreeKey);
    forall i | 0 <= i < |s| && s[i].Dir? ensures UniqueNames(s[i].kids) {
      OrderedUnique(s[i].kids);
    }
  }

  /** What the writer wants of a package it wrote, with the same signature, is that package. */
  lemma {:induction false} WantedFixed(root: Tree, signature: Option<Buffer>)
    requires root.Dir? && UniqueNames(RootKids(root.kids, signature))
    ensures Ordered(Wanted(root, signature).kids)
    ensures Wanted(Wanted(root, signature), signature) == Wanted(root, signature)
    ensures UniqueNames(RootKids(Wanted(root, signature).kids, signature))
  {
    var w := Wanted(root, signature).kids;
    CanonOrdered(RootKids(root.kids, signature));
    IncreasingDistinct(w);
    forall t | t in w && IsSignature(t) ensures signature.Some? && t == SignatureStream(signature.value) {
      OnlyNewSignature(root.kids, signature, t);
    }
    if signature.Some? { NewSignatureKept(root.kids, signature.value); }
    NewSignatureOnce(w, signature);
    PermutedCanon(RootKids(w, signature), w);
  }
}
