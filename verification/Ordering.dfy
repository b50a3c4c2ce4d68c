/** Lexicographic order of integer sequences, and sorting by a key in that order. */
module Ordering {

  /** Three-way lexicographic comparison: -1, 0 or 1; a proper prefix comes first. */
  function Lex(a: seq<int>, b: seq<int>): (r: int)
    ensures -1 <= r <= 1
    ensures r == 0 <==> a == b
  {
    if a == [] then (if b == [] then 0 else -1)
    else if b == [] then 1
    else if a[0] != b[0] then (if a[0] < b[0] then -1 else 1)
    else
      assert a == [a[0]] + a[1..] && b == [b[0]] + b[1..];
      Lex(a[1..], b[1..])
  }

  lemma {:induction false} LexFlip(a: seq<int>, b: seq<int>)
    ensures Lex(a, b) == -Lex(b, a)
  {
    if a != [] && b != [] && a[0] == b[0] {
      LexFlip(a[1..], b[1..]);
    }
  }

  lemma {:induction false} LexTrans(a: seq<int>, b: seq<int>, c: seq<int>)
    requires Lex(a, b) < 0 && Lex(b, c) < 0
    ensures Lex(a, c) < 0
  {
    if a != [] && a[0] == b[0] && b[0] == c[0] {
      LexTrans(a[1..], b[1..], c[1..]);
    }
  }

  type Key<!T> = T -> seq<int>

  /** Strictly increasing by key; in particular no two keys are equal. */
  ghost predicate Increasing<T>(s: seq<T>, key: Key<T>) {
    forall i, j :: 0 <= i < j < |s| ==> Lex(key(s[i]), key(s[j])) < 0
  }

  ghost predicate DistinctKeys<T>(s: seq<T>, key: Key<T>) {
    forall i, j :: 0 <= i < j < |s| ==> key(s[i]) != key(s[j])
  }

  function Insert<T>(x: T, s: seq<T>, key: Key<T>): (r: seq<T>)
    ensures multiset(r) == multiset{x} + multiset(s)
  {
    if s == [] || Lex(key(x), key(s[0])) <= 0 then [x] + s
    else
      assert s == [s[0]] + s[1..];
      [s[0]] + Insert(x, s[1..], key)
  }

  /** A stable sort by key. */
  function Sort<T>(s: seq<T>, key: Key<T>): (r: seq<T>)
    ensures multiset(r) == multiset(s)
    ensures |r| == |s|
  {
    if s == [] then []
    else
      assert s == [s[0]] + s[1..];
      var r := Insert(s[0], Sort(s[1..], key), key);
      assert |multiset(r)| == |r| && |multiset(s)| == |s|;
      r
  }

  lemma {:induction false} InSeqInMultiset<T>(s: seq<T>, t: seq<T>, x: T)
    requires multiset(s) == multiset(t) && x in s
    ensures x in t
  {
    assert x in multiset(s);
  }

  lemma {:induction false} InsertIncreasing<T>(x: T, s: seq<T>, key: Key<T>)
    requires Increasing(s, key)
    requires forall y :: y in s ==> key(y) != key(x)
    ensures Increasing(Insert(x, s, key), key)
  {
    if s == [] {
    } else if Lex(key(x), key(s[0])) <= 0 {
      forall j | 0 <= j < |s| ensures Lex(key(x), key(s[j])) < 0 {
        assert s[0] in s;
        if j > 0 { LexTrans(key(x), key(s[0]), key(s[j])); }
      }
    } else {
      InsertIncreasing(x, s[1..], key);
      var r := Insert(x, s[1..], key);
      forall j | 0 <= j < |r| ensures Lex(key(s[0]), key(r[j])) < 0 {
        assert r[j] in multiset(r);
        if r[j] == x {
          LexFlip(key(x), key(s[0]));
        } else {
          assert r[j] in s[1..];
        }
      }
    }
  }

  /** With distinct keys the sort is strictly increasing. */
  lemma {:induction false} SortIncreasing<T>(s: seq<T>, key: Key<T>)
    requires DistinctKeys(s, key)
    ensures Increasing(Sort(s, key), key)
  {
    if s != [] {
      SortIncreasing(s[1..], key);
      var t := Sort(s[1..], key);
      forall y | y in t ensures key(y) != key(s[0]) {
        InSeqInMultiset(t, s[1..], y);
        var j :| 0 <= j < |s[1..]| && s[1..][j] == y;
        assert y == s[j + 1];
      }
      InsertIncreasing(s[0], t, key);
    }
  }

  /** A sequence already in order is its own sort. */
  lemma {:induction false} SortIdentity<T>(s: seq<T>, key: Key<T>)
    requires Increasing(s, key)
    ensures Sort(s, key) == s
  {
    if s != [] {
      SortIdentity(s[1..], key);
      assert s == [s[0]] + s[1..];
      assert s[1..] != [] ==> s[1..][0] == s[1];
    }
  }

  lemma {:induction false} HeadsAgree<T>(s: seq<T>, t: seq<T>, key: Key<T>)
    requires Increasing(s, key) && Increasing(t, key)
    requires s != [] && s[0] in t && t != [] && t[0] in s
    ensures s[0] == t[0]
  {
    var i :| 0 <= i < |t| && t[i] == s[0];
    var j :| 0 <= j < |s| && s[j] == t[0];
    LexFlip(key(s[0]), key(t[0]));
  }

  lemma {:induction false} TailMultiset<T>(s: seq<T>)
    requires s != []
    ensures multiset(s[1..]) == multiset(s) - multiset{s[0]}
  {
    assert s == [s[0]] + s[1..];
  }

  lemma {:induction false} TailIncreasing<T>(s: seq<T>, key: Key<T>)
    requires s != [] && Increasing(s, key)
    ensures Increasing(s[1..], key)
  {
  }

  /** Two strictly increasing arrangements of one multiset are the same sequence. */
  lemma {:induction false} IncreasingUnique<T>(s: seq<T>, t: seq<T>, key: Key<T>)
    requires Increasing(s, key) && Increasing(t, key)
    requires multiset(s) == multiset(t)
    ensures s == t
    decreases |s|
  {
    if s == [] {
      assert |t| == |multiset(t)| == 0;
    } else {
      InSeqInMultiset(s, t, s[0]);
      InSeqInMultiset(t, s, t[0]);
      HeadsAgree(s, t, key);
      assert s[1..] == t[1..] by {
        TailMultiset(s);
        TailMultiset(t);
        TailIncreasing(s, key);
        TailIncreasing(t, key);
        IncreasingUnique(s[1..], t[1..], key);
      }
      assert s == [s[0]] + s[1..] && t == [t[0]] + t[1..];
    }
  }

  /** The sort depends only on the multiset when keys are distinct. */
  lemma {:induction false} SortOfPermutation<T>(s: seq<T>, t: seq<T>, key: Key<T>)
    requires DistinctKeys(s, key) && multiset(s) == multiset(t)
    ensures Sort(s, key) == Sort(t, key)
    ensures DistinctKeys(t, key)
  {
    SortIncreasing(s, key);
    DistinctOfPermutation(s, t, key);
    SortIncreasing(t, key);
    IncreasingUnique(Sort(s, key), Sort(t, key), key);
  }

  lemma {:induction false} DistinctOfPermutation<T>(s: seq<T>, t: seq<T>, key: Key<T>)
    requires DistinctKeys(s, key) && multiset(s) == multiset(t)
    ensures DistinctKeys(t, key)
  {
    forall i, j | 0 <= i < j < |t| ensures key(t[i]) != key(t[j]) {
      if key(t[i]) == key(t[j]) {
        if t[i] == t[j] {
          assert t == t[..i] + [t[i]] + t[i + 1..j] + [t[j]] + t[j + 1..];
          var a, b := TwoPlaces(s, t[i]);
        } else {
          InSeqInMultiset(t, s, t[i]);
          InSeqInMultiset(t, s, t[j]);
        }
        assert false;
      }
    }
  }

  /** An element counted twice stands at two places. */
  lemma {:induction false} TwoPlaces<T>(s: seq<T>, x: T) returns (i: nat, j: nat)
    requires multiset(s)[x] >= 2
    ensures i < j < |s| && s[i] == x && s[j] == x
  {
    assert s == [s[0]] + s[1..];
    if s[0] == x {
      assert x in multiset(s[1..]);
      j :| 0 <= j < |s[1..]| && s[1..][j] == x;
      i, j := 0, j + 1;
    } else {
      i, j := TwoPlaces(s[1..], x);
      i, j := i + 1, j + 1;
    }
  }

  // ── With keys that may repeat ──────────────────────────────

  /** Non-decreasing by key. */
  ghost predicate Rises<T>(s: seq<T>, key: Key<T>) {
    forall i, j :: 0 <= i < j < |s| ==> Lex(key(s[i]), key(s[j])) <= 0
  }

  lemma {:induction false} InsertRises<T>(x: T, s: seq<T>, key: Key<T>)
    requires Rises(s, key)
    ensures Rises(Insert(x, s, key), key)
  {
    if s == [] {
    } else if Lex(key(x), key(s[0])) <= 0 {
      forall j | 0 <= j < |s| ensures Lex(key(x), key(s[j])) <= 0 {
        if j > 0 && Lex(key(x), key(s[0])) < 0 && Lex(key(s[0]), key(s[j])) < 0 { LexTrans(key(x), key(s[0]), key(s[j])); }
      }
    } else {
      InsertRises(x, s[1..], key);
      var r := Insert(x, s[1..], key);
      forall j | 0 <= j < |r| ensures Lex(key(s[0]), key(r[j])) <= 0 {
        assert r[j] in multiset(r);
        if r[j] == x {
          LexFlip(key(x), key(s[0]));
        } else {
          assert r[j] in s[1..];
        }
      }
    }
  }

  lemma {:induction false} SortRises<T>(s: seq<T>, key: Key<T>)
    ensures Rises(Sort(s, key), key)
  {
    if s != [] {
      SortRises(s[1..], key);
      InsertRises(s[0], Sort(s[1..], key), key);
    }
  }

  /** In a sorted sequence it is enough to compare neighbours. */
  lemma {:induction false} NeighboursDiffer<T>(s: seq<T>, key: Key<T>)
    requires Rises(s, key) && forall i :: 1 <= i < |s| ==> key(s[i - 1]) != key(s[i])
    ensures DistinctKeys(s, key)
  {
    forall i, j | 0 <= i < j < |s| ensures key(s[i]) != key(s[j]) {
      assert key(s[j - 1]) != key(s[j]);
      if i < j - 1 && key(s[i]) == key(s[j]) { LexFlip(key(s[i]), key(s[j - 1])); }
    }
  }

  /** Whatever relates two sequences with the same keys element by element relates them sorted. */
  ghost predicate Alike<T(!new), U(!new)>(s: seq<T>, t: seq<U>, key: Key<T>, other: Key<U>, related: (T, U) -> bool) {
    |s| == |t| && forall i :: 0 <= i < |s| ==> key(s[i]) == other(t[i]) && related(s[i], t[i])
  }

  lemma {:induction false} AlikeCons<T(!new), U(!new)>(x: T, y: U, s: seq<T>, t: seq<U>, key: Key<T>, other: Key<U>, related: (T, U) -> bool)
    requires key(x) == other(y) && related(x, y) && Alike(s, t, key, other, related)
    ensures Alike([x] + s, [y] + t, key, other, related)
  {
  }

  lemma {:induction false} AlikeTail<T(!new), U(!new)>(s: seq<T>, t: seq<U>, key: Key<T>, other: Key<U>, related: (T, U) -> bool)
    requires Alike(s, t, key, other, related) && s != []
    ensures t != [] && key(s[0]) == other(t[0]) && related(s[0], t[0]) && Alike(s[1..], t[1..], key, other, related)
  {
  }

  lemma {:induction false} InsertAlike<T(!new), U(!new)>(x: T, y: U, s: seq<T>, t: seq<U>, key: Key<T>, other: Key<U>, related: (T, U) -> bool)
    requires key(x) == other(y) && related(x, y) && Alike(s, t, key, other, related)
    ensures Alike(Insert(x, s, key), Insert(y, t, other), key, other, related)
  {
    if s == [] {
      assert |t| == 0;
      AlikeCons(x, y, s, t, key, other, related);
    } else {
      AlikeTail(s, t, key, other, related);
      hide Alike;
      if Lex(key(x), key(s[0])) <= 0 {
        AlikeCons(x, y, s, t, key, other, related);
      } else {
        InsertAlike(x, y, s[1..], t[1..], key, other, related);
        AlikeCons(s[0], t[0], Insert(x, s[1..], key), Insert(y, t[1..], other), key, other, related);
      }
    }
  }

  lemma {:induction false} SortAlike<T(!new), U(!new)>(s: seq<T>, t: seq<U>, key: Key<T>, other: Key<U>, related: (T, U) -> bool)
    requires Alike(s, t, key, other, related)
    ensures Alike(Sort(s, key), Sort(t, other), key, other, related)
  {
    if s != [] {
      SortAlike(s[1..], t[1..], key, other, related);
      InsertAlike(s[0], t[0], Sort(s[1..], key), Sort(t[1..], other), key, other, related);
    }
  }

  // ── Permutations under a function ──────────────────────────

  lemma {:induction false} WithoutOne<T>(t: seq<T>, k: nat)
    requires k < |t|
    ensures multiset(t[..k] + t[k + 1..]) == multiset(t) - multiset{t[k]}
  {
    assert t == t[..k] + [t[k]] + t[k + 1..];
  }

  ghost predicate Maps<T(!new), U>(s: seq<T>, x: seq<U>, f: T -> U) {
    |x| == |s| && forall i :: 0 <= i < |s| ==> x[i] == f(s[i])
  }

  lemma {:induction false} MapsWithout<T(!new), U>(s: seq<T>, x: seq<U>, f: T -> U, k: nat)
    requires k < |s| && Maps(s, x, f)
    ensures k < |x| && x[k] == f(s[k]) && Maps(s[..k] + s[k + 1..], x[..k] + x[k + 1..], f)
  {
  }

  lemma {:induction false} PutBack<T>(t: seq<T>, k: nat)
    requires k < |t|
    ensures multiset(t) == multiset(t[..k] + t[k + 1..]) + multiset{t[k]}
  {
    assert t == t[..k] + [t[k]] + t[k + 1..];
  }

  /** The images of two permutations are permutations. */
  lemma {:induction false} ImagesOfPermutation<T(!new), U>(a: seq<T>, b: seq<T>, x: seq<U>, y: seq<U>, f: T -> U)
    requires multiset(a) == multiset(b) && Maps(a, x, f) && Maps(b, y, f)
    ensures multiset(x) == multiset(y)
    decreases |a|
  {
    if a == [] {
      assert |b| == |multiset(b)| == 0;
    } else {
      InSeqInMultiset(a, b, a[0]);
      var k :| 0 <= k < |b| && b[k] == a[0];
      MapsWithout(a, x, f, 0);
      MapsWithout(b, y, f, k);
      WithoutOne(a, 0);
      WithoutOne(b, k);
      PutBack(x, 0);
      PutBack(y, k);
      hide Maps;
      ImagesOfPermutation(a[..0] + a[1..], b[..k] + b[k + 1..], x[..0] + x[1..], y[..k] + y[k + 1..], f);
    }
  }
}
