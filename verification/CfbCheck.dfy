/** The comparison of two streams held in pieces that are cut differently. */
module CfbCheck {
  import opened Bytes

  /** Bytes of the pieces before the position `used` of the i-th. */
  ghost function Before(a: seq<Buffer>, i: nat, used: nat): Buffer
    requires i <= |a| && (i < |a| ==> used <= |a[i]|) && (i == |a| ==> used == 0)
  {
    Join(a[..i]) + if i < |a| then a[i][..used] else []
  }

  lemma {:induction false} BeforeIsPrefix(a: seq<Buffer>, i: nat, used: nat)
    requires i <= |a| && (i < |a| ==> used <= |a[i]|) && (i == |a| ==> used == 0)
    ensures |Before(a, i, used)| <= |Join(a)| && Join(a)[..|Before(a, i, used)|] == Before(a, i, used)
  {
    if i < |a| {
      JoinSlice(a, i);
      JoinPrefix(a, i);
      var n := |Join(a[..i])|;
      SliceSlice(Join(a), n, n + |a[i]|, 0, used);
      assert Join(a)[..n + used] == Join(a)[..n] + Join(a)[n..n + used];
    } else {
      assert a[..i] == a;
      assert Join(a) + [] == Join(a);
    }
  }

  lemma {:induction false} JoinPrefix<T>(a: seq<seq<T>>, i: nat)
    requires i <= |a|
    ensures |Join(a[..i])| <= |Join(a)| && Join(a)[..|Join(a[..i])|] == Join(a[..i])
    decreases |a|
  {
    var n := |a| - 1;
    if i == |a| {
      assert a[..i] == a;
    } else {
      assert a[..n][..i] == a[..i];
      JoinPrefix(a[..n], i);
    }
  }

  /** One step: the same `take` bytes on both sides. */
  lemma {:induction false} BeforeTakes(a: seq<Buffer>, i: nat, used: nat, take: nat)
    requires i < |a| && used + take <= |a[i]|
    ensures Before(a, i, used + take) == Before(a, i, used) + a[i][used..used + take]
  {
    assert a[i][..used + take] == a[i][..used] + a[i][used..used + take];
  }

  lemma {:induction false} BeforeRolls(a: seq<Buffer>, i: nat)
    requires i < |a|
    ensures Before(a, i, |a[i]|) == Before(a, i + 1, 0)
  {
    JoinNext(a, i);
    assert a[i][..|a[i]|] == a[i];
    if i + 1 < |a| { assert a[i + 1][..0] == []; }
  }

  /** After the common part one side may still hold empty pieces, and nothing else, if they are equal. */
  method SkipEmpty(a: seq<Buffer>, from: nat) returns (i: nat)
    requires from <= |a|
    ensures from <= i <= |a| && Join(a[..i]) == Join(a[..from])
    ensures (i < |a| ==> a[i] != []) && forall k :: from <= k < i ==> a[k] == []
  {
    i := from;
    while i < |a| && |a[i]| == 0
      invariant from <= i <= |a| && Join(a[..i]) == Join(a[..from]) && forall k :: from <= k < i ==> a[k] == []
    {
      JoinNext(a, i);
      i := i + 1;
    }
  }

  lemma {:induction false} Differ(a: seq<Buffer>, i: nat, used: nat, b: seq<Buffer>, j: nat, usedB: nat, take: nat)
    requires i < |a| && used + take <= |a[i]| && j < |b| && usedB + take <= |b[j]|
    requires Before(a, i, used) == Before(b, j, usedB) && a[i][used..used + take] != b[j][usedB..usedB + take]
    ensures Join(a) != Join(b)
  {
    BeforeTakes(a, i, used, take);
    BeforeTakes(b, j, usedB, take);
    BeforeIsPrefix(a, i, used + take);
    BeforeIsPrefix(b, j, usedB + take);
    var n := |Before(a, i, used)|;
    assert Before(a, i, used + take)[n..] == a[i][used..used + take];
    assert Before(b, j, usedB + take)[n..] == b[j][usedB..usedB + take];
  }

  lemma {:induction false} MoreLeft(a: seq<Buffer>, i: nat, used: nat)
    requires i < |a| && used < |a[i]|
    ensures |Before(a, i, used)| < |Join(a)|
  {
    BeforeTakes(a, i, used, 1);
    BeforeIsPrefix(a, i, used + 1);
  }

  /** The comparison finds out exactly whether the joined bytes are the same. */
  method SameBytes(a: seq<Buffer>, b: seq<Buffer>) returns (same: bool)
    ensures same <==> Join(a) == Join(b)
  {
    var i: nat, j: nat, usedA: nat, usedB: nat := 0, 0, 0, 0;
    assert a[..0] == [] && b[..0] == [];
    while i < |a| && j < |b|
      invariant i <= |a| && j <= |b|
      invariant (i < |a| ==> usedA <= |a[i]|) && (i == |a| ==> usedA == 0)
      invariant (j < |b| ==> usedB <= |b[j]|) && (j == |b| ==> usedB == 0)
      invariant (i < |a| ==> usedA == 0 || usedA < |a[i]|) && (j < |b| ==> usedB == 0 || usedB < |b[j]|)
      invariant Before(a, i, usedA) == Before(b, j, usedB)
      decreases |a| - i + |b| - j
    {
      var leftA, leftB := |a[i]| - usedA, |b[j]| - usedB;
      var take := if leftA <= leftB then leftA else leftB;
      if a[i][usedA..usedA + take] != b[j][usedB..usedB + take] {
        Differ(a, i, usedA, b, j, usedB, take);
        return false;
      }
      BeforeTakes(a, i, usedA, take);
      BeforeTakes(b, j, usedB, take);
      usedA, usedB := usedA + take, usedB + take;
      if usedA == |a[i]| {
        BeforeRolls(a, i);
        i, usedA := i + 1, 0;
      }
      if usedB == |b[j]| {
        BeforeRolls(b, j);
        j, usedB := j + 1, 0;
      }
    }
    same := AfterCommon(a, i, usedA, b, j, usedB);
  }

  /** The end of the comparison. The code skips whole pieces here, also one it has already partly used:
      such a piece still holds a byte, so it is not skipped. */
  method AfterCommon(a: seq<Buffer>, i: nat, usedA: nat, b: seq<Buffer>, j: nat, usedB: nat) returns (same: bool)
    requires i <= |a| && (i < |a| ==> usedA <= |a[i]|) && (i == |a| ==> usedA == 0)
    requires j <= |b| && (j < |b| ==> usedB <= |b[j]|) && (j == |b| ==> usedB == 0)
    requires (i == |a| || j == |b|) && Before(a, i, usedA) == Before(b, j, usedB)
    requires (i < |a| ==> usedA == 0 || usedA < |a[i]|) && (j < |b| ==> usedB == 0 || usedB < |b[j]|)
    ensures same <==> Join(a) == Join(b)
  {
    var k := SkipEmpty(a, i);
    var l := SkipEmpty(b, j);
    same := k == |a| && l == |b|;
    Remainder(a, i, usedA, k);
    Remainder(b, j, usedB, l);
  }

  lemma {:induction false} Remainder(a: seq<Buffer>, i: nat, used: nat, k: nat)
    requires i <= k <= |a| && (i < |a| ==> used <= |a[i]|) && (i == |a| ==> used == 0) && (i < |a| ==> used == 0 || used < |a[i]|)
    requires Join(a[..k]) == Join(a[..i]) && (k < |a| ==> a[k] != []) && (i < k ==> a[i] == [])
    ensures if k == |a| then Before(a, i, used) == Join(a) else |Before(a, i, used)| < |Join(a)|
  {
    if k == |a| {
      assert a[..k] == a;
      if i < |a| { assert a[i][..used] == []; }
      assert Join(a) + [] == Join(a);
    } else if i == k {
      MoreLeft(a, i, used);
    } else {
      MoreLeft(a, k, 0);
      assert a[k][..0] == [] && a[i][..used] == [];
    }
  }
}
