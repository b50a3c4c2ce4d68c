/** Byte buffers, fixed-width little- and big-endian fields, and writes at an offset. */
module Bytes {
  type Byte = b: int | 0 <= b < 256
  type Buffer = seq<Byte>

  const LIMIT16 := 0x1_0000
  const LIMIT32 := 0x1_0000_0000
  const LIMIT64 := 0x1_0000_0000_0000_0000

  datatype Option<+T> = None | Some(value: T) {
    predicate IsFailure() { None? }
    function PropagateFailure<U>(): Option<U> requires None? { None }
    function Extract(): T requires Some? { value }
  }

  /** The range ends within `size`; told without adding, as fixed-width numbers need. */
  predicate RangeFits(offset: nat, length: nat, size: nat) {
    offset <= size && length <= size - offset
  }

  function Zeros(n: nat): (z: Buffer)
    ensures |z| == n
  {
    seq(n, _ => 0)
  }

  /** Number of units of a given size that cover `size` bytes. */
  function UnitsFor(size: nat, unit: nat): nat
    requires unit > 0
  {
    if size == 0 then 0 else if size <= unit then 1 else 1 + UnitsFor(size - unit, unit)
  }

  lemma {:induction false} UnitsBounds(size: nat, unit: nat)
    requires unit > 0
    ensures size <= UnitsFor(size, unit) * unit < size + unit
  {
    if size > unit {
      UnitsBounds(size - unit, unit);
      var n := UnitsFor(size - unit, unit);
      assert (1 + n) * unit == unit + n * unit;
    }
  }

  lemma {:induction false} Multiples(m: nat, n: nat, unit: nat)
    requires m >= n
    ensures m * unit >= n * unit
  {
  }

  lemma {:induction false} ProductBound(m: nat, n: nat, unit: nat)
    requires m * unit < n * unit + unit
    ensures m <= n
  {
    if m > n {
      Multiples(m, n + 1, unit);
      assert false;
    }
  }

  lemma {:induction false} UnitsAre(size: nat, unit: nat, n: nat)
    requires unit > 0 && size <= n * unit < size + unit
    ensures UnitsFor(size, unit) == n
  {
    UnitsBounds(size, unit);
    ProductBound(UnitsFor(size, unit), n, unit);
    ProductBound(n, UnitsFor(size, unit), unit);
  }

  lemma {:induction false} UnitsMonotone(a: nat, b: nat, unit: nat)
    requires unit > 0 && a <= b
    ensures UnitsFor(a, unit) <= UnitsFor(b, unit)
  {
    UnitsBounds(a, unit);
    UnitsBounds(b, unit);
    ProductBound(UnitsFor(a, unit), UnitsFor(b, unit), unit);
  }

  /** The quotient rounded up, as the code computes it. */
  method CountUnits(size: nat, unit: nat) returns (n: nat)
    requires unit > 0
    ensures n == UnitsFor(size, unit)
  {
    var q := size / unit;
    n := q + (if size % unit != 0 then 1 else 0);
    assert size == q * unit + size % unit;
    assert (q + 1) * unit == q * unit + unit;
    UnitsAre(size, unit, n);
  }

  // ── Fields ─────────────────────────────────────────────────

  function LE16(v: nat): (s: Buffer)
    requires v < LIMIT16
    ensures |s| == 2
  {
    [v % 256, v / 256]
  }

  function LE32(v: nat): (s: Buffer)
    requires v < LIMIT32
    ensures |s| == 4
  {
    [v % 256, v / 256 % 256, v / 256 / 256 % 256, v / 256 / 256 / 256]
  }

  function LE64(v: nat): (s: Buffer)
    requires v < LIMIT64
    ensures |s| == 8
  {
    LE32(v % LIMIT32) + LE32(v / LIMIT32)
  }

  function BE32(v: nat): (s: Buffer)
    requires v < LIMIT32
    ensures |s| == 4
  {
    [v / 256 / 256 / 256, v / 256 / 256 % 256, v / 256 % 256, v % 256]
  }

  function BE64(v: nat): (s: Buffer)
    requires v < LIMIT64
    ensures |s| == 8
  {
    BE32(v / LIMIT32) + BE32(v % LIMIT32)
  }

  /** The 32-bit value of four bytes, the least significant first. */
  function Word(a: int, b: int, c: int, d: int): int {
    a + 0x100 * b + 0x1_0000 * c + 0x100_0000 * d
  }

  lemma {:induction false} WordOfDigits(v: nat)
    ensures Word(v % 256, v / 256 % 256, v / 256 / 256 % 256, v / 256 / 256 / 256) == v
  {
    var a := v / 256;
    var b := a / 256;
    assert v == 256 * a + v % 256;
    assert a == 256 * b + a % 256;
    assert b == 256 * (b / 256) + b % 256;
  }

  function U16(s: Buffer, at: nat): (v: nat)
    requires at + 2 <= |s|
    ensures v < LIMIT16
  {
    s[at] as int + 256 * (s[at + 1] as int)
  }

  function U32(s: Buffer, at: nat): (v: nat)
    requires at + 4 <= |s|
    ensures v < LIMIT32
  {
    Word(s[at], s[at + 1], s[at + 2], s[at + 3])
  }

  function U64(s: Buffer, at: nat): (v: nat)
    requires at + 8 <= |s|
    ensures v < LIMIT64
  {
    U32(s, at) + LIMIT32 * U32(s, at + 4)
  }

  function B32(s: Buffer, at: nat): (v: nat)
    requires at + 4 <= |s|
    ensures v < LIMIT32
  {
    Word(s[at + 3], s[at + 2], s[at + 1], s[at])
  }

  function B64(s: Buffer, at: nat): (v: nat)
    requires at + 8 <= |s|
    ensures v < LIMIT64
  {
    B32(s, at + 4) + LIMIT32 * B32(s, at)
  }

  /** A field read where its encoding was stored gives the value back. */
  lemma {:induction false} Read16(s: Buffer, at: nat, v: nat)
    requires v < LIMIT16 && at + 2 <= |s| && s[at..at + 2] == LE16(v)
    ensures U16(s, at) == v
  {
    assert s[at] == s[at..at + 2][0] && s[at + 1] == s[at..at + 2][1];
  }

  lemma {:induction false} Read32(s: Buffer, at: nat, v: nat)
    requires v < LIMIT32 && at + 4 <= |s| && s[at..at + 4] == LE32(v)
    ensures U32(s, at) == v
  {
    var f := s[at..at + 4];
    WordOfDigits(v);
    assert s[at] == f[0] && s[at + 1] == f[1] && s[at + 2] == f[2] && s[at + 3] == f[3];
  }

  lemma {:induction false} Read64(s: Buffer, at: nat, v: nat)
    requires v < LIMIT64 && at + 8 <= |s| && s[at..at + 8] == LE64(v)
    ensures U64(s, at) == v
  {
    assert s[at..at + 4] == s[at..at + 8][..4] == LE32(v % LIMIT32);
    assert s[at + 4..at + 8] == s[at..at + 8][4..] == LE32(v / LIMIT32);
    Read32(s, at, v % LIMIT32);
    Read32(s, at + 4, v / LIMIT32);
  }

  lemma {:induction false} ReadBig32(s: Buffer, at: nat, v: nat)
    requires v < LIMIT32 && at + 4 <= |s| && s[at..at + 4] == BE32(v)
    ensures B32(s, at) == v
  {
    var f := s[at..at + 4];
    WordOfDigits(v);
    assert s[at] == f[0] && s[at + 1] == f[1] && s[at + 2] == f[2] && s[at + 3] == f[3];
  }

  lemma {:induction false} ReadBig64(s: Buffer, at: nat, v: nat)
    requires v < LIMIT64 && at + 8 <= |s| && s[at..at + 8] == BE64(v)
    ensures B64(s, at) == v
  {
    assert s[at..at + 4] == s[at..at + 8][..4] == BE32(v / LIMIT32);
    assert s[at + 4..at + 8] == s[at..at + 8][4..] == BE32(v % LIMIT32);
    ReadBig32(s, at, v / LIMIT32);
    ReadBig32(s, at + 4, v % LIMIT32);
  }

  // ── Writes ─────────────────────────────────────────────────

  /** The buffer with `piece` written over the bytes at `at`. */
  function Put(s: Buffer, at: nat, piece: Buffer): (r: Buffer)
    requires at + |piece| <= |s|
    ensures |r| == |s|
    ensures r[at..at + |piece|] == piece
    ensures forall i :: 0 <= i < at || at + |piece| <= i < |s| ==> r[i] == s[i]
  {
    s[..at] + piece + s[at + |piece|..]
  }

  /** A slice that a write does not touch is what it was. */
  lemma {:induction false} PutApart(s: Buffer, at: nat, piece: Buffer, lo: nat, hi: nat)
    requires at + |piece| <= |s| && lo <= hi <= |s|
    requires hi <= at || at + |piece| <= lo
    ensures Put(s, at, piece)[lo..hi] == s[lo..hi]
  {
  }

  /** The same write into a buffer in place. */
  method PutBytes(out: array<Byte>, at: nat, piece: Buffer)
    requires at + |piece| <= out.Length
    modifies out
    ensures out[..] == Put(old(out[..]), at, piece)
  {
    for i := 0 to |piece|
      invariant forall k :: 0 <= k < out.Length ==> out[k] == if at <= k < at + i then piece[k - at] else old(out[k])
    {
      out[at + i] := piece[i];
    }
  }

  /** Of two writes over the same bytes the last one counts. */
  lemma {:induction false} PutOver(s: Buffer, at: nat, a: Buffer, b: Buffer)
    requires |a| == |b| && at + |a| <= |s|
    ensures Put(Put(s, at, a), at, b) == Put(s, at, b)
  {
  }

  /** Two writes next to each other are one. */
  lemma {:induction false} PutAdjacent(s: Buffer, at: nat, a: Buffer, b: Buffer)
    requires at + |a| + |b| <= |s|
    ensures Put(Put(s, at, a), at + |a|, b) == Put(s, at, a + b)
  {
  }

  // ── Joined pieces ──────────────────────────────────────────

  function Join<T>(pieces: seq<seq<T>>): seq<T> {
    if pieces == [] then [] else Join(pieces[..|pieces| - 1]) + pieces[|pieces| - 1]
  }

  lemma {:induction false} JoinSnoc<T>(pieces: seq<seq<T>>, p: seq<T>)
    ensures Join(pieces + [p]) == Join(pieces) + p
  {
    assert (pieces + [p])[..|pieces|] == pieces;
  }

  lemma {:induction false} JoinGrow<T>(pieces: seq<seq<T>>, p: seq<T>, q: seq<T>)
    ensures Join(pieces + [p + q]) == Join(pieces + [p]) + q
  {
    JoinSnoc(pieces, p);
    JoinSnoc(pieces, p + q);
    var j := Join(pieces);
    assert j + (p + q) == (j + p) + q;
  }

  /** An element of a piece stands after all the pieces before it. */
  lemma {:induction false} JoinAt<T>(pieces: seq<seq<T>>, i: nat, k: nat)
    requires i < |pieces| && k < |pieces[i]|
    ensures |Join(pieces[..i])| + k < |Join(pieces)|
    ensures Join(pieces)[|Join(pieces[..i])| + k] == pieces[i][k]
    decreases |pieces|
  {
    var n := |pieces| - 1;
    if i < n {
      assert pieces[..n][..i] == pieces[..i];
      JoinAt(pieces[..n], i, k);
    }
  }

  lemma {:induction false} JoinNext<T>(pieces: seq<seq<T>>, i: nat)
    requires i < |pieces|
    ensures Join(pieces[..i + 1]) == Join(pieces[..i]) + pieces[i]
  {
    assert pieces[..i + 1] == pieces[..i] + [pieces[i]];
    JoinSnoc(pieces[..i], pieces[i]);
  }

  lemma {:induction false} JoinStep<T>(pieces: seq<seq<T>>, i: nat)
    requires i < |pieces|
    ensures |Join(pieces[..i + 1])| == |Join(pieces[..i])| + |pieces[i]|
  {
    assert pieces[..i + 1] == pieces[..i] + [pieces[i]];
    JoinSnoc(pieces[..i], pieces[i]);
  }

  /** Every piece can be read back from its place. */
  lemma {:induction false} JoinSlice<T>(pieces: seq<seq<T>>, i: nat)
    requires i < |pieces|
    ensures |Join(pieces[..i])| + |pieces[i]| <= |Join(pieces)|
    ensures Join(pieces)[|Join(pieces[..i])|..|Join(pieces[..i])| + |pieces[i]|] == pieces[i]
    ensures |Join(pieces[..i + 1])| == |Join(pieces[..i])| + |pieces[i]|
    decreases |pieces|
  {
    var n := |pieces| - 1;
    assert pieces[..i + 1] == pieces[..i] + [pieces[i]];
    JoinSnoc(pieces[..i], pieces[i]);
    if i < n {
      assert pieces[..n][..i] == pieces[..i];
      JoinSlice(pieces[..n], i);
      SliceOfPrefix(Join(pieces[..n]), pieces[n], |Join(pieces[..i])|, |Join(pieces[..i])| + |pieces[i]|);
    }
  }

  lemma {:induction false} SliceOfPrefix<T>(a: seq<T>, b: seq<T>, lo: nat, hi: nat)
    requires lo <= hi <= |a|
    ensures (a + b)[lo..hi] == a[lo..hi]
  {
  }

  /** Pieces of one length stand at its multiples. */
  lemma {:induction false} JoinUniform<T>(pieces: seq<seq<T>>, unit: nat)
    requires forall i :: 0 <= i < |pieces| ==> |pieces[i]| == unit
    ensures |Join(pieces)| == |pieces| * unit
  {
    if pieces != [] {
      var n := |pieces| - 1;
      JoinUniform(pieces[..n], unit);
      assert (n + 1) * unit == n * unit + unit;
    }
  }

  lemma {:induction false} UniformSlice<T>(pieces: seq<seq<T>>, unit: nat, i: nat)
    requires forall i :: 0 <= i < |pieces| ==> |pieces[i]| == unit
    requires i < |pieces|
    ensures i * unit + unit <= |Join(pieces)| == |pieces| * unit
    ensures Join(pieces)[i * unit..i * unit + unit] == pieces[i]
  {
    JoinUniform(pieces, unit);
    JoinUniform(pieces[..i], unit);
    JoinSlice(pieces, i);
  }

  /** A sequence cut into pieces of one length joins back. */
  lemma {:induction false} JoinChunks<T>(t: seq<T>, parts: seq<seq<T>>, per: nat)
    requires |t| == |parts| * per
    requires forall k :: 0 <= k < |parts| ==> ChunkOf(t, parts[k], k, per)
    ensures Join(parts) == t
    decreases |parts|
  {
    if parts == [] {
      assert 0 * per == 0;
    } else {
      var n := |parts| - 1;
      assert (n + 1) * per == n * per + per;
      var u := t[..n * per];
      forall k | 0 <= k < n ensures ChunkOf(u, parts[..n][k], k, per) {
        assert ChunkOf(t, parts[k], k, per);
        Multiples(n, k + 1, per);
        assert (k + 1) * per == k * per + per;
        SliceSlice(t, 0, n * per, k * per, k * per + per);
      }
      JoinChunks(u, parts[..n], per);
      assert ChunkOf(t, parts[n], n, per);
      assert t == u + t[n * per..n * per + per];
    }
  }

  ghost predicate ChunkOf<T>(t: seq<T>, part: seq<T>, k: nat, per: nat) {
    k * per + per <= |t| && part == t[k * per..k * per + per]
  }

  /** A slice of a slice. */
  lemma {:induction false} SliceSlice<T>(s: seq<T>, a: nat, b: nat, lo: nat, hi: nat)
    requires a <= b <= |s| && lo <= hi <= b - a
    ensures s[a..b][lo..hi] == s[a + lo..a + hi]
  {
    var x, y := s[a..b][lo..hi], s[a + lo..a + hi];
    assert |x| == |y| && forall k :: 0 <= k < |x| ==> x[k] == s[a + lo + k] == y[k];
  }

  /** `piece` is what the buffer holds at `at`. */
  ghost predicate HoldsAt<T>(s: seq<T>, at: nat, piece: seq<T>) {
    at + |piece| <= |s| && s[at..at + |piece|] == piece
  }

  lemma {:induction false} HoldsWithin<T>(s: seq<T>, at: nat, part: seq<T>, lo: nat, piece: seq<T>)
    requires HoldsAt(s, at, part) && HoldsAt(part, lo, piece)
    ensures HoldsAt(s, at + lo, piece)
  {
    SliceSlice(s, at, at + |part|, lo, lo + |piece|);
  }

  lemma {:induction false} HoldsThere<T>(s: seq<T>, a: nat, b: nat, piece: seq<T>)
    requires HoldsAt(s, a, piece) && a == b
    ensures HoldsAt(s, b, piece)
  {
  }

  lemma {:induction false} UniformHolds<T>(pieces: seq<seq<T>>, unit: nat, i: nat)
    requires forall i :: 0 <= i < |pieces| ==> |pieces[i]| == unit
    requires i < |pieces|
    ensures |Join(pieces)| == |pieces| * unit && HoldsAt(Join(pieces), i * unit, pieces[i])
  {
    UniformSlice(pieces, unit, i);
  }

  // ── Tables of 32-bit words ─────────────────────────────────

  function Encode32(words: seq<nat>): (s: Buffer)
    requires forall i :: 0 <= i < |words| ==> words[i] < LIMIT32
    ensures |s| == 4 * |words|
  {
    JoinUniform(Pieces32(words), 4);
    Join(Pieces32(words))
  }

  function Pieces32(words: seq<nat>): (p: seq<Buffer>)
    requires forall i :: 0 <= i < |words| ==> words[i] < LIMIT32
    ensures |p| == |words| && forall i :: 0 <= i < |p| ==> p[i] == LE32(words[i])
  {
    seq(|words|, i requires 0 <= i < |words| => LE32(words[i]))
  }

  lemma {:induction false} Encode32At(words: seq<nat>, i: nat)
    requires forall i :: 0 <= i < |words| ==> words[i] < LIMIT32
    requires i < |words|
    ensures Encode32(words)[4 * i..4 * i + 4] == LE32(words[i])
  {
    UniformSlice(Pieces32(words), 4, i);
  }

  /** A table stored at some place is read word by word from there. */
  lemma {:induction false} ReadTable(s: Buffer, at: nat, words: seq<nat>, i: nat)
    requires forall i :: 0 <= i < |words| ==> words[i] < LIMIT32
    requires at + 4 * |words| <= |s| && s[at..at + 4 * |words|] == Encode32(words) && i < |words|
    ensures U32(s, at + 4 * i) == words[i]
  {
    Encode32At(words, i);
    SliceSlice(s, at, at + 4 * |words|, 4 * i, 4 * i + 4);
    Read32(s, at + 4 * i, words[i]);
  }
}
