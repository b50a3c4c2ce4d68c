/** The streaming SHA-256 hasher against the padded message of section 5.1.1 of FIPS 180-4. */
module ShaStream {
  import opened ShaBlock
  import Bytes

  const LIMIT61 := 0x2000_0000_0000_0000

  /** The digest after a whole number of blocks. */
  function HashBlocks(v: Vars, s: Octets): Vars
    requires |s| % 64 == 0
    decreases |s|
  {
    if s == [] then v else Compress(HashBlocks(v, s[..|s| - 64]), s[|s| - 64..])
  }

  lemma {:induction false} BlocksSnoc(v: Vars, s: Octets, b: Octets)
    requires |s| % 64 == 0 && |b| == 64
    ensures HashBlocks(v, s + b) == Compress(HashBlocks(v, s), b)
  {
    assert (s + b)[..|s + b| - 64] == s && (s + b)[|s + b| - 64..] == b;
  }

  function Zeroes(n: nat): (z: Octets)
    ensures |z| == n && forall i :: 0 <= i < n ==> z[i] == 0
  {
    seq(n, _ => 0)
  }

  function ByteOf(v: nat): bv8 {
    (v % 256) as bv8
  }

  /** A 64-bit number, most significant byte first. */
  function BigEndian(v: nat): (s: Octets)
    requires v < Bytes.LIMIT64
    ensures |s| == 8
  {
    [ByteOf(v / 0x100_0000_0000_0000), ByteOf(v / 0x1_0000_0000_0000), ByteOf(v / 0x100_0000_0000), ByteOf(v / 0x1_0000_0000),
     ByteOf(v / 0x100_0000), ByteOf(v / 0x1_0000), ByteOf(v / 0x100), ByteOf(v)]
  }

  /** The fewest zero bytes after the 0x80 that leave room for the length at the end of a block. */
  function ZerosNeeded(n: nat): (k: nat)
    ensures k < 64 && (n + 1 + k + 8) % 64 == 0
  {
    (119 - n % 64) % 64
  }

  function Padded(m: Octets): (p: Octets)
    requires |m| < LIMIT61
    ensures |p| % 64 == 0
  {
    m + [0x80] + Zeroes(ZerosNeeded(|m|)) + BigEndian(8 * |m|)
  }

  function Sha256(m: Octets): Vars
    requires |m| < LIMIT61
  {
    HashBlocks(INITIAL, Padded(m))
  }

  // ── The length in base-65536 digits ────────────────────────

  function Value(d: seq<nat>): nat
    requires |d| == 4
  {
    d[0] + 0x1_0000 * d[1] + 0x1_0000_0000 * d[2] + 0x1_0000_0000_0000 * d[3]
  }

  predicate Digits(d: seq<nat>) {
    |d| == 4 && d[0] < 0x1_0000 && d[1] < 0x1_0000 && d[2] < 0x1_0000 && d[3] < 0x1_0000
  }

  /** A carry worth its place. */
  function Worth(carry: nat, i: nat): nat {
    if i == 0 then carry else if i == 1 then 0x1_0000 * carry else if i == 2 then 0x1_0000_0000 * carry
    else if i == 3 then 0x1_0000_0000_0000 * carry else 0x1_0000_0000_0000_0000 * carry
  }

  /** All digits are reduced but perhaps the i-th. */
  predicate ReducedBut(d: seq<nat>, i: nat) {
    |d| == 4 && forall j :: 0 <= j < 4 && j != i ==> d[j] < 0x1_0000
  }

  lemma {:induction false} ReduceDigit(d: seq<nat>, i: nat, carry: nat)
    requires ReducedBut(d, i) && i < 4
    ensures var v := d[i] + carry; var e := d[i := v % 0x1_0000];
      && ReducedBut(e, i + 1) && Value(d) + Worth(carry, i) == Value(e) + Worth(v / 0x1_0000, i + 1)
  {
    var v := d[i] + carry;
    assert v == 0x1_0000 * (v / 0x1_0000) + v % 0x1_0000;
  }

  lemma {:induction false} AllReduced(d: seq<nat>, i: nat)
    requires ReducedBut(d, i) && (i < 4 ==> d[i] < 0x1_0000)
    ensures Digits(d)
  {
  }

  lemma {:induction false} FirstDigit(d: seq<nat>, n: nat)
    requires |d| == 4
    ensures Value(d[0 := d[0] + n]) == Value(d) + n
  {
  }

  /** The carry loop of the byte count. */
  method AddToLength(digits: array<nat>, n: nat)
    requires digits.Length == 4 && Digits(digits[..]) && Value(digits[..]) + n < Bytes.LIMIT64
    modifies digits
    ensures Digits(digits[..]) && Value(digits[..]) == old(Value(digits[..])) + n
  {
    hide Value;
    ghost var total := Value(digits[..]) + n;
    var carry: nat := 0;
    FirstDigit(digits[..], n);
    ghost var first := digits[..];
    digits[0] := digits[0] + n;
    assert digits[..] == first[0 := first[0] + n];
    var i: nat := 0;
    while i < 4
      invariant i <= 4 && ReducedBut(digits[..], i) && Value(digits[..]) + Worth(carry, i) == total
      decreases 4 - i
    {
      ghost var d := digits[..];
      ReduceDigit(d, i, carry);
      digits[i] := digits[i] + carry;
      if digits[i] >= 0x1_0000 {
        carry := digits[i] / 0x1_0000;
        digits[i] := digits[i] % 0x1_0000;
        assert digits[..] == d[i := digits[i]];
        i := i + 1;
      } else {
        assert digits[..] == d[i := digits[i]];
        AllReduced(digits[..], i);
        return;
      }
    }
    AllReduced(digits[..], 4);
  }

  /** Eight times one digit: what stays in its place and what goes to the next. */
  lemma {:induction false} ShiftDigit(v: nat, carry: nat)
    requires v < 0x1_0000 && carry < 8
    ensures 8 * v + carry == 0x1_0000 * (v / 0x2000) + (8 * v % 0x1_0000 + carry)
    ensures v / 0x2000 < 8 && 8 * v % 0x1_0000 + carry < 0x1_0000
  {
    assert v == 0x2000 * (v / 0x2000) + v % 0x2000;
  }

  /** Value of the first i digits. */
  function ValueTo(d: seq<nat>, i: nat): nat
    requires |d| == 4 && i <= 4
  {
    if i == 0 then 0 else ValueTo(d, i - 1) + Worth(d[i - 1], i - 1)
  }

  lemma {:induction false} ValueIsSum(d: seq<nat>)
    requires |d| == 4
    ensures ValueTo(d, 4) == Value(d)
  {
    assert ValueTo(d, 1) == d[0] && ValueTo(d, 2) == d[0] + 0x1_0000 * d[1];
    assert ValueTo(d, 3) == d[0] + 0x1_0000 * d[1] + 0x1_0000_0000 * d[2];
  }

  lemma {:induction false} ValueToSame(d: seq<nat>, e: seq<nat>, i: nat)
    requires |d| == |e| == 4 && i <= 4 && forall j :: 0 <= j < i ==> d[j] == e[j]
    ensures ValueTo(d, i) == ValueTo(e, i)
  {
    if i > 0 { ValueToSame(d, e, i - 1); }
  }

  lemma {:induction false} WorthOfShift(v: nat, carry: nat, next: nat, kept: nat, i: nat)
    requires i < 4 && 8 * v + carry == 0x1_0000 * next + kept
    ensures 8 * Worth(v, i) + Worth(carry, i) == Worth(next, i + 1) + Worth(kept, i)
  {
  }

  lemma {:induction false} NoCarryOut(d: seq<nat>, bits: seq<nat>, carry: nat)
    requires Digits(bits) && |d| == 4 && Value(bits) + Worth(carry, 4) == 8 * Value(d) < Bytes.LIMIT64
    ensures carry == 0
  {
  }

  /** The bit count's digits: each shifted left by three, the high bits carried on. The low three bits of a
      shifted digit are zero, so or-ing the carry in is adding it. */
  method BitLength(d: seq<nat>) returns (bits: seq<nat>)
    requires Digits(d) && 8 * Value(d) < Bytes.LIMIT64
    ensures Digits(bits) && Value(bits) == 8 * Value(d)
  {
    bits := d;
    var carry: nat := 0;
    for i := 0 to 4
      invariant |bits| == 4 && carry < 8 && (forall j :: 0 <= j < 4 ==> bits[j] < 0x1_0000) && forall j :: i <= j < 4 ==> bits[j] == d[j]
      invariant ValueTo(bits, i) + Worth(carry, i) == 8 * ValueTo(d, i)
    {
      var before := bits[i];
      ShiftDigit(before, carry);
      WorthOfShift(before, carry, before / 0x2000, 8 * before % 0x1_0000 + carry, i);
      ghost var was := bits;
      bits := bits[i := 8 * before % 0x1_0000 + carry];
      ValueToSame(was, bits, i);
      carry := before / 0x2000;
    }
    ValueIsSum(d);
    ValueIsSum(bits);
    NoCarryOut(d, bits, carry);
  }

  function LengthBytes(d: seq<nat>): (s: Octets)
    requires Digits(d)
    ensures |s| == 8
  {
    [ByteOf(d[3] / 256), ByteOf(d[3]), ByteOf(d[2] / 256), ByteOf(d[2]), ByteOf(d[1] / 256), ByteOf(d[1]), ByteOf(d[0] / 256), ByteOf(d[0])]
  }

  lemma {:induction false} RemainderIs(n: nat, q: nat, r: nat)
    requires n == 256 * q + r && r < 256
    ensures n % 256 == r
  {
  }

  lemma {:induction false} SameRemainder(a: nat, b: nat, k: nat)
    requires a == b + 256 * k
    ensures a % 256 == b % 256
  {
    RemainderIs(a, b / 256 + k, b % 256);
  }

  lemma {:induction false} SameByte(a: nat, b: nat, k: nat)
    requires a == b + 256 * k
    ensures ByteOf(a) == ByteOf(b)
  {
    SameRemainder(a, b, k);
  }

  /** Digits written high byte first are the number, most significant byte first. */
  lemma {:induction false} DigitsAreBigEndian(d: seq<nat>)
    requires Digits(d)
    ensures Value(d) < Bytes.LIMIT64 && LengthBytes(d) == BigEndian(Value(d))
  {
    var v := Value(d);
    assert v / 0x1_0000_0000_0000 == d[3];
    assert v / 0x100_0000_0000_0000 == d[3] / 256;
    assert v / 0x1_0000_0000 == d[2] + 0x1_0000 * d[3];
    assert v / 0x100_0000_0000 == d[2] / 256 + 256 * d[3];
    assert v / 0x1_0000 == d[1] + 0x1_0000 * d[2] + 0x1_0000_0000 * d[3];
    assert v / 0x100_0000 == d[1] / 256 + 256 * d[2] + 0x100_0000 * d[3];
    assert v / 0x100 == d[0] / 256 + 256 * d[1] + 0x100_0000 * d[2] + 0x100_0000_0000 * d[3];
    SameByte(v / 0x100_0000_0000, d[2] / 256, d[3]);
    SameByte(v / 0x1_0000_0000, d[2], 256 * d[3]);
    SameByte(v / 0x100_0000, d[1] / 256, d[2] + 0x1_0000 * d[3]);
    SameByte(v / 0x1_0000, d[1], 256 * d[2] + 0x100_0000 * d[3]);
    SameByte(v / 0x100, d[0] / 256, d[1] + 0x1_0000 * d[2] + 0x1_0000_0000 * d[3]);
    SameByte(v, d[0], 256 * d[1] + 0x100_0000 * d[2] + 0x100_0000_0000 * d[3]);
  }

  // ── The hasher ─────────────────────────────────────────────

  class Hasher {
    var buffer: Octets
    const digits: array<nat>
    var h: Vars
    ghost var message: Octets

    /** The blocks compressed so far are those of the message but for the last bytes, fewer than a block,
        which wait in the buffer; the digits hold the message's length. */
    ghost predicate Valid()
      reads this, digits
    {
      && |buffer| < 64 && |buffer| <= |message| < LIMIT61 && (|message| - |buffer|) % 64 == 0
      && message[|message| - |buffer|..] == buffer
      && h == HashBlocks(INITIAL, message[..|message| - |buffer|])
      && digits.Length == 4 && Digits(digits[..]) && Value(digits[..]) == |message|
    }

    constructor ()
      ensures Valid() && message == [] && fresh(digits)
    {
      buffer, h, message := [], INITIAL, [];
      digits := new nat[4](_ => 0);
    }

    method Process(chunk: Octets)
      requires Valid() && |message| + |chunk| < LIMIT61
      modifies this, digits
      ensures Valid() && message == old(message) + chunk
    {
      hide HashBlocks;
      AddToLength(digits, |chunk|);
      ghost var done := message[..|message| - |buffer|];
      assert message == done + buffer;
      message := message + chunk;
      buffer := buffer + chunk;
      assert message == done + buffer;
      var i: nat;
      h, i := CompressWhole(h, buffer);
      BlocksAppend(INITIAL, done, buffer[..i]);
      BlocksAdd(|done|, i);
      Rest(message, done, buffer, i);
      buffer := buffer[i..];
    }

    method Finish()
      requires Valid()
      modifies this
      ensures |message| < LIMIT61 && h == Sha256(message) && message == old(message)
    {
      hide HashBlocks, Padded;
      var bits := BitLength(digits[..]);
      DigitsAreBigEndian(bits);
      var length := LengthBytes(bits);
      ghost var done := message[..|message| - |buffer|];
      assert message == done + buffer;
      var remains := |buffer|;
      if remains > 55 {
        var first := buffer + [0x80] + Zeroes(63 - remains);
        var last := Zeroes(56) + length;
        TwoBlocks(message, done, buffer, first, last, length);
        h := HashBlock(h, first);
        h := HashBlock(h, last);
      } else {
        var last := buffer + [0x80] + Zeroes(55 - remains) + length;
        OneBlock(message, done, buffer, last, length);
        h := HashBlock(h, last);
      }
    }
  }

  lemma {:induction false} BlocksAdd(a: nat, b: nat)
    requires a % 64 == 0
    ensures (a + b) % 64 == b % 64
  {
    assert a == 64 * (a / 64) && b == 64 * (b / 64) + b % 64;
    Remainder64(a + b, a / 64 + b / 64, b % 64);
  }

  lemma {:induction false} Remainder64(n: nat, q: nat, r: nat)
    requires n == 64 * q + r && r < 64
    ensures n % 64 == r
  {
  }

  lemma {:induction false} ZerosAre(a: nat, r: nat)
    requires a % 64 == 0 && r < 64
    ensures ZerosNeeded(a + r) == if r <= 55 then 55 - r else 119 - r
  {
    BlocksAdd(a, r);
  }

  lemma {:induction false} BlocksAppend(v: Vars, a: Octets, b: Octets)
    requires |a| % 64 == 0 && |b| % 64 == 0
    ensures HashBlocks(v, a + b) == HashBlocks(HashBlocks(v, a), b)
    decreases |b|
  {
    hide ShaBlock.Compress;
    if b == [] {
      assert a + b == a;
    } else {
      var n := |b| - 64;
      BlocksAppend(v, a, b[..n]);
      BlocksAdd(|a|, n);
      BlocksSnoc(v, a + b[..n], b[n..]);
      assert a + b == a + b[..n] + b[n..];
    }
  }

  /** Compresses every whole block of the buffer. */
  method CompressWhole(v: Vars, buffer: Octets) returns (h: Vars, i: nat)
    ensures i % 64 == 0 && i <= |buffer| < i + 64 && h == HashBlocks(v, buffer[..i])
  {
    h, i := v, 0;
    while i + 64 <= |buffer|
      invariant i % 64 == 0 && i <= |buffer| && h == HashBlocks(v, buffer[..i])
      decreases |buffer| - i
    {
      BlocksSnoc(v, buffer[..i], buffer[i..i + 64]);
      assert buffer[..i] + buffer[i..i + 64] == buffer[..i + 64];
      h := HashBlock(h, buffer[i..i + 64]);
      i := i + 64;
    }
  }

  lemma {:induction false} Rest(m: Octets, done: Octets, buffer: Octets, i: nat)
    requires m == done + buffer && i <= |buffer|
    ensures |m| - |buffer[i..]| == |done| + i && m[..|m| - |buffer[i..]|] == done + buffer[..i] && m[|m| - |buffer[i..]|..] == buffer[i..]
  {
  }

  lemma {:induction false} OneBlock(m: Octets, done: Octets, tail: Octets, last: Octets, length: Octets)
    requires m == done + tail && |m| < LIMIT61 && |done| % 64 == 0 && |tail| <= 55
    requires length == BigEndian(8 * |m|) && last == tail + [0x80] + Zeroes(55 - |tail|) + length
    ensures |last| == 64 && Sha256(m) == Compress(HashBlocks(INITIAL, done), last)
  {
    ZerosAre(|done|, |tail|);
    Regroup(done, tail, [0x80], Zeroes(55 - |tail|), length);
    BlocksSnoc(INITIAL, done, last);
  }

  lemma {:induction false} Regroup(a: Octets, b: Octets, c: Octets, d: Octets, e: Octets)
    ensures a + b + c + d + e == a + (b + c + d + e)
  {
  }

  lemma {:induction false} RegroupTwo(a: Octets, b: Octets, c: Octets, d: Octets, e: Octets, f: Octets)
    ensures a + b + c + (d + e) + f == a + (b + c + d) + (e + f)
  {
  }

  lemma {:induction false} ZeroesSplit(n: nat, a: nat, b: nat)
    requires n == a + b
    ensures Zeroes(n) == Zeroes(a) + Zeroes(b)
  {
  }

  lemma {:induction false} TwoBlocks(m: Octets, done: Octets, tail: Octets, first: Octets, last: Octets, length: Octets)
    requires m == done + tail && |m| < LIMIT61 && |done| % 64 == 0 && 55 < |tail| < 64
    requires length == BigEndian(8 * |m|) && first == tail + [0x80] + Zeroes(63 - |tail|) && last == Zeroes(56) + length
    ensures |first| == |last| == 64 && Sha256(m) == Compress(Compress(HashBlocks(INITIAL, done), first), last)
  {
    ZerosAre(|done|, |tail|);
    ZeroesSplit(ZerosNeeded(|m|), 63 - |tail|, 56);
    RegroupTwo(done, tail, [0x80], Zeroes(63 - |tail|), Zeroes(56), length);
    BlocksAdd(|done|, 64);
    BlocksSnoc(INITIAL, done, first);
    BlocksSnoc(INITIAL, done + first, last);
  }

  lemma {:induction false} JoinLonger(chunks: seq<Octets>, i: nat)
    requires i <= |chunks|
    ensures |Bytes.Join(chunks[..i])| <= |Bytes.Join(chunks)|
    decreases |chunks| - i
  {
    if i < |chunks| {
      JoinLonger(chunks, i + 1);
      assert chunks[..i + 1][..i] == chunks[..i];
    } else {
      assert chunks[..i] == chunks;
    }
  }

  /** However a message is cut into pieces, the digest is that of the padded message. */
  method HashPieces(chunks: seq<Octets>) returns (digest: Vars)
    requires |Bytes.Join(chunks)| < LIMIT61
    ensures digest == HashBlocks(INITIAL, Padded(Bytes.Join(chunks)))
  {
    var hasher := new Hasher();
    for i := 0 to |chunks|
      invariant hasher.Valid() && hasher.message == Bytes.Join(chunks[..i]) && fresh(hasher) && fresh(hasher.digits)
    {
      JoinLonger(chunks, i + 1);
      assert chunks[..i + 1][..i] == chunks[..i];
      hasher.Process(chunks[i]);
    }
    assert chunks[..|chunks|] == chunks;
    hasher.Finish();
    digest := hasher.h;
  }
}
