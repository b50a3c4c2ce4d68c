/** The PE checksum: a 16-bit sum with end-around carry, plus the file size. */
module PeChecksum {
  import opened Bytes

  /** Sum of the little-endian 16-bit words of the first n bytes; a last odd byte counts as it is. */
  function WordTotal(s: Buffer, n: nat): nat
    requires n <= |s|
  {
    if n == 0 then 0
    else if n == 1 then s[0]
    else if n % 2 == 1 then WordTotal(s, n - 1) + s[n - 1]
    else WordTotal(s, n - 2) + U16(s, n - 2)
  }

  /** The carry folded into 16 bits: zero only for zero, otherwise the representative 1 to 65535. */
  function Fold(total: nat): (f: nat)
    ensures f <= 0xFFFF
  {
    if total == 0 then 0 else 1 + (total - 1) % 65535
  }

  function Folded(sum: nat): nat {
    sum % 65536 + sum / 65536
  }

  lemma {:induction false} FoldMod(n: nat, r: nat, q: nat)
    requires n == 65535 * q + r && r < 65535
    ensures n % 65535 == r
  {
  }

  /** Adding a word and folding is folding the larger total. */
  lemma {:induction false} FoldStep(total: nat, w: nat)
    requires w <= 0xFFFF
    ensures Folded(Fold(total) + w) == Fold(total + w)
    ensures Fold(total) + w < 0x2_0000
  {
    if total == 0 {
      if w > 0 { FoldMod(w - 1, w - 1, 0); }
    } else {
      var q, r := (total - 1) / 65535, (total - 1) % 65535;
      var t := 1 + r + w;
      if r + w < 65535 { FoldMod(total + w - 1, r + w, q); }
      else if r + w < 2 * 65535 { FoldMod(total + w - 1, r + w - 65535, q + 1); }
      else { assert false; }
    }
  }

  lemma {:induction false} FoldAgain(total: nat)
    ensures Folded(Fold(total)) == Fold(total)
  {
  }

  /** The value to store, given the buffer with a zeroed field. */
  function Checksum(z: Buffer): (v: nat)
    ensures v < LIMIT32
  {
    (Fold(WordTotal(z, |z|)) + |z|) % LIMIT32
  }

  /** The buffer with its checksum field recalculated. */
  function Recalc(s: Buffer, at: nat): (r: Buffer)
    requires at + 4 <= |s|
    ensures |r| == |s|
  {
    Put(s, at, LE32(Checksum(Put(s, at, Zeros(4)))))
  }

  /** The words of the zeroed field, so the loop may skip them. */
  lemma {:induction false} ZeroWord(z: Buffer, at: nat, i: nat)
    requires at + 4 <= |z| && z[at..at + 4] == Zeros(4) && (i == at || i == at + 2)
    ensures U16(z, i) == 0
  {
    assert z[i] == z[at..at + 4][i - at] && z[i + 1] == z[at..at + 4][i + 1 - at];
  }

  lemma {:induction false} NextWord(z: Buffer, i: nat)
    requires 2 * i + 2 <= |z|
    ensures WordTotal(z, 2 * i + 2) == WordTotal(z, 2 * i) + U16(z, 2 * i)
  {
  }

  /** The fold over the whole words of a buffer with a zeroed field. */
  method SumPairs(z: Buffer, at: nat) returns (sum: nat)
    requires at + 4 <= |z| && z[at..at + 4] == Zeros(4)
    ensures sum == Fold(WordTotal(z, 2 * (|z| / 2)))
  {
    sum := 0;
    for i := 0 to |z| / 2
      invariant sum == Fold(WordTotal(z, 2 * i))
    {
      var offset := 2 * i;
      NextWord(z, i);
      if offset == at || offset == at + 2 {
        ZeroWord(z, at, offset);
      } else {
        var w := U16(z, offset);
        FoldStep(WordTotal(z, offset), w);
        sum := Folded(sum + w);
      }
    }
  }

  lemma {:induction false} LastByte(z: Buffer)
    requires |z| % 2 != 0
    ensures WordTotal(z, |z|) == WordTotal(z, |z| - 1) + z[|z| - 1]
  {
  }

  /** The fold over the words and the last odd byte. */
  method SumWords(z: Buffer, at: nat) returns (sum: nat)
    requires at + 4 <= |z| && z[at..at + 4] == Zeros(4)
    ensures sum == Fold(WordTotal(z, |z|))
  {
    hide Fold, Folded, WordTotal;
    sum := SumPairs(z, at);
    if |z| % 2 != 0 {
      LastByte(z);
      FoldStep(WordTotal(z, |z| - 1), z[|z| - 1]);
      sum := Folded(sum + z[|z| - 1] as int);
    }
    FoldAgain(WordTotal(z, |z|));
    sum := Folded(sum);
  }

  /** The recalculation in place. */
  method RecalcChecksum(bytes: array<Byte>, at: nat)
    requires at + 4 <= bytes.Length
    modifies bytes
    ensures bytes[..] == Recalc(old(bytes[..]), at)
  {
    hide Put, WordTotal, LE32, Zeros;
    ghost var s := bytes[..];
    PutBytes(bytes, at, Zeros(4));
    var sum := SumWords(bytes[..], at);
    var value := (sum + bytes.Length) % LIMIT32;
    PutOver(s, at, Zeros(4), LE32(value));
    PutBytes(bytes, at, LE32(value));
  }

  /** The result does not depend on what the field held, at any offset. */
  lemma {:induction false} OldFieldIgnored(s: Buffer, at: nat, field: Buffer)
    requires at + 4 <= |s| && |field| == 4
    ensures Recalc(Put(s, at, field), at) == Recalc(s, at)
  {
    PutOver(s, at, field, Zeros(4));
    PutOver(s, at, field, LE32(Checksum(Put(s, at, Zeros(4)))));
  }

  /** Recalculating again changes nothing. */
  lemma {:induction false} RecalcIdempotent(s: Buffer, at: nat)
    requires at + 4 <= |s|
    ensures Recalc(Recalc(s, at), at) == Recalc(s, at)
  {
    OldFieldIgnored(s, at, LE32(Checksum(Put(s, at, Zeros(4)))));
  }

  /** The recalculated buffer is the old one with some field. */
  lemma {:induction false} RecalcIsPut(s: Buffer, at: nat) returns (field: Buffer)
    requires at + 4 <= |s|
    ensures |field| == 4 && Recalc(s, at) == Put(s, at, field)
  {
    field := LE32(Checksum(Put(s, at, Zeros(4))));
  }

  /** The stored value is the closed form: 0 for an all-zero rest, otherwise one more than the word
      total less one modulo 65535, plus the size. */
  lemma {:induction false} ChecksumValue(s: Buffer, at: nat)
    requires at + 4 <= |s|
    ensures var z := Put(s, at, Zeros(4)); var total := WordTotal(z, |z|);
      U32(Recalc(s, at), at) == ((if total == 0 then 0 else 1 + (total - 1) % 65535) + |s|) % LIMIT32
  {
    Read32(Recalc(s, at), at, Checksum(Put(s, at, Zeros(4))));
  }
}
