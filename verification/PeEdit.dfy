/** Embedding and stripping a signature as the code does it: the file's bytes copied, resized and written field by field. */
module PeEdit {
  import opened Bytes
  import opened PeChecksum
  import opened PeSigner

  /** A buffer cut or grown to n bytes, zeros being appended. */
  method Resized(s: Buffer, kept: nat, n: nat) returns (bytes: array<Byte>)
    requires kept <= |s| && kept <= n
    ensures fresh(bytes) && bytes[..] == s[..kept] + Zeros(n - kept)
  {
    bytes := new Byte[n](_ => 0);
    ZerosIs(bytes[..]);
    PutBytes(bytes, 0, s[..kept]);
    PutFront(n, s[..kept]);
  }

  lemma {:induction false} ZerosIs(s: Buffer)
    requires forall i :: 0 <= i < |s| ==> s[i] == 0
    ensures s == Zeros(|s|)
  {
  }

  lemma {:induction false} PutFront(n: nat, front: Buffer)
    requires |front| <= n
    ensures Put(Zeros(n), 0, front) == front + Zeros(n - |front|)
  {
  }

  /** The certificate's head and blob written over zeros make the certificate with its padding. */
  lemma {:induction false} CertificateWritten(front: Buffer, pad: nat, blob: Buffer)
    requires |blob| <= UINT32_MAX - 8
    ensures var base := front + Zeros(pad + |Certificate(blob)|);
      Put(base, |front| + pad, LE32(8 + |blob|) + LE16(0x0200) + LE16(0x0002) + blob) == front + Zeros(pad) + Certificate(blob)
  {
    hide LE32, LE16;
    var content := LE32(8 + |blob|) + LE16(0x0200) + LE16(0x0002) + blob;
    assert Certificate(blob) == content + Zeros(Pad8(8 + |blob|));
    PutOnZeros(front, pad, content, Pad8(8 + |blob|));
  }

  lemma {:induction false} PutOnZeros(front: Buffer, pad: nat, content: Buffer, after: nat)
    ensures Put(front + Zeros(pad + |content| + after), |front| + pad, content) == front + Zeros(pad) + (content + Zeros(after))
  {
  }

  /** Head and blob, field by field. */
  method WriteCertificate(bytes: array<Byte>, at: nat, blob: Buffer)
    requires |blob| <= UINT32_MAX - 8 && at + 8 + |blob| <= bytes.Length
    modifies bytes
    ensures bytes[..] == Put(old(bytes[..]), at, LE32(8 + |blob|) + LE16(0x0200) + LE16(0x0002) + blob)
  {
    hide LE32, LE16, Put;
    ghost var s := bytes[..];
    var length, revision, kind := LE32(8 + |blob|), LE16(0x0200), LE16(0x0002);
    PutBytes(bytes, at, length);
    PutBytes(bytes, at + 4, revision);
    PutAdjacent(s, at, length, revision);
    PutBytes(bytes, at + 6, kind);
    PutAdjacent(s, at, length + revision, kind);
    PutBytes(bytes, at + 8, blob);
    PutAdjacent(s, at, length + revision + kind, blob);
  }

  method WriteDirectory(bytes: array<Byte>, at: nat, address: nat, size: nat)
    requires address < LIMIT32 && size < LIMIT32 && at + 8 <= bytes.Length
    modifies bytes
    ensures bytes[..] == Put(old(bytes[..]), at, LE32(address) + LE32(size))
  {
    hide LE32, Put;
    ghost var s := bytes[..];
    PutBytes(bytes, at, LE32(address));
    PutBytes(bytes, at + 4, LE32(size));
    PutAdjacent(s, at, LE32(address), LE32(size));
  }

  /** Every rejection comes before the first write. */
  method Embed(s: Buffer, blob: Buffer) returns (r: Option<Buffer>)
    ensures r == EmbedSignature(s, blob)
  {
    hide Certificate, Put, Recalc, ParsePeLayout, ValidateCertificateTable, LE32, LE16, Pad8, Zeros;
    var layout := ParsePeLayout(s);
    if layout.None? { return None; }
    var l := layout.value;
    var table := ValidateCertificateTable(s, l);
    if table.None? { return None; }
    var kept := if table.value.present then table.value.address else |s|;
    if |blob| > UINT32_MAX - 8 { return None; }
    var padding := Pad8(kept);
    var at := kept + padding;
    var length := 8 + |blob|;
    var size := length + Pad8(length);
    if at > UINT32_MAX || size > UINT32_MAX { return None; }
    var bytes := Resized(s, kept, at + size);
    WriteCertificate(bytes, at, blob);
    CertificateWritten(s[..kept], padding, blob);
    WriteDirectory(bytes, l.Directory(), at, size);
    RecalcChecksum(bytes, l.CheckSumAt());
    r := Some(bytes[..]);
  }

  /** An unsigned file is left as it is. */
  method Strip(s: Buffer) returns (r: Option<Buffer>)
    ensures r == StripSignature(s)
  {
    hide Put, Recalc, ParsePeLayout, ValidateCertificateTable, StripFloor, Trimmed, LE32;
    var layout := ParsePeLayout(s);
    if layout.None? { return None; }
    var l := layout.value;
    var table := ValidateCertificateTable(s, l);
    if table.None? { return None; }
    var floor := ComputeStripFloor(s, l);
    if !table.value.present { return Some(s); }
    var n := TrimPadding(s, table.value.address, floor);
    if l.HeadersEnd() > n { return None; }
    var bytes := Resized(s, n, n);
    assert s[..n] + Zeros(0) == s[..n];
    ZeroEntry();
    WriteDirectory(bytes, l.Directory(), 0, 0);
    RecalcChecksum(bytes, l.CheckSumAt());
    r := Some(bytes[..]);
  }

  lemma {:induction false} ZeroEntry()
    ensures LE32(0) + LE32(0) == Zeros(8)
  {
  }
}
