/** The SHA-256 compression function, section 6.2.2 of FIPS 180-4, on 32-bit words. */
module ShaBlock {

  type Octets = seq<bv8>

  const K: seq<bv32> := [
    0x428a2f98, 0x71374491, 0xb5c0fbcf, 0xe9b5dba5, 0x3956c25b, 0x59f111f1, 0x923f82a4, 0xab1c5ed5,
    0xd807aa98, 0x12835b01, 0x243185be, 0x550c7dc3, 0x72be5d74, 0x80deb1fe, 0x9bdc06a7, 0xc19bf174,
    0xe49b69c1, 0xefbe4786, 0x0fc19dc6, 0x240ca1cc, 0x2de92c6f, 0x4a7484aa, 0x5cb0a9dc, 0x76f988da,
    0x983e5152, 0xa831c66d, 0xb00327c8, 0xbf597fc7, 0xc6e00bf3, 0xd5a79147, 0x06ca6351, 0x14292967,
    0x27b70a85, 0x2e1b2138, 0x4d2c6dfc, 0x53380d13, 0x650a7354, 0x766a0abb, 0x81c2c92e, 0x92722c85,
    0xa2bfe8a1, 0xa81a664b, 0xc24b8b70, 0xc76c51a3, 0xd192e819, 0xd6990624, 0xf40e3585, 0x106aa070,
    0x19a4c116, 0x1e376c08, 0x2748774c, 0x34b0bcb5, 0x391c0cb3, 0x4ed8aa4a, 0x5b9cca4f, 0x682e6ff3,
    0x748f82ee, 0x78a5636f, 0x84c87814, 0x8cc70208, 0x90befffa, 0xa4506ceb, 0xbef9a3f7, 0xc67178f2]

  datatype Vars = Vars(a: bv32, b: bv32, c: bv32, d: bv32, e: bv32, f: bv32, g: bv32, h: bv32)

  const INITIAL := Vars(0x6a09e667, 0xbb67ae85, 0x3c6ef372, 0xa54ff53a, 0x510e527f, 0x9b05688c, 0x1f83d9ab, 0x5be0cd19)

  function Ch(x: bv32, y: bv32, z: bv32): bv32 { (x & y) ^ (!x & z) }
  function Maj(x: bv32, y: bv32, z: bv32): bv32 { (x & y) ^ (x & z) ^ (y & z) }
  function BigSigma0(x: bv32): bv32 { ((x >> 2) | (x << 30)) ^ ((x >> 13) | (x << 19)) ^ ((x >> 22) | (x << 10)) }
  function BigSigma1(x: bv32): bv32 { ((x >> 6) | (x << 26)) ^ ((x >> 11) | (x << 21)) ^ ((x >> 25) | (x << 7)) }
  function SmallSigma0(x: bv32): bv32 { ((x >> 7) | (x << 25)) ^ ((x >> 18) | (x << 14)) ^ (x >> 3) }
  function SmallSigma1(x: bv32): bv32 { ((x >> 17) | (x << 15)) ^ ((x >> 19) | (x << 13)) ^ (x >> 10) }

  function WordAt(b: Octets, i: nat): bv32
    requires 4 * i + 4 <= |b|
  {
    ((b[4 * i] as bv32) << 24) | ((b[4 * i + 1] as bv32) << 16) | ((b[4 * i + 2] as bv32) << 8) | (b[4 * i + 3] as bv32)
  }

  function Expanded(w2: bv32, w7: bv32, w15: bv32, w16: bv32): bv32 {
    SmallSigma1(w2) + w7 + SmallSigma0(w15) + w16
  }

  /** The message schedule. */
  function W(b: Octets, t: nat): bv32
    requires |b| == 64 && t < 64
  {
    if t < 16 then WordAt(b, t) else Expanded(W(b, t - 2), W(b, t - 7), W(b, t - 15), W(b, t - 16))
  }

  function Round(v: Vars, k: bv32, w: bv32): Vars {
    var t1 := v.h + BigSigma1(v.e) + Ch(v.e, v.f, v.g) + k + w;
    var t2 := BigSigma0(v.a) + Maj(v.a, v.b, v.c);
    Vars(t1 + t2, v.a, v.b, v.c, v.d + t1, v.e, v.f, v.g)
  }

  function Rounds(v: Vars, b: Octets, t: nat): Vars
    requires |b| == 64 && t <= 64
  {
    if t == 0 then v else Round(Rounds(v, b, t - 1), K[t - 1], W(b, t - 1))
  }

  function Added(v: Vars, r: Vars): Vars {
    Vars(v.a + r.a, v.b + r.b, v.c + r.c, v.d + r.d, v.e + r.e, v.f + r.f, v.g + r.g, v.h + r.h)
  }

  function Compress(v: Vars, b: Octets): Vars
    requires |b| == 64
  {
    Added(v, Rounds(v, b, |b|))
  }

  // ── The code's passes ──────────────────────────────────────

  /** The schedule, filled in place. */
  method Schedule(b: Octets) returns (w: array<bv32>)
    requires |b| == 64
    ensures fresh(w) && w.Length == 64 && forall t :: 0 <= t < 64 ==> w[t] == W(b, t)
  {
    w := new bv32[64];
    for t := 0 to 16
      invariant forall j :: 0 <= j < t ==> w[j] == W(b, j)
    {
      w[t] := WordAt(b, t);
    }
    for t := 16 to 64
      invariant forall j :: 0 <= j < t ==> w[j] == W(b, j)
    {
      w[t] := Expanded(w[t - 2], w[t - 7], w[t - 15], w[t - 16]);
    }
  }

  /** One block: the working variables shift through 64 rounds and are added to the digest. */
  method HashBlock(v: Vars, b: Octets) returns (r: Vars)
    requires |b| == 64
    ensures r == Compress(v, b)
  {
    var w := Schedule(b);
    r := v;
    for t := 0 to 64
      invariant r == Rounds(v, b, t)
    {
      r := Round(r, K[t], w[t]);
    }
    r := Added(v, r);
  }
}
