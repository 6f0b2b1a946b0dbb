/** Seed derivation: `int(hashlib.sha256(password.encode()).hexdigest(), 16)`.
    The digest (UTF-8 encoding followed by SHA-256) is a foreign library call
    and is therefore a parameter; reading its hexadecimal spelling as a base-16
    integer is the big-endian value of the digest bytes. */
module Seed {

  newtype Byte = x: int | 0 <= x < 256

  /** A SHA-256 digest: 32 bytes. */
  type Sha256Value = d: seq<Byte> | |d| == 32 witness seq(32, _ => 0 as Byte)

  /** The hash of a password's encoding, as the hashing library computes it. */
  type Digest = string -> Sha256Value

  function Pow256(n: nat): (p: nat)
    ensures p > 0
  {
    if n == 0 then 1 else 256 * Pow256(n - 1)
  }

  /** The unsigned big-endian integer spelled by the bytes. */
  function BigEndian(bytes: seq<Byte>): (v: nat)
    ensures v < Pow256(|bytes|)
  {
    if |bytes| == 0 then 0
    else
      var high := BigEndian(bytes[..|bytes| - 1]);
      assert high + 1 <= Pow256(|bytes| - 1);
      high * 256 + bytes[|bytes| - 1] as nat
  }

  /** Two digests of the same length spell the same integer only if they are equal. */
  lemma {:induction false} BigEndianInjective(a: seq<Byte>, b: seq<Byte>)
    requires |a| == |b| && BigEndian(a) == BigEndian(b)
    ensures a == b
  {
    if |a| > 0 {
      var n := |a| - 1;
      assert BigEndian(a) == BigEndian(a[..n]) * 256 + a[n] as nat;
      assert BigEndian(b) == BigEndian(b[..n]) * 256 + b[n] as nat;
      assert a[n] == b[n];
      BigEndianInjective(a[..n], b[..n]);
      assert a == a[..n] + [a[n]];
      assert b == b[..n] + [b[n]];
    }
  }

  /** `generate_seed(password)`. */
  function GenerateSeed(digest: Digest, password: string): (seed: nat)
    ensures seed < Pow256(32)
  {
    BigEndian(digest(password))
  }

  /** Passwords whose digests differ get different seeds. */
  lemma DistinctDigestsDistinctSeeds(digest: Digest, pw1: string, pw2: string)
    requires digest(pw1) != digest(pw2)
    ensures GenerateSeed(digest, pw1) != GenerateSeed(digest, pw2)
  {
    if GenerateSeed(digest, pw1) == GenerateSeed(digest, pw2) {
      BigEndianInjective(digest(pw1), digest(pw2));
    }
  }
}
