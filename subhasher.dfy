/**
 * The digest functions of the `subhasher` crate, used by both storage-key crates.
 * Their implementations (BLAKE2b and xxHash based) are not part of this model: a
 * `Digests` value supplies them, and `Conforms` states, as explicit assumptions,
 * the output widths their names promise and the shape of the two "concat" digests
 * and of `identity`.
 */
module Subhasher {

  type byte = x: int | 0 <= x < 256
  type Bytes = seq<byte>

  datatype Digests = Digests(
    blake2b128: Bytes -> Bytes,
    blake2b256: Bytes -> Bytes,
    blake2b128Concat: Bytes -> Bytes,
    twox64: Bytes -> Bytes,
    twox128: Bytes -> Bytes,
    twox256: Bytes -> Bytes,
    twox64Concat: Bytes -> Bytes,
    identity: Bytes -> Bytes)

  /** The assumptions about the digest functions that the lemmas of this model rely on. */
  ghost predicate Conforms(d: Digests) {
    && (forall x :: |d.blake2b128(x)| == 16)
    && (forall x :: |d.blake2b256(x)| == 32)
    && (forall x :: |d.twox64(x)| == 8)
    && (forall x :: |d.twox128(x)| == 16)
    && (forall x :: |d.twox256(x)| == 32)
    && (forall x :: d.blake2b128Concat(x) == d.blake2b128(x) + x)
    && (forall x :: d.twox64Concat(x) == d.twox64(x) + x)
    && (forall x :: d.identity(x) == x)
  }

  function Zeros(n: nat): (z: Bytes)
    ensures |z| == n && forall i :: 0 <= i < n ==> z[i] == 0
  {
    seq(n, _ => 0)
  }

  /** A family of digests that meets the assumptions, so that `Conforms` is satisfiable. */
  function Placeholder(): (d: Digests)
    ensures Conforms(d)
  {
    Digests(
      x => Zeros(16), x => Zeros(32), x => Zeros(16) + x,
      x => Zeros(8), x => Zeros(16), x => Zeros(32), x => Zeros(8) + x,
      x => x)
  }
}
