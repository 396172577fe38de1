/**
 * The older, stand-alone `substorager` crate: the same key layout as the
 * `substrate-minimal` crate, with keys returned as plain byte vectors.
 */
module LegacySubstorager {
  import opened Subhasher
  import Substorager

  /** `StorageType`: how many hashed keys address an item, and with which hashers. */
  datatype StorageType =
    | Plain
    | Map(hasher: StorageHasher)
    | DoubleMap(hasher1: StorageHasher, hasher2: StorageHasher)

  datatype StorageHasher =
    | Blake2_128
    | Blake2_256
    | Blake2_128Concat
    | Twox128
    | Twox256
    | Twox64Concat
    | Identity

  /** `StorageHasher::hash`: each variant applies the digest of the same name. */
  function Hash(d: Digests, hasher: StorageHasher, data: Bytes): (h: Bytes) {
    match hasher
    case Blake2_128 => d.blake2b128(data)
    case Blake2_256 => d.blake2b256(data)
    case Blake2_128Concat => d.blake2b128Concat(data)
    case Twox128 => d.twox128(data)
    case Twox256 => d.twox256(data)
    case Twox64Concat => d.twox64Concat(data)
    case Identity => d.identity(data)
  }

  /** The same-named hasher of the `substrate-minimal` crate. */
  function Modern(hasher: StorageHasher): (m: Substorager.StorageHasher) {
    match hasher
    case Blake2_128 => Substorager.Blake2_128
    case Blake2_256 => Substorager.Blake2_256
    case Blake2_128Concat => Substorager.Blake2_128Concat
    case Twox128 => Substorager.Twox128
    case Twox256 => Substorager.Twox256
    case Twox64Concat => Substorager.Twox64Concat
    case Identity => Substorager.Identity
  }

  /**
   * The two crates' `hash` agree variant by variant, so each legacy hasher has the
   * output width and, for the transparent ones, the verbatim tail that the newer
   * crate's hasher of the same name has.
   */
  lemma HashAgrees(d: Digests, hasher: StorageHasher, data: Bytes)
    requires Conforms(d)
    ensures Hash(d, hasher, data) == Substorager.Hash(d, Modern(hasher), data).bytes
    ensures |Hash(d, hasher, data)| == Modern(hasher).OutputWidth(|data|)
    ensures Modern(hasher).Transparent() ==> Hash(d, hasher, data)[Modern(hasher).DigestWidth()..] == data
  {
    Substorager.HashLayout(d, Modern(hasher), data);
  }

  /** `storage_value_key(prefix, item)`: `twox_128(prefix) ++ twox_128(item)`. */
  function StorageValueKey(d: Digests, prefix: Bytes, item: Bytes): (k: Bytes) {
    d.twox128(prefix) + d.twox128(item)
  }

  /** The value key is 32 bytes: the prefix's digest, then the item's. */
  lemma StorageValueKeyLayout(d: Digests, prefix: Bytes, item: Bytes)
    requires Conforms(d)
    ensures |StorageValueKey(d, prefix, item)| == 32
    ensures StorageValueKey(d, prefix, item)[..16] == d.twox128(prefix)
    ensures StorageValueKey(d, prefix, item)[16..] == d.twox128(item)
  {
  }

  /** `storage_map_key(prefix, item, key)`: the value key, then the hash of `key.1` by `key.0`. */
  function StorageMapKey(d: Digests, prefix: Bytes, item: Bytes, key: (StorageHasher, Bytes)): (k: Bytes)
    ensures StorageValueKey(d, prefix, item) <= k
  {
    var k := StorageValueKey(d, prefix, item);
    k + Hash(d, key.0, key.1)
  }

  /** `storage_double_map_key(prefix, item, key1, key2)`: the value key, `key1`'s hash, then `key2`'s. */
  function StorageDoubleMapKey(d: Digests, prefix: Bytes, item: Bytes,
                               key1: (StorageHasher, Bytes), key2: (StorageHasher, Bytes)): (k: Bytes)
    ensures k == StorageMapKey(d, prefix, item, key1) + Hash(d, key2.0, key2.1)
  {
    var k := StorageValueKey(d, prefix, item);
    k + Hash(d, key1.0, key1.1) + Hash(d, key2.0, key2.1)
  }

  /**
   * Key lengths: 32 bytes of value key plus the width of each appended hash, and the
   * hashes sit at fixed offsets in argument order.
   */
  lemma KeyLengths(d: Digests, prefix: Bytes, item: Bytes,
                   key1: (StorageHasher, Bytes), key2: (StorageHasher, Bytes))
    requires Conforms(d)
    ensures var w1 := Modern(key1.0).OutputWidth(|key1.1|);
            var w2 := Modern(key2.0).OutputWidth(|key2.1|);
            var map1 := StorageMapKey(d, prefix, item, key1);
            var double := StorageDoubleMapKey(d, prefix, item, key1, key2);
            && |map1| == 32 + w1
            && |double| == 32 + w1 + w2
            && double[32..32 + w1] == Hash(d, key1.0, key1.1)
            && double[32 + w1..] == Hash(d, key2.0, key2.1)
  {
    HashAgrees(d, key1.0, key1.1);
    HashAgrees(d, key2.0, key2.1);
    StorageValueKeyLayout(d, prefix, item);
  }

  /** The older crate derives byte for byte the keys the `substrate-minimal` crate derives. */
  lemma KeysAgree(d: Digests, prefix: Bytes, item: Bytes,
                  key1: (StorageHasher, Bytes), key2: (StorageHasher, Bytes))
    ensures StorageValueKey(d, prefix, item) == Substorager.StorageKeyFor(d, prefix, item).bytes
    ensures StorageMapKey(d, prefix, item, key1)
         == Substorager.StorageMapKey(d, prefix, item, (Modern(key1.0), key1.1)).bytes
    ensures StorageDoubleMapKey(d, prefix, item, key1, key2)
         == Substorager.StorageDoubleMapKey(d, prefix, item, (Modern(key1.0), key1.1), (Modern(key2.0), key2.1)).bytes
  {
  }
}
