/**
 * Storage-key derivation of the `substorager` crate under `substrate-minimal`:
 * the bytes that address an item of chain state, built from a pallet prefix, an
 * item name and an ordered list of (hasher, SCALE-encoded key) parameters.
 */
module Substorager {
  import opened Subhasher

  /** `StorageKey(pub Vec<u8>)`: an owned, fully derived storage address. */
  datatype StorageKey = StorageKey(bytes: Bytes) {
    /** `Deref<Target = [u8]>`: the bytes of the key, as they are. */
    function Deref(): (b: Bytes)
      ensures From(b) == this
    {
      bytes
    }
  }

  /** `StorageKey::new()`, the derived `Default`: the empty key. */
  function NewKey(): (k: StorageKey)
    ensures k.Deref() == []
  {
    StorageKey([])
  }

  /**
   * `From<Vec<u8>>`, `From<[u8; N]>` and `From<&[u8]>`: all three take the bytes over
   * unchanged, with no truncation or padding.
   */
  function From(v: Bytes): (k: StorageKey)
    ensures k.bytes == v && |k.bytes| == |v|
  {
    StorageKey(v)
  }

  datatype StorageHasher =
    | Blake2_128
    | Blake2_256
    | Blake2_128Concat
    | Twox128
    | Twox256
    | Twox64Concat
    | Identity
  {
    /** Length of the digest part of this hasher's output. */
    function DigestWidth(): (w: nat) {
      match this
      case Blake2_128 => 16
      case Blake2_256 => 32
      case Blake2_128Concat => 16
      case Twox128 => 16
      case Twox256 => 32
      case Twox64Concat => 8
      case Identity => 0
    }

    /** True of the hashers whose output ends with the hashed bytes themselves. */
    predicate Transparent() {
      Blake2_128Concat? || Twox64Concat? || Identity?
    }

    /** Length of this hasher's output for an input of `n` bytes. */
    function OutputWidth(n: nat): (w: nat) {
      DigestWidth() + if Transparent() then n else 0
    }
  }

  /** `StorageHasher::hash`: each variant applies the digest of the same name. */
  function Hash(d: Digests, hasher: StorageHasher, data: Bytes): (k: StorageKey) {
    match hasher
    case Blake2_128 => From(d.blake2b128(data))
    case Blake2_256 => From(d.blake2b256(data))
    case Blake2_128Concat => From(d.blake2b128Concat(data))
    case Twox128 => From(d.twox128(data))
    case Twox256 => From(d.twox256(data))
    case Twox64Concat => From(d.twox64Concat(data))
    case Identity => From(d.identity(data))
  }

  /**
   * Under the digest assumptions, every hasher's output has the width its name
   * promises, and a transparent hasher's output ends with the input unchanged.
   */
  lemma HashLayout(d: Digests, hasher: StorageHasher, data: Bytes)
    requires Conforms(d)
    ensures |Hash(d, hasher, data).bytes| == hasher.OutputWidth(|data|)
    ensures hasher.Transparent() ==> Hash(d, hasher, data).bytes[hasher.DigestWidth()..] == data
    ensures hasher.Identity? ==> Hash(d, hasher, data).bytes == data
  {
  }

  /** `storage_key(prefix, item)`: `twox128(prefix) ++ twox128(item)`. */
  function StorageKeyFor(d: Digests, prefix: Bytes, item: Bytes): (k: StorageKey) {
    From(d.twox128(prefix) + d.twox128(item))
  }

  /**
   * The root key is 32 bytes, whatever the lengths of the names: its first half
   * depends on the prefix alone and its second half on the item alone.
   */
  lemma StorageKeyLayout(d: Digests, prefix: Bytes, item: Bytes)
    requires Conforms(d)
    ensures |StorageKeyFor(d, prefix, item).bytes| == 32
    ensures StorageKeyFor(d, prefix, item).bytes[..16] == d.twox128(prefix)
    ensures StorageKeyFor(d, prefix, item).bytes[16..] == d.twox128(item)
  {
  }

  /** Two root keys are equal exactly when both halves' digests are. */
  lemma StorageKeyInjective(d: Digests, p1: Bytes, i1: Bytes, p2: Bytes, i2: Bytes)
    requires Conforms(d)
    ensures StorageKeyFor(d, p1, i1) == StorageKeyFor(d, p2, i2)
        <==> d.twox128(p1) == d.twox128(p2) && d.twox128(i1) == d.twox128(i2)
  {
    var k1, k2 := StorageKeyFor(d, p1, i1).bytes, StorageKeyFor(d, p2, i2).bytes;
    if k1 == k2 {
      StorageKeyLayout(d, p1, i1);
      StorageKeyLayout(d, p2, i2);
      assert k1[..16] == k2[..16] && k1[16..] == k2[16..];
    }
  }

  /** `storage_map_key(prefix, item, (hasher, key))`: the root key followed by the key's hash. */
  function StorageMapKey(d: Digests, prefix: Bytes, item: Bytes, key: (StorageHasher, Bytes)): (k: StorageKey)
    ensures StorageKeyFor(d, prefix, item).bytes <= k.bytes
  {
    var root := StorageKeyFor(d, prefix, item);
    From(root.bytes + Hash(d, key.0, key.1).bytes)
  }

  /** Under the digest assumptions the map key is 32 bytes of root and then exactly the key's hash. */
  lemma StorageMapKeyLayout(d: Digests, prefix: Bytes, item: Bytes, key: (StorageHasher, Bytes))
    requires Conforms(d)
    ensures |StorageMapKey(d, prefix, item, key).bytes| == 32 + key.0.OutputWidth(|key.1|)
    ensures StorageMapKey(d, prefix, item, key).bytes[32..] == Hash(d, key.0, key.1).bytes
  {
    HashLayout(d, key.0, key.1);
    StorageKeyLayout(d, prefix, item);
  }

  /**
   * `storage_double_map_key(prefix, item, key1, key2)`: the root key, then the first
   * key's hash, then the second's; that is, the map key of `key1` followed by `key2`'s hash.
   */
  function StorageDoubleMapKey(d: Digests, prefix: Bytes, item: Bytes,
                               key1: (StorageHasher, Bytes), key2: (StorageHasher, Bytes)): (k: StorageKey)
    ensures k.bytes == StorageMapKey(d, prefix, item, key1).bytes + Hash(d, key2.0, key2.1).bytes
  {
    var root := StorageKeyFor(d, prefix, item);
    From(root.bytes + Hash(d, key1.0, key1.1).bytes + Hash(d, key2.0, key2.1).bytes)
  }

  /** One builder parameter: a hasher and the SCALE encoding of the value it hashes. */
  type Param = (StorageHasher, Bytes)

  /** What the builder appends for a parameter list: each parameter's hash, in insertion order. */
  function HashedParams(d: Digests, params: seq<Param>): (b: Bytes) {
    if params == [] then []
    else
      var last := params[|params| - 1];
      HashedParams(d, params[..|params| - 1]) + Hash(d, last.0, last.1).bytes
  }

  /** The key that a builder with these names and parameters derives. */
  function BuiltKey(d: Digests, pallet: Bytes, storage: Bytes, params: seq<Param>): (k: StorageKey) {
    From(StorageKeyFor(d, pallet, storage).bytes + HashedParams(d, params))
  }

  /** Sum of the output widths of the parameters' hashes. */
  function HashedWidth(params: seq<Param>): (w: nat) {
    if params == [] then 0
    else
      var last := params[|params| - 1];
      HashedWidth(params[..|params| - 1]) + last.0.OutputWidth(|last.1|)
  }

  /** Hashing a parameter list hashes its two halves and concatenates them. */
  lemma {:induction false} HashedParamsAppend(d: Digests, ps: seq<Param>, qs: seq<Param>)
    ensures HashedParams(d, ps + qs) == HashedParams(d, ps) + HashedParams(d, qs)
    decreases |qs|
  {
    if qs == [] {
      assert ps + qs == ps;
    } else {
      var n := |qs| - 1;
      assert (ps + qs)[..|ps + qs| - 1] == ps + qs[..n];
      assert (ps + qs)[|ps + qs| - 1] == qs[n];
      HashedParamsAppend(d, ps, qs[..n]);
    }
  }

  /** Under the digest assumptions the parameters add exactly the sum of their hashes' widths. */
  lemma {:induction false} HashedParamsLength(d: Digests, params: seq<Param>)
    requires Conforms(d)
    ensures |HashedParams(d, params)| == HashedWidth(params)
    decreases |params|
  {
    if params != [] {
      var last := params[|params| - 1];
      HashedParamsLength(d, params[..|params| - 1]);
      HashLayout(d, last.0, last.1);
    }
  }

  /** A built key is 32 bytes of root plus the width of every parameter's hash. */
  lemma BuiltKeyLength(d: Digests, pallet: Bytes, storage: Bytes, params: seq<Param>)
    requires Conforms(d)
    ensures |BuiltKey(d, pallet, storage, params).bytes| == 32 + HashedWidth(params)
  {
    HashedParamsLength(d, params);
    StorageKeyLayout(d, pallet, storage);
  }

  /** With no parameters the builder derives the root key. */
  lemma BuiltKeyNoParams(d: Digests, pallet: Bytes, storage: Bytes)
    ensures BuiltKey(d, pallet, storage, []) == StorageKeyFor(d, pallet, storage)
  {
  }

  /** With one parameter the builder derives the map key. */
  lemma BuiltKeyOneParam(d: Digests, pallet: Bytes, storage: Bytes, key: Param)
    ensures BuiltKey(d, pallet, storage, [key]) == StorageMapKey(d, pallet, storage, key)
  {
    assert [key][..0] == [];
    assert HashedParams(d, [key]) == [] + Hash(d, key.0, key.1).bytes == Hash(d, key.0, key.1).bytes;
  }

  /** With two parameters the builder derives the double-map key, in parameter order. */
  lemma BuiltKeyTwoParams(d: Digests, pallet: Bytes, storage: Bytes, key1: Param, key2: Param)
    ensures BuiltKey(d, pallet, storage, [key1, key2]) == StorageDoubleMapKey(d, pallet, storage, key1, key2)
  {
    var root := StorageKeyFor(d, pallet, storage).bytes;
    var h1, h2 := Hash(d, key1.0, key1.1).bytes, Hash(d, key2.0, key2.1).bytes;
    assert [key1, key2][..1] == [key1];
    assert [key1][..0] == [];
    assert HashedParams(d, [key1]) == [] + h1 == h1;
    assert HashedParams(d, [key1, key2]) == h1 + h2;
    assert root + (h1 + h2) == root + h1 + h2;
  }

  /** Adding parameters only extends a built key: the earlier key is a prefix of the later one. */
  lemma BuiltKeyExtends(d: Digests, pallet: Bytes, storage: Bytes, ps: seq<Param>, qs: seq<Param>)
    ensures BuiltKey(d, pallet, storage, ps + qs).bytes
         == BuiltKey(d, pallet, storage, ps).bytes + HashedParams(d, qs)
  {
    HashedParamsAppend(d, ps, qs);
  }

  /**
   * The value of a parameter with a transparent hasher appears verbatim in the built
   * key, right after its digest, at an offset fixed by the parameters before it: the
   * builder never truncates or reorders the caller's bytes.
   */
  lemma TransparentParamInKey(d: Digests, pallet: Bytes, storage: Bytes,
                              ps: seq<Param>, p: Param, qs: seq<Param>)
    requires Conforms(d) && p.0.Transparent()
    ensures var at := 32 + HashedWidth(ps) + p.0.DigestWidth();
            var key := BuiltKey(d, pallet, storage, ps + [p] + qs).bytes;
            at + |p.1| <= |key| && key[at..at + |p.1|] == p.1
  {
    var h := Hash(d, p.0, p.1).bytes;
    BuiltKeyAround(d, pallet, storage, ps, p, qs);
    BuiltKeyLength(d, pallet, storage, ps);
    HashLayout(d, p.0, p.1);
    SliceInMiddle(BuiltKey(d, pallet, storage, ps).bytes, h, HashedParams(d, qs), p.0.DigestWidth(), p.1);
  }

  /** A built key is the key of the parameters before `p`, then `p`'s hash, then the later parameters' hashes. */
  lemma BuiltKeyAround(d: Digests, pallet: Bytes, storage: Bytes, ps: seq<Param>, p: Param, qs: seq<Param>)
    ensures BuiltKey(d, pallet, storage, ps + [p] + qs).bytes
         == BuiltKey(d, pallet, storage, ps).bytes + Hash(d, p.0, p.1).bytes + HashedParams(d, qs)
  {
    HashedParamsAppend(d, ps + [p], qs);
    HashedParamsAppend(d, ps, [p]);
    assert [p][..0] == [];
    assert HashedParams(d, [p]) == Hash(d, p.0, p.1).bytes;
  }

  /** The tail `v` of the middle part `h` of `a + h + c` sits right after `a` and `h`'s first `w` bytes. */
  lemma SliceInMiddle(a: Bytes, h: Bytes, c: Bytes, w: nat, v: Bytes)
    requires w <= |h| && h[w..] == v
    ensures |a| + w + |v| <= |a + h + c| && (a + h + c)[|a| + w..|a| + w + |v|] == v
  {
  }

  /**
   * Parameter order matters: two identity-hashed parameters of the same length derive
   * the same key in either order exactly when they are the same value.
   */
  lemma ParamOrderMatters(d: Digests, pallet: Bytes, storage: Bytes, a: Bytes, b: Bytes)
    requires Conforms(d) && |a| == |b|
    ensures var inOrder := BuiltKey(d, pallet, storage, [(Identity, a), (Identity, b)]);
            var swapped := BuiltKey(d, pallet, storage, [(Identity, b), (Identity, a)]);
            inOrder == swapped <==> a == b
  {
    var root := StorageKeyFor(d, pallet, storage).bytes;
    BuiltKeyTwoParams(d, pallet, storage, (Identity, a), (Identity, b));
    BuiltKeyTwoParams(d, pallet, storage, (Identity, b), (Identity, a));
    var kab := BuiltKey(d, pallet, storage, [(Identity, a), (Identity, b)]).bytes;
    var kba := BuiltKey(d, pallet, storage, [(Identity, b), (Identity, a)]).bytes;
    assert kab == root + a + b;
    assert kba == root + b + a;
    assert kab[|root|..|root| + |a|] == a;
    assert kba[|root|..|root| + |a|] == b;
  }

  /**
   * `StorageKeyBuilder`: a pallet name, an item name and the parameters added so far,
   * grown in place by `Param` and read by `Build`.
   */
  class StorageKeyBuilder {
    var pallet: Bytes
    var storage: Bytes
    var params: seq<Param>

    /** `StorageKeyBuilder::new(pallet, storage)`; the names are given as their UTF-8 bytes. */
    constructor (pallet: Bytes, storage: Bytes)
      ensures this.pallet == pallet && this.storage == storage && params == []
    {
      this.pallet := pallet;
      this.storage := storage;
      params := [];
    }

    /** `param(hasher, value)`: appends one parameter and returns the builder for chaining. */
    method Param(hasher: StorageHasher, value: Bytes) returns (self: StorageKeyBuilder)
      modifies this
      ensures params == old(params) + [(hasher, value)]
      ensures pallet == old(pallet) && storage == old(storage)
      ensures self == this
    {
      params := params + [(hasher, value)];
      self := this;
    }

    /** `build()`: the root key extended by each parameter's hash in insertion order; reads only. */
    method Build(d: Digests) returns (key: StorageKey)
      ensures key == BuiltKey(d, pallet, storage, params)
    {
      var prefix := StorageKeyFor(d, pallet, storage);
      if params == [] {
        return prefix;
      }
      for i := 0 to |params|
        invariant prefix.bytes == StorageKeyFor(d, pallet, storage).bytes + HashedParams(d, params[..i])
      {
        var (hasher, value) := params[i];
        var hash := Hash(d, hasher, value);
        assert params[..i + 1][..i] == params[..i];
        prefix := From(prefix.bytes + hash.bytes);
      }
      assert params[..|params|] == params;
      key := prefix;
    }
  }

  /** `StorageKey::builder(pallet, storage)`: a fresh builder. */
  method Builder(pallet: Bytes, storage: Bytes) returns (b: StorageKeyBuilder)
    ensures fresh(b) && b.pallet == pallet && b.storage == storage && b.params == []
  {
    b := new StorageKeyBuilder(pallet, storage);
  }

  /**
   * A caller's use of the builder: two chained `param` calls and two `build` calls.
   * Both builds give the double-map key of the two parameters in call order.
   */
  method BuildDoubleMapKey(d: Digests, pallet: Bytes, storage: Bytes, key1: Param, key2: Param)
    returns (first: StorageKey, second: StorageKey)
    ensures first == second == StorageDoubleMapKey(d, pallet, storage, key1, key2)
  {
    var b := new StorageKeyBuilder(pallet, storage);
    var _ := b.Param(key1.0, key1.1);
    var _ := b.Param(key2.0, key2.1);
    assert b.params == [key1, key2];
    first := b.Build(d);
    second := b.Build(d);
    BuiltKeyTwoParams(d, pallet, storage, key1, key2);
  }
}
