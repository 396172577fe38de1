/**
 * The metadata version gate of the `submetadatan` crate: decoded runtime metadata
 * is accepted only in its V14 layout. The payloads of the layouts are never
 * inspected, so they are type parameters: `Earlier` for the layouts V0 to V13 and
 * `Latest` for V14.
 */
module Submetadatan {
  import opened Wrappers
  import opened Decimal

  /** `SubmetadatanError`. */
  datatype SubmetadatanError = UnsupportedVersion(version: u32)

  /** `RuntimeMetadata`: one variant per metadata layout version. */
  datatype RuntimeMetadata<Earlier, Latest> =
    | V0(v0: Earlier) | V1(v1: Earlier) | V2(v2: Earlier) | V3(v3: Earlier)
    | V4(v4: Earlier) | V5(v5: Earlier) | V6(v6: Earlier) | V7(v7: Earlier)
    | V8(v8: Earlier) | V9(v9: Earlier) | V10(v10: Earlier) | V11(v11: Earlier)
    | V12(v12: Earlier) | V13(v13: Earlier)
    | V14(v14: Latest)
  {
    /** `RuntimeMetadata::version`: the layout number of the variant. */
    function Version(): (n: u32)
      ensures n <= 14
      ensures n == 14 <==> V14?
    {
      match this
      case V0(_) => 0
      case V1(_) => 1
      case V2(_) => 2
      case V3(_) => 3
      case V4(_) => 4
      case V5(_) => 5
      case V6(_) => 6
      case V7(_) => 7
      case V8(_) => 8
      case V9(_) => 9
      case V10(_) => 10
      case V11(_) => 11
      case V12(_) => 12
      case V13(_) => 13
      case V14(_) => 14
    }
  }

  /** `RuntimeMetadataPrefixed(u32, RuntimeMetadata)`: a reserved magic word and the metadata. */
  datatype RuntimeMetadataPrefixed<Earlier, Latest> =
    RuntimeMetadataPrefixed(magic: u32, metadata: RuntimeMetadata<Earlier, Latest>)

  /**
   * `metadata(prefixed)`: the V14 payload unchanged, or `UnsupportedVersion` carrying the
   * rejected variant's version. Total: every input gets one of the two.
   */
  function Metadata<Earlier, Latest>(prefixed: RuntimeMetadataPrefixed<Earlier, Latest>)
    : (r: Result<Latest, SubmetadatanError>)
    ensures r.Success? <==> prefixed.metadata.V14?
    ensures r.Success? ==> r.value == prefixed.metadata.v14
    ensures r.Failure? ==> r.error.version == prefixed.metadata.Version() && r.error.version < 14
  {
    match prefixed.metadata
    case V14(latest) => Success(latest)
    case other => Failure(UnsupportedVersion(other.Version()))
  }

  /** The magic word is not inspected: it never changes the outcome. */
  lemma MagicIgnored<Earlier, Latest>(m1: u32, m2: u32, metadata: RuntimeMetadata<Earlier, Latest>)
    ensures Metadata(RuntimeMetadataPrefixed(m1, metadata)) == Metadata(RuntimeMetadataPrefixed(m2, metadata))
  {
  }

  /** Accepting is the inverse of wrapping a V14 payload: the gate returns exactly what was wrapped. */
  lemma AcceptsExactlyV14<Earlier, Latest>(magic: u32, metadata: RuntimeMetadata<Earlier, Latest>, latest: Latest)
    ensures Metadata(RuntimeMetadataPrefixed(magic, metadata)) == Success(latest) <==> metadata == V14(latest)
  {
  }
}
