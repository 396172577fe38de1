# subalfred core, modelled in Dafny

This project models four pieces of the `subalfred` Substrate toolkit and proves what they guarantee.

- **Storage-key derivation** covers both `substorager` crates.
  - A storage key addresses one item of chain state.
  - It is `twox128(pallet) ++ twox128(item)`, followed by the hash of each key parameter in caller order.
  - Modules `Subhasher`, `Substorager` (the `substrate-minimal` crate) and `LegacySubstorager` (the older stand-alone crate).
  - `StorageKeyBuilder` is a class. Its `params` sequence is grown in place by `Param`, and `Build` loops over it.
- **The runtime-version extractor** `extract_runtime_version`.
  - It finds the first `pub const VERSION: RuntimeVersion = RuntimeVersion { … }` block of a runtime's source text and reads six fields out of it: two names inside `create_runtime_str!("…")` and four `u32` numbers.
  - Modules `Decimal` and `RuntimeVersionExtractor`.
  - Each regular expression is a hand-written matcher. Lemmas prove each matcher agrees with what its expression reads.
  - The partner of extraction is a writer, in module `RuntimeVersionRoundTrip`. A record written as a `VERSION` block is extracted as that record. Its field lines may come in any order, mixed with lines that hold no field. Any text may follow the block, and any text in which no block match starts may precede it.
- **The supervisor loop of `check runtime`**, module `RuntimeCheck`.
  - It spawns a local node on port 23333 and checks the requested properties against a live chain in order.
  - It stops at the first failure. Once the node is spawned, it is killed on every path on which `run` returns.
  - Spawning, the two checks and killing are an `Environment` of outcomes.
  - `Run` returns its result, the calls it made and the lines it printed. Each of the three is proved equal to a specification function.
- **The metadata version gate** `metadata`, module `Submetadatan`. It accepts only the V14 layout of runtime metadata and rejects every other layout with that layout's version.

The digest functions of the `subhasher` crate (BLAKE2b and xxHash) are not part of this model.
- They are a parameter `d: Digests` of the key functions.
- The predicate `Subhasher.Conforms(d)` states the properties the lemmas rely on. These are the output widths the names promise (16, 32, `16 + n`, `8 + n` bytes) and the shape of the "concat" digests and of `identity`.
- Every lemma that uses them requires `Conforms(d)` explicitly.
- `Subhasher.Placeholder` exhibits a family of digests that meets these assumptions, which shows they are satisfiable.

Three details of `extract_runtime_version` shape the model:
- `extract_runtime_version` does not report per-field failures. It reads the fields in a fixed order and panics (`unwrap`) at the first one that fails. The model returns the error of that first failing field (`FieldNotFound` or `MalformedInteger`), or `BlockNotFound`, in place of the panic, and no partial record.
- The fields are searched in the whole match of the block pattern, header included, not in its capture group.
- The block ends at the first `}` after at least one character following the header's `{`.

## Model

| member | source | states |
|---|---|---|
| Substorager.NewKey | substrate-minimal/substorager/src/lib.rs:13-16 | `StorageKey::new()` is the key with no bytes |
| Substorager.StorageKey.Deref | substrate-minimal/substorager/src/lib.rs:24-30 | dereferencing gives the key's bytes, and converting them back gives the same key |
| Substorager.From | substrate-minimal/substorager/src/lib.rs:38-54 | the three `From` conversions keep the bytes exactly, with the same length: no truncation, no padding |
| Substorager.Hash | substrate-minimal/substorager/src/lib.rs:78-90 | no `ensures` of its own: `hash` applies the digest its variant names; its widths and shapes are stated by `HashLayout` |
| Substorager.HashLayout | substrate-minimal/substorager/src/lib.rs:78-90 | each hasher's output has the width its name promises; the concat hashers and `Identity` end with the input unchanged, and `Identity` is the input |
| Substorager.StorageKeyFor | substrate-minimal/substorager/src/lib.rs:92-99 | no `ensures` of its own: `storage_key` is `twox128(prefix) ++ twox128(item)`; its layout and injectivity are stated by `StorageKeyLayout` and `StorageKeyInjective` |
| Substorager.StorageKeyLayout | substrate-minimal/substorager/src/lib.rs:92-99 | `storage_key` is 32 bytes; the first 16 are `twox128(prefix)` and the last 16 are `twox128(item)` |
| Substorager.StorageKeyInjective | substrate-minimal/substorager/src/lib.rs:92-99 | two root keys are equal if and only if the digests of both prefixes and of both items are equal |
| Substorager.StorageMapKey | substrate-minimal/substorager/src/lib.rs:101-107 | the root key is a prefix of the map key |
| Substorager.StorageMapKeyLayout | substrate-minimal/substorager/src/lib.rs:101-107 | the map key is 32 bytes of root followed by exactly the key's hash, so its length is 32 plus the hash's width |
| Substorager.StorageDoubleMapKey | substrate-minimal/substorager/src/lib.rs:109-121 | the double-map key is the map key of `key1` followed by `key2`'s hash, in argument order |
| Substorager.HashedParamsAppend | substrate-minimal/substorager/src/lib.rs:152-155 | hashing a parameter list hashes each half and concatenates the results |
| Substorager.HashedParamsLength | substrate-minimal/substorager/src/lib.rs:152-155 | the parameters add exactly the sum of their hashes' widths |
| Substorager.BuiltKeyLength | substrate-minimal/substorager/src/lib.rs:147-158 | a built key's length is 32 plus the sum of the parameters' hash widths |
| Substorager.BuiltKeyNoParams | substrate-minimal/substorager/src/lib.rs:147-150 | a builder with no parameters builds `storage_key(pallet, storage)` |
| Substorager.BuiltKeyOneParam | substrate-minimal/substorager/src/lib.rs:147-158 | a builder with one parameter builds `storage_map_key` of it |
| Substorager.BuiltKeyTwoParams | substrate-minimal/substorager/src/lib.rs:147-158 | a builder with parameters `[k1, k2]` builds `storage_double_map_key(…, k1, k2)` |
| Substorager.BuiltKeyExtends | substrate-minimal/substorager/src/lib.rs:141-158 | adding parameters only extends a built key: the earlier key is a prefix of the later one, and the rest is the new parameters' hashes |
| Substorager.BuiltKeyAround | substrate-minimal/substorager/src/lib.rs:152-155 | in a built key, a parameter's hash sits between the key of the parameters before it and the hashes of those after it |
| Substorager.TransparentParamInKey | substrate-minimal/substorager/src/lib.rs:141-158 | the bytes of a parameter with a concat or identity hasher appear verbatim in the key, at an offset fixed by the earlier parameters' widths |
| Substorager.ParamOrderMatters | substrate-minimal/substorager/src/lib.rs:152-155 | two identity-hashed parameters of the same length build the same key in both orders if and only if they are equal |
| Substorager.StorageKeyBuilder.constructor | substrate-minimal/substorager/src/lib.rs:133-139 | a new builder holds the two names and no parameters |
| Substorager.StorageKeyBuilder.Param | substrate-minimal/substorager/src/lib.rs:141-145 | `param` appends exactly one `(hasher, value)` at the end, leaves both names unchanged and returns the same builder |
| Substorager.StorageKeyBuilder.Build | substrate-minimal/substorager/src/lib.rs:147-158 | `build` changes nothing and returns the root key followed by each parameter's hash in insertion order |
| Substorager.Builder | substrate-minimal/substorager/src/lib.rs:18-21 | `StorageKey::builder` returns a fresh builder with the two names and no parameters |
| Substorager.BuildDoubleMapKey | substrate-minimal/substorager/src/lib.rs:141-158 | two chained `param` calls and two `build` calls give equal keys, both the double-map key of the parameters in call order |
| LegacySubstorager.Hash | substorager/src/lib.rs:21-36 | no `ensures` of its own: the older crate's `hash` applies the digest its variant names; `HashAgrees` states it equals the newer crate's |
| LegacySubstorager.HashAgrees | substorager/src/lib.rs:21-36 | the older crate's `hash` equals the newer crate's, variant by variant, with the same widths and verbatim tails |
| LegacySubstorager.StorageValueKey | substorager/src/lib.rs:53-59 | no `ensures` of its own: `storage_value_key` is `twox_128(prefix) ++ twox_128(item)`; `StorageValueKeyLayout` and `KeysAgree` state its layout and its agreement with `storage_key` |
| LegacySubstorager.StorageValueKeyLayout | substorager/src/lib.rs:53-59 | `storage_value_key` is 32 bytes: `twox_128(prefix)` and then `twox_128(item)` |
| LegacySubstorager.StorageMapKey | substorager/src/lib.rs:61-70 | the value key is a prefix of the map key |
| LegacySubstorager.StorageDoubleMapKey | substorager/src/lib.rs:72-83 | the double-map key is the map key of `key1` followed by `key2`'s hash |
| LegacySubstorager.KeyLengths | substorager/src/lib.rs:53-83 | key lengths are 32 plus each appended hash's width, and the hashes sit at fixed offsets in argument order |
| LegacySubstorager.KeysAgree | substorager/src/lib.rs:53-83 | both crates derive the same bytes for the value, map and double-map keys |
| Decimal.ParseU32 | src/substrate/node.rs:142-157 | `parse::<u32>()` of a digit run succeeds if and only if its value is at most `u32::MAX`, and then gives that value |
| Decimal.ValueOfText | src/substrate/node.rs:142-157 | reading a written decimal numeral gives back its number |
| Decimal.ParseText | src/substrate/node.rs:142-157 | every `u32`, written and parsed, is itself |
| RuntimeVersionExtractor.SpellsIffMatch | src/substrate/node.rs:123-127 | a matcher that takes whole runs of spaces ends exactly where the text reads as the expression's words and lazy space runs |
| RuntimeVersionExtractor.ThroughBrace | src/substrate/node.rs:127 | `(?s)(.+?)\}` ends just past the first `}` after at least one character, newlines included |
| RuntimeVersionExtractor.CloseQuote | src/substrate/node.rs:123 | `(.+?)"\)` captures the shortest non-empty text on one line that is followed by `")` |
| RuntimeVersionExtractor.DigitsEnd | src/substrate/node.rs:124 | `(\d+)` takes the maximal run of digits |
| RuntimeVersionExtractor.MatchAt | src/substrate/node.rs:123-129 | a match of any of the three patterns at `q` spans positions of the text from `q` on, and a number match's capture is a non-empty run of digits; what each pattern matches is stated by `BlockMatchIff`, `NameMatchIff` and `NumberMatchIff` |
| RuntimeVersionExtractor.BlockMatchIff | src/substrate/node.rs:126-129 | the block pattern matches from `q` to `e` if and only if the text there reads as the header, at least one character follows it, and `e` is just past the first `}` after that character |
| RuntimeVersionExtractor.NameMatchIff | src/substrate/node.rs:123 | a name pattern matches with capture `t[a..b]` if and only if the text reads as the field name, `:` and `create_runtime_str!("` with only spaces between them, and `t[a..b]` is the shortest non-empty one-line text before `")` |
| RuntimeVersionExtractor.NumberMatchIff | src/substrate/node.rs:124 | a number pattern matches with capture `t[a..b]` if and only if the text reads as the field name and `:` with only spaces around it, and `t[a..b]` is the whole non-empty digit run after that |
| RuntimeVersionExtractor.NonSpaceBeforeColon | src/substrate/node.rs:123-124 | a field name followed by anything other than a space or `:` (a tab, say) is no match of that field |
| RuntimeVersionExtractor.Find | src/substrate/node.rs:139-157 | `captures` takes the leftmost position where the pattern matches; nothing matches before it |
| RuntimeVersionExtractor.FindIs | src/substrate/node.rs:139-157 | a matching position with no match before it is the one `captures` takes |
| RuntimeVersionExtractor.Capture | src/substrate/node.rs:139-157 | a number pattern's capture is a non-empty run of digits; that a capture is the kept part of the leftmost match is stated by `Find`, `FindIs` and the `Extract…` lemmas |
| RuntimeVersionExtractor.Extract | src/substrate/node.rs:122-171 | no `ensures` of its own: what it returns is stated by `ExtractStops`, `ExtractRecord`, `ExtractValue`, `ExtractSucceedsIff`, `ExtractBlockNotFound`, `ExtractFieldNotFound` and `ExtractMalformedInteger`, and its round trip by `RuntimeVersionRoundTrip.ExtractWritten` |
| RuntimeVersionExtractor.ExtractStops | src/substrate/node.rs:139-157 | without a block extraction fails with `BlockNotFound`; with one it succeeds if and only if every field reads, and otherwise fails with the error of the first field, in reading order, that does not |
| RuntimeVersionExtractor.ExtractRecord | src/substrate/node.rs:159-166 | a successful extraction is the record of the six fields' readings in the located block |
| RuntimeVersionExtractor.ExtractValue | src/substrate/node.rs:139-166 | in a successful extraction each field is what its pattern captured in the block (for numbers, the value of the digits) |
| RuntimeVersionExtractor.ExtractSucceedsIff | src/substrate/node.rs:122-171 | extraction succeeds if and only if the block is found and every field reads in it; no partial record is produced |
| RuntimeVersionExtractor.ExtractBlockNotFound | src/substrate/node.rs:139 | `BlockNotFound` is reported if and only if the block pattern finds nothing |
| RuntimeVersionExtractor.ExtractFieldNotFound | src/substrate/node.rs:140-157 | `FieldNotFound(f)` means the block was found, `f`'s pattern finds nothing in it, and every field read before `f` was read |
| RuntimeVersionExtractor.ExtractMalformedInteger | src/substrate/node.rs:142-157 | `MalformedInteger(f)` means `f` is a number field whose digits were found but exceed `u32::MAX`, after every earlier field was read |
| RuntimeVersionRoundTrip.RenderSpells | src/substrate/node.rs:123-127 | a written prefix reads as the expression it is written for |
| RuntimeVersionRoundTrip.BlockCaptured | src/substrate/node.rs:126-129 | a header, a body without `}` and a closing `}` are captured whole, after any text in which no block match starts and before any text |
| RuntimeVersionRoundTrip.PreambleWithoutPub | src/substrate/node.rs:126-129 | every block match starts with `pub`, so no match starts in text without `pub` that precedes a text starting with `p` |
| RuntimeVersionRoundTrip.FieldCaptured | src/substrate/node.rs:140-157 | in a written block each field's pattern captures exactly what was written for it, wherever its line is |
| RuntimeVersionRoundTrip.ExtractWritten | src/substrate/node.rs:122-171 | a record written as a `VERSION` block is extracted as that record. Its six field lines may come in any order among any lines that hold no `}` and no field name followed by `:`. Any text may follow, and any text in which no block match starts may precede |
| RuntimeVersionRoundTrip.OrderIrrelevant | src/substrate/node.rs:140-157 | neither the order of the field lines nor the other lines of the block change what is extracted |
| RuntimeVersionRoundTrip.NodeExample | src/substrate/node.rs:159-166 | a block with the values `"node"`, `"node"`, 10, 9180, 0, 14 is extracted as those six values. It is laid out like the node runtime's block, with its `apis: RUNTIME_API_VERSIONS,` line before `transaction_version` and its `state_version: 1,` line last, after any text without `pub` |
| RuntimeCheck.LocalEndpointUsesNodePort | src/bin/subalfred/command/check/runtime.rs:35-36 | the local endpoint names the port the node is spawned on, 23333 |
| RuntimeCheck.PrintEntryDiffs | src/bin/subalfred/command/check/runtime.rs:51-57 | one pallet's entries print as a `Pallet:` header, the entries in order, and a blank line |
| RuntimeCheck.PrintStorageDiffs | src/bin/subalfred/command/check/runtime.rs:41-57 | a storage report prints the pallet diffs and a blank line when there are any, then each pallet's entry section in order |
| RuntimeCheck.StorageLinesSilentIffNoDiff | src/bin/subalfred/command/check/runtime.rs:43-57 | a storage report prints nothing if and only if both diffs are empty, and a non-empty pallet diff comes first with its blank line |
| RuntimeCheck.FirstFailure | src/bin/subalfred/command/check/runtime.rs:39-73 | the first failing check: every check before it succeeds and it fails, or every check succeeds |
| RuntimeCheck.CheckProperty | src/bin/subalfred/command/check/runtime.rs:40-71 | one loop turn makes the check of its property against the local endpoint, and returns what a success prints or the failure's error |
| RuntimeCheck.Run | src/bin/subalfred/command/check/runtime.rs:32-78 | `run`, which kills the node inside the loop at the first failing check (the two failure arms at lines 59-62 and 67-70) and otherwise after the loop (line 75), returns the specified result, makes the specified calls and prints the specified lines |
| RuntimeCheck.SpawnFirstAndOnce | src/bin/subalfred/command/check/runtime.rs:35 | the node is spawned first and once, on port 23333; a failed spawn returns its error with no check and no kill |
| RuntimeCheck.KilledExactlyOnce | src/bin/subalfred/command/check/runtime.rs:59-75 | after a successful spawn the node is killed exactly once, as the last call, on every path on which `run` returns; after a failed spawn it is never killed |
| RuntimeCheck.ChecksInOrderUpToFirstFailure | src/bin/subalfred/command/check/runtime.rs:39-73 | checks are made in the given order, each with the local and live endpoints, up to the first failure; later properties are never checked |
| RuntimeCheck.ResultCharacterised | src/bin/subalfred/command/check/runtime.rs:32-78 | a run succeeds if and only if the spawn, every check and the kill succeed; a failing kill's error replaces a check's error |
| RuntimeCheck.OutputOfVersionCheck | src/bin/subalfred/command/check/runtime.rs:64-66 | a version check with no difference prints nothing, and one with a difference prints one line |
| Submetadatan.RuntimeMetadata.Version | substrate-minimal/submetadatan/src/metadatan.rs:8 | a layout's version is at most 14, and it is 14 if and only if the layout is V14 |
| Submetadatan.Metadata | substrate-minimal/submetadatan/src/metadatan.rs:5-10 | the gate accepts if and only if the metadata is V14, returning its payload unchanged; otherwise it fails with `UnsupportedVersion` carrying the layout's version (below 14); every input gets one of the two |
| Submetadatan.MagicIgnored | substrate-minimal/submetadatan/src/metadatan.rs:6 | the magic word never changes the outcome |
| Submetadatan.AcceptsExactlyV14 | substrate-minimal/submetadatan/src/metadatan.rs:5-10 | the gate returns a payload if and only if the metadata is that payload wrapped as V14 |

## Left out

- The digest functions of `subhasher` are not modelled. They are a parameter, and their output widths and the concat/identity shapes are the explicit assumptions of `Subhasher.Conforms`.
- The SCALE encoding done by `StorageKeyBuilder::param` (`value.encode()`, substrate-minimal/substorager/src/lib.rs:142) is left out. Parameters are taken as already-encoded bytes, because the codec is another crate.
- The builder's names are taken as their UTF-8 bytes. `as_bytes()` is not modelled, because Dafny strings carry no encoding.
- The hex `Display` of `StorageKey` (substrate-minimal/substorager/src/lib.rs:32-36) is a foreign formatting call.
- `StorageType` (substorager/src/lib.rs:4-9) is declared as a datatype. The crate has no operation on it.
- The network and file operations of src/substrate/node.rs are left out, because they are I/O: `send_rpc`, `check_runtime_version` and `RpcResult::into_inner`.
- `extract_runtime_version`'s `trace!` call is logging, and is left out.
- Regular expressions in general are not modelled, only the fixed patterns of src/substrate/node.rs:123-127.
- `\d` is taken as the ASCII digits `0`-`9`. Rust's `\d` also matches other Unicode decimal digits.
- Text is a sequence of characters. Byte offsets and UTF-8 are not modelled.
- RuntimeVersionExtractor.Extract: a panic of `unwrap` is modelled as a `Failure` result.
- RuntimeVersionRoundTrip.ExtractWritten covers only records with these properties:
  - Both names are non-empty and free of `"`, newline, `:` and `}`. A name holding `")` or `}` cannot be read back by the source's patterns, so no such round trip exists.
  - Each field is written on a tab-indented line of its own, as `name: value`.
  - Every other line of the block holds no `}` and no field name followed by spaces and `:`. A comment such as `// spec_version: …` or a nested `{ … }` inside the block is not covered.
  - The text before the block is any text in which no block match starts. `NodeExample` shows this for text without `pub`. A real runtime file, whose earlier `pub` items start no match, is covered by the general hypothesis but is not exhibited.
- RuntimeCheck.KilledExactlyOnce: panics in `run` are not modelled. Examples are a `println!` on a closed stdout, or an `unwrap` inside a check such as `RpcResult::into_inner`. A panic would unwind past the kills at src/bin/subalfred/command/check/runtime.rs:60, 68 and 75 and leave the node running, because a std `Child` is not killed when it is dropped.
- The bodies of `node::spawn`, `Child::kill`, `runtime::check_storage` and `runtime::check_version` are not shown. They are the outcomes in `RuntimeCheck.Environment`, indexed by the property's position. The diff algorithms are not modelled.
- The pallet and entry diffs are taken as the lines their `Display` writes.
- The `async_std` executor (`task::block_on`) is left out, because each check is modelled as a finished outcome.
- The port-in-use case is not detected by the source, and is not modelled either.
- The following files are not part of this model:
  - substrater/src/substrater.rs, a websocket client with a shared queue (concurrency and network);
  - src/subalfred/core/cargo/test.rs, which runs `cargo metadata`;
  - src/bin/subalfred/command/convert/mod.rs, src/subalfred/core/mod.rs and substrate-minimal/subtypes/src/lib.rs, which hold declarations only.
- `SubmetadatanError` (substrate-minimal/submetadatan/src/error.rs:6-9) is the datatype `Submetadatan.SubmetadatanError`. Its message text is not modelled.
- `RuntimeMetadata::version` is defined in `frame_metadata`, which is not part of this model. It is modelled as each variant's number.
