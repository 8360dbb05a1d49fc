# Wallet capability and address ledger of zingolib, in Dafny

This project models the key-capability and address-ledger logic of zingolib's
`zingolib/src/wallet/keys/unified.rs` and proves properties of it:

- the `UnifiedKeyStore` (`Spend | View | Empty`), its tagged byte encoding and its
  spend-key and viewing-key projections;
- the `ReceiverSelection` flags record and its two-byte encoding;
- the `WalletCapability` state:
  - a key store;
  - an append-only ledger of unified addresses;
  - the transparent child-address ledger;
  - the address write flag;
- `new_address` and `legacy_new_address`, which append to the ledger at index
  `n = len(addresses)`, including the sapling diversifier search;
- the constructors `new_from_seed`, `new_from_phrase`, `new_from_usk` and `new_from_ufvk`;
- `can_view` and `get_ua_from_contained_transparent_receiver`;
- the versioned `WalletCapability` encoding:
  - writing emits version 3;
  - reading accepts versions 1, 2 and 3 and rebuilds the ledger by replaying address
    derivation over the stored receiver selections;
  - `Read` follows the source, including its version-2 path, which cannot read back a
    pool stored as a spend capability (see "## Findings"); `ReadCorrected` is the read
    with that path corrected, and accepts everything `Read` accepts.

Cryptography is abstract. Every derivation is a field of the record `Keys.Primitives`, which the operations take as a parameter. The derivations are:

- orchard `address_at`, sapling diversifier validity and `find_address`;
- BIP 32 transparent derivation;
- the key byte and Bech32m encodings, and the seed derivations;
- the legacy-format key readers.

Key and address types are opaque datatypes. Nothing proved depends on what these functions compute.

Modelling conventions:

- A panic (`expect`, `unwrap`) is a precondition. `NewAddressDefined`, `LegacyNewAddressDefined`, `ReplayDefined` and `ReadDefined` say when no panic is reached.
- Errors the source returns are `Result` failures.
- The write flag is a plain boolean in a sequential state. Each transition returns the new state together with its result, as a `Wallet.Step`.

Modules, one per file:

| file | module |
|---|---|
| `wrappers.dfy` | `Option` and `Result` |
| `errors.dfy` | the error kinds |
| `encoding.dfy` | bytes, version bytes, CompactSize |
| `receivers.dfy` | `ReceiverSelection` |
| `keys.dfy` | key types, unified addresses, `Primitives` |
| `key_store.dfy` | `UnifiedKeyStore` |
| `sapling.dfy` | the diversifier search |
| `wallet.dfy` | `WalletCapability` and its transitions |
| `wallet_codec.dfy` | the versioned encoding and replay |

## Model

| member | source | states |
|---|---|---|
| Receivers.Write | zingolib/src/wallet/keys/unified.rs:256-270 | emits `[1, flags]`; bit 0, bit 1 and bit 2 of `flags` are set exactly when orchard, sapling and transparent are selected |
| Receivers.Read | zingolib/src/wallet/keys/unified.rs:246-254 | succeeds iff there are two bytes and the version is at most 1; each flag is the corresponding bit of the second byte |
| Receivers.RoundTrip | zingolib/src/wallet/keys/unified.rs:243-271 | reading what was written gives back the selection and the following input |
| Receivers.ReadThenWrite | zingolib/src/wallet/keys/unified.rs:273-285 | for every `n` in `0..8`, writing the selection read from `[1, n]` gives `[1, n]` again |
| Receivers.ReadIgnoresHighBits | zingolib/src/wallet/keys/unified.rs:248-253 | a flags byte and its three low bits read as the same selection |
| Keys.FromReceivers | zingolib/src/wallet/keys/unified.rs:397-411 | no unified address exactly when both shielded receivers are absent; otherwise the address holds the given receivers |
| KeyStore.UnifiedSpendingKeyOf | zingolib/src/wallet/keys/unified.rs:137-145 | succeeds iff the store is `Spend`, with its key; otherwise `NoSpendCapability` |
| KeyStore.OrchardSpendingKeyOf | zingolib/src/wallet/keys/unified.rs:146-152 | succeeds iff the store is `Spend`, with the orchard part; otherwise `NoSpendCapability` |
| KeyStore.SaplingSpendingKeyOf | zingolib/src/wallet/keys/unified.rs:153-159 | succeeds iff the store is `Spend`, with the sapling part; otherwise `NoSpendCapability` |
| KeyStore.TransparentPrivKeyOf | zingolib/src/wallet/keys/unified.rs:160-166 | succeeds iff the store is `Spend`, with the transparent part; otherwise `NoSpendCapability` |
| KeyStore.UnifiedFullViewingKeyOf | zingolib/src/wallet/keys/unified.rs:168-177 | succeeds iff the store is not `Empty`: the derived key for `Spend`, the stored key for `View`; `NoViewCapability` for `Empty` |
| KeyStore.OrchardFvkOf | zingolib/src/wallet/keys/unified.rs:178-184 | succeeds iff the store is `Spend`, or `View` with an orchard key; otherwise `NoViewCapability` |
| KeyStore.SaplingFvkOf | zingolib/src/wallet/keys/unified.rs:185-191 | succeeds iff the store is `Spend`, or `View` with a sapling key; otherwise `NoViewCapability` |
| KeyStore.TransparentPubKeyOf | zingolib/src/wallet/keys/unified.rs:192-200 | succeeds iff the store is `Spend`, or `View` with a transparent key; otherwise `NoViewCapability` |
| KeyStore.CanViewAgreesWithProjections | zingolib/src/wallet/keys/unified.rs:656-674 | `can_view` reports a pool exactly when that pool's viewing-key projection succeeds: all pools for `Spend`, none for `Empty` |
| KeyStore.Write | zingolib/src/wallet/keys/unified.rs:77-90 | emits version byte 0, then tag 0, 1 or 2 for `Spend`, `View` or `Empty`; the encoding is exactly `[0, 2]` iff the store is `Empty` |
| KeyStore.Read | zingolib/src/wallet/keys/unified.rs:61-76 | a success read version 0 and the tag of the store it returns; tag 2 gives `Empty`; any tag above 2 fails with `InvalidData` |
| KeyStore.RoundTrip | zingolib/src/wallet/keys/unified.rs:58-135 | a store whose key bytes decode back reads back from its encoding, leaving the following input |
| Encoding.CompactSizeRoundTrip | zingolib/src/wallet/keys/unified.rs:95-108 | the length prefix the key and selection encodings use reads back every length up to the maximum |
| Sapling.FindAddress | zingolib/src/wallet/keys/unified.rs:351-353 | the least valid diversifier index at or above the start; `None` only when no valid index is left |
| Sapling.Increment | zingolib/src/wallet/keys/unified.rs:354-356 | the next index, or failure when the 88-bit index space is exhausted |
| Sapling.SearchRoundsCounts | zingolib/src/wallet/keys/unified.rs:342-362 | after `rounds + 1` find-then-increment rounds from `d`, the search stands on a valid index preceded by exactly `rounds` valid indices at or above `d` |
| Sapling.SearchRoundsComplete | zingolib/src/wallet/keys/unified.rs:342-362 | every valid index with `rounds` valid indices before it, and room to increment, is where the search stops |
| Sapling.DiversifierForIsNthValid | zingolib/src/wallet/keys/unified.rs:342-362 | the search for ledger index `n` yields `j` iff `j` is the `n`-th valid diversifier counting from 0, with room to increment |
| Sapling.NthValidUnique | zingolib/src/wallet/keys/unified.rs:342-362 | there is at most one `n`-th valid diversifier |
| Sapling.NthDiversifier | zingolib/src/wallet/keys/unified.rs:342-362 | the diversifier used for ledger index `n` is the `n`-th valid one, however many invalid indices were skipped |
| Wallet.AsU32 | zingolib/src/wallet/keys/unified.rs:368 | the ledger length as the `as u32` cast leaves it: below 2^32 and equal to the length modulo 2^32 |
| Wallet.NewAddress | zingolib/src/wallet/keys/unified.rs:308-418 | a `View` store lacking a requested pool, or a set write flag, is refused with nothing changed; every exit leaves the flag as it was and the key store untouched; success iff the request passes the checks and asks for a shielded receiver; on success the ledger grows by exactly the returned address; the orchard receiver is `address_at(n)` and the sapling receiver uses the `n`-th valid diversifier; the transparent ledger gains `(n, taddr)` exactly when a transparent receiver was derived, even when the call then fails for want of a shielded receiver |
| Wallet.LegacyNewAddress | zingolib/src/wallet/keys/unified.rs:421-523 | a missing key for a requested pool gives `NotCapable`, then a set flag gives the collision, with nothing changed; a failed transparent child derivation gives `TransparentDerivation` with nothing appended and the flag cleared; success iff the checks and the child derivation pass and a shielded receiver is asked for; when they pass but no shielded receiver is asked for, the failure is `NoShieldedReceiver`; the transparent ledger gains exactly `(n, address of child n)` whenever that child was derived, even when the call then fails; a success appends exactly the returned address, whose orchard and sapling receivers are those of index `n` and whose transparent receiver is the derived child address |
| Wallet.LegacyTwinOfNewAddress | zingolib/src/wallet/keys/unified.rs:421-523 | given the store's own viewing keys and no transparent request, `legacy_new_address` acts as `new_address` does: the same wallet and the same success, the same result for a non-`Empty` store, and the same shielded receivers whenever both succeed |
| Wallet.LegacyMoreKeys | zingolib/src/wallet/keys/unified.rs:421-523 | keys for pools the request does not ask for change nothing: with every requested key present, extra keys give the same state and result |
| Wallet.UaForTransparentReceiver | zingolib/src/wallet/keys/unified.rs:288-296 | `None` iff no ledger address holds the receiver; otherwise the first ledger address that does |
| Wallet.NewFromSeed | zingolib/src/wallet/keys/unified.rs:556-572 | succeeds iff the account position has no hardened bit and the seed derivation succeeds, giving a fresh `Spend` wallet with the derived key; a hardened position fails with `InvalidAccountId`, and then a failed derivation with `KeyDerivationError` |
| Wallet.NewFromPhrase | zingolib/src/wallet/keys/unified.rs:575-584 | is `new_from_seed` of the phrase's seed: it succeeds iff the position has no hardened bit and the derivation from that seed succeeds, giving a fresh `Spend` wallet with that key; otherwise `InvalidAccountId` or `KeyDerivationError` |
| Wallet.NewFromUsk | zingolib/src/wallet/keys/unified.rs:587-596 | succeeds iff the bytes decode, giving a fresh `Spend` wallet; otherwise `KeyDecodingError` |
| Wallet.NewFromUfvk | zingolib/src/wallet/keys/unified.rs:599-615 | succeeds iff the encoding has no sapling extended-key prefix, decodes, is for this network and parses, giving a fresh `View` wallet with the parsed key; errors come in that order: `InvalidFormat`, `KeyDecodingError`, `NetworkMismatch`, `KeyDecodingError` |
| WalletCodec.Write | zingolib/src/wallet/keys/unified.rs:794-808 | emits version byte 3, followed by the key store's encoding |
| WalletCodec.WriteRecordsReceivers | zingolib/src/wallet/keys/unified.rs:797-807 | the encoding ends with one selection per ledger address, in ledger order, recording which receivers that address holds |
| WalletCodec.VectorRoundTrip | zingolib/src/wallet/keys/unified.rs:777-808 | a count and the selections written after it read back as the same selections |
| WalletCodec.Replay | zingolib/src/wallet/keys/unified.rs:778-781 | a successful replay keeps the key store and the flag, keeps the existing ledger as a prefix and adds one entry per selection; a failing first step ends the replay with that step's error; from an unlocked state no step collides on the flag |
| WalletCodec.ReplayUnfold | zingolib/src/wallet/keys/unified.rs:778-781 | a first step that succeeds hands on its state: the replay is the replay of the remaining selections from there |
| WalletCodec.ReplaySplit | zingolib/src/wallet/keys/unified.rs:778-781 | once the first `k` steps have succeeded, the replay goes on from the state they leave, so the first failing step, wherever it is, ends the replay with its error |
| WalletCodec.StepReceivers | zingolib/src/wallet/keys/unified.rs:326-365 | an address appended at ledger index `n`, by either derivation, holds an orchard receiver exactly when asked, `address_at(n)` of the derivation's orchard key, and a sapling receiver exactly when asked, at the `n`-th valid diversifier of its sapling key; a transparent receiver only when asked |
| WalletCodec.ReplayEntriesAreSteps | zingolib/src/wallet/keys/unified.rs:778-781 | each entry a successful replay appends is the address its step derives on the ledger before it, so a replay succeeds only when every step does and its ledger is fixed by the steps |
| WalletCodec.ReplayReceiversAtIndex | zingolib/src/wallet/keys/unified.rs:697-781 | in a successful replay the entry at ledger index `i` holds exactly the shielded receivers its selection asks for, each derived at index `i` from the derivation's viewing key |
| WalletCodec.ReadV1 | zingolib/src/wallet/keys/unified.rs:684-709 | a version-1 read succeeds iff the three spending keys and the selections parse and replaying the selections through `legacy_new_address`, with the viewing keys of those spending keys, succeeds; it yields an `Empty` store and exactly the replayed wallet |
| WalletCodec.ReadV1Entries | zingolib/src/wallet/keys/unified.rs:697-707 | entry `i` of a version-1 wallet holds the receivers its selection asks for, derived at index `i` from the viewing keys of the orchard and sapling spending keys read |
| WalletCodec.ViewKeys | zingolib/src/wallet/keys/unified.rs:729-740 | the version-2 read keeps a pool's key exactly when its capability is `View` |
| WalletCodec.V2Store | zingolib/src/wallet/keys/unified.rs:741-755 | the version-2 store is `View` iff some pool's capability is `View`, and `Empty` otherwise |
| WalletCodec.ReplayKeys | zingolib/src/wallet/keys/unified.rs:683-740 | the corrected version-2 replay keys: a key for every pool that holds a `View` or a `Spend` capability; a spend key gives its viewing key as in the version-1 path |
| WalletCodec.ReadV2AsWritten | zingolib/src/wallet/keys/unified.rs:710-771 | the version-2 read as written: succeeds iff the capabilities and selections parse and the replay with only the `View` capabilities' keys succeeds; it keeps the `V2Store` store and is exactly the replayed wallet |
| WalletCodec.ReadV2 | zingolib/src/wallet/keys/unified.rs:710-771 | the corrected version-2 read: succeeds iff the capabilities and selections parse and the replay with `ReplayKeys` succeeds; the store is `View` iff some capability is `View`, `Empty` otherwise, and the wallet is exactly the replayed one |
| WalletCodec.ReadV2Entries | zingolib/src/wallet/keys/unified.rs:761-769 | entry `i` of a wallet read by the corrected version-2 read holds the receivers its selection asks for, derived at index `i` from the `ReplayKeys` viewing keys |
| WalletCodec.ReadV2Conservative | zingolib/src/wallet/keys/unified.rs:729-769 | whenever the as-written version-2 read succeeds, the corrected read succeeds with the same wallet |
| WalletCodec.ReadV3 | zingolib/src/wallet/keys/unified.rs:772-783 | a version-3 read succeeds iff the key store and selections parse and the replay through `new_address` succeeds; it keeps the key store read and is exactly the replayed wallet |
| WalletCodec.ReadV3Entries | zingolib/src/wallet/keys/unified.rs:777-781 | entry `i` of a version-3 wallet holds the receivers its selection asks for, derived at index `i` from the viewing keys of the key store read |
| WalletCodec.ReplayOnto | zingolib/src/wallet/keys/unified.rs:773-781 | a success is the wallet the replay onto a fresh state builds; any replay error aborts the whole read with `InvalidData` carrying that error |
| WalletCodec.Read | zingolib/src/wallet/keys/unified.rs:680-791 | the read as written: an empty input fails with `UnexpectedEof`; version 1, 2 and 3 are exactly the version-1 read, the as-written version-2 read and the version-3 read of the rest; version 0 or anything above 3 fails with `InvalidData`; a read wallet has its write flag clear |
| WalletCodec.ReadCorrected | zingolib/src/wallet/keys/unified.rs:680-791 | the read with the corrected version-2 path: every input `Read` accepts reads to the same wallet; a success has version 1, 2 or 3 and a clear flag; a version-2 input is read iff its capabilities and selections parse and the replay with `ReplayKeys` succeeds, with a `View` store iff some capability is `View` and one entry per selection |
| WalletCodec.NewAddressReproducible | zingolib/src/wallet/keys/unified.rs:308-418 | a new address is derived again from the receivers it holds at the same ledger length |
| WalletCodec.NewAddressKeepsReplayable | zingolib/src/wallet/keys/unified.rs:308-418 | appending with `new_address` keeps every ledger entry derivable again from its index and receivers |
| WalletCodec.ReplayRebuilds | zingolib/src/wallet/keys/unified.rs:772-779 | replaying the selections of a replayable ledger rebuilds exactly that ledger |
| WalletCodec.WriteParsesBack | zingolib/src/wallet/keys/unified.rs:794-808 | the body of a version-3 encoding parses back to the key store and the ledger's selections |
| WalletCodec.WriteReadRoundTrip | zingolib/src/wallet/keys/unified.rs:677-809 | writing a wallet built by `new_address` and reading it back gives the same key store and ledger, and writing that again gives the same bytes |
| WalletCodec.V2SpendWalletAsWrittenFails | zingolib/src/wallet/keys/unified.rs:729-769 | the as-written version-2 read, and `Read` of the same body behind version byte 2, of three spend capabilities and one stored orchard selection fail with `InvalidData(Replay(NotCapable))` |
| WalletCodec.V2SpendWalletReadable | zingolib/src/wallet/keys/unified.rs:729-769 | the corrected read of the same bytes, alone or behind version byte 2, succeeds, with an `Empty` store and the orchard address at index 0 |

## Left out

- Cryptography. Orchard, sapling and BIP 32 derivation, the key byte encodings, Bech32m, BIP 39 and base58check are fields of `Keys.Primitives`, with no behaviour.
- `UnifiedKeyStore::read` for a `View` key: `std::str::from_utf8` and `UnifiedFullViewingKey::decode` are folded into one `ufvkDecode`, so a non-UTF-8 key and an undecodable key both fail as `UfvkDecodingError`.
- `CompactSize` and `Vector` (crate `zcash_encoding`) and `get_version` (the traits module) are not part of this model's source.
  - `Encoding.ReadCompactSize` follows the crate's documented behaviour: canonical form, maximum `0x0200_0000`, little-endian.
  - `Encoding.ReadVersion` reads one byte and refuses a version above the current one.
- The legacy readers are abstract readers in `Primitives`. These are `orchard::keys::SpendingKey::read`, `ExtendedSpendingKey::read`, `ExtendedPrivKey::read` and `Capability::read`.
- `legacy_fvks_to_ufvk` is total in `Primitives`. Its `unwrap` (line 751) is assumed not to panic.
- The transparent `derive_address(..).unwrap()` (line 386) is assumed not to panic.
- A sapling `find_address` that finds an index whose payment address cannot be formed counts as an invalid diversifier.
- `legacy_new_address`'s transparent `KeyIndex::from_index` (line 476) is abstract. A hardened index is not a panic there; the failure of `legacyChildPubKey` covers it.
- `get_taddr_to_secretkey_map` (lines 527-554): deprecated, and it is secp256k1 secret-key derivation and base58check.
- `get_all_taddrs` (lines 617-637): only base58check encoding of the ledger's transparent receivers.
- `first_sapling_address` (lines 639-644) and `get_trees_witness_trees` (lines 647-653): accessors with no ledger logic.
- The `Fvk`/`Ivk`/`Ovk` scope marker types (lines 812-901): type-level wrappers over library key derivation.
- Concurrency. The write flag is sequential state, and nothing is proved about interleaved threads. An `AppendOnlyVec` is a sequence.
- Error messages. Errors are datatype values, not their strings.
- `is_spending_key` and `is_empty` (lines 48-56) are the `UnifiedKeyStore` datatype's own `Spend?` and `Empty?` discriminators.
- The integration tests `shield_transparent.rs` and `sync.rs`: network I/O against a node or server.
- Wallet.NewFromSeed: the seed-to-key derivation `UnifiedSpendingKey::from_seed` is abstract. Only the account-id check and the error mapping are modelled.

## Findings

| source | as written | input that shows it | evidently intended | confidence | as-written member | corrected member |
|---|---|---|---|---|---|---|
| zingolib/src/wallet/keys/unified.rs:729-769 | The version-2 read gives `legacy_new_address` only the keys of `View` capabilities. A pool whose capability is `Spend` gets `None`, so every stored address that asks for that pool fails with "not capable". That error aborts the whole read. | Three `Spend` capability records, then the selection bytes `[1, 1, 1]`: one stored address asking for orchard. | Replay a `Spend` pool with the viewing key of its spending key, as the version-1 path does at lines 697-705, so that version-2 wallets created from a seed can be read. | medium; not executed | WalletCodec.ReadV2AsWritten, WalletCodec.Read, WalletCodec.V2SpendWalletAsWrittenFails | WalletCodec.ReadV2, WalletCodec.ReadCorrected, WalletCodec.ReplayKeys, WalletCodec.V2SpendWalletReadable, WalletCodec.ReadV2Conservative |
