/**
 * Key material, receivers and unified addresses, and the library operations on them.
 *
 * The cryptography (ZIP 32 and BIP 32 derivation, diversifier validity, key and address
 * encodings) belongs to libraries outside this core. Every key and receiver is an opaque
 * value carrying its serialised form, and every library operation is a field of
 * `Primitives`, a record of total functions the operations of this model take as a
 * parameter. Nothing proved here depends on what those functions compute.
 */
module Keys {
  import opened Wrappers
  import opened Errors
  import opened Encoding

  // Opaque key material of the three pools.
  datatype OrchardSpendingKey = OrchardSpendingKey(material: seq<byte>)
  datatype SaplingExtendedSpendingKey = SaplingExtendedSpendingKey(material: seq<byte>)
  datatype TransparentAccountPrivKey = TransparentAccountPrivKey(material: seq<byte>)
  datatype OrchardFvk = OrchardFvk(material: seq<byte>)
  /** Sapling `DiversifiableFullViewingKey`. */
  datatype SaplingFvk = SaplingFvk(material: seq<byte>)
  datatype TransparentAccountPubKey = TransparentAccountPubKey(material: seq<byte>)
  /** The external-chain incoming viewing key of a transparent account (BIP 44 change = 0). */
  datatype TransparentExternalIvk = TransparentExternalIvk(material: seq<byte>)

  // Keys of the older (legacy) wallet formats.
  datatype ExtendedPrivKey = ExtendedPrivKey(material: seq<byte>)
  datatype ExtendedPubKey = ExtendedPubKey(material: seq<byte>)
  /** A secp256k1 public key. */
  datatype PublicKey = PublicKey(material: seq<byte>)

  // Receivers.
  datatype OrchardAddress = OrchardAddress(material: seq<byte>)
  datatype SaplingAddress = SaplingAddress(material: seq<byte>)
  datatype TransparentAddress = TransparentAddress(material: seq<byte>)

  /** A parsed but not yet validated unified full viewing key (`zcash_address::unified::Ufvk`). */
  datatype RawUfvk = RawUfvk(material: seq<byte>)
  datatype Mnemonic = Mnemonic(words: string)

  /** A BIP 39 seed: exactly 64 bytes. */
  type Seed = s: seq<byte> | |s| == 64 witness seq(64, i => 0)

  datatype Network = Mainnet | Testnet | Regtest

  /** A unified spending key: a spending key for every pool. */
  datatype UnifiedSpendingKey = UnifiedSpendingKey(
    orchard: OrchardSpendingKey,
    sapling: SaplingExtendedSpendingKey,
    transparent: TransparentAccountPrivKey)

  /** A unified full viewing key: each pool's viewing key is independently optional. */
  datatype UnifiedFullViewingKey = UnifiedFullViewingKey(
    orchard: Option<OrchardFvk>,
    sapling: Option<SaplingFvk>,
    transparent: Option<TransparentAccountPubKey>)

  /** The receivers of an address, any of which may be absent. */
  datatype Receivers = Receivers(
    orchard: Option<OrchardAddress>,
    sapling: Option<SaplingAddress>,
    transparent: Option<TransparentAddress>)

  /** A unified address must hold a shielded receiver (ZIP 316, "Requirements for both Unified Addresses and Unified Viewing Keys"). */
  type UnifiedAddress = r: Receivers | r.orchard.Some? || r.sapling.Some?
    witness Receivers(Some(OrchardAddress([])), None, None)

  /** `UnifiedAddress::from_receivers`. */
  function FromReceivers(
    orchard: Option<OrchardAddress>,
    sapling: Option<SaplingAddress>,
    transparent: Option<TransparentAddress>): (r: Option<UnifiedAddress>)
    ensures r.None? <==> orchard.None? && sapling.None?
    ensures r.Some? ==> r.value.orchard == orchard && r.value.sapling == sapling
    ensures r.Some? ==> r.value.transparent == transparent
  {
    if orchard.None? && sapling.None? then None else Some(Receivers(orchard, sapling, transparent))
  }

  /** A per-pool capability record of the version-2 wallet format. */
  datatype Capability<+V, +S> = NoCapability | ViewCapability(viewKey: V) | SpendCapability(spendKey: S)

  /**
   * The library operations this core calls, and nothing else about them.
   */
  datatype Primitives = Primitives(
    // Viewing keys of spending keys.
    orchardFvkOf: OrchardSpendingKey -> OrchardFvk,
    saplingFvkOf: SaplingExtendedSpendingKey -> SaplingFvk,
    transparentPubKeyOf: TransparentAccountPrivKey -> TransparentAccountPubKey,
    extendedPubKeyOf: ExtendedPrivKey -> ExtendedPubKey,
    // Orchard `address_at(j, External)`.
    orchardAddressAt: (OrchardFvk, nat) -> OrchardAddress,
    // Whether a sapling diversifier index yields an address, and that address.
    diversifierValid: (SaplingFvk, nat) -> bool,
    saplingAddressAt: (SaplingFvk, nat) -> SaplingAddress,
    // `derive_external_ivk().ok()` and the address of non-hardened child `i` (BIP 32).
    externalIvkOf: TransparentAccountPubKey -> Option<TransparentExternalIvk>,
    transparentAddressAt: (TransparentExternalIvk, nat) -> TransparentAddress,
    // Legacy transparent derivation: `derive_public_key` of child `i`, and `pubkey_to_address`.
    legacyChildPubKey: (ExtendedPubKey, nat) -> Option<PublicKey>,
    pubKeyToAddress: PublicKey -> TransparentAddress,
    legacyFvksToUfvk: (Option<OrchardFvk>, Option<SaplingFvk>, Option<ExtendedPubKey>, Network) -> UnifiedFullViewingKey,
    // Key encodings.
    uskToBytes: UnifiedSpendingKey -> seq<byte>,
    uskFromBytes: seq<byte> -> Option<UnifiedSpendingKey>,
    ufvkEncode: (Network, UnifiedFullViewingKey) -> seq<byte>,
    ufvkDecode: (Network, seq<byte>) -> Option<UnifiedFullViewingKey>,
    rawUfvkDecode: string -> Option<(Network, RawUfvk)>,
    ufvkParse: RawUfvk -> Option<UnifiedFullViewingKey>,
    // Seeds.
    uskFromSeed: (Network, Seed, nat) -> Option<UnifiedSpendingKey>,
    mnemonicToSeed: Mnemonic -> Seed,
    // Readers of the legacy key records of the version-1 and version-2 formats.
    readOrchardSpendingKey: Reader<OrchardSpendingKey>,
    readSaplingSpendingKey: Reader<SaplingExtendedSpendingKey>,
    readExtendedPrivKey: Reader<ExtendedPrivKey>,
    readOrchardCapability: Reader<Capability<OrchardFvk, OrchardSpendingKey>>,
    readSaplingCapability: Reader<Capability<SaplingFvk, SaplingExtendedSpendingKey>>,
    readTransparentCapability: Reader<Capability<ExtendedPubKey, ExtendedPrivKey>>)

  /** `UnifiedSpendingKey::to_unified_full_viewing_key`: a viewing key for every pool. */
  function ToUfvk(p: Primitives, usk: UnifiedSpendingKey): UnifiedFullViewingKey
  {
    UnifiedFullViewingKey(
      Some(p.orchardFvkOf(usk.orchard)),
      Some(p.saplingFvkOf(usk.sapling)),
      Some(p.transparentPubKeyOf(usk.transparent)))
  }
}
