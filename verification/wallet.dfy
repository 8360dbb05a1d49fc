/**
 * `WalletCapability`: a key store plus two append-only ledgers, the unified addresses in
 * derivation order and the `(index, transparent address)` pairs derived along the way,
 * and the write flag that lets one append run at a time. The flag is a plain boolean here:
 * the Rust code swaps an atomic, and a call that finds it set fails instead of waiting.
 */
module Wallet {
  import opened Wrappers
  import opened Errors
  import opened Encoding
  import opened Keys
  import opened Receivers
  import opened KeyStore
  import Sapling

  datatype WalletCapability = WalletCapability(
    keyStore: UnifiedKeyStore,
    transparentChildAddresses: seq<(nat, TransparentAddress)>,
    addresses: seq<UnifiedAddress>,
    writeLock: bool)

  /** `WalletCapability::default()` with the given key store. */
  function Fresh(ks: UnifiedKeyStore): WalletCapability
  {
    WalletCapability(ks, [], [], false)
  }

  /** What an address request leaves behind: the new state and the call's result. */
  datatype Step = Step(wallet: WalletCapability, result: Result<UnifiedAddress, AddressError>)

  /** Exclusive bound of a `u32`, and its hardened bit (BIP 32, "Child key derivation (CKD) functions"). */
  const U32Limit: nat := 0x1_0000_0000
  const HardenedBit: nat := 0x8000_0000

  /** `len as u32`: the ledger length truncated to 32 bits. */
  function AsU32(n: nat): (r: nat)
    ensures r < U32Limit
    ensures (n - r) % U32Limit == 0
    ensures n < U32Limit ==> r == n
  {
    n % U32Limit
  }

  predicate NonHardened(n: nat)
  {
    AsU32(n) < HardenedBit
  }

  // ---------------------------------------------------------------------------
  // new_address

  /** A `View` store lacks the viewing key of a requested receiver. */
  predicate ViewKeyMissing(ks: UnifiedKeyStore, sel: ReceiverSelection)
  {
    && ks.View?
    && ((sel.transparent && ks.ufvk.transparent.None?)
        || (sel.sapling && ks.ufvk.sapling.None?)
        || (sel.orchard && ks.ufvk.orchard.None?))
  }

  /** The orchard receiver at index `n`, or the projection's error. */
  function OrchardReceiver(p: Primitives, ks: UnifiedKeyStore, n: nat, sel: ReceiverSelection)
    : Result<Option<OrchardAddress>, KeyError>
  {
    if !sel.orchard then Success(None)
    else
      var fvk :- OrchardFvkOf(p, ks);
      Success(Some(p.orchardAddressAt(fvk, n)))
  }

  /** The sapling step does not panic: the store yields a sapling key and the search ends. */
  predicate SaplingDefined(p: Primitives, ks: UnifiedKeyStore, n: nat, sel: ReceiverSelection)
  {
    sel.sapling ==> SaplingFvkOf(p, ks).Success? && Sapling.DiversifierFor(p, SaplingFvkOf(p, ks).value, n).Some?
  }

  function SaplingReceiver(p: Primitives, ks: UnifiedKeyStore, n: nat, sel: ReceiverSelection): Option<SaplingAddress>
    requires SaplingDefined(p, ks, n, sel)
  {
    if sel.sapling then Some(Sapling.AddressFor(p, SaplingFvkOf(p, ks).value, n)) else None
  }

  /** The transparent external viewing key of the store; `None` for `Empty` or a failed derivation. */
  function ExternalIvkOf(p: Primitives, ks: UnifiedKeyStore): Option<TransparentExternalIvk>
  {
    match TransparentPubKeyOf(p, ks)
    case Success(pk) => p.externalIvkOf(pk)
    case Failure(_) => None
  }

  /** The transparent receiver at child index `n as u32`; absent when no key is at hand. */
  function TransparentReceiver(p: Primitives, ks: UnifiedKeyStore, n: nat, sel: ReceiverSelection)
    : Option<TransparentAddress>
  {
    if sel.transparent && ExternalIvkOf(p, ks).Some? then
      Some(p.transparentAddressAt(ExternalIvkOf(p, ks).value, AsU32(n)))
    else None
  }

  /** `[(n, t)]` when a transparent receiver `t` was derived, else nothing. */
  function ChildEntry(n: nat, t: Option<TransparentAddress>): seq<(nat, TransparentAddress)>
  {
    if t.Some? then [(n, t.value)] else []
  }

  /**
   * The call reaches none of the panicking `expect`s: a sapling key missing from an `Empty`
   * store, an exhausted diversifier space, a hardened transparent child index.
   */
  predicate NewAddressDefined(p: Primitives, wc: WalletCapability, sel: ReceiverSelection)
  {
    var ks, n := wc.keyStore, |wc.addresses|;
    || ViewKeyMissing(ks, sel)
    || wc.writeLock
    || OrchardReceiver(p, ks, n, sel).Failure?
    || (SaplingDefined(p, ks, n, sel) && (sel.transparent ==> NonHardened(n)))
  }

  /** The request gets past the capability check, the write flag and the orchard projection. */
  predicate Proceeds(p: Primitives, wc: WalletCapability, sel: ReceiverSelection)
  {
    && !ViewKeyMissing(wc.keyStore, sel)
    && !wc.writeLock
    && !(sel.orchard && OrchardFvkOf(p, wc.keyStore).Failure?)
  }

  /** `new_address`. */
  function NewAddress(p: Primitives, wc: WalletCapability, sel: ReceiverSelection): (st: Step)
    requires NewAddressDefined(p, wc, sel)
    // Refused before anything changes.
    ensures ViewKeyMissing(wc.keyStore, sel) ==> st == Step(wc, Failure(NotCapable))
    ensures !ViewKeyMissing(wc.keyStore, sel) && wc.writeLock ==> st == Step(wc, Failure(WriteLockCollision))
    ensures (!ViewKeyMissing(wc.keyStore, sel) && !wc.writeLock && sel.orchard && OrchardFvkOf(p, wc.keyStore).Failure?)
              ==> st == Step(wc, Failure(OrchardKey(NoViewCapability)))
    // Every exit leaves the write flag as it found it, and the key store untouched.
    ensures st.wallet.writeLock == wc.writeLock
    ensures st.wallet.keyStore == wc.keyStore
    // The address ledger grows by the returned address and by nothing else.
    ensures st.result.Success? <==> Proceeds(p, wc, sel) && (sel.orchard || sel.sapling)
    ensures st.result.Success? ==> st.wallet.addresses == wc.addresses + [st.result.value]
    ensures st.result.Failure? ==> st.wallet.addresses == wc.addresses
    ensures Proceeds(p, wc, sel) && !sel.orchard && !sel.sapling ==> st.result == Failure(NoShieldedReceiver)
    // The transparent ledger gains `(n, taddr)` exactly when a transparent receiver was derived,
    // even if the call then fails for want of a shielded receiver.
    ensures Proceeds(p, wc, sel) && sel.transparent && ExternalIvkOf(p, wc.keyStore).Some? ==>
              st.wallet.transparentChildAddresses == wc.transparentChildAddresses
                + [(|wc.addresses|, p.transparentAddressAt(ExternalIvkOf(p, wc.keyStore).value, AsU32(|wc.addresses|)))]
    ensures !(Proceeds(p, wc, sel) && sel.transparent && ExternalIvkOf(p, wc.keyStore).Some?) ==>
              st.wallet.transparentChildAddresses == wc.transparentChildAddresses
    // The receivers of a new address are those of ledger index n.
    ensures st.result.Success? ==>
              st.result.value.orchard == (if sel.orchard then Some(p.orchardAddressAt(OrchardFvkOf(p, wc.keyStore).value, |wc.addresses|)) else None)
    ensures st.result.Success? && sel.sapling ==>
              && SaplingFvkOf(p, wc.keyStore).Success?
              && Sapling.DiversifierFor(p, SaplingFvkOf(p, wc.keyStore).value, |wc.addresses|).Some?
              && var fvk := SaplingFvkOf(p, wc.keyStore).value;
                 var j := Sapling.NthDiversifier(p, fvk, |wc.addresses|);
                 Sapling.IsNthValid(p, fvk, j, |wc.addresses|) && st.result.value.sapling == Some(p.saplingAddressAt(fvk, j))
    ensures st.result.Success? && !sel.sapling ==> st.result.value.sapling.None?
    ensures st.result.Success? ==>
              st.result.value.transparent == TransparentReceiver(p, wc.keyStore, |wc.addresses|, sel)
  {
    var ks, n := wc.keyStore, |wc.addresses|;
    if ViewKeyMissing(ks, sel) then Step(wc, Failure(NotCapable))
    else if wc.writeLock then Step(wc, Failure(WriteLockCollision))
    else
      var locked := wc.(writeLock := true);
      match OrchardReceiver(p, ks, n, sel)
      case Failure(e) => Step(locked.(writeLock := false), Failure(OrchardKey(e)))
      case Success(orchard) =>
        var sapling := SaplingReceiver(p, ks, n, sel);
        var transparent := TransparentReceiver(p, ks, n, sel);
        var pushed := locked.(transparentChildAddresses := wc.transparentChildAddresses + ChildEntry(n, transparent));
        match FromReceivers(orchard, sapling, transparent)
        case None => Step(pushed.(writeLock := false), Failure(NoShieldedReceiver))
        case Some(ua) => Step(pushed.(addresses := wc.addresses + [ua], writeLock := false), Success(ua))
  }

  // ---------------------------------------------------------------------------
  // legacy_new_address

  /** The per-pool viewing keys the legacy variant is handed instead of reading the key store. */
  datatype LegacyKeys = LegacyKeys(
    orchard: Option<OrchardFvk>,
    sapling: Option<SaplingFvk>,
    transparent: Option<ExtendedPubKey>)

  predicate LegacyKeyMissing(keys: LegacyKeys, sel: ReceiverSelection)
  {
    || (sel.transparent && keys.transparent.None?)
    || (sel.sapling && keys.sapling.None?)
    || (sel.orchard && keys.orchard.None?)
  }

  /** The call reaches no panicking `expect`: only the diversifier search can panic here. */
  predicate LegacyNewAddressDefined(p: Primitives, wc: WalletCapability, keys: LegacyKeys, sel: ReceiverSelection)
  {
    || LegacyKeyMissing(keys, sel)
    || wc.writeLock
    || (sel.sapling ==> Sapling.DiversifierFor(p, keys.sapling.value, |wc.addresses|).Some?)
  }

  /**
   * The transparent receiver of a legacy request at index `n`: the address of the child
   * public key at `n as u32`; absent when transparent is not asked for, no key is given
   * or the child derivation fails.
   */
  function LegacyTransparentReceiver(p: Primitives, keys: LegacyKeys, n: nat, sel: ReceiverSelection)
    : Option<TransparentAddress>
  {
    if sel.transparent && keys.transparent.Some? && p.legacyChildPubKey(keys.transparent.value, AsU32(n)).Some? then
      Some(p.pubKeyToAddress(p.legacyChildPubKey(keys.transparent.value, AsU32(n)).value))
    else None
  }

  /** The legacy request gets past the key check, the write flag and the child derivation. */
  predicate LegacyProceeds(p: Primitives, wc: WalletCapability, keys: LegacyKeys, sel: ReceiverSelection)
  {
    && !LegacyKeyMissing(keys, sel)
    && !wc.writeLock
    && (sel.transparent ==> LegacyTransparentReceiver(p, keys, |wc.addresses|, sel).Some?)
  }

  /** `legacy_new_address`. */
  function LegacyNewAddress(p: Primitives, wc: WalletCapability, keys: LegacyKeys, sel: ReceiverSelection): (st: Step)
    requires LegacyNewAddressDefined(p, wc, keys, sel)
    // Refused before anything changes.
    ensures LegacyKeyMissing(keys, sel) ==> st == Step(wc, Failure(NotCapable))
    ensures !LegacyKeyMissing(keys, sel) && wc.writeLock ==> st == Step(wc, Failure(WriteLockCollision))
    // A failed child derivation is reported after the flag is released, with nothing appended.
    ensures (&& !LegacyKeyMissing(keys, sel) && !wc.writeLock && sel.transparent
             && p.legacyChildPubKey(keys.transparent.value, AsU32(|wc.addresses|)).None?)
              ==> st == Step(wc, Failure(TransparentDerivation))
    ensures st.wallet.writeLock == wc.writeLock
    ensures st.wallet.keyStore == wc.keyStore
    // The address ledger grows by the returned address and by nothing else.
    ensures st.result.Success? <==> LegacyProceeds(p, wc, keys, sel) && (sel.orchard || sel.sapling)
    ensures st.result.Success? ==> st.wallet.addresses == wc.addresses + [st.result.value]
    ensures st.result.Failure? ==> st.wallet.addresses == wc.addresses
    ensures LegacyProceeds(p, wc, keys, sel) && !sel.orchard && !sel.sapling ==> st.result == Failure(NoShieldedReceiver)
    // The transparent ledger gains `(n, taddr)` exactly when the child derivation succeeded,
    // even if the call then fails for want of a shielded receiver.
    ensures LegacyProceeds(p, wc, keys, sel) && sel.transparent ==>
              st.wallet.transparentChildAddresses == wc.transparentChildAddresses
                + [(|wc.addresses|, LegacyTransparentReceiver(p, keys, |wc.addresses|, sel).value)]
    ensures !(LegacyProceeds(p, wc, keys, sel) && sel.transparent) ==>
              st.wallet.transparentChildAddresses == wc.transparentChildAddresses
    // The receivers of a new address are those of ledger index n.
    ensures st.result.Success? ==>
              && st.result.value.orchard == (if sel.orchard then Some(p.orchardAddressAt(keys.orchard.value, |wc.addresses|)) else None)
              && st.result.value.sapling == (if sel.sapling then Some(Sapling.AddressFor(p, keys.sapling.value, |wc.addresses|)) else None)
              && st.result.value.transparent == LegacyTransparentReceiver(p, keys, |wc.addresses|, sel)
  {
    var n := |wc.addresses|;
    if LegacyKeyMissing(keys, sel) then Step(wc, Failure(NotCapable))
    else if wc.writeLock then Step(wc, Failure(WriteLockCollision))
    else
      var locked := wc.(writeLock := true);
      var orchard := if sel.orchard then Some(p.orchardAddressAt(keys.orchard.value, n)) else None;
      var sapling := if sel.sapling then Some(Sapling.AddressFor(p, keys.sapling.value, n)) else None;
      var child := if sel.transparent then p.legacyChildPubKey(keys.transparent.value, AsU32(n)) else None;
      if sel.transparent && child.None? then Step(locked.(writeLock := false), Failure(TransparentDerivation))
      else
        var transparent := if child.Some? then Some(p.pubKeyToAddress(child.value)) else None;
        var pushed := locked.(transparentChildAddresses := wc.transparentChildAddresses + ChildEntry(n, transparent));
        match FromReceivers(orchard, sapling, transparent)
        case None => Step(pushed.(writeLock := false), Failure(NoShieldedReceiver))
        case Some(ua) => Step(pushed.(addresses := wc.addresses + [ua], writeLock := false), Success(ua))
  }

  /**
   * The legacy variant, handed the store's own orchard and sapling viewing keys, addresses
   * exactly as `new_address` does: without a transparent receiver the two calls agree on
   * everything but the error an `Empty` store is refused with, and whenever both succeed
   * their shielded receivers are the same.
   */
  lemma LegacyTwinOfNewAddress(p: Primitives, wc: WalletCapability, keys: LegacyKeys, sel: ReceiverSelection)
    requires keys.orchard == OrchardFvkOf(p, wc.keyStore).ToOption()
    requires keys.sapling == SaplingFvkOf(p, wc.keyStore).ToOption()
    requires NewAddressDefined(p, wc, sel) && LegacyNewAddressDefined(p, wc, keys, sel)
    ensures !sel.transparent && !wc.keyStore.Empty? ==> LegacyNewAddress(p, wc, keys, sel) == NewAddress(p, wc, sel)
    ensures !sel.transparent ==>
              && LegacyNewAddress(p, wc, keys, sel).wallet == NewAddress(p, wc, sel).wallet
              && (LegacyNewAddress(p, wc, keys, sel).result.Success? <==> NewAddress(p, wc, sel).result.Success?)
    ensures LegacyNewAddress(p, wc, keys, sel).result.Success? && NewAddress(p, wc, sel).result.Success? ==>
              && LegacyNewAddress(p, wc, keys, sel).result.value.orchard == NewAddress(p, wc, sel).result.value.orchard
              && LegacyNewAddress(p, wc, keys, sel).result.value.sapling == NewAddress(p, wc, sel).result.value.sapling
  {
    if !sel.transparent && !wc.keyStore.Empty? {
      assert LegacyKeyMissing(keys, sel) <==> ViewKeyMissing(wc.keyStore, sel);
    }
  }

  /** `more` holds every key `keys` holds, and possibly more. */
  predicate KeysExtend(keys: LegacyKeys, more: LegacyKeys)
  {
    && (keys.orchard.Some? ==> more.orchard == keys.orchard)
    && (keys.sapling.Some? ==> more.sapling == keys.sapling)
    && (keys.transparent.Some? ==> more.transparent == keys.transparent)
  }

  /** Keys for pools not asked for change nothing: a request the given keys cover is answered alike. */
  lemma LegacyMoreKeys(p: Primitives, wc: WalletCapability, keys: LegacyKeys, more: LegacyKeys, sel: ReceiverSelection)
    requires LegacyNewAddressDefined(p, wc, keys, sel)
    requires KeysExtend(keys, more)
    requires !LegacyKeyMissing(keys, sel)
    ensures LegacyNewAddressDefined(p, wc, more, sel)
    ensures LegacyNewAddress(p, wc, more, sel) == LegacyNewAddress(p, wc, keys, sel)
  {
    assert LegacyTransparentReceiver(p, more, |wc.addresses|, sel) == LegacyTransparentReceiver(p, keys, |wc.addresses|, sel);
  }

  // ---------------------------------------------------------------------------
  // get_ua_from_contained_transparent_receiver

  /** The first ledger address whose transparent receiver is `receiver`. */
  method UaForTransparentReceiver(wc: WalletCapability, receiver: TransparentAddress) returns (r: Option<UnifiedAddress>)
    ensures r.None? <==> forall i :: 0 <= i < |wc.addresses| ==> wc.addresses[i].transparent != Some(receiver)
    ensures r.Some? ==> r.value.transparent == Some(receiver)
    ensures r.Some? ==>
              exists i :: 0 <= i < |wc.addresses| && wc.addresses[i] == r.value
                && forall k :: 0 <= k < i ==> wc.addresses[k].transparent != Some(receiver)
  {
    var i := 0;
    while i < |wc.addresses|
      invariant 0 <= i <= |wc.addresses|
      invariant forall k :: 0 <= k < i ==> wc.addresses[k].transparent != Some(receiver)
    {
      if wc.addresses[i].transparent == Some(receiver) {
        return Some(wc.addresses[i]);
      }
      i := i + 1;
    }
    return None;
  }

  // ---------------------------------------------------------------------------
  // Constructors

  /** `new_from_seed`: the account index must be a non-hardened ZIP 32 account id. */
  function NewFromSeed(p: Primitives, net: Network, seed: Seed, position: nat): (r: Result<WalletCapability, KeyError>)
    requires position < U32Limit
    ensures position >= HardenedBit ==> r == Failure(InvalidAccountId)
    ensures position < HardenedBit && p.uskFromSeed(net, seed, position).None? ==> r == Failure(KeyDerivationError)
    ensures r.Success? <==> position < HardenedBit && p.uskFromSeed(net, seed, position).Some?
    ensures r.Success? ==> position < HardenedBit && r.value == Fresh(Spend(p.uskFromSeed(net, seed, position).value))
  {
    if position >= HardenedBit then Failure(InvalidAccountId)
    else
      var usk := p.uskFromSeed(net, seed, position);
      if usk.None? then Failure(KeyDerivationError) else Success(Fresh(Spend(usk.value)))
  }

  /** `new_from_phrase`: the wallet of the phrase's BIP 39 seed (empty passphrase). */
  function NewFromPhrase(p: Primitives, net: Network, phrase: Mnemonic, position: nat): (r: Result<WalletCapability, KeyError>)
    requires position < U32Limit
    ensures r == NewFromSeed(p, net, p.mnemonicToSeed(phrase), position)
    ensures position >= HardenedBit ==> r == Failure(InvalidAccountId)
    ensures (position < HardenedBit && p.uskFromSeed(net, p.mnemonicToSeed(phrase), position).None?)
              ==> r == Failure(KeyDerivationError)
    ensures r.Success? <==> position < HardenedBit && p.uskFromSeed(net, p.mnemonicToSeed(phrase), position).Some?
    ensures r.Success? ==> r.value == Fresh(Spend(p.uskFromSeed(net, p.mnemonicToSeed(phrase), position).value))
  {
    NewFromSeed(p, net, p.mnemonicToSeed(phrase), position)
  }

  /** `new_from_usk`. */
  function NewFromUsk(p: Primitives, bytes: seq<byte>): (r: Result<WalletCapability, KeyError>)
    ensures r.Success? <==> p.uskFromBytes(bytes).Some?
    ensures r.Success? ==> r.value == Fresh(Spend(p.uskFromBytes(bytes).value))
    ensures r.Failure? ==> r.error == KeyDecodingError
  {
    var usk := p.uskFromBytes(bytes);
    if usk.None? then Failure(KeyDecodingError) else Success(Fresh(Spend(usk.value)))
  }

  /** The human-readable prefix of a sapling extended full viewing key on each network. */
  function SaplingEfvkHrp(net: Network): string
  {
    match net
    case Mainnet => "zxviews"
    case Testnet => "zxviewtestsapling"
    case Regtest => "zxviewregtestsapling"
  }

  /**
   * `new_from_ufvk`: a sapling-only key encoding is refused first, then an undecodable
   * string, then a key for another network, then one that does not parse.
   */
  function NewFromUfvk(p: Primitives, net: Network, encoded: string): (r: Result<WalletCapability, KeyError>)
    ensures SaplingEfvkHrp(net) <= encoded ==> r == Failure(InvalidFormat)
    ensures !(SaplingEfvkHrp(net) <= encoded) && p.rawUfvkDecode(encoded).None? ==> r == Failure(KeyDecodingError)
    ensures (!(SaplingEfvkHrp(net) <= encoded) && p.rawUfvkDecode(encoded).Some? && p.rawUfvkDecode(encoded).value.0 != net)
              ==> r == Failure(NetworkMismatch)
    ensures (&& !(SaplingEfvkHrp(net) <= encoded) && p.rawUfvkDecode(encoded).Some?
             && p.rawUfvkDecode(encoded).value.0 == net && p.ufvkParse(p.rawUfvkDecode(encoded).value.1).None?)
              ==> r == Failure(KeyDecodingError)
    // Every check passing is exactly what makes the key load.
    ensures r.Success? <==>
              && !(SaplingEfvkHrp(net) <= encoded)
              && p.rawUfvkDecode(encoded).Some?
              && p.rawUfvkDecode(encoded).value.0 == net
              && p.ufvkParse(p.rawUfvkDecode(encoded).value.1).Some?
    ensures r.Success? ==> r.value == Fresh(View(p.ufvkParse(p.rawUfvkDecode(encoded).value.1).value))
    ensures r.Failure? ==> r.error in {InvalidFormat, KeyDecodingError, NetworkMismatch}
  {
    if SaplingEfvkHrp(net) <= encoded then Failure(InvalidFormat)
    else
      match p.rawUfvkDecode(encoded)
      case None => Failure(KeyDecodingError)
      case Some((network, raw)) =>
        if network != net then Failure(NetworkMismatch)
        else
          match p.ufvkParse(raw)
          case None => Failure(KeyDecodingError)
          case Some(ufvk) => Success(Fresh(View(ufvk)))
  }
}
