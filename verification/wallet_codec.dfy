/**
 * The versioned byte encoding of `WalletCapability`.
 *
 * Writing always emits version 3: the key-store encoding, then a CompactSize count and
 * one `ReceiverSelection` per ledger address recording which receivers it holds. Reading
 * accepts versions 1, 2 and 3 and rebuilds the address ledger by replaying address
 * derivation over the stored selections, onto a fresh capability; one failed replay
 * fails the whole read.
 */
module WalletCodec {
  import opened Wrappers
  import opened Errors
  import opened Encoding
  import opened Keys
  import Receivers
  import opened KeyStore
  import opened Wallet

  const WalletVersion: byte := 3

  /** The receivers an address holds, as a selection. */
  function SelectionOf(ua: UnifiedAddress): Receivers.ReceiverSelection
  {
    Receivers.ReceiverSelection(ua.orchard.Some?, ua.sapling.Some?, ua.transparent.Some?)
  }

  function Selections(addresses: seq<UnifiedAddress>): (r: seq<Receivers.ReceiverSelection>)
    ensures |r| == |addresses|
    ensures forall i :: 0 <= i < |r| ==> r[i] == SelectionOf(addresses[i])
  {
    seq(|addresses|, i requires 0 <= i < |addresses| => SelectionOf(addresses[i]))
  }

  /** The elements of `Vector::write` of selections, without the count. */
  function WriteSelections(sels: seq<Receivers.ReceiverSelection>): (r: seq<byte>)
    ensures |r| == 2 * |sels|
  {
    if |sels| == 0 then [] else Receivers.Write(sels[0]) + WriteSelections(sels[1..])
  }

  lemma {:induction false} WriteSelectionsChunks(sels: seq<Receivers.ReceiverSelection>)
    ensures forall i :: 0 <= i < |sels| ==> WriteSelections(sels)[2 * i .. 2 * i + 2] == Receivers.Write(sels[i])
  {
    if |sels| > 0 {
      WriteSelectionsChunks(sels[1..]);
      var w := WriteSelections(sels);
      forall i | 0 <= i < |sels|
        ensures w[2 * i .. 2 * i + 2] == Receivers.Write(sels[i])
      {
        if i > 0 {
          assert w[2 * i .. 2 * i + 2] == WriteSelections(sels[1..])[2 * (i - 1) .. 2 * (i - 1) + 2];
        }
      }
    }
  }

  /** `count` selections, read one after another. */
  function ReadSelectionsN(s: seq<byte>, count: nat): (r: Result<Parsed<seq<Receivers.ReceiverSelection>>, IoError>)
    decreases count
    ensures r.Success? ==> |r.value.value| == count
  {
    if count == 0 then Success(Parsed([], s))
    else
      var first :- Receivers.Read(s);
      var others :- ReadSelectionsN(first.rest, count - 1);
      Success(Parsed([first.value] + others.value, others.rest))
  }

  /** `Vector::read` of selections: a CompactSize count, then that many selections. */
  function ReadSelections(s: seq<byte>): (r: Result<Parsed<seq<Receivers.ReceiverSelection>>, IoError>)
    ensures r.Success? ==> |r.value.value| <= MaxCompactSize
  {
    var count :- ReadCompactSize(s);
    ReadSelectionsN(count.rest, count.value)
  }

  lemma {:induction false} SelectionsRoundTrip(sels: seq<Receivers.ReceiverSelection>, rest: seq<byte>)
    ensures ReadSelectionsN(WriteSelections(sels) + rest, |sels|) == Success(Parsed(sels, rest))
  {
    if |sels| == 0 {
      assert WriteSelections(sels) + rest == rest;
    } else {
      var s := WriteSelections(sels) + rest;
      var tail := WriteSelections(sels[1..]) + rest;
      assert s == Receivers.Write(sels[0]) + tail;
      Receivers.RoundTrip(sels[0], tail);
      assert Receivers.Read(s) == Success(Parsed(sels[0], tail));
      SelectionsRoundTrip(sels[1..], rest);
      assert ReadSelectionsN(tail, |sels| - 1) == Success(Parsed(sels[1..], rest));
      assert [sels[0]] + sels[1..] == sels;
      assert ReadSelectionsN(s, |sels|) == Success(Parsed([sels[0]] + sels[1..], rest));
    }
  }

  /** `Vector::read` undoes `Vector::write` of selections. */
  lemma {:induction false} VectorRoundTrip(sels: seq<Receivers.ReceiverSelection>, rest: seq<byte>)
    requires |sels| <= MaxCompactSize
    ensures ReadSelections(WriteCompactSize(|sels|) + WriteSelections(sels) + rest) == Success(Parsed(sels, rest))
  {
    var body := WriteSelections(sels) + rest;
    assert WriteCompactSize(|sels|) + WriteSelections(sels) + rest == WriteCompactSize(|sels|) + body;
    CompactSizeRoundTrip(|sels|, body);
    SelectionsRoundTrip(sels, rest);
  }

  // ---------------------------------------------------------------------------
  // Writing

  predicate WalletWritable(p: Primitives, net: Network, wc: WalletCapability)
  {
    Writable(p, net, wc.keyStore) && |wc.addresses| < U64Limit
  }

  function Write(p: Primitives, net: Network, wc: WalletCapability): (r: seq<byte>)
    requires WalletWritable(p, net, wc)
    ensures |r| > 1 + |KeyStore.Write(p, net, wc.keyStore)| + 2 * |wc.addresses|
    ensures r[0] == WalletVersion
    ensures var ks := KeyStore.Write(p, net, wc.keyStore); r[1..1 + |ks|] == ks
  {
    [WalletVersion] + KeyStore.Write(p, net, wc.keyStore)
      + WriteCompactSize(|wc.addresses|) + WriteSelections(Selections(wc.addresses))
  }

  /** The encoding ends with one two-byte selection per ledger address, in ledger order. */
  lemma WriteRecordsReceivers(p: Primitives, net: Network, wc: WalletCapability, i: nat)
    requires WalletWritable(p, net, wc)
    requires i < |wc.addresses|
    ensures var r := Write(p, net, wc);
            var at := |r| - 2 * |wc.addresses| + 2 * i;
            r[at .. at + 2] == Receivers.Write(SelectionOf(wc.addresses[i]))
  {
    var sels := Selections(wc.addresses);
    var tail := WriteSelections(sels);
    var prefix := [WalletVersion] + KeyStore.Write(p, net, wc.keyStore) + WriteCompactSize(|wc.addresses|);
    var r := Write(p, net, wc);
    assert r == prefix + tail;
    WriteSelectionsChunks(sels);
    var at := |r| - 2 * |wc.addresses| + 2 * i;
    assert r[at .. at + 2] == tail[2 * i .. 2 * i + 2];
  }

  // ---------------------------------------------------------------------------
  // Replaying address derivation

  /** Which derivation a replay runs: `new_address`, or `legacy_new_address` with given keys. */
  datatype Derivation = Primary | Legacy(keys: LegacyKeys)

  predicate StepDefined(p: Primitives, how: Derivation, wc: WalletCapability, sel: Receivers.ReceiverSelection)
  {
    match how
    case Primary => NewAddressDefined(p, wc, sel)
    case Legacy(keys) => LegacyNewAddressDefined(p, wc, keys, sel)
  }

  /** The orchard viewing key a derivation uses: the store's for `new_address`, the given one otherwise. */
  function OrchardKeyFor(p: Primitives, how: Derivation, ks: UnifiedKeyStore): Option<OrchardFvk>
  {
    match how
    case Primary => OrchardFvkOf(p, ks).ToOption()
    case Legacy(keys) => keys.orchard
  }

  /** The sapling viewing key a derivation uses: the store's for `new_address`, the given one otherwise. */
  function SaplingKeyFor(p: Primitives, how: Derivation, ks: UnifiedKeyStore): Option<SaplingFvk>
  {
    match how
    case Primary => SaplingFvkOf(p, ks).ToOption()
    case Legacy(keys) => keys.sapling
  }

  function StepWith(p: Primitives, how: Derivation, wc: WalletCapability, sel: Receivers.ReceiverSelection): (st: Step)
    requires StepDefined(p, how, wc, sel)
    ensures st.wallet.keyStore == wc.keyStore && st.wallet.writeLock == wc.writeLock
    ensures st.result.Success? ==> st.wallet.addresses == wc.addresses + [st.result.value]
    ensures st.result.Failure? ==> st.wallet.addresses == wc.addresses
    ensures !wc.writeLock ==> st.result != Failure(WriteLockCollision)
  {
    match how
    case Primary => NewAddress(p, wc, sel)
    case Legacy(keys) => LegacyNewAddress(p, wc, keys, sel)
  }

  /**
   * Address `ua` at ledger index `n` holds exactly the shielded receivers `sel` asks for,
   * each derived at `n` from the given viewing key, and a transparent one only when asked.
   */
  predicate EntryFromKeys(
    p: Primitives, orchardKey: Option<OrchardFvk>, saplingKey: Option<SaplingFvk>,
    sel: Receivers.ReceiverSelection, ua: UnifiedAddress, n: nat)
  {
    && (ua.orchard.Some? <==> sel.orchard)
    && (sel.orchard ==> orchardKey.Some? && ua.orchard == Some(p.orchardAddressAt(orchardKey.value, n)))
    && (ua.sapling.Some? <==> sel.sapling)
    && (sel.sapling ==>
          && saplingKey.Some?
          && Sapling.DiversifierFor(p, saplingKey.value, n).Some?
          && ua.sapling == Some(Sapling.AddressFor(p, saplingKey.value, n)))
    && (ua.transparent.Some? ==> sel.transparent)
  }

  /** A new address is built from the derivation's viewing keys at the ledger's length. */
  lemma StepReceivers(p: Primitives, how: Derivation, wc: WalletCapability, sel: Receivers.ReceiverSelection)
    requires StepDefined(p, how, wc, sel)
    ensures StepWith(p, how, wc, sel).result.Success? ==>
              EntryFromKeys(p, OrchardKeyFor(p, how, wc.keyStore), SaplingKeyFor(p, how, wc.keyStore),
                            sel, StepWith(p, how, wc, sel).result.value, |wc.addresses|)
  {
  }

  /** No step of the replay reaches a panic. */
  predicate ReplayDefined(p: Primitives, how: Derivation, wc: WalletCapability, sels: seq<Receivers.ReceiverSelection>)
    decreases |sels|
  {
    || |sels| == 0
    || (&& StepDefined(p, how, wc, sels[0])
        && (StepWith(p, how, wc, sels[0]).result.Success? ==>
              ReplayDefined(p, how, StepWith(p, how, wc, sels[0]).wallet, sels[1..])))
  }

  /** The read loop: one derivation per stored selection, stopping at the first error. */
  function Replay(p: Primitives, how: Derivation, wc: WalletCapability, sels: seq<Receivers.ReceiverSelection>)
    : (r: Result<WalletCapability, AddressError>)
    requires ReplayDefined(p, how, wc, sels)
    decreases |sels|
    ensures r.Success? ==> r.value.keyStore == wc.keyStore && r.value.writeLock == wc.writeLock
    ensures r.Success? ==>
              |r.value.addresses| == |wc.addresses| + |sels| && r.value.addresses[..|wc.addresses|] == wc.addresses
    ensures !wc.writeLock && r.Failure? ==> r.error != WriteLockCollision
    // The first failing step ends the replay with its error (`ReplayEntriesAreSteps` says what succeeding ones append).
    ensures |sels| > 0 && StepWith(p, how, wc, sels[0]).result.Failure? ==>
              r == Failure(StepWith(p, how, wc, sels[0]).result.error)
  {
    if |sels| == 0 then Success(wc)
    else
      var st := StepWith(p, how, wc, sels[0]);
      match st.result
      case Failure(e) => Failure(e)
      case Success(_) => Replay(p, how, st.wallet, sels[1..])
  }

  /** A replay onto a fresh capability; an error becomes the read's `InvalidData`. */
  function ReplayOnto(p: Primitives, how: Derivation, ks: UnifiedKeyStore, sels: seq<Receivers.ReceiverSelection>)
    : (r: Result<WalletCapability, IoError>)
    requires ReplayDefined(p, how, Fresh(ks), sels)
    ensures r.Success? <==> Replay(p, how, Fresh(ks), sels).Success?
    ensures r.Success? ==> r.value == Replay(p, how, Fresh(ks), sels).value
    ensures r.Success? ==> r.value.keyStore == ks && |r.value.addresses| == |sels| && !r.value.writeLock
    ensures r.Failure? ==> r.error == InvalidData(Fault.Replay(Replay(p, how, Fresh(ks), sels).error))
  {
    match Replay(p, how, Fresh(ks), sels)
    case Failure(e) => Failure(InvalidData(Fault.Replay(e)))
    case Success(wc) => Success(wc)
  }

  // ---------------------------------------------------------------------------
  // Version 1: three spending keys; the key store stays empty.

  function ParseV1(p: Primitives, s: seq<byte>): Result<(LegacyKeys, seq<Receivers.ReceiverSelection>), IoError>
  {
    var orchard :- p.readOrchardSpendingKey(s);
    var sapling :- p.readSaplingSpendingKey(orchard.rest);
    var transparent :- p.readExtendedPrivKey(sapling.rest);
    var sels :- ReadSelections(transparent.rest);
    var keys := LegacyKeys(
      Some(p.orchardFvkOf(orchard.value)),
      Some(p.saplingFvkOf(sapling.value)),
      Some(p.extendedPubKeyOf(transparent.value)));
    Success((keys, sels.value))
  }

  predicate V1Defined(p: Primitives, s: seq<byte>)
  {
    ParseV1(p, s).Success? ==>
      ReplayDefined(p, Legacy(ParseV1(p, s).value.0), Fresh(Empty), ParseV1(p, s).value.1)
  }

  function ReadV1(p: Primitives, s: seq<byte>): (r: Result<WalletCapability, IoError>)
    requires V1Defined(p, s)
    ensures r.Success? <==>
              ParseV1(p, s).Success?
              && Replay(p, Legacy(ParseV1(p, s).value.0), Fresh(Empty), ParseV1(p, s).value.1).Success?
    ensures r.Success? ==> r.value.keyStore == Empty
    ensures r.Success? ==> ParseV1(p, s).Success? && |r.value.addresses| == |ParseV1(p, s).value.1|
    ensures r.Success? ==>
              var parsed := ParseV1(p, s).value;
              Replay(p, Legacy(parsed.0), Fresh(Empty), parsed.1) == Success(r.value)
  {
    var parsed :- ParseV1(p, s);
    ReplayOnto(p, Legacy(parsed.0), Empty, parsed.1)
  }

  // ---------------------------------------------------------------------------
  // Version 2: a capability record per pool.

  datatype V2Capabilities = V2Capabilities(
    orchard: Capability<OrchardFvk, OrchardSpendingKey>,
    sapling: Capability<SaplingFvk, SaplingExtendedSpendingKey>,
    transparent: Capability<ExtendedPubKey, ExtendedPrivKey>)

  function ParseV2(p: Primitives, s: seq<byte>): Result<(V2Capabilities, seq<Receivers.ReceiverSelection>), IoError>
  {
    var orchard :- p.readOrchardCapability(s);
    var sapling :- p.readSaplingCapability(orchard.rest);
    var transparent :- p.readTransparentCapability(sapling.rest);
    var sels :- ReadSelections(transparent.rest);
    Success((V2Capabilities(orchard.value, sapling.value, transparent.value), sels.value))
  }

  predicate AnyView(caps: V2Capabilities)
  {
    caps.orchard.ViewCapability? || caps.sapling.ViewCapability? || caps.transparent.ViewCapability?
  }

  /** The viewing keys held as view capabilities; spend and absent capabilities give none. */
  function ViewKeys(caps: V2Capabilities): (keys: LegacyKeys)
    ensures keys.orchard.Some? <==> caps.orchard.ViewCapability?
    ensures keys.sapling.Some? <==> caps.sapling.ViewCapability?
    ensures keys.transparent.Some? <==> caps.transparent.ViewCapability?
  {
    LegacyKeys(
      if caps.orchard.ViewCapability? then Some(caps.orchard.viewKey) else None,
      if caps.sapling.ViewCapability? then Some(caps.sapling.viewKey) else None,
      if caps.transparent.ViewCapability? then Some(caps.transparent.viewKey) else None)
  }

  /** The key store of a version-2 wallet: the view keys combined into one, if there are any. */
  function V2Store(p: Primitives, net: Network, caps: V2Capabilities): (ks: UnifiedKeyStore)
    ensures ks.View? <==> AnyView(caps)
    ensures !ks.View? ==> ks == Empty
  {
    if AnyView(caps) then
      var keys := ViewKeys(caps);
      View(p.legacyFvksToUfvk(keys.orchard, keys.sapling, keys.transparent, net))
    else Empty
  }

  /**
   * The keys the replay is given: a view capability's key, or the viewing key of a spend
   * capability's key, derived as the version-1 path derives it.
   */
  function ReplayKeys(p: Primitives, caps: V2Capabilities): (keys: LegacyKeys)
    ensures keys.orchard.Some? <==> !caps.orchard.NoCapability?
    ensures keys.sapling.Some? <==> !caps.sapling.NoCapability?
    ensures keys.transparent.Some? <==> !caps.transparent.NoCapability?
    ensures caps.orchard.SpendCapability? ==> keys.orchard == Some(p.orchardFvkOf(caps.orchard.spendKey))
    ensures caps.sapling.SpendCapability? ==> keys.sapling == Some(p.saplingFvkOf(caps.sapling.spendKey))
    ensures caps.transparent.SpendCapability? ==> keys.transparent == Some(p.extendedPubKeyOf(caps.transparent.spendKey))
    ensures caps.orchard.ViewCapability? ==> keys.orchard == ViewKeys(caps).orchard
    ensures caps.sapling.ViewCapability? ==> keys.sapling == ViewKeys(caps).sapling
    ensures caps.transparent.ViewCapability? ==> keys.transparent == ViewKeys(caps).transparent
  {
    LegacyKeys(
      match caps.orchard
      case ViewCapability(fvk) => Some(fvk)
      case SpendCapability(sk) => Some(p.orchardFvkOf(sk))
      case NoCapability => None,
      match caps.sapling
      case ViewCapability(fvk) => Some(fvk)
      case SpendCapability(sk) => Some(p.saplingFvkOf(sk))
      case NoCapability => None,
      match caps.transparent
      case ViewCapability(fvk) => Some(fvk)
      case SpendCapability(sk) => Some(p.extendedPubKeyOf(sk))
      case NoCapability => None)
  }

  predicate V2DefinedWith(p: Primitives, net: Network, s: seq<byte>, viewOnly: bool)
  {
    ParseV2(p, s).Success? ==>
      var caps := ParseV2(p, s).value.0;
      var keys := if viewOnly then ViewKeys(caps) else ReplayKeys(p, caps);
      ReplayDefined(p, Legacy(keys), Fresh(V2Store(p, net, caps)), ParseV2(p, s).value.1)
  }

  /** The version-2 read as the source writes it: spend capabilities give the replay no keys. */
  function ReadV2AsWritten(p: Primitives, net: Network, s: seq<byte>): (r: Result<WalletCapability, IoError>)
    requires V2DefinedWith(p, net, s, true)
    ensures r.Success? <==>
              ParseV2(p, s).Success?
              && Replay(p, Legacy(ViewKeys(ParseV2(p, s).value.0)), Fresh(V2Store(p, net, ParseV2(p, s).value.0)),
                        ParseV2(p, s).value.1).Success?
    ensures r.Success? ==> ParseV2(p, s).Success? && r.value.keyStore == V2Store(p, net, ParseV2(p, s).value.0)
    ensures r.Success? ==>
              var parsed := ParseV2(p, s).value;
              Replay(p, Legacy(ViewKeys(parsed.0)), Fresh(V2Store(p, net, parsed.0)), parsed.1) == Success(r.value)
  {
    var parsed :- ParseV2(p, s);
    ReplayOnto(p, Legacy(ViewKeys(parsed.0)), V2Store(p, net, parsed.0), parsed.1)
  }

  /** The version-2 read, replaying every pool that holds a view or a spend capability. */
  function ReadV2(p: Primitives, net: Network, s: seq<byte>): (r: Result<WalletCapability, IoError>)
    requires V2DefinedWith(p, net, s, false)
    ensures r.Success? <==>
              ParseV2(p, s).Success?
              && Replay(p, Legacy(ReplayKeys(p, ParseV2(p, s).value.0)), Fresh(V2Store(p, net, ParseV2(p, s).value.0)),
                        ParseV2(p, s).value.1).Success?
    ensures r.Success? ==> (r.value.keyStore.View? <==> AnyView(ParseV2(p, s).value.0))
    ensures r.Success? ==> r.value.keyStore.View? || r.value.keyStore.Empty?
    ensures r.Success? ==> |r.value.addresses| == |ParseV2(p, s).value.1|
    ensures r.Success? ==>
              var parsed := ParseV2(p, s).value;
              Replay(p, Legacy(ReplayKeys(p, parsed.0)), Fresh(V2Store(p, net, parsed.0)), parsed.1) == Success(r.value)
  {
    var parsed :- ParseV2(p, s);
    ReplayOnto(p, Legacy(ReplayKeys(p, parsed.0)), V2Store(p, net, parsed.0), parsed.1)
  }

  // ---------------------------------------------------------------------------
  // Version 3: the key-store encoding.

  function ParseV3(p: Primitives, net: Network, s: seq<byte>): Result<(UnifiedKeyStore, seq<Receivers.ReceiverSelection>), IoError>
  {
    var ks :- KeyStore.Read(p, net, s);
    var sels :- ReadSelections(ks.rest);
    Success((ks.value, sels.value))
  }

  predicate V3Defined(p: Primitives, net: Network, s: seq<byte>)
  {
    ParseV3(p, net, s).Success? ==>
      ReplayDefined(p, Primary, Fresh(ParseV3(p, net, s).value.0), ParseV3(p, net, s).value.1)
  }

  function ReadV3(p: Primitives, net: Network, s: seq<byte>): (r: Result<WalletCapability, IoError>)
    requires V3Defined(p, net, s)
    ensures r.Success? <==>
              ParseV3(p, net, s).Success?
              && Replay(p, Primary, Fresh(ParseV3(p, net, s).value.0), ParseV3(p, net, s).value.1).Success?
    ensures r.Success? ==> r.value.keyStore == ParseV3(p, net, s).value.0
    ensures r.Success? ==> |r.value.addresses| == |ParseV3(p, net, s).value.1|
    ensures r.Success? ==>
              var parsed := ParseV3(p, net, s).value;
              Replay(p, Primary, Fresh(parsed.0), parsed.1) == Success(r.value)
  {
    var parsed :- ParseV3(p, net, s);
    ReplayOnto(p, Primary, parsed.0, parsed.1)
  }

  // ---------------------------------------------------------------------------
  // Dispatch on the version byte

  /** The read reaches no panic on `s`. */
  predicate ReadDefined(p: Primitives, net: Network, s: seq<byte>)
  {
    match ReadVersion(s, WalletVersion)
    case Failure(_) => true
    case Success(v) =>
      && (v.value == 1 ==> V1Defined(p, v.rest))
      && (v.value == 2 ==> V2DefinedWith(p, net, v.rest, true))
      && (v.value == 3 ==> V3Defined(p, net, v.rest))
  }

  function Read(p: Primitives, net: Network, s: seq<byte>): (r: Result<WalletCapability, IoError>)
    requires ReadDefined(p, net, s)
    ensures |s| == 0 ==> r == Failure(UnexpectedEof)
    ensures r.Success? ==> |s| > 0 && 1 <= s[0] <= 3
    ensures |s| > 0 && (s[0] == 0 || s[0] > 3) ==> r.Failure? && r.error.InvalidData?
    ensures r.Success? ==> !r.value.writeLock
    ensures r.Success? && s[0] == 1 ==> r.value.keyStore == Empty
    ensures |s| > 0 && s[0] == 1 ==> r == ReadV1(p, s[1..])
    ensures |s| > 0 && s[0] == 2 ==> r == ReadV2AsWritten(p, net, s[1..])
    ensures |s| > 0 && s[0] == 3 ==> r == ReadV3(p, net, s[1..])
  {
    var version :- ReadVersion(s, WalletVersion);
    if version.value == 1 then ReadV1(p, version.rest)
    else if version.value == 2 then ReadV2AsWritten(p, net, version.rest)
    else if version.value == 3 then ReadV3(p, net, version.rest)
    else Failure(InvalidData(UnsupportedVersion(version.value)))
  }

  predicate ReadCorrectedDefined(p: Primitives, net: Network, s: seq<byte>)
  {
    if |s| > 0 && s[0] == 2 then V2DefinedWith(p, net, s[1..], false) else ReadDefined(p, net, s)
  }

  /**
   * The read with the corrected version-2 path. It accepts every input `Read` accepts, with
   * the same wallet, and reads a version-2 wallet exactly when its replay with the viewing
   * keys of every view or spend capability succeeds.
   */
  function ReadCorrected(p: Primitives, net: Network, s: seq<byte>): (r: Result<WalletCapability, IoError>)
    requires ReadCorrectedDefined(p, net, s)
    ensures !(|s| > 0 && s[0] == 2) ==> r == Read(p, net, s)
    ensures |s| > 0 && s[0] == 2 ==> r == ReadV2(p, net, s[1..])
    // Conservative: nothing `Read` reads is read differently.
    ensures ReadDefined(p, net, s) && Read(p, net, s).Success? ==> r == Read(p, net, s)
    ensures r.Success? ==> |s| > 0 && 1 <= s[0] <= 3 && !r.value.writeLock
    ensures |s| > 0 && s[0] == 2 ==>
              (r.Success? <==>
                 ParseV2(p, s[1..]).Success?
                 && Replay(p, Legacy(ReplayKeys(p, ParseV2(p, s[1..]).value.0)),
                           Fresh(V2Store(p, net, ParseV2(p, s[1..]).value.0)), ParseV2(p, s[1..]).value.1).Success?)
    ensures |s| > 0 && s[0] == 2 && r.Success? ==>
              && (r.value.keyStore.View? <==> AnyView(ParseV2(p, s[1..]).value.0))
              && |r.value.addresses| == |ParseV2(p, s[1..]).value.1|
  {
    if |s| > 0 && s[0] == 2 then
      assert ReadDefined(p, net, s) && Read(p, net, s).Success? ==> ReadV2(p, net, s[1..]) == Read(p, net, s) by {
        if ReadDefined(p, net, s) && Read(p, net, s).Success? {
          ReadV2Conservative(p, net, s[1..]);
        }
      }
      ReadV2(p, net, s[1..])
    else Read(p, net, s)
  }

  // ---------------------------------------------------------------------------
  // Round trip

  /** Ledger entry `ua`, after `prefix`, is what `new_address` derives for the receivers `ua` holds. */
  ghost predicate DerivesAt(p: Primitives, ks: UnifiedKeyStore, prefix: seq<UnifiedAddress>, ua: UnifiedAddress)
  {
    var wc := WalletCapability(ks, [], prefix, false);
    NewAddressDefined(p, wc, SelectionOf(ua)) && NewAddress(p, wc, SelectionOf(ua)).result == Success(ua)
  }

  /** Every ledger entry can be derived again from the key store, its index and its receivers. */
  ghost predicate Replayable(p: Primitives, ks: UnifiedKeyStore, addresses: seq<UnifiedAddress>)
  {
    forall k :: 0 <= k < |addresses| ==> DerivesAt(p, ks, addresses[..k], addresses[k])
  }

  /** `new_address` reads neither the transparent ledger nor anything but the ledger's length. */
  lemma NewAddressFrame(p: Primitives, wc: WalletCapability, sel: Receivers.ReceiverSelection, other: WalletCapability)
    requires other.keyStore == wc.keyStore && other.addresses == wc.addresses && other.writeLock == wc.writeLock
    ensures NewAddressDefined(p, other, sel) == NewAddressDefined(p, wc, sel)
    ensures NewAddressDefined(p, wc, sel) ==>
              NewAddress(p, other, sel).result == NewAddress(p, wc, sel).result
  {
  }

  /** A new address is derived again from the receivers it holds, even where fewer were asked for. */
  lemma NewAddressReproducible(p: Primitives, wc: WalletCapability, sel: Receivers.ReceiverSelection)
    requires NewAddressDefined(p, wc, sel)
    requires NewAddress(p, wc, sel).result.Success?
    ensures DerivesAt(p, wc.keyStore, wc.addresses, NewAddress(p, wc, sel).result.value)
  {
    var ua := NewAddress(p, wc, sel).result.value;
    var sel' := SelectionOf(ua);
    var wc0 := WalletCapability(wc.keyStore, [], wc.addresses, false);
    NewAddressFrame(p, wc, sel, wc0);
    assert sel'.orchard == sel.orchard && sel'.sapling == sel.sapling;
    assert sel'.transparent == (sel.transparent && ExternalIvkOf(p, wc.keyStore).Some?);
    assert NewAddressDefined(p, wc0, sel');
    assert NewAddress(p, wc0, sel').result == Success(ua);
  }

  /** Appending with `new_address` keeps the ledger replayable. */
  lemma NewAddressKeepsReplayable(p: Primitives, wc: WalletCapability, sel: Receivers.ReceiverSelection)
    requires Replayable(p, wc.keyStore, wc.addresses)
    requires NewAddressDefined(p, wc, sel)
    ensures Replayable(p, NewAddress(p, wc, sel).wallet.keyStore, NewAddress(p, wc, sel).wallet.addresses)
  {
    var st := NewAddress(p, wc, sel);
    if st.result.Success? {
      var a := st.wallet.addresses;
      NewAddressReproducible(p, wc, sel);
      forall k | 0 <= k < |a|
        ensures DerivesAt(p, wc.keyStore, a[..k], a[k])
      {
        if k < |wc.addresses| {
          assert a[..k] == wc.addresses[..k];
        } else {
          assert a[..k] == wc.addresses;
        }
      }
    }
  }

  /** Replaying the selections of a replayable ledger onto its prefix rebuilds the ledger. */
  lemma {:induction false} ReplayRebuilds(p: Primitives, wc: WalletCapability, addresses: seq<UnifiedAddress>, i: nat)
    requires Replayable(p, wc.keyStore, addresses)
    requires i <= |addresses| && wc.addresses == addresses[..i] && !wc.writeLock
    ensures ReplayDefined(p, Primary, wc, Selections(addresses)[i..])
    ensures Replay(p, Primary, wc, Selections(addresses)[i..]).Success?
    ensures Replay(p, Primary, wc, Selections(addresses)[i..]).value.addresses == addresses
    decreases |addresses| - i
  {
    var sels := Selections(addresses)[i..];
    if i == |addresses| {
      assert sels == [];
      assert addresses[..i] == addresses;
    } else {
      var ua := addresses[i];
      assert DerivesAt(p, wc.keyStore, addresses[..i], ua);
      NewAddressFrame(p, WalletCapability(wc.keyStore, [], addresses[..i], false), SelectionOf(ua), wc);
      assert sels[0] == SelectionOf(ua);
      var st := NewAddress(p, wc, sels[0]);
      assert st.wallet.addresses == addresses[..i + 1];
      assert sels[1..] == Selections(addresses)[i + 1..];
      ReplayRebuilds(p, st.wallet, addresses, i + 1);
    }
  }

  /** A step reads neither the transparent ledger nor anything but the ledger's length and the store. */
  lemma StepFrame(p: Primitives, how: Derivation, wc: WalletCapability, sel: Receivers.ReceiverSelection, other: WalletCapability)
    requires other.keyStore == wc.keyStore && other.addresses == wc.addresses && other.writeLock == wc.writeLock
    ensures StepDefined(p, how, other, sel) == StepDefined(p, how, wc, sel)
    ensures StepDefined(p, how, wc, sel) ==> StepWith(p, how, other, sel).result == StepWith(p, how, wc, sel).result
  {
  }

  /** A successful replay's first step succeeded. */
  lemma ReplayFirstStepSucceeds(p: Primitives, how: Derivation, wc: WalletCapability, sels: seq<Receivers.ReceiverSelection>)
    requires ReplayDefined(p, how, wc, sels)
    requires Replay(p, how, wc, sels).Success?
    requires |sels| > 0
    ensures StepWith(p, how, wc, sels[0]).result.Success?
  {
  }

  /** A replay whose first step succeeds goes on from the state that step leaves. */
  lemma ReplayUnfold(p: Primitives, how: Derivation, wc: WalletCapability, sels: seq<Receivers.ReceiverSelection>)
    requires ReplayDefined(p, how, wc, sels)
    requires |sels| > 0
    requires StepWith(p, how, wc, sels[0]).result.Success?
    ensures ReplayDefined(p, how, StepWith(p, how, wc, sels[0]).wallet, sels[1..])
    ensures Replay(p, how, wc, sels) == Replay(p, how, StepWith(p, how, wc, sels[0]).wallet, sels[1..])
  {
  }

  /**
   * A replay runs its selections in order: once the first `k` steps have succeeded, it goes
   * on from the state they leave. With `Replay`'s own contract this makes the first failing
   * step, wherever it is, end the replay with its error.
   */
  lemma {:induction false} ReplaySplit(
    p: Primitives, how: Derivation, wc: WalletCapability, sels: seq<Receivers.ReceiverSelection>, k: nat)
    requires ReplayDefined(p, how, wc, sels)
    requires k <= |sels|
    ensures ReplayDefined(p, how, wc, sels[..k])
    ensures Replay(p, how, wc, sels[..k]).Success? ==>
              && ReplayDefined(p, how, Replay(p, how, wc, sels[..k]).value, sels[k..])
              && Replay(p, how, wc, sels) == Replay(p, how, Replay(p, how, wc, sels[..k]).value, sels[k..])
    decreases k
  {
    if k == 0 {
      assert sels[..0] == [] && sels[0..] == sels;
    } else {
      var st := StepWith(p, how, wc, sels[0]);
      var head := sels[..k];
      assert head[0] == sels[0];
      if st.result.Success? {
        ReplayUnfold(p, how, wc, sels);
        ReplaySplit(p, how, st.wallet, sels[1..], k - 1);
        assert head[1..] == sels[1..][..k - 1];
        assert sels[1..][k - 1..] == sels[k..];
        ReplayUnfold(p, how, wc, head);
      }
    }
  }

  /** The first entry a successful replay appends is what its first step derives. */
  lemma ReplayFirstEntry(p: Primitives, how: Derivation, wc: WalletCapability, sels: seq<Receivers.ReceiverSelection>)
    requires ReplayDefined(p, how, wc, sels)
    requires Replay(p, how, wc, sels).Success?
    requires |sels| > 0
    ensures StepWith(p, how, wc, sels[0]).result == Success(Replay(p, how, wc, sels).value.addresses[|wc.addresses|])
  {
    var st := StepWith(p, how, wc, sels[0]);
    ReplayFirstStepSucceeds(p, how, wc, sels);
    ReplayUnfold(p, how, wc, sels);
    var entries := Replay(p, how, st.wallet, sels[1..]).value.addresses;
    assert entries[..|st.wallet.addresses|] == st.wallet.addresses;
    assert entries[|wc.addresses|] == st.wallet.addresses[|wc.addresses|];
  }

  /** Entry `n` of `entries` is what a step derives on the ledger of the `n` entries before it. */
  predicate StepAt(
    p: Primitives, how: Derivation, wc: WalletCapability, entries: seq<UnifiedAddress>,
    sel: Receivers.ReceiverSelection, n: nat)
    requires n < |entries|
  {
    && StepDefined(p, how, wc.(addresses := entries[..n]), sel)
    && StepWith(p, how, wc.(addresses := entries[..n]), sel).result == Success(entries[n])
  }

  lemma StepAtFrame(
    p: Primitives, how: Derivation, wc: WalletCapability, other: WalletCapability,
    entries: seq<UnifiedAddress>, sel: Receivers.ReceiverSelection, n: nat)
    requires n < |entries|
    requires other.keyStore == wc.keyStore && other.writeLock == wc.writeLock
    ensures StepAt(p, how, other, entries, sel, n) == StepAt(p, how, wc, entries, sel, n)
  {
    StepFrame(p, how, wc.(addresses := entries[..n]), sel, other.(addresses := entries[..n]));
  }

  lemma ReplayEntryFirst(p: Primitives, how: Derivation, wc: WalletCapability, sels: seq<Receivers.ReceiverSelection>)
    requires ReplayDefined(p, how, wc, sels)
    requires Replay(p, how, wc, sels).Success?
    requires |sels| > 0
    ensures StepAt(p, how, wc, Replay(p, how, wc, sels).value.addresses, sels[0], |wc.addresses|)
  {
    ReplayFirstEntry(p, how, wc, sels);
    assert wc.(addresses := Replay(p, how, wc, sels).value.addresses[..|wc.addresses|]) == wc;
  }

  /** What holds of entry `k - 1` after the first step holds of entry `k` before it. */
  lemma ReplayEntryShift(
    p: Primitives, how: Derivation, wc: WalletCapability, mid: WalletCapability,
    entries: seq<UnifiedAddress>, sels: seq<Receivers.ReceiverSelection>, k: nat)
    requires 0 < k < |sels|
    requires |wc.addresses| + k < |entries|
    requires mid.keyStore == wc.keyStore && mid.writeLock == wc.writeLock
    requires |mid.addresses| == |wc.addresses| + 1
    requires StepAt(p, how, mid, entries, sels[1..][k - 1], |mid.addresses| + (k - 1))
    ensures StepAt(p, how, wc, entries, sels[k], |wc.addresses| + k)
  {
    assert |mid.addresses| + (k - 1) == |wc.addresses| + k;
    assert sels[1..][k - 1] == sels[k];
    StepAtFrame(p, how, mid, wc, entries, sels[k], |wc.addresses| + k);
  }

  /**
   * Each entry a successful replay appends is what its step derives on the ledger before
   * it; so a replay succeeds only when every step does, and its ledger is fixed by the steps.
   */
  lemma {:induction false} ReplayEntriesAreSteps(
    p: Primitives, how: Derivation, wc: WalletCapability, sels: seq<Receivers.ReceiverSelection>, k: nat)
    requires ReplayDefined(p, how, wc, sels)
    requires Replay(p, how, wc, sels).Success?
    requires k < |sels|
    ensures StepAt(p, how, wc, Replay(p, how, wc, sels).value.addresses, sels[k], |wc.addresses| + k)
    decreases |sels|
  {
    if k == 0 {
      ReplayEntryFirst(p, how, wc, sels);
    } else {
      var st := StepWith(p, how, wc, sels[0]);
      ReplayFirstStepSucceeds(p, how, wc, sels);
      assert st.wallet.keyStore == wc.keyStore && st.wallet.writeLock == wc.writeLock;
      assert |st.wallet.addresses| == |wc.addresses| + 1;
      ReplayUnfold(p, how, wc, sels);
      var entries := Replay(p, how, st.wallet, sels[1..]).value.addresses;
      assert |wc.addresses| + k < |entries|;
      ReplayEntriesAreSteps(p, how, st.wallet, sels[1..], k - 1);
      ReplayEntryShift(p, how, wc, st.wallet, entries, sels, k);
    }
  }

  /**
   * In a successful replay the entry at ledger index `i` holds exactly the shielded receivers
   * its selection asks for, each derived at index `i` from the derivation's viewing key.
   */
  lemma ReplayReceiversAtIndex(p: Primitives, how: Derivation, wc: WalletCapability, sels: seq<Receivers.ReceiverSelection>, i: nat)
    requires ReplayDefined(p, how, wc, sels)
    requires Replay(p, how, wc, sels).Success?
    requires |wc.addresses| <= i < |wc.addresses| + |sels|
    ensures EntryFromKeys(p, OrchardKeyFor(p, how, wc.keyStore), SaplingKeyFor(p, how, wc.keyStore),
                          sels[i - |wc.addresses|], Replay(p, how, wc, sels).value.addresses[i], i)
  {
    var k := i - |wc.addresses|;
    var entries := Replay(p, how, wc, sels).value.addresses;
    ReplayEntriesAreSteps(p, how, wc, sels, k);
    StepReceivers(p, how, wc.(addresses := entries[..|wc.addresses| + k]), sels[k]);
  }

  /** Replaying onto a fresh wallet derives entry `i` at index `i`. */
  lemma ReplayFreshEntry(p: Primitives, how: Derivation, ks: UnifiedKeyStore, sels: seq<Receivers.ReceiverSelection>, i: nat)
    requires ReplayDefined(p, how, Fresh(ks), sels)
    requires Replay(p, how, Fresh(ks), sels).Success?
    requires i < |sels|
    ensures EntryFromKeys(p, OrchardKeyFor(p, how, ks), SaplingKeyFor(p, how, ks),
                          sels[i], Replay(p, how, Fresh(ks), sels).value.addresses[i], i)
  {
    var wc := Fresh(ks);
    assert wc.keyStore == ks && |wc.addresses| == 0;
    ReplayReceiversAtIndex(p, how, wc, sels, i);
    assert sels[i - |wc.addresses|] == sels[i];
  }

  /** A version-1 read rebuilds entry `i` from the orchard and sapling spending keys it read. */
  lemma ReadV1Entries(p: Primitives, s: seq<byte>, i: nat)
    requires V1Defined(p, s)
    requires ReadV1(p, s).Success?
    requires i < |ReadV1(p, s).value.addresses|
    ensures var orchardKey := p.orchardFvkOf(p.readOrchardSpendingKey(s).value.value);
            var saplingKey := p.saplingFvkOf(p.readSaplingSpendingKey(p.readOrchardSpendingKey(s).value.rest).value.value);
            EntryFromKeys(p, Some(orchardKey), Some(saplingKey), ParseV1(p, s).value.1[i], ReadV1(p, s).value.addresses[i], i)
  {
    var parsed := ParseV1(p, s).value;
    assert Replay(p, Legacy(parsed.0), Fresh(Empty), parsed.1) == Success(ReadV1(p, s).value);
    ReplayFreshEntry(p, Legacy(parsed.0), Empty, parsed.1, i);
  }

  /**
   * The corrected version-2 read rebuilds entry `i` from each pool's view key, or from the
   * viewing key of its spending key.
   */
  lemma ReadV2Entries(p: Primitives, net: Network, s: seq<byte>, i: nat)
    requires V2DefinedWith(p, net, s, false)
    requires ReadV2(p, net, s).Success?
    requires i < |ReadV2(p, net, s).value.addresses|
    ensures var keys := ReplayKeys(p, ParseV2(p, s).value.0);
            EntryFromKeys(p, keys.orchard, keys.sapling, ParseV2(p, s).value.1[i], ReadV2(p, net, s).value.addresses[i], i)
  {
    var parsed := ParseV2(p, s).value;
    assert Replay(p, Legacy(ReplayKeys(p, parsed.0)), Fresh(V2Store(p, net, parsed.0)), parsed.1) == Success(ReadV2(p, net, s).value);
    ReplayFreshEntry(p, Legacy(ReplayKeys(p, parsed.0)), V2Store(p, net, parsed.0), parsed.1, i);
  }

  /** A version-3 read rebuilds entry `i` from the viewing keys of the key store it read. */
  lemma ReadV3Entries(p: Primitives, net: Network, s: seq<byte>, i: nat)
    requires V3Defined(p, net, s)
    requires ReadV3(p, net, s).Success?
    requires i < |ReadV3(p, net, s).value.addresses|
    ensures var ks := ParseV3(p, net, s).value.0;
            EntryFromKeys(p, OrchardFvkOf(p, ks).ToOption(), SaplingFvkOf(p, ks).ToOption(),
                          ParseV3(p, net, s).value.1[i], ReadV3(p, net, s).value.addresses[i], i)
  {
    var parsed := ParseV3(p, net, s).value;
    assert Replay(p, Primary, Fresh(parsed.0), parsed.1) == Success(ReadV3(p, net, s).value);
    ReplayFreshEntry(p, Primary, parsed.0, parsed.1, i);
    assert OrchardKeyFor(p, Primary, parsed.0) == OrchardFvkOf(p, parsed.0).ToOption();
    assert SaplingKeyFor(p, Primary, parsed.0) == SaplingFvkOf(p, parsed.0).ToOption();
  }

  /** A successful legacy replay is unchanged when the replay is given more keys. */
  lemma {:induction false} ReplayMoreKeys(
    p: Primitives, keys: LegacyKeys, more: LegacyKeys, wc: WalletCapability, sels: seq<Receivers.ReceiverSelection>)
    requires KeysExtend(keys, more)
    requires ReplayDefined(p, Legacy(keys), wc, sels)
    requires Replay(p, Legacy(keys), wc, sels).Success?
    ensures ReplayDefined(p, Legacy(more), wc, sels)
    ensures Replay(p, Legacy(more), wc, sels) == Replay(p, Legacy(keys), wc, sels)
    decreases |sels|
  {
    if |sels| > 0 {
      var st := LegacyNewAddress(p, wc, keys, sels[0]);
      LegacyMoreKeys(p, wc, keys, more, sels[0]);
      ReplayMoreKeys(p, keys, more, st.wallet, sels[1..]);
    }
  }

  /** The corrected version-2 read changes nothing the source's read already reads. */
  lemma ReadV2Conservative(p: Primitives, net: Network, s: seq<byte>)
    requires V2DefinedWith(p, net, s, true)
    requires ReadV2AsWritten(p, net, s).Success?
    ensures V2DefinedWith(p, net, s, false)
    ensures ReadV2(p, net, s) == ReadV2AsWritten(p, net, s)
  {
    var parsed := ParseV2(p, s).value;
    ReplayMoreKeys(p, ViewKeys(parsed.0), ReplayKeys(p, parsed.0), Fresh(V2Store(p, net, parsed.0)), parsed.1);
  }

  /** A key store followed by a selection vector parses back to the two. */
  lemma ParseV3Parts(p: Primitives, net: Network, ks: UnifiedKeyStore, sels: seq<Receivers.ReceiverSelection>)
    requires Recoverable(p, net, ks)
    requires |sels| <= MaxCompactSize
    ensures Writable(p, net, ks)
    ensures ParseV3(p, net, KeyStore.Write(p, net, ks) + (WriteCompactSize(|sels|) + WriteSelections(sels)))
              == Success((ks, sels))
  {
    var tail := WriteCompactSize(|sels|) + WriteSelections(sels);
    KeyStore.RoundTrip(p, net, ks, tail);
    assert KeyStore.Read(p, net, KeyStore.Write(p, net, ks) + tail) == Success(Parsed(ks, tail));
    VectorRoundTrip(sels, []);
    assert tail + [] == tail;
    assert ReadSelections(tail) == Success(Parsed(sels, []));
    ParseV3Of(p, net, KeyStore.Write(p, net, ks) + tail, ks, tail, sels);
  }

  /** `ParseV3` is the key store read followed by the selections read on what remains. */
  lemma ParseV3Of(
    p: Primitives, net: Network, s: seq<byte>, ks: UnifiedKeyStore, tail: seq<byte>, sels: seq<Receivers.ReceiverSelection>)
    requires KeyStore.Read(p, net, s) == Success(Parsed(ks, tail))
    requires ReadSelections(tail) == Success(Parsed(sels, []))
    ensures ParseV3(p, net, s) == Success((ks, sels))
  {
  }

  /** The version-3 body of an encoding parses back to the key store and the ledger's selections. */
  lemma WriteParsesBack(p: Primitives, net: Network, wc: WalletCapability)
    requires Recoverable(p, net, wc.keyStore)
    requires |wc.addresses| <= MaxCompactSize
    ensures WalletWritable(p, net, wc)
    ensures ParseV3(p, net, Write(p, net, wc)[1..]) == Success((wc.keyStore, Selections(wc.addresses)))
  {
    var sels := Selections(wc.addresses);
    ParseV3Parts(p, net, wc.keyStore, sels);
    DropFirst(WalletVersion, KeyStore.Write(p, net, wc.keyStore), WriteCompactSize(|wc.addresses|), WriteSelections(sels));
  }

  lemma DropFirst<T>(x: T, a: seq<T>, b: seq<T>, c: seq<T>)
    ensures ([x] + a + b + c)[1..] == a + (b + c)
  {
    assert ([x] + a + b + c)[1..] == a + b + c;
  }

  /**
   * Writing a wallet whose ledger was built by `new_address`, and reading it back, gives
   * the same key store and the same ledger, and writing that again gives the same bytes.
   */
  lemma {:induction false} WriteReadRoundTrip(p: Primitives, net: Network, wc: WalletCapability)
    requires Recoverable(p, net, wc.keyStore)
    requires |wc.addresses| <= MaxCompactSize
    requires Replayable(p, wc.keyStore, wc.addresses)
    ensures WalletWritable(p, net, wc)
    ensures ReadDefined(p, net, Write(p, net, wc))
    ensures Read(p, net, Write(p, net, wc)).Success?
    ensures Read(p, net, Write(p, net, wc)).value.keyStore == wc.keyStore
    ensures Read(p, net, Write(p, net, wc)).value.addresses == wc.addresses
    ensures Write(p, net, Read(p, net, Write(p, net, wc)).value) == Write(p, net, wc)
  {
    WriteParsesBack(p, net, wc);
    var s := Write(p, net, wc);
    var sels := Selections(wc.addresses);
    ReplayRebuilds(p, Fresh(wc.keyStore), wc.addresses, 0);
    assert sels[0..] == sels;
    assert V3Defined(p, net, s[1..]);
    var back := ReadV3(p, net, s[1..]);
    assert back.Success? && back.value.addresses == wc.addresses;
    assert ReadVersion(s, WalletVersion) == Success(Parsed(3, s[1..]));
    assert Read(p, net, s) == back;
  }

  // ---------------------------------------------------------------------------
  // The version-2 spend-capability read

  /** The selection bytes `[1, 1, 1]`: one selection, asking for an orchard receiver only. */
  lemma SingleOrchardSelection()
    ensures ReadSelections([1, 1, 1]) == Success(Parsed([Receivers.ReceiverSelection(true, false, false)], []))
  {
    var orchardOnly := Receivers.ReceiverSelection(true, false, false);
    assert ReadCompactSize([1, 1, 1]) == Success(Parsed(1, [1, 1]));
    assert Receivers.Read([1, 1]) == Success(Parsed(orchardOnly, []));
    assert ReadSelectionsN([], 0) == Success(Parsed([], []));
    assert [orchardOnly] + [] == [orchardOnly];
  }

  /**
   * A version-2 file whose three capability records are spend capabilities and whose one
   * stored selection asks for an orchard receiver cannot be read as the source is written.
   */
  lemma V2SpendWalletAsWrittenFails(
    p: Primitives, net: Network, s: seq<byte>,
    o: OrchardSpendingKey, sk: SaplingExtendedSpendingKey, t: ExtendedPrivKey,
    s1: seq<byte>, s2: seq<byte>)
    requires p.readOrchardCapability(s) == Success(Parsed(SpendCapability(o), s1))
    requires p.readSaplingCapability(s1) == Success(Parsed(SpendCapability(sk), s2))
    requires p.readTransparentCapability(s2) == Success(Parsed(SpendCapability(t), [1, 1, 1]))
    ensures V2DefinedWith(p, net, s, true)
    ensures ReadV2AsWritten(p, net, s) == Failure(InvalidData(Fault.Replay(NotCapable)))
    ensures ReadDefined(p, net, [2] + s)
    ensures Read(p, net, [2] + s) == Failure(InvalidData(Fault.Replay(NotCapable)))
  {
    SingleOrchardSelection();
    assert ([2] + s)[1..] == s;
  }

  /** The same file read by `ReadV2` rebuilds its one address from the orchard spending key. */
  lemma V2SpendWalletReadable(
    p: Primitives, net: Network, s: seq<byte>,
    o: OrchardSpendingKey, sk: SaplingExtendedSpendingKey, t: ExtendedPrivKey,
    s1: seq<byte>, s2: seq<byte>)
    requires p.readOrchardCapability(s) == Success(Parsed(SpendCapability(o), s1))
    requires p.readSaplingCapability(s1) == Success(Parsed(SpendCapability(sk), s2))
    requires p.readTransparentCapability(s2) == Success(Parsed(SpendCapability(t), [1, 1, 1]))
    ensures V2DefinedWith(p, net, s, false)
    ensures ReadV2(p, net, s).Success?
    ensures ReadV2(p, net, s).value.keyStore == Empty
    ensures ReadV2(p, net, s).value.addresses == [Receivers(Some(p.orchardAddressAt(p.orchardFvkOf(o), 0)), None, None)]
    ensures ReadCorrectedDefined(p, net, [2] + s)
    ensures ReadCorrected(p, net, [2] + s) == ReadV2(p, net, s)
  {
    SingleOrchardSelection();
    assert ([2] + s)[1..] == s;
  }
}
