/**
 * `UnifiedKeyStore`: the wallet holds spending keys for every pool, a unified viewing key,
 * or nothing. Spending and viewing keys are projected out of it with typed capability
 * errors, and it has its own versioned byte encoding.
 */
module KeyStore {
  import opened Wrappers
  import opened Errors
  import opened Encoding
  import opened Keys
  import Receivers

  datatype UnifiedKeyStore =
    | Spend(usk: UnifiedSpendingKey)
    | View(ufvk: UnifiedFullViewingKey)
    | Empty

  // Spending-key projections: only a `Spend` store has them.

  function UnifiedSpendingKeyOf(ks: UnifiedKeyStore): (r: Result<UnifiedSpendingKey, KeyError>)
    ensures r.Success? <==> ks.Spend?
    ensures r.Success? ==> r.value == ks.usk
    ensures r.Failure? ==> r.error == NoSpendCapability
  {
    match ks
    case Spend(usk) => Success(usk)
    case _ => Failure(NoSpendCapability)
  }

  function OrchardSpendingKeyOf(ks: UnifiedKeyStore): (r: Result<OrchardSpendingKey, KeyError>)
    ensures r.Success? <==> ks.Spend?
    ensures r.Success? ==> r.value == ks.usk.orchard
    ensures r.Failure? ==> r.error == NoSpendCapability
  {
    var usk :- UnifiedSpendingKeyOf(ks);
    Success(usk.orchard)
  }

  function SaplingSpendingKeyOf(ks: UnifiedKeyStore): (r: Result<SaplingExtendedSpendingKey, KeyError>)
    ensures r.Success? <==> ks.Spend?
    ensures r.Success? ==> r.value == ks.usk.sapling
    ensures r.Failure? ==> r.error == NoSpendCapability
  {
    var usk :- UnifiedSpendingKeyOf(ks);
    Success(usk.sapling)
  }

  function TransparentPrivKeyOf(ks: UnifiedKeyStore): (r: Result<TransparentAccountPrivKey, KeyError>)
    ensures r.Success? <==> ks.Spend?
    ensures r.Success? ==> r.value == ks.usk.transparent
    ensures r.Failure? ==> r.error == NoSpendCapability
  {
    var usk :- UnifiedSpendingKeyOf(ks);
    Success(usk.transparent)
  }

  // Viewing-key projections: a `Spend` store views every pool, a `View` store the pools it
  // holds a key for, an `Empty` store none.

  function UnifiedFullViewingKeyOf(p: Primitives, ks: UnifiedKeyStore): (r: Result<UnifiedFullViewingKey, KeyError>)
    ensures r.Success? <==> !ks.Empty?
    ensures ks.Spend? ==> r == Success(ToUfvk(p, ks.usk))
    ensures ks.View? ==> r == Success(ks.ufvk)
    ensures r.Failure? ==> r.error == NoViewCapability
  {
    match ks
    case Spend(usk) => Success(ToUfvk(p, usk))
    case View(ufvk) => Success(ufvk)
    case Empty => Failure(NoViewCapability)
  }

  function OrchardFvkOf(p: Primitives, ks: UnifiedKeyStore): (r: Result<OrchardFvk, KeyError>)
    ensures r.Success? <==> ks.Spend? || (ks.View? && ks.ufvk.orchard.Some?)
    ensures ks.Spend? ==> r == Success(p.orchardFvkOf(ks.usk.orchard))
    ensures ks.View? && ks.ufvk.orchard.Some? ==> r == Success(ks.ufvk.orchard.value)
    ensures r.Failure? ==> r.error == NoViewCapability
  {
    var ufvk :- UnifiedFullViewingKeyOf(p, ks);
    if ufvk.orchard.Some? then Success(ufvk.orchard.value) else Failure(NoViewCapability)
  }

  function SaplingFvkOf(p: Primitives, ks: UnifiedKeyStore): (r: Result<SaplingFvk, KeyError>)
    ensures r.Success? <==> ks.Spend? || (ks.View? && ks.ufvk.sapling.Some?)
    ensures ks.Spend? ==> r == Success(p.saplingFvkOf(ks.usk.sapling))
    ensures ks.View? && ks.ufvk.sapling.Some? ==> r == Success(ks.ufvk.sapling.value)
    ensures r.Failure? ==> r.error == NoViewCapability
  {
    var ufvk :- UnifiedFullViewingKeyOf(p, ks);
    if ufvk.sapling.Some? then Success(ufvk.sapling.value) else Failure(NoViewCapability)
  }

  function TransparentPubKeyOf(p: Primitives, ks: UnifiedKeyStore): (r: Result<TransparentAccountPubKey, KeyError>)
    ensures r.Success? <==> ks.Spend? || (ks.View? && ks.ufvk.transparent.Some?)
    ensures ks.Spend? ==> r == Success(p.transparentPubKeyOf(ks.usk.transparent))
    ensures ks.View? && ks.ufvk.transparent.Some? ==> r == Success(ks.ufvk.transparent.value)
    ensures r.Failure? ==> r.error == NoViewCapability
  {
    var ufvk :- UnifiedFullViewingKeyOf(p, ks);
    if ufvk.transparent.Some? then Success(ufvk.transparent.value) else Failure(NoViewCapability)
  }

  /** `can_view`: the pools whose funds the wallet can see. */
  function CanView(ks: UnifiedKeyStore): Receivers.ReceiverSelection
  {
    match ks
    case Spend(_) => Receivers.ReceiverSelection(true, true, true)
    case View(ufvk) => Receivers.ReceiverSelection(ufvk.orchard.Some?, ufvk.sapling.Some?, ufvk.transparent.Some?)
    case Empty => Receivers.ReceiverSelection(false, false, false)
  }

  /** `can_view` reports exactly the pools whose viewing-key projection succeeds. */
  lemma CanViewAgreesWithProjections(p: Primitives, ks: UnifiedKeyStore)
    ensures CanView(ks).orchard <==> OrchardFvkOf(p, ks).Success?
    ensures CanView(ks).sapling <==> SaplingFvkOf(p, ks).Success?
    ensures CanView(ks).transparent <==> TransparentPubKeyOf(p, ks).Success?
    ensures ks.Spend? ==> CanView(ks) == Receivers.ReceiverSelection(true, true, true)
    ensures ks.Empty? ==> CanView(ks) == Receivers.ReceiverSelection(false, false, false)
  {
  }

  // The byte encoding: `[version = 0][tag]`, and for `Spend` and `View` a CompactSize
  // length followed by that many bytes of the encoded key.

  const KeyStoreVersion: byte := 0

  function Tag(ks: UnifiedKeyStore): byte
  {
    match ks
    case Spend(_) => 0
    case View(_) => 1
    case Empty => 2
  }

  /** The key bytes a `Spend` or `View` store writes after its tag. */
  function KeyBytes(p: Primitives, net: Network, ks: UnifiedKeyStore): seq<byte>
  {
    match ks
    case Spend(usk) => p.uskToBytes(usk)
    case View(ufvk) => p.ufvkEncode(net, ufvk)
    case Empty => []
  }

  /** A store whose key bytes fit a CompactSize length. */
  predicate Writable(p: Primitives, net: Network, ks: UnifiedKeyStore)
  {
    |KeyBytes(p, net, ks)| < U64Limit
  }

  function Write(p: Primitives, net: Network, ks: UnifiedKeyStore): (r: seq<byte>)
    requires Writable(p, net, ks)
    ensures |r| >= 2 && r[0] == KeyStoreVersion && r[1] == Tag(ks)
    ensures r == [0, 2] <==> ks.Empty?
  {
    match ks
    case Empty => [KeyStoreVersion, 2]
    case _ =>
      var bytes := KeyBytes(p, net, ks);
      [KeyStoreVersion, Tag(ks)] + WriteCompactSize(|bytes|) + bytes
  }

  /** A CompactSize length and that many bytes. */
  function ReadSizedBytes(s: seq<byte>): (r: Result<Parsed<seq<byte>>, IoError>)
    ensures r.Success? ==> |r.value.value| <= MaxCompactSize
  {
    var len :- ReadCompactSize(s);
    ReadExact(len.rest, len.value)
  }

  function Read(p: Primitives, net: Network, s: seq<byte>): (r: Result<Parsed<UnifiedKeyStore>, IoError>)
    ensures r.Success? ==> |s| >= 2 && s[0] == KeyStoreVersion && s[1] == Tag(r.value.value)
    ensures |s| >= 2 && s[0] == KeyStoreVersion && s[1] > 2 ==> r == Failure(InvalidData(UnknownKeyType(s[1])))
    ensures |s| >= 2 && s[0] == KeyStoreVersion && s[1] == 2 ==> r == Success(Parsed(Empty, s[2..]))
  {
    var version :- ReadVersion(s, KeyStoreVersion);
    var tag :- ReadU8(version.rest);
    match tag.value
    case 0 =>
      var bytes :- ReadSizedBytes(tag.rest);
      var usk := p.uskFromBytes(bytes.value);
      if usk.None? then Failure(InvalidData(InvalidSpendingKeyBytes))
      else Success(Parsed(Spend(usk.value), bytes.rest))
    case 1 =>
      var bytes :- ReadSizedBytes(tag.rest);
      var ufvk := p.ufvkDecode(net, bytes.value);
      if ufvk.None? then Failure(InvalidData(UfvkDecodingError))
      else Success(Parsed(View(ufvk.value), bytes.rest))
    case 2 => Success(Parsed(Empty, tag.rest))
    case x => Failure(InvalidData(UnknownKeyType(x)))
  }

  /**
   * A store the encoding gives back: its key bytes decode to the same key on the same
   * network and are no longer than a CompactSize length may announce.
   */
  predicate Recoverable(p: Primitives, net: Network, ks: UnifiedKeyStore)
  {
    && |KeyBytes(p, net, ks)| <= MaxCompactSize
    && (ks.Spend? ==> p.uskFromBytes(p.uskToBytes(ks.usk)) == Some(ks.usk))
    && (ks.View? ==> p.ufvkDecode(net, p.ufvkEncode(net, ks.ufvk)) == Some(ks.ufvk))
  }

  lemma RoundTrip(p: Primitives, net: Network, ks: UnifiedKeyStore, rest: seq<byte>)
    requires Recoverable(p, net, ks)
    ensures Writable(p, net, ks)
    ensures Read(p, net, Write(p, net, ks) + rest) == Success(Parsed(ks, rest))
  {
    var s := Write(p, net, ks) + rest;
    if !ks.Empty? {
      var bytes := KeyBytes(p, net, ks);
      var size := WriteCompactSize(|bytes|);
      assert s[2..] == size + (bytes + rest);
      CompactSizeRoundTrip(|bytes|, bytes + rest);
      assert (bytes + rest)[..|bytes|] == bytes;
      assert (bytes + rest)[|bytes|..] == rest;
    } else {
      assert s[2..] == rest;
    }
  }
}
