/**
 * `ReceiverSelection`: which of the three receivers an address holds, or should hold,
 * and its two-byte encoding `[version = 1][flags]` with bit 0 for orchard, bit 1 for
 * sapling and bit 2 for transparent.
 */
module Receivers {
  import opened Wrappers
  import opened Errors
  import opened Encoding

  datatype ReceiverSelection = ReceiverSelection(orchard: bool, sapling: bool, transparent: bool)

  const SelectionVersion: byte := 1

  const OrchardBit: nat := 1
  const SaplingBit: nat := 2
  const TransparentBit: nat := 4

  /** `flags & mask != 0` for a single-bit `mask`. */
  predicate HasFlag(flags: nat, mask: nat)
    requires mask > 0
  {
    (flags / mask) % 2 == 1
  }

  /** The flags byte: the sum of the bits of the selected receivers. */
  function Flags(sel: ReceiverSelection): (f: byte)
    ensures f < 8
    ensures HasFlag(f, OrchardBit) <==> sel.orchard
    ensures HasFlag(f, SaplingBit) <==> sel.sapling
    ensures HasFlag(f, TransparentBit) <==> sel.transparent
  {
    (if sel.orchard then OrchardBit else 0)
    + (if sel.sapling then SaplingBit else 0)
    + (if sel.transparent then TransparentBit else 0)
  }

  function Write(sel: ReceiverSelection): (r: seq<byte>)
    ensures |r| == 2 && r[0] == SelectionVersion
    ensures HasFlag(r[1], OrchardBit) <==> sel.orchard
    ensures HasFlag(r[1], SaplingBit) <==> sel.sapling
    ensures HasFlag(r[1], TransparentBit) <==> sel.transparent
    ensures r[1] < 8
  {
    [SelectionVersion, Flags(sel)]
  }

  function Read(s: seq<byte>): (r: Result<Parsed<ReceiverSelection>, IoError>)
    ensures r.Success? <==> |s| >= 2 && s[0] <= SelectionVersion
    ensures r.Success? ==> r.value.rest == s[2..]
    ensures r.Success? ==> r.value.value.orchard == HasFlag(s[1], OrchardBit)
    ensures r.Success? ==> r.value.value.sapling == HasFlag(s[1], SaplingBit)
    ensures r.Success? ==> r.value.value.transparent == HasFlag(s[1], TransparentBit)
  {
    var version :- ReadVersion(s, SelectionVersion);
    var flags :- ReadU8(version.rest);
    Success(Parsed(
      ReceiverSelection(
        HasFlag(flags.value, OrchardBit),
        HasFlag(flags.value, SaplingBit),
        HasFlag(flags.value, TransparentBit)),
      flags.rest))
  }

  lemma RoundTrip(sel: ReceiverSelection, rest: seq<byte>)
    ensures Read(Write(sel) + rest) == Success(Parsed(sel, rest))
  {
    assert (Write(sel) + rest)[2..] == rest;
  }

  /** A flags byte below 8 is fixed by its three low bits. */
  lemma {:induction false} FlagsDetermined(n: nat)
    requires n < 8
    ensures Flags(ReceiverSelection(HasFlag(n, OrchardBit), HasFlag(n, SaplingBit), HasFlag(n, TransparentBit))) == n
  {
    assert n == 0 || n == 1 || n == 2 || n == 3 || n == 4 || n == 5 || n == 6 || n == 7;
  }

  /** Reading `[1, n]` for `n` in `0..8` and writing the selection back gives `[1, n]`. */
  lemma ReadThenWrite(n: byte)
    requires n < 8
    ensures Read([1, n]).Success?
    ensures Write(Read([1, n]).value.value) == [1, n]
  {
    FlagsDetermined(n);
  }

  /** Bits above bit 2 of the flags byte are ignored when reading. */
  lemma {:induction false} ReadIgnoresHighBits(n: byte, rest: seq<byte>)
    ensures Read([1, n] + rest) == Read([1, n % 8] + rest)
  {
    var q, low := n / 8, n % 8;
    assert n == 8 * q + low;
    assert n / 1 == 8 * q + low / 1;
    assert n / 2 == 4 * q + low / 2;
    assert n / 4 == 2 * q + low / 4;
    assert ([1, n] + rest)[2..] == rest;
    assert ([1, low] + rest)[2..] == rest;
  }
}
