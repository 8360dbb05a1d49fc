/**
 * Reading and writing bytes the way the Rust readers and writers of this core do:
 * single bytes, the version byte of `ReadableWriteable::get_version`, exact-length reads,
 * and the CompactSize length prefix of the `zcash_encoding` crate.
 *
 * A reader takes the remaining input and either fails or returns the value it read
 * together with the input that follows it.
 */
module Encoding {
  import opened Wrappers
  import opened Errors

  type byte = x: int | 0 <= x < 256

  /** A value read from the front of the input, and the input that is left. */
  datatype Parsed<+T> = Parsed(value: T, rest: seq<byte>)

  type Reader<!T> = seq<byte> -> Result<Parsed<T>, IoError>

  /** The largest length a CompactSize prefix may announce (`MAX_COMPACT_SIZE`). */
  const MaxCompactSize: nat := 0x0200_0000

  /** Exclusive upper bound of a `u64`. */
  const U64Limit: nat := 0x1_0000_0000_0000_0000

  function ReadU8(s: seq<byte>): (r: Result<Parsed<byte>, IoError>)
    ensures r.Success? <==> |s| > 0
    ensures r.Success? ==> [r.value.value] + r.value.rest == s
    ensures r.Failure? ==> r.error == UnexpectedEof
  {
    if |s| == 0 then Failure(UnexpectedEof) else Success(Parsed(s[0], s[1..]))
  }

  /**
   * `get_version`: reads the version byte and refuses one newer than `current`,
   * the version the reading code was written for.
   */
  function ReadVersion(s: seq<byte>, current: byte): (r: Result<Parsed<byte>, IoError>)
    ensures r.Success? <==> |s| > 0 && s[0] <= current
    ensures r.Success? ==> r.value == Parsed(s[0], s[1..])
    ensures |s| > 0 && s[0] > current ==> r == Failure(InvalidData(FutureVersion(s[0])))
  {
    var v :- ReadU8(s);
    if v.value > current then Failure(InvalidData(FutureVersion(v.value))) else Success(v)
  }

  /** `read_exact` into a buffer of `len` bytes. */
  function ReadExact(s: seq<byte>, len: nat): (r: Result<Parsed<seq<byte>>, IoError>)
    ensures r.Success? <==> len <= |s|
    ensures r.Success? ==> |r.value.value| == len && r.value.value + r.value.rest == s
    ensures r.Failure? ==> r.error == UnexpectedEof
  {
    if |s| < len then Failure(UnexpectedEof) else Success(Parsed(s[..len], s[len..]))
  }

  function Pow256(width: nat): (r: nat)
    ensures r > 0
  {
    if width == 0 then 1 else 256 * Pow256(width - 1)
  }

  /** The `width` low bytes of `n`, least significant first. */
  function LittleEndian(n: nat, width: nat): (r: seq<byte>)
    ensures |r| == width
  {
    if width == 0 then [] else [n % 256] + LittleEndian(n / 256, width - 1)
  }

  /** The number whose little-endian bytes are `s`. */
  function FromLittleEndian(s: seq<byte>): nat
  {
    if |s| == 0 then 0 else s[0] + 256 * FromLittleEndian(s[1..])
  }

  lemma {:induction false} LittleEndianRoundTrip(n: nat, width: nat)
    requires n < Pow256(width)
    ensures FromLittleEndian(LittleEndian(n, width)) == n
  {
    if width > 0 {
      var tail := LittleEndian(n / 256, width - 1);
      assert LittleEndian(n, width)[1..] == tail;
      LittleEndianRoundTrip(n / 256, width - 1);
    }
  }

  /** `read_u16`/`read_u32`/`read_u64` in little-endian order. */
  function ReadLittleEndian(s: seq<byte>, width: nat): (r: Result<Parsed<nat>, IoError>)
    ensures r.Success? <==> width <= |s|
    ensures r.Success? ==> r.value == Parsed(FromLittleEndian(s[..width]), s[width..])
  {
    if |s| < width then Failure(UnexpectedEof)
    else Success(Parsed(FromLittleEndian(s[..width]), s[width..]))
  }

  /** `CompactSize::write`: one byte below 253, otherwise a marker byte and 2, 4 or 8 bytes. */
  function WriteCompactSize(n: nat): (r: seq<byte>)
    requires n < U64Limit
    ensures 1 <= |r| <= 9
    ensures n < 253 <==> r == [n]
  {
    if n < 253 then [n]
    else if n <= 0xFFFF then [253] + LittleEndian(n, 2)
    else if n <= 0xFFFF_FFFF then [254] + LittleEndian(n, 4)
    else [255] + LittleEndian(n, 8)
  }

  /** A wide CompactSize value, refused when a shorter form could have held it. */
  function ReadCanonical(s: seq<byte>, width: nat, least: nat): (r: Result<Parsed<nat>, IoError>)
    ensures r.Success? ==> r.value.value >= least
  {
    var v :- ReadLittleEndian(s, width);
    if v.value < least then Failure(InvalidInput(NonCanonicalSize)) else Success(v)
  }

  /** `CompactSize::read`: canonical encodings of values up to `MaxCompactSize` only. */
  function ReadCompactSize(s: seq<byte>): (r: Result<Parsed<nat>, IoError>)
    ensures r.Success? ==> r.value.value <= MaxCompactSize
    ensures r.Success? ==> |r.value.rest| < |s|
  {
    var flag :- ReadU8(s);
    var n :-
      if flag.value < 253 then Success(Parsed(flag.value as nat, flag.rest))
      else if flag.value == 253 then ReadCanonical(flag.rest, 2, 253)
      else if flag.value == 254 then ReadCanonical(flag.rest, 4, 0x1_0000)
      else ReadCanonical(flag.rest, 8, 0x1_0000_0000);
    if n.value > MaxCompactSize then Failure(InvalidInput(SizeTooLarge)) else Success(n)
  }

  lemma CompactSizeRoundTrip(n: nat, rest: seq<byte>)
    requires n <= MaxCompactSize
    ensures ReadCompactSize(WriteCompactSize(n) + rest) == Success(Parsed(n, rest))
  {
    var s := WriteCompactSize(n) + rest;
    if n >= 253 && n <= 0xFFFF {
      var le := LittleEndian(n, 2);
      assert s[1..] == le + rest;
      assert (le + rest)[..2] == le;
      assert (le + rest)[2..] == rest;
      LittleEndianRoundTrip(n, 2);
    } else if n > 0xFFFF {
      var le := LittleEndian(n, 4);
      assert s[1..] == le + rest;
      assert (le + rest)[..4] == le;
      assert (le + rest)[4..] == rest;
      LittleEndianRoundTrip(n, 4);
    } else {
      assert s[1..] == rest;
    }
  }
}
