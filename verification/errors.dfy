/** The error values of the key-capability core, in the shapes the Rust code produces them. */
module Errors {

  /** The `KeyError` variants this core returns. */
  datatype KeyError =
    | NoSpendCapability
    | NoViewCapability
    | InvalidAccountId
    | KeyDerivationError
    | KeyDecodingError
    | NetworkMismatch
    | InvalidFormat

  /** Why an address request failed; the Rust code reports each of these as a string. */
  datatype AddressError =
    | NotCapable              // a View key lacks a key for a requested receiver
    | WriteLockCollision      // another append holds the write flag
    | OrchardKey(key: KeyError)   // no orchard viewing key could be projected
    | NoShieldedReceiver      // neither an orchard nor a sapling receiver was produced
    | TransparentDerivation   // legacy path only: the child public key could not be derived

  /** What exactly was wrong with bytes that were read. */
  datatype Fault =
    | NonCanonicalSize
    | SizeTooLarge
    | FutureVersion(version: nat)
    | UnsupportedVersion(version: nat)
    | UnknownKeyType(tag: nat)
    | InvalidSpendingKeyBytes
    | UfvkDecodingError
    | Replay(cause: AddressError)

  /** The `io::Error` kinds a read can end with. */
  datatype IoError =
    | UnexpectedEof
    | InvalidInput(fault: Fault)
    | InvalidData(fault: Fault)
}
