/** Machine numbers, and bytes. */
module Numbers {

  const U64_LIMIT: nat := 0x1_0000_0000_0000_0000

  const U64_MAX: nat := U64_LIMIT - 1

  const NANOS_PER_MILLI: nat := 1_000_000

  newtype byte = b: int | 0 <= b < 256

  type Bytes = seq<byte>

  function Min(a: nat, b: nat): nat {
    if a <= b then a else b
  }

  function Max(a: nat, b: nat): nat {
    if a <= b then b else a
  }
}
