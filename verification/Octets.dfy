/** Bytes and the fixed-width little-endian numbers in them. */
module Octets {
  newtype byte = x: int | 0 <= x < 256

  type Bytes = seq<byte>

  function Low(n: nat): byte {
    (n % 256) as byte
  }

  function EncodeU16(n: nat): (bytes: Bytes)
    ensures |bytes| == 2
  {
    [Low(n), Low(n / 256)]
  }

  function EncodeU32(n: nat): (bytes: Bytes)
    ensures |bytes| == 4
  {
    [Low(n), Low(n / 256), Low(n / 65536), Low(n / 16777216)]
  }

  function ReadU16(bytes: Bytes, offset: nat): nat
    requires offset + 2 <= |bytes|
  {
    bytes[offset] as nat + 256 * bytes[offset + 1] as nat
  }

  function ReadU32(bytes: Bytes, offset: nat): nat
    requires offset + 4 <= |bytes|
  {
    bytes[offset] as nat + 256 * bytes[offset + 1] as nat + 65536 * bytes[offset + 2] as nat
    + 16777216 * bytes[offset + 3] as nat
  }

  function ReadBigU16(bytes: Bytes, offset: nat): nat
    requires offset + 2 <= |bytes|
  {
    256 * bytes[offset] as nat + bytes[offset + 1] as nat
  }

  lemma ReadEncodedU16(n: nat)
    requires n < 65536
    ensures ReadU16(EncodeU16(n), 0) == n
  {
  }

  lemma ReadEncodedU32(n: nat)
    requires n < 4294967296
    ensures ReadU32(EncodeU32(n), 0) == n
  {
    assert n % 256 + 256 * (n / 256 % 256) == n % 65536;
    assert n / 65536 % 256 + 256 * (n / 16777216 % 256) == n / 65536;
  }
}
