/** Octets and the big-endian integers TLS writes with them. */
module Bytes {
  type byte = x: int | 0 <= x < 0x100
  type u16 = x: int | 0 <= x < 0x1_0000

  function U16Bytes(n: u16): seq<byte> {
    [n / 0x100, n % 0x100]
  }

  function U16From(high: byte, low: byte): u16 {
    high * 0x100 + low
  }

  /** The low 24 bits of `n`: each octet is a truncating cast, so larger values wrap. */
  function U24Bytes(n: nat): seq<byte> {
    [n / 0x1_0000 % 0x100, n / 0x100 % 0x100, n % 0x100]
  }

  function U24From(high: byte, mid: byte, low: byte): nat {
    high * 0x1_0000 + mid * 0x100 + low
  }

  lemma U16RoundTrip(high: byte, low: byte)
    ensures U16Bytes(U16From(high, low)) == [high, low]
  {
  }

  lemma DivideTwice(n: nat)
    ensures n / 0x100 / 0x100 == n / 0x1_0000
  {
    var high, mid, low := n / 0x100 / 0x100, n / 0x100 % 0x100, n % 0x100;
    assert n == high * 0x1_0000 + (mid * 0x100 + low);
  }

  lemma U24RoundTrip(n: nat)
    requires n < 0x100_0000
    ensures U24From(U24Bytes(n)[0], U24Bytes(n)[1], U24Bytes(n)[2]) == n
  {
    var upper := n / 0x100;
    DivideTwice(n);
    assert upper == upper / 0x100 * 0x100 + upper % 0x100;
    assert n == upper * 0x100 + n % 0x100;
    assert upper / 0x100 < 0x100 && upper / 0x100 % 0x100 == upper / 0x100;
  }
}
