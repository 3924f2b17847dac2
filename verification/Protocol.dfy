/** Constants, limits and results of ClientHello parsing (crates/sni_router/src/protocol/mod.rs). */
module Protocol {
  import opened Wrappers
  import opened Names

  /** RFC 8446, section 5.1: a record carries at most 2^14 octets of plaintext. */
  const MAX_RECORD_PAYLOAD := 16_384
  const RECORD_HEADER_LEN := 5
  const HANDSHAKE_HEADER_LEN := 4

  datatype HelloLimits = HelloLimits(maxHandshakeBytes: nat, maxRecords: nat) {
    function MaxWireBytes(): nat {
      HANDSHAKE_HEADER_LEN + maxHandshakeBytes + maxRecords * RECORD_HEADER_LEN
    }
  }

  datatype ClientHelloInfo = ClientHelloInfo(sni: Option<Hostname>, consumed: nat)

  /** `Malformed` carries no message here. */
  datatype ParseError =
    | Incomplete
    | NotHandshake
    | InvalidRecord
    | NotClientHello
    | TooLarge
    | Malformed
    | InvalidServerName(error: NameError)
}
