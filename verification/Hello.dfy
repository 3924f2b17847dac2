/**
 The ClientHello body: what the parser answers on every byte string
 (crates/sni_router/src/protocol/hello.rs).
 */
module Hello {
  import opened Wrappers
  import opened Bytes
  import opened Names
  import opened Protocol
  import opened Cursor

  const EXTENSION_SERVER_NAME: u16 := 0
  const NAME_TYPE_HOST_NAME: byte := 0
  const RANDOM_LEN := 32
  const MAX_SESSION_ID_LEN := 32

  type Sni = Option<Hostname>

  predicate IsContinuation(b: byte) {
    0x80 <= b <= 0xbf
  }

  /** Well-formed UTF-8 octet sequences (RFC 3629, section 4). */
  predicate ValidUtf8(s: seq<byte>) {
    || s == []
    || (s[0] < 0x80 && ValidUtf8(s[1..]))
    || (|s| >= 2 && 0xc2 <= s[0] <= 0xdf && IsContinuation(s[1]) && ValidUtf8(s[2..]))
    || (|s| >= 3 && 0xe0 <= s[0] <= 0xef && IsContinuation(s[1]) && IsContinuation(s[2])
        && (s[0] == 0xe0 ==> s[1] >= 0xa0) && (s[0] == 0xed ==> s[1] <= 0x9f)
        && ValidUtf8(s[3..]))
    || (|s| >= 4 && 0xf0 <= s[0] <= 0xf4 && IsContinuation(s[1]) && IsContinuation(s[2]) && IsContinuation(s[3])
        && (s[0] == 0xf0 ==> s[1] >= 0x90) && (s[0] == 0xf4 ==> s[1] <= 0x8f)
        && ValidUtf8(s[4..]))
  }

  function ParseHostName(name: seq<byte>): Result<Hostname, ParseError> {
    if !ValidUtf8(name) then Failure(InvalidServerName(InvalidCharacter))
    else
      match ParseHostname(name)
      case Failure(error) => Failure(InvalidServerName(error))
      case Success(host) => Success(host)
  }

  function WalkNames(s: seq<byte>, host: Sni): Result<Sni, ParseError>
    decreases |s|
  {
    if s == [] then Success(host)
    else
      var kind := ReadU8(s);
      var name := ReadVec16(kind.rest);
      if name.value.None? || name.value.value == [] then Failure(Malformed)
      else if kind.value.value != NAME_TYPE_HOST_NAME then WalkNames(name.rest, host)
      else if host.Some? then Failure(Malformed)
      else
        match ParseHostName(name.value.value)
        case Failure(error) => Failure(error)
        case Success(found) => WalkNames(name.rest, Some(found))
  }

  function ParseServerName(data: seq<byte>): Result<Sni, ParseError> {
    var list := ReadVec16(data);
    if list.value.None? || list.rest != [] || list.value.value == [] then Failure(Malformed)
    else WalkNames(list.value.value, None)
  }

  /** All extension types in order, and the answer of the last `server_name`. */
  function WalkExtensions(s: seq<byte>, seen: seq<u16>, sni: Sni): Result<(seq<u16>, Sni), ParseError>
    decreases |s|
  {
    if s == [] then Success((seen, sni))
    else
      var kind := ReadU16(s);
      if kind.value.None? then Failure(Malformed)
      else
        var data := ReadVec16(kind.rest);
        if data.value.None? then Failure(Malformed)
        else
          var types := seen + [kind.value.value];
          if kind.value.value != EXTENSION_SERVER_NAME then WalkExtensions(data.rest, types, sni)
          else
            match ParseServerName(data.value.value)
            case Failure(error) => Failure(error)
            case Success(found) => WalkExtensions(data.rest, types, found)
  }

  predicate Distinct(types: seq<u16>) {
    forall i, j :: 0 <= i < j < |types| ==> types[i] != types[j]
  }

  function ParseExtensions(s: seq<byte>): Result<Sni, ParseError> {
    match WalkExtensions(s, [], None)
    case Failure(error) => Failure(error)
    case Success((types, sni)) => if Distinct(types) then Success(sni) else Failure(Malformed)
  }

  function ParseBody(body: seq<byte>): Result<Sni, ParseError> {
    var version := ReadU16(body);
    if version.value.None? || version.value.value / 0x100 != 3 then Failure(Malformed) else
    var random := ReadBytes(version.rest, RANDOM_LEN);
    if random.value.None? then Failure(Malformed) else
    var session := ReadVec8(random.rest);
    if session.value.None? || |session.value.value| > MAX_SESSION_ID_LEN then Failure(Malformed) else
    var suites := ReadVec16(session.rest);
    if suites.value.None? || suites.value.value == [] || |suites.value.value| % 2 != 0 then Failure(Malformed) else
    var compression := ReadVec8(suites.rest);
    if compression.value.None? || compression.value.value == [] then Failure(Malformed) else
    if compression.rest == [] then Success(None) else
    var extensions := ReadVec16(compression.rest);
    if extensions.value.None? || extensions.rest != [] then Failure(Malformed)
    else ParseExtensions(extensions.value.value)
  }
}
