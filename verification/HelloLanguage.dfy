/**
 The language of the body parser: structured hellos, their wire encoding
 (RFC 8446, section 4.1.2; RFC 6066, section 3), and the proof that the parser
 accepts exactly the encodings of well-formed ones.
 */
module HelloLanguage {
  import opened Wrappers
  import opened Bytes
  import opened Names
  import opened Protocol
  import opened Cursor
  import opened Hello

  datatype ServerName = ServerName(kind: byte, name: Vector16)

  datatype Extension =
    | ServerNames(names: seq<ServerName>)
    | Other(kind: u16, data: Vector16)

  datatype ClientHello = ClientHello(
    minor: byte,
    random: seq<byte>,
    sessionId: Vector8,
    cipherSuites: Vector16,
    compression: Vector8,
    extensions: Option<seq<Extension>>)

  // ----- Encoding -------------------------------------------------------------

  function EncodeNames(names: seq<ServerName>): seq<byte> {
    if names == [] then []
    else [names[0].kind] + Vec16(names[0].name) + EncodeNames(names[1..])
  }

  function ExtensionType(extension: Extension): u16 {
    if extension.ServerNames? then EXTENSION_SERVER_NAME else extension.kind
  }

  /** The extension's data and the list inside it fit their two-byte lengths. */
  predicate Fits(extension: Extension) {
    extension.ServerNames? ==> |EncodeNames(extension.names)| + 2 < 0x1_0000
  }

  function ExtensionData(extension: Extension): Vector16
    requires Fits(extension)
  {
    if extension.ServerNames? then Vec16(EncodeNames(extension.names)) else extension.data
  }

  function EncodeExtensions(extensions: seq<Extension>): seq<byte>
    requires forall e :: e in extensions ==> Fits(e)
  {
    if extensions == [] then []
    else
      U16Bytes(ExtensionType(extensions[0])) + Vec16(ExtensionData(extensions[0]))
      + EncodeExtensions(extensions[1..])
  }

  predicate BlockFits(extensions: seq<Extension>) {
    (forall e :: e in extensions ==> Fits(e)) && |EncodeExtensions(extensions)| < 0x1_0000
  }

  function EncodeHello(hello: ClientHello): seq<byte>
    requires hello.extensions.Some? ==> BlockFits(hello.extensions.value)
  {
    [3, hello.minor] + hello.random + Vec8(hello.sessionId) + Vec16(hello.cipherSuites) + Vec8(hello.compression)
    + if hello.extensions.None? then [] else Vec16(EncodeExtensions(hello.extensions.value))
  }

  // ----- Side conditions ------------------------------------------------------

  predicate IsHostName(name: ServerName) {
    name.kind == NAME_TYPE_HOST_NAME
  }

  ghost predicate GoodNames(names: seq<ServerName>) {
    && (forall i :: 0 <= i < |names| ==> names[i].name != [])
    && (forall i :: 0 <= i < |names| && IsHostName(names[i]) ==> ParseHostname(names[i].name).Success?)
    && (forall i, j :: 0 <= i < j < |names| && IsHostName(names[i]) ==> !IsHostName(names[j]))
  }

  ghost predicate GoodExtension(extension: Extension) {
    match extension
    case ServerNames(names) => names != [] && GoodNames(names)
    case Other(kind, _) => kind != EXTENSION_SERVER_NAME
  }

  ghost predicate GoodExtensions(extensions: seq<Extension>) {
    && (forall e :: e in extensions ==> Fits(e))
    && (forall e :: e in extensions ==> GoodExtension(e))
  }

  function Types(extensions: seq<Extension>): (types: seq<u16>)
    ensures |types| == |extensions|
    ensures forall i :: 0 <= i < |types| ==> types[i] == ExtensionType(extensions[i])
  {
    seq(|extensions|, i requires 0 <= i < |extensions| => ExtensionType(extensions[i]))
  }

  ghost predicate WellFormed(hello: ClientHello) {
    && |hello.random| == RANDOM_LEN
    && |hello.sessionId| <= MAX_SESSION_ID_LEN
    && hello.cipherSuites != [] && |hello.cipherSuites| % 2 == 0
    && hello.compression != []
    && (hello.extensions.Some? ==>
          && GoodExtensions(hello.extensions.value)
          && BlockFits(hello.extensions.value)
          && Distinct(Types(hello.extensions.value)))
  }

  /** The host named by the first host_name entry, lowercased. */
  function HostOf(names: seq<ServerName>): Sni {
    if names == [] then None
    else if IsHostName(names[0]) then Some(Hostname(Lower(names[0].name)))
    else HostOf(names[1..])
  }

  /** What the last `server_name` extension says, or `sni` when there is none. */
  function LastHost(extensions: seq<Extension>, sni: Sni): Sni {
    if extensions == [] then sni
    else LastHost(extensions[1..], if extensions[0].ServerNames? then HostOf(extensions[0].names) else sni)
  }

  function SniOf(hello: ClientHello): Sni {
    if hello.extensions.None? then None else LastHost(hello.extensions.value, None)
  }

  // ----- Names ------------------------------------------------------------------

  lemma {:induction false} AsciiIsUtf8(s: seq<byte>)
    requires forall i :: 0 <= i < |s| ==> s[i] < 0x80
    ensures ValidUtf8(s)
  {
    if s != [] {
      AsciiIsUtf8(s[1..]);
    }
  }

  lemma HostNameParses(name: seq<byte>)
    ensures ParseHostName(name).Success? <==> ParseHostname(name).Success?
    ensures ParseHostName(name).Success? ==> ParseHostName(name).value == Hostname(Lower(name))
  {
    if ParseHostname(name).Success? {
      ValidNamesExactly(Lower(name));
      forall i | 0 <= i < |name| ensures name[i] < 0x80 {
        assert Lower(name)[i] == LowerByte(name[i]);
      }
      AsciiIsUtf8(name);
    }
  }

  /** One step of the name walk on an encoded entry. */
  lemma WalkOneName(kind: byte, name: Vector16, rest: seq<byte>, host: Sni)
    ensures WalkNames([kind] + Vec16(name) + rest, host) ==
            if name == [] then Failure(Malformed)
            else if kind != NAME_TYPE_HOST_NAME then WalkNames(rest, host)
            else if host.Some? then Failure(Malformed)
            else if ParseHostName(name).Failure? then Failure(ParseHostName(name).error)
            else WalkNames(rest, Some(Hostname(Lower(name))))
  {
    var s := [kind] + Vec16(name) + rest;
    assert s[1..] == Vec16(name) + rest;
    Vec16Exactly(s[1..], name, rest);
    HostNameParses(name);
  }

  lemma NextName(s: seq<byte>, host: Sni) returns (kind: byte, name: Vector16, rest: seq<byte>)
    requires s != [] && WalkNames(s, host) != Failure(Malformed)
    ensures s == [kind] + Vec16(name) + rest && |rest| < |s|
  {
    var read := ReadVec16(s[1..]);
    assert read.value.Some?;
    hide WalkNames, ReadVec16, Vec16;
    Vec16Exactly(s[1..], read.value.value, read.rest);
    kind, name, rest := s[0], read.value.value, read.rest;
    assert s == [s[0]] + s[1..];
  }

  lemma GoodNamesCons(first: ServerName, others: seq<ServerName>)
    ensures GoodNames([first] + others) <==>
            && first.name != []
            && (IsHostName(first) ==>
                  ParseHostname(first.name).Success? && forall i :: 0 <= i < |others| ==> !IsHostName(others[i]))
            && GoodNames(others)
  {
    hide IsHostName, ParseHostname;
    var names := [first] + others;
    assert forall i :: 0 <= i < |others| ==> others[i] == names[i + 1];
    assert forall i :: 0 < i < |names| ==> names[i] == others[i - 1];
    assert names[0] == first;
    if GoodNames(names) {
      forall i | 0 <= i < |others| && IsHostName(first) ensures !IsHostName(others[i]) {
        assert !IsHostName(names[i + 1]);
      }
      forall i, j | 0 <= i < j < |others| && IsHostName(others[i]) ensures !IsHostName(others[j]) {
        assert IsHostName(names[i + 1]);
        assert !IsHostName(names[j + 1]);
      }
    }
  }

  lemma {:induction false} NamesAccepted(names: seq<ServerName>, host: Sni)
    requires GoodNames(names)
    requires host.Some? ==> forall i :: 0 <= i < |names| ==> !IsHostName(names[i])
    ensures WalkNames(EncodeNames(names), host) == Success(if host.Some? then host else HostOf(names))
  {
    if names != [] {
      assert names == [names[0]] + names[1..];
      GoodNamesCons(names[0], names[1..]);
      WalkOneName(names[0].kind, names[0].name, EncodeNames(names[1..]), host);
      HostNameParses(names[0].name);
      NamesAccepted(names[1..], if IsHostName(names[0]) then Some(Hostname(Lower(names[0].name))) else host);
    }
  }

  lemma {:induction false} NamesDecoded(s: seq<byte>, host: Sni) returns (names: seq<ServerName>)
    requires WalkNames(s, host).Success?
    ensures GoodNames(names) && EncodeNames(names) == s
    ensures host.Some? ==> forall i :: 0 <= i < |names| ==> !IsHostName(names[i])
    decreases |s|
  {
    hide Vec16, ReadVec16;
    if s == [] {
      names := [];
    } else {
      var kind, name, rest := NextName(s, host);
      WalkOneName(kind, name, rest, host);
      HostNameParses(name);
      var first := ServerName(kind, name);
      var others := NamesDecoded(rest, if IsHostName(first) then Some(Hostname(Lower(name))) else host);
      GoodNamesCons(first, others);
      names := [first] + others;
      assert names[1..] == others;
    }
  }

  // ----- Extensions ---------------------------------------------------------------

  lemma ServerNameAccepted(names: seq<ServerName>)
    requires Fits(ServerNames(names)) && GoodExtension(ServerNames(names))
    ensures ParseServerName(ExtensionData(ServerNames(names))) == Success(HostOf(names))
  {
    var list := EncodeNames(names);
    Vec16Exactly(Vec16(list), list, []);
    assert Vec16(list) + [] == Vec16(list);
    NamesAccepted(names, None);
  }

  lemma ServerNameDecoded(data: Vector16) returns (names: seq<ServerName>)
    requires ParseServerName(data).Success?
    ensures Fits(ServerNames(names)) && GoodExtension(ServerNames(names))
    ensures ExtensionData(ServerNames(names)) == data
  {
    var list := ReadVec16(data);
    Vec16Exactly(data, list.value.value, list.rest);
    assert Vec16(list.value.value) + [] == Vec16(list.value.value);
    names := NamesDecoded(list.value.value, None);
  }

  /** One step of the extension walk on an encoded extension. */
  lemma WalkOneExtension(kind: u16, data: Vector16, rest: seq<byte>, seen: seq<u16>, sni: Sni)
    ensures WalkExtensions(U16Bytes(kind) + Vec16(data) + rest, seen, sni) ==
            if kind != EXTENSION_SERVER_NAME then WalkExtensions(rest, seen + [kind], sni)
            else if ParseServerName(data).Failure? then Failure(ParseServerName(data).error)
            else WalkExtensions(rest, seen + [kind], ParseServerName(data).value)
  {
    var s := U16Bytes(kind) + Vec16(data) + rest;
    assert s[2..] == Vec16(data) + rest;
    assert U16From(s[0], s[1]) == kind;
    Vec16Exactly(s[2..], data, rest);
  }

  lemma FieldsArePresent(s: seq<byte>, seen: seq<u16>, sni: Sni)
    requires s != [] && WalkExtensions(s, seen, sni) != Failure(Malformed)
    ensures |s| >= 2 && ReadVec16(s[2..]).value.Some?
  {
    hide ReadVec16, ParseServerName;
  }

  lemma NextExtension(s: seq<byte>, seen: seq<u16>, sni: Sni) returns (kind: u16, data: Vector16, rest: seq<byte>)
    requires s != [] && WalkExtensions(s, seen, sni) != Failure(Malformed)
    ensures s == U16Bytes(kind) + Vec16(data) + rest && |rest| < |s|
  {
    FieldsArePresent(s, seen, sni);
    U16RoundTrip(s[0], s[1]);
    hide WalkExtensions, U16From, U16Bytes, ReadVec16, Vec16;
    kind := U16From(s[0], s[1]);
    var read := ReadVec16(s[2..]);
    Vec16Exactly(s[2..], read.value.value, read.rest);
    data, rest := read.value.value, read.rest;
    SameSplit(U16Bytes(kind), Vec16(data), rest, s);
  }

  lemma SameSplit(a: seq<byte>, b: seq<byte>, c: seq<byte>, s: seq<byte>)
    requires |s| >= 2 && a == [s[0], s[1]] && s[2..] == b + c
    ensures s == a + b + c
  {
    assert s == [s[0], s[1]] + s[2..];
  }

  lemma NoExtensionsWalked(seen: seq<u16>, sni: Sni)
    ensures EncodeExtensions([]) == [] && WalkExtensions([], seen, sni) == Success((seen, sni))
  {
  }

  lemma FirstExtensionAccepted(extensions: seq<Extension>, seen: seq<u16>, sni: Sni)
    requires GoodExtensions(extensions) && extensions != []
    ensures var e := extensions[0];
            WalkExtensions(EncodeExtensions(extensions), seen, sni)
            == WalkExtensions(EncodeExtensions(extensions[1..]), seen + [ExtensionType(e)],
                              if e.ServerNames? then HostOf(e.names) else sni)
  {
    hide WalkExtensions, HostOf, ParseServerName;
    var e := extensions[0];
    assert e in extensions;
    WalkOneExtension(ExtensionType(e), ExtensionData(e), EncodeExtensions(extensions[1..]), seen, sni);
    if e.ServerNames? {
      ServerNameAccepted(e.names);
    }
  }

  lemma {:induction false} ExtensionsAccepted(extensions: seq<Extension>, seen: seq<u16>, sni: Sni)
    requires GoodExtensions(extensions)
    ensures WalkExtensions(EncodeExtensions(extensions), seen, sni)
            == Success((seen + Types(extensions), LastHost(extensions, sni)))
  {
    hide WalkExtensions, EncodeExtensions, HostOf, GoodExtension, ExtensionType;
    if extensions == [] {
      NoExtensionsWalked(seen, sni);
      assert seen + Types(extensions) == seen;
    } else {
      var e := extensions[0];
      FirstExtensionAccepted(extensions, seen, sni);
      ExtensionsAccepted(extensions[1..], seen + [ExtensionType(e)], if e.ServerNames? then HostOf(e.names) else sni);
      assert seen + Types(extensions) == seen + [ExtensionType(e)] + Types(extensions[1..]);
    }
  }

  lemma ExtensionsDecoded(s: seq<byte>, seen: seq<u16>, sni: Sni)
    returns (extensions: seq<Extension>)
    requires WalkExtensions(s, seen, sni).Success?
    ensures GoodExtensions(extensions) && EncodeExtensions(extensions) == s
    ensures WalkExtensions(s, seen, sni) == Success((seen + Types(extensions), LastHost(extensions, sni)))
  {
    extensions := ExtensionsRead(s, seen, sni);
    ExtensionsAccepted(extensions, seen, sni);
  }

  lemma {:induction false} ExtensionsRead(s: seq<byte>, seen: seq<u16>, sni: Sni)
    returns (extensions: seq<Extension>)
    requires WalkExtensions(s, seen, sni).Success?
    ensures GoodExtensions(extensions) && EncodeExtensions(extensions) == s
    decreases |s|
  {
    if s == [] {
      extensions := [];
    } else {
      var kind, data, rest := NextExtension(s, seen, sni);
      WalkOneExtension(kind, data, rest, seen, sni);
      var first := Other(kind, data);
      var next := sni;
      if kind == EXTENSION_SERVER_NAME {
        var names := ServerNameDecoded(data);
        first, next := ServerNames(names), ParseServerName(data).value;
      }
      var others := ExtensionsRead(rest, seen + [kind], next);
      extensions := [first] + others;
      assert extensions[1..] == others;
    }
  }

  // ----- The body -------------------------------------------------------------------

  /** Everything after the client random, once its fields are known. */
  function ParseAfterRandom(s: seq<byte>): Result<Sni, ParseError> {
    var session := ReadVec8(s);
    if session.value.None? || |session.value.value| > MAX_SESSION_ID_LEN then Failure(Malformed) else
    var suites := ReadVec16(session.rest);
    if suites.value.None? || suites.value.value == [] || |suites.value.value| % 2 != 0 then Failure(Malformed) else
    var compression := ReadVec8(suites.rest);
    if compression.value.None? || compression.value.value == [] then Failure(Malformed) else
    ParseBlock(compression.rest)
  }

  function ParseBlock(s: seq<byte>): Result<Sni, ParseError> {
    if s == [] then Success(None) else
    var extensions := ReadVec16(s);
    if extensions.value.None? || extensions.rest != [] then Failure(Malformed)
    else ParseExtensions(extensions.value.value)
  }

  function EncodeBlock(extensions: Option<seq<Extension>>): seq<byte>
    requires extensions.Some? ==> BlockFits(extensions.value)
  {
    if extensions.None? then [] else Vec16(EncodeExtensions(extensions.value))
  }

  lemma BodyInTwo(body: seq<byte>)
    ensures ParseBody(body) ==
            if |body| < 2 + RANDOM_LEN || body[0] != 3 then Failure(Malformed)
            else ParseAfterRandom(body[2 + RANDOM_LEN..])
  {
    hide ReadVec8, ReadVec16, ParseExtensions;
    if |body| >= 2 + RANDOM_LEN {
      assert body[2..][RANDOM_LEN..] == body[2 + RANDOM_LEN..];
      assert U16From(body[0], body[1]) / 0x100 == body[0];
    }
  }

  lemma BlockAccepted(extensions: Option<seq<Extension>>)
    requires extensions.Some? ==>
               GoodExtensions(extensions.value) && BlockFits(extensions.value) && Distinct(Types(extensions.value))
    ensures ParseBlock(EncodeBlock(extensions)) ==
            Success(if extensions.None? then None else LastHost(extensions.value, None))
  {
    if extensions.Some? {
      var list := EncodeExtensions(extensions.value);
      assert Vec16(list) + [] == Vec16(list);
      Vec16Exactly(Vec16(list), list, []);
      ExtensionsAccepted(extensions.value, [], None);
      assert [] + Types(extensions.value) == Types(extensions.value);
    }
  }

  lemma BlockDecoded(s: seq<byte>) returns (extensions: Option<seq<Extension>>)
    requires ParseBlock(s).Success?
    ensures extensions.Some? ==>
              GoodExtensions(extensions.value) && BlockFits(extensions.value) && Distinct(Types(extensions.value))
    ensures EncodeBlock(extensions) == s
  {
    if s == [] {
      extensions := None;
    } else {
      var block := ReadVec16(s);
      Vec16Exactly(s, block.value.value, block.rest);
      var list := ExtensionsDecoded(block.value.value, [], None);
      ExtensionsAccepted(list, [], None);
      assert [] + Types(list) == Types(list);
      assert Vec16(block.value.value) + [] == Vec16(block.value.value);
      extensions := Some(list);
    }
  }

  function EncodeAfterRandom(sessionId: Vector8, cipherSuites: Vector16, compression: Vector8, block: seq<byte>)
    : seq<byte>
  {
    Vec8(sessionId) + (Vec16(cipherSuites) + (Vec8(compression) + block))
  }

  lemma EncodingInTwo(hello: ClientHello)
    requires |hello.random| == RANDOM_LEN
    requires hello.extensions.Some? ==> BlockFits(hello.extensions.value)
    ensures var body := EncodeHello(hello);
            && |body| >= 2 + RANDOM_LEN
            && body[0] == 3 && body[1] == hello.minor && body[2..2 + RANDOM_LEN] == hello.random
            && body[2 + RANDOM_LEN..] ==
               EncodeAfterRandom(hello.sessionId, hello.cipherSuites, hello.compression, EncodeBlock(hello.extensions))
  {
    var tail := EncodeAfterRandom(hello.sessionId, hello.cipherSuites, hello.compression, EncodeBlock(hello.extensions));
    assert EncodeHello(hello) == [3, hello.minor] + hello.random + tail;
  }

  lemma AfterRandomAccepted(sessionId: Vector8, cipherSuites: Vector16, compression: Vector8, block: seq<byte>)
    requires |sessionId| <= MAX_SESSION_ID_LEN
    requires cipherSuites != [] && |cipherSuites| % 2 == 0 && compression != []
    ensures ParseAfterRandom(EncodeAfterRandom(sessionId, cipherSuites, compression, block)) == ParseBlock(block)
  {
    var afterSuites := Vec8(compression) + block;
    var afterSession := Vec16(cipherSuites) + afterSuites;
    Vec8Exactly(Vec8(sessionId) + afterSession, sessionId, afterSession);
    Vec16Exactly(afterSession, cipherSuites, afterSuites);
    Vec8Exactly(afterSuites, compression, block);
  }

  lemma AfterRandomDecoded(s: seq<byte>)
    returns (sessionId: Vector8, cipherSuites: Vector16, compression: Vector8, block: seq<byte>)
    requires ParseAfterRandom(s) != Failure(Malformed)
    ensures |sessionId| <= MAX_SESSION_ID_LEN
    ensures cipherSuites != [] && |cipherSuites| % 2 == 0 && compression != []
    ensures s == EncodeAfterRandom(sessionId, cipherSuites, compression, block)
  {
    var session := ReadVec8(s);
    Vec8Exactly(s, session.value.value, session.rest);
    var suites := ReadVec16(session.rest);
    Vec16Exactly(session.rest, suites.value.value, suites.rest);
    var methods := ReadVec8(suites.rest);
    Vec8Exactly(suites.rest, methods.value.value, methods.rest);
    sessionId, cipherSuites := session.value.value, suites.value.value;
    compression, block := methods.value.value, methods.rest;
  }

  lemma HelloAccepted(hello: ClientHello)
    requires WellFormed(hello)
    ensures ParseBody(EncodeHello(hello)) == Success(SniOf(hello))
  {
    EncodingInTwo(hello);
    BodyInTwo(EncodeHello(hello));
    AfterRandomAccepted(hello.sessionId, hello.cipherSuites, hello.compression, EncodeBlock(hello.extensions));
    BlockAccepted(hello.extensions);
  }

  lemma SameParts(a: seq<byte>, b: seq<byte>)
    requires |a| >= 2 + RANDOM_LEN && |b| >= 2 + RANDOM_LEN
    requires a[0] == b[0] && a[1] == b[1] && a[2..2 + RANDOM_LEN] == b[2..2 + RANDOM_LEN]
    requires a[2 + RANDOM_LEN..] == b[2 + RANDOM_LEN..]
    ensures a == b
  {
    assert a == [a[0], a[1]] + a[2..2 + RANDOM_LEN] + a[2 + RANDOM_LEN..];
    assert b == [b[0], b[1]] + b[2..2 + RANDOM_LEN] + b[2 + RANDOM_LEN..];
  }

  lemma HelloDecoded(body: seq<byte>) returns (hello: ClientHello)
    requires ParseBody(body).Success?
    ensures WellFormed(hello) && EncodeHello(hello) == body
  {
    BodyInTwo(body);
    var sessionId, cipherSuites, compression, block := AfterRandomDecoded(body[2 + RANDOM_LEN..]);
    AfterRandomAccepted(sessionId, cipherSuites, compression, block);
    var extensions := BlockDecoded(block);
    hello := ClientHello(body[1], body[2..2 + RANDOM_LEN], sessionId, cipherSuites, compression, extensions);
    EncodingInTwo(hello);
    SameParts(body, EncodeHello(hello));
  }

  /** The parser accepts exactly the encodings of well-formed hellos and answers the name they carry. */
  lemma BodyLanguage(body: seq<byte>, sni: Sni)
    ensures ParseBody(body) == Success(sni) <==>
            exists hello :: WellFormed(hello) && EncodeHello(hello) == body && SniOf(hello) == sni
  {
    if ParseBody(body) == Success(sni) {
      var hello := HelloDecoded(body);
      HelloAccepted(hello);
    }
    if hello :| WellFormed(hello) && EncodeHello(hello) == body && SniOf(hello) == sni {
      HelloAccepted(hello);
    }
  }

  // ----- The name carried -------------------------------------------------------------

  lemma {:induction false} HostOfNames(names: seq<ServerName>, host: Hostname)
    requires GoodNames(names)
    ensures HostOf(names) == Some(host) <==>
            exists i :: 0 <= i < |names| && IsHostName(names[i]) && host.text == Lower(names[i].name)
  {
    if names != [] {
      HostOfNames(names[1..], host);
      assert forall i :: 0 < i < |names| ==> names[i] == names[1..][i - 1];
    }
  }

  lemma {:induction false} LastHostOfExtensions(extensions: seq<Extension>, sni: Sni)
    requires Distinct(Types(extensions))
    ensures (forall e :: e in extensions ==> !e.ServerNames?) ==> LastHost(extensions, sni) == sni
    ensures forall e :: e in extensions && e.ServerNames? ==> LastHost(extensions, sni) == HostOf(e.names)
  {
    if extensions != [] {
      var first := extensions[0];
      assert extensions == [first] + extensions[1..];
      assert Distinct(Types(extensions[1..])) by {
        assert forall i :: 0 <= i < |extensions| - 1 ==> Types(extensions[1..])[i] == Types(extensions)[i + 1];
      }
      LastHostOfExtensions(extensions[1..], if first.ServerNames? then HostOf(first.names) else sni);
      if first.ServerNames? {
        forall e | e in extensions[1..] ensures !e.ServerNames? {
          var i :| 0 <= i < |extensions[1..]| && extensions[1..][i] == e;
          assert Types(extensions)[0] != Types(extensions)[i + 1];
        }
      }
    }
  }

  /** The answer is the one host_name entry of the one `server_name` extension, lowercased. */
  lemma SniIsTheHostName(hello: ClientHello, host: Hostname)
    requires WellFormed(hello)
    ensures SniOf(hello) == Some(host) <==>
            && hello.extensions.Some?
            && exists names: seq<ServerName>, i: int :: ServerNames(names) in hello.extensions.value
                                  && 0 <= i < |names| && IsHostName(names[i]) && host.text == Lower(names[i].name)
  {
    if hello.extensions.Some? {
      var extensions := hello.extensions.value;
      LastHostOfExtensions(extensions, None);
      forall names: seq<ServerName> | ServerNames(names) in extensions
        ensures SniOf(hello) == Some(host) <==>
                exists i :: 0 <= i < |names| && IsHostName(names[i]) && host.text == Lower(names[i].name)
      {
        assert GoodExtension(ServerNames(names));
        HostOfNames(names, host);
      }
      if SniOf(hello) == Some(host) {
        var e :| e in extensions && e.ServerNames?;
        assert ServerNames(e.names) in extensions;
      }
    }
  }
}
