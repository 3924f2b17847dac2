/** Why the body parser refuses a ClientHello body (crates/sni_router/src/protocol/hello.rs). */
module HelloErrors {
  import opened Wrappers
  import opened Bytes
  import opened Names
  import opened Protocol
  import opened Cursor
  import opened Hello
  import opened HelloLanguage

  // ----- The kinds of errors ------------------------------------------------------

  predicate IsBodyError(error: ParseError) {
    error.Malformed? || error.InvalidServerName?
  }

  lemma {:induction false} NameErrorKinds(s: seq<byte>, host: Sni)
    ensures WalkNames(s, host).Failure? ==> IsBodyError(WalkNames(s, host).error)
    decreases |s|
  {
    if s != [] {
      var kind := ReadU8(s);
      var name := ReadVec16(kind.rest);
      if name.value.Some? && name.value.value != [] {
        NameErrorKinds(name.rest, host);
        if ParseHostName(name.value.value).Success? {
          NameErrorKinds(name.rest, Some(ParseHostName(name.value.value).value));
        }
      }
    }
  }

  lemma {:induction false} ExtensionErrorKinds(s: seq<byte>, seen: seq<u16>, sni: Sni)
    ensures WalkExtensions(s, seen, sni).Failure? ==> IsBodyError(WalkExtensions(s, seen, sni).error)
    decreases |s|
  {
    if s != [] {
      var kind := ReadU16(s);
      if kind.value.Some? {
        var data := ReadVec16(kind.rest);
        if data.value.Some? {
          var types := seen + [kind.value.value];
          ExtensionErrorKinds(data.rest, types, sni);
          var list := ReadVec16(data.value.value);
          if list.value.Some? {
            NameErrorKinds(list.value.value, None);
          }
          if ParseServerName(data.value.value).Success? {
            ExtensionErrorKinds(data.rest, types, ParseServerName(data.value.value).value);
          }
        }
      }
    }
  }

  /** The body parser refuses for two kinds of reasons only. */
  lemma BodyErrorKinds(body: seq<byte>)
    ensures ParseBody(body).Failure? ==> ParseBody(body).error.Malformed? || ParseBody(body).error.InvalidServerName?
  {
    hide WalkExtensions, ReadVec8, ReadVec16, ReadBytes;
    ExtensionErrorKinds(body, [], None);
    forall block ensures WalkExtensions(block, [], None).Failure? ==> IsBodyError(WalkExtensions(block, [], None).error) {
      ExtensionErrorKinds(block, [], None);
    }
  }

  // ----- Refused names -------------------------------------------------------------

  /** Why a host_name entry is no hostname. */
  ghost predicate IsBadHostName(name: Vector16, error: NameError) {
    name != [] && if ValidUtf8(name) then ParseHostname(name) == Failure(error) else error == InvalidCharacter
  }

  /** A name list whose first host_name entry, behind other entries, is bad. */
  ghost predicate BadNameAt(s: seq<byte>, before: seq<ServerName>, name: Vector16, rest: seq<byte>, error: NameError) {
    && (forall i :: 0 <= i < |before| ==> before[i].name != [] && !IsHostName(before[i]))
    && IsBadHostName(name, error)
    && s == EncodeNames(before) + ([NAME_TYPE_HOST_NAME] + Vec16(name) + rest)
  }

  lemma BadNameCons(first: ServerName, before: seq<ServerName>, name: Vector16, rest: seq<byte>, error: NameError)
    requires first.name != [] && !IsHostName(first)
    ensures BadNameAt([first.kind] + Vec16(first.name) + (EncodeNames(before) + ([NAME_TYPE_HOST_NAME] + Vec16(name) + rest)),
                      [first] + before, name, rest, error)
            <==> BadNameAt(EncodeNames(before) + ([NAME_TYPE_HOST_NAME] + Vec16(name) + rest), before, name, rest, error)
  {
    hide IsBadHostName, Vec16, IsHostName;
    var all := [first] + before;
    assert all[1..] == before;
    assert forall i :: 0 <= i < |before| ==> before[i] == all[i + 1];
    assert forall i :: 0 < i < |all| ==> all[i] == before[i - 1];
  }

  lemma {:induction false} BadNameFound(s: seq<byte>, error: NameError)
    returns (before: seq<ServerName>, name: Vector16, rest: seq<byte>)
    requires WalkNames(s, None) == Failure(InvalidServerName(error))
    ensures BadNameAt(s, before, name, rest, error)
    decreases |s|
  {
    var kind, first, others := NextName(s, None);
    WalkOneName(kind, first, others, None);
    hide WalkNames, Vec16, ValidUtf8, ParseHostname, Lower;
    if kind == NAME_TYPE_HOST_NAME {
      if ParseHostName(first).Success? {
        OneHostOnly(others, Hostname(Lower(first)), error);
      }
      before, name, rest := [], first, others;
      assert EncodeNames(before) + ([kind] + Vec16(first) + others) == s;
    } else {
      before, name, rest := BadNameFound(others, error);
      BadNameCons(ServerName(kind, first), before, name, rest, error);
      before := [ServerName(kind, first)] + before;
    }
  }

  /** Behind a host_name entry another one is refused as such, whatever it holds. */
  lemma {:induction false} OneHostOnly(s: seq<byte>, host: Hostname, error: NameError)
    ensures WalkNames(s, Some(host)) != Failure(InvalidServerName(error))
    decreases |s|
  {
    if WalkNames(s, Some(host)) == Failure(InvalidServerName(error)) {
      var kind, name, rest := NextName(s, Some(host));
      WalkOneName(kind, name, rest, Some(host));
      OneHostOnly(rest, host, error);
    }
  }

  lemma {:induction false} BadNameRefused(s: seq<byte>, before: seq<ServerName>, name: Vector16, rest: seq<byte>, error: NameError)
    requires BadNameAt(s, before, name, rest, error)
    ensures WalkNames(s, None) == Failure(InvalidServerName(error))
    decreases |before|
  {
    if before == [] {
      assert s == [NAME_TYPE_HOST_NAME] + Vec16(name) + rest;
      WalkOneName(NAME_TYPE_HOST_NAME, name, rest, None);
    } else {
      hide WalkNames, Vec16, IsBadHostName;
      var first, tail := before[0], EncodeNames(before[1..]) + ([NAME_TYPE_HOST_NAME] + Vec16(name) + rest);
      assert s == [first.kind] + Vec16(first.name) + tail;
      assert before == [first] + before[1..];
      BadNameCons(first, before[1..], name, rest, error);
      WalkOneName(first.kind, first.name, tail, None);
      BadNameRefused(tail, before[1..], name, rest, error);
    }
  }

  ghost predicate HasBadName(data: seq<byte>, error: NameError) {
    exists list: Vector16, before, name: Vector16, rest ::
      list != [] && data == Vec16(list) && BadNameAt(list, before, name, rest, error)
  }

  /** A `server_name` extension is refused for its name exactly when its list holds a bad one as described. */
  lemma BadNamesExactly(data: seq<byte>, error: NameError)
    ensures ParseServerName(data) == Failure(InvalidServerName(error)) <==> HasBadName(data, error)
  {
    if ParseServerName(data) == Failure(InvalidServerName(error)) {
      var list := ReadVec16(data);
      Vec16Exactly(data, list.value.value, list.rest);
      assert Vec16(list.value.value) + [] == Vec16(list.value.value);
      var before, name, rest := BadNameFound(list.value.value, error);
    }
    if list: Vector16, before, name: Vector16, rest :|
      list != [] && data == Vec16(list) && BadNameAt(list, before, name, rest, error)
    {
      assert Vec16(list) + [] == Vec16(list);
      Vec16Exactly(data, list, []);
      BadNameRefused(list, before, name, rest, error);
    }
  }

  // ----- Refused extensions and bodies --------------------------------------------------

  /** Good extensions, then a `server_name` extension with a bad name, then anything. */
  ghost predicate BadExtensionAt(s: seq<byte>, before: seq<Extension>, data: Vector16, rest: seq<byte>, error: NameError) {
    && GoodExtensions(before) && HasBadName(data, error)
    && s == EncodeExtensions(before) + (U16Bytes(EXTENSION_SERVER_NAME) + Vec16(data) + rest)
  }

  lemma BadExtensionCons(first: Extension, before: seq<Extension>, data: Vector16, rest: seq<byte>, error: NameError)
    requires GoodExtensions([first] + before)
    ensures GoodExtensions(before) && Fits(first)
    ensures EncodeExtensions([first] + before) + (U16Bytes(EXTENSION_SERVER_NAME) + Vec16(data) + rest)
            == U16Bytes(ExtensionType(first)) + Vec16(ExtensionData(first))
               + (EncodeExtensions(before) + (U16Bytes(EXTENSION_SERVER_NAME) + Vec16(data) + rest))
  {
    hide Vec16, U16Bytes, GoodExtension, Fits, ExtensionData, ExtensionType;
    var all := [first] + before;
    assert first in all && all[1..] == before;
    assert forall e :: e in before ==> e in all;
  }

  lemma OneMoreGood(first: Extension, s: seq<byte>, before: seq<Extension>, data: Vector16, rest: seq<byte>, error: NameError)
    requires Fits(first) && GoodExtension(first) && BadExtensionAt(s, before, data, rest, error)
    ensures BadExtensionAt(U16Bytes(ExtensionType(first)) + Vec16(ExtensionData(first)) + s, [first] + before, data, rest, error)
  {
    hide Vec16, U16Bytes, GoodExtension, Fits, ExtensionData, ExtensionType, HasBadName, EncodeExtensions;
    assert forall e :: e in [first] + before ==> e == first || e in before;
    BadExtensionCons(first, before, data, rest, error);
  }

  lemma {:induction false} BadExtensionFound(s: seq<byte>, seen: seq<u16>, sni: Sni, error: NameError)
    returns (before: seq<Extension>, data: Vector16, rest: seq<byte>)
    requires WalkExtensions(s, seen, sni) == Failure(InvalidServerName(error))
    ensures BadExtensionAt(s, before, data, rest, error)
    decreases |s|
  {
    var kind, bytes, others := NextExtension(s, seen, sni);
    WalkOneExtension(kind, bytes, others, seen, sni);
    hide WalkExtensions, Vec16, U16Bytes;
    if kind == EXTENSION_SERVER_NAME && ParseServerName(bytes).Failure? {
      BadNamesExactly(bytes, error);
      before, data, rest := [], bytes, others;
      assert EncodeExtensions(before) + (U16Bytes(kind) + Vec16(bytes) + others) == s;
    } else {
      var first, next := Other(kind, bytes), sni;
      if kind == EXTENSION_SERVER_NAME {
        var names := ServerNameDecoded(bytes);
        first, next := ServerNames(names), ParseServerName(bytes).value;
      }
      hide Fits, GoodExtension, ParseServerName, HasBadName, BadExtensionAt;
      before, data, rest := BadExtensionFound(others, seen + [kind], next, error);
      OneMoreGood(first, others, before, data, rest, error);
      before := [first] + before;
    }
  }

  lemma {:induction false} BadExtensionRefused(
    s: seq<byte>, before: seq<Extension>, data: Vector16, rest: seq<byte>, seen: seq<u16>, sni: Sni, error: NameError)
    requires BadExtensionAt(s, before, data, rest, error)
    ensures WalkExtensions(s, seen, sni) == Failure(InvalidServerName(error))
    decreases |before|
  {
    BadNamesExactly(data, error);
    hide WalkExtensions, Vec16, U16Bytes, HasBadName;
    if before == [] {
      assert s == U16Bytes(EXTENSION_SERVER_NAME) + Vec16(data) + rest;
      WalkOneExtension(EXTENSION_SERVER_NAME, data, rest, seen, sni);
    } else {
      var first := before[0];
      assert first in before && before == [first] + before[1..];
      BadExtensionCons(first, before[1..], data, rest, error);
      var tail := EncodeExtensions(before[1..]) + (U16Bytes(EXTENSION_SERVER_NAME) + Vec16(data) + rest);
      WalkOneExtension(ExtensionType(first), ExtensionData(first), tail, seen, sni);
      if first.ServerNames? {
        ServerNameAccepted(first.names);
      }
      BadExtensionRefused(tail, before[1..], data, rest, seen + [ExtensionType(first)],
                          if first.ServerNames? then HostOf(first.names) else sni, error);
    }
  }

  /** A body whose fields before the extensions are good, and whose extensions hold a bad name. */
  ghost predicate HasBadHost(body: seq<byte>, error: NameError) {
    && |body| >= 2 + RANDOM_LEN && body[0] == 3
    && exists sessionId: Vector8, cipherSuites: Vector16, compression: Vector8, block: Vector16,
              before, data: Vector16, rest ::
         && |sessionId| <= MAX_SESSION_ID_LEN && cipherSuites != [] && |cipherSuites| % 2 == 0 && compression != []
         && body[2 + RANDOM_LEN..] == EncodeAfterRandom(sessionId, cipherSuites, compression, Vec16(block))
         && BadExtensionAt(block, before, data, rest, error)
  }

  /** The body is refused for its server name exactly when it is good up to a bad one. */
  lemma BadHostsExactly(body: seq<byte>, error: NameError)
    ensures ParseBody(body) == Failure(InvalidServerName(error)) <==> HasBadHost(body, error)
  {
    BodyInTwo(body);
    hide ParseBody, ParseAfterRandom, EncodeAfterRandom, BadExtensionAt;
    if ParseBody(body) == Failure(InvalidServerName(error)) {
      var sessionId, cipherSuites, compression, bytes := AfterRandomDecoded(body[2 + RANDOM_LEN..]);
      AfterRandomAccepted(sessionId, cipherSuites, compression, bytes);
      var block, before, data, rest := BadBlockFound(bytes, error);
    }
    if HasBadHost(body, error) {
      var sessionId: Vector8, cipherSuites: Vector16, compression: Vector8, block: Vector16,
          before, data: Vector16, rest :|
        && |sessionId| <= MAX_SESSION_ID_LEN && cipherSuites != [] && |cipherSuites| % 2 == 0 && compression != []
        && body[2 + RANDOM_LEN..] == EncodeAfterRandom(sessionId, cipherSuites, compression, Vec16(block))
        && BadExtensionAt(block, before, data, rest, error);
      AfterRandomAccepted(sessionId, cipherSuites, compression, Vec16(block));
      BadBlockRefused(block, before, data, rest, error);
    }
  }

  lemma BadBlockFound(bytes: seq<byte>, error: NameError)
    returns (block: Vector16, before: seq<Extension>, data: Vector16, rest: seq<byte>)
    requires ParseBlock(bytes) == Failure(InvalidServerName(error))
    ensures bytes == Vec16(block) && BadExtensionAt(block, before, data, rest, error)
  {
    var read := ReadVec16(bytes);
    Vec16Exactly(bytes, read.value.value, read.rest);
    assert Vec16(read.value.value) + [] == Vec16(read.value.value);
    block := read.value.value;
    before, data, rest := BadExtensionFound(block, [], None, error);
  }

  lemma BadBlockRefused(block: Vector16, before: seq<Extension>, data: Vector16, rest: seq<byte>, error: NameError)
    requires BadExtensionAt(block, before, data, rest, error)
    ensures ParseBlock(Vec16(block)) == Failure(InvalidServerName(error))
  {
    assert Vec16(block) + [] == Vec16(block);
    Vec16Exactly(Vec16(block), block, []);
    BadExtensionRefused(block, before, data, rest, [], None, error);
  }
}
