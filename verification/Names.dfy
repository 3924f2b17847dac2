/**
 Validated hostnames and route keys (crates/sni_router/src/lookup/types.rs).

 Text is a sequence of octets: only ASCII survives validation, so nothing is
 lost by not decoding it first.
 */
module Names {
  import opened Wrappers
  import opened Bytes

  const MAX_NAME_LEN := 253
  const MAX_LABEL_LEN := 63
  const HYPHEN: byte := 0x2d
  const DOT: byte := 0x2e
  const STAR: byte := 0x2a
  const UNDERSCORE: byte := 0x5f
  const WILDCARD_PREFIX: seq<byte> := [STAR, DOT]

  datatype NameError =
    | Empty
    | TooLong
    | EmptyLabel
    | LabelTooLong
    | InvalidCharacter
    | IpLiteral
    | InvalidWildcard

  datatype Hostname = Hostname(text: seq<byte>)

  datatype RouteKey = RouteKey(text: seq<byte>, wildcard: bool)

  // ----- Text ---------------------------------------------------------------

  predicate IsDigit(b: byte) {
    0x30 <= b <= 0x39
  }

  predicate IsNameByte(b: byte) {
    0x61 <= b <= 0x7a || IsDigit(b) || b == HYPHEN || b == UNDERSCORE
  }

  function LowerByte(b: byte): byte {
    if 0x41 <= b <= 0x5a then b + 0x20 else b
  }

  function Lower(s: seq<byte>): (r: seq<byte>)
    ensures |r| == |s|
    ensures forall i :: 0 <= i < |s| ==> r[i] == LowerByte(s[i])
  {
    seq(|s|, i requires 0 <= i < |s| => LowerByte(s[i]))
  }

  /** The pieces of `s` between dots; a string without a dot is one piece. */
  function Split(s: seq<byte>): (labels: seq<seq<byte>>)
    ensures labels != []
  {
    if s == [] then [[]]
    else
      var rest := Split(s[1..]);
      if s[0] == DOT then [[]] + rest else [[s[0]] + rest[0]] + rest[1..]
  }

  /** Everything before and after the first dot. */
  function SplitOnce(s: seq<byte>): (r: Option<(seq<byte>, seq<byte>)>)
    ensures r.Some? ==> DOT !in r.value.0 && s == r.value.0 + [DOT] + r.value.1
    ensures r.None? ==> DOT !in s
  {
    if s == [] then None
    else if s[0] == DOT then Some(([], s[1..]))
    else
      match SplitOnce(s[1..])
      case None => None
      case Some((head, tail)) => Some(([s[0]] + head, tail))
  }

  // ----- Validation ---------------------------------------------------------

  function CheckLabel(piece: seq<byte>): Outcome<NameError> {
    if piece == [] then Fail(EmptyLabel)
    else if |piece| > MAX_LABEL_LEN then Fail(LabelTooLong)
    else if exists i :: 0 <= i < |piece| && !IsNameByte(piece[i]) then Fail(InvalidCharacter)
    else Pass
  }

  function CheckLabels(labels: seq<seq<byte>>): Outcome<NameError> {
    if labels == [] then Pass
    else if CheckLabel(labels[0]).Fail? then CheckLabel(labels[0])
    else CheckLabels(labels[1..])
  }

  function ValidateDnsName(name: seq<byte>): Outcome<NameError> {
    if name == [] then Fail(Empty)
    else if |name| > MAX_NAME_LEN then Fail(TooLong)
    else CheckLabels(Split(name))
  }

  function DecimalValue(digits: seq<byte>): int {
    if digits == [] then 0
    else DecimalValue(digits[..|digits| - 1]) * 10 + (digits[|digits| - 1] as int) - 0x30
  }

  predicate IsOctet(digits: seq<byte>) {
    && 1 <= |digits| <= 3
    && (forall i :: 0 <= i < |digits| ==> IsDigit(digits[i]))
    && (|digits| > 1 ==> digits[0] != 0x30)
    && DecimalValue(digits) <= 255
  }

  /** Dotted-quad text. A validated name has no colon, so it is never an IPv6 literal. */
  predicate IsIpv4Literal(name: seq<byte>) {
    var parts := Split(name);
    |parts| == 4 && forall i :: 0 <= i < 4 ==> IsOctet(parts[i])
  }

  function ParseHostname(name: seq<byte>): Result<Hostname, NameError> {
    var lowered := Lower(name);
    match ValidateDnsName(lowered)
    case Fail(error) => Failure(error)
    case Pass => if IsIpv4Literal(lowered) then Failure(IpLiteral) else Success(Hostname(lowered))
  }

  /** A hostname some name parses to. */
  predicate IsHostname(host: Hostname) {
    ValidateDnsName(host.text).Pass? && !IsIpv4Literal(host.text)
  }

  // ----- Route keys ---------------------------------------------------------

  function ExactKey(host: Hostname): RouteKey {
    RouteKey(host.text, false)
  }

  function WildcardFor(host: Hostname): Option<RouteKey> {
    match SplitOnce(host.text)
    case None => None
    case Some((_, parent)) =>
      if DOT !in parent then None else Some(RouteKey(WILDCARD_PREFIX + parent, true))
  }

  function ParseRouteKey(key: seq<byte>): Result<RouteKey, NameError> {
    var lowered := Lower(key);
    if WILDCARD_PREFIX <= lowered then
      match ParseHostname(lowered[2..])
      case Failure(InvalidCharacter) => Failure(InvalidWildcard)
      case Failure(error) => Failure(error)
      case Success(parent) =>
        if DOT !in parent.text then Failure(InvalidWildcard) else Success(RouteKey(lowered, true))
    else if STAR in lowered then Failure(InvalidWildcard)
    else
      match ParseHostname(lowered)
      case Failure(error) => Failure(error)
      case Success(host) => Success(ExactKey(host))
  }

  // ----- What validation accepts --------------------------------------------

  /** One of the 64 octets of `s` starting at `from` is a dot. */
  predicate DotWithin(s: seq<byte>, from: int) {
    exists j :: 0 <= from <= j < from + MAX_LABEL_LEN + 1 && j < |s| && s[j] == DOT
  }

  /** Label structure stated on positions instead of on split pieces. */
  ghost predicate IsDotted(s: seq<byte>) {
    && s != []
    && s[0] != DOT
    && s[|s| - 1] != DOT
    && (forall i :: 0 <= i < |s| ==> s[i] == DOT || IsNameByte(s[i]))
    && (forall i :: 0 < i < |s| ==> s[i - 1] == DOT ==> s[i] != DOT)
    && (forall i :: 0 <= i && i + MAX_LABEL_LEN < |s| ==> DotWithin(s, i))
  }

  lemma {:induction false} SplitAtDot(piece: seq<byte>, rest: seq<byte>)
    requires DOT !in piece
    ensures Split(piece + [DOT] + rest) == [piece] + Split(rest)
  {
    var s := piece + [DOT] + rest;
    if piece == [] {
      assert s[1..] == rest;
    } else {
      SplitAtDot(piece[1..], rest);
      assert s[1..] == piece[1..] + [DOT] + rest;
      assert s[0] == piece[0] && piece[0] in piece;
      assert piece == [piece[0]] + piece[1..];
    }
  }

  lemma {:induction false} SplitWithoutDot(s: seq<byte>)
    requires DOT !in s
    ensures Split(s) == [s]
  {
    if s != [] {
      SplitWithoutDot(s[1..]);
      assert s[0] in s;
      assert s == [s[0]] + s[1..];
    }
  }

  lemma DottedPiece(s: seq<byte>)
    requires DOT !in s
    ensures CheckLabel(s).Pass? <==> IsDotted(s)
  {
    if |s| > MAX_LABEL_LEN {
      assert !DotWithin(s, 0);
    }
  }

  lemma DottedAtDot(piece: seq<byte>, rest: seq<byte>)
    requires DOT !in piece
    ensures IsDotted(piece + [DOT] + rest) <==> CheckLabel(piece).Pass? && IsDotted(rest)
  {
    if IsDotted(piece + [DOT] + rest) {
      DottedSplits(piece, rest);
    }
    if CheckLabel(piece).Pass? && IsDotted(rest) {
      DottedJoins(piece, rest);
    }
  }

  lemma DottedSplits(piece: seq<byte>, rest: seq<byte>)
    requires DOT !in piece
    requires IsDotted(piece + [DOT] + rest)
    ensures CheckLabel(piece).Pass? && IsDotted(rest)
  {
    var s := piece + [DOT] + rest;
    var n := |piece| + 1;
    assert forall i :: 0 <= i < |piece| ==> s[i] == piece[i] && piece[i] in piece;
    assert forall i :: 0 <= i < |rest| ==> rest[i] == s[n + i];
    assert s[n - 1] == DOT;
    assert |s| > MAX_LABEL_LEN ==> DotWithin(s, 0);
    forall i | 0 <= i && i + MAX_LABEL_LEN < |rest| ensures DotWithin(rest, i) {
      assert DotWithin(s, n + i);
      var j :| n + i <= j < n + i + MAX_LABEL_LEN + 1 && j < |s| && s[j] == DOT;
      assert rest[j - n] == DOT;
    }
  }

  lemma DottedJoins(piece: seq<byte>, rest: seq<byte>)
    requires DOT !in piece
    requires CheckLabel(piece).Pass? && IsDotted(rest)
    ensures IsDotted(piece + [DOT] + rest)
  {
    var s := piece + [DOT] + rest;
    var n := |piece| + 1;
    assert forall i :: n <= i < |s| ==> s[i] == rest[i - n];
    assert forall i :: 0 <= i < |piece| ==> s[i] == piece[i] && piece[i] in piece;
    assert s[n - 1] == DOT;
    forall i | 0 <= i && i + MAX_LABEL_LEN < |s| ensures DotWithin(s, i) {
      if i >= n {
        assert DotWithin(rest, i - n);
        var j :| i - n <= j < i - n + MAX_LABEL_LEN + 1 && j < |rest| && rest[j] == DOT;
        assert s[j + n] == DOT;
      }
    }
  }

  lemma {:induction false} LabelsAreDotted(s: seq<byte>)
    ensures CheckLabels(Split(s)).Pass? <==> IsDotted(s)
    decreases |s|
  {
    match SplitOnce(s)
    case None =>
      SplitWithoutDot(s);
      DottedPiece(s);
      assert CheckLabels([s]).Pass? <==> CheckLabel(s).Pass?;
    case Some((piece, rest)) =>
      SplitAtDot(piece, rest);
      DottedAtDot(piece, rest);
      LabelsAreDotted(rest);
      assert ([piece] + Split(rest))[1..] == Split(rest);
  }

  /** The names that validate, in terms of positions only. */
  lemma ValidNamesExactly(name: seq<byte>)
    ensures ValidateDnsName(name).Pass? <==> |name| <= MAX_NAME_LEN && IsDotted(name)
  {
    LabelsAreDotted(name);
  }

  // ----- Parsing normalizes -------------------------------------------------

  lemma LowerFixesNames(name: seq<byte>)
    requires ValidateDnsName(name).Pass?
    ensures Lower(name) == name
    ensures STAR !in name
  {
    ValidNamesExactly(name);
  }

  lemma LowerTwice(s: seq<byte>)
    ensures Lower(Lower(s)) == Lower(s)
  {
  }

  /** `Hostname::parse` produces exactly the hostnames, folds case, and keeps what it produced. */
  lemma HostnameParsing(name: seq<byte>, other: seq<byte>)
    ensures ParseHostname(name).Success? ==>
              && IsHostname(ParseHostname(name).value)
              && ParseHostname(name).value.text == Lower(name)
              && ParseHostname(ParseHostname(name).value.text) == ParseHostname(name)
    ensures IsHostname(Hostname(name)) <==> ParseHostname(name) == Success(Hostname(name))
    ensures Lower(name) == Lower(other) ==> ParseHostname(name) == ParseHostname(other)
  {
    LowerTwice(name);
    if ValidateDnsName(name).Pass? {
      LowerFixesNames(name);
    }
  }

  // ----- Candidates -----------------------------------------------------------

  /** The part after the first dot of a hostname with two more labels is a valid name. */
  lemma ParentIsValid(host: Hostname)
    requires IsHostname(host)
    requires SplitOnce(host.text).Some?
    ensures SplitOnce(host.text).value.0 != []
    ensures ValidateDnsName(SplitOnce(host.text).value.1).Pass?
  {
    var (piece, parent) := SplitOnce(host.text).value;
    ValidNamesExactly(host.text);
    DottedAtDot(piece, parent);
    ValidNamesExactly(parent);
  }

  lemma {:induction false} FirstDotUnique(piece: seq<byte>, rest: seq<byte>)
    requires DOT !in piece
    ensures SplitOnce(piece + [DOT] + rest) == Some((piece, rest))
  {
    var s := piece + [DOT] + rest;
    if piece == [] {
      assert s[1..] == rest;
    } else {
      FirstDotUnique(piece[1..], rest);
      assert s[1..] == piece[1..] + [DOT] + rest;
      assert piece == [s[0]] + piece[1..];
    }
  }

  /** A stored wildcard `*.P` covers exactly the hosts that are one label in front of `P`. */
  lemma WildcardCoversOneLabel(stored: seq<byte>, key: RouteKey, host: Hostname)
    requires ParseRouteKey(stored) == Success(key) && key.wildcard
    requires IsHostname(host)
    ensures WildcardFor(host) == Some(key) <==>
            exists piece: seq<byte> ::
              piece != [] && DOT !in piece && host.text == piece + [DOT] + key.text[2..]
  {
    var parent := key.text[2..];
    assert key.text == WILDCARD_PREFIX + parent;
    LowerTwice(stored);
    assert Lower(parent) == parent;
    if WildcardFor(host) == Some(key) {
      ParentIsValid(host);
      var (piece, rest) := SplitOnce(host.text).value;
      assert rest == (WILDCARD_PREFIX + rest)[2..];
      assert host.text == piece + [DOT] + parent;
    }
    if piece: seq<byte> :| piece != [] && DOT !in piece && host.text == piece + [DOT] + parent {
      FirstDotUnique(piece, parent);
    }
  }

  lemma SplitQuad(a: byte, b: byte, c: byte, d: byte)
    requires IsDigit(a) && IsDigit(b) && IsDigit(c) && IsDigit(d)
    ensures |Split([a, DOT, b, DOT, c, DOT, d])| == 4
    ensures IsIpv4Literal([a, DOT, b, DOT, c, DOT, d])
  {
    assert [a, DOT, b, DOT, c, DOT, d] == [a] + [DOT] + [b, DOT, c, DOT, d];
    assert [b, DOT, c, DOT, d] == [b] + [DOT] + [c, DOT, d];
    assert [c, DOT, d] == [c] + [DOT] + [d];
    SplitAtDot([a], [b, DOT, c, DOT, d]);
    SplitAtDot([b], [c, DOT, d]);
    SplitAtDot([c], [d]);
    SplitWithoutDot([d]);
    assert Split([a, DOT, b, DOT, c, DOT, d]) == [[a], [b], [c], [d]];
    OneDigit(a); OneDigit(b); OneDigit(c); OneDigit(d);
  }

  lemma OneDigit(d: byte)
    requires IsDigit(d)
    ensures IsOctet([d])
  {
    assert [d][..0] == [];
    assert DecimalValue([d]) == d as int - 0x30;
  }

  /** A stored wildcard is its lowered text, over a parent that is a hostname. */
  lemma StoredWildcard(stored: seq<byte>, key: RouteKey)
    requires ParseRouteKey(stored) == Success(key) && key.wildcard
    ensures key.text == Lower(stored) && WILDCARD_PREFIX <= key.text
    ensures Lower(key.text[2..]) == key.text[2..] && ParseHostname(key.text[2..]) == Success(Hostname(key.text[2..]))
  {
    hide ValidateDnsName, IsIpv4Literal;
    var parent := Lower(stored)[2..];
    assert Lower(parent) == parent by {
      assert forall i :: 0 <= i < |parent| ==> parent[i] == LowerByte(stored[i + 2]);
    }
  }

  lemma StoredWildcardText(stored: seq<byte>, parent: seq<byte>)
    requires ParseRouteKey(stored) == Success(RouteKey(WILDCARD_PREFIX + parent, true))
    ensures !IsIpv4Literal(parent)
  {
    hide ParseRouteKey, IsIpv4Literal, ValidateDnsName;
    StoredWildcard(stored, RouteKey(WILDCARD_PREFIX + parent, true));
    assert (WILDCARD_PREFIX + parent)[2..] == parent;
  }

  lemma WildcardTextParses(parent: seq<byte>)
    requires ValidateDnsName(parent).Pass? && DOT in parent
    ensures ParseRouteKey(WILDCARD_PREFIX + parent) ==
            if IsIpv4Literal(parent) then Failure(IpLiteral)
            else Success(RouteKey(WILDCARD_PREFIX + parent, true))
  {
    LowerFixesNames(parent);
    var text := WILDCARD_PREFIX + parent;
    assert Lower(text) == text;
    assert text[2..] == parent;
    assert ParseHostname(parent) == if IsIpv4Literal(parent) then Failure(IpLiteral) else Success(Hostname(parent));
  }

  /**
   Which candidate keys can be stored at all: the exact key always parses back to
   itself; the wildcard does unless what follows `*.` is an IPv4 literal, and then
   no stored text parses to it.
   */
  lemma CandidateKeysParseBack(host: Hostname)
    requires IsHostname(host)
    ensures ParseRouteKey(ExactKey(host).text) == Success(ExactKey(host))
    ensures WildcardFor(host).Some? ==>
              var key := WildcardFor(host).value;
              && (ParseRouteKey(key.text) == Success(key) <==> !IsIpv4Literal(key.text[2..]))
              && (IsIpv4Literal(key.text[2..]) ==>
                    forall stored: seq<byte> :: ParseRouteKey(stored) != Success(key))
  {
    LowerFixesNames(host.text);
    assert ParseRouteKey(host.text) == Success(ExactKey(host)) by {
      assert !(WILDCARD_PREFIX <= host.text) by {
        assert WILDCARD_PREFIX[0] == STAR && host.text[0] in host.text;
      }
    }
    if WildcardFor(host).Some? {
      ParentIsValid(host);
      var parent := SplitOnce(host.text).value.1;
      WildcardTextParses(parent);
      assert (WILDCARD_PREFIX + parent)[2..] == parent;
      forall stored: seq<byte> | ParseRouteKey(stored) == Success(RouteKey(WILDCARD_PREFIX + parent, true))
        ensures !IsIpv4Literal(parent)
      {
        StoredWildcardText(stored, parent);
      }
    }
  }

  lemma LabelBeforeQuad(host: Hostname)
    requires host.text == [0x61, DOT, 0x31, DOT, 0x32, DOT, 0x33, DOT, 0x34]
    ensures IsHostname(host)
  {
    hide Split;
    var quad := [0x31, DOT, 0x32, DOT, 0x33, DOT, 0x34];
    assert host.text == [0x61] + [DOT] + quad;
    SplitAtDot([0x61], quad);
    SplitQuad(0x31, 0x32, 0x33, 0x34);
    assert !IsIpv4Literal(host.text);
    ValidNamesExactly(host.text);
  }

  /** `a.1.2.3.4` is a hostname whose wildcard candidate `*.1.2.3.4` can never be stored. */
  lemma UnstorableWildcard(host: Hostname)
    requires host.text == [0x61, DOT, 0x31, DOT, 0x32, DOT, 0x33, DOT, 0x34]
    ensures IsHostname(host) && WildcardFor(host).Some?
    ensures forall stored: seq<byte> :: ParseRouteKey(stored) != Success(WildcardFor(host).value)
  {
    hide Split, ParseRouteKey, IsIpv4Literal, IsHostname;
    var quad := [0x31, DOT, 0x32, DOT, 0x33, DOT, 0x34];
    assert host.text == [0x61] + [DOT] + quad;
    FirstDotUnique([0x61], quad);
    SplitQuad(0x31, 0x32, 0x33, 0x34);
    LabelBeforeQuad(host);
    assert quad[1] == DOT;
    assert (WILDCARD_PREFIX + quad)[2..] == quad;
    CandidateKeysParseBack(host);
  }
}
