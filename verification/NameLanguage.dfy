/** Which texts parse as hostnames and as route keys, and why the others do not (crates/sni_router/src/lookup/types.rs). */
module NameLanguage {
  import opened Wrappers
  import opened Bytes
  import opened Names

  // ----- Labels -------------------------------------------------------------

  function Joined(labels: seq<seq<byte>>): seq<byte>
    requires labels != []
  {
    if |labels| == 1 then labels[0] else labels[0] + [DOT] + Joined(labels[1..])
  }

  ghost predicate AreLabels(labels: seq<seq<byte>>) {
    labels != [] && forall i :: 0 <= i < |labels| ==> DOT !in labels[i]
  }

  lemma JoinedHasDots(labels: seq<seq<byte>>)
    ensures AreLabels(labels) ==> (DOT in Joined(labels) <==> |labels| > 1)
  {
    if AreLabels(labels) && |labels| > 1 {
      assert Joined(labels)[|labels[0]|] == DOT;
    }
  }

  /** Splitting is the only way to write a text as dot-free labels with dots between. */
  lemma {:induction false} SplitExactly(s: seq<byte>, labels: seq<seq<byte>>)
    ensures Split(s) == labels <==> AreLabels(labels) && Joined(labels) == s
    decreases |s| + |labels|
  {
    match SplitOnce(s)
    case None =>
      SplitWithoutDot(s);
      JoinedHasDots(labels);
    case Some((piece, rest)) =>
      SplitAtDot(piece, rest);
      if Split(s) == labels {
        SplitExactly(rest, labels[1..]);
        assert Split(rest) == labels[1..];
      }
      if AreLabels(labels) && Joined(labels) == s {
        JoinedHasDots(labels);
        if |labels| > 1 {
          FirstDotUnique(labels[0], Joined(labels[1..]));
          SplitExactly(rest, labels[1..]);
          assert labels == [piece] + labels[1..];
        }
      }
  }

  // ----- IPv4 literals ---------------------------------------------------------

  /** A number below 1000 in decimal, without leading zeros. */
  function Decimal(n: nat): seq<byte>
    requires n < 1000
  {
    if n < 10 then [0x30 + n]
    else if n < 100 then [0x30 + n / 10, 0x30 + n % 10]
    else [0x30 + n / 100, 0x30 + n / 10 % 10, 0x30 + n % 10]
  }

  lemma DecimalValues(digits: seq<byte>)
    requires 1 <= |digits| <= 3
    ensures |digits| == 1 ==> DecimalValue(digits) == digits[0] as int - 0x30
    ensures |digits| == 2 ==> DecimalValue(digits) == (digits[0] as int - 0x30) * 10 + digits[1] as int - 0x30
    ensures |digits| == 3 ==>
              DecimalValue(digits) == (digits[0] as int - 0x30) * 100 + (digits[1] as int - 0x30) * 10 + digits[2] as int - 0x30
  {
    assert digits[..1][..0] == [];
    assert DecimalValue(digits[..1]) == digits[0] as int - 0x30;
    if |digits| >= 2 {
      assert digits[..2][..1] == digits[..1];
      assert DecimalValue(digits[..2]) == (digits[0] as int - 0x30) * 10 + digits[1] as int - 0x30;
    }
    assert digits[..|digits|] == digits;
  }

  /** An octet is what prints a number below 256. */
  lemma OctetExactly(digits: seq<byte>)
    ensures IsOctet(digits) <==> exists n: nat :: n < 256 && digits == Decimal(n)
  {
    if IsOctet(digits) {
      OctetPrints(digits);
    }
    if n: nat :| n < 256 && digits == Decimal(n) {
      PrintedOctet(n);
    }
  }

  lemma PrintedOctet(n: nat)
    requires n < 256
    ensures IsOctet(Decimal(n))
  {
    hide DecimalValue;
    DecimalValues(Decimal(n));
  }

  lemma OctetPrints(digits: seq<byte>)
    requires IsOctet(digits)
    ensures 0 <= DecimalValue(digits) < 256 && digits == Decimal(DecimalValue(digits))
  {
    DecimalValues(digits);
    hide DecimalValue;
    var first := digits[0] as int - 0x30;
    if |digits| == 1 {
      assert DecimalValue(digits) == first;
    } else if |digits| == 2 {
      TwoDigits(first, digits[1] as int - 0x30);
    } else {
      ThreeDigits(first, digits[1] as int - 0x30, digits[2] as int - 0x30);
    }
  }

  lemma TwoDigits(tens: nat, ones: nat)
    requires 1 <= tens < 10 && ones < 10
    ensures var n := tens * 10 + ones; 10 <= n < 100 && n / 10 == tens && n % 10 == ones
  {
  }

  lemma ThreeDigits(hundreds: nat, tens: nat, ones: nat)
    requires 1 <= hundreds < 10 && tens < 10 && ones < 10
    ensures var n := hundreds * 100 + tens * 10 + ones;
            100 <= n < 1000 && n / 100 == hundreds && n / 10 % 10 == tens && n % 10 == ones
  {
    var n := hundreds * 100 + tens * 10 + ones;
    assert n / 10 == hundreds * 10 + tens;
  }

  function Quad(a: seq<byte>, b: seq<byte>, c: seq<byte>, d: seq<byte>): seq<byte> {
    a + [DOT] + (b + [DOT] + (c + [DOT] + d))
  }

  /** Text that prints four numbers below 256 with dots between them. */
  ghost predicate PrintsQuad(name: seq<byte>, n: seq<nat>) {
    && |n| == 4 && (forall i :: 0 <= i < 4 ==> n[i] < 256)
    && name == Quad(Decimal(n[0]), Decimal(n[1]), Decimal(n[2]), Decimal(n[3]))
  }

  /** The IPv4 literals are exactly the printed forms of four numbers below 256. */
  lemma Ipv4Exactly(name: seq<byte>)
    ensures IsIpv4Literal(name) <==> exists n :: PrintsQuad(name, n)
  {
    if IsIpv4Literal(name) {
      var n := ParsedQuad(name);
    }
    if n :| PrintsQuad(name, n) {
      PrintedQuad(name, n);
    }
  }

  lemma ParsedQuad(name: seq<byte>) returns (n: seq<nat>)
    requires IsIpv4Literal(name)
    ensures PrintsQuad(name, n)
  {
    var parts := Split(name);
    SplitExactly(name, parts);
    OctetPrints(parts[0]);
    OctetPrints(parts[1]);
    OctetPrints(parts[2]);
    OctetPrints(parts[3]);
    hide Decimal, DecimalValue, IsOctet, Joined, Split;
    FourJoined(parts);
    n := [DecimalValue(parts[0]), DecimalValue(parts[1]), DecimalValue(parts[2]), DecimalValue(parts[3])];
  }

  lemma PrintedQuad(name: seq<byte>, n: seq<nat>)
    requires PrintsQuad(name, n)
    ensures IsIpv4Literal(name)
  {
    var parts := seq(4, i requires 0 <= i < 4 => Decimal(n[i]));
    hide Decimal, IsOctet, Joined, Split;
    forall i | 0 <= i < 4 ensures IsOctet(parts[i]) && DOT !in parts[i] {
      OctetExactly(parts[i]);
      NoDots(n[i]);
    }
    FourJoined(parts);
    SplitExactly(name, parts);
  }

  lemma NoDots(n: nat)
    requires n < 1000
    ensures DOT !in Decimal(n)
  {
  }

  lemma FourJoined(parts: seq<seq<byte>>)
    requires |parts| == 4
    ensures Joined(parts) == Quad(parts[0], parts[1], parts[2], parts[3])
  {
    assert Joined(parts[3..]) == parts[3];
    assert parts[2..][1..] == parts[3..];
    assert Joined(parts[2..]) == parts[2] + [DOT] + parts[3];
    assert parts[1..][1..] == parts[2..];
    assert Joined(parts[1..]) == parts[1] + [DOT] + Joined(parts[2..]);
  }

  // ----- Hostnames -------------------------------------------------------------

  /** What a hostname looks like, in terms of positions. */
  ghost predicate IsHostText(text: seq<byte>) {
    |text| <= MAX_NAME_LEN && IsDotted(text) && !IsIpv4Literal(text)
  }

  lemma HostnameLanguage(text: seq<byte>, host: Hostname)
    ensures ParseHostname(text) == Success(host) <==> host.text == Lower(text) && IsHostText(host.text)
  {
    hide IsDotted, IsIpv4Literal, ValidateDnsName;
    ValidNamesExactly(Lower(text));
  }

  /** The first label that is wrong, and what is wrong with it. */
  ghost predicate FirstBadLabel(labels: seq<seq<byte>>, i: nat, error: NameError) {
    && i < |labels|
    && (forall j :: 0 <= j < i ==> IsGoodLabel(labels[j]))
    && match error
       case EmptyLabel => labels[i] == []
       case LabelTooLong => |labels[i]| > MAX_LABEL_LEN
       case InvalidCharacter => 1 <= |labels[i]| <= MAX_LABEL_LEN && exists b :: b in labels[i] && !IsNameByte(b)
       case _ => false
  }

  ghost predicate HasBadLabel(labels: seq<seq<byte>>, error: NameError) {
    exists i: nat :: FirstBadLabel(labels, i, error)
  }

  ghost predicate IsGoodLabel(piece: seq<byte>) {
    1 <= |piece| <= MAX_LABEL_LEN && forall b :: b in piece ==> IsNameByte(b)
  }

  lemma LabelIsGood(piece: seq<byte>)
    ensures CheckLabel(piece).Pass? <==> IsGoodLabel(piece)
    ensures forall error :: CheckLabel(piece) == Fail(error) <==> FirstBadLabel([piece], 0, error)
  {
    assert forall i :: 0 <= i < |piece| ==> piece[i] in piece;
  }

  lemma {:induction false} LabelErrors(labels: seq<seq<byte>>, error: NameError)
    ensures CheckLabels(labels) == Fail(error) <==> HasBadLabel(labels, error)
    ensures HasBadLabel(labels, error) ==> error in {EmptyLabel, LabelTooLong, InvalidCharacter}
  {
    if labels != [] {
      LabelIsGood(labels[0]);
      LabelErrors(labels[1..], error);
      if CheckLabels(labels) == Fail(error) {
        if CheckLabel(labels[0]).Pass? {
          var i: nat :| FirstBadLabel(labels[1..], i, error);
          assert forall j :: 0 < j <= i ==> labels[j] == labels[1..][j - 1];
          assert FirstBadLabel(labels, i + 1, error);
        } else {
          assert FirstBadLabel(labels, 0, error);
        }
      }
      if i: nat :| FirstBadLabel(labels, i, error) {
        if i == 0 {
          assert FirstBadLabel([labels[0]], 0, error);
        } else {
          assert forall j :: 0 < j <= i ==> labels[j] == labels[1..][j - 1];
          assert IsGoodLabel(labels[0]) && FirstBadLabel(labels[1..], i - 1, error);
        }
      }
    }
  }

  /** What is wrong with a text that is no hostname. */
  ghost predicate IsRefused(text: seq<byte>, error: NameError) {
    match error
    case Empty => text == []
    case TooLong => |text| > MAX_NAME_LEN
    case IpLiteral => |text| <= MAX_NAME_LEN && IsDotted(Lower(text)) && IsIpv4Literal(Lower(text))
    case InvalidWildcard => false
    case EmptyLabel => 1 <= |text| <= MAX_NAME_LEN && HasBadLabel(Split(Lower(text)), error)
    case LabelTooLong => 1 <= |text| <= MAX_NAME_LEN && HasBadLabel(Split(Lower(text)), error)
    case InvalidCharacter => 1 <= |text| <= MAX_NAME_LEN && HasBadLabel(Split(Lower(text)), error)
  }

  /** Every reason for refusing a hostname, exactly. */
  lemma HostnameErrors(text: seq<byte>, error: NameError)
    ensures ParseHostname(text) == Failure(error) <==> IsRefused(text, error)
  {
    hide IsDotted, IsIpv4Literal, CheckLabels, Split, FirstBadLabel;
    ValidNamesExactly(Lower(text));
    LabelErrors(Split(Lower(text)), error);
  }

  // ----- Route keys ---------------------------------------------------------------

  /** The route keys a text can stand for: its lowered self, exact or wildcard. */
  lemma RouteKeyLanguage(text: seq<byte>, key: RouteKey)
    ensures ParseRouteKey(text) == Success(key) <==>
            && key.text == Lower(text)
            && if key.wildcard
               then WILDCARD_PREFIX <= key.text && IsHostText(key.text[2..]) && DOT in key.text[2..]
               else IsHostText(key.text)
  {
    var lowered := Lower(text);
    LowerTwice(text);
    if WILDCARD_PREFIX <= lowered {
      var parent := lowered[2..];
      LoweredTail(text);
      HostnameLanguage(parent, Hostname(parent));
      assert lowered[0] == STAR;
      StarIsNoHost(lowered);
    } else {
      HostnameLanguage(lowered, Hostname(lowered));
      if STAR in lowered {
        StarIsNoHost(lowered);
      }
    }
  }

  lemma LoweredTail(text: seq<byte>)
    requires |text| >= 2
    ensures Lower(Lower(text)[2..]) == Lower(text)[2..]
  {
  }

  lemma StarIsNoHost(text: seq<byte>)
    requires STAR in text
    ensures !IsHostText(text)
  {
    var i :| 0 <= i < |text| && text[i] == STAR;
  }

  /** Why a text is no route key. A misplaced `*` is always an invalid wildcard. */
  lemma RouteKeyErrors(text: seq<byte>, error: NameError)
    ensures var lowered := Lower(text);
            ParseRouteKey(text) == Failure(error) <==>
            if WILDCARD_PREFIX <= lowered then
              if error.InvalidWildcard? then
                || ParseHostname(lowered[2..]) == Failure(InvalidCharacter)
                || (IsHostText(lowered[2..]) && DOT !in lowered[2..])
              else !error.InvalidCharacter? && ParseHostname(lowered[2..]) == Failure(error)
            else if STAR in lowered then error.InvalidWildcard?
            else ParseHostname(text) == Failure(error)
  {
    hide IsHostText, FirstBadLabel;
    var lowered := Lower(text);
    HostnameParsing(text, lowered);
    LowerTwice(text);
    if WILDCARD_PREFIX <= lowered {
      LoweredTail(text);
      HostnameLanguage(lowered[2..], Hostname(lowered[2..]));
      HostnameErrors(lowered[2..], InvalidWildcard);
    } else {
      HostnameErrors(lowered, error);
    }
  }
}
