/**
 Exactly when the parser gives each of its answers other than success, in terms of the
 records a buffer starts with (crates/sni_router/src/protocol/record.rs).
 */
module Verdicts {
  import opened Wrappers
  import opened Bytes
  import opened Protocol
  import opened Hello
  import opened HelloErrors
  import opened Records

  // ----- What a buffer starts with --------------------------------------------------

  /** Payload bytes that may be those of a hello within the limits. */
  ghost predicate MayBeHello(message: seq<byte>, limits: HelloLimits) {
    && (message != [] ==> message[0] == HANDSHAKE_TYPE_CLIENT_HELLO)
    && (|message| >= HANDSHAKE_HEADER_LEN ==> DeclaredLen(message) <= limits.maxHandshakeBytes)
  }

  /** The same, and not yet all of it. */
  ghost predicate IsOpening(message: seq<byte>, limits: HelloLimits) {
    && MayBeHello(message, limits)
    && (|message| >= HANDSHAKE_HEADER_LEN ==> |message| < HANDSHAKE_HEADER_LEN + DeclaredLen(message))
  }

  /** The buffer is whole records of an unfinished hello, within the limits, and then `rest`. */
  ghost predicate Opens(buf: seq<byte>, records: seq<Record>, rest: seq<byte>, limits: HelloLimits) {
    && AreRecords(records) && |records| <= limits.maxRecords
    && buf == Wire(records) + rest && IsOpening(Payload(records), limits)
  }

  /** Nothing wrong is visible yet in a piece of a record header. */
  ghost predicate IsHeaderPiece(rest: seq<byte>) {
    && (rest != [] ==> rest[0] == CONTENT_TYPE_HANDSHAKE)
    && (|rest| >= 2 ==> rest[1] == RECORD_VERSION_MAJOR)
  }

  /** A whole header of a handshake record, and the length it gives. */
  ghost predicate IsHeader(rest: seq<byte>, len: nat) {
    && |rest| >= RECORD_HEADER_LEN && IsHeaderPiece(rest)
    && len == U16From(rest[3], rest[4])
  }

  ghost predicate IsCutShort(rest: seq<byte>, message: seq<byte>, hasRoom: bool, limits: HelloLimits) {
    if |rest| < RECORD_HEADER_LEN then IsHeaderPiece(rest)
    else
      && hasRoom
      && exists len: nat :: IsHeader(rest, len) && 1 <= len <= MAX_RECORD_PAYLOAD && |rest| < RECORD_HEADER_LEN + len
                         && MayBeHello(message + rest[RECORD_HEADER_LEN..], limits)
  }

  ghost predicate IsBadRecord(rest: seq<byte>, first: bool) {
    || (!first && rest != [] && rest[0] != CONTENT_TYPE_HANDSHAKE)
    || (|rest| >= 2 && rest[0] == CONTENT_TYPE_HANDSHAKE && rest[1] != RECORD_VERSION_MAJOR)
    || IsHeader(rest, 0)
    || exists len: nat :: IsHeader(rest, len) && len > MAX_RECORD_PAYLOAD
  }

  /** One record too many, or one that lets a length over the limit be seen. */
  ghost predicate IsTooMuch(rest: seq<byte>, message: seq<byte>, hasRoom: bool, limits: HelloLimits) {
    exists len: nat ::
      && IsHeader(rest, len) && 1 <= len <= MAX_RECORD_PAYLOAD
      && (!hasRoom
          || var visible := message + rest[RECORD_HEADER_LEN..if RECORD_HEADER_LEN + len <= |rest| then RECORD_HEADER_LEN + len else |rest|];
             && |visible| >= HANDSHAKE_HEADER_LEN && visible[0] == HANDSHAKE_TYPE_CLIENT_HELLO
             && DeclaredLen(visible) > limits.maxHandshakeBytes)
  }

  ghost predicate IsOtherMessage(rest: seq<byte>, message: seq<byte>, hasRoom: bool) {
    && hasRoom && message == [] && |rest| > RECORD_HEADER_LEN && rest[RECORD_HEADER_LEN] != HANDSHAKE_TYPE_CLIENT_HELLO
    && exists len: nat :: IsHeader(rest, len) && 1 <= len <= MAX_RECORD_PAYLOAD
  }

  /** What the rest after an unfinished hello's records is answered with. */
  ghost predicate Stops(rest: seq<byte>, message: seq<byte>, first: bool, hasRoom: bool, error: ParseError, limits: HelloLimits) {
    match error
    case Incomplete => IsCutShort(rest, message, hasRoom, limits)
    case NotHandshake => first && rest != [] && rest[0] != CONTENT_TYPE_HANDSHAKE
    case InvalidRecord => IsBadRecord(rest, first)
    case TooLarge => IsTooMuch(rest, message, hasRoom, limits)
    case NotClientHello => IsOtherMessage(rest, message, hasRoom)
    case _ => false
  }

  // ----- One step --------------------------------------------------------------------

  lemma OpeningsObserved(message: seq<byte>, limits: HelloLimits)
    ensures MayBeHello(message, limits) <==> Observe(message, limits).Success?
    ensures IsOpening(message, limits) <==> MayBeHello(message, limits) && !Done(message)
    ensures Observe(message, limits) == Failure(NotClientHello) <==>
            message != [] && message[0] != HANDSHAKE_TYPE_CLIENT_HELLO
    ensures Observe(message, limits) == Failure(TooLarge) <==>
            && |message| >= HANDSHAKE_HEADER_LEN && message[0] == HANDSHAKE_TYPE_CLIENT_HELLO
            && DeclaredLen(message) > limits.maxHandshakeBytes
    ensures Observe(message, limits).Failure? ==> Observe(message, limits).error in {NotClientHello, TooLarge}
  {
  }

  lemma HeadersChecked(header: seq<byte>, first: bool)
    ensures CheckPartialHeader(header, first).Pass? <==> IsHeaderPiece(header)
    ensures CheckPartialHeader(header, first) == Fail(NotHandshake) <==>
            first && header != [] && header[0] != CONTENT_TYPE_HANDSHAKE
    ensures CheckPartialHeader(header, first) == Fail(InvalidRecord) <==>
            || (!first && header != [] && header[0] != CONTENT_TYPE_HANDSHAKE)
            || (|header| >= 2 && header[0] == CONTENT_TYPE_HANDSHAKE && header[1] != RECORD_VERSION_MAJOR)
    ensures CheckPartialHeader(header, first).Fail? ==>
              CheckPartialHeader(header, first).error in {NotHandshake, InvalidRecord}
  {
  }

  /** A rest that does not start with a further whole record of an unfinished hello. */
  ghost predicate IsLast(rest: seq<byte>, message: seq<byte>, hasRoom: bool, limits: HelloLimits) {
    forall record, after ::
      IsRecord(record) && rest == EncodeRecord(record) + after ==> !hasRoom || !IsOpening(message + record.payload, limits)
  }

  /** A short rest: what is visible of a header decides. */
  lemma ShortRest(rest: seq<byte>, at: nat, message: seq<byte>, count: nat, error: ParseError, limits: HelloLimits)
    requires |rest| < RECORD_HEADER_LEN
    ensures Scan(rest, at, message, count, limits) == Failure(error) <==>
            Stops(rest, message, at == 0, count != limits.maxRecords, error, limits)
  {
    hide Scan;
    ScanShort(rest, at, message, count, limits);
    HeadersChecked(rest, at == 0);
  }

  /** A whole header that is wrong, or says nothing a record can be. */
  lemma BadHeader(rest: seq<byte>, at: nat, message: seq<byte>, count: nat, error: ParseError, limits: HelloLimits)
    requires |rest| >= RECORD_HEADER_LEN
    requires !IsHeaderPiece(rest) || !(1 <= U16From(rest[3], rest[4]) <= MAX_RECORD_PAYLOAD)
    ensures Scan(rest, at, message, count, limits) == Failure(error) <==>
            Stops(rest, message, at == 0, count != limits.maxRecords, error, limits)
  {
    ScanStep(rest, at, message, count, limits);
    hide Scan, U16From, DeclaredLen, MayBeHello, Observe;
    HeadersChecked(rest[..RECORD_HEADER_LEN], at == 0);
    assert IsHeaderPiece(rest) ==> IsHeader(rest, U16From(rest[3], rest[4]));
  }

  /** What of a headed record is visible. */
  function Visible(rest: seq<byte>, len: nat): seq<byte>
    requires |rest| >= RECORD_HEADER_LEN
  {
    rest[RECORD_HEADER_LEN..if RECORD_HEADER_LEN + len <= |rest| then RECORD_HEADER_LEN + len else |rest|]
  }

  /** The walk at a good header, without its record's bytes. */
  lemma GoodHeaderScan(rest: seq<byte>, at: nat, message: seq<byte>, count: nat, limits: HelloLimits, len: nat)
    requires IsHeader(rest, len) && 1 <= len <= MAX_RECORD_PAYLOAD
    ensures var seen := message + Visible(rest, len);
            Scan(rest, at, message, count, limits) ==
            if count == limits.maxRecords then Failure(TooLarge)
            else if Observe(seen, limits).Failure? then Failure(Observe(seen, limits).error)
            else if |rest| < RECORD_HEADER_LEN + len then Failure(Incomplete)
            else if Done(seen) then Success(Layout(seen, at + RECORD_HEADER_LEN + len))
            else Scan(rest[RECORD_HEADER_LEN + len..], at + RECORD_HEADER_LEN + len, seen, count + 1, limits)
  {
    hide Scan, Observe, Done, CheckHeader, IsHeader;
    GoodHeaderChecked(rest, len, at == 0);
    ScanStep(rest, at, message, count, limits);
  }

  lemma GoodHeaderChecked(rest: seq<byte>, len: nat, first: bool)
    requires IsHeader(rest, len) && 1 <= len <= MAX_RECORD_PAYLOAD
    ensures |rest| >= RECORD_HEADER_LEN && CheckHeader(rest[..RECORD_HEADER_LEN], first) == Success(len)
  {
    hide U16From;
    HeadersChecked(rest[..RECORD_HEADER_LEN], first);
  }

  /** What a rest with a good header stops with. */
  lemma GoodHeaderStops(rest: seq<byte>, message: seq<byte>, first: bool, hasRoom: bool, error: ParseError, limits: HelloLimits, len: nat)
    requires IsHeader(rest, len) && 1 <= len <= MAX_RECORD_PAYLOAD && IsOpening(message, limits)
    ensures var seen := message + Visible(rest, len);
            Stops(rest, message, first, hasRoom, error, limits) <==>
            if !hasRoom then error == TooLarge
            else if Observe(seen, limits).Failure? then error == Observe(seen, limits).error
            else error == Incomplete && |rest| < RECORD_HEADER_LEN + len
  {
    var seen := message + Visible(rest, len);
    OpeningsObserved(message, limits);
    OpeningsObserved(seen, limits);
    hide U16From, Observe, DeclaredLen;
    assert message != [] ==> seen[0] == message[0];
    assert message == [] && |rest| > RECORD_HEADER_LEN ==> seen[0] == rest[RECORD_HEADER_LEN];
    assert |rest| < RECORD_HEADER_LEN + len ==> Visible(rest, len) == rest[RECORD_HEADER_LEN..];
  }

  /** A rest is answered for what it stops with, unless a further record goes on. */
  lemma RestStops(rest: seq<byte>, at: nat, message: seq<byte>, count: nat, error: ParseError, limits: HelloLimits)
    requires IsOpening(message, limits) && IsLast(rest, message, count != limits.maxRecords, limits)
    ensures Scan(rest, at, message, count, limits) == Failure(error) <==>
            Stops(rest, message, at == 0, count != limits.maxRecords, error, limits)
  {
    if |rest| < RECORD_HEADER_LEN {
      ShortRest(rest, at, message, count, error, limits);
    } else if IsHeaderPiece(rest) && 1 <= U16From(rest[3], rest[4]) <= MAX_RECORD_PAYLOAD {
      var len := U16From(rest[3], rest[4]);
      GoodHeaderScan(rest, at, message, count, limits, len);
      GoodHeaderStops(rest, message, at == 0, count != limits.maxRecords, error, limits, len);
      hide Scan, Observe, Stops, U16From;
      OpeningsObserved(message + Visible(rest, len), limits);
      if RECORD_HEADER_LEN + len <= |rest| {
        WholeRecord(rest, len);
      }
    } else {
      BadHeader(rest, at, message, count, error, limits);
    }
  }

  /** What stops does not go on. */
  lemma StoppedIsLast(rest: seq<byte>, message: seq<byte>, first: bool, hasRoom: bool, error: ParseError, limits: HelloLimits)
    requires Stops(rest, message, first, hasRoom, error, limits) && IsOpening(message, limits)
    ensures IsLast(rest, message, hasRoom, limits)
  {
    forall record, after | IsRecord(record) && rest == EncodeRecord(record) + after
      ensures !hasRoom || !IsOpening(message + record.payload, limits)
    {
      var len := |record.payload|;
      EncodedHeader(record, after);
      GoodHeaderStops(rest, message, first, hasRoom, error, limits, len);
      OpeningsObserved(message + record.payload, limits);
    }
  }

  lemma EncodedHeader(record: Record, after: seq<byte>)
    requires IsRecord(record)
    ensures var rest := EncodeRecord(record) + after;
            && IsHeader(rest, |record.payload|) && RECORD_HEADER_LEN + |record.payload| <= |rest|
            && Visible(rest, |record.payload|) == record.payload
            && rest[RECORD_HEADER_LEN + |record.payload|..] == after
  {
    var rest := EncodeRecord(record) + after;
    assert rest[..RECORD_HEADER_LEN] ==
           [CONTENT_TYPE_HANDSHAKE, RECORD_VERSION_MAJOR, record.minor] + U16Bytes(|record.payload|);
    assert rest[3] == rest[..RECORD_HEADER_LEN][3] && rest[4] == rest[..RECORD_HEADER_LEN][4];
  }

  lemma WholeRecord(rest: seq<byte>, len: nat)
    requires IsHeader(rest, len) && 1 <= len <= MAX_RECORD_PAYLOAD && RECORD_HEADER_LEN + len <= |rest|
    ensures var record := Record(rest[2], rest[RECORD_HEADER_LEN..RECORD_HEADER_LEN + len]);
            IsRecord(record) && rest == EncodeRecord(record) + rest[RECORD_HEADER_LEN + len..]
  {
    U16RoundTrip(rest[3], rest[4]);
    hide U16From, U16Bytes;
    var payload := rest[RECORD_HEADER_LEN..RECORD_HEADER_LEN + len];
    assert rest == rest[..RECORD_HEADER_LEN] + payload + rest[RECORD_HEADER_LEN + len..];
    assert rest[..RECORD_HEADER_LEN] == [rest[0], rest[1], rest[2]] + [rest[3], rest[4]];
  }

  // ----- The walk -------------------------------------------------------------------------

  lemma OpeningPrefix(message: seq<byte>, more: seq<byte>, limits: HelloLimits)
    requires IsOpening(message + more, limits)
    ensures IsOpening(message, limits)
  {
    OpeningsObserved(message, limits);
    OpeningsObserved(message + more, limits);
    PrefixesAgree(message, more, limits);
  }

  /** Records of an unfinished hello are walked over. */
  lemma {:induction false} WalkedOver(records: seq<Record>, rest: seq<byte>, at: nat, seen: seq<byte>, count: nat, limits: HelloLimits)
    requires AreRecords(records) && count + |records| <= limits.maxRecords
    requires IsOpening(seen + Payload(records), limits)
    ensures Scan(Wire(records) + rest, at, seen, count, limits) ==
            Scan(rest, at + |Wire(records)|, seen + Payload(records), count + |records|, limits)
    decreases |records|
  {
    hide Scan, IsOpening, EncodeRecord;
    if records == [] {
      assert Wire(records) + rest == rest && seen + Payload(records) == seen;
    } else {
      var record, others := records[0], records[1..];
      FirstOnWire(records, rest, seen);
      ScanRecord(record, Wire(others) + rest, at, seen, count, limits);
      OpeningPrefix(seen + record.payload, Payload(others), limits);
      OpeningsObserved(seen + record.payload, limits);
      WalkedOver(others, rest, at + |EncodeRecord(record)|, seen + record.payload, count + 1, limits);
    }
  }

  /** The walk ends at the first rest that does not go on. */
  lemma {:induction false} WalkEnds(rest: seq<byte>, seen: seq<byte>, count: nat, limits: HelloLimits)
    returns (records: seq<Record>, tail: seq<byte>)
    requires IsOpening(seen, limits) && count <= limits.maxRecords
    ensures AreRecords(records) && count + |records| <= limits.maxRecords && rest == Wire(records) + tail
    ensures IsOpening(seen + Payload(records), limits)
    ensures IsLast(tail, seen + Payload(records), count + |records| != limits.maxRecords, limits)
    decreases |rest|
  {
    hide IsOpening;
    if IsLast(rest, seen, count != limits.maxRecords, limits) {
      records, tail := [], rest;
      assert seen + Payload(records) == seen;
    } else {
      var record, after :| IsRecord(record) && rest == EncodeRecord(record) + after
                           && IsOpening(seen + record.payload, limits) && count != limits.maxRecords;
      var others;
      others, tail := WalkEnds(after, seen + record.payload, count + 1, limits);
      records := [record] + others;
      assert records[1..] == others;
      FirstOnWire(records, tail, seen);
    }
  }

  // ----- The answers ------------------------------------------------------------------------

  lemma WireOfSome(records: seq<Record>)
    requires AreRecords(records)
    ensures |Wire(records)| == 0 <==> records == []
  {
  }

  /** The records of a buffer's unfinished hello, and what stops them, if anything does. */
  ghost predicate StopsWith(buf: seq<byte>, error: ParseError, limits: HelloLimits) {
    exists records, rest ::
      Opens(buf, records, rest, limits)
      && Stops(rest, Payload(records), records == [], |records| < limits.maxRecords, error, limits)
  }

  /** At a rest that does not go on, the whole walk gives up exactly for what stops it. */
  lemma WalkStopsThere(buf: seq<byte>, records: seq<Record>, rest: seq<byte>, error: ParseError, limits: HelloLimits)
    requires Opens(buf, records, rest, limits) && IsLast(rest, Payload(records), |records| != limits.maxRecords, limits)
    ensures Scan(buf, 0, [], 0, limits) == Failure(error) <==>
            Stops(rest, Payload(records), records == [], |records| < limits.maxRecords, error, limits)
  {
    hide Scan, Stops, IsOpening, IsLast, Wire, Payload;
    assert [] + Payload(records) == Payload(records);
    WireOfSome(records);
    WalkedOver(records, rest, 0, [], 0, limits);
    RestStops(rest, |Wire(records)|, Payload(records), |records|, error, limits);
  }

  /**
   Why a walk gives up, for every reason and every buffer: exactly when whole records of an
   unfinished hello are followed by what the reason describes.
   */
  lemma WalkStopsExactly(buf: seq<byte>, error: ParseError, limits: HelloLimits)
    ensures Scan(buf, 0, [], 0, limits) == Failure(error) <==> StopsWith(buf, error, limits)
  {
    hide Scan, Stops, IsOpening, IsLast, Wire, Payload;
    if Scan(buf, 0, [], 0, limits) == Failure(error) {
      var records, rest := OpeningOf(buf, limits);
      WalkStopsThere(buf, records, rest, error, limits);
    }
    if records, rest :|
      Opens(buf, records, rest, limits)
      && Stops(rest, Payload(records), records == [], |records| < limits.maxRecords, error, limits)
    {
      StoppedIsLast(rest, Payload(records), records == [], |records| < limits.maxRecords, error, limits);
      WalkStopsThere(buf, records, rest, error, limits);
    }
  }

  /** Every buffer starts with the records of an unfinished hello, none perhaps, and then does not go on. */
  lemma OpeningOf(buf: seq<byte>, limits: HelloLimits) returns (records: seq<Record>, rest: seq<byte>)
    ensures Opens(buf, records, rest, limits)
    ensures IsLast(rest, Payload(records), |records| != limits.maxRecords, limits)
  {
    hide IsLast;
    assert IsOpening([], limits);
    records, rest := WalkEnds(buf, [], 0, limits);
    assert [] + Payload(records) == Payload(records);
  }

  /** The errors of the walk, for every buffer: none of them has another cause. */
  lemma WalkErrorsExactly(buf: seq<byte>, error: ParseError, limits: HelloLimits)
    requires !IsBodyError(error)
    ensures ParseHello(buf, limits) == Failure(error) <==> StopsWith(buf, error, limits)
  {
    hide Scan, ParseBody, StopsWith;
    WalkStopsExactly(buf, error, limits);
    var scanned := Scan(buf, 0, [], 0, limits);
    if scanned.Success? {
      BodyErrorKinds(BodyOf(scanned.value.payload));
    }
  }

  /** The parser asks for more exactly when the buffer ends within an acceptable start of a hello. */
  lemma IncompleteExactly(buf: seq<byte>, limits: HelloLimits)
    ensures ParseHello(buf, limits) == Failure(Incomplete) <==>
            exists records, rest ::
              Opens(buf, records, rest, limits)
              && IsCutShort(rest, Payload(records), |records| < limits.maxRecords, limits)
  {
    hide ParseHello, IsCutShort;
    WalkErrorsExactly(buf, Incomplete, limits);
  }

  /** Anything that is no handshake record is refused at its first byte, and nothing else is refused so. */
  lemma NotHandshakeExactly(buf: seq<byte>, limits: HelloLimits)
    ensures ParseHello(buf, limits) == Failure(NotHandshake) <==> buf != [] && buf[0] != CONTENT_TYPE_HANDSHAKE
  {
    hide ParseHello;
    WalkErrorsExactly(buf, NotHandshake, limits);
    if buf != [] && buf[0] != CONTENT_TYPE_HANDSHAKE {
      assert Wire([]) + buf == buf;
      assert Opens(buf, [], buf, limits);
    }
  }

  lemma SomePayload(records: seq<Record>)
    requires AreRecords(records)
    ensures Payload(records) == [] <==> records == []
  {
    assert records != [] ==> IsRecord(records[0]);
  }

  /** Another handshake message is refused at its first byte, and nothing else is refused so. */
  lemma NotClientHelloExactly(buf: seq<byte>, limits: HelloLimits)
    ensures ParseHello(buf, limits) == Failure(NotClientHello) <==>
            && limits.maxRecords > 0 && |buf| > RECORD_HEADER_LEN
            && buf[0] == CONTENT_TYPE_HANDSHAKE && buf[1] == RECORD_VERSION_MAJOR
            && 1 <= U16From(buf[3], buf[4]) <= MAX_RECORD_PAYLOAD
            && buf[RECORD_HEADER_LEN] != HANDSHAKE_TYPE_CLIENT_HELLO
  {
    hide ParseHello;
    WalkErrorsExactly(buf, NotClientHello, limits);
    if records, rest :|
      Opens(buf, records, rest, limits)
      && Stops(rest, Payload(records), records == [], |records| < limits.maxRecords, NotClientHello, limits)
    {
      SomePayload(records);
      assert rest == buf;
    }
    if |buf| > RECORD_HEADER_LEN && IsHeaderPiece(buf) {
      assert Wire([]) + buf == buf;
      assert Opens(buf, [], buf, limits);
      assert IsHeader(buf, U16From(buf[3], buf[4]));
    }
  }

  /** The buffer starts with these records, which are all of a hello whose body is refused. */
  ghost predicate RefusesBody(buf: seq<byte>, records: seq<Record>, error: ParseError, limits: HelloLimits) {
    && AreRecords(records) && |records| <= limits.maxRecords && Wire(records) <= buf
    && Carries([], records, limits)
    && Done(Payload(records)) && ParseBody(BodyOf(Payload(records))) == Failure(error)
  }

  /** The body parser's errors come through exactly when the buffer starts with all of a hello's records. */
  lemma BodyErrorsExactly(buf: seq<byte>, error: ParseError, limits: HelloLimits)
    requires IsBodyError(error)
    ensures ParseHello(buf, limits) == Failure(error) <==> exists records :: RefusesBody(buf, records, error, limits)
  {
    hide ParseHello, RefusesBody;
    if ParseHello(buf, limits) == Failure(error) {
      var records := RefusedBody(buf, error, limits);
    }
    if records :| RefusesBody(buf, records, error, limits) {
      BodyRefused(buf, records, error, limits);
    }
  }

  lemma BodyRefused(buf: seq<byte>, records: seq<Record>, error: ParseError, limits: HelloLimits)
    requires RefusesBody(buf, records, error, limits)
    ensures ParseHello(buf, limits) == Failure(error)
  {
    var tail := Behind(buf, records, error, limits);
    hide RefusesBody, ParseHello;
    WholeBodyRefused(records, tail, error, limits);
  }

  lemma Behind(buf: seq<byte>, records: seq<Record>, error: ParseError, limits: HelloLimits) returns (tail: seq<byte>)
    requires RefusesBody(buf, records, error, limits)
    ensures AreRecords(records) && buf == Wire(records) + tail
    ensures RefusesBody(Wire(records), records, error, limits)
  {
    hide ParseBody, Carries, Wire, Payload, Done, BodyOf, AreRecords;
    tail := buf[|Wire(records)|..];
  }

  lemma WholeBodyRefused(records: seq<Record>, tail: seq<byte>, error: ParseError, limits: HelloLimits)
    requires AreRecords(records) && RefusesBody(Wire(records), records, error, limits)
    ensures ParseHello(Wire(records) + tail, limits) == Failure(error)
  {
    hide ParseHello, ParseBody, Carries, Wire, Payload, Done, BodyOf;
    FragmentsReassemble(records, tail, limits);
  }

  lemma RefusedBody(buf: seq<byte>, error: ParseError, limits: HelloLimits) returns (records: seq<Record>)
    requires IsBodyError(error) && ParseHello(buf, limits) == Failure(error)
    ensures RefusesBody(buf, records, error, limits)
  {
    hide Scan, ParseBody, Carries, Wire, Stops;
    WalkStopsExactly(buf, error, limits);
    WalkStopsOnlySo(buf, error, limits);
    var tail;
    records, tail := ScannedIsCarried(buf, 0, [], 0, limits);
    CarriersAreRecords(records, limits);
    FragmentsReassemble(records, tail, limits);
  }

  lemma CarriersAreRecords(records: seq<Record>, limits: HelloLimits)
    requires Carries([], records, limits)
    ensures AreRecords(records)
  {
  }

  lemma WalkStopsOnlySo(buf: seq<byte>, error: ParseError, limits: HelloLimits)
    requires IsBodyError(error)
    ensures !StopsWith(buf, error, limits)
  {
  }
}
