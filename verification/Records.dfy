/**
 TLS record walking and handshake reassembly: what the parser answers on every
 buffer (crates/sni_router/src/protocol/record.rs), and the theorems about it.
 */
module Records {
  import opened Wrappers
  import opened Bytes
  import opened Protocol
  import opened Hello

  const CONTENT_TYPE_HANDSHAKE: byte := 0x16
  const HANDSHAKE_TYPE_CLIENT_HELLO: byte := 0x01
  const RECORD_VERSION_MAJOR: byte := 0x03

  /** A complete hello: every payload byte up to the end of its last record. */
  datatype Layout = Layout(payload: seq<byte>, consumed: nat)

  type Verdict = Result<ClientHelloInfo, ParseError>

  function CheckPartialHeader(header: seq<byte>, first: bool): Outcome<ParseError> {
    if |header| >= 1 && header[0] != CONTENT_TYPE_HANDSHAKE then
      Fail(if first then NotHandshake else InvalidRecord)
    else if |header| >= 2 && header[1] != RECORD_VERSION_MAJOR then Fail(InvalidRecord)
    else Pass
  }

  function CheckHeader(header: seq<byte>, first: bool): Result<nat, ParseError>
    requires |header| == RECORD_HEADER_LEN
  {
    if CheckPartialHeader(header, first).Fail? then Failure(CheckPartialHeader(header, first).error)
    else
      var len := U16From(header[3], header[4]);
      if len == 0 || len > MAX_RECORD_PAYLOAD then Failure(InvalidRecord) else Success(len)
  }

  /** The body length a handshake message declares. */
  function DeclaredLen(message: seq<byte>): nat
    requires |message| >= HANDSHAKE_HEADER_LEN
  {
    U24From(message[1], message[2], message[3])
  }

  /** What the message bytes seen so far say about its header. */
  function Observe(message: seq<byte>, limits: HelloLimits): Result<Option<nat>, ParseError> {
    if |message| >= 1 && message[0] != HANDSHAKE_TYPE_CLIENT_HELLO then Failure(NotClientHello)
    else if |message| < HANDSHAKE_HEADER_LEN then Success(None)
    else if DeclaredLen(message) > limits.maxHandshakeBytes then Failure(TooLarge)
    else Success(Some(DeclaredLen(message)))
  }

  predicate Done(message: seq<byte>) {
    |message| >= HANDSHAKE_HEADER_LEN && |message| >= HANDSHAKE_HEADER_LEN + DeclaredLen(message)
  }

  /** The handshake body inside a complete message. */
  function BodyOf(message: seq<byte>): seq<byte>
    requires Done(message)
  {
    message[HANDSHAKE_HEADER_LEN..HANDSHAKE_HEADER_LEN + DeclaredLen(message)]
  }

  /** Walks the records of `rest`, which starts `at` bytes into the buffer after payload bytes `seen`. */
  function Scan(rest: seq<byte>, at: nat, seen: seq<byte>, count: nat, limits: HelloLimits)
    : (r: Result<Layout, ParseError>)
    ensures r.Success? ==> Done(r.value.payload)
    decreases |rest|
  {
    if |rest| < RECORD_HEADER_LEN then
      match CheckPartialHeader(rest, at == 0)
      case Fail(error) => Failure(error)
      case Pass => Failure(Incomplete)
    else
      match CheckHeader(rest[..RECORD_HEADER_LEN], at == 0)
      case Failure(error) => Failure(error)
      case Success(len) =>
        if count == limits.maxRecords then Failure(TooLarge) else
        var end := RECORD_HEADER_LEN + len;
        var message := seen + rest[RECORD_HEADER_LEN..if end <= |rest| then end else |rest|];
        match Observe(message, limits)
        case Failure(error) => Failure(error)
        case Success(declared) =>
          if |rest| < end then Failure(Incomplete)
          else if Done(message) then Success(Layout(message, at + end))
          else Scan(rest[end..], at + end, message, count + 1, limits)
  }

  function Conclude(scanned: Result<Layout, ParseError>): Verdict
    requires scanned.Success? ==> Done(scanned.value.payload)
  {
    match scanned
    case Failure(error) => Failure(error)
    case Success(layout) =>
      match ParseBody(BodyOf(layout.payload))
      case Failure(error) => Failure(error)
      case Success(sni) => Success(ClientHelloInfo(sni, layout.consumed))
  }

  function ParseHello(buf: seq<byte>, limits: HelloLimits): Verdict {
    Conclude(Scan(buf, 0, [], 0, limits))
  }

  // ----- Records on the wire --------------------------------------------------

  datatype Record = Record(minor: byte, payload: seq<byte>)

  predicate IsRecord(record: Record) {
    1 <= |record.payload| <= MAX_RECORD_PAYLOAD
  }

  predicate AreRecords(records: seq<Record>) {
    forall i :: 0 <= i < |records| ==> IsRecord(records[i])
  }

  function EncodeRecord(record: Record): seq<byte>
    requires IsRecord(record)
  {
    [CONTENT_TYPE_HANDSHAKE, RECORD_VERSION_MAJOR, record.minor] + U16Bytes(|record.payload|) + record.payload
  }

  function Wire(records: seq<Record>): seq<byte>
    requires AreRecords(records)
  {
    if records == [] then [] else EncodeRecord(records[0]) + Wire(records[1..])
  }

  function Payload(records: seq<Record>): seq<byte> {
    if records == [] then [] else records[0].payload + Payload(records[1..])
  }

  ghost predicate StartsHello(message: seq<byte>, limits: HelloLimits) {
    && |message| >= HANDSHAKE_HEADER_LEN
    && message[0] == HANDSHAKE_TYPE_CLIENT_HELLO
    && DeclaredLen(message) <= limits.maxHandshakeBytes
  }

  /** After `seen`, these records complete a hello, and not before the last of them. */
  ghost predicate Carries(seen: seq<byte>, records: seq<Record>, limits: HelloLimits) {
    && records != [] && AreRecords(records)
    && StartsHello(seen + Payload(records), limits)
    && Done(seen + Payload(records))
    && !Done(seen + Payload(records[..|records| - 1]))
  }

  lemma PrefixesAgree(message: seq<byte>, more: seq<byte>, limits: HelloLimits)
    ensures Done(message) ==> Done(message + more)
    ensures StartsHello(message + more, limits) ==> Observe(message, limits).Success?
    ensures Observe(message, limits).Failure? ==> Observe(message + more, limits) == Observe(message, limits)
    ensures |message| >= HANDSHAKE_HEADER_LEN ==> Observe(message + more, limits) == Observe(message, limits)
  {
    if |message| >= HANDSHAKE_HEADER_LEN {
      assert DeclaredLen(message + more) == DeclaredLen(message);
    }
    if |message| >= 1 {
      assert (message + more)[0] == message[0];
    }
  }

  lemma ScanShort(rest: seq<byte>, at: nat, seen: seq<byte>, count: nat, limits: HelloLimits)
    requires |rest| < RECORD_HEADER_LEN
    ensures Scan(rest, at, seen, count, limits) ==
            Failure(if CheckPartialHeader(rest, at == 0).Fail? then CheckPartialHeader(rest, at == 0).error else Incomplete)
  {
  }

  /** One step of the walk on a buffer that starts with a whole record header. */
  lemma ScanStep(rest: seq<byte>, at: nat, seen: seq<byte>, count: nat, limits: HelloLimits)
    requires |rest| >= RECORD_HEADER_LEN
    ensures var header := CheckHeader(rest[..RECORD_HEADER_LEN], at == 0);
            if header.Failure? then Scan(rest, at, seen, count, limits) == Failure(header.error)
            else if count == limits.maxRecords then Scan(rest, at, seen, count, limits) == Failure(TooLarge)
            else
              var end := RECORD_HEADER_LEN + header.value;
              var message := seen + rest[RECORD_HEADER_LEN..if end <= |rest| then end else |rest|];
              Scan(rest, at, seen, count, limits) ==
              if Observe(message, limits).Failure? then Failure(Observe(message, limits).error)
              else if |rest| < end then Failure(Incomplete)
              else if Done(message) then Success(Layout(message, at + end))
              else Scan(rest[end..], at + end, message, count + 1, limits)
  {
  }

  /** One step of the walk on an encoded record. */
  lemma ScanRecord(record: Record, tail: seq<byte>, at: nat, seen: seq<byte>, count: nat, limits: HelloLimits)
    requires IsRecord(record)
    ensures Scan(EncodeRecord(record) + tail, at, seen, count, limits) ==
            if count == limits.maxRecords then Failure(TooLarge)
            else if Observe(seen + record.payload, limits).Failure? then
              Failure(Observe(seen + record.payload, limits).error)
            else if Done(seen + record.payload) then
              Success(Layout(seen + record.payload, at + |EncodeRecord(record)|))
            else Scan(tail, at + |EncodeRecord(record)|, seen + record.payload, count + 1, limits)
  {
    var rest := EncodeRecord(record) + tail;
    var header := rest[..RECORD_HEADER_LEN];
    var end := RECORD_HEADER_LEN + |record.payload|;
    assert header == [CONTENT_TYPE_HANDSHAKE, RECORD_VERSION_MAJOR, record.minor] + U16Bytes(|record.payload|);
    assert CheckHeader(header, at == 0) == Success(|record.payload|);
    assert rest[RECORD_HEADER_LEN..end] == record.payload;
    assert rest[end..] == tail;
  }

  lemma HeaderBytes(header: seq<byte>, first: bool)
    requires |header| == RECORD_HEADER_LEN && CheckHeader(header, first).Success?
    ensures header == [CONTENT_TYPE_HANDSHAKE, RECORD_VERSION_MAJOR, header[2]] + U16Bytes(CheckHeader(header, first).value)
    ensures 1 <= CheckHeader(header, first).value <= MAX_RECORD_PAYLOAD
  {
  }

  /** Whatever the walk accepts starts with an encoded record. */
  lemma FirstRecord(rest: seq<byte>, at: nat, seen: seq<byte>, count: nat, limits: HelloLimits)
    returns (record: Record, tail: seq<byte>)
    requires Scan(rest, at, seen, count, limits).Success?
    ensures IsRecord(record) && rest == EncodeRecord(record) + tail
  {
    hide Scan, CheckHeader, Observe, Done;
    if |rest| < RECORD_HEADER_LEN {
      ScanShort(rest, at, seen, count, limits);
    }
    ScanStep(rest, at, seen, count, limits);
    var header := rest[..RECORD_HEADER_LEN];
    var end := RECORD_HEADER_LEN + CheckHeader(header, at == 0).value;
    record, tail := Record(rest[2], rest[RECORD_HEADER_LEN..end]), rest[end..];
    HeaderBytes(header, at == 0);
    assert rest == header + rest[RECORD_HEADER_LEN..end] + rest[end..];
  }

  lemma ObserveDone(message: seq<byte>, limits: HelloLimits)
    requires Observe(message, limits).Success?
    ensures Done(message) <==>
            && Observe(message, limits).value.Some?
            && |message| >= HANDSHAKE_HEADER_LEN + Observe(message, limits).value.value
    ensures Done(message) ==> Observe(message, limits).value == Some(DeclaredLen(message))
  {
  }

  lemma CarriesCons(record: Record, others: seq<Record>, seen: seq<byte>, limits: HelloLimits)
    requires others != []
    ensures Carries(seen, [record] + others, limits) ==>
              IsRecord(record) && !Done(seen + record.payload) && Carries(seen + record.payload, others, limits)
    ensures IsRecord(record) && Carries(seen + record.payload, others, limits) ==>
              Carries(seen, [record] + others, limits)
  {
    var records := [record] + others;
    var front := others[..|others| - 1];
    assert records[1..] == others;
    assert records[..|records| - 1] == [record] + front;
    assert ([record] + front)[1..] == front;
    assert seen + Payload(records) == seen + record.payload + Payload(others);
    assert seen + Payload([record] + front) == seen + record.payload + Payload(front);
    PrefixesAgree(seen + record.payload, Payload(front), limits);
    assert AreRecords(records) ==> IsRecord(records[0]);
    assert forall i :: 0 <= i < |others| ==> others[i] == records[i + 1];
  }

  // ----- Fragmentation ------------------------------------------------------------

  /** The walk's own view of `Carries`: one record at a time. */
  ghost predicate Completes(seen: seq<byte>, records: seq<Record>, limits: HelloLimits)
    decreases |records|
  {
    && records != [] && IsRecord(records[0])
    && var message := seen + records[0].payload;
       && Observe(message, limits).Success?
       && if Done(message) then |records| == 1 else Completes(message, records[1..], limits)
  }

  lemma {:induction false} CarriedCompletes(seen: seq<byte>, records: seq<Record>, limits: HelloLimits)
    requires Carries(seen, records, limits)
    ensures Completes(seen, records, limits)
    decreases |records|
  {
    var record, others := records[0], records[1..];
    assert IsRecord(records[0]);
    var message := seen + record.payload;
    assert seen + Payload(records) == message + Payload(others);
    PrefixesAgree(message, Payload(others), limits);
    if others == [] {
      assert message + Payload(others) == message;
    } else {
      assert records == [record] + others;
      CarriesCons(record, others, seen, limits);
      CarriedCompletes(message, others, limits);
    }
  }

  lemma FirstOnWire(records: seq<Record>, tail: seq<byte>, seen: seq<byte>)
    requires records != [] && AreRecords(records)
    ensures AreRecords(records[1..])
    ensures Wire(records) + tail == EncodeRecord(records[0]) + (Wire(records[1..]) + tail)
    ensures |Wire(records)| == |EncodeRecord(records[0])| + |Wire(records[1..])|
    ensures seen + Payload(records) == seen + records[0].payload + Payload(records[1..])
  {
  }

  lemma {:induction false} CompletesIsScanned(
    records: seq<Record>, tail: seq<byte>, at: nat, seen: seq<byte>, count: nat, limits: HelloLimits)
    requires AreRecords(records) && Completes(seen, records, limits)
    requires count + |records| <= limits.maxRecords
    ensures Done(seen + Payload(records))
    ensures Scan(Wire(records) + tail, at, seen, count, limits) ==
            Success(Layout(seen + Payload(records), at + |Wire(records)|))
  {
    hide Scan, EncodeRecord;
    var record, others := records[0], records[1..];
    var message := seen + record.payload;
    FirstOnWire(records, tail, seen);
    ScanRecord(record, Wire(others) + tail, at, seen, count, limits);
    if Done(message) {
      assert others == [] && message + Payload(others) == message;
    } else {
      CompletesIsScanned(others, tail, at + |EncodeRecord(record)|, message, count + 1, limits);
    }
  }

  lemma CarriedIsScanned(records: seq<Record>, tail: seq<byte>, limits: HelloLimits)
    requires Carries([], records, limits) && |records| <= limits.maxRecords
    ensures Done(Payload(records))
    ensures Scan(Wire(records) + tail, 0, [], 0, limits) ==
            Success(Layout(Payload(records), |Wire(records)|))
  {
    hide Scan, Completes, EncodeRecord, Done;
    CarriedCompletes([], records, limits);
    CompletesIsScanned(records, tail, 0, [], 0, limits);
    assert [] + Payload(records) == Payload(records);
  }

  /**
   Fragmentation independence: any records whose payloads complete a hello, with any
   bytes after them, give the body parser's verdict on the unsplit body.
   */
  lemma FragmentsReassemble(records: seq<Record>, tail: seq<byte>, limits: HelloLimits)
    requires Carries([], records, limits) && |records| <= limits.maxRecords
    ensures Done(Payload(records))
    ensures ParseHello(Wire(records) + tail, limits) ==
            match ParseBody(BodyOf(Payload(records)))
            case Failure(error) => Failure(error)
            case Success(sni) => Success(ClientHelloInfo(sni, |Wire(records)|))
  {
    hide ParseBody, Scan;
    CarriedIsScanned(records, tail, limits);
  }

  lemma MessageDeclares(body: seq<byte>, extra: seq<byte>)
    requires |body| < 0x100_0000
    ensures var message := [HANDSHAKE_TYPE_CLIENT_HELLO] + U24Bytes(|body|) + body + extra;
            && |message| == HANDSHAKE_HEADER_LEN + |body| + |extra|
            && message[0] == HANDSHAKE_TYPE_CLIENT_HELLO
            && DeclaredLen(message) == |body|
            && message[HANDSHAKE_HEADER_LEN..HANDSHAKE_HEADER_LEN + |body|] == body
  {
    U24RoundTrip(|body|);
    assert |U24Bytes(|body|)| == 3;
    hide U24Bytes, U24From;
    var message := [HANDSHAKE_TYPE_CLIENT_HELLO] + U24Bytes(|body|) + body + extra;
    assert message[1..HANDSHAKE_HEADER_LEN] == U24Bytes(|body|);
    assert forall i :: 0 <= i < 3 ==> message[i + 1] == U24Bytes(|body|)[i];
  }

  /** A handshake message split in any way at all is carried by its pieces. */
  lemma SplitMessageIsCarried(records: seq<Record>, body: seq<byte>, limits: HelloLimits)
    requires AreRecords(records)
    requires |body| <= limits.maxHandshakeBytes && |body| < 0x100_0000
    requires Payload(records) == [HANDSHAKE_TYPE_CLIENT_HELLO] + U24Bytes(|body|) + body
    ensures Carries([], records, limits) && BodyOf(Payload(records)) == body
  {
    hide U24Bytes, U24From;
    var message := Payload(records);
    MessageDeclares(body, []);
    assert [HANDSHAKE_TYPE_CLIENT_HELLO] + U24Bytes(|body|) + body + [] == message;
    assert [] + message == message;
    var front := Payload(records[..|records| - 1]);
    assert [] + front == front;
    PayloadSnoc(records);
    assert IsRecord(records[|records| - 1]);
    assert |front| < |message| == HANDSHAKE_HEADER_LEN + |body|;
    assert |front| >= HANDSHAKE_HEADER_LEN ==> DeclaredLen(front) == DeclaredLen(message);
  }

  lemma {:induction false} PayloadSnoc(records: seq<Record>)
    requires records != []
    ensures Payload(records) == Payload(records[..|records| - 1]) + records[|records| - 1].payload
  {
    if |records| > 1 {
      PayloadSnoc(records[1..]);
      assert records[1..][..|records| - 2] == records[..|records| - 1][1..];
    }
  }

  // ----- The exact language ----------------------------------------------------------

  lemma {:induction false} ScannedIsCarried(rest: seq<byte>, at: nat, seen: seq<byte>, count: nat, limits: HelloLimits)
    returns (records: seq<Record>, tail: seq<byte>)
    requires Scan(rest, at, seen, count, limits).Success?
    requires count <= limits.maxRecords
    requires !Done(seen)
    ensures Carries(seen, records, limits) && count + |records| <= limits.maxRecords
    ensures rest == Wire(records) + tail
    decreases |rest|
  {
    hide Scan;
    var record, after := FirstRecord(rest, at, seen, count, limits);
    ScanRecord(record, after, at, seen, count, limits);
    var message := seen + record.payload;
    if Done(message) {
      records, tail := [record], after;
      assert records[1..] == [] && records[..0] == [];
      assert Wire(records) == EncodeRecord(record) + [];
      assert seen + Payload(records) == message;
      assert seen + Payload(records[..0]) == seen;
    } else {
      var others, rest' := ScannedIsCarried(after, at + |EncodeRecord(record)|, message, count + 1, limits);
      CarriesCons(record, others, seen, limits);
      records, tail := [record] + others, rest';
      assert records[1..] == others;
      assert rest == EncodeRecord(record) + (Wire(others) + tail);
    }
  }

  /** `info` is the hello at the front of `buf`, read off records whose payloads complete it. */
  ghost predicate HelloAtFront(buf: seq<byte>, limits: HelloLimits, info: ClientHelloInfo, records: seq<Record>) {
    && Carries([], records, limits) && |records| <= limits.maxRecords
    && Wire(records) <= buf && info.consumed == |Wire(records)|
    && Done(Payload(records))
    && ParseBody(BodyOf(Payload(records))) == Success(info.sni)
  }

  lemma ParsedIsAtFront(buf: seq<byte>, limits: HelloLimits, info: ClientHelloInfo) returns (records: seq<Record>)
    requires ParseHello(buf, limits) == Success(info)
    ensures HelloAtFront(buf, limits, info, records)
  {
    hide ParseBody, Scan;
    var tail;
    records, tail := ScannedIsCarried(buf, 0, [], 0, limits);
    FragmentsReassemble(records, tail, limits);
  }

  lemma AtFrontIsParsed(buf: seq<byte>, limits: HelloLimits, info: ClientHelloInfo, records: seq<Record>)
    requires HelloAtFront(buf, limits, info, records)
    ensures ParseHello(buf, limits) == Success(info)
  {
    hide ParseBody, ParseHello;
    var tail := buf[|Wire(records)|..];
    assert buf == Wire(records) + tail;
    FragmentsReassemble(records, tail, limits);
  }

  /** The parser accepts exactly the buffers that start with the records of an acceptable hello. */
  lemma HelloLanguageExactly(buf: seq<byte>, limits: HelloLimits, info: ClientHelloInfo)
    ensures ParseHello(buf, limits) == Success(info) <==>
            exists records :: HelloAtFront(buf, limits, info, records)
  {
    hide ParseHello, ParseBody;
    if ParseHello(buf, limits) == Success(info) {
      var records := ParsedIsAtFront(buf, limits, info);
    }
    if records :| HelloAtFront(buf, limits, info, records) {
      AtFrontIsParsed(buf, limits, info, records);
    }
  }

  // ----- Stability ---------------------------------------------------------------------

  lemma HeadersAreStable(rest: seq<byte>, more: seq<byte>, first: bool)
    requires |rest| < RECORD_HEADER_LEN && CheckPartialHeader(rest, first).Fail?
    ensures CheckPartialHeader(rest + more, first) == CheckPartialHeader(rest, first)
    ensures |rest + more| >= RECORD_HEADER_LEN ==>
              CheckHeader((rest + more)[..RECORD_HEADER_LEN], first) == Failure(CheckPartialHeader(rest, first).error)
  {
    assert forall i :: 0 <= i < |rest| ==> (rest + more)[i] == rest[i];
  }

  /** A record cut short: an error already visible in it stays visible. */
  lemma CutRecordIsStable(rest: seq<byte>, more: seq<byte>, at: nat, seen: seq<byte>, count: nat, limits: HelloLimits)
    requires |rest| >= RECORD_HEADER_LEN && CheckHeader(rest[..RECORD_HEADER_LEN], at == 0).Success?
    requires |rest| < RECORD_HEADER_LEN + CheckHeader(rest[..RECORD_HEADER_LEN], at == 0).value
    requires Scan(rest, at, seen, count, limits) != Failure(Incomplete)
    ensures Scan(rest + more, at, seen, count, limits) == Scan(rest, at, seen, count, limits)
  {
    var all := rest + more;
    var end := RECORD_HEADER_LEN + CheckHeader(rest[..RECORD_HEADER_LEN], at == 0).value;
    var cut := if end <= |all| then end else |all|;
    var early := seen + rest[RECORD_HEADER_LEN..];
    assert all[..RECORD_HEADER_LEN] == rest[..RECORD_HEADER_LEN];
    assert seen + all[RECORD_HEADER_LEN..cut] == early + all[|rest|..cut];
    PrefixesAgree(early, all[|rest|..cut], limits);
  }

  lemma CutHeaderIsStable(rest: seq<byte>, more: seq<byte>, at: nat, seen: seq<byte>, count: nat, limits: HelloLimits)
    requires |rest| < RECORD_HEADER_LEN
    requires Scan(rest, at, seen, count, limits) != Failure(Incomplete)
    ensures Scan(rest + more, at, seen, count, limits) == Scan(rest, at, seen, count, limits)
  {
    HeadersAreStable(rest, more, at == 0);
  }

  lemma {:induction false} ScanIsStable(
    rest: seq<byte>, more: seq<byte>, at: nat, seen: seq<byte>, count: nat, limits: HelloLimits)
    requires Scan(rest, at, seen, count, limits) != Failure(Incomplete)
    ensures Scan(rest + more, at, seen, count, limits) == Scan(rest, at, seen, count, limits)
    decreases |rest|
  {
    hide Scan;
    if |rest| < RECORD_HEADER_LEN {
      CutHeaderIsStable(rest, more, at, seen, count, limits);
    } else {
      assert (rest + more)[..RECORD_HEADER_LEN] == rest[..RECORD_HEADER_LEN];
      ScanStep(rest, at, seen, count, limits);
      ScanStep(rest + more, at, seen, count, limits);
      var header := CheckHeader(rest[..RECORD_HEADER_LEN], at == 0);
      if header.Success? {
        var end := RECORD_HEADER_LEN + header.value;
        if |rest| < end {
          CutRecordIsStable(rest, more, at, seen, count, limits);
        } else {
          assert (rest + more)[RECORD_HEADER_LEN..end] == rest[RECORD_HEADER_LEN..end];
          assert (rest + more)[end..] == rest[end..] + more;
          var message := seen + rest[RECORD_HEADER_LEN..end];
          if count != limits.maxRecords && Observe(message, limits).Success? && !Done(message) {
            ScanIsStable(rest[end..], more, at + end, message, count + 1, limits);
          }
        }
      }
    }
  }

  /** A verdict other than "read more" is unchanged by whatever arrives next. */
  lemma VerdictIsStable(buf: seq<byte>, more: seq<byte>, limits: HelloLimits)
    requires ParseHello(buf, limits) != Failure(Incomplete)
    ensures ParseHello(buf + more, limits) == ParseHello(buf, limits)
  {
    hide ParseBody, Scan;
    ScanIsStable(buf, more, 0, [], 0, limits);
  }

  /**
   The exact threshold: no shorter prefix decides anything, and the first `consumed`
   bytes alone decide everything.
   */
  lemma VerdictThreshold(buf: seq<byte>, limits: HelloLimits, info: ClientHelloInfo)
    requires ParseHello(buf, limits) == Success(info)
    ensures info.consumed <= |buf|
    ensures forall n :: 0 <= n < info.consumed ==> ParseHello(buf[..n], limits) == Failure(Incomplete)
    ensures forall other: seq<byte> :: buf[..info.consumed] <= other ==> ParseHello(other, limits) == Success(info)
  {
    hide ParseHello, ParseBody;
    var records := ParsedIsAtFront(buf, limits, info);
    forall other: seq<byte> | buf[..info.consumed] <= other ensures ParseHello(other, limits) == Success(info) {
      AtFrontIsParsed(other, limits, info, records);
    }
    forall n | 0 <= n < info.consumed ensures ParseHello(buf[..n], limits) == Failure(Incomplete) {
      TooShortIsIncomplete(buf, n, limits, info);
    }
  }

  lemma TooShortIsIncomplete(buf: seq<byte>, n: nat, limits: HelloLimits, info: ClientHelloInfo)
    requires ParseHello(buf, limits) == Success(info)
    requires n < info.consumed && n <= |buf|
    ensures ParseHello(buf[..n], limits) == Failure(Incomplete)
  {
    hide ParseHello, ParseBody;
    if ParseHello(buf[..n], limits) != Failure(Incomplete) {
      assert buf[..n] + buf[n..] == buf;
      VerdictIsStable(buf[..n], buf[n..], limits);
      var records := ParsedIsAtFront(buf[..n], limits, info);
    }
  }

  // ----- Wire size ----------------------------------------------------------------------

  lemma {:induction false} WireSize(records: seq<Record>)
    requires AreRecords(records)
    ensures |Wire(records)| == |Payload(records)| + RECORD_HEADER_LEN * |records|
  {
    if records != [] {
      assert IsRecord(records[0]);
      WireSize(records[1..]);
    }
  }

  /**
   Whether a complete hello fits the wire cap: exactly when what follows it in its last
   record fits the unused allowance of body bytes and record headers.
   */
  lemma FitsTheCap(records: seq<Record>, limits: HelloLimits)
    requires Carries([], records, limits) && |records| <= limits.maxRecords
    ensures Done(Payload(records))
    ensures var len := DeclaredLen(Payload(records));
            |Wire(records)| <= limits.MaxWireBytes() <==>
            |Payload(records)| - (HANDSHAKE_HEADER_LEN + len)
            <= limits.maxHandshakeBytes - len + RECORD_HEADER_LEN * (limits.maxRecords - |records|)
  {
    assert [] + Payload(records) == Payload(records);
    WireSize(records);
  }
}
