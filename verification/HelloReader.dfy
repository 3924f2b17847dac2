/** Reading a ClientHello off a stream in whatever pieces it arrives (crates/sni_router/src/delivery/hello_reader.rs). */
module HelloReader {
  import opened Wrappers
  import opened Bytes
  import opened Protocol
  import opened Hello
  import opened HelloLanguage
  import opened Records
  import opened RecordParser

  /** What happens once every byte has been read. */
  datatype Ending = Eof | Fault

  datatype HelloReadError = Closed | Io | Parse(error: ParseError)

  class ByteStream {
    var pending: seq<byte>
    const ending: Ending

    constructor (bytes: seq<byte>, ending: Ending)
      ensures pending == bytes && this.ending == ending
    {
      pending, this.ending := bytes, ending;
    }

    /** One read: between 1 and `limit` of the pending bytes, none at end of file, or a failure. */
    method Read(limit: nat) returns (chunk: Option<seq<byte>>)
      requires limit > 0
      modifies this
      ensures old(pending) == [] ==>
                pending == [] && chunk == if ending == Eof then Some([]) else None
      ensures old(pending) != [] ==>
                chunk.Some? && 1 <= |chunk.value| <= limit && old(pending) == chunk.value + pending
    {
      if pending == [] {
        return if ending == Eof then Some([]) else None;
      }
      var n: nat :| 1 <= n <= limit && n <= |pending|;
      chunk := Some(pending[..n]);
      pending := pending[n..];
    }
  }

  /** The part of the stream the reader may look at. */
  function Window(stream: seq<byte>, limits: HelloLimits): seq<byte> {
    if |stream| <= limits.MaxWireBytes() then stream else stream[..limits.MaxWireBytes()]
  }

  /** The reader's answer as a function of the stream alone. */
  function ReaderOutcome(stream: seq<byte>, ending: Ending, limits: HelloLimits): Result<ClientHelloInfo, HelloReadError> {
    match ParseHello(Window(stream, limits), limits)
    case Success(info) => Success(info)
    case Failure(Incomplete) =>
      Failure(if |stream| >= limits.MaxWireBytes() then Parse(TooLarge) else if ending == Eof then Closed else Io)
    case Failure(error) => Failure(Parse(error))
  }

  lemma PrefixDecides(stream: seq<byte>, ending: Ending, limits: HelloLimits, n: nat)
    requires n <= |stream| && n <= limits.MaxWireBytes()
    requires ParseHello(stream[..n], limits) != Failure(Incomplete)
    ensures ReaderOutcome(stream, ending, limits) ==
            match ParseHello(stream[..n], limits)
            case Success(info) => Success(info)
            case Failure(error) => Failure(Parse(error))
  {
    hide ParseHello;
    var window := Window(stream, limits);
    assert window == stream[..n] + window[n..];
    VerdictIsStable(stream[..n], window[n..], limits);
  }

  /** Without a verdict in the window, what the reader says depends on how the stream ends. */
  lemma NothingDecides(stream: seq<byte>, ending: Ending, limits: HelloLimits, n: nat)
    requires n <= |stream| && n <= limits.MaxWireBytes() && (n == |stream| || n == limits.MaxWireBytes())
    requires ParseHello(stream[..n], limits) == Failure(Incomplete)
    ensures ReaderOutcome(stream, ending, limits) ==
            Failure(if n == limits.MaxWireBytes() then Parse(TooLarge) else if ending == Eof then Closed else Io)
  {
    hide ParseHello;
    assert Window(stream, limits) == stream[..n];
  }

  /**
   Chunking independence: whatever sizes the reads come in, the answer is
   `ReaderOutcome`, and the buffer returned is what was taken off the stream,
   within the wire cap.
   */
  method ReadClientHello(stream: ByteStream, limits: HelloLimits)
    returns (result: Result<(seq<byte>, ClientHelloInfo), HelloReadError>)
    modifies stream
    ensures match ReaderOutcome(old(stream.pending), stream.ending, limits)
            case Success(info) => result.Success? && result.value.1 == info
            case Failure(error) => result == Failure(error)
    ensures result.Success? ==>
              && old(stream.pending) == result.value.0 + stream.pending
              && result.value.1.consumed <= |result.value.0|
    ensures exists taken :: 0 <= taken <= limits.MaxWireBytes() && taken <= |old(stream.pending)|
                         && stream.pending == old(stream.pending)[taken..]
  {
    hide ParseHello, ReaderOutcome;
    NothingIsIncomplete(limits);
    ghost var all := stream.pending;
    var max := limits.MaxWireBytes();
    var buf := [];
    while true
      invariant all == buf + stream.pending
      invariant |buf| <= max
      invariant ParseHello(buf, limits) == Failure(Incomplete)
      decreases max - |buf|
    {
      assert all[..|buf|] == buf && stream.pending == all[|buf|..];
      var remaining := max - |buf|;
      if remaining == 0 {
        NothingDecides(all, stream.ending, limits, |buf|);
        return Failure(Parse(TooLarge));
      }
      var chunk := stream.Read(remaining);
      if chunk.None? || chunk.value == [] {
        NothingDecides(all, stream.ending, limits, |buf|);
        return Failure(if chunk.None? then Io else Closed);
      }
      buf := buf + chunk.value;
      assert all[..|buf|] == buf && stream.pending == all[|buf|..];
      var verdict := ParseClientHello(buf, limits);
      if verdict != Failure(Incomplete) {
        PrefixDecides(all, stream.ending, limits, |buf|);
        match verdict
        case Success(info) =>
          VerdictThreshold(buf, limits, info);
          return Success((buf, info));
        case Failure(error) =>
          return Failure(Parse(error));
      }
    }
  }

  lemma NothingIsIncomplete(limits: HelloLimits)
    ensures ParseHello([], limits) == Failure(Incomplete)
  {
  }

  /**
   Which parsable streams the reader accepts: exactly those whose hello ends within the
   wire cap. The others are answered `TooLarge`.
   */
  lemma AcceptedWithinCap(stream: seq<byte>, ending: Ending, limits: HelloLimits, info: ClientHelloInfo)
    requires ParseHello(stream, limits) == Success(info)
    ensures ReaderOutcome(stream, ending, limits) ==
            if info.consumed <= limits.MaxWireBytes() then Success(info) else Failure(Parse(TooLarge))
  {
    hide ParseHello;
    VerdictThreshold(stream, limits, info);
    var window := Window(stream, limits);
    if info.consumed <= limits.MaxWireBytes() {
      assert stream[..info.consumed] <= window;
    }
  }

  /** Nothing else is accepted. */
  lemma OnlyParsableAccepted(stream: seq<byte>, ending: Ending, limits: HelloLimits, info: ClientHelloInfo)
    requires ReaderOutcome(stream, ending, limits) == Success(info)
    ensures ParseHello(stream, limits) == Success(info) && info.consumed <= limits.MaxWireBytes()
  {
    hide ParseHello;
    var window := Window(stream, limits);
    assert stream == window + stream[|window|..];
    VerdictIsStable(window, stream[|window|..], limits);
    VerdictThreshold(window, limits, info);
  }

  // ----- The cap is not the largest complete hello ------------------------------

  const SMALL_HELLO: ClientHello :=
    ClientHello(3, seq(RANDOM_LEN, _ => 0), [], [0x13, 0x01], [0], None)

  /** A whole message and what follows it, in one record. */
  lemma OneRecordCarries(minor: byte, body: seq<byte>, extra: seq<byte>, limits: HelloLimits)
    requires |body| <= limits.maxHandshakeBytes && |body| < 0x100_0000
    requires HANDSHAKE_HEADER_LEN + |body| + |extra| <= MAX_RECORD_PAYLOAD
    ensures var records := [Record(minor, [HANDSHAKE_TYPE_CLIENT_HELLO] + U24Bytes(|body|) + body + extra)];
            && Carries([], records, limits)
            && Done(Payload(records)) && BodyOf(Payload(records)) == body
            && Wire(records) == EncodeRecord(records[0])
  {
    hide U24Bytes, U24From;
    var message := [HANDSHAKE_TYPE_CLIENT_HELLO] + U24Bytes(|body|) + body + extra;
    var records := [Record(minor, message)];
    MessageDeclares(body, extra);
    assert records[1..] == [] && records[..0] == [];
    assert [] + Payload(records) == Payload(records) == message;
    assert BodyOf(message) == body;
    assert Wire(records) == EncodeRecord(records[0]) + [];
  }

  lemma SmallHelloParses()
    ensures WellFormed(SMALL_HELLO) && |EncodeHello(SMALL_HELLO)| == 41
    ensures ParseBody(EncodeHello(SMALL_HELLO)) == Success(None)
  {
    HelloAccepted(SMALL_HELLO);
  }

  /**
   A whole acceptable message in any records, with whatever follows it in the last: the
   parser takes it, and the reader takes it exactly when the bytes coalesced behind it fit
   the unused allowance of body bytes and record headers.
   */
  lemma CoalescedRecords(records: seq<Record>, tail: seq<byte>, sni: Sni, ending: Ending, limits: HelloLimits)
    requires Carries([], records, limits) && |records| <= limits.maxRecords
    requires Done(Payload(records)) && ParseBody(BodyOf(Payload(records))) == Success(sni)
    ensures var stream := Wire(records) + tail;
            var info := ClientHelloInfo(sni, |Wire(records)|);
            var len := DeclaredLen(Payload(records));
            && ParseHello(stream, limits) == Success(info)
            && ReaderOutcome(stream, ending, limits) ==
               if |Payload(records)| - (HANDSHAKE_HEADER_LEN + len)
                  <= limits.maxHandshakeBytes - len + RECORD_HEADER_LEN * (limits.maxRecords - |records|)
               then Success(info) else Failure(Parse(TooLarge))
  {
    FitsTheCap(records, limits);
    hide ParseHello, ParseBody, ReaderOutcome, Carries, Wire;
    FragmentsReassemble(records, tail, limits);
    AcceptedWithinCap(Wire(records) + tail, ending, limits, ClientHelloInfo(sni, |Wire(records)|));
  }

  /**
   A whole acceptable message in one record with `extra` handshake bytes after it: the
   parser takes it, and the reader takes it exactly when the extra bytes fit the unused
   allowance of body bytes and record headers.
   */
  lemma CoalescedHello(minor: byte, body: seq<byte>, extra: seq<byte>, sni: Sni, ending: Ending, limits: HelloLimits)
    requires |body| <= limits.maxHandshakeBytes && |body| < 0x100_0000 && limits.maxRecords >= 1
    requires HANDSHAKE_HEADER_LEN + |body| + |extra| <= MAX_RECORD_PAYLOAD
    requires ParseBody(body) == Success(sni)
    ensures var record := Record(minor, [HANDSHAKE_TYPE_CLIENT_HELLO] + U24Bytes(|body|) + body + extra);
            var info := ClientHelloInfo(sni, |EncodeRecord(record)|);
            && ParseHello(EncodeRecord(record), limits) == Success(info)
            && ReaderOutcome(EncodeRecord(record), ending, limits) ==
               if |extra| <= limits.maxHandshakeBytes - |body| + RECORD_HEADER_LEN * (limits.maxRecords - 1)
               then Success(info) else Failure(Parse(TooLarge))
  {
    hide ParseHello, ParseBody, ReaderOutcome, Carries;
    OneRecordCarries(minor, body, extra, limits);
    var records := [Record(minor, [HANDSHAKE_TYPE_CLIENT_HELLO] + U24Bytes(|body|) + body + extra)];
    var wire := EncodeRecord(records[0]);
    assert wire + [] == wire;
    CoalescedRecords(records, [], sni, ending, limits);
  }

  /**
   So `MaxWireBytes` does not bound a complete hello: a 41-byte body with one more byte
   in its record, under limits of 41 bytes and one record, ends at 51 of at most 50 bytes.
   */
  lemma CoalescedHelloIsRefused(limits: HelloLimits, record: Record)
    requires limits == HelloLimits(41, 1)
    requires record == Record(1, [1, 0, 0, 41] + EncodeHello(SMALL_HELLO) + [0])
    ensures IsRecord(record) && limits.MaxWireBytes() == 50
    ensures ParseHello(EncodeRecord(record), limits) == Success(ClientHelloInfo(None, 51))
    ensures ReaderOutcome(EncodeRecord(record), Eof, limits) == Failure(Parse(TooLarge))
  {
    hide ParseHello, ParseBody, EncodeHello, ReaderOutcome;
    SmallHelloParses();
    CoalescedHello(1, EncodeHello(SMALL_HELLO), [0], None, Eof, limits);
    assert [1, 0, 0, 41] == [HANDSHAKE_TYPE_CLIENT_HELLO] + U24Bytes(41);
  }
}
