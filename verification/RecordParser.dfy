/** The record walk as it runs: one offset, one handshake header, inline payload ranges (crates/sni_router/src/protocol/record.rs). */
module RecordParser {
  import opened Wrappers
  import opened Bytes
  import opened Protocol
  import opened Hello
  import opened HelloParser
  import opened Records

  const INLINE_RECORDS := 4

  datatype Range = Range(start: nat, end: nat)

  predicate InBounds(ranges: seq<Range>, buf: seq<byte>) {
    forall i :: 0 <= i < |ranges| ==> ranges[i].start <= ranges[i].end <= |buf|
  }

  /** The bytes the ranges select, in order. */
  function Gather(buf: seq<byte>, ranges: seq<Range>): seq<byte>
    requires InBounds(ranges, buf)
  {
    if ranges == [] then []
    else
      var last := ranges[|ranges| - 1];
      Gather(buf, ranges[..|ranges| - 1]) + buf[last.start..last.end]
  }

  /** Payload ranges: inline until more than four records are seen, then in `heap`. */
  class Payloads {
    const inline: array<Range>
    var len: nat
    var heap: Option<seq<Range>>

    ghost predicate Valid()
      reads this
    {
      inline.Length == INLINE_RECORDS && len <= INLINE_RECORDS
    }

    function AsSlice(): seq<Range>
      requires Valid()
      reads this, inline
    {
      if heap.Some? then heap.value else inline[..len]
    }

    constructor ()
      ensures Valid() && fresh(inline) && AsSlice() == []
    {
      inline := new Range[INLINE_RECORDS](_ => Range(0, 0));
      len, heap := 0, None;
    }

    method Push(range: Range)
      requires Valid()
      modifies this, inline
      ensures Valid() && AsSlice() == old(AsSlice()) + [range]
    {
      if heap.Some? {
        heap := Some(heap.value + [range]);
      } else if len < INLINE_RECORDS {
        inline[len] := range;
        len := len + 1;
      } else {
        heap := Some(inline[..len] + [range]);
      }
    }
  }

  /** The four-byte handshake header, which may itself be split across records. */
  class HandshakeHeader {
    const bytes: array<byte>
    var known: nat

    /** The header bytes collected are the first ones of `message`. */
    ghost predicate Matches(message: seq<byte>)
      reads this, bytes
    {
      && bytes.Length == HANDSHAKE_HEADER_LEN
      && known == (if |message| < HANDSHAKE_HEADER_LEN then |message| else HANDSHAKE_HEADER_LEN)
      && bytes[..known] == message[..known]
    }

    constructor ()
      ensures fresh(bytes) && Matches([])
    {
      bytes := new byte[HANDSHAKE_HEADER_LEN](_ => 0);
      known := 0;
    }

    method ObservePayload(payload: seq<byte>, limits: HelloLimits, ghost seen: seq<byte>)
      returns (declared: Result<Option<nat>, ParseError>)
      requires Matches(seen)
      modifies this, bytes
      ensures Matches(seen + payload)
      ensures declared == Observe(seen + payload, limits)
    {
      var take := if |payload| < HANDSHAKE_HEADER_LEN - known then |payload| else HANDSHAKE_HEADER_LEN - known;
      ghost var before := known;
      for i := 0 to take
        invariant known == before + i
        invariant bytes[..known] == (seen + payload)[..known]
      {
        bytes[known] := payload[i];
        known := known + 1;
      }
      assert forall i :: 0 <= i < known ==> bytes[i] == bytes[..known][i] == (seen + payload)[i];
      if known >= 1 && bytes[0] != HANDSHAKE_TYPE_CLIENT_HELLO {
        return Failure(NotClientHello);
      }
      if known < HANDSHAKE_HEADER_LEN {
        return Success(None);
      }
      var len := U24From(bytes[1], bytes[2], bytes[3]);
      if len > limits.maxHandshakeBytes {
        return Failure(TooLarge);
      }
      declared := Success(Some(len));
    }
  }

  lemma NothingGathered(buf: seq<byte>)
    ensures InBounds([], buf) && Gather(buf, []) == []
  {
  }

  lemma GatherMore(buf: seq<byte>, ranges: seq<Range>, last: Range)
    requires InBounds(ranges, buf) && last.start <= last.end <= |buf|
    ensures InBounds(ranges + [last], buf)
    ensures Gather(buf, ranges + [last]) == Gather(buf, ranges) + buf[last.start..last.end]
  {
    assert (ranges + [last])[..|ranges|] == ranges;
  }

  datatype RecordLayout = RecordLayout(payloads: seq<Range>, handshakeLen: nat, consumed: nat)

  method ScanRecords(buf: seq<byte>, limits: HelloLimits) returns (result: Result<RecordLayout, ParseError>)
    ensures match Scan(buf, 0, [], 0, limits)
            case Failure(error) => result == Failure(error)
            case Success(layout) =>
              && result.Success?
              && InBounds(result.value.payloads, buf)
              && Gather(buf, result.value.payloads) == layout.payload
              && result.value.handshakeLen == DeclaredLen(layout.payload)
              && result.value.consumed == layout.consumed
  {
    hide Scan, CheckHeader, CheckPartialHeader, Observe, Done, InBounds, Gather, HandshakeHeader.Matches, Payloads.Valid, Payloads.AsSlice;
    NothingGathered(buf);
    var offset := 0;
    var payloads := new Payloads();
    var header := new HandshakeHeader();
    var payloadTotal := 0;
    ghost var seen: seq<byte> := [];
    assert buf[0..] == buf;
    while true
      invariant offset <= |buf|
      invariant payloads.Valid() && fresh(payloads) && fresh(payloads.inline)
      invariant fresh(header) && fresh(header.bytes) && header.Matches(seen)
      invariant InBounds(payloads.AsSlice(), buf) && Gather(buf, payloads.AsSlice()) == seen
      invariant payloadTotal == |seen|
      invariant Scan(buf, 0, [], 0, limits) == Scan(buf[offset..], offset, seen, |payloads.AsSlice()|, limits)
      decreases |buf| - offset
    {
      var rest := buf[offset..];
      ghost var count := |payloads.AsSlice()|;
      if |rest| < RECORD_HEADER_LEN {
        var partial := CheckPartialHeader(rest, offset == 0);
        ScanShort(rest, offset, seen, count, limits);
        return Failure(if partial.Fail? then partial.error else Incomplete);
      }
      ScanStep(rest, offset, seen, count, limits);
      var checked := CheckHeader(rest[..RECORD_HEADER_LEN], offset == 0);
      if checked.Failure? {
        return Failure(checked.error);
      }
      if |payloads.AsSlice()| == limits.maxRecords {
        return Failure(TooLarge);
      }
      var payloadStart := offset + RECORD_HEADER_LEN;
      var payloadEnd := payloadStart + checked.value;
      var available := buf[payloadStart..if payloadEnd < |buf| then payloadEnd else |buf|];
      ghost var end := RECORD_HEADER_LEN + checked.value;
      assert available == rest[RECORD_HEADER_LEN..if end <= |rest| then end else |rest|];
      var observed := header.ObservePayload(available, limits, seen);
      if observed.Failure? {
        return Failure(observed.error);
      }
      ObserveDone(seen + available, limits);
      if |available| < checked.value {
        return Failure(Incomplete);
      }
      GatherMore(buf, payloads.AsSlice(), Range(payloadStart, payloadEnd));
      payloads.Push(Range(payloadStart, payloadEnd));
      payloadTotal := payloadTotal + checked.value;
      offset := payloadEnd;
      seen := seen + available;
      if observed.value.Some? && payloadTotal >= HANDSHAKE_HEADER_LEN + observed.value.value {
        return Success(RecordLayout(payloads.AsSlice(), observed.value.value, offset));
      }
      assert rest[end..] == buf[offset..];
    }
  }

  lemma GatherSnoc(buf: seq<byte>, ranges: seq<Range>, i: nat)
    requires InBounds(ranges, buf) && i < |ranges|
    ensures Gather(buf, ranges[..i + 1]) == Gather(buf, ranges[..i]) + buf[ranges[i].start..ranges[i].end]
  {
    assert ranges[..i + 1][..i] == ranges[..i];
  }

  function FirstOf(s: seq<byte>, len: nat): seq<byte> {
    if |s| < len then s else s[..len]
  }

  lemma FirstOfConcat(s: seq<byte>, more: seq<byte>, len: nat)
    ensures FirstOf(s + more, len) == FirstOf(s, len) + FirstOf(more, len - |FirstOf(s, len)|)
  {
  }

  /** Copies the fragments into one message, stopping at its end. */
  method Reassemble(buf: seq<byte>, fragments: seq<Range>, messageLen: nat) returns (message: seq<byte>)
    requires InBounds(fragments, buf)
    requires messageLen <= |Gather(buf, fragments)|
    ensures message == Gather(buf, fragments)[..messageLen]
  {
    message := [];
    for i := 0 to |fragments|
      invariant message == FirstOf(Gather(buf, fragments[..i]), messageLen)
    {
      GatherSnoc(buf, fragments, i);
      var fragment := fragments[i];
      var size := fragment.end - fragment.start;
      var take := if messageLen - |message| < size then messageLen - |message| else size;
      assert buf[fragment.start..fragment.start + take] == buf[fragment.start..fragment.end][..take];
      ghost var copied := Gather(buf, fragments[..i]);
      FirstOfConcat(copied, buf[fragment.start..fragment.end], messageLen);
      assert |message| == |FirstOf(copied, messageLen)|;
      message := message + buf[fragment.start..fragment.start + take];
    }
    assert fragments[..|fragments|] == fragments;
  }

  method ParseClientHello(buf: seq<byte>, limits: HelloLimits) returns (result: Verdict)
    ensures result == ParseHello(buf, limits)
  {
    hide ParseBody, Scan;
    var scanned := ScanRecords(buf, limits);
    if scanned.Failure? {
      return Failure(scanned.error);
    }
    var layout := scanned.value;
    ghost var payload := Gather(buf, layout.payloads);
    var messageLen := HANDSHAKE_HEADER_LEN + layout.handshakeLen;
    var sni;
    if |layout.payloads| == 1 {
      var only := layout.payloads[0];
      assert layout.payloads[..0] == [];
      assert payload == buf[only.start..only.end];
      assert buf[only.start + HANDSHAKE_HEADER_LEN..only.start + messageLen] == BodyOf(payload);
      sni := ParseClientHelloBody(buf[only.start + HANDSHAKE_HEADER_LEN..only.start + messageLen]);
    } else {
      var message := Reassemble(buf, layout.payloads, messageLen);
      assert message[HANDSHAKE_HEADER_LEN..] == BodyOf(payload);
      sni := ParseClientHelloBody(message[HANDSHAKE_HEADER_LEN..]);
    }
    if sni.Failure? {
      return Failure(sni.error);
    }
    result := Success(ClientHelloInfo(sni.value, layout.consumed));
  }
}
