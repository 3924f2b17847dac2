/** One direction of a connection as a step system: a bounded pipe between two streams (crates/sni_router/src/delivery/splice.rs). */
module Pumps {
  import opened Bytes

  datatype PumpStage = Filling | Draining(remaining: nat) | Shut

  /**
   One direction. `source` is all its sender has sent so far, `ended` says that it will
   send no more, and `held` is in the pipe. `Shut` closes the receiver's side.
   */
  datatype Pump = Pump(
    source: seq<byte>, ended: bool, taken: nat, held: seq<byte>, delivered: seq<byte>, stage: PumpStage)

  datatype Transfer = In(n: nat) | Out(n: nat) | AtEnd

  const IDLE := Pump([], false, 0, [], [], Filling)

  predicate CanTransfer(pump: Pump, transfer: Transfer, capacity: nat) {
    match transfer
    case In(n) => pump.stage.Filling? && 0 < n <= capacity && pump.taken + n <= |pump.source|
    case Out(n) => pump.stage.Draining? && 0 < n <= pump.stage.remaining && n <= |pump.held|
    case AtEnd => pump.stage.Filling? && pump.ended && pump.taken == |pump.source|
  }

  function Transferred(pump: Pump, transfer: Transfer, capacity: nat): Pump
    requires CanTransfer(pump, transfer, capacity)
  {
    match transfer
    case In(n) =>
      pump.(taken := pump.taken + n, held := pump.held + pump.source[pump.taken..pump.taken + n], stage := Draining(n))
    case Out(n) =>
      pump.(held := pump.held[n..],
            delivered := pump.delivered + pump.held[..n],
            stage := if pump.stage.remaining == n then Filling else Draining(pump.stage.remaining - n))
    case AtEnd => pump.(stage := Shut)
  }

  /** What was taken is, in order, what was delivered, what waits ahead of the pipe, and what is in it. */
  ghost predicate PumpOk(pump: Pump, ahead: seq<byte>, capacity: nat) {
    && pump.taken <= |pump.source|
    && pump.delivered + ahead + pump.held == pump.source[..pump.taken]
    && |pump.held| <= capacity
    && match pump.stage
       case Filling => pump.held == []
       case Draining(remaining) => remaining == |pump.held| > 0
       case Shut => pump.held == [] && pump.ended && pump.taken == |pump.source|
  }

  lemma TransferKeeps(pump: Pump, transfer: Transfer, capacity: nat)
    requires PumpOk(pump, [], capacity) && CanTransfer(pump, transfer, capacity)
    ensures PumpOk(Transferred(pump, transfer, capacity), [], capacity)
  {
    match transfer {
      case In(n) =>
        assert pump.source[..pump.taken + n] == pump.source[..pump.taken] + pump.source[pump.taken..pump.taken + n];
      case Out(n) =>
        assert pump.held == pump.held[..n] + pump.held[n..];
        assert pump.delivered + [] + pump.held == (pump.delivered + pump.held[..n]) + [] + pump.held[n..];
      case AtEnd =>
    }
  }

  // ----- Several transfers --------------------------------------------------------------

  /** These transfers, one after another, lead from `start` to `end`. */
  ghost predicate Pumped(start: Pump, transfers: seq<Transfer>, end: Pump, capacity: nat)
    decreases |transfers|
  {
    if transfers == [] then end == start
    else
      && CanTransfer(start, transfers[0], capacity)
      && Pumped(Transferred(start, transfers[0], capacity), transfers[1..], end, capacity)
  }

  lemma {:induction false} PumpedOnce(start: Pump, transfers: seq<Transfer>, end: Pump, transfer: Transfer, capacity: nat)
    requires Pumped(start, transfers, end, capacity) && CanTransfer(end, transfer, capacity)
    ensures Pumped(start, transfers + [transfer], Transferred(end, transfer, capacity), capacity)
    decreases |transfers|
  {
    hide CanTransfer, Transferred;
    var all := transfers + [transfer];
    if transfers == [] {
      assert all[1..] == [];
    } else {
      PumpedOnce(Transferred(start, transfers[0], capacity), transfers[1..], end, transfer, capacity);
      assert all[1..] == transfers[1..] + [transfer];
    }
  }
}

/**
 Moving one direction of a connection through a kernel pipe
 (crates/sni_router/src/delivery/splice.rs, `splice_direction`).
 */
module Splice {
  import opened Wrappers
  import opened Bytes
  import opened HelloReader
  import opened Pumps

  /**
   The write half of a socket: what its peer has been given, and whether it was closed.
   `hasFailed` records that a write or the closing failed, or a write moved nothing.
   */
  class Sink {
    var delivered: seq<byte>
    var isShut: bool
    ghost var hasFailed: bool

    constructor ()
      ensures delivered == [] && !isShut && !hasFailed
    {
      delivered, isShut, hasFailed := [], false, false;
    }

    /** Closing the write half may fail. */
    method ShutdownWrite() returns (ok: bool)
      modifies this`isShut, this`hasFailed
      ensures isShut == (ok || old(isShut)) && hasFailed == (!ok || old(hasFailed))
    {
      ok := *;
      isShut := ok || isShut;
      hasFailed := !ok || hasFailed;
    }
  }

  class Pipe {
    const capacity: nat
    var held: seq<byte>

    constructor (capacity: nat)
      requires capacity > 0
      ensures held == [] && this.capacity == capacity
    {
      held, this.capacity := [], capacity;
    }

    /** Moves bytes in. Only sound on an empty pipe: a full one would look like an idle source. */
    method SpliceIn(src: ByteStream, limit: nat) returns (moved: Option<nat>)
      requires held == [] && 0 < limit <= capacity
      modifies this, src
      ensures old(src.pending) == held + src.pending && |held| <= limit
      ensures held == [] ==> src.pending == old(src.pending)
      ensures moved.Some? ==> moved.value == |held| && (held == [] ==> src.ending == Eof && src.pending == [])
      ensures moved.None? ==> held == [] && src.pending == [] && src.ending != Eof
    {
      var chunk := src.Read(limit);
      if chunk.None? {
        return None;
      }
      held := chunk.value;
      moved := Some(|held|);
    }

    /** Moves bytes out: any number up to `limit`, even none, or a failure. */
    method SpliceOut(dst: Sink, limit: nat) returns (moved: Option<nat>)
      requires limit <= |held|
      modifies this, dst`delivered, dst`hasFailed
      ensures moved.Some? ==> moved.value <= limit
      ensures dst.hasFailed == (moved.None? || moved.value == 0 || old(dst.hasFailed))
      ensures var n := if moved.Some? then moved.value else 0;
              dst.delivered == old(dst.delivered) + old(held)[..n] && held == old(held)[n..]
    {
      var n: nat :| n <= limit;
      var fails: bool := *;
      n, moved := if fails then 0 else n, if fails then None else Some(n);
      dst.hasFailed := fails || n == 0 || dst.hasFailed;
      dst.delivered := dst.delivered + held[..n];
      held := held[n..];
    }
  }

  datatype Ended = Done | Failed

  /** Bytes pulled off the source, and bytes landed at the destination. */
  class Meter {
    var read: nat
    var written: nat

    constructor ()
      ensures read == 0 && written == 0
    {
      read, written := 0, 0;
    }
  }

  /** What lies at both ends of a direction, in its pipe and on its meter. */
  datatype Ends = Ends(pending: seq<byte>, held: seq<byte>, delivered: seq<byte>, read: nat, written: nat)

  function EndsOf(src: ByteStream, dst: Sink, pipe: Pipe, meter: Meter): Ends
    reads src, dst, pipe, meter
  {
    Ends(src.pending, pipe.held, dst.delivered, meter.read, meter.written)
  }

  /** A pump before its first transfer, with a stream that is all there. */
  function Ready(stream: seq<byte>, ending: Ending): Pump {
    Pump(stream, ending == Eof, 0, [], [], Filling)
  }

  /** A pump's transfers from `start` made of `first` what lies there at last. */
  ghost predicate Follows(start: Pump, transfers: seq<Transfer>, pump: Pump, first: Ends, last: Ends, capacity: nat) {
    && Pumped(start, transfers, pump, capacity) && PumpOk(pump, [], capacity)
    && pump.source == first.pending && pump.taken <= |pump.source|
    && last.pending == pump.source[pump.taken..] && last.held == pump.held
    && last.delivered == first.delivered + pump.delivered
    && last.read == first.read + pump.taken && last.written == first.written + |pump.delivered|
  }

  /** Nothing was lost, repeated or reordered, and the meter counted what was taken and what arrived. */
  ghost predicate DeliveredInOrder(first: Ends, last: Ends, capacity: nat) {
    && last.delivered + last.held + last.pending == first.delivered + first.pending
    && |last.held| <= capacity && |last.delivered| - |first.delivered| == last.written - first.written >= 0
    && last.read - last.written == first.read - first.written + |last.held|
  }

  ghost predicate DeliveredWhole(first: Ends, last: Ends) {
    && last.pending == [] && last.held == [] && last.delivered == first.delivered + first.pending
    && last.read == first.read + |first.pending| && last.written == first.written + |first.pending|
  }

  /**
   The loop is a run of a pump: what it leaves at either end, in the pipe and on the meter
   is the pump's. So on `Done` the whole source was delivered, and only then was the write
   half closed. On `Failed` what was taken is what was delivered and what is still in the
   pipe, in order, and the write half was not closed. It fails exactly when the sink did
   or the source ends in a fault, and in the latter case alone delivers all there is.
   */
  method SpliceDirection(src: ByteStream, dst: Sink, pipe: Pipe, meter: Meter)
    returns (ended: Ended, ghost transfers: seq<Transfer>, ghost pump: Pump)
    requires pipe.held == [] && pipe.capacity > 0 && !dst.isShut && !dst.hasFailed
    modifies src, dst, pipe, meter
    ensures ended.Done? <==> !dst.hasFailed && src.ending == Eof
    ensures !dst.hasFailed ==> DeliveredWhole(old(EndsOf(src, dst, pipe, meter)), EndsOf(src, dst, pipe, meter))
    ensures Follows(Ready(old(src.pending), src.ending), transfers, pump,
                    old(EndsOf(src, dst, pipe, meter)), EndsOf(src, dst, pipe, meter), pipe.capacity)
    ensures dst.isShut == pump.stage.Shut? == ended.Done?
    ensures ended.Done? ==>
              src.ending == Eof && DeliveredWhole(old(EndsOf(src, dst, pipe, meter)), EndsOf(src, dst, pipe, meter))
    ensures DeliveredInOrder(old(EndsOf(src, dst, pipe, meter)), EndsOf(src, dst, pipe, meter), pipe.capacity)
  {
    hide CanTransfer, Transferred, Follows, DeliveredWhole, DeliveredInOrder;
    var chunk := pipe.capacity;
    ghost var first, start := EndsOf(src, dst, pipe, meter), Ready(src.pending, src.ending);
    transfers, pump := [], start;
    ReadyFollows(src.ending, first, chunk);
    while true
      invariant Follows(start, transfers, pump, first, EndsOf(src, dst, pipe, meter), chunk)
      invariant pump.stage.Filling? && pump.ended == (src.ending == Eof) && pipe.held == []
      invariant !dst.isShut && !dst.hasFailed
      decreases |src.pending|
    {
      ghost var before := EndsOf(src, dst, pipe, meter);
      var read := pipe.SpliceIn(src, chunk);
      if read.None? {
        assert EndsOf(src, dst, pipe, meter) == before;
        AllThere(start, transfers, pump, first, before, chunk);
        return Failed, transfers, pump;
      }
      if read.value == 0 {
        assert EndsOf(src, dst, pipe, meter) == before;
        break;
      }
      meter.read := meter.read + read.value;
      var remaining := read.value;
      transfers, pump := PumpsIn(start, transfers, pump, first, before, EndsOf(src, dst, pipe, meter), chunk);
      while remaining > 0
        invariant Follows(start, transfers, pump, first, EndsOf(src, dst, pipe, meter), chunk)
        invariant pump.stage == if remaining > 0 then Draining(remaining) else Filling
        invariant pump.ended == (src.ending == Eof) && remaining == |pipe.held| && !dst.isShut && !dst.hasFailed
        invariant |src.pending| < |before.pending|
      {
        ghost var held := EndsOf(src, dst, pipe, meter);
        var written := pipe.SpliceOut(dst, remaining);
        if written.None? || written.value == 0 {
          assert EndsOf(src, dst, pipe, meter) == held;
          AllThere(start, transfers, pump, first, held, chunk);
          return Failed, transfers, pump;
        }
        meter.written := meter.written + written.value;
        transfers, pump := PumpsOut(start, transfers, pump, first, held, EndsOf(src, dst, pipe, meter), chunk);
        remaining := remaining - written.value;
      }
    }
    AllThere(start, transfers, pump, first, EndsOf(src, dst, pipe, meter), chunk);
    var ok := dst.ShutdownWrite();
    ended := if ok then Done else Failed;
    if ok {
      transfers, pump := PumpsToTheEnd(start, transfers, pump, first, EndsOf(src, dst, pipe, meter), chunk);
    }
  }

  lemma ReadyFollows(ending: Ending, first: Ends, capacity: nat)
    requires first.held == []
    ensures Follows(Ready(first.pending, ending), [], Ready(first.pending, ending), first, first, capacity)
  {
  }

  lemma PumpsIn(start: Pump, transfers: seq<Transfer>, pump: Pump, first: Ends, before: Ends, after: Ends, capacity: nat)
    returns (more: seq<Transfer>, next: Pump)
    requires Follows(start, transfers, pump, first, before, capacity) && pump.stage.Filling?
    requires before.pending == after.held + after.pending && 0 < |after.held| <= capacity
    requires after == before.(pending := after.pending, held := after.held, read := before.read + |after.held|)
    ensures Follows(start, more, next, first, after, capacity)
    ensures more == transfers + [In(|after.held|)] && next.stage == Draining(|after.held|) && next.ended == pump.ended
  {
    var n := |after.held|;
    assert pump.source[pump.taken..pump.taken + n] == before.pending[..n] == after.held;
    assert pump.source[pump.taken + n..] == before.pending[n..] == after.pending;
    TransferKeeps(pump, In(n), capacity);
    PumpedOnce(start, transfers, pump, In(n), capacity);
    more, next := transfers + [In(n)], Transferred(pump, In(n), capacity);
  }

  lemma PumpsOut(start: Pump, transfers: seq<Transfer>, pump: Pump, first: Ends, before: Ends, after: Ends, capacity: nat)
    returns (more: seq<Transfer>, next: Pump)
    requires Follows(start, transfers, pump, first, before, capacity) && pump.stage.Draining?
    requires |after.held| < |before.held| && after.held == before.held[|before.held| - |after.held|..]
    requires var n := |before.held| - |after.held|;
             after == before.(held := after.held, delivered := before.delivered + before.held[..n],
                              written := before.written + n)
    ensures Follows(start, more, next, first, after, capacity) && next.ended == pump.ended
    ensures more == transfers + [Out(|before.held| - |after.held|)]
    ensures next.stage == if after.held == [] then Filling else Draining(|after.held|)
  {
    var n := |before.held| - |after.held|;
    TransferKeeps(pump, Out(n), capacity);
    PumpedOnce(start, transfers, pump, Out(n), capacity);
    more, next := transfers + [Out(n)], Transferred(pump, Out(n), capacity);
  }

  lemma PumpsToTheEnd(start: Pump, transfers: seq<Transfer>, pump: Pump, first: Ends, last: Ends, capacity: nat)
    returns (more: seq<Transfer>, next: Pump)
    requires Follows(start, transfers, pump, first, last, capacity)
    requires pump.stage.Filling? && pump.ended && last.pending == []
    ensures Follows(start, more, next, first, last, capacity)
    ensures more == transfers + [AtEnd] && next.stage.Shut?
  {
    TransferKeeps(pump, AtEnd, capacity);
    PumpedOnce(start, transfers, pump, AtEnd, capacity);
    more, next := transfers + [AtEnd], Transferred(pump, AtEnd, capacity);
  }

  /** What was delivered, is held and is pending is what was pending at first; and the meter shows it. */
  lemma AllThere(start: Pump, transfers: seq<Transfer>, pump: Pump, first: Ends, last: Ends, capacity: nat)
    requires Follows(start, transfers, pump, first, last, capacity)
    ensures DeliveredInOrder(first, last, capacity)
    ensures last.held == [] && last.pending == [] ==> DeliveredWhole(first, last)
  {
    assert pump.delivered + pump.held == pump.delivered + [] + pump.held == pump.source[..pump.taken];
    assert pump.source == pump.source[..pump.taken] + pump.source[pump.taken..];
  }
}

/**
 The bytes of one connection from its first read to its end: the hello is read, all of it
 is replayed to the backend, and then both directions are spliced, interleaved in any way
 (crates/sni_router/src/delivery/hello_reader.rs, connection.rs, splice.rs).
 */
module Relay {
  import opened Wrappers
  import opened Bytes
  import opened Protocol
  import opened Records
  import opened Pumps

  datatype Phase =
    | Reading
    | Replaying(info: ClientHelloInfo)
    | Copying(info: ClientHelloInfo)
    | Finished(info: ClientHelloInfo)
    | Broken

  /** `buffered` is what the hello reader took, `replayed` how much of it the backend was given. */
  datatype System = System(
    up: Pump, down: Pump, phase: Phase, buffered: seq<byte>, replayed: nat, readTotal: nat, writtenTotal: nat)

  const INITIAL := System(IDLE, IDLE, Reading, [], 0, 0, 0)

  datatype Config = Config(limits: HelloLimits, capacity: nat)

  datatype Event =
    | ClientSends(bytes: seq<byte>)
    | ClientEnds
    | BackendSends(bytes: seq<byte>)
    | BackendEnds
    | ReadHello(n: nat)
    | Replay(n: nat)
    | UpTransfer(transfer: Transfer)
    | DownTransfer(transfer: Transfer)
    | Finish
    | Break

  predicate Enabled(s: System, e: Event, config: Config) {
    match e
    case ClientSends(_) => !s.up.ended
    case ClientEnds => !s.up.ended
    case BackendSends(_) => !s.down.ended
    case BackendEnds => !s.down.ended
    case ReadHello(n) =>
      s.phase.Reading? && n > 0 && s.up.taken + n <= |s.up.source| && |s.buffered| + n <= config.limits.MaxWireBytes()
    case Replay(n) => s.phase.Replaying? && n > 0 && s.replayed + n <= |s.buffered|
    case UpTransfer(transfer) => s.phase.Copying? && CanTransfer(s.up, transfer, config.capacity)
    case DownTransfer(transfer) => s.phase.Copying? && CanTransfer(s.down, transfer, config.capacity)
    case Finish => s.phase.Copying? && s.up.stage.Shut? && s.down.stage.Shut?
    case Break => !s.phase.Finished? && !s.phase.Broken?
  }

  /** A read, and what the parser makes of all that was read. */
  function AfterRead(s: System, n: nat, config: Config): System
    requires Enabled(s, ReadHello(n), config)
  {
    var buffered := s.buffered + s.up.source[s.up.taken..s.up.taken + n];
    s.(up := s.up.(taken := s.up.taken + n),
       buffered := buffered,
       readTotal := s.readTotal + n,
       phase := match ParseHello(buffered, config.limits)
                case Success(info) => Replaying(info)
                case Failure(Incomplete) => Reading
                case Failure(_) => Broken)
  }

  function AfterReplay(s: System, n: nat, config: Config): System
    requires Enabled(s, Replay(n), config)
  {
    s.(up := s.up.(delivered := s.up.delivered + s.buffered[s.replayed..s.replayed + n]),
       replayed := s.replayed + n,
       phase := if s.replayed + n == |s.buffered| then Copying(s.phase.info) else s.phase)
  }

  function Apply(s: System, e: Event, config: Config): System
    requires Enabled(s, e, config)
  {
    match e
    case ClientSends(bytes) => s.(up := s.up.(source := s.up.source + bytes))
    case ClientEnds => s.(up := s.up.(ended := true))
    case BackendSends(bytes) => s.(down := s.down.(source := s.down.source + bytes))
    case BackendEnds => s.(down := s.down.(ended := true))
    case ReadHello(n) => AfterRead(s, n, config)
    case Replay(n) => AfterReplay(s, n, config)
    case UpTransfer(transfer) =>
      s.(up := Transferred(s.up, transfer, config.capacity),
         readTotal := if transfer.In? then s.readTotal + transfer.n else s.readTotal)
    case DownTransfer(transfer) =>
      s.(down := Transferred(s.down, transfer, config.capacity),
         writtenTotal := if transfer.Out? then s.writtenTotal + transfer.n else s.writtenTotal)
    case Finish => s.(phase := Finished(s.phase.info))
    case Break => s.(phase := Broken)
  }

  ghost predicate Leads(s: System, events: seq<Event>, t: System, config: Config)
    decreases |events|
  {
    if events == [] then t == s
    else Enabled(s, events[0], config) && Leads(Apply(s, events[0], config), events[1..], t, config)
  }

  // ----- Conservation ---------------------------------------------------------------------

  ghost predicate HelloOk(s: System, limits: HelloLimits) {
    && (s.phase.Reading? ==> ParseHello(s.buffered, limits) == Failure(Incomplete))
    && (s.phase.Replaying? || s.phase.Copying? || s.phase.Finished? ==>
          ParseHello(s.buffered, limits) == Success(s.phase.info) && s.buffered <= s.up.source)
  }

  ghost predicate Inv(s: System, config: Config) {
    && s.replayed <= |s.buffered| <= config.limits.MaxWireBytes()
    && PumpOk(s.up, s.buffered[s.replayed..], config.capacity)
    && PumpOk(s.down, [], config.capacity)
    && HelloOk(s, config.limits)
    && s.readTotal == s.up.taken && s.writtenTotal == |s.down.delivered|
    && (s.phase.Reading? ==> s.replayed == 0 && s.buffered == s.up.source[..s.up.taken])
    && (s.phase.Reading? || s.phase.Replaying? ==> s.up.stage.Filling?)
    && (s.phase.Copying? || s.phase.Finished? ==> s.replayed == |s.buffered|)
    && (s.phase.Finished? ==> s.up.stage.Shut? && s.down.stage.Shut?)
    && (s.up.stage.Shut? ==> s.replayed == |s.buffered|)
  }

  lemma SendKeeps(pump: Pump, ahead: seq<byte>, bytes: seq<byte>, capacity: nat)
    requires PumpOk(pump, ahead, capacity) && !pump.ended
    ensures PumpOk(pump.(source := pump.source + bytes), ahead, capacity)
  {
    assert (pump.source + bytes)[..pump.taken] == pump.source[..pump.taken];
  }

  lemma ReadKeeps(s: System, n: nat, config: Config)
    requires Inv(s, config) && Enabled(s, ReadHello(n), config)
    ensures Inv(AfterRead(s, n, config), config)
  {
    hide ParseHello;
    var after := AfterRead(s, n, config);
    assert s.up.source[..after.up.taken] == s.up.source[..s.up.taken] + s.up.source[s.up.taken..after.up.taken];
    assert s.up.delivered == [];
    assert after.buffered == s.up.source[..after.up.taken];
  }

  lemma ReplayKeeps(s: System, n: nat, config: Config)
    requires Inv(s, config) && Enabled(s, Replay(n), config)
    ensures Inv(AfterReplay(s, n, config), config)
  {
    hide ParseHello;
    var after := AfterReplay(s, n, config);
    assert s.buffered[s.replayed..] == s.buffered[s.replayed..after.replayed] + s.buffered[after.replayed..];
    assert after.up.delivered + after.buffered[after.replayed..] == s.up.delivered + s.buffered[s.replayed..];
  }

  lemma StepKeeps(s: System, e: Event, config: Config)
    requires Inv(s, config) && Enabled(s, e, config)
    ensures Inv(Apply(s, e, config), config)
  {
    hide ParseHello;
    match e {
      case ClientSends(bytes) => SendKeeps(s.up, s.buffered[s.replayed..], bytes, config.capacity);
      case BackendSends(bytes) => SendKeeps(s.down, [], bytes, config.capacity);
      case ReadHello(n) => ReadKeeps(s, n, config);
      case Replay(n) => ReplayKeeps(s, n, config);
      case UpTransfer(transfer) => TransferKeeps(s.up, transfer, config.capacity);
      case DownTransfer(transfer) => TransferKeeps(s.down, transfer, config.capacity);
      case _ =>
    }
  }

  lemma {:induction false} RunsKeep(s: System, events: seq<Event>, t: System, config: Config)
    requires Inv(s, config) && Leads(s, events, t, config)
    ensures Inv(t, config)
    decreases |events|
  {
    hide Inv, Enabled, Apply;
    if events != [] {
      StepKeeps(s, events[0], config);
      RunsKeep(Apply(s, events[0], config), events[1..], t, config);
    }
  }

  lemma InitialOk(config: Config)
    ensures Inv(INITIAL, config)
  {
  }

  // ----- Results ---------------------------------------------------------------------------

  /**
   In every reachable state each receiver has an in-order, gap-free, duplicate-free prefix
   of what its sender sent. What was taken off the client is what the backend has, what is
   to be replayed and what the pipe holds, and never more than the wire cap and a pipe of
   it is in between. A receiver's side is closed only after everything sent was delivered.
   */
  lemma BytesAreConserved(events: seq<Event>, s: System, config: Config)
    requires Leads(INITIAL, events, s, config)
    ensures s.up.delivered <= s.up.source && s.down.delivered <= s.down.source
    ensures s.readTotal == |s.up.delivered| + (|s.buffered| - s.replayed) + |s.up.held|
    ensures s.writtenTotal == |s.down.delivered|
    ensures |s.buffered| <= config.limits.MaxWireBytes()
    ensures |s.up.held| <= config.capacity && |s.down.held| <= config.capacity
    ensures s.up.stage.Shut? ==> s.up.ended && s.up.delivered == s.up.source
    ensures s.down.stage.Shut? ==> s.down.ended && s.down.delivered == s.down.source
  {
    hide ParseHello;
    InitialOk(config);
    RunsKeep(INITIAL, events, s, config);
    var up, down := s.up, s.down;
    assert up.source[..up.taken] <= up.source && down.source[..down.taken] <= down.source;
    assert up.delivered <= up.delivered + s.buffered[s.replayed..] + up.held;
    assert down.delivered <= down.delivered + [] + down.held;
  }

  /** A connection that finishes has delivered both streams whole, and its totals are their lengths. */
  lemma FinishedIsWhole(events: seq<Event>, s: System, config: Config)
    requires Leads(INITIAL, events, s, config) && s.phase.Finished?
    ensures s.up.delivered == s.up.source && s.down.delivered == s.down.source
    ensures s.readTotal == |s.up.source| && s.writtenTotal == |s.down.source|
  {
    hide ParseHello;
    InitialOk(config);
    RunsKeep(INITIAL, events, s, config);
    BytesAreConserved(events, s, config);
  }

  /** The backend reads the very hello the router routed by, from the first spliced byte on. */
  lemma BackendSeesTheHello(events: seq<Event>, s: System, config: Config)
    requires Leads(INITIAL, events, s, config) && (s.phase.Copying? || s.phase.Finished?)
    ensures ParseHello(s.up.delivered, config.limits) == Success(s.phase.info)
    ensures ParseHello(s.up.source, config.limits) == Success(s.phase.info)
  {
    hide ParseHello;
    InitialOk(config);
    RunsKeep(INITIAL, events, s, config);
    BytesAreConserved(events, s, config);
    ReplayedWhole(INITIAL, events, s, config);
    VerdictIsStable(s.buffered, s.up.delivered[|s.buffered|..], config.limits);
    VerdictIsStable(s.buffered, s.up.source[|s.buffered|..], config.limits);
    assert s.up.delivered == s.buffered + s.up.delivered[|s.buffered|..];
    assert s.up.source == s.buffered + s.up.source[|s.buffered|..];
  }

  /** What was replayed stays at the head of what the backend has. */
  lemma {:induction false} ReplayedWhole(s: System, events: seq<Event>, t: System, config: Config)
    requires Inv(s, config) && Leads(s, events, t, config) && s.buffered[..s.replayed] <= s.up.delivered
    ensures t.replayed <= |t.buffered| && t.buffered[..t.replayed] <= t.up.delivered
    decreases |events|
  {
    hide Leads, Inv, ParseHello;
    LeadsOne(s, events, t, config);
    InvBounds(s, config);
    if events != [] {
      StepKeeps(s, events[0], config);
      var next := Apply(s, events[0], config);
      ReplayedStep(s, events[0], config);
      ReplayedWhole(next, events[1..], t, config);
    }
  }

  lemma InvBounds(s: System, config: Config)
    requires Inv(s, config)
    ensures s.replayed <= |s.buffered|
    ensures s.phase.Reading? ==> s.replayed == 0 && s.up.delivered == []
    ensures s.phase.Replaying? ==> s.up.delivered + s.buffered[s.replayed..] == s.up.source[..s.up.taken]
  {
  }

  lemma ReplayedStep(s: System, e: Event, config: Config)
    requires Inv(s, config) && Enabled(s, e, config) && s.buffered[..s.replayed] <= s.up.delivered
    ensures var next := Apply(s, e, config);
            next.replayed <= |next.buffered| && next.buffered[..next.replayed] <= next.up.delivered
  {
    hide ParseHello;
  }

  lemma LeadsOne(s: System, events: seq<Event>, t: System, config: Config)
    requires Leads(s, events, t, config)
    ensures events == [] ==> t == s
    ensures events != [] ==> Enabled(s, events[0], config) && Leads(Apply(s, events[0], config), events[1..], t, config)
  {
  }

  // ----- Half-close and the end ---------------------------------------------------------------

  function PumpWork(pump: Pump): int {
    2 * (|pump.source| - pump.taken) + |pump.held| + if pump.stage.Shut? then 0 else 1
  }

  /** Steps left at most to a copying connection whose peers have both finished sending. */
  function Work(s: System): int {
    PumpWork(s.up) + PumpWork(s.down) + if s.phase.Copying? then 1 else 0
  }

  lemma CopyingDescends(s: System, e: Event, config: Config)
    requires Inv(s, config) && s.phase.Copying? && s.up.ended && s.down.ended && Enabled(s, e, config)
    ensures Work(s) > 0 && 0 <= Work(Apply(s, e, config)) < Work(s)
    ensures e != Break ==> (Apply(s, e, config).phase.Copying? || Apply(s, e, config).phase.Finished?)
  {
    hide ParseHello;
  }

  /** A step one direction can always take, whatever has become of the other. */
  function NextTransfer(pump: Pump, capacity: nat): Transfer {
    match pump.stage
    case Draining(remaining) => Out(remaining)
    case _ =>
      var left := |pump.source| - pump.taken;
      if left <= 0 then AtEnd else In(if left < capacity then left else capacity)
  }

  /** Each direction goes on by itself: the other's end, or its peer's silence, does not stop it. */
  lemma DirectionsAreIndependent(s: System, config: Config)
    requires Inv(s, config) && s.phase.Copying? && config.capacity > 0
    ensures s.up.ended && !s.up.stage.Shut? ==>
              Enabled(s, UpTransfer(NextTransfer(s.up, config.capacity)), config)
    ensures s.down.ended && !s.down.stage.Shut? ==>
              Enabled(s, DownTransfer(NextTransfer(s.down, config.capacity)), config)
    ensures s.up.stage.Shut? && s.down.stage.Shut? ==> Enabled(s, Finish, config)
  {
    hide ParseHello;
  }

  /** Once both peers are done sending, every run of a copying connection is short. */
  lemma {:induction false} CopyingRunsAreShort(s: System, events: seq<Event>, t: System, config: Config)
    requires Inv(s, config) && s.phase.Copying? && s.up.ended && s.down.ended && Leads(s, events, t, config)
    ensures |events| <= Work(s)
    decreases |events|
  {
    hide Inv, Leads, Work, ParseHello;
    LeadsOne(s, events, t, config);
    if events == [] {
      WorkIsNatural(s, config);
    } else {
      var e := events[0];
      var next := Apply(s, e, config);
      CopyingDescends(s, e, config);
      StepKeeps(s, e, config);
      if next.phase.Copying? {
        CopyingRunsAreShort(next, events[1..], t, config);
      } else {
        OverIsOver(next, events[1..], t, config);
      }
    }
  }

  lemma WorkIsNatural(s: System, config: Config)
    requires Inv(s, config)
    ensures Work(s) >= 0
  {
    hide ParseHello;
  }

  lemma OverIsOver(s: System, events: seq<Event>, t: System, config: Config)
    requires s.phase.Finished? || s.phase.Broken?
    requires s.up.ended && s.down.ended && Leads(s, events, t, config)
    ensures events == [] && t == s
  {
  }

  /** And one of them finishes. */
  lemma {:induction false} CopyingCanFinish(s: System, config: Config) returns (events: seq<Event>, t: System)
    requires Inv(s, config) && s.phase.Copying? && s.up.ended && s.down.ended && config.capacity > 0
    ensures Leads(s, events, t, config) && t.phase == Finished(s.phase.info) && Break !in events
    ensures t.up.source == s.up.source && t.down.source == s.down.source && Inv(t, config)
    decreases Work(s)
  {
    hide Inv, Work, ParseHello, Leads;
    DirectionsAreIndependent(s, config);
    var e := if !s.up.stage.Shut? then UpTransfer(NextTransfer(s.up, config.capacity))
             else if !s.down.stage.Shut? then DownTransfer(NextTransfer(s.down, config.capacity))
             else Finish;
    CopyingDescends(s, e, config);
    StepKeeps(s, e, config);
    var next := Apply(s, e, config);
    if next.phase.Finished? {
      events, t := [], next;
      LeadsNone(next, config);
    } else {
      events, t := CopyingCanFinish(next, config);
    }
    LeadsFirst(s, e, events, t, config);
    events := [e] + events;
  }

  lemma LeadsNone(s: System, config: Config)
    ensures Leads(s, [], s, config)
  {
  }

  lemma LeadsFirst(s: System, e: Event, events: seq<Event>, t: System, config: Config)
    requires Enabled(s, e, config) && Leads(Apply(s, e, config), events, t, config)
    ensures Leads(s, [e] + events, t, config)
  {
    assert ([e] + events)[1..] == events;
  }

  // ----- The loop in a run ------------------------------------------------------------------

  /** What pumps one direction, as `Splice.SpliceDirection` does, is a run of a copying connection. */
  lemma {:induction false} UpPumpIsARun(s: System, transfers: seq<Transfer>, up: Pump, config: Config)
    returns (events: seq<Event>, t: System)
    requires s.phase.Copying? && Pumped(s.up, transfers, up, config.capacity)
    ensures Leads(s, events, t, config) && |events| == |transfers|
    ensures t == s.(up := up, readTotal := t.readTotal) && t.readTotal - s.readTotal == up.taken - s.up.taken
    decreases |transfers|
  {
    if transfers == [] {
      events, t := [], s;
    } else {
      var e := UpTransfer(transfers[0]);
      var next := Apply(s, e, config);
      events, t := UpPumpIsARun(next, transfers[1..], up, config);
      LeadsFirst(s, e, events, t, config);
      events := [e] + events;
    }
  }

  lemma {:induction false} DownPumpIsARun(s: System, transfers: seq<Transfer>, down: Pump, config: Config)
    returns (events: seq<Event>, t: System)
    requires s.phase.Copying? && Pumped(s.down, transfers, down, config.capacity)
    ensures Leads(s, events, t, config) && |events| == |transfers|
    ensures t == s.(down := down, writtenTotal := t.writtenTotal)
    ensures t.writtenTotal - s.writtenTotal == |down.delivered| - |s.down.delivered|
    decreases |transfers|
  {
    if transfers == [] {
      events, t := [], s;
    } else {
      var e := DownTransfer(transfers[0]);
      var next := Apply(s, e, config);
      events, t := DownPumpIsARun(next, transfers[1..], down, config);
      LeadsFirst(s, e, events, t, config);
      events := [e] + events;
    }
  }

  // ----- From the first byte to the last -------------------------------------------------------

  /** Once all of an acceptable hello is there, reading takes it, whatever was read before. */
  lemma HelloCanBeRead(s: System, config: Config, info: ClientHelloInfo) returns (e: Event)
    requires Inv(s, config) && s.phase.Reading?
    requires ParseHello(s.up.source, config.limits) == Success(info) && info.consumed <= config.limits.MaxWireBytes()
    ensures e.ReadHello? && Enabled(s, e, config)
    ensures var t := Apply(s, e, config);
            && t.phase == Replaying(info) && t.buffered != [] && t.replayed == 0
            && t.down == s.down && t.up.source == s.up.source && t.up.ended == s.up.ended
  {
    hide ParseHello;
    var source, max := s.up.source, config.limits.MaxWireBytes();
    VerdictThreshold(source, config.limits, info);
    var all := if |source| <= max then |source| else max;
    assert source[..info.consumed] <= source[..all];
    NotYetWhole(source, s.up.taken, config.limits, info);
    e := ReadHello(all - s.up.taken);
    assert s.buffered + source[s.up.taken..all] == source[..all];
  }

  lemma NotYetWhole(source: seq<byte>, taken: nat, limits: HelloLimits, info: ClientHelloInfo)
    requires ParseHello(source, limits) == Success(info) && taken <= |source|
    ensures ParseHello(source[..taken], limits) == Failure(Incomplete) ==> taken < info.consumed
  {
    hide ParseHello;
    VerdictThreshold(source, limits, info);
    if taken >= info.consumed {
      assert source[..info.consumed] <= source[..taken];
    }
  }

  lemma HelloCanBeReplayed(s: System, config: Config) returns (e: Event)
    requires Inv(s, config) && s.phase.Replaying? && s.replayed < |s.buffered|
    ensures e.Replay? && Enabled(s, e, config)
    ensures var t := Apply(s, e, config);
            && t.phase == Copying(s.phase.info)
            && t.down == s.down && t.up.source == s.up.source && t.up.ended == s.up.ended
  {
    hide ParseHello;
    e := Replay(|s.buffered| - s.replayed);
  }

  /**
   From every state in which the hello is still being read: when the client's whole stream
   starts with an acceptable hello and both peers are done, the connection can finish, and
   both have then been given all the other sent.
   */
  lemma HelloCanBeRelayed(s: System, config: Config, info: ClientHelloInfo) returns (events: seq<Event>, t: System)
    requires Inv(s, config) && s.phase.Reading? && s.up.ended && s.down.ended && config.capacity > 0
    requires ParseHello(s.up.source, config.limits) == Success(info) && info.consumed <= config.limits.MaxWireBytes()
    ensures Leads(s, events, t, config) && Break !in events && t.phase == Finished(info)
    ensures t.up.delivered == s.up.source && t.down.delivered == s.down.source
  {
    hide Leads, ParseHello;
    var read := HelloCanBeRead(s, config, info);
    StepKeeps(s, read, config);
    var replaying := Apply(s, read, config);
    var replay := HelloCanBeReplayed(replaying, config);
    StepKeeps(replaying, replay, config);
    var copying := Apply(replaying, replay, config);
    hide Inv, Apply, Enabled;
    events, t := CopyingCanFinish(copying, config);
    LeadsFirst(replaying, replay, events, t, config);
    LeadsFirst(s, read, [replay] + events, t, config);
    events := [read] + ([replay] + events);
    FinishedPumps(t, config);
  }

  lemma FinishedPumps(s: System, config: Config)
    requires Inv(s, config) && s.phase.Finished?
    ensures s.up.delivered == s.up.source && s.down.delivered == s.down.source
  {
    hide ParseHello;
  }

  /** So any two streams, the client's starting with an acceptable hello, can be relayed whole. */
  lemma StreamsCanBeRelayed(client: seq<byte>, backend: seq<byte>, config: Config, info: ClientHelloInfo)
    returns (events: seq<Event>, t: System)
    requires config.capacity > 0
    requires ParseHello(client, config.limits) == Success(info) && info.consumed <= config.limits.MaxWireBytes()
    ensures Leads(INITIAL, events, t, config) && t.phase == Finished(info)
    ensures t.up.delivered == client && t.down.delivered == backend
  {
    hide Leads, ParseHello;
    var s1 := Apply(INITIAL, ClientSends(client), config);
    var s2 := Apply(s1, ClientEnds, config);
    var s3 := Apply(s2, BackendSends(backend), config);
    var s4 := Apply(s3, BackendEnds, config);
    assert [] + client == client && [] + backend == backend;
    InitialOk(config);
    StepKeeps(INITIAL, ClientSends(client), config);
    StepKeeps(s1, ClientEnds, config);
    StepKeeps(s2, BackendSends(backend), config);
    StepKeeps(s3, BackendEnds, config);
    hide Inv;
    events, t := HelloCanBeRelayed(s4, config, info);
    LeadsFirst(s3, BackendEnds, events, t, config);
    LeadsFirst(s2, BackendSends(backend), [BackendEnds] + events, t, config);
    LeadsFirst(s1, ClientEnds, [BackendSends(backend)] + ([BackendEnds] + events), t, config);
    LeadsFirst(INITIAL, ClientSends(client), [ClientEnds] + ([BackendSends(backend)] + ([BackendEnds] + events)), t, config);
    events := [ClientSends(client)] + ([ClientEnds] + ([BackendSends(backend)] + ([BackendEnds] + events)));
  }

  // ----- Refusals --------------------------------------------------------------------------

  /** A connection that broke did so because the stream as it is by now is definitely refused. */
  ghost predicate BrokeForTheHello(s: System, limits: HelloLimits) {
    s.phase.Broken? ==>
      ParseHello(s.up.source, limits).Failure? && ParseHello(s.up.source, limits) != Failure(Incomplete)
  }

  lemma RefusedForTheHello(s: System, e: Event, config: Config)
    requires Inv(s, config) && Enabled(s, e, config) && e != Break && BrokeForTheHello(s, config.limits)
    ensures BrokeForTheHello(Apply(s, e, config), config.limits)
  {
    hide ParseHello;
    match e {
      case ClientSends(bytes) =>
        if s.phase.Broken? {
          VerdictIsStable(s.up.source, bytes, config.limits);
        }
      case ReadHello(n) =>
        var all := s.up.taken + n;
        assert s.buffered + s.up.source[s.up.taken..all] == s.up.source[..all];
        if ParseHello(s.up.source[..all], config.limits) != Failure(Incomplete) {
          assert s.up.source[..all] + s.up.source[all..] == s.up.source;
          VerdictIsStable(s.up.source[..all], s.up.source[all..], config.limits);
        }
      case _ =>
    }
  }

  /** In every run without a failure or cancellation, a connection breaks only for a hello that is definitely refused. */
  lemma {:induction false} OnlyRefusalsBreak(s: System, events: seq<Event>, t: System, config: Config)
    requires Inv(s, config) && BrokeForTheHello(s, config.limits) && Leads(s, events, t, config) && Break !in events
    ensures BrokeForTheHello(t, config.limits)
    decreases |events|
  {
    hide Inv, Enabled, Apply, BrokeForTheHello, ParseHello;
    if events != [] {
      assert events[0] in events;
      RefusedForTheHello(s, events[0], config);
      StepKeeps(s, events[0], config);
      OnlyRefusalsBreak(Apply(s, events[0], config), events[1..], t, config);
    }
  }

  /** So a client whose stream may still be, or is, an acceptable hello is never turned away by a read. */
  lemma AcceptableIsNotRefused(events: seq<Event>, s: System, config: Config)
    requires Leads(INITIAL, events, s, config) && Break !in events
    requires ParseHello(s.up.source, config.limits).Success? || ParseHello(s.up.source, config.limits) == Failure(Incomplete)
    ensures !s.phase.Broken?
  {
    hide ParseHello;
    InitialOk(config);
    OnlyRefusalsBreak(INITIAL, events, s, config);
  }
}
