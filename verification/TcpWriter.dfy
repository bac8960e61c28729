/** Write calls that wait: for the slot before they send, and for the
    acknowledgement after. Between two turns of the wait anything may happen to
    either end.

    What a call answers is compared with what left and with what arrived. */
module TcpWriter {
  import opened SequenceNumbers
  import opened TcpReassembly
  import opened TcpEndpoint
  import opened TcpTransfer

  /** One writer on the socket `w.me`: the call under way, if any, with its data; what calls reported as
      written; and whether a call failed after its segment had left. */
  datatype Writer = Writer(w: World, call: Progress, chunk: seq<Byte>, reported: seq<Byte>, denied: bool)

  const IDLE := Answered(Took(0))

  datatype Event =
    | Net(action: Action, mine: bool)
    | Begin(data: seq<Byte>, blocking: bool, now: nat)
    | Turn(timeout: nat, now: nat, stop: bool)

  /** What a reply adds to what was reported. */
  function Reported(reported: seq<Byte>, chunk: seq<Byte>, progress: Progress): seq<Byte> {
    if progress.Answered? && progress.reply.Took? then reported + chunk else reported
  }

  /** The side after the socket became `e`; `sent` is what the call put on the wire. */
  function Moved(side: Side, e: Endpoint, sent: seq<Byte>): Side { side.(e := e, written := side.written + sent) }

  /** The call's data leaves now: the slot is free, whether or not the connection is still there. */
  predicate Leaves(e: Endpoint, call: Call) { call.ForSlot? && !e.tx.pending }

  /** The writer's own sends leave; a call under way keeps its socket from being closed. Anything else is a
      step of the network, the timer, the reader or the peer. */
  predicate Next(s: Writer, s': Writer, event: Event) {
    match event
    case Net(action, mine) =>
      && !(mine && (action.WriteData? || (action.Shut? && s.call.Waiting?)))
      && Step(s.w, s'.w, action, mine) && s' == s.(w := s'.w)
    case Begin(data, blocking, now) =>
      var after := WriteBegun(s.w.me.e, data, blocking, now, Sent);
      var chunk := if CanWrite(s.w.me.e) || after.1.Waiting? then Chunk(data) else [];
      var sent := if CanWrite(s.w.me.e) then chunk else [];
      && s.call.Answered?
      && s' == Writer(World(Moved(s.w.me, after.0, sent), s.w.peer), after.1, chunk,
                      Reported(s.reported, chunk, after.1), s.denied)
    case Turn(timeout, now, stop) =>
      && s.call.Waiting?
      && var after := WriteTurn(s.w.me.e, s.call.call, timeout, now, stop, Sent);
         var sent := if Leaves(s.w.me.e, s.call.call) then s.chunk else [];
         s' == Writer(World(Moved(s.w.me, after.0, sent), s.w.peer), after.1, s.chunk,
                      Reported(s.reported, s.chunk, after.1),
                      s.denied || (s.call.call.ForAck? && after.1.Answered? && !after.1.reply.Took?))
  }

  /** The bytes of the call under way that are on the wire and not yet reported. */
  function Unreported(s: Writer): seq<Byte> { if s.call.Waiting? && s.call.call.ForAck? then s.chunk else [] }

  predicate CallOk(s: Writer) {
    s.call.Waiting? ==>
      && s.w.me.e.inUse && 0 < |s.chunk| <= SEGMENT_MAX
      && match s.call.call
         case ForSlot(chunk, _) => chunk == s.chunk
         case ForAck(count, _) => count == |s.chunk|
  }

  /** What was reported and is about to be is what was written, until a call fails after its segment left;
      from then on it is less. */
  predicate Good(s: Writer) {
    && Inv(s.w) && CallOk(s)
    && if s.denied then |s.reported| + |Unreported(s)| < |s.w.me.written|
         else s.reported + Unreported(s) == s.w.me.written
  }

  // ----- every step keeps it

  lemma ArmIsWrite(side: Side, data: seq<Byte>, now: nat)
    requires CanArm(side.e) && data != []
    ensures Moved(side, ArmData(side.e, Chunk(data), now, Sent), Chunk(data)) == Wrote(side, data, now, Sent)
  {
  }

  lemma NothingMoved(side: Side)
    ensures Moved(side, side.e, []) == side
  {
  }

  lemma NetKeeps(s: Writer, s': Writer, action: Action, mine: bool)
    requires Good(s) && Next(s, s', Net(action, mine))
    ensures Good(s')
  {
    StepKeeps(s.w, s'.w, action, mine);
    SameWritten(s.w, s'.w, action, mine);
    hide Inv, Step;
  }

  lemma SameWritten(w: World, w': World, action: Action, mine: bool)
    requires Step(w, w', action, mine) && !(mine && action.WriteData?)
    ensures w'.me.written == w.me.written && (!(mine && action.Shut?) ==> w.me.e.inUse ==> w'.me.e.inUse)
  {
    if mine {
      match action
      case Timer(now, link) => ServiceUse(w.me.e, now, link);
      case Arrival(index, link, cells) => DeliverUse(w.me.e, w.peer.e.sent[index].segment, link, cells);
      case ReadData(count, link) => ReadUse(w.me.e, count, link);
      case _ =>
    }
    hide Service, Deliver, Read, Close, Wrote;
  }

  lemma BeginKeeps(s: Writer, s': Writer, data: seq<Byte>, blocking: bool, now: nat)
    requires Good(s) && Next(s, s', Begin(data, blocking, now))
    ensures Good(s')
  {
    NothingMoved(s.w.me);
    if CanWrite(s.w.me.e) && data != [] {
      ArmIsWrite(s.w.me, data, now);
      StepKeeps(s.w, s'.w, WriteData(data, now), true);
    }
    hide Inv;
  }

  lemma TurnKeeps(s: Writer, s': Writer, timeout: nat, now: nat, stop: bool)
    requires Good(s) && Next(s, s', Turn(timeout, now, stop))
    ensures Good(s')
  {
    NothingMoved(s.w.me);
    if Leaves(s.w.me.e, s.call.call) {
      LeavesKeeps(s, s', timeout, now, stop);
    }
    hide Inv, ArmData;
  }

  lemma LeavesKeeps(s: Writer, s': Writer, timeout: nat, now: nat, stop: bool)
    requires Good(s) && Next(s, s', Turn(timeout, now, stop)) && Leaves(s.w.me.e, s.call.call)
    ensures Good(s')
  {
    assert Chunk(s.chunk) == s.chunk;
    ArmIsWrite(s.w.me, s.chunk, now);
    StepKeeps(s.w, s'.w, WriteData(s.chunk, now), true);
    ArmUse(s.w.me.e, s.chunk, now);
    hide Inv, ArmData;
  }

  lemma ArmUse(e: Endpoint, chunk: seq<Byte>, now: nat)
    ensures ArmData(e, chunk, now, Sent).inUse == e.inUse
  {
  }

  predicate Run(ss: seq<Writer>, events: seq<Event>) {
    && |ss| == |events| + 1 && Start(ss[0].w) && ss[0].call == IDLE && ss[0].reported == [] && !ss[0].denied
    && forall i :: 0 <= i < |events| ==> Next(ss[i], ss[i + 1], events[i])
  }

  lemma {:induction false} RunGood(ss: seq<Writer>, events: seq<Event>, i: nat)
    requires Run(ss, events) && i < |ss|
    ensures Good(ss[i])
  {
    if i == 0 {
      StartHolds(ss[0].w);
    } else {
      RunGood(ss, events, i - 1);
      match events[i - 1]
      case Net(action, mine) => NetKeeps(ss[i - 1], ss[i], action, mine);
      case Begin(data, blocking, now) => BeginKeeps(ss[i - 1], ss[i], data, blocking, now);
      case Turn(timeout, now, stop) => TurnKeeps(ss[i - 1], ss[i], timeout, now, stop);
    }
  }

  // ----- what a writer can conclude

  /** In every run, between calls, what was reported is what was written exactly when no call failed in its
      wait for the acknowledgement; and what arrived is a prefix of what was written. */
  lemma ReportedIsWritten(ss: seq<Writer>, events: seq<Event>, i: nat)
    requires Run(ss, events) && i < |ss| && ss[i].call.Answered?
    ensures ss[i].reported == ss[i].w.me.written <==> !ss[i].denied
    ensures Safe(ss[i].w.me, ss[i].w.peer)
  {
    RunGood(ss, events, i);
  }

  /** A blocking write that reports its bytes on a connection still alive means that everything written
      has arrived. */
  lemma SuccessMeansArrived(ss: seq<Writer>, events: seq<Event>, i: nat)
    requires Run(ss, events) && i < |events| && events[i].Turn? && ss[i].call.Waiting? && ss[i].call.call.ForAck?
    requires ss[i + 1].call.Answered? && ss[i + 1].call.reply.Took? && !ss[i].w.me.e.aborted
    ensures ss[i + 1].w.peer.arrived == ss[i + 1].w.me.written
  {
    RunGood(ss, events, i);
    NothingMoved(ss[i].w.me);
  }

  /** A connection that is given up frees the slot, and the wait asks for nothing else: the call reports its
      bytes although they did not arrive. */
  lemma GivenUpReportsSuccess(s: Writer, timeout: nat, now: nat, stop: bool, link: Link)
    requires Good(s) && s.call.Waiting? && s.call.call.ForAck? && s.w.me.e.tx.pending
    requires s.w.me.e.tx.retries >= MAX_RETRIES && now >= s.w.me.e.tx.deadline && s.w.peer.arrived != s.w.me.written
    ensures var gone := s.(w := After(s.w, Timer(now, link)));
            && Next(s, gone, Net(Timer(now, link), true)) && gone.w.me.e.aborted
            && exists s' :: Next(gone, s', Turn(timeout, now, stop)) && s'.call == Answered(Took(|s.chunk|))
                            && s'.reported == s.reported + s.chunk && s'.w.peer.arrived != s'.w.me.written
  {
    var gone := s.(w := After(s.w, Timer(now, link)));
    NothingMoved(gone.w.me);
    var s' := Writer(gone.w, Answered(Took(|s.chunk|)), s.chunk, s.reported + s.chunk, s.denied);
    assert Next(gone, s', Turn(timeout, now, stop));
  }

  /** So does a reset by the peer. */
  lemma ResetReportsSuccess(e: Endpoint, segment: Segment, link: Link, cells: int -> Byte, call: Call,
                            timeout: nat, now: nat, stop: bool, link': Link)
    requires e.inUse && segment.flags.rst && call.ForAck?
    ensures var reset := Deliver(e, segment, link, cells);
            reset.aborted && WriteTurn(reset, call, timeout, now, stop, link') == (reset, Answered(Took(call.count)))
  {
  }

  /** The wait for the slot goes on the same way: it arms its data on the dead connection. The call then
      fails, and the segment stays armed. */
  lemma DeadConnectionArms(e: Endpoint, chunk: seq<Byte>, since: nat, timeout: nat, now: nat, stop: bool)
    requires e.inUse && e.aborted && !e.tx.pending
    ensures var first := WriteTurn(e, ForSlot(chunk, since), timeout, now, stop, Sent);
            && first.1 == Waiting(ForAck(|chunk|, now)) && first.0.aborted && first.0.tx.pending
            && first.0.tx.payload == chunk
            && WriteTurn(first.0, first.1.call, timeout, now, stop, Sent) == (first.0, Answered(Dead(e.timedOut)))
  {
  }

  /** A call that runs into its timeout reports nothing, but its segment stays armed and is repeated: the
      bytes arrive. */
  lemma ExpiredWriteArrives(s: Writer, timeout: nat, now: nat, stop: bool, link: Link, cells: int -> Byte)
    requires Good(s) && s.call.Waiting? && s.call.call.ForAck? && s.w.me.e.tx.pending && !s.w.me.e.aborted && !s.denied
    requires timeout != 0 && now >= s.call.call.since + timeout && now >= s.w.me.e.tx.deadline
    requires s.w.me.e.tx.retries < MAX_RETRIES && s.w.peer.arrived + s.chunk == s.w.me.written
    requires s.w.peer.e.inUse && s.w.peer.e.connected && |s.w.peer.e.rx.readable| < BUFFER
    requires Near(s.w.me.e.rx.next, s.w.peer.e.tx.end) && s.w.me.e.tx.payload == s.chunk
    ensures var failed := Writer(s.w, Answered(Expired), s.chunk, s.reported, true);
            var repeated := After(s.w, Timer(now, Sent));
            var arrival := Arrival(|s.w.me.e.sent|, link, cells);
            && Next(s, failed, Turn(timeout, now, stop))
            && Enabled(Swap(repeated), arrival)
            && |After(Swap(repeated), arrival).me.arrived| > |failed.reported|
  {
    ExpiredTurn(s, timeout, now, stop);
    var repeated := After(s.w, Timer(now, Sent));
    RepeatIs(s.w.me, now);
    hide Next, Service;
    ExpectedArrives(s.w.peer, Last(repeated.me.e).segment, link, cells);
    hide Arrived;
  }

  lemma ExpiredTurn(s: Writer, timeout: nat, now: nat, stop: bool)
    requires s.call.Waiting? && s.call.call.ForAck? && s.w.me.e.tx.pending && !s.w.me.e.aborted
    requires timeout != 0 && now >= s.call.call.since + timeout
    ensures Next(s, Writer(s.w, Answered(Expired), s.chunk, s.reported, true), Turn(timeout, now, stop))
  {
    NothingMoved(s.w.me);
  }

  /** What a timeout repeats. */
  lemma RepeatIs(s: Side, now: nat)
    requires s.e.inUse && SendSide(s) && s.e.tx.pending && now >= s.e.tx.deadline && s.e.tx.retries < MAX_RETRIES
    ensures var e := Service(s.e, now, Sent);
            && |e.sent| == |s.e.sent| + 1 && Last(e).at == s.e.tx.end - |s.e.tx.payload| && Last(e).ackAt == s.e.rx.next
            && Last(e).segment.sequence == s.e.tx.sequence && Last(e).segment.ack == Wire(s.e.rx.next)
            && Last(e).segment.flags == ACK_PSH && Last(e).segment.payload == s.e.tx.payload
  {
    UnwrapWire(s.e.tx.end - |s.e.tx.payload|, s.e.tx.end);
  }

  // ----- an acknowledgement of what was never sent

  /** The segment in the slot ends at `send_next`. */
  predicate SlotAtEnd(tx: Tx) { tx.pending && Wire(tx.sequence + tx.seqLength) == Wire(tx.end) }

  /** The slot is freed by any acknowledgement at or beyond the end of what was sent; only one at the end
      moves `send_unacked` there. */
  lemma FreedExactly(tx: Tx, ack: U32)
    requires SlotAtEnd(tx)
    ensures var at, tx' := Unwrap(ack, tx.end), Completed(Acknowledged(tx, ack), ack);
            && (!tx'.pending <==> at >= tx.end) && (at > tx.end ==> tx'.unacked == tx.unacked)
            && tx'.end == tx.end
  {
  }

  /** A waiting call answers success on an acknowledgement exactly when it is at or beyond the end: on one of
      data never sent too, and then `send_unacked` says that nothing was acknowledged. */
  lemma UnsentAckReportsSuccess(e: Endpoint, segment: Segment, link: Link, cells: int -> Byte, call: Call,
                                timeout: nat, now: nat, stop: bool, link': Link)
    requires e.inUse && e.state != SynSent && SlotAtEnd(e.tx) && call.ForAck? && segment.flags.ack && !segment.flags.rst
    ensures var at, e' := Unwrap(segment.ack, e.tx.end), Deliver(e, segment, link, cells);
            && (WriteTurn(e', call, timeout, now, stop, link').1 == Answered(Took(call.count)) <==> at >= e.tx.end)
            && (at > e.tx.end ==> e'.tx.unacked == e.tx.unacked)
  {
    FreedExactly(e.tx, segment.ack);
    hide Completed, Acknowledged, SlotAtEnd;
    AnswerUse(ReceiveAck(e, segment), segment, link, cells);
    hide Answer, Open;
  }

  /** In a run every segment in the slot ends at `send_next`. */
  lemma InFlightAtEnd(s: Side)
    requires SendSide(s) && s.e.inUse && s.e.tx.pending
    ensures SlotAtEnd(s.e.tx)
  {
    WirePlus(s.e.tx.end - |s.e.tx.payload|, |s.e.tx.payload|);
  }

  // ----- runs that reach these states, from every start and for every write

  lemma Extended(ss: seq<Writer>, events: seq<Event>, s': Writer, event: Event)
    requires Run(ss, events) && Next(ss[|events|], s', event)
    ensures Run(ss + [s'], events + [event])
  {
    hide Next, Start;
  }

  /** A blocking write of `data` waits, its segment was repeated `k` times and nothing came back. */
  predicate Stalled(s: Writer, w: World, data: seq<Byte>, k: nat) {
    var e := s.w.me.e;
    && s == Writer(World(w.me.(e := e, written := Chunk(data)), w.peer), Waiting(ForAck(|Chunk(data)|, 0)), Chunk(data),
                   [], false)
    && e == w.me.e.(tx := e.tx, advertised := e.advertised, sent := e.sent)
    && e.tx.pending && e.tx.payload == Chunk(data) && e.tx.retries == k && e.tx.deadline <= (k + 1) * MAX_RTO
  }

  lemma BeginStalls(w: World, data: seq<Byte>) returns (s: Writer)
    requires Start(w) && data != []
    ensures Next(Writer(w, IDLE, [], [], false), s, Begin(data, true, 0)) && Stalled(s, w, data, 0)
  {
    var side := Moved(w.me, ArmData(w.me.e, Chunk(data), 0, Sent), Chunk(data));
    s := Writer(World(side, w.peer), Waiting(ForAck(|Chunk(data)|, 0)), Chunk(data), [], false);
    assert [] + Chunk(data) == Chunk(data);
  }

  lemma RefusedStalls(s: Writer, w: World, data: seq<Byte>, k: nat) returns (s': Writer)
    requires Start(w) && Stalled(s, w, data, k) && k < MAX_RETRIES
    ensures Next(s, s', Net(Timer((k + 1) * MAX_RTO, Refused), true)) && Stalled(s', w, data, k + 1)
  {
    s' := s.(w := After(s.w, Timer((k + 1) * MAX_RTO, Refused)));
  }

  lemma {:induction false} StalledRun(w: World, data: seq<Byte>, k: nat)
    returns (ss: seq<Writer>, events: seq<Event>)
    requires Start(w) && data != [] && k <= MAX_RETRIES
    ensures Run(ss, events) && |events| == k + 1 && ss[0].w == w && Stalled(ss[k + 1], w, data, k)
    decreases k
  {
    if k == 0 {
      var s := BeginStalls(w, data);
      ss, events := [Writer(w, IDLE, [], [], false), s], [Begin(data, true, 0)];
    } else {
      ss, events := StalledRun(w, data, k - 1);
      var s' := RefusedStalls(ss[k], w, data, k - 1);
      Extended(ss, events, s', Net(Timer(k * MAX_RTO, Refused), true));
      ss, events := ss + [s'], events + [Net(Timer(k * MAX_RTO, Refused), true)];
    }
  }

  /** The last timeout and the turn of the wait after it. */
  lemma StalledGivesUp(s: Writer, w: World, data: seq<Byte>, now: nat) returns (gone: Writer, s': Writer)
    requires Start(w) && data != [] && Good(s) && Stalled(s, w, data, MAX_RETRIES) && now == (MAX_RETRIES + 1) * MAX_RTO
    ensures Next(s, gone, Net(Timer(now, Refused), true)) && Next(gone, s', Turn(0, now, false))
    ensures s'.call == Answered(Took(|Chunk(data)|)) && s'.reported == Chunk(data) && s'.w.peer == w.peer
  {
    GivenUpReportsSuccess(s, 0, now, false, Refused);
    hide Inv, Good, Service;
    gone := s.(w := After(s.w, Timer(now, Refused)));
    s' :| Next(gone, s', Turn(0, now, false)) && s'.call == Answered(Took(|s.chunk|))
          && s'.reported == s.reported + s.chunk;
  }

  /** From every start and for every write, a run in which nothing arrives and all of it is reported. */
  lemma GivenUpInARun(w: World, data: seq<Byte>) returns (ss: seq<Writer>, events: seq<Event>)
    requires Start(w) && data != []
    ensures Run(ss, events) && ss[0].w == w
    ensures var last := ss[|events|];
            last.call == Answered(Took(|Chunk(data)|)) && last.reported == Chunk(data) && last.w.peer.arrived == []
  {
    ss, events := StalledRun(w, data, MAX_RETRIES);
    var s, now := ss[|events|], (MAX_RETRIES + 1) * MAX_RTO;
    RunGood(ss, events, |events|);
    var gone, last := StalledGivesUp(s, w, data, now);
    hide Next, Good, Stalled, Inv;
    var timer, turn := Net(Timer(now, Refused), true), Turn(0, now, false);
    Extended(ss, events, gone, timer);
    Extended(ss + [gone], events + [timer], last, turn);
    ss, events := ss + [gone] + [last], events + [timer] + [turn];
  }

  /** The turn in which the wait runs out, the next timeout and the arrival of what it repeats. */
  lemma StalledExpires(s: Writer, w: World, data: seq<Byte>, link: Link, cells: int -> Byte)
    returns (failed: Writer, repeated: Writer, last: Writer)
    requires Start(w) && data != [] && Good(s) && Stalled(s, w, data, 0)
    ensures Next(s, failed, Turn(1, MAX_RTO, false)) && Next(failed, repeated, Net(Timer(MAX_RTO, Sent), true))
    ensures Next(repeated, last, Net(Arrival(|s.w.me.e.sent|, link, cells), false))
    ensures last.call == Answered(Expired) && last.reported == [] && last.denied && last.w.peer.arrived != []
  {
    assert [] + Chunk(data) == Chunk(data);
    ExpiredWriteArrives(s, 1, MAX_RTO, false, link, cells);
    hide Inv, Good, Stalled, Start, Service, Deliver, WriteTurn;
    failed := Writer(s.w, Answered(Expired), s.chunk, s.reported, true);
    repeated := failed.(w := After(s.w, Timer(MAX_RTO, Sent)));
    last := repeated.(w := Swap(After(Swap(repeated.w), Arrival(|s.w.me.e.sent|, link, cells))));
  }

  /** From every start and for every write, a run in which the call reports a failure, nothing is reported
      and bytes of it arrive. */
  lemma ExpiredInARun(w: World, data: seq<Byte>, link: Link, cells: int -> Byte)
    returns (ss: seq<Writer>, events: seq<Event>)
    requires Start(w) && data != []
    ensures Run(ss, events) && ss[0].w == w
    ensures var last := ss[|events|];
            last.call == Answered(Expired) && last.reported == [] && last.denied && last.w.peer.arrived != []
  {
    ss, events := StalledRun(w, data, 0);
    var s := ss[1];
    RunGood(ss, events, 1);
    var failed, repeated, last := StalledExpires(s, w, data, link, cells);
    hide Next, Good, Stalled, Inv;
    var turn, timer := Turn(1, MAX_RTO, false), Net(Timer(MAX_RTO, Sent), true);
    var net := Net(Arrival(|s.w.me.e.sent|, link, cells), false);
    Extended(ss, events, failed, turn);
    Extended(ss + [failed], events + [turn], repeated, timer);
    Extended(ss + [failed] + [repeated], events + [turn] + [timer], last, net);
    ss, events := ss + [failed] + [repeated] + [last], events + [turn] + [timer] + [net];
  }

  /** From every start the first write can leak. */
  lemma FirstWriteLeaks(w: World, data: seq<Byte>, now: nat, link: Link, link': Link, cells: int -> Byte)
    requires Start(w) && data != [] && !link.Sent?
    ensures var repeated := After(World(Wrote(w.me, data, now, link), w.peer), Timer(now + INITIAL_RTO, Sent));
            var arrival := Arrival(0, link', cells);
            Enabled(Swap(repeated), arrival)
            && !Safe(After(Swap(repeated), arrival).peer, After(Swap(repeated), arrival).me)
  {
    StartHolds(w);
    FailedWriteLeaks(w, data, now, link, link', cells);
  }
}
