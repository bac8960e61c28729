/** What one socket tells its peer over any run at all: the peer may be hostile
    and the link may fail at any send. */
module TcpWindow {
  import opened SequenceNumbers
  import opened TcpReassembly
  import opened TcpEndpoint

  datatype Input =
    | Incoming(segment: Segment, link: Link, cells: int -> Byte)
    | Tick(now: nat, link: Link)
    | Writing(data: seq<Byte>, now: nat, link: Link)
    | Reading(count: nat, link: Link)

  function Next(e: Endpoint, input: Input): Endpoint {
    match input
    case Incoming(segment, link, cells) => Deliver(e, segment, link, cells)
    case Tick(now, link) => Service(e, now, link)
    case Writing(data, now, link) => if !e.inUse || e.tx.pending || data == [] then e
      else ArmData(e, Chunk(data), now, link)
    case Reading(count, link) => Read(e, count, link)
  }

  function After(e: Endpoint, inputs: seq<Input>): Endpoint
    decreases |inputs|
  {
    if inputs == [] then e else Next(After(e, inputs[..|inputs| - 1]), inputs[|inputs| - 1])
  }

  /** The right edge a segment announced. */
  function Edge(entry: Entry): int { entry.ackAt + entry.segment.window }

  predicate EdgesRise(e: Endpoint) {
    |e.rx.readable| <= BUFFER && Rising(e.sent, WindowEnd(e.rx))
  }

  predicate Rising(sent: seq<Entry>, limit: int) {
    && (forall i :: 0 <= i < |sent| ==> Edge(sent[i]) <= limit)
    && forall i, j :: 0 <= i < j < |sent| ==> Edge(sent[i]) <= Edge(sent[j])
  }

  /** Receiving moves bytes from the window to the buffer and leaves the edge where it is. */
  lemma ReceiveEdge(v: RxView, s: int, data: seq<Byte>)
    requires |v.readable| <= BUFFER
    ensures WindowEnd(Receive(v, s, data)) == WindowEnd(v) && |Receive(v, s, data).readable| <= BUFFER
  {
  }

  lemma SendEdge(e: Endpoint, flags: Flags, payload: seq<Byte>, sequence: U32, link: Link)
    requires EdgesRise(e)
    ensures EdgesRise(SendSegment(e, flags, payload, sequence, link))
  {
  }

  lemma RisingLimit(sent: seq<Entry>, limit: int, limit': int)
    requires Rising(sent, limit) && limit <= limit'
    ensures Rising(sent, limit')
  {
  }

  /** Data and FIN never move the edge left. */
  lemma TakenEdge(e: Endpoint, segment: Segment, cells: int -> Byte)
    requires |e.rx.readable| <= BUFFER
    ensures var e' := ReceiveFin(ReceiveSegment(e, segment), segment, cells);
            && e'.sent == e.sent && e'.advertised == e.advertised && |e'.rx.readable| <= BUFFER
            && WindowEnd(e.rx) <= WindowEnd(e'.rx) && (e'.state == e.state || e'.state.CloseWait?)
  {
    ReceiveEdge(e.rx, Unwrap(segment.sequence, e.rx.next), segment.payload);
  }

  lemma AnswerEdge(e: Endpoint, segment: Segment, link: Link, cells: int -> Byte)
    requires EdgesRise(e) && !e.state.SynSent?
    ensures EdgesRise(Answer(e, segment, link, cells)) && !Answer(e, segment, link, cells).state.SynSent?
  {
    hide Receive;
    var e' := ReceiveFin(ReceiveSegment(e, segment), segment, cells);
    TakenEdge(e, segment, cells);
    RisingLimit(e.sent, WindowEnd(e.rx), WindowEnd(e'.rx));
    SendEdge(e', ACK, [], Wire(e'.tx.end), link);
  }

  lemma DeliverEdge(e: Endpoint, segment: Segment, link: Link, cells: int -> Byte)
    requires EdgesRise(e) && !e.state.SynSent?
    ensures EdgesRise(Deliver(e, segment, link, cells)) && !Deliver(e, segment, link, cells).state.SynSent?
  {
    AnswerEdge(ReceiveAck(e, segment), segment, link, cells);
  }

  lemma ServiceEdge(e: Endpoint, now: nat, link: Link)
    requires EdgesRise(e) && !e.state.SynSent?
    ensures EdgesRise(Service(e, now, link)) && !Service(e, now, link).state.SynSent?
  {
    var e' := e.(tx := Retried(e.tx, now));
    SendEdge(e', e'.tx.flags, e'.tx.payload, e'.tx.sequence, link);
  }

  lemma WriteEdge(e: Endpoint, data: seq<Byte>, now: nat, link: Link)
    requires EdgesRise(e) && !e.state.SynSent?
    ensures var e' := ArmData(e, Chunk(data), now, link); EdgesRise(e') && !e'.state.SynSent?
  {
    var armed := e.(tx := Armed(e.tx, ACK_PSH, Chunk(data), Wire(e.tx.end), |Chunk(data)|, now));
    SendEdge(armed, ACK_PSH, Chunk(data), armed.tx.sequence, link);
  }

  lemma ReadEdge(e: Endpoint, count: nat, link: Link)
    requires EdgesRise(e) && !e.state.SynSent?
    ensures EdgesRise(Read(e, count, link)) && !Read(e, count, link).state.SynSent?
  {
    if ReadLength(e, count) > 0 {
      var e' := e.(rx := e.rx.(readable := e.rx.readable[ReadLength(e, count)..]));
      RisingLimit(e.sent, WindowEnd(e.rx), WindowEnd(e'.rx));
      SendEdge(e', ACK, [], Wire(e'.tx.end), link);
    }
  }

  lemma NextEdge(e: Endpoint, input: Input)
    requires EdgesRise(e) && !e.state.SynSent?
    ensures EdgesRise(Next(e, input)) && !Next(e, input).state.SynSent?
  {
    match input
    case Incoming(segment, link, cells) => DeliverEdge(e, segment, link, cells);
    case Tick(now, link) => ServiceEdge(e, now, link);
    case Writing(data, now, link) => WriteEdge(e, data, now, link);
    case Reading(count, link) => ReadEdge(e, count, link);
  }

  /** The right edge announced to the peer never moves left, whatever arrives and whatever fails. */
  lemma {:induction false} RightEdgeNeverMovesLeft(e: Endpoint, inputs: seq<Input>, i: nat, j: nat)
    requires e.sent == [] && |e.rx.readable| <= BUFFER && !e.state.SynSent?
    requires i < j < |After(e, inputs).sent|
    ensures Edge(After(e, inputs).sent[i]) <= Edge(After(e, inputs).sent[j])
  {
    RunEdge(e, inputs);
  }

  lemma {:induction false} RunEdge(e: Endpoint, inputs: seq<Input>)
    requires EdgesRise(e) && !e.state.SynSent?
    ensures EdgesRise(After(e, inputs)) && !After(e, inputs).state.SynSent?
    decreases |inputs|
  {
    if inputs != [] {
      var front := inputs[..|inputs| - 1];
      RunEdge(e, front);
      NextEdge(After(e, front), inputs[|inputs| - 1]);
    }
  }

  /** The peer knows the current `recv_next` and, whenever a useful segment would fit, a window of
      at least one; and it was never promised more than there is. */
  predicate WellAdvertised(e: Endpoint) {
    e.connected ==>
      && e.advertised <= Free(e.rx) && (Free(e.rx) >= MIN_USEFUL_WINDOW ==> e.advertised >= MIN_USEFUL_WINDOW)
      && (e.sent != [] ==>
             e.sent[|e.sent| - 1].ackAt == e.rx.next && e.sent[|e.sent| - 1].segment.window == e.advertised)
  }

  predicate LinkUp(input: Input) { input.link.Sent? }

  lemma SendAdvertises(e: Endpoint, flags: Flags, payload: seq<Byte>, sequence: U32)
    requires |e.rx.readable| <= BUFFER
    ensures WellAdvertised(SendSegment(e, flags, payload, sequence, Sent))
  {
  }

  lemma AnswerAdvertises(e: Endpoint, segment: Segment, cells: int -> Byte)
    requires WellAdvertised(e) && |e.rx.readable| <= BUFFER && !e.state.SynSent?
    ensures WellAdvertised(Answer(e, segment, Sent, cells)) && |Answer(e, segment, Sent, cells).rx.readable| <= BUFFER
    ensures !Answer(e, segment, Sent, cells).state.SynSent?
  {
    hide Receive;
    TakenEdge(e, segment, cells);
    var e' := ReceiveFin(ReceiveSegment(e, segment), segment, cells);
    SendAdvertises(e', ACK, [], Wire(e'.tx.end));
  }

  lemma DeliverAdvertises(e: Endpoint, segment: Segment, cells: int -> Byte)
    requires WellAdvertised(e) && |e.rx.readable| <= BUFFER && !e.state.SynSent?
    ensures WellAdvertised(Deliver(e, segment, Sent, cells)) && |Deliver(e, segment, Sent, cells).rx.readable| <= BUFFER
    ensures !Deliver(e, segment, Sent, cells).state.SynSent?
  {
    AnswerAdvertises(ReceiveAck(e, segment), segment, cells);
  }

  lemma ReadAdvertises(e: Endpoint, count: nat)
    requires WellAdvertised(e) && |e.rx.readable| <= BUFFER && !e.state.SynSent?
    ensures WellAdvertised(Read(e, count, Sent)) && |Read(e, count, Sent).rx.readable| <= BUFFER
    ensures !Read(e, count, Sent).state.SynSent?
  {
  }

  lemma NextAdvertises(e: Endpoint, input: Input)
    requires WellAdvertised(e) && |e.rx.readable| <= BUFFER && LinkUp(input) && !e.state.SynSent?
    ensures WellAdvertised(Next(e, input)) && |Next(e, input).rx.readable| <= BUFFER && !Next(e, input).state.SynSent?
  {
    match input
    case Incoming(segment, _, cells) => DeliverAdvertises(e, segment, cells);
    case Tick(now, _) =>
      var e' := e.(tx := Retried(e.tx, now));
      SendAdvertises(e', e'.tx.flags, e'.tx.payload, e'.tx.sequence);
    case Writing(data, now, _) =>
      var armed := e.(tx := Armed(e.tx, ACK_PSH, Chunk(data), Wire(e.tx.end), |Chunk(data)|, now));
      SendAdvertises(armed, ACK_PSH, Chunk(data), armed.tx.sequence);
    case Reading(count, _) => ReadAdvertises(e, count);
  }

  /** While sends succeed, no run leaves the peer sitting on a window too small to use although a
      segment would fit: not after data, not after reads, not after writes or retransmissions. */
  lemma {:induction false} NoSillyWindow(e: Endpoint, inputs: seq<Input>)
    requires WellAdvertised(e) && |e.rx.readable| <= BUFFER && !e.state.SynSent?
    requires forall i :: 0 <= i < |inputs| ==> LinkUp(inputs[i])
    ensures WellAdvertised(After(e, inputs)) && |After(e, inputs).rx.readable| <= BUFFER
    ensures !After(e, inputs).state.SynSent?
    decreases |inputs|
  {
    if inputs != [] {
      var front := inputs[..|inputs| - 1];
      NoSillyWindow(e, front);
      NextAdvertises(After(e, front), inputs[|inputs| - 1]);
    }
  }

  /** A read that opens the window from less than a useful segment to at least one. */
  predicate UpdateDue(e: Endpoint, count: nat) {
    var length := ReadLength(e, count);
    length > 0 && e.connected && e.advertised < MIN_USEFUL_WINDOW <= Free(e.rx) + length
  }

  /** A read leaves the peer on a useful window exactly when no update was due or the update went out. */
  lemma ReadUpdateExactly(e: Endpoint, count: nat, link: Link)
    requires WellAdvertised(e) && e.connected && e.sent != [] && |e.rx.readable| <= BUFFER
    ensures WellAdvertised(Read(e, count, link)) <==> !UpdateDue(e, count) || link.Sent?
  {
  }

  /** Reads one after the other, each with its own luck on the link. */
  function Reads(e: Endpoint, counts: seq<nat>, links: seq<Link>): Endpoint
    requires |counts| == |links|
    decreases |counts|
  {
    if counts == [] then e
    else Read(Reads(e, counts[..|counts| - 1], links[..|links| - 1]), counts[|counts| - 1], links[|links| - 1])
  }

  /** The window is recorded before the card answers. So an update the card refuses is never repeated: no
      number of further reads sends anything, and the peer keeps the small window. */
  lemma {:induction false} RefusedUpdateIsFinal(e: Endpoint, count: nat, counts: seq<nat>, links: seq<Link>)
    requires UpdateDue(e, count) && |e.rx.readable| <= BUFFER && |counts| == |links|
    ensures var after := Reads(Read(e, count, Refused), counts, links);
            after.sent == e.sent && after.advertised >= MIN_USEFUL_WINDOW && |after.rx.readable| <= BUFFER
    decreases |counts|
  {
    if counts != [] {
      RefusedUpdateIsFinal(e, count, counts[..|counts| - 1], links[..|links| - 1]);
    }
  }

  /** An update that found no next hop is tried again by the next read that finds bytes. */
  lemma UnresolvedUpdateIsRetried(e: Endpoint, count: nat, count': nat)
    requires UpdateDue(e, count) && |e.rx.readable| <= BUFFER
    requires ReadLength(Read(e, count, Unresolved), count') > 0
    ensures WellAdvertised(Read(Read(e, count, Unresolved), count', Sent))
  {
  }

  // ----- retransmission backoff

  /** The timeout in force after `retries` retransmissions. */
  function RtoAfter(retries: nat): nat {
    if retries == 0 then INITIAL_RTO else Min(RtoAfter(retries - 1) * 2, MAX_RTO)
  }

  /** The least time from the first transmission to the timeout that follows `retries` retransmissions. */
  function Budget(retries: nat): nat {
    RtoAfter(retries) + if retries == 0 then 0 else Budget(retries - 1)
  }

  predicate Backoff(tx: Tx, armedAt: nat) {
    && tx.retries <= MAX_RETRIES && tx.rto == RtoAfter(tx.retries)
    && tx.deadline >= armedAt + Budget(tx.retries)
  }

  /** The timer at each of the given times, nothing arriving in between. */
  function Ticks(e: Endpoint, times: seq<nat>): Endpoint
    decreases |times|
  {
    if times == [] then e else Service(Ticks(e, times[..|times| - 1]), times[|times| - 1], Sent)
  }

  lemma {:induction false} TicksBackoff(e: Endpoint, times: seq<nat>, armedAt: nat)
    requires e.inUse && !e.aborted && e.tx.pending && e.tx.retries == 0 && Backoff(e.tx, armedAt)
    ensures var e' := Ticks(e, times);
            && e'.inUse && (e'.tx.pending <==> !e'.aborted)
            && Backoff(e'.tx, armedAt) && |e'.sent| == |e.sent| + e'.tx.retries
            && (e'.aborted ==>
                   e'.tx.retries == MAX_RETRIES && exists t :: t in times && t >= armedAt + Budget(MAX_RETRIES))
    decreases |times|
  {
    if times != [] {
      var front, now := times[..|times| - 1], times[|times| - 1];
      TicksBackoff(e, front, armedAt);
      assert now in times && forall t :: t in front ==> t in times;
    }
  }

  /** A segment nobody acknowledges is sent seven times in all, and the connection is given up no
      sooner than 16.5 seconds after the first. */
  lemma GivesUpAfterBackoff(e: Endpoint, times: seq<nat>, armedAt: nat)
    requires e.inUse && !e.aborted
    requires e.tx == Armed(e.tx, e.tx.flags, e.tx.payload, e.tx.sequence, e.tx.seqLength, armedAt)
    requires Ticks(e, times).aborted
    ensures |Ticks(e, times).sent| == |e.sent| + 6
    ensures exists t :: t in times && t >= armedAt + 16500
  {
    TicksBackoff(e, times, armedAt);
    assert RtoAfter(1) == 600 && RtoAfter(2) == 1200 && RtoAfter(3) == 2400 && RtoAfter(4) == 4000;
    assert Budget(0) == 300 && Budget(1) == 900 && Budget(2) == 2100 && Budget(3) == 4500;
    assert Budget(4) == 8500 && Budget(5) == 12500 && Budget(6) == 16500;
  }
}
