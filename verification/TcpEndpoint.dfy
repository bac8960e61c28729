/** One TCP socket as a value: control block, the one segment in flight, the
    receive side and the segments put on the wire. Each function is one kernel
    entry point; a send is one atomic step whose outcome is a parameter. */
module TcpEndpoint {
  import opened SequenceNumbers
  import opened TcpReassembly

  const SEGMENT_MAX := 1024
  const INITIAL_RTO := 300
  const MAX_RTO := 4000
  const MAX_RETRIES := 6
  const MIN_USEFUL_WINDOW := 1460

  datatype Flags = Flags(fin: bool, syn: bool, rst: bool, psh: bool, ack: bool)

  const NO_FLAGS := Flags(false, false, false, false, false)
  const SYN := Flags(false, true, false, false, false)
  const ACK := Flags(false, false, false, false, true)
  const ACK_PSH := Flags(false, false, false, true, true)
  const FIN_ACK := Flags(true, false, false, false, true)

  datatype Segment = Segment(flags: Flags, sequence: U32, ack: U32, window: nat, payload: seq<Byte>)

  /** A segment on the wire, and the positions its two numbers stood for when it was sent. */
  datatype Entry = Entry(segment: Segment, at: int, ackAt: int)

  /** What became of a send: no ARP answer, refused by the card, or on the wire. */
  datatype Link = Unresolved | Refused | Sent

  datatype TcpState = Closed | SynSent | Established | CloseWait

  /** The send side; `end` is the position `send_next` stands for, `payload` the useful part of the
      retransmission buffer. */
  datatype Tx = Tx(unacked: U32, end: int, pending: bool, flags: Flags, sequence: U32, seqLength: nat,
                   payload: seq<Byte>, deadline: nat, rto: nat, retries: nat)

  datatype Endpoint = Endpoint(inUse: bool, state: TcpState, connected: bool, finReceived: bool,
                               aborted: bool, timedOut: bool, tx: Tx, rx: RxView, advertised: nat, sent: seq<Entry>)

  function SendSegment(e: Endpoint, flags: Flags, payload: seq<Byte>, sequence: U32, link: Link): Endpoint {
    if link.Unresolved? then e
    else
      var e' := e.(advertised := Max(0, Free(e.rx)));
      if link.Refused? then e'
      else
        var segment := Segment(flags, sequence, Wire(e.rx.next), e'.advertised, payload);
        e'.(sent := e.sent + [Entry(segment, Unwrap(sequence, e.tx.end), e.rx.next)])
  }

  function SendAck(e: Endpoint, link: Link): Endpoint {
    SendSegment(e, ACK, [], Wire(e.tx.end), link)
  }

  /** Puts a segment into the retransmission slot. */
  function Armed(tx: Tx, flags: Flags, payload: seq<Byte>, sequence: U32, seqLength: nat, now: nat): Tx {
    tx.(pending := true, flags := flags, sequence := sequence, seqLength := seqLength, payload := payload,
        deadline := now + INITIAL_RTO, rto := INITIAL_RTO, retries := 0)
  }

  /** An acknowledgement moves `send_unacked` only over what was sent and not yet acknowledged. */
  function Acknowledged(tx: Tx, ack: U32): Tx {
    if SeqGt(ack, tx.unacked) && SeqLeq(ack, Wire(tx.end)) then tx.(unacked := ack) else tx
  }

  /** An acknowledgement of the whole segment in flight frees its slot. */
  function Completed(tx: Tx, ack: U32): Tx {
    if tx.pending && SeqGeq(ack, Wire(tx.sequence + tx.seqLength)) then
      tx.(pending := false, payload := [], seqLength := 0, retries := 0, rto := INITIAL_RTO)
    else tx
  }

  function Aborted(e: Endpoint, timedOut: bool): Endpoint {
    e.(timedOut := timedOut, connected := false, state := Closed, aborted := true, finReceived := true,
       tx := e.tx.(pending := false))
  }

  /** The timer found the segment in flight overdue. */
  function Retried(tx: Tx, now: nat): Tx {
    var rto := Min(tx.rto * 2, MAX_RTO);
    tx.(retries := tx.retries + 1, rto := rto, deadline := now + rto)
  }

  function Service(e: Endpoint, now: nat, link: Link): Endpoint {
    if !e.inUse || !e.tx.pending || now < e.tx.deadline then e
    else if e.tx.retries >= MAX_RETRIES then Aborted(e, true)
    else
      var e' := e.(tx := Retried(e.tx, now));
      SendSegment(e', e'.tx.flags, e'.tx.payload, e'.tx.sequence, link)
  }

  function ReceiveSegment(e: Endpoint, segment: Segment): Endpoint {
    if segment.payload == [] then e
    else e.(rx := Receive(e.rx, Unwrap(segment.sequence, e.rx.next), segment.payload))
  }

  predicate FinDue(e: Endpoint, segment: Segment) {
    segment.flags.fin && Wire(segment.sequence + |segment.payload|) == Wire(e.rx.next)
  }

  /** A FIN is taken where it is due, also with data held beyond it; `cells` is what the ring holds. */
  function ReceiveFin(e: Endpoint, segment: Segment, cells: int -> Byte): Endpoint {
    if FinDue(e, segment) then e.(rx := FinTaken(e.rx, cells), finReceived := true, state := CloseWait) else e
  }

  function ReceiveAck(e: Endpoint, segment: Segment): Endpoint {
    if segment.flags.ack then e.(tx := Completed(Acknowledged(e.tx, segment.ack), segment.ack)) else e
  }

  /** The answer to our SYN opens the connection. */
  function Open(e: Endpoint, segment: Segment, link: Link): Endpoint {
    if segment.flags.syn && segment.flags.ack && segment.ack == Wire(e.tx.end) then
      SendAck(e.(rx := e.rx.(next := segment.sequence + 1), tx := e.tx.(unacked := segment.ack),
                 connected := true, state := Established), link)
    else e
  }

  /** Data and FIN of a segment, and the acknowledgement they are answered with. */
  function Answer(e: Endpoint, segment: Segment, link: Link, cells: int -> Byte): Endpoint {
    if !e.connected then e
    else
      var e' := ReceiveFin(ReceiveSegment(e, segment), segment, cells);
      if segment.payload != [] || segment.flags.fin then SendAck(e', link) else e'
  }

  /** A segment addressed to this socket arrives. */
  function Deliver(e: Endpoint, segment: Segment, link: Link, cells: int -> Byte): Endpoint {
    if !e.inUse then e
    else
      var acked := ReceiveAck(e, segment);
      if segment.flags.rst then Aborted(acked, false)
      else if acked.state.SynSent? then Open(acked, segment, link)
      else Answer(acked, segment, link, cells)
  }

  predicate CanWrite(e: Endpoint) { e.inUse && !e.aborted && e.connected && !e.tx.pending }

  /** How much of `data` one write takes. */
  function Chunk(data: seq<Byte>): seq<Byte> { data[..Min(|data|, SEGMENT_MAX)] }

  /** Arms a chunk of data on a free slot and sends it; `send_next` moves only if it went out. Nothing
      asks whether the connection is still there. */
  function ArmData(e: Endpoint, chunk: seq<Byte>, now: nat, link: Link): Endpoint {
    var armed := e.(tx := Armed(e.tx, ACK_PSH, chunk, Wire(e.tx.end), |chunk|, now));
    var e' := SendSegment(armed, ACK_PSH, chunk, armed.tx.sequence, link);
    if link.Sent? then e'.(tx := e'.tx.(end := e'.tx.end + |chunk|)) else e'
  }

  /** A write that need not wait for the slot: armed in any case. */
  function Write(e: Endpoint, data: seq<Byte>, now: nat, link: Link): Endpoint {
    if !CanWrite(e) || data == [] then e else ArmData(e, Chunk(data), now, link)
  }

  // ----- a write call, from its entry over any number of waits to its answer

  /** Where a write call stands: waiting for the slot with its data, or for the acknowledgement of what
      it sent. `since` is when that wait began. */
  datatype Call = ForSlot(chunk: seq<Byte>, since: nat) | ForAck(count: nat, since: nat)

  datatype Reply = Took(count: nat) | WouldBlock | NotOpen | Dead(timedOut: bool) | SendFailed | Expired | Interrupted

  datatype Progress = Waiting(call: Call) | Answered(reply: Reply)

  /** The chunk is armed and sent; a blocking call goes on to wait for its acknowledgement. */
  function Launched(chunk: seq<Byte>, blocking: bool, now: nat, link: Link): Progress {
    if !link.Sent? then Answered(SendFailed)
    else if blocking then Waiting(ForAck(|chunk|, now))
    else Answered(Took(|chunk|))
  }

  /** The call begins. */
  function WriteBegun(e: Endpoint, data: seq<Byte>, blocking: bool, now: nat, link: Link): (Endpoint, Progress) {
    if !e.inUse then (e, Answered(NotOpen))
    else if e.aborted then (e, Answered(Dead(e.timedOut)))
    else if !e.connected then (e, Answered(NotOpen))
    else if data == [] then (e, Answered(Took(0)))
    else if !e.tx.pending then (ArmData(e, Chunk(data), now, link), Launched(Chunk(data), blocking, now, link))
    else if blocking then (e, Waiting(ForSlot(Chunk(data), now)))
    else (e, Answered(WouldBlock))
  }

  /** One turn of the wait, after the network was looked at: a free slot ends it before anything else is
      asked. `timeout` 0 is none. */
  function WriteTurn(e: Endpoint, call: Call, timeout: nat, now: nat, stop: bool, link: Link): (Endpoint, Progress) {
    if !e.tx.pending then
      match call
      case ForSlot(chunk, _) => (ArmData(e, chunk, now, link), Launched(chunk, true, now, link))
      case ForAck(count, _) => (e, Answered(Took(count)))
    else if e.aborted then (e, Answered(Dead(e.timedOut)))
    else if timeout != 0 && now >= call.since + timeout then (e, Answered(Expired))
    else if stop then (e, Answered(Interrupted))
    else (e, Waiting(call))
  }

  function ReadLength(e: Endpoint, count: nat): (length: nat)
    ensures length <= |e.rx.readable|
  {
    if e.inUse then Min(Min(count, SEGMENT_MAX), |e.rx.readable|) else 0
  }

  /** What a read of `count` hands out. */
  function TakenBy(e: Endpoint, count: nat): seq<Byte> { e.rx.readable[..ReadLength(e, count)] }

  /** A read; when it opened the window from less than a useful segment, the peer is told. */
  function Read(e: Endpoint, count: nat, link: Link): Endpoint {
    var length := ReadLength(e, count);
    if length == 0 then e
    else
      var e' := e.(rx := e.rx.(readable := e.rx.readable[length..]));
      if e.connected && e.advertised < MIN_USEFUL_WINDOW <= Free(e'.rx) then SendAck(e', link) else e'
  }

  // ----- a read call, from its entry over any number of waits to its answer

  datatype ReadReply =
    | Got(bytes: seq<Byte>)
    | EndOfStream
    | NotReadable
    | Broken(timedOut: bool)
    | NothingYet
    | TooLate
    | Signalled

  /** A read call waits for bytes since some time, or is over. */
  datatype Reading = Pending(since: nat) | Finished(reply: ReadReply)

  /** The call begins: what is there is handed out, also when the connection is gone. */
  function ReadBegun(e: Endpoint, count: nat, now: nat, link: Link): (Endpoint, Reading) {
    if count == 0 then (e, Finished(Got([])))
    else if !e.inUse then (e, Finished(NotReadable))
    else if e.rx.readable != [] then (Read(e, count, link), Finished(Got(TakenBy(e, count))))
    else if e.connected then (e, Pending(now))
    else if e.aborted then (e, Finished(Broken(e.timedOut)))
    else (e, Finished(if e.finReceived then EndOfStream else NotReadable))
  }

  /** One turn of the wait, after the network was looked at. `timeout` 0 is none. */
  function ReadTurn(e: Endpoint, count: nat, blocking: bool, since: nat, timeout: nat, now: nat, stop: bool,
                    link: Link): (Endpoint, Reading)
  {
    if e.rx.readable != [] then (Read(e, count, link), Finished(Got(TakenBy(e, count))))
    else if e.aborted then (e, Finished(Broken(e.timedOut)))
    else if e.finReceived then (e, Finished(EndOfStream))
    else if !blocking then (e, Finished(NothingYet))
    else if timeout != 0 && now >= since + timeout then (e, Finished(TooLate))
    else if stop then (e, Finished(Signalled))
    else (e, Pending(since))
  }

  const NO_TX := Tx(0, 0, false, NO_FLAGS, 0, 0, [], 0, 0, 0)

  /** A socket whose SYN, at `initial`, is in the slot. */
  function Connecting(initial: U32, now: nat): Endpoint {
    var tx := NO_TX.(unacked := initial, end := initial + 1);
    Endpoint(true, SynSent, false, false, false, false, Armed(tx, SYN, [], initial, 1, now), RxView(0, [], map[], {}),
             0, [])
  }

  /** Closing says FIN once and forgets the socket. */
  function Close(e: Endpoint, link: Link): Endpoint {
    if !e.inUse then e
    else
      var e' := if e.connected then SendSegment(e, FIN_ACK, [], Wire(e.tx.end), link) else e;
      Endpoint(false, Closed, false, false, false, false, NO_TX, RxView(0, [], map[], {}), 0, e'.sent)
  }

  // ----- only a close gives the socket up

  lemma ServiceUse(e: Endpoint, now: nat, link: Link)
    ensures Service(e, now, link).inUse == e.inUse
  {
  }

  lemma DeliverUse(e: Endpoint, segment: Segment, link: Link, cells: int -> Byte)
    ensures Deliver(e, segment, link, cells).inUse == e.inUse
  {
    var acked := ReceiveAck(e, segment);
    AnswerUse(acked, segment, link, cells);
    OpenUse(acked, segment, link);
    hide Answer, Open, Completed, Acknowledged;
  }

  lemma AnswerUse(e: Endpoint, segment: Segment, link: Link, cells: int -> Byte)
    ensures Answer(e, segment, link, cells).inUse == e.inUse && Answer(e, segment, link, cells).tx == e.tx
  {
    hide Receive, FinTaken, SendSegment, Wire;
    var e' := ReceiveFin(ReceiveSegment(e, segment), segment, cells);
    SendUse(e', ACK, [], Wire(e'.tx.end), link);
  }

  lemma OpenUse(e: Endpoint, segment: Segment, link: Link)
    ensures Open(e, segment, link).inUse == e.inUse
  {
  }

  lemma SendUse(e: Endpoint, flags: Flags, payload: seq<Byte>, sequence: U32, link: Link)
    ensures var e' := SendSegment(e, flags, payload, sequence, link); e'.inUse == e.inUse && e'.tx == e.tx
  {
  }

  lemma ReadUse(e: Endpoint, count: nat, link: Link)
    ensures Read(e, count, link).inUse == e.inUse
  {
  }
}
