/** `net::Socket` for a stream: the object the kernel updates in place. Every
    method is proved to do to the fields what the function it names in
    `TcpEndpoint` does to their value. */
module TcpSocket {
  import opened SequenceNumbers
  import opened TcpReassembly
  import opened TcpEndpoint
  import opened TcpReceiver

  datatype Control = Control(inUse: bool, state: TcpState, connected: bool, finReceived: bool, aborted: bool,
                             timedOut: bool)

  /** The retransmission slot; `payload` is the useful part of `tx_buffer`. */
  datatype Slot = Slot(pending: bool, flags: Flags, sequence: U32, seqLength: nat, payload: seq<Byte>,
                       deadline: nat, rto: nat, retries: nat)

  class Socket {
    var control: Control
    var sendUnacked: U32
    var sendNext: U32
    var slot: Slot
    var advertisedWindow: nat
    const rx: Receiver
    /** The position `send_next` stands for, what the receive side holds, and what was put on the wire. */
    ghost var end: int
    ghost var view: RxView
    ghost var sent: seq<Entry>

    ghost predicate Valid()
      reads this, rx, rx.slots, rx.ring
    {
      && rx.RxValid() && 0 <= Fins() && view == rx.View() && sendNext == Wire(end) && |slot.payload| <= SEGMENT_MAX
      && (control.state.SynSent? ==> view.ahead == map[] && view.stale == {})
    }

    /** How many FINs were taken since data last came in order. */
    ghost function Fins(): int
      reads this, rx
    {
      rx.next - rx.floor
    }

    ghost function TxValue(): Tx
      reads this
    {
      Tx(sendUnacked, end, slot.pending, slot.flags, slot.sequence, slot.seqLength, slot.payload, slot.deadline,
         slot.rto, slot.retries)
    }

    /** The socket as a value. */
    ghost function Value(): Endpoint
      reads this
    {
      Endpoint(control.inUse, control.state, control.connected, control.finReceived, control.aborted, control.timedOut,
               TxValue(), view, advertisedWindow, sent)
    }

    /** A socket on which a connection is being opened: its SYN is in the retransmission slot. */
    constructor (localPort: nat, now: nat, link: Link)
      requires localPort < 0x10000
      ensures Valid() && fresh(rx) && fresh(rx.ring) && fresh(rx.slots)
      ensures var e := Connecting(0x5358_0000 + localPort, now);
              Value() == SendSegment(e, SYN, [], e.tx.sequence, link).(state := if link.Sent? then SynSent else Closed)
    {
      hide Receiver.RxValid, Receiver.View;
      var initial: U32 := 0x5358_0000 + localPort;
      control := Control(true, SynSent, false, false, false, false);
      sendUnacked, sendNext, end := initial, initial + 1, initial + 1;
      slot := Slot(false, NO_FLAGS, 0, 0, [], 0, 0, 0);
      advertisedWindow, view, sent := 0, RxView(0, [], map[], {}), [];
      rx := new Receiver();
      new;
      var ok := Arm(SYN, [], initial, 1, now, link);
      if !ok {
        control := control.(state := Closed);
      }
    }

    /** Sends one segment: the window is recorded once the next hop is known, and true means it left. */
    method Send(flags: Flags, payload: seq<Byte>, sequence: U32, link: Link) returns (ok: bool)
      requires Valid() && |payload| <= SEGMENT_MAX
      modifies this`advertisedWindow, this`sent
      ensures Valid() && ok == link.Sent?
      ensures Value() == SendSegment(old(Value()), flags, payload, sequence, link)
    {
      hide Receiver.RxValid, Receiver.View;
      if link.Unresolved? {
        return false;
      }
      var window := rx.Window();
      advertisedWindow := if window > 65535 then 65535 else window;
      if link.Refused? {
        return false;
      }
      sent := sent + [Entry(Segment(flags, sequence, rx.Expected(), advertisedWindow, payload), Unwrap(sequence, end),
                            view.next)];
      return true;
    }

    /** Puts the segment into the retransmission slot and sends it. */
    method Arm(flags: Flags, payload: seq<Byte>, sequence: U32, seqLength: nat, now: nat, link: Link) returns (ok: bool)
      requires Valid() && |payload| <= SEGMENT_MAX
      modifies this`slot, this`advertisedWindow, this`sent
      ensures Valid() && ok == link.Sent?
      ensures var e := old(Value());
              Value() == SendSegment(e.(tx := Armed(e.tx, flags, payload, sequence, seqLength, now)), flags, payload,
                                     sequence, link)
    {
      hide Receiver.RxValid, Receiver.View, SendSegment;
      slot := Slot(true, flags, sequence, seqLength, payload, now + INITIAL_RTO, INITIAL_RTO, 0);
      ok := Send(flags, payload, sequence, link);
    }

    /** An acknowledgement of the whole segment in flight frees the slot. */
    method CompleteSend(ack: U32)
      requires Valid()
      modifies this`slot
      ensures Valid() && Value() == old(Value()).(tx := Completed(old(TxValue()), ack))
    {
      hide Receiver.RxValid, Receiver.View;
      if !slot.pending {
        return;
      }
      if SeqGeq(ack, Wire(slot.sequence + slot.seqLength)) {
        slot := slot.(pending := false, payload := [], seqLength := 0, retries := 0, rto := INITIAL_RTO);
      }
    }

    method Abort(timeout: bool)
      requires Valid()
      modifies this`control, this`slot
      ensures Valid() && Value() == Aborted(old(Value()), timeout)
    {
      hide Receiver.RxValid, Receiver.View;
      control := control.(timedOut := timeout, connected := false, state := Closed, aborted := true,
                          finReceived := true);
      slot := slot.(pending := false);
    }

    /** Repeats the segment in flight, with the current acknowledgement and a doubled timeout. */
    method Retransmit(now: nat, link: Link)
      requires Valid()
      modifies this`slot, this`advertisedWindow, this`sent
      ensures Valid()
      ensures var e := old(Value()).(tx := Retried(old(TxValue()), now));
              Value() == SendSegment(e, e.tx.flags, e.tx.payload, e.tx.sequence, link)
    {
      hide Receiver.RxValid, Receiver.View, SendSegment;
      var nextRto := slot.rto * 2;
      var rto := if nextRto > MAX_RTO then MAX_RTO else nextRto;
      slot := slot.(retries := slot.retries + 1, rto := rto, deadline := now + rto);
      var _ := Send(slot.flags, slot.payload, slot.sequence, link);
    }

    /** The timer looks at the segment in flight. */
    method ServiceSocket(now: nat, link: Link)
      requires Valid()
      modifies this`control, this`slot, this`advertisedWindow, this`sent
      ensures Valid() && Value() == Service(old(Value()), now, link)
    {
      hide Receiver.RxValid, Receiver.View, SendSegment;
      if control.inUse && slot.pending && now >= slot.deadline {
        if slot.retries >= MAX_RETRIES {
          Abort(true);
        } else {
          Retransmit(now, link);
        }
      }
    }

    method TakeAck(segment: Segment)
      requires Valid()
      modifies this`sendUnacked, this`slot
      ensures Valid() && Value() == ReceiveAck(old(Value()), segment)
    {
      hide Receiver.RxValid, Receiver.View;
      if segment.flags.ack && SeqGt(segment.ack, sendUnacked) && SeqLeq(segment.ack, sendNext) {
        sendUnacked := segment.ack;
      }
      if segment.flags.ack {
        CompleteSend(segment.ack);
      }
    }

    method SendPureAck(link: Link)
      requires Valid()
      modifies this`advertisedWindow, this`sent
      ensures Valid() && Value() == SendAck(old(Value()), link)
    {
      hide Receiver.RxValid, Receiver.View, SendSegment;
      var _ := Send(ACK, [], sendNext, link);
    }

    /** The peer's number is known: the connection is open. */
    method Establish(segment: Segment)
      requires Valid() && control.state.SynSent?
      modifies this`sendUnacked, this`control, this`view, rx`recvNext, rx`next, rx`floor
      ensures Valid() && Fins() <= old(Fins()) + 1
      ensures var e := old(Value());
              Value() == e.(rx := e.rx.(next := segment.sequence + 1), tx := e.tx.(unacked := segment.ack),
                            connected := true, state := Established)
    {
      hide Receiver.RxValid, Receiver.View;
      rx.OpenAt(segment.sequence);
      view := rx.View();
      sendUnacked := segment.ack;
      control := control.(connected := true, state := Established);
    }

    /** The answer to our SYN. */
    method OpenConnection(segment: Segment, link: Link)
      requires Valid() && control.state.SynSent?
      modifies this`sendUnacked, this`control, this`advertisedWindow, this`sent, this`view
      modifies rx`recvNext, rx`next, rx`floor
      ensures Valid() && Fins() <= old(Fins()) + 1 && Value() == Open(old(Value()), segment, link)
    {
      hide Valid, SendSegment, Wire;
      var ours := AnswersSyn(segment);
      if ours {
        Establish(segment);
        SendPureAck(link);
      }
    }

    method AnswersSyn(segment: Segment) returns (ours: bool)
      requires Valid()
      ensures ours <==> segment.flags.syn && segment.flags.ack && segment.ack == Wire(end)
    {
      hide Receiver.RxValid, Receiver.View;
      ours := segment.flags.syn && segment.flags.ack && segment.ack == sendNext;
    }

    method TakeData(segment: Segment)
      requires Valid() && !control.state.SynSent? && segment.payload != []
      modifies this`view, rx`recvNext, rx`rxSize, rx`next, rx`spans, rx`floor, rx.slots, rx.ring
      ensures Valid() && Fins() <= old(Fins()) && Value() == ReceiveSegment(old(Value()), segment)
    {
      hide Receiver.RxValid, Receiver.View, Receive;
      rx.ReceiveData(segment.sequence, segment.payload);
      view := rx.View();
    }

    /** The FIN counts as the byte after the payload; it is taken only where it is due, and there also
        with data held beyond it. `cells` is what the ring held. */
    method TakeFin(segment: Segment) returns (ghost cells: int -> Byte)
      requires Valid() && !control.state.SynSent? && segment.flags.fin && Fins() < FIN_LIMIT
      modifies this`control, this`view, rx`recvNext, rx`next
      ensures Valid() && Fins() <= old(Fins()) + 1 && CellsOf(cells, old(view))
      ensures Value() == ReceiveFin(old(Value()), segment, cells)
    {
      hide Receiver.RxValid, Receiver.View, FinTaken;
      cells := HeldCells(view);
      if Wire(segment.sequence + |segment.payload|) == rx.Expected() {
        cells := rx.TakeFin();
        view := rx.View();
        control := control.(finReceived := true, state := CloseWait);
      }
    }

    /** Data and FIN of a segment on an open connection, and the acknowledgement they are answered with. */
    method TakeSegment(segment: Segment, link: Link) returns (ghost cells: int -> Byte)
      requires Valid() && !control.state.SynSent? && Fins() < FIN_LIMIT
      modifies this`control, this`advertisedWindow, this`sent, this`view
      modifies rx`recvNext, rx`rxSize, rx`next, rx`spans, rx`floor, rx.slots, rx.ring
      ensures Valid() && Fins() <= old(Fins()) + 1 && CellsOf(cells, ReceiveSegment(old(Value()), segment).rx)
      ensures Value() == Answer(old(Value()), segment, link, cells)
    {
      hide Valid, SendSegment, Receive, FinTaken, CellsOf;
      cells := HeldCells(ReceiveSegment(Value(), segment).rx);
      if !control.connected {
        return;
      }
      var needsAck := false;
      if segment.payload != [] {
        TakeData(segment);
        needsAck := true;
      }
      if segment.flags.fin {
        cells := TakeFin(segment);
        needsAck := true;
      }
      if needsAck {
        SendPureAck(link);
      }
    }

    /** A segment for this socket, whatever its peer does. */
    method DeliverTcp(segment: Segment, link: Link) returns (ghost cells: int -> Byte)
      requires Valid() && Fins() < FIN_LIMIT
      modifies this, rx`recvNext, rx`rxSize, rx`next, rx`spans, rx`floor, rx.slots, rx.ring
      ensures Valid() && Fins() <= old(Fins()) + 1 && CellsOf(cells, ReceiveSegment(old(Value()), segment).rx)
      ensures Value() == Deliver(old(Value()), segment, link, cells)
    {
      hide Valid, SendSegment, Receive, FinTaken, CellsOf;
      cells := HeldCells(ReceiveSegment(Value(), segment).rx);
      if !control.inUse {
        return;
      }
      TakeAck(segment);
      if segment.flags.rst {
        Abort(false);
        return;
      }
      if control.state.SynSent? {
        OpenConnection(segment, link);
        return;
      }
      cells := TakeSegment(segment, link);
    }

    method TakeBytes(length: nat) returns (output: seq<Byte>)
      requires Valid()
      modifies this`view, rx`rxHead, rx`rxSize
      ensures Valid() && output == old(view).readable[..Min(length, |old(view).readable|)]
      ensures Value() == old(Value()).(rx := old(view).(readable := old(view).readable[|output|..]))
    {
      hide Receiver.RxValid, Receiver.View;
      output := rx.Dequeue(length);
      view := rx.View();
    }

    method Readable() returns (count: nat)
      requires Valid()
      ensures count == |view.readable|
    {
      hide Receiver.RxValid, Receiver.View;
      count := BUFFER - rx.Window();
    }

    /** What is there is handed out: at most a segment's worth, and a window update when due. */
    method HandOut(count: nat, link: Link) returns (output: seq<Byte>)
      requires Valid()
      modifies this`advertisedWindow, this`sent, this`view, rx`rxHead, rx`rxSize
      ensures Valid() && Value() == Read(old(Value()), count, link)
      ensures output == TakenBy(old(Value()), count)
    {
      hide Valid, SendSegment;
      var readable := Readable();
      if !control.inUse || count == 0 || readable == 0 {
        return [];
      }
      var windowBefore := advertisedWindow;
      output := TakeBytes(if count < SEGMENT_MAX then count else SEGMENT_MAX);
      UpdateWindow(windowBefore, link);
    }

    /** A read call begins: it is answered at once, or has to wait. */
    method ReadSocket(count: nat, now: nat, link: Link) returns (reading: Reading)
      requires Valid()
      modifies this`advertisedWindow, this`sent, this`view, rx`rxHead, rx`rxSize
      ensures Valid() && (Value(), reading) == ReadBegun(old(Value()), count, now, link)
    {
      hide Valid, Read, TakenBy;
      if count == 0 {
        return Finished(Got([]));
      }
      if !control.inUse {
        return Finished(NotReadable);
      }
      var readable := Readable();
      if readable != 0 {
        var output := HandOut(count, link);
        return Finished(Got(output));
      }
      if control.connected {
        return Pending(now);
      }
      if control.aborted {
        return Finished(Broken(control.timedOut));
      }
      return Finished(if control.finReceived then EndOfStream else NotReadable);
    }

    /** One turn of a read call's wait, after the network was looked at. */
    method ResumeRead(count: nat, blocking: bool, since: nat, timeout: nat, now: nat, stop: bool, link: Link)
      returns (reading: Reading)
      requires Valid()
      modifies this`advertisedWindow, this`sent, this`view, rx`rxHead, rx`rxSize
      ensures Valid()
      ensures (Value(), reading) == ReadTurn(old(Value()), count, blocking, since, timeout, now, stop, link)
    {
      hide Valid, Read, TakenBy;
      var readable := Readable();
      if readable != 0 {
        var output := HandOut(count, link);
        return Finished(Got(output));
      }
      if control.aborted {
        return Finished(Broken(control.timedOut));
      }
      if control.finReceived {
        return Finished(EndOfStream);
      }
      if !blocking {
        return Finished(NothingYet);
      }
      if timeout != 0 && now >= since + timeout {
        return Finished(TooLate);
      }
      return if stop then Finished(Signalled) else Pending(since);
    }

    /** Tells the peer of a window that has just become useful. */
    method UpdateWindow(windowBefore: nat, link: Link)
      requires Valid()
      modifies this`advertisedWindow, this`sent
      ensures Valid()
      ensures var e := old(Value());
              Value() == if e.connected && windowBefore < MIN_USEFUL_WINDOW <= Free(e.rx) then SendAck(e, link) else e
    {
      hide Receiver.RxValid, Receiver.View, SendSegment;
      var freeAfter := rx.Window();
      if control.connected && windowBefore < MIN_USEFUL_WINDOW && freeAfter >= MIN_USEFUL_WINDOW
        && freeAfter > windowBefore {
        SendPureAck(link);
      }
    }

    /** Arms a chunk and sends it; `send_next` moves only if it went out. */
    method ArmChunk(chunk: seq<Byte>, now: nat, link: Link) returns (ok: bool)
      requires Valid() && |chunk| <= SEGMENT_MAX
      modifies this`sendNext, this`end, this`slot, this`advertisedWindow, this`sent
      ensures Valid() && ok == link.Sent? && Value() == ArmData(old(Value()), chunk, now, link)
    {
      hide Receiver.RxValid, Receiver.View;
      ok := Arm(ACK_PSH, chunk, sendNext, |chunk|, now, link);
      if ok {
        WirePlus(end, |chunk|);
        sendNext := Wire(sendNext + |chunk|);
        end := end + |chunk|;
      }
    }

    /** A write call begins: it is answered at once, or has to wait. */
    method WriteSocket(data: seq<Byte>, blocking: bool, now: nat, link: Link) returns (progress: Progress)
      requires Valid()
      modifies this`sendNext, this`end, this`slot, this`advertisedWindow, this`sent
      ensures Valid() && (Value(), progress) == WriteBegun(old(Value()), data, blocking, now, link)
    {
      hide Receiver.RxValid, Receiver.View, ArmData;
      if !control.inUse {
        return Answered(NotOpen);
      }
      if control.aborted {
        return Answered(Dead(control.timedOut));
      }
      if !control.connected {
        return Answered(NotOpen);
      }
      if data == [] {
        return Answered(Took(0));
      }
      var count := if |data| > SEGMENT_MAX then SEGMENT_MAX else |data|;
      if slot.pending {
        return if blocking then Waiting(ForSlot(data[..count], now)) else Answered(WouldBlock);
      }
      var ok := ArmChunk(data[..count], now, link);
      if !ok {
        return Answered(SendFailed);
      }
      return if blocking then Waiting(ForAck(count, now)) else Answered(Took(count));
    }

    /** One turn of a write call's wait, after the network was looked at. */
    method ResumeWrite(call: Call, timeout: nat, now: nat, stop: bool, link: Link) returns (progress: Progress)
      requires Valid() && (call.ForSlot? ==> |call.chunk| <= SEGMENT_MAX)
      modifies this`sendNext, this`end, this`slot, this`advertisedWindow, this`sent
      ensures Valid() && (Value(), progress) == WriteTurn(old(Value()), call, timeout, now, stop, link)
    {
      hide Receiver.RxValid, Receiver.View, ArmData;
      if slot.pending {
        if control.aborted {
          return Answered(Dead(control.timedOut));
        }
        if timeout != 0 && now >= call.since + timeout {
          return Answered(Expired);
        }
        return if stop then Answered(Interrupted) else Waiting(call);
      }
      match call {
        case ForSlot(chunk, _) =>
          var ok := ArmChunk(chunk, now, link);
          return if ok then Waiting(ForAck(|chunk|, now)) else Answered(SendFailed);
        case ForAck(count, _) =>
          return Answered(Took(count));
      }
    }
  }

  /** Cells that hold what the view holds, and nothing elsewhere. */
  ghost function HeldCells(v: RxView): (cells: int -> Byte)
    ensures CellsOf(cells, v)
  {
    p => if p in v.ahead then v.ahead[p] else 0
  }
}
