/** Two established sockets joined by a network that loses, duplicates and
    reorders: every run of both ends, in both directions at once.

    The network is the two logs of sent segments; an arrival takes any segment
    of the peer's log, at any time, any number of times. All it promises is
    that a segment it still delivers is less than 2^31 bytes old. */
module TcpTransfer {
  import opened SequenceNumbers
  import opened TcpReassembly
  import opened TcpEndpoint

  /** One end: its socket, where its own stream starts, what writes put on the wire, and of the peer's
      stream what has arrived in order and what the application has read. */
  datatype Side = Side(e: Endpoint, origin: int, written: seq<Byte>, arrived: seq<Byte>, read: seq<Byte>)

  datatype World = World(me: Side, peer: Side)

  function Swap(w: World): World { World(w.peer, w.me) }

  datatype Action =
    | WriteData(data: seq<Byte>, now: nat)
    | Timer(now: nat, link: Link)
    | Arrival(index: nat, link: Link, cells: int -> Byte)
    | ReadData(count: nat, link: Link)
    | Shut(link: Link)

  /** The age the network may deliver at: 32-bit differences still tell where the segment belongs. */
  predicate Timely(e: Endpoint, entry: Entry) {
    e.inUse ==> Near(entry.at, e.rx.next) && Near(entry.ackAt, e.tx.end)
  }

  predicate Enabled(w: World, a: Action) {
    a.Arrival? ==> a.index < |w.peer.e.sent| && Timely(w.me.e, w.peer.e.sent[a.index])
  }

  /** The slot is free, so a write that has got this far arms its data: a blocking one does not look again
      whether the connection is still there. */
  predicate CanArm(e: Endpoint) { e.inUse && !e.tx.pending }

  function Wrote(s: Side, data: seq<Byte>, now: nat, link: Link): Side {
    if !CanArm(s.e) || data == [] then s else
    s.(e := ArmData(s.e, Chunk(data), now, link), written := if link.Sent? then s.written + Chunk(data) else s.written)
  }

  function Arrived(s: Side, segment: Segment, link: Link, cells: int -> Byte): Side {
    var e := Deliver(s.e, segment, link, cells);
    s.(e := e, arrived := if e.inUse then s.read + e.rx.readable else s.arrived)
  }

  function DidRead(s: Side, count: nat, link: Link): Side {
    s.(e := Read(s.e, count, link), read := s.read + TakenBy(s.e, count))
  }

  function MeAfter(w: World, a: Action): Side
    requires Enabled(w, a)
  {
    match a
    case WriteData(data, now) => Wrote(w.me, data, now, Sent)
    case Timer(now, link) => w.me.(e := Service(w.me.e, now, link))
    case Arrival(index, link, cells) => Arrived(w.me, w.peer.e.sent[index].segment, link, cells)
    case ReadData(count, link) => DidRead(w.me, count, link)
    case Shut(link) => w.me.(e := Close(w.me.e, link))
  }

  function After(w: World, a: Action): World
    requires Enabled(w, a)
  {
    World(MeAfter(w, a), w.peer)
  }

  /** One of the two ends takes a step. */
  predicate Step(w: World, w': World, a: Action, mine: bool) {
    if mine then Enabled(w, a) && w' == After(w, a)
    else Enabled(Swap(w), a) && w' == Swap(After(Swap(w), a))
  }

  predicate Fresh(s: Side, peerOrigin: int) {
    && s.e.inUse && s.e.state.Established? && s.e.connected && !s.e.aborted && !s.e.finReceived
    && !s.e.tx.pending && s.e.tx.payload == [] && s.e.tx.end == s.origin && s.e.tx.unacked == Wire(s.origin)
    && s.e.rx == RxView(peerOrigin, [], map[], {}) && s.e.advertised == BUFFER && s.e.sent == []
    && s.written == s.arrived == s.read == []
  }

  /** Both ends have just been connected, at any two initial sequence numbers. */
  predicate Start(w: World) { Fresh(w.me, w.peer.origin) && Fresh(w.peer, w.me.origin) }

  predicate Run(ws: seq<World>, actions: seq<Action>, mine: seq<bool>) {
    && |ws| == |actions| + 1 == |mine| + 1 && Start(ws[0])
    && forall i :: 0 <= i < |actions| ==> Step(ws[i], ws[i + 1], actions[i], mine[i])
  }

  // ----- what holds of one direction, from `me` to `peer`

  /** The slot holds the last bytes written, with their own sequence number. */
  predicate InFlight(s: Side) {
    var tx := s.e.tx;
    && 0 < |tx.payload| == tx.seqLength <= SEGMENT_MAX && |tx.payload| <= |s.written|
    && tx.payload == s.written[|s.written| - |tx.payload|..]
    && tx.sequence == Wire(tx.end - |tx.payload|) && tx.flags == ACK_PSH
  }

  /** `send_unacked` lies between the segment in flight and `send_next`. */
  predicate UnackedOk(tx: Tx) {
    |tx.payload| <= SEGMENT_MAX && tx.end - |tx.payload| <= Unwrap(tx.unacked, tx.end) <= tx.end
  }

  predicate SendSide(s: Side) {
    s.e.inUse ==>
      && s.e.state != SynSent
      && s.e.tx.end == s.origin + |s.written|
      && (!s.e.aborted ==> UnackedOk(s.e.tx))
      && (s.e.tx.pending ==> InFlight(s))
      && (!s.e.tx.pending && !s.e.aborted ==> s.e.tx.payload == [])
  }

  /** A segment on the wire carries a piece of the stream, or nothing, or the FIN that ends it. */
  predicate Sound(entry: Entry, s: Side) {
    var segment := entry.segment;
    && segment.sequence == Wire(entry.at) && segment.ack == Wire(entry.ackAt)
    && segment.flags.ack && !segment.flags.syn && !segment.flags.rst
    && (segment.payload != [] ==> CutFrom(s.origin, s.written, entry.at, segment.payload))
    && (segment.flags.fin ==> !s.e.inUse && segment.payload == [] && entry.at == s.origin + |s.written|)
  }

  predicate WireSound(s: Side) {
    forall entry :: entry in s.e.sent ==> Sound(entry, s)
  }

  predicate ReceiveSide(s: Side, from: Side) {
    && s.arrived <= from.written && s.read <= s.arrived
    && (s.e.inUse ==>
          && s.arrived == s.read + s.e.rx.readable
          && Settled(s.e.rx) && OfStream(s.e.rx, from.origin, from.written, |s.read|)
          && (from.e.inUse ==> s.e.rx.next == from.origin + |s.arrived|)
          && (s.e.finReceived && !s.e.aborted ==> !from.e.inUse && s.arrived == from.written))
  }

  /** What `s` has acknowledged to `to` it has received. */
  predicate AcksSound(s: Side, to: Side) {
    forall entry :: entry in s.e.sent && to.e.inUse ==> entry.ackAt <= to.origin + |s.arrived|
  }

  /** A free slot means everything written has arrived, unless the connection was given up. */
  predicate SlotSound(s: Side, to: Side) {
    s.e.inUse && !s.e.aborted && !s.e.tx.pending ==> to.arrived == s.written
  }

  predicate Flow(w: World) {
    && SendSide(w.me) && WireSound(w.me) && ReceiveSide(w.peer, w.me)
    && AcksSound(w.peer, w.me) && SlotSound(w.me, w.peer)
  }

  predicate Inv(w: World) { Flow(w) && Flow(Swap(w)) }

  // ----- sends

  function Last(e: Endpoint): Entry
    requires e.sent != []
  {
    e.sent[|e.sent| - 1]
  }

  lemma Sends(e: Endpoint, flags: Flags, payload: seq<Byte>, sequence: U32, link: Link)
    ensures var e' := SendSegment(e, flags, payload, sequence, link);
            && e' == e.(advertised := e'.advertised, sent := e'.sent)
            && (e'.sent != e.sent ==>
                  && |e'.sent| == |e.sent| + 1 && e'.sent == e.sent + [Last(e')]
                  && Last(e').segment.flags == flags && Last(e').segment.payload == payload
                  && Last(e').segment.sequence == sequence == Wire(Last(e').at)
                  && Last(e').at == Unwrap(sequence, e.tx.end)
                  && Last(e').segment.ack == Wire(e.rx.next) && Last(e').ackAt == e.rx.next)
  {
    WireUnwrap(sequence, e.tx.end);
  }

  lemma EndUnwraps(end: int)
    ensures Unwrap(Wire(end), end) == end
  {
    UnwrapWire(end, end);
  }

  // ----- what a step may change without harm

  /** Nothing is forgotten of a stream that only grows, and only while its sender is open. */
  lemma SoundGrows(entry: Entry, s: Side, s': Side)
    requires Sound(entry, s) && s'.origin == s.origin && s.written <= s'.written
    requires s'.e.inUse ==> s.e.inUse
    requires s.written == s'.written || s.e.inUse
    ensures Sound(entry, s')
  {
  }

  /** The log of `me` after a step: as before, or one sound entry longer. */
  predicate Logs(s: Side, s': Side, to: Side) {
    s'.e.sent == s.e.sent ||
    (&& |s'.e.sent| == |s.e.sent| + 1 && s'.e.sent == s.e.sent + [Last(s'.e)]
     && Sound(Last(s'.e), s') && (to.e.inUse ==> Last(s'.e).ackAt <= to.origin + |s'.arrived|))
  }

  lemma LogKept(s: Side, s': Side, to: Side)
    requires WireSound(s) && AcksSound(s, to) && Logs(s, s', to)
    requires s'.origin == s.origin && s.written <= s'.written && s.arrived <= s'.arrived
    requires s'.e.inUse ==> s.e.inUse
    requires s.written == s'.written || s.e.inUse
    ensures WireSound(s') && AcksSound(s', to)
  {
    forall entry | entry in s'.e.sent
      ensures Sound(entry, s') && (to.e.inUse ==> entry.ackAt <= to.origin + |s'.arrived|)
    {
      if entry in s.e.sent { SoundGrows(entry, s, s'); }
    }
  }

  /** A pure acknowledgement is always sound. */
  lemma AckLogged(s: Side, s': Side, to: Side, link: Link)
    requires s'.e == SendAck(s.e, link) && s' == s.(e := s'.e) && ReceiveSide(s, to) && s.e.inUse
    ensures Logs(s, s', to)
    ensures s' == s.(e := s.e.(advertised := s'.e.advertised, sent := s'.e.sent))
  {
    Sends(s.e, ACK, [], Wire(s.e.tx.end), link);
  }

  // ----- an acknowledgement arrives

  lemma UnackedKept(tx: Tx, ackAt: int)
    requires UnackedOk(tx) && ackAt <= tx.end && Near(ackAt, tx.end)
    ensures var tx' := Acknowledged(tx, Wire(ackAt));
            && tx' == tx.(unacked := tx'.unacked) && UnackedOk(tx')
            && ackAt <= Unwrap(tx'.unacked, tx.end)
  {
    var u := Unwrap(tx.unacked, tx.end);
    WireUnwrap(tx.unacked, tx.end);
    CompareWires(ackAt, u);
    CompareWires(ackAt, tx.end);
    UnwrapWire(ackAt, tx.end);
  }

  /** The slot is freed exactly by the acknowledgement of everything written. */
  lemma FreedByAll(s: Side, tx: Tx, ackAt: int)
    requires s.e.inUse && SendSide(s) && s.e.tx.pending && tx == s.e.tx.(unacked := tx.unacked)
    requires ackAt <= tx.end && Near(ackAt, tx.end)
    ensures Completed(tx, Wire(ackAt)).pending <==> ackAt < tx.end
  {
    WirePlus(tx.end - |tx.payload|, |tx.payload|);
    CompareWires(ackAt, tx.end);
  }

  lemma AckArrives(s: Side, from: Side, entry: Entry)
    requires SendSide(s) && SlotSound(s, from) && s.e.inUse && from.arrived <= s.written
    requires entry.segment.flags.ack && entry.segment.ack == Wire(entry.ackAt)
    requires entry.ackAt <= s.origin + |from.arrived|
    requires Near(entry.ackAt, s.e.tx.end)
    ensures var s' := s.(e := ReceiveAck(s.e, entry.segment));
            && SendSide(s') && SlotSound(s', from)
            && s'.e == s.e.(tx := s'.e.tx) && s'.e.tx.end == s.e.tx.end
  {
    if !s.e.aborted { UnackedKept(s.e.tx, entry.ackAt); }
    if s.e.tx.pending {
      FreedByAll(s, Acknowledged(s.e.tx, entry.segment.ack), entry.ackAt);
    }
  }

  // ----- data and FIN arrive

  lemma DataArrives(s: Side, from: Side, entry: Entry)
    requires ReceiveSide(s, from) && s.e.inUse && Sound(entry, from) && Near(entry.at, s.e.rx.next)
    ensures var e' := ReceiveSegment(s.e, entry.segment);
            var s' := s.(e := e', arrived := s.read + e'.rx.readable);
            && e' == s.e.(rx := e'.rx) && ReceiveSide(s', from) && s.arrived <= s'.arrived
            && s.e.rx.next <= e'.rx.next
  {
    hide Receive, RunStarts, BytesOf, CutFrom, Wire;
    var rx, segment := s.e.rx, entry.segment;
    if segment.payload != [] {
      UnwrapWire(entry.at, rx.next);
      ReceiveSettled(rx, entry.at, segment.payload);
      ReceiveStream(rx, from.origin, from.written, |s.read|, entry.at, segment.payload);
      ArrivedPrefix(s.read, rx.readable, Receive(rx, entry.at, segment.payload).readable, from.written);
    }
  }

  lemma ArrivedPrefix(read: seq<Byte>, before: seq<Byte>, readable: seq<Byte>, written: seq<Byte>)
    requires read <= written && |read| + |readable| <= |written| && before <= readable
    requires readable == written[|read|..|read| + |readable|]
    ensures read + before <= read + readable <= written
  {
  }

  /** A FIN is taken only when every byte before it has arrived. */
  lemma FinArrives(s: Side, from: Side, entry: Entry, cells: int -> Byte)
    requires ReceiveSide(s, from) && s.e.inUse && Sound(entry, from) && Near(entry.at, s.e.rx.next)
    ensures var s' := s.(e := ReceiveFin(s.e, entry.segment, cells));
            && ReceiveSide(s', from)
            && (FinDue(s.e, entry.segment) ==> s.arrived == from.written && s.e.rx.ahead == map[])
  {
    if FinDue(s.e, entry.segment) {
      WirePlus(entry.at, 0);
      WireInjective(entry.at, s.e.rx.next);
      FinComplete(s.e.rx, from.origin, from.written, |s.read|);
      FinAtTheEnd(s.e.rx, cells);
    }
  }

  // ----- every step keeps the invariant

  /** A step of `me` that wrote nothing keeps the invariant if its own parts hold. */
  lemma Assemble(w: World, s: Side)
    requires Inv(w) && SendSide(s) && SlotSound(s, w.peer) && ReceiveSide(s, w.peer) && Logs(w.me, s, w.peer)
    requires s.origin == w.me.origin && s.written == w.me.written && w.me.arrived <= s.arrived
    requires s.e.inUse ==> w.me.e.inUse
    ensures Inv(World(s, w.peer))
  {
    LogKept(w.me, s, w.peer);
  }

  lemma FinArrivesAfterData(s: Side, s': Side, from: Side, entry: Entry, cells: int -> Byte)
    requires ReceiveSide(s', from) && s'.e.inUse && Sound(entry, from) && Near(entry.at, s.e.rx.next)
    requires s'.e == ReceiveSegment(s.e, entry.segment)
    ensures ReceiveSide(s'.(e := ReceiveFin(s'.e, entry.segment, cells)), from)
  {
    if entry.segment.flags.fin { FinArrives(s', from, entry, cells); }
  }

  /** The data, FIN and answer of a segment, on a connected socket. */
  lemma SegmentArrives(s: Side, from: Side, entry: Entry, link: Link, cells: int -> Byte)
    requires ReceiveSide(s, from) && s.e.inUse && s.e.connected && s.e.state != SynSent
    requires Sound(entry, from) && Near(entry.at, s.e.rx.next)
    ensures var e' := Answer(s.e, entry.segment, link, cells);
            var s' := s.(e := e', arrived := s.read + e'.rx.readable);
            && ReceiveSide(s', from) && Logs(s, s', from) && s.arrived <= s'.arrived
            && e'.tx == s.e.tx && e'.inUse && e'.aborted == s.e.aborted && e'.state != SynSent
  {
    DataArrives(s, from, entry);
    var e2 := ReceiveSegment(s.e, entry.segment);
    var s2 := s.(e := e2, arrived := s.read + e2.rx.readable);
    FinArrivesAfterData(s, s2, from, entry, cells);
    var s3 := s2.(e := ReceiveFin(s2.e, entry.segment, cells));
    AckLogged(s3, s3.(e := SendAck(s3.e, link)), from, link);
  }

  lemma ArrivalIs(s: Side, s1: Side, from: Side, entry: Entry, link: Link, cells: int -> Byte)
    requires s.e.inUse && s1 == s.(e := ReceiveAck(s.e, entry.segment)) && s1.e.inUse && s1.e.state != SynSent
    requires Sound(entry, from) && ReceiveSide(s, from)
    ensures var e := Answer(s1.e, entry.segment, link, cells);
            Arrived(s, entry.segment, link, cells) == s1.(e := e, arrived := if e.inUse then s.read + e.rx.readable
                else s.arrived)
  {
  }

  /** The same on any socket: one that is not connected takes no data. */
  lemma AnswerArrives(s: Side, from: Side, entry: Entry, link: Link, cells: int -> Byte)
    requires ReceiveSide(s, from) && s.e.inUse && s.e.state != SynSent && Sound(entry, from)
    requires Near(entry.at, s.e.rx.next)
    ensures var e' := Answer(s.e, entry.segment, link, cells);
            var s' := s.(e := e', arrived := s.read + e'.rx.readable);
            && ReceiveSide(s', from) && Logs(s, s', from) && s.arrived <= s'.arrived
            && e'.tx == s.e.tx && e'.inUse && e'.aborted == s.e.aborted && e'.state != SynSent
  {
    hide Settled, OfStream, Sound;
    if s.e.connected {
      SegmentArrives(s, from, entry, link, cells);
    } else {
      assert Answer(s.e, entry.segment, link, cells) == s.e && s == s.(e := s.e, arrived := s.read + s.e.rx.readable);
    }
  }

  /** The sending side does not depend on what was received. */
  lemma SendUntouched(s: Side, s': Side, to: Side)
    requires SendSide(s) && SlotSound(s, to) && s'.origin == s.origin && s'.written == s.written
    requires s'.e.tx == s.e.tx && s'.e.inUse == s.e.inUse && s'.e.aborted == s.e.aborted && s'.e.state != SynSent
    ensures SendSide(s') && SlotSound(s', to)
  {
  }

  /** Everything that holds of `s` alone after a segment arrived. */
  lemma ArrivalParts(s: Side, from: Side, entry: Entry, link: Link, cells: int -> Byte)
    requires SendSide(s) && SlotSound(s, from) && ReceiveSide(s, from) && s.e.inUse && from.arrived <= s.written
    requires Sound(entry, from) && entry.ackAt <= s.origin + |from.arrived| && Timely(s.e, entry)
    ensures var s' := Arrived(s, entry.segment, link, cells);
            && SendSide(s') && SlotSound(s', from) && ReceiveSide(s', from) && Logs(s, s', from)
            && s' == s.(e := s'.e, arrived := s'.arrived) && s.arrived <= s'.arrived
  {
    AckArrives(s, from, entry);
    var s1 := s.(e := ReceiveAck(s.e, entry.segment));
    assert ReceiveSide(s1, from) && s1.e.rx == s.e.rx && s1.e.state != SynSent;
    ArrivalIs(s, s1, from, entry, link, cells);
    AnswerArrives(s1, from, entry, link, cells);
    hide *;
    var e := Answer(s1.e, entry.segment, link, cells);
    var s' := s1.(e := e, arrived := s.read + e.rx.readable);
    SendUntouched(s1, s', from);
    LogsFrom(s, s1, s', from);
  }

  lemma LogsFrom(s: Side, s1: Side, s': Side, to: Side)
    requires Logs(s1, s', to) && s1.e.sent == s.e.sent
    ensures Logs(s, s', to)
  {
  }

  lemma ArrivalKeeps(w: World, a: Action)
    requires Inv(w) && a.Arrival? && Enabled(w, a)
    ensures Inv(After(w, a))
  {
    if w.me.e.inUse {
      var entry := w.peer.e.sent[a.index];
      assert entry in w.peer.e.sent && Sound(entry, w.peer);
      ArrivalParts(w.me, w.peer, entry, a.link, a.cells);
      Assemble(w, After(w, a).me);
    }
  }

  lemma StreamGrows(s: Side, from: Side, from': Side)
    requires ReceiveSide(s, from) && from'.origin == from.origin && from.written <= from'.written
    requires from.e.inUse && from'.e.inUse
    ensures ReceiveSide(s, from')
  {
  }

  /** What a write that went out leaves in the socket and on the wire. */
  lemma WriteSends(s: Side, data: seq<Byte>, now: nat, to: Side)
    requires SendSide(s) && ReceiveSide(s, to) && CanArm(s.e) && data != []
    ensures var s' := Wrote(s, data, now, Sent);
            && SendSide(s') && Logs(s, s', to) && s'.written == s.written + Chunk(data)
            && s'.e == s.e.(tx := s'.e.tx, advertised := s'.e.advertised, sent := s'.e.sent)
            && s'.e.tx.pending
  {
    var s', chunk := Wrote(s, data, now, Sent), Chunk(data);
    var armed := s.e.(tx := Armed(s.e.tx, ACK_PSH, chunk, Wire(s.e.tx.end), |chunk|, now));
    Sends(armed, ACK_PSH, chunk, armed.tx.sequence, Sent);
    EndUnwraps(s.e.tx.end);
    WireUnwrap(s.e.tx.unacked, s.e.tx.end);
    UnwrapWire(s.e.tx.end, s'.e.tx.end);
    assert CutFrom(s.origin, s'.written, s.e.tx.end, chunk);
  }

  lemma WriteKeeps(w: World, a: Action)
    requires Inv(w) && a.WriteData? && Enabled(w, a)
    ensures Inv(After(w, a))
  {
    var s' := After(w, a).me;
    if CanArm(w.me.e) && a.data != [] {
      WriteSends(w.me, a.data, a.now, w.peer);
      LogKept(w.me, s', w.peer);
      StreamGrows(w.peer, w.me, s');
    }
  }

  /** A retransmission repeats the bytes in flight, under their own sequence number. */
  lemma RetryParts(s: Side, to: Side, now: nat, link: Link)
    requires SendSide(s) && ReceiveSide(s, to) && s.e.inUse && s.e.tx.pending
    ensures var e := s.e.(tx := Retried(s.e.tx, now));
            var s' := s.(e := SendSegment(e, e.tx.flags, e.tx.payload, e.tx.sequence, link));
            && SendSide(s') && ReceiveSide(s', to) && Logs(s, s', to)
            && s'.e == e.(advertised := s'.e.advertised, sent := s'.e.sent)
  {
    var e := s.e.(tx := Retried(s.e.tx, now));
    var at := s.e.tx.end - |s.e.tx.payload|;
    assert CutFrom(s.origin, s.written, at, s.e.tx.payload);
    UnwrapWire(at, s.e.tx.end);
    Sends(e, e.tx.flags, e.tx.payload, e.tx.sequence, link);
  }

  lemma TimerParts(s: Side, to: Side, now: nat, link: Link)
    requires SendSide(s) && SlotSound(s, to) && ReceiveSide(s, to)
    ensures var s' := s.(e := Service(s.e, now, link));
            SendSide(s') && SlotSound(s', to) && ReceiveSide(s', to) && Logs(s, s', to) && s'.e.inUse == s.e.inUse
  {
    if s.e.inUse && s.e.tx.pending {
      RetryParts(s, to, now, link);
    }
  }

  lemma TimerKeeps(w: World, a: Action)
    requires Inv(w) && a.Timer? && Enabled(w, a)
    ensures Inv(After(w, a))
  {
    TimerParts(w.me, w.peer, a.now, a.link);
    Assemble(w, After(w, a).me);
  }

  lemma ReadParts(s: Side, from: Side, count: nat, link: Link)
    requires SendSide(s) && SlotSound(s, from) && ReceiveSide(s, from) && ReadLength(s.e, count) > 0
    ensures var s' := DidRead(s, count, link);
            SendSide(s') && SlotSound(s', from) && ReceiveSide(s', from) && Logs(s, s', from) && s'.e.inUse
  {
    var length := ReadLength(s.e, count);
    var rest := s.(e := s.e.(rx := s.e.rx.(readable := s.e.rx.readable[length..])),
                   read := s.read + s.e.rx.readable[..length]);
    ReadSide(s, rest, from, length);
    AckLogged(rest, rest.(e := SendAck(rest.e, link)), from, link);
  }

  lemma ReadKeeps(w: World, a: Action)
    requires Inv(w) && a.ReadData? && Enabled(w, a)
    ensures Inv(After(w, a))
  {
    if ReadLength(w.me.e, a.count) > 0 {
      ReadParts(w.me, w.peer, a.count, a.link);
      Assemble(w, After(w, a).me);
    } else {
      assert w.me.read + TakenBy(w.me.e, a.count) == w.me.read;
    }
  }

  lemma ReadSide(s: Side, s': Side, from: Side, length: nat)
    requires ReceiveSide(s, from) && s.e.inUse && length <= |s.e.rx.readable|
    requires s' == s.(e := s.e.(rx := s.e.rx.(readable := s.e.rx.readable[length..])),
                      read := s.read + s.e.rx.readable[..length])
    ensures ReceiveSide(s', from)
  {
    assert s'.read + s'.e.rx.readable == s.arrived;
  }

  lemma ShutKeeps(w: World, a: Action)
    requires Inv(w) && a.Shut? && Enabled(w, a)
    ensures Inv(After(w, a))
  {
    var s, s' := w.me, After(w, a).me;
    if s.e.inUse && s.e.connected {
      Sends(s.e, FIN_ACK, [], Wire(s.e.tx.end), a.link);
      EndUnwraps(s.e.tx.end);
    }
    LogKept(s, s', w.peer);
  }

  lemma StepKeeps(w: World, w': World, a: Action, mine: bool)
    requires Inv(w) && Step(w, w', a, mine)
    ensures Inv(w')
  {
    var v := if mine then w else Swap(w);
    match a
    case WriteData(_, _) => WriteKeeps(v, a);
    case Timer(_, _) => TimerKeeps(v, a);
    case Arrival(_, _, _) => ArrivalKeeps(v, a);
    case ReadData(_, _) => ReadKeeps(v, a);
    case Shut(_) => ShutKeeps(v, a);
  }

  lemma StartHolds(w: World)
    requires Start(w)
    ensures Inv(w)
  {
    EndUnwraps(w.me.origin);
    EndUnwraps(w.peer.origin);
  }

  lemma {:induction false} RunKeeps(ws: seq<World>, actions: seq<Action>, mine: seq<bool>, i: nat)
    requires Run(ws, actions, mine) && i < |ws|
    ensures Inv(ws[i])
  {
    if i == 0 {
      StartHolds(ws[0]);
    } else {
      RunKeeps(ws, actions, mine, i - 1);
      StepKeeps(ws[i - 1], ws[i], actions[i - 1], mine[i - 1]);
    }
  }

  // ----- the theorems

  /** What a run promises of one direction: what arrived is a prefix of what was written, what was
      read is a prefix of what arrived, a slot freed by an acknowledgement means all of it arrived,
      and an end of file means the sender closed and all of it arrived. */
  predicate Safe(s: Side, to: Side) {
    && to.read <= to.arrived <= s.written
    && (s.e.inUse && !s.e.aborted && !s.e.tx.pending ==> to.arrived == s.written)
    && (to.e.inUse && to.e.finReceived && !to.e.aborted ==> !s.e.inUse && to.arrived == s.written)
  }

  /** In every run, in both directions, however the network loses, repeats and reorders. */
  lemma StreamSafety(ws: seq<World>, actions: seq<Action>, mine: seq<bool>, i: nat)
    requires Run(ws, actions, mine) && i < |ws|
    ensures Safe(ws[i].me, ws[i].peer) && Safe(ws[i].peer, ws[i].me)
  {
    RunKeeps(ws, actions, mine, i);
  }

  /** Whenever a FIN is about to be taken, nothing is held beyond it. */
  lemma FinFindsNothingAhead(w: World, index: nat)
    requires Inv(w) && w.me.e.inUse && index < |w.peer.e.sent| && Timely(w.me.e, w.peer.e.sent[index])
    requires FinDue(w.me.e, w.peer.e.sent[index].segment)
    ensures w.me.e.rx.ahead == map[] && w.me.arrived == w.peer.written
  {
    assert w.peer.e.sent[index] in w.peer.e.sent;
    FinArrives(w.me, w.peer, w.peer.e.sent[index], p => 0);
  }

  /** What the next timeout after a failed write puts on the wire: bytes no write accepted, at the
      position the receiver expects. */
  lemma FailedWriteRepeats(s: Side, data: seq<Byte>, now: nat, link: Link)
    requires s.e.inUse && SendSide(s) && CanWrite(s.e) && data != [] && !link.Sent?
    ensures var failed := Wrote(s, data, now, link);
            var e := Service(failed.e, now + INITIAL_RTO, Sent);
            && failed.written == s.written && e.inUse && |e.sent| == |s.e.sent| + 1
            && Last(e).at == s.e.tx.end && Last(e).ackAt == s.e.rx.next
            && Last(e).segment.sequence == Wire(s.e.tx.end) && Last(e).segment.ack == Wire(s.e.rx.next)
            && Last(e).segment.flags == ACK_PSH && Last(e).segment.payload == Chunk(data)
  {
    EndUnwraps(s.e.tx.end);
  }

  /** Any bytes at the expected position are delivered. */
  lemma ExpectedArrives(s: Side, segment: Segment, link: Link, cells: int -> Byte)
    requires s.e.inUse && s.e.connected && s.e.state != SynSent && |s.e.rx.readable| < BUFFER
    requires segment.payload != [] && segment.flags == ACK_PSH && segment.sequence == Wire(s.e.rx.next)
    requires s.arrived == s.read + s.e.rx.readable
    ensures |Arrived(s, segment, link, cells).arrived| > |s.arrived|
  {
    EndUnwraps(s.e.rx.next);
    LeadingByteArrives(s.e.rx, segment.payload);
    ArrivedIs(s, segment, link, cells);
  }

  lemma ArrivedIs(s: Side, segment: Segment, link: Link, cells: int -> Byte)
    requires s.e.inUse && s.e.connected && s.e.state != SynSent && segment.flags == ACK_PSH && segment.payload != []
    ensures Arrived(s, segment, link, cells).arrived
            == s.read + Receive(s.e.rx, Unwrap(segment.sequence, s.e.rx.next), segment.payload).readable
  {
  }

  /** A write whose segment could not be sent reports an error but stays armed. From every such state, the
      next timeout delivers bytes beyond those whose segments left. */
  lemma FailedWriteLeaks(w: World, data: seq<Byte>, now: nat, link: Link, link': Link, cells: int -> Byte)
    requires Inv(w) && CanWrite(w.me.e) && data != [] && !link.Sent?
    requires w.peer.e.inUse && w.peer.e.connected && |w.peer.e.rx.readable| < BUFFER
    requires Near(w.me.e.rx.next, w.peer.e.tx.end)
    ensures var failed := World(Wrote(w.me, data, now, link), w.peer);
            var repeated := After(failed, Timer(now + INITIAL_RTO, Sent));
            var arrival := Arrival(|w.me.e.sent|, link', cells);
            && Enabled(Swap(repeated), arrival)
            && !Safe(After(Swap(repeated), arrival).peer, After(Swap(repeated), arrival).me)
  {
    var failed := World(Wrote(w.me, data, now, link), w.peer);
    var repeated := After(failed, Timer(now + INITIAL_RTO, Sent));
    FailedWriteRepeats(w.me, data, now, link);
    ExpectedArrives(w.peer, Last(repeated.me.e).segment, link', cells);
  }

  lemma LeadingByteArrives(v: RxView, data: seq<Byte>)
    requires |v.readable| < BUFFER && data != []
    ensures |Receive(v, v.next, data).readable| > |v.readable|
  {
    var held := Candidate(v, v.next, data);
    assert v.next in held.Keys;
  }
}
