/** Read calls that wait for bytes. Between two turns of the wait anything may
    happen to either end; what a call answers is compared with what the peer
    wrote. */
module TcpReader {
  import opened SequenceNumbers
  import opened TcpReassembly
  import opened TcpEndpoint
  import opened TcpTransfer

  /** One reader on the socket `w.me`: the call under way, if any, and all bytes calls handed out. */
  datatype Reader = Reader(w: World, call: Reading, got: seq<Byte>)

  datatype Event =
    | Net(action: Action, mine: bool)
    | Begin(count: nat, now: nat, link: Link)
    | Turn(count: nat, blocking: bool, timeout: nat, now: nat, stop: bool, link: Link)

  /** What an answer adds to the bytes handed out. */
  function Handed(reading: Reading): seq<Byte> {
    if reading.Finished? && reading.reply.Got? then reading.reply.bytes else []
  }

  /** The reader after a call made `after` of the socket. */
  function Moved(s: Reader, after: (Endpoint, Reading)): Reader {
    var bytes := Handed(after.1);
    Reader(World(s.w.me.(e := after.0, read := s.w.me.read + bytes), s.w.peer), after.1, s.got + bytes)
  }

  /** A call under way keeps its socket from being closed; all reads on the socket are the reader's. Anything else
      is a step of the network, the timer, a writer or the peer. */
  predicate Next(s: Reader, s': Reader, event: Event) {
    match event
    case Net(action, mine) =>
      && !(mine && (action.ReadData? || (action.Shut? && s.call.Pending?)))
      && Step(s.w, s'.w, action, mine) && s' == s.(w := s'.w)
    case Begin(count, now, link) =>
      s.call.Finished? && s' == Moved(s, ReadBegun(s.w.me.e, count, now, link))
    case Turn(count, blocking, timeout, now, stop, link) =>
      && s.call.Pending?
      && s' == Moved(s, ReadTurn(s.w.me.e, count, blocking, s.call.since, timeout, now, stop, link))
  }

  predicate Run(ss: seq<Reader>, events: seq<Event>) {
    && |ss| == |events| + 1 && Start(ss[0].w) && ss[0].call.Finished? && ss[0].got == []
    && forall i :: 0 <= i < |events| ==> Next(ss[i], ss[i + 1], events[i])
  }

  /** The bytes handed out are those read, and a call waits on an open socket. */
  predicate Good(s: Reader) { Inv(s.w) && s.got == s.w.me.read && (s.call.Pending? ==> s.w.me.e.inUse) }

  // ----- every step keeps it

  /** A call hands out what a read does, or leaves the socket as it was. */
  predicate IsRead(side: Side, after: (Endpoint, Reading), count: nat, link: Link) {
    if after.0 == side.e && Handed(after.1) == [] then true
    else after.0 == Read(side.e, count, link) && Handed(after.1) == TakenBy(side.e, count)
  }

  lemma MovedKeeps(s: Reader, after: (Endpoint, Reading), count: nat, link: Link)
    requires Good(s) && IsRead(s.w.me, after, count, link) && (after.1.Pending? ==> s.w.me.e.inUse)
    ensures Good(Moved(s, after))
  {
    if after.0 == s.w.me.e && Handed(after.1) == [] {
      assert Moved(s, after).w == s.w && s.got + [] == s.got;
    } else {
      assert Moved(s, after).w.me == DidRead(s.w.me, count, link);
      StepKeeps(s.w, After(s.w, ReadData(count, link)), ReadData(count, link), true);
      ReadUse(s.w.me.e, count, link);
    }
    hide Inv, Read;
  }

  lemma BegunIsRead(s: Reader, count: nat, now: nat, link: Link)
    ensures var after := ReadBegun(s.w.me.e, count, now, link);
            IsRead(s.w.me, after, count, link) && (after.1.Pending? ==> s.w.me.e.inUse)
  {
    hide Read, TakenBy;
  }

  lemma TurnIsRead(s: Reader, count: nat, blocking: bool, timeout: nat, now: nat, stop: bool, link: Link)
    requires s.call.Pending?
    ensures IsRead(s.w.me, ReadTurn(s.w.me.e, count, blocking, s.call.since, timeout, now, stop, link), count, link)
  {
    hide Read, TakenBy;
  }

  lemma NextKeeps(s: Reader, s': Reader, event: Event)
    requires Good(s) && Next(s, s', event)
    ensures Good(s')
  {
    match event
    case Net(action, mine) =>
      StepKeeps(s.w, s'.w, action, mine);
      SameRead(s.w, s'.w, action, mine);
    case Begin(count, now, link) =>
      BegunIsRead(s, count, now, link);
      MovedKeeps(s, ReadBegun(s.w.me.e, count, now, link), count, link);
    case Turn(count, blocking, timeout, now, stop, link) =>
      TurnIsRead(s, count, blocking, timeout, now, stop, link);
      MovedKeeps(s, ReadTurn(s.w.me.e, count, blocking, s.call.since, timeout, now, stop, link), count, link);
  }

  lemma SameRead(w: World, w': World, action: Action, mine: bool)
    requires Step(w, w', action, mine) && !(mine && action.ReadData?)
    ensures w'.me.read == w.me.read && (!(mine && action.Shut?) ==> w.me.e.inUse ==> w'.me.e.inUse)
  {
    if mine && action.Arrival? {
      DeliverUse(w.me.e, w.peer.e.sent[action.index].segment, action.link, action.cells);
    }
    hide Deliver, Read, Close, Inv;
  }

  lemma {:induction false} RunGood(ss: seq<Reader>, events: seq<Event>, i: nat)
    requires Run(ss, events) && i < |ss|
    ensures Good(ss[i])
  {
    if i == 0 {
      StartHolds(ss[0].w);
    } else {
      RunGood(ss, events, i - 1);
      NextKeeps(ss[i - 1], ss[i], events[i - 1]);
    }
  }

  // ----- what a reader can conclude

  /** In every run the bytes handed out so far are a prefix of the peer's stream. */
  lemma GotIsStream(ss: seq<Reader>, events: seq<Event>, i: nat)
    requires Run(ss, events) && i < |ss|
    ensures ss[i].got <= ss[i].w.peer.written
  {
    RunGood(ss, events, i);
  }

  /** A call reports the end of the stream only when the peer has closed and every byte it wrote has been handed
      out, and a broken connection only when every byte that arrived has. */
  lemma EndMeansAll(ss: seq<Reader>, events: seq<Event>, i: nat)
    requires Run(ss, events) && i < |events| && !events[i].Net?
    ensures var after := ss[i + 1];
            && (after.call == Finished(EndOfStream) ==> after.got == after.w.peer.written && !after.w.peer.e.inUse)
            && (after.call.Finished? && after.call.reply.Broken? ==> after.got == after.w.me.arrived)
  {
    RunGood(ss, events, i);
    assert Next(ss[i], ss[i + 1], events[i]);
    hide Read;
  }

  /** When a call that has waited ends, it says why: it hands out bytes exactly when some that arrived were not
      read. Otherwise it reports a broken connection exactly when it was aborted, and the end of the stream
      exactly when the peer's FIN came. */
  lemma AnswersExactly(ss: seq<Reader>, events: seq<Event>, i: nat)
    requires Run(ss, events) && i < |events| && events[i].Turn? && events[i].count > 0
    ensures var me, after := ss[i].w.me, ss[i + 1];
            && (after.call.Finished? && after.call.reply.Got? <==> ss[i].got != me.arrived)
            && (after.call == Finished(Broken(me.e.timedOut)) <==> ss[i].got == me.arrived && me.e.aborted)
            && (after.call == Finished(EndOfStream) <==>
                  ss[i].got == me.arrived && me.e.finReceived && !me.e.aborted)
            && (Handed(after.call) != [] <==> ss[i].got != me.arrived)
  {
    RunGood(ss, events, i);
    assert Next(ss[i], ss[i + 1], events[i]);
    var me := ss[i].w.me;
    assert me.arrived == me.read + me.e.rx.readable;
    assert |me.arrived| == |me.read| + |me.e.rx.readable|;
    hide Inv, Read;
  }
}
