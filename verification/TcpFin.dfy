/** A FIN that comes while data is held beyond it. The kernel takes it, and the
    held bytes are read one cell lower from then on. */
module TcpFin {
  import opened SequenceNumbers
  import opened TcpReassembly
  import opened TcpEndpoint

  /** What the peer meant: the held bytes stay at the positions it sent them for. */
  function Meant(v: RxView): RxView { v.(next := v.next + 1) }

  /** The bytes a read finds beyond the segment that filled the hole are those of the cells below. */
  predicate Repeats(v: RxView, cells: int -> Byte, low: int, high: int) {
    forall p :: p in v.ahead && low <= p < high ==> cells(p - 1) == v.ahead[p]
  }

  lemma SameKeys(v: RxView, cells: int -> Byte)
    requires Settled(v)
    ensures FinTaken(v, cells).ahead.Keys == v.ahead.Keys && FinTaken(v, cells).stale == {}
    ensures WindowEnd(FinTaken(v, cells)) == WindowEnd(Meant(v)) == WindowEnd(v) + 1
  {
  }

  /** Up to where the data at `s` fills the window that a FIN at `v.next` leaves. */
  function FilledTo(v: RxView, s: int, data: seq<Byte>): int { Min(s + |data|, WindowEnd(v) + 1) }

  /** After the FIN, data at any `s` that reaches the next position fills the hole behind it. The reader gets
      what the peer sent exactly when every held byte that follows on repeats the one in the cell below it. */
  lemma LateRead(v: RxView, cells: int -> Byte, s: int, data: seq<Byte>)
    requires Settled(v) && s <= v.next + 1 < s + |data|
    ensures var got, meant := Receive(FinTaken(v, cells), s, data), Receive(Meant(v), s, data);
            var high := FilledTo(v, s, data);
            got.readable == meant.readable <==>
              Repeats(v, cells, high, FirstGap(v.ahead.Keys, high, WindowEnd(v) + 1))
  {
    var w, m, high := FinTaken(v, cells), Meant(v), FilledTo(v, s, data);
    SameKeys(v, cells);
    if v.next + 1 < high {
      FillsHole(w, s, data);
      FillsHole(m, s, data);
      assert w.ahead.Keys == m.ahead.Keys && w.next == m.next == v.next + 1 && w.readable == m.readable == v.readable;
      hide *;
      var held, kept := Candidate(w, s, data), Candidate(m, s, data);
      var gap := FirstGap(v.ahead.Keys, high, WindowEnd(w));
      SameBytes(v, cells, s, data, held, kept, gap);
      JoinSame(v.readable, Bytes(held, v.next + 1, gap), Bytes(kept, v.next + 1, gap));
    }
  }

  /** Data that reaches `next` is taken in order, with what follows on. */
  lemma FillsHole(v: RxView, s: int, data: seq<Byte>)
    requires s <= v.next < ClipHigh(v, s, data)
    ensures var held, high := Candidate(v, s, data), ClipHigh(v, s, data);
            var gap := FirstGap(v.ahead.Keys, high, WindowEnd(v));
            && held.Keys == v.ahead.Keys + Interval(v.next, high) && Interval(v.next, gap) <= held.Keys
            && Receive(v, s, data).readable == v.readable + Bytes(held, v.next, gap)
  {
    hide RunStarts;
    var held, high := Candidate(v, s, data), ClipHigh(v, s, data);
    assert held.Keys == v.ahead.Keys + Interval(v.next, high);
    GapBehind(v.ahead.Keys, v.next, high, WindowEnd(v));
    hide Candidate, FirstGap, Bytes;
  }

  lemma JoinSame(before: seq<Byte>, a: seq<Byte>, b: seq<Byte>)
    ensures before + a == before + b <==> a == b
  {
    assert (before + a)[|before|..] == a && (before + b)[|before|..] == b;
  }

  /** The first hole behind a filled stretch. */
  lemma GapBehind(keys: set<int>, low: int, high: int, limit: int)
    requires low <= high <= limit
    ensures FirstGap(keys + Interval(low, high), low, limit) == FirstGap(keys, high, limit)
  {
    var gap := FirstGap(keys, high, limit);
    assert forall p :: low <= p < gap ==> p in keys + Interval(low, high);
    FirstGapUnique(keys + Interval(low, high), low, gap, limit);
  }

  lemma SameBytes(v: RxView, cells: int -> Byte, s: int, data: seq<Byte>, held: map<int, Byte>,
                  kept: map<int, Byte>, gap: int)
    requires Settled(v) && s <= v.next + 1 < FilledTo(v, s, data) <= gap
    requires held == Candidate(FinTaken(v, cells), s, data) && kept == Candidate(Meant(v), s, data)
    requires held.Keys == kept.Keys && Interval(v.next + 1, gap) <= held.Keys
    ensures Bytes(held, v.next + 1, gap) == Bytes(kept, v.next + 1, gap) <==>
              Repeats(v, cells, FilledTo(v, s, data), gap)
  {
    hide Settled, Candidate, FinTaken;
    var low, high := v.next + 1, FilledTo(v, s, data);
    forall p | low <= p < gap
      ensures p in Interval(low, gap) && p in held && p in kept
      ensures p < high ==> held[p] == kept[p]
      ensures p >= high ==> p in v.ahead && held[p] == cells(p - 1) && kept[p] == v.ahead[p]
    {
      assert p in Interval(low, gap);
      ByteHeld(v, cells, s, data, p);
    }
    var a, b := Bytes(held, low, gap), Bytes(kept, low, gap);
    if a == b {
      forall p | p in v.ahead && high <= p < gap
        ensures cells(p - 1) == v.ahead[p]
      {
        assert a[p - low] == held[p] && b[p - low] == kept[p];
      }
    }
    if Repeats(v, cells, high, gap) {
      forall i | 0 <= i < gap - low
        ensures a[i] == b[i]
      {
        assert a[i] == held[low + i] && b[i] == kept[low + i];
      }
    }
  }

  lemma ByteHeld(v: RxView, cells: int -> Byte, s: int, data: seq<Byte>, p: int)
    requires Settled(v) && s <= v.next + 1 < s + |data| && v.next < p
    requires p in Candidate(FinTaken(v, cells), s, data) && p in Candidate(Meant(v), s, data)
    ensures var held, kept := Candidate(FinTaken(v, cells), s, data), Candidate(Meant(v), s, data);
            if p < FilledTo(v, s, data) then held[p] == kept[p]
            else p in v.ahead && held[p] == cells(p - 1) && kept[p] == v.ahead[p]
  {
    SameKeys(v, cells);
    hide RunStarts;
  }

  // ----- one such connection

  function Data(at: U32, bytes: seq<Byte>): Segment { Segment(ACK_PSH, at, 0, 0, bytes) }
  function Fin(at: U32): Segment { Segment(FIN_ACK, at, 0, 0, []) }

  /** A connection on which nothing has arrived. */
  predicate Untouched(e: Endpoint) {
    e.inUse && e.connected && e.state.Established? && e.rx == RxView(0, [], map[], {})
  }

  /** The peer sends 7 and 8 at positions 2 and 3, a FIN at position 0 and 5 at position 1. Whatever the ring
      held before, the reader gets 5, the byte left in the cell of position 1, and 7. */
  lemma LostByte(e: Endpoint, link: Link, cells: int -> Byte)
    requires Untouched(e) && CellsOf(cells, RxView(0, [], map[2 := 7, 3 := 8], {}))
    ensures var e1 := Deliver(e, Data(2, [7, 8]), link, cells);
            var e2 := Deliver(e1, Fin(0), link, cells);
            var e3 := Deliver(e2, Data(1, [5]), link, cells);
            && e1.rx == RxView(0, [], map[2 := 7, 3 := 8], {}) && CellsOf(cells, e1.rx)
            && e2.rx == RxView(1, [], map[2 := cells(1), 3 := 7], {}) && e2.finReceived
            && e3.rx.next == 4 && e3.rx.readable == [5, cells(1), 7] != [5, 7, 8]
  {
    hide Receive, FinTaken, Deliver;
    Holds();
    DataStep(e, 2, [7, 8], link, cells);
    var e1 := Deliver(e, Data(2, [7, 8]), link, cells);
    FinStep(e1, 0, link, cells);
    var e2 := Deliver(e1, Fin(0), link, cells);
    Shifts(cells);
    DataStep(e2, 1, [5], link, cells);
    Reads(cells(1));
    assert [5, cells(1), 7][2] != [5, 7, 8][2];
  }

  lemma DataStep(e: Endpoint, at: U32, bytes: seq<Byte>, link: Link, cells: int -> Byte)
    requires e.inUse && e.connected && !e.state.SynSent? && -0x1000 < at - e.rx.next < 0x1000 && bytes != []
    ensures var e' := Deliver(e, Data(at, bytes), link, cells);
            e'.rx == Receive(e.rx, at, bytes) && e'.inUse && e'.connected && !e'.state.SynSent?
  {
    UnwrapsTo(at, e.rx.next);
    hide Receive, Wire, Unwrap, Completed, Acknowledged, FinTaken;
  }

  lemma UnwrapsTo(at: U32, next: int)
    requires -0x1000 < at - next < 0x1000
    ensures Unwrap(at, next) == at
  {
    UnwrapWire(at, next);
  }

  lemma FinStep(e: Endpoint, at: U32, link: Link, cells: int -> Byte)
    requires e.inUse && e.connected && !e.state.SynSent? && e.rx.next == at
    ensures var e' := Deliver(e, Fin(at), link, cells);
            e'.rx == FinTaken(e.rx, cells) && e'.inUse && e'.connected && !e'.state.SynSent? && e'.finReceived
  {
    hide FinTaken, Unwrap, Completed, Acknowledged, Receive;
  }

  lemma Shifts(cells: int -> Byte)
    requires cells(2) == 7
    ensures FinTaken(RxView(0, [], map[2 := 7, 3 := 8], {}), cells) == RxView(1, [], map[2 := cells(1), 3 := 7], {})
  {
    var v := FinTaken(RxView(0, [], map[2 := 7, 3 := 8], {}), cells);
    assert v.ahead == map[2 := cells(1), 3 := 7];
    assert v.stale == {};
  }

  lemma Holds()
    ensures Receive(RxView(0, [], map[], {}), 2, [7, 8]) == RxView(0, [], map[2 := 7, 3 := 8], {})
  {
    var v := RxView(0, [], map[], {});
    var held := Candidate(v, 2, [7, 8]);
    assert held == map[2 := 7, 3 := 8];
    assert v.stale + held.Keys == {2, 3};
    assert RunStarts({2, 3}) == {2};
  }

  lemma Reads(left: Byte)
    ensures var v := Receive(RxView(1, [], map[2 := left, 3 := 7], {}), 1, [5]);
            v.next == 4 && v.readable == [5, left, 7]
  {
    var v := RxView(1, [], map[2 := left, 3 := 7], {});
    var held := Candidate(v, 1, [5]);
    assert held == map[1 := 5, 2 := left, 3 := 7];
    FirstGapUnique(held.Keys, 1, 4, WindowEnd(v));
    assert Bytes(held, 1, 4) == [5, left, 7];
  }
}
