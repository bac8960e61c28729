/** The receive side of `net::Socket`: an 8 KiB ring, a wrapping 32-bit
    `recv_next` and four out-of-order ranges in wire form. */
module TcpReceiver {
  import opened SequenceNumbers
  import opened TcpReassembly
  import opened TcpRanges
  import opened TcpRing

  class Receiver {
    var recvNext: U32
    const ring: array<Byte>
    var rxHead: nat
    var rxSize: nat
    const slots: array<WireRange>
    ghost var next: int
    ghost var spans: seq<Span>
    /** No range lies below this; it trails `next` only by FINs that came without the data before them. */
    ghost var floor: int

    ghost predicate Shape()
      reads this, slots
    {
      && ring.Length == BUFFER && slots.Length == RANGE_SLOTS == |spans|
      && rxHead < BUFFER && rxSize <= BUFFER
      && recvNext == Wire(next)
      && forall i :: 0 <= i < RANGE_SLOTS ==> Linked(slots[i], spans[i])
    }

    ghost function WindowLimit(): int
      reads this
    {
      next + BUFFER - rxSize
    }

    ghost predicate RxValid()
      reads this, slots
    {
      && Shape()
      && floor <= next <= floor + FIN_LIMIT
      && Within(spans, floor, WindowLimit())
      && Separated(spans)
    }

    /** The ring, read from `rx_head` on. */
    ghost function Rotated(): (r: seq<Byte>)
      requires ring.Length == BUFFER
      reads this`rxHead, ring
      ensures |r| == BUFFER && forall k :: 0 <= k < BUFFER ==> r[k] == ring[(rxHead + k) % BUFFER]
    {
      RotatedFrom(ring[..], rxHead)
    }

    ghost function State(): (r: RxState)
      requires RxValid()
      reads this, slots, ring
      ensures RingOk(r)
    {
      RxState(next - rxSize, next, Recorded(), Stale(), Rotated())
    }

    ghost function View(): RxView
      requires RxValid()
      reads this, slots, ring
    {
      ViewOf(State())
    }

    /** The free space of the buffer. */
    function Window(): (free: nat)
      requires RxValid()
      reads this, slots, ring
      ensures free == Free(View())
    {
      BUFFER - rxSize
    }

    /** The sequence number the peer is asked for. */
    function Expected(): (sequence: U32)
      requires RxValid()
      reads this, slots, ring
      ensures sequence == Wire(View().next)
    {
      recvNext
    }

    constructor ()
      ensures RxValid() && floor == next && View() == RxView(0, [], map[], {})
      ensures fresh(ring) && fresh(slots)
    {
      ring := new Byte[BUFFER](_ => 0);
      slots := new WireRange[RANGE_SLOTS](_ => WireRange(0, 0));
      recvNext, rxHead, rxSize, next, floor := 0, 0, 0, 0, 0;
      spans := seq(RANGE_SLOTS, _ => Span(0, 0));
    }

    /** Writes `data` into the ring where its sequence belongs, `offset` bytes past what is readable. */
    method StoreAt(offset: nat, data: seq<Byte>)
      requires ring.Length == BUFFER && rxHead < BUFFER
      requires rxSize + offset + |data| <= BUFFER
      modifies ring
      ensures forall k :: 0 <= k < BUFFER ==>
        Rotated()[k] ==
          if rxSize + offset <= k < rxSize + offset + |data| then data[k - rxSize - offset] else old(Rotated())[k]
    {
      var base := (rxHead + rxSize + offset) % BUFFER;
      ghost var at := rxSize + offset;
      for index := 0 to |data|
        invariant forall k :: 0 <= k < BUFFER ==>
          Rotated()[k] == if at <= k < at + index then data[k - at] else old(Rotated())[k]
      {
        ghost var before := Rotated();
        var cell := (base + index) % BUFFER;
        SameCell(rxHead, at + index, base, index);
        ring[cell] := data[index];
        forall k | 0 <= k < BUFFER
          ensures Rotated()[k] == if k == at + index then data[index] else before[k]
        {
          CellsDiffer(rxHead, k, at + index);
        }
      }
    }

    /** Positions from `base` on that are delivered or recorded in a slot. */
    ghost function Known(base: int): set<int>
      reads this
    {
      KnownSet(spans, next, base, WindowLimit())
    }

    /** The state while ranges are absorbed: `next` may have run into some of them. */
    ghost predicate Absorbing(base: int)
      reads this, slots
    {
      && Shape()
      && base <= next <= WindowLimit() && floor <= next
      && Within(spans, floor, WindowLimit())
      && Separated(spans)
    }

    /** Makes readable every range that the in-order data reached. */
    method AbsorbRanges(ghost base: int)
      requires Absorbing(base)
      modifies this`recvNext, this`rxSize, this`next, this`spans, this`floor, slots
      ensures RxValid() && floor == next && old(next) <= next && WindowLimit() == old(WindowLimit())
      ensures AllBeyond(spans, RANGE_SLOTS, next)
      ensures Known(base) == old(Known(base))
    {
      var progress := true;
      while progress
        invariant Absorbing(base) && old(next) <= next && WindowLimit() == old(WindowLimit())
        invariant !progress ==> AllBeyond(spans, RANGE_SLOTS, next)
        invariant Known(base) == old(Known(base))
        decreases CountLive(spans), progress
      {
        progress := false;
        ghost var live := CountLive(spans);
        for i := 0 to RANGE_SLOTS
          invariant Absorbing(base) && old(next) <= next && WindowLimit() == old(WindowLimit())
          invariant if progress then CountLive(spans) < live else CountLive(spans) <= live
          invariant !progress ==> AllBeyond(spans, i, next)
          invariant Known(base) == old(Known(base))
        {
          var absorbed := AbsorbSlot(i, base);
          progress := progress || absorbed;
        }
      }
      floor := next;
    }

    /** Where slot `i` lies relative to `recv_next`: in use, wholly behind, reached, and how far past. */
    method LocateSlot(i: nat) returns (used: bool, behind: bool, reached: bool, length: nat)
      requires Shape() && i < RANGE_SLOTS
      requires Live(spans[i]) ==> next - REACH <= spans[i].lo && spans[i].hi <= next + REACH
      requires spans[i].lo <= spans[i].hi
      ensures used <==> Live(spans[i])
      ensures used ==> (behind <==> spans[i].hi <= next) && (reached <==> spans[i].lo <= next)
      ensures used && !behind ==> length == spans[i].hi - next
    {
      var range := slots[i];
      used := range.start != range.end;
      behind := SeqLeq(range.end, recvNext);
      reached := SeqLeq(range.start, recvNext);
      length := Minus(range.end, recvNext);
      if Live(spans[i]) {
        CompareWires(spans[i].hi, next);
        CompareWires(spans[i].lo, next);
        SignedDistance(spans[i].hi, next);
        WireInjective(spans[i].lo, spans[i].hi);
      }
    }

    method FreeRange(i: nat)
      requires Shape() && i < RANGE_SLOTS
      modifies this`spans, slots
      ensures Shape() && spans == old(spans)[i := NO_SPAN]
    {
      slots[i] := WireRange(0, 0);
      spans := spans[i := NO_SPAN];
    }

    /** One slot of the scan: frees a range that is behind, absorbs one that is reached. */
    method AbsorbSlot(i: nat, ghost base: int) returns (absorbed: bool)
      requires Absorbing(base) && i < RANGE_SLOTS
      modifies this`recvNext, this`rxSize, this`next, this`spans, slots
      ensures Absorbing(base) && WindowLimit() == old(WindowLimit())
      ensures next == if absorbed then old(spans)[i].hi else old(next)
      ensures spans == old(spans) || spans == old(spans)[i := NO_SPAN]
      ensures absorbed ==> old(next) < next
      ensures CountLive(spans) <= CountLive(old(spans)) && (absorbed ==> CountLive(spans) < CountLive(old(spans)))
      ensures Live(spans[i]) ==> next < spans[i].lo
      ensures Known(base) == old(Known(base))
    {
      absorbed := false;
      var used, behind, reached, length := LocateSlot(i);
      if used && (behind || reached) {
        FreeCount(spans, i);
        FreeKnown(spans, i, next, if behind then next else spans[i].hi, base, WindowLimit());
        if !behind {
          rxSize := rxSize + length;
          recvNext := slots[i].end;
          next := spans[i].hi;
          absorbed := true;
        }
        FreeRange(i);
      }
    }

    /** A slot that touches the range being recorded is merged into it and freed. */
    method MergeSlot(i: nat, start: U32, end: U32, ghost range: Span)
      returns (merged: bool, start': U32, end': U32, ghost range': Span)
      requires RxValid() && i < RANGE_SLOTS
      requires Live(range) && floor <= range.lo && range.hi <= WindowLimit()
      requires start == Wire(range.lo) && end == Wire(range.hi)
      modifies this`spans, slots
      ensures RxValid()
      ensures start' == Wire(range'.lo) && end' == Wire(range'.hi)
      ensures Live(range') && floor <= range'.lo && range'.hi <= WindowLimit()
      ensures merged <==> Live(old(spans)[i]) && Touch(old(spans)[i], range)
      ensures spans == if merged then old(spans)[i := NO_SPAN] else old(spans)
      ensures range' == if merged then Join(old(spans)[i], range) else range
    {
      start', end', range' := start, end, range;
      merged, start', end' := JoinSlot(i, start, end, range);
      if merged {
        range' := Join(spans[i], range);
        FreeRange(i);
      }
    }

    /** Whether slot `i` touches the range, and the wire form of the two joined. */
    method JoinSlot(i: nat, start: U32, end: U32, ghost range: Span) returns (touch: bool, start': U32, end': U32)
      requires RxValid() && i < RANGE_SLOTS
      requires Live(range) && floor <= range.lo && range.hi <= WindowLimit()
      requires start == Wire(range.lo) && end == Wire(range.hi)
      ensures touch <==> Live(spans[i]) && Touch(spans[i], range)
      ensures start' == Wire(if touch then Join(spans[i], range).lo else range.lo)
      ensures end' == Wire(if touch then Join(spans[i], range).hi else range.hi)
    {
      var slot := slots[i];
      touch, start', end' := false, start, end;
      if slot.start != slot.end {
        WiresOfSpans(spans[i], range);
        if SeqLeq(start, slot.end) && SeqLeq(slot.start, end) {
          touch := true;
          if SeqLt(slot.start, start) {
            start' := slot.start;
          }
          if SeqGt(slot.end, end) {
            end' := slot.end;
          }
        }
      } else if Live(spans[i]) {
        WireInjective(spans[i].lo, spans[i].hi);
      }
    }

    /** Merges [start, end) with every slot it touches, until it touches none. */
    method MergeRanges(start: U32, end: U32, ghost range: Span)
      returns (start': U32, end': U32, ghost range': Span)
      requires RxValid()
      requires Live(range) && floor <= range.lo && range.hi <= WindowLimit()
      requires start == Wire(range.lo) && end == Wire(range.hi)
      modifies this`spans, slots
      ensures RxValid() && ClearOf(spans, RANGE_SLOTS, range')
      ensures start' == Wire(range'.lo) && end' == Wire(range'.hi)
      ensures Live(range') && floor <= range'.lo && range'.hi <= WindowLimit()
      ensures forall p :: InSpans(spans + [range'], p) <==> InSpans(old(spans) + [range], p)
      ensures CountLive(spans) == RANGE_SLOTS ==> spans == old(spans) && range' == range
    {
      start', end', range' := start, end, range;
      var merged := true;
      while merged
        invariant RxValid() && start' == Wire(range'.lo) && end' == Wire(range'.hi)
        invariant Live(range') && floor <= range'.lo && range'.hi <= WindowLimit()
        invariant forall p :: InSpans(spans + [range'], p) <==> InSpans(old(spans) + [range], p)
        invariant CountLive(spans) == RANGE_SLOTS ==> spans == old(spans) && range' == range
        invariant !merged ==> ClearOf(spans, RANGE_SLOTS, range')
        decreases CountLive(spans), merged
      {
        merged := false;
        ghost var live := CountLive(spans);
        for i := 0 to RANGE_SLOTS
          invariant RxValid() && start' == Wire(range'.lo) && end' == Wire(range'.hi)
          invariant Live(range') && floor <= range'.lo && range'.hi <= WindowLimit()
          invariant forall p :: InSpans(spans + [range'], p) <==> InSpans(old(spans) + [range], p)
          invariant CountLive(spans) == RANGE_SLOTS ==> spans == old(spans) && range' == range
            invariant if merged then CountLive(spans) < live else CountLive(spans) <= live
          invariant !merged ==> ClearOf(spans, i, range')
        {
          ghost var before, was := spans, range';
          var joined;
          joined, start', end', range' := MergeSlot(i, start', end', range');
          if joined {
            forall p { MergeKnown(before, i, was, p); }
            FreeCount(before, i);
            merged := true;
          }
        }
      }
    }

    /** The positions recorded from `next` on, those recorded behind it, and both. */
    ghost function Recorded(): set<int>
      reads this
    {
      Covered(spans, next, WindowLimit())
    }

    ghost function Stale(): set<int>
      reads this
    {
      Covered(spans, floor, next)
    }

    ghost function Marked(): set<int>
      reads this
    {
      Covered(spans, floor, WindowLimit())
    }

    /** Records [start, end), merged with the ranges it touches; false when all four
        slots are taken by ranges it does not touch. */
    method RecordRange(start: U32, end: U32, ghost range: Span) returns (ok: bool)
      requires RxValid()
      requires Live(range) && floor <= range.lo && range.hi <= WindowLimit()
      requires start == Wire(range.lo) && end == Wire(range.hi)
      modifies this`spans, slots
      ensures RxValid()
      ensures ok ==> Marked() == old(Marked()) + Interval(range.lo, range.hi) && |RunStarts(Marked())| <= RANGE_SLOTS
      ensures !ok ==> spans == old(spans) && Marked() !! Interval(range.lo, range.hi)
      ensures !ok ==> |RunStarts(Marked() + Interval(range.lo, range.hi))| > RANGE_SLOTS
    {
      ghost var range';
      var start', end';
      start', end', range' := MergeRanges(start, end, range);
      for i := 0 to RANGE_SLOTS
        invariant forall j :: 0 <= j < i ==> Live(spans[j])
      {
        if slots[i].start == slots[i].end {
          SlotIsFree(i);
          FillFree(spans, i, range');
          PutRange(i, start', end', range');
          SpansAdded(old(spans), spans, range, floor, WindowLimit());
          RunsAreSpans(spans, floor, WindowLimit());
          return true;
        }
      }
      NoSlotLeft(spans, range, floor, WindowLimit());
      return false;
    }

    method PutRange(i: nat, start: U32, end: U32, ghost range: Span)
      requires RxValid() && i < RANGE_SLOTS && !Live(spans[i]) && ClearOf(spans, RANGE_SLOTS, range)
      requires Live(range) && floor <= range.lo && range.hi <= WindowLimit()
      requires start == Wire(range.lo) && end == Wire(range.hi)
      modifies this`spans, slots
      ensures RxValid() && spans == old(spans)[i := range]
    {
      slots[i] := WireRange(start, end);
      spans := spans[i := range];
    }

    lemma SlotIsFree(i: nat)
      requires RxValid() && i < RANGE_SLOTS && slots[i].start == slots[i].end
      ensures !Live(spans[i])
    {
      assert Live(spans[i]) ==> Wire(spans[i].lo) != Wire(spans[i].hi);
    }

    /** The segment was just stored at `next`: moves `recv_next` over it and what it joins up with. */
    method DeliverInOrder(length: nat, ghost r: RxState, ghost s: int, ghost data: seq<Byte>)
      requires RxValid() && State() == r.(ring := Rotated()) && RingOk(r)
      requires 0 < length && r.next + length == ClipHigh(ViewOf(r), s, data) && ClipLow(ViewOf(r), s) == r.next
      requires Overlaid(r, Rotated(), s, data, r.next, r.next + length)
      modifies this`recvNext, this`rxSize, this`next, this`spans, this`floor, slots
      ensures RxValid() && View() == Receive(ViewOf(r), s, data) && next - floor <= old(next - floor)
    {
      WirePlus(next, length);
      rxSize := rxSize + length;
      recvNext := Wire(recvNext + length);
      next := next + length;
      assert Known(r.next) == Interval(r.next, r.next + length) + r.keys;
      AbsorbRanges(r.next);
      assert Known(r.next) == Interval(r.next, next) + State().keys;
      InOrder(r, State(), s, data, r.next + length);
    }

    /** The segment was just stored beyond a hole: records it, if a slot allows. */
    method KeepOutOfOrder(sequence: U32, length: nat, ghost r: RxState, ghost s: int, ghost data: seq<Byte>)
      requires RxValid() && State() == r.(ring := Rotated()) && RingOk(r)
      requires 0 < length && s + length == ClipHigh(ViewOf(r), s, data) && r.next < s && sequence == Wire(s)
      requires Overlaid(r, Rotated(), s, data, s, s + length)
      modifies this`spans, slots
      ensures RxValid() && View() == Receive(ViewOf(r), s, data)
    {
      ghost var cells := Rotated();
      WirePlus(s, length);
      var ok := RecordAhead(sequence, Wire(sequence + length), Span(s, s + length));
      hide Overlaid, RunStarts, Separated, Within;
      assert State() == RxState(r.base, r.next, Recorded(), Stale(), cells);
      if ok {
        OutOfOrder(r, State(), s, data, s + length);
      } else {
        Dropped(r, cells, s, data, s + length);
      }
    }

    /** `RecordRange` for a range ahead of `next`: what is marked behind it stays. */
    method RecordAhead(start: U32, end: U32, ghost range: Span) returns (ok: bool)
      requires RxValid() && Live(range) && next <= range.lo && range.hi <= WindowLimit()
      requires start == Wire(range.lo) && end == Wire(range.hi)
      modifies this`spans, slots
      ensures RxValid() && Stale() == old(Stale())
      ensures ok ==> Recorded() == old(Recorded()) + Interval(range.lo, range.hi)
      ensures ok ==> |RunStarts(Stale() + Recorded())| <= RANGE_SLOTS
      ensures !ok ==> spans == old(spans) && Recorded() !! Interval(range.lo, range.hi)
      ensures !ok ==> |RunStarts(Stale() + (Recorded() + Interval(range.lo, range.hi)))| > RANGE_SLOTS
    {
      ghost var before, stale, keys := Marked(), Stale(), Recorded();
      CoveredSplit(spans, floor, next, WindowLimit());
      ok := RecordRange(start, end, range);
      hide Separated, Within, RunStarts, Linked;
      CoveredSplit(spans, floor, next, WindowLimit());
      if ok {
        MarkedAhead(before, stale, keys, Marked(), Stale(), Recorded(), next, range.lo, range.hi);
      } else {
        assert stale + (keys + Interval(range.lo, range.hi)) == before + Interval(range.lo, range.hi);
      }
    }

    /** Cuts off what was delivered before and what does not fit the window. */
    method Clip(sequence: U32, data: seq<Byte>, ghost s: int, ghost low: int, ghost high: int)
      returns (kept: bool, sequence': U32, offset: nat, rest: seq<Byte>)
      requires recvNext == Wire(next) && rxSize <= BUFFER
      requires s == Unwrap(sequence, next) && low == Max(s, next) && high == Min(s + |data|, WindowLimit())
      ensures kept <==> low < high
      ensures kept ==> sequence' == Wire(low) && offset == low - next && rest == data[low - s..high - s]
    {
      kept, sequence', offset, rest := false, sequence, 0, data;
      ClipWires(sequence, next, BUFFER - rxSize);
      if data == [] {
        return;
      }
      if SeqLt(sequence, recvNext) {
        var alreadySeen := Minus(recvNext, sequence);
        if alreadySeen >= |data| {
          return;
        }
        rest := data[alreadySeen..];
        sequence' := recvNext;
      }
      var freeSpace := BUFFER - rxSize;
      if freeSpace == 0 || SeqGeq(sequence', Wire(recvNext + freeSpace)) {
        return;
      }
      kept, offset := true, Minus(sequence', recvNext);
      if offset + |rest| > freeSpace {
        rest := rest[..freeSpace - offset];
      }
    }

    /** `StoreAt`, in terms of stream positions. */
    method StoreSegment(offset: nat, rest: seq<Byte>, ghost s: int, ghost data: seq<Byte>, ghost low: int,
                        ghost high: int)
      requires RxValid() && offset == low - next && next <= low < high <= WindowLimit()
      requires s <= low && high <= s + |data| && rest == data[low - s..high - s]
      modifies ring
      ensures RxValid() && State() == old(State()).(ring := Rotated())
      ensures Overlaid(old(State()), Rotated(), s, data, low, high)
    {
      StoreAt(offset, rest);
    }

    /** The clipped segment was just stored: makes it readable or records it. */
    method Account(sequence: U32, offset: nat, length: nat, ghost r: RxState, ghost s: int, ghost data: seq<Byte>)
      requires RxValid() && RingOk(r) && State() == r.(ring := Rotated())
      requires 0 < length && ClipLow(ViewOf(r), s) == r.next + offset
      requires ClipHigh(ViewOf(r), s, data) == r.next + offset + length
      requires Overlaid(r, Rotated(), s, data, r.next + offset, r.next + offset + length)
      requires sequence == Wire(r.next + offset)
      modifies this`recvNext, this`rxSize, this`next, this`spans, this`floor, slots
      ensures RxValid() && View() == Receive(ViewOf(r), s, data) && next - floor <= old(next - floor)
    {
      if offset == 0 {
        DeliverInOrder(length, r, s, data);
      } else {
        KeepOutOfOrder(sequence, length, r, s, data);
      }
    }

    /** The data path of a received segment: the clipped segment goes to its place in the ring, and
        `recv_next` moves over what became whole. */
    method ReceiveData(sequence: U32, data: seq<Byte>)
      requires RxValid()
      modifies this`recvNext, this`rxSize, this`next, this`spans, this`floor, slots, ring
      ensures RxValid() && next - floor <= old(next - floor)
      ensures View() == Receive(old(View()), Unwrap(sequence, old(View()).next), data)
    {
      ghost var s, r := Unwrap(sequence, next), State();
      ghost var low, high := ClipLow(View(), s), ClipHigh(View(), s, data);
      var kept, sequence', offset, rest := Clip(sequence, data, s, low, high);
      if !kept {
        return;
      }
      StoreSegment(offset, rest, s, data, low, high);
      Account(sequence', offset, |rest|, r, s, data);
    }

    /** Hands out up to `length` readable bytes. */
    method Dequeue(length: nat) returns (output: seq<Byte>)
      requires RxValid()
      modifies this`rxHead, this`rxSize
      ensures RxValid()
      ensures output == old(View()).readable[..Min(length, |old(View()).readable|)]
      ensures View() == old(View()).(readable := old(View()).readable[|output|..])
    {
      var count := if length < rxSize then length else rxSize;
      output := [];
      for index := 0 to count
        invariant output == Rotated()[..index]
      {
        output := output + [ring[(rxHead + index) % BUFFER]];
      }
      ghost var r := State();
      RotateOn(ring[..], rxHead, count);
      rxHead := (rxHead + count) % BUFFER;
      rxSize := rxSize - count;
      Narrowed(spans, floor, r.base + BUFFER, WindowLimit());
      assert Covered(spans, next, WindowLimit()) == r.keys;
      ReadOff(r, State(), count);
    }

    /** Takes a FIN, whatever is held beyond it: `recv_next` moves on and the ring does not. `cells` is
        what the ring held. */
    method TakeFin() returns (ghost cells: int -> Byte)
      requires RxValid() && next - floor < FIN_LIMIT
      modifies this`recvNext, this`next
      ensures RxValid() && next - floor <= old(next - floor) + 1
      ensures CellsOf(cells, old(View())) && View() == FinTaken(old(View()), cells)
    {
      ghost var r := State();
      cells := CellsAt(r);
      WirePlus(next, 1);
      recvNext := Wire(recvNext + 1);
      next := next + 1;
      FinMoves(r, State());
    }

    /** The peer's SYN fixes where its stream starts. */
    method OpenAt(sequence: U32)
      requires RxValid() && View().ahead == map[] && View().stale == {}
      modifies this`recvNext, this`next, this`floor
      ensures RxValid() && floor == next && View() == old(View()).(next := sequence + 1)
    {
      CoveredSplit(spans, floor, next, WindowLimit());
      assert View().ahead.Keys == Recorded();
      assert Marked() == {};
      NoneLive(spans, floor, WindowLimit());
      recvNext := Wire(sequence + 1);
      next, floor := sequence + 1, sequence + 1;
      assert View().ahead == map[];
    }
  }

  /** How many FINs may be taken with no data between them. */
  const FIN_LIMIT := REACH - BUFFER

  /** What was marked beyond `next` grew by the new range, what was marked behind it did not. */
  lemma MarkedAhead(before: set<int>, stale: set<int>, keys: set<int>, after: set<int>, stale': set<int>,
                    keys': set<int>,
                    next: int, low: int, high: int)
    requires before == stale + keys && after == stale' + keys' && after == before + Interval(low, high) && next <= low
    requires forall p :: p in stale + stale' ==> p < next
    requires forall p :: p in keys + keys' ==> p >= next
    ensures stale' == stale && keys' == keys + Interval(low, high)
  {
    forall p
      ensures (p in stale' <==> p in stale) && (p in keys' <==> p in keys || p in Interval(low, high))
    {
      assert p in after <==> p in before || p in Interval(low, high);
      assert p in stale + keys <==> p in stale || p in keys;
      assert p in stale' + keys' <==> p in stale' || p in keys';
      assert p in Interval(low, high) ==> next <= p;
      assert p in stale ==> p in stale + stale';
      assert p in stale' ==> p in stale + stale';
      assert p in keys ==> p in keys + keys';
      assert p in keys' ==> p in keys + keys';
    }
  }
}
