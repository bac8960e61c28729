/** What the receive path of a TCP socket means: the bytes it holds, as a map
    from stream positions, and how one segment changes them.

    The kernel keeps the bytes in an 8 KiB ring and the out-of-order ones in
    four wire-form ranges; here neither exists. */
module TcpReassembly {

  type Byte = x: int | 0 <= x < 256

  const BUFFER := 8192
  const RANGE_SLOTS := 4

  /** `next` is the position the peer is asked for, `readable` what the
      application can read now, `ahead` the bytes held beyond a hole. `stale` are
      recorded positions that a FIN has left behind `next`. */
  datatype RxView = RxView(next: int, readable: seq<Byte>, ahead: map<int, Byte>, stale: set<int>)

  function Free(v: RxView): int { BUFFER - |v.readable| }

  /** One past the last position there is room for. */
  function WindowEnd(v: RxView): int { v.next + Free(v) }

  /** The first position from `from` on that is not in `keys`, or `limit`. */
  function FirstGap(keys: set<int>, from: int, limit: int): (gap: int)
    requires from <= limit
    ensures from <= gap <= limit && (gap < limit ==> gap !in keys)
    ensures forall p :: from <= p < gap ==> p in keys
    decreases limit - from
  {
    if from < limit && from in keys then FirstGap(keys, from + 1, limit) else from
  }

  lemma FirstGapUnique(keys: set<int>, from: int, gap: int, limit: int)
    requires from <= gap <= limit && (gap < limit ==> gap !in keys)
    requires forall p :: from <= p < gap ==> p in keys
    ensures gap == FirstGap(keys, from, limit)
  {
    var g := FirstGap(keys, from, limit);
    assert !(g < gap && g < limit) && !(gap < g && gap < limit);
  }

  /** Where the maximal runs of held positions begin: one range slot each. */
  function RunStarts(keys: set<int>): set<int> {
    set p | p in keys && StartsRun(keys, p)
  }

  predicate StartsRun(keys: set<int>, p: int) { p in keys && p - 1 !in keys }

  function Interval(low: int, high: int): set<int> {
    set p | low <= p < high && Between(low, p, high)
  }

  predicate Between(low: int, p: int, high: int) { low <= p < high }

  function Max(a: int, b: int): int { if a < b then b else a }
  function Min(a: int, b: int): int { if a < b then a else b }

  /** The part of a segment at `s` that is neither already delivered nor beyond the window. */
  function ClipLow(v: RxView, s: int): int { Max(s, v.next) }
  function ClipHigh(v: RxView, s: int, data: seq<Byte>): int { Min(s + |data|, WindowEnd(v)) }

  function Piece(s: int, data: seq<Byte>, low: int, high: int): map<int, Byte>
    requires s <= low && high <= s + |data|
  {
    map p | p in Interval(low, high) :: data[p - s]
  }

  /** Held bytes, with the segment's new bytes laid over them. */
  function Candidate(v: RxView, s: int, data: seq<Byte>): map<int, Byte> {
    v.ahead + Piece(s, data, ClipLow(v, s), ClipHigh(v, s, data))
  }

  function From(m: map<int, Byte>, low: int): map<int, Byte> {
    map p | p in m && low <= p :: m[p]
  }

  /** The bytes at [low, high), all of them held. */
  function Bytes(m: map<int, Byte>, low: int, high: int): (bytes: seq<Byte>)
    requires low <= high && Interval(low, high) <= m.Keys
    ensures |bytes| == high - low
    ensures forall i :: 0 <= i < |bytes| ==> bytes[i] == m[low + i]
  {
    seq(high - low, i requires 0 <= i < high - low => assert low + i in Interval(low, high); m[low + i])
  }

  /** Everything of `held` up to the first hole becomes readable. */
  function Advance(v: RxView, held: map<int, Byte>): RxView
    requires v.next <= WindowEnd(v)
  {
    var gap := FirstGap(held.Keys, v.next, WindowEnd(v));
    assert Interval(v.next, gap) <= held.Keys;
    RxView(gap, v.readable + Bytes(held, v.next, gap), From(held, gap), {})
  }

  /** What one data segment at position `s` does. */
  function Receive(v: RxView, s: int, data: seq<Byte>): RxView {
    var low, high := ClipLow(v, s), ClipHigh(v, s, data);
    var held := Candidate(v, s, data);
    if low >= high then
      v
    else if low == v.next then
      Advance(v, held)
    else if |RunStarts(v.stale + held.Keys)| <= RANGE_SLOTS then
      v.(ahead := held)
    else
      v
  }

  /** The shape every receive path keeps: the buffer is never overrun, and what is held beyond a
      hole is strictly beyond it, inside the window and in few enough runs. */
  predicate Settled(v: RxView) {
    && |v.readable| <= BUFFER && v.stale == {}
    && (forall p :: p in v.ahead ==> v.next < p < WindowEnd(v))
    && |RunStarts(v.ahead.Keys)| <= RANGE_SLOTS
  }

  lemma SubsetSize(a: set<int>, b: set<int>)
    requires a <= b
    ensures |a| <= |b|
  {
    assert b == a + (b - a);
  }

  /** Advancing over a hole that was filled opens no new run. */
  lemma AdvanceRuns(v: RxView, high: int, held: map<int, Byte>)
    requires Settled(v) && v.next < high <= WindowEnd(v) && held.Keys == v.ahead.Keys + Interval(v.next, high)
    ensures |RunStarts(Advance(v, held).ahead.Keys)| <= RANGE_SLOTS
  {
    var gap := FirstGap(held.Keys, v.next, WindowEnd(v));
    var rest := From(held, gap).Keys;
    forall p | p in RunStarts(rest)
      ensures p in RunStarts(v.ahead.Keys)
    {
      assert p != gap && p - 1 !in held.Keys;
      assert p in Interval(v.next, high) ==> p - 1 in Interval(v.next, high);
    }
    SubsetSize(RunStarts(rest), RunStarts(v.ahead.Keys));
  }

  /** Nothing readable is taken back, nothing held is lost, and the right edge stands still. */
  predicate Onward(v: RxView, v': RxView) {
    && Settled(v') && WindowEnd(v') == WindowEnd(v) && v.next <= v'.next && v.readable <= v'.readable
    && forall p :: p in v.ahead ==> p < v'.next || p in v'.ahead
  }

  lemma AdvanceOnward(v: RxView, high: int, held: map<int, Byte>)
    requires Settled(v) && v.next < high <= WindowEnd(v) && held.Keys == v.ahead.Keys + Interval(v.next, high)
    ensures Onward(v, Advance(v, held))
  {
    AdvanceRuns(v, high, held);
    hide RunStarts;
    var v' := Advance(v, held);
    assert forall p :: p in v'.ahead ==> p in held.Keys && v'.next <= p && p != v'.next;
  }

  lemma AheadOnward(v: RxView, low: int, high: int, held: map<int, Byte>)
    requires Settled(v) && v.next < low < high <= WindowEnd(v) && held.Keys == v.ahead.Keys + Interval(low, high)
    requires |RunStarts(v.stale + held.Keys)| <= RANGE_SLOTS
    ensures Onward(v, v.(ahead := held))
  {
    NoneStale(v, held.Keys);
    hide RunStarts;
  }

  /** For every segment, whatever its sequence and bytes: the shape is kept, the right edge of the
      window stands still, nothing readable is taken back, and no byte held is lost. */
  lemma ReceiveSettled(v: RxView, s: int, data: seq<Byte>)
    requires Settled(v)
    ensures Onward(v, Receive(v, s, data))
  {
    var low, high := ClipLow(v, s), ClipHigh(v, s, data);
    var held := Candidate(v, s, data);
    hide RunStarts, Onward, Advance;
    if low >= high {
      StaysOnward(v);
    } else {
      assert held.Keys == v.ahead.Keys + Interval(low, high);
      if low == v.next {
        AdvanceOnward(v, high, held);
      } else if |RunStarts(v.stale + held.Keys)| <= RANGE_SLOTS {
        AheadOnward(v, low, high, held);
      } else {
        StaysOnward(v);
      }
    }
  }

  lemma StaysOnward(v: RxView)
    requires Settled(v)
    ensures Onward(v, v)
  {
  }

  lemma NoneStale(v: RxView, keys: set<int>)
    requires v.stale == {}
    ensures v.stale + keys == keys
  {
  }

  /** The segment is a piece of the stream that starts at `origin`. */
  predicate CutFrom(origin: int, stream: seq<Byte>, s: int, data: seq<Byte>) {
    && origin <= s && s + |data| <= origin + |stream|
    && data == stream[s - origin..s - origin + |data|]
  }

  /** `read` bytes of the stream have been read, the next ones are readable, the bytes beyond the
      hole are the stream's own, and `next` counts the stream and, at its end, its FIN. */
  predicate OfStream(v: RxView, origin: int, stream: seq<Byte>, read: nat) {
    var got := read + |v.readable|;
    && got <= |stream| && v.readable == stream[read..got]
    && (v.next == origin + got || (v.next == origin + got + 1 && got == |stream|))
    && BytesOf(v.ahead, origin, stream)
  }

  /** Bytes of the stream, laid over bytes of the stream, are bytes of the stream. */
  lemma CandidateStream(v: RxView, origin: int, stream: seq<Byte>, read: nat, s: int, data: seq<Byte>)
    requires OfStream(v, origin, stream, read) && CutFrom(origin, stream, s, data)
    ensures BytesOf(Candidate(v, s, data), origin, stream)
  {
  }

  predicate BytesOf(held: map<int, Byte>, origin: int, stream: seq<Byte>) {
    forall p :: p in held ==> origin <= p < origin + |stream| && held[p] == stream[p - origin]
  }

  lemma BytesOfStream(held: map<int, Byte>, origin: int, stream: seq<Byte>, low: int, high: int)
    requires BytesOf(held, origin, stream) && low <= high && Interval(low, high) <= held.Keys
    requires origin <= low <= origin + |stream|
    ensures high <= origin + |stream| && Bytes(held, low, high) == stream[low - origin..high - origin]
  {
    assert low < high ==> high - 1 in Interval(low, high);
    forall i | 0 <= i < high - low
      ensures Bytes(held, low, high)[i] == stream[low - origin + i]
    {
      assert low + i in Interval(low, high);
    }
  }

  lemma SlicesJoin(stream: seq<Byte>, i: nat, j: nat, k: nat)
    requires i <= j <= k <= |stream|
    ensures stream[i..j] + stream[j..k] == stream[i..k]
  {
  }

  lemma AdvanceStream(v: RxView, origin: int, stream: seq<Byte>, read: nat, held: map<int, Byte>)
    requires |v.readable| <= BUFFER && OfStream(v, origin, stream, read) && v.next == origin + read + |v.readable|
    requires BytesOf(held, origin, stream)
    ensures OfStream(Advance(v, held), origin, stream, read)
  {
    var gap := FirstGap(held.Keys, v.next, WindowEnd(v));
    assert Interval(v.next, gap) <= held.Keys;
    BytesOfStream(held, origin, stream, v.next, gap);
    assert BytesOf(From(held, gap), origin, stream);
    Prolonged(v, Bytes(held, v.next, gap), From(held, gap), origin, stream, read);
    hide BytesOf, FirstGap, Bytes, From, Interval, OfStream;
  }

  /** The next bytes of the stream become readable. */
  lemma Prolonged(v: RxView, bytes: seq<Byte>, ahead: map<int, Byte>, origin: int, stream: seq<Byte>, read: nat)
    requires OfStream(v, origin, stream, read) && BytesOf(ahead, origin, stream)
    requires var got := read + |v.readable|;
             got + |bytes| <= |stream| && bytes == stream[got..got + |bytes|]
    ensures var got := read + |v.readable| + |bytes|;
            OfStream(RxView(origin + got, v.readable + bytes, ahead, {}), origin, stream, read)
  {
    hide BytesOf;
    SlicesJoin(stream, read, read + |v.readable|, read + |v.readable| + |bytes|);
  }

  /** Segments cut from one stream, in any order and with any overlap, never bring in a byte that is
      not the stream's at its own place. */
  lemma ReceiveStream(v: RxView, origin: int, stream: seq<Byte>, read: nat, s: int, data: seq<Byte>)
    requires Settled(v) && OfStream(v, origin, stream, read) && CutFrom(origin, stream, s, data)
    ensures OfStream(Receive(v, s, data), origin, stream, read)
  {
    var low, high := ClipLow(v, s), ClipHigh(v, s, data);
    if low < high {
      CandidateStream(v, origin, stream, read, s, data);
      if low == v.next {
        AdvanceStream(v, origin, stream, read, Candidate(v, s, data));
      }
    }
  }

  /** A FIN due at `next` finds nothing held beyond it and nothing before it missing. */
  lemma FinComplete(v: RxView, origin: int, stream: seq<Byte>, read: nat)
    requires Settled(v) && OfStream(v, origin, stream, read) && v.next == origin + |stream|
    ensures read + |v.readable| == |stream| && v.ahead == map[]
    ensures OfStream(v.(next := v.next + 1), origin, stream, read)
  {
    assert forall p :: p !in v.ahead;
  }

  // ----- a FIN in the middle of what is held

  /** What the cells of the ring hold, by position: the held bytes where there are any, and what was
      left there before elsewhere. */
  ghost predicate CellsOf(cells: int -> Byte, v: RxView) { forall p :: p in v.ahead ==> cells(p) == v.ahead[p] }

  /** A FIN takes one position and no cell. From then on each held position is read one cell lower, and
      one that was due right at `next` is behind it. */
  function FinTaken(v: RxView, cells: int -> Byte): RxView {
    RxView(v.next + 1, v.readable, map p | p in v.ahead && v.next < p :: cells(p - 1),
           v.stale + set p | p in v.ahead && p == v.next)
  }

  /** Nothing is held when the peer's FIN is its last word, and then nothing moves. */
  lemma FinAtTheEnd(v: RxView, cells: int -> Byte)
    requires v.ahead == map[]
    ensures FinTaken(v, cells) == v.(next := v.next + 1)
  {
    assert v.stale + (set p | p in v.ahead && p == v.next) == v.stale;
  }
}
