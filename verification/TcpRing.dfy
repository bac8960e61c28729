/** The receive ring of a TCP socket, as a value: which stream position each
    cell stands for, and how storing a segment changes what is held. */
module TcpRing {
  import opened TcpReassembly

  lemma CellsDiffer(head: nat, k: nat, l: nat)
    requires k < BUFFER && l < BUFFER
    ensures (head + k) % BUFFER == (head + l) % BUFFER <==> k == l
  {
  }

  lemma SameCell(head: nat, at: nat, base: nat, index: nat)
    requires index <= at && base == (head + (at - index)) % BUFFER
    ensures (base + index) % BUFFER == (head + at) % BUFFER
  {
  }

  /** The cells of the ring, read from `head` on. */
  function RotatedFrom(cells: seq<Byte>, head: nat): seq<Byte>
    requires |cells| == BUFFER
  {
    seq(BUFFER, k requires 0 <= k < BUFFER => cells[(head + k) % BUFFER])
  }

  /** The ring read from its head. Position `base` is at the head, [base, next) is readable
      and `keys` are the positions held beyond it; `stale` are recorded positions behind `next`. */
  datatype RxState = RxState(base: int, next: int, keys: set<int>, stale: set<int>, ring: seq<Byte>)

  predicate RingOk(r: RxState) {
    && |r.ring| == BUFFER && r.base <= r.next <= r.base + BUFFER
    && r.keys <= Interval(r.next, r.base + BUFFER)
  }

  ghost function Held(r: RxState): map<int, Byte>
    requires RingOk(r)
  {
    map p | p in r.keys :: r.ring[p - r.base]
  }

  ghost function ViewOf(r: RxState): RxView
    requires RingOk(r)
  {
    RxView(r.next, r.ring[..r.next - r.base], Held(r), r.stale)
  }

  /** The ring after the bytes of a segment at `s` that belong to [low, high) were stored. */
  predicate Overlaid(r: RxState, ring': seq<Byte>, s: int, data: seq<Byte>, low: int, high: int)
    requires RingOk(r) && s <= low && high <= s + |data|
  {
    && |ring'| == BUFFER
    && forall k :: 0 <= k < BUFFER ==> ring'[k] == if low <= r.base + k < high then data[r.base + k - s] else r.ring[k]
  }

  /** The ring has the bytes of `m` where their positions belong. */
  predicate HasBytes(ring: seq<Byte>, base: int, m: map<int, Byte>) {
    forall p :: p in m ==> 0 <= p - base < |ring| && ring[p - base] == m[p]
  }

  lemma CandidateBytes(r: RxState, ring': seq<Byte>, s: int, data: seq<Byte>, low: int, high: int)
    requires RingOk(r) && low == ClipLow(ViewOf(r), s) < high == ClipHigh(ViewOf(r), s, data)
    requires Overlaid(r, ring', s, data, low, high)
    ensures Candidate(ViewOf(r), s, data).Keys == r.keys + Interval(low, high) <= Interval(r.next, r.base + BUFFER)
    ensures HasBytes(ring', r.base, Candidate(ViewOf(r), s, data))
    ensures ring'[..r.next - r.base] == r.ring[..r.next - r.base]
  {
    assert Candidate(ViewOf(r), s, data) == Held(r) + Piece(s, data, low, high);
  }

  /** If the delivered and recorded positions are those of `held` and the ring has its bytes,
      then the view is `held`, split where `next` now stands. */
  lemma Rebuilt(r: RxState, r': RxState, held: map<int, Byte>)
    requires RingOk(r) && RingOk(r') && r'.base == r.base && r.next <= r'.next
    requires r'.ring[..r.next - r.base] == r.ring[..r.next - r.base]
    requires held.Keys == Interval(r.next, r'.next) + r'.keys && HasBytes(r'.ring, r.base, held)
    ensures ViewOf(r') == RxView(r'.next, ViewOf(r).readable + Bytes(held, r.next, r'.next), From(held, r'.next),
                                 r'.stale)
  {
    HeldRebuilt(r', r.next, held);
    ReadableGrows(r.ring, r'.ring, r.base, r.next, r'.next, held);
    hide RingOk, Held, From, Bytes, HasBytes, Interval;
  }

  lemma HeldRebuilt(r: RxState, next: int, held: map<int, Byte>)
    requires RingOk(r) && next <= r.next && held.Keys == Interval(next, r.next) + r.keys
    requires HasBytes(r.ring, r.base, held)
    ensures Held(r) == From(held, r.next)
  {
    forall p
      ensures p in Held(r) <==> p in From(held, r.next)
      ensures p in r.keys ==> p in held && r.ring[p - r.base] == held[p]
    {
    }
  }

  lemma ReadableGrows(ring: seq<Byte>, ring': seq<Byte>, base: int, next: int, next': int, held: map<int, Byte>)
    requires |ring| == |ring'| == BUFFER && base <= next <= next' <= base + BUFFER
    requires ring'[..next - base] == ring[..next - base]
    requires Interval(next, next') <= held.Keys && HasBytes(ring', base, held)
    ensures ring'[..next' - base] == ring[..next - base] + Bytes(held, next, next')
  {
    var m, n := next - base, next' - base;
    assert ring'[m..n] == Bytes(held, next, next') by {
      forall k | 0 <= k < n - m
        ensures ring'[m..n][k] == Bytes(held, next, next')[k]
      {
        assert next + k in Interval(next, next');
      }
    }
    assert ring'[..n] == ring'[..m] + ring'[m..n];
  }

  /** Absorbing ranges up to the next hole is advancing to the first gap. */
  lemma Advanced(r: RxState, r': RxState, held: map<int, Byte>)
    requires RingOk(r) && RingOk(r') && r'.base == r.base && r.next <= r'.next && r'.next !in r'.keys && r'.stale == {}
    requires r'.ring[..r.next - r.base] == r.ring[..r.next - r.base]
    requires held.Keys == Interval(r.next, r'.next) + r'.keys && HasBytes(r'.ring, r.base, held)
    ensures ViewOf(r') == Advance(ViewOf(r), held)
  {
    assert forall p :: r.next <= p < r'.next ==> p in Interval(r.next, r'.next) && p in held.Keys;
    FirstGapUnique(held.Keys, r.next, r'.next, r.base + BUFFER);
    Rebuilt(r, r', held);
  }

  /** A segment that starts at `next`, absorbed up to the next hole, is `Receive`. */
  lemma InOrder(r: RxState, r': RxState, s: int, data: seq<Byte>, high: int)
    requires RingOk(r) && RingOk(r') && r'.base == r.base && r.next <= r'.next
    requires ClipLow(ViewOf(r), s) == r.next < high == ClipHigh(ViewOf(r), s, data)
    requires Overlaid(r, r'.ring, s, data, r.next, high)
    requires r'.next !in r'.keys && r'.stale == {}
    requires Interval(r.next, r'.next) + r'.keys == Interval(r.next, high) + r.keys
    ensures ViewOf(r') == Receive(ViewOf(r), s, data)
  {
    CandidateBytes(r, r'.ring, s, data, r.next, high);
    Advanced(r, r', Candidate(ViewOf(r), s, data));
  }

  /** A segment beyond a hole, recorded in the slots, is `Receive`. */
  lemma OutOfOrder(r: RxState, r': RxState, s: int, data: seq<Byte>, high: int)
    requires RingOk(r) && RingOk(r') && r'.base == r.base && r.next == r'.next
    requires r.next < s < high == ClipHigh(ViewOf(r), s, data)
    requires Overlaid(r, r'.ring, s, data, s, high)
    requires r'.keys == r.keys + Interval(s, high) && r'.stale == r.stale
    requires |RunStarts(r.stale + r'.keys)| <= RANGE_SLOTS
    ensures ViewOf(r') == Receive(ViewOf(r), s, data)
  {
    CandidateBytes(r, r'.ring, s, data, s, high);
    assert Held(r') == Candidate(ViewOf(r), s, data);
  }

  /** A segment beyond a hole with no slot left for it is `Receive` too: nothing is kept. */
  lemma Dropped(r: RxState, ring': seq<Byte>, s: int, data: seq<Byte>, high: int)
    requires RingOk(r) && r.next < s < high == ClipHigh(ViewOf(r), s, data)
    requires Overlaid(r, ring', s, data, s, high)
    requires r.keys !! Interval(s, high) && |RunStarts(r.stale + (r.keys + Interval(s, high)))| > RANGE_SLOTS
    ensures ViewOf(r.(ring := ring')) == ViewOf(r) == Receive(ViewOf(r), s, data)
  {
    CandidateBytes(r, ring', s, data, s, high);
    assert Held(r.(ring := ring')) == Held(r);
  }

  /** Moving the head drops the first cells and brings them back at the end. */
  lemma RotateOn(cells: seq<Byte>, head: nat, count: nat)
    requires |cells| == BUFFER && head < BUFFER && count <= BUFFER
    ensures RotatedFrom(cells, (head + count) % BUFFER)[..BUFFER - count] == RotatedFrom(cells, head)[count..]
  {
    var after, before := RotatedFrom(cells, (head + count) % BUFFER), RotatedFrom(cells, head)[count..];
    forall k | 0 <= k < BUFFER - count
      ensures after[k] == before[k]
    {
      assert ((head + count) % BUFFER + k) % BUFFER == (head + count + k) % BUFFER;
    }
  }

  lemma ReadOff(r: RxState, r': RxState, count: nat)
    requires RingOk(r) && RingOk(r') && count <= r.next - r.base
    requires r' == RxState(r.base + count, r.next, r.keys, r.stale, r'.ring)
    requires r'.ring[..BUFFER - count] == r.ring[count..]
    ensures ViewOf(r') == ViewOf(r).(readable := ViewOf(r).readable[count..])
  {
    assert forall k :: 0 <= k < BUFFER - count ==>
             r'.ring[k] == r'.ring[..BUFFER - count][k] == r.ring[count..][k] == r.ring[count + k];
    assert Held(r') == Held(r);
    assert r'.ring[..r.next - r.base - count] == r.ring[..r.next - r.base][count..];
  }

  /** What each cell of the ring holds, by the position it stands for. */
  ghost function CellsAt(r: RxState): int -> Byte
    requires |r.ring| == BUFFER
  {
    p => if 0 <= p - r.base < |r.ring| then r.ring[p - r.base] else 0
  }

  /** A FIN moves `recv_next` by one and leaves the ring as it is. */
  lemma FinMoves(r: RxState, r': RxState)
    requires RingOk(r) && RingOk(r') && r'.base == r.base + 1 && r'.next == r.next + 1 && r'.ring == r.ring
    requires r'.keys == r.keys - {r.next} && r'.stale == r.stale + (set p | p in r.keys && p == r.next)
    ensures CellsOf(CellsAt(r), ViewOf(r)) && ViewOf(r') == FinTaken(ViewOf(r), CellsAt(r))
  {
    var taken := FinTaken(ViewOf(r), CellsAt(r));
    assert Held(r') == taken.ahead;
    assert r'.stale == taken.stale;
  }
}
