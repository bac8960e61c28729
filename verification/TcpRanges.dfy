/** The out-of-order ranges of a TCP socket: four slots in wire form, and the
    spans of stream positions they stand for. */
module TcpRanges {
  import opened SequenceNumbers
  import opened TcpReassembly

  /** `start == end` marks a free slot. */
  datatype WireRange = WireRange(start: U32, end: U32)

  /** A range in stream positions; empty for a free slot. */
  datatype Span = Span(lo: int, hi: int)

  predicate Live(s: Span) { s.lo < s.hi }

  predicate InSpans(spans: seq<Span>, p: int) {
    exists i :: 0 <= i < |spans| && spans[i].lo <= p < spans[i].hi
  }

  predicate Linked(range: WireRange, span: Span) {
    if span.lo == span.hi then range.start == range.end
    else range == WireRange(Wire(span.lo), Wire(span.hi))
  }

  /** How far back a range may lie and still be told from one ahead. */
  const REACH := 0x4000_0000

  /** The live spans lie inside [low, high]. */
  predicate Within(spans: seq<Span>, low: int, high: int) {
    && low <= high <= low + REACH
    && forall i :: 0 <= i < |spans| ==>
         spans[i].lo <= spans[i].hi && (Live(spans[i]) ==> low <= spans[i].lo && spans[i].hi <= high)
  }

  /** None of the first `count` live spans is reached by `next`. */
  predicate AllBeyond(spans: seq<Span>, count: nat, next: int)
    requires count <= |spans|
  {
    forall j :: 0 <= j < count && Live(spans[j]) ==> next < spans[j].lo
  }

  predicate Apart(a: Span, b: Span) {
    Live(a) && Live(b) ==> a.hi < b.lo || b.hi < a.lo
  }

  predicate Separated(spans: seq<Span>) {
    forall i, j :: 0 <= i < j < |spans| ==> Apart(spans[i], spans[j])
  }

  ghost function Covered(spans: seq<Span>, low: int, high: int): set<int> {
    set p | low <= p < high && InSpans(spans, p)
  }

  function CountLive(spans: seq<Span>): nat
    requires |spans| == RANGE_SLOTS
  {
    (if Live(spans[0]) then 1 else 0) + (if Live(spans[1]) then 1 else 0)
    + (if Live(spans[2]) then 1 else 0) + (if Live(spans[3]) then 1 else 0)
  }

  const NO_SPAN := Span(0, 0)

  /** Freeing a slot loses exactly the positions of its span. */
  lemma FreeSlot(spans: seq<Span>, i: nat, p: int)
    requires i < |spans|
    ensures InSpans(spans, p) <==> InSpans(spans[i := NO_SPAN], p) || spans[i].lo <= p < spans[i].hi
  {
    var freed := spans[i := NO_SPAN];
    if InSpans(spans, p) && !(spans[i].lo <= p < spans[i].hi) {
      var j :| 0 <= j < |spans| && spans[j].lo <= p < spans[j].hi;
      assert freed[j].lo <= p < freed[j].hi;
    }
    if InSpans(freed, p) {
      var j :| 0 <= j < |freed| && freed[j].lo <= p < freed[j].hi;
      assert spans[j].lo <= p < spans[j].hi;
    }
  }

  ghost function KnownSet(spans: seq<Span>, next: int, base: int, limit: int): set<int> {
    set p | base <= p < limit && (p < next || InSpans(spans, p))
  }

  /** Freeing a span and moving past its end, if that was reached, forgets nothing. */
  lemma FreeKnown(spans: seq<Span>, i: nat, next: int, next': int, base: int, limit: int)
    requires i < |spans|
    requires next' == next >= spans[i].hi || (spans[i].lo <= next < spans[i].hi == next')
    ensures KnownSet(spans[i := NO_SPAN], next', base, limit) == KnownSet(spans, next, base, limit)
  {
    forall p { FreeSlot(spans, i, p); }
  }

  lemma FreeCount(spans: seq<Span>, i: nat)
    requires |spans| == RANGE_SLOTS && i < |spans| && Live(spans[i])
    ensures CountLive(spans[i := NO_SPAN]) == CountLive(spans) - 1
  {
  }

  lemma ExtraSpan(spans: seq<Span>, extra: Span, p: int)
    ensures InSpans(spans + [extra], p) <==> InSpans(spans, p) || extra.lo <= p < extra.hi
  {
    var all := spans + [extra];
    if InSpans(spans, p) {
      var j :| 0 <= j < |spans| && spans[j].lo <= p < spans[j].hi;
      assert all[j].lo <= p < all[j].hi;
    }
    if extra.lo <= p < extra.hi {
      assert all[|spans|].lo <= p < all[|spans|].hi;
    }
  }

  predicate Touch(a: Span, b: Span) { a.lo <= b.hi && b.lo <= a.hi }

  function Join(a: Span, b: Span): Span { Span(Min(a.lo, b.lo), Max(a.hi, b.hi)) }

  /** The comparisons of the merge, on spans near each other. */
  lemma WiresOfSpans(a: Span, b: Span)
    requires Live(a) && Live(b) && a.hi - REACH <= b.lo && b.hi - REACH <= a.lo
    ensures SeqLeq(Wire(b.lo), Wire(a.hi)) && SeqLeq(Wire(a.lo), Wire(b.hi)) <==> Touch(a, b)
    ensures SeqLt(Wire(a.lo), Wire(b.lo)) <==> a.lo < b.lo
    ensures SeqGt(Wire(a.hi), Wire(b.hi)) <==> a.hi > b.hi
  {
    CompareWires(b.lo, a.hi);
    CompareWires(a.lo, b.hi);
    CompareWires(a.lo, b.lo);
    CompareWires(a.hi, b.hi);
  }

  /** Merging a slot into the range being recorded keeps the positions of both. */
  lemma MergeKnown(spans: seq<Span>, i: nat, extra: Span, p: int)
    requires i < |spans| && Live(spans[i]) && Live(extra) && Touch(spans[i], extra)
    ensures InSpans(spans + [extra], p) <==> InSpans(spans[i := NO_SPAN] + [Join(spans[i], extra)], p)
  {
    FreeSlot(spans, i, p);
    ExtraSpan(spans, extra, p);
    ExtraSpan(spans[i := NO_SPAN], Join(spans[i], extra), p);
  }

  /** Writing a span into a free slot adds exactly its positions. */
  lemma FillSlot(spans: seq<Span>, i: nat, span: Span, p: int)
    requires i < |spans| && !Live(spans[i])
    ensures InSpans(spans[i := span], p) <==> InSpans(spans, p) || span.lo <= p < span.hi
  {
    var filled := spans[i := span];
    if InSpans(spans, p) {
      var j :| 0 <= j < |spans| && spans[j].lo <= p < spans[j].hi;
      assert filled[j].lo <= p < filled[j].hi;
    }
    if span.lo <= p < span.hi {
      assert filled[i].lo <= p < filled[i].hi;
    }
  }

  lemma FillFree(spans: seq<Span>, i: nat, span: Span)
    requires i < |spans| && !Live(spans[i])
    ensures forall p :: InSpans(spans[i := span], p) <==> InSpans(spans + [span], p)
  {
    forall p
      ensures InSpans(spans[i := span], p) <==> InSpans(spans + [span], p)
    {
      FillSlot(spans, i, span, p);
      ExtraSpan(spans, span, p);
    }
  }

  /** `range` is clear of each of the first `count` spans. */
  predicate ClearOf(spans: seq<Span>, count: nat, range: Span)
    requires count <= |spans|
  {
    forall j :: 0 <= j < count && Live(spans[j]) ==> !Touch(spans[j], range)
  }

  /** The low ends of the first `count` spans that are live. */
  ghost function Starts(spans: seq<Span>, count: nat): (starts: set<int>)
    requires count <= |spans|
    ensures forall p :: p in starts <==> exists i :: 0 <= i < count && Live(spans[i]) && spans[i].lo == p
  {
    if count == 0 then {}
    else Starts(spans, count - 1) + if Live(spans[count - 1]) then {spans[count - 1].lo} else {}
  }

  /** The slots in use are the runs of held positions. */
  lemma RunsAreSpans(spans: seq<Span>, low: int, high: int)
    requires |spans| == RANGE_SLOTS && Within(spans, low, high) && Separated(spans)
    ensures |RunStarts(Covered(spans, low, high))| == CountLive(spans)
  {
    forall p { RunStartIffLow(spans, low, high, p); }
    assert RunStarts(Covered(spans, low, high)) == Starts(spans, RANGE_SLOTS);
    StartsStep(spans, 0);
    StartsStep(spans, 1);
    StartsStep(spans, 2);
    StartsStep(spans, 3);
  }

  lemma RunStartIffLow(spans: seq<Span>, low: int, high: int, p: int)
    requires Within(spans, low, high) && Separated(spans)
    ensures p in RunStarts(Covered(spans, low, high)) <==> p in Starts(spans, |spans|)
  {
    assert forall i :: 0 <= i < |spans| && spans[i].lo < p < spans[i].hi ==>
             InSpans(spans, p - 1) && p - 1 in Covered(spans, low, high);
    if i :| 0 <= i < |spans| && Live(spans[i]) && spans[i].lo == p {
      assert InSpans(spans, p);
      forall j | 0 <= j < |spans| ensures !(spans[j].lo <= p - 1 < spans[j].hi) {
        if i < j {
          assert Apart(spans[i], spans[j]);
        } else if j < i {
          assert Apart(spans[j], spans[i]);
        }
      }
    }
  }

  lemma StartsStep(spans: seq<Span>, n: nat)
    requires n < |spans| && Separated(spans)
    ensures |Starts(spans, n + 1)| == |Starts(spans, n)| + if Live(spans[n]) then 1 else 0
  {
    assert forall i :: 0 <= i < n ==> Apart(spans[i], spans[n]);
    assert Live(spans[n]) ==> spans[n].lo !in Starts(spans, n);
  }

  /** Positions clear of every run are a run of their own. */
  lemma NewRun(keys: set<int>, low: int, high: int)
    requires low < high && forall p :: p in keys ==> p < low - 1 || high < p
    ensures |RunStarts(keys + Interval(low, high))| == |RunStarts(keys)| + 1
  {
    var all := keys + Interval(low, high);
    forall p ensures StartsRun(all, p) <==> StartsRun(keys, p) || p == low {
      assert p - 1 in Interval(low, high) <==> low <= p - 1 < high;
    }
    assert RunStarts(all) == RunStarts(keys) + {low};
    assert low !in keys;
  }

  lemma SpansAdded(spans: seq<Span>, spans': seq<Span>, range: Span, low: int, high: int)
    requires Live(range) && low <= range.lo && range.hi <= high
    requires forall p :: InSpans(spans', p) <==> InSpans(spans + [range], p)
    ensures Covered(spans', low, high) == Covered(spans, low, high) + Interval(range.lo, range.hi)
  {
    forall p { ExtraSpan(spans, range, p); }
  }

  /** Four runs, none of which the range touches: recording it would need a fifth. */
  lemma NoSlotLeft(spans: seq<Span>, range: Span, low: int, high: int)
    requires |spans| == RANGE_SLOTS && Within(spans, low, high) && Separated(spans)
    requires Live(range) && CountLive(spans) == RANGE_SLOTS && ClearOf(spans, RANGE_SLOTS, range)
    ensures Covered(spans, low, high) !! Interval(range.lo, range.hi)
    ensures |RunStarts(Covered(spans, low, high) + Interval(range.lo, range.hi))| > RANGE_SLOTS
  {
    RunsAreSpans(spans, low, high);
    assert forall p :: p in Covered(spans, low, high) ==> p < range.lo - 1 || range.hi < p;
    NewRun(Covered(spans, low, high), range.lo, range.hi);
  }

  /** A window that grew covers no more: all spans were inside it. */
  lemma Narrowed(spans: seq<Span>, low: int, high: int, high': int)
    requires Within(spans, low, high) && high <= high' <= low + REACH
    ensures Within(spans, low, high') && Covered(spans, low, high') == Covered(spans, low, high)
  {
  }

  /** What is recorded below `next` and what is recorded from it on. */
  lemma CoveredSplit(spans: seq<Span>, low: int, next: int, high: int)
    requires low <= next <= high
    ensures Covered(spans, low, high) == Covered(spans, low, next) + Covered(spans, next, high)
  {
  }

  lemma NoneLive(spans: seq<Span>, low: int, high: int)
    requires Within(spans, low, high)
    ensures Covered(spans, low, high) == {} ==> forall i :: 0 <= i < |spans| ==> !Live(spans[i])
    ensures (forall i :: 0 <= i < |spans| ==> !Live(spans[i])) ==> Covered(spans, low, high) == {}
  {
    forall i | 0 <= i < |spans| && Live(spans[i])
      ensures spans[i].lo in Covered(spans, low, high)
    {
      assert InSpans(spans, spans[i].lo);
    }
  }
}
