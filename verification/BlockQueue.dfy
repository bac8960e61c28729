/** The writeback queue as a value: what laying it over a medium gives, what is
    left of it to send, and what one device command may take from its head. */
module BlockQueue {
  import opened BlockLog

  const STEP_SECTORS := 128

  /** A deferred write, or an ordering point when it has no data. `written` sectors of the head
      record are already on the device. */
  datatype Record = Record(device: nat, lba: nat, data: seq<Sector>, written: nat)

  function Splice(disk: seq<Sector>, lba: nat, data: seq<Sector>): (result: seq<Sector>)
    requires lba + |data| <= |disk|
    ensures |result| == |disk|
    ensures forall i :: 0 <= i < |disk| ==> result[i] == if lba <= i < lba + |data| then data[i - lba] else disk[i]
  {
    disk[..lba] + data + disk[lba + |data|..]
  }

  /** The record lies inside a device of `size` sectors, if it is that device's. */
  predicate Fits(r: Record, d: nat, size: nat) { r.device == d ==> r.lba + |r.data| <= size }

  predicate AllFit(queue: seq<Record>, d: nat, size: nat) { forall i :: 0 <= i < |queue| ==> Fits(queue[i], d, size) }

  function Apply(disk: seq<Sector>, r: Record, d: nat): (result: seq<Sector>)
    requires Fits(r, d, |disk|)
    ensures |result| == |disk|
  {
    if r.device == d then Splice(disk, r.lba, r.data) else disk
  }

  /** A medium with every queued write of device `d` laid over it, oldest first. */
  function Overlay(disk: seq<Sector>, queue: seq<Record>, d: nat): (result: seq<Sector>)
    requires AllFit(queue, d, |disk|)
    ensures |result| == |disk|
  {
    if queue == [] then disk else Apply(Overlay(disk, queue[..|queue| - 1], d), queue[|queue| - 1], d)
  }

  lemma {:induction false} OverlayConcat(disk: seq<Sector>, a: seq<Record>, b: seq<Record>, d: nat)
    requires AllFit(a, d, |disk|) && AllFit(b, d, |disk|)
    ensures AllFit(a + b, d, |disk|) && Overlay(disk, a + b, d) == Overlay(Overlay(disk, a, d), b, d)
  {
    if b == [] {
      assert a + b == a;
    } else {
      assert (a + b)[..|a + b| - 1] == a + b[..|b| - 1];
      OverlayConcat(disk, a, b[..|b| - 1], d);
    }
  }

  /** What a record still has to send to device `d`. */
  function RecordLeft(r: Record, d: nat): Log
    requires r.written <= |r.data|
  {
    if r.device != d then [] else if r.data == [] then [Barrier] else PutsOf(r.lba + r.written, r.data[r.written..])
  }

  predicate Begun(queue: seq<Record>) { forall i :: 0 <= i < |queue| ==> queue[i].written <= |queue[i].data| }

  function Left(queue: seq<Record>, d: nat): Log
    requires Begun(queue)
  {
    if queue == [] then [] else Left(queue[..|queue| - 1], d) + RecordLeft(queue[|queue| - 1], d)
  }

  lemma LeftLast(queue: seq<Record>, d: nat)
    requires Begun(queue) && queue != []
    ensures Left(queue, d) == Left(queue[..|queue| - 1], d) + RecordLeft(queue[|queue| - 1], d)
  {
  }

  lemma {:induction false} LeftConcat(a: seq<Record>, b: seq<Record>, d: nat)
    requires Begun(a) && Begun(b)
    ensures Begun(a + b) && Left(a + b, d) == Left(a, d) + Left(b, d)
  {
    if b == [] {
      assert a + b == a;
    } else {
      hide Left, RecordLeft;
      var front, last := b[..|b| - 1], b[|b| - 1];
      assert (a + b)[..|a + b| - 1] == a + front && (a + b)[|a + b| - 1] == last;
      LeftConcat(a, front, d);
      LeftLast(a + b, d);
      LeftLast(b, d);
      Associates(Left(a, d), Left(front, d), RecordLeft(last, d));
    }
  }

  lemma Associates(a: Log, b: Log, c: Log)
    ensures a + b + c == a + (b + c)
  {
  }

  /** A device none of the records is for has nothing left and nothing laid over it. */
  lemma {:induction false} LeftOfOthers(queue: seq<Record>, d: nat)
    requires Begun(queue) && forall i :: 0 <= i < |queue| ==> queue[i].device != d
    ensures Left(queue, d) == []
  {
    if queue != [] { LeftOfOthers(queue[..|queue| - 1], d); }
  }

  lemma {:induction false} OverlayOfOthers(disk: seq<Sector>, queue: seq<Record>, d: nat)
    requires AllFit(queue, d, |disk|) && forall i :: 0 <= i < |queue| ==> queue[i].device != d
    ensures Overlay(disk, queue, d) == disk
  {
    if queue != [] { OverlayOfOthers(disk, queue[..|queue| - 1], d); }
  }

  /** Sectors still to be sent. */
  function SectorsLeft(queue: seq<Record>): nat
    requires Begun(queue)
  {
    if queue == [] then 0
    else SectorsLeft(queue[..|queue| - 1]) + |queue[|queue| - 1].data| - queue[|queue| - 1].written
  }

  lemma {:induction false} SectorsConcat(a: seq<Record>, b: seq<Record>)
    requires Begun(a) && Begun(b)
    ensures Begun(a + b) && SectorsLeft(a + b) == SectorsLeft(a) + SectorsLeft(b)
  {
    if b == [] {
      assert a + b == a;
    } else {
      assert (a + b)[..|a + b| - 1] == a + b[..|b| - 1];
      SectorsConcat(a, b[..|b| - 1]);
    }
  }

  // ----- one device command's worth

  /** Where the head record continues. */
  function Start(queue: seq<Record>): nat
    requires queue != []
  {
    queue[0].lba + queue[0].written
  }

  /** The rest of the head record and all of the next `m`. */
  function Batch(queue: seq<Record>, m: nat): seq<Sector>
    requires m < |queue| && queue[0].written <= |queue[0].data|
  {
    if m == 0 then queue[0].data[queue[0].written..] else Batch(queue, m - 1) + queue[m].data
  }

  /** The `m` records behind the head are whole writes that continue it on its device. */
  predicate Chain(queue: seq<Record>, m: nat)
    requires m < |queue| && queue[0].written <= |queue[0].data|
  {
    if m == 0 then queue[0].data != []
    else
      && Chain(queue, m - 1)
      && queue[m].data != [] && queue[m].written == 0 && queue[m].device == queue[0].device
      && queue[m].lba == Start(queue) + |Batch(queue, m - 1)|
  }

  lemma {:induction false} ChainDevice(queue: seq<Record>, m: nat)
    requires m < |queue| && queue[0].written <= |queue[0].data| && Chain(queue, m)
    ensures queue[0].data != [] && forall i :: 0 <= i < m + 1 ==> queue[i].device == queue[0].device
  {
    if m > 0 { ChainDevice(queue, m - 1); }
  }

  lemma PutsOfConcat(lba: nat, a: seq<Sector>, b: seq<Sector>)
    ensures PutsOf(lba, a + b) == PutsOf(lba, a) + PutsOf(lba + |a|, b)
  {
  }

  /** Taking one record more. */
  lemma TakeMore(queue: seq<Record>, m: nat, d: nat)
    requires Begun(queue) && m < |queue|
    ensures Left(queue[..m + 1], d) == Left(queue[..m], d) + RecordLeft(queue[m], d)
    ensures SectorsLeft(queue[..m + 1]) == SectorsLeft(queue[..m]) + |queue[m].data| - queue[m].written
  {
    var taken := queue[..m + 1];
    assert taken[..|taken| - 1] == queue[..m] && taken[|taken| - 1] == queue[m];
  }

  lemma TakeMoreOverlay(disk: seq<Sector>, queue: seq<Record>, m: nat, d: nat)
    requires AllFit(queue, d, |disk|) && m < |queue|
    ensures Fits(queue[m], d, |disk|) && AllFit(queue[..m], d, |disk|)
    ensures Overlay(disk, queue[..m + 1], d) == Apply(Overlay(disk, queue[..m], d), queue[m], d)
  {
    var taken := queue[..m + 1];
    assert taken[..|taken| - 1] == queue[..m] && taken[|taken| - 1] == queue[m];
  }

  lemma {:induction false} BatchLeft(queue: seq<Record>, m: nat)
    requires Begun(queue) && m < |queue| && Chain(queue, m)
    ensures Left(queue[..m + 1], queue[0].device) == PutsOf(Start(queue), Batch(queue, m))
    ensures SectorsLeft(queue[..m + 1]) == |Batch(queue, m)|
  {
    hide Left, SectorsLeft, PutsOf;
    TakeMore(queue, m, queue[0].device);
    if m == 0 {
      NothingTaken(queue, queue[0].device);
    } else {
      BatchLeft(queue, m - 1);
      PutsOfConcat(Start(queue), Batch(queue, m - 1), queue[m].data);
      assert queue[m].data[queue[m].written..] == queue[m].data;
    }
  }

  lemma NothingTaken(queue: seq<Record>, d: nat)
    requires Begun(queue)
    ensures Left(queue[..0], d) == [] && SectorsLeft(queue[..0]) == 0
    ensures forall log: Log :: Left(queue[..0], d) + log == log
  {
  }

  /** Laying the taken records over a medium that has the written part of the head is writing the batch. */
  lemma {:induction false} BatchOverlay(disk: seq<Sector>, queue: seq<Record>, m: nat)
    requires Begun(queue) && m < |queue| && Chain(queue, m) && AllFit(queue, queue[0].device, |disk|)
    requires disk[queue[0].lba..Start(queue)] == queue[0].data[..queue[0].written]
    ensures Start(queue) + |Batch(queue, m)| <= |disk|
    ensures Overlay(disk, queue[..m + 1], queue[0].device) == Splice(disk, Start(queue), Batch(queue, m))
  {
    hide Overlay, Splice;
    TakeMoreOverlay(disk, queue, m, queue[0].device);
    if m == 0 {
      NothingLaid(disk, queue, queue[0].device);
      HeadOverlay(disk, queue[0]);
    } else {
      assert queue[m].lba == Start(queue) + |Batch(queue, m - 1)| && queue[m].device == queue[0].device;
      BatchOverlay(disk, queue, m - 1);
      assert Batch(queue, m) == Batch(queue, m - 1) + queue[m].data;
      assert Apply(Overlay(disk, queue[..m], queue[0].device), queue[m], queue[0].device)
          == Splice(Overlay(disk, queue[..m], queue[0].device), queue[m].lba, queue[m].data);
      SpliceTwice(disk, Start(queue), Batch(queue, m - 1), queue[m].data);
    }
  }

  lemma NothingLaid(disk: seq<Sector>, queue: seq<Record>, d: nat)
    ensures AllFit(queue[..0], d, |disk|) && Overlay(disk, queue[..0], d) == disk
  {
  }

  lemma SpliceTwice(disk: seq<Sector>, lba: nat, a: seq<Sector>, b: seq<Sector>)
    requires lba + |a| + |b| <= |disk|
    ensures Splice(Splice(disk, lba, a), lba + |a|, b) == Splice(disk, lba, a + b)
  {
  }

  lemma HeadOverlay(disk: seq<Sector>, r: Record)
    requires r.written <= |r.data| && r.lba + |r.data| <= |disk|
    requires disk[r.lba..r.lba + r.written] == r.data[..r.written]
    ensures Splice(disk, r.lba, r.data) == Splice(disk, r.lba + r.written, r.data[r.written..])
  {
    forall i | r.lba <= i < r.lba + r.written
      ensures disk[i] == r.data[i - r.lba]
    {
      assert disk[r.lba..r.lba + r.written][i - r.lba] == r.data[..r.written][i - r.lba];
    }
  }

  /** The media agree outside [lba, lba + count). */
  predicate SameOutside(a: seq<Sector>, b: seq<Sector>, lba: nat, count: nat) {
    |a| == |b| && forall i :: 0 <= i < |a| && !(lba <= i < lba + count) ==> a[i] == b[i]
  }

  /** Whatever a failed command left in the batch's range, the queue covers it. */
  lemma TornOverlay(disk: seq<Sector>, torn: seq<Sector>, queue: seq<Record>, m: nat)
    requires Begun(queue) && m < |queue| && Chain(queue, m) && AllFit(queue, queue[0].device, |disk|)
    requires disk[queue[0].lba..Start(queue)] == queue[0].data[..queue[0].written]
    requires SameOutside(disk, torn, Start(queue), |Batch(queue, m)|)
    ensures torn[queue[0].lba..Start(queue)] == queue[0].data[..queue[0].written]
    ensures Overlay(torn, queue, queue[0].device) == Overlay(disk, queue, queue[0].device)
  {
    var d, taken, rest := queue[0].device, queue[..m + 1], queue[m + 1..];
    assert queue == taken + rest;
    assert Fits(queue[0], d, |disk|);
    SameSlice(disk, torn, queue[0].lba, Start(queue), |Batch(queue, m)|);
    BatchOverlay(disk, queue, m);
    BatchOverlay(torn, queue, m);
    OverlayConcat(disk, taken, rest, d);
    OverlayConcat(torn, taken, rest, d);
    assert Splice(disk, Start(queue), Batch(queue, m)) == Splice(torn, Start(queue), Batch(queue, m));
  }

  lemma SameSlice(a: seq<Sector>, b: seq<Sector>, from: nat, lba: nat, count: nat)
    requires SameOutside(a, b, lba, count) && from <= lba <= |a|
    ensures a[from..lba] == b[from..lba]
  {
  }
}
