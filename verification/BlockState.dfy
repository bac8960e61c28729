/** The block layer's whole state as a value, the invariant that ties the queue
    to the disks, and the elementary changes that keep it. */
module BlockState {
  import opened BlockLog
  import opened BlockQueue

  const MAX_DEVICES := 32
  const SECTOR_SIZE := 512
  const MAX_QUEUED_BYTES := 8 * 1024 * 1024

  /** A registered device; `medium` is what its read command returns. */
  datatype Device = Device(present: bool, sectors: nat, writable: bool, deferred: bool, hasFlush: bool,
                           unflushed: bool, failed: bool, medium: seq<Sector>)

  /** Beside what the kernel keeps: per device, the writes and flushes issued and accepted, the
      commands the device completed, and the synchronous disk a caller believes in. */
  datatype State = State(devices: seq<Device>, queue: seq<Record>, queuedBytes: int,
                         issued: seq<Log>, done: seq<Log>, disk: seq<seq<Sector>>)

  predicate Lengths(s: State) { |s.devices| == |s.issued| == |s.done| == |s.disk| == MAX_DEVICES }

  predicate MediaOk(devices: seq<Device>) {
    forall d :: 0 <= d < |devices| ==> |devices[d].medium| == devices[d].sectors < 0x1_0000_0000
  }

  predicate RecordOk(r: Record, devices: seq<Device>) {
    && r.device < |devices| && devices[r.device].present && devices[r.device].deferred
    && r.lba + |r.data| <= devices[r.device].sectors
    && r.written <= |r.data| && (r.data != [] ==> r.written < |r.data|)
  }

  /** Every record names a present deferring device and lies inside it; only the head is partly
      written, and what it has sent so far is on its device. */
  predicate QueueOk(queue: seq<Record>, devices: seq<Device>)
    requires MediaOk(devices)
  {
    && (forall i :: 0 <= i < |queue| ==> RecordOk(queue[i], devices))
    && (forall i :: 1 <= i < |queue| ==> queue[i].written == 0)
    && (queue != [] ==>
           devices[queue[0].device].medium[queue[0].lba..Start(queue)] == queue[0].data[..queue[0].written])
  }

  /** The byte counter counts the unwritten sectors; past the budget, everything behind the head is
      ordering points. */
  predicate BytesOk(queue: seq<Record>, queuedBytes: int)
    requires Begun(queue)
  {
    && queuedBytes == SECTOR_SIZE * SectorsLeft(queue)
    && (queuedBytes <= MAX_QUEUED_BYTES || forall i :: 1 <= i < |queue| ==> queue[i].data == [])
  }

  ghost predicate DiskOk(device: Device, issued: Log, done: Log, disk: seq<Sector>, queue: seq<Record>, d: nat)
    requires Begun(queue)
  {
    && (device.present && !device.deferred ==> disk == device.medium)
    && (device.present && device.deferred ==>
          && AllFit(queue, d, |device.medium|)
          && Ordered(issued, done, Left(queue, d))
          && (!device.unflushed ==> Clean(done))
          && disk == Overlay(device.medium, queue, d))
  }

  ghost predicate Disks(s: State)
    requires Lengths(s) && Begun(s.queue)
  {
    forall d :: 0 <= d < MAX_DEVICES ==> DiskOk(s.devices[d], s.issued[d], s.done[d], s.disk[d], s.queue, d)
  }

  ghost predicate Good(s: State) {
    && Lengths(s) && MediaOk(s.devices) && QueueOk(s.queue, s.devices) && Begun(s.queue)
    && BytesOk(s.queue, s.queuedBytes) && Disks(s)
  }

  /** The sizes of the synchronous disks. */
  lemma DiskSize(s: State, d: nat)
    requires Good(s) && d < MAX_DEVICES && s.devices[d].present
    ensures |s.disk[d]| == s.devices[d].sectors
  {
    assert DiskOk(s.devices[d], s.issued[d], s.done[d], s.disk[d], s.queue, d);
  }

  // ----- a write is queued

  function QueueWrite(s: State, d: nat, lba: nat, data: seq<Sector>): State
    requires Lengths(s) && d < MAX_DEVICES && lba + |data| <= |s.disk[d]|
  {
    s.(queue := s.queue + [Record(d, lba, data, 0)], queuedBytes := s.queuedBytes + SECTOR_SIZE * |data|,
       issued := s.issued[d := s.issued[d] + PutsOf(lba, data)], disk := s.disk[d := Splice(s.disk[d], lba, data)])
  }

  /** A record at the tail: what it leaves to send, and what it lays over a disk. */
  lemma Appended(queue: seq<Record>, r: Record, d: nat)
    requires Begun(queue) && r.written <= |r.data|
    ensures Left(queue + [r], d) == Left(queue, d) + RecordLeft(r, d)
    ensures SectorsLeft(queue + [r]) == SectorsLeft(queue) + |r.data| - r.written
  {
    assert (queue + [r])[..|queue + [r]| - 1] == queue;
  }

  lemma AppendedOverlay(disk: seq<Sector>, queue: seq<Record>, r: Record, d: nat)
    requires AllFit(queue, d, |disk|) && Fits(r, d, |disk|)
    ensures AllFit(queue + [r], d, |disk|) && Overlay(disk, queue + [r], d) == Apply(Overlay(disk, queue, d), r, d)
  {
    assert (queue + [r])[..|queue + [r]| - 1] == queue;
  }

  lemma QueuedDisk(device: Device, issued: Log, done: Log, disk: seq<Sector>, queue: seq<Record>, d: nat, r: Record)
    requires Begun(queue) && DiskOk(device, issued, done, disk, queue, d) && device.present && device.deferred
    requires r.device == d && r.written == 0 && r.data != [] && r.lba + |r.data| <= |device.medium|
    ensures DiskOk(device, issued + PutsOf(r.lba, r.data), done, Splice(disk, r.lba, r.data), queue + [r], d)
  {
    Appended(queue, r, d);
    AppendedOverlay(device.medium, queue, r, d);
    assert r.data[0..] == r.data;
    IssueWrite(issued, done, Left(queue, d), PutsOf(r.lba, r.data));
  }

  /** A record at the tail is nothing to the other devices. */
  lemma QueuedElsewhere(device: Device, issued: Log, done: Log, disk: seq<Sector>, queue: seq<Record>, d: nat,
                        r: Record)
    requires Begun(queue) && DiskOk(device, issued, done, disk, queue, d) && r.device != d && r.written <= |r.data|
    ensures DiskOk(device, issued, done, disk, queue + [r], d)
  {
    Appended(queue, r, d);
    assert Left(queue, d) + RecordLeft(r, d) == Left(queue, d);
    if device.present && device.deferred { AppendedOverlay(device.medium, queue, r, d); }
  }

  lemma AppendedQueue(queue: seq<Record>, queuedBytes: int, r: Record, devices: seq<Device>)
    requires MediaOk(devices) && QueueOk(queue, devices) && Begun(queue) && BytesOk(queue, queuedBytes)
    requires RecordOk(r, devices) && r.written == 0
    requires r.data == [] || queuedBytes + SECTOR_SIZE * |r.data| <= MAX_QUEUED_BYTES || queue == []
    ensures QueueOk(queue + [r], devices) && Begun(queue + [r])
    ensures BytesOk(queue + [r], queuedBytes + SECTOR_SIZE * |r.data|)
  {
    hide SectorsLeft, Left, RecordLeft;
    Appended(queue, r, r.device);
    assert forall i :: 0 <= i < |queue| ==> (queue + [r])[i] == queue[i];
  }

  lemma QueueWriteGood(s: State, d: nat, lba: nat, data: seq<Sector>)
    requires Good(s) && d < MAX_DEVICES && s.devices[d].present && s.devices[d].deferred
    requires data != [] && lba + |data| <= s.devices[d].sectors
    requires s.queuedBytes + SECTOR_SIZE * |data| <= MAX_QUEUED_BYTES || s.queue == []
    ensures |s.disk[d]| == s.devices[d].sectors && Good(QueueWrite(s, d, lba, data))
  {
    hide DiskOk, QueueOk, BytesOk, Splice;
    var r := Record(d, lba, data, 0);
    DiskSize(s, d);
    var s' := QueueWrite(s, d, lba, data);
    AppendedQueue(s.queue, s.queuedBytes, r, s.devices);
    forall k | 0 <= k < MAX_DEVICES
      ensures DiskOk(s'.devices[k], s'.issued[k], s'.done[k], s'.disk[k], s'.queue, k)
    {
      assert DiskOk(s.devices[k], s.issued[k], s.done[k], s.disk[k], s.queue, k);
      if k == d {
        QueuedDisk(s.devices[d], s.issued[d], s.done[d], s.disk[d], s.queue, d, r);
      } else {
        QueuedElsewhere(s.devices[k], s.issued[k], s.done[k], s.disk[k], s.queue, k, r);
      }
    }
  }

  // ----- a flush is issued

  function QueueBarrier(s: State, d: nat): State
    requires Lengths(s) && d < MAX_DEVICES
  {
    s.(queue := s.queue + [Record(d, 0, [], 0)], issued := s.issued[d := s.issued[d] + [Barrier]])
  }

  /** A flush that is accepted without queueing anything. */
  function ElideBarrier(s: State, d: nat): State
    requires Lengths(s) && d < MAX_DEVICES
  {
    s.(issued := s.issued[d := s.issued[d] + [Barrier]])
  }

  lemma BarrierDisk(device: Device, issued: Log, done: Log, disk: seq<Sector>, queue: seq<Record>, d: nat)
    requires Begun(queue) && DiskOk(device, issued, done, disk, queue, d) && device.present && device.deferred
    ensures DiskOk(device, issued + [Barrier], done, disk, queue + [Record(d, 0, [], 0)], d)
  {
    var r := Record(d, 0, [], 0);
    Appended(queue, r, d);
    AppendedOverlay(device.medium, queue, r, d);
    assert Splice(disk, 0, []) == disk;
    IssueBarrier(issued, done, Left(queue, d), [Barrier]);
  }

  lemma QueueBarrierGood(s: State, d: nat)
    requires Good(s) && d < MAX_DEVICES && s.devices[d].present && s.devices[d].deferred
    ensures Good(QueueBarrier(s, d))
  {
    hide DiskOk, QueueOk, BytesOk;
    var r, s' := Record(d, 0, [], 0), QueueBarrier(s, d);
    AppendedQueue(s.queue, s.queuedBytes, r, s.devices);
    forall k | 0 <= k < MAX_DEVICES
      ensures DiskOk(s'.devices[k], s'.issued[k], s'.done[k], s'.disk[k], s'.queue, k)
    {
      assert DiskOk(s.devices[k], s.issued[k], s.done[k], s.disk[k], s.queue, k);
      if k == d {
        BarrierDisk(s.devices[d], s.issued[d], s.done[d], s.disk[d], s.queue, d);
      } else {
        QueuedElsewhere(s.devices[k], s.issued[k], s.done[k], s.disk[k], s.queue, k, r);
      }
    }
  }

  /** When a flush changes nothing: the device is clean and has nothing queued, or its last record
      in the queue is already an ordering point at the very tail. */
  predicate Redundant(s: State, d: nat)
    requires Lengths(s) && d < MAX_DEVICES
  {
    || (!s.devices[d].unflushed && forall i :: 0 <= i < |s.queue| ==> s.queue[i].device != d)
    || (s.queue != [] && s.queue[|s.queue| - 1].device == d && s.queue[|s.queue| - 1].data == [])
  }

  /** Then a barrier already stands at the end of what was and will be sent. */
  lemma RedundantBarrier(s: State, d: nat)
    requires Good(s) && d < MAX_DEVICES && s.devices[d].present && s.devices[d].deferred && Redundant(s, d)
    ensures Clean(s.done[d] + Left(s.queue, d))
  {
    hide Left, Overlay, Clean, Ordered, BytesOk, QueueOk;
    assert DiskOk(s.devices[d], s.issued[d], s.done[d], s.disk[d], s.queue, d);
    if !s.devices[d].unflushed && forall i :: 0 <= i < |s.queue| ==> s.queue[i].device != d {
      LeftOfOthers(s.queue, d);
      assert s.done[d] + [] == s.done[d];
    } else {
      BarrierLast(s.done[d], s.queue, d);
    }
  }

  lemma BarrierLast(done: Log, queue: seq<Record>, d: nat)
    requires Begun(queue) && queue != [] && queue[|queue| - 1].device == d && queue[|queue| - 1].data == []
    ensures Clean(done + Left(queue, d))
  {
    LeftLast(queue, d);
    var before := Left(queue[..|queue| - 1], d);
    Associates(done, before, [Barrier]);
    FlushedIsClean(done + before);
  }

  lemma ElidedDisk(s: State, d: nat)
    requires Good(s) && d < MAX_DEVICES && s.devices[d].present && s.devices[d].deferred && Redundant(s, d)
    ensures DiskOk(s.devices[d], s.issued[d] + [Barrier], s.done[d], s.disk[d], s.queue, d)
  {
    hide Left, Overlay;
    RedundantBarrier(s, d);
    assert DiskOk(s.devices[d], s.issued[d], s.done[d], s.disk[d], s.queue, d);
    IssueBarrier(s.issued[d], s.done[d], Left(s.queue, d), []);
    assert Left(s.queue, d) + [] == Left(s.queue, d);
  }

  lemma ElideBarrierGood(s: State, d: nat)
    requires Good(s) && d < MAX_DEVICES && s.devices[d].present && s.devices[d].deferred && Redundant(s, d)
    ensures Good(ElideBarrier(s, d))
  {
    hide DiskOk, QueueOk, BytesOk, Redundant;
    ElidedDisk(s, d);
    var s' := ElideBarrier(s, d);
    forall k | 0 <= k < MAX_DEVICES
      ensures DiskOk(s'.devices[k], s'.issued[k], s'.done[k], s'.disk[k], s'.queue, k)
    {
      assert DiskOk(s.devices[k], s.issued[k], s.done[k], s.disk[k], s.queue, k);
    }
  }

  // ----- the head leaves the queue

  /** The first record of a queue. */
  lemma Headed(queue: seq<Record>, m: nat, d: nat)
    requires Begun(queue) && m <= |queue|
    ensures Begun(queue[..m]) && Begun(queue[m..]) && Left(queue, d) == Left(queue[..m], d) + Left(queue[m..], d)
    ensures SectorsLeft(queue) == SectorsLeft(queue[..m]) + SectorsLeft(queue[m..])
  {
    assert queue == queue[..m] + queue[m..];
    LeftConcat(queue[..m], queue[m..], d);
    SectorsConcat(queue[..m], queue[m..]);
  }

  lemma HeadedOverlay(disk: seq<Sector>, queue: seq<Record>, m: nat, d: nat)
    requires AllFit(queue, d, |disk|) && m <= |queue|
    ensures AllFit(queue[..m], d, |disk|) && AllFit(queue[m..], d, |disk|)
    ensures Overlay(disk, queue, d) == Overlay(Overlay(disk, queue[..m], d), queue[m..], d)
  {
    assert queue == queue[..m] + queue[m..];
    OverlayConcat(disk, queue[..m], queue[m..], d);
  }

  /** The same devices are registered, whatever happened to their media. */
  predicate SameDevices(devices: seq<Device>, devices': seq<Device>) {
    && |devices'| == |devices|
    && forall d :: 0 <= d < |devices| ==>
         devices'[d] == devices[d].(unflushed := devices'[d].unflushed, failed := devices'[d].failed,
                                    medium := devices'[d].medium)
  }

  /** The rest of a queue is in order if its first record is not begun. */
  lemma RestQueue(queue: seq<Record>, queuedBytes: int, m: nat, devices: seq<Device>, devices': seq<Device>)
    requires MediaOk(devices) && MediaOk(devices') && QueueOk(queue, devices) && Begun(queue)
    requires BytesOk(queue, queuedBytes)
    requires 0 < m <= |queue| && SameDevices(devices, devices')
    ensures QueueOk(queue[m..], devices') && Begun(queue[m..])
    ensures BytesOk(queue[m..], queuedBytes - SECTOR_SIZE * SectorsLeft(queue[..m]))
    ensures queuedBytes >= SECTOR_SIZE * SectorsLeft(queue[..m])
  {
    hide SectorsLeft, Left;
    Headed(queue, m, 0);
    var rest := queue[m..];
    assert forall i :: 0 <= i < |rest| ==> rest[i] == queue[m + i];
    if rest != [] {
      assert rest[0].written == 0;
      assert devices'[rest[0].device].medium[rest[0].lba..rest[0].lba] == [] == rest[0].data[..0];
    }
  }

  /** The ordering point at the head is honoured: by a device flush if the device took writes. */
  function PopBarrier(s: State): State
    requires Lengths(s) && s.queue != [] && s.queue[0].device < MAX_DEVICES
  {
    var d := s.queue[0].device;
    s.(queue := s.queue[1..], devices := s.devices[d := s.devices[d].(unflushed := false)],
       done := if s.devices[d].unflushed then s.done[d := s.done[d] + [Barrier]] else s.done)
  }

  /** An ordering point at the head: what is behind it, and it lays nothing over a disk. */
  lemma BarrierHead(queue: seq<Record>, d: nat)
    requires Begun(queue) && queue != [] && queue[0].data == []
    ensures Begun(queue[1..])
    ensures Left(queue, d) == if queue[0].device == d then [Barrier] + Left(queue[1..], d) else Left(queue[1..], d)
  {
    hide Left, SectorsLeft;
    SplitHead(queue, d);
    assert [] + Left(queue[1..], d) == Left(queue[1..], d);
  }

  lemma BarrierHeadOverlay(disk: seq<Sector>, queue: seq<Record>, d: nat)
    requires AllFit(queue, d, |disk|) && queue != [] && queue[0].data == []
    ensures AllFit(queue[1..], d, |disk|) && Overlay(disk, queue[1..], d) == Overlay(disk, queue, d)
  {
    hide Overlay;
    HeadedOverlay(disk, queue, 1, d);
    TakeMoreOverlay(disk, queue, 0, d);
    NothingLaid(disk, queue, d);
    assert Apply(disk, queue[0], d) == disk;
  }

  lemma PoppedDisk(device: Device, issued: Log, done: Log, disk: seq<Sector>, queue: seq<Record>, d: nat)
    requires Begun(queue) && queue != [] && queue[0].data == [] && DiskOk(device, issued, done, disk, queue, d)
    ensures Begun(queue[1..])
    ensures queue[0].device != d ==> DiskOk(device, issued, done, disk, queue[1..], d)
    ensures queue[0].device == d ==>
              DiskOk(device.(unflushed := false), issued, if device.unflushed then done + [Barrier]
                  else done, disk, queue[1..], d)
  {
    hide Left, Overlay, Ordered, Clean;
    BarrierHead(queue, d);
    if device.present && device.deferred {
      BarrierHeadOverlay(device.medium, queue, d);
      if queue[0].device == d {
        if device.unflushed {
          SendNext(issued, done, [Barrier], Left(queue[1..], d));
          FlushedIsClean(done);
        } else {
          SkipBarrier(issued, done, Left(queue[1..], d));
        }
      }
    }
  }

  lemma PopBarrierGood(s: State)
    requires Good(s) && s.queue != [] && s.queue[0].data == []
    ensures Good(PopBarrier(s))
  {
    hide DiskOk, Left, SectorsLeft;
    var s' := PopBarrier(s);
    RestQueue(s.queue, s.queuedBytes, 1, s.devices, s'.devices);
    OneRecord(s.queue);
    forall k | 0 <= k < MAX_DEVICES
      ensures DiskOk(s'.devices[k], s'.issued[k], s'.done[k], s'.disk[k], s'.queue, k)
    {
      assert DiskOk(s.devices[k], s.issued[k], s.done[k], s.disk[k], s.queue, k);
      PoppedDisk(s.devices[k], s.issued[k], s.done[k], s.disk[k], s.queue, k);
    }
  }

  lemma OneRecord(queue: seq<Record>)
    requires Begun(queue) && queue != []
    ensures SectorsLeft(queue[..1]) == |queue[0].data| - queue[0].written
  {
    TakeMore(queue, 0, 0);
  }

  // ----- a device write

  function WithMedium(s: State, d: nat, medium: seq<Sector>, unflushed: bool): seq<Device>
    requires Lengths(s) && d < MAX_DEVICES
  {
    s.devices[d := s.devices[d].(medium := medium, unflushed := unflushed)]
  }

  /** The head record and the `m` behind it reached the device in one command. */
  function WriteBatch(s: State, m: nat): State
    requires Lengths(s) && m < |s.queue| && s.queue[0].device < MAX_DEVICES && s.queue[0].written <= |s.queue[0].data|
    requires Start(s.queue) + |Batch(s.queue, m)| <= |s.devices[s.queue[0].device].medium|
  {
    var d, lba, batch := s.queue[0].device, Start(s.queue), Batch(s.queue, m);
    s.(queue := s.queue[m + 1..], queuedBytes := s.queuedBytes - SECTOR_SIZE * |batch|,
       devices := WithMedium(s, d, Splice(s.devices[d].medium, lba, batch), true),
       done := s.done[d := s.done[d] + PutsOf(lba, batch)])
  }

  /** The first `m` records are all one device's, and another one is not concerned. */
  lemma TakenElsewhere(device: Device, issued: Log, done: Log, disk: seq<Sector>, queue: seq<Record>, m: nat, k: nat)
    requires Begun(queue) && m <= |queue| && (forall i :: 0 <= i < m ==> queue[i].device != k)
    requires DiskOk(device, issued, done, disk, queue, k)
    ensures Begun(queue[m..]) && DiskOk(device, issued, done, disk, queue[m..], k)
  {
    Headed(queue, m, k);
    LeftOfOthers(queue[..m], k);
    assert [] + Left(queue[m..], k) == Left(queue[m..], k);
    if device.present && device.deferred {
      HeadedOverlay(device.medium, queue, m, k);
      OverlayOfOthers(device.medium, queue[..m], k);
    }
  }

  lemma BatchFits(s: State, m: nat)
    requires Good(s) && m < |s.queue| && Chain(s.queue, m)
    ensures s.queue[0].device < MAX_DEVICES
    ensures Start(s.queue) + |Batch(s.queue, m)| <= |s.devices[s.queue[0].device].medium|
  {
    var d := s.queue[0].device;
    assert DiskOk(s.devices[d], s.issued[d], s.done[d], s.disk[d], s.queue, d);
    BatchOverlay(s.devices[d].medium, s.queue, m);
  }

  lemma WrittenDisk(device: Device, issued: Log, done: Log, disk: seq<Sector>, queue: seq<Record>, m: nat, d: nat)
    requires Begun(queue) && m < |queue| && Chain(queue, m) && d == queue[0].device && device.present && device.deferred
    requires DiskOk(device, issued, done, disk, queue, d)
    requires Start(queue) + |Batch(queue, m)| <= |device.medium|
    requires device.medium[queue[0].lba..Start(queue)] == queue[0].data[..queue[0].written]
    ensures Begun(queue[m + 1..])
    ensures DiskOk(device.(medium := Splice(device.medium, Start(queue), Batch(queue, m)), unflushed := true),
                   issued, done + PutsOf(Start(queue), Batch(queue, m)), disk, queue[m + 1..], d)
  {
    hide Chain, Batch, Splice, Left, Overlay, Ordered, PutsOf, SectorsLeft;
    Headed(queue, m + 1, d);
    BatchLeft(queue, m);
    SendNext(issued, done, PutsOf(Start(queue), Batch(queue, m)), Left(queue[m + 1..], d));
    BatchOverlay(device.medium, queue, m);
    HeadedOverlay(device.medium, queue, m + 1, d);
  }

  lemma WriteBatchGood(s: State, m: nat)
    requires Good(s) && m < |s.queue| && Chain(s.queue, m)
    ensures Start(s.queue) + |Batch(s.queue, m)| <= |s.devices[s.queue[0].device].medium| && Good(WriteBatch(s, m))
  {
    hide DiskOk, Chain, Batch, Left, SectorsLeft, BytesOk;
    BatchFits(s, m);
    var s', d := WriteBatch(s, m), s.queue[0].device;
    RestQueue(s.queue, s.queuedBytes, m + 1, s.devices, s'.devices);
    BatchLeft(s.queue, m);
    ChainDevice(s.queue, m);
    forall k | 0 <= k < MAX_DEVICES
      ensures DiskOk(s'.devices[k], s'.issued[k], s'.done[k], s'.disk[k], s'.queue, k)
    {
      assert DiskOk(s.devices[k], s.issued[k], s.done[k], s.disk[k], s.queue, k);
      if k == d {
        WrittenDisk(s.devices[d], s.issued[d], s.done[d], s.disk[d], s.queue, m, d);
      } else {
        TakenElsewhere(s.devices[k], s.issued[k], s.done[k], s.disk[k], s.queue, m + 1, k);
      }
    }
  }

  /** The next `count` sectors of a long head record reached the device; the record stays. */
  function WritePart(s: State, count: nat): State
    requires Lengths(s) && s.queue != [] && s.queue[0].device < MAX_DEVICES
    requires s.queue[0].written + count < |s.queue[0].data|
    requires s.queue[0].lba + |s.queue[0].data| <= |s.devices[s.queue[0].device].medium|
  {
    var r := s.queue[0];
    var part := r.data[r.written..r.written + count];
    s.(queue := s.queue[0 := r.(written := r.written + count)], queuedBytes := s.queuedBytes - SECTOR_SIZE * count,
       devices := WithMedium(s, r.device, Splice(s.devices[r.device].medium, Start(s.queue), part), true),
       done := s.done[r.device := s.done[r.device] + PutsOf(Start(s.queue), part)])
  }

  /** How far the head is written is nothing to the overlay. */
  lemma WrittenIgnored(disk: seq<Sector>, queue: seq<Record>, written: nat, d: nat)
    requires queue != [] && AllFit(queue, d, |disk|)
    ensures var queue' := queue[0 := queue[0].(written := written)];
            AllFit(queue', d, |disk|) && Overlay(disk, queue', d) == Overlay(disk, queue, d)
  {
    var queue' := queue[0 := queue[0].(written := written)];
    assert queue'[1..] == queue[1..] && AllFit(queue', d, |disk|);
    HeadedOverlay(disk, queue, 1, d);
    HeadedOverlay(disk, queue', 1, d);
    TakeMoreOverlay(disk, queue, 0, d);
    TakeMoreOverlay(disk, queue', 0, d);
    NothingLaid(disk, queue, d);
    NothingLaid(disk, queue', d);
  }

  /** What a partly written head has left, before and after `count` sectors more. */
  lemma PartLeft(queue: seq<Record>, count: nat, d: nat)
    requires Begun(queue) && queue != [] && queue[0].written + count < |queue[0].data|
    ensures var r := queue[0];
            var queue' := queue[0 := r.(written := r.written + count)];
            && Begun(queue') && SectorsLeft(queue) == count + SectorsLeft(queue')
            && Left(queue, d) == (if r.device == d then PutsOf(Start(queue), r.data[r.written..r.written + count])
                   else []) + Left(queue', d)
  {
    hide Left, SectorsLeft, RecordLeft;
    var r := queue[0];
    var r' := r.(written := r.written + count);
    var queue' := queue[0 := r'];
    assert queue'[1..] == queue[1..] && queue'[0] == r';
    SplitHead(queue, d);
    SplitHead(queue', d);
    RecordPart(r, count, d);
    Associates(if r.device == d then PutsOf(Start(queue), r.data[r.written..r.written + count]) else [],
               RecordLeft(r', d), Left(queue[1..], d));
  }

  lemma SplitHead(queue: seq<Record>, d: nat)
    requires Begun(queue) && queue != []
    ensures Begun(queue[1..]) && Left(queue, d) == RecordLeft(queue[0], d) + Left(queue[1..], d)
    ensures SectorsLeft(queue) == |queue[0].data| - queue[0].written + SectorsLeft(queue[1..])
  {
    hide Left, SectorsLeft, RecordLeft;
    Headed(queue, 1, d);
    TakeMore(queue, 0, d);
    NothingTaken(queue, d);
  }

  lemma RecordPart(r: Record, count: nat, d: nat)
    requires r.written + count < |r.data|
    ensures RecordLeft(r, d) == (if r.device == d then PutsOf(r.lba + r.written, r.data[r.written..r.written + count])
                else [])
                                + RecordLeft(r.(written := r.written + count), d)
  {
    hide PutsOf;
    var part, rest := r.data[r.written..r.written + count], r.data[r.written + count..];
    assert r.data[r.written..] == part + rest;
    PutsOfConcat(r.lba + r.written, part, rest);
  }

  lemma PartDisk(device: Device, issued: Log, done: Log, disk: seq<Sector>, queue: seq<Record>, count: nat, d: nat)
    requires Begun(queue) && queue != [] && d == queue[0].device && device.present && device.deferred
    requires DiskOk(device, issued, done, disk, queue, d)
    requires queue[0].written + count < |queue[0].data| && queue[0].lba + |queue[0].data| <= |device.medium|
    requires device.medium[queue[0].lba..Start(queue)] == queue[0].data[..queue[0].written]
    ensures var r := queue[0];
            var part := r.data[r.written..r.written + count];
            var queue' := queue[0 := r.(written := r.written + count)];
            && Begun(queue')
            && DiskOk(device.(medium := Splice(device.medium, Start(queue), part), unflushed := true),
                      issued, done + PutsOf(Start(queue), part), disk, queue', d)
  {
    hide Left, Overlay, Ordered, PutsOf, SectorsLeft;
    var r := queue[0];
    var part := r.data[r.written..r.written + count];
    var torn := Splice(device.medium, Start(queue), part);
    PartLeft(queue, count, d);
    SendNext(issued, done, PutsOf(Start(queue), part), Left(queue[0 := r.(written := r.written + count)], d));
    TornOverlay(device.medium, torn, queue, 0);
    WrittenIgnored(torn, queue, r.written + count, d);
  }

  lemma PartQueue(s: State, count: nat)
    requires Good(s) && s.queue != [] && 0 < count && s.queue[0].written + count < |s.queue[0].data|
    ensures s.queue[0].device < MAX_DEVICES
    ensures s.queue[0].lba + |s.queue[0].data| <= |s.devices[s.queue[0].device].medium|
    ensures var s' := WritePart(s, count);
            && MediaOk(s'.devices) && QueueOk(s'.queue, s'.devices) && Begun(s'.queue)
            && BytesOk(s'.queue, s'.queuedBytes)
  {
    hide Left, SectorsLeft, Splice, Overlay, Ordered;
    var s', r := WritePart(s, count), s.queue[0];
    PartLeft(s.queue, count, 0);
    PartOnMedium(s.devices[r.device].medium, r, count);
  }

  /** The written part of a record, extended by the part just written. */
  lemma PartOnMedium(medium: seq<Sector>, r: Record, count: nat)
    requires r.written + count <= |r.data| && r.lba + |r.data| <= |medium|
    requires medium[r.lba..r.lba + r.written] == r.data[..r.written]
    ensures Splice(medium, r.lba + r.written, r.data[r.written..r.written + count])[r.lba..r.lba + (r.written + count)]
            == r.data[..r.written + count]
  {
    var medium' := Splice(medium, r.lba + r.written, r.data[r.written..r.written + count]);
    forall i | 0 <= i < r.written + count
      ensures medium'[r.lba + i] == r.data[i]
    {
      if i < r.written {
        assert medium[r.lba..r.lba + r.written][i] == r.data[..r.written][i];
      }
    }
  }

  lemma WritePartGood(s: State, count: nat)
    requires Good(s) && s.queue != [] && 0 < count && s.queue[0].written + count < |s.queue[0].data|
    ensures s.queue[0].device < MAX_DEVICES
    ensures s.queue[0].lba + |s.queue[0].data| <= |s.devices[s.queue[0].device].medium|
    ensures Good(WritePart(s, count))
  {
    hide DiskOk, BytesOk, Left, SectorsLeft, Overlay, Splice;
    PartQueue(s, count);
    var s', d := WritePart(s, count), s.queue[0].device;
    forall k | 0 <= k < MAX_DEVICES
      ensures DiskOk(s'.devices[k], s'.issued[k], s'.done[k], s'.disk[k], s'.queue, k)
    {
      assert DiskOk(s.devices[k], s.issued[k], s.done[k], s.disk[k], s.queue, k);
      if k == d {
        PartDisk(s.devices[d], s.issued[d], s.done[d], s.disk[d], s.queue, count, d);
      } else {
        PartElsewhere(s.devices[k], s.issued[k], s.done[k], s.disk[k], s.queue, count, k);
      }
    }
  }

  lemma PartElsewhere(device: Device, issued: Log, done: Log, disk: seq<Sector>, queue: seq<Record>, count: nat, k: nat)
    requires Begun(queue) && queue != [] && queue[0].device != k && queue[0].written + count < |queue[0].data|
    requires DiskOk(device, issued, done, disk, queue, k)
    ensures var queue' := queue[0 := queue[0].(written := queue[0].written + count)];
            Begun(queue') && DiskOk(device, issued, done, disk, queue', k)
  {
    hide Left, Overlay, Ordered, SectorsLeft;
    PartLeft(queue, count, k);
    var queue' := queue[0 := queue[0].(written := queue[0].written + count)];
    assert [] + Left(queue', k) == Left(queue', k);
    if device.present && device.deferred {
      WrittenIgnored(device.medium, queue, queue[0].written + count, k);
    }
  }

  // ----- commands that fail

  /** The device refused the batch and may have left anything in its range; it is marked failed. */
  function Torn(s: State, medium: seq<Sector>): State
    requires Lengths(s) && s.queue != [] && s.queue[0].device < MAX_DEVICES
  {
    var d := s.queue[0].device;
    s.(devices := s.devices[d := s.devices[d].(medium := medium, failed := true)])
  }

  lemma TornGood(s: State, medium: seq<Sector>, m: nat, count: nat)
    requires Good(s) && m < |s.queue| && Chain(s.queue, m) && count <= |Batch(s.queue, m)|
    requires s.queue[0].device < MAX_DEVICES
    requires SameOutside(s.devices[s.queue[0].device].medium, medium, Start(s.queue), count)
    ensures Good(Torn(s, medium))
  {
    hide Left, SectorsLeft, Overlay, Ordered, BytesOk, Chain, Batch;
    var s', d := Torn(s, medium), s.queue[0].device;
    assert DiskOk(s.devices[d], s.issued[d], s.done[d], s.disk[d], s.queue, d);
    TornOverlay(s.devices[d].medium, medium, s.queue, m);
    forall k | 0 <= k < MAX_DEVICES
      ensures DiskOk(s'.devices[k], s'.issued[k], s'.done[k], s'.disk[k], s'.queue, k)
    {
      assert DiskOk(s.devices[k], s.issued[k], s.done[k], s.disk[k], s.queue, k);
    }
  }

  /** A device flush failed. */
  function Failed(s: State, d: nat): State
    requires Lengths(s) && d < MAX_DEVICES
  {
    s.(devices := s.devices[d := s.devices[d].(failed := true)])
  }

  lemma FailedGood(s: State, d: nat)
    requires Good(s) && d < MAX_DEVICES
    ensures Good(Failed(s, d))
  {
    hide Left, SectorsLeft, Overlay, Ordered, BytesOk;
    var s' := Failed(s, d);
    forall k | 0 <= k < MAX_DEVICES
      ensures DiskOk(s'.devices[k], s'.issued[k], s'.done[k], s'.disk[k], s'.queue, k)
    {
      assert DiskOk(s.devices[k], s.issued[k], s.done[k], s.disk[k], s.queue, k);
    }
  }

  // ----- outside the queue

  /** A device flush that no ordering point asked for. */
  function Flushed(s: State, d: nat): State
    requires Lengths(s) && d < MAX_DEVICES
  {
    s.(devices := s.devices[d := s.devices[d].(unflushed := false)], done := s.done[d := s.done[d] + [Barrier]])
  }

  lemma FlushedGood(s: State, d: nat)
    requires Good(s) && d < MAX_DEVICES
    ensures Good(Flushed(s, d))
  {
    hide Left, SectorsLeft, Overlay, Ordered, BytesOk, Clean;
    var s' := Flushed(s, d);
    forall k | 0 <= k < MAX_DEVICES
      ensures DiskOk(s'.devices[k], s'.issued[k], s'.done[k], s'.disk[k], s'.queue, k)
    {
      assert DiskOk(s.devices[k], s.issued[k], s.done[k], s.disk[k], s.queue, k);
      if k == d && s.devices[d].present && s.devices[d].deferred {
        ExtraBarrier(s.issued[d], s.done[d], Left(s.queue, d));
        FlushedIsClean(s.done[d]);
      }
    }
  }

  /** A write that goes straight to its device, nothing of that device being queued. A deferring
      device's write is issued and sent at once. */
  function WriteThrough(s: State, d: nat, lba: nat, data: seq<Sector>): State
    requires Lengths(s) && d < MAX_DEVICES && lba + |data| <= |s.devices[d].medium| && lba + |data| <= |s.disk[d]|
  {
    var puts := if s.devices[d].deferred then PutsOf(lba, data) else [];
    s.(devices := WithMedium(s, d, Splice(s.devices[d].medium, lba, data),
                             s.devices[d].unflushed || s.devices[d].deferred),
       issued := s.issued[d := s.issued[d] + puts], done := s.done[d := s.done[d] + puts],
       disk := s.disk[d := Splice(s.disk[d], lba, data)])
  }

  /** The same, failing: anything may be left in the range, and the caller is told so. */
  function TornThrough(s: State, d: nat, medium: seq<Sector>): State
    requires Lengths(s) && d < MAX_DEVICES
  {
    s.(devices := WithMedium(s, d, medium, s.devices[d].unflushed), disk := s.disk[d := medium])
  }

  lemma ThroughDisk(device: Device, issued: Log, done: Log, disk: seq<Sector>, d: nat, lba: nat, data: seq<Sector>)
    requires DiskOk(device, issued, done, disk, [], d) && device.present && lba + |data| <= |device.medium| == |disk|
    ensures var puts := if device.deferred then PutsOf(lba, data) else [];
            DiskOk(device.(medium := Splice(device.medium, lba, data),
                           unflushed := device.unflushed || device.deferred),
                   issued + puts, done + puts, Splice(disk, lba, data), [], d)
  {
    if device.deferred {
      var puts := PutsOf(lba, data);
      IssueWrite(issued, done, [], puts);
      assert [] + puts == puts + [];
      SendNext(issued + puts, done, puts, []);
    }
  }

  lemma WriteThroughGood(s: State, d: nat, lba: nat, data: seq<Sector>)
    requires Good(s) && s.queue == [] && d < MAX_DEVICES && s.devices[d].present && lba + |data| <= s.devices[d].sectors
    ensures |s.disk[d]| == s.devices[d].sectors && Good(WriteThrough(s, d, lba, data))
  {
    hide DiskOk, Left, SectorsLeft, Overlay;
    DiskSize(s, d);
    var s' := WriteThrough(s, d, lba, data);
    forall k | 0 <= k < MAX_DEVICES
      ensures DiskOk(s'.devices[k], s'.issued[k], s'.done[k], s'.disk[k], s'.queue, k)
    {
      assert DiskOk(s.devices[k], s.issued[k], s.done[k], s.disk[k], s.queue, k);
      if k == d { ThroughDisk(s.devices[d], s.issued[d], s.done[d], s.disk[d], d, lba, data); }
    }
  }

  /** A device that does not defer is written through whatever the queue holds for others. */
  lemma WriteDirectGood(s: State, d: nat, lba: nat, data: seq<Sector>)
    requires Good(s) && d < MAX_DEVICES && s.devices[d].present && !s.devices[d].deferred
    requires lba + |data| <= s.devices[d].sectors
    ensures |s.disk[d]| == s.devices[d].sectors && Good(WriteThrough(s, d, lba, data))
  {
    hide Left, SectorsLeft, Overlay, Ordered;
    DiskSize(s, d);
    var s' := WriteThrough(s, d, lba, data);
    assert DiskOk(s.devices[d], s.issued[d], s.done[d], s.disk[d], s.queue, d);
    forall k | 0 <= k < MAX_DEVICES
      ensures DiskOk(s'.devices[k], s'.issued[k], s'.done[k], s'.disk[k], s'.queue, k)
    {
      assert DiskOk(s.devices[k], s.issued[k], s.done[k], s.disk[k], s.queue, k);
    }
  }

  lemma TornThroughGood(s: State, d: nat, medium: seq<Sector>)
    requires Good(s) && d < MAX_DEVICES && s.devices[d].present && |medium| == s.devices[d].sectors
    requires s.queue == [] || !s.devices[d].deferred
    ensures Good(TornThrough(s, d, medium))
  {
    hide Left, SectorsLeft, Ordered;
    var s' := TornThrough(s, d, medium);
    forall k | 0 <= k < MAX_DEVICES
      ensures DiskOk(s'.devices[k], s'.issued[k], s'.done[k], s'.disk[k], s'.queue, k)
    {
      assert DiskOk(s.devices[k], s.issued[k], s.done[k], s.disk[k], s.queue, k);
    }
  }

  // ----- devices come and go

  const ABSENT := Device(false, 0, false, false, false, false, false, [])

  /** Slot `d` holds another device, or none; nothing queued is for it. */
  function Replaced(s: State, d: nat, device: Device): State
    requires Lengths(s) && d < MAX_DEVICES
  {
    s.(devices := s.devices[d := device], issued := s.issued[d := []], done := s.done[d := []],
       disk := s.disk[d := device.medium])
  }

  lemma ReplacedGood(s: State, d: nat, device: Device)
    requires Good(s) && d < MAX_DEVICES && forall i :: 0 <= i < |s.queue| ==> s.queue[i].device != d
    requires |device.medium| == device.sectors < 0x1_0000_0000 && !device.unflushed
    ensures Good(Replaced(s, d, device))
  {
    hide Left, SectorsLeft, Overlay;
    var s' := Replaced(s, d, device);
    LeftOfOthers(s.queue, d);
    OverlayOfOthers(device.medium, s.queue, d);
    forall k | 0 <= k < MAX_DEVICES
      ensures DiskOk(s'.devices[k], s'.issued[k], s'.done[k], s'.disk[k], s'.queue, k)
    {
      assert DiskOk(s.devices[k], s.issued[k], s.done[k], s.disk[k], s.queue, k);
    }
  }

  // ----- what follows from the invariant

  /** Whatever the device is asked to write next, even if it fails half way: every write issued
      before a flush that precedes any of those sectors is already on the medium. */
  lemma CommandOrdered(s: State, d: nat, lba: nat, data: seq<Sector>, n: nat)
    requires Good(s) && d < MAX_DEVICES && s.devices[d].present && s.devices[d].deferred
    requires PutsOf(lba, data) <= Left(s.queue, d)
    requires 0 < n < Count(s.done[d]) + |data| && BarrierAt(s.issued[d], n)
    ensures Secured(s.issued[d], s.done[d], n)
  {
    hide Left, Overlay;
    assert DiskOk(s.devices[d], s.issued[d], s.done[d], s.disk[d], s.queue, d);
    assert Left(s.queue, d)[..|data|] == PutsOf(lba, data);
    BatchOrdered(s.issued[d], s.done[d], Left(s.queue, d), |data|, n);
  }

  /** At any moment, after any number of completed commands. */
  lemma PowerCutOrdered(s: State, d: nat, k: nat, n: nat)
    requires Good(s) && d < MAX_DEVICES && s.devices[d].present && s.devices[d].deferred && k <= |s.done[d]|
    requires 0 < n < Count(s.done[d][..k]) && BarrierAt(s.issued[d], n)
    ensures Secured(s.issued[d], s.done[d][..k], n)
  {
    hide Left, Overlay;
    assert DiskOk(s.devices[d], s.issued[d], s.done[d], s.disk[d], s.queue, d);
    CrashOrdered(s.issued[d], s.done[d], Left(s.queue, d), k, n);
  }

  /** A write that goes straight to a flushed device, the queue being empty, finds everything issued
      before it on the medium. */
  lemma ThroughOrdered(s: State, d: nat, n: nat)
    requires Good(s) && s.queue == [] && d < MAX_DEVICES && s.devices[d].present && s.devices[d].deferred
    requires !s.devices[d].unflushed
    requires 0 < n && BarrierAt(s.issued[d], n)
    ensures Secured(s.issued[d], s.done[d], n)
  {
    assert DiskOk(s.devices[d], s.issued[d], s.done[d], s.disk[d], s.queue, d);
    var done := s.done[d];
    assert done + [] == done && done[..|done|] == done;
    var b :| 0 <= b < |done| && done[b].Barrier? && Count(done[..b]) == n;
    SecuredBy(s.issued[d], done, [], b, n, |done|);
  }

  /** An empty queue and a flushed device mean everything issued is on the medium. */
  lemma DrainedIsDurable(s: State, d: nat)
    requires Good(s) && s.queue == [] && d < MAX_DEVICES && s.devices[d].present && s.devices[d].deferred
    requires !s.devices[d].unflushed
    ensures Durable(s.issued[d], s.done[d]) && s.disk[d] == s.devices[d].medium
  {
    assert DiskOk(s.devices[d], s.issued[d], s.done[d], s.disk[d], s.queue, d);
    assert s.done[d] + [] == s.done[d];
  }

  /** The queue holds at most the budget, or one oversized head record. */
  lemma QueueBounded(s: State)
    requires Good(s)
    ensures s.queuedBytes <= MAX_QUEUED_BYTES || (s.queue != [] && s.queuedBytes <= SECTOR_SIZE * |s.queue[0].data|)
  {
    assert s.queue == [] ==> SectorsLeft(s.queue) == 0;
    hide Left, SectorsLeft, Disks, QueueOk, MediaOk;
    if s.queue != [] && s.queuedBytes > MAX_QUEUED_BYTES {
      HeadOnly(s.queue);
    }
  }

  lemma HeadOnly(queue: seq<Record>)
    requires Begun(queue) && queue != [] && forall i :: 1 <= i < |queue| ==> queue[i].data == []
    ensures SectorsLeft(queue) <= |queue[0].data|
  {
    hide SectorsLeft;
    SplitHead(queue, 0);
    var rest := queue[1..];
    assert forall i :: 0 <= i < |rest| ==> rest[i] == queue[i + 1];
    OnlyBarriers(rest);
  }

  lemma {:induction false} OnlyBarriers(queue: seq<Record>)
    requires Begun(queue) && forall i :: 0 <= i < |queue| ==> queue[i].data == []
    ensures SectorsLeft(queue) == 0
  {
    if queue != [] { OnlyBarriers(queue[..|queue| - 1]); }
  }

  /** The batch about to be sent is what comes next in its device's order. */
  lemma CommandIsNext(s: State, m: nat, count: nat, batch: seq<Sector>)
    requires Good(s) && m < |s.queue| && Chain(s.queue, m)
    requires if count < |s.queue[0].data| - s.queue[0].written
             then batch == s.queue[0].data[s.queue[0].written..s.queue[0].written + count]
             else batch == Batch(s.queue, m)
    ensures s.queue[0].device < MAX_DEVICES && s.devices[s.queue[0].device].present
    ensures s.devices[s.queue[0].device].deferred
    ensures Start(s.queue) + |batch| <= s.devices[s.queue[0].device].sectors == |s.devices[s.queue[0].device].medium|
    ensures PutsOf(Start(s.queue), batch) <= Left(s.queue, s.queue[0].device)
  {
    hide Left, SectorsLeft, Batch, PutsOf, DiskOk, BytesOk;
    var d := s.queue[0].device;
    assert RecordOk(s.queue[0], s.devices);
    if count < |s.queue[0].data| - s.queue[0].written {
      PartLeft(s.queue, count, d);
    } else {
      BatchFits(s, m);
      BatchLeft(s.queue, m);
      Headed(s.queue, m + 1, d);
    }
  }

  /** Background work: nothing a caller can see changes, and the devices only take more commands. */
  predicate Progressed(s: State, s': State) {
    && Lengths(s) && Lengths(s') && s'.issued == s.issued && s'.disk == s.disk && SameDevices(s.devices, s'.devices)
    && forall d :: 0 <= d < MAX_DEVICES ==> s.done[d] <= s'.done[d]
  }

  lemma ProgressedTwice(a: State, b: State, c: State)
    requires Progressed(a, b) && Progressed(b, c)
    ensures Progressed(a, c)
  {
  }
}
