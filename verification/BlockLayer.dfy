/** The block layer itself: the queue, the byte counter and the device table,
    changed in place. What a driver answers to its n-th command and whether the
    n-th allocation succeeds are parameters. */
module BlockLayer {
  import opened BlockLog
  import opened BlockQueue
  import opened BlockState

  /** A driver's answer; a failed write may leave anything in its range. */
  datatype Reply = Success | Failure(garbage: nat -> Sector)

  /** How much there is still to do: sectors, then records. */
  ghost function Backlog(queue: seq<Record>): nat
    requires Begun(queue)
  {
    SectorsLeft(queue) + |queue|
  }

  predicate QueueHas(queue: seq<Record>, d: nat) {
    exists i :: 0 <= i < |queue| && queue[i].device == d
  }

  /** A log with more at the end of the log of device `d`. */
  function Logged(logs: map<nat, Log>, d: nat, more: Log): map<nat, Log> {
    logs[d := (if d in logs then logs[d] else []) + more]
  }

  class Layer {
    var devices: seq<Device>
    var queue: seq<Record>
    var queuedBytes: nat
    const driver: nat -> Reply
    const heap: nat -> bool
    var commands: nat
    var allocations: nat
    ghost var issued: seq<Log>
    ghost var done: seq<Log>
    ghost var disk: seq<seq<Sector>>
    /** What devices that do not defer have completed: writes and flushes. */
    ghost var direct: map<nat, Log>

    ghost function Value(): State
      reads this
    {
      State(devices, queue, queuedBytes, issued, done, disk)
    }

    constructor (driver: nat -> Reply, heap: nat -> bool)
      ensures Good(Value()) && queue == [] && forall d :: 0 <= d < MAX_DEVICES ==> !devices[d].present
    {
      this.driver, this.heap, commands, allocations := driver, heap, 0, 0;
      devices := seq(MAX_DEVICES, _ => ABSENT);
      queue, queuedBytes, direct := [], 0, map[];
      issued, done, disk := seq(MAX_DEVICES, _ => []), seq(MAX_DEVICES, _ => []), seq(MAX_DEVICES, _ => []);
    }

    /** The driver's write command. A deferring device is only ever given what comes next in its
        order, or a write with nothing before it left to send or to flush. */
    method DriverWrite(d: nat, lba: nat, data: seq<Sector>) returns (ok: bool)
      requires Good(Value()) && d < MAX_DEVICES && devices[d].present && lba + |data| <= devices[d].sectors
      requires devices[d].deferred ==> PutsOf(lba, data) <= Left(queue, d) || (queue == [] && Clean(done[d]))
      modifies this`devices, this`commands
      ensures |devices| == MAX_DEVICES
      ensures devices == old(devices)[d := old(devices)[d].(medium := devices[d].medium)]
      ensures ok ==> devices[d].medium == Splice(old(devices)[d].medium, lba, data)
      ensures SameOutside(old(devices)[d].medium, devices[d].medium, lba, |data|)
    {
      hide DiskOk, QueueOk, BytesOk, PutsOf, Left;
      var device, reply := devices[d], driver(commands);
      commands := commands + 1;
      match reply
      case Success =>
        devices := devices[d := device.(medium := Splice(device.medium, lba, data))];
        return true;
      case Failure(garbage) =>
        var torn := seq(|data|, i requires 0 <= i < |data| => garbage(i));
        devices := devices[d := device.(medium := Splice(device.medium, lba, torn))];
        return false;
    }

    /** The driver's flush command; a device without one has no cache to commit. */
    method DriverFlush(d: nat) returns (ok: bool)
      requires |devices| == MAX_DEVICES && d < MAX_DEVICES
      modifies this`commands
      ensures !devices[d].hasFlush ==> ok
    {
      if !devices[d].hasFlush {
        return true;
      }
      var reply := driver(commands);
      commands := commands + 1;
      return reply.Success?;
    }

    method Allocate() returns (ok: bool)
      modifies this`allocations
    {
      ok := heap(allocations);
      allocations := allocations + 1;
    }

    /** The head record from where it was left, and the whole records behind it that continue it on
        its device, up to one command's worth. */
    method Gather() returns (merged: nat, count: nat, batch: seq<Sector>)
      requires Good(Value()) && queue != [] && queue[0].data != []
      ensures merged < |queue| && Chain(queue, merged) && 0 < count == |batch| <= STEP_SECTORS
      ensures count < |queue[0].data| - queue[0].written ==>
                merged == 0 && batch == queue[0].data[queue[0].written..queue[0].written + count]
      ensures count >= |queue[0].data| - queue[0].written ==> batch == Batch(queue, merged)
    {
      hide Good, Chain, Batch;
      HeadFacts(Value());
      var record := queue[0];
      var remaining := |record.data| - record.written;
      count := if remaining < STEP_SECTORS then remaining else STEP_SECTORS;
      batch := record.data[record.written..record.written + count];
      merged := 0;
      if count == remaining {
        while merged + 1 < |queue| && queue[merged + 1].data != [] && queue[merged + 1].device == record.device
              && queue[merged + 1].lba == record.lba + record.written + count
              && (count + |queue[merged + 1].data|) % 0x1_0000_0000 <= STEP_SECTORS
          invariant merged < |queue| && Chain(queue, merged) && batch == Batch(queue, merged)
          invariant count == |batch| <= STEP_SECTORS && remaining <= count
        {
          Continues(Value(), merged, count);
          count := count + |queue[merged + 1].data|;
          batch := batch + queue[merged + 1].data;
          merged := merged + 1;
        }
      }
    }

    /** Marks a device whose background command failed: its queue stays, its writers are refused. */
    method Fail(d: nat)
      requires |devices| == MAX_DEVICES && d < MAX_DEVICES
      modifies this`devices
      ensures devices == old(devices)[d := old(devices)[d].(failed := true)]
    {
      devices := devices[d := devices[d].(failed := true)];
    }

    /** The ordering point at the head. */
    method StepBarrier() returns (moved: bool)
      requires Good(Value()) && queue != [] && queue[0].data == []
      modifies this`devices, this`queue, this`done, this`commands
      ensures Good(Value()) && Progressed(old(Value()), Value())
      ensures if moved then Backlog(queue) < Backlog(old(queue)) else queue == old(queue)
    {
      hide DiskOk, QueueOk, BytesOk, Left, SectorsLeft;
      HeadDevice(Value());
      var d := queue[0].device;
      if devices[d].unflushed {
        var ok := DriverFlush(d);
        if !ok {
          FailedGood(Value(), d);
          Fail(d);
          return false;
        }
      }
      PopBarrierGood(Value());
      SplitHead(queue, d);
      if devices[d].unflushed {
        done := done[d := done[d] + [Barrier]];
      }
      devices := devices[d := devices[d].(unflushed := false)];
      queue := queue[1..];
      return true;
    }

    /** The write at the head. */
    method StepWrite() returns (moved: bool)
      requires Good(Value()) && queue != [] && queue[0].data != []
      modifies this`devices, this`queue, this`queuedBytes, this`done, this`commands
      ensures Good(Value()) && Progressed(old(Value()), Value())
      ensures if moved then Backlog(queue) < Backlog(old(queue)) else queue == old(queue)
    {
      hide Good, Chain, Batch, Left, SectorsLeft, PutsOf;
      ghost var s := Value();
      HeadDevice(s);
      var d, lba := queue[0].device, queue[0].lba + queue[0].written;
      var merged, count, batch := Gather();
      CommandIsNext(s, merged, count, batch);
      var ok := DriverWrite(d, lba, batch);
      if !ok {
        BatchCovers(s, merged, count, batch);
        TornGood(s, devices[d].medium, merged, count);
        Fail(d);
        assert devices == Torn(s, devices[d].medium).devices;
        return false;
      }
      Complete(merged, count, batch, s);
      return true;
    }

    /** The command was taken: the records it covered leave the queue, or the head remembers how far
        it got. */
    method Complete(merged: nat, count: nat, batch: seq<Sector>, ghost s: State)
      requires Good(s) && merged < |s.queue| && Chain(s.queue, merged) && 0 < count == |batch|
      requires if count < |s.queue[0].data| - s.queue[0].written
               then batch == s.queue[0].data[s.queue[0].written..s.queue[0].written + count]
               else batch == Batch(s.queue, merged)
      requires s.queue[0].device < MAX_DEVICES && Lengths(s)
      requires Start(s.queue) + |batch| <= |s.devices[s.queue[0].device].medium|
      requires var d := s.queue[0].device;
               var medium := Splice(s.devices[d].medium, Start(s.queue), batch);
               Value() == s.(devices := s.devices[d := s.devices[d].(medium := medium)])
      modifies this`devices, this`queue, this`queuedBytes, this`done
      ensures Good(Value()) && Progressed(s, Value()) && Backlog(queue) < Backlog(s.queue)
    {
      hide Good, Chain, Batch, Left, SectorsLeft, PutsOf, Splice, Progressed;
      HeadDevice(s);
      BytesCover(s, merged, count);
      Completed(s, merged, count, batch);
      var d, lba, remaining := queue[0].device, queue[0].lba + queue[0].written, |queue[0].data| - queue[0].written;
      queuedBytes := queuedBytes - SECTOR_SIZE * count;
      devices := devices[d := devices[d].(unflushed := true)];
      done := done[d := done[d] + PutsOf(lba, batch)];
      if count < remaining {
        queue := queue[0 := queue[0].(written := queue[0].written + count)];
      } else {
        queue := queue[merged + 1..];
      }
      assert devices == WithMedium(s, d, devices[d].medium, true);
    }

    /** One bounded piece of background work; false when there is none or the queue is stuck. */
    method Step() returns (moved: bool)
      requires Good(Value())
      modifies this`devices, this`queue, this`queuedBytes, this`done, this`commands
      ensures Good(Value()) && Progressed(old(Value()), Value())
      ensures if moved then Backlog(queue) < Backlog(old(queue)) else queue == old(queue)
    {
      hide DiskOk, QueueOk, BytesOk, Left, SectorsLeft;
      if queue == [] {
        return false;
      }
      HeadDevice(Value());
      if devices[queue[0].device].failed {
        return false;
      }
      if queue[0].data == [] {
        moved := StepBarrier();
      } else {
        moved := StepWrite();
      }
    }

    /** Drains until `bytes` more fit the budget, or the queue is empty. False if it is stuck. */
    method MakeRoom(bytes: nat) returns (ok: bool)
      requires Good(Value())
      modifies this`devices, this`queue, this`queuedBytes, this`done, this`commands
      ensures Good(Value()) && Progressed(old(Value()), Value())
      ensures ok ==> queuedBytes + bytes <= MAX_QUEUED_BYTES || queue == []
    {
      hide DiskOk, QueueOk, BytesOk, Left, SectorsLeft;
      while queue != [] && queuedBytes + bytes > MAX_QUEUED_BYTES
        invariant Good(Value()) && Progressed(old(Value()), Value())
        decreases Backlog(queue)
      {
        ghost var s := Value();
        var moved := Step();
        ProgressedTwice(old(Value()), s, Value());
        if !moved {
          return false;
        }
      }
      return true;
    }

    /** Sends the whole queue. */
    method DrainQueue() returns (ok: bool)
      requires Good(Value())
      modifies this`devices, this`queue, this`queuedBytes, this`done, this`commands
      ensures Good(Value()) && Progressed(old(Value()), Value()) && (ok ==> queue == [])
    {
      hide DiskOk, QueueOk, BytesOk, Left, SectorsLeft;
      while queue != []
        invariant Good(Value()) && Progressed(old(Value()), Value())
        decreases Backlog(queue)
      {
        ghost var s := Value();
        var moved := Step();
        ProgressedTwice(old(Value()), s, Value());
        if !moved {
          return false;
        }
      }
      return true;
    }

    /** Flushes one device of the table, if it defers and took writes. */
    method FlushDirty(d: nat) returns (ok: bool)
      requires Good(Value()) && d < MAX_DEVICES
      modifies this`devices, this`done, this`commands
      ensures Good(Value()) && Progressed(old(Value()), Value())
      ensures forall k :: 0 <= k < MAX_DEVICES && k != d ==> devices[k] == old(devices)[k]
      ensures ok ==> !Dirty(devices[d])
    {
      hide DiskOk, QueueOk, BytesOk, Left, SectorsLeft;
      if !Dirty(devices[d]) {
        return true;
      }
      var flushed := DriverFlush(d);
      if !flushed {
        FailedGood(Value(), d);
        Fail(d);
        return false;
      }
      FlushedGood(Value(), d);
      done := done[d := done[d] + [Barrier]];
      devices := devices[d := devices[d].(unflushed := false)];
      return true;
    }

    /** Sends the whole queue and flushes every device that took writes. */
    method DrainAll() returns (ok: bool)
      requires Good(Value())
      modifies this`devices, this`queue, this`queuedBytes, this`done, this`commands
      ensures Good(Value()) && Progressed(old(Value()), Value())
      ensures ok ==> queue == [] && forall d :: 0 <= d < MAX_DEVICES ==> !Dirty(devices[d])
    {
      hide DiskOk, QueueOk, BytesOk, Left, SectorsLeft;
      ok := DrainQueue();
      if !ok {
        return;
      }
      for d := 0 to MAX_DEVICES
        invariant Good(Value()) && Progressed(old(Value()), Value()) && queue == []
        invariant ok ==> forall k :: 0 <= k < d ==> !Dirty(devices[k])
      {
        ghost var s := Value();
        var flushed := FlushDirty(d);
        ProgressedTwice(old(Value()), s, Value());
        ok := ok && flushed;
      }
    }

    /** Lays every queued write of device `d` that overlaps the range over `buffer`, oldest first. */
    method OverlayQueued(d: nat, lba: nat, buffer: seq<Sector>, ghost medium: seq<Sector>) returns (result: seq<Sector>)
      requires AllFit(queue, d, |medium|) && lba + |buffer| <= |medium| && buffer == medium[lba..lba + |buffer|]
      ensures result == Overlay(medium, queue, d)[lba..lba + |buffer|]
    {
      hide Overlay, Splice, CopyOverlap;
      result := buffer;
      var end := lba + |buffer|;
      NothingLaid(medium, queue, d);
      for i := 0 to |queue|
        invariant AllFit(queue[..i], d, |medium|)
        invariant |result| == |buffer| && result == Overlay(medium, queue[..i], d)[lba..end]
      {
        var record := queue[i];
        TakeMoreOverlay(medium, queue, i, d);
        ghost var below := Overlay(medium, queue[..i], d);
        if record.device != d || record.data == [] {
          NotConcerned(below, record, d);
          continue;
        }
        OverlapCopied(below, record, lba, end);
        result := CopyOverlap(result, record, lba);
      }
      assert queue[..|queue|] == queue;
    }

    /** A read sees every write issued so far. */
    method Read(index: nat, lba: nat, count: nat) returns (ok: bool, buffer: seq<Sector>)
      requires Good(Value())
      modifies this`commands
      ensures ok ==> index < MAX_DEVICES && devices[index].present && 0 < count && lba + count <= devices[index].sectors
      ensures ok ==> lba + count <= |disk[index]| && buffer == disk[index][lba..lba + count]
    {
      hide Left, SectorsLeft, BytesOk, Overlay;
      ok, buffer := false, [];
      if index >= MAX_DEVICES || !InRange(devices[index], lba, count) {
        return;
      }
      var reply := driver(commands);
      commands := commands + 1;
      if !reply.Success? {
        return;
      }
      var device := devices[index];
      assert DiskOk(device, issued[index], done[index], disk[index], queue, index);
      buffer := device.medium[lba..lba + count];
      if device.deferred {
        buffer := OverlayQueued(index, lba, buffer, device.medium);
      }
      ok := true;
    }

    /** A write straight to the device: done, or torn within its range. */
    method WriteNow(index: nat, lba: nat, data: seq<Sector>) returns (ok: bool)
      requires Good(Value()) && index < MAX_DEVICES && devices[index].present && lba + |data| <= devices[index].sectors
      requires devices[index].deferred ==> queue == [] && !devices[index].unflushed
      modifies this`devices, this`issued, this`done, this`disk, this`commands
      ensures Good(Value()) && lba + |data| <= |old(disk)[index]|
      ensures ok ==> Value() == WriteThrough(old(Value()), index, lba, data)
      ensures !ok ==> Value() == TornThrough(old(Value()), index, devices[index].medium)
                      && SameOutside(old(disk)[index], disk[index], lba, |data|)
    {
      hide Left, SectorsLeft, BytesOk, Overlay, Splice, QueueOk;
      ghost var s := Value();
      DiskSize(s, index);
      DirectDisk(s, index);
      ok := DriverWrite(index, lba, data);
      if ok {
        if devices[index].deferred {
          WriteThroughGood(s, index, lba, data);
          devices := devices[index := devices[index].(unflushed := true)];
        } else {
          WriteDirectGood(s, index, lba, data);
        }
        ghost var puts := if devices[index].deferred then PutsOf(lba, data) else [];
        issued := issued[index := issued[index] + puts];
        done := done[index := done[index] + puts];
        disk := disk[index := Splice(disk[index], lba, data)];
        assert devices == WriteThrough(s, index, lba, data).devices;
      } else {
        TornThroughGood(s, index, devices[index].medium);
        disk := disk[index := devices[index].medium];
        assert devices == TornThrough(s, index, devices[index].medium).devices;
      }
    }

    /** A write: queued, or written through when it must be. */
    method WriteCached(index: nat, lba: nat, data: seq<Sector>) returns (ok: bool)
      requires Good(Value())
      modifies this`devices, this`queue, this`queuedBytes, this`issued
      modifies this`done, this`disk, this`commands, this`allocations, this`direct
      ensures Good(Value())
      ensures ok ==> index < MAX_DEVICES
      ensures direct == if ok && !old(devices)[index].deferred then Logged(old(direct), index, PutsOf(lba, data))
                else old(direct)
      ensures if ok then Wrote(old(Value()), Value(), index, lba, data)
                else NotWritten(old(Value()), Value(), index, lba, |data|)
    {
      hide DiskOk, QueueOk, BytesOk, Left, SectorsLeft, Overlay, Splice;
      if index >= MAX_DEVICES || !devices[index].writable || !InRange(devices[index], lba, |data|) {
        return false;
      }
      DiskSize(Value(), index);
      if !devices[index].deferred {
        ok := WriteNow(index, lba, data);
        assert old(issued)[index] + [] == old(issued)[index];
        assert ok ==> issued == old(issued);
        if ok { direct := Logged(direct, index, PutsOf(lba, data)); }
        return;
      }
      if devices[index].failed {
        return false;
      }
      ok := WriteQueued(index, lba, data);
    }

    /** A write to a deferring device that has not failed. */
    method WriteQueued(index: nat, lba: nat, data: seq<Sector>) returns (ok: bool)
      requires Good(Value()) && index < MAX_DEVICES && devices[index].deferred && InRange(devices[index], lba, |data|)
      modifies this`devices, this`queue, this`queuedBytes, this`issued
      modifies this`done, this`disk, this`commands, this`allocations
      ensures Good(Value())
      ensures if ok then Wrote(old(Value()), Value(), index, lba, data)
                else NotWritten(old(Value()), Value(), index, lba, |data|)
    {
      hide DiskOk, QueueOk, BytesOk, Left, SectorsLeft, Overlay, Splice;
      DiskSize(Value(), index);
      ok := MakeRoom(|data| * SECTOR_SIZE);
      if !ok {
        return;
      }
      var granted := Allocate();
      if !granted {
        ok := WriteWithoutHeap(index, lba, data);
        return;
      }
      QueueWriteGood(Value(), index, lba, data);
      queue := queue + [Record(index, lba, data, 0)];
      queuedBytes := queuedBytes + |data| * SECTOR_SIZE;
      issued := issued[index := issued[index] + PutsOf(lba, data)];
      disk := disk[index := Splice(disk[index], lba, data)];
    }

    /** No memory for the copy: with the queue drained and flushed, writing through keeps the order. */
    method WriteWithoutHeap(index: nat, lba: nat, data: seq<Sector>) returns (ok: bool)
      requires Good(Value()) && index < MAX_DEVICES && devices[index].deferred && InRange(devices[index], lba, |data|)
      modifies this`devices, this`queue, this`queuedBytes, this`issued, this`done, this`disk, this`commands
      ensures Good(Value())
      ensures if ok then Wrote(old(Value()), Value(), index, lba, data)
                else NotWritten(old(Value()), Value(), index, lba, |data|)
    {
      hide DiskOk, QueueOk, BytesOk, Left, SectorsLeft, Overlay, Splice;
      DiskSize(Value(), index);
      ok := DrainAll();
      if !ok {
        return;
      }
      ok := WriteNow(index, lba, data);
    }

    /** An ordering point: what was issued before it reaches the medium before anything issued after. */
    method Flush(index: nat) returns (ok: bool)
      requires Good(Value())
      modifies this`devices, this`queue, this`queuedBytes, this`issued
      modifies this`done, this`commands, this`allocations, this`direct
      ensures Good(Value()) && disk == old(disk) && SameDevices(old(devices), devices)
      ensures ok ==> index < MAX_DEVICES && devices[index].present && devices[index].writable
      ensures direct ==
                if ok && !old(devices)[index].deferred then Logged(old(direct), index, [Barrier]) else old(direct)
      ensures issued == if ok && devices[index].deferred then old(issued)[index := old(issued)[index] + [Barrier]]
                else old(issued)
    {
      hide DiskOk, QueueOk, BytesOk, Left, SectorsLeft, Overlay, Redundant;
      if index >= MAX_DEVICES || !devices[index].present || !devices[index].writable {
        return false;
      }
      if !devices[index].deferred {
        ok := DriverFlush(index);
        if ok { direct := Logged(direct, index, [Barrier]); }
        return;
      }
      if devices[index].failed {
        return false;
      }
      ok := FlushQueued(index);
    }

    /** An ordering point on a deferring device: left out when it would change nothing. */
    method FlushQueued(index: nat) returns (ok: bool)
      requires Good(Value()) && index < MAX_DEVICES && devices[index].present && devices[index].deferred
      modifies this`devices, this`queue, this`queuedBytes, this`issued, this`done, this`commands, this`allocations
      ensures Good(Value()) && disk == old(disk) && SameDevices(old(devices), devices)
      ensures issued == if ok then old(issued)[index := old(issued)[index] + [Barrier]] else old(issued)
    {
      hide DiskOk, QueueOk, BytesOk, Left, SectorsLeft, Overlay;
      if (!devices[index].unflushed && !QueueHas(queue, index))
         || (queue != [] && queue[|queue| - 1].device == index && queue[|queue| - 1].data == []) {
        ElideBarrierGood(Value(), index);
        issued := issued[index := issued[index] + [Barrier]];
        return true;
      }
      var granted := Allocate();
      if !granted {
        ok := DrainAll();
        if ok {
          ElideBarrierGood(Value(), index);
          issued := issued[index := issued[index] + [Barrier]];
        }
        return;
      }
      QueueBarrierGood(Value(), index);
      queue := queue + [Record(index, 0, [], 0)];
      issued := issued[index := issued[index] + [Barrier]];
      return true;
    }

    /** Everything issued so far on every deferring device is on the medium when this returns true. A device that
        does not defer is sent nothing. */
    method Sync(index: nat) returns (ok: bool)
      requires Good(Value())
      modifies this`devices, this`queue, this`queuedBytes, this`done, this`commands
      ensures Good(Value()) && Progressed(old(Value()), Value())
      ensures ok ==> Synced(Value())
    {
      hide DiskOk, QueueOk, BytesOk, Left, SectorsLeft, Overlay;
      if index >= MAX_DEVICES || !devices[index].present {
        return false;
      }
      ok := DrainAll();
      if ok { DrainedSynced(Value()); }
    }

    /** The durable write: on the medium when it returns true. */
    method Write(index: nat, lba: nat, data: seq<Sector>) returns (ok: bool)
      requires Good(Value())
      modifies this`devices, this`queue, this`queuedBytes, this`issued
      modifies this`done, this`disk, this`commands, this`allocations, this`direct
      ensures Good(Value())
      ensures ok ==> Synced(Value()) && index < MAX_DEVICES && lba + |data| <= |disk[index]|
                     && disk[index] == devices[index].medium && disk[index][lba..lba + |data|] == data
      ensures ok && !old(devices)[index].deferred ==>
                direct == Logged(Logged(old(direct), index, PutsOf(lba, data)), index, [Barrier])
    {
      hide DiskOk, QueueOk, BytesOk, Left, SectorsLeft, Overlay;
      ok := WriteCached(index, lba, data);
      if !ok {
        return;
      }
      ok := Flush(index);
      if !ok {
        return;
      }
      ok := Sync(index);
      if ok { SyncedDisk(Value(), index); }
    }

    /** A new device takes the first free slot; one without sectors is refused. */
    method Register(device: Device) returns (slot: nat)
      requires Good(Value()) && device.present && !device.unflushed && !device.failed
      requires device.sectors == |device.medium| < 0x1_0000_0000
      modifies this`devices, this`issued, this`done, this`disk, this`direct
      ensures Good(Value()) && slot <= MAX_DEVICES
      ensures slot < MAX_DEVICES <==> device.sectors > 0 && exists d :: 0 <= d < MAX_DEVICES && !old(devices)[d].present
      ensures slot < MAX_DEVICES ==> !old(devices)[slot].present && forall d :: 0 <= d < slot ==>
                old(devices)[d].present
      ensures slot < MAX_DEVICES ==> Value() == Replaced(old(Value()), slot, device) && direct == old(direct) - {slot}
      ensures slot == MAX_DEVICES ==> Value() == old(Value()) && direct == old(direct)
    {
      if device.sectors == 0 {
        return MAX_DEVICES;
      }
      slot := 0;
      while slot < MAX_DEVICES && devices[slot].present
        invariant slot <= MAX_DEVICES && forall d :: 0 <= d < slot ==> devices[d].present
      {
        slot := slot + 1;
      }
      if slot < MAX_DEVICES {
        Replace(slot, device);
      }
    }

    method Replace(d: nat, device: Device)
      requires Good(Value()) && d < MAX_DEVICES && !QueueHas(queue, d)
      requires |device.medium| == device.sectors < 0x1_0000_0000 && !device.unflushed
      modifies this`devices, this`issued, this`done, this`disk, this`direct
      ensures Good(Value()) && Value() == Replaced(old(Value()), d, device) && direct == old(direct) - {d}
    {
      hide DiskOk, QueueOk, BytesOk, Left, SectorsLeft, Overlay;
      ReplacedGood(Value(), d, device);
      devices := devices[d := device];
      direct := direct - {d};
      issued, done, disk := issued[d := []], done[d := []], disk[d := device.medium];
    }

    /** Removes a device nothing is queued for. */
    method Unregister(index: nat) returns (ok: bool)
      requires Good(Value())
      modifies this`devices, this`issued, this`done, this`disk, this`direct
      ensures Good(Value())
      ensures ok <==> index < MAX_DEVICES && old(devices)[index].present && !QueueHas(queue, index)
      ensures Value() == if ok then Replaced(old(Value()), index, ABSENT) else old(Value())
    {
      if index >= MAX_DEVICES || !devices[index].present || QueueHas(queue, index) {
        return false;
      }
      Replace(index, ABSENT);
      return true;
    }
  }

  /** An accepted write: the caller's disk has it, and nothing else changed for any caller. */
  ghost predicate Wrote(s: State, s': State, d: nat, lba: nat, data: seq<Sector>) {
    && Lengths(s) && d < MAX_DEVICES && lba + |data| <= |s.disk[d]| && SameDevices(s.devices, s'.devices)
    && s'.disk == s.disk[d := Splice(s.disk[d], lba, data)]
    && s'.issued == if s.devices[d].deferred then s.issued[d := s.issued[d] + PutsOf(lba, data)] else s.issued
  }

  /** A refused write: nothing was issued, and at most the sectors of its own range changed. */
  ghost predicate NotWritten(s: State, s': State, d: nat, lba: nat, count: nat) {
    && Lengths(s) && Lengths(s') && SameDevices(s.devices, s'.devices) && s'.issued == s.issued
    && (forall k :: 0 <= k < MAX_DEVICES && k != d ==> s'.disk[k] == s.disk[k])
    && (d < MAX_DEVICES ==> SameOutside(s.disk[d], s'.disk[d], lba, count))
  }

  /** Every deferring device has everything issued to it on its medium. */
  ghost predicate Synced(s: State) {
    && Lengths(s) && s.queue == []
    && forall d :: 0 <= d < MAX_DEVICES && s.devices[d].present && s.devices[d].deferred ==>
         Durable(s.issued[d], s.done[d])
  }

  lemma DrainedSynced(s: State)
    requires Good(s) && s.queue == [] && forall d :: 0 <= d < MAX_DEVICES ==> !Dirty(s.devices[d])
    ensures Synced(s)
  {
    hide DiskOk, Durable;
    forall d | 0 <= d < MAX_DEVICES && s.devices[d].present && s.devices[d].deferred
      ensures Durable(s.issued[d], s.done[d])
    {
      DrainedIsDurable(s, d);
    }
  }

  lemma SyncedDisk(s: State, d: nat)
    requires Good(s) && s.queue == [] && d < MAX_DEVICES && s.devices[d].present
    ensures s.disk[d] == s.devices[d].medium
  {
    DirectDisk(s, d);
  }

  predicate Dirty(device: Device) { device.present && device.deferred && device.unflushed }

  predicate InRange(device: Device, lba: nat, count: nat) {
    device.present && 0 < count && lba < device.sectors && count <= device.sectors - lba
  }

  /** A window of a disk that starts at `lba`, with the part of a record that falls into it copied in. */
  function CopyOverlap(window: seq<Sector>, r: Record, lba: nat): (result: seq<Sector>)
    ensures |result| == |window|
    ensures forall k :: 0 <= k < |window| ==>
              result[k] == if r.lba <= lba + k < r.lba + |r.data| then r.data[lba + k - r.lba] else window[k]
  {
    var end, recordEnd := lba + |window|, r.lba + |r.data|;
    var first := if r.lba > lba then r.lba else lba;
    var last := if recordEnd < end then recordEnd else end;
    if first >= last then window
    else window[..first - lba] + r.data[first - r.lba..last - r.lba] + window[last - lba..]
  }

  /** Copying the overlap is applying the record and looking at the window. */
  lemma OverlapCopied(disk: seq<Sector>, r: Record, lba: nat, end: nat)
    requires r.lba + |r.data| <= |disk| && lba <= end <= |disk|
    ensures Splice(disk, r.lba, r.data)[lba..end] == CopyOverlap(disk[lba..end], r, lba)
  {
    hide Splice, CopyOverlap;
  }

  lemma NotConcerned(disk: seq<Sector>, r: Record, d: nat)
    requires Fits(r, d, |disk|) && (r.device != d || r.data == [])
    ensures Apply(disk, r, d) == disk
  {
  }

  /** With nothing queued for it, a device's medium is its disk. */
  lemma DirectDisk(s: State, d: nat)
    requires Good(s) && d < MAX_DEVICES && s.devices[d].present && (s.devices[d].deferred ==> s.queue == [])
    ensures s.disk[d] == s.devices[d].medium && (s.devices[d].deferred && !s.devices[d].unflushed ==> Clean(s.done[d]))
  {
    assert DiskOk(s.devices[d], s.issued[d], s.done[d], s.disk[d], s.queue, d);
  }

  /** The state after a command was taken. */
  ghost function Sent(s: State, m: nat, count: nat, batch: seq<Sector>): State
    requires Lengths(s) && m < |s.queue| && s.queue[0].device < MAX_DEVICES
    requires Start(s.queue) + |batch| <= |s.devices[s.queue[0].device].medium|
  {
    var r := s.queue[0];
    s.(queue := if count < |r.data| - r.written then s.queue[0 := r.(written := r.written + count)]
        else s.queue[m + 1..],
       queuedBytes := s.queuedBytes - SECTOR_SIZE * count,
       devices := WithMedium(s, r.device, Splice(s.devices[r.device].medium, Start(s.queue), batch), true),
       done := s.done[r.device := s.done[r.device] + PutsOf(Start(s.queue), batch)])
  }

  lemma Completed(s: State, m: nat, count: nat, batch: seq<Sector>)
    requires Good(s) && m < |s.queue| && Chain(s.queue, m) && 0 < count == |batch|
    requires if count < |s.queue[0].data| - s.queue[0].written
             then batch == s.queue[0].data[s.queue[0].written..s.queue[0].written + count]
             else batch == Batch(s.queue, m)
    requires s.queue[0].device < MAX_DEVICES && Start(s.queue) + |batch| <= |s.devices[s.queue[0].device].medium|
    ensures var s' := Sent(s, m, count, batch);
            Good(s') && Progressed(s, s') && Backlog(s'.queue) < Backlog(s.queue)
  {
    hide Good, Chain, Batch, Left, SectorsLeft, PutsOf, Splice;
    HeadDevice(s);
    if count < |s.queue[0].data| - s.queue[0].written {
      WritePartGood(s, count);
      PartLeft(s.queue, count, 0);
    } else {
      WriteBatchGood(s, m);
      BatchLeft(s.queue, m);
      Headed(s.queue, m + 1, 0);
    }
  }

  lemma HeadFacts(s: State)
    requires Good(s) && s.queue != [] && s.queue[0].data != []
    ensures s.queue[0].written < |s.queue[0].data| && Chain(s.queue, 0)
    ensures Batch(s.queue, 0) == s.queue[0].data[s.queue[0].written..]
  {
    assert RecordOk(s.queue[0], s.devices);
  }

  /** The record behind the batch continues it. The 32-bit sum in the test does not wrap, so the
      staging buffer is not overrun. */
  lemma Continues(s: State, m: nat, count: nat)
    requires Good(s) && m + 1 < |s.queue| && s.queue[0].written <= |s.queue[0].data| && Chain(s.queue, m)
    requires count == |Batch(s.queue, m)| && s.queue[m + 1].data != [] && s.queue[m + 1].device == s.queue[0].device
    requires s.queue[m + 1].lba == Start(s.queue) + count
    ensures Chain(s.queue, m + 1) && Batch(s.queue, m + 1) == Batch(s.queue, m) + s.queue[m + 1].data
    ensures count + |s.queue[m + 1].data| < 0x1_0000_0000
  {
    hide Good;
    BehindHead(s, m + 1);
  }

  lemma BehindHead(s: State, i: nat)
    requires Good(s) && 1 <= i < |s.queue|
    ensures s.queue[i].written == 0 && s.queue[i].lba + |s.queue[i].data| < 0x1_0000_0000
  {
    assert RecordOk(s.queue[i], s.devices);
  }

  lemma HeadDevice(s: State)
    requires Good(s) && s.queue != []
    ensures s.queue[0].device < MAX_DEVICES && s.devices[s.queue[0].device].present
    ensures s.queue[0].written <= |s.queue[0].data| && Lengths(s) && Begun(s.queue)
  {
    assert RecordOk(s.queue[0], s.devices);
  }

  /** What is sent is part of what the records taken have left. */
  lemma BatchCovers(s: State, m: nat, count: nat, batch: seq<Sector>)
    requires Good(s) && m < |s.queue| && Chain(s.queue, m) && count == |batch|
    requires count >= |s.queue[0].data| - s.queue[0].written ==> batch == Batch(s.queue, m)
    requires count < |s.queue[0].data| - s.queue[0].written ==> m == 0
    ensures count <= |Batch(s.queue, m)|
  {
  }

  /** The byte counter never underflows. */
  lemma BytesCover(s: State, m: nat, count: nat)
    requires Good(s) && m < |s.queue| && Chain(s.queue, m)
    requires count >= |s.queue[0].data| - s.queue[0].written ==> count == |Batch(s.queue, m)|
    ensures SECTOR_SIZE * count <= s.queuedBytes
  {
    hide Disks, QueueOk, MediaOk, SectorsLeft, Left, Batch;
    Headed(s.queue, m + 1, 0);
    BatchLeft(s.queue, m);
    SplitHead(s.queue, 0);
  }
}
