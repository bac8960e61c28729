/** The storage calls: devices found by id, ranges checked, mounted volumes
    kept clear of, partitions registered within their disk. */
module Storage {
  import opened StorageExtents

  const MAX_TRANSFER := 128
  const MAX_DEVICES := 32
  const MAX_SLICES := 16

  datatype Status = Success | NoDevice | InvalidRequest | Exists | NotPermitted | Busy | Failed

  predicate HasId(d: Device, id: nat) { !d.Absent? && d.id == id }

  /** A partition as the table of a disk describes it. */
  datatype Entry = Entry(start: nat, count: nat)

  /** A slot of the partition table: free, or the device of a partition. */
  datatype Slot = Free | Taken(device: nat)

  class Calls {
    var devices: seq<Device>
    /** The partitions of all disks, by slot. */
    var table: seq<Slot>
    var mounts: seq<Mount>
    /** What is on each disk. */
    var contents: map<nat, seq<Sector>>

    ghost function Value(): State
      reads this
    {
      State(devices, mounts, contents)
    }

    /** At boot: disks, no partitions read yet and nothing mounted. */
    constructor (disks: seq<Device>, slots: nat, contents: map<nat, seq<Sector>>)
      requires forall i :: 0 <= i < |disks| ==>
                 disks[i].Disk? && disks[i].size > 0 && i in contents && |contents[i]| == disks[i].size
      ensures Good(Value()) && TableOk(table, devices)
      ensures devices == disks && this.contents == contents && |mounts| == slots
    {
      devices, this.contents := disks, contents;
      table := seq(MAX_SLICES, k => Free);
      mounts := seq(slots, m => Vacant);
    }

    method IndexOf(id: nat) returns (i: nat)
      ensures i <= |devices| && (i < |devices| ==> HasId(devices[i], id))
      ensures forall j :: 0 <= j < i ==> !HasId(devices[j], id)
    {
      i := 0;
      while i < |devices| && !HasId(devices[i], id)
        invariant i <= |devices| && forall j :: 0 <= j < i ==> !HasId(devices[j], id)
      {
        i := i + 1;
      }
    }

    method AnyMounted(e: Extent) returns (overlaps: bool)
      ensures overlaps == OverlapsMounted(Value(), e)
    {
      for m := 0 to |mounts|
        invariant forall k :: 0 <= k < m && Attached(Value(), k) ==> !Overlap(e, VolumeExtent(Value(), k))
      {
        if mounts[m].Volume? && mounts[m].attached {
          var volume := ExtentOf(devices, mounts[m].device);
          if volume.disk == e.disk && e.start < volume.start + volume.count && volume.start < e.start + e.count {
            assert Overlap(e, VolumeExtent(Value(), m));
            return true;
          }
        }
      }
      return false;
    }

    /** Mounts a device; `ready` says whether the path is free and good and the file system takes it. */
    method MountVolume(id: nat, goodPath: bool, freePath: bool, ready: bool)
      returns (status: Status, slot: nat, ghost i: nat)
      requires Good(Value())
      modifies this`mounts
      ensures Good(Value())
      ensures status != Success ==> Value() == old(Value())
      ensures status == Success || status == Busy ==> i < |devices| && HasId(devices[i], id)
      ensures status == Success ==> Allowed(old(Value()), StorageExtents.MountVolume(slot, i))
      ensures status == Success ==> Step(old(Value()), StorageExtents.MountVolume(slot, i), Value())
      ensures status == Busy ==> OverlapsMounted(old(Value()), ExtentOf(devices, i))
    {
      slot := 0;
      var index := IndexOf(id);
      i := index;
      if index == |devices| {
        return NoDevice, 0, i;
      }
      if !goodPath {
        return InvalidRequest, 0, i;
      }
      if !freePath {
        return Exists, 0, i;
      }
      if devices[index].Disk? && devices[index].partitioned {
        return InvalidRequest, 0, i;
      }
      var overlaps := AnyMounted(ExtentOf(devices, index));
      if overlaps {
        return Busy, 0, i;
      }
      while slot < |mounts| && !mounts[slot].Vacant?
        invariant slot <= |mounts|
      {
        slot := slot + 1;
      }
      if slot == |mounts| || !ready {
        return Failed, 0, i;
      }
      MountKeeps(Value(), slot, index);
      mounts := mounts[slot := Volume(index, true, false)];
      return Success, slot, i;
    }

    /** Unmounts the volume in a slot, if there is one, it is not a fixed one, and nothing holds it. */
    method Unmount(slot: nat, released: bool) returns (status: Status)
      requires Good(Value())
      modifies this`mounts
      ensures Good(Value())
      ensures status == InvalidRequest <==> !Allowed(old(Value()), StorageExtents.Unmount(slot))
      ensures status == Success <==> Allowed(old(Value()), StorageExtents.Unmount(slot)) && released
      ensures status == Success ==> Step(old(Value()), StorageExtents.Unmount(slot), Value())
      ensures status != Success ==> Value() == old(Value())
    {
      if slot >= |mounts| || mounts[slot].Vacant? || mounts[slot].fixed {
        return InvalidRequest;
      }
      if !released {
        return Failed;
      }
      ReleaseKeeps(Value(), slot);
      mounts := mounts[slot := Vacant];
      return Success;
    }

    /** Writes sectors of a device past any file system. A write the disk fails leaves `torn` in its range. */
    method Write(id: nat, lba: nat, data: seq<Sector>, torn: seq<Sector>, accepted: bool)
      returns (status: Status, ghost i: nat)
      requires Good(Value()) && |torn| == |data|
      modifies this`contents
      ensures Good(Value())
      ensures status != Success && status != Failed ==> Value() == old(Value())
      ensures status == Success || status == Failed ==>
                i < |devices| && HasId(devices[i], id) && devices[i].writable && 0 < |data| <= MAX_TRANSFER
      ensures status == Success ==> Allowed(old(Value()), StorageExtents.Write(i, lba, data))
      ensures status == Success ==> Step(old(Value()), StorageExtents.Write(i, lba, data), Value())
      ensures status == Failed ==> Allowed(old(Value()), StorageExtents.Write(i, lba, torn))
      ensures status == Failed ==> Step(old(Value()), StorageExtents.Write(i, lba, torn), Value())
    {
      hide Good, OverlapsMounted, WriteAt;
      var index := IndexOf(id);
      i := index;
      if index == |devices| {
        return NoDevice, i;
      }
      var device := ExtentOf(devices, index);
      if |data| == 0 || |data| > MAX_TRANSFER || lba >= device.count || |data| > device.count - lba {
        return InvalidRequest, i;
      }
      if !devices[index].writable {
        return NotPermitted, i;
      }
      var overlaps := AnyMounted(Extent(device.disk, device.start + lba, |data|));
      if overlaps {
        return Busy, i;
      }
      DeviceInside(Value(), index);
      var bytes := if accepted then data else torn;
      WriteKeeps(Value(), device.disk, device.start + lba, bytes);
      Transfer(device.disk, device.start + lba, bytes);
      return if accepted then Success else Failed, i;
    }

    /** The disk underneath takes the sectors. */
    method Transfer(disk: nat, start: nat, data: seq<Sector>)
      requires disk in contents && start + |data| <= |contents[disk]|
      modifies this`contents
      ensures Value() == WriteAt(old(Value()), disk, start, data)
    {
      var c := contents[disk];
      contents := contents[disk := c[..start] + data + c[start + |data|..]];
    }

    /** Registers a partition, cut to the size of its disk, in the first free slot of either table. It is refused
        when empty or beyond the disk, and when one of the tables is full. */
    method AddSlice(disk: nat, entry: Entry, id: nat) returns (ok: bool, i: nat, k: nat)
      requires disk < |devices| <= MAX_DEVICES && devices[disk].Disk? && TableOk(table, devices)
      modifies this`devices, this`table
      ensures |devices| <= MAX_DEVICES && TableOk(table, devices)
      ensures ok <==> OnDisk(entry, old(devices)[disk]) && HasRoom(old(table), old(devices))
      ensures !ok ==> devices == old(devices) && table == old(table)
      ensures ok ==> i <= |old(devices)| && (i < |old(devices)| ==> old(devices)[i].Absent?)
      ensures ok ==> forall j :: 0 <= j < i ==> !old(devices)[j].Absent?
      ensures ok ==> k < MAX_SLICES && old(table)[k].Free? && table == old(table)[k := Taken(i)]
      ensures ok ==> devices == Placed(old(devices), i, Cut(disk, entry, id, old(devices)[disk], k))
    {
      i, k := 0, 0;
      if entry.count == 0 || entry.start >= devices[disk].size {
        return false, i, k;
      }
      while k < |table| && table[k].Taken?
        invariant k <= |table| && forall j :: 0 <= j < k ==> table[j].Taken?
      {
        k := k + 1;
      }
      if k == MAX_SLICES {
        return false, i, k;
      }
      while i < |devices| && !devices[i].Absent?
        invariant i <= |devices| && forall j :: 0 <= j < i ==> !devices[j].Absent?
      {
        i := i + 1;
      }
      if i == MAX_DEVICES {
        return false, i, k;
      }
      var available := devices[disk].size - entry.start;
      var count := if entry.count > available then available else entry.count;
      devices := Placed(devices, i, Slice(id, disk, entry.start, count, devices[disk].writable, k));
      table := table[k := Taken(i)];
      return true, i, k;
    }

    /** Drops the partitions of a disk and registers those its table names now: entry `n` as device `places[n]`.
        A partition with writes still queued (`busy`) is not given up; those dropped before it stay dropped. */
    method Rescan(id: nat, scheme: bool, entries: seq<Entry>, ids: seq<nat>, synced: bool, busy: nat -> bool)
      returns (status: Status, disk: nat, ghost places: map<nat, nat>)
      requires Good(Value()) && |ids| == |entries| && |devices| <= MAX_DEVICES && TableOk(table, devices)
      modifies this`devices, this`table
      ensures Good(Value()) && |devices| <= MAX_DEVICES && TableOk(table, devices)
      ensures status != Success && !(status == Failed && synced) ==> Value() == old(Value())
      ensures status == Success ==> synced && disk < |old(devices)| && HasId(old(devices)[disk], id)
      ensures status == Success ==> Registered(table, devices, disk, entries, ids, places)
      ensures status == Failed && synced ==> disk < |old(devices)| && PartlyDropped(old(devices), devices, disk, busy)
      ensures status == Success || status == Failed ==>
                Allowed(old(Value()), StorageExtents.Rescan(disk))
                && Step(old(Value()), StorageExtents.Rescan(disk), Value())
    {
      hide Registered, PartlyDropped, TableOk, Good, OverlapsMounted, Rescanned;
      places := map[];
      disk := IndexOf(id);
      if disk == |devices| {
        return NoDevice, disk, places;
      }
      if devices[disk].Slice? {
        return InvalidRequest, disk, places;
      }
      var overlaps := AnyMounted(Extent(disk, 0, devices[disk].size));
      if overlaps {
        return Busy, disk, places;
      }
      if !synced {
        NothingRescanned(Value(), disk);
        return Failed, disk, places;
      }
      ghost var before := Value();
      var dropped := Drop(disk, busy);
      if !dropped {
        RescanKeeps(before, Value(), disk);
        return Failed, disk, places;
      }
      places := Scan(disk, scheme, entries, ids, before);
      RescanKeeps(before, Value(), disk);
      return Success, disk, places;
    }

    /** Registers the entries of a disk's table in order. */
    method Scan(disk: nat, scheme: bool, entries: seq<Entry>, ids: seq<nat>, ghost before: State)
      returns (ghost places: map<nat, nat>)
      requires |ids| == |entries| && |devices| <= MAX_DEVICES && TableOk(table, devices)
      requires Rescanned(before, Value(), disk) && forall i :: 0 <= i < |devices| ==> !PartOf(devices[i], disk)
      modifies this`devices, this`table
      ensures |devices| <= MAX_DEVICES && TableOk(table, devices) && Rescanned(before, Value(), disk)
      ensures Registered(table, devices, disk, entries, ids, places)
    {
      places := map[];
      assert entries[..0] == [] && ids[..0] == [];
      for n := 0 to |entries|
        invariant Rescanned(before, Value(), disk) && |devices| <= MAX_DEVICES && TableOk(table, devices)
        invariant Registered(table, devices, disk, entries[..n], ids[..n], places)
      {
        ghost var mid, was := Value(), table;
        var ok, i, k := AddSlice(disk, entries[n], ids[n]);
        if ok {
          AddedKeeps(before, mid, Value(), disk, entries[n], ids[n], i, k);
          AddedRegisters(was, table, mid.devices, disk, entries, ids, n, places, i, k);
          places := places[n := i];
        } else {
          RefusedRegisters(table, devices, disk, entries, ids, n, places);
        }
      }
      assert entries[..|entries|] == entries && ids[..|ids|] == ids;
      SchemeKeeps(before, Value(), table, disk, scheme, entries, ids, places);
      devices := devices[disk := devices[disk].(partitioned := scheme)];
    }

    /** Gives up the partitions of a disk, slot by slot, until one is busy. */
    method Drop(disk: nat, busy: nat -> bool) returns (ok: bool)
      requires Good(Value()) && disk < |devices| && devices[disk].Disk? && TableOk(table, devices)
      modifies this`devices, this`table
      ensures TableOk(table, devices) && Rescanned(old(Value()), Value(), disk) && |devices| == |old(devices)|
      ensures ok ==> forall i :: 0 <= i < |devices| ==> !PartOf(devices[i], disk)
      ensures !ok ==> PartlyDropped(old(devices), devices, disk, busy)
    {
      hide Rescanned, Good, DroppedBelow;
      ghost var before := Value();
      NothingDropped(devices, disk, busy);
      for k := 0 to MAX_SLICES
        invariant TableOk(table, devices) && DroppedBelow(before.devices, devices, disk, busy, k)
      {
        DropsNext(before.devices, devices, table, disk, busy, k);
        if table[k].Taken? && devices[table[k].device].parent == disk {
          if busy(table[k].device) {
            DroppedRescans(before, Value(), disk, busy, k);
            return false;
          }
          devices := devices[table[k].device := Absent];
          table := table[k := Free];
        }
      }
      AllDropped(before.devices, devices, table, disk, busy);
      DroppedRescans(before, Value(), disk, busy, MAX_SLICES);
      return true;
    }
  }

  predicate PartOf(d: Device, disk: nat) { d.Slice? && d.parent == disk }

  /** The partition table and the device table name each other. */
  predicate TableOk(table: seq<Slot>, devices: seq<Device>) {
    && |table| == MAX_SLICES
    && (forall k :: 0 <= k < |table| && table[k].Taken? ==>
          table[k].device < |devices| && devices[table[k].device].Slice? && devices[table[k].device].slot == k)
    && forall i :: 0 <= i < |devices| && devices[i].Slice? ==>
         devices[i].slot < |table| && table[devices[i].slot] == Taken(i)
  }

  /** The partitions of the disk in slots below `k` are gone, everything else is as it was. */
  predicate DroppedBelow(before: seq<Device>, after: seq<Device>, disk: nat, busy: nat -> bool, k: nat) {
    && |before| == |after|
    && (forall j :: 0 <= j < |before| && PartOf(before[j], disk) && before[j].slot < k ==> !busy(j))
    && forall j :: 0 <= j < |before| ==>
         after[j] == if PartOf(before[j], disk) && before[j].slot < k then Absent else before[j]
  }

  predicate StoppedAt(before: seq<Device>, after: seq<Device>, disk: nat, busy: nat -> bool, k: nat, i: nat) {
    && DroppedBelow(before, after, disk, busy, k)
    && i < |before| && PartOf(before[i], disk) && before[i].slot == k && busy(i)
  }

  /** The partitions of the disk before the first busy one, in slot order, are gone. */
  predicate PartlyDropped(before: seq<Device>, after: seq<Device>, disk: nat, busy: nat -> bool) {
    exists i :: 0 <= i < |before| && before[i].Slice? && StoppedAt(before, after, disk, busy, before[i].slot, i)
  }

  lemma NothingDropped(devices: seq<Device>, disk: nat, busy: nat -> bool)
    ensures DroppedBelow(devices, devices, disk, busy, 0)
  {
  }

  /** Slot `k` comes next: its partition is busy, or it is dropped, or there is nothing to drop. */
  lemma DropsNext(before: seq<Device>, devices: seq<Device>, table: seq<Slot>, disk: nat, busy: nat -> bool, k: nat)
    requires TableOk(table, devices) && DroppedBelow(before, devices, disk, busy, k) && k < |table|
    ensures if !(table[k].Taken? && devices[table[k].device].parent == disk)
              then DroppedBelow(before, devices, disk, busy, k + 1)
              else if busy(table[k].device) then PartlyDropped(before, devices, disk, busy)
              else var after := devices[table[k].device := Absent];
                   DroppedBelow(before, after, disk, busy, k + 1) && TableOk(table[k := Free], after)
  {
    if table[k].Taken? && devices[table[k].device].parent == disk {
      var i := table[k].device;
      assert before[i] == devices[i];
      if busy(i) { assert StoppedAt(before, devices, disk, busy, before[i].slot, i); }
    }
    assert forall j :: 0 <= j < |before| && PartOf(before[j], disk) && before[j].slot == k ==> devices[j] == before[j];
  }

  lemma AllDropped(before: seq<Device>, devices: seq<Device>, table: seq<Slot>, disk: nat, busy: nat -> bool)
    requires TableOk(table, devices) && DroppedBelow(before, devices, disk, busy, MAX_SLICES)
    ensures |devices| == |before| && forall i :: 0 <= i < |devices| ==> !PartOf(devices[i], disk)
  {
  }

  lemma DroppedRescans(before: State, after: State, disk: nat, busy: nat -> bool, k: nat)
    requires Good(before) && disk < |before.devices| && before.devices[disk].Disk?
    requires after == before.(devices := after.devices)
    requires DroppedBelow(before.devices, after.devices, disk, busy, k)
    ensures Rescanned(before, after, disk) && |after.devices| == |before.devices|
  {
    assert forall j :: 0 <= j < |before.devices| ==> GoodDevice(before.devices, before.devices[j]);
  }

  lemma NothingRescanned(s: State, disk: nat)
    requires Good(s) && disk < |s.devices| && s.devices[disk].Disk?
    ensures Rescanned(s, s, disk)
  {
    assert forall j :: 0 <= j < |s.devices| ==> GoodDevice(s.devices, s.devices[j]);
  }

  /** There is a free slot in the partition table, and one, or a next one, in the device table. */
  predicate HasRoom(table: seq<Slot>, devices: seq<Device>) {
    && (exists k :: 0 <= k < |table| && table[k].Free?)
    && (|devices| < MAX_DEVICES || exists i :: 0 <= i < |devices| && devices[i].Absent?)
  }

  /** The entry is not empty and begins on the disk. */
  predicate OnDisk(entry: Entry, d: Device)
    requires d.Disk?
  {
    entry.count != 0 && entry.start < d.size
  }

  /** The part of an entry that lies on its disk. */
  function Cut(disk: nat, entry: Entry, id: nat, d: Device, slot: nat): Device
    requires d.Disk? && entry.start <= d.size
  {
    Slice(id, disk, entry.start, if entry.count > d.size - entry.start then d.size - entry.start
        else entry.count, d.writable, slot)
  }

  /** Device `i` is what entry `n` of the disk's table describes. */
  predicate Describes(devices: seq<Device>, disk: nat, entry: Entry, id: nat, i: nat)
    requires disk < |devices| && devices[disk].Disk?
  {
    && OnDisk(entry, devices[disk]) && i < |devices| && devices[i].Slice?
    && devices[i] == Cut(disk, entry, id, devices[disk], devices[i].slot)
  }

  /** The partitions of the disk are the entries in `places`, one device each. These are the first of those
      that lie on the disk, and all of them unless a table is full. */
  predicate Registered(table: seq<Slot>, devices: seq<Device>, disk: nat, entries: seq<Entry>, ids: seq<nat>,
                       places: map<nat, nat>)
    requires |ids| == |entries|
  {
    && disk < |devices| && devices[disk].Disk?
    && (forall n :: n in places ==> n < |entries| && Describes(devices, disk, entries[n], ids[n], places[n]))
    && (forall m, n :: m in places && n in places && places[m] == places[n] ==> m == n)
    && (forall i :: 0 <= i < |devices| && PartOf(devices[i], disk) ==> i in places.Values)
    && (forall n :: 0 <= n < |entries| && n !in places && OnDisk(entries[n], devices[disk]) ==>
          !HasRoom(table, devices) && forall m :: m in places ==> m < n)
  }

  /** What the disk is said to carry touches no partition. */
  lemma SchemeKeeps(before: State, s: State, table: seq<Slot>, disk: nat, scheme: bool, entries: seq<Entry>,
                    ids: seq<nat>, places: map<nat, nat>)
    requires Rescanned(before, s, disk) && TableOk(table, s.devices) && |ids| == |entries|
    requires Registered(table, s.devices, disk, entries, ids, places)
    ensures var after := s.devices[disk := s.devices[disk].(partitioned := scheme)];
            && Rescanned(before, s.(devices := after), disk) && TableOk(table, after)
            && Registered(table, after, disk, entries, ids, places)
  {
    var after := s.devices[disk := s.devices[disk].(partitioned := scheme)];
    assert HasRoom(table, after) ==> HasRoom(table, s.devices);
    hide HasRoom;
    assert forall n :: n in places ==> Describes(after, disk, entries[n], ids[n], places[n]);
  }

  lemma RefusedRegisters(table: seq<Slot>, devices: seq<Device>, disk: nat, entries: seq<Entry>, ids: seq<nat>,
                         n: nat, places: map<nat, nat>)
    requires n < |entries| == |ids| && Registered(table, devices, disk, entries[..n], ids[..n], places)
    requires !(OnDisk(entries[n], devices[disk]) && HasRoom(table, devices))
    ensures Registered(table, devices, disk, entries[..n + 1], ids[..n + 1], places)
  {
    hide HasRoom;
    assert forall m :: 0 <= m < n ==> entries[..n + 1][m] == entries[..n][m] && ids[..n + 1][m] == ids[..n][m];
  }

  lemma AddedRegisters(was: seq<Slot>, table: seq<Slot>, devices: seq<Device>, disk: nat, entries: seq<Entry>,
                       ids: seq<nat>, n: nat, places: map<nat, nat>, i: nat, k: nat)
    requires n < |entries| == |ids| && Registered(was, devices, disk, entries[..n], ids[..n], places)
    requires OnDisk(entries[n], devices[disk]) && HasRoom(was, devices)
    requires i <= |devices| && (i < |devices| ==> devices[i].Absent?)
    ensures Registered(table, Placed(devices, i, Cut(disk, entries[n], ids[n], devices[disk], k)), disk,
                       entries[..n + 1], ids[..n + 1], places[n := i])
  {
    hide HasRoom;
    var after := Placed(devices, i, Cut(disk, entries[n], ids[n], devices[disk], k));
    assert forall m :: 0 <= m < n ==> entries[..n + 1][m] == entries[..n][m] && ids[..n + 1][m] == ids[..n][m];
    forall j | 0 <= j < |after| && PartOf(after[j], disk)
      ensures j in places[n := i].Values
    {
      if j == i {
        assert places[n := i][n] == i;
      } else {
        assert j in places.Values;
        var m :| m in places && places[m] == j;
        assert places[n := i][m] == j;
      }
    }
  }

  /** A device in slot `i`, which may be the next one. */
  function Placed(devices: seq<Device>, i: nat, d: Device): seq<Device>
    requires i <= |devices|
  {
    if i < |devices| then devices[i := d] else devices + [d]
  }

  lemma DeviceInside(s: State, i: nat)
    requires Good(s) && i < |s.devices| && !s.devices[i].Absent?
    ensures var e := ExtentOf(s.devices, i); e.disk in s.contents && e.start + e.count <= |s.contents[e.disk]|
  {
    ExtentInside(s, i);
  }

  lemma AddedKeeps(before: State, mid: State, after: State, disk: nat, entry: Entry, id: nat, i: nat, k: nat)
    requires Rescanned(before, mid, disk) && entry.count != 0 && entry.start < mid.devices[disk].size
    requires i <= |mid.devices| && (i < |mid.devices| ==> mid.devices[i].Absent?)
    requires after == mid.(devices := Placed(mid.devices, i, Cut(disk, entry, id, mid.devices[disk], k)))
    ensures Rescanned(before, after, disk)
  {
  }
}
