/** Disks, the partitions cut from them and the volumes mounted on either: where
    each lies on its disk, and what mounting, rescanning and raw writes do. */
module StorageExtents {

  type Sector = seq<bv8>

  /** A slot of the device table: nothing, a disk, or a partition of the disk in slot `parent`, kept in
      `slot` of the partition table. */
  datatype Device = Absent
                  | Disk(id: nat, size: nat, writable: bool, partitioned: bool)
                  | Slice(id: nat, parent: nat, start: nat, size: nat, writable: bool, slot: nat)

  /** A slot of the mount table; the root and the boot volume are fixed. */
  datatype Mount = Vacant | Volume(device: nat, attached: bool, fixed: bool)

  datatype State = State(devices: seq<Device>, mounts: seq<Mount>, contents: map<nat, seq<Sector>>)

  /** Sectors [start, start + count) of a disk. */
  datatype Extent = Extent(disk: nat, start: nat, count: nat)

  function ExtentOf(devices: seq<Device>, i: nat): Extent {
    if i >= |devices| then Extent(i, 0, 0) else
    match devices[i]
    case Absent => Extent(i, 0, 0)
    case Disk(_, size, _, _) => Extent(i, 0, size)
    case Slice(_, parent, start, size, _, _) => Extent(parent, start, size)
  }

  predicate In(e: Extent, disk: nat, sector: nat) { e.disk == disk && e.start <= sector < e.start + e.count }

  predicate Overlap(e: Extent, f: Extent) {
    e.disk == f.disk && e.start < f.start + f.count && f.start < e.start + e.count
  }

  /** The test on the ends finds exactly the extents with a sector in common. */
  lemma OverlapMeans(e: Extent, f: Extent)
    requires e.count > 0 && f.count > 0
    ensures Overlap(e, f) <==> exists sector: nat :: In(e, e.disk, sector) && In(f, e.disk, sector)
  {
    if Overlap(e, f) {
      var sector := if e.start < f.start then f.start else e.start;
      assert In(e, e.disk, sector) && In(f, e.disk, sector);
    }
  }

  predicate Attached(s: State, m: nat) { m < |s.mounts| && s.mounts[m].Volume? && s.mounts[m].attached }

  function VolumeExtent(s: State, m: nat): Extent
    requires Attached(s, m)
  {
    ExtentOf(s.devices, s.mounts[m].device)
  }

  predicate OverlapsMounted(s: State, e: Extent) {
    exists m :: 0 <= m < |s.mounts| && Attached(s, m) && Overlap(e, VolumeExtent(s, m))
  }

  // ----- the invariant

  /** A partition lies inside its disk. */
  predicate GoodDevice(devices: seq<Device>, d: Device) {
    d.Slice? ==>
      d.parent < |devices| && devices[d.parent].Disk? && d.size > 0 && d.start + d.size <= devices[d.parent].size
  }

  predicate GoodDevices(s: State) {
    && (forall i :: 0 <= i < |s.devices| ==> GoodDevice(s.devices, s.devices[i]))
    && forall i :: 0 <= i < |s.devices| && s.devices[i].Disk? ==>
         s.devices[i].size > 0 && i in s.contents && |s.contents[i]| == s.devices[i].size
  }

  predicate GoodMount(s: State, m: nat) {
    Attached(s, m) ==> s.mounts[m].device < |s.devices| && !s.devices[s.mounts[m].device].Absent?
  }

  /** No two mounted volumes share a sector. */
  predicate Disjoint(s: State) {
    forall m, n :: 0 <= m < n < |s.mounts| && Attached(s, m) && Attached(s, n) ==>
      !Overlap(VolumeExtent(s, m), VolumeExtent(s, n))
  }

  predicate Good(s: State) { GoodDevices(s) && Disjoint(s) && forall m :: 0 <= m < |s.mounts| ==> GoodMount(s, m) }

  lemma ExtentInside(s: State, i: nat)
    requires GoodDevices(s) && i < |s.devices| && !s.devices[i].Absent?
    ensures var e := ExtentOf(s.devices, i);
            && e.count > 0 && e.disk in s.contents && e.start + e.count <= |s.contents[e.disk]|
            && e.disk < |s.devices| && s.devices[e.disk].Disk? && e.start + e.count <= s.devices[e.disk].size
  {
    assert GoodDevice(s.devices, s.devices[i]);
  }

  // ----- the steps

  /** A volume is mounted in slot `m` and attached. */
  function MountAt(s: State, m: nat, device: nat): State
    requires m < |s.mounts|
  {
    s.(mounts := s.mounts[m := Volume(device, true, false)])
  }

  lemma MountKeeps(s: State, m: nat, device: nat)
    requires Good(s) && m < |s.mounts| && s.mounts[m].Vacant? && device < |s.devices| && !s.devices[device].Absent?
    requires !OverlapsMounted(s, ExtentOf(s.devices, device))
    ensures Good(MountAt(s, m, device))
  {
    var s' := MountAt(s, m, device);
    forall j, k | 0 <= j < k < |s'.mounts| && Attached(s', j) && Attached(s', k)
      ensures !Overlap(VolumeExtent(s', j), VolumeExtent(s', k))
    {
      if j == m {
        assert Attached(s, k);
      } else if k == m {
        assert Attached(s, j);
      } else {
        assert Attached(s, j) && Attached(s, k);
      }
    }
    forall j | 0 <= j < |s'.mounts|
      ensures GoodMount(s', j)
    {
      assert GoodMount(s, j);
    }
  }

  function ReleaseAt(s: State, m: nat): State
    requires m < |s.mounts|
  {
    s.(mounts := s.mounts[m := Vacant])
  }

  lemma ReleaseKeeps(s: State, m: nat)
    requires Good(s) && m < |s.mounts|
    ensures Good(ReleaseAt(s, m))
  {
    var s' := ReleaseAt(s, m);
    assert forall j :: 0 <= j < |s.mounts| && Attached(s', j) ==>
             Attached(s, j) && VolumeExtent(s', j) == VolumeExtent(s, j);
    forall j | 0 <= j < |s'.mounts|
      ensures GoodMount(s', j)
    {
      assert GoodMount(s, j);
    }
  }

  /** The table of the disk in slot `disk` was read again: its partitions are other ones now. */
  predicate Rescanned(s: State, s': State, disk: nat) {
    && disk < |s.devices| && s.devices[disk].Disk? && |s'.devices| >= |s.devices| && s'.mounts == s.mounts
    && s'.contents == s.contents
    && s'.devices[disk].Disk? && s'.devices[disk].size == s.devices[disk].size
    && (forall i :: 0 <= i < |s.devices| && i != disk && Stays(s.devices[i], disk) ==> s'.devices[i] == s.devices[i])
    && forall i :: 0 <= i < |s'.devices| && i != disk && !(i < |s.devices| && Stays(s.devices[i], disk)) ==>
         Fresh(s'.devices[i], disk, s.devices[disk].size)
  }

  /** A device that reading this disk's table leaves alone. */
  predicate Stays(d: Device, disk: nat) { d.Disk? || (d.Slice? && d.parent != disk) }

  predicate Fresh(d: Device, disk: nat, size: nat) {
    d.Absent? || (d.Slice? && d.parent == disk && d.size > 0 && d.start + d.size <= size)
  }

  lemma RescanKeeps(s: State, s': State, disk: nat)
    requires Good(s) && Rescanned(s, s', disk) && !OverlapsMounted(s, Extent(disk, 0, s.devices[disk].size))
    ensures Good(s')
  {
    forall i | 0 <= i < |s'.devices|
      ensures GoodDevice(s'.devices, s'.devices[i])
    {
      if i < |s.devices| { assert GoodDevice(s.devices, s.devices[i]); }
    }
    forall m | 0 <= m < |s.mounts| && Attached(s, m)
      ensures GoodMount(s', m) && VolumeExtent(s', m) == VolumeExtent(s, m)
    {
      VolumeStays(s, s', disk, m);
    }
    assert forall m :: 0 <= m < |s.mounts| ==> (Attached(s', m) <==> Attached(s, m));
  }

  /** A mounted volume is not on the disk being read again. */
  lemma VolumeStays(s: State, s': State, disk: nat, m: nat)
    requires Good(s) && Rescanned(s, s', disk) && !OverlapsMounted(s, Extent(disk, 0, s.devices[disk].size))
    requires Attached(s, m)
    ensures GoodMount(s', m) && VolumeExtent(s', m) == VolumeExtent(s, m)
  {
    assert GoodMount(s, m);
    var i := s.mounts[m].device;
    ExtentInside(s, i);
    assert !Overlap(Extent(disk, 0, s.devices[disk].size), VolumeExtent(s, m));
    assert i != disk && Stays(s.devices[i], disk);
  }

  /** Sectors of a disk are replaced. */
  function WriteAt(s: State, disk: nat, start: nat, data: seq<Sector>): State
    requires disk in s.contents && start + |data| <= |s.contents[disk]|
  {
    var c := s.contents[disk];
    s.(contents := s.contents[disk := c[..start] + data + c[start + |data|..]])
  }

  lemma WriteKeeps(s: State, disk: nat, start: nat, data: seq<Sector>)
    requires Good(s) && disk in s.contents && start + |data| <= |s.contents[disk]|
    ensures Good(WriteAt(s, disk, start, data))
  {
    var s' := WriteAt(s, disk, start, data);
    assert forall m :: 0 <= m < |s.mounts| ==> (Attached(s', m) <==> Attached(s, m)) && GoodMount(s, m);
    assert forall i :: 0 <= i < |s.devices| ==> GoodDevice(s.devices, s.devices[i]);
  }

  function SectorAt(s: State, disk: nat, sector: nat): Sector {
    if disk in s.contents && sector < |s.contents[disk]| then s.contents[disk][sector] else []
  }

  /** A raw write outside every mounted volume changes its own sectors and none of any mounted volume. */
  lemma WriteOnlyThere(s: State, e: Extent, data: seq<Sector>, disk: nat, sector: nat)
    requires e.disk in s.contents && e.start + e.count <= |s.contents[e.disk]| && |data| == e.count
    requires !OverlapsMounted(s, e)
    ensures SectorAt(WriteAt(s, e.disk, e.start, data), disk, sector) ==
              if In(e, disk, sector) then data[sector - e.start] else SectorAt(s, disk, sector)
    ensures forall m :: 0 <= m < |s.mounts| && Attached(s, m) && In(VolumeExtent(s, m), disk, sector) ==>
              SectorAt(WriteAt(s, e.disk, e.start, data), disk, sector) == SectorAt(s, disk, sector)
  {
    forall m | 0 <= m < |s.mounts| && Attached(s, m) && In(VolumeExtent(s, m), disk, sector)
      ensures !In(e, disk, sector)
    {
      assert !Overlap(e, VolumeExtent(s, m));
    }
  }

  // ----- whole runs

  datatype Action =
    | MountVolume(slot: nat, device: nat)
    | Unmount(slot: nat)
    | Rescan(disk: nat)
    | Write(device: nat, lba: nat, data: seq<Sector>)

  /** What the checks of each call let through. */
  predicate Allowed(s: State, a: Action) {
    match a
    case MountVolume(m, device) =>
      && m < |s.mounts| && s.mounts[m].Vacant? && device < |s.devices| && !s.devices[device].Absent?
      && !OverlapsMounted(s, ExtentOf(s.devices, device))
    case Unmount(m) => m < |s.mounts| && s.mounts[m].Volume? && !s.mounts[m].fixed
    case Rescan(disk) => disk < |s.devices| && s.devices[disk].Disk?
      && !OverlapsMounted(s, Extent(disk, 0, s.devices[disk].size))
    case Write(device, lba, data) =>
      && device < |s.devices| && !s.devices[device].Absent? && lba + |data| <= ExtentOf(s.devices, device).count
      && !OverlapsMounted(s, Target(s, device, lba, |data|))
  }

  /** The sectors of the disk that a range of a device is. */
  function Target(s: State, device: nat, lba: nat, count: nat): Extent {
    var e := ExtentOf(s.devices, device);
    Extent(e.disk, e.start + lba, count)
  }

  predicate Step(s: State, a: Action, s': State) {
    match a
    case MountVolume(m, device) => m < |s.mounts| && s' == MountAt(s, m, device)
    case Unmount(m) => m < |s.mounts| && s' == ReleaseAt(s, m)
    case Rescan(disk) => Rescanned(s, s', disk)
    case Write(device, lba, data) =>
      var t := Target(s, device, lba, |data|);
      t.disk in s.contents && t.start + |data| <= |s.contents[t.disk]| && s' == WriteAt(s, t.disk, t.start, data)
  }

  lemma StepKeeps(s: State, a: Action, s': State)
    requires Good(s) && Allowed(s, a) && Step(s, a, s')
    ensures Good(s')
  {
    match a {
      case MountVolume(m, device) => MountKeeps(s, m, device);
      case Unmount(m) => ReleaseKeeps(s, m);
      case Rescan(disk) => RescanKeeps(s, s', disk);
      case Write(device, lba, data) =>
        ExtentInside(s, device);
        var t := Target(s, device, lba, |data|);
        WriteKeeps(s, t.disk, t.start, data);
    }
  }

  predicate Run(states: seq<State>, actions: seq<Action>) {
    && |states| == |actions| + 1
    && forall n :: 0 <= n < |actions| ==> Allowed(states[n], actions[n]) && Step(states[n], actions[n], states[n + 1])
  }

  /** From disjoint volumes at boot, every run keeps the mounted volumes of each disk pairwise disjoint. */
  lemma {:induction false} VolumesStayDisjoint(states: seq<State>, actions: seq<Action>, n: nat)
    requires Run(states, actions) && Good(states[0]) && n <= |actions|
    ensures Good(states[n])
  {
    if n > 0 {
      VolumesStayDisjoint(states, actions, n - 1);
      StepKeeps(states[n - 1], actions[n - 1], states[n]);
    }
  }
}
