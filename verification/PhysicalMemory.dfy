/** The physical page allocator: an array of free regions shifted in place. */
module PhysicalMemory {
  import opened Division
  import opened Machine
  import opened FreeRegions

  const MAX_REGIONS := 2048
  const MIN_ADDRESS := 0x100000

  /** The bytes of a number of pages, as the code computes them. */
  function Bytes(pages: nat): (bytes: nat)
    ensures bytes < ADDRESSES && bytes % PAGE == 0
  {
    Wrap(pages * PAGE)
  }

  /** The product is right exactly for page counts below 2^52; beyond, the regions lose less than the
      allocation claims. */
  lemma BytesExact(pages: nat)
    ensures Bytes(pages) == pages * PAGE <==> pages < 0x10_0000_0000_0000
  {
  }

  lemma WrapOfPages(address: nat, bytes: nat)
    requires address < ADDRESSES && bytes < ADDRESSES && address % PAGE == 0 && bytes % PAGE == 0
    ensures Wrap(address + bytes) ==
              if address + bytes < ADDRESSES then address + bytes else address + bytes - ADDRESSES
    ensures Wrap(address + bytes) % PAGE == 0
  {
    RemainderOf(address + bytes, address / PAGE + bytes / PAGE, PAGE, 0);
    RemainderOf(address + bytes - ADDRESSES, address / PAGE + bytes / PAGE - ADDRESSES / PAGE, PAGE, 0);
  }

  /** An entry of the boot memory map. */
  datatype Entry = Entry(base: nat, length: nat, usable: bool)

  /** The whole pages of an entry, above the first megabyte. */
  function Span(e: Entry): (r: Region)
    ensures r.base < r.end ==> GoodRegion(r) && OfPages([r])
  {
    var start := AlignDown(Wrap(e.base + PAGE - 1));
    Region(if start < MIN_ADDRESS then MIN_ADDRESS else start, AlignDown(Wrap(e.base + e.length)))
  }

  lemma SpanPages(e: Entry)
    ensures Span(e).base < Span(e).end ==> (Span(e).end - Span(e).base) / PAGE >= 1
    ensures Span(e).end < ADDRESSES && Span(e).base % PAGE == 0 && Span(e).end % PAGE == 0
  {
  }

  /** A usable entry of the map holds the address. */
  predicate Usable(map_: seq<Entry>, x: int) {
    exists i :: 0 <= i < |map_| && map_[i].usable && InRegion(Span(map_[i]), x)
  }

  /** The addresses of the first `n` entries are `rs`. */
  ghost predicate Covers(rs: seq<Region>, entries: seq<Entry>, n: nat) {
    WellFormed(rs) && n <= |entries| && forall x :: Owned(rs, x) <==> Usable(entries[..n], x)
  }

  /** Entry `n` has pages to add, but those before it already make as many regions as there is room for. */
  ghost predicate TooMany(entries: seq<Entry>, n: nat) {
    && n < |entries| && entries[n].usable && Span(entries[n]).base < Span(entries[n]).end
    && exists rs :: Covers(rs, entries, n) && |rs| == MAX_REGIONS
  }

  lemma RegionsCount(rs: seq<Region>, entries: seq<Entry>, n: nat)
    requires Covers(rs, entries, n) && |rs| < MAX_REGIONS
    ensures !TooMany(entries, n)
  {
    forall other | Covers(other, entries, n)
      ensures |other| != MAX_REGIONS
    {
      Canonical(rs, other);
    }
  }

  lemma EntryCounts(rs: seq<Region>, entries: seq<Entry>, n: nat)
    requires Covers(rs, entries, n) && n < |entries| && |rs| <= MAX_REGIONS
    ensures TooMany(entries, n) <==>
              entries[n].usable && Span(entries[n]).base < Span(entries[n]).end && |rs| == MAX_REGIONS
  {
    if |rs| < MAX_REGIONS { RegionsCount(rs, entries, n); }
  }

  lemma NothingCovers(entries: seq<Entry>)
    ensures Covers([], entries, 0)
  {
  }

  lemma AllCovered(rs: seq<Region>, entries: seq<Entry>)
    requires Covers(rs, entries, |entries|)
    ensures forall x :: Owned(rs, x) <==> Usable(entries, x)
  {
    assert entries[..|entries|] == entries;
  }

  lemma NoneLater(entries: seq<Entry>)
    ensures forall n: nat :: n >= |entries| ==> !TooMany(entries, n)
  {
  }

  class PageAllocator {
    const regions: array<Region>
    var count: nat
    var totalPages: nat
    var ready: bool

    ghost predicate Sound()
      reads this
    {
      regions.Length == MAX_REGIONS && count <= MAX_REGIONS
    }

    ghost function List(): seq<Region>
      requires Sound()
      reads this, regions
    {
      regions[..count]
    }

    ghost predicate Valid()
      reads this, regions
    {
      Sound() && WellFormed(List()) && OfPages(List())
    }

    /** Takes one entry out; an index past the end is ignored. */
    method RemoveRegion(index: nat)
      requires Sound()
      modifies this`count, regions
      ensures Sound()
      ensures List() == if index < |old(List())| then old(List())[..index] + old(List())[index + 1..] else old(List())
      ensures count == if index < old(count) then old(count) - 1 else old(count)
    {
      if index >= count {
        return;
      }
      ghost var was := regions[..];
      for cursor := index + 1 to count
        invariant count == old(count)
        invariant forall j :: 0 <= j < index || cursor - 1 <= j < count ==> regions[j] == was[j]
        invariant forall j :: index <= j < cursor - 1 ==> regions[j] == was[j + 1]
      {
        regions[cursor - 1] := regions[cursor];
      }
      regions[count - 1] := Region(0, 0);
      count := count - 1;
      assert regions[..count] == was[..index] + was[index + 1..count + 1];
    }

    method InsertRegion(index: nat, base: nat, end: nat) returns (ok: bool)
      requires Sound()
      modifies this`count, regions
      ensures Sound() && ok == (base < end && old(count) < MAX_REGIONS && index <= old(count))
      ensures List() == if ok then old(List())[..index] + [Region(base, end)] + old(List())[index..] else old(List())
    {
      if base >= end || count == MAX_REGIONS || index > count {
        return false;
      }
      ghost var was := regions[..];
      ShiftUp(index);
      regions[index] := Region(base, end);
      count := count + 1;
      InsertedList(was, regions[..], count - 1, index, Region(base, end));
      return true;
    }

    /** Moves the entries from `index` on up by one. */
    method ShiftUp(index: nat)
      requires regions.Length == MAX_REGIONS && index <= count < MAX_REGIONS
      modifies regions
      ensures forall j :: 0 <= j < index ==> regions[j] == old(regions[..])[j]
      ensures forall j :: index < j <= count ==> regions[j] == old(regions[..])[j - 1]
    {
      ghost var was := regions[..];
      var cursor := count;
      while cursor > index
        invariant index <= cursor <= count
        invariant forall j :: 0 <= j < cursor ==> regions[j] == was[j]
        invariant forall j :: cursor < j <= count ==> regions[j] == was[j - 1]
      {
        regions[cursor] := regions[cursor - 1];
        cursor := cursor - 1;
      }
    }

    /** The entry in front of `index` swallows it. */
    method Join(index: nat)
      requires Sound() && 0 < index < count
      modifies this`count, regions
      ensures Sound() && List() == JoinLeft(old(List()), index) && count == old(count) - 1
    {
      if regions[index].end > regions[index - 1].end {
        regions[index - 1] := regions[index - 1].(end := regions[index].end);
      }
      RemoveRegion(index);
    }

    method MergeLeft(start: nat) returns (index: nat)
      requires Sound() && WellFormedBut(List(), start)
      modifies this`count, regions
      ensures Sound() && WellFormedBut(List(), index) && SameOwned(old(List()), List())
      ensures (OfPages(old(List())) ==> OfPages(List()))
      ensures count <= old(count)
      ensures index > 0 ==> Apart(List()[index - 1], List()[index])
    {
      assert start < |List()|;
      hide SameOwned, WellFormedBut, JoinLeft, OfPages;
      index := start;
      Reflexive(List());
      while index > 0 && regions[index - 1].end >= regions[index].base
        invariant Sound() && index < count && WellFormedBut(List(), index) && SameOwned(old(List()), List())
        invariant (OfPages(old(List())) ==> OfPages(List())) && count <= old(count)
        decreases index
      {
        ghost var before := List();
        JoinedLeft(before, index);
        if OfPages(before) { JoinedOfPages(before, index); }
        Join(index);
        Transitive(old(List()), before, List());
        index := index - 1;
      }
    }

    /** Joins entry `start` with every region it overlaps or touches. */
    method MergeNeighbors(start: nat)
      requires Sound() && WellFormedBut(List(), start)
      modifies this`count, regions
      ensures Sound() && WellFormed(List()) && SameOwned(old(List()), List())
      ensures (OfPages(old(List())) ==> OfPages(List()))
      ensures count <= old(count)
    {
      hide SameOwned, JoinLeft, WellFormed, OfPages;
      var index := MergeLeft(start);
      assert index < |List()|;
      hide WellFormedBut;
      while index + 1 < count && regions[index].end >= regions[index + 1].base
        invariant Sound() && index < count && WellFormedBut(List(), index) && SameOwned(old(List()), List())
        invariant index > 0 ==> Apart(List()[index - 1], List()[index])
        invariant (OfPages(old(List())) ==> OfPages(List())) && count <= old(count)
        decreases count
      {
        ghost var before := List();
        JoinedRight(before, index);
        if OfPages(before) { JoinedOfPages(before, index + 1); }
        Join(index + 1);
        Transitive(old(List()), before, List());
      }
      Finished(List(), index);
    }

    /** Adds a run of addresses, also where some are free already. */
    method AddFreeRegion(base: nat, end: nat) returns (ok: bool)
      requires Sound() && WellFormed(List()) && end < ADDRESSES
      modifies this`count, regions
      ensures Sound() && WellFormed(List()) && ok == (base < end && old(count) < MAX_REGIONS) && count <= old(count) + 1
      ensures OfPages(old(List())) && base % PAGE == 0 && end % PAGE == 0 ==> OfPages(List())
      ensures !ok ==> List() == old(List())
      ensures ok ==> forall x :: Owned(List(), x) <==> Owned(old(List()), x) || base <= x < end
    {
      if base >= end {
        return false;
      }
      var index := 0;
      while index < count && regions[index].base < base
        invariant index <= count && (index > 0 ==> regions[index - 1].base < base)
      {
        index := index + 1;
      }
      ok := InsertRegion(index, base, end);
      if !ok {
        return false;
      }
      Inserted(old(List()), index, Region(base, end));
      ghost var inserted := List();
      InsertedOfPages(old(List()), index, Region(base, end));
      hide WellFormedBut, OfPages;
      MergeNeighbors(index);
    }

    constructor (entries: seq<Entry>, offset: nat)
      ensures Valid() && (ready ==> forall x :: Owned(List(), x) <==> Usable(entries, x))
      ensures ready <==> offset != 0 && (exists x :: Usable(entries, x)) && forall n: nat :: !TooMany(entries, n)
      ensures offset != 0 && |entries| <= MAX_REGIONS ==> forall n: nat :: !TooMany(entries, n)
    {
      regions := new Region[MAX_REGIONS](i => Region(0, 0));
      count, totalPages, ready := 0, 0, false;
      new;
      if offset == 0 {
        return;
      }
      var ok := AddEntries(entries);
      if !ok {
        count, totalPages := 0, 0;
        return;
      }
      if count > 0 { assert InRegion(List()[0], List()[0].base) && Owned(List(), List()[0].base); }
      ready := count != 0 && totalPages != 0;
    }

    /** Adds the usable entries of the map; false when there are too many regions. */
    method AddEntries(entries: seq<Entry>) returns (ok: bool)
      requires Valid() && count == 0 && totalPages == 0 && !ready
      modifies this`count, this`totalPages, regions
      ensures Sound() && (ok <==> forall n: nat :: !TooMany(entries, n)) && (|entries| <= MAX_REGIONS ==> ok)
      ensures ok ==> Valid() && (totalPages == 0 ==> count == 0) && forall x :: Owned(List(), x) <==> Usable(entries, x)
    {
      NothingCovers(entries);
      assert Sound() && List() == [];
      hide Covers, TooMany, Valid;
      for i := 0 to |entries|
        invariant Sound() && Valid() && (totalPages == 0 ==> count == 0) && count <= i && Covers(List(), entries, i)
        invariant forall n: nat :: n < i ==> !TooMany(entries, n)
      {
        var added := AddEntry(entries, i);
        if !added {
          return false;
        }
      }
      AllCovered(List(), entries);
      NoneLater(entries);
      return true;
    }

    /** Adds the pages of one entry; false when there is no room for another region. */
    method AddEntry(entries: seq<Entry>, i: nat) returns (ok: bool)
      requires Valid() && i < |entries| && Covers(List(), entries, i) && (totalPages == 0 ==> count == 0)
      modifies this`count, this`totalPages, regions
      ensures Sound() && (ok <==> !TooMany(entries, i)) && count <= old(count) + 1
      ensures ok ==> Valid() && (totalPages == 0 ==> count == 0) && Covers(List(), entries, i + 1)
      ensures old(count) < MAX_REGIONS ==> ok
    {
      hide Usable, Span, WellFormed, OfPages, TooMany;
      UsableNext(entries, i);
      var span := Span(entries[i]);
      SpanPages(entries[i]);
      EntryCounts(List(), entries, i);
      if entries[i].usable && span.base < span.end {
        var added := AddFreeRegion(span.base, span.end);
        if !added {
          return false;
        }
        totalPages := totalPages + (span.end - span.base) / PAGE;
      }
      assert forall x :: Owned(List(), x) <==> Usable(entries[..i + 1], x);
      return true;
    }

    /** Takes pages from the first region that is large enough. */
    method AllocateContiguous(pages: nat) returns (ok: bool, base: nat)
      requires Valid()
      modifies this`count, regions
      ensures Valid()
      ensures ok <==> ready && pages != 0 && exists i :: 0 <= i < |old(List())| && Room(old(List())[i]) >= Bytes(pages)
      ensures !ok ==> List() == old(List())
      ensures ok ==> forall x :: base <= x < base + Bytes(pages) ==> Owned(old(List()), x)
      ensures ok ==> forall x :: Owned(List(), x) <==> Owned(old(List()), x) && !(base <= x < base + Bytes(pages))
      ensures ok ==> FirstFit(old(List()), base, Bytes(pages))
    {
      base := 0;
      if !ready || pages == 0 {
        return false, 0;
      }
      var bytes := Bytes(pages);
      for index := 0 to count
        invariant List() == old(List()) && forall j :: 0 <= j < index ==> Room(List()[j]) < bytes
      {
        if regions[index].end - regions[index].base >= bytes {
          base := regions[index].base;
          Taken(List(), index, bytes);
          forall x | base <= x < base + bytes
            ensures Owned(old(List()), x)
          {
            assert InRegion(old(List())[index], x);
          }
          regions[index] := regions[index].(base := base + bytes);
          if regions[index].base == regions[index].end {
            RemoveRegion(index);
          }
          assert List() == Take(old(List()), index, bytes);
          return true, base;
        }
      }
      return false, 0;
    }

    /** Gives pages back. */
    method FreePages(address: nat, pages: nat) returns (ok: bool)
      requires Valid() && address < ADDRESSES
      modifies this`count, regions
      ensures Valid()
      ensures ok == (ready && Bytes(pages) != 0 && address % PAGE == 0 && address + Bytes(pages) < ADDRESSES
                  && old(count) < MAX_REGIONS)
      ensures !ok ==> List() == old(List())
      ensures ok ==> forall x :: Owned(List(), x) <==> Owned(old(List()), x) || address <= x < address + Bytes(pages)
    {
      if !ready || pages == 0 || address % PAGE != 0 {
        return false;
      }
      var bytes := Bytes(pages);
      if bytes == 0 {
        return false;
      }
      WrapOfPages(address, bytes);
      hide Bytes, Wrap, OfPages;
      ok := AddFreeRegion(address, Wrap(address + bytes));
    }

    /** The free pages, counted from the regions. */
    method FreePageCount() returns (pages: nat)
      requires Valid()
      ensures pages == if ready then |PageSet(List())| else 0
    {
      if !ready {
        return 0;
      }
      pages := 0;
      for index := 0 to count
        invariant pages == Pages(List()[..index])
      {
        assert List()[..index + 1][..index] == List()[..index];
        pages := pages + (regions[index].end - regions[index].base) / PAGE;
      }
      assert List()[..count] == List();
      PagesCounted(List());
    }
  }

  function Room(r: Region): int { r.end - r.base }

  /** The run begins the first region with room for it. */
  predicate FirstFit(rs: seq<Region>, base: nat, bytes: nat) {
    exists i :: 0 <= i < |rs| && rs[i].base == base && Room(rs[i]) >= bytes && forall j :: 0 <= j < i ==>
      Room(rs[j]) < bytes
  }

  lemma InsertedList(was: seq<Region>, now: seq<Region>, n: nat, index: nat, r: Region)
    requires |was| == |now| && index <= n < |was| && now[index] == r
    requires forall j :: 0 <= j < index ==> now[j] == was[j]
    requires forall j :: index < j <= n ==> now[j] == was[j - 1]
    ensures now[..n + 1] == was[..n][..index] + [r] + was[..n][index..]
  {
  }

  lemma InsertedOfPages(rs: seq<Region>, i: nat, r: Region)
    requires i <= |rs|
    ensures OfPages(rs) && r.base % PAGE == 0 && r.end % PAGE == 0 ==> OfPages(rs[..i] + [r] + rs[i..])
  {
    var qs := rs[..i] + [r] + rs[i..];
    assert forall j :: 0 <= j < i ==> qs[j] == rs[j];
    assert forall j :: i < j < |qs| ==> qs[j] == rs[j - 1];
  }

  lemma Reflexive(rs: seq<Region>)
    ensures SameOwned(rs, rs)
  {
  }

  lemma Transitive(a: seq<Region>, b: seq<Region>, c: seq<Region>)
    requires SameOwned(a, b) && SameOwned(b, c)
    ensures SameOwned(a, c)
  {
  }

  lemma Finished(rs: seq<Region>, i: nat)
    requires WellFormedBut(rs, i) && (i > 0 ==> Apart(rs[i - 1], rs[i])) && (i + 1 < |rs| ==> Apart(rs[i], rs[i + 1]))
    ensures WellFormed(rs)
  {
  }

  lemma UsableNext(map_: seq<Entry>, i: nat)
    requires i < |map_|
    ensures forall x :: Usable(map_[..i + 1], x) <==>
              Usable(map_[..i], x) || (map_[i].usable && InRegion(Span(map_[i]), x))
  {
    forall x
      ensures Usable(map_[..i + 1], x) <==> Usable(map_[..i], x) || (map_[i].usable && InRegion(Span(map_[i]), x))
    {
      if k :| 0 <= k < |map_[..i]| && map_[..i][k].usable && InRegion(Span(map_[..i][k]), x) {
        assert map_[..i + 1][k] == map_[..i][k];
      }
      assert map_[..i + 1][i] == map_[i];
    }
  }

  /** Giving back what was just allocated restores the list of regions, entry by entry. */
  lemma FreeUndoesAllocate(before: seq<Region>, between: seq<Region>, after: seq<Region>, base: nat, bytes: nat)
    requires WellFormed(before) && WellFormed(after)
    requires forall x :: base <= x < base + bytes ==> Owned(before, x)
    requires forall x :: Owned(between, x) <==> Owned(before, x) && !(base <= x < base + bytes)
    requires forall x :: Owned(after, x) <==> Owned(between, x) || base <= x < base + bytes
    ensures after == before
  {
    Canonical(after, before);
  }
}
