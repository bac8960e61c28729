/** The loadable segments of an executable image: which the loader accepts, what
    permissions their pages get and which byte ends up where. */
module ElfSegments {
  import opened Machine

  const USER_BASE := 0x40_0000
  const GUARD_BOTTOM := 0x70_0000_0000 - 256 * PAGE - PAGE
  const MAX_SEGMENTS := 64

  /** A program header, as the file gives it. */
  datatype Program = Program(load: bool, executable: bool, writable: bool, offset: nat, address: nat, fileSize: nat,
                             memorySize: nat, alignment: nat)

  function AlignUp(x: nat): nat { AlignDown(Wrap(x + PAGE - 1)) }

  predicate RangeWithin(offset: nat, size: nat, limit: nat) { size <= limit && offset <= limit - size }

  /** An accepted segment: its pages [start, end), and what the file says of it. */
  datatype Segment = Segment(start: nat, end: nat, address: nat, offset: nat, fileSize: nat, memorySize: nat,
                             writable: bool, executable: bool)

  function Address(p: Program, bias: nat): nat { Wrap(p.address + bias) }
  function ImageEnd(p: Program, bias: nat): nat { Wrap(Address(p, bias) + p.memorySize) }

  predicate ValidAlignment(p: Program, bias: nat) {
    p.alignment == 0 || p.alignment == 1 || (PowerOfTwo(p.alignment)
        && p.offset % p.alignment == Address(p, bias) % p.alignment)
  }

  predicate ValidRange(p: Program, bias: nat) {
    && p.memorySize != 0 && ImageEnd(p, bias) >= p.address && Address(p, bias) >= USER_BASE
    && ImageEnd(p, bias) <= GUARD_BOTTOM
    && AlignUp(ImageEnd(p, bias)) >= ImageEnd(p, bias)
  }

  predicate ValidProgram(p: Program, bias: nat, size: nat) {
    && ValidAlignment(p, bias) && ValidRange(p, bias) && p.fileSize <= p.memorySize
    && RangeWithin(p.offset, p.fileSize, size)
    && !(p.executable && p.writable)
  }

  function SegmentOf(p: Program, bias: nat): Segment {
    Segment(AlignDown(Address(p, bias)), AlignUp(ImageEnd(p, bias)), Address(p, bias), p.offset, p.fileSize,
            p.memorySize, p.writable, p.executable)
  }

  predicate Overlap(a: Segment, b: Segment) { a.start < b.end && b.start < a.end }

  /** Two segments that share pages do not make them writable and executable. */
  predicate Compatible(a: Segment, b: Segment) {
    Overlap(a, b) ==> !((a.writable || b.writable) && (a.executable || b.executable))
  }

  predicate GoodSegment(s: Segment, size: nat) {
    && USER_BASE <= s.start <= s.address && s.end <= GUARD_BOTTOM && s.start % PAGE == 0 && s.end % PAGE == 0
    && s.address < s.start + PAGE
    && s.fileSize <= s.memorySize && 0 < s.memorySize && s.offset + s.fileSize <= size && !(s.writable && s.executable)
  }

  predicate GoodSegments(segments: seq<Segment>, size: nat) {
    && (forall i :: 0 <= i < |segments| ==> GoodSegment(segments[i], size))
    && forall i, j :: 0 <= i < j < |segments| ==> Compatible(segments[i], segments[j])
  }

  lemma ValidIsGood(p: Program, bias: nat, size: nat)
    requires ValidProgram(p, bias, size)
    ensures GoodSegment(SegmentOf(p, bias), size)
  {
    Aligned(Address(p, bias));
    UpTo(ImageEnd(p, bias));
  }

  lemma Aligned(x: nat)
    ensures AlignDown(x) % PAGE == 0 && AlignDown(x) <= x < AlignDown(x) + PAGE
    ensures x >= USER_BASE ==> AlignDown(x) >= USER_BASE
  {
    var q := x / PAGE;
    assert x == q * PAGE + x % PAGE;
  }

  lemma UpTo(x: nat)
    requires x <= GUARD_BOTTOM
    ensures AlignUp(x) % PAGE == 0 && x <= AlignUp(x) <= GUARD_BOTTOM
  {
    assert Wrap(x + PAGE - 1) == x + PAGE - 1;
    Aligned(x + PAGE - 1);
  }

  /** No 64-bit sum in the range check came around. */
  predicate NoWrap(p: Program, bias: nat) { p.address + bias + p.memorySize < ADDRESSES }

  /** The pages of a segment hold all of it exactly when its end did not come around: the range check
      compares the end with the address before the load offset, and lets a smaller end through. */
  lemma PagesHoldSegment(p: Program, bias: nat, size: nat)
    requires ValidProgram(p, bias, size) && p.address < ADDRESSES && (bias == 0 || bias == USER_BASE)
    requires p.memorySize < ADDRESSES
    ensures var s := SegmentOf(p, bias); s.address + s.memorySize <= s.end <==> NoWrap(p, bias)
  {
    UpTo(ImageEnd(p, bias));
    assert Address(p, bias) == p.address + bias;
  }

  /** Such an image: loaded at an offset, from 0x500000 to 0x200000 the long way round. */
  lemma WrappedEndAccepted()
    ensures var p := Program(true, false, false, 0, 0x10_0000, 0, ADDRESSES - 0x30_0000, 0);
            ValidProgram(p, USER_BASE, 0) && !NoWrap(p, USER_BASE) && ImageEnd(p, USER_BASE) == 0x20_0000
  {
    var p := Program(true, false, false, 0, 0x10_0000, 0, ADDRESSES - 0x30_0000, 0);
    assert Address(p, USER_BASE) == 0x50_0000;
    assert Address(p, USER_BASE) + p.memorySize == ADDRESSES + 0x20_0000;
  }

  // ----- page permissions

  predicate OnPage(s: Segment, page: nat) { s.start <= page < s.end }

  predicate PageWritable(segments: seq<Segment>, page: nat) {
    exists i :: 0 <= i < |segments| && OnPage(segments[i], page) && segments[i].writable
  }
  predicate PageExecutable(segments: seq<Segment>, page: nat) {
    exists i :: 0 <= i < |segments| && OnPage(segments[i], page) && segments[i].executable
  }

  /** No page becomes writable and executable, however many segments share it, though only pairs were checked. */
  lemma NeverBoth(segments: seq<Segment>, size: nat, page: nat)
    requires GoodSegments(segments, size)
    ensures !(PageWritable(segments, page) && PageExecutable(segments, page))
  {
    forall i, j | 0 <= i < |segments| && 0 <= j < |segments| && OnPage(segments[i], page) && segments[i].writable
      && OnPage(segments[j], page)
      ensures !segments[j].executable
    {
      assert GoodSegment(segments[i], size);
      if i < j {
        assert Compatible(segments[i], segments[j]);
      } else if j < i {
        assert Compatible(segments[j], segments[i]);
      }
    }
  }

  // ----- contents

  predicate InFile(s: Segment, a: nat) { s.address <= a < s.address + s.fileSize }

  /** The byte at `a` after the first `n` segments: from the last that has file content there, or zero. */
  function Content(segments: seq<Segment>, image: seq<bv8>, n: nat, a: nat): bv8
    requires n <= |segments|
  {
    if n == 0 then 0
    else if InFile(segments[n - 1], a) && segments[n - 1].offset + (a - segments[n - 1].address) < |image|
    then image[segments[n - 1].offset + (a - segments[n - 1].address)]
    else Content(segments, image, n - 1, a)
  }

  predicate InMemory(s: Segment, a: nat) { s.address <= a < s.address + s.memorySize }

  /** The segments do not overlap in memory. */
  predicate Disjoint(segments: seq<Segment>) {
    forall i, j :: 0 <= i < j < |segments| ==> Beside(segments[i], segments[j])
  }

  predicate Beside(s: Segment, t: Segment) {
    s.address + s.memorySize <= t.address || t.address + t.memorySize <= s.address
  }

  /** Every byte of a segment is its file content, and zero beyond it, whatever else shares its pages. */
  lemma {:induction false} SegmentContent(segments: seq<Segment>, image: seq<bv8>, n: nat, i: nat, a: nat)
    requires GoodSegments(segments, |image|) && i < |segments| && n <= |segments| && InMemory(segments[i], a)
    requires Disjoint(segments)
    ensures Content(segments, image, n, a) ==
              if i < n && InFile(segments[i], a) then image[segments[i].offset + (a - segments[i].address)] else 0
  {
    assert GoodSegment(segments[i], |image|);
    if n > 0 {
      SegmentContent(segments, image, n - 1, i, a);
      assert GoodSegment(segments[n - 1], |image|);
      if i < n - 1 {
        assert Beside(segments[i], segments[n - 1]);
      } else if n - 1 < i {
        assert Beside(segments[n - 1], segments[i]);
      }
    }
  }
}
