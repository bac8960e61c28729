/** The loader at work: checking the segments, mapping zeroed pages with the
    permissions of all segments on them, and reading the file onto them. */
module ElfLoader {
  import opened Division
  import opened Machine
  import opened ElfSegments

  datatype Page = Page(writable: bool, executable: bool, data: seq<bv8>)

  datatype Failure = NoFailure | BadSegment | OutOfMemory | Truncated

  predicate GoodPages(pages: map<nat, Page>) { forall p :: p in pages ==> p % PAGE == 0 && |pages[p].data| == PAGE }

  /** The place of an address in its page. */
  function Offset(a: nat): nat { a % PAGE }

  predicate Boundary(a: nat) { a % PAGE == 0 }

  function ByteAt(pages: map<nat, Page>, a: nat): bv8 {
    if AlignDown(a) in pages && Offset(a) < |pages[AlignDown(a)].data| then pages[AlignDown(a)].data[Offset(a)] else 0
  }

  /** Each page has exactly the permissions its segments ask for. */
  predicate Permitted(pages: map<nat, Page>, segments: seq<Segment>) {
    forall p :: p in pages ==>
      pages[p].writable == PageWritable(segments, p) && pages[p].executable == PageExecutable(segments, p)
  }

  /** Every page belongs to a segment. */
  predicate OnSegments(pages: map<nat, Page>, segments: seq<Segment>) {
    forall p :: p in pages ==> exists i :: 0 <= i < |segments| && OnPage(segments[i], p)
  }

  /** The loadable segments of a program table. */
  function Loadable(programs: seq<Program>, bias: nat): seq<Segment> {
    if programs == [] then []
    else Loadable(programs[..|programs| - 1], bias) + if programs[|programs| - 1].load
      then [SegmentOf(programs[|programs| - 1], bias)] else []
  }

  predicate EntryIn(p: Program, bias: nat, entry: nat) {
    && p.load && p.executable && Wrap(entry + bias) >= Address(p, bias)
    && Wrap(entry + bias) < Wrap(Address(p, bias) + p.fileSize)
  }

  class Space {
    var pages: map<nat, Page>
    /** Page frames the allocator can still hand out. */
    var frames: nat
    /** Whether the n-th read of the image succeeds. */
    const readable: nat -> bool
    var readCount: nat

    constructor (frames: nat, readable: nat -> bool)
      ensures pages == map[] && this.frames == frames && this.readable == readable
    {
      pages, this.frames, this.readable, readCount := map[], frames, readable, 0;
    }

    /** Checks the program table and collects the segments. */
    method Collect(programs: seq<Program>, bias: nat, entry: nat, size: nat)
      returns (failure: Failure, segments: seq<Segment>)
      requires |programs| <= MAX_SEGMENTS
      ensures failure == NoFailure || failure == BadSegment
      ensures failure == NoFailure <==> Acceptable(programs, bias, entry, size)
      ensures failure == NoFailure ==> segments == Loadable(programs, bias) && GoodSegments(segments, size)
    {
      hide ValidProgram, SegmentOf, Compatible, GoodSegment;
      segments := [];
      var entered := false;
      for n := 0 to |programs|
        invariant segments == Loadable(programs[..n], bias) && |segments| <= n && GoodSegments(segments, size)
        invariant forall i :: 0 <= i < n && programs[i].load ==> ValidProgram(programs[i], bias, size)
        invariant entered <==> exists i :: 0 <= i < n && EntryIn(programs[i], bias, entry)
      {
        var p := programs[n];
        assert programs[..n + 1][..n] == programs[..n];
        LoadablePrefix(programs, bias, n + 1);
        if p.load {
          if !ValidProgram(p, bias, size) {
            return BadSegment, segments;
          }
          var s := SegmentOf(p, bias);
          ValidIsGood(p, bias, size);
          var k := FirstClash(segments, s);
          if k < |segments| {
            Clash(Loadable(programs, bias), segments, s, k);
            return BadSegment, segments;
          }
          if EntryIn(p, bias, entry) {
            entered := true;
          }
          segments := segments + [s];
        }
      }
      assert programs[..|programs|] == programs;
      if |segments| == 0 || !entered {
        return BadSegment, segments;
      }
      return NoFailure, segments;
    }

    /** The first segment that must not share pages with this one, but does. */
    method FirstClash(segments: seq<Segment>, s: Segment) returns (k: nat)
      ensures k <= |segments| && (k < |segments| ==> !Compatible(segments[k], s))
      ensures forall j :: 0 <= j < k ==> Compatible(segments[j], s)
    {
      k := 0;
      while k < |segments| && Compatible(segments[k], s)
        invariant k <= |segments| && forall j :: 0 <= j < k ==> Compatible(segments[j], s)
      {
        k := k + 1;
      }
    }

    /** The permissions all segments on a page ask for together. */
    method PageFlags(segments: seq<Segment>, index: nat, page: nat) returns (writable: bool, executable: bool)
      requires index < |segments| && OnPage(segments[index], page)
      ensures writable == PageWritable(segments, page) && executable == PageExecutable(segments, page)
    {
      writable, executable := segments[index].writable, segments[index].executable;
      for k := 0 to |segments|
        invariant writable ==> PageWritable(segments, page)
        invariant executable ==> PageExecutable(segments, page)
        invariant forall j :: 0 <= j < k && OnPage(segments[j], page) ==>
                    (segments[j].writable ==> writable) && (segments[j].executable ==> executable)
      {
        if OnPage(segments[k], page) {
          writable := writable || segments[k].writable;
          executable := executable || segments[k].executable;
        }
      }
    }

    /** Adds permissions to a page that is there, or maps a zeroed one. */
    method MapPage(segments: seq<Segment>, index: nat, page: nat) returns (ok: bool)
      requires index < |segments| && OnPage(segments[index], page) && Boundary(page)
      requires GoodPages(pages) && Permitted(pages, segments) && OnSegments(pages, segments)
      modifies this
      ensures GoodPages(pages) && Permitted(pages, segments) && OnSegments(pages, segments)
      ensures !ok ==> pages == old(pages)
      ensures ok ==> page in pages && pages == old(pages)[page := pages[page]]
                     && pages[page].data == if page in old(pages) then old(pages)[page].data else seq(PAGE, i => 0)
    {
      hide PageWritable, PageExecutable, GoodPages, Permitted, OnSegments;
      var writable, executable := PageFlags(segments, index, page);
      if page in pages {
        SameFlags(pages, segments, page, writable, executable);
        pages := pages[page := pages[page].(executable := executable, writable := pages[page].writable || writable)];
        return true;
      }
      if frames == 0 {
        return false;
      }
      frames := frames - 1;
      NewPage(pages, segments, index, page, writable, executable);
      pages := pages[page := Page(writable, executable, seq(PAGE, i => 0))];
      return true;
    }

    /** Maps every page of a segment; a page that is there already keeps its bytes. */
    method MapSegment(segments: seq<Segment>, index: nat, ghost size: nat) returns (ok: bool)
      requires index < |segments| && GoodSegments(segments, size) && GoodPages(pages) && Permitted(pages, segments)
      requires OnSegments(pages, segments)
      modifies this
      ensures GoodPages(pages) && Permitted(pages, segments) && OnSegments(pages, segments)
      ensures ok ==> Mapped(old(pages), pages, segments[index].start, segments[index].end)
    {
      var s := segments[index];
      assert GoodSegment(s, size);
      var page := s.start;
      assert Boundary(s.start) && Boundary(s.end);
      hide Boundary, GoodSegment, GoodSegments, PageWritable, PageExecutable, Mapped, GoodPages, Permitted, OnSegments;
      MappedNone(pages, page);
      while page < s.end
        invariant Boundary(page) && s.start <= page && (if s.start <= s.end then page <= s.end else page == s.start)
        invariant GoodPages(pages) && Permitted(pages, segments) && OnSegments(pages, segments)
        invariant Mapped(old(pages), pages, s.start, page)
        decreases s.end - page
      {
        ghost var mid := pages;
        ok := MapPage(segments, index, page);
        if !ok {
          return;
        }
        MappedNext(old(pages), mid, pages, s.start, page);
        NextPage(page, s.end);
        page := page + PAGE;
      }
      MappedAll(old(pages), pages, s.start, page, s.end);
      return true;
    }

    /** Reads the file content of a segment onto its pages, a page at a time. */
    method CopySegment(s: Segment, image: seq<bv8>) returns (failure: Failure)
      requires GoodSegment(s, |image|) && GoodPages(pages)
      modifies this`pages, this`readCount
      ensures GoodPages(pages) && SamePages(old(pages), pages) && !failure.BadSegment?
      ensures failure.NoFailure? ==> forall a: nat :: InFile(s, a) ==> AlignDown(a) in old(pages)
      ensures failure.OutOfMemory? ==> exists a: nat :: InFile(s, a) && AlignDown(a) !in old(pages)
      ensures failure.Truncated? ==> exists n: nat :: old(readCount) <= n < readCount && !readable(n)
      ensures failure.NoFailure? ==> Copied(old(pages), pages, s, image, s.fileSize)
    {
      var remaining: nat, written: nat := s.fileSize, 0;
      ghost var before := pages;
      SameAsBefore(pages, s, image);
      hide GoodPages, SamePages, Copied, AlignDown;
      while remaining != 0
        invariant remaining + written == s.fileSize && old(readCount) <= readCount
        invariant GoodPages(pages) && SamePages(before, pages)
        invariant forall a: nat :: s.address <= a < s.address + written ==> AlignDown(a) in pages
        invariant Copied(before, pages, s, image, written)
        decreases remaining
      {
        var address := s.address + written;
        KeysSame(before, pages);
        var page, offset := AlignDown(address), Offset(address);
        var room := PAGE - offset;
        var chunk := if room < remaining then room else remaining;
        if page !in pages {
          assert InFile(s, address);
          return OutOfMemory;
        }
        var got := readable(readCount);
        readCount := readCount + 1;
        if !got {
          return Truncated;
        }
        CopyChunk(s, image, written, chunk, before);
        remaining, written := remaining - chunk, written + chunk;
      }
      KeysSame(before, pages);
      return NoFailure;
    }

    method CopyChunk(s: Segment, image: seq<bv8>, written: nat, chunk: nat, ghost before: map<nat, Page>)
      requires GoodPages(pages) && SamePages(before, pages) && s.offset + written + chunk <= |image|
      requires var a := s.address + written; AlignDown(a) in pages && Offset(a) + chunk <= PAGE
      requires Copied(before, pages, s, image, written)
      modifies this`pages
      ensures GoodPages(pages) && SamePages(before, pages) && pages.Keys == old(pages).Keys
      ensures Copied(before, pages, s, image, written + chunk)
      ensures forall a: nat :: s.address + written <= a < s.address + written + chunk ==> AlignDown(a) in pages
    {
      var page, offset := AlignDown(s.address + written), Offset(s.address + written);
      ghost var mid := pages;
      pages := pages[page := pages[page].(data := Overwrite(pages[page].data, offset,
                                                            image[s.offset + written..s.offset + written + chunk]))];
      ChunkCopied(before, mid, pages, s, image, written, chunk);
    }

    /** Loads an accepted image into an empty space: each segment's pages, then its content. However far it
        gets, pages have the permissions of their segments; if nothing fails, the image is there. */
    method Load(segments: seq<Segment>, image: seq<bv8>) returns (failure: Failure)
      requires GoodSegments(segments, |image|) && pages == map[]
      modifies this
      ensures !failure.BadSegment?
      ensures GoodPages(pages) && Permitted(pages, segments) && OnSegments(pages, segments)
      ensures failure.NoFailure? ==> Loaded(pages, segments, image, |segments|)
    {
      hide GoodPages, Permitted, OnSegments, Loaded, GoodSegments, Copied;
      NothingLoaded(pages, segments, image);
      for n := 0 to |segments|
        invariant GoodPages(pages) && Permitted(pages, segments) && OnSegments(pages, segments)
        invariant Loaded(pages, segments, image, n)
      {
        ghost var before := pages;
        var ok := MapSegment(segments, n, |image|);
        if !ok {
          return OutOfMemory;
        }
        PagesLoaded(before, pages, segments, image, n);
        ghost var mid := pages;
        OneGood(segments, |image|, n);
        failure := CopySegment(segments[n], image);
        StillPermitted(mid, pages, segments);
        if failure != NoFailure {
          return;
        }
        ContentLoaded(mid, pages, segments, image, n);
      }
      return NoFailure;
    }
  }

  /** The first `n` segments are in memory: their pages are mapped, every file byte has a page, and each
      mapped byte is what those segments put there. */
  ghost predicate Loaded(pages: map<nat, Page>, segments: seq<Segment>, image: seq<bv8>, n: nat)
    requires n <= |segments|
  {
    && (forall i, p: nat :: 0 <= i < n && OnPage(segments[i], p) && p % PAGE == 0 ==> p in pages)
    && (forall i, a: nat :: 0 <= i < n && InFile(segments[i], a) ==> AlignDown(a) in pages)
    && forall a: nat :: AlignDown(a) in pages ==> ByteAt(pages, a) == Content(segments, image, n, a)
  }

  lemma NothingLoaded(pages: map<nat, Page>, segments: seq<Segment>, image: seq<bv8>)
    requires pages == map[]
    ensures GoodPages(pages) && Permitted(pages, segments) && OnSegments(pages, segments)
    ensures Loaded(pages, segments, image, 0)
  {
  }

  lemma OneGood(segments: seq<Segment>, size: nat, n: nat)
    requires GoodSegments(segments, size) && n < |segments|
    ensures GoodSegment(segments[n], size)
  {
  }

  lemma StillPermitted(before: map<nat, Page>, after: map<nat, Page>, segments: seq<Segment>)
    requires SamePages(before, after) && Permitted(before, segments) && OnSegments(before, segments)
    ensures Permitted(after, segments) && OnSegments(after, segments)
  {
  }

  /** New pages are zero, and no earlier segment has content there. */
  lemma PagesLoaded(before: map<nat, Page>, after: map<nat, Page>, segments: seq<Segment>, image: seq<bv8>, n: nat)
    requires n < |segments| && Loaded(before, segments, image, n)
    requires Mapped(before, after, segments[n].start, segments[n].end)
    requires GoodPages(before)
    ensures Loaded(after, segments, image, n) && forall p: nat :: OnPage(segments[n], p) && p % PAGE == 0 ==> p in after
  {
    forall a: nat | AlignDown(a) in after
      ensures ByteAt(after, a) == Content(segments, image, n, a)
    {
      if AlignDown(a) !in before { NoContent(before, segments, image, n, n, a); }
    }
  }

  lemma {:induction false} NoContent(pages: map<nat, Page>, segments: seq<Segment>, image: seq<bv8>, n: nat, m: nat,
                                     a: nat)
    requires m <= n <= |segments| && Loaded(pages, segments, image, n) && AlignDown(a) !in pages
    ensures Content(segments, image, m, a) == 0
  {
    if m > 0 {
      NoContent(pages, segments, image, n, m - 1, a);
      assert InFile(segments[m - 1], a) ==> AlignDown(a) in pages;
    }
  }

  lemma ContentLoaded(before: map<nat, Page>, after: map<nat, Page>, segments: seq<Segment>, image: seq<bv8>, n: nat)
    requires n < |segments| && Loaded(before, segments, image, n) && SamePages(before, after)
    requires GoodSegment(segments[n], |image|)
    requires forall p: nat :: OnPage(segments[n], p) && p % PAGE == 0 ==> p in before
    requires forall a: nat :: InFile(segments[n], a) ==> AlignDown(a) in before
    requires Copied(before, after, segments[n], image, segments[n].fileSize)
    ensures Loaded(after, segments, image, n + 1)
  {
    hide ByteAt, AlignDown;
  }

  /** An image that was loaded: no page is writable and executable, every page lies in the user range
      below the stack guard, and where segments do not overlap every byte of each is its file content,
      or zero beyond it. */
  lemma LoadedImage(pages: map<nat, Page>, segments: seq<Segment>, image: seq<bv8>, i: nat, a: nat)
    requires GoodSegments(segments, |image|) && GoodPages(pages) && Permitted(pages, segments)
    requires OnSegments(pages, segments)
    requires Loaded(pages, segments, image, |segments|)
    ensures forall p :: p in pages ==>
              !(pages[p].writable && pages[p].executable) && USER_BASE <= p && p + PAGE <= GUARD_BOTTOM
    ensures Disjoint(segments) && i < |segments| && InMemory(segments[i], a) && a < segments[i].end ==>
              AlignDown(a) in pages
              && ByteAt(pages, a) ==
                   if InFile(segments[i], a) then image[segments[i].offset + (a - segments[i].address)] else 0
  {
    forall p | p in pages
      ensures !(pages[p].writable && pages[p].executable) && USER_BASE <= p && p + PAGE <= GUARD_BOTTOM
    {
      NeverBoth(segments, |image|, p);
      PageInRange(pages, segments, |image|, p);
    }
    if Disjoint(segments) && i < |segments| && InMemory(segments[i], a) && a < segments[i].end {
      OneGood(segments, |image|, i);
      Aligned(a);
      NextPage(AlignDown(a), segments[i].start);
      assert OnPage(segments[i], AlignDown(a));
      SegmentContent(segments, image, |segments|, i, a);
    }
  }

  lemma PageInRange(pages: map<nat, Page>, segments: seq<Segment>, size: nat, p: nat)
    requires GoodSegments(segments, size) && GoodPages(pages) && OnSegments(pages, segments) && p in pages
    ensures USER_BASE <= p && p + PAGE <= GUARD_BOTTOM
  {
    var k :| 0 <= k < |segments| && OnPage(segments[k], p);
    OneGood(segments, size, k);
    NextPage(p, segments[k].end);
  }

  predicate Acceptable(programs: seq<Program>, bias: nat, entry: nat, size: nat) {
    && (forall i :: 0 <= i < |programs| && programs[i].load ==> ValidProgram(programs[i], bias, size))
    && (forall i, j :: 0 <= i < j < |Loadable(programs, bias)| ==>
           Compatible(Loadable(programs, bias)[i], Loadable(programs, bias)[j]))
    && Loadable(programs, bias) != [] && exists i :: 0 <= i < |programs| && EntryIn(programs[i], bias, entry)
  }

  lemma {:induction false} LoadablePrefix(programs: seq<Program>, bias: nat, n: nat)
    requires n <= |programs|
    ensures Loadable(programs[..n], bias) <= Loadable(programs, bias)
    decreases |programs| - n
  {
    if n == |programs| {
      assert programs[..n] == programs;
    } else {
      LoadablePrefix(programs, bias, n + 1);
      assert programs[..n + 1][..n] == programs[..n];
    }
  }

  lemma Clash(all: seq<Segment>, segments: seq<Segment>, s: Segment, k: nat)
    requires segments + [s] <= all && k < |segments| && !Compatible(segments[k], s)
    ensures !(forall i, j :: 0 <= i < j < |all| ==> Compatible(all[i], all[j]))
  {
    assert all[k] == segments[k] && all[|segments|] == s;
  }

  /** The pages from `start` to `end` are there; those that were keep their bytes, new ones are zero, and
      nothing else was added. */
  predicate Mapped(before: map<nat, Page>, after: map<nat, Page>, start: nat, end: nat) {
    && (forall p :: p in before ==> p in after && after[p].data == before[p].data)
    && (forall p :: p in after && p !in before ==> start <= p < end && after[p].data == seq(PAGE, i => 0))
    && forall p :: start <= p < end && p % PAGE == 0 ==> p in after
  }

  lemma MappedNone(pages: map<nat, Page>, start: nat)
    ensures Mapped(pages, pages, start, start)
  {
  }

  lemma MappedNext(before: map<nat, Page>, mid: map<nat, Page>, after: map<nat, Page>, start: nat, page: nat)
    requires Mapped(before, mid, start, page) && start <= page && Boundary(page) && page in after
    requires after == mid[page := after[page]]
    requires after[page].data == if page in mid then mid[page].data else seq(PAGE, i => 0)
    ensures Mapped(before, after, start, page + PAGE)
  {
    forall p | start <= p < page + PAGE && p % PAGE == 0
      ensures p in after
    {
      NextPage(page, p);
    }
  }

  lemma NextPage(page: nat, end: nat)
    requires Boundary(page) && Boundary(end)
    ensures Boundary(page + PAGE) && (page < end ==> page + PAGE <= end)
  {
    var p, q := page / PAGE, end / PAGE;
    assert page == p * PAGE && end == q * PAGE;
    RemainderOf(page + PAGE, p + 1, PAGE, 0);
  }

  lemma MappedAll(before: map<nat, Page>, after: map<nat, Page>, start: nat, page: nat, end: nat)
    requires Mapped(before, after, start, page) && page >= end && (start <= end ==> page == end)
    requires (end < start ==> page == start)
    ensures Mapped(before, after, start, end)
  {
  }

  /** A page that is there already has the permissions it gets again. */
  lemma SameFlags(pages: map<nat, Page>, segments: seq<Segment>, page: nat, writable: bool, executable: bool)
    requires page in pages && GoodPages(pages) && Permitted(pages, segments) && OnSegments(pages, segments)
    requires writable == PageWritable(segments, page) && executable == PageExecutable(segments, page)
    ensures pages[page := pages[page].(executable := executable, writable := pages[page].writable || writable)] == pages
  {
    assert pages[page].(executable := executable, writable := pages[page].writable || writable) == pages[page];
  }

  lemma NewPage(pages: map<nat, Page>, segments: seq<Segment>, index: nat, page: nat, writable: bool, executable: bool)
    requires page !in pages && Boundary(page) && GoodPages(pages) && Permitted(pages, segments)
    requires OnSegments(pages, segments)
    requires writable == PageWritable(segments, page) && executable == PageExecutable(segments, page)
    requires index < |segments| && OnPage(segments[index], page)
    ensures var after := pages[page := Page(writable, executable, seq(PAGE, i => 0))];
            GoodPages(after) && Permitted(after, segments) && OnSegments(after, segments)
  {
    hide PageWritable, PageExecutable;
  }

  predicate SamePages(before: map<nat, Page>, after: map<nat, Page>) {
    && before.Keys == after.Keys
    && forall p :: p in before ==>
         after[p].writable == before[p].writable && after[p].executable == before[p].executable
  }

  function Overwrite(data: seq<bv8>, offset: nat, bytes: seq<bv8>): seq<bv8>
    requires offset + |bytes| <= |data|
  {
    data[..offset] + bytes + data[offset + |bytes|..]
  }

  /** The first `written` bytes of the segment's file content are in place. */
  ghost predicate Copied(before: map<nat, Page>, pages: map<nat, Page>, s: Segment, image: seq<bv8>, written: nat)
    requires s.offset + written <= |image|
  {
    forall a: nat :: AlignDown(a) in pages ==>
      ByteAt(pages, a) ==
        if s.address <= a < s.address + written then image[s.offset + (a - s.address)] else ByteAt(before, a)
  }

  lemma ChunkCopied(before: map<nat, Page>, mid: map<nat, Page>, pages: map<nat, Page>, s: Segment, image: seq<bv8>,
                    written: nat, chunk: nat)
    requires s.offset + written + chunk <= |image| && GoodPages(mid) && mid.Keys == before.Keys
    requires var a := s.address + written; AlignDown(a) in mid && Offset(a) + chunk <= PAGE
    requires var a, from := s.address + written, s.offset + written;
             var page := mid[AlignDown(a)];
             pages == mid[AlignDown(a) := page.(data := Overwrite(page.data, Offset(a), image[from..from + chunk]))]
    requires Copied(before, mid, s, image, written)
    ensures Copied(before, pages, s, image, written + chunk)
    ensures forall a: nat :: s.address + written <= a < s.address + written + chunk ==> AlignDown(a) in pages
  {
    var start := s.address + written;
    hide AlignDown, Offset;
    forall a: nat
      ensures AlignDown(a) == AlignDown(start) && Offset(start) <= Offset(a) < Offset(start) + chunk <==>
                start <= a < start + chunk
      ensures AlignDown(a) == AlignDown(start) ==> Offset(a) - Offset(start) == a - start
    {
      InPage(start, chunk, a);
    }
  }

  lemma SameAsBefore(pages: map<nat, Page>, s: Segment, image: seq<bv8>)
    requires s.offset <= |image|
    ensures SamePages(pages, pages) && Copied(pages, pages, s, image, 0)
  {
  }

  lemma KeysSame(before: map<nat, Page>, after: map<nat, Page>)
    requires SamePages(before, after)
    ensures before.Keys == after.Keys
  {
  }

  /** The addresses of a chunk that stays in one page. */
  lemma InPage(start: nat, chunk: nat, a: nat)
    requires Offset(start) + chunk <= PAGE
    ensures AlignDown(a) == AlignDown(start) && Offset(start) <= Offset(a) < Offset(start) + chunk <==>
              start <= a < start + chunk
    ensures AlignDown(a) == AlignDown(start) ==> Offset(a) - Offset(start) == a - start
  {
    var p, q := start / PAGE, a / PAGE;
    assert start == p * PAGE + Offset(start) && a == q * PAGE + Offset(a);
    assert AlignDown(start) == p * PAGE && AlignDown(a) == q * PAGE;
    if p < q { assert a >= start - Offset(start) + PAGE; }
    if q < p { assert a < start - Offset(start); }
  }
}
