/** The kernel heap: headers in memory, arena and block lists followed by
    address. Which pages the page allocator offers to the n-th request is a
    parameter; an offer that is not free memory below `limit` is a refusal. */
module HeapAllocator {
  import opened Division
  import opened Machine
  import opened HeapBlocks
  import opened HeapLinks
  import opened HeapState

  const DEFAULT_PAGES := 16

  /** Alignments that are no power of two, or less than the minimum, become the minimum. */
  function Normalized(alignment: nat): (r: nat)
    ensures GoodAlignment(r) && PowerOfTwo(r) && MIN_ALIGNMENT <= r <= alignment + MIN_ALIGNMENT
  {
    if !PowerOfTwo(alignment) || alignment < MIN_ALIGNMENT then MIN_ALIGNMENT else PowerDivides(alignment); alignment
  }

  function Rounded16(size: nat): (r: nat)
    ensures r % MIN_ALIGNMENT == 0 && size <= r < size + MIN_ALIGNMENT
  {
    (size + MIN_ALIGNMENT - 1) / MIN_ALIGNMENT * MIN_ALIGNMENT
  }

  lemma PowerDivides(n: nat)
    requires PowerOfTwo(n) && n >= MIN_ALIGNMENT
    ensures n % MIN_ALIGNMENT == 0
  {
    hide PowerOfTwo;
    var a := Halved(n, 8);
    var b := Halved(a, 4);
    var c := Halved(b, 2);
    var d := Halved(c, 1);
    RemainderOf(n, d, MIN_ALIGNMENT, 0);
  }

  /** A power of two from the minimum up is one of four small ones or divides into 256s. */
  lemma SmallOrWide(n: nat)
    requires PowerOfTwo(n) && n >= MIN_ALIGNMENT
    ensures n == 16 || n == 32 || n == 64 || n == 128 || n % 256 == 0
  {
    hide PowerOfTwo;
    var a := Halved(n, 8);
    var b := Halved(a, 4);
    var c := Halved(b, 2);
    var d := Halved(c, 1);
    assert n == 16 * d;
    if d > 1 {
      var e := Halved(d, 1);
      if e > 1 {
        var f := Halved(e, 1);
        if f > 1 {
          var g := Halved(f, 1);
          if g > 1 {
            var h := Halved(g, 1);
            assert n == 256 * h;
          }
        }
      }
    }
  }

  lemma Halved(n: nat, least: nat) returns (half: nat)
    requires PowerOfTwo(n) && n >= 2 * least && least >= 1
    ensures n == 2 * half && PowerOfTwo(half) && half >= least
  {
    half := n / 2;
  }

  /** The sums made of a request stay inside 64 bits. */
  predicate Small(size: nat, alignment: nat) { size + alignment + 2 * PAGE <= ADDRESSES }

  /** The pages of a new arena for a request, in 64-bit sums. */
  function PagesFor(size: nat, alignment: nat): (pages: nat)
    ensures Small(size, alignment) ==>
              pages >= DEFAULT_PAGES && pages * PAGE >= ARENA_HEADER + HEADER + size + alignment
    ensures Small(size, alignment) && pages > DEFAULT_PAGES ==>
              pages * PAGE < ARENA_HEADER + HEADER + size + alignment + PAGE
  {
    var minimum := Wrap(ARENA_HEADER + HEADER + size + alignment);
    var wanted := if minimum > DEFAULT_PAGES * PAGE then minimum else DEFAULT_PAGES * PAGE;
    Wrap(wanted + PAGE - 1) / PAGE
  }

  /** The difference, or 0. */
  function Less(x: nat, y: nat): nat { if x >= y then x - y else 0 }

  function Counted(free: nat, used: nat, includeFree: bool, includeUsed: bool): nat {
    (if includeFree then free else 0) + if includeUsed then used else 0
  }

  /** A place for the request in some arena. */
  ghost predicate HasPlace(s: State, size: nat, alignment: nat)
    requires alignment > 0
  {
    exists k :: 0 <= k < |s.order| && s.order[k] in s.lists && PlaceIn(s.lists[s.order[k]], size, alignment)
  }

  ghost predicate PlaceIn(blocks: seq<Block>, size: nat, alignment: nat)
    requires alignment > 0
  {
    exists i :: 0 <= i < |blocks| && PlaceAt(blocks[i], size, alignment)
  }

  ghost predicate PlaceAt(b: Block, size: nat, alignment: nat)
    requires alignment > 0
  {
    b.free && exists h: nat :: Placed(b, size, alignment, h)
  }

  predicate Below(s: State, limit: nat)
  {
    forall k :: 0 <= k < |s.order| && s.order[k] in s.arenas ==> High(s.order[k], s.arenas[s.order[k]]) <= limit
  }

  class Heap {
    var headers: Headers
    var arenas: map<nat, Arena>
    var firstArena: nat
    var arenaCount: nat
    var usedBytes: nat
    var ready: bool
    /** The page allocator: what it has left and what it offers. */
    var freePages: nat
    var requests: nat
    const offer: nat -> nat
    const limit: nat
    ghost var order: seq<nat>
    ghost var lists: map<nat, seq<Block>>

    ghost function Value(): State
      reads this
    {
      State(headers, arenas, firstArena, arenaCount, usedBytes, order, lists)
    }

    ghost predicate Valid()
      reads this
    {
      Good(Value()) && Below(Value(), limit) && limit < ADDRESSES
    }

    /** The heap begins with one arena; without it, it stays unusable. */
    constructor (offer: nat -> nat, pages: nat, limit: nat)
      requires limit < ADDRESSES
      ensures Valid() && usedBytes == 0 && forall b :: !Live(Value(), b)
      ensures ready <==> pages >= DEFAULT_PAGES && FreeRun(map[], offer(0), DEFAULT_PAGES, limit)
    {
      this.offer, this.limit, freePages, requests := offer, limit, pages, 0;
      headers, arenas, firstArena, arenaCount, usedBytes, ready := map[], map[], 0, 0, 0, false;
      order, lists := [], map[];
      new;
      hide Live, Acquired, FreshPages, FreeRun;
      NothingYet(Value());
      var ok := AcquireArena(MIN_ALIGNMENT, MIN_ALIGNMENT);
      if ok {
        ArenaSame(NOTHING, NOTHING, offer(0), PagesFor(MIN_ALIGNMENT, MIN_ALIGNMENT));
      }
      ready := ok;
    }

    /** A free block swallows the free blocks right behind it. */
    method MergeWithNext(block: nat)
      requires CanMerge(headers, block)
      modifies this`headers
      ensures headers == if old(headers)[block].free then Merged(old(headers), block) else old(headers)
    {
      if !headers[block].free {
        return;
      }
      ghost var left := 1;
      while headers[block].next != 0 && headers[headers[block].next].free
            && block + HEADER + headers[block].size == headers[block].next
        invariant block in headers && LinkOk(headers, headers[block].next)
        invariant if left == 1 then headers == old(headers)
                  else headers == Merged(old(headers), block) && (headers[block].next != 0 ==>
                      !headers[headers[block].next].free)
        invariant 0 <= left <= 1
        decreases left
      {
        var next := headers[block].next;
        headers := headers[block := headers[block].(size := headers[block].size + HEADER + headers[next].size,
                                                    next := headers[next].next)];
        var behind := headers[block].next;
        if behind != 0 {
          headers := headers[behind := headers[behind].(previous := block)];
        }
        left := left - 1;
      }
    }

    /** The first block, in arena and address order, that the search accepts. */
    method FindBlock(size: nat, alignment: nat) returns (block: nat, layout: Layout, ghost k: nat, ghost i: nat)
      requires Valid() && alignment > 0 && size < ADDRESSES && limit + MIN_SPAN + alignment < ADDRESSES
      ensures layout.Fit? ==> AcceptedAt(Value(), k, i, block, layout.header, size, alignment)
      ensures layout.Fit? && layout.header + HEADER + size < ADDRESSES ==>
                Chosen(Value(), k, i, block, layout.header, size, alignment)
      ensures layout.NoFit? ==> !HasPlace(Value(), size, alignment)
      ensures layout.NoFit? && alignment == MIN_ALIGNMENT ==> !ComesAround(Value(), size)
    {
      hide Chosen, AcceptedAt, Tiles, Represents, PlaceIn, AroundIn;
      var arena := firstArena;
      block, layout, k, i := 0, NoFit, 0, 0;
      while arena != 0
        invariant k <= |order| && arena == (if k < |order| then order[k] else 0)
        invariant layout.NoFit? && forall m :: 0 <= m < k ==> !PlaceIn(lists[order[m]], size, alignment)
        invariant alignment == MIN_ALIGNMENT ==> forall m :: 0 <= m < k ==> !AroundIn(lists[order[m]], size)
        decreases |order| - k
      {
        InOrderList(Value(), k);
        block, layout, i := FindInArena(arena, k, size, alignment);
        if layout.Fit? {
          return;
        }
        assert Linked(arenas, order, k);
        arena := arenas[arena].next;
        k := k + 1;
      }
      assert k == |order|;
      assert forall m :: 0 <= m < |Value().order| ==> !PlaceIn(Value().lists[Value().order[m]], size, alignment);
    }

    method FindInArena(arena: nat, ghost k: nat, size: nat, alignment: nat)
      returns (block: nat, layout: Layout, ghost i: nat)
      requires Valid() && alignment > 0 && size < ADDRESSES && limit + MIN_SPAN + alignment < ADDRESSES
      requires k < |order| && arena == order[k]
      ensures layout.Fit? ==> AcceptedAt(Value(), k, i, block, layout.header, size, alignment)
      ensures layout.Fit? && layout.header + HEADER + size < ADDRESSES ==>
                Chosen(Value(), k, i, block, layout.header, size, alignment)
      ensures layout.NoFit? ==> !PlaceIn(lists[order[k]], size, alignment)
      ensures layout.NoFit? && alignment == MIN_ALIGNMENT ==> !AroundIn(lists[order[k]], size)
    {
      InOrderList(Value(), k);
      ghost var list := lists[arena];
      FindStart(Value(), k);
      hide Good, ArenaGood, Below, AcceptedAt, Chosen, PlaceAt, Around;
      block, layout, i := arenas[arena].first, NoFit, 0;
      while block != 0
        invariant i <= |list| && block == (if i < |list| then list[i].addr else 0)
        invariant layout.NoFit? && forall m :: 0 <= m < i ==> !PlaceAt(list[m], size, alignment)
        invariant alignment == MIN_ALIGNMENT ==> forall m :: 0 <= m < i ==> !Around(list[m], size)
        decreases |list| - i
      {
        FindStep(Value(), limit, k, i);
        layout := TryBlock(block, k, i, size, alignment);
        if layout.Fit? {
          return;
        }
        block := headers[block].next;
        i := i + 1;
      }
      if i < |list| { FindStep(Value(), limit, k, i); }
    }

    method TryBlock(block: nat, ghost k: nat, ghost i: nat, size: nat, alignment: nat) returns (layout: Layout)
      requires Valid() && alignment > 0 && size < ADDRESSES && limit + MIN_SPAN + alignment < ADDRESSES
      requires k < |order| && order[k] in lists && i < |lists[order[k]]| && block == lists[order[k]][i].addr
      ensures layout.Fit? ==> AcceptedAt(Value(), k, i, block, layout.header, size, alignment)
      ensures layout.Fit? && layout.header + HEADER + size < ADDRESSES ==>
                Chosen(Value(), k, i, block, layout.header, size, alignment)
      ensures layout.NoFit? ==> !PlaceAt(lists[order[k]][i], size, alignment)
      ensures layout.NoFit? && alignment == MIN_ALIGNMENT ==> !Around(lists[order[k]][i], size)
    {
      FindStep(Value(), limit, k, i);
      ghost var b := lists[order[k]][i];
      BlockAligned(Value(), k, i);
      hide Good, Below, Placed, Accepted, Aligned;
      layout := ComputeLayout(Block(block, headers[block].size, headers[block].free), size, alignment);
      assert Block(block, headers[block].size, headers[block].free) == b;
    }

    /** Carves the allocation out of the block and links the pieces in. Where the end came around in 64 bits
        it does the same writes, which are no carving any more. */
    method Commit(block: nat, header: nat, size: nat, ghost k: nat, ghost i: nat,
                  ghost alignment: nat) returns (given: nat)
      requires Good(Value()) && alignment > 0 && AcceptedAt(Value(), k, i, block, header, size, alignment)
      requires Fits(header, size, alignment) ==> Chosen(Value(), k, i, block, header, size, alignment)
      modifies this`headers, this`arenas, this`lists
      ensures Fits(header, size, alignment) ==> CommittedBy(old(Value()), Value(), k, i, header, size, alignment, given)
      ensures WroteAt(old(headers), headers, block, header, size)
    {
      ghost var s := Value();
      AcceptedFacts(s, k, i, block, header, size, alignment);
      hide Good, Chosen, AcceptedAt, CommitHeadersAt, Wrap, Fits, CommittedBy;
      given := WritePieces(block, header, size);
      if Fits(header, size, alignment) {
        FitsFacts(s, k, i, block, header, size, alignment);
        lists := lists[order[k] := Carve(lists[order[k]], i, header, size)];
        CommittedIs(s, Value(), k, i, block, header, size, alignment, given);
      }
    }

    method WritePieces(block: nat, header: nat, size: nat) returns (given: nat)
      requires block in headers && (header == block || block + MIN_SPAN <= header)
      requires Wrap(header + HEADER + size) <= block + HEADER + headers[block].size && headers[block].arena in arenas
      requires LinkOk(headers, headers[block].previous) && LinkOk(headers, headers[block].next)
      modifies this`headers, this`arenas
      ensures WroteAt(old(headers), headers, block, header, size) && header in headers && given == headers[header].size
      ensures arenas == FirstBlockAfter(old(arenas), old(headers)[block], block)
    {
      hide Wrap, CommitHeadersAt;
      if headers[block].previous == 0 {
        var arena := headers[block].arena;
        arenas := arenas[arena := arenas[arena].(first := block)];
      }
      given := LinkPieces(block, header, size, Wrap(header + HEADER + size));
    }

    method LinkPieces(block: nat, header: nat, size: nat, tail: nat) returns (given: nat)
      requires block in headers && (header == block || block + MIN_SPAN <= header)
      requires tail <= block + HEADER + headers[block].size
      requires LinkOk(headers, headers[block].previous) && LinkOk(headers, headers[block].next)
      modifies this`headers
      ensures headers == CommitHeadersAt(old(headers), block, header, size, tail)
      ensures header in headers && given == headers[header].size
    {
      var arena, previous, next := headers[block].arena, headers[block].previous, headers[block].next;
      var lead, blockEnd := header - block, block + HEADER + headers[block].size;
      var span := blockEnd - tail;
      if lead != 0 {
        headers := headers[block := Header(lead - HEADER, arena, header, previous, true)];
      }
      if previous != 0 {
        headers := headers[previous := headers[previous].(next := block)];
      }
      var behind := next;
      given := Difference(blockEnd, header + HEADER);
      if span >= MIN_SPAN {
        headers := headers[tail := Header(span - HEADER, arena, next, header, true)];
        behind := tail;
        given := size;
      }
      if next != 0 {
        headers := headers[next := headers[next].(previous := if span >= MIN_SPAN then tail else header)];
      }
      headers := headers[header := Header(given, arena, behind, if lead != 0 then block else previous, false)];
    }

    /** Marks a block free and joins it with its free neighbours. */
    method Coalesce(block: nat, ghost arena: nat, ghost blocks: seq<Block>, ghost low: nat, ghost high: nat,
                    ghost i: nat) returns (joined: nat)
      requires Releasable(headers, arena, blocks, low, high, i) && block == blocks[i].addr
      modifies this`headers
      ensures JoinedHeaders(old(headers), headers, arena, blocks, From(blocks, i), To(blocks, i))
      ensures joined == blocks[From(blocks, i)].addr
    {
      CanMergeForward(headers, arena, blocks, low, high, i);
      MergedForward(headers, arena, blocks, low, high, i);
      Neighbours(headers, arena, blocks, low, high, i);
      headers := headers[block := headers[block].(free := true)];
      MergeWithNext(block);
      hide Tiles, Represents, CanMerge, Merged;
      joined := block;
      var previous := headers[block].previous;
      if previous != 0 && headers[previous].free {
        CanMergeBackward(old(headers), headers, arena, blocks, low, high, i);
        MergedBackward(old(headers), headers, arena, blocks, low, high, i);
        joined := previous;
        MergeWithNext(joined);
      }
    }

    method FullyFree(arena: nat, ghost k: nat) returns (whole: bool)
      requires Good(Value()) && k < |order| && arena == order[k]
      ensures whole <==> lists[arena] == [WholeArena(arena, arenas[arena].pages)]
    {
      FindStart(Value(), k);
      InOrderList(Value(), k);
      ghost var list := lists[arena];
      assert HeaderAt(headers, list, 0, arena);
      if |list| > 1 {
        assert HeaderAt(headers, list, 1, arena) && Adjoin(list[0], list[1]);
      }
      hide Good, Tiles, Represents;
      var block := arenas[arena].first;
      whole := headers[block].free && headers[block].previous == 0 && headers[block].next == 0
        && block == Low(arena) && headers[block].size == arenas[arena].pages * PAGE - ARENA_HEADER - HEADER;
    }

    method Unlink(previous: nat, next: nat)
      requires 0 !in arenas && (previous != 0 ==> previous in arenas) && (next != 0 ==> next in arenas)
      modifies this`arenas, this`firstArena
      ensures firstArena == if previous != 0 then old(firstArena) else next
      ensures arenas == var m := if previous in old(arenas)
                then old(arenas)[previous := old(arenas)[previous].(next := next)] else old(arenas);
                        if next in m then m[next := m[next].(previous := previous)] else m
    {
      if previous != 0 {
        arenas := arenas[previous := arenas[previous].(next := next)];
      } else {
        firstArena := next;
      }
      if next != 0 {
        arenas := arenas[next := arenas[next].(previous := previous)];
      }
    }

    /** Gives the pages of an arena back when all of it is free and it is not the last one. Pages the page
        allocator does not take are lost. */
    method ReleaseArena(arena: nat, taken: bool, ghost k: nat)
      requires Good(Value()) && k < |order| && arena == order[k]
      modifies this`arenas, this`firstArena, this`arenaCount, this`freePages, this`order, this`lists
      ensures Value() == if old(Spare(Value(), k)) then Discarded(old(Value()), k) else old(Value())
      ensures freePages == old(freePages) + if old(Spare(Value(), k)) && taken then old(arenas[order[k]].pages) else 0
    {
      ArenaFacts(Value(), k);
      hide Good, Discarded;
      var whole := FullyFree(arena, k);
      if arenaCount <= 1 || !whole {
        return;
      }
      var pages := arenas[arena].pages;
      DropArena(arena, k);
      if taken {
        freePages := freePages + pages;
      }
    }

    method DropArena(arena: nat, ghost k: nat)
      requires Good(Value()) && k < |order| && arena == order[k] && arenaCount > 1
      modifies this`arenas, this`firstArena, this`arenaCount, this`order, this`lists
      ensures Value() == Discarded(old(Value()), k)
    {
      ArenaFacts(Value(), k);
      hide ArenasGood, ArenasApart, BytesOf, ArenaGood, Linked;
      Unlink(arenas[arena].previous, arenas[arena].next);
      arenaCount := arenaCount - 1;
      arenas := arenas - {arena};
      lists := lists - {arena};
      order := order[..k] + order[k + 1..];
    }

    /** Gives a block back: exactly it is no longer live. A block that is free already is a panic. */
    method Free(address: nat, taken: bool, ghost block: Block) returns (panicked: bool)
      requires Valid() && (address != 0 ==> Listed(Value(), block) && block.addr + HEADER == address)
      modifies this
      ensures Valid() && panicked == (address != 0 && block.free)
      ensures address == 0 || panicked ==> Value() == old(Value()) && freePages == old(freePages)
      ensures address != 0 && !panicked ==> forall b :: Live(Value(), b) <==> old(Live(Value(), b)) && b != block
      ensures address != 0 && !panicked ==> usedBytes + block.size == old(usedBytes)
    {
      if address == 0 {
        return false;
      }
      var header := address - HEADER;
      ghost var s := Value();
      ghost var k, i := WhereListed(s, block);
      ListedHeader(s, k, i);
      if !InsideArena(header) || headers[header].free {
        return true;
      }
      GiveBackFacts(s, k, i);
      GiveBack(header, taken, k, i);
      return false;
    }

    /** The header is one of a block inside its arena. */
    predicate InsideArena(header: nat)
      reads this
    {
      && header in headers && headers[header].arena in arenas && Low(headers[header].arena) <= header
      && header + HEADER + headers[header].size <= High(headers[header].arena, arenas[headers[header].arena])
    }

    method GiveBack(header: nat, taken: bool, ghost k: nat, ghost i: nat)
      requires Valid() && k < |order| && order[k] in lists && i < |lists[order[k]]| && !lists[order[k]][i].free
      requires lists[order[k]][i].addr == header && header in headers
      requires headers[header].size == lists[order[k]][i].size <= usedBytes
      requires order[k] in arenas
      requires Releasable(headers, order[k], lists[order[k]], Low(order[k]), High(order[k], arenas[order[k]]), i)
      modifies this
      ensures Valid() && usedBytes + old(lists[order[k]][i]).size == old(usedBytes)
      ensures forall b :: Live(Value(), b) <==> old(Live(Value(), b)) && b != old(lists[order[k]][i])
    {
      ghost var s := Value();
      hide Good, Below, Live, JoinedHeaders, Releasable;
      usedBytes := Less(usedBytes, headers[header].size);
      ghost var a := order[k];
      var joined := Coalesce(header, a, lists[a], Low(a), High(a, arenas[a]), i);
      lists := lists[a := Release(lists[a], i)];
      GivenBack(s, Value(), k, i, limit);
      SpareReleased(Value(), k, limit);
      ReleaseArena(headers[joined].arena, taken, k);
    }

    /** The page allocator has this many pages in a row for the next request. */
    predicate Obtainable(pages: nat)
      reads this
    {
      pages <= freePages && FreeRun(arenas, offer(requests), pages, limit)
    }

    /** The last request for pages was refused. */
    predicate Refused(pages: nat)
      reads this
    {
      requests > 0 && !(pages <= freePages && FreeRun(arenas, offer(requests - 1), pages, limit))
    }

    /** Takes a new arena, all of it one free block, to the front of the list. */
    method AcquireArena(size: nat, alignment: nat) returns (ok: bool)
      requires Valid()
      modifies this
      ensures Valid() && ready == old(ready) && requests == old(requests) + 1
      ensures ok == old(Obtainable(PagesFor(size, alignment)))
      ensures !ok ==> Value() == old(Value()) && freePages == old(freePages) && Refused(PagesFor(size, alignment))
      ensures ok ==> FreshPages(old(Value()), old(offer(requests)), PagesFor(size, alignment))
      ensures ok ==> Value() == Acquired(old(Value()), old(offer(requests)), PagesFor(size, alignment))
      ensures ok ==> PagesFor(size, alignment) > 0 && freePages + PagesFor(size, alignment) == old(freePages)
    {
      hide Good, Below, FreeRun, PagesFor, FreshPages, Acquired;
      var pages := PagesFor(size, alignment);
      var base := offer(requests);
      ok := Obtainable(pages);
      requests := requests + 1;
      if !ok {
        return;
      }
      TakenRun(Value(), base, pages, limit);
      FirstIsArena(Value());
      freePages := freePages - pages;
      LinkArena(base, pages);
    }

    method LinkArena(base: nat, pages: nat)
      requires pages > 0 && (firstArena != 0 ==> firstArena in arenas) && 0 !in arenas
      modifies this`headers, this`arenas, this`firstArena, this`arenaCount, this`order, this`lists
      ensures Value() == Acquired(old(Value()), base, pages)
    {
      if firstArena != 0 {
        arenas := arenas[firstArena := arenas[firstArena].(previous := base)];
      }
      var initial := Low(base);
      arenas := arenas[base := Arena(pages, firstArena, 0, initial)];
      firstArena := base;
      arenaCount := arenaCount + 1;
      headers := headers[initial := Header(pages * PAGE - ARENA_HEADER - HEADER, base, 0, 0, true)];
      order := [base] + order;
      lists := lists[base := [WholeArena(base, pages)]];
    }

    /** The bytes of the free blocks, the used ones or both, counted block by block. */
    method SumBlockBytes(includeFree: bool, includeUsed: bool) returns (total: nat)
      requires Valid()
      ensures total == (if includeFree then BytesOf(order, lists, true) else 0) + (if includeUsed then usedBytes else 0)
    {
      hide Tiles, Represents, ArenasApart, ArenasGood, Bytes;
      var arena := firstArena;
      total := 0;
      ghost var k := 0;
      assert order[..0] == [];
      while arena != 0
        invariant k <= |order| && arena == (if k < |order| then order[k] else 0)
        invariant total == Counted(BytesOf(order[..k], lists, true), BytesOf(order[..k], lists, false), includeFree,
                                   includeUsed)
        decreases |order| - k
      {
        InOrderList(Value(), k);
        assert Linked(arenas, order, k) && order[..k + 1][..k] == order[..k];
        var part := SumArena(arena, k, includeFree, includeUsed);
        total := total + part;
        arena := arenas[arena].next;
        k := k + 1;
      }
      assert order[..k] == order;
    }

    method SumArena(arena: nat, ghost k: nat, includeFree: bool, includeUsed: bool) returns (total: nat)
      requires Valid() && k < |order| && arena == order[k]
      ensures arena in lists
      ensures total == Counted(Bytes(lists[arena], true), Bytes(lists[arena], false), includeFree, includeUsed)
    {
      FindStart(Value(), k);
      InOrderList(Value(), k);
      hide Good, ArenaGood, Below;
      ghost var list := lists[arena];
      ghost var i := 0;
      var block := arenas[arena].first;
      total := 0;
      assert list[..0] == [];
      while block != 0
        invariant i <= |list| && block == (if i < |list| then list[i].addr else 0)
        invariant total == Counted(Bytes(list[..i], true), Bytes(list[..i], false), includeFree, includeUsed)
        decreases |list| - i
      {
        FindStep(Value(), limit, k, i);
        assert list[..i + 1][..i] == list[..i];
        if (headers[block].free && includeFree) || (!headers[block].free && includeUsed) {
          total := total + headers[block].size;
        }
        block := headers[block].next;
        i := i + 1;
      }
      if i < |list| { FindStep(Value(), limit, k, i); }
      assert list[..i] == list;
    }

    /** Hands out the first place the search accepts. It holds the request exactly when its end stays inside
        64 bits. */
    method Take(size: nat, alignment: nat) returns (address: nat, ghost block: Block)
      requires Valid() && Request(size, alignment) && size <= ADDRESSES && limit + MIN_SPAN + alignment < ADDRESSES
      modifies this`headers, this`arenas, this`lists, this`usedBytes
      ensures address == 0 ==> Valid() && Value() == old(Value()) && !HasPlace(Value(), size, alignment)
      ensures address == 0 && alignment == MIN_ALIGNMENT && size < ADDRESSES ==> !ComesAround(Value(), size)
      ensures address < limit + MIN_SPAN + alignment
      ensures address != 0 && address + size < ADDRESSES ==>
                Valid() && old(HasPlace(Value(), size, alignment))
                  && Handed(old(Value()), Value(), address, block, size, alignment)
      ensures address != 0 && address + size >= ADDRESSES ==> Overrun(old(Value()), Value(), address, block, size)
    {
      hide Good, Below, Live, HasPlace, Committed, Chosen, AcceptedAt, Accepted, Aligned, Handed, CommitHeadersAt, Wrap;
      ghost var s := Value();
      WrapOnce(size);
      var wanted := Wrap(size);
      var found, layout, k, i := FindBlock(wanted, alignment);
      address, block := 0, Block(0, 0, false);
      if layout.NoFit? {
        if size == ADDRESSES { NoSuchPlace(s, limit, size, alignment); }
        return;
      }
      AcceptedWhere(s, k, i, found, layout.header, wanted, alignment, limit);
      block := lists[order[k]][i];
      if layout.header + HEADER + size < ADDRESSES {
        ChosenCommits(s, k, i, found, layout.header, size, alignment);
        CommittedHands(s, k, i, layout.header, size, alignment, limit);
        block := Allocated(lists[order[k]][i], layout.header, size);
      }
      var given := Commit(found, layout.header, wanted, k, i, alignment);
      usedBytes := usedBytes + given;
      address := layout.header + HEADER;
      if layout.header + HEADER + size >= ADDRESSES {
        OverrunIs(s, Value(), k, i, address, size);
      }
    }

    /** Hands out a block. Inside 64 bits: it succeeds exactly when there is a place already, or when an arena
        can be had and holds the request; then exactly one block becomes live, a new one, aligned and large
        enough; otherwise nothing live changes and the page allocator has refused; and unless a new arena is
        too small for the request it was made for, at most one is taken.

        In general: what is handed out holds the request exactly when its end stays inside 64 bits, and a
        request that comes around from the beginning of some free block is never refused. */
    method Allocate(size: nat, alignment: nat) returns (address: nat, ghost block: Block)
      requires Valid() && size < ADDRESSES && limit + MIN_SPAN + Normalized(alignment) < ADDRESSES
      modifies this
      ensures address == 0 ==> Valid() && SameLive(old(Value()), Value())
      ensures address != 0 && address + Rounded16(size) < ADDRESSES ==>
                Valid() && Handed(old(Value()), Value(), address, block, Rounded16(size), Normalized(alignment))
      ensures address != 0 && address + Rounded16(size) >= ADDRESSES ==>
                OverrunFrom(old(Value()), Value(), address, block, Rounded16(size))
      ensures address < limit + MIN_SPAN + Normalized(alignment)
      ensures address == 0 && old(ready) && size > 0 ==> Refused(PagesFor(Wrap(Rounded16(size)), Normalized(alignment)))
      ensures Normalized(alignment) == MIN_ALIGNMENT && old(ready && ComesAround(Value(), Rounded16(size))) ==>
                size == 0 || Rounded16(size) == ADDRESSES || address != 0
      ensures Within64(Rounded16(size), Normalized(alignment)) ==>
                (address != 0 <==> old(ready) && size > 0 && old(Satisfiable(Rounded16(size), Normalized(alignment))))
      ensures Within64(Rounded16(size), Normalized(alignment)) && FreshFits(Rounded16(size), Normalized(alignment)) ==>
                arenaCount <= old(arenaCount) + 1
    {
      hide Valid, SameLive, Handed, OverrunFrom, Refused, PagesFor;
      hide ComesAround, Within64, Satisfiable, FreshFits, Wrap, PowerOfTwo;
      if !ready || size == 0 {
        SameAsItself(Value());
        return 0, Block(0, 0, false);
      }
      address, block := Search(Rounded16(size), Normalized(alignment));
    }

    /** Takes what the search accepts, or a new arena and tries again. */
    method Search(size: nat, alignment: nat) returns (address: nat, ghost block: Block)
      requires Valid() && ready && Request(size, alignment) && size <= ADDRESSES && PowerOfTwo(alignment)
      requires alignment >= MIN_ALIGNMENT && limit + MIN_SPAN + alignment < ADDRESSES
      modifies this
      ensures address == 0 ==> Valid() && SameLive(old(Value()), Value())
      ensures address != 0 && address + size < ADDRESSES ==>
                Valid() && Handed(old(Value()), Value(), address, block, size, alignment)
      ensures address != 0 && address + size >= ADDRESSES ==> OverrunFrom(old(Value()), Value(), address, block, size)
      ensures address < limit + MIN_SPAN + alignment
      ensures address == 0 ==> Refused(PagesFor(Wrap(size), alignment))
      ensures alignment == MIN_ALIGNMENT && size < ADDRESSES && old(ComesAround(Value(), size)) ==> address != 0
      ensures Within64(size, alignment) ==> (address != 0 <==> old(Satisfiable(size, alignment)))
      ensures Within64(size, alignment) && FreshFits(size, alignment) ==> arenaCount <= old(arenaCount) + 1
    {
      hide Good, Below, HasPlace, PagesFor, FreshFits, FreeRun;
      hide FreshPages, Acquired, Handed, SameLive, Aligned, PowerOfTwo;
      hide GoodAlignment, ComesAround, Overrun, OverrunFrom, Wrap, Tried;
      TriedNothing(Value(), size, alignment);
      ghost var acquired := 0;
      while true
        invariant Valid() && Tried(old(Value()), Value(), acquired, size, alignment)
        invariant acquired == 0 ==> Value() == old(Value()) && freePages == old(freePages) && requests == old(requests)
        invariant acquired > 0 && Small(size, alignment) ==> old(Obtainable(PagesFor(size, alignment)))
        invariant acquired > 0 && alignment == MIN_ALIGNMENT && size < ADDRESSES ==> !old(ComesAround(Value(), size))
        decreases freePages
      {
        ghost var s := Value();
        TriedFacts(old(Value()), s, acquired, size, alignment);
        address, block := Take(size, alignment);
        if address != 0 {
          if address + size < ADDRESSES {
            HandedAfter(old(Value()), s, Value(), address, block, size, alignment);
          } else {
            OverrunAfter(old(Value()), s, Value(), address, block, size);
          }
          return;
        }
        var ok := AcquireArena(Wrap(size), alignment);
        if !ok {
          if Small(size, alignment) { WrapOnce(size); }
          return;
        }
        if Small(size, alignment) { WrapOnce(size); }
        TriedMore(old(Value()), s, offer(requests - 1), PagesFor(Wrap(size), alignment), acquired, size, alignment);
        acquired := acquired + 1;
      }
    }

    /** Every sum made of the request, wherever it is tried, stays inside 64 bits. */
    predicate Within64(size: nat, alignment: nat) { limit + MIN_SPAN + size + alignment + 2 * PAGE <= ADDRESSES }

    ghost predicate Satisfiable(size: nat, alignment: nat)
      requires alignment > 0
      reads this
    {
      HasPlace(Value(), size, alignment) || (FreshFits(size, alignment) && Obtainable(PagesFor(size, alignment)))
    }
  }

  /** What `block` handed out at `address` cannot hold: it was a free block, it ends before the request would,
      and the headers were written as if it did not, the one for the rest at the end that came around. */
  ghost predicate Overrun(s: State, s': State, address: nat, block: Block, size: nat) {
    && block.free && block.addr + HEADER <= address && End(block) < ADDRESSES <= address + size && Listed(s, block)
    && WroteAt(s.headers, s'.headers, block.addr, address - HEADER, Wrap(size))
  }

  lemma OverrunIs(s: State, s': State, k: nat, i: nat, address: nat, size: nat)
    requires k < |s.order| && s.order[k] in s.lists && i < |s.lists[s.order[k]]|
    requires var b := s.lists[s.order[k]][i];
             && b.free && End(b) < ADDRESSES <= address + size && b.addr + HEADER <= address
             && WroteAt(s.headers, s'.headers, b.addr, address - HEADER, Wrap(size))
    ensures Overrun(s, s', address, s.lists[s.order[k]][i], size)
  {
  }

  /** An overrun of a heap with the same live blocks, perhaps with more arenas. */
  ghost predicate OverrunFrom(s0: State, s': State, address: nat, block: Block, size: nat) {
    exists s :: SameLive(s0, s) && Overrun(s, s', address, block, size)
  }

  lemma OverrunAfter(s0: State, s: State, s': State, address: nat, block: Block, size: nat)
    requires SameLive(s0, s) && Overrun(s, s', address, block, size)
    ensures OverrunFrom(s0, s', address, block, size)
  {
  }

  /** A search that has taken `acquired` arenas so far. */
  ghost predicate Tried(s0: State, s: State, acquired: nat, size: nat, alignment: nat)
    requires alignment > 0
  {
    && SameLive(s0, s) && (acquired == 0 ==> s == s0) && s.arenaCount == s0.arenaCount + acquired
    && (Small(size, alignment) && acquired > 0 ==>
           !HasPlace(s0, size, alignment) && (HasPlace(s, size, alignment) <==> FreshFits(size, alignment)))
    && (Small(size, alignment) && FreshFits(size, alignment) ==> acquired <= 1)
  }

  lemma TriedNothing(s: State, size: nat, alignment: nat)
    requires alignment > 0
    ensures Tried(s, s, 0, size, alignment)
  {
  }

  lemma TriedFacts(s0: State, s: State, acquired: nat, size: nat, alignment: nat)
    requires alignment > 0 && Tried(s0, s, acquired, size, alignment)
    ensures SameLive(s0, s) && (acquired == 0 ==> s == s0) && s.arenaCount == s0.arenaCount + acquired
    ensures Small(size, alignment) && acquired > 0 ==>
              !HasPlace(s0, size, alignment) && (HasPlace(s, size, alignment) <==> FreshFits(size, alignment))
    ensures Small(size, alignment) && FreshFits(size, alignment) ==> acquired <= 1
  {
  }

  lemma TriedMore(s0: State, s: State, base: nat, pages: nat, acquired: nat, size: nat, alignment: nat)
    requires Good(s) && PowerOfTwo(alignment) && alignment >= MIN_ALIGNMENT && Tried(s0, s, acquired, size, alignment)
    requires FreshPages(s, base, pages) && !HasPlace(s, size, alignment)
    requires (Small(size, alignment) ==> pages == PagesFor(size, alignment))
    ensures Tried(s0, Acquired(s, base, pages), acquired + 1, size, alignment)
  {
    ArenaSame(s0, s, base, pages);
    if Small(size, alignment) { ArenaPlaces(s, base, size, alignment); }
    hide Good, FreshPages, PagesFor, HasPlace, SameLive, FreshFits;
  }

  lemma NoSuchPlace(s: State, limit: nat, size: nat, alignment: nat)
    requires Good(s) && Below(s, limit) && limit < ADDRESSES && size == ADDRESSES && alignment > 0
    ensures !HasPlace(s, size, alignment)
  {
    forall k, i | 0 <= k < |s.order| && 0 <= i < |s.lists[s.order[k]]|
      ensures !PlaceAt(s.lists[s.order[k]][i], size, alignment)
    {
      FindStep(s, limit, k, i);
    }
  }

  lemma AcceptedWhere(s: State, k: nat, i: nat, block: nat, header: nat, size: nat, alignment: nat, limit: nat)
    requires Good(s) && Below(s, limit) && alignment > 0 && AcceptedAt(s, k, i, block, header, size, alignment)
    ensures k < |s.order| && s.order[k] in s.lists && i < |s.lists[s.order[k]]|
    ensures var b := s.lists[s.order[k]][i];
            && b.addr == block && b.free && block <= header && header + HEADER < limit + MIN_SPAN + alignment
            && End(b) <= limit
            && block in s.headers && s.headers[block].size == b.size && Wrap(header + HEADER + size) <= End(b)
            && LinkOk(s.headers, s.headers[block].previous) && LinkOk(s.headers, s.headers[block].next)
  {
    AcceptedFacts(s, k, i, block, header, size, alignment);
    FindStep(s, limit, k, i);
  }

  /** Exactly `block` became live: new, at the address handed out, aligned and large enough. */
  ghost predicate Handed(s: State, s': State, address: nat, block: Block, size: nat, alignment: nat)
    requires alignment > 0
  {
    && block.addr + HEADER == address && block.size >= size && Aligned(address, alignment) && !Live(s, block)
    && s'.used == s.used + block.size && forall b :: Live(s', b) <==> Live(s, b) || b == block
  }

  ghost predicate SameLive(s: State, s': State) {
    s'.used == s.used && forall b :: Live(s', b) <==> Live(s, b)
  }

  lemma SameAsItself(s: State)
    ensures SameLive(s, s)
  {
  }

  lemma HandedAfter(s0: State, s: State, s': State, address: nat, block: Block, size: nat, alignment: nat)
    requires alignment > 0 && SameLive(s0, s) && Handed(s, s', address, block, size, alignment)
    ensures Handed(s0, s', address, block, size, alignment)
  {
  }

  lemma CommittedHands(s: State, k: nat, i: nat, header: nat, size: nat, alignment: nat, limit: nat)
    requires Committable(s, k, i, header, size, alignment) && Below(s, limit)
    ensures var s' := Committed(s, k, i, header, size, alignment);
            && Good(s') && Below(s', limit) && s'.used == s.used + Allocated(s.lists[s.order[k]][i], header, size).size
            && Handed(s, s', header + HEADER, Allocated(s.lists[s.order[k]][i], header, size), size, alignment)
  {
    CommittedSound(s, k, i, header, size, alignment);
    CommittedBelow(s, k, i, header, size, alignment, limit);
    CommittedUsed(s, k, i, header, size, alignment);
    hide Good, Below, Live, Committed, Committable, Aligned;
  }

  /** Block `i` of arena `k` holds the request at `header`. */
  ghost predicate Chosen(s: State, k: nat, i: nat, block: nat, header: nat, size: nat, alignment: nat)
    requires alignment > 0
  {
    && k < |s.order| && s.order[k] in s.lists && i < |s.lists[s.order[k]]|
    && var b := s.lists[s.order[k]][i]; b.addr == block && b.free && Placed(b, size, alignment, header)
  }

  /** The search accepted block `i` of arena `k` at `header`. */
  ghost predicate AcceptedAt(s: State, k: nat, i: nat, block: nat, header: nat, size: nat, alignment: nat)
    requires alignment > 0
  {
    && k < |s.order| && s.order[k] in s.lists && i < |s.lists[s.order[k]]|
    && var b := s.lists[s.order[k]][i]; b.addr == block && Accepted(b, size, alignment, header)
  }

  /** A free block from whose beginning the request comes around in 64 bits. */
  predicate Around(b: Block, size: nat) { b.free && b.addr + HEADER + size >= ADDRESSES }

  predicate AroundIn(blocks: seq<Block>, size: nat) { exists i :: 0 <= i < |blocks| && Around(blocks[i], size) }

  predicate ComesAround(s: State, size: nat) {
    exists k :: 0 <= k < |s.order| && s.order[k] in s.lists && AroundIn(s.lists[s.order[k]], size)
  }

  lemma BlockAligned(s: State, k: nat, i: nat)
    requires Good(s) && k < |s.order| && s.order[k] in s.lists && i < |s.lists[s.order[k]]|
    ensures Aligned(s.lists[s.order[k]][i].addr + HEADER, MIN_ALIGNMENT)
  {
    InOrderList(s, k);
    assert Sized(s.lists[s.order[k]][i]);
    Multiples16(s.lists[s.order[k]][i].addr, HEADER);
  }

  lemma AcceptedFacts(s: State, k: nat, i: nat, block: nat, header: nat, size: nat, alignment: nat)
    requires Good(s) && alignment > 0 && AcceptedAt(s, k, i, block, header, size, alignment)
    ensures s.order[k] in s.arenas && block in s.headers && s.headers[block].arena == s.order[k]
    ensures LinkOk(s.headers, s.headers[block].previous) && LinkOk(s.headers, s.headers[block].next)
    ensures header == block || block + MIN_SPAN <= header
    ensures Wrap(header + HEADER + size) <= block + HEADER + s.headers[block].size
    ensures s.headers[block].size == s.lists[s.order[k]][i].size
  {
    InOrderList(s, k);
    var a := s.order[k];
    Neighbours(s.headers, a, s.lists[a], Low(a), High(a, s.arenas[a]), i);
  }

  /** The request is one the heap makes, and its end stays inside 64 bits. */
  predicate Fits(header: nat, size: nat, alignment: nat) {
    header + HEADER + size < ADDRESSES && GoodAlignment(alignment) && size % MIN_ALIGNMENT == 0 && size >= MIN_ALIGNMENT
  }

  /** The headers were written for an allocation of `size` bytes at `header`. */
  predicate WroteAt(h: Headers, h': Headers, block: nat, header: nat, size: nat) {
    && block in h && LinkOk(h, h[block].previous) && LinkOk(h, h[block].next) && block <= header
    && Wrap(header + HEADER + size) <= block + HEADER + h[block].size
    && h' == CommitHeadersAt(h, block, header, size, Wrap(header + HEADER + size))
  }

  function FirstBlockAfter(arenas: map<nat, Arena>, h: Header, block: nat): map<nat, Arena> {
    if h.previous == 0 && h.arena in arenas then arenas[h.arena := arenas[h.arena].(first := block)] else arenas
  }

  ghost predicate CommittedBy(s: State, s': State, k: nat, i: nat, header: nat, size: nat, alignment: nat, given: nat) {
    && Committable(s, k, i, header, size, alignment) && header + HEADER + size <= End(s.lists[s.order[k]][i])
    && s' == Committed(s, k, i, header, size, alignment).(used := s.used)
    && given == Allocated(s.lists[s.order[k]][i], header, size).size
  }

  lemma FitsFacts(s: State, k: nat, i: nat, block: nat, header: nat, size: nat, alignment: nat)
    requires Good(s) && Fits(header, size, alignment) && AcceptedAt(s, k, i, block, header, size, alignment)
    requires Chosen(s, k, i, block, header, size, alignment)
    ensures Committable(s, k, i, header, size, alignment) && header + HEADER + size <= End(s.lists[s.order[k]][i])
    ensures block == s.lists[s.order[k]][i].addr
  {
  }

  lemma CommittedIs(s: State, s': State, k: nat, i: nat, block: nat, header: nat, size: nat, alignment: nat, given: nat)
    requires Committable(s, k, i, header, size, alignment) && header + HEADER + size <= End(s.lists[s.order[k]][i])
    requires block == s.lists[s.order[k]][i].addr && WroteAt(s.headers, s'.headers, block, header, size)
    requires header in s'.headers && given == s'.headers[header].size
    requires s' == s.(headers := s'.headers, arenas := FirstBlockAfter(s.arenas, s.headers[block], block),
                      lists := s.lists[s.order[k] := Carve(s.lists[s.order[k]], i, header, size)])
    ensures CommittedBy(s, s', k, i, header, size, alignment, given)
  {
    SameHeaders(s, k, i, block, header, size, alignment);
    hide CommitHeaders, CommitHeadersAt, Carve, Good, Wrap;
  }

  lemma SameHeaders(s: State, k: nat, i: nat, block: nat, header: nat, size: nat, alignment: nat)
    requires Committable(s, k, i, header, size, alignment) && header + HEADER + size <= End(s.lists[s.order[k]][i])
    requires block == s.lists[s.order[k]][i].addr
    ensures block in s.headers && block <= header && header + size <= block + s.headers[block].size
    ensures LinkOk(s.headers, s.headers[block].previous) && LinkOk(s.headers, s.headers[block].next)
    ensures s.headers[block].arena == s.order[k] && s.order[k] in s.arenas
    ensures var h := CommitHeaders(s.headers, block, header, size);
            && Wrap(header + HEADER + size) == header + HEADER + size
            && CommitHeadersAt(s.headers, block, header, size, header + HEADER + size) == h
            && header in h && h[header].size == Allocated(s.lists[s.order[k]][i], header, size).size
  {
    CarvableAt(s, k, i, header, size, alignment);
    InOrderList(s, k);
    var a := s.order[k];
    ToHigh(s.lists[a], Low(a), High(a, s.arenas[a]), i);
    WrapOnce(header + HEADER + size);
    hide Good, Tiles, Represents, Wrap;
    CommitHeadersSame(s.headers, block, header, size);
  }

  lemma ArenaFacts(s: State, k: nat)
    requires Good(s) && k < |s.order|
    ensures Ordered(s) && s.order[k] in s.arenas && s.order[k] in s.lists && 0 !in s.arenas
    ensures s.arenas[s.order[k]].pages > 0
    ensures s.arenaCount == |s.order|
    ensures var a := s.arenas[s.order[k]]; (a.previous != 0 ==> a.previous in s.arenas) && (a.next != 0 ==>
                a.next in s.arenas)
  {
    InOrderList(s, k);
    assert Linked(s.arenas, s.order, k);
    hide ArenasGood, ArenasApart, BytesOf;
  }

  lemma FindStart(s: State, k: nat)
    requires Good(s) && k < |s.order|
    ensures s.order[k] in s.lists && s.order[k] in s.arenas && s.lists[s.order[k]] != []
    ensures s.arenas[s.order[k]].first == s.lists[s.order[k]][0].addr
  {
    InOrderList(s, k);
  }

  lemma FindStep(s: State, limit: nat, k: nat, i: nat)
    requires Good(s) && Below(s, limit) && k < |s.order| && i < |s.lists[s.order[k]]|
    ensures s.order[k] in s.lists && s.order[k] in s.arenas
    ensures var list := s.lists[s.order[k]];
            && 0 < list[i].addr && End(list[i]) <= limit && list[i].addr in s.headers
            && var h := s.headers[list[i].addr];
               h.size == list[i].size && h.free == list[i].free && h.next == NextOf(list, i)
  {
    InOrderList(s, k);
    var a := s.order[k];
    var list := s.lists[a];
    assert HeaderAt(s.headers, list, i, a);
    FromLow(list, Low(a), High(a, s.arenas[a]), i);
    ToHigh(list, Low(a), High(a, s.arenas[a]), i);
  }

  // ----- the steps on values

  ghost predicate Request(size: nat, alignment: nat) {
    GoodAlignment(alignment) && size % MIN_ALIGNMENT == 0 && size >= MIN_ALIGNMENT
  }

  ghost predicate Committable(s: State, k: nat, i: nat, header: nat, size: nat, alignment: nat) {
    && Good(s) && Request(size, alignment) && k < |s.order| && i < |s.lists[s.order[k]]|
    && Chosen(s, k, i, s.lists[s.order[k]][i].addr, header, size, alignment)
  }

  lemma CarvableAt(s: State, k: nat, i: nat, header: nat, size: nat, alignment: nat)
    requires Committable(s, k, i, header, size, alignment)
    ensures s.order[k] in s.arenas && s.order[k] in s.lists
    ensures Carvable(s.headers, s.order[k], s.lists[s.order[k]], Low(s.order[k]),
                     High(s.order[k], s.arenas[s.order[k]]), i, header, size)
  {
    InOrderList(s, k);
    hide Good;
    var a := s.order[k];
    Neighbours(s.headers, a, s.lists[a], Low(a), High(a, s.arenas[a]), i);
  }

  /** The arena's first block after an allocation in its block `i`. */
  ghost function Committed(s: State, k: nat, i: nat, header: nat, size: nat, alignment: nat): State
    requires Committable(s, k, i, header, size, alignment)
  {
    CarvableAt(s, k, i, header, size, alignment);
    var a := s.order[k];
    var block := s.lists[a][i].addr;
    s.(headers := CommitHeaders(s.headers, block, header, size),
       arenas := if s.headers[block].previous == 0 then s.arenas[a := s.arenas[a].(first := block)] else s.arenas,
       lists := s.lists[a := Carve(s.lists[a], i, header, size)],
       used := s.used + Allocated(s.lists[a][i], header, size).size)
  }

  lemma CommittedChanged(s: State, k: nat, i: nat, header: nat, size: nat, alignment: nat)
    requires Committable(s, k, i, header, size, alignment)
    ensures Changed(s, Committed(s, k, i, header, size, alignment), k, i, i + 1,
                    Pieces(s.lists[s.order[k]][i], header, size))
  {
    CarvableAt(s, k, i, header, size, alignment);
    InOrderList(s, k);
    var a := s.order[k];
    var low, high := Low(a), High(a, s.arenas[a]);
    CommitRelinked(s.headers, a, s.lists[a], low, high, i, header, size);
    Neighbours(s.headers, a, s.lists[a], low, high, i);
    CarvedAt(s.lists[a], i, header, size);
    hide CommitHeaders, Relinked, Pieces, Tiles, Represents, BytesOf, ArenasApart, ArenasGood;
  }

  /** An allocation keeps the heap sound; exactly the block handed out became live, and it is new,
      aligned and large enough. */
  lemma CommittedSound(s: State, k: nat, i: nat, header: nat, size: nat, alignment: nat)
    requires Committable(s, k, i, header, size, alignment)
    ensures Good(Committed(s, k, i, header, size, alignment))
    ensures var a := Allocated(s.lists[s.order[k]][i], header, size);
            && a.addr == header && !a.free && !Live(s, a) && a.size >= size && Aligned(header + HEADER, alignment)
            && forall b :: Live(Committed(s, k, i, header, size, alignment), b) <==> Live(s, b) || b == a
  {
    CommittedChanged(s, k, i, header, size, alignment);
    var s' := Committed(s, k, i, header, size, alignment);
    hide Good, Changed, Live, Committed, GoodAlignment;
    assert s'.used == s.used + Allocated(s.lists[s.order[k]][i], header,
                                         size).size by { CommittedUsed(s, k, i, header, size, alignment); }
    CarvedGood(s, s', k, i, header, size, alignment);
    forall b
      ensures Live(s', b) <==> Live(s, b) || b == Allocated(s.lists[s.order[k]][i], header, size)
    {
      CarvedLive(s, s', k, i, header, size, b);
    }
  }

  lemma CommittedUsed(s: State, k: nat, i: nat, header: nat, size: nat, alignment: nat)
    requires Committable(s, k, i, header, size, alignment)
    ensures Committed(s, k, i, header, size, alignment).used
            == s.used + Allocated(s.lists[s.order[k]][i], header, size).size
  {
  }

  // ----- giving back, on values

  /** The k-th arena is one free block and not the only arena. */
  ghost predicate Spare(s: State, k: nat)
    requires Ordered(s) && k < |s.order|
  {
    |s.order| > 1 && s.arenas[s.order[k]].pages > 0
      && s.lists[s.order[k]] == [WholeArena(s.order[k], s.arenas[s.order[k]].pages)]
  }

  /** A block of some arena, live or free. */
  ghost predicate Listed(s: State, b: Block) {
    exists k :: 0 <= k < |s.order| && s.order[k] in s.lists && b in s.lists[s.order[k]]
  }

  lemma ListedHeader(s: State, k: nat, i: nat)
    requires Good(s) && k < |s.order| && s.order[k] in s.lists && i < |s.lists[s.order[k]]|
    ensures var b := s.lists[s.order[k]][i];
            && b.addr in s.headers && s.headers[b.addr].free == b.free && s.headers[b.addr].arena in s.arenas
            && Low(s.headers[b.addr].arena) <= b.addr
            && var a := s.headers[b.addr].arena; b.addr + HEADER + s.headers[b.addr].size <= High(a, s.arenas[a])
  {
    InOrderList(s, k);
    var a := s.order[k];
    assert HeaderAt(s.headers, s.lists[a], i, a);
    FromLow(s.lists[a], Low(a), High(a, s.arenas[a]), i);
    ToHigh(s.lists[a], Low(a), High(a, s.arenas[a]), i);
  }

  lemma WhereListed(s: State, b: Block) returns (k: nat, i: nat)
    requires Listed(s, b)
    ensures k < |s.order| && s.order[k] in s.lists && i < |s.lists[s.order[k]]| && s.lists[s.order[k]][i] == b
  {
    k :| 0 <= k < |s.order| && s.order[k] in s.lists && b in s.lists[s.order[k]];
    i :| 0 <= i < |s.lists[s.order[k]]| && s.lists[s.order[k]][i] == b;
  }

  lemma GiveBackFacts(s: State, k: nat, i: nat)
    requires Good(s) && k < |s.order| && s.order[k] in s.lists && i < |s.lists[s.order[k]]|
    requires !s.lists[s.order[k]][i].free
    ensures s.order[k] in s.arenas
    ensures Releasable(s.headers, s.order[k], s.lists[s.order[k]], Low(s.order[k]),
                       High(s.order[k], s.arenas[s.order[k]]), i)
    ensures s.lists[s.order[k]][i].addr in s.headers
    ensures s.headers[s.lists[s.order[k]][i].addr].size == s.lists[s.order[k]][i].size
    ensures s.lists[s.order[k]][i].size <= s.used
  {
    InOrderList(s, k);
    var a := s.order[k];
    assert HeaderAt(s.headers, s.lists[a], i, a);
    hide ArenasGood, Tiles, Represents, BytesOf, Bytes;
    ReleaseBytes(s.lists[a], i);
    BytesChange(s.order, s.lists, k, [], false);
    assert Bytes([], false) == 0 by { OneBlock(s.lists[a][i], false); EmptyBytes(false); }
  }

  lemma EmptyBytes(free: bool)
    ensures Bytes([], free) == 0
  {
  }

  /** Block `i` of arena `k` has been given back. */
  ghost predicate GaveBack(s: State, s': State, k: nat, i: nat)
    requires Good(s) && k < |s.order| && i < |s.lists[s.order[k]]|
  {
    var blocks := s.lists[s.order[k]];
    && s' == s.(headers := s'.headers, lists := s.lists[s.order[k] := Release(blocks, i)], used := s'.used)
    && s'.used + blocks[i].size == s.used
    && JoinedHeaders(s.headers, s'.headers, s.order[k], blocks, From(blocks, i), To(blocks, i))
  }

  lemma GaveBackChanged(s: State, s': State, k: nat, i: nat)
    requires Good(s) && k < |s.order| && i < |s.lists[s.order[k]]| && !s.lists[s.order[k]][i].free
    requires GaveBack(s, s', k, i)
    ensures var blocks := s.lists[s.order[k]];
            var from, to := From(blocks, i), To(blocks, i);
            Changed(s, s', k, from, to, [Joined(blocks[from], blocks[to - 1])])
  {
    InOrderList(s, k);
    var a := s.order[k];
    var blocks := s.lists[a];
    var from, to := From(blocks, i), To(blocks, i);
    ReleaseRelinked(s.headers, s'.headers, a, blocks, Low(a), High(a, s.arenas[a]), from, to);
    hide ArenasGood, ArenasApart, BytesOf, JoinedHeaders, Relinked, Tiles, Represents;
    assert s'.lists[a][0].addr == blocks[0].addr;
  }

  lemma GivenBack(s: State, s': State, k: nat, i: nat, limit: nat)
    requires Good(s) && Below(s, limit) && k < |s.order| && i < |s.lists[s.order[k]]| && !s.lists[s.order[k]][i].free
    requires GaveBack(s, s', k, i)
    ensures Good(s') && Below(s', limit) && forall b :: Live(s', b) <==> Live(s, b) && b != s.lists[s.order[k]][i]
    ensures var joined := s.lists[s.order[k]][From(s.lists[s.order[k]], i)].addr;
            joined in s'.headers && s'.headers[joined].arena == s.order[k]
  {
    GaveBackChanged(s, s', k, i);
    ReleasedState(s, s', k, i);
    hide ArenasGood, ArenasApart, BytesOf, Changed, Live;
  }

  lemma SpareReleased(s: State, k: nat, limit: nat)
    requires Good(s) && Below(s, limit) && k < |s.order|
    ensures Spare(s, k) ==> Good(Discarded(s, k)) && Below(Discarded(s, k), limit)
    ensures Spare(s, k) ==> forall b :: Live(Discarded(s, k), b) <==> Live(s, b)
  {
    if Spare(s, k) {
      var whole := WholeArena(s.order[k], s.arenas[s.order[k]].pages);
      OneBlock(whole, false);
      DiscardedGood(s, k);
      forall b
        ensures Live(Discarded(s, k), b) <==> Live(s, b)
      {
        DiscardedLive(s, k, b);
      }
      forall m | 0 <= m < |s.order| - 1
        ensures High(Discarded(s, k).order[m], Discarded(s, k).arenas[Discarded(s, k).order[m]]) <= limit
      {
        DiscardedArena(s, k, m);
      }
    }
  }

  // ----- a new arena, on values

  /** A run of pages below `limit` that no arena uses. */
  predicate FreeRun(arenas: map<nat, Arena>, base: nat, pages: nat, limit: nat) {
    && 0 < base && base % PAGE == 0 && pages > 0 && base + pages * PAGE <= limit && base !in arenas
    && forall a :: a in arenas ==> Beside(base, Arena(pages, 0, 0, 0), a, arenas[a])
  }

  lemma TakenRun(s: State, base: nat, pages: nat, limit: nat)
    requires Good(s) && Below(s, limit) && limit < ADDRESSES && FreeRun(s.arenas, base, pages, limit)
    ensures FreshPages(s, base, pages) && Good(Acquired(s, base, pages)) && Below(Acquired(s, base, pages), limit)
    ensures 0 !in s.arenas
  {
    AcquiredGood(s, base, pages);
    SamePages(s, base, pages);
  }

  lemma FirstIsArena(s: State)
    requires Good(s)
    ensures s.firstArena != 0 ==> s.firstArena in s.arenas
    ensures 0 !in s.arenas
  {
  }

  // ----- when a new arena holds the request it was made for

  /** An arena is sized for its headers, the payload and one alignment. For alignments 64 and 128 the
      gap in front of the payload must also hold a block, which can take more. */
  predicate FreshFits(size: nat, alignment: nat) {
    var room := PagesFor(size, alignment) * PAGE;
    (alignment == 64 ==> 192 + size <= room) && (alignment == 128 ==> 256 + size <= room)
  }

  lemma FreshArenaFits(base: nat, size: nat, alignment: nat)
    requires base % PAGE == 0 && PowerOfTwo(alignment) && alignment >= MIN_ALIGNMENT && Small(size, alignment)
    ensures PlaceAt(WholeArena(base, PagesFor(size, alignment)), size, alignment) <==> FreshFits(size, alignment)
  {
    var whole, room := WholeArena(base, PagesFor(size, alignment)), PagesFor(size, alignment) * PAGE;
    assert whole.addr == base + 48 && End(whole) == base + room && room >= 96 + size + alignment;
    SmallOrWide(alignment);
    hide PowerOfTwo, PagesFor, WholeArena, PlaceAt, End;
    if alignment == 16 || alignment == 32 {
      PlaceSmall(whole, base, size, alignment, room);
    } else if alignment == 64 {
      PlaceAt64(whole, base, size, room);
    } else if alignment == 128 {
      PlaceAt128(whole, base, size, room);
    } else {
      PlaceWide(whole, base, size, alignment, room);
    }
  }

  lemma PlaceSmall(whole: Block, base: nat, size: nat, alignment: nat, room: nat)
    requires base % PAGE == 0 && whole.free && whole.addr == base + 48 && End(whole) == base + room
    requires (alignment == 16 || alignment == 32) && room >= 96 + size
    ensures PlaceAt(whole, size, alignment)
  {
    var p := base / PAGE;
    RemainderOf(base + 96, p * 128 + 3, 32, 0);
    RemainderOf(base + 96, p * 256 + 6, 16, 0);
    assert Aligned(base + 96, alignment);
    hide Aligned;
    assert Placed(whole, size, alignment, base + 48);
  }

  lemma PlaceAt64(whole: Block, base: nat, size: nat, room: nat)
    requires base % PAGE == 0 && whole.free && whole.addr == base + 48 && End(whole) == base + room
    ensures PlaceAt(whole, size, 64) <==> 192 + size <= room
  {
    PageMultiples(base, 64);
    Behind(base, 96, 64, 128);
    Behind(base, 129, 64, 192);
    hide Aligned;
    if 192 + size <= room {
      assert Placed(whole, size, 64, base + 144);
    }
  }

  lemma PlaceAt128(whole: Block, base: nat, size: nat, room: nat)
    requires base % PAGE == 0 && whole.free && whole.addr == base + 48 && End(whole) == base + room
    ensures PlaceAt(whole, size, 128) <==> 256 + size <= room
  {
    PageMultiples(base, 128);
    Behind(base, 96, 128, 128);
    Behind(base, 129, 128, 256);
    hide Aligned;
    if 256 + size <= room {
      assert Placed(whole, size, 128, base + 208);
    }
  }

  lemma PageMultiples(base: nat, unit: nat)
    requires base % PAGE == 0 && (unit == 64 || unit == 128 || unit == 256)
    ensures Aligned(base, unit) && Aligned(base + unit, unit) && Aligned(base + 2 * unit, unit)
    ensures Aligned(base + 3 * unit, unit)
  {
    var p := base / PAGE;
    if unit == 64 {
      MultiplesFrom(base, p * 64, 64);
    } else if unit == 128 {
      MultiplesFrom(base, p * 32, 128);
    } else {
      MultiplesFrom(base, p * 16, 256);
    }
  }

  lemma MultiplesFrom(base: nat, q: nat, unit: nat)
    requires unit > 0 && base == q * unit
    ensures Aligned(base, unit) && Aligned(base + unit, unit) && Aligned(base + 2 * unit, unit)
    ensures Aligned(base + 3 * unit, unit)
  {
    RemainderOf(base, q, unit, 0);
    RemainderOf(base + unit, q + 1, unit, 0);
    RemainderOf(base + 2 * unit, q + 2, unit, 0);
    RemainderOf(base + 3 * unit, q + 3, unit, 0);
  }

  /** Multiples of `unit` from `base + from` on begin at `base + to`. */
  lemma Behind(base: nat, from: nat, unit: nat, to: nat)
    requires unit > 0 && unit <= to && to - unit < from <= to && Aligned(base + (to - unit), unit)
    ensures forall x: nat :: Aligned(x, unit) && x >= base + from ==> x >= base + to
  {
    hide Aligned;
    forall x: nat | Aligned(x, unit) && x >= base + from
      ensures x >= base + to
    {
      MultiplesApart(base + (to - unit), x, unit);
    }
  }

  lemma PlaceWide(whole: Block, base: nat, size: nat, alignment: nat, room: nat)
    requires base % PAGE == 0 && whole.free && whole.addr == base + 48 && End(whole) == base + room
    requires alignment % 256 == 0 && alignment > 0 && room >= 96 + size + alignment
    ensures PlaceAt(whole, size, alignment)
  {
    hide CeilTo, Aligned;
    var payload := CeilTo(base + 96, alignment);
    WideMultiple(payload, alignment);
    PageMultiples(base, 256);
    Behind(base, 96, 256, 256);
    assert Placed(whole, size, alignment, payload - 48);
  }

  lemma WideMultiple(x: nat, alignment: nat)
    requires alignment > 0 && alignment % 256 == 0 && Aligned(x, alignment)
    ensures Aligned(x, 256)
  {
    var q, k := x / alignment, alignment / 256;
    assert x == q * alignment && alignment == k * 256;
    assert x == (q * k) * 256;
  }

  /** An arena made for 65376 bytes at alignment 64 has 16 pages, and no place for them. */
  lemma FreshArenaTooSmall()
    ensures PagesFor(65376, 64) == 16 && !FreshFits(65376, 64)
  {
  }

  lemma ChosenCommits(s: State, k: nat, i: nat, block: nat, header: nat, size: nat, alignment: nat)
    requires Good(s) && Request(size, alignment) && Chosen(s, k, i, block, header, size, alignment)
    ensures s.order[k] in s.lists && Committable(s, k, i, header, size, alignment)
    ensures block == s.lists[s.order[k]][i].addr && HasPlace(s, size, alignment)
    ensures header + HEADER + size <= End(s.lists[s.order[k]][i])
  {
    assert PlaceAt(s.lists[s.order[k]][i], size, alignment);
    assert PlaceIn(s.lists[s.order[k]], size, alignment);
  }

  lemma CommittedBelow(s: State, k: nat, i: nat, header: nat, size: nat, alignment: nat, limit: nat)
    requires Committable(s, k, i, header, size, alignment) && Below(s, limit)
    requires Good(Committed(s, k, i, header, size, alignment))
    ensures Below(Committed(s, k, i, header, size, alignment), limit)
  {
    CarvableAt(s, k, i, header, size, alignment);
    hide ArenasGood, ArenasApart, BytesOf, CommitHeaders, Carve, Chosen;
  }

  lemma ArenaSame(s0: State, s: State, base: nat, pages: nat)
    requires Good(s) && FreshPages(s, base, pages) && SameLive(s0, s)
    ensures Good(Acquired(s, base, pages)) && SameLive(s0, Acquired(s, base, pages))
    ensures Acquired(s, base, pages).arenaCount == s.arenaCount + 1
  {
    AcquiredGood(s, base, pages);
    forall b
      ensures Live(Acquired(s, base, pages), b) <==> Live(s, b)
    {
      AcquiredLive(s, base, pages, b);
    }
    hide Good, Live, FreshPages;
  }

  /** After a new arena there is a place exactly where there was one, or in the new arena. */
  lemma ArenaPlaces(s: State, base: nat, size: nat, alignment: nat)
    requires Good(s) && PowerOfTwo(alignment) && alignment >= MIN_ALIGNMENT && Small(size, alignment)
    requires FreshPages(s, base, PagesFor(size, alignment))
    ensures HasPlace(Acquired(s, base, PagesFor(size, alignment)), size, alignment) <==>
              HasPlace(s, size, alignment) || FreshFits(size, alignment)
  {
    var pages := PagesFor(size, alignment);
    AcquiredGood(s, base, pages);
    FreshArenaFits(base, size, alignment);
    AcquiredPlaces(s, base, pages, size, alignment);
    hide HasPlace, FreshFits, Good, PlaceAt, Live, FreshPages;
  }

  lemma AcquiredPlaces(s: State, base: nat, pages: nat, size: nat, alignment: nat)
    requires Good(s) && alignment > 0 && FreshPages(s, base, pages) && Good(Acquired(s, base, pages))
    ensures HasPlace(Acquired(s, base, pages), size, alignment) <==>
              HasPlace(s, size, alignment) || PlaceAt(WholeArena(base, pages), size, alignment)
  {
    var s' := Acquired(s, base, pages);
    SamePages(s, base, pages);
    hide ArenasGood, ArenasApart, BytesOf, PlaceAt;
    assert s'.order[0] == base && s'.lists[base] == [WholeArena(base, pages)];
    if PlaceAt(WholeArena(base, pages), size, alignment) {
      assert PlaceAt(s'.lists[base][0], size, alignment);
      assert PlaceIn(s'.lists[s'.order[0]], size, alignment);
    }
    if k :| 0 <= k < |s.order| && PlaceIn(s.lists[s.order[k]], size, alignment) {
      assert s'.order[k + 1] == s.order[k] && s'.lists[s.order[k]] == s.lists[s.order[k]];
      assert PlaceIn(s'.lists[s'.order[k + 1]], size, alignment);
    }
    if k :| 0 <= k < |s'.order| && PlaceIn(s'.lists[s'.order[k]], size, alignment) {
      if k > 0 {
        assert s'.order[k] == s.order[k - 1] && s'.lists[s.order[k - 1]] == s.lists[s.order[k - 1]];
        assert PlaceIn(s.lists[s.order[k - 1]], size, alignment);
      }
    }
  }

  const NOTHING := State(map[], map[], 0, 0, 0, [], map[])

  lemma NothingYet(s: State)
    requires s == NOTHING
    ensures Good(s) && SameLive(s, s) && forall b :: !Live(s, b)
  {
  }

  /** Once nothing is live, every arena is one free block again: nothing stays fragmented. */
  lemma NothingLiveIsWhole(s: State, k: nat)
    requires Good(s) && k < |s.order| && forall b :: !Live(s, b)
    ensures s.order[k] in s.lists && s.order[k] in s.arenas && s.arenas[s.order[k]].pages > 0
    ensures s.lists[s.order[k]] == [WholeArena(s.order[k], s.arenas[s.order[k]].pages)]
  {
    InOrderList(s, k);
    var list := s.lists[s.order[k]];
    assert |list| > 1 ==> Adjoin(list[0], list[1]);
    forall i | 0 <= i < |list|
      ensures list[i].free
    {
      if !list[i].free { NowLive(s, k, list[i]); }
    }
  }
}
