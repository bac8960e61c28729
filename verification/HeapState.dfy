/** The whole heap as a value: arenas in list order, the block list of each, and
    the invariant that ties them to the headers in memory. */
module HeapState {
  import opened Division
  import opened Machine
  import opened HeapBlocks
  import opened HeapLinks

  const ARENA_HEADER := 48

  /** An arena's own header, at its first address. */
  datatype Arena = Arena(pages: nat, next: nat, previous: nat, first: nat)

  /** `order` is the arena list, `lists` the blocks each arena's headers stand for. */
  datatype State = State(headers: Headers, arenas: map<nat, Arena>, firstArena: nat, arenaCount: nat, used: nat,
                         order: seq<nat>, lists: map<nat, seq<Block>>)

  function Low(a: nat): nat { a + ARENA_HEADER }
  function High(a: nat, arena: Arena): nat { a + arena.pages * PAGE }

  predicate ArenaGood(h: Headers, a: nat, arena: Arena, blocks: seq<Block>) {
    && 0 < a && a % PAGE == 0 && arena.pages > 0 && High(a, arena) < ADDRESSES
    && Tiles(blocks, Low(a), High(a, arena)) && arena.first == blocks[0].addr && Represents(h, a, blocks)
  }

  function ArenaNext(order: seq<nat>, k: nat): nat
    requires k < |order|
  {
    if k + 1 < |order| then order[k + 1] else 0
  }

  function ArenaPrevious(order: seq<nat>, k: nat): nat
    requires k < |order|
  {
    if k > 0 then order[k - 1] else 0
  }

  predicate Linked(arenas: map<nat, Arena>, order: seq<nat>, k: nat)
    requires k < |order| && order[k] in arenas
  {
    arenas[order[k]].next == ArenaNext(order, k) && arenas[order[k]].previous == ArenaPrevious(order, k)
  }

  /** The arena list is doubly linked in order, without repetition. */
  predicate Ordered(s: State) {
    && s.firstArena == (if s.order == [] then 0 else s.order[0]) && s.arenaCount == |s.order|
    && (forall k :: 0 <= k < |s.order| ==> s.order[k] in s.arenas && s.order[k] in s.lists)
    && (forall k :: 0 <= k < |s.order| ==> Linked(s.arenas, s.order, k))
    && 0 !in s.arenas
    && forall j, k :: 0 <= j < k < |s.order| ==> s.order[j] != s.order[k]
  }

  predicate Beside(a: nat, arena: Arena, b: nat, other: Arena) { High(a, arena) <= b || High(b, other) <= a }

  /** No two arenas overlap. */
  predicate ArenasApart(s: State)
    requires Ordered(s)
  {
    forall j, k :: 0 <= j < k < |s.order| ==> Beside(s.order[j], s.arenas[s.order[j]], s.order[k], s.arenas[s.order[k]])
  }

  predicate ArenasGood(s: State)
    requires Ordered(s)
  {
    forall k :: 0 <= k < |s.order| ==> ArenaGood(s.headers, s.order[k], s.arenas[s.order[k]], s.lists[s.order[k]])
  }

  /** The bytes of all blocks in use, or of all free blocks. */
  function BytesOf(order: seq<nat>, lists: map<nat, seq<Block>>, free: bool): nat
    requires forall k :: 0 <= k < |order| ==> order[k] in lists
  {
    if order == [] then 0 else BytesOf(order[..|order| - 1], lists, free) + Bytes(lists[order[|order| - 1]], free)
  }

  predicate Good(s: State) {
    && Ordered(s) && ArenasApart(s) && ArenasGood(s)
    && s.used == BytesOf(s.order, s.lists, false)
  }

  // ----- live blocks

  predicate LiveIn(blocks: seq<Block>, b: Block) { b in blocks && !b.free }

  predicate Live(s: State, b: Block) {
    exists k :: 0 <= k < |s.order| && s.order[k] in s.lists && LiveIn(s.lists[s.order[k]], b)
  }

  /** Two live blocks, of whatever arenas, have no byte in common. */
  lemma LiveApart(s: State, b: Block, c: Block)
    requires Good(s) && Live(s, b) && Live(s, c) && b != c
    ensures End(b) <= c.addr || End(c) <= b.addr
  {
    hide Tiles, Represents;
    var j :| 0 <= j < |s.order| && s.order[j] in s.lists && LiveIn(s.lists[s.order[j]], b);
    var k :| 0 <= k < |s.order| && s.order[k] in s.lists && LiveIn(s.lists[s.order[k]], c);
    var a, d := s.order[j], s.order[k];
    assert ArenaGood(s.headers, a, s.arenas[a], s.lists[a]) && ArenaGood(s.headers, d, s.arenas[d], s.lists[d]);
    BlockInside(s.lists[a], Low(a), High(a, s.arenas[a]), b);
    BlockInside(s.lists[d], Low(d), High(d, s.arenas[d]), c);
    if a == d {
      BlocksApart(s.lists[a], Low(a), High(a, s.arenas[a]), b, c);
    } else {
      assert Beside(a, s.arenas[a], d, s.arenas[d]) || Beside(d, s.arenas[d], a, s.arenas[a]);
    }
  }

  lemma BlockInside(blocks: seq<Block>, low: nat, high: nat, b: Block)
    requires Tiles(blocks, low, high) && b in blocks
    ensures low <= b.addr && End(b) <= high
  {
    var m :| 0 <= m < |blocks| && blocks[m] == b;
    InOrder(blocks, low, high, m, m);
  }

  lemma BlocksApart(blocks: seq<Block>, low: nat, high: nat, b: Block, c: Block)
    requires Tiles(blocks, low, high) && b in blocks && c in blocks && b != c
    ensures End(b) <= c.addr || End(c) <= b.addr
  {
    var m :| 0 <= m < |blocks| && blocks[m] == b;
    var n :| 0 <= n < |blocks| && blocks[n] == c;
    if m < n { InOrder(blocks, low, high, m, n); } else { InOrder(blocks, low, high, n, m); }
  }

  lemma ArenasBeside(s: State, k: nat, m: nat)
    requires Good(s) && k < |s.order| && m < |s.order| && k != m
    ensures Beside(s.order[k], s.arenas[s.order[k]], s.order[m], s.arenas[s.order[m]])
  {
    hide ArenasGood, BytesOf;
    if m < k { assert Beside(s.order[m], s.arenas[s.order[m]], s.order[k], s.arenas[s.order[k]]); }
  }

  // ----- one arena's list changes

  /** Blocks [i, j) of the k-th arena are replaced by `pieces`, headers and links included. */
  predicate Changed(s: State, s': State, k: nat, i: nat, j: nat, pieces: seq<Block>)
    requires Good(s) && k < |s.order|
  {
    var a := s.order[k];
    var blocks := s.lists[a];
    && i < j <= |blocks| && pieces != []
    && s'.order == s.order && s'.firstArena == s.firstArena && s'.arenaCount == s.arenaCount
    && s'.arenas.Keys == s.arenas.Keys && (forall x :: x in s.arenas && x != a ==> s'.arenas[x] == s.arenas[x])
    && s'.lists == s.lists[a := blocks[..i] + pieces + blocks[j..]]
    && s'.arenas[a] == s.arenas[a].(first := s'.lists[a][0].addr)
    && Relinked(s.headers, s'.headers, a, blocks, i, j, pieces)
  }

  lemma ChangedArena(s: State, s': State, k: nat, i: nat, j: nat, pieces: seq<Block>, m: nat)
    requires Good(s) && k < |s.order| && m < |s.order| && Changed(s, s', k, i, j, pieces)
    requires Tiles(s'.lists[s.order[k]], Low(s.order[k]), High(s.order[k], s.arenas[s.order[k]]))
    ensures ArenaGood(s'.headers, s.order[m], s'.arenas[s.order[m]], s'.lists[s.order[m]])
  {
    hide Tiles, Represents, Relinked, ArenasApart, BytesOf;
    var a, c := s.order[k], s.order[m];
    assert ArenaGood(s.headers, a, s.arenas[a], s.lists[a]) && ArenaGood(s.headers, c, s.arenas[c], s.lists[c]);
    if m == k {
      RelinkedRepresents(s.headers, s'.headers, a, s.lists[a], Low(a), High(a, s.arenas[a]), i, j, pieces);
    } else {
      ArenasBeside(s, k, m);
      KeptArena(s.headers, s'.headers, a, s.arenas[a], s.lists[a], i, j, pieces, c, s.arenas[c], s.lists[c]);
    }
  }

  lemma KeptArena(h: Headers, h': Headers, a: nat, arena: Arena, blocks: seq<Block>, i: nat, j: nat, pieces: seq<Block>,
                  c: nat, other: Arena, list: seq<Block>)
    requires Tiles(blocks, Low(a), High(a, arena)) && i < j <= |blocks| && pieces != []
    requires Relinked(h, h', a, blocks, i, j, pieces)
    requires Tiles(list, Low(c), High(c, other)) && Represents(h, c, list) && Beside(a, arena, c, other)
    ensures Represents(h', c, list)
  {
    hide Tiles, Represents, Relinked;
    forall x | x in h && Low(c) <= x < High(c, other)
      ensures x in h' && h'[x] == h[x]
    {
      RelinkedElsewhere(h, h', a, blocks, Low(a), High(a, arena), i, j, pieces, x);
    }
    RepresentsElsewhere(h, h', c, list, Low(c), High(c, other));
  }

  lemma {:induction false} BytesChange(order: seq<nat>, lists: map<nat, seq<Block>>, k: nat, blocks: seq<Block>,
                                       free: bool)
    requires (forall m :: 0 <= m < |order| ==> order[m] in lists) && k < |order|
    requires forall j, m :: 0 <= j < m < |order| ==> order[j] != order[m]
    ensures BytesOf(order, lists[order[k] := blocks], free) + Bytes(lists[order[k]], free)
            == BytesOf(order, lists, free) + Bytes(blocks, free)
  {
    var last := |order| - 1;
    if k < last {
      BytesChange(order[..last], lists, k, blocks, free);
    } else {
      BytesSame(order[..last], lists, lists[order[k] := blocks], free);
    }
  }

  lemma {:induction false} BytesSame(order: seq<nat>, lists: map<nat, seq<Block>>, lists': map<nat, seq<Block>>,
                                     free: bool)
    requires forall m :: 0 <= m < |order| ==>
               order[m] in lists && order[m] in lists' && lists'[order[m]] == lists[order[m]]
    ensures BytesOf(order, lists', free) == BytesOf(order, lists, free)
  {
    if order != [] { BytesSame(order[..|order| - 1], lists, lists', free); }
  }

  lemma ChangedShape(s: State, s': State, k: nat, i: nat, j: nat, pieces: seq<Block>)
    requires Good(s) && k < |s.order| && Changed(s, s', k, i, j, pieces)
    ensures Ordered(s') && ArenasApart(s')
  {
    hide ArenasGood, Relinked, BytesOf;
    assert forall m :: 0 <= m < |s.order| ==>
             s'.arenas[s.order[m]] == s.arenas[s.order[m]].(first := s'.arenas[s.order[m]].first);
    forall m | 0 <= m < |s.order|
      ensures Linked(s'.arenas, s'.order, m)
    {
      assert Linked(s.arenas, s.order, m);
    }
    forall x, y | 0 <= x < y < |s.order|
      ensures Beside(s.order[x], s'.arenas[s.order[x]], s.order[y], s'.arenas[s.order[y]])
    {
      assert Beside(s.order[x], s.arenas[s.order[x]], s.order[y], s.arenas[s.order[y]]);
    }
  }

  lemma ChangedGood(s: State, s': State, k: nat, i: nat, j: nat, pieces: seq<Block>)
    requires Good(s) && k < |s.order| && Changed(s, s', k, i, j, pieces)
    requires Tiles(s'.lists[s.order[k]], Low(s.order[k]), High(s.order[k], s.arenas[s.order[k]]))
    requires s'.used + Bytes(s.lists[s.order[k]], false) == s.used + Bytes(s'.lists[s.order[k]], false)
    ensures Good(s')
  {
    hide Tiles, Relinked, ArenaGood, Bytes, BytesOf;
    BytesChange(s.order, s.lists, k, s'.lists[s.order[k]], false);
    ChangedShape(s, s', k, i, j, pieces);
    forall m | 0 <= m < |s.order|
      ensures ArenaGood(s'.headers, s.order[m], s'.arenas[s.order[m]], s'.lists[s.order[m]])
    {
      ChangedArena(s, s', k, i, j, pieces, m);
    }
  }

  /** What is live after one arena's list changed: what is in that list now, and what is in the others. */
  lemma ChangedLive(s: State, s': State, k: nat, i: nat, j: nat, pieces: seq<Block>, b: Block)
    requires Good(s) && k < |s.order| && Changed(s, s', k, i, j, pieces)
    requires LiveIn(s.lists[s.order[k]], b) <==> LiveIn(s'.lists[s.order[k]], b)
    ensures Live(s, b) <==> Live(s', b)
  {
    hide ArenasGood, ArenasApart, Relinked, BytesOf, LiveIn;
    assert forall m :: 0 <= m < |s.order| ==> (LiveIn(s'.lists[s.order[m]], b) <==> LiveIn(s.lists[s.order[m]], b));
  }

  /** A block of one arena's list is in no other's. */
  lemma LiveOnlyHere(s: State, k: nat, m: nat, b: Block)
    requires Good(s) && k < |s.order| && m < |s.order| && b in s.lists[s.order[k]] && b in s.lists[s.order[m]]
    ensures k == m
  {
    hide Tiles, Represents, BytesOf;
    var a, c := s.order[k], s.order[m];
    assert ArenaGood(s.headers, a, s.arenas[a], s.lists[a]) && ArenaGood(s.headers, c, s.arenas[c], s.lists[c]);
    BlockInside(s.lists[a], Low(a), High(a, s.arenas[a]), b);
    BlockInside(s.lists[c], Low(c), High(c, s.arenas[c]), b);
    if k != m { ArenasBeside(s, k, m); }
  }

  // ----- allocating

  lemma CarveLive(blocks: seq<Block>, i: nat, header: nat, size: nat, b: Block)
    requires i < |blocks| && blocks[i].free && blocks[i].addr <= header && header + HEADER + size <= End(blocks[i])
    ensures LiveIn(Carve(blocks, i, header, size), b) <==> LiveIn(blocks, b) || b == Allocated(blocks[i], header, size)
  {
    var a := Allocated(blocks[i], header, size);
    var lead, trail := Leading(blocks[i], header), Trailing(blocks[i], header, size);
    assert blocks == blocks[..i] + [blocks[i]] + blocks[i + 1..];
    assert b in lead ==> b.free;
    assert b in trail ==> b.free;
    assert a in [a];
  }

  /** A block inside a free one was not live. */
  lemma InsideFree(s: State, k: nat, i: nat, b: Block)
    requires Good(s) && k < |s.order| && i < |s.lists[s.order[k]]| && s.lists[s.order[k]][i].free
    requires s.lists[s.order[k]][i].addr <= b.addr && End(b) <= End(s.lists[s.order[k]][i])
    ensures !Live(s, b)
  {
    hide Tiles, Represents, BytesOf;
    var a := s.order[k];
    var f := s.lists[a][i];
    assert f in s.lists[a];
    assert ArenaGood(s.headers, a, s.arenas[a], s.lists[a]);
    if m :| 0 <= m < |s.order| && s.order[m] in s.lists && LiveIn(s.lists[s.order[m]], b) {
      var c := s.order[m];
      assert ArenaGood(s.headers, c, s.arenas[c], s.lists[c]);
      BlockInside(s.lists[a], Low(a), High(a, s.arenas[a]), f);
      BlockInside(s.lists[c], Low(c), High(c, s.arenas[c]), b);
      if m == k { BlocksApart(s.lists[a], Low(a), High(a, s.arenas[a]), f, b); }
    }
  }

  lemma CarvedGood(s: State, s': State, k: nat, i: nat, header: nat, size: nat, alignment: nat)
    requires Good(s) && k < |s.order| && i < |s.lists[s.order[k]]|
    requires GoodAlignment(alignment) && size % MIN_ALIGNMENT == 0 && size >= MIN_ALIGNMENT
    requires var b := s.lists[s.order[k]][i];
             b.free && Placed(b, size, alignment, header) && Changed(s, s', k, i, i + 1, Pieces(b, header, size))
             && s'.used == s.used + Allocated(b, header, size).size
    ensures var a := Allocated(s.lists[s.order[k]][i], header, size);
            Good(s') && !Live(s, a) && a.size >= size && Aligned(a.addr + HEADER, alignment)
  {
    hide Good, Tiles, Represents, Relinked, Bytes, Aligned, Pieces, Live, GoodAlignment;
    InOrderList(s, k);
    var x := s.order[k];
    var blocks := s.lists[x];
    CarveTiles(blocks, Low(x), High(x, s.arenas[x]), i, size, alignment, header);
    CarveBytes(blocks, i, header, size);
    ChangedGood(s, s', k, i, i + 1, Pieces(blocks[i], header, size));
    InsideFree(s, k, i, Allocated(blocks[i], header, size));
  }

  /** The k-th arena's free block `i` was carved: exactly the allocated block became live. */
  lemma CarvedLive(s: State, s': State, k: nat, i: nat, header: nat, size: nat, b: Block)
    requires Good(s) && k < |s.order| && i < |s.lists[s.order[k]]|
    requires var f := s.lists[s.order[k]][i];
             f.free && f.addr <= header && header + HEADER + size <= End(f)
               && Changed(s, s', k, i, i + 1, Pieces(f, header, size))
    ensures Live(s', b) <==> Live(s, b) || b == Allocated(s.lists[s.order[k]][i], header, size)
  {
    hide Good, Relinked, Pieces, Live, Allocated;
    InOrderList(s, k);
    var blocks := s.lists[s.order[k]];
    CarveLive(blocks, i, header, size, b);
    if b == Allocated(blocks[i], header, size) {
      NowLive(s', k, b);
    } else {
      ChangedLive(s, s', k, i, i + 1, Pieces(blocks[i], header, size), b);
    }
  }

  lemma InOrderList(s: State, k: nat)
    requires Good(s) && k < |s.order|
    ensures s.order[k] in s.lists && s.order[k] in s.arenas
    ensures ArenaGood(s.headers, s.order[k], s.arenas[s.order[k]], s.lists[s.order[k]])
  {
  }

  lemma NowLive(s: State, k: nat, b: Block)
    requires k < |s.order| && s.order[k] in s.lists && LiveIn(s.lists[s.order[k]], b)
    ensures Live(s, b)
  {
  }

  // ----- giving back

  lemma ReleaseLive(blocks: seq<Block>, low: nat, high: nat, i: nat, b: Block)
    requires Tiles(blocks, low, high) && i < |blocks| && !blocks[i].free
    ensures LiveIn(Release(blocks, i), b) <==> LiveIn(blocks, b) && b != blocks[i]
  {
    var from, to := From(blocks, i), To(blocks, i);
    if LiveIn(blocks, b) && b != blocks[i] {
      var m :| 0 <= m < |blocks| && blocks[m] == b;
      assert m < from || to <= m;
      if m < from { assert blocks[..from][m] == b; } else { assert blocks[to..][m - to] == b; }
    }
    if LiveIn(Release(blocks, i), b) {
      assert b in blocks[..from] || b in blocks[to..];
      var m :| 0 <= m < |blocks| && (m < from || to <= m) && blocks[m] == b;
      if m < i { InOrder(blocks, low, high, m, i); } else { InOrder(blocks, low, high, i, m); }
    }
  }

  lemma ReleasedState(s: State, s': State, k: nat, i: nat)
    requires Good(s) && k < |s.order| && i < |s.lists[s.order[k]]| && !s.lists[s.order[k]][i].free
    requires var blocks := s.lists[s.order[k]];
             var from, to := From(blocks, i), To(blocks, i);
             Changed(s, s', k, from, to, [Joined(blocks[from], blocks[to - 1])]) && s'.used + blocks[i].size == s.used
    ensures Good(s') && forall b :: Live(s', b) <==> Live(s, b) && b != s.lists[s.order[k]][i]
  {
    hide Tiles, Represents, Relinked, ArenasApart, BytesOf, Bytes, Live, Joined;
    var x := s.order[k];
    var blocks := s.lists[x];
    var from, to := From(blocks, i), To(blocks, i);
    var joined := [Joined(blocks[from], blocks[to - 1])];
    assert ArenaGood(s.headers, x, s.arenas[x], blocks);
    ReleaseTiles(blocks, Low(x), High(x, s.arenas[x]), i);
    ReleaseBytes(blocks, i);
    ChangedGood(s, s', k, from, to, joined);
    assert blocks[i] in blocks;
    forall b
      ensures Live(s', b) <==> Live(s, b) && b != blocks[i]
    {
      ReleaseLive(blocks, Low(x), High(x, s.arenas[x]), i, b);
      if b != blocks[i] {
        ChangedLive(s, s', k, from, to, joined, b);
      } else {
        NoLongerLive(s, s', k, from, to, joined, b);
      }
    }
  }

  lemma NoLongerLive(s: State, s': State, k: nat, i: nat, j: nat, pieces: seq<Block>, b: Block)
    requires Good(s) && k < |s.order| && Changed(s, s', k, i, j, pieces)
    requires b in s.lists[s.order[k]] && !LiveIn(s'.lists[s.order[k]], b)
    ensures !Live(s', b)
  {
    hide Relinked, BytesOf;
    if m :| 0 <= m < |s'.order| && s'.order[m] in s'.lists && LiveIn(s'.lists[s'.order[m]], b) {
      assert m != k && b in s.lists[s.order[m]];
      LiveOnlyHere(s, k, m, b);
    }
  }

  // ----- arenas come and go

  predicate AllListed(order: seq<nat>, lists: map<nat, seq<Block>>) {
    forall k :: 0 <= k < |order| ==> order[k] in lists
  }

  lemma {:induction false} BytesOfConcat(a: seq<nat>, b: seq<nat>, lists: map<nat, seq<Block>>, free: bool)
    requires AllListed(a, lists) && AllListed(b, lists)
    ensures AllListed(a + b, lists) && BytesOf(a + b, lists, free) == BytesOf(a, lists, free) + BytesOf(b, lists, free)
  {
    if b == [] {
      assert a + b == a;
    } else {
      assert (a + b)[..|a + b| - 1] == a + b[..|b| - 1];
      BytesOfConcat(a, b[..|b| - 1], lists, free);
    }
  }

  /** The one free block of an arena nothing is allocated in. */
  function WholeArena(a: nat, pages: nat): Block
    requires pages > 0
  {
    Block(Low(a), pages * PAGE - ARENA_HEADER - HEADER, true)
  }

  /** Fresh pages: aligned, inside the address space and clear of every arena. */
  predicate FreshPages(s: State, base: nat, pages: nat) {
    && 0 < base && base % PAGE == 0 && pages > 0 && base + pages * PAGE < ADDRESSES && base !in s.arenas
    && forall k :: 0 <= k < |s.order| && s.order[k] in s.arenas ==>
         Beside(base, Arena(pages, 0, 0, 0), s.order[k], s.arenas[s.order[k]])
  }

  function Acquired(s: State, base: nat, pages: nat): State
    requires pages > 0
  {
    var arenas := if s.firstArena in s.arenas then s.arenas[s.firstArena := s.arenas[s.firstArena].(previous := base)]
      else s.arenas;
    var whole := WholeArena(base, pages);
    s.(headers := s.headers[whole.addr := Header(whole.size, base, 0, 0, true)],
       arenas := arenas[base := Arena(pages, s.firstArena, 0, whole.addr)],
       firstArena := base, arenaCount := s.arenaCount + 1, order := [base] + s.order, lists := s.lists[base := [whole]])
  }

  lemma PagesAligned(a: nat, pages: nat)
    ensures a % PAGE == 0 ==> a % MIN_ALIGNMENT == 0
    ensures (pages * PAGE) % MIN_ALIGNMENT == 0
  {
    RemainderOf(pages * PAGE, pages * 256, MIN_ALIGNMENT, 0);
    if a % PAGE == 0 { RemainderOf(a, (a / PAGE) * 256, MIN_ALIGNMENT, 0); }
  }

  lemma WholeTiles(a: nat, pages: nat)
    requires a % PAGE == 0 && pages > 0
    ensures Tiles([WholeArena(a, pages)], Low(a), a + pages * PAGE)
  {
    var whole := WholeArena(a, pages);
    assert Sized(whole) by {
      PagesAligned(a, pages);
      Multiples16(a, ARENA_HEADER);
      Multiples16(pages * PAGE, ARENA_HEADER);
      Multiples16(pages * PAGE - ARENA_HEADER, HEADER);
    }
    hide Sized;
    assert End(whole) == a + pages * PAGE;
  }

  lemma AcquiredOrdered(s: State, base: nat, pages: nat)
    requires Good(s) && FreshPages(s, base, pages)
    ensures Ordered(Acquired(s, base, pages))
  {
    var s' := Acquired(s, base, pages);
    assert s'.order[0] == base && s'.arenaCount == |s'.order| && s'.firstArena == base;
    hide ArenasGood, ArenasApart, BytesOf, Linked;
    forall k | 0 <= k < |s'.order|
      ensures s'.order[k] in s'.arenas && s'.order[k] in s'.lists && Linked(s'.arenas, s'.order, k)
    {
      AcquiredLinked(s, base, pages, k);
    }
    forall j, k | 0 <= j < k < |s'.order|
      ensures s'.order[j] != s'.order[k]
    {
      AcquiredDistinct(s, base, pages, j, k);
    }
  }

  lemma AcquiredDistinct(s: State, base: nat, pages: nat, j: nat, k: nat)
    requires Good(s) && FreshPages(s, base, pages) && j < k < |Acquired(s, base, pages).order|
    ensures Acquired(s, base, pages).order[j] != Acquired(s, base, pages).order[k]
  {
    hide ArenasGood, ArenasApart, BytesOf, Linked;
    var order := Acquired(s, base, pages).order;
    assert order[k] == s.order[k - 1];
    if j > 0 {
      assert order[j] == s.order[j - 1];
      Distinct(s, j - 1, k - 1);
    }
  }

  lemma AcquiredLinked(s: State, base: nat, pages: nat, k: nat)
    requires Good(s) && FreshPages(s, base, pages) && k < |Acquired(s, base, pages).order|
    ensures var s' := Acquired(s, base, pages);
            s'.order[k] in s'.arenas && s'.order[k] in s'.lists && Linked(s'.arenas, s'.order, k)
  {
    hide ArenasGood, ArenasApart, BytesOf;
    var s' := Acquired(s, base, pages);
    if k > 0 {
      assert s'.order[k] == s.order[k - 1] && Linked(s.arenas, s.order, k - 1);
      Distinct(s, k - 1, 0);
    }
    if k + 1 < |s'.order| { assert s'.order[k + 1] == s.order[k]; }
  }

  lemma AcquiredApart(s: State, base: nat, pages: nat)
    requires Good(s) && FreshPages(s, base, pages) && Ordered(Acquired(s, base, pages))
    ensures ArenasApart(Acquired(s, base, pages))
  {
    hide ArenasGood, BytesOf, Ordered;
    var s' := Acquired(s, base, pages);
    SamePages(s, base, pages);
    forall j, k | 0 <= j < k < |s'.order|
      ensures Beside(s'.order[j], s'.arenas[s'.order[j]], s'.order[k], s'.arenas[s'.order[k]])
    {
      var d := s.order[k - 1];
      assert s'.order[k] == d;
      if j > 0 {
        assert s'.order[j] == s.order[j - 1];
        ArenasBeside(s, j - 1, k - 1);
      } else {
        assert Beside(base, Arena(pages, 0, 0, 0), d, s.arenas[d]);
      }
    }
  }

  lemma SamePages(s: State, base: nat, pages: nat)
    requires Good(s) && FreshPages(s, base, pages)
    ensures forall k :: 0 <= k < |s.order| ==> s.order[k] in s.arenas && s.order[k] in s.lists && s.order[k] != base
    ensures forall k :: 0 <= k < |s.order| ==>
              Acquired(s, base, pages).arenas[s.order[k]].pages == s.arenas[s.order[k]].pages
    ensures forall k :: 0 <= k < |s.order| ==>
              Acquired(s, base, pages).arenas[s.order[k]].first == s.arenas[s.order[k]].first
    ensures Acquired(s, base, pages).arenas[base].pages == pages
  {
    hide ArenasGood, ArenasApart, BytesOf;
  }

  lemma AcquiredArena(s: State, base: nat, pages: nat, k: nat)
    requires Good(s) && FreshPages(s, base, pages) && k < |s.order|
    ensures s.order[k] in Acquired(s, base, pages).arenas && s.order[k] in Acquired(s, base, pages).lists
    ensures ArenaGood(Acquired(s, base, pages).headers, s.order[k], Acquired(s, base, pages).arenas[s.order[k]],
                      Acquired(s, base, pages).lists[s.order[k]])
  {
    hide Good, Tiles, Represents;
    var s', c := Acquired(s, base, pages), s.order[k];
    InOrderList(s, k);
    SamePages(s, base, pages);
    HeaderElsewhere(s, base, pages, c);
    RepresentsElsewhere(s.headers, s'.headers, c, s.lists[c], Low(c), High(c, s.arenas[c]));
  }

  lemma HeaderElsewhere(s: State, base: nat, pages: nat, c: nat)
    requires pages > 0 && c in s.arenas && Beside(base, Arena(pages, 0, 0, 0), c, s.arenas[c])
    ensures forall x :: x in s.headers && Low(c) <= x < High(c, s.arenas[c]) ==>
              x in Acquired(s, base, pages).headers && Acquired(s, base, pages).headers[x] == s.headers[x]
  {
  }

  lemma AcquiredGood(s: State, base: nat, pages: nat)
    requires Good(s) && FreshPages(s, base, pages)
    ensures Good(Acquired(s, base, pages))
  {
    hide Tiles, Bytes, BytesOf;
    var s' := Acquired(s, base, pages);
    AcquiredOrdered(s, base, pages);
    AcquiredApart(s, base, pages);
    WholeTiles(base, pages);
    forall k | 0 <= k < |s'.order|
      ensures ArenaGood(s'.headers, s'.order[k], s'.arenas[s'.order[k]], s'.lists[s'.order[k]])
    {
      if k > 0 { AcquiredArena(s, base, pages, k - 1); }
    }
    AcquiredBytes(s, base, pages);
  }

  lemma AcquiredBytes(s: State, base: nat, pages: nat)
    requires Good(s) && FreshPages(s, base, pages) && Ordered(Acquired(s, base, pages))
    ensures BytesOf(Acquired(s, base, pages).order, Acquired(s, base, pages).lists, false) == s.used
  {
    hide ArenasGood, ArenasApart;
    var s' := Acquired(s, base, pages);
    BytesSame(s.order, s.lists, s'.lists, false);
    BytesOfConcat([base], s.order, s'.lists, false);
    FreePiece([WholeArena(base, pages)]);
    assert [base][..0] == [];
  }

  /** A new arena brings no live block and loses none. */
  lemma AcquiredLive(s: State, base: nat, pages: nat, b: Block)
    requires Good(s) && FreshPages(s, base, pages)
    ensures Live(Acquired(s, base, pages), b) <==> Live(s, b)
  {
    hide ArenasGood, ArenasApart, BytesOf;
    var s' := Acquired(s, base, pages);
    assert forall k :: 0 <= k < |s.order| ==>
             s'.order[k + 1] == s.order[k] && s.order[k] != base && s'.lists[s.order[k]] == s.lists[s.order[k]];
    if k :| 0 <= k < |s.order| && s.order[k] in s.lists && LiveIn(s.lists[s.order[k]], b) {
      assert LiveIn(s'.lists[s'.order[k + 1]], b);
    }
  }

  /** The k-th arena, wholly free, is unlinked. */
  function Discarded(s: State, k: nat): State
    requires Ordered(s) && k < |s.order|
  {
    var a := s.order[k];
    var arena := s.arenas[a];
    var m1 := if arena.previous in s.arenas
      then s.arenas[arena.previous := s.arenas[arena.previous].(next := arena.next)] else s.arenas;
    var m2 := if arena.next in m1 then m1[arena.next := m1[arena.next].(previous := arena.previous)] else m1;
    s.(arenas := m2 - {a}, firstArena := if arena.previous != 0 then s.firstArena else arena.next,
       arenaCount := |s.order| - 1, order := s.order[..k] + s.order[k + 1..], lists := s.lists - {a})
  }

  /** Where an arena of the shorter list stood before. */
  function Was(k: nat, m: nat): nat { if m < k then m else m + 1 }

  lemma DiscardedOrder(s: State, k: nat)
    requires Ordered(s) && k < |s.order|
    ensures |Discarded(s, k).order| == |s.order| - 1
    ensures forall m :: 0 <= m < |s.order| - 1 ==> Discarded(s, k).order[m] == s.order[Was(k, m)]
  {
  }

  lemma DiscardedEntry(s: State, k: nat, c: nat)
    requires Ordered(s) && k < |s.order| && c in s.arenas && c != s.order[k]
    ensures var s', gone := Discarded(s, k), s.arenas[s.order[k]];
            && c in s'.arenas
            && s'.arenas[c] == Arena(s.arenas[c].pages, if c == gone.previous then gone.next else s.arenas[c].next,
                                                       if c == gone.next then gone.previous
                                                       else s.arenas[c].previous, s.arenas[c].first)
  {
  }

  /** What unlinking leaves of every other arena: its pages and blocks, and links to its new neighbours. */
  lemma DiscardedArena(s: State, k: nat, m: nat)
    requires Good(s) && k < |s.order| && m < |s.order| - 1
    ensures var s', c := Discarded(s, k), s.order[Was(k, m)];
            && |s'.order| == |s.order| - 1
            && s'.order[m] == c && c != s.order[k] && c in s'.arenas && c in s'.lists && s'.lists[c] == s.lists[c]
            && s'.arenas[c].pages == s.arenas[c].pages && s'.arenas[c].first == s.arenas[c].first
            && Linked(s'.arenas, s'.order, m)
  {
    hide ArenasGood, ArenasApart, BytesOf;
    var n := Was(k, m);
    DiscardedOrder(s, k);
    Distinct(s, n, k);
    assert s.order[n] in Discarded(s, k).lists;
    DiscardedEntry(s, k, s.order[n]);
    DiscardedLinked(s, k, m);
  }

  lemma Distinct(s: State, j: nat, k: nat)
    requires Ordered(s) && j < |s.order| && k < |s.order|
    ensures s.order[j] == s.order[k] <==> j == k
    ensures s.order[j] in s.arenas && s.order[k] in s.arenas && s.order[j] in s.lists && s.order[j] != 0
  {
  }

  lemma DiscardedLinked(s: State, k: nat, m: nat)
    requires Ordered(s) && k < |s.order| && m < |s.order| - 1 && |Discarded(s, k).order| == |s.order| - 1
    requires Discarded(s, k).order[m] == s.order[Was(k, m)] && Discarded(s, k).order[m] in Discarded(s, k).arenas
    ensures Linked(Discarded(s, k).arenas, Discarded(s, k).order, m)
  {
    DiscardedNext(s, k, m);
    DiscardedPrevious(s, k, m);
    hide Ordered, Discarded, ArenaNext, ArenaPrevious;
  }

  lemma DiscardedNext(s: State, k: nat, m: nat)
    requires Ordered(s) && k < |s.order| && m < |s.order| - 1 && |Discarded(s, k).order| == |s.order| - 1
    requires Discarded(s, k).order[m] == s.order[Was(k, m)] && Discarded(s, k).order[m] in Discarded(s, k).arenas
    ensures Discarded(s, k).arenas[Discarded(s, k).order[m]].next == ArenaNext(Discarded(s, k).order, m)
  {
    var n := Was(k, m);
    DiscardedOrder(s, k);
    assert Linked(s.arenas, s.order, n) && Linked(s.arenas, s.order, k);
    Distinct(s, n, k);
    DiscardedEntry(s, k, s.order[n]);
    if k > 0 { Distinct(s, k - 1, n); }
    if m + 1 < |s.order| - 1 { assert Discarded(s, k).order[m + 1] == s.order[Was(k, m + 1)]; }
    hide Ordered, Discarded;
  }

  lemma DiscardedPrevious(s: State, k: nat, m: nat)
    requires Ordered(s) && k < |s.order| && m < |s.order| - 1 && |Discarded(s, k).order| == |s.order| - 1
    requires Discarded(s, k).order[m] == s.order[Was(k, m)] && Discarded(s, k).order[m] in Discarded(s, k).arenas
    ensures Discarded(s, k).arenas[Discarded(s, k).order[m]].previous == ArenaPrevious(Discarded(s, k).order, m)
  {
    var n := Was(k, m);
    DiscardedOrder(s, k);
    assert Linked(s.arenas, s.order, n) && Linked(s.arenas, s.order, k);
    Distinct(s, n, k);
    DiscardedEntry(s, k, s.order[n]);
    if k + 1 < |s.order| { Distinct(s, k + 1, n); }
    if m > 0 { assert Discarded(s, k).order[m - 1] == s.order[Was(k, m - 1)]; }
    hide Ordered, Discarded;
  }

  lemma DiscardedOrdered(s: State, k: nat)
    requires Good(s) && k < |s.order|
    ensures Ordered(Discarded(s, k))
  {
    var s' := Discarded(s, k);
    FirstAfter(s, k);
    DiscardedOrder(s, k);
    hide ArenasGood, ArenasApart, BytesOf, Linked;
    forall m | 0 <= m < |s'.order|
      ensures s'.order[m] in s'.arenas && s'.order[m] in s'.lists && Linked(s'.arenas, s'.order, m)
    {
      DiscardedArena(s, k, m);
    }
    forall j, m | 0 <= j < m < |s'.order|
      ensures s'.order[j] != s'.order[m]
    {
      Distinct(s, Was(k, j), Was(k, m));
    }
    assert s'.arenaCount == |s'.order|;
  }

  lemma FirstAfter(s: State, k: nat)
    requires Good(s) && k < |s.order|
    ensures var s' := Discarded(s, k);
            s'.firstArena == (if s'.order == [] then 0 else s'.order[0]) && 0 !in s'.arenas
  {
    hide ArenasGood, ArenasApart, BytesOf;
    assert Linked(s.arenas, s.order, k);
  }

  lemma DiscardedApart(s: State, k: nat)
    requires Good(s) && k < |s.order| && Ordered(Discarded(s, k))
    ensures ArenasApart(Discarded(s, k))
  {
    var s' := Discarded(s, k);
    hide Good, Linked, Discarded;
    forall j, m | 0 <= j < m < |s'.order|
      ensures Beside(s'.order[j], s'.arenas[s'.order[j]], s'.order[m], s'.arenas[s'.order[m]])
    {
      DiscardedLength(s, k);
      DiscardedArena(s, k, j);
      DiscardedArena(s, k, m);
      ArenasBeside(s, Was(k, j), Was(k, m));
    }
  }

  lemma DiscardedLength(s: State, k: nat)
    requires Good(s) && k < |s.order|
    ensures |Discarded(s, k).order| == |s.order| - 1 && Discarded(s, k).headers == s.headers
  {
  }

  lemma DiscardedArenas(s: State, k: nat)
    requires Good(s) && k < |s.order| && Ordered(Discarded(s, k))
    ensures ArenasGood(Discarded(s, k))
  {
    var s' := Discarded(s, k);
    hide Good, Linked, Discarded, Tiles, Represents;
    DiscardedLength(s, k);
    forall m | 0 <= m < |s'.order|
      ensures ArenaGood(s'.headers, s'.order[m], s'.arenas[s'.order[m]], s'.lists[s'.order[m]])
    {
      DiscardedArena(s, k, m);
      InOrderList(s, Was(k, m));
    }
  }

  lemma DiscardedBytes(s: State, k: nat)
    requires Good(s) && k < |s.order| && Ordered(Discarded(s, k)) && Bytes(s.lists[s.order[k]], false) == 0
    ensures BytesOf(Discarded(s, k).order, Discarded(s, k).lists, false) == s.used
  {
    hide ArenasGood, ArenasApart, Linked, Bytes;
    var s', a := Discarded(s, k), s.order[k];
    var front, back := s.order[..k], s.order[k + 1..];
    BytesSame(s'.order, s.lists, s'.lists, false);
    assert s.order == front + [a] + back;
    BytesOfConcat(front, [a], s.lists, false);
    BytesOfConcat(front + [a], back, s.lists, false);
    BytesOfConcat(front, back, s.lists, false);
    assert [a][..0] == [];
  }

  lemma DiscardedGood(s: State, k: nat)
    requires Good(s) && k < |s.order| && Bytes(s.lists[s.order[k]], false) == 0
    ensures Good(Discarded(s, k))
  {
    DiscardedOrdered(s, k);
    DiscardedApart(s, k);
    DiscardedArenas(s, k);
    DiscardedBytes(s, k);
    hide Ordered, ArenasApart, ArenasGood, BytesOf;
  }

  /** Discarding an arena with nothing live in it loses nothing. */
  lemma DiscardedLive(s: State, k: nat, b: Block)
    requires Good(s) && k < |s.order| && !LiveIn(s.lists[s.order[k]], b)
    ensures Live(Discarded(s, k), b) <==> Live(s, b)
  {
    hide ArenasGood, ArenasApart, BytesOf, LiveIn;
    var s' := Discarded(s, k);
    if n :| 0 <= n < |s.order| && s.order[n] in s.lists && LiveIn(s.lists[s.order[n]], b) {
      var m := if n < k then n else n - 1;
      assert Was(k, m) == n;
      DiscardedArena(s, k, m);
    }
    if m :| 0 <= m < |s'.order| && s'.order[m] in s'.lists && LiveIn(s'.lists[s'.order[m]], b) {
      DiscardedArena(s, k, m);
    }
  }
}
