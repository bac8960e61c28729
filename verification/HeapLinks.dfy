/** The block headers of the heap as they lie in memory: doubly linked by
    address. A list of blocks is what one arena's headers stand for. */
module HeapLinks {
  import opened HeapBlocks
  import opened Machine

  /** A block header; 0 is the null address. */
  datatype Header = Header(size: nat, arena: nat, next: nat, previous: nat, free: bool)

  type Headers = map<nat, Header>

  function NextOf(blocks: seq<Block>, i: nat): nat
    requires i < |blocks|
  {
    if i + 1 < |blocks| then blocks[i + 1].addr else 0
  }

  function PreviousOf(blocks: seq<Block>, i: nat): nat
    requires i < |blocks|
  {
    if i > 0 then blocks[i - 1].addr else 0
  }

  /** The header block `i` must have: the links name the neighbours in address order. */
  function HeaderOf(blocks: seq<Block>, i: nat, arena: nat): Header
    requires i < |blocks|
  {
    Header(blocks[i].size, arena, NextOf(blocks, i), PreviousOf(blocks, i), blocks[i].free)
  }

  predicate HeaderAt(h: Headers, blocks: seq<Block>, i: nat, arena: nat)
    requires i < |blocks|
  {
    blocks[i].addr in h && h[blocks[i].addr] == HeaderOf(blocks, i, arena)
  }

  predicate Represents(h: Headers, arena: nat, blocks: seq<Block>) {
    forall i :: 0 <= i < |blocks| ==> HeaderAt(h, blocks, i, arena)
  }

  /** Blocks [i, j) are replaced by `pieces`: their headers are written, the neighbours' links follow,
      and nothing outside the replaced range changes otherwise. */
  predicate Relinked(h: Headers, h': Headers, arena: nat, blocks: seq<Block>, i: nat, j: nat, pieces: seq<Block>)
    requires i < j <= |blocks| && pieces != []
  {
    var result := blocks[..i] + pieces + blocks[j..];
    && (forall k :: i <= k < i + |pieces| ==> HeaderAt(h', result, k, arena))
    && (i > 0 ==> HeaderAt(h', result, i - 1, arena))
    && (j < |blocks| ==> HeaderAt(h', result, i + |pieces|, arena))
    && forall x :: x in h && Untouched(blocks, i, j, x) ==> x in h' && h'[x] == h[x]
  }

  /** An address outside blocks [i, j) that is not the header of either neighbour. */
  predicate Untouched(blocks: seq<Block>, i: nat, j: nat, x: nat)
    requires i < j <= |blocks|
  {
    && !(blocks[i].addr <= x < End(blocks[j - 1]))
    && (i > 0 ==> x != blocks[i - 1].addr) && (j < |blocks| ==> x != blocks[j].addr)
  }

  lemma RelinkedRepresents(h: Headers, h': Headers, arena: nat, blocks: seq<Block>, low: nat, high: nat, i: nat, j: nat,
                           pieces: seq<Block>)
    requires Tiles(blocks, low, high) && i < j <= |blocks| && pieces != []
    requires Represents(h, arena, blocks) && Relinked(h, h', arena, blocks, i, j, pieces)
    ensures Represents(h', arena, blocks[..i] + pieces + blocks[j..])
  {
    var result, n := blocks[..i] + pieces + blocks[j..], |pieces|;
    forall k | 0 <= k < |result|
      ensures HeaderAt(h', result, k, arena)
    {
      if k < i - 1 {
        KeptBefore(h, h', arena, blocks, low, high, i, j, pieces, k);
      } else if k > i + n {
        KeptAfter(h, h', arena, blocks, low, high, i, j, pieces, k - n - i + j);
      }
    }
  }

  lemma KeptBefore(h: Headers, h': Headers, arena: nat, blocks: seq<Block>, low: nat, high: nat, i: nat, j: nat,
                   pieces: seq<Block>, k: nat)
    requires Tiles(blocks, low, high) && i < j <= |blocks| && pieces != [] && k + 1 < i
    requires Represents(h, arena, blocks) && Relinked(h, h', arena, blocks, i, j, pieces)
    ensures HeaderAt(h', blocks[..i] + pieces + blocks[j..], k, arena)
  {
    assert HeaderAt(h, blocks, k, arena);
    InOrder(blocks, low, high, k, i - 1);
    InOrder(blocks, low, high, k, i);
    if j < |blocks| { InOrder(blocks, low, high, k, j); }
  }

  lemma KeptAfter(h: Headers, h': Headers, arena: nat, blocks: seq<Block>, low: nat, high: nat, i: nat, j: nat,
                  pieces: seq<Block>, k: nat)
    requires Tiles(blocks, low, high) && i < j < k < |blocks| && pieces != []
    requires Represents(h, arena, blocks) && Relinked(h, h', arena, blocks, i, j, pieces)
    ensures HeaderAt(h', blocks[..i] + pieces + blocks[j..], k - j + i + |pieces|, arena)
  {
    assert HeaderAt(h, blocks, k, arena);
    InOrder(blocks, low, high, j - 1, k);
    InOrder(blocks, low, high, j, k);
    if i > 0 { InOrder(blocks, low, high, i - 1, k); }
  }

  /** Headers outside an arena do not change when its blocks are relinked. */
  lemma RelinkedElsewhere(h: Headers, h': Headers, arena: nat, blocks: seq<Block>, low: nat, high: nat, i: nat, j: nat,
                          pieces: seq<Block>, x: nat)
    requires Tiles(blocks, low, high) && i < j <= |blocks| && pieces != []
    requires Relinked(h, h', arena, blocks, i, j, pieces)
    requires x in h && !(low <= x < high)
    ensures x in h' && h'[x] == h[x]
  {
    InOrder(blocks, low, high, i, j - 1);
    if i > 0 { InOrder(blocks, low, high, i - 1, i); }
    if j < |blocks| { InOrder(blocks, low, high, j - 1, j); }
  }

  lemma RepresentsElsewhere(h: Headers, h': Headers, arena: nat, blocks: seq<Block>, low: nat, high: nat)
    requires Tiles(blocks, low, high) && Represents(h, arena, blocks)
    requires forall x :: x in h && low <= x < high ==> x in h' && h'[x] == h[x]
    ensures Represents(h', arena, blocks)
  {
    forall k | 0 <= k < |blocks|
      ensures HeaderAt(h', blocks, k, arena)
    {
      assert HeaderAt(h, blocks, k, arena);
      InOrder(blocks, low, high, k, k);
    }
  }

  // ----- what carving writes

  /** A link is null or leads to a header. */
  predicate LinkOk(h: Headers, link: nat) { link != 0 ==> link in h }

  /** The headers after an allocation at `header` inside the free block `block`. */
  function CommitHeaders(h: Headers, block: nat, header: nat, size: nat): Headers
    requires block in h && block <= header && header + size <= block + h[block].size
    requires LinkOk(h, h[block].previous) && LinkOk(h, h[block].next)
  {
    var b := h[block];
    var lead, tail := header - block, header + HEADER + size;
    var span := block + HEADER + b.size - tail;
    var h1 := if lead != 0
      then h[block := Header(if lead >= HEADER then lead - HEADER else 0, b.arena, header, b.previous, true)] else h;
    var h2 := if b.previous != 0 then h1[b.previous := h1[b.previous].(next := block)] else h1;
    var h3 := if span >= MIN_SPAN then h2[tail := Header(span - HEADER, b.arena, b.next, header, true)] else h2;
    var h4 := if b.next != 0 then h3[b.next := h3[b.next].(previous := if span >= MIN_SPAN then tail else header)]
      else h3;
    h4[header := Header(if span >= MIN_SPAN then size else size + span, b.arena, if span >= MIN_SPAN then tail
          else b.next,
                        if lead != 0 then block else b.previous, false)]
  }

  /** The headers after an allocation whose end was computed as `tail`, wherever that is: the header of what
      is left over is written there. Sizes are 64-bit differences. */
  function CommitHeadersAt(h: Headers, block: nat, header: nat, size: nat, tail: nat): Headers
    requires block in h && block <= header && tail <= block + HEADER + h[block].size
    requires LinkOk(h, h[block].previous) && LinkOk(h, h[block].next)
  {
    var b := h[block];
    var lead, span := header - block, block + HEADER + b.size - tail;
    var h1 := if lead != 0
      then h[block := Header(if lead >= HEADER then lead - HEADER else 0, b.arena, header, b.previous, true)] else h;
    var h2 := if b.previous != 0 then h1[b.previous := h1[b.previous].(next := block)] else h1;
    var h3 := if span >= MIN_SPAN then h2[tail := Header(span - HEADER, b.arena, b.next, header, true)] else h2;
    var h4 := if b.next != 0 then h3[b.next := h3[b.next].(previous := if span >= MIN_SPAN then tail else header)]
      else h3;
    h4[header := Header(if span >= MIN_SPAN then size
          else Difference(block + HEADER + b.size, header + HEADER), b.arena,
                        if span >= MIN_SPAN then tail else b.next, if lead != 0 then block else b.previous, false)]
  }

  /** A 64-bit difference. */
  function Difference(x: nat, y: nat): nat { if x >= y then x - y else Wrap(ADDRESSES + x - Wrap(y)) }

  lemma CommitHeadersSame(h: Headers, block: nat, header: nat, size: nat)
    requires block in h && block <= header && header + size <= block + h[block].size
    requires LinkOk(h, h[block].previous) && LinkOk(h, h[block].next)
    ensures CommitHeadersAt(h, block, header, size, header + HEADER + size) == CommitHeaders(h, block, header, size)
  {
  }

  /** The facts about block `i` and its neighbours that an update of their headers rests on. */
  lemma Neighbours(h: Headers, arena: nat, blocks: seq<Block>, low: nat, high: nat, i: nat)
    requires Tiles(blocks, low, high) && 0 < low && i < |blocks| && Represents(h, arena, blocks)
    ensures blocks[i].addr in h && h[blocks[i].addr] == HeaderOf(blocks, i, arena)
    ensures LinkOk(h, h[blocks[i].addr].previous) && LinkOk(h, h[blocks[i].addr].next)
    ensures i > 0 ==> HeaderAt(h, blocks, i - 1, arena) && 0 < blocks[i - 1].addr < End(blocks[i - 1]) == blocks[i].addr
    ensures i + 1 < |blocks| ==> HeaderAt(h, blocks, i + 1, arena) && End(blocks[i]) == blocks[i + 1].addr
    ensures i + 1 < |blocks| ==> !(blocks[i].free && blocks[i + 1].free)
    ensures i > 0 ==> !(blocks[i - 1].free && blocks[i].free)
    ensures blocks[i].addr > 0
  {
    assert HeaderAt(h, blocks, i, arena);
    FromLow(blocks, low, high, i);
    if i > 0 {
      assert HeaderAt(h, blocks, i - 1, arena) && Adjoin(blocks[i - 1], blocks[i]);
      FromLow(blocks, low, high, i - 1);
    }
    if i + 1 < |blocks| { assert HeaderAt(h, blocks, i + 1, arena) && Adjoin(blocks[i], blocks[i + 1]); }
  }

  /** Block `i` can be carved at `header`. */
  predicate Carvable(h: Headers, arena: nat, blocks: seq<Block>, low: nat, high: nat, i: nat, header: nat, size: nat) {
    && Tiles(blocks, low, high) && 0 < low && i < |blocks| && Represents(h, arena, blocks)
    && (blocks[i].addr == header || blocks[i].addr + MIN_SPAN <= header) && header + HEADER + size <= End(blocks[i])
    && blocks[i].addr in h && h[blocks[i].addr] == HeaderOf(blocks, i, arena)
    && LinkOk(h, h[blocks[i].addr].previous) && LinkOk(h, h[blocks[i].addr].next)
  }

  /** What an allocation writes, address by address. */
  lemma CommitLookups(h: Headers, block: nat, header: nat, size: nat)
    requires block in h && block <= header && header + size <= block + h[block].size
    requires LinkOk(h, h[block].previous) && LinkOk(h, h[block].next)
    requires (block == header || block + MIN_SPAN <= header) && h[block].previous < block
    requires h[block].next != 0 ==> h[block].next == block + HEADER + h[block].size
    ensures var h', b := CommitHeaders(h, block, header, size), h[block];
            var tail := header + HEADER + size;
            var span := block + HEADER + b.size - tail;
            && header in h' && h'[header] == Header(if span >= MIN_SPAN then size else size + span, b.arena,
                 if span >= MIN_SPAN then tail else b.next, if block != header then block else b.previous, false)
            && (block != header ==>
                   block in h' && h'[block] == Header(header - block - HEADER, b.arena, header, b.previous, true))
            && (span >= MIN_SPAN ==> tail in h' && h'[tail] == Header(span - HEADER, b.arena, b.next, header, true))
            && (b.previous != 0 ==> b.previous in h' && h'[b.previous] == h[b.previous].(next := block))
            && (b.next != 0 ==>
                   b.next in h' && h'[b.next] == h[b.next].(previous := if span >= MIN_SPAN then tail else header))
            && forall x :: x in h && !(block <= x < block + HEADER + b.size) && x != b.previous && x != b.next ==>
                 x in h' && h'[x] == h[x]
  {
  }

  /** The block list after carving, entry by entry: `p` blocks in front of the allocated one. */
  lemma CarvedAt(blocks: seq<Block>, i: nat, header: nat, size: nat)
    requires i < |blocks| && blocks[i].addr <= header && header + HEADER + size <= End(blocks[i])
    ensures var b, result := blocks[i], Carve(blocks, i, header, size);
            var p, t := |Leading(b, header)|, |Trailing(b, header, size)|;
            && |result| == |blocks| + p + t && |Pieces(b, header, size)| == p + 1 + t && p <= 1 && t <= 1
            && (forall k :: 0 <= k < i ==> result[k] == blocks[k])
            && (p == 1 ==> result[i] == Leading(b, header)[0])
            && result[i + p] == Allocated(b, header, size)
            && (t == 1 ==> result[i + p + 1] == Trailing(b, header, size)[0])
            && forall k :: i + p + t + 1 <= k < |result| ==> result[k] == blocks[k - p - t]
  {
  }

  lemma CommitBefore(h: Headers, arena: nat, blocks: seq<Block>, low: nat, high: nat, i: nat, header: nat, size: nat)
    requires Carvable(h, arena, blocks, low, high, i, header, size)
    requires i > 0
    ensures HeaderAt(CommitHeaders(h, blocks[i].addr, header, size), Carve(blocks, i, header, size), i - 1, arena)
  {
    Neighbours(h, arena, blocks, low, high, i);
    CommitLookups(h, blocks[i].addr, header, size);
    CarvedAt(blocks, i, header, size);
    hide Tiles, Represents, CommitHeaders, Carve, Pieces;
  }

  lemma CommitLeading(h: Headers, arena: nat, blocks: seq<Block>, low: nat, high: nat, i: nat, header: nat, size: nat)
    requires Carvable(h, arena, blocks, low, high, i, header, size)
    requires header != blocks[i].addr
    ensures HeaderAt(CommitHeaders(h, blocks[i].addr, header, size), Carve(blocks, i, header, size), i, arena)
  {
    Neighbours(h, arena, blocks, low, high, i);
    CommitLookups(h, blocks[i].addr, header, size);
    CarvedAt(blocks, i, header, size);
    hide Tiles, Represents, CommitHeaders, Carve, Pieces;
  }

  lemma CommitAllocated(h: Headers, arena: nat, blocks: seq<Block>, low: nat, high: nat, i: nat, header: nat, size: nat)
    requires Carvable(h, arena, blocks, low, high, i, header, size)
    ensures HeaderAt(CommitHeaders(h, blocks[i].addr, header, size), Carve(blocks, i, header, size),
                     i + |Leading(blocks[i], header)|, arena)
  {
    Neighbours(h, arena, blocks, low, high, i);
    CommitLookups(h, blocks[i].addr, header, size);
    CarvedAt(blocks, i, header, size);
    hide Tiles, Represents, CommitHeaders, Carve, Pieces;
  }

  lemma CommitTrailing(h: Headers, arena: nat, blocks: seq<Block>, low: nat, high: nat, i: nat, header: nat, size: nat)
    requires Carvable(h, arena, blocks, low, high, i, header, size)
    requires Trailing(blocks[i], header, size) != []
    ensures HeaderAt(CommitHeaders(h, blocks[i].addr, header, size), Carve(blocks, i, header, size),
                     i + |Leading(blocks[i], header)| + 1, arena)
  {
    Neighbours(h, arena, blocks, low, high, i);
    CommitLookups(h, blocks[i].addr, header, size);
    CarvedAt(blocks, i, header, size);
    hide Tiles, Represents, CommitHeaders, Carve, Pieces;
  }

  lemma CommitAfter(h: Headers, arena: nat, blocks: seq<Block>, low: nat, high: nat, i: nat, header: nat, size: nat)
    requires Carvable(h, arena, blocks, low, high, i, header, size)
    requires i + 1 < |blocks|
    ensures HeaderAt(CommitHeaders(h, blocks[i].addr, header, size), Carve(blocks, i, header, size),
                     i + |Pieces(blocks[i], header, size)|, arena)
  {
    Neighbours(h, arena, blocks, low, high, i);
    CommitLookups(h, blocks[i].addr, header, size);
    CarvedAt(blocks, i, header, size);
    hide Tiles, Represents, CommitHeaders, Carve, Pieces;
  }

  lemma CommitPieces(h: Headers, arena: nat, blocks: seq<Block>, low: nat, high: nat, i: nat, header: nat, size: nat)
    requires Carvable(h, arena, blocks, low, high, i, header, size)
    ensures var h', result := CommitHeaders(h, blocks[i].addr, header, size), Carve(blocks, i, header, size);
            var n := |Pieces(blocks[i], header, size)|;
            && |result| == |blocks| - 1 + n
            && (i > 0 ==> HeaderAt(h', result, i - 1, arena))
            && (forall k :: i <= k < i + n ==> HeaderAt(h', result, k, arena))
            && (i + 1 < |blocks| ==> HeaderAt(h', result, i + n, arena))
  {
    CarvedAt(blocks, i, header, size);
    if i > 0 { CommitBefore(h, arena, blocks, low, high, i, header, size); }
    if header != blocks[i].addr { CommitLeading(h, arena, blocks, low, high, i, header, size); }
    CommitAllocated(h, arena, blocks, low, high, i, header, size);
    if Trailing(blocks[i], header, size) != [] { CommitTrailing(h, arena, blocks, low, high, i, header, size); }
    if i + 1 < |blocks| { CommitAfter(h, arena, blocks, low, high, i, header, size); }
    hide Tiles, Represents, CommitHeaders, Carve, Pieces, HeaderAt;
  }

  lemma CommitUntouched(h: Headers, arena: nat, blocks: seq<Block>, low: nat, high: nat, i: nat, header: nat, size: nat,
                        x: nat)
    requires Carvable(h, arena, blocks, low, high, i, header, size)
    requires x in h && Untouched(blocks, i, i + 1, x)
    ensures x in CommitHeaders(h, blocks[i].addr, header, size)
    ensures CommitHeaders(h, blocks[i].addr, header, size)[x] == h[x]
  {
    Neighbours(h, arena, blocks, low, high, i);
    CommitLookups(h, blocks[i].addr, header, size);
    hide Tiles, Represents, CommitHeaders;
  }

  lemma CommitRelinked(h: Headers, arena: nat, blocks: seq<Block>, low: nat, high: nat, i: nat, header: nat, size: nat)
    requires Carvable(h, arena, blocks, low, high, i, header, size)
    ensures Relinked(h, CommitHeaders(h, blocks[i].addr, header, size), arena, blocks, i, i + 1,
                     Pieces(blocks[i], header, size))
  {
    Neighbours(h, arena, blocks, low, high, i);
    CommitPieces(h, arena, blocks, low, high, i, header, size);
    hide Tiles, Represents, CommitHeaders, Pieces, HeaderAt, Untouched;
    forall x | x in h && Untouched(blocks, i, i + 1, x)
      ensures x in CommitHeaders(h, blocks[i].addr, header, size)
      ensures CommitHeaders(h, blocks[i].addr, header, size)[x] == h[x]
    {
      CommitUntouched(h, arena, blocks, low, high, i, header, size, x);
    }
  }

  // ----- what giving back writes

  /** The links the merge follows are sound, and it stops after one block. */
  predicate CanMerge(h: Headers, block: nat) {
    && block in h && LinkOk(h, h[block].next) && (h[block].next != 0 ==> LinkOk(h, h[h[block].next].next))
    && (h[block].next != 0 && h[h[block].next].free && h[h[block].next].next != 0 ==> !h[h[h[block].next].next].free)
    && (h[block].next != 0 ==>
           h[block].next != block && h[h[block].next].next != block && h[h[block].next].next != h[block].next)
  }

  /** The header of `block` after it swallowed the free block behind it, if there is one. */
  function Merged(h: Headers, block: nat): Headers
    requires CanMerge(h, block)
  {
    var b := h[block];
    if b.next != 0 && h[b.next].free && block + HEADER + b.size == b.next then
      var n := h[b.next];
      var h1 := h[block := b.(size := b.size + HEADER + n.size, next := n.next)];
      if n.next != 0 then h1[n.next := h1[n.next].(previous := block)] else h1
    else h
  }

  /** Block `i`, in use, and its neighbours up to two away. */
  predicate Releasable(h: Headers, arena: nat, blocks: seq<Block>, low: nat, high: nat, i: nat) {
    Tiles(blocks, low, high) && 0 < low && i < |blocks| && !blocks[i].free && Represents(h, arena, blocks)
  }

  function Freed(h: Headers, block: nat): Headers
    requires block in h
  {
    h[block := h[block].(free := true)]
  }

  /** `h'` is `h` with blocks [from, to) joined into one free block: its header, the link back from
      the block behind it, and nothing else. */
  predicate JoinedHeaders(h: Headers, h': Headers, arena: nat, blocks: seq<Block>, from: nat, to: nat)
    requires from < to <= |blocks|
  {
    var block := blocks[from].addr;
    && block in h' && End(blocks[to - 1]) >= block + HEADER
    && h'[block] == Header(End(blocks[to - 1]) - (block + HEADER), arena, if to < |blocks| then blocks[to].addr
           else 0, PreviousOf(blocks, from), true)
    && (to < |blocks| ==>
           blocks[to].addr in h' && h'[blocks[to].addr] == HeaderOf(blocks, to, arena).(previous := block))
    && forall x :: x in h && !(block <= x < End(blocks[to - 1])) && (to < |blocks| ==> x != blocks[to].addr) ==>
         x in h' && h'[x] == h[x]
  }

  lemma CanMergeForward(h: Headers, arena: nat, blocks: seq<Block>, low: nat, high: nat, i: nat)
    requires Releasable(h, arena, blocks, low, high, i)
    ensures blocks[i].addr in h && CanMerge(Freed(h, blocks[i].addr), blocks[i].addr)
  {
    Neighbours(h, arena, blocks, low, high, i);
    if i + 1 < |blocks| { Neighbours(h, arena, blocks, low, high, i + 1); }
    hide Tiles, Represents;
  }

  /** After the block is marked free and has swallowed what is free behind it. */
  lemma MergedForward(h: Headers, arena: nat, blocks: seq<Block>, low: nat, high: nat, i: nat)
    requires Releasable(h, arena, blocks, low, high, i)
    ensures blocks[i].addr in h && CanMerge(Freed(h, blocks[i].addr), blocks[i].addr)
    ensures JoinedHeaders(h, Merged(Freed(h, blocks[i].addr), blocks[i].addr), arena, blocks, i, To(blocks, i))
  {
    CanMergeForward(h, arena, blocks, low, high, i);
    Neighbours(h, arena, blocks, low, high, i);
    if i + 1 < |blocks| { Neighbours(h, arena, blocks, low, high, i + 1); }
    if i + 2 < |blocks| { assert HeaderAt(h, blocks, i + 2, arena); }
    hide Tiles, Represents, CanMerge;
  }

  lemma CanMergeBackward(h: Headers, h2: Headers, arena: nat, blocks: seq<Block>, low: nat, high: nat, i: nat)
    requires Releasable(h, arena, blocks, low, high, i) && i > 0 && blocks[i - 1].free
    requires JoinedHeaders(h, h2, arena, blocks, i, To(blocks, i))
    ensures CanMerge(h2, blocks[i - 1].addr) && h2[blocks[i - 1].addr] == HeaderOf(blocks, i - 1, arena)
  {
    var to := To(blocks, i);
    Neighbours(h, arena, blocks, low, high, i);
    Neighbours(h, arena, blocks, low, high, i - 1);
    if to < |blocks| { InOrder(blocks, low, high, i, to); }
    BehindIsUsed(blocks, low, high, i);
    hide Tiles, Represents;
  }

  /** After the free block in front has swallowed it in turn. */
  lemma MergedBackward(h: Headers, h2: Headers, arena: nat, blocks: seq<Block>, low: nat, high: nat, i: nat)
    requires Releasable(h, arena, blocks, low, high, i) && i > 0 && blocks[i - 1].free
    requires JoinedHeaders(h, h2, arena, blocks, i, To(blocks, i))
    ensures CanMerge(h2, blocks[i - 1].addr)
    ensures JoinedHeaders(h, Merged(h2, blocks[i - 1].addr), arena, blocks, i - 1, To(blocks, i))
  {
    var to := To(blocks, i);
    CanMergeBackward(h, h2, arena, blocks, low, high, i);
    Neighbours(h, arena, blocks, low, high, i);
    if to < |blocks| { InOrder(blocks, low, high, i, to); }
    InOrder(blocks, low, high, i, to - 1);
    hide Tiles, Represents, CanMerge;
  }

  lemma BehindIsUsed(blocks: seq<Block>, low: nat, high: nat, i: nat)
    requires Tiles(blocks, low, high) && i < |blocks|
    ensures To(blocks, i) < |blocks| ==> !blocks[To(blocks, i)].free
  {
    if i + 2 < |blocks| { assert Adjoin(blocks[i + 1], blocks[i + 2]); }
  }

  /** Joining the blocks is replacing them by the joined one. */
  lemma ReleaseRelinked(h: Headers, h': Headers, arena: nat, blocks: seq<Block>, low: nat, high: nat, from: nat,
                        to: nat)
    requires Tiles(blocks, low, high) && 0 < low && from < to <= |blocks| && Represents(h, arena, blocks)
    requires JoinedHeaders(h, h', arena, blocks, from, to)
    ensures Relinked(h, h', arena, blocks, from, to, [Joined(blocks[from], blocks[to - 1])])
  {
    var joined := [Joined(blocks[from], blocks[to - 1])];
    var result := blocks[..from] + joined + blocks[to..];
    Neighbours(h, arena, blocks, low, high, from);
    if from > 0 { InOrder(blocks, low, high, from - 1, to - 1); }
    if to < |blocks| && from > 0 { InOrder(blocks, low, high, from - 1, to); }
    hide Tiles, Represents;
    assert result[from] == joined[0];
    if from > 0 { assert result[from - 1] == blocks[from - 1]; }
    if from > 1 { assert result[from - 2] == blocks[from - 2]; }
    if to < |blocks| { assert result[from + 1] == blocks[to]; }
    if to + 1 < |blocks| { assert result[from + 2] == blocks[to + 1]; }
  }
}
