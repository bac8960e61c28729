/** The blocks of one heap arena as a list in address order, and what carving an
    allocation out of it and giving one back do to the list. */
module HeapBlocks {
  import opened Division
  import opened Machine

  const HEADER := 48
  const MIN_ALIGNMENT := 16
  const MIN_SPAN := HEADER + MIN_ALIGNMENT

  /** A block: its header at `addr`, `size` payload bytes behind it. */
  datatype Block = Block(addr: nat, size: nat, free: bool)

  function End(b: Block): nat { b.addr + HEADER + b.size }

  predicate Sized(b: Block) { b.addr % MIN_ALIGNMENT == 0 && b.size % MIN_ALIGNMENT == 0 && b.size >= MIN_ALIGNMENT }

  /** Each block begins where the one before it ends, and no two neighbours are both free. */
  predicate Adjoin(a: Block, b: Block) { End(a) == b.addr && !(a.free && b.free) }

  /** The blocks tile [low, high) exactly. */
  predicate Tiles(blocks: seq<Block>, low: nat, high: nat) {
    && blocks != [] && blocks[0].addr == low && End(blocks[|blocks| - 1]) == high
    && (forall i :: 0 <= i < |blocks| ==> Sized(blocks[i]))
    && forall i :: 0 <= i < |blocks| - 1 ==> Adjoin(blocks[i], blocks[i + 1])
  }

  /** Blocks further on lie higher. */
  lemma {:induction false} InOrder(blocks: seq<Block>, low: nat, high: nat, i: nat, j: nat)
    requires Tiles(blocks, low, high) && i <= j < |blocks|
    ensures blocks[i].addr <= blocks[j].addr && End(blocks[i]) <= End(blocks[j])
    ensures i < j ==> End(blocks[i]) <= blocks[j].addr
    ensures low <= blocks[i].addr && End(blocks[j]) <= high
    decreases j - i
  {
    FromLow(blocks, low, high, i);
    ToHigh(blocks, low, high, j);
    if i < j {
      InOrder(blocks, low, high, i, j - 1);
      assert Adjoin(blocks[j - 1], blocks[j]);
    }
  }

  lemma {:induction false} FromLow(blocks: seq<Block>, low: nat, high: nat, i: nat)
    requires Tiles(blocks, low, high) && i < |blocks|
    ensures low <= blocks[i].addr
  {
    if i > 0 {
      FromLow(blocks, low, high, i - 1);
      assert Adjoin(blocks[i - 1], blocks[i]);
    }
  }

  lemma {:induction false} ToHigh(blocks: seq<Block>, low: nat, high: nat, i: nat)
    requires Tiles(blocks, low, high) && i < |blocks|
    ensures End(blocks[i]) <= high
    decreases |blocks| - i
  {
    if i < |blocks| - 1 {
      ToHigh(blocks, low, high, i + 1);
      assert Adjoin(blocks[i], blocks[i + 1]);
    }
  }

  // ----- where an allocation can go

  predicate Aligned(x: nat, alignment: nat)
    requires alignment > 0
  {
    x % alignment == 0
  }

  /** A header address inside a block from which `size` aligned payload bytes fit, leaving in front
      either nothing or a whole block. */
  predicate Placed(b: Block, size: nat, alignment: nat, header: nat)
    requires alignment > 0
  {
    && b.addr <= header && Aligned(header + HEADER, alignment) && header + HEADER + size <= End(b)
    && (header == b.addr || header - b.addr >= MIN_SPAN)
  }

  function CeilTo(value: nat, alignment: nat): (r: nat)
    requires alignment > 0
    ensures Aligned(r, alignment) && value <= r < value + alignment
  {
    var rest := value % alignment;
    if rest == 0 then value else Rounded(value, alignment); value + alignment - rest
  }

  lemma Rounded(value: nat, alignment: nat)
    requires alignment > 0 && value % alignment != 0
    ensures (value + alignment - value % alignment) % alignment == 0
  {
    var q := value / alignment;
    assert value + alignment - value % alignment == (q + 1) * alignment;
    RemainderOf((q + 1) * alignment, q + 1, alignment, 0);
  }

  /** The places tried in this block stay inside the address space. */
  predicate InReach(b: Block, alignment: nat) { End(b) + MIN_SPAN + alignment < ADDRESSES }

  datatype Layout = NoFit | Fit(header: nat)

  /** What the search accepts: an aligned place that leaves nothing or a whole block in front, and whose end
      is not past the block as a 64-bit sum. */
  predicate Accepted(b: Block, size: nat, alignment: nat, header: nat)
    requires alignment > 0
  {
    && b.free && b.addr <= header && Aligned(header + HEADER, alignment) && header < b.addr + MIN_SPAN + alignment
    && (header == b.addr || header - b.addr >= MIN_SPAN) && Wrap(header + HEADER + size) <= End(b)
  }

  /** Looks for a place in one block. A place that is found holds the request exactly when its end did not
      come around in 64 bits, and is then the lowest there is; if none is found there is none. Where the
      block itself is aligned, a place is found for every size it holds and for every size that comes around. */
  method ComputeLayout(b: Block, size: nat, alignment: nat) returns (layout: Layout)
    requires alignment > 0 && size < ADDRESSES && InReach(b, alignment)
    ensures layout.Fit? ==> Accepted(b, size, alignment, layout.header)
    ensures layout.Fit? ==> (Placed(b, size, alignment, layout.header) <==> layout.header + HEADER + size < ADDRESSES)
    ensures layout.Fit? ==> forall h: nat :: Placed(b, size, alignment, h) ==> layout.header <= h
    ensures layout.NoFit? ==> !b.free || forall h: nat :: !Placed(b, size, alignment, h)
    ensures b.free && Aligned(b.addr + HEADER, alignment) ==>
              (layout.Fit? <==> size <= b.size || b.addr + HEADER + size >= ADDRESSES)
  {
    hide Aligned, CeilTo, Wrap;
    var blockEnd := End(b);
    var payload := CeilTo(b.addr + HEADER, alignment);
    forall h: nat | Placed(b, size, alignment, h)
      ensures payload <= h + HEADER
    {
      MultiplesApart(h + HEADER, payload, alignment);
    }
    if !b.free {
      return NoFit;
    }
    ghost var first := payload;
    while true
      invariant Aligned(payload, alignment) && b.addr + HEADER <= payload < b.addr + HEADER + MIN_SPAN + alignment
      invariant first <= payload
      invariant payload == first || first > b.addr + HEADER
      invariant forall h: nat :: Placed(b, size, alignment, h) ==> payload <= h + HEADER
      decreases b.addr + HEADER + MIN_SPAN + alignment - payload
    {
      var header := payload - HEADER;
      WrapOnce(header + HEADER + size);
      if header < b.addr || Wrap(header + HEADER + size) > blockEnd {
        AlignedFirst(b, alignment, first);
        return NoFit;
      }
      var leading := header - b.addr;
      if leading == 0 || leading >= MIN_SPAN {
        AlignedFirst(b, alignment, first);
        return Fit(header);
      }
      NextMultiple(payload, alignment);
      forall h: nat | Placed(b, size, alignment, h)
        ensures payload + alignment <= h + HEADER
      {
        MultiplesApart(payload, h + HEADER, alignment);
      }
      payload := CeilTo(payload + alignment, alignment);
    }
  }

  lemma WrapOnce(x: nat)
    requires x < 2 * ADDRESSES
    ensures Wrap(x) == if x < ADDRESSES then x else x - ADDRESSES
  {
  }

  lemma AlignedFirst(b: Block, alignment: nat, first: nat)
    requires alignment > 0 && first == CeilTo(b.addr + HEADER, alignment)
    ensures Aligned(b.addr + HEADER, alignment) ==> first == b.addr + HEADER
  {
    if Aligned(b.addr + HEADER, alignment) { MultiplesApart(b.addr + HEADER, first, alignment); }
  }

  /** A free block of 65440 bytes in an arena of the upper half. A request for 2^47 bytes is placed at its
      beginning, and the header of what should be left over goes to address 0x60. */
  lemma WrappedPlace()
    ensures var b := Block(0xffff_8000_0000_0030, 0xffa0, true);
            && End(b) == 0xffff_8000_0001_0000 && InReach(b, MIN_ALIGNMENT)
            && Accepted(b, 0x8000_0000_0000, MIN_ALIGNMENT, b.addr)
            && !Placed(b, 0x8000_0000_0000, MIN_ALIGNMENT, b.addr)
            && Wrap(b.addr + HEADER + 0x8000_0000_0000) == 0x60
  {
    assert Aligned(0xffff_8000_0000_0060, MIN_ALIGNMENT);
  }

  lemma NextMultiple(x: nat, m: nat)
    requires m > 0 && Aligned(x, m)
    ensures Aligned(x + m, m) && CeilTo(x + m, m) == x + m
  {
    RemainderOf(x + m, x / m + 1, m, 0);
  }

  lemma MultiplesApart(x: nat, y: nat, m: nat)
    requires m > 0 && Aligned(x, m) && Aligned(y, m)
    ensures x < y ==> x + m <= y
  {
    var p, q := x / m, y / m;
    assert x == p * m && y == q * m && y - x == (q - p) * m;
    if q > p { AtLeast(q - p, m); }
    if q <= p { AtMost(q - p, m); }
  }

  lemma AtMost(k: int, m: nat)
    requires k <= 0
    ensures k * m <= 0
  {
  }

  // ----- carving

  function Leading(b: Block, header: nat): seq<Block>
    requires b.addr <= header
  {
    if header == b.addr then []
      else [Block(b.addr, if header - b.addr >= HEADER then header - b.addr - HEADER else 0, true)]
  }

  function Trailing(b: Block, header: nat, size: nat): seq<Block>
    requires header + HEADER + size <= End(b)
  {
    var span := End(b) - (header + HEADER + size);
    if span >= MIN_SPAN then [Block(header + HEADER + size, span - HEADER, true)] else []
  }

  /** The allocated block takes the rest when that is too small for a block of its own. */
  function Allocated(b: Block, header: nat, size: nat): Block
    requires header + HEADER + size <= End(b)
  {
    Block(header, if Trailing(b, header, size) == [] then End(b) - (header + HEADER) else size, false)
  }

  function Pieces(b: Block, header: nat, size: nat): seq<Block>
    requires b.addr <= header && header + HEADER + size <= End(b)
  {
    Leading(b, header) + [Allocated(b, header, size)] + Trailing(b, header, size)
  }

  function Carve(blocks: seq<Block>, i: nat, header: nat, size: nat): seq<Block>
    requires i < |blocks| && blocks[i].addr <= header && header + HEADER + size <= End(blocks[i])
  {
    blocks[..i] + Pieces(blocks[i], header, size) + blocks[i + 1..]
  }

  predicate GoodAlignment(alignment: nat) { alignment > 0 && alignment % MIN_ALIGNMENT == 0 }

  lemma Divides16(x: nat, alignment: nat)
    requires GoodAlignment(alignment) && Aligned(x, alignment)
    ensures x % MIN_ALIGNMENT == 0
  {
    var q, k := x / alignment, alignment / MIN_ALIGNMENT;
    assert x == q * alignment && alignment == k * MIN_ALIGNMENT;
    assert x == (q * k) * MIN_ALIGNMENT;
  }

  lemma Multiples16(x: nat, y: nat)
    requires x % MIN_ALIGNMENT == 0 && y % MIN_ALIGNMENT == 0
    ensures (x + y) % MIN_ALIGNMENT == 0 && (x >= y ==> (x - y) % MIN_ALIGNMENT == 0)
  {
  }

  lemma PiecesSized(b: Block, size: nat, header: nat)
    requires Sized(b) && size % MIN_ALIGNMENT == 0 && size >= MIN_ALIGNMENT && header % MIN_ALIGNMENT == 0
    requires (b.addr == header || b.addr + MIN_SPAN <= header) && header + HEADER + size <= End(b)
    ensures Sized(Allocated(b, header, size))
    ensures Leading(b, header) != [] ==> Sized(Leading(b, header)[0])
    ensures Trailing(b, header, size) != [] ==> Sized(Trailing(b, header, size)[0])
  {
    EndAligned(b);
    Multiples16(header, HEADER);
    Multiples16(header + HEADER, size);
    Multiples16(End(b), header + HEADER);
    Multiples16(End(b), header + HEADER + size);
    if Trailing(b, header, size) != [] { Multiples16(End(b) - (header + HEADER + size), HEADER); }
    if header > b.addr {
      Multiples16(header, b.addr);
      Multiples16(header - b.addr, HEADER);
    }
  }

  lemma EndAligned(b: Block)
    requires Sized(b)
    ensures End(b) % MIN_ALIGNMENT == 0
  {
    Multiples16(b.addr, HEADER);
    Multiples16(b.addr + HEADER, b.size);
  }

  lemma PiecesAdjoin(b: Block, size: nat, header: nat)
    requires (b.addr == header || b.addr + MIN_SPAN <= header) && header + HEADER + size <= End(b)
    requires Sized(Allocated(b, header, size))
    requires Leading(b, header) != [] ==> Sized(Leading(b, header)[0])
    requires Trailing(b, header, size) != [] ==> Sized(Trailing(b, header, size)[0])
    ensures Tiles(Pieces(b, header, size), b.addr, End(b))
  {
    hide Sized;
    var lead, a, trail := Leading(b, header), Allocated(b, header, size), Trailing(b, header, size);
    var pieces := Pieces(b, header, size);
    if lead == [] && trail == [] {
      assert pieces == [a];
    } else if lead == [] {
      assert pieces == [a, trail[0]];
    } else if trail == [] {
      assert pieces == [lead[0], a];
    } else {
      assert pieces == [lead[0], a, trail[0]];
    }
  }

  /** The pieces of a free block tile it. */
  lemma PiecesTile(b: Block, size: nat, alignment: nat, header: nat)
    requires Sized(b) && b.free && GoodAlignment(alignment) && size % MIN_ALIGNMENT == 0 && size >= MIN_ALIGNMENT
    requires Placed(b, size, alignment, header)
    ensures Tiles(Pieces(b, header, size), b.addr, End(b))
  {
    hide Aligned, Pieces, Tiles;
    Divides16(header + HEADER, alignment);
    PiecesSized(b, size, header);
    PiecesAdjoin(b, size, header);
  }

  /** A part of a tiling is replaced by another tiling of the same range. */
  lemma Replace(blocks: seq<Block>, low: nat, high: nat, i: nat, j: nat, pieces: seq<Block>)
    requires Tiles(blocks, low, high) && i < j <= |blocks|
    requires Tiles(pieces, blocks[i].addr, End(blocks[j - 1]))
    requires i > 0 ==> !(blocks[i - 1].free && pieces[0].free)
    requires j < |blocks| ==> !(pieces[|pieces| - 1].free && blocks[j].free)
    ensures Tiles(blocks[..i] + pieces + blocks[j..], low, high)
  {
    var result := blocks[..i] + pieces + blocks[j..];
    var n := |pieces|;
    forall k | 0 <= k < |result| - 1
      ensures Adjoin(result[k], result[k + 1])
    {
      if k + 1 < i {
        assert result[k] == blocks[k] && result[k + 1] == blocks[k + 1];
      } else if k + 1 == i {
        assert result[k] == blocks[i - 1] && result[k + 1] == pieces[0] && Adjoin(blocks[i - 1], blocks[i]);
      } else if k + 1 < i + n {
        assert result[k] == pieces[k - i] && result[k + 1] == pieces[k - i + 1];
      } else if k + 1 == i + n {
        assert result[k] == pieces[n - 1] && result[k + 1] == blocks[j] && Adjoin(blocks[j - 1], blocks[j]);
      } else {
        assert result[k] == blocks[k - i - n + j] && result[k + 1] == blocks[k + 1 - i - n + j];
      }
    }
  }

  /** Carving an allocation keeps the tiling, and what is handed out is aligned and big enough. */
  lemma CarveTiles(blocks: seq<Block>, low: nat, high: nat, i: nat, size: nat, alignment: nat, header: nat)
    requires Tiles(blocks, low, high) && i < |blocks| && blocks[i].free
    requires GoodAlignment(alignment) && size % MIN_ALIGNMENT == 0 && size >= MIN_ALIGNMENT
    requires Placed(blocks[i], size, alignment, header)
    ensures Tiles(Carve(blocks, i, header, size), low, high)
    ensures var a := Allocated(blocks[i], header, size);
            !a.free && a.size >= size && Aligned(a.addr + HEADER,
                                                 alignment) && blocks[i].addr <= a.addr && End(a) <= End(blocks[i])
  {
    PiecesTile(blocks[i], size, alignment, header);
    if i > 0 { assert Adjoin(blocks[i - 1], blocks[i]); }
    if i + 1 < |blocks| { assert Adjoin(blocks[i], blocks[i + 1]); }
    Replace(blocks, low, high, i, i + 1, Pieces(blocks[i], header, size));
  }

  // ----- giving back

  /** The free neighbours on either side. */
  function From(blocks: seq<Block>, i: nat): (from: nat)
    requires i < |blocks|
    ensures from <= i <= from + 1
  {
    if i > 0 && blocks[i - 1].free then i - 1 else i
  }

  function To(blocks: seq<Block>, i: nat): (to: nat)
    requires i < |blocks|
    ensures i < to <= |blocks| && to <= i + 2
  {
    if i + 1 < |blocks| && blocks[i + 1].free then i + 2 else i + 1
  }

  /** One free block from `a` to the end of `b`. */
  function Joined(a: Block, b: Block): Block
  {
    Block(a.addr, if End(b) >= a.addr + HEADER then End(b) - (a.addr + HEADER) else 0, true)
  }

  function Release(blocks: seq<Block>, i: nat): seq<Block>
    requires i < |blocks|
  {
    var from, to := From(blocks, i), To(blocks, i);
    blocks[..from] + [Joined(blocks[from], blocks[to - 1])] + blocks[to..]
  }

  lemma JoinedSized(a: Block, b: Block)
    requires Sized(a) && Sized(b) && End(a) <= End(b)
    ensures Sized(Joined(a, b)) && End(Joined(a, b)) == End(b)
  {
  }

  /** Giving a block back joins it with its free neighbours, and keeps the tiling. */
  lemma ReleaseTiles(blocks: seq<Block>, low: nat, high: nat, i: nat)
    requires Tiles(blocks, low, high) && i < |blocks| && !blocks[i].free
    ensures Tiles(Release(blocks, i), low, high)
  {
    var from, to := From(blocks, i), To(blocks, i);
    InOrder(blocks, low, high, from, to - 1);
    var joined := Joined(blocks[from], blocks[to - 1]);
    JoinedSized(blocks[from], blocks[to - 1]);
    hide Sized;
    if from > 0 { assert Adjoin(blocks[from - 1], blocks[from]); }
    if to < |blocks| { assert Adjoin(blocks[to - 1], blocks[to]); }
    Replace(blocks, low, high, from, to, [joined]);
  }

  // ----- bytes

  function Bytes(blocks: seq<Block>, free: bool): nat {
    if blocks == [] then 0
    else Bytes(blocks[..|blocks| - 1], free) + if blocks[|blocks| - 1].free == free then blocks[|blocks| - 1].size
      else 0
  }

  lemma {:induction false} BytesConcat(a: seq<Block>, b: seq<Block>, free: bool)
    ensures Bytes(a + b, free) == Bytes(a, free) + Bytes(b, free)
  {
    if b == [] {
      assert a + b == a;
    } else {
      assert (a + b)[..|a + b| - 1] == a + b[..|b| - 1];
      BytesConcat(a, b[..|b| - 1], free);
    }
  }

  /** An allocation adds its own block to the bytes in use; giving it back takes it away. */
  lemma CarveBytes(blocks: seq<Block>, i: nat, header: nat, size: nat)
    requires i < |blocks| && blocks[i].free && blocks[i].addr <= header && header + HEADER + size <= End(blocks[i])
    ensures Bytes(Carve(blocks, i, header, size), false)
            == Bytes(blocks, false) + Allocated(blocks[i], header, size).size
  {
    hide Bytes;
    var b := blocks[i];
    var lead, a, trail := Leading(b, header), [Allocated(b, header, size)], Trailing(b, header, size);
    SplitBytes(blocks, i, i + 1, false);
    BytesConcat(blocks[..i] + (lead + a + trail), blocks[i + 1..], false);
    BytesConcat(blocks[..i], lead + a + trail, false);
    BytesConcat(lead + a, trail, false);
    BytesConcat(lead, a, false);
    assert blocks[i..i + 1] == [b];
    OneBlock(b, false);
    OneBlock(a[0], false);
    FreePiece(lead);
    FreePiece(trail);
  }

  lemma SplitBytes(blocks: seq<Block>, i: nat, j: nat, free: bool)
    requires i <= j <= |blocks|
    ensures Bytes(blocks, free) == Bytes(blocks[..i], free) + Bytes(blocks[i..j], free) + Bytes(blocks[j..], free)
  {
    assert blocks == blocks[..i] + blocks[i..j] + blocks[j..];
    BytesConcat(blocks[..i] + blocks[i..j], blocks[j..], free);
    BytesConcat(blocks[..i], blocks[i..j], free);
  }

  lemma OneBlock(b: Block, free: bool)
    ensures Bytes([b], free) == if b.free == free then b.size else 0
  {
    assert [b][..0] == [];
  }

  lemma FreePiece(piece: seq<Block>)
    requires |piece| <= 1 && (piece != [] ==> piece[0].free)
    ensures Bytes(piece, false) == 0
  {
    if piece != [] {
      assert piece == [piece[0]];
      OneBlock(piece[0], false);
    }
  }

  lemma ReleaseBytes(blocks: seq<Block>, i: nat)
    requires i < |blocks| && !blocks[i].free
    ensures Bytes(Release(blocks, i), false) + blocks[i].size == Bytes(blocks, false)
  {
    hide Bytes;
    var from, to := From(blocks, i), To(blocks, i);
    var joined := [Joined(blocks[from], blocks[to - 1])];
    SplitBytes(blocks, from, to, false);
    BytesConcat(blocks[..from] + joined, blocks[to..], false);
    BytesConcat(blocks[..from], joined, false);
    FreePiece(joined);
    var before, after := blocks[from..i], blocks[i + 1..to];
    assert blocks[from..to] == before + [blocks[i]] + after;
    BytesConcat(before + [blocks[i]], after, false);
    BytesConcat(before, [blocks[i]], false);
    OneBlock(blocks[i], false);
    FreePiece(before);
    FreePiece(after);
  }
}
