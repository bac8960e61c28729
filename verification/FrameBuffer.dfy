/** The framebuffer device: video memory written in place, the two buffer
    offsets, the remembered damage and the register that selects what is shown. */
module FrameBuffer {
  import opened Division
  import opened FrameDamage
  import opened ScreenSession

  /** Byte `c` of row `y` lies in the same place whether counted from the top or from row `from`. */
  lemma FromRow(pitch: nat, from: nat, y: nat, c: nat)
    requires from <= y
    ensures At(pitch, y, c) == At(pitch, from, 0) + At(pitch, y - from, c)
  {
    assert y * pitch == from * pitch + (y - from) * pitch;
  }

  /** A byte of another row is not in the bytes [low, high) of row `y`. */
  lemma RowsApart(pitch: nat, y: nat, z: nat, c: nat)
    requires c < pitch
    ensures z < y ==> At(pitch, z, c) < At(pitch, y, 0)
    ensures z > y ==> At(pitch, z, c) >= At(pitch, y, 0) + pitch
  {
    if z < y { AtLeastRows(pitch, z, y); }
    if z > y { AtLeastRows(pitch, y, z); }
  }

  class Device {
    const ready: bool
    const mode: Mode
    const vram: array<bv8>
    const double: bool
    var frontOffset: nat
    var backOffset: nat
    /** The scan line the display begins at. */
    var firstLine: nat
    const previous: array<Rect>
    var previousCount: nat
    var previousFull: bool
    var previousSurface: nat

    ghost predicate Valid()
      reads this
    {
      && GoodMode(mode) && (if double then 2 * Size(mode) else Size(mode)) <= vram.Length
      && (if double
             then (frontOffset == 0 && backOffset == Size(mode)) || (frontOffset == Size(mode) && backOffset == 0)
          else frontOffset == 0 && backOffset == 0 && previousFull)
      && firstLine * mode.pitch == frontOffset && previous.Length == MAX_RECTS && previousCount <= MAX_RECTS
      && (!previousFull ==> previousCount > 0) && vram as object != previous as object
    }

    /** A mode has been set: two buffers if the memory mapped and the device allow it, and no damage known. */
    constructor (mode: Mode, vram: array<bv8>, panning: bool)
      requires GoodMode(mode) && Size(mode) <= vram.Length
      ensures Valid() && this.mode == mode && this.vram == vram && ready && fresh(previous)
      ensures double == (panning && 2 * Size(mode) <= vram.Length) && NewMode(Value(), mode)
    {
      hide Size;
      this.mode, this.vram, ready := mode, vram, true;
      var twice := panning && 2 * Size(mode) <= vram.Length;
      double := twice;
      frontOffset, firstLine := 0, 0;
      backOffset := if twice then Size(mode) else 0;
      previous := new Rect[MAX_RECTS](i => Rect(0, 0, 0, 0));
      previousCount, previousFull, previousSurface := 0, true, 0;
      new;
    }

    ghost function Buffer(offset: nat): Frame
      requires offset + Size(mode) <= vram.Length
      reads vram
    {
      vram[offset..offset + Size(mode)]
    }

    ghost function Value(): Screen
      requires Valid()
      reads this, vram, previous
    {
      Screen(mode, Buffer(frontOffset), if double then Buffer(backOffset) else [], double,
             if previousFull then Everything else Only(previousSurface, previous[..previousCount]))
    }

    method Memcpy(to: nat, source: seq<bv8>, from: nat, count: nat)
      requires to + count <= vram.Length && from + count <= |source|
      modifies vram
      ensures CopiedBytes(old(vram[..]), vram[..], to, source, from, count)
    {
      forall i | 0 <= i < count {
        vram[to + i] := source[from + i];
      }
    }

    /** Copies a rectangle to the buffer at `offset`; a rectangle as wide as both pitches in one go,
        any other row by row. Either way it is the same picture. */
    method BlitRect(offset: nat, source: seq<bv8>, origin: nat, sourcePitch: nat, rect: Rect) returns (ok: bool)
      requires GoodMode(mode) && offset + Size(mode) <= vram.Length
      requires ValidRect(mode, rect) && 4 * rect.width <= sourcePitch ==>
                 origin + At(sourcePitch, rect.height - 1, 4 * rect.width) <= |source|
      modifies vram
      ensures ok == (ready && ValidRect(mode, rect) && 4 * rect.width <= sourcePitch)
      ensures !ok ==> vram[..] == old(vram[..])
      ensures ok ==> Blitted(old(vram[..]), vram[..], mode, offset, source, origin, sourcePitch, rect)
    {
      if !ready || !ValidRect(mode, rect) || sourcePitch < 4 * rect.width {
        return false;
      }
      hide Blitted, At;
      var start, rowBytes := offset + At(mode.pitch, rect.y, 4 * rect.x), 4 * rect.width;
      if rowBytes == sourcePitch && rowBytes == mode.pitch {
        OneRun(mode, offset, |source|, origin, rect);
        Memcpy(start, source, origin, rowBytes * rect.height);
        RunBlitted(old(vram[..]), vram[..], mode, offset, source, origin, rect);
        return true;
      }
      NoRows(old(vram[..]), mode, offset, source, origin, sourcePitch, rect);
      for row := 0 to rect.height
        invariant Blitted(old(vram[..]), vram[..], mode, offset, source, origin, sourcePitch, rect.(height := row))
      {
        ghost var before := vram[..];
        RowPlace(mode, offset, |source|, origin, sourcePitch, rect, row);
        Memcpy(start + row * mode.pitch, source, origin + row * sourcePitch, rowBytes);
        RowBlitted(old(vram[..]), before, vram[..], mode, offset, source, origin, sourcePitch, rect, row);
      }
      return true;
    }

    /** Copies one rectangle of a surface to its place. */
    method PresentSurfaceRect(offset: nat, surface: Surface, rect: Rect) returns (ok: bool)
      requires GoodMode(mode) && offset + Size(mode) <= vram.Length && IsSurface(surface, mode)
      modifies vram
      ensures ok == (ready && ValidRect(mode, rect))
      ensures !ok ==> vram[..] == old(vram[..])
      ensures ok ==> PaintedIn(old(vram[..]), vram[..], mode, offset, surface, [rect])
    {
      if ValidRect(mode, rect) { RectInSurface(mode, surface, rect); }
      ok := BlitRect(offset, surface.pixels, At(surface.pitch, rect.y, 4 * rect.x), surface.pitch, rect);
      if ok { BlitPaints(old(vram[..]), vram[..], mode, offset, surface, rect); }
    }

    /** Copies the rectangles that lie inside the surface; false when there is one and no device. */
    method BlitDamage(offset: nat, surface: Surface, rects: seq<Rect>) returns (ok: bool)
      requires GoodMode(mode) && offset + Size(mode) <= vram.Length && IsSurface(surface, mode)
      modifies vram
      ensures ok <==> ready || AllInvalid(mode, rects)
      ensures ok ==> PaintedIn(old(vram[..]), vram[..], mode, offset, surface, rects)
      ensures !ready ==> vram[..] == old(vram[..])
    {
      hide PaintedIn, IsSurface, Size;
      NothingPainted(vram[..], mode, offset, surface);
      for i := 0 to |rects|
        invariant PaintedIn(old(vram[..]), vram[..], mode, offset, surface, rects[..i])
        invariant !ready ==> AllInvalid(mode, rects[..i]) && vram[..] == old(vram[..])
      {
        ghost var before := vram[..];
        assert rects[..i + 1] == rects[..i] + [rects[i]];
        if ValidRect(mode, rects[i]) {
          var copied := PresentSurfaceRect(offset, surface, rects[i]);
          if !copied {
            return false;
          }
          PaintedOn(old(vram[..]), before, vram[..], mode, offset, surface, rects[..i], [rects[i]]);
        } else {
          Skipped(before, mode, offset, surface, rects[i]);
          PaintedOn(old(vram[..]), before, vram[..], mode, offset, surface, rects[..i], [rects[i]]);
        }
      }
      assert rects[..|rects|] == rects;
      return true;
    }

    method ForgetPreviousDamage()
      modifies this`previousCount, this`previousFull, this`previousSurface
      ensures previousFull && previousCount == 0 && previousSurface == 0
    {
      previousCount, previousFull, previousSurface := 0, true, 0;
    }

    method RememberDamage(surface: nat, rects: seq<Rect>)
      requires previous.Length == MAX_RECTS
      modifies this`previousCount, this`previousFull, this`previousSurface, previous
      ensures previousSurface == surface && previousCount <= MAX_RECTS && (!previousFull ==> previousCount > 0)
      ensures (if previousFull then Everything
                  else Only(surface, previous[..previousCount])) == Remembered(surface, rects)
    {
      previousSurface := surface;
      if |rects| == 0 || |rects| > MAX_RECTS {
        previousCount, previousFull := 0, true;
        return;
      }
      for i := 0 to |rects|
        invariant previousSurface == surface && previous[..i] == rects[..i]
      {
        previous[i] := rects[i];
      }
      assert previous[..|rects|] == rects[..|rects|] == rects;
      previousCount, previousFull := |rects|, false;
    }

    /** Shows the buffer just composed and goes on with the other one. */
    method FlipBackBuffer()
      requires Valid()
      modifies this`frontOffset, this`backOffset, this`firstLine
      ensures Valid() && frontOffset == old(backOffset) && backOffset == old(frontOffset)
    {
      if !double || mode.pitch == 0 {
        return;
      }
      LineOf(mode, backOffset);
      firstLine := (backOffset / mode.pitch) % 65536;
      frontOffset, backOffset := backOffset, frontOffset;
    }

    /** Composes a frame and shows it; without a device nothing changes. */
    method PresentSurfaceDamage(id: nat, surface: Surface, rects: seq<Rect>) returns (ok: bool)
      requires Valid() && IsSurface(surface, mode)
      modifies this, vram, previous
      ensures Valid() && (ready ==> ok)
      ensures if ok then Presented(old(Value()), Value(), id, surface, rects) else Value() == old(Value())
    {
      hide PaintedIn, IsSurface, Size, Painted, Remembered;
      if !double {
        ok := ComposeFront(surface, rects);
        return;
      }
      ok := ComposeBack(id, surface, rects);
      if !ok {
        return;
      }
      FlipBackBuffer();
      RememberDamage(id, rects);
    }

    /** Writes the damage straight to the only buffer. */
    method ComposeFront(surface: Surface, rects: seq<Rect>) returns (ok: bool)
      requires Valid() && !double && IsSurface(surface, mode)
      modifies vram
      ensures Valid() && (ready ==> ok)
      ensures ok ==> Painted(old(Buffer(frontOffset)), Buffer(frontOffset), surface, mode, if rects == []
                  then [Whole(mode)] else rects)
      ensures !ok ==> vram[..] == old(vram[..])
    {
      hide PaintedIn, IsSurface, Size, Painted;
      ghost var before := vram[..];
      if rects == [] {
        ok := PresentSurfaceRect(frontOffset, surface, Rect(0, 0, mode.width, mode.height));
      } else {
        ok := BlitDamage(frontOffset, surface, rects);
      }
      if ok {
        Composed(before, vram[..], mode, frontOffset, frontOffset, surface, if rects == [] then [Whole(mode)]
            else rects);
      }
    }

    /** Brings the hidden buffer up to date: all of it, or the damage of the last frame and this one. */
    method ComposeBack(id: nat, surface: Surface, rects: seq<Rect>) returns (ok: bool)
      requires Valid() && double && IsSurface(surface, mode)
      modifies vram
      ensures Valid() && (ready ==> ok) && Buffer(frontOffset) == old(Buffer(frontOffset))
      ensures ok ==> Painted(old(Buffer(backOffset)), Buffer(backOffset), surface, mode,
                             if Stale(old(Value()), id, rects) then [Whole(mode)]
                             else previous[..previousCount] + rects)
      ensures !ok ==> vram[..] == old(vram[..])
    {
      hide PaintedIn, IsSurface, Size, Painted;
      ghost var before := vram[..];
      var stale := rects == [] || previousFull || previousSurface != id;
      if stale {
        ok := PresentSurfaceRect(backOffset, surface, Rect(0, 0, mode.width, mode.height));
        if ok { Composed(before, vram[..], mode, backOffset, frontOffset, surface, [Whole(mode)]); }
      } else {
        var last := previous[..previousCount];
        ok := BlitBoth(backOffset, surface, last, rects);
        if ok { Composed(before, vram[..], mode, backOffset, frontOffset, surface, last + rects); }
      }
    }

    method BlitBoth(offset: nat, surface: Surface, last: seq<Rect>, rects: seq<Rect>) returns (ok: bool)
      requires GoodMode(mode) && offset + Size(mode) <= vram.Length && IsSurface(surface, mode)
      modifies vram
      ensures ready ==> ok
      ensures ok ==> PaintedIn(old(vram[..]), vram[..], mode, offset, surface, last + rects)
      ensures !ok ==> vram[..] == old(vram[..])
    {
      hide PaintedIn, IsSurface, Size;
      ok := BlitDamage(offset, surface, last);
      if !ok {
        return;
      }
      ghost var mid := vram[..];
      ok := BlitDamage(offset, surface, rects);
      if ok { PaintedOn(old(vram[..]), mid, vram[..], mode, offset, surface, last, rects); }
    }

    /** Shows a whole frame past the damage tracking, which starts over. */
    method Present(pixels: seq<bv8>, byteCount: nat) returns (ok: bool)
      requires Valid() && (byteCount == Size(mode) ==> byteCount <= |pixels|)
      modifies this, vram
      ensures Valid() && ok == (ready && byteCount == Size(mode))
      ensures if ok then ScreenSession.Copied(old(Value()), Value(), Surface(pixels, mode.pitch))
                else Value() == old(Value())
    {
      if !ready || byteCount != Size(mode) {
        return false;
      }
      hide PaintedIn, Painted, Size;
      ghost var before := vram[..];
      var whole := Rect(0, 0, mode.width, mode.height);
      ok := PresentSurfaceRect(backOffset, Surface(pixels, mode.pitch), whole);
      Composed(before, vram[..], mode, backOffset, frontOffset, Surface(pixels, mode.pitch), [whole]);
      FlipBackBuffer();
      ForgetPreviousDamage();
    }

    /** Copies one rectangle straight to the visible buffer; damage tracking starts over. */
    method PresentRegion(surface: Surface, rect: Rect) returns (ok: bool)
      requires Valid() && IsSurface(surface, mode)
      modifies this, vram
      ensures Valid() && ok == (ready && ValidRect(mode, rect))
      ensures if ok then CopiedRegion(old(Value()), Value(), surface, rect) else Value() == old(Value())
    {
      hide PaintedIn, Painted;
      ghost var before := vram[..];
      ok := PresentSurfaceRect(frontOffset, surface, rect);
      if ok {
        Composed(before, vram[..], mode, frontOffset, backOffset, surface, [rect]);
        ForgetPreviousDamage();
      }
    }

    /** The damage remembered for a surface goes with it. */
    method ReleaseSurface(id: nat)
      requires Valid()
      modifies this`previousCount, this`previousFull, this`previousSurface
      ensures Valid() && Value() == Released(old(Value()), id)
    {
      if previousSurface == id {
        ForgetPreviousDamage();
      }
    }
  }

  /** Painting one buffer leaves the other. */
  lemma Composed(before: seq<bv8>, after: seq<bv8>, m: Mode, offset: nat, other: nat, s: Surface, rects: seq<Rect>)
    requires PaintedIn(before, after, m, offset, s, rects) && other + Size(m) <= |before|
    ensures offset + Size(m) <= |before| == |after|
    ensures Painted(before[offset..offset + Size(m)], after[offset..offset + Size(m)], s, m, rects)
    ensures (other + Size(m) <= offset || offset + Size(m) <= other) ==>
              after[other..other + Size(m)] == before[other..other + Size(m)]
  {
  }

  /** One buffer is painted; the rest of video memory is as it was. */
  ghost predicate PaintedIn(before: seq<bv8>, after: seq<bv8>, m: Mode, offset: nat, s: Surface, rects: seq<Rect>) {
    && |after| == |before| && offset + Size(m) <= |before|
    && Painted(before[offset..offset + Size(m)], after[offset..offset + Size(m)], s, m, rects)
    && forall j :: 0 <= j < |after| && !(offset <= j < offset + Size(m)) ==> after[j] == before[j]
  }

  predicate AllInvalid(m: Mode, rects: seq<Rect>) { forall i :: 0 <= i < |rects| ==> !ValidRect(m, rects[i]) }

  lemma NothingPainted(bytes: seq<bv8>, m: Mode, offset: nat, s: Surface)
    requires offset + Size(m) <= |bytes|
    ensures PaintedIn(bytes, bytes, m, offset, s, [])
  {
  }

  lemma Skipped(bytes: seq<bv8>, m: Mode, offset: nat, s: Surface, rect: Rect)
    requires offset + Size(m) <= |bytes| && !ValidRect(m, rect)
    ensures PaintedIn(bytes, bytes, m, offset, s, [rect])
  {
  }

  lemma PaintedOn(before: seq<bv8>, mid: seq<bv8>, after: seq<bv8>, m: Mode, offset: nat, s: Surface, a: seq<Rect>,
                  b: seq<Rect>)
    requires PaintedIn(before, mid, m, offset, s, a) && PaintedIn(mid, after, m, offset, s, b)
    ensures PaintedIn(before, after, m, offset, s, a + b)
  {
    PaintedMore(before[offset..offset + Size(m)], mid[offset..offset + Size(m)], after[offset..offset + Size(m)], s, m,
                a, b);
  }

  lemma RectInSurface(m: Mode, s: Surface, r: Rect)
    requires ValidRect(m, r) && IsSurface(s, m)
    ensures At(s.pitch, r.y, 4 * r.x) + At(s.pitch, r.height - 1, 4 * r.width) <= |s.pixels|
  {
    assert (r.y + (r.height - 1)) * s.pitch == r.y * s.pitch + (r.height - 1) * s.pitch;
    AtLeastRows(s.pitch, r.y + (r.height - 1), m.height);
  }

  lemma BlitPaints(before: seq<bv8>, after: seq<bv8>, m: Mode, offset: nat, s: Surface, r: Rect)
    requires GoodMode(m) && offset + Size(m) <= |before| && ValidRect(m, r)
    requires Blitted(before, after, m, offset, s.pixels, At(s.pitch, r.y, 4 * r.x), s.pitch, r)
    ensures PaintedIn(before, after, m, offset, s, [r])
  {
    forall y: nat, c: nat | Inside(m, y, c)
      ensures Covered(m, [r], y, c) <==> Covers(r, y, c)
      ensures LookAt(after, offset, m.pitch, y, c) == Look(after[offset..offset + Size(m)], m.pitch, y, c)
      ensures LookAt(before, offset, m.pitch, y, c) == Look(before[offset..offset + Size(m)], m.pitch, y, c)
      ensures BlittedAt(before, after, m, offset, s.pixels, At(s.pitch, r.y, 4 * r.x), s.pitch, r, y, c)
      ensures Covers(r, y, c) ==> LookAt(s.pixels, At(s.pitch, r.y, 4 * r.x), s.pitch, y - r.y,
                                         c - 4 * r.x) == Look(s.pixels, s.pitch, y, c)
    {
      InFrame(m, y, c);
      if Covers(r, y, c) {
        assert Covers([r][0], y, c);
        FromRow(s.pitch, r.y, y, c - 4 * r.x);
        RowSplit(s.pitch, r.y, 4 * r.x);
        RowSplit(s.pitch, y, c);
        RowSplit(s.pitch, y, c - 4 * r.x);
      }
      hide At;
    }
  }

  /** The buffer offsets are whole scan lines, and their numbers fit the register. */
  lemma LineOf(m: Mode, offset: nat)
    requires GoodMode(m) && (offset == 0 || offset == Size(m))
    ensures ((offset / m.pitch) % 65536) * m.pitch == offset
  {
    RemainderOf(offset, if offset == 0 then 0 else m.height, m.pitch, 0);
  }

  /** Byte by byte: inside the rectangle the source's, everything else as it was. */
  ghost predicate Blitted(before: seq<bv8>, after: seq<bv8>, m: Mode, offset: nat, source: seq<bv8>, origin: nat,
                          sourcePitch: nat, rect: Rect) {
    && |after| == |before|
    && (forall j :: 0 <= j < |after| && !(offset <= j < offset + Size(m)) ==> after[j] == before[j])
    && forall y: nat, c: nat :: Inside(m, y, c) ==>
         BlittedAt(before, after, m, offset, source, origin, sourcePitch, rect, y, c)
  }

  ghost predicate BlittedAt(before: seq<bv8>, after: seq<bv8>, m: Mode, offset: nat, source: seq<bv8>, origin: nat,
                            sourcePitch: nat, rect: Rect, y: nat, c: nat) {
    LookAt(after, offset, m.pitch, y, c) ==
    if Covers(rect, y, c) then LookAt(source, origin, sourcePitch, y - rect.y, c - 4 * rect.x)
    else LookAt(before, offset, m.pitch, y, c)
  }

  function LookAt(bytes: seq<bv8>, offset: nat, pitch: nat, y: nat, c: nat): bv8 {
    if offset + At(pitch, y, c) < |bytes| then bytes[offset + At(pitch, y, c)] else 0
  }

  /** `after` is `mid` with `count` bytes of the source at `to`. */
  ghost predicate CopiedBytes(mid: seq<bv8>, after: seq<bv8>, to: nat, source: seq<bv8>, from: nat, count: nat) {
    && |after| == |mid| && from + count <= |source|
    && forall j :: 0 <= j < |after| ==> after[j] == if to <= j < to + count then source[from + (j - to)] else mid[j]
  }

  lemma NoRows(before: seq<bv8>, m: Mode, offset: nat, source: seq<bv8>, origin: nat, sourcePitch: nat, rect: Rect)
    ensures Blitted(before, before, m, offset, source, origin, sourcePitch, rect.(height := 0))
  {
  }

  /** Where one row of the rectangle goes, and where it comes from. */
  lemma RowPlace(m: Mode, offset: nat, length: nat, origin: nat, sourcePitch: nat, rect: Rect, row: nat)
    requires GoodMode(m) && ValidRect(m, rect) && row < rect.height && 4 * rect.width <= sourcePitch
    requires origin + At(sourcePitch, rect.height - 1, 4 * rect.width) <= length
    ensures offset + At(m.pitch, rect.y, 4 * rect.x) + row * m.pitch == offset + At(m.pitch, rect.y + row, 4 * rect.x)
    ensures At(m.pitch, rect.y + row, 4 * rect.x) + 4 * rect.width <= Size(m)
    ensures origin + row * sourcePitch == origin + At(sourcePitch, row, 0)
    ensures origin + At(sourcePitch, row, 0) + 4 * rect.width <= length
  {
    assert (rect.y + row) * m.pitch == rect.y * m.pitch + row * m.pitch;
    AtLeastRows(m.pitch, rect.y + row, m.height);
    if row < rect.height - 1 { AtLeastRows(sourcePitch, row, rect.height - 1); }
  }

  lemma RowBlitted(before: seq<bv8>, mid: seq<bv8>, after: seq<bv8>, m: Mode, offset: nat,
                   source: seq<bv8>, origin: nat, sourcePitch: nat, rect: Rect, row: nat)
    requires GoodMode(m) && ValidRect(m, rect) && row < rect.height && offset + Size(m) <= |before|
    requires Blitted(before, mid, m, offset, source, origin, sourcePitch, rect.(height := row))
    requires CopiedBytes(mid, after, offset + At(m.pitch, rect.y + row, 4 * rect.x), source,
                         origin + At(sourcePitch, row, 0), 4 * rect.width)
    requires At(m.pitch, rect.y + row, 4 * rect.x) + 4 * rect.width <= Size(m)
    ensures Blitted(before, after, m, offset, source, origin, sourcePitch, rect.(height := row + 1))
  {
    hide At, Size, BlittedAt;
    forall y: nat, c: nat | Inside(m, y, c)
      ensures BlittedAt(before, after, m, offset, source, origin, sourcePitch, rect.(height := row + 1), y, c)
    {
      assert BlittedAt(before, mid, m, offset, source, origin, sourcePitch, rect.(height := row), y, c);
      RowBlittedAt(before, mid, after, m, offset, source, origin, sourcePitch, rect, row, y, c);
    }
  }

  lemma RowBlittedAt(before: seq<bv8>, mid: seq<bv8>, after: seq<bv8>, m: Mode, offset: nat,
                     source: seq<bv8>, origin: nat, sourcePitch: nat, rect: Rect, row: nat, y: nat, c: nat)
    requires GoodMode(m) && ValidRect(m, rect) && row < rect.height && |mid| == |before| && offset + Size(m) <= |before|
    requires Inside(m, y, c)
    requires BlittedAt(before, mid, m, offset, source, origin, sourcePitch, rect.(height := row), y, c)
    requires CopiedBytes(mid, after, offset + At(m.pitch, rect.y + row, 4 * rect.x), source,
                         origin + At(sourcePitch, row, 0), 4 * rect.width)
    ensures BlittedAt(before, after, m, offset, source, origin, sourcePitch, rect.(height := row + 1), y, c)
  {
    hide At, Size, CopiedBytes;
    var to, from := offset + At(m.pitch, rect.y + row, 4 * rect.x), origin + At(sourcePitch, row, 0);
    var j := offset + At(m.pitch, y, c);
    InFrame(m, y, c);
    CopiedAt(mid, after, to, source, from, 4 * rect.width, j);
    RowsApart(m.pitch, rect.y + row, y, c);
    RowSplit(m.pitch, y, c);
    RowSplit(m.pitch, rect.y + row, 4 * rect.x);
    if y == rect.y + row && 4 * rect.x <= c < 4 * (rect.x + rect.width) {
      RowSplit(sourcePitch, row, c - 4 * rect.x);
    }
  }

  lemma CopiedAt(mid: seq<bv8>, after: seq<bv8>, to: nat, source: seq<bv8>, from: nat, count: nat, j: nat)
    requires CopiedBytes(mid, after, to, source, from, count) && j < |mid|
    ensures |after| == |mid| && from + count <= |source|
    ensures after[j] == if to <= j < to + count then source[from + (j - to)] else mid[j]
  {
  }

  lemma RowSplit(pitch: nat, y: nat, c: nat)
    ensures At(pitch, y, c) == At(pitch, y, 0) + c
  {
  }

  /** A rectangle of full rows is one run of bytes on both sides. */
  lemma OneRun(m: Mode, offset: nat, length: nat, origin: nat, rect: Rect)
    requires GoodMode(m) && ValidRect(m, rect) && 4 * rect.width == m.pitch
    requires origin + At(m.pitch, rect.height - 1, 4 * rect.width) <= length
    ensures rect.x == 0 && At(m.pitch, rect.y, 4 * rect.x) + 4 * rect.width * rect.height <= Size(m)
    ensures origin + 4 * rect.width * rect.height <= length
  {
    assert (rect.y + rect.height) * m.pitch == rect.y * m.pitch + rect.height * m.pitch;
    assert rect.height * m.pitch == (rect.height - 1) * m.pitch + m.pitch;
    assert 4 * rect.width * rect.height == rect.height * m.pitch;
    if rect.y + rect.height < m.height { AtLeastRows(m.pitch, rect.y + rect.height, m.height); }
  }

  lemma RunBlitted(before: seq<bv8>, after: seq<bv8>, m: Mode, offset: nat, source: seq<bv8>, origin: nat, rect: Rect)
    requires GoodMode(m) && ValidRect(m, rect) && 4 * rect.width == m.pitch && rect.x == 0
    requires offset + Size(m) <= |before|
    requires CopiedBytes(before, after, offset + At(m.pitch, rect.y, 4 * rect.x), source, origin,
                         4 * rect.width * rect.height)
    requires At(m.pitch, rect.y, 4 * rect.x) + 4 * rect.width * rect.height <= Size(m)
    ensures Blitted(before, after, m, offset, source, origin, m.pitch, rect)
  {
    assert 4 * rect.width * rect.height == At(m.pitch, rect.height, 0);
    forall y: nat, c: nat | Inside(m, y, c)
      ensures BlittedAt(before, after, m, offset, source, origin, m.pitch, rect, y, c)
    {
      InFrame(m, y, c);
      RowsApart(m.pitch, rect.y, y, c);
      RowsApart(m.pitch, rect.y + rect.height, y, c);
      FromRow(m.pitch, rect.y, rect.y + rect.height, 0);
      if rect.y <= y { FromRow(m.pitch, rect.y, y, c); }
      RowSplit(m.pitch, y, c);
      RowSplit(m.pitch, rect.y + rect.height, c);
      hide At;
    }
  }
}
