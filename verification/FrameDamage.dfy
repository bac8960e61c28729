/** What the screen shows when frames are composed from damaged rectangles only,
    on buffers as values: one visible, one hidden and a frame older. */
module FrameDamage {
  import opened Division

  const MAX_RECTS := 32

  datatype Rect = Rect(x: nat, y: nat, width: nat, height: nat)

  /** Geometry of the scanout: pixels of four bytes, rows `pitch` bytes apart. */
  datatype Mode = Mode(width: nat, height: nat, pitch: nat)

  type Frame = seq<bv8>

  /** A client's surface, with a pitch of its own. */
  datatype Surface = Surface(pixels: seq<bv8>, pitch: nat)

  predicate GoodMode(m: Mode) { 0 < m.width && 0 < m.height < 65536 && 4 * m.width <= m.pitch }

  function Size(m: Mode): nat { m.height * m.pitch }

  predicate IsFrame(f: Frame, m: Mode) { |f| == Size(m) }

  /** A surface is as large as the scanout. */
  predicate IsSurface(s: Surface, m: Mode) { 4 * m.width <= s.pitch && m.height * s.pitch <= |s.pixels| }

  /** The place of byte `c` of row `y`. */
  function At(pitch: nat, y: nat, c: nat): nat { y * pitch + c }

  predicate Inside(m: Mode, y: nat, c: nat) { y < m.height && c < 4 * m.width }

  function Look(bytes: seq<bv8>, pitch: nat, y: nat, c: nat): bv8 {
    if At(pitch, y, c) < |bytes| then bytes[At(pitch, y, c)] else 0
  }

  predicate ValidRect(m: Mode, r: Rect) {
    r.width != 0 && r.height != 0 && r.x < m.width && r.y < m.height && r.width <= m.width - r.x
      && r.height <= m.height - r.y
  }

  predicate Covers(r: Rect, y: nat, c: nat) { r.y <= y < r.y + r.height && 4 * r.x <= c < 4 * (r.x + r.width) }

  /** Rectangles that are not inside the surface are skipped. */
  predicate Covered(m: Mode, rects: seq<Rect>, y: nat, c: nat) {
    exists i :: 0 <= i < |rects| && ValidRect(m, rects[i]) && Covers(rects[i], y, c)
  }

  function Whole(m: Mode): Rect { Rect(0, 0, m.width, m.height) }

  ghost predicate Same(f: Frame, s: Surface, m: Mode) {
    forall y: nat, c: nat :: Inside(m, y, c) ==> Look(f, m.pitch, y, c) == Look(s.pixels, s.pitch, y, c)
  }

  /** `g` is `f` with the rectangles copied from the surface. */
  ghost predicate Painted(f: Frame, g: Frame, s: Surface, m: Mode, rects: seq<Rect>) {
    && |g| == |f|
    && forall y: nat, c: nat :: Inside(m, y, c) ==>
         Look(g, m.pitch, y, c) ==
           if Covered(m, rects, y, c) then Look(s.pixels, s.pitch, y, c) else Look(f, m.pitch, y, c)
  }

  lemma PaintedWhole(f: Frame, g: Frame, s: Surface, m: Mode)
    requires GoodMode(m) && Painted(f, g, s, m, [Whole(m)])
    ensures Same(g, s, m)
  {
    forall y: nat, c: nat | Inside(m, y, c)
      ensures Look(g, m.pitch, y, c) == Look(s.pixels, s.pitch, y, c)
    {
      assert ValidRect(m, [Whole(m)][0]) && Covers([Whole(m)][0], y, c);
    }
  }

  /** Painting some rectangles and then others paints them all. */
  lemma PaintedMore(f: Frame, g: Frame, h: Frame, s: Surface, m: Mode, a: seq<Rect>, b: seq<Rect>)
    requires Painted(f, g, s, m, a) && Painted(g, h, s, m, b)
    ensures Painted(f, h, s, m, a + b)
  {
    forall y: nat, c: nat | Inside(m, y, c)
      ensures Covered(m, a + b, y, c) <==> Covered(m, a, y, c) || Covered(m, b, y, c)
    {
      CoveredUnion(m, a, b, y, c);
    }
  }

  lemma CoveredUnion(m: Mode, a: seq<Rect>, b: seq<Rect>, y: nat, c: nat)
    ensures Covered(m, a + b, y, c) <==> Covered(m, a, y, c) || Covered(m, b, y, c)
  {
    if i :| 0 <= i < |a| && ValidRect(m, a[i]) && Covers(a[i], y, c) { assert (a + b)[i] == a[i]; }
    if i :| 0 <= i < |b| && ValidRect(m, b[i]) && Covers(b[i], y, c) { assert (a + b)[|a| + i] == b[i]; }
  }

  // ----- the screen

  /** What was damaged by the frame before: everything, or these rectangles of this surface. */
  datatype Previous = Everything | Only(surface: nat, rects: seq<Rect>)

  datatype Screen = Screen(mode: Mode, front: Frame, back: Frame, double: bool, previous: Previous)

  predicate GoodScreen(s: Screen) {
    && GoodMode(s.mode) && IsFrame(s.front, s.mode)
    && (if s.double then IsFrame(s.back, s.mode) else s.previous.Everything?)
  }

  predicate Stale(s: Screen, id: nat, rects: seq<Rect>) {
    rects == [] || s.previous.Everything? || s.previous.surface != id
  }

  function Remembered(id: nat, rects: seq<Rect>): Previous {
    if rects == [] || |rects| > MAX_RECTS then Everything else Only(id, rects)
  }

  /** A surface is presented; no rectangles stand for all of it. */
  ghost predicate Presented(s: Screen, s': Screen, id: nat, surface: Surface, rects: seq<Rect>) {
    var all := [Whole(s.mode)];
    && s'.mode == s.mode && s'.double == s.double
    && if !s.double then s'.back == s.back && s'.previous == s.previous
                         && Painted(s.front, s'.front, surface, s.mode, if rects == [] then all else rects)
       else s'.back == s.front && s'.previous == Remembered(id, rects)
            && Painted(s.back, s'.front, surface, s.mode, if Stale(s, id, rects) then all else s.previous.rects + rects)
  }

  /** Outside the damage both buffers show the same. */
  ghost predicate Synced(s: Screen) {
    s.double && s.previous.Only? ==>
      forall y: nat, c: nat :: Inside(s.mode, y, c) && !Covered(s.mode, s.previous.rects, y, c) ==>
      Look(s.front, s.mode.pitch, y, c) == Look(s.back, s.mode.pitch, y, c)
  }

  /** The client's promise: every byte that changed lies in one of the rectangles. */
  ghost predicate Declared(m: Mode, before: Surface, after: Surface, rects: seq<Rect>) {
    rects != [] ==> forall y: nat, c: nat :: Inside(m, y, c) && !Covered(m, rects, y, c) ==>
      Look(before.pixels, before.pitch, y, c) == Look(after.pixels, after.pitch, y, c)
  }

  /** If the screen showed the surface as it was, it shows it as it is, and the buffers stay synced. */
  lemma DamageUnion(s: Screen, s': Screen, id: nat, before: Surface, after: Surface, rects: seq<Rect>)
    requires GoodScreen(s) && Presented(s, s', id, after, rects) && Declared(s.mode, before, after, rects)
    requires Same(s.front, before, s.mode) && Synced(s)
    ensures Same(s'.front, after, s.mode) && Synced(s')
  {
    if !s.double || Stale(s, id, rects) {
      if !s.double && rects != [] {
        assert Same(s'.front, after, s.mode);
      } else {
        PaintedWhole(if s.double then s.back else s.front, s'.front, after, s.mode);
      }
    } else {
      forall y: nat, c: nat | Inside(s.mode, y, c)
        ensures Look(s'.front, s.mode.pitch, y, c) == Look(after.pixels, after.pitch, y, c)
      {
        CoveredUnion(s.mode, s.previous.rects, rects, y, c);
      }
    }
  }

  /** Whatever was on the screen, a present of the whole surface shows it and leaves the buffers synced. */
  lemma WholePresent(s: Screen, s': Screen, id: nat, surface: Surface)
    requires GoodScreen(s) && Presented(s, s', id, surface, [])
    ensures Same(s'.front, surface, s.mode) && Synced(s')
  {
    PaintedWhole(if s.double then s.back else s.front, s'.front, surface, s.mode);
  }

  // ----- exactly when the union is enough

  /** The painted frame, byte by byte. */
  function Paint(f: Frame, s: Surface, m: Mode, rects: seq<Rect>): Frame
    requires m.pitch > 0
  {
    seq(|f|, (j: nat) requires j < |f| =>
      var y, c := j / m.pitch, j % m.pitch;
      if Inside(m, y, c) && Covered(m, rects, y, c) then Look(s.pixels, s.pitch, y, c) else f[j])
  }

  lemma PaintPaints(f: Frame, s: Surface, m: Mode, rects: seq<Rect>)
    requires GoodMode(m) && IsFrame(f, m)
    ensures Painted(f, Paint(f, s, m, rects), s, m, rects)
  {
    hide Covered;
    forall y: nat, c: nat | Inside(m, y, c)
      ensures At(m.pitch, y, c) < |f| && At(m.pitch, y, c) / m.pitch == y && At(m.pitch, y, c) % m.pitch == c
    {
      InFrame(m, y, c);
      RemainderOf(At(m.pitch, y, c), y, m.pitch, c);
    }
  }

  lemma InFrame(m: Mode, y: nat, c: nat)
    requires Inside(m, y, c) && 4 * m.width <= m.pitch
    ensures At(m.pitch, y, c) < Size(m)
  {
    AtLeastRows(m.pitch, y, m.height);
  }

  lemma AtLeastRows(pitch: nat, y: nat, height: nat)
    requires y < height
    ensures y * pitch + pitch <= height * pitch
  {
    assert height * pitch == y * pitch + (height - y) * pitch;
    AtLeast(height - y, pitch);
  }

  /** Every declared present that can follow shows the surface. */
  ghost predicate Trustworthy(s: Screen, id: nat, surface: Surface) {
    forall s', after, rects :: Presented(s, s', id, after, rects) && Declared(s.mode, surface, after, rects) ==>
      Same(s'.front, after, s.mode)
  }

  /** The remembered damage can be trusted exactly when the hidden buffer agrees with the screen outside it. */
  lemma TrustworthyIfSynced(s: Screen, id: nat, surface: Surface)
    requires GoodScreen(s) && s.double && s.previous.Only? && s.previous.surface == id && Same(s.front, surface, s.mode)
    ensures Trustworthy(s, id, surface) <==> Synced(s)
  {
    if Synced(s) {
      forall s', after, rects | Presented(s, s', id, after, rects) && Declared(s.mode, surface, after, rects)
        ensures Same(s'.front, after, s.mode)
      {
        DamageUnion(s, s', id, surface, after, rects);
      }
    }
    if Trustworthy(s, id, surface) {
      var nothing := [Rect(0, 0, 0, 0)];
      var rects := s.previous.rects + nothing;
      var front := Paint(s.back, surface, s.mode, rects);
      PaintPaints(s.back, surface, s.mode, rects);
      var s' := s.(front := front, back := s.front, previous := Remembered(id, nothing));
      assert Presented(s, s', id, surface, nothing);
      forall y: nat, c: nat | Inside(s.mode, y, c) && !Covered(s.mode, s.previous.rects, y, c)
        ensures Look(s.front, s.mode.pitch, y, c) == Look(s.back, s.mode.pitch, y, c)
      {
        CoveredUnion(s.mode, s.previous.rects, nothing, y, c);
      }
    }
  }

  /** After a copy of the whole surface under rectangles of the client's, the damage remembered can be
      trusted exactly when what was on the screen agrees with the surface outside those rectangles. */
  lemma StalePresentExactly(s: Screen, s': Screen, id: nat, surface: Surface, rects: seq<Rect>)
    requires GoodScreen(s) && s.double && 0 < |rects| <= MAX_RECTS && Stale(s, id, rects)
    requires Presented(s, s', id, surface, rects)
    requires GoodScreen(s')
    ensures Same(s'.front, surface, s.mode)
    ensures Trustworthy(s', id, surface) <==>
            forall y: nat, c: nat :: Inside(s.mode, y, c) && !Covered(s.mode, rects, y, c) ==>
              Look(s.front, s.mode.pitch, y, c) == Look(surface.pixels, surface.pitch, y, c)
  {
    PaintedWhole(s.back, s'.front, surface, s.mode);
    TrustworthyIfSynced(s', id, surface);
  }

  /** Two rows: after an unknown screen, presenting row 0 alone and then again leaves row 1 wrong. */
  lemma FirstPresentMustBeWhole()
    ensures var m := Mode(1, 2, 4);
            var ones := Surface([1, 1, 1, 1, 1, 1, 1, 1], 4);
            var row := [Rect(0, 0, 1, 1)];
            var s := Screen(m, [0, 0, 0, 0, 0, 0, 0, 0], [0, 0, 0, 0, 0, 0, 0, 0], true, Everything);
            exists s1, s2 :: Presented(s, s1, 1, ones, row) && Presented(s1, s2, 1, ones, row)
              && Declared(m, ones, ones, row)
                             && Same(s1.front, ones, m) && !Same(s2.front, ones, m)
  {
    var m := Mode(1, 2, 4);
    var ones := Surface([1, 1, 1, 1, 1, 1, 1, 1], 4);
    var row := [Rect(0, 0, 1, 1)];
    var s := Screen(m, [0, 0, 0, 0, 0, 0, 0, 0], [0, 0, 0, 0, 0, 0, 0, 0], true, Everything);
    var front := Paint(s.back, ones, m, [Whole(m)]);
    PaintPaints(s.back, ones, m, [Whole(m)]);
    var s1 := s.(front := front, back := s.front, previous := Remembered(1, row));
    PaintedWhole(s.back, front, ones, m);
    var front2 := Paint(s1.back, ones, m, row + row);
    PaintPaints(s1.back, ones, m, row + row);
    var s2 := s1.(front := front2, back := s1.front, previous := Remembered(1, row));
    assert Presented(s, s1, 1, ones, row) && Presented(s1, s2, 1, ones, row);
    assert Inside(m, 1, 0) && !Covered(m, row + row, 1, 0);
    assert Look(front2, 4, 1, 0) == Look(s1.back, 4, 1, 0) == 0;
    assert Look(ones.pixels, 4, 1, 0) == 1;
  }
}
