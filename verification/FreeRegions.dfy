/** Free physical memory as a list of regions: sorted and never touching, so
    that one set of addresses has exactly one list. */
module FreeRegions {
  import opened Machine

  datatype Region = Region(base: nat, end: nat)

  predicate InRegion(r: Region, x: int) { r.base <= x < r.end }

  predicate GoodRegion(r: Region) { r.base < r.end < ADDRESSES }

  /** Regions of whole pages. */
  predicate OfPages(rs: seq<Region>) { forall i :: 0 <= i < |rs| ==> rs[i].base % PAGE == 0 && rs[i].end % PAGE == 0 }

  predicate Apart(a: Region, b: Region) { a.end < b.base }

  predicate WellFormed(rs: seq<Region>) {
    && (forall i :: 0 <= i < |rs| ==> GoodRegion(rs[i]))
    && forall i :: 0 <= i < |rs| - 1 ==> Apart(rs[i], rs[i + 1])
  }

  /** Address `x` is free. */
  predicate Owned(rs: seq<Region>, x: int) { exists i :: 0 <= i < |rs| && InRegion(rs[i], x) }

  lemma {:induction false} Sorted(rs: seq<Region>, i: nat, j: nat)
    requires WellFormed(rs) && i < j < |rs|
    ensures rs[i].end < rs[j].base
    decreases j - i
  {
    assert Apart(rs[j - 1], rs[j]);
    if i < j - 1 { Sorted(rs, i, j - 1); }
  }

  lemma OwnedConcat(a: seq<Region>, b: seq<Region>, x: int)
    ensures Owned(a + b, x) <==> Owned(a, x) || Owned(b, x)
  {
    if i :| 0 <= i < |a| && InRegion(a[i], x) { assert InRegion((a + b)[i], x); }
    if i :| 0 <= i < |b| && InRegion(b[i], x) { assert InRegion((a + b)[|a| + i], x); }
  }

  lemma OwnedOne(r: Region, x: int)
    ensures Owned([r], x) <==> InRegion(r, x)
  {
    assert InRegion([r][0], x) <==> InRegion(r, x);
  }

  /** The list around entry `i`. */
  lemma OwnedAround(rs: seq<Region>, i: nat, x: int)
    requires i < |rs|
    ensures Owned(rs, x) <==> Owned(rs[..i], x) || InRegion(rs[i], x) || Owned(rs[i + 1..], x)
  {
    assert rs == rs[..i] + [rs[i]] + rs[i + 1..];
    OwnedConcat(rs[..i] + [rs[i]], rs[i + 1..], x);
    OwnedConcat(rs[..i], [rs[i]], x);
    OwnedOne(rs[i], x);
  }

  // ----- one list for each set

  lemma Tail(rs: seq<Region>)
    requires WellFormed(rs) && rs != []
    ensures WellFormed(rs[1..]) && forall x :: Owned(rs[1..], x) ==> x > rs[0].end
  {
    forall i | 0 <= i < |rs[1..]| - 1
      ensures Apart(rs[1..][i], rs[1..][i + 1])
    {
      assert Apart(rs[i + 1], rs[i + 2]);
    }
    forall x | Owned(rs[1..], x)
      ensures x > rs[0].end
    {
      var i :| 0 <= i < |rs[1..]| && InRegion(rs[1..][i], x);
      Sorted(rs, 0, i + 1);
    }
  }

  ghost predicate SameOwned(rs: seq<Region>, qs: seq<Region>) { forall x :: Owned(rs, x) <==> Owned(qs, x) }

  lemma FirstInside(rs: seq<Region>, qs: seq<Region>)
    requires WellFormed(rs) && WellFormed(qs) && rs != [] && SameOwned(rs, qs)
    ensures qs != [] && qs[0].base <= rs[0].base && rs[0].end <= qs[0].end
  {
    var low, high := rs[0].base, rs[0].end - 1;
    assert InRegion(rs[0], low) && InRegion(rs[0], high);
    assert Owned(qs, low) && Owned(qs, high);
    Tail(qs);
    OwnedAround(qs, 0, low);
    OwnedAround(qs, 0, high);
    assert qs[..0] == [];
    if low > qs[0].end {
      assert InRegion(qs[0], qs[0].base) && Owned(rs, qs[0].base);
      BelowFirst(rs, qs[0].base);
    }
    if high > qs[0].end {
      assert InRegion(rs[0], qs[0].end) && Owned(qs, qs[0].end);
      OwnedAround(qs, 0, qs[0].end);
    }
  }

  lemma BelowFirst(rs: seq<Region>, x: int)
    requires WellFormed(rs) && rs != [] && Owned(rs, x)
    ensures x >= rs[0].base
  {
    Tail(rs);
    OwnedAround(rs, 0, x);
    assert rs[..0] == [];
  }

  /** Two lists in this form with the same free addresses are the same list. */
  lemma {:induction false} Canonical(rs: seq<Region>, qs: seq<Region>)
    requires WellFormed(rs) && WellFormed(qs) && SameOwned(rs, qs)
    ensures rs == qs
  {
    if rs == [] {
      if qs != [] { FirstInside(qs, rs); }
    } else {
      FirstInside(rs, qs);
      FirstInside(qs, rs);
      Tail(rs);
      Tail(qs);
      forall x
        ensures Owned(rs[1..], x) <==> Owned(qs[1..], x)
      {
        OwnedAround(rs, 0, x);
        OwnedAround(qs, 0, x);
        assert rs[..0] == [] == qs[..0];
      }
      Canonical(rs[1..], qs[1..]);
      assert rs == [rs[0]] + rs[1..] && qs == [qs[0]] + qs[1..];
    }
  }

  // ----- adding a region

  /** Well formed but for entry `i`, which stands where its base belongs. */
  predicate WellFormedBut(rs: seq<Region>, i: nat) {
    && i < |rs| && (forall j :: 0 <= j < |rs| ==> GoodRegion(rs[j]))
    && (forall j :: 0 <= j < |rs| - 1 && j + 1 != i && j != i ==> Apart(rs[j], rs[j + 1]))
    && (0 < i < |rs| - 1 ==> Apart(rs[i - 1], rs[i + 1]))
    && (i > 0 ==> rs[i - 1].base < rs[i].base) && (i + 1 < |rs| ==> rs[i].base <= rs[i + 1].base)
  }

  function Later(a: nat, b: nat): nat { if b > a then b else a }

  /** Entry `i` is swallowed by the one in front of it. */
  function JoinLeft(rs: seq<Region>, i: nat): seq<Region>
    requires 0 < i < |rs|
  {
    rs[..i - 1] + [Region(rs[i - 1].base, Later(rs[i - 1].end, rs[i].end))] + rs[i + 1..]
  }

  lemma JoinedOwned(rs: seq<Region>, i: nat, x: int)
    requires 0 < i < |rs| && GoodRegion(rs[i - 1]) && GoodRegion(rs[i]) && rs[i - 1].base <= rs[i].base <= rs[i - 1].end
    ensures Owned(JoinLeft(rs, i), x) <==> Owned(rs, x)
  {
    var joined := JoinLeft(rs, i);
    OwnedAround(rs, i, x);
    OwnedAround(rs[..i], i - 1, x);
    assert rs[..i][..i - 1] == rs[..i - 1] && rs[..i][i..] == [];
    OwnedAround(joined, i - 1, x);
    assert joined[..i - 1] == rs[..i - 1] && joined[i..] == rs[i + 1..];
  }

  lemma JoinedLeft(rs: seq<Region>, i: nat)
    requires WellFormedBut(rs, i) && i > 0 && rs[i - 1].end >= rs[i].base
    ensures WellFormedBut(JoinLeft(rs, i), i - 1) && SameOwned(rs, JoinLeft(rs, i))
    ensures i > 1 ==> Apart(JoinLeft(rs, i)[i - 2], JoinLeft(rs, i)[i - 1])
  {
    forall x
      ensures Owned(JoinLeft(rs, i), x) <==> Owned(rs, x)
    {
      JoinedOwned(rs, i, x);
    }
    var joined := JoinLeft(rs, i);
    assert forall j :: i <= j < |joined| ==> joined[j] == rs[j + 1];
    assert forall j :: 0 <= j < i - 1 ==> joined[j] == rs[j];
    assert i > 1 ==> Apart(rs[i - 2], rs[i - 1]);
  }

  /** The entry behind `i` is swallowed by it. */
  lemma JoinedRight(rs: seq<Region>, i: nat)
    requires WellFormedBut(rs, i) && i + 1 < |rs| && rs[i].end >= rs[i + 1].base && (i > 0 ==> Apart(rs[i - 1], rs[i]))
    ensures WellFormedBut(JoinLeft(rs, i + 1), i) && SameOwned(rs, JoinLeft(rs, i + 1))
    ensures i > 0 ==> Apart(JoinLeft(rs, i + 1)[i - 1], JoinLeft(rs, i + 1)[i])
  {
    forall x
      ensures Owned(JoinLeft(rs, i + 1), x) <==> Owned(rs, x)
    {
      JoinedOwned(rs, i + 1, x);
    }
    var joined := JoinLeft(rs, i + 1);
    assert forall j :: i < j < |joined| ==> joined[j] == rs[j + 1];
    assert forall j :: 0 <= j < i ==> joined[j] == rs[j];
    if i + 2 < |rs| { assert Apart(rs[i + 1], rs[i + 2]); }
  }

  lemma JoinedOfPages(rs: seq<Region>, i: nat)
    requires OfPages(rs) && 0 < i < |rs|
    ensures OfPages(JoinLeft(rs, i))
  {
    var joined := JoinLeft(rs, i);
    assert forall j :: i <= j < |joined| ==> joined[j] == rs[j + 1];
    assert forall j :: 0 <= j < i - 1 ==> joined[j] == rs[j];
  }

  /** A region put where its base belongs. */
  lemma Inserted(rs: seq<Region>, i: nat, r: Region)
    requires WellFormed(rs) && GoodRegion(r) && i <= |rs| && (i > 0 ==> rs[i - 1].base < r.base)
    requires (i < |rs| ==> r.base <= rs[i].base)
    ensures WellFormedBut(rs[..i] + [r] + rs[i..], i)
    ensures forall x :: Owned(rs[..i] + [r] + rs[i..], x) <==> Owned(rs, x) || InRegion(r, x)
  {
    var qs := rs[..i] + [r] + rs[i..];
    assert forall j :: 0 <= j < i ==> qs[j] == rs[j];
    assert forall j :: i < j < |qs| ==> qs[j] == rs[j - 1];
    if 0 < i < |rs| { assert Apart(rs[i - 1], rs[i]); }
    forall x
      ensures Owned(qs, x) <==> Owned(rs, x) || InRegion(r, x)
    {
      OwnedAround(qs, i, x);
      assert qs[..i] == rs[..i] && qs[i + 1..] == rs[i..] && rs == rs[..i] + rs[i..];
      OwnedConcat(rs[..i], rs[i..], x);
    }
  }

  // ----- taking from the front of a region

  /** The first `bytes` bytes of region `i` are taken. */
  function Take(rs: seq<Region>, i: nat, bytes: nat): seq<Region>
    requires i < |rs|
  {
    if rs[i].base + bytes == rs[i].end then rs[..i] + rs[i + 1..] else rs[i := rs[i].(base := rs[i].base + bytes)]
  }

  lemma TakenOwned(rs: seq<Region>, i: nat, bytes: nat, x: int)
    requires WellFormed(rs) && i < |rs| && rs[i].base + bytes <= rs[i].end
    ensures Owned(Take(rs, i, bytes), x) <==> Owned(rs, x) && !(rs[i].base <= x < rs[i].base + bytes)
  {
    var qs := Take(rs, i, bytes);
    OwnedAround(rs, i, x);
    if InRegion(rs[i], x) { OnlyHere(rs, i, x); }
    if rs[i].base + bytes == rs[i].end {
      OwnedConcat(rs[..i], rs[i + 1..], x);
    } else {
      OwnedAround(qs, i, x);
      assert qs[..i] == rs[..i] && qs[i + 1..] == rs[i + 1..];
    }
  }

  lemma OnlyHere(rs: seq<Region>, i: nat, x: int)
    requires WellFormed(rs) && i < |rs| && InRegion(rs[i], x)
    ensures !Owned(rs[..i], x) && !Owned(rs[i + 1..], x)
  {
    if k :| 0 <= k < |rs[..i]| && InRegion(rs[..i][k], x) { Sorted(rs, k, i); }
    var rest := rs[i + 1..];
    if k :| 0 <= k < |rest| && InRegion(rest[k], x) { Sorted(rs, i, i + 1 + k); }
  }

  /** Taking pages keeps the form and takes exactly those addresses. */
  lemma Taken(rs: seq<Region>, i: nat, bytes: nat)
    requires WellFormed(rs) && i < |rs| && rs[i].base + bytes <= rs[i].end
    ensures WellFormed(Take(rs, i, bytes)) && (OfPages(rs) && bytes % PAGE == 0 ==> OfPages(Take(rs, i, bytes)))
    ensures forall x :: Owned(Take(rs, i, bytes), x) <==> Owned(rs, x) && !(rs[i].base <= x < rs[i].base + bytes)
  {
    forall x
      ensures Owned(Take(rs, i, bytes), x) <==> Owned(rs, x) && !(rs[i].base <= x < rs[i].base + bytes)
    {
      TakenOwned(rs, i, bytes, x);
    }
    var qs := Take(rs, i, bytes);
    if |qs| < |rs| {
      assert forall j :: 0 <= j < i ==> qs[j] == rs[j];
      assert forall j :: i <= j < |qs| ==> qs[j] == rs[j + 1];
      if 0 < i < |rs| - 1 { Sorted(rs, i - 1, i + 1); }
    } else {
      if i > 0 { assert Apart(rs[i - 1], rs[i]); }
      if i + 1 < |rs| { assert Apart(rs[i], rs[i + 1]); }
    }
  }

  // ----- counting

  function PagesOf(r: Region): nat { if r.base <= r.end then (r.end - r.base) / PAGE else 0 }

  function Pages(rs: seq<Region>): nat {
    if rs == [] then 0 else Pages(rs[..|rs| - 1]) + PagesOf(rs[|rs| - 1])
  }

  /** The numbers of the free pages. */
  ghost function PageSet(rs: seq<Region>): set<nat> {
    set p: nat | p < ADDRESSES / PAGE && Owned(rs, p * PAGE)
  }

  ghost function Range(a: nat, b: nat): (pages: set<nat>)
    requires a <= b
    ensures |pages| == b - a && forall p: nat :: p in pages <==> a <= p < b
    decreases b - a
  {
    if a == b then {} else Range(a, b - 1) + {b - 1}
  }

  /** The page numbers of the list are those of the regions before the last and those of the last. */
  lemma PagesSplit(rs: seq<Region>, p: nat)
    requires WellFormed(rs) && OfPages(rs) && rs != []
    ensures var n := |rs| - 1;
            var mine := rs[n].base / PAGE <= p < rs[n].end / PAGE;
            && (p in PageSet(rs) <==> p in PageSet(rs[..n]) || mine)
            && !(p in PageSet(rs[..n]) && mine)
  {
    var n := |rs| - 1;
    OwnedAround(rs, n, p * PAGE);
    assert rs[n + 1..] == [];
    assert InRegion(rs[n], p * PAGE) <==> rs[n].base / PAGE <= p < rs[n].end / PAGE;
    if InRegion(rs[n], p * PAGE) { OnlyHere(rs, n, p * PAGE); }
    hide Owned, WellFormed;
  }

  /** The pages summed region by region are the pages of the set. */
  lemma {:induction false} PagesCounted(rs: seq<Region>)
    requires WellFormed(rs) && OfPages(rs)
    ensures Pages(rs) == |PageSet(rs)|
  {
    if rs == [] {
      assert PageSet(rs) == {};
    } else {
      var n := |rs| - 1;
      PagesCounted(rs[..n]);
      var mine := Range(rs[n].base / PAGE, rs[n].end / PAGE);
      assert PagesOf(rs[n]) == |mine|;
      hide PageSet, WellFormed, Range;
      forall p: nat
        ensures p in PageSet(rs) <==> p in PageSet(rs[..n]) || p in mine
        ensures !(p in PageSet(rs[..n]) && p in mine)
      {
        PagesSplit(rs, p);
      }
      assert PageSet(rs) == PageSet(rs[..n]) + mine;
      assert PageSet(rs[..n]) !! mine;
    }
  }
}
