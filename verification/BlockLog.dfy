/** Sector writes and ordering points, as a device or a caller sees them one
    after another. A barrier's place is the number of sector writes before it. */
module BlockLog {

  /** The content of one sector. */
  type Sector = int

  datatype Event = Put(lba: nat, sector: Sector) | Barrier

  type Log = seq<Event>

  /** The sector writes of a log, in order. */
  function Puts(log: Log): Log
    ensures |Puts(log)| <= |log|
  {
    if log == [] then []
    else Puts(log[..|log| - 1]) + if log[|log| - 1].Put? then [log[|log| - 1]] else []
  }

  function Count(log: Log): nat { |Puts(log)| }

  /** Some barrier of the log has exactly `n` sector writes before it. */
  ghost predicate BarrierAt(log: Log, n: nat) {
    exists b :: 0 <= b < |log| && log[b].Barrier? && Count(log[..b]) == n
  }

  function PutsOf(lba: nat, data: seq<Sector>): Log {
    seq(|data|, i requires 0 <= i < |data| => Put(lba + i, data[i]))
  }

  predicate OnlyPuts(log: Log) { forall i :: 0 <= i < |log| ==> log[i].Put? }

  lemma {:induction false} PutsConcat(a: Log, b: Log)
    ensures Puts(a + b) == Puts(a) + Puts(b)
  {
    if b == [] {
      assert a + b == a;
    } else {
      var front, last := b[..|b| - 1], b[|b| - 1];
      assert (a + b)[..|a + b| - 1] == a + front;
      PutsConcat(a, front);
    }
  }

  lemma {:induction false} AllPuts(log: Log)
    requires OnlyPuts(log)
    ensures Puts(log) == log
  {
    if log != [] { AllPuts(log[..|log| - 1]); }
  }

  /** A barrier of a concatenation is one of the first part, or one of the second that many writes on. */
  lemma BarrierConcat(a: Log, b: Log, n: nat)
    ensures BarrierAt(a + b, n) <==> BarrierAt(a, n) || (n >= Count(a) && BarrierAt(b, n - Count(a)))
  {
    var ab := a + b;
    if i :| 0 <= i < |ab| && ab[i].Barrier? && Count(ab[..i]) == n {
      if i < |a| {
        assert ab[..i] == a[..i] && a[i].Barrier?;
      } else {
        assert ab[..i] == a + b[..i - |a|] && b[i - |a|].Barrier?;
        PutsConcat(a, b[..i - |a|]);
      }
    }
    if i :| 0 <= i < |a| && a[i].Barrier? && Count(a[..i]) == n {
      assert ab[..i] == a[..i] && ab[i].Barrier?;
    }
    if n >= Count(a) {
      if i :| 0 <= i < |b| && b[i].Barrier? && Count(b[..i]) == n - Count(a) {
        assert ab[..|a| + i] == a + b[..i] && ab[|a| + i].Barrier?;
        PutsConcat(a, b[..i]);
      }
    }
  }

  lemma OneBarrier(n: nat)
    ensures BarrierAt([Barrier], n) <==> n == 0
  {
    assert Count([Barrier][..0]) == 0;
  }

  lemma NoBarrier(log: Log, n: nat)
    requires OnlyPuts(log)
    ensures !BarrierAt(log, n)
  {
  }

  /** A longer part of a log has its shorter part's writes first. */
  lemma PutsPrefix(log: Log, i: nat, j: nat)
    requires i <= j <= |log|
    ensures Puts(log[..i]) <= Puts(log[..j])
  {
    assert log[..j] == log[..i] + log[i..j];
    PutsConcat(log[..i], log[i..j]);
  }

  /** What holds between the writes and flushes a caller issued and what the device has been sent
      (`done`) and is still to be sent (`left`): the same sector writes in the same order, and a
      barrier wherever the caller put one. Barriers may be added; one before any write means nothing. */
  ghost predicate Ordered(issued: Log, done: Log, left: Log) {
    && Puts(done + left) == Puts(issued)
    && forall n :: n > 0 && BarrierAt(issued, n) ==> BarrierAt(done + left, n)
  }

  /** Every write the device took is followed by a flush. */
  ghost predicate Clean(done: Log) { Count(done) == 0 || BarrierAt(done, Count(done)) }

  /** The first `n` writes issued are on the medium: a flush followed them and nothing else. */
  ghost predicate Secured(issued: Log, done: Log, n: nat) {
    n <= Count(issued) && exists b :: 0 <= b < |done| && done[b].Barrier? && Puts(done[..b]) == Puts(issued)[..n]
  }

  lemma SecuredBy(issued: Log, done: Log, left: Log, b: nat, n: nat, k: nat)
    requires Ordered(issued, done, left) && b < k <= |done| && done[b].Barrier? && Count(done[..b]) == n
    ensures Secured(issued, done[..k], n)
  {
    var all := done + left;
    assert all[..b] == done[..b] == done[..k][..b] && all[..|all|] == all;
    PutsPrefix(all, b, |all|);
  }

  /** A power cut after the first `k` commands of `done`. Whatever write has reached the device by
      then, every write issued before a flush that preceded it was already on the medium. */
  lemma CrashOrdered(issued: Log, done: Log, left: Log, k: nat, n: nat)
    requires Ordered(issued, done, left) && k <= |done|
    requires 0 < n < Count(done[..k]) && BarrierAt(issued, n)
    ensures Secured(issued, done[..k], n)
  {
    var all := done + left;
    var b :| 0 <= b < |all| && all[b].Barrier? && Count(all[..b]) == n;
    assert all[..k] == done[..k];
    if b >= k { PutsPrefix(all, k, b); }
    assert b < k && all[..b] == done[..b];
    SecuredBy(issued, done, left, b, n, k);
  }

  /** The same for the writes about to be sent: the next `m` events of `left`, none of them a
      barrier. Even a command that fails half way reaches nothing too early. */
  lemma BatchOrdered(issued: Log, done: Log, left: Log, m: nat, n: nat)
    requires Ordered(issued, done, left) && m <= |left| && OnlyPuts(left[..m])
    requires 0 < n < Count(done) + m && BarrierAt(issued, n)
    ensures Secured(issued, done, n)
  {
    var all := done + left;
    var b :| 0 <= b < |all| && all[b].Barrier? && Count(all[..b]) == n;
    assert b < |done| by { BeforeBatch(done, left, m, b); }
    assert all[..b] == done[..b] && done[..|done|] == done;
    SecuredBy(issued, done, left, b, n, |done|);
  }

  lemma BeforeBatch(done: Log, left: Log, m: nat, b: nat)
    requires m <= |left| && OnlyPuts(left[..m])
    requires b < |done + left| && (done + left)[b].Barrier? && Count((done + left)[..b]) < Count(done) + m
    ensures b < |done|
  {
    hide Puts;
    var all := done + left;
    var batch := left[..m];
    assert all[..|done| + m] == done + batch;
    PutsConcat(done, batch);
    AllPuts(batch);
    assert Count(all[..|done| + m]) == Count(done) + m;
    assert forall i :: |done| <= i < |done| + m ==> all[i] == batch[i - |done|];
    if b >= |done| + m { PutsPrefix(all, |done| + m, b); }
  }

  /** Everything issued is on the medium. */
  ghost predicate Durable(issued: Log, done: Log) { Puts(done) == Puts(issued) && Clean(done) }

  // ----- how the three logs move

  /** A write is issued and left to be sent. */
  lemma IssueWrite(issued: Log, done: Log, left: Log, puts: Log)
    requires Ordered(issued, done, left) && OnlyPuts(puts)
    ensures Ordered(issued + puts, done, left + puts)
  {
    assert done + (left + puts) == done + left + puts;
    PutsConcat(done + left, puts);
    PutsConcat(issued, puts);
    forall n | n > 0 && BarrierAt(issued + puts, n)
      ensures BarrierAt(done + (left + puts), n)
    {
      BarrierConcat(issued, puts, n);
      BarrierConcat(done + left, puts, n);
      if n >= Count(issued) { NoBarrier(puts, n - Count(issued)); }
    }
  }

  /** A flush is issued; it may be left out when a barrier already stands where it belongs. */
  lemma IssueBarrier(issued: Log, done: Log, left: Log, extra: Log)
    requires Ordered(issued, done, left)
    requires extra == [Barrier] || (extra == []
                 && (Count(done + left) == 0 || BarrierAt(done + left, Count(done + left))))
    ensures Ordered(issued + [Barrier], done, left + extra)
  {
    var all := done + left;
    assert done + (left + extra) == all + extra;
    PutsConcat(all, extra);
    PutsConcat(issued, [Barrier]);
    forall n | n > 0 && BarrierAt(issued + [Barrier], n)
      ensures BarrierAt(all + extra, n)
    {
      BarrierStands(issued, all, extra, n);
    }
  }

  lemma BarrierStands(issued: Log, all: Log, extra: Log, n: nat)
    requires Puts(all) == Puts(issued) && n > 0 && BarrierAt(issued + [Barrier], n)
    requires BarrierAt(issued, n) ==> BarrierAt(all, n)
    requires extra == [Barrier] || (extra == [] && (Count(all) == 0 || BarrierAt(all, Count(all))))
    ensures BarrierAt(all + extra, n)
  {
    BarrierConcat(issued, [Barrier], n);
    BarrierConcat(all, extra, n);
    if n >= Count(issued) { OneBarrier(n - Count(issued)); }
    OneBarrier(0);
    hide Puts, BarrierAt;
  }

  /** A flush may be left out exactly when there is nothing before it or a barrier already stands there. */
  lemma BarrierLeftOut(issued: Log, done: Log, left: Log)
    requires Ordered(issued, done, left)
    ensures Ordered(issued + [Barrier], done, left) <==>
              Count(done + left) == 0 || BarrierAt(done + left, Count(done + left))
  {
    if Count(done + left) == 0 || BarrierAt(done + left, Count(done + left)) {
      IssueBarrier(issued, done, left, []);
      assert left + [] == left;
    }
    if Ordered(issued + [Barrier], done, left) {
      var n := Count(issued);
      BarrierConcat(issued, [Barrier], n);
      OneBarrier(0);
    }
  }

  /** What comes next is sent. */
  lemma SendNext(issued: Log, done: Log, sent: Log, left: Log)
    requires Ordered(issued, done, sent + left)
    ensures Ordered(issued, done + sent, left)
  {
    assert done + sent + left == done + (sent + left);
  }

  /** A flush too many, or one that is skipped because nothing was written since the last one. */
  lemma SkipBarrier(issued: Log, done: Log, left: Log)
    requires Ordered(issued, done, [Barrier] + left) && Clean(done)
    ensures Ordered(issued, done, left)
  {
    PutsConcat(done, [Barrier] + left);
    PutsConcat([Barrier], left);
    PutsConcat(done, left);
    forall n | n > 0 && BarrierAt(issued, n)
      ensures BarrierAt(done + left, n)
    {
      BarrierConcat(done, [Barrier] + left, n);
      BarrierConcat(done, left, n);
      if n >= Count(done) {
        BarrierConcat([Barrier], left, n - Count(done));
        OneBarrier(n - Count(done));
      }
    }
  }

  lemma ExtraBarrier(issued: Log, done: Log, left: Log)
    requires Ordered(issued, done, left)
    ensures Ordered(issued, done + [Barrier], left)
  {
    PutsConcat(done, left);
    PutsConcat(done, [Barrier]);
    PutsConcat(done + [Barrier], left);
    forall n | n > 0 && BarrierAt(issued, n)
      ensures BarrierAt(done + [Barrier] + left, n)
    {
      BarrierConcat(done, left, n);
      BarrierConcat(done, [Barrier], n);
      BarrierConcat(done + [Barrier], left, n);
    }
  }

  lemma FlushedIsClean(done: Log)
    ensures Clean(done + [Barrier]) && Puts(done + [Barrier]) == Puts(done)
  {
    PutsConcat(done, [Barrier]);
    OneBarrier(0);
    BarrierConcat(done, [Barrier], Count(done));
  }
}
