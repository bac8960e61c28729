/** The thread table, scanned and updated in place by the wait and wake calls. */
module ThreadTable {
  import opened AddressWait

  class Table {
    const threads: array<Thread>
    var tickets: nat
    var memory: Memory

    ghost function Value(): Kernel
      reads this, threads
    {
      Kernel(threads[..], tickets)
    }

    ghost predicate Valid()
      reads this, threads
    {
      threads.Length <= MAX_THREADS && Good(Value())
    }

    constructor (slots: array<Thread>, memory: Memory)
      requires slots.Length <= MAX_THREADS && forall i :: 0 <= i < slots.Length ==> !Parked(slots[i])
      ensures threads == slots && this.memory == memory && Valid()
    {
      threads, tickets, this.memory := slots, 0, memory;
      new;
    }

    /** Parks the calling thread while its word holds the expected value. */
    method WaitOnAddress(self: nat, address: nat, expected: nat, size: nat, timeout: int, now: nat,
                         accessible: bool) returns (outcome: Outcome)
      requires Valid() && self < threads.Length && threads[self].state == Running
      modifies this`tickets, threads
      ensures Valid()
      ensures outcome == WaitOutcome(accessible, Word(memory, old(threads[self]).process, address, size), address,
                                     expected, size, timeout)
      ensures Value() == if outcome == Blocked
                then Park(old(Value()), self, address, if timeout > 0 then now + timeout else 0) else old(Value())
    {
      if !WordSize(size) || address % size != 0 {
        return Invalid;
      }
      if !accessible {
        return Invalid;
      }
      var value := ReadWord(threads[self].process, address, size);
      if value != Masked(expected, size) {
        return Changed;
      }
      if timeout == 0 {
        return TimedOut;
      }
      tickets := tickets + 1;
      var deadline := if timeout > 0 then now + timeout else 0;
      ParkGood(Value().(tickets := tickets - 1), self, address, deadline);
      threads[self] := threads[self].(state := BlockedWait, reason := Address, address := address, ticket := tickets,
                                      deadline := deadline);
      return Blocked;
    }

    method ReadWord(process: nat, address: nat, size: nat) returns (value: nat)
      ensures value == Word(memory, process, address, size)
    {
      value := 0;
      var i := size;
      while i > 0
        invariant 0 <= i <= size && value == Word(memory, process, address + i, size - i)
      {
        i := i - 1;
        value := ByteAt(memory, process, address + i) + 256 * value;
      }
    }

    method CompleteBlockedWait(i: nat, result: int)
      requires i < threads.Length
      modifies threads
      ensures threads[..] == old(threads[..])[i := Woken(old(threads[i]), result)]
    {
      threads[i] := Woken(threads[i], result);
    }

    /** The thread that has been parked on the address longest. */
    method Oldest(process: nat, address: nat) returns (found: bool, oldest: nat)
      ensures found ==> oldest < threads.Length && ParkedOn(threads[oldest], process, address)
      ensures forall i :: 0 <= i < threads.Length && ParkedOn(threads[i], process, address) ==>
                found && threads[oldest].ticket <= threads[i].ticket
    {
      found, oldest := false, 0;
      for i := 0 to threads.Length
        invariant found ==> oldest < threads.Length && ParkedOn(threads[oldest], process, address)
        invariant forall j :: 0 <= j < i && ParkedOn(threads[j], process, address) ==>
                    found && threads[oldest].ticket <= threads[j].ticket
      {
        if ParkedOn(threads[i], process, address) && (!found || threads[i].ticket < threads[oldest].ticket) {
          found, oldest := true, i;
        }
      }
    }

    /** Wakes up to `count` threads, the longest parked first. */
    method WakeAddress(process: nat, address: nat, count: nat) returns (woken: nat, ghost w: set<nat>)
      requires Valid() && count <= WAKE_ALL
      modifies threads
      ensures Valid() && WokeOldest(old(Value()), Value(), w, process, address, count) && woken == |w|
    {
      ghost var before := Value();
      if count == WAKE_ALL {
        woken, w := WakeEvery(process, address);
        WakeGood(before, Value(), w, 0);
        AtMost(w, |before.threads|);
        return;
      }
      woken, w := 0, {};
      while woken < count
        invariant woken <= count && w <= ParkedSet(before.threads, process, address) && |w| == woken
        invariant WokeThese(before.threads, threads[..], w, 0) && OldestFirst(before.threads, w, process, address)
        decreases count - woken
      {
        var found, oldest := Oldest(process, address);
        if !found {
          NobodyLeft(before.threads, threads[..], w, process, address);
          break;
        }
        WokeOne(before, threads[..], w, process, address, oldest);
        CompleteBlockedWait(oldest, 0);
        w := w + {oldest};
        woken := woken + 1;
      }
      NoLarger(w, ParkedSet(before.threads, process, address));
      WakeGood(before, Value(), w, 0);
    }

    method WakeEvery(process: nat, address: nat) returns (woken: nat, ghost w: set<nat>)
      modifies threads
      ensures w == ParkedSet(old(threads[..]), process, address) && woken == |w|
      ensures WokeThese(old(threads[..]), threads[..], w, 0)
    {
      ghost var before := threads[..];
      woken, w := 0, {};
      for i := 0 to threads.Length
        invariant w == (set j: nat | j < i && ParkedOn(before[j], process, address)) && woken == |w|
        invariant WokeThese(before, threads[..], w, 0)
      {
        if ParkedOn(threads[i], process, address) {
          CompleteBlockedWait(i, 0);
          w := w + {i};
          woken := woken + 1;
        }
      }
    }

    /** Ends every wait whose deadline has come. */
    method WakeWaitTimeouts(tick: nat)
      requires Valid()
      modifies threads
      ensures Valid() && Value() == TimeOut(old(Value()), tick)
    {
      ghost var before := Value();
      ghost var w: set<nat> := {};
      for i := 0 to threads.Length
        invariant w == set j: nat | j < i && Expired(before.threads[j], tick)
        invariant WokeThese(before.threads, threads[..], w, TIMED_OUT)
      {
        if Expired(threads[i], tick) {
          CompleteBlockedWait(i, TIMED_OUT);
          w := w + {i};
        }
      }
      WakeGood(before, Value(), w, TIMED_OUT);
      assert Value().threads == TimeOut(before, tick).threads;
    }
  }

  /** When nobody is parked on the address any more, everyone who was has been woken. */
  lemma NobodyLeft(before: seq<Thread>, now: seq<Thread>, w: set<nat>, process: nat, address: nat)
    requires w <= ParkedSet(before, process, address) && WokeThese(before, now, w, 0)
    requires forall i :: 0 <= i < |now| ==> !ParkedOn(now[i], process, address)
    ensures w == ParkedSet(before, process, address)
  {
    forall i | i in ParkedSet(before, process, address)
      ensures i in w
    {
      assert !ParkedOn(now[i], process, address);
    }
  }

  /** Waking the oldest of those left keeps the order. */
  lemma WokeOne(before: Kernel, now: seq<Thread>, w: set<nat>, process: nat, address: nat, oldest: nat)
    requires Good(before) && w <= ParkedSet(before.threads, process, address) && WokeThese(before.threads, now, w, 0)
    requires OldestFirst(before.threads, w, process, address) && oldest < |now|
    requires ParkedOn(now[oldest], process, address)
    requires forall i :: 0 <= i < |now| && ParkedOn(now[i], process, address) ==> now[oldest].ticket <= now[i].ticket
    ensures oldest !in w && oldest in ParkedSet(before.threads, process, address)
    ensures OldestFirst(before.threads, w + {oldest}, process, address)
    ensures WokeThese(before.threads, now[oldest := Woken(now[oldest], 0)], w + {oldest}, 0)
  {
    var ts := before.threads;
    forall i, j | 0 <= i < |ts| && 0 <= j < |ts| && i in w + {oldest} && j !in w + {oldest}
      && ParkedOn(ts[j], process, address)
      ensures ts[i].ticket < ts[j].ticket
    {
      assert now[j] == ts[j] && now[oldest] == ts[oldest];
      if i == oldest { DifferentTickets(before, oldest, j); }
    }
  }

  lemma NoLarger(a: set<nat>, b: set<nat>)
    requires a <= b
    ensures |a| <= |b|
  {
    assert b == a + (b - a);
  }

  lemma DifferentTickets(k: Kernel, i: nat, j: nat)
    requires Good(k) && i < |k.threads| && j < |k.threads| && i != j && Parked(k.threads[i]) && Parked(k.threads[j])
    ensures k.threads[i].ticket != k.threads[j].ticket
  {
  }
}
