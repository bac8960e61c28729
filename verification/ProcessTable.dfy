/** The process table and the threads waiting for children, updated in place. */
module ProcessTable {
  import opened ProcessTree

  class Table {
    const slots: array<Process>
    const waits: array<Waiting>
    var nextPid: nat
    var initPid: nat
    ghost var reaped: set<nat>

    ghost function Value(): State
      reads this, slots, waits
    {
      State(slots[..], waits[..], nextPid, initPid, reaped)
    }

    ghost predicate Apart()
      reads this
    {
      slots as object != waits as object
    }

    /** At boot: one idle process for each core, then init. */
    constructor (cores: nat, threads: nat)
      requires cores < MAX_PROCESSES
      ensures Apart() && Good(Value()) && fresh(slots) && fresh(waits)
      ensures initPid == cores + 1 && reaped == {}
    {
      slots := new Process[MAX_PROCESSES](i => if 0 <= i < cores then Process(i + 1, 0, Alive, false, true)
                                                else if i == cores then Process(cores + 1, 0, Alive, false, false)
                                                else Process(0, 0, Unused, false, false));
      waits := new Waiting[threads](t => NotWaiting);
      nextPid, initPid, reaped := cores + 2, cores + 1, {};
      new;
      assert AliveAt(slots[..], cores, initPid);
    }

    /** Gives a slot back. */
    method ReapProcess(i: nat)
      requires i < slots.Length && Apart()
      modifies slots, this`reaped
      ensures Value() == Reap(old(Value()), i)
    {
      reaped := reaped + {slots[i].pid};
      slots[i] := Process(0, 0, Unused, false, slots[i].idle);
    }

    /** A new process in the first unused slot. */
    method AllocateProcessSlot(parent: nat) returns (found: bool, i: nat)
      requires Apart()
      modifies slots, this`nextPid
      ensures found ==> i < slots.Length && !Used(old(slots[i])) && Value() == Create(old(Value()), i, parent)
      ensures !found ==> Value() == old(Value()) && forall j :: 0 <= j < slots.Length ==> Used(slots[j])
    {
      for k := 0 to slots.Length
        invariant forall j :: 0 <= j < k ==> Used(slots[j])
        invariant Value() == old(Value())
      {
        if slots[k].life == Unused {
          slots[k] := Process(nextPid, parent, Alive, false, false);
          nextPid := nextPid + 1;
          return true, k;
        }
      }
      return false, 0;
    }

    method FindWaitingParentFor(child: Process) returns (t: nat)
      ensures t == Waiter(waits[..], child)
    {
      t := 0;
      while t < waits.Length && !Matches(waits[t], child)
        invariant t <= waits.Length && forall u :: 0 <= u < t ==> !Matches(waits[u], child)
      {
        t := t + 1;
      }
      FirstWaiter(waits[..], child, t);
    }

    /** Tells the parent, and gives the slot back once the exit code is delivered or nobody will ask. */
    method WakeWaitingParent(i: nat)
      requires i < slots.Length && Apart()
      modifies slots, waits, this`reaped
      ensures Value() == Notify(old(Value()), i)
    {
      var t := FindWaitingParentFor(slots[i]);
      if t == waits.Length {
        if slots[i].orphaned {
          ReapProcess(i);
        }
        return;
      }
      waits[t] := NotWaiting;
      ReapProcess(i);
    }

    method ReparentOrphanedChildren(pid: nat)
      requires Apart()
      modifies slots, this`reaped
      ensures Value() == Reparent(old(Value()), pid)
    {
      ghost var before := Value();
      for k := 0 to slots.Length
        invariant waits[..] == before.waits && nextPid == before.nextPid && initPid == before.initPid
        invariant forall j :: 0 <= j < k ==> slots[j] == Orphan(before.slots[j], pid, initPid)
        invariant forall j :: k <= j < slots.Length ==> slots[j] == before.slots[j]
        invariant reaped == before.reaped + Ended(before.slots[..k], pid)
      {
        EndedNext(before.slots, k, pid);
        hide Ended;
        if Used(slots[k]) && slots[k].parent == pid {
          if slots[k].life == Zombie {
            ReapProcess(k);
          } else {
            slots[k] := slots[k].(parent := initPid, orphaned := true);
          }
        }
      }
      assert before.slots[..slots.Length] == before.slots;
      assert slots[..] == Reparent(before, pid).slots;
    }

    /** Ends a process: its threads, its zombie state, its parent's wait and its children. While another
        core runs one of its threads, nothing happens yet. */
    method TerminateProcess(i: nat, busy: bool)
      requires i < slots.Length && Good(Value()) && slots[i].pid != initPid && Apart()
      modifies slots, waits, this`reaped
      ensures Value() == (if busy then old(Value()) else Terminate(old(Value()), i)) && Good(Value())
    {
      TerminateKeeps(Value(), i);
      hide Good, Notify, Reparent;
      if slots[i].idle || slots[i].life != Alive || busy {
        return;
      }
      ghost var before := Value();
      var exiting := slots[i].pid;
      ClearWaits(exiting);
      slots[i] := slots[i].(life := Zombie);
      assert Value() == End(before, i);
      WakeWaitingParent(i);
      ReparentOrphanedChildren(exiting);
    }

    method ClearWaits(pid: nat)
      requires Apart()
      modifies waits
      ensures waits[..] == StopWaits(old(waits[..]), pid)
    {
      for t := 0 to waits.Length
        invariant forall u :: 0 <= u < t ==> waits[u] == StopWaits(old(waits[..]), pid)[u]
        invariant forall u :: t <= u < waits.Length ==> waits[u] == old(waits[u])
      {
        if waits[t].For? && waits[t].process == pid {
          waits[t] := NotWaiting;
        }
      }
    }

    /** Reports a zombie child, refuses when there is no such child, or blocks the thread. */
    method WaitPidChild(t: nat, pid: nat, target: nat) returns (answer: Answer)
      requires t < waits.Length && Good(Value()) && Apart()
      modifies slots, waits, this`reaped
      ensures Value() == WaitPid(old(Value()), t, pid, target) && Good(Value())
      ensures answer.Child? <==> HasZombie(old(slots[..]), pid, target)
      ensures answer.Child? ==> answer.pid in reaped && answer.pid !in old(reaped)
      ensures answer.NoChild? <==> !HasChild(old(slots[..]), pid, target)
    {
      ghost var before := Value();
      WaitPidKeeps(before, t, pid, target);
      var i := FindZombieChild(pid, target);
      if i < slots.Length {
        var child := slots[i].pid;
        assert GoodProcess(before, before.slots[i], 0);
        ReapProcess(i);
        return Child(child);
      }
      var has := HasAnyChild(pid, target);
      if !has {
        return NoChild;
      }
      waits[t] := For(pid, target);
      return Parked;
    }

    method FindZombieChild(parent: nat, target: nat) returns (i: nat)
      ensures i == ZombieChild(slots[..], parent, target)
    {
      i := 0;
      while i < slots.Length && !(slots[i].life == Zombie && ChildOf(slots[i], parent, target))
        invariant i <= slots.Length
        invariant forall j :: 0 <= j < i ==> !(slots[j].life == Zombie && ChildOf(slots[j], parent, target))
      {
        i := i + 1;
      }
      FirstZombie(slots[..], parent, target, i);
    }

    method HasAnyChild(parent: nat, target: nat) returns (has: bool)
      ensures has == HasChild(slots[..], parent, target)
    {
      for i := 0 to slots.Length
        invariant forall j :: 0 <= j < i ==> !(Used(slots[j]) && ChildOf(slots[j], parent, target))
      {
        if Used(slots[i]) && ChildOf(slots[i], parent, target) {
          assert slots[..][i] == slots[i];
          return true;
        }
      }
      return false;
    }

    method Find(pid: nat) returns (found: bool, i: nat)
      ensures found ==> i < slots.Length && Used(slots[i]) && slots[i].pid == pid
      ensures !found ==> forall j :: 0 <= j < slots.Length && Used(slots[j]) ==> slots[j].pid != pid
    {
      for k := 0 to slots.Length
        invariant forall j :: 0 <= j < k && Used(slots[j]) ==> slots[j].pid != pid
      {
        if Used(slots[k]) && slots[k].pid == pid {
          return true, k;
        }
      }
      return false, 0;
    }

    /** Walks up from the target. The bound on the walk never cuts a chain short: the answer is exactly
        whether `ancestor` lies above the target. */
    method DescendsFrom(target: nat, ancestor: nat) returns (result: bool)
      requires Good(Value()) && target < slots.Length && Used(slots[target])
      ensures result <==> Descends(slots[..], slots[target].pid, ancestor)
    {
      ghost var s := Value();
      Climb(s, target, ancestor);
      RankBound(s.slots, target);
      ParentRank(s, target);
      var above := slots[target].parent;
      var depth := 0;
      hide Good, Descends, Rank, IsAlive;
      while above != 0 && depth < MAX_PROCESSES
        invariant above != 0 ==>
                    IsAlive(s.slots, above) && depth + 1 + Rank(s.slots, above) <= Rank(s.slots, s.slots[target].pid)
        invariant Descends(s.slots, s.slots[target].pid, ancestor) <==>
                    above != 0 && (above == ancestor || Descends(s.slots, above, ancestor))
        decreases MAX_PROCESSES - depth
      {
        if above == ancestor {
          return true;
        }
        var found, step := Find(above);
        if !found {
          NotThere(s.slots, above, ancestor);
          return false;
        }
        Climb(s, step, ancestor);
        ParentRank(s, step);
        above := slots[step].parent;
        depth := depth + 1;
      }
      TableBound(s);
      return false;
    }
  }

  predicate HasZombie(slots: seq<Process>, parent: nat, target: nat) {
    exists i :: 0 <= i < |slots| && slots[i].life == Zombie && ChildOf(slots[i], parent, target)
  }

  datatype Answer = Child(pid: nat) | NoChild | Parked

  lemma FirstWaiter(waits: seq<Waiting>, child: Process, t: nat)
    requires t <= |waits| && (t < |waits| ==> Matches(waits[t], child))
    requires forall u :: 0 <= u < t ==> !Matches(waits[u], child)
    ensures t == Waiter(waits, child)
  {
  }

  lemma FirstZombie(slots: seq<Process>, parent: nat, target: nat, i: nat)
    requires i <= |slots| && (i < |slots| ==> slots[i].life == Zombie && ChildOf(slots[i], parent, target))
    requires forall j :: 0 <= j < i ==> !(slots[j].life == Zombie && ChildOf(slots[j], parent, target))
    ensures i == ZombieChild(slots, parent, target)
  {
  }

  lemma ParentRank(s: State, i: nat)
    requires Good(s) && i < |s.slots| && Used(s.slots[i])
    ensures s.slots[i].parent != 0 ==>
              IsAlive(s.slots, s.slots[i].parent) && Rank(s.slots, s.slots[i].parent) < Rank(s.slots, s.slots[i].pid)
  {
    assert GoodProcess(s, s.slots[i], 0);
    if s.slots[i].parent != 0 {
      var k :| 0 <= k < |s.slots| && AliveAt(s.slots, k, s.slots[i].parent);
      RankClimbs(s, k, s.slots[i].pid);
    }
  }

  lemma NotThere(slots: seq<Process>, pid: nat, ancestor: nat)
    requires forall j :: 0 <= j < |slots| && Used(slots[j]) ==> slots[j].pid != pid
    ensures !Descends(slots, pid, ancestor)
  {
    hide Descends;
    if Descends(slots, pid, ancestor) { DescendantThere(slots, pid, ancestor); }
  }

  lemma DescendantThere(slots: seq<Process>, pid: nat, ancestor: nat)
    requires Descends(slots, pid, ancestor)
    ensures exists j :: 0 <= j < |slots| && Used(slots[j]) && slots[j].pid == pid
  {
    var path: seq<nat> :| Path(slots, path) && path[0] == pid;
    assert ParentIs(slots, path[0], path[1]);
  }

  lemma TableBound(s: State)
    requires Good(s)
    ensures |s.slots| <= MAX_PROCESSES
  {
  }

  /** The ended children of `pid` in the slots. */
  ghost function Ended(slots: seq<Process>, pid: nat): set<nat> {
    set p | p in slots && p.life == Zombie && p.parent == pid :: p.pid
  }

  lemma EndedNext(slots: seq<Process>, k: nat, pid: nat)
    requires k < |slots|
    ensures Ended(slots[..k + 1], pid) ==
              Ended(slots[..k], pid) + if slots[k].life == Zombie && slots[k].parent == pid then {slots[k].pid} else {}
  {
    assert slots[..k + 1] == slots[..k] + [slots[k]];
  }
}
